/** The login service: one identifier that may be an email or a username, a bcrypt comparison, and a
    signed token returned with the `Bearer ` scheme already prefixed. The lookup preloads the user's
    role but not the role's features, so the token it signs lists no features. */
module AuthService {

  import opened Base
  import opened Collections
  import opened Models
  import opened Store
  import opened Response
  import opened Validator
  import opened Request
  import opened Crypto
  import opened Jwt

  /** `dtos.InputLoginDTO`. */
  datatype LoginInput = LoginInput(usernameOrEmail: string, password: string)

  /** The `data` of a successful login. `loginAt` is the clock reading. */
  datatype LoginData = LoginData(loginAt: int, user: string, role: string, token: string)

  const BadCredentials := "Invalid email or password"

  /** The first user (ascending id) whose email or username is the identifier. */
  function MatchingUser(db: Db, ident: string): (r: Option<nat>)
    ensures r.Some? ==> r.value in db.users && (db.users[r.value].email == ident || db.users[r.value].username == ident)
    ensures r.None? <==> forall k :: k in db.users ==> db.users[k].email != ident && db.users[k].username != ident
  {
    FirstMatch(db.users, (row: UserRow) => row.email == ident || row.username == ident)
  }

  /** `inputValidator`: the matched user (the zero user when none matches) with the role preloaded as
      given, and whether the credentials are rejected. An unknown identifier and a wrong password are
      the same rejection. `matches(hash, plain)` is bcrypt's comparison. */
  function CheckCredentials(db: Db, input: LoginInput, preload: RolePreload, matches: (string, string) -> bool)
    : (out: (User, bool))
    ensures MatchingUser(db, input.usernameOrEmail).None? ==> out == (ZeroUser, true)
    ensures MatchingUser(db, input.usernameOrEmail).Some? ==>
      var id := MatchingUser(db, input.usernameOrEmail).value;
      && out.0 == LoadUser(db, id, preload)
      && (out.1 <==> !matches(db.users[id].password, input.password))
  {
    var found := MatchingUser(db, input.usernameOrEmail);
    if found.None? then (ZeroUser, true)
    else
      var user := LoadUser(db, found.value, preload);
      (user, !matches(user.password, input.password))
  }

  /** `Login`, with the preload of the user lookup as a parameter: the source uses `RoleOnly`. */
  function LoginUsing(db: Db, body: Binding<LoginInput>, check: ValidationOutcome, preload: RolePreload,
                      matches: (string, string) -> bool, env: Environment, now: int,
                      sign: (Claims, string) -> SignResult): (r: ServiceResponse<LoginData>)
    ensures body.BindFailed? ==> r == Fail(StatusBadRequest, "Invalid Input", Failure(body.text))
    ensures body.Bound? && !check.Passed? ==> r == Fail(StatusBadRequest, "Error Invalid Data", ValidationErrorsV1(check))
    ensures body.Bound? && check.Passed? && CheckCredentials(db, body.value, preload, matches).1 ==>
      r == Fail(StatusBadRequest, BadCredentials, Failure(""))
    ensures r.status == StatusOK <==>
      && body.Bound? && check.Passed?
      && !CheckCredentials(db, body.value, preload, matches).1
      && GenerateJwt(CheckCredentials(db, body.value, preload, matches).0, env, now, sign).1.None?
    ensures r.status == StatusOK ==>
      var user := CheckCredentials(db, body.value, preload, matches).0;
      var token := GenerateJwt(user, env, now, sign).0;
      r == Succeed(StatusOK, "User Login Successfully", Some(LoginData(now, user.name, user.role.name, "Bearer " + token)))
    ensures r.status != StatusOK ==> r.status == StatusBadRequest && r.data.None?
  {
    if body.BindFailed? then Fail(StatusBadRequest, "Invalid Input", Failure(body.text))
    else if !check.Passed? then Fail(StatusBadRequest, "Error Invalid Data", ValidationErrorsV1(check))
    else
      var (user, rejected) := CheckCredentials(db, body.value, preload, matches);
      if rejected then Fail(StatusBadRequest, BadCredentials, Failure(""))
      else
        var (token, err) := GenerateJwt(user, env, now, sign);
        if err.Some? then Fail(StatusBadRequest, "Failed to generate token", Failure(err.value))
        else Succeed(StatusOK, "User Login Successfully", Some(LoginData(now, user.name, user.role.name, "Bearer " + token)))
  }

  /** `Login` as written: the role is preloaded without its features. */
  function Login(db: Db, body: Binding<LoginInput>, check: ValidationOutcome, matches: (string, string) -> bool,
                 env: Environment, now: int, sign: (Claims, string) -> SignResult): (r: ServiceResponse<LoginData>)
    ensures r == LoginUsing(db, body, check, RoleOnly, matches, env, now, sign)
    ensures r.status == StatusOK ==> BuildClaims(CheckCredentials(db, body.value, RoleOnly, matches).0, env, now).features == []
  {
    LoginUsing(db, body, check, RoleOnly, matches, env, now, sign)
  }

  /** `Login` preloading `Role.Features` as the token builder expects. */
  function LoginFixed(db: Db, body: Binding<LoginInput>, check: ValidationOutcome, matches: (string, string) -> bool,
                      env: Environment, now: int, sign: (Claims, string) -> SignResult): (r: ServiceResponse<LoginData>)
    ensures r == LoginUsing(db, body, check, RoleAndFeatures, matches, env, now, sign)
  {
    LoginUsing(db, body, check, RoleAndFeatures, matches, env, now, sign)
  }

  // ---------------------------------------------------------------------------------------------
  // Properties

  /** Whatever features the user's role grants, the claims a successful login signs list none. */
  lemma LoginTokenHasNoFeatures(db: Db, input: LoginInput, matches: (string, string) -> bool, env: Environment, now: int)
    requires MatchingUser(db, input.usernameOrEmail).Some?
    ensures BuildClaims(CheckCredentials(db, input, RoleOnly, matches).0, env, now).features == []
  {
  }

  /** With the features preloaded, the signed claims list exactly the names of the active features
      the user's role is joined to, in ascending id order. */
  lemma FixedLoginTokenListsRoleFeatures(db: Db, input: LoginInput, matches: (string, string) -> bool, env: Environment, now: int)
    requires MatchingUser(db, input.usernameOrEmail).Some?
    requires db.users[MatchingUser(db, input.usernameOrEmail).value].roleId in db.roles
    ensures var id := MatchingUser(db, input.usernameOrEmail).value;
      var granted := LoadFeatures(db.features, db.roles[db.users[id].roleId].features);
      var names := BuildClaims(CheckCredentials(db, input, RoleAndFeatures, matches).0, env, now).features;
      |names| == |granted| && forall i :: 0 <= i < |names| ==> names[i] == granted[i].name
  {
  }

  /** An unknown identifier and a known one with the wrong password get the same answer. */
  lemma NoUserEnumeration(db: Db, input: LoginInput, check: ValidationOutcome, matches: (string, string) -> bool,
                          env: Environment, now: int, sign: (Claims, string) -> SignResult)
    requires check.Passed?
    requires MatchingUser(db, input.usernameOrEmail).None? ||
             !matches(db.users[MatchingUser(db, input.usernameOrEmail).value].password, input.password)
    ensures Login(db, Bound(input), check, matches, env, now, sign) == Fail(StatusBadRequest, BadCredentials, Failure(""))
  {
  }
}
