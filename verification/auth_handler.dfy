/** The older login handler over the `users` and `roles` tables: an email lookup, a bcrypt
    comparison, and a token whose claims hold only the user id, the role name and a 24-hour expiry.
    The token is returned without the `Bearer ` scheme. The signing key is read once at start-up and
    is a parameter here. */
module AuthHandler {

  import opened Base
  import opened Collections
  import opened Response
  import opened Crypto
  import opened Jwt
  import opened LegacyStore

  /** The bound body; gin's `required,email` binding rules are part of binding. */
  datatype LegacyLoginInput = LegacyLoginInput(email: string, password: string)

  /** `gin.H{"token": token}`. */
  datatype TokenData = TokenData(token: string)

  const LegacyBadCredentials := "Invalid email or password"

  /** The first user (ascending id) with the email. */
  function UserByEmail(db: LegacyDb, email: string): (r: Option<nat>)
    ensures r.Some? ==> r.value in db.users && db.users[r.value].email == email
    ensures r.None? <==> forall k :: k in db.users ==> db.users[k].email != email
  {
    FirstMatch(db.users, (u: LegacyUserRow) => u.email == email)
  }

  /** The preloaded role name: empty when the user's role row is missing. */
  function RoleNameOf(db: LegacyDb, u: LegacyUserRow): string
  {
    if u.roleId in db.roles then db.roles[u.roleId].name else ""
  }

  /** `Authenticate`. `matches(hash, plain)` is bcrypt's comparison; `sign(claims, key)` signs HS256. */
  function LegacyAuthenticate(db: LegacyDb, body: Binding<LegacyLoginInput>, matches: (string, string) -> bool,
                              key: string, now: int, sign: (Claims, string) -> SignResult): (e: Envelope<TokenData>)
    ensures body.BindFailed? ==> e == ResponseFormatter(StatusBadRequest, None, "Invalid input")
    ensures body.Bound? && UserByEmail(db, body.value.email).None? ==>
      e == ResponseFormatter(StatusUnauthorized, None, LegacyBadCredentials)
    ensures body.Bound? && UserByEmail(db, body.value.email).Some? ==>
      var id := UserByEmail(db, body.value.email).value;
      var u := db.users[id];
      && (!matches(u.password, body.value.password) ==> e == ResponseFormatter(StatusUnauthorized, None, LegacyBadCredentials))
      && (matches(u.password, body.value.password) ==>
            match sign(LegacyClaims(id, RoleNameOf(db, u), now), key)
            case SignFailed(_) => e == ResponseFormatter(StatusInternalServerError, None, "Failed to generate token")
            case Signed(token) => e == ResponseFormatter(StatusOK, Some(TokenData(token)), "Login successful"))
  {
    if body.BindFailed? then ResponseFormatter(StatusBadRequest, None, "Invalid input")
    else
      var found := UserByEmail(db, body.value.email);
      if found.None? then ResponseFormatter(StatusUnauthorized, None, LegacyBadCredentials)
      else
        var u := db.users[found.value];
        if !matches(u.password, body.value.password) then ResponseFormatter(StatusUnauthorized, None, LegacyBadCredentials)
        else
          match sign(LegacyClaims(found.value, RoleNameOf(db, u), now), key)
          case SignFailed(_) => ResponseFormatter(StatusInternalServerError, None, "Failed to generate token")
          case Signed(token) => ResponseFormatter(StatusOK, Some(TokenData(token)), "Login successful")
  }

  // ---------------------------------------------------------------------------------------------
  // Properties

  /** An unknown email and a wrong password get the same 401. */
  lemma LegacyNoUserEnumeration(db: LegacyDb, input: LegacyLoginInput, matches: (string, string) -> bool,
                                key: string, now: int, sign: (Claims, string) -> SignResult)
    requires UserByEmail(db, input.email).None? || !matches(db.users[UserByEmail(db, input.email).value].password, input.password)
    ensures LegacyAuthenticate(db, Bound(input), matches, key, now, sign) == ResponseFormatter(StatusUnauthorized, None, LegacyBadCredentials)
  {
  }

  /** A successful login hands back the signer's token verbatim — no `Bearer ` prefix — and the claims
      signed hold the user's id and role name and nothing else but a 24-hour expiry. */
  lemma LegacyTokenUnprefixed(db: LegacyDb, input: LegacyLoginInput, matches: (string, string) -> bool,
                              key: string, now: int, sign: (Claims, string) -> SignResult)
    requires LegacyAuthenticate(db, Bound(input), matches, key, now, sign).httpStatus == StatusOK
    ensures UserByEmail(db, input.email).Some?
    ensures var id := UserByEmail(db, input.email).value;
      var c := LegacyClaims(id, RoleNameOf(db, db.users[id]), now);
      && sign(c, key).Signed?
      && LegacyAuthenticate(db, Bound(input), matches, key, now, sign).data == Payload(TokenData(sign(c, key).token))
      && c.userId == id && c.features == [] && c.expiresAt == now + 24 * SecondsPerHour
  {
  }
}
