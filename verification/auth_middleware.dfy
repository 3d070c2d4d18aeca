/** The two gates in front of every access-control route. `Authentication` accepts only an
    `Authorization: Bearer <token>` header (section 2.1 of RFC 6750), verifies the token and copies its
    claims into the request context; `Authorization` lets the request through when the caller holds at
    least one of the route's allowed features. Token parsing and signature checking are a parameter
    that reports the library's verdict. */
module AuthMiddleware {

  import opened Base
  import opened Strings
  import opened Models
  import opened Response
  import opened Jwt
  import opened Context

  /** The bits of a `jwt.ValidationError` the gate inspects, plus every other kind of failure. */
  datatype ValidationFlag = Malformed | Unverifiable | SignatureInvalid | Expired | IssuedAt | NotValidYet | ClaimsInvalid

  /** What `jwt.ParseWithClaims` reports: a valid token and its claims, a `ValidationError` with its
      set of flags, or an error of some other type. */
  datatype Verification = Verified(claims: Claims) | Rejected(flags: set<ValidationFlag>) | OtherError

  /** A gate either passes the (possibly extended) context on to the next handler, or aborts with the
      envelope it wrote. */
  datatype GateResult = Continue(ctx: Ctx) | Abort(response: Envelope<()>)

  const BearerPrefix := "Bearer "
  const TokenMissing := "Authorization token not provided"
  const TokenExpired := "Token has expired"
  const TokenNotYetValid := "Token is not valid yet"
  const TokenInvalid := "Invalid token"
  const AccessDenied := "Unauthorized to access this resource"

  /** The message for a failed verification: the two time errors are told apart only when they are the
      sole flag; everything else, a bad signature included, is an invalid token. */
  function RejectionMessage(v: Verification): (m: string)
    requires !v.Verified?
    ensures m == TokenExpired <==> v == Rejected({Expired})
    ensures m == TokenNotYetValid <==> v == Rejected({NotValidYet})
    ensures m == TokenExpired || m == TokenNotYetValid || m == TokenInvalid
  {
    if v.Rejected? && v.flags == {Expired} then TokenExpired
    else if v.Rejected? && v.flags == {NotValidYet} then TokenNotYetValid
    else TokenInvalid
  }

  /** The user the gate stores: only id, name and role id are known from the token. */
  function ClaimedUser(c: Claims): (u: User)
    ensures u.id == c.userId && u.name == c.user && u.roleId == c.roleId
    ensures u.email == "" && u.password == "" && u.role == ZeroRole
  {
    ZeroUser.(id := c.userId, name := c.user, roleId := c.roleId)
  }

  /** The role the gate stores, without features. */
  function ClaimedRole(c: Claims): (r: Role)
    ensures r.id == c.roleId && r.name == c.role && r.isAdministrative == c.isAdministrative && r.features == []
  {
    Role(c.roleId, c.role, c.isAdministrative, [])
  }

  /** `Authentication`. `header` is the Authorization header ("" when absent); `verify` is the token
      library's verdict on the text after the prefix. */
  function Authenticate(ctx: Ctx, header: string, verify: string -> Verification): (r: GateResult)
    ensures !HasPrefix(header, BearerPrefix) ==> r == Abort(ResponseFormatter(StatusUnauthorized, None, TokenMissing))
    ensures HasPrefix(header, BearerPrefix) ==>
      var v := verify(header[|BearerPrefix|..]);
      && (v.Verified? ==> r == Continue(ctx["user" := UserValue(ClaimedUser(v.claims))]
                                           ["role" := RoleValue(ClaimedRole(v.claims))]
                                           ["features" := FeatureList(v.claims.features)]))
      && (!v.Verified? ==> r == Abort(ResponseFormatter(StatusUnauthorized, None, RejectionMessage(v))))
    ensures r.Continue? <==> HasPrefix(header, BearerPrefix) && verify(header[|BearerPrefix|..]).Verified?
    ensures r.Abort? ==> r.response.httpStatus == StatusUnauthorized && !r.response.success
  {
    if header == "" || !HasPrefix(header, BearerPrefix) then
      Abort(ResponseFormatter(StatusUnauthorized, None, TokenMissing))
    else
      var token := TrimPrefix(header, BearerPrefix);
      match verify(token)
      case Verified(claims) =>
        Continue(ctx["user" := UserValue(ClaimedUser(claims))]
                    ["role" := RoleValue(ClaimedRole(claims))]
                    ["features" := FeatureList(claims.features)])
      case _ => Abort(ResponseFormatter(StatusUnauthorized, None, RejectionMessage(verify(token))))
  }

  /** The intersection rule, stated over the two lists: some held feature equals some allowed one. */
  predicate Grants(held: seq<string>, allowed: seq<string>)
  {
    exists i, j :: 0 <= i < |held| && 0 <= j < |allowed| && held[i] == allowed[j]
  }

  /** The feature names the context holds, when it holds a string list under "features". */
  function HeldFeatures(ctx: Ctx): Option<seq<string>>
  {
    if "features" in ctx && ctx["features"].FeatureList? then Some(ctx["features"].names) else None
  }

  /** The gate's decision, stated directly: continue with the context unchanged exactly when the
      context holds a feature list that shares a name with `allowed`, else 403. */
  function AuthorizationDecision(ctx: Ctx, allowed: seq<string>): GateResult
  {
    if HeldFeatures(ctx).Some? && Grants(HeldFeatures(ctx).value, allowed) then Continue(ctx)
    else Abort(ResponseFormatter(StatusForbidden, None, AccessDenied))
  }

  /** `Authorization(allowed)`: builds the set of allowed names, then scans the held list and lets the
      request through at the first held name in that set. A missing or mistyped `features` entry, and
      an empty intersection, abort with 403. */
  method Authorize(ctx: Ctx, allowed: seq<string>) returns (r: GateResult)
    ensures r.Continue? ==> r.ctx == ctx
    ensures r.Abort? ==> r.response == ResponseFormatter(StatusForbidden, None, AccessDenied)
    ensures r.Continue? <==> HeldFeatures(ctx).Some? && Grants(HeldFeatures(ctx).value, allowed)
    ensures r == AuthorizationDecision(ctx, allowed)
  {
    var denied := Abort(ResponseFormatter(StatusForbidden, None, AccessDenied));
    if "features" !in ctx || !ctx["features"].FeatureList? {
      return denied;
    }
    var held := ctx["features"].names;
    var allowedSet: set<string> := {};
    var k := 0;
    while k < |allowed|
      invariant 0 <= k <= |allowed|
      invariant forall x :: x in allowedSet <==> exists j :: 0 <= j < k && allowed[j] == x
    {
      allowedSet := allowedSet + {allowed[k]};
      k := k + 1;
    }
    var i := 0;
    while i < |held|
      invariant 0 <= i <= |held|
      invariant forall m :: 0 <= m < i ==> held[m] !in allowedSet
    {
      if held[i] in allowedSet {
        return Continue(ctx);
      }
      i := i + 1;
    }
    return denied;
  }

  // ---------------------------------------------------------------------------------------------
  // Properties

  /** The names of a list, without order or repetition. */
  function Names(s: seq<string>): set<string>
  {
    set x | x in s
  }

  /** The decision depends only on the two lists' sets of names: order and duplicates are irrelevant. */
  lemma GrantsBySets(held: seq<string>, allowed: seq<string>)
    ensures Grants(held, allowed) <==> Names(held) * Names(allowed) != {}
  {
    if Grants(held, allowed) {
      var i, j :| 0 <= i < |held| && 0 <= j < |allowed| && held[i] == allowed[j];
      assert held[i] in Names(held) * Names(allowed);
    }
    if Names(held) * Names(allowed) != {} {
      var x :| x in Names(held) * Names(allowed);
      var i :| 0 <= i < |held| && held[i] == x;
      var j :| 0 <= j < |allowed| && allowed[j] == x;
    }
  }

  /** Two permutations (or re-duplications) of the lists give the same decision. */
  lemma GrantsIgnoresOrder(held: seq<string>, held': seq<string>, allowed: seq<string>, allowed': seq<string>)
    requires Names(held) == Names(held') && Names(allowed) == Names(allowed')
    ensures Grants(held, allowed) <==> Grants(held', allowed')
  {
    GrantsBySets(held, allowed);
    GrantsBySets(held', allowed');
  }

  /** An empty allowed list, or an empty held list, denies. */
  lemma EmptyListsDeny(held: seq<string>, allowed: seq<string>)
    requires held == [] || allowed == []
    ensures !Grants(held, allowed)
  {
  }

  /** One matching feature is enough, whatever else is held. */
  lemma AnyOneSuffices(held: seq<string>, allowed: seq<string>, f: string)
    requires f in held && f in allowed
    ensures Grants(held, allowed)
  {
    var i :| 0 <= i < |held| && held[i] == f;
    var j :| 0 <= j < |allowed| && allowed[j] == f;
  }

  /** Exactly one `Bearer ` is stripped: a doubled prefix hands the second copy to the verifier. */
  lemma OnePrefixStripped(token: string)
    ensures (BearerPrefix + BearerPrefix + token)[|BearerPrefix|..] == BearerPrefix + token
  {
  }

  /** The scheme name is matched case-sensitively, and a bare `Bearer` without the space is rejected. */
  lemma SchemeCaseSensitive(ctx: Ctx, token: string, verify: string -> Verification)
    ensures Authenticate(ctx, "bearer " + token, verify) == Abort(ResponseFormatter(StatusUnauthorized, None, TokenMissing))
    ensures Authenticate(ctx, "Bearer", verify) == Abort(ResponseFormatter(StatusUnauthorized, None, TokenMissing))
  {
    assert ("bearer " + token)[0] == 'b';
  }

  /** A request that passes authentication carries a feature list, so the second gate decides by the
      intersection alone: the claims' features against the route's list. */
  lemma AuthenticatedDecision(ctx: Ctx, header: string, verify: string -> Verification)
    requires Authenticate(ctx, header, verify).Continue?
    ensures var c := verify(header[|BearerPrefix|..]).claims;
      HeldFeatures(Authenticate(ctx, header, verify).ctx) == Some(c.features)
  {
  }
}
