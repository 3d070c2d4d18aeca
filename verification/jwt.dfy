/** The claims the login token carries and how they are built: the role's feature names flattened into
    a list, a lifetime in hours read from `JWT_TIME`, and the registered time claims of section 4.1 of
    RFC 7519 (`exp`, `nbf`, `iat`) in Unix seconds. HS256 signing (section 3.2 of RFC 7518) is a
    parameter. */
module Jwt {

  import opened Base
  import opened Numbers
  import opened Models
  import opened Request
  import opened Crypto

  /** `dtos.Claims`. A registered time claim that was not set is 0 (omitted when encoded). */
  datatype Claims = Claims(userId: nat, roleId: nat, user: string, role: string, isAdministrative: bool,
                           features: seq<string>, expiresAt: int, issuedAt: int, notBefore: int)

  /** The names of a role's features, in the order the role lists them. */
  function FeatureNames(fs: seq<Feature>): (names: seq<string>)
    ensures |names| == |fs|
    ensures forall i :: 0 <= i < |fs| ==> names[i] == fs[i].name
  {
    if |fs| == 0 then [] else [fs[0].name] + FeatureNames(fs[1..])
  }

  const DefaultLifetime := 24
  const NanosPerSecond := 1_000_000_000
  const SecondsPerHour := 3600

  /** The token lifetime in hours: `JWT_TIME` when it is a decimal int64 (zero and negative values
      included), 24 when it is unset, empty or anything else. */
  function LifetimeHours(env: Environment): (h: int)
    ensures "JWT_TIME" in env && env["JWT_TIME"] != "" && Atoi(env["JWT_TIME"]).Converted? ==> h == IntValue(env["JWT_TIME"])
    ensures "JWT_TIME" in env && env["JWT_TIME"] != "" && Atoi(env["JWT_TIME"]).Failed() ==> h == DefaultLifetime
    ensures "JWT_TIME" !in env || env["JWT_TIME"] == "" ==> h == DefaultLifetime
    ensures MinInt64 <= h <= MaxInt64
  {
    var text := EnvWithDefault(env, "JWT_TIME", "24");
    var parsed := Atoi(text);
    if parsed.Failed() then DefaultLifetime
    else
      assert text == "24" ==> parsed.value == 24 by {
        if text == "24" { AtoiRoundTrip(24); assert IntToDecimal(24) == "24"; }
      }
      parsed.value
  }

  /** `time.Now().Add(time.Duration(h) * time.Hour).Unix()` for a clock reading of whole seconds.
      The product is an int64 count of nanoseconds and wraps; `Add` then moves by the floor of that
      count in seconds. */
  function ExpiresAt(now: int, hours: int): (exp: int)
  {
    now + Wrap64(hours * SecondsPerHour * NanosPerSecond) / NanosPerSecond
  }

  /** The claims for a user whose role (and features) were preloaded as given, at Unix time `now`. The
      role id is taken from the preloaded role, not from the user's own `role_id` column. */
  function BuildClaims(user: User, env: Environment, now: int): (c: Claims)
    ensures c.userId == user.id && c.user == user.name
    ensures c.roleId == user.role.id && c.role == user.role.name && c.isAdministrative == user.role.isAdministrative
    ensures |c.features| == |user.role.features|
    ensures forall i :: 0 <= i < |c.features| ==> c.features[i] == user.role.features[i].name
    ensures c.issuedAt == now && c.notBefore == now
    ensures c.expiresAt == ExpiresAt(now, LifetimeHours(env))
  {
    Claims(user.id, user.role.id, user.name, user.role.name, user.role.isAdministrative,
           FeatureNames(user.role.features), ExpiresAt(now, LifetimeHours(env)), now, now)
  }

  /** `GenerateJWT`: the signed token and no error, or the empty string and the signing error. The key
      is `JWT_SECRET` as read from the environment (empty when unset). */
  function GenerateJwt(user: User, env: Environment, now: int, sign: (Claims, string) -> SignResult): (out: (string, Option<string>))
    ensures var key := if "JWT_SECRET" in env then env["JWT_SECRET"] else "";
      var signed := sign(BuildClaims(user, env, now), key);
      && (signed.Signed? ==> out == (signed.token, None))
      && (signed.SignFailed? ==> out == ("", Some(signed.text)))
  {
    var key := if "JWT_SECRET" in env then env["JWT_SECRET"] else "";
    match sign(BuildClaims(user, env, now), key)
    case Signed(token) => (token, None)
    case SignFailed(text) => ("", Some(text))
  }

  // ---------------------------------------------------------------------------------------------
  // The legacy handler's claims

  /** The legacy `handlers.Claims`: a user id and a role name, expiring 24 hours after `now`; neither
      `iat` nor `nbf` is set. */
  function LegacyClaims(userId: nat, roleName: string, now: int): (c: Claims)
    ensures c.userId == userId && c.role == roleName
    ensures c.expiresAt == now + 24 * SecondsPerHour && c.issuedAt == 0 && c.notBefore == 0
    ensures c.features == [] && c.roleId == 0 && c.user == "" && !c.isAdministrative
  {
    Claims(userId, 0, "", roleName, false, [], ExpiresAt(now, 24), 0, 0)
  }

  // ---------------------------------------------------------------------------------------------
  // Properties

  /** Any int64 written into `JWT_TIME` is the lifetime, zero and negative values included. */
  lemma LifetimeReadsBack(env: Environment, h: int)
    requires MinInt64 <= h <= MaxInt64
    ensures LifetimeHours(env["JWT_TIME" := IntToDecimal(h)]) == h
  {
    AtoiRoundTrip(h);
    var s := IntToDecimal(h);
    assert s != "" by { if h < 0 { assert s[0] == '-'; } }
  }

  /** Within the range where the nanosecond count fits in 64 bits, the token lives exactly the
      configured number of hours. */
  lemma ExpiryExact(now: int, hours: int)
    requires MinInt64 <= hours * SecondsPerHour * NanosPerSecond <= MaxInt64
    ensures ExpiresAt(now, hours) == now + hours * SecondsPerHour
  {
    var seconds := hours * SecondsPerHour;
    var nanos := seconds * NanosPerSecond;
    Wrap64InRange(nanos);
    assert nanos / NanosPerSecond == seconds;
  }

  /** Just past that range the product wraps negative: a lifetime of 2562048 hours yields a token
      that expired before it was issued. */
  lemma ExpiryWrapsForHugeLifetimes(now: int)
    ensures ExpiresAt(now, 2562048) < now
  {
    var nanos := 2562048 * SecondsPerHour * NanosPerSecond;
    assert nanos == 9223372800000000000;
    assert Wrap64(nanos) == nanos - 0x1_0000_0000_0000_0000;
  }
}
