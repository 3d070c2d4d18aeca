/** `GetUserPayload` and `GetRolePayload`: copy the caller's user or role out of the request context
    into a target, leaving the target as it was when the key is missing or holds another type. */
module Payload {

  import opened Models
  import opened Context
  import opened Jwt
  import opened AuthMiddleware

  function GetUserPayload(ctx: Ctx, target: User): (u: User)
    ensures "user" !in ctx ==> u == target
    ensures "user" in ctx && !ctx["user"].UserValue? ==> u == target
    ensures "user" in ctx && ctx["user"].UserValue? ==> u == ctx["user"].user
  {
    if "user" in ctx && ctx["user"].UserValue? then ctx["user"].user else target
  }

  function GetRolePayload(ctx: Ctx, target: Role): (r: Role)
    ensures "role" !in ctx ==> r == target
    ensures "role" in ctx && !ctx["role"].RoleValue? ==> r == target
    ensures "role" in ctx && ctx["role"].RoleValue? ==> r == ctx["role"].role
  {
    if "role" in ctx && ctx["role"].RoleValue? then ctx["role"].role else target
  }

  /** Reading a payload twice is the same as reading it once: the second read overwrites the target
      with the same value, or leaves it alone. */
  lemma PayloadIdempotent(ctx: Ctx, u: User, r: Role)
    ensures GetUserPayload(ctx, GetUserPayload(ctx, u)) == GetUserPayload(ctx, u)
    ensures GetRolePayload(ctx, GetRolePayload(ctx, r)) == GetRolePayload(ctx, r)
  {
  }

  /** After the authentication gate, the payload helpers read back exactly the user and role the
      token claimed, whatever the targets held before. */
  lemma AuthenticatedPayload(ctx: Ctx, header: string, verify: string -> Verification, u: User, r: Role)
    requires Authenticate(ctx, header, verify).Continue?
    ensures var c := verify(header[|BearerPrefix|..]).claims;
      var ctx' := Authenticate(ctx, header, verify).ctx;
      GetUserPayload(ctx', u) == ClaimedUser(c) && GetRolePayload(ctx', r) == ClaimedRole(c)
  {
  }
}
