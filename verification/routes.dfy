/** The access-control routes: for each resource group (`/users`, `/roles`, `/modules`, `/features`)
    every endpoint passes the authentication gate and then the authorization gate with the feature
    list its router names. */
module Routes {

  import opened Base
  import opened Strings
  import opened Jwt
  import opened Context
  import opened AuthMiddleware

  datatype Resource = Users | Roles | Modules | Features

  datatype HttpMethod = Get | Post | Put | Delete | Patch

  /** What an endpoint does; the two password actions exist only under `/users`. */
  datatype Action = List | Detail | Create | Update | Remove | ResetPassword | ChangePassword

  /** The route registered for a method and a path pattern relative to the group, if any. */
  function RouteOf(res: Resource, m: HttpMethod, pattern: string): (a: Option<Action>)
    ensures a == Some(ResetPassword) <==> res == Users && m == Patch && pattern == "/reset-pass/:id"
    ensures a == Some(ChangePassword) <==> res == Users && m == Patch && pattern == "/change-pass/:id"
    ensures a == Some(Create) <==> m == Post && pattern == ""
    ensures a == Some(List) <==> m == Get && pattern == ""
  {
    match (m, pattern)
    case (Get, "") => Some(List)
    case (Get, "/:id") => Some(Detail)
    case (Post, "") => Some(Create)
    case (Put, "/:id") => Some(Update)
    case (Delete, "/:id") => Some(Remove)
    case (Patch, "/reset-pass/:id") => if res == Users then Some(ResetPassword) else None
    case (Patch, "/change-pass/:id") => if res == Users then Some(ChangePassword) else None
    case _ => None
  }

  /** The allowed-feature list each router passes to the authorization gate, as written; None for an
      action the group does not register. */
  function Allowed(res: Resource, a: Action): (l: Option<seq<string>>)
    ensures l.Some? <==> res == Users || (a != ResetPassword && a != ChangePassword)
  {
    match res
    case Users => UserRoutes(a)
    case Roles => RoleRoutes(a)
    case Modules => ModuleRoutes(a)
    case Features => FeatureRoutes(a)
  }

  /** `/users`: every action registered, each with the list the naming rule gives. */
  function UserRoutes(a: Action): (l: Option<seq<string>>)
    ensures l == Some(Expected(Users, a))
  {
    NounedFeatures(Users);
    match a
    case List =>
      assert ["View User", "Create User", "Update User", "Delete User"] + ["Reset User Password"]
        == ["View User", "Create User", "Update User", "Delete User", "Reset User Password"];
      Some(["View User", "Create User", "Update User", "Delete User", "Reset User Password"])
    case Detail => Some(["View User", "Create User", "Update User", "Delete User"])
    case Create => Some(["Create User"])
    case Update => Some(["Update User"])
    case Remove => Some(["Delete User"])
    case ResetPassword => Some(["Reset User Password"])
    case ChangePassword => Some(["Reset User Password"])
  }

  /** `/roles`: the five CRUD routes; all but DELETE follow the naming rule, and DELETE asks for
      "Create Role". */
  function RoleRoutes(a: Action): (l: Option<seq<string>>)
    ensures l.Some? <==> a != ResetPassword && a != ChangePassword
    ensures l.Some? && a != Remove ==> l.value == Expected(Roles, a)
    ensures a == Remove ==> l == Some([FeatureFor("Create", Roles)])
  {
    NounedFeatures(Roles);
    match a
    case List => Some(["View Role", "Create Role", "Update Role", "Delete Role"])
    case Detail => Some(["View Role", "Create Role", "Update Role", "Delete Role"])
    case Create => Some(["Create Role"])
    case Update => Some(["Update Role"])
    case Remove => Some(["Create Role"])
    case _ => None
  }

  /** `/modules`: the five CRUD routes, each following the naming rule. */
  function ModuleRoutes(a: Action): (l: Option<seq<string>>)
    ensures l.Some? <==> a != ResetPassword && a != ChangePassword
    ensures l.Some? ==> l.value == Expected(Modules, a)
  {
    NounedFeatures(Modules);
    match a
    case List => Some(["View Module", "Create Module", "Update Module", "Delete Module"])
    case Detail => Some(["View Module", "Create Module", "Update Module", "Delete Module"])
    case Create => Some(["Create Module"])
    case Update => Some(["Update Module"])
    case Remove => Some(["Delete Module"])
    case _ => None
  }

  /** `/features`: the five CRUD routes, each following the naming rule. */
  function FeatureRoutes(a: Action): (l: Option<seq<string>>)
    ensures l.Some? <==> a != ResetPassword && a != ChangePassword
    ensures l.Some? ==> l.value == Expected(Features, a)
  {
    NounedFeatures(Features);
    match a
    case List => Some(["View Feature", "Create Feature", "Update Feature", "Delete Feature"])
    case Detail => Some(["View Feature", "Create Feature", "Update Feature", "Delete Feature"])
    case Create => Some(["Create Feature"])
    case Update => Some(["Update Feature"])
    case Remove => Some(["Delete Feature"])
    case _ => None
  }

  /** The same table with the role DELETE route asking for "Delete Role". */
  function AllowedFixed(res: Resource, a: Action): (l: Option<seq<string>>)
    ensures l.Some? <==> Allowed(res, a).Some?
    ensures !(res == Roles && a == Remove) ==> l == Allowed(res, a)
    ensures res == Roles && a == Remove ==> l == Some([FeatureFor("Delete", Roles)])
  {
    NounedFeatures(Roles);
    if res == Roles && a == Remove then Some(["Delete Role"]) else Allowed(res, a)
  }

  // ---------------------------------------------------------------------------------------------
  // The naming rule the tables are meant to follow

  function Noun(res: Resource): string
  {
    match res
    case Users => "User"
    case Roles => "Role"
    case Modules => "Module"
    case Features => "Feature"
  }

  /** The feature named `verb` for a resource: "Create Role", "View Module", … */
  function FeatureFor(verb: string, res: Resource): string
  {
    verb + " " + Noun(res)
  }

  /** The four feature names of a resource, spelled out. */
  lemma NounedFeatures(res: Resource)
    ensures res == Users ==>
      && FeatureFor("View", res) == "View User" && FeatureFor("Create", res) == "Create User"
      && FeatureFor("Update", res) == "Update User" && FeatureFor("Delete", res) == "Delete User"
    ensures res == Roles ==>
      && FeatureFor("View", res) == "View Role" && FeatureFor("Create", res) == "Create Role"
      && FeatureFor("Update", res) == "Update Role" && FeatureFor("Delete", res) == "Delete Role"
    ensures res == Modules ==>
      && FeatureFor("View", res) == "View Module" && FeatureFor("Create", res) == "Create Module"
      && FeatureFor("Update", res) == "Update Module" && FeatureFor("Delete", res) == "Delete Module"
    ensures res == Features ==>
      && FeatureFor("View", res) == "View Feature" && FeatureFor("Create", res) == "Create Feature"
      && FeatureFor("Update", res) == "Update Feature" && FeatureFor("Delete", res) == "Delete Feature"
  {
  }

  /** The rule: reading needs any of the four CRUD features of the resource (listing users also admits
      "Reset User Password"); each write needs its own feature; the password actions need
      "Reset User Password". */
  function Expected(res: Resource, a: Action): seq<string>
  {
    var crud := [FeatureFor("View", res), FeatureFor("Create", res), FeatureFor("Update", res), FeatureFor("Delete", res)];
    match a
    case List => if res == Users then crud + ["Reset User Password"] else crud
    case Detail => crud
    case Create => [FeatureFor("Create", res)]
    case Update => [FeatureFor("Update", res)]
    case Remove => [FeatureFor("Delete", res)]
    case _ => ["Reset User Password"]
  }

  /** Where a route exists, the table as written follows the rule everywhere except the role DELETE
      route, which names "Create Role" instead of "Delete Role". */
  lemma TableFollowsRuleExceptRoleDelete(res: Resource, a: Action)
    requires Allowed(res, a).Some?
    ensures Allowed(res, a).value == Expected(res, a) <==> !(res == Roles && a == Remove)
  {
    NounedFeatures(res);
    if res == Roles && a == Remove {
      assert Allowed(res, a).value[0] != Expected(res, a)[0];
    }
  }

  /** The corrected table follows the rule on every route it registers. */
  lemma FixedTableFollowsRule(res: Resource, a: Action)
    requires AllowedFixed(res, a).Some?
    ensures AllowedFixed(res, a).value == Expected(res, a)
  {
    NounedFeatures(res);
  }

  /** Both tables register the same routes. */
  lemma FixedTableSameRoutes(res: Resource, a: Action)
    ensures AllowedFixed(res, a).Some? <==> Allowed(res, a).Some?
    ensures AllowedFixed(res, a).Some? <==> (RouteOf(res, Patch, "/reset-pass/:id") == Some(a) || RouteOf(res, Patch, "/change-pass/:id") == Some(a) || a in {List, Detail, Create, Update, Remove})
  {
  }

  // ---------------------------------------------------------------------------------------------
  // The two gates in sequence

  /** A request to an existing route: the authentication gate, then the authorization gate with the
      route's list. */
  function Guard(ctx: Ctx, header: string, verify: string -> Verification, allowed: seq<string>): (r: GateResult)
    ensures r.Continue? <==>
      && HasPrefix(header, BearerPrefix)
      && verify(header[|BearerPrefix|..]).Verified?
      && Grants(verify(header[|BearerPrefix|..]).claims.features, allowed)
    ensures r.Abort? && !Authenticate(ctx, header, verify).Continue? ==> r.response.httpStatus == StatusUnauthorized
    ensures r.Abort? && Authenticate(ctx, header, verify).Continue? ==> r.response.httpStatus == StatusForbidden
  {
    match Authenticate(ctx, header, verify)
    case Abort(resp) => Abort(resp)
    case Continue(ctx') => AuthorizationDecision(ctx', allowed)
  }

  /** Holding only "Delete Role" does not let a caller delete a role, while holding only
      "Create Role" does. */
  lemma DeleteRoleAloneCannotDelete(ctx: Ctx, header: string, verify: string -> Verification)
    requires HasPrefix(header, BearerPrefix) && verify(header[|BearerPrefix|..]).Verified?
    ensures verify(header[|BearerPrefix|..]).claims.features == ["Delete Role"] ==>
      Guard(ctx, header, verify, Allowed(Roles, Remove).value).response.httpStatus == StatusForbidden
    ensures verify(header[|BearerPrefix|..]).claims.features == ["Create Role"] ==>
      Guard(ctx, header, verify, Allowed(Roles, Remove).value).Continue?
  {
    var held := verify(header[|BearerPrefix|..]).claims.features;
    if held == ["Create Role"] {
      AnyOneSuffices(held, Allowed(Roles, Remove).value, "Create Role");
    }
  }

  /** With the corrected table, "Delete Role" is exactly what deleting a role takes. */
  lemma FixedDeleteRoleNeedsDeleteRole(held: seq<string>)
    ensures Grants(held, AllowedFixed(Roles, Remove).value) <==> "Delete Role" in held
  {
    if "Delete Role" in held {
      AnyOneSuffices(held, AllowedFixed(Roles, Remove).value, "Delete Role");
    }
  }

  /** A write route admits a caller exactly when the caller holds that write's own feature (the role
      DELETE route aside, which is the exception above). */
  lemma WritesNeedOwnFeature(res: Resource, a: Action, held: seq<string>)
    requires a == Create || a == Update || a == Remove
    requires !(res == Roles && a == Remove)
    ensures Allowed(res, a).Some?
    ensures Grants(held, Allowed(res, a).value) <==> Expected(res, a)[0] in held
  {
    TableFollowsRuleExceptRoleDelete(res, a);
    var allowed := Allowed(res, a).value;
    if Expected(res, a)[0] in held {
      AnyOneSuffices(held, allowed, allowed[0]);
    }
  }

  /** "Reset User Password" alone lists users and resets or changes passwords, but does not open a
      user's detail. */
  lemma ResetPasswordAlone()
    ensures Grants(["Reset User Password"], Allowed(Users, List).value)
    ensures !Grants(["Reset User Password"], Allowed(Users, Detail).value)
    ensures Grants(["Reset User Password"], Allowed(Users, ResetPassword).value)
    ensures Grants(["Reset User Password"], Allowed(Users, ChangePassword).value)
  {
    AnyOneSuffices(["Reset User Password"], Allowed(Users, List).value, "Reset User Password");
    AnyOneSuffices(["Reset User Password"], Allowed(Users, ResetPassword).value, "Reset User Password");
    AnyOneSuffices(["Reset User Password"], Allowed(Users, ChangePassword).value, "Reset User Password");
  }

  /** A token without features is refused by every route, with 403. */
  lemma NoFeaturesNoAccess(ctx: Ctx, header: string, verify: string -> Verification, res: Resource, a: Action)
    requires Allowed(res, a).Some?
    requires HasPrefix(header, BearerPrefix) && verify(header[|BearerPrefix|..]).Verified?
    requires verify(header[|BearerPrefix|..]).claims.features == []
    ensures Guard(ctx, header, verify, Allowed(res, a).value).Abort?
    ensures Guard(ctx, header, verify, Allowed(res, a).value).response.httpStatus == StatusForbidden
  {
    EmptyListsDeny([], Allowed(res, a).value);
  }
}
