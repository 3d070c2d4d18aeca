/** The per-request key/value store of gin (`c.Set` / `c.Get`) as the access-control code uses it:
    the authentication gate writes the caller's user, role and feature names, and later handlers read
    them back with a type assertion. */
module Context {

  import opened Models

  /** A stored value, by its dynamic Go type: `*USR_User`, `*USR_Role`, `[]string`, or anything else. */
  datatype CtxValue = UserValue(user: User) | RoleValue(role: Role) | FeatureList(names: seq<string>) | OtherValue

  type Ctx = map<string, CtxValue>
}
