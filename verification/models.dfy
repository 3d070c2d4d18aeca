/** The entities of the access-control core as the services see them once a row has been read, with
    whatever associations were preloaded. An association that was not preloaded is the zero value
    (an empty list or a zero struct), as in Go. */
module Models {

  import opened Base

  /** A menu module. `parentId` is None for a top-level module; `children` and `features` are filled
      only when preloaded. */
  datatype Module = Module(id: nat, name: string, parentId: Option<nat>, children: seq<Module>, features: seq<Feature>)

  /** A feature (a permission name) belonging to a module; `owner` (its module) is filled only when preloaded. The
      many-to-many back reference to roles is never read by the modelled code and is not represented. */
  datatype Feature = Feature(id: nat, moduleId: nat, name: string, owner: Module)

  /** A role and, when preloaded, the features it grants. */
  datatype Role = Role(id: nat, name: string, isAdministrative: bool, features: seq<Feature>)

  /** An account. `username` is the column the login lookup matches besides `email`; `password` holds
      the bcrypt hash once stored. */
  datatype User = User(id: nat, roleId: nat, name: string, email: string, username: string, password: string, role: Role)

  const ZeroModule := Module(0, "", None, [], [])
  const ZeroRole := Role(0, "", false, [])
  const ZeroUser := User(0, 0, "", "", "", "", ZeroRole)

  function FeatureWithoutModule(id: nat, moduleId: nat, name: string): Feature
  {
    Feature(id, moduleId, name, ZeroModule)
  }
}
