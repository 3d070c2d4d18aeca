/** The database of the access-control core as maps of active (not soft-deleted) rows keyed by id, and
    the preloads that turn rows into the entities of `Models`. A soft-deleted row is simply absent. */
module Store {

  import opened Base
  import opened Collections
  import opened Models

  datatype ModuleRow = ModuleRow(name: string, parentId: Option<nat>)
  datatype FeatureRow = FeatureRow(moduleId: nat, name: string)
  /** A role row together with its rows of the role-feature join table. Join rows may name features
      that have since been deleted; preloads skip those. */
  datatype RoleRow = RoleRow(name: string, isAdministrative: bool, features: set<nat>)
  datatype UserRow = UserRow(roleId: nat, name: string, email: string, username: string, password: string)

  datatype Db = Db(
    modules: map<nat, ModuleRow>,
    features: map<nat, FeatureRow>,
    roles: map<nat, RoleRow>,
    users: map<nat, UserRow>)

  /** The text of `gorm.ErrRecordNotFound`, which `First` returns when no row matches. */
  const RecordNotFound := "record not found"

  /** A path id (already parsed) names an active row of `table`. Negative ids name no row. */
  predicate HasRow<V>(table: map<nat, V>, id: int)
  {
    id >= 0 && id as nat in table
  }

  /** How much of a user's role a query preloads. */
  datatype RolePreload = NoRole | RoleOnly | RoleAndFeatures

  /** A feature row read on its own (its module not preloaded). */
  function LoadFeature(features: map<nat, FeatureRow>, id: nat): (f: Feature)
    requires id in features
    ensures f.id == id && f.name == features[id].name && f.moduleId == features[id].moduleId
    ensures f.owner == ZeroModule
  {
    FeatureWithoutModule(id, features[id].moduleId, features[id].name)
  }

  /** The active features among `ids`, in ascending id order — what `Where("id IN ?", ids).Find` and
      the many-to-many preload return. */
  function LoadFeatures(features: map<nat, FeatureRow>, ids: set<nat>): (fs: seq<Feature>)
    ensures |fs| == |ids * features.Keys|
    ensures forall i :: 0 <= i < |fs| ==> fs[i].id in ids && fs[i].id in features
    ensures forall i :: 0 <= i < |fs| ==> fs[i] == LoadFeature(features, fs[i].id)
    ensures forall i, j :: 0 <= i < j < |fs| ==> fs[i].id < fs[j].id
  {
    LoadEach(features, Sorted(ids * features.Keys))
  }

  function LoadEach(features: map<nat, FeatureRow>, keys: seq<nat>): (fs: seq<Feature>)
    requires forall k :: k in keys ==> k in features
    ensures |fs| == |keys|
    ensures forall i :: 0 <= i < |fs| ==> fs[i] == LoadFeature(features, keys[i])
  {
    if |keys| == 0 then [] else [LoadFeature(features, keys[0])] + LoadEach(features, keys[1..])
  }

  /** A role row read with or without its features. */
  function LoadRole(db: Db, id: nat, withFeatures: bool): (r: Role)
    requires id in db.roles
    ensures r.id == id && r.name == db.roles[id].name && r.isAdministrative == db.roles[id].isAdministrative
    ensures !withFeatures ==> r.features == []
  {
    var row := db.roles[id];
    Role(id, row.name, row.isAdministrative, if withFeatures then LoadFeatures(db.features, row.features) else [])
  }

  /** A user row read with the given preload of its role; a dangling role id preloads the zero role. */
  function LoadUser(db: Db, id: nat, preload: RolePreload): (u: User)
    requires id in db.users
    ensures u.id == id && u.roleId == db.users[id].roleId && u.name == db.users[id].name
    ensures u.email == db.users[id].email && u.password == db.users[id].password
    ensures preload.NoRole? || db.users[id].roleId !in db.roles ==> u.role == ZeroRole
    ensures !preload.NoRole? && db.users[id].roleId in db.roles ==>
      u.role == LoadRole(db, db.users[id].roleId, preload.RoleAndFeatures?)
  {
    var row := db.users[id];
    var role := if preload.NoRole? || row.roleId !in db.roles then ZeroRole
                else LoadRole(db, row.roleId, preload.RoleAndFeatures?);
    User(id, row.roleId, row.name, row.email, row.username, row.password, role)
  }

  /** The first id (ascending) of a row satisfying `p`, restricted to rows other than `except` when
      one is given — the `Limit(1).Where(…).Not("id = ?", …)` uniqueness query. */
  function FindOther<V>(table: map<nat, V>, p: V -> bool, except: Option<int>): (r: Option<nat>)
    ensures r.Some? ==> r.value in table && p(table[r.value]) && except != Some(r.value as int)
    ensures r.None? <==> forall k :: k in table && except != Some(k as int) ==> !p(table[k])
  {
    var others := map k | k in table && except != Some(k as int) :: table[k];
    var r := FirstMatch(others, p);
    assert r.None? ==> forall k :: k in table && except != Some(k as int) ==> k in others && !p(others[k]);
    r
  }

  /** A module row read without preloads. */
  function LoadModule(modules: map<nat, ModuleRow>, id: nat): (m: Module)
    requires id in modules
    ensures m.id == id && m.name == modules[id].name && m.parentId == modules[id].parentId
    ensures m.children == [] && m.features == []
  {
    Module(id, modules[id].name, modules[id].parentId, [], [])
  }

  /** The ids of the active modules whose parent is `id`, ascending. */
  function ChildIds(modules: map<nat, ModuleRow>, id: nat): (ks: seq<nat>)
    ensures forall k :: k in ks <==> k in modules && modules[k].parentId == Some(id)
    ensures forall i, j :: 0 <= i < j < |ks| ==> ks[i] < ks[j]
  {
    Sorted(set k | k in modules && modules[k].parentId == Some(id))
  }

  /** `Preload("Child").Preload("Features")` on one module: its direct children (themselves without
      preloads) and its features (without their module), both in ascending id order. */
  function LoadModuleTree(db: Db, id: nat): (m: Module)
    requires id in db.modules
    ensures m.id == id && m.name == db.modules[id].name && m.parentId == db.modules[id].parentId
    ensures |m.children| == |ChildIds(db.modules, id)|
    ensures forall i :: 0 <= i < |m.children| ==> m.children[i] == LoadModule(db.modules, ChildIds(db.modules, id)[i])
    ensures forall i :: 0 <= i < |m.features| ==> m.features[i].moduleId == id
    ensures m.features == LoadFeatures(db.features, FeatureIdsOf(db.features, id))
  {
    var childIds := ChildIds(db.modules, id);
    var children := seq(|childIds|, i requires 0 <= i < |childIds| => LoadModule(db.modules, childIds[i]));
    Module(id, db.modules[id].name, db.modules[id].parentId, children, LoadFeatures(db.features, FeatureIdsOf(db.features, id)))
  }

  /** The ids of the active features belonging to module `moduleId`. */
  function FeatureIdsOf(features: map<nat, FeatureRow>, moduleId: nat): (ids: set<nat>)
    ensures forall k :: k in ids <==> k in features && features[k].moduleId == moduleId
  {
    set k | k in features && features[k].moduleId == moduleId
  }

  /** A feature read with `Preload("Module")`: its module without preloads, or the zero module when
      the module row is gone. */
  function LoadFeatureWithModule(db: Db, id: nat): (f: Feature)
    requires id in db.features
    ensures f.id == id && f.name == db.features[id].name && f.moduleId == db.features[id].moduleId
    ensures f.moduleId in db.modules ==> f.owner == LoadModule(db.modules, f.moduleId)
    ensures f.moduleId !in db.modules ==> f.owner == ZeroModule
  {
    var row := db.features[id];
    Feature(id, row.moduleId, row.name, if row.moduleId in db.modules then LoadModule(db.modules, row.moduleId) else ZeroModule)
  }

  /** The id an insert gives a row: gorm keeps a non-zero id the body carries, and otherwise the
      database assigns the next id, `newId`. */
  function CreatedId(bodyId: nat, newId: nat): (id: nat)
    ensures bodyId != 0 ==> id == bodyId
    ensures bodyId == 0 ==> id == newId
  {
    if bodyId != 0 then bodyId else newId
  }
}
