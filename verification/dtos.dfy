/** The data-transfer objects of the access-control core and the conversions between them and the
    entities of `Models` (the Go package `dtos`). Where a conversion builds its list with `append` on a
    nil slice, an empty result is `null` in JSON; `JsonList` keeps that difference visible. */
module Dtos {

  import opened Base
  import opened Numbers
  import opened Models

  // ---------------------------------------------------------------------------------------------
  // Modules

  /** The detail form of a module: the whole subtree, children always rendered as an array. */
  datatype ModuleDto = ModuleDto(id: nat, name: string, parentId: Option<nat>, children: seq<ModuleDto>)

  datatype ModuleMinimalDto = ModuleMinimalDto(id: nat, name: string, parentId: Option<nat>)

  /** A module with its direct children and its features, one level deep. */
  datatype ModuleFeaturesDto = ModuleFeaturesDto(
    id: nat, name: string, parentId: Option<nat>, children: seq<ModuleMinimalDto>, features: seq<FeatureMinimalDto>)

  /** `ToUSRModuleDTO`: the module tree with features left out. */
  function ToModuleDto(m: Module): (d: ModuleDto)
    ensures d.id == m.id && d.name == m.name && d.parentId == m.parentId
    ensures |d.children| == |m.children|
    decreases m
  {
    ModuleDto(m.id, m.name, m.parentId,
              seq(|m.children|, i requires 0 <= i < |m.children| => ToModuleDto(m.children[i])))
  }

  /** `ToUSRModuleModel`: a tree of modules without features. */
  function ToModuleModel(d: ModuleDto): (m: Module)
    ensures m.id == d.id && m.name == d.name && m.parentId == d.parentId
    ensures |m.children| == |d.children| && m.features == []
    decreases d
  {
    Module(d.id, d.name, d.parentId,
           seq(|d.children|, i requires 0 <= i < |d.children| => ToModuleModel(d.children[i])), [])
  }

  /** The module tree with every node's feature list emptied: the part of a module a DTO keeps. */
  function WithoutFeatures(m: Module): (r: Module)
    ensures r.id == m.id && r.name == m.name && r.parentId == m.parentId && r.features == []
    ensures |r.children| == |m.children|
    decreases m
  {
    Module(m.id, m.name, m.parentId,
           seq(|m.children|, i requires 0 <= i < |m.children| => WithoutFeatures(m.children[i])), [])
  }

  /** Every DTO tree survives a trip through the model unchanged. */
  lemma {:induction false} ModuleDtoRoundTrip(d: ModuleDto)
    ensures ToModuleDto(ToModuleModel(d)) == d
    decreases d
  {
    var back := ToModuleDto(ToModuleModel(d));
    forall i | 0 <= i < |d.children|
      ensures back.children[i] == d.children[i]
    {
      ModuleDtoRoundTrip(d.children[i]);
    }
  }

  /** A model tree survives a trip through the DTO except for its features, which are dropped at
      every level. */
  lemma {:induction false} ModuleModelRoundTrip(m: Module)
    ensures ToModuleModel(ToModuleDto(m)) == WithoutFeatures(m)
    decreases m
  {
    var back := ToModuleModel(ToModuleDto(m));
    forall i | 0 <= i < |m.children|
      ensures back.children[i] == WithoutFeatures(m).children[i]
    {
      ModuleModelRoundTrip(m.children[i]);
    }
  }

  /** The detail DTO of a module depends on nothing but the feature-free tree. */
  lemma {:induction false} ModuleDtoIgnoresFeatures(m: Module)
    ensures ToModuleDto(WithoutFeatures(m)) == ToModuleDto(m)
    decreases m
  {
    forall i | 0 <= i < |m.children|
      ensures ToModuleDto(WithoutFeatures(m)).children[i] == ToModuleDto(m).children[i]
    {
      ModuleDtoIgnoresFeatures(m.children[i]);
    }
  }

  /** `ToUSRModuleMinimalDTO`. */
  function ToModuleMinimalDto(m: Module): (d: ModuleMinimalDto)
    ensures d.id == m.id && d.name == m.name && d.parentId == m.parentId
  {
    ModuleMinimalDto(m.id, m.name, m.parentId)
  }

  /** `ToUSRModuleMinimalModel`: a childless, featureless module. */
  function ToModuleMinimalModel(d: ModuleMinimalDto): (m: Module)
    ensures m.id == d.id && m.name == d.name && m.parentId == d.parentId
    ensures m.children == [] && m.features == []
  {
    Module(d.id, d.name, d.parentId, [], [])
  }

  /** The minimal conversions are inverse on id, name and parent, in both directions. */
  lemma ModuleMinimalRoundTrip(d: ModuleMinimalDto, m: Module)
    ensures ToModuleMinimalDto(ToModuleMinimalModel(d)) == d
    ensures ToModuleMinimalModel(ToModuleMinimalDto(m)) == Module(m.id, m.name, m.parentId, [], [])
  {
  }

  /** `ToUSRModuleMinimalDTOs`: one minimal DTO per module, in order; `null` for no modules. */
  function ToModuleMinimalDtos(ms: seq<Module>): (r: JsonList<ModuleMinimalDto>)
    ensures r.Null? <==> |ms| == 0
    ensures |Elements(r)| == |ms|
    ensures forall i :: 0 <= i < |ms| ==> Elements(r)[i] == ToModuleMinimalDto(ms[i])
  {
    Appended(seq(|ms|, i requires 0 <= i < |ms| => ToModuleMinimalDto(ms[i])))
  }

  /** `ToUSRModuleWithFeaturesDTO`: direct children and features as minimal DTOs, each list an
      array even when empty. */
  function ToModuleWithFeaturesDto(m: Module): (d: ModuleFeaturesDto)
    ensures d.id == m.id && d.name == m.name && d.parentId == m.parentId
    ensures |d.children| == |m.children| && |d.features| == |m.features|
    ensures forall i :: 0 <= i < |m.children| ==> d.children[i] == ToModuleMinimalDto(m.children[i])
    ensures forall i :: 0 <= i < |m.features| ==> d.features[i] == ToFeatureMinimalDto(m.features[i])
  {
    ModuleFeaturesDto(m.id, m.name, m.parentId,
                      Elements(ToModuleMinimalDtos(m.children)), Elements(ToFeatureMinimalDtos(m.features)))
  }

  // ---------------------------------------------------------------------------------------------
  // Features

  datatype FeatureMinimalDto = FeatureMinimalDto(id: nat, name: string, moduleId: nat)

  datatype FeatureWithModuleDto = FeatureWithModuleDto(id: nat, name: string, owner: ModuleDto)

  /** `ToUSRFeatureMinimalDTO`. */
  function ToFeatureMinimalDto(f: Feature): (d: FeatureMinimalDto)
    ensures d.id == f.id && d.name == f.name && d.moduleId == f.moduleId
  {
    FeatureMinimalDto(f.id, f.name, f.moduleId)
  }

  /** `ToUSRFeatureMinimalModel`: a feature with no module preloaded. */
  function ToFeatureMinimalModel(d: FeatureMinimalDto): (f: Feature)
    ensures f.id == d.id && f.name == d.name && f.moduleId == d.moduleId && f.owner == ZeroModule
  {
    FeatureWithoutModule(d.id, d.moduleId, d.name)
  }

  /** The minimal feature conversions are inverse on id, name and module id. */
  lemma FeatureMinimalRoundTrip(d: FeatureMinimalDto, f: Feature)
    ensures ToFeatureMinimalDto(ToFeatureMinimalModel(d)) == d
    ensures ToFeatureMinimalModel(ToFeatureMinimalDto(f)) == FeatureWithoutModule(f.id, f.moduleId, f.name)
  {
  }

  /** `ToUSRFeatureMinimalDTOs`: one minimal DTO per feature, in order; `null` for no features. */
  function ToFeatureMinimalDtos(fs: seq<Feature>): (r: JsonList<FeatureMinimalDto>)
    ensures r.Null? <==> |fs| == 0
    ensures |Elements(r)| == |fs|
    ensures forall i :: 0 <= i < |fs| ==> Elements(r)[i] == ToFeatureMinimalDto(fs[i])
  {
    Appended(seq(|fs|, i requires 0 <= i < |fs| => ToFeatureMinimalDto(fs[i])))
  }

  /** `ToUSRFeatureMinimalWithModuleDTO`: id, name and the detail DTO of the preloaded module. */
  function ToFeatureWithModuleDto(f: Feature): (d: FeatureWithModuleDto)
    ensures d.id == f.id && d.name == f.name && d.owner == ToModuleDto(f.owner)
  {
    FeatureWithModuleDto(f.id, f.name, ToModuleDto(f.owner))
  }

  /** `ToUSRFeatureMinimalWithModuleDTOs`: one DTO per feature, in order, and an array even when
      there are none. */
  function ToFeatureWithModuleDtos(fs: seq<Feature>): (r: JsonList<FeatureWithModuleDto>)
    ensures r.Items? && |r.items| == |fs|
    ensures forall i :: 0 <= i < |fs| ==> r.items[i] == ToFeatureWithModuleDto(fs[i])
  {
    Items(seq(|fs|, i requires 0 <= i < |fs| => ToFeatureWithModuleDto(fs[i])))
  }

  // ---------------------------------------------------------------------------------------------
  // Roles

  /** The detail form of a role: its granted features as ids. */
  datatype RoleDto = RoleDto(id: nat, name: string, isAdministrative: bool, features: JsonList<nat>)

  datatype RoleMinimalDto = RoleMinimalDto(id: nat, name: string, isAdministrative: bool)

  /** The body of a role create or update: the requested feature ids. */
  datatype RoleInput = RoleInput(name: string, isAdministrative: bool, features: seq<nat>)

  function FeatureIds(fs: seq<Feature>): (ids: seq<nat>)
    ensures |ids| == |fs| && forall i :: 0 <= i < |fs| ==> ids[i] == fs[i].id
  {
    seq(|fs|, i requires 0 <= i < |fs| => fs[i].id)
  }

  /** `ToUSRRoleDTO`: the feature ids in the role's order; `null` for a role with no features. */
  function ToRoleDto(r: Role): (d: RoleDto)
    ensures d.id == r.id && d.name == r.name && d.isAdministrative == r.isAdministrative
    ensures d.features.Null? <==> |r.features| == 0
    ensures Elements(d.features) == FeatureIds(r.features)
  {
    RoleDto(r.id, r.name, r.isAdministrative, Appended(FeatureIds(r.features)))
  }

  /** `ToUSRRoleModel`: the feature ids are not carried back. */
  function ToRoleModel(d: RoleDto): (r: Role)
    ensures r.id == d.id && r.name == d.name && r.isAdministrative == d.isAdministrative && r.features == []
  {
    Role(d.id, d.name, d.isAdministrative, [])
  }

  /** `InputToUSRRoleModel`: a new role with no id and no features yet. */
  function InputToRoleModel(input: RoleInput): (r: Role)
    ensures r.id == 0 && r.name == input.name && r.isAdministrative == input.isAdministrative && r.features == []
  {
    Role(0, input.name, input.isAdministrative, [])
  }

  /** The detail conversions lose the feature list and nothing else. */
  lemma RoleDtoRoundTrip(d: RoleDto, r: Role)
    ensures ToRoleDto(ToRoleModel(d)) == d.(features := Null)
    ensures ToRoleModel(ToRoleDto(r)) == r.(features := [])
  {
  }

  /** `ToUSRRoleMinimalDTO`. */
  function ToRoleMinimalDto(r: Role): (d: RoleMinimalDto)
    ensures d.id == r.id && d.name == r.name && d.isAdministrative == r.isAdministrative
  {
    RoleMinimalDto(r.id, r.name, r.isAdministrative)
  }

  /** `ToUSRRoleMinimalModel`. */
  function ToRoleMinimalModel(d: RoleMinimalDto): (r: Role)
    ensures r.id == d.id && r.name == d.name && r.isAdministrative == d.isAdministrative && r.features == []
  {
    Role(d.id, d.name, d.isAdministrative, [])
  }

  /** The minimal role conversions keep id, name and the administrative flag, in both directions. */
  lemma RoleMinimalRoundTrip(d: RoleMinimalDto, r: Role)
    ensures ToRoleMinimalDto(ToRoleMinimalModel(d)) == d
    ensures ToRoleMinimalModel(ToRoleMinimalDto(r)) == r.(features := [])
  {
  }

  /** `ToUSRRoleMinimalDTOs`: one minimal DTO per role, in order, and an array even when empty. */
  function ToRoleMinimalDtos(rs: seq<Role>): (r: JsonList<RoleMinimalDto>)
    ensures r.Items? && |r.items| == |rs|
    ensures forall i :: 0 <= i < |rs| ==> r.items[i] == ToRoleMinimalDto(rs[i])
  {
    Items(seq(|rs|, i requires 0 <= i < |rs| => ToRoleMinimalDto(rs[i])))
  }

  // ---------------------------------------------------------------------------------------------
  // Users

  datatype UserDto = UserDto(id: nat, name: string, email: string, roleId: nat, role: RoleDto)

  datatype UserMinimalDto = UserMinimalDto(id: nat, name: string, email: string, roleName: string, roleId: nat)

  /** The create body; `roleId` arrives as text. The client may send an `id`, which is ignored. */
  datatype CreateUserInput = CreateUserInput(id: nat, name: string, email: string, password: string, roleId: string)

  datatype UpdateUserInput = UpdateUserInput(id: nat, name: string, email: string, roleId: string)

  datatype ResetPassInput = ResetPassInput(password: string, rePassword: string)

  datatype ChangePassInput = ChangePassInput(password: string, rePassword: string, oldPassword: string)

  /** `strconv.ParseUint(roleId, 10, 32)` with its error discarded. */
  function ParseRoleId(s: string): (id: nat)
    ensures s != "" && AllDigits(s) && DigitsValue(s) <= MaxUint32 ==> id == DigitsValue(s)
    ensures s != "" && AllDigits(s) && DigitsValue(s) > MaxUint32 ==> id == MaxUint32
    ensures id == 0 || id == MaxUint32 || (s != "" && AllDigits(s) && id == DigitsValue(s))
  {
    var c := ParseUint(s, MaxUint32);
    if c.Converted? then c.value else if c.RangeError? then MaxUint32 else 0
  }

  /** `InputCreateToUSRUserModel`: no id yet, the parsed role id, the plaintext password. */
  function InputCreateToUserModel(input: CreateUserInput): (u: User)
    ensures u.id == 0 && u.name == input.name && u.email == input.email && u.password == input.password
    ensures u.roleId == ParseRoleId(input.roleId) && u.role == ZeroRole
  {
    User(0, ParseRoleId(input.roleId), input.name, input.email, "", input.password, ZeroRole)
  }

  /** `InputUpdateToUSRUserModel`: as for create, with no password. */
  function InputUpdateToUserModel(input: UpdateUserInput): (u: User)
    ensures u.id == 0 && u.name == input.name && u.email == input.email && u.password == ""
    ensures u.roleId == ParseRoleId(input.roleId) && u.role == ZeroRole
  {
    User(0, ParseRoleId(input.roleId), input.name, input.email, "", "", ZeroRole)
  }

  /** The create and update conversions agree on everything but the password. */
  lemma InputConversionsAgree(c: CreateUserInput, u: UpdateUserInput)
    requires c.name == u.name && c.email == u.email && c.roleId == u.roleId
    ensures InputUpdateToUserModel(u) == InputCreateToUserModel(c).(password := "")
  {
  }

  /** `ToUSRUserMinimalDTO`: the role name is taken from the preloaded role. */
  function ToUserMinimalDto(u: User): (d: UserMinimalDto)
    ensures d.id == u.id && d.name == u.name && d.email == u.email && d.roleId == u.roleId
    ensures d.roleName == u.role.name
  {
    UserMinimalDto(u.id, u.name, u.email, u.role.name, u.roleId)
  }

  /** `ToUSRUserMinimalDTOs`: one minimal DTO per user, in order; `null` for no users. */
  function ToUserMinimalDtos(us: seq<User>): (r: JsonList<UserMinimalDto>)
    ensures r.Null? <==> |us| == 0
    ensures |Elements(r)| == |us|
    ensures forall i :: 0 <= i < |us| ==> Elements(r)[i] == ToUserMinimalDto(us[i])
  {
    Appended(seq(|us|, i requires 0 <= i < |us| => ToUserMinimalDto(us[i]).(roleName := us[i].role.name)))
  }

  /** `ToUSRUserDTO`: the user with the detail DTO of its preloaded role. */
  function ToUserDto(u: User): (d: UserDto)
    ensures d.id == u.id && d.name == u.name && d.email == u.email && d.roleId == u.roleId
    ensures d.role == ToRoleDto(u.role)
  {
    UserDto(u.id, u.name, u.email, u.roleId, ToRoleDto(u.role))
  }

  /** `ToUSRUserMinimalModel`: id, name and role id only — the email is not carried over. */
  function ToUserMinimalModel(d: UserMinimalDto): (u: User)
    ensures u.id == d.id && u.name == d.name && u.roleId == d.roleId
    ensures u.email == "" && u.password == "" && u.role == ZeroRole
  {
    User(d.id, d.roleId, d.name, "", "", "", ZeroRole)
  }

  /** A minimal user DTO sent through the model keeps id, name and role id and loses the email and
      the role name. */
  lemma UserMinimalRoundTrip(d: UserMinimalDto)
    ensures ToUserMinimalDto(ToUserMinimalModel(d)) == d.(email := "", roleName := "")
  {
  }
}
