/** The role service: reading, creating, updating and deleting roles, where create and update set the
    role's feature grants to exactly the requested features that exist. Every operation returns the
    service result and the database after it. */
module RoleService {

  import opened Base
  import opened Numbers
  import opened Collections
  import opened Store
  import opened Response
  import opened Validator
  import opened Dtos

  /** Some role other than `except` already has this name. */
  predicate NameTaken(db: Db, name: string, except: Option<int>)
  {
    exists k :: k in db.roles && except != Some(k as int) && db.roles[k].name == name
  }

  /** `inputValidator`: on POST (`except` None) any role with the name is a conflict, on PUT
      (`except` the role's own id) only another role is. */
  function InputValidator(db: Db, name: string, except: Option<int>): (out: (map<string, string>, bool))
    ensures out.1 <==> NameTaken(db, name, except)
    ensures out.1 ==> out.0 == map["name" := "Role name " + name + " already exist"]
    ensures !out.1 ==> out.0 == map[]
  {
    var found := FindOther(db.roles, (row: RoleRow) => row.name == name, except);
    if found.Some? then (map["name" := "Role name " + name + " already exist"], true) else (map[], false)
  }

  /** The grant set a create or update stores: the requested ids that name an existing feature. */
  function GrantedIds(db: Db, requested: seq<nat>): (ids: set<nat>)
    ensures forall id :: id in ids <==> id in requested && id in db.features
  {
    (set id | id in requested) * db.features.Keys
  }

  /** `GetByID`: a role with its features, or 400 for a non-numeric id and 404 for an unknown one. */
  function GetRole(db: Db, pathId: string): (r: ServiceResponse<RoleDto>)
    ensures Atoi(pathId).Failed() ==> r == Fail(StatusBadRequest, "Invalid ID", NoError)
    ensures !Atoi(pathId).Failed() && !HasRow(db.roles, Atoi(pathId).value) ==> r == Fail(StatusNotFound, "Role not found", NoError)
    ensures r.status == StatusOK <==> !Atoi(pathId).Failed() && HasRow(db.roles, Atoi(pathId).value)
    ensures r.status == StatusOK ==> r.data == Some(ToRoleDto(LoadRole(db, Atoi(pathId).value as nat, true)))
  {
    var id := Atoi(pathId);
    if id.Failed() then Fail(StatusBadRequest, "Invalid ID", NoError)
    else if !HasRow(db.roles, id.value) then Fail(StatusNotFound, "Role not found", NoError)
    else Succeed(StatusOK, "Success Getting Role Data", Some(ToRoleDto(LoadRole(db, id.value as nat, true))))
  }

  /** `AddData`. `newId` is the id the database assigns to the new row. */
  function AddRole(db: Db, body: Binding<RoleInput>, check: ValidationOutcome, newId: nat): (out: (ServiceResponse<RoleDto>, Db))
    requires newId > 0 && newId !in db.roles
    ensures body.BindFailed? ==> out.0 == Fail(StatusBadRequest, "Invalid Input", Failure(body.text))
    ensures body.Bound? && !check.Passed? ==> out.0 == Fail(StatusBadRequest, "Error Invalid Data", ValidationErrorsV1(check))
    ensures body.Bound? && check.Passed? && NameTaken(db, body.value.name, None) ==>
      out.0 == Fail(StatusBadRequest, "Error Invalid Data", FieldErrors(map["name" := "Role name " + body.value.name + " already exist"]))
    ensures out.0.status == StatusCreated <==> body.Bound? && check.Passed? && !NameTaken(db, body.value.name, None)
    ensures out.0.status != StatusCreated ==> out.1 == db
    ensures out.0.status == StatusCreated ==>
      && out.1 == db.(roles := db.roles[newId := RoleRow(body.value.name, body.value.isAdministrative, GrantedIds(db, body.value.features))])
      && out.0.message == "Role Created Successfully"
      && out.0.data == Some(ToRoleDto(LoadRole(out.1, newId, true)))
  {
    if body.BindFailed? then (Fail(StatusBadRequest, "Invalid Input", Failure(body.text)), db)
    else
      var input := body.value;
      if !check.Passed? then (Fail(StatusBadRequest, "Error Invalid Data", ValidationErrorsV1(check)), db)
      else
        var (errors, conflict) := InputValidator(db, input.name, None);
        if conflict then (Fail(StatusBadRequest, "Error Invalid Data", FieldErrors(errors)), db)
        else StoreNewRole(db, input, newId)
  }

  /** The success path of `AddData`: the role row and its grants are inserted and echoed back. */
  function StoreNewRole(db: Db, input: RoleInput, newId: nat): (out: (ServiceResponse<RoleDto>, Db))
    requires newId !in db.roles
    ensures out.1 == db.(roles := db.roles[newId := RoleRow(input.name, input.isAdministrative, GrantedIds(db, input.features))])
    ensures out.0 == Succeed(StatusCreated, "Role Created Successfully", Some(ToRoleDto(LoadRole(out.1, newId, true))))
  {
    var features := LoadFeatures(db.features, set id | id in input.features);
    var role := InputToRoleModel(input).(id := newId, features := features);
    var db' := db.(roles := db.roles[newId := RoleRow(input.name, input.isAdministrative, GrantedIds(db, input.features))]);
    LoadFeaturesOfGranted(db, input.features);
    assert LoadRole(db', newId, true) == role;
    (Succeed(StatusCreated, "Role Created Successfully", Some(ToRoleDto(role))), db')
  }

  /** Loading the stored grant set gives the features the request fetched. */
  lemma LoadFeaturesOfGranted(db: Db, requested: seq<nat>)
    ensures LoadFeatures(db.features, GrantedIds(db, requested)) == LoadFeatures(db.features, set id | id in requested)
  {
    assert GrantedIds(db, requested) * db.features.Keys == (set id | id in requested) * db.features.Keys;
  }

  /** `UpdateData`: name and administrative flag are overwritten and the grant set is replaced. */
  function UpdateRole(db: Db, body: Binding<RoleInput>, pathId: string, check: ValidationOutcome): (out: (ServiceResponse<RoleDto>, Db))
    ensures body.BindFailed? ==> out.0 == Fail(StatusBadRequest, "Invalid Input", Failure(body.text))
    ensures body.Bound? && Atoi(pathId).Failed() ==> out.0 == Fail(StatusBadRequest, "Invalid ID", NoError)
    ensures body.Bound? && !Atoi(pathId).Failed() && !HasRow(db.roles, Atoi(pathId).value) ==>
      out.0 == Fail(StatusNotFound, "Role not found", NoError)
    ensures body.Bound? && !Atoi(pathId).Failed() && HasRow(db.roles, Atoi(pathId).value) && !check.Passed? ==>
      out.0 == Fail(StatusBadRequest, "Error Invalid Data", ValidationErrorsV1(check))
    ensures body.Bound? && !Atoi(pathId).Failed() && HasRow(db.roles, Atoi(pathId).value) && check.Passed?
            && NameTaken(db, body.value.name, Some(Atoi(pathId).value)) ==>
      out.0 == Fail(StatusBadRequest, "Error Invalid Data", FieldErrors(map["name" := "Role name " + body.value.name + " already exist"]))
    ensures out.0.status == StatusOK <==>
      && body.Bound? && !Atoi(pathId).Failed() && HasRow(db.roles, Atoi(pathId).value)
      && check.Passed? && !NameTaken(db, body.value.name, Some(Atoi(pathId).value))
    ensures out.0.status != StatusOK ==> out.1 == db
    ensures out.0.status == StatusOK ==>
      var id := Atoi(pathId).value as nat;
      && out.1 == db.(roles := db.roles[id := RoleRow(body.value.name, body.value.isAdministrative, GrantedIds(db, body.value.features))])
      && out.0.message == "Role Updated Successfully"
      && out.0.data == Some(ToRoleDto(LoadRole(out.1, id, true)))
  {
    if body.BindFailed? then (Fail(StatusBadRequest, "Invalid Input", Failure(body.text)), db)
    else
      var input := body.value;
      var id := Atoi(pathId);
      if id.Failed() then (Fail(StatusBadRequest, "Invalid ID", NoError), db)
      else if !HasRow(db.roles, id.value) then (Fail(StatusNotFound, "Role not found", NoError), db)
      else if !check.Passed? then (Fail(StatusBadRequest, "Error Invalid Data", ValidationErrorsV1(check)), db)
      else
        var (errors, conflict) := InputValidator(db, input.name, Some(id.value));
        if conflict then (Fail(StatusBadRequest, "Error Invalid Data", FieldErrors(errors)), db)
        else ReplaceRole(db, id.value as nat, input)
  }

  /** The success path of `UpdateData`: name and flag are overwritten, the grant set is replaced by
      the fetched features, and the role is echoed back. */
  function ReplaceRole(db: Db, id: nat, input: RoleInput): (out: (ServiceResponse<RoleDto>, Db))
    requires id in db.roles
    ensures out.1 == db.(roles := db.roles[id := RoleRow(input.name, input.isAdministrative, GrantedIds(db, input.features))])
    ensures out.0 == Succeed(StatusOK, "Role Updated Successfully", Some(ToRoleDto(LoadRole(out.1, id, true))))
  {
    var features := LoadFeatures(db.features, set f | f in input.features);
    var role := LoadRole(db, id, true).(name := input.name, isAdministrative := input.isAdministrative, features := features);
    var db' := db.(roles := db.roles[id := RoleRow(input.name, input.isAdministrative, GrantedIds(db, input.features))]);
    LoadFeaturesOfGranted(db, input.features);
    assert LoadRole(db', id, true) == role;
    (Succeed(StatusOK, "Role Updated Successfully", Some(ToRoleDto(role))), db')
  }

  /** `DeleteData`: removes the role. Users that still reference it are not checked. */
  function DeleteRole(db: Db, pathId: string): (out: (ServiceResponse<()>, Db))
    ensures Atoi(pathId).Failed() ==> out == (Fail(StatusBadRequest, "Invalid ID", NoError), db)
    ensures !Atoi(pathId).Failed() && !HasRow(db.roles, Atoi(pathId).value) ==>
      out == (Fail(StatusNotFound, "Role not found", NoError), db)
    ensures !Atoi(pathId).Failed() && HasRow(db.roles, Atoi(pathId).value) ==>
      out == (Succeed(StatusOK, "Role Deleted Successfully", None), db.(roles := db.roles - {Atoi(pathId).value as nat}))
  {
    var id := Atoi(pathId);
    if id.Failed() then (Fail(StatusBadRequest, "Invalid ID", NoError), db)
    else if !HasRow(db.roles, id.value) then (Fail(StatusNotFound, "Role not found", NoError), db)
    else (Succeed(StatusOK, "Role Deleted Successfully", None), db.(roles := db.roles - {id.value as nat}))
  }

  // ---------------------------------------------------------------------------------------------
  // Properties across operations

  /** A created role reads back, through `GetByID` on its id, exactly as the create response showed it,
      with exactly the requested features that exist. */
  lemma CreatedRoleReadsBack(db: Db, input: RoleInput, newId: nat)
    requires 0 < newId <= MaxInt64 && newId !in db.roles
    requires !NameTaken(db, input.name, None)
    ensures var (resp, db') := AddRole(db, Bound(input), Passed, newId);
      && resp.status == StatusCreated
      && GetRole(db', NatToDecimal(newId)) == Succeed(StatusOK, "Success Getting Role Data", resp.data)
      && Elements(resp.data.value.features) == Sorted(GrantedIds(db, input.features))
  {
    AtoiRoundTrip(newId);
    assert IntToDecimal(newId) == NatToDecimal(newId);
    var (resp, db') := AddRole(db, Bound(input), Passed, newId);
    var fs := LoadRole(db', newId, true).features;
    assert fs == LoadFeatures(db.features, GrantedIds(db, input.features));
    FeatureIdsSorted(db, GrantedIds(db, input.features));
  }

  /** The features loaded for a grant set are its existing ids in ascending order. */
  lemma FeatureIdsSorted(db: Db, ids: set<nat>)
    requires ids <= db.features.Keys
    ensures FeatureIds(LoadFeatures(db.features, ids)) == Sorted(ids)
  {
    assert ids * db.features.Keys == ids;
  }

  /** Update replaces, never merges: the role's features afterwards depend only on the request and
      on which features exist, not on what the role was granted before. */
  lemma UpdateReplacesGrants(db: Db, input: RoleInput, pathId: string, oldGrants: set<nat>)
    requires !Atoi(pathId).Failed() && HasRow(db.roles, Atoi(pathId).value)
    requires !NameTaken(db, input.name, Some(Atoi(pathId).value))
    ensures var id := Atoi(pathId).value as nat;
      var other := db.(roles := db.roles[id := db.roles[id].(features := oldGrants)]);
      && UpdateRole(db, Bound(input), pathId, Passed) == UpdateRole(other, Bound(input), pathId, Passed)
      && LoadRole(UpdateRole(db, Bound(input), pathId, Passed).1, id, true).features
         == LoadFeatures(db.features, set f | f in input.features)
  {
    var id := Atoi(pathId).value as nat;
    var other := db.(roles := db.roles[id := db.roles[id].(features := oldGrants)]);
    assert NameTaken(other, input.name, Some(Atoi(pathId).value)) == NameTaken(db, input.name, Some(Atoi(pathId).value));
    assert other.roles[id := RoleRow(input.name, input.isAdministrative, GrantedIds(db, input.features))]
        == db.roles[id := RoleRow(input.name, input.isAdministrative, GrantedIds(db, input.features))];
    LoadFeaturesOfGranted(db, input.features);
  }

  /** Deleting a role succeeds even while users are assigned to it; they are left pointing at a role
      that no longer exists. */
  lemma DeleteIgnoresAssignedUsers(db: Db, roleId: nat, userId: nat)
    requires roleId <= MaxInt64 && roleId in db.roles
    requires userId in db.users && db.users[userId].roleId == roleId
    ensures var (resp, db') := DeleteRole(db, NatToDecimal(roleId));
      && resp.status == StatusOK && roleId !in db'.roles
      && userId in db'.users && db'.users[userId].roleId == roleId
  {
    AtoiRoundTrip(roleId);
    assert IntToDecimal(roleId) == NatToDecimal(roleId);
  }
}
