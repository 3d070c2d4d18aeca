/** The older role controller over the `roles` table: name uniqueness on create and update, and a
    delete that is refused while any user still has the role. */
module RoleController {

  import opened Base
  import opened Response
  import opened Validator
  import opened LegacyStore
  import Store

  /** A JSON body bound onto a new role: a field the body does not carry is zero. */
  datatype NewRole = NewRole(id: nat, name: string)

  /** A JSON body bound onto a stored role: a field the body does not carry leaves the target's value. */
  datatype RolePatch = RolePatch(id: Option<nat>, name: Option<string>)

  const RoleNotFound := "Role not found"

  function RoleNameTaken(db: LegacyDb, name: string, except: Option<nat>): bool
  {
    TakenBy(db.roles, (r: LegacyRoleRow) => r.name == name, except)
  }

  function RoleExistsMessage(name: string): string
  {
    "Role with name " + name + " is already exist"
  }

  /** `CreateRole`: 409 when any role already has the name. gorm's `Create` then inserts under the
      body's `id` when it is non-zero, else under the id the database assigns; an insert onto an
      existing row fails with 500. */
  function CreateRole(db: LegacyDb, body: Binding<NewRole>, check: ValidationOutcome, newId: nat)
    : (out: (Envelope<()>, LegacyDb))
    requires newId !in db.roles && WellFormedOutcome(check)
    ensures body.BindFailed? ==> out == (ResponseFormatter(StatusBadRequest, None, "Invalid Input"), db)
    ensures body.Bound? && !check.Passed? ==> out == (ValidationErrorHandler(check), db)
    ensures body.Bound? && check.Passed? && RoleNameTaken(db, body.value.name, None) ==>
      out == (ResponseFormatter(StatusConflict, None, RoleExistsMessage(body.value.name)), db)
    ensures body.Bound? && check.Passed? && !RoleNameTaken(db, body.value.name, None) && body.value.id != 0 && body.value.id in db.roles ==>
      out == (ResponseFormatter(StatusInternalServerError, None, "Internal Server Error"), db)
    ensures out.0.httpStatus == StatusCreated <==>
      body.Bound? && check.Passed? && !RoleNameTaken(db, body.value.name, None) && (body.value.id == 0 || body.value.id !in db.roles)
    ensures out.0.httpStatus != StatusCreated ==> out.1 == db
    ensures out.0.httpStatus == StatusCreated ==>
      out == (ResponseFormatter(StatusCreated, None, "Role created successfully"),
              db.(roles := db.roles[Store.CreatedId(body.value.id, newId) := LegacyRoleRow(body.value.name)]))
  {
    if body.BindFailed? then (ResponseFormatter(StatusBadRequest, None, "Invalid Input"), db)
    else if !check.Passed? then (ValidationErrorHandler(check), db)
    else
      var b := body.value;
      var key := Store.CreatedId(b.id, newId);
      if RoleNameTaken(db, b.name, None) then (ResponseFormatter(StatusConflict, None, RoleExistsMessage(b.name)), db)
      else if key in db.roles then (ResponseFormatter(StatusInternalServerError, None, "Internal Server Error"), db)
      else (ResponseFormatter(StatusCreated, None, "Role created successfully"), db.(roles := db.roles[key := LegacyRoleRow(b.name)]))
  }

  /** `UpdateRole`: the body is bound onto the stored role, so a body `id` redirects the save to that
      row, and a body `"id": 0` makes the save an insert under the id the database assigns. The
      uniqueness probe excludes the bound id and runs before validation. */
  function UpdateRole(db: LegacyDb, id: nat, body: Binding<RolePatch>, check: ValidationOutcome, newId: nat)
    : (out: (Envelope<()>, LegacyDb))
    requires WellFormedOutcome(check) && 0 < newId && newId !in db.roles
    ensures id !in db.roles ==> out == (ResponseFormatter(StatusNotFound, None, RoleNotFound), db)
    ensures id in db.roles && body.BindFailed? ==> out == (ResponseFormatter(StatusBadRequest, None, "Invalid Input"), db)
    ensures id in db.roles && body.Bound? ==>
      var bound := if body.value.id.Some? then body.value.id.value else id;
      var name := if body.value.name.Some? then body.value.name.value else db.roles[id].name;
      && (RoleNameTaken(db, name, Some(bound)) ==> out == (ResponseFormatter(StatusConflict, None, RoleExistsMessage(name)), db))
      && (!RoleNameTaken(db, name, Some(bound)) && !check.Passed? ==> out == (ValidationErrorHandler(check), db))
      && (!RoleNameTaken(db, name, Some(bound)) && check.Passed? ==>
            out == (ResponseFormatter(StatusOK, None, "Role updated successfully"),
                    db.(roles := db.roles[SaveTarget(bound, newId) := LegacyRoleRow(name)])))
  {
    if id !in db.roles then (ResponseFormatter(StatusNotFound, None, RoleNotFound), db)
    else if body.BindFailed? then (ResponseFormatter(StatusBadRequest, None, "Invalid Input"), db)
    else
      var bound := if body.value.id.Some? then body.value.id.value else id;
      var name := if body.value.name.Some? then body.value.name.value else db.roles[id].name;
      if RoleNameTaken(db, name, Some(bound)) then (ResponseFormatter(StatusConflict, None, RoleExistsMessage(name)), db)
      else if !check.Passed? then (ValidationErrorHandler(check), db)
      else (ResponseFormatter(StatusOK, None, "Role updated successfully"),
            db.(roles := db.roles[SaveTarget(bound, newId) := LegacyRoleRow(name)]))
  }

  /** Some user has the role. */
  predicate RoleInUse(db: LegacyDb, id: nat)
  {
    exists k :: k in db.users && db.users[k].roleId == id
  }

  /** `DeleteRole`: refused with 403 while any user has the role. */
  function DeleteRole(db: LegacyDb, id: nat): (out: (Envelope<()>, LegacyDb))
    ensures id !in db.roles ==> out == (ResponseFormatter(StatusNotFound, None, RoleNotFound), db)
    ensures id in db.roles && RoleInUse(db, id) ==>
      out == (ResponseFormatter(StatusForbidden, None, "Role cannot be deleted, because there are users with that role"), db)
    ensures id in db.roles && !RoleInUse(db, id) ==>
      out == (ResponseFormatter(StatusOK, None, "Role deleted successfully"), db.(roles := db.roles - {id}))
  {
    if id !in db.roles then (ResponseFormatter(StatusNotFound, None, RoleNotFound), db)
    else if RoleInUse(db, id) then
      (ResponseFormatter(StatusForbidden, None, "Role cannot be deleted, because there are users with that role"), db)
    else (ResponseFormatter(StatusOK, None, "Role deleted successfully"), db.(roles := db.roles - {id}))
  }

  // ---------------------------------------------------------------------------------------------
  // Properties

  /** Every user's role exists. */
  predicate RolesResolve(db: LegacyDb)
  {
    forall k :: k in db.users ==> db.users[k].roleId in db.roles
  }

  /** The delete guard keeps every user's role resolvable. */
  lemma DeleteKeepsRolesResolved(db: LegacyDb, id: nat)
    requires RolesResolve(db)
    ensures RolesResolve(DeleteRole(db, id).1)
  {
    if id in db.roles && !RoleInUse(db, id) {
      forall k | k in db.users
        ensures db.users[k].roleId in DeleteRole(db, id).1.roles
      {
        assert db.users[k].roleId != id;
      }
    }
  }

  /** Role names stay unique across a successful create or update without a body id. */
  predicate NamesUnique(db: LegacyDb)
  {
    forall k1, k2 :: k1 in db.roles && k2 in db.roles && k1 != k2 ==> db.roles[k1].name != db.roles[k2].name
  }

  lemma CreateKeepsNamesUnique(db: LegacyDb, body: Binding<NewRole>, check: ValidationOutcome, newId: nat)
    requires newId !in db.roles && WellFormedOutcome(check) && NamesUnique(db)
    ensures NamesUnique(CreateRole(db, body, check, newId).1)
  {
    var (resp, db') := CreateRole(db, body, check, newId);
    if resp.httpStatus == StatusCreated {
      forall k | k in db.roles
        ensures db.roles[k].name != body.value.name
      {
        assert !(k in db.roles && None != Some(k) && db.roles[k].name == body.value.name);
      }
    }
  }

  lemma UpdateKeepsNamesUnique(db: LegacyDb, id: nat, name: Option<string>, check: ValidationOutcome, newId: nat)
    requires WellFormedOutcome(check) && 0 < newId && newId !in db.roles && 0 !in db.roles && NamesUnique(db)
    ensures NamesUnique(UpdateRole(db, id, Bound(RolePatch(None, name)), check, newId).1)
  {
    if id in db.roles {
      var n := if name.Some? then name.value else db.roles[id].name;
      if !RoleNameTaken(db, n, Some(id)) {
        forall k | k in db.roles && k != id
          ensures db.roles[k].name != n
        {
          assert !(k in db.roles && Some(id) != Some(k) && db.roles[k].name == n);
        }
      }
    }
  }

  /** A body `"id": 0` stores the name as a new role and leaves the addressed role as it was; the
      same request sent again is refused with 409, since the probe then excludes no row. */
  lemma ZeroBodyIdInserts(db: LegacyDb, id: nat, name: string, newId: nat, newId': nat)
    requires id in db.roles && 0 < newId && newId !in db.roles
    requires !RoleNameTaken(db, name, Some(0))
    ensures var (first, db1) := UpdateRole(db, id, Bound(RolePatch(Some(0), Some(name))), Passed, newId);
      && first == ResponseFormatter(StatusOK, None, "Role updated successfully")
      && db1.roles == db.roles[newId := LegacyRoleRow(name)]
      && db1.roles[id] == db.roles[id]
      && (0 < newId' && newId' !in db1.roles ==>
            UpdateRole(db1, id, Bound(RolePatch(Some(0), Some(name))), Passed, newId')
              == (ResponseFormatter(StatusConflict, None, RoleExistsMessage(name)), db1))
  {
    var db1 := UpdateRole(db, id, Bound(RolePatch(Some(0), Some(name))), Passed, newId).1;
    assert newId in db1.roles && Some(0) != Some(newId) && db1.roles[newId].name == name;
  }

  /** A free non-zero body `id` becomes the new role's key, whatever id the database would assign; a
      second create naming that key, even under another name, is an insert onto an existing row and
      fails with 500. */
  lemma BodyIdChoosesKey(db: LegacyDb, key: nat, name: string, other: string, newId: nat, newId': nat)
    requires 0 < key && key !in db.roles && newId !in db.roles
    requires !RoleNameTaken(db, name, None) && !RoleNameTaken(db, other, None) && other != name
    ensures var (first, db1) := CreateRole(db, Bound(NewRole(key, name)), Passed, newId);
      && first == ResponseFormatter(StatusCreated, None, "Role created successfully")
      && db1.roles == db.roles[key := LegacyRoleRow(name)]
      && (newId' !in db1.roles ==>
            CreateRole(db1, Bound(NewRole(key, other)), Passed, newId')
              == (ResponseFormatter(StatusInternalServerError, None, "Internal Server Error"), db1))
  {
    var db1 := CreateRole(db, Bound(NewRole(key, name)), Passed, newId).1;
    assert forall k :: k in db1.roles && db1.roles[k].name == other ==> k in db.roles && db.roles[k].name == other;
  }
}
