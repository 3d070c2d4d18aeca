/** The vehicle type controller over the `vehicle_types` table: name uniqueness on create and update,
    and a delete guard. The guard as written counts the users whose `role_id` equals the type's id,
    not the vehicles of that type; `DeleteVehicleTypeFixed` counts the vehicles. The `VehicleType`
    struct carries no validation tags, so struct validation always passes and is not a parameter. */
module VehicleTypeController {

  import opened Base
  import opened Response
  import opened LegacyStore
  import Store

  /** A JSON body bound onto a new vehicle type: a field the body does not carry is zero. */
  datatype NewVehicleType = NewVehicleType(id: nat, name: string)

  /** A JSON body bound onto a stored vehicle type: a field the body does not carry keeps the target's value. */
  datatype VehicleTypePatch = VehicleTypePatch(id: Option<nat>, name: Option<string>)

  const VehicleTypeNotFound := "Vehicle Type not found"
  const VehicleTypeInUse := "Vehicle Type cannot be deleted, because there are users with that vehicleType"

  function TypeNameTaken(db: LegacyDb, name: string, except: Option<nat>): bool
  {
    TakenBy(db.vehicleTypes, (t: VehicleTypeRow) => t.name == name, except)
  }

  function TypeExistsMessage(name: string): string
  {
    "Vehicle Type with name " + name + " is already exist"
  }

  /** `CreateVehicleType`: 409 when any type already has the name. gorm's `Create` then inserts under
      the body's `id` when it is non-zero, else under the id the database assigns; an insert onto an
      existing row fails with 500. */
  function CreateVehicleType(db: LegacyDb, body: Binding<NewVehicleType>, newId: nat): (out: (Envelope<()>, LegacyDb))
    requires newId !in db.vehicleTypes
    ensures body.BindFailed? ==> out == (ResponseFormatter(StatusBadRequest, None, "Invalid Input"), db)
    ensures body.Bound? && TypeNameTaken(db, body.value.name, None) ==>
      out == (ResponseFormatter(StatusConflict, None, TypeExistsMessage(body.value.name)), db)
    ensures body.Bound? && !TypeNameTaken(db, body.value.name, None) && body.value.id != 0 && body.value.id in db.vehicleTypes ==>
      out == (ResponseFormatter(StatusInternalServerError, None, "Internal Server Error"), db)
    ensures out.0.httpStatus == StatusCreated <==>
      body.Bound? && !TypeNameTaken(db, body.value.name, None) && (body.value.id == 0 || body.value.id !in db.vehicleTypes)
    ensures out.0.httpStatus != StatusCreated ==> out.1 == db
    ensures out.0.httpStatus == StatusCreated ==>
      out == (ResponseFormatter(StatusCreated, None, "Vehicle Type created successfully"),
              db.(vehicleTypes := db.vehicleTypes[Store.CreatedId(body.value.id, newId) := VehicleTypeRow(body.value.name)]))
  {
    if body.BindFailed? then (ResponseFormatter(StatusBadRequest, None, "Invalid Input"), db)
    else
      var b := body.value;
      var key := Store.CreatedId(b.id, newId);
      if TypeNameTaken(db, b.name, None) then (ResponseFormatter(StatusConflict, None, TypeExistsMessage(b.name)), db)
      else if key in db.vehicleTypes then (ResponseFormatter(StatusInternalServerError, None, "Internal Server Error"), db)
      else (ResponseFormatter(StatusCreated, None, "Vehicle Type created successfully"),
            db.(vehicleTypes := db.vehicleTypes[key := VehicleTypeRow(b.name)]))
  }

  /** `UpdateVehicleType`: the body is bound onto the stored type, so a body `id` redirects the save,
      and a body `"id": 0` makes the save an insert under the id the database assigns; the
      uniqueness probe excludes the bound id. */
  function UpdateVehicleType(db: LegacyDb, id: nat, body: Binding<VehicleTypePatch>, newId: nat): (out: (Envelope<()>, LegacyDb))
    requires 0 < newId && newId !in db.vehicleTypes
    ensures id !in db.vehicleTypes ==> out == (ResponseFormatter(StatusNotFound, None, VehicleTypeNotFound), db)
    ensures id in db.vehicleTypes && body.BindFailed? ==> out == (ResponseFormatter(StatusBadRequest, None, "Invalid Input"), db)
    ensures id in db.vehicleTypes && body.Bound? ==>
      var bound := if body.value.id.Some? then body.value.id.value else id;
      var name := if body.value.name.Some? then body.value.name.value else db.vehicleTypes[id].name;
      && (TypeNameTaken(db, name, Some(bound)) ==> out == (ResponseFormatter(StatusConflict, None, TypeExistsMessage(name)), db))
      && (!TypeNameTaken(db, name, Some(bound)) ==>
            out == (ResponseFormatter(StatusOK, None, "Vehicle Type updated successfully"),
                    db.(vehicleTypes := db.vehicleTypes[SaveTarget(bound, newId) := VehicleTypeRow(name)])))
  {
    if id !in db.vehicleTypes then (ResponseFormatter(StatusNotFound, None, VehicleTypeNotFound), db)
    else if body.BindFailed? then (ResponseFormatter(StatusBadRequest, None, "Invalid Input"), db)
    else
      var bound := if body.value.id.Some? then body.value.id.value else id;
      var name := if body.value.name.Some? then body.value.name.value else db.vehicleTypes[id].name;
      if TypeNameTaken(db, name, Some(bound)) then (ResponseFormatter(StatusConflict, None, TypeExistsMessage(name)), db)
      else (ResponseFormatter(StatusOK, None, "Vehicle Type updated successfully"),
            db.(vehicleTypes := db.vehicleTypes[SaveTarget(bound, newId) := VehicleTypeRow(name)]))
  }

  /** Some user's `role_id` equals the id — what the guard as written counts. */
  predicate UsersWithRoleId(db: LegacyDb, id: nat)
  {
    exists k :: k in db.users && db.users[k].roleId == id
  }

  /** Some vehicle is of the type. */
  predicate TypeInUse(db: LegacyDb, id: nat)
  {
    exists k :: k in db.vehicles && db.vehicles[k].typeId == id
  }

  /** The delete with the guard given as a predicate of the id. */
  function DeleteVehicleTypeGuarded(db: LegacyDb, id: nat, blocked: bool): (out: (Envelope<()>, LegacyDb))
    ensures id !in db.vehicleTypes ==> out == (ResponseFormatter(StatusNotFound, None, VehicleTypeNotFound), db)
    ensures id in db.vehicleTypes && blocked ==> out == (ResponseFormatter(StatusForbidden, None, VehicleTypeInUse), db)
    ensures id in db.vehicleTypes && !blocked ==>
      out == (ResponseFormatter(StatusOK, None, "Vehicle Type deleted successfully"), db.(vehicleTypes := db.vehicleTypes - {id}))
  {
    if id !in db.vehicleTypes then (ResponseFormatter(StatusNotFound, None, VehicleTypeNotFound), db)
    else if blocked then (ResponseFormatter(StatusForbidden, None, VehicleTypeInUse), db)
    else (ResponseFormatter(StatusOK, None, "Vehicle Type deleted successfully"), db.(vehicleTypes := db.vehicleTypes - {id}))
  }

  /** `DeleteVehicleType` as written: refused while a user has `role_id` equal to the type's id. */
  function DeleteVehicleType(db: LegacyDb, id: nat): (out: (Envelope<()>, LegacyDb))
    ensures out.0.httpStatus == StatusOK <==> id in db.vehicleTypes && !UsersWithRoleId(db, id)
    ensures out.0.httpStatus == StatusForbidden <==> id in db.vehicleTypes && UsersWithRoleId(db, id)
    ensures out.0.httpStatus != StatusOK ==> out.1 == db
  {
    DeleteVehicleTypeGuarded(db, id, UsersWithRoleId(db, id))
  }

  /** The delete refused while a vehicle is of the type. */
  function DeleteVehicleTypeFixed(db: LegacyDb, id: nat): (out: (Envelope<()>, LegacyDb))
    ensures out.0.httpStatus == StatusOK <==> id in db.vehicleTypes && !TypeInUse(db, id)
    ensures out.0.httpStatus == StatusForbidden <==> id in db.vehicleTypes && TypeInUse(db, id)
    ensures out.0.httpStatus != StatusOK ==> out.1 == db
  {
    DeleteVehicleTypeGuarded(db, id, TypeInUse(db, id))
  }

  // ---------------------------------------------------------------------------------------------
  // Properties

  /** Every vehicle's type exists. */
  predicate TypesResolve(db: LegacyDb)
  {
    forall k :: k in db.vehicles ==> db.vehicles[k].typeId in db.vehicleTypes
  }

  /** The corrected delete keeps every vehicle's type resolvable. */
  lemma FixedDeleteKeepsTypesResolved(db: LegacyDb, id: nat)
    requires TypesResolve(db)
    ensures TypesResolve(DeleteVehicleTypeFixed(db, id).1)
  {
    if id in db.vehicleTypes && !TypeInUse(db, id) {
      forall k | k in db.vehicles
        ensures db.vehicles[k].typeId in DeleteVehicleTypeFixed(db, id).1.vehicleTypes
      {
        assert db.vehicles[k].typeId != id;
      }
    }
  }

  /** The guard as written deletes a type that a vehicle still uses when no user has a matching
      `role_id`, and refuses to delete an unused type when one does. */
  lemma DeleteGuardChecksUsers()
    ensures var db := LegacyDb(map[], map[], map[1 := VehicleTypeRow("Van")], map[3 := VehicleRow(1, "Hiace", "B 1234 CD", true)], map[]);
      && TypesResolve(db)
      && DeleteVehicleType(db, 1).0.httpStatus == StatusOK
      && !TypesResolve(DeleteVehicleType(db, 1).1)
    ensures var db := LegacyDb(map[5 := LegacyUserRow(1, "Ana", "ana@example.com", "h")], map[1 := LegacyRoleRow("Staff")],
                               map[1 := VehicleTypeRow("Van")], map[], map[]);
      && !TypeInUse(db, 1)
      && DeleteVehicleType(db, 1).0.httpStatus == StatusForbidden
  {
    var db := LegacyDb(map[], map[], map[1 := VehicleTypeRow("Van")], map[3 := VehicleRow(1, "Hiace", "B 1234 CD", true)], map[]);
    assert !UsersWithRoleId(db, 1);
    assert 3 in DeleteVehicleType(db, 1).1.vehicles;
    var db2 := LegacyDb(map[5 := LegacyUserRow(1, "Ana", "ana@example.com", "h")], map[1 := LegacyRoleRow("Staff")],
                        map[1 := VehicleTypeRow("Van")], map[], map[]);
    assert db2.users[5].roleId == 1;
  }

  /** Type names stay unique across a successful create. */
  predicate TypeNamesUnique(db: LegacyDb)
  {
    forall k1, k2 :: k1 in db.vehicleTypes && k2 in db.vehicleTypes && k1 != k2 ==> db.vehicleTypes[k1].name != db.vehicleTypes[k2].name
  }

  lemma CreateKeepsTypeNamesUnique(db: LegacyDb, body: Binding<NewVehicleType>, newId: nat)
    requires newId !in db.vehicleTypes && TypeNamesUnique(db)
    ensures TypeNamesUnique(CreateVehicleType(db, body, newId).1)
  {
    if body.Bound? && !TypeNameTaken(db, body.value.name, None) {
      forall k | k in db.vehicleTypes
        ensures db.vehicleTypes[k].name != body.value.name
      {
        assert !(k in db.vehicleTypes && None != Some(k) && db.vehicleTypes[k].name == body.value.name);
      }
    }
  }

  /** An update without a body id never renames a type onto another type's name, and touches only
      the addressed row (the database never holds id 0). */
  lemma UpdateKeepsTypeNamesUnique(db: LegacyDb, id: nat, name: Option<string>, newId: nat)
    requires 0 < newId && newId !in db.vehicleTypes && 0 !in db.vehicleTypes && TypeNamesUnique(db)
    ensures TypeNamesUnique(UpdateVehicleType(db, id, Bound(VehicleTypePatch(None, name)), newId).1)
    ensures UpdateVehicleType(db, id, Bound(VehicleTypePatch(None, name)), newId).1.vehicleTypes.Keys == db.vehicleTypes.Keys
  {
    if id in db.vehicleTypes {
      var n := if name.Some? then name.value else db.vehicleTypes[id].name;
      if !TypeNameTaken(db, n, Some(id)) {
        forall k | k in db.vehicleTypes && k != id
          ensures db.vehicleTypes[k].name != n
        {
          assert !(k in db.vehicleTypes && Some(id) != Some(k) && db.vehicleTypes[k].name == n);
        }
      }
    }
  }

  /** A body `"id": 0` stores the name as a new type and leaves the addressed type as it was; the
      same request sent again is refused, since the probe then excludes no row. */
  lemma ZeroBodyIdInserts(db: LegacyDb, id: nat, name: string, newId: nat, newId': nat)
    requires id in db.vehicleTypes && 0 < newId && newId !in db.vehicleTypes
    requires !TypeNameTaken(db, name, Some(0))
    ensures var (first, db1) := UpdateVehicleType(db, id, Bound(VehicleTypePatch(Some(0), Some(name))), newId);
      && first == ResponseFormatter(StatusOK, None, "Vehicle Type updated successfully")
      && db1.vehicleTypes == db.vehicleTypes[newId := VehicleTypeRow(name)]
      && db1.vehicleTypes[id] == db.vehicleTypes[id]
      && (0 < newId' && newId' !in db1.vehicleTypes ==>
            UpdateVehicleType(db1, id, Bound(VehicleTypePatch(Some(0), Some(name))), newId')
              == (ResponseFormatter(StatusConflict, None, TypeExistsMessage(name)), db1))
  {
    var db1 := UpdateVehicleType(db, id, Bound(VehicleTypePatch(Some(0), Some(name))), newId).1;
    assert newId in db1.vehicleTypes && Some(0) != Some(newId) && db1.vehicleTypes[newId].name == name;
  }

  /** A free non-zero body `id` becomes the new type's key, whatever id the database would assign; a
      second create naming that key, even under another name, is an insert onto an existing row and
      fails with 500. */
  lemma BodyIdChoosesKey(db: LegacyDb, key: nat, name: string, other: string, newId: nat, newId': nat)
    requires 0 < key && key !in db.vehicleTypes && newId !in db.vehicleTypes
    requires !TypeNameTaken(db, name, None) && !TypeNameTaken(db, other, None) && other != name
    ensures var (first, db1) := CreateVehicleType(db, Bound(NewVehicleType(key, name)), newId);
      && first == ResponseFormatter(StatusCreated, None, "Vehicle Type created successfully")
      && db1.vehicleTypes == db.vehicleTypes[key := VehicleTypeRow(name)]
      && (newId' !in db1.vehicleTypes ==>
            CreateVehicleType(db1, Bound(NewVehicleType(key, other)), newId')
              == (ResponseFormatter(StatusInternalServerError, None, "Internal Server Error"), db1))
  {
    var db1 := CreateVehicleType(db, Bound(NewVehicleType(key, name)), newId).1;
    assert forall k :: k in db1.vehicleTypes && db1.vehicleTypes[k].name == other ==> k in db.vehicleTypes && db.vehicleTypes[k].name == other;
  }
}
