/** The vehicle controller over the `vehicles` table: police-number uniqueness (excluding the addressed
    vehicle on update), type existence, the two list filters, and an update that keeps availability. */
module VehicleController {

  import opened Base
  import opened Collections
  import opened Numbers
  import opened Response
  import opened Validator
  import opened LegacyStore
  import Store

  /** The bound JSON body, with an absent field at its zero value. Only a create uses its `id`. */
  datatype VehicleBody = VehicleBody(id: nat, typeId: nat, name: string, policeNumber: string, isAvailable: bool)

  /** One listed vehicle. */
  datatype ListedVehicle = ListedVehicle(id: nat, vehicle: VehicleRow)

  const VehicleNotFound := "Vehicle not found"
  const InvalidTypeId := "Invalid type ID"

  function PoliceNumberTaken(db: LegacyDb, number: string, except: Option<nat>): bool
  {
    TakenBy(db.vehicles, (v: VehicleRow) => v.policeNumber == number, except)
  }

  function PoliceNumberMessage(number: string): string
  {
    "Vehicle with police number '" + number + "' is already exist"
  }

  /** `CreateVehicle`: validation, then the police-number probe, then the type lookup. gorm's `Create`
      inserts under the body's `id` when it is non-zero, else under the id the database assigns; an
      insert onto an existing row fails with 500. The stored row keeps the body's `is_available`
      (false when absent). */
  function CreateVehicle(db: LegacyDb, body: Binding<VehicleBody>, check: ValidationOutcome, newId: nat)
    : (out: (Envelope<()>, LegacyDb))
    requires newId !in db.vehicles && WellFormedOutcome(check)
    ensures body.BindFailed? ==> out == (ResponseFormatter(StatusBadRequest, None, "Invalid Input"), db)
    ensures body.Bound? && !check.Passed? ==> out == (ValidationErrorHandler(check), db)
    ensures body.Bound? && check.Passed? && PoliceNumberTaken(db, body.value.policeNumber, None) ==>
      out == (ResponseFormatter(StatusConflict, None, PoliceNumberMessage(body.value.policeNumber)), db)
    ensures body.Bound? && check.Passed? && !PoliceNumberTaken(db, body.value.policeNumber, None) && body.value.typeId !in db.vehicleTypes ==>
      out == (ResponseFormatter(StatusBadRequest, None, InvalidTypeId), db)
    ensures body.Bound? && check.Passed? && !PoliceNumberTaken(db, body.value.policeNumber, None) && body.value.typeId in db.vehicleTypes
            && body.value.id != 0 && body.value.id in db.vehicles ==>
      out == (ResponseFormatter(StatusInternalServerError, None, "Internal Server Error"), db)
    ensures out.0.httpStatus == StatusCreated <==>
      && body.Bound? && check.Passed? && !PoliceNumberTaken(db, body.value.policeNumber, None) && body.value.typeId in db.vehicleTypes
      && (body.value.id == 0 || body.value.id !in db.vehicles)
    ensures out.0.httpStatus != StatusCreated ==> out.1 == db
    ensures out.0.httpStatus == StatusCreated ==>
      var b := body.value;
      out == (ResponseFormatter(StatusCreated, None, "Vehicle created successfully"),
              db.(vehicles := db.vehicles[Store.CreatedId(b.id, newId) := VehicleRow(b.typeId, b.name, b.policeNumber, b.isAvailable)]))
  {
    if body.BindFailed? then (ResponseFormatter(StatusBadRequest, None, "Invalid Input"), db)
    else if !check.Passed? then (ValidationErrorHandler(check), db)
    else
      var b := body.value;
      if PoliceNumberTaken(db, b.policeNumber, None) then (ResponseFormatter(StatusConflict, None, PoliceNumberMessage(b.policeNumber)), db)
      else if b.typeId !in db.vehicleTypes then (ResponseFormatter(StatusBadRequest, None, InvalidTypeId), db)
      else if Store.CreatedId(b.id, newId) in db.vehicles then (ResponseFormatter(StatusInternalServerError, None, "Internal Server Error"), db)
      else (ResponseFormatter(StatusCreated, None, "Vehicle created successfully"),
            db.(vehicles := db.vehicles[Store.CreatedId(b.id, newId) := VehicleRow(b.typeId, b.name, b.policeNumber, b.isAvailable)]))
  }

  /** Whether a vehicle passes both optional filters (combined with AND). */
  predicate Selected(v: VehicleRow, typeId: Option<int>, available: Option<bool>)
  {
    (typeId.Some? ==> v.typeId == typeId.value) && (available.Some? ==> v.isAvailable == available.value)
  }

  /** The ids of the listed vehicles, ascending. */
  function SelectedIds(db: LegacyDb, typeId: Option<int>, available: Option<bool>): (ids: seq<nat>)
    ensures forall i, j :: 0 <= i < j < |ids| ==> ids[i] < ids[j]
    ensures forall k :: k in ids <==> k in db.vehicles && Selected(db.vehicles[k], typeId, available)
  {
    var ids := Sorted(set k | k in db.vehicles && Selected(db.vehicles[k], typeId, available));
    assert StrictlyIncreasing(ids);
    ids
  }

  /** The listed vehicles, ascending by id. */
  function ListVehicles(db: LegacyDb, typeId: Option<int>, available: Option<bool>): (r: seq<ListedVehicle>)
    ensures |r| == |SelectedIds(db, typeId, available)|
    ensures forall i :: 0 <= i < |r| ==>
      var k := SelectedIds(db, typeId, available)[i];
      k in db.vehicles && r[i] == ListedVehicle(k, db.vehicles[k])
  {
    var ids := SelectedIds(db, typeId, available);
    seq(|ids|, i requires 0 <= i < |ids| => var k := ids[i]; assert k in ids; ListedVehicle(k, db.vehicles[k]))
  }

  /** `GetAllVehicles`: a non-empty `type_id` must be a decimal integer (checked first), a non-empty
      `is_available` one of ParseBool's spellings. An empty listing is rendered as `null`. */
  function GetAllVehicles(db: LegacyDb, typeIdParam: string, availableParam: string): (e: Envelope<JsonList<ListedVehicle>>)
    ensures typeIdParam != "" && !Atoi(typeIdParam).Converted? ==> e == ResponseFormatter(StatusBadRequest, None, "Invalid type_id")
    ensures (typeIdParam == "" || Atoi(typeIdParam).Converted?) && availableParam != "" && ParseBool(availableParam).None? ==>
      e == ResponseFormatter(StatusBadRequest, None, "Invalid is_available")
    ensures e.httpStatus == StatusOK <==>
      (typeIdParam == "" || Atoi(typeIdParam).Converted?) && (availableParam == "" || ParseBool(availableParam).Some?)
    ensures e.httpStatus == StatusOK ==>
      var typeId := if typeIdParam == "" then None else Some(Atoi(typeIdParam).value);
      var available := if availableParam == "" then None else ParseBool(availableParam);
      e == ResponseFormatter(StatusOK, Some(Appended(ListVehicles(db, typeId, available))), "Vehicles retrieved successfully")
  {
    if typeIdParam != "" && !Atoi(typeIdParam).Converted? then ResponseFormatter(StatusBadRequest, None, "Invalid type_id")
    else if availableParam != "" && ParseBool(availableParam).None? then ResponseFormatter(StatusBadRequest, None, "Invalid is_available")
    else
      var typeId := if typeIdParam == "" then None else Some(Atoi(typeIdParam).value);
      var available := if availableParam == "" then None else ParseBool(availableParam);
      ResponseFormatter(StatusOK, Some(Appended(ListVehicles(db, typeId, available))), "Vehicles retrieved successfully")
  }

  /** `UpdateVehicle`: 404 first, then binding into a separate input ("Invalid Inputs"), then the
      police-number probe excluding the path id, then validation, then the type lookup. Only the name,
      police number and type change. */
  function UpdateVehicle(db: LegacyDb, id: nat, body: Binding<VehicleBody>, check: ValidationOutcome)
    : (out: (Envelope<()>, LegacyDb))
    requires WellFormedOutcome(check)
    ensures id !in db.vehicles ==> out == (ResponseFormatter(StatusNotFound, None, VehicleNotFound), db)
    ensures id in db.vehicles && body.BindFailed? ==> out == (ResponseFormatter(StatusBadRequest, None, "Invalid Inputs"), db)
    ensures id in db.vehicles && body.Bound? && PoliceNumberTaken(db, body.value.policeNumber, Some(id)) ==>
      out == (ResponseFormatter(StatusConflict, None, PoliceNumberMessage(body.value.policeNumber)), db)
    ensures id in db.vehicles && body.Bound? && !PoliceNumberTaken(db, body.value.policeNumber, Some(id)) && !check.Passed? ==>
      out == (ValidationErrorHandler(check), db)
    ensures out.0.httpStatus != StatusOK ==> out.1 == db
    ensures out.0.httpStatus == StatusOK <==>
      && id in db.vehicles && body.Bound? && !PoliceNumberTaken(db, body.value.policeNumber, Some(id))
      && check.Passed? && body.value.typeId in db.vehicleTypes
    ensures out.0.httpStatus == StatusOK ==>
      && out.0 == ResponseFormatter(StatusOK, None, "Vehicle updated successfully")
      && out.1.vehicles.Keys == db.vehicles.Keys
      && out.1.vehicles[id].isAvailable == db.vehicles[id].isAvailable
      && out.1.vehicles[id].name == body.value.name
      && out.1.vehicles[id].policeNumber == body.value.policeNumber
      && out.1.vehicles[id].typeId == body.value.typeId
      && (forall k :: k in db.vehicles && k != id ==> out.1.vehicles[k] == db.vehicles[k])
      && out.1 == db.(vehicles := out.1.vehicles)
  {
    if id !in db.vehicles then (ResponseFormatter(StatusNotFound, None, VehicleNotFound), db)
    else if body.BindFailed? then (ResponseFormatter(StatusBadRequest, None, "Invalid Inputs"), db)
    else
      var b := body.value;
      if PoliceNumberTaken(db, b.policeNumber, Some(id)) then (ResponseFormatter(StatusConflict, None, PoliceNumberMessage(b.policeNumber)), db)
      else if !check.Passed? then (ValidationErrorHandler(check), db)
      else if b.typeId !in db.vehicleTypes then (ResponseFormatter(StatusBadRequest, None, InvalidTypeId), db)
      else
        var row := db.vehicles[id].(name := b.name, policeNumber := b.policeNumber, typeId := b.typeId);
        (ResponseFormatter(StatusOK, None, "Vehicle updated successfully"), db.(vehicles := db.vehicles[id := row]))
  }

  /** `DeleteVehicle`: 404 for an unknown id, else the vehicle is removed. */
  function DeleteVehicle(db: LegacyDb, id: nat): (out: (Envelope<()>, LegacyDb))
    ensures id !in db.vehicles ==> out == (ResponseFormatter(StatusNotFound, None, VehicleNotFound), db)
    ensures id in db.vehicles ==> out == (ResponseFormatter(StatusOK, None, "Vehicle deleted successfully"), db.(vehicles := db.vehicles - {id}))
  {
    if id !in db.vehicles then (ResponseFormatter(StatusNotFound, None, VehicleNotFound), db)
    else (ResponseFormatter(StatusOK, None, "Vehicle deleted successfully"), db.(vehicles := db.vehicles - {id}))
  }

  // ---------------------------------------------------------------------------------------------
  // Properties

  predicate PoliceNumbersUnique(db: LegacyDb)
  {
    forall k1, k2 :: k1 in db.vehicles && k2 in db.vehicles && k1 != k2 ==> db.vehicles[k1].policeNumber != db.vehicles[k2].policeNumber
  }

  /** Every vehicle's type exists. */
  predicate VehicleTypesResolve(db: LegacyDb)
  {
    forall k :: k in db.vehicles ==> db.vehicles[k].typeId in db.vehicleTypes
  }

  /** Create keeps police numbers unique and every vehicle's type resolvable. */
  lemma CreateKeepsVehiclesConsistent(db: LegacyDb, body: Binding<VehicleBody>, check: ValidationOutcome, newId: nat)
    requires newId !in db.vehicles && WellFormedOutcome(check) && PoliceNumbersUnique(db) && VehicleTypesResolve(db)
    ensures PoliceNumbersUnique(CreateVehicle(db, body, check, newId).1)
    ensures VehicleTypesResolve(CreateVehicle(db, body, check, newId).1)
  {
    if body.Bound? && !PoliceNumberTaken(db, body.value.policeNumber, None) {
      forall k | k in db.vehicles
        ensures db.vehicles[k].policeNumber != body.value.policeNumber
      {
        assert !(k in db.vehicles && None != Some(k) && db.vehicles[k].policeNumber == body.value.policeNumber);
      }
    }
  }

  /** Update keeps police numbers unique and every vehicle's type resolvable. */
  lemma UpdateKeepsVehiclesConsistent(db: LegacyDb, id: nat, body: VehicleBody, check: ValidationOutcome)
    requires WellFormedOutcome(check) && PoliceNumbersUnique(db) && VehicleTypesResolve(db)
    ensures PoliceNumbersUnique(UpdateVehicle(db, id, Bound(body), check).1)
    ensures VehicleTypesResolve(UpdateVehicle(db, id, Bound(body), check).1)
  {
    if id in db.vehicles && !PoliceNumberTaken(db, body.policeNumber, Some(id)) {
      forall k | k in db.vehicles && k != id
        ensures db.vehicles[k].policeNumber != body.policeNumber
      {
        assert !(k in db.vehicles && Some(id) != Some(k) && db.vehicles[k].policeNumber == body.policeNumber);
      }
    }
  }

  /** Listing with both filters is listing by type, then keeping the vehicles whose availability
      matches. */
  lemma FiltersCombineByAnd(db: LegacyDb, typeId: int, available: bool)
    ensures forall k :: k in SelectedIds(db, Some(typeId), Some(available)) <==>
      k in SelectedIds(db, Some(typeId), None) && db.vehicles[k].isAvailable == available
  {
  }

  /** A delete keeps police numbers unique and every vehicle's type resolvable, frees the deleted
      vehicle's police number, and a second delete of the same id answers 404. */
  lemma DeleteKeepsVehiclesConsistent(db: LegacyDb, id: nat)
    requires PoliceNumbersUnique(db) && VehicleTypesResolve(db)
    ensures PoliceNumbersUnique(DeleteVehicle(db, id).1) && VehicleTypesResolve(DeleteVehicle(db, id).1)
    ensures id in db.vehicles ==> !PoliceNumberTaken(DeleteVehicle(db, id).1, db.vehicles[id].policeNumber, None)
    ensures DeleteVehicle(DeleteVehicle(db, id).1, id).0 == ResponseFormatter(StatusNotFound, None, VehicleNotFound)
  {
    var db' := DeleteVehicle(db, id).1;
    if id in db.vehicles {
      forall k | k in db'.vehicles
        ensures db'.vehicles[k].policeNumber != db.vehicles[id].policeNumber
      {
        assert k in db.vehicles && k != id;
      }
    }
  }
}
