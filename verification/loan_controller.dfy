/** The loan controller as a vehicle-availability state machine: lending a vehicle marks it
    unavailable, moving a loan to another vehicle swaps the two, and deleting or returning a loan makes
    its vehicle available again — in the code as written, whether or not the loan was still out. */
module LoanController {

  import opened Base
  import opened Response
  import opened Validator
  import opened LegacyStore

  /** `models.LoanValidation`, the body of create and update. */
  datatype LoanInput = LoanInput(userId: nat, vehicleId: nat, purpose: string)

  const LoanNotFound := "Loan not found"
  const VehicleNotAvailable := "Vehicle Not Available"

  predicate Active(l: LoanRow)
  {
    l.returnTime.None?
  }

  /** The availability invariant: a vehicle that is out on an active loan is marked unavailable, and
      no two active loans hold the same vehicle. */
  predicate Consistent(db: LegacyDb)
  {
    && (forall k :: k in db.loans && Active(db.loans[k]) && db.loans[k].vehicleId in db.vehicles ==>
          !db.vehicles[db.loans[k].vehicleId].isAvailable)
    && (forall k1, k2 :: k1 in db.loans && k2 in db.loans && k1 != k2 && Active(db.loans[k1]) && Active(db.loans[k2]) ==>
          db.loans[k1].vehicleId != db.loans[k2].vehicleId)
  }

  /** `CreateLoan`: the vehicle must exist and be available; it is then marked unavailable and the
      loan stored under the id the database assigns. A bind failure echoes the binder's text as data. */
  function CreateLoan(db: LegacyDb, body: Binding<LoanInput>, check: ValidationOutcome, newId: nat)
    : (out: (Envelope<string>, LegacyDb))
    requires newId !in db.loans && WellFormedOutcome(check)
    ensures body.BindFailed? ==> out == (ResponseFormatter(StatusBadRequest, Some(body.text), "Invalid Input"), db)
    ensures body.Bound? && !check.Passed? ==> out == (ValidationErrorHandler(check), db)
    ensures body.Bound? && check.Passed? && !Available(db, body.value.vehicleId) ==>
      out == (ResponseFormatter(StatusNotFound, None, VehicleNotAvailable), db)
    ensures out.0.httpStatus == StatusCreated <==> body.Bound? && check.Passed? && Available(db, body.value.vehicleId)
    ensures out.0.httpStatus == StatusCreated ==>
      var b := body.value;
      && out.0 == ResponseFormatter(StatusCreated, None, "Loan created successfully")
      && out.1 == SetAvailability(db, b.vehicleId, false).(loans := db.loans[newId := LoanRow(b.userId, b.vehicleId, b.purpose, None)])
  {
    if body.BindFailed? then (ResponseFormatter(StatusBadRequest, Some(body.text), "Invalid Input"), db)
    else if !check.Passed? then (ValidationErrorHandler(check), db)
    else
      var b := body.value;
      if !Available(db, b.vehicleId) then (ResponseFormatter(StatusNotFound, None, VehicleNotAvailable), db)
      else
        var db' := SetAvailability(db, b.vehicleId, false);
        (ResponseFormatter(StatusCreated, None, "Loan created successfully"),
         db'.(loans := db'.loans[newId := LoanRow(b.userId, b.vehicleId, b.purpose, None)]))
  }

  /** `UpdateLoan` with the availability bookkeeping switched by `onlyActive`: false is the code as
      written (the swap happens for any loan), true applies it only to a loan that is still out. */
  function UpdateLoanWith(db: LegacyDb, id: nat, body: Binding<LoanInput>, check: ValidationOutcome, onlyActive: bool)
    : (out: (Envelope<()>, LegacyDb))
    requires WellFormedOutcome(check)
    ensures id !in db.loans ==> out == (ResponseFormatter(StatusNotFound, None, LoanNotFound), db)
    ensures id in db.loans && body.BindFailed? ==> out == (ResponseFormatter(StatusBadRequest, None, "Invalid Input"), db)
    ensures id in db.loans && body.Bound? && !check.Passed? ==> out == (ValidationErrorHandler(check), db)
    ensures out.0.httpStatus == StatusOK <==>
      && id in db.loans && body.Bound? && check.Passed?
      && (body.value.vehicleId != db.loans[id].vehicleId ==>
            Available(db, body.value.vehicleId) && db.loans[id].vehicleId in db.vehicles)
    ensures id in db.loans && body.Bound? && check.Passed? && body.value.vehicleId != db.loans[id].vehicleId
              && !(Available(db, body.value.vehicleId) && db.loans[id].vehicleId in db.vehicles) ==>
      out == (ResponseFormatter(StatusNotFound, None, VehicleNotAvailable), db)
    ensures out.0.httpStatus != StatusOK ==> out.1 == db
    ensures out.0.httpStatus == StatusOK ==>
      var loan := db.loans[id];
      var b := body.value;
      var moved := b.vehicleId != loan.vehicleId && (!onlyActive || Active(loan));
      var swapped := if moved then SetAvailability(SetAvailability(db, loan.vehicleId, true), b.vehicleId, false) else db;
      && out.0 == ResponseFormatter(StatusOK, None, "Loan updated successfully")
      && out.1 == swapped.(loans := db.loans[id := loan.(userId := b.userId, vehicleId := b.vehicleId, purpose := b.purpose)])
  {
    if id !in db.loans then (ResponseFormatter(StatusNotFound, None, LoanNotFound), db)
    else if body.BindFailed? then (ResponseFormatter(StatusBadRequest, None, "Invalid Input"), db)
    else if !check.Passed? then (ValidationErrorHandler(check), db)
    else
      var loan := db.loans[id];
      var b := body.value;
      if b.vehicleId != loan.vehicleId && !Available(db, b.vehicleId) then
        (ResponseFormatter(StatusNotFound, None, VehicleNotAvailable), db)
      else if b.vehicleId != loan.vehicleId && loan.vehicleId !in db.vehicles then
        (ResponseFormatter(StatusNotFound, None, VehicleNotAvailable), db)
      else
        var moved := b.vehicleId != loan.vehicleId && (!onlyActive || Active(loan));
        var swapped := if moved then SetAvailability(SetAvailability(db, loan.vehicleId, true), b.vehicleId, false) else db;
        (ResponseFormatter(StatusOK, None, "Loan updated successfully"),
         swapped.(loans := db.loans[id := loan.(userId := b.userId, vehicleId := b.vehicleId, purpose := b.purpose)]))
  }

  /** `DeleteLoan` with the release switched by `onlyActive`, as above. When the loan's vehicle no
      longer exists the loan is still deleted but the answer is 404. */
  function DeleteLoanWith(db: LegacyDb, id: nat, onlyActive: bool): (out: (Envelope<()>, LegacyDb))
    ensures id !in db.loans ==> out == (ResponseFormatter(StatusNotFound, None, LoanNotFound), db)
    ensures id in db.loans ==> out.1.loans == db.loans - {id}
    ensures id in db.loans && db.loans[id].vehicleId !in db.vehicles ==>
      out == (ResponseFormatter(StatusNotFound, None, VehicleNotAvailable), db.(loans := db.loans - {id}))
    ensures out.0.httpStatus == StatusOK <==> id in db.loans && db.loans[id].vehicleId in db.vehicles
    ensures out.0.httpStatus == StatusOK ==>
      var loan := db.loans[id];
      var released := if !onlyActive || Active(loan) then SetAvailability(db, loan.vehicleId, true) else db;
      out == (ResponseFormatter(StatusOK, None, "Loan deleted successfully"), released.(loans := db.loans - {id}))
  {
    if id !in db.loans then (ResponseFormatter(StatusNotFound, None, LoanNotFound), db)
    else
      var loan := db.loans[id];
      var db' := db.(loans := db.loans - {id});
      if loan.vehicleId !in db.vehicles then (ResponseFormatter(StatusNotFound, None, VehicleNotAvailable), db')
      else
        var released := if !onlyActive || Active(loan) then SetAvailability(db', loan.vehicleId, true) else db';
        (ResponseFormatter(StatusOK, None, "Loan deleted successfully"), released)
  }

  /** `ReturnLoan` with the release switched by `onlyActive`. As written, the return time is
      overwritten and the vehicle released every time; with `onlyActive` a loan already returned is
      left exactly as it was. */
  function ReturnLoanWith(db: LegacyDb, id: nat, now: int, onlyActive: bool): (out: (Envelope<()>, LegacyDb))
    ensures id !in db.loans ==> out == (ResponseFormatter(StatusNotFound, None, LoanNotFound), db)
    ensures id in db.loans && db.loans[id].vehicleId !in db.vehicles ==>
      out.0 == ResponseFormatter(StatusNotFound, None, VehicleNotAvailable) && out.1.vehicles == db.vehicles
    ensures id in db.loans && db.loans[id].vehicleId in db.vehicles ==>
      out.0 == ResponseFormatter(StatusOK, None, "Loan returned successfully")
    ensures out.1.users == db.users && out.1.roles == db.roles && out.1.vehicleTypes == db.vehicleTypes
    ensures id in db.loans && (!onlyActive || Active(db.loans[id])) ==>
      out.1.loans == db.loans[id := db.loans[id].(returnTime := Some(now))]
    ensures id in db.loans && (!onlyActive || Active(db.loans[id])) && db.loans[id].vehicleId in db.vehicles ==>
      out.1.vehicles == db.vehicles[db.loans[id].vehicleId := db.vehicles[db.loans[id].vehicleId].(isAvailable := true)]
    ensures id in db.loans && onlyActive && !Active(db.loans[id]) ==> out.1 == db
  {
    if id !in db.loans then (ResponseFormatter(StatusNotFound, None, LoanNotFound), db)
    else
      var loan := db.loans[id];
      var doIt := !onlyActive || Active(loan);
      var db' := if doIt then db.(loans := db.loans[id := loan.(returnTime := Some(now))]) else db;
      if loan.vehicleId !in db.vehicles then (ResponseFormatter(StatusNotFound, None, VehicleNotAvailable), db')
      else
        var released := if doIt then SetAvailability(db', loan.vehicleId, true) else db';
        (ResponseFormatter(StatusOK, None, "Loan returned successfully"), released)
  }

  /** The controller's operations as written: moving a loan swaps the availability of the two
      vehicles, and deleting or returning a loan releases its vehicle, whether or not the loan was
      still out. */
  function UpdateLoan(db: LegacyDb, id: nat, body: Binding<LoanInput>, check: ValidationOutcome): (out: (Envelope<()>, LegacyDb))
    requires WellFormedOutcome(check)
    ensures out.0.httpStatus == StatusOK ==>
      && id in db.loans && body.Bound? && id in out.1.loans && out.1.loans[id].vehicleId == body.value.vehicleId
    ensures id in db.loans && body.Bound? && out.0.httpStatus == StatusOK && body.value.vehicleId != db.loans[id].vehicleId ==>
      var (before, after) := (db.loans[id].vehicleId, body.value.vehicleId);
      && before in out.1.vehicles && out.1.vehicles[before].isAvailable
      && after in out.1.vehicles && !out.1.vehicles[after].isAvailable
  {
    UpdateLoanWith(db, id, body, check, false)
  }

  function DeleteLoan(db: LegacyDb, id: nat): (out: (Envelope<()>, LegacyDb))
    ensures id in db.loans ==> id !in out.1.loans
    ensures id in db.loans && db.loans[id].vehicleId in db.vehicles ==>
      db.loans[id].vehicleId in out.1.vehicles && out.1.vehicles[db.loans[id].vehicleId].isAvailable
  {
    DeleteLoanWith(db, id, false)
  }

  function ReturnLoan(db: LegacyDb, id: nat, now: int): (out: (Envelope<()>, LegacyDb))
    ensures id in db.loans ==> id in out.1.loans && out.1.loans[id].returnTime == Some(now)
    ensures id in db.loans && db.loans[id].vehicleId in db.vehicles ==>
      db.loans[id].vehicleId in out.1.vehicles && out.1.vehicles[db.loans[id].vehicleId].isAvailable
  {
    ReturnLoanWith(db, id, now, false)
  }

  /** The same operations releasing or swapping a vehicle only for a loan that is still out. */
  function UpdateLoanFixed(db: LegacyDb, id: nat, body: Binding<LoanInput>, check: ValidationOutcome): (out: (Envelope<()>, LegacyDb))
    requires WellFormedOutcome(check)
    ensures id in db.loans && out.0.httpStatus == StatusOK && !Active(db.loans[id]) ==> out.1.vehicles == db.vehicles
    ensures id in db.loans && body.Bound? && out.0.httpStatus == StatusOK && Active(db.loans[id])
              && body.value.vehicleId != db.loans[id].vehicleId ==>
      var (before, after) := (db.loans[id].vehicleId, body.value.vehicleId);
      && before in out.1.vehicles && out.1.vehicles[before].isAvailable
      && after in out.1.vehicles && !out.1.vehicles[after].isAvailable
  {
    UpdateLoanWith(db, id, body, check, true)
  }

  function DeleteLoanFixed(db: LegacyDb, id: nat): (out: (Envelope<()>, LegacyDb))
    ensures id in db.loans ==> id !in out.1.loans
    ensures id in db.loans && !Active(db.loans[id]) ==> out.1.vehicles == db.vehicles
    ensures id in db.loans && Active(db.loans[id]) && db.loans[id].vehicleId in db.vehicles ==>
      db.loans[id].vehicleId in out.1.vehicles && out.1.vehicles[db.loans[id].vehicleId].isAvailable
  {
    DeleteLoanWith(db, id, true)
  }

  function ReturnLoanFixed(db: LegacyDb, id: nat, now: int): (out: (Envelope<()>, LegacyDb))
    ensures id in db.loans && !Active(db.loans[id]) ==> out.1 == db
    ensures id in db.loans && Active(db.loans[id]) ==> id in out.1.loans && out.1.loans[id].returnTime == Some(now)
    ensures id in db.loans && Active(db.loans[id]) && db.loans[id].vehicleId in db.vehicles ==>
      db.loans[id].vehicleId in out.1.vehicles && out.1.vehicles[db.loans[id].vehicleId].isAvailable
  {
    ReturnLoanWith(db, id, now, true)
  }

  // ---------------------------------------------------------------------------------------------
  // Properties

  /** Lending keeps the invariant. */
  lemma CreateKeepsConsistent(db: LegacyDb, body: Binding<LoanInput>, check: ValidationOutcome, newId: nat)
    requires newId !in db.loans && WellFormedOutcome(check) && Consistent(db)
    ensures Consistent(CreateLoan(db, body, check, newId).1)
  {
    var (resp, db') := CreateLoan(db, body, check, newId);
    if resp.httpStatus == StatusCreated {
      var v := body.value.vehicleId;
      forall k | k in db.loans && Active(db.loans[k])
        ensures db.loans[k].vehicleId != v
      {
      }
    }
  }

  /** With the corrected bookkeeping, updating keeps the invariant. */
  lemma UpdateFixedKeepsConsistent(db: LegacyDb, id: nat, body: Binding<LoanInput>, check: ValidationOutcome)
    requires WellFormedOutcome(check) && Consistent(db)
    ensures Consistent(UpdateLoanFixed(db, id, body, check).1)
  {
    var (resp, db') := UpdateLoanFixed(db, id, body, check);
    if resp.httpStatus == StatusOK {
      var loan := db.loans[id];
      var b := body.value;
      if b.vehicleId != loan.vehicleId && Active(loan) {
        forall k | k in db.loans && k != id && Active(db.loans[k])
          ensures db.loans[k].vehicleId != b.vehicleId && db.loans[k].vehicleId != loan.vehicleId
        {
        }
      } else if b.vehicleId != loan.vehicleId {
        forall k | k in db.loans && k != id && Active(db.loans[k])
          ensures db.loans[k].vehicleId != b.vehicleId
        {
        }
      }
    }
  }

  /** With the corrected bookkeeping, deleting keeps the invariant. */
  lemma DeleteFixedKeepsConsistent(db: LegacyDb, id: nat)
    requires Consistent(db)
    ensures Consistent(DeleteLoanFixed(db, id).1)
  {
    var (resp, db') := DeleteLoanFixed(db, id);
    if id in db.loans && Active(db.loans[id]) && db.loans[id].vehicleId in db.vehicles {
      var v := db.loans[id].vehicleId;
      forall k | k in db'.loans && Active(db'.loans[k])
        ensures db'.loans[k].vehicleId != v
      {
        assert k in db.loans && k != id;
      }
    }
  }

  /** With the corrected bookkeeping, returning keeps the invariant. */
  lemma ReturnFixedKeepsConsistent(db: LegacyDb, id: nat, now: int)
    requires Consistent(db)
    ensures Consistent(ReturnLoanFixed(db, id, now).1)
  {
    var (resp, db') := ReturnLoanFixed(db, id, now);
    if id in db.loans && Active(db.loans[id]) && db.loans[id].vehicleId in db.vehicles {
      var v := db.loans[id].vehicleId;
      forall k | k in db'.loans && Active(db'.loans[k])
        ensures db'.loans[k].vehicleId != v
      {
        assert k != id;
      }
    }
  }

  /** Returning a loan twice in a row leaves availability as the first return did. */
  lemma ReturnTwiceSameAvailability(db: LegacyDb, id: nat, now: int, later: int)
    ensures ReturnLoan(ReturnLoan(db, id, now).1, id, later).1.vehicles == ReturnLoan(db, id, now).1.vehicles
  {
  }

  /** A consistent state where loan 1 was returned and its van has since gone out again on loan 2. */
  function ReusedVanState(): (db: LegacyDb)
    ensures Consistent(db)
  {
    LegacyDb(map[], map[], map[], map[7 := VehicleRow(1, "Van", "B 1234 CD", false)],
             map[1 := LoanRow(10, 7, "site visit", Some(100)), 2 := LoanRow(11, 7, "delivery", None)])
  }

  /** As written, deleting or returning the already returned loan 1 marks the van available while
      loan 2 still holds it: the invariant breaks and the van can be lent twice. */
  lemma ReleaseOfReturnedLoanBreaksInvariant()
    ensures !Consistent(DeleteLoan(ReusedVanState(), 1).1)
    ensures !Consistent(ReturnLoan(ReusedVanState(), 1, 200).1)
    ensures Available(DeleteLoan(ReusedVanState(), 1).1, 7)
  {
    var db := ReusedVanState();
    var d1 := DeleteLoan(db, 1).1;
    assert d1.loans[2] == db.loans[2] && d1.vehicles[7].isAvailable;
    var d2 := ReturnLoan(db, 1, 200).1;
    assert d2.loans[2] == db.loans[2] && d2.vehicles[7].isAvailable;
  }
}
