/** The tables behind the older controllers (`users`, `roles`, `vehicle_types`, `vehicles`, `loans`),
    again as maps of active rows keyed by id, and the lookups those controllers share. */
module LegacyStore {

  import opened Base
  import opened Collections

  datatype LegacyUserRow = LegacyUserRow(roleId: nat, name: string, email: string, password: string)
  datatype LegacyRoleRow = LegacyRoleRow(name: string)
  datatype VehicleTypeRow = VehicleTypeRow(name: string)
  datatype VehicleRow = VehicleRow(typeId: nat, name: string, policeNumber: string, isAvailable: bool)
  /** A loan; `returnTime` is None while the vehicle is out (Go's zero time). */
  datatype LoanRow = LoanRow(userId: nat, vehicleId: nat, purpose: string, returnTime: Option<int>)

  datatype LegacyDb = LegacyDb(
    users: map<nat, LegacyUserRow>,
    roles: map<nat, LegacyRoleRow>,
    vehicleTypes: map<nat, VehicleTypeRow>,
    vehicles: map<nat, VehicleRow>,
    loans: map<nat, LoanRow>)

  /** Some row other than `except` satisfies `p` — the `Where(…).First` existence probes, with the
      optional `id != ?` exclusion. */
  predicate TakenBy<V>(table: map<nat, V>, p: V -> bool, except: Option<nat>)
  {
    exists k :: k in table && except != Some(k) && p(table[k])
  }

  /** The row gorm's `Save` writes: the bound primary key, or, when that key is zero, a new row under
      the id the database assigns (a zero key makes `Save` an insert). */
  function SaveTarget(bound: nat, newId: nat): (k: nat)
    requires 0 < newId
    ensures k != 0
    ensures bound != 0 ==> k == bound
  {
    if bound == 0 then newId else bound
  }

  /** `Where("is_available = ?", true).First(&vehicle, id)`: the vehicle exists and is available. */
  predicate Available(db: LegacyDb, vehicleId: nat)
  {
    vehicleId in db.vehicles && db.vehicles[vehicleId].isAvailable
  }

  /** The vehicle made available or unavailable, when it exists; nothing otherwise. */
  function SetAvailability(db: LegacyDb, vehicleId: nat, available: bool): (db': LegacyDb)
    ensures db'.loans == db.loans && db'.users == db.users && db'.roles == db.roles && db'.vehicleTypes == db.vehicleTypes
    ensures db'.vehicles.Keys == db.vehicles.Keys
    ensures vehicleId in db.vehicles ==> db'.vehicles[vehicleId] == db.vehicles[vehicleId].(isAvailable := available)
    ensures forall k :: k in db.vehicles && k != vehicleId ==> db'.vehicles[k] == db.vehicles[k]
  {
    if vehicleId in db.vehicles then db.(vehicles := db.vehicles[vehicleId := db.vehicles[vehicleId].(isAvailable := available)])
    else db
  }
}
