/** The older user controller over the `users` table: email uniqueness (excluding the addressed user
    on update), role existence, bcrypt hashing, and a password that is re-hashed on update only when
    one is supplied. */
module UserController {

  import opened Base
  import opened Response
  import opened Validator
  import opened Crypto
  import opened LegacyStore
  import Store

  /** The bound JSON body, with an absent field at its zero value. Only a create uses its `id`. */
  datatype UserBody = UserBody(id: nat, roleId: nat, name: string, email: string, password: string)

  const UserNotFound := "User not found"
  const InvalidRoleId := "Invalid role ID"

  function EmailTaken(db: LegacyDb, email: string, except: Option<nat>): bool
  {
    TakenBy(db.users, (u: LegacyUserRow) => u.email == email, except)
  }

  function EmailExistsMessage(email: string): string
  {
    "User with email '" + email + "' is already exist"
  }

  /** `CreateUser`: validation, then the email probe, then the role lookup, then hashing. gorm's
      `Create` inserts under the body's `id` when it is non-zero, else under the id the database
      assigns; an insert onto an existing row fails with 500. A created user is answered with 200, not
      201. `hash` is bcrypt's outcome on the body's password. */
  function CreateUser(db: LegacyDb, body: Binding<UserBody>, check: ValidationOutcome, hash: HashResult, newId: nat)
    : (out: (Envelope<()>, LegacyDb))
    requires newId !in db.users && WellFormedOutcome(check)
    ensures body.BindFailed? ==> out == (ResponseFormatter(StatusBadRequest, None, "Invalid Input"), db)
    ensures body.Bound? && !check.Passed? ==> out == (ValidationErrorHandler(check), db)
    ensures body.Bound? && check.Passed? && EmailTaken(db, body.value.email, None) ==>
      out == (ResponseFormatter(StatusConflict, None, EmailExistsMessage(body.value.email)), db)
    ensures body.Bound? && check.Passed? && !EmailTaken(db, body.value.email, None) && body.value.roleId !in db.roles ==>
      out == (ResponseFormatter(StatusBadRequest, None, InvalidRoleId), db)
    ensures body.Bound? && check.Passed? && !EmailTaken(db, body.value.email, None) && body.value.roleId in db.roles ==>
      && (hash.HashFailed? ==> out == (ResponseFormatter(StatusInternalServerError, None, "Failed to hash password"), db))
      && (hash.Hashed? && body.value.id != 0 && body.value.id in db.users ==> out == (ResponseFormatter(StatusInternalServerError, None, "Internal Server Error"), db))
    ensures out.1 != db ==> out.0.httpStatus == StatusOK
    ensures out.0.httpStatus == StatusOK <==>
      && body.Bound? && check.Passed? && !EmailTaken(db, body.value.email, None)
      && body.value.roleId in db.roles && hash.Hashed? && (body.value.id == 0 || body.value.id !in db.users)
    ensures out.0.httpStatus == StatusOK ==>
      var b := body.value;
      out == (ResponseFormatter(StatusOK, None, "User created successfully"),
              db.(users := db.users[Store.CreatedId(b.id, newId) := LegacyUserRow(b.roleId, b.name, b.email, hash.hash)]))
  {
    if body.BindFailed? then (ResponseFormatter(StatusBadRequest, None, "Invalid Input"), db)
    else if !check.Passed? then (ValidationErrorHandler(check), db)
    else
      var b := body.value;
      if EmailTaken(db, b.email, None) then (ResponseFormatter(StatusConflict, None, EmailExistsMessage(b.email)), db)
      else if b.roleId !in db.roles then (ResponseFormatter(StatusBadRequest, None, InvalidRoleId), db)
      else if hash.HashFailed? then (ResponseFormatter(StatusInternalServerError, None, "Failed to hash password"), db)
      else if Store.CreatedId(b.id, newId) in db.users then (ResponseFormatter(StatusInternalServerError, None, "Internal Server Error"), db)
      else (ResponseFormatter(StatusOK, None, "User created successfully"),
            db.(users := db.users[Store.CreatedId(b.id, newId) := LegacyUserRow(b.roleId, b.name, b.email, hash.hash)]))
  }

  /** The stored password after an update: the new hash when a password is supplied, else the old one. */
  function UpdatedPassword(stored: string, supplied: string, hash: HashResult): string
    requires supplied != "" ==> hash.Hashed?
  {
    if supplied != "" then hash.hash else stored
  }

  /** `UpdateUser`: 404 first, then binding into a separate input, then the email probe excluding the
      path id, then validation, then the role lookup, then hashing when a password is supplied. Name,
      email and role are overwritten. */
  function UpdateUser(db: LegacyDb, id: nat, body: Binding<UserBody>, check: ValidationOutcome, hash: HashResult)
    : (out: (Envelope<()>, LegacyDb))
    requires WellFormedOutcome(check)
    ensures id !in db.users ==> out == (ResponseFormatter(StatusNotFound, None, UserNotFound), db)
    ensures id in db.users && body.BindFailed? ==> out == (ResponseFormatter(StatusBadRequest, None, "Invalid Input"), db)
    ensures id in db.users && body.Bound? && EmailTaken(db, body.value.email, Some(id)) ==>
      out == (ResponseFormatter(StatusConflict, None, EmailExistsMessage(body.value.email)), db)
    ensures id in db.users && body.Bound? && !EmailTaken(db, body.value.email, Some(id)) && !check.Passed? ==>
      out == (ValidationErrorHandler(check), db)
    ensures id in db.users && body.Bound? && !EmailTaken(db, body.value.email, Some(id)) && check.Passed? && body.value.roleId !in db.roles ==>
      out == (ResponseFormatter(StatusBadRequest, None, InvalidRoleId), db)
    ensures out.0.httpStatus != StatusOK ==> out.1 == db
    ensures out.0.httpStatus == StatusOK <==>
      && id in db.users && body.Bound? && !EmailTaken(db, body.value.email, Some(id)) && check.Passed?
      && body.value.roleId in db.roles && (body.value.password != "" ==> hash.Hashed?)
    ensures out.0.httpStatus == StatusOK ==>
      var b := body.value;
      && out.0 == ResponseFormatter(StatusOK, None, "User updated successfully")
      && out.1 == db.(users := db.users[id := LegacyUserRow(b.roleId, b.name, b.email, UpdatedPassword(db.users[id].password, b.password, hash))])
  {
    if id !in db.users then (ResponseFormatter(StatusNotFound, None, UserNotFound), db)
    else if body.BindFailed? then (ResponseFormatter(StatusBadRequest, None, "Invalid Input"), db)
    else
      var b := body.value;
      if EmailTaken(db, b.email, Some(id)) then (ResponseFormatter(StatusConflict, None, EmailExistsMessage(b.email)), db)
      else if !check.Passed? then (ValidationErrorHandler(check), db)
      else if b.roleId !in db.roles then (ResponseFormatter(StatusBadRequest, None, InvalidRoleId), db)
      else if b.password != "" && hash.HashFailed? then
        (ResponseFormatter(StatusInternalServerError, None, "Failed to hash password"), db)
      else
        var row := LegacyUserRow(b.roleId, b.name, b.email, UpdatedPassword(db.users[id].password, b.password, hash));
        (ResponseFormatter(StatusOK, None, "User updated successfully"), db.(users := db.users[id := row]))
  }

  /** `DeleteUser`: 404 for an unknown id, else the user is removed. */
  function DeleteUser(db: LegacyDb, id: nat): (out: (Envelope<()>, LegacyDb))
    ensures id !in db.users ==> out == (ResponseFormatter(StatusNotFound, None, UserNotFound), db)
    ensures id in db.users ==> out == (ResponseFormatter(StatusOK, None, "User deleted successfully"), db.(users := db.users - {id}))
  {
    if id !in db.users then (ResponseFormatter(StatusNotFound, None, UserNotFound), db)
    else (ResponseFormatter(StatusOK, None, "User deleted successfully"), db.(users := db.users - {id}))
  }

  // ---------------------------------------------------------------------------------------------
  // Properties

  predicate EmailsUnique(db: LegacyDb)
  {
    forall k1, k2 :: k1 in db.users && k2 in db.users && k1 != k2 ==> db.users[k1].email != db.users[k2].email
  }

  /** Every user's role exists. */
  predicate UserRolesResolve(db: LegacyDb)
  {
    forall k :: k in db.users ==> db.users[k].roleId in db.roles
  }

  /** A successful update keeps emails unique and roles resolvable; keeping one's own email is never a
      conflict. */
  lemma UpdateKeepsUsersConsistent(db: LegacyDb, id: nat, body: UserBody, check: ValidationOutcome, hash: HashResult)
    requires WellFormedOutcome(check) && EmailsUnique(db) && UserRolesResolve(db)
    ensures EmailsUnique(UpdateUser(db, id, Bound(body), check, hash).1)
    ensures UserRolesResolve(UpdateUser(db, id, Bound(body), check, hash).1)
    ensures id in db.users && body.email == db.users[id].email ==> !EmailTaken(db, body.email, Some(id))
  {
    if id in db.users && !EmailTaken(db, body.email, Some(id)) {
      forall k | k in db.users && k != id
        ensures db.users[k].email != body.email
      {
        assert !(k in db.users && Some(id) != Some(k) && db.users[k].email == body.email);
      }
    }
  }

  /** A successful create keeps emails unique and roles resolvable. */
  lemma CreateKeepsUsersConsistent(db: LegacyDb, body: Binding<UserBody>, check: ValidationOutcome, hash: HashResult, newId: nat)
    requires newId !in db.users && WellFormedOutcome(check) && EmailsUnique(db) && UserRolesResolve(db)
    ensures EmailsUnique(CreateUser(db, body, check, hash, newId).1)
    ensures UserRolesResolve(CreateUser(db, body, check, hash, newId).1)
  {
    if body.Bound? && !EmailTaken(db, body.value.email, None) {
      forall k | k in db.users
        ensures db.users[k].email != body.value.email
      {
        assert !(k in db.users && None != Some(k) && db.users[k].email == body.value.email);
      }
    }
  }

  /** An update with an empty password keeps the stored hash; one with a password stores its hash. */
  lemma PasswordReplacedOnlyWhenSupplied(db: LegacyDb, id: nat, body: UserBody, check: ValidationOutcome, hash: HashResult)
    requires WellFormedOutcome(check)
    requires UpdateUser(db, id, Bound(body), check, hash).0.httpStatus == StatusOK
    ensures body.password == "" ==> UpdateUser(db, id, Bound(body), check, hash).1.users[id].password == db.users[id].password
    ensures body.password != "" ==> UpdateUser(db, id, Bound(body), check, hash).1.users[id].password == hash.hash
  {
  }

  /** A delete keeps emails unique and roles resolvable, frees the deleted user's email for a new
      account, and a second delete of the same id answers 404. */
  lemma DeleteKeepsUsersConsistent(db: LegacyDb, id: nat)
    requires EmailsUnique(db) && UserRolesResolve(db)
    ensures EmailsUnique(DeleteUser(db, id).1) && UserRolesResolve(DeleteUser(db, id).1)
    ensures id in db.users ==> !EmailTaken(DeleteUser(db, id).1, db.users[id].email, None)
    ensures DeleteUser(DeleteUser(db, id).1, id).0 == ResponseFormatter(StatusNotFound, None, UserNotFound)
  {
    var db' := DeleteUser(db, id).1;
    if id in db.users {
      forall k | k in db'.users
        ensures db'.users[k].email != db.users[id].email
      {
        assert k in db.users && k != id;
      }
    }
  }
}
