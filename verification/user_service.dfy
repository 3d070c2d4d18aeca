/** The user service: reading, creating, updating and deleting accounts, and the two password
    operations (reset by an administrator, change by proving the old password). Every mutating
    operation returns the service result and the database after it. */
module UserService {

  import opened Base
  import opened Numbers
  import opened Models
  import opened Store
  import opened Response
  import opened Validator
  import opened Dtos
  import opened Crypto

  /** Some user other than `except` already has this email. */
  predicate EmailTaken(db: Db, email: string, except: Option<int>)
  {
    exists k :: k in db.users && except != Some(k as int) && db.users[k].email == email
  }

  function EmailTakenMessage(email: string): string
  {
    "User email " + email + " already exist"
  }

  function RoleMissingMessage(roleId: nat): string
  {
    "Role with id " + NatToDecimal(roleId) + " not found"
  }

  /** `inputValidator`: the email must not belong to another user (any user on POST, `except` None)
      and the role must exist; both problems are reported together. */
  function InputValidator(db: Db, email: string, roleId: nat, except: Option<int>): (out: (map<string, string>, bool))
    ensures "email" in out.0 <==> EmailTaken(db, email, except)
    ensures "role_id" in out.0 <==> roleId !in db.roles
    ensures out.0.Keys <= {"email", "role_id"}
    ensures "email" in out.0 ==> out.0["email"] == EmailTakenMessage(email)
    ensures "role_id" in out.0 ==> out.0["role_id"] == RoleMissingMessage(roleId)
    ensures out.1 <==> |out.0| > 0
  {
    var duplicate := FindOther(db.users, (row: UserRow) => row.email == email, except);
    var errors := if duplicate.Some? then map["email" := EmailTakenMessage(email)] else map[];
    var errors' := if roleId !in db.roles then errors["role_id" := RoleMissingMessage(roleId)] else errors;
    assert "email" in errors' ==> |errors'| > 0;
    (errors', duplicate.Some? || roleId !in db.roles)
  }

  /** `GetByID`: the user with its role and the role's features. A missing user answers 404 with the
      message "Role not found". */
  function GetUser(db: Db, pathId: string): (r: ServiceResponse<UserDto>)
    ensures Atoi(pathId).Failed() ==> r == Fail(StatusBadRequest, "Invalid ID", NoError)
    ensures !Atoi(pathId).Failed() && !HasRow(db.users, Atoi(pathId).value) ==> r == Fail(StatusNotFound, "Role not found", NoError)
    ensures r.status == StatusOK <==> !Atoi(pathId).Failed() && HasRow(db.users, Atoi(pathId).value)
    ensures r.status == StatusOK ==> r.data == Some(ToUserDto(LoadUser(db, Atoi(pathId).value as nat, RoleAndFeatures)))
  {
    var id := Atoi(pathId);
    if id.Failed() then Fail(StatusBadRequest, "Invalid ID", NoError)
    else if !HasRow(db.users, id.value) then Fail(StatusNotFound, "Role not found", NoError)
    else Succeed(StatusOK, "Success Getting User Data", Some(ToUserDto(LoadUser(db, id.value as nat, RoleAndFeatures))))
  }

  /** `AddData`. `hashing` is bcrypt's answer for the submitted password and `newId` the id the
      database assigns. The response echoes the bound input with its new id. */
  function AddUser(db: Db, body: Binding<CreateUserInput>, check: ValidationOutcome, hashing: HashResult, newId: nat)
    : (out: (ServiceResponse<CreateUserInput>, Db))
    requires newId > 0 && newId !in db.users
    ensures body.BindFailed? ==> out.0 == Fail(StatusBadRequest, "Invalid Input", Failure(body.text))
    ensures body.Bound? && !check.Passed? ==> out.0 == Fail(StatusBadRequest, "Error Invalid Data", ValidationErrorsV1(check))
    ensures body.Bound? && check.Passed? ==>
      var model := InputCreateToUserModel(body.value);
      var (errors, failed) := InputValidator(db, model.email, model.roleId, None);
      && (failed ==> out.0 == Fail(StatusBadRequest, "Error Invalid Data", FieldErrors(errors)))
      && (!failed && hashing.HashFailed? ==> out.0 == Fail(StatusBadRequest, "Failed to hash password", Failure(hashing.text)))
    ensures out.0.status == StatusCreated <==>
      && body.Bound? && check.Passed? && hashing.Hashed?
      && !EmailTaken(db, body.value.email, None) && ParseRoleId(body.value.roleId) in db.roles
    ensures out.0.status != StatusCreated ==> out.1 == db
    ensures out.0.status == StatusCreated ==>
      && out.1 == db.(users := db.users[newId := UserRow(ParseRoleId(body.value.roleId), body.value.name, body.value.email, "", hashing.hash)])
      && out.0 == Succeed(StatusCreated, "User Created Successfully", Some(body.value.(id := newId)))
  {
    if body.BindFailed? then (Fail(StatusBadRequest, "Invalid Input", Failure(body.text)), db)
    else
      var input := body.value;
      if !check.Passed? then (Fail(StatusBadRequest, "Error Invalid Data", ValidationErrorsV1(check)), db)
      else
        var model := InputCreateToUserModel(input);
        var (errors, failed) := InputValidator(db, model.email, model.roleId, None);
        if failed then (Fail(StatusBadRequest, "Error Invalid Data", FieldErrors(errors)), db)
        else if hashing.HashFailed? then (Fail(StatusBadRequest, "Failed to hash password", Failure(hashing.text)), db)
        else
          var stored := model.(password := hashing.hash);
          var db' := db.(users := db.users[newId := UserRow(stored.roleId, stored.name, stored.email, stored.username, stored.password)]);
          (Succeed(StatusCreated, "User Created Successfully", Some(input.(id := newId))), db')
  }

  /** `UpdateData`: existence is checked before the body is validated; on success only name, email
      and role id change. */
  function UpdateUser(db: Db, body: Binding<UpdateUserInput>, pathId: string, check: ValidationOutcome)
    : (out: (ServiceResponse<UpdateUserInput>, Db))
    ensures body.BindFailed? ==> out.0 == Fail(StatusBadRequest, "Invalid Input", Failure(body.text))
    ensures body.Bound? && Atoi(pathId).Failed() ==> out.0 == Fail(StatusBadRequest, "Invalid ID", NoError)
    ensures body.Bound? && !Atoi(pathId).Failed() && !HasRow(db.users, Atoi(pathId).value) ==>
      out.0 == Fail(StatusNotFound, "User not found", NoError)
    ensures body.Bound? && !Atoi(pathId).Failed() && HasRow(db.users, Atoi(pathId).value) && !check.Passed? ==>
      out.0 == Fail(StatusBadRequest, "Error Invalid Data", ValidationErrorsV1(check))
    ensures body.Bound? && !Atoi(pathId).Failed() && HasRow(db.users, Atoi(pathId).value) && check.Passed? ==>
      var (errors, failed) := InputValidator(db, body.value.email, ParseRoleId(body.value.roleId), Some(Atoi(pathId).value));
      failed ==> out.0 == Fail(StatusBadRequest, "Error Invalid Data", FieldErrors(errors))
    ensures out.0.status == StatusOK <==>
      && body.Bound? && !Atoi(pathId).Failed() && HasRow(db.users, Atoi(pathId).value) && check.Passed?
      && !EmailTaken(db, body.value.email, Some(Atoi(pathId).value)) && ParseRoleId(body.value.roleId) in db.roles
    ensures out.0.status != StatusOK ==> out.1 == db
    ensures out.0.status == StatusOK ==>
      var id := Atoi(pathId).value as nat;
      && out.1 == db.(users := db.users[id := db.users[id].(name := body.value.name, email := body.value.email,
                                                             roleId := ParseRoleId(body.value.roleId))])
      && out.0 == Succeed(StatusOK, "User Updated Successfully", Some(body.value.(id := id)))
  {
    if body.BindFailed? then (Fail(StatusBadRequest, "Invalid Input", Failure(body.text)), db)
    else
      var input := body.value;
      var id := Atoi(pathId);
      if id.Failed() then (Fail(StatusBadRequest, "Invalid ID", NoError), db)
      else
        if !HasRow(db.users, id.value) then (Fail(StatusNotFound, "User not found", NoError), db)
        else if !check.Passed? then (Fail(StatusBadRequest, "Error Invalid Data", ValidationErrorsV1(check)), db)
        else
          var data := InputUpdateToUserModel(input).(id := id.value as nat);
          var (errors, failed) := InputValidator(db, data.email, data.roleId, Some(id.value));
          if failed then (Fail(StatusBadRequest, "Error Invalid Data", FieldErrors(errors)), db)
          else
            var uid := id.value as nat;
            var row := db.users[uid].(name := data.name, email := data.email, roleId := data.roleId);
            (Succeed(StatusOK, "User Updated Successfully", Some(input.(id := uid))), db.(users := db.users[uid := row]))
  }

  /** `DeleteData`. */
  function DeleteUser(db: Db, pathId: string): (out: (ServiceResponse<()>, Db))
    ensures Atoi(pathId).Failed() ==> out == (Fail(StatusBadRequest, "Invalid ID", NoError), db)
    ensures !Atoi(pathId).Failed() && !HasRow(db.users, Atoi(pathId).value) ==>
      out == (Fail(StatusNotFound, "User not found", NoError), db)
    ensures !Atoi(pathId).Failed() && HasRow(db.users, Atoi(pathId).value) ==>
      out == (Succeed(StatusOK, "User Deleted Successfully", None), db.(users := db.users - {Atoi(pathId).value as nat}))
  {
    var id := Atoi(pathId);
    if id.Failed() then (Fail(StatusBadRequest, "Invalid ID", NoError), db)
    else if !HasRow(db.users, id.value) then (Fail(StatusNotFound, "User not found", NoError), db)
    else (Succeed(StatusOK, "User Deleted Successfully", None), db.(users := db.users - {id.value as nat}))
  }

  const PasswordMismatch := "Re-Password and Password are different"
  const OldPasswordWrong := "The old password is incorrect"

  /** The errors both password operations report when the two new passwords differ. */
  function MismatchErrors(password: string, rePassword: string): (m: map<string, string>)
    ensures password == rePassword <==> m == map[]
    ensures password != rePassword ==> m == map["password" := PasswordMismatch, "re_password" := PasswordMismatch]
  {
    if password != rePassword then
      var m := map["password" := PasswordMismatch, "re_password" := PasswordMismatch];
      assert "password" in m;
      m
    else map[]
  }

  /** `ResetPass`: an administrator sets a new password; here the body is validated before the
      user's existence is checked. */
  function ResetPass(db: Db, body: Binding<ResetPassInput>, pathId: string, check: ValidationOutcome, hashing: HashResult)
    : (out: (ServiceResponse<()>, Db))
    ensures body.BindFailed? ==> out.0 == Fail(StatusBadRequest, "Invalid Input", Failure(body.text))
    ensures body.Bound? && Atoi(pathId).Failed() ==> out.0 == Fail(StatusBadRequest, "Invalid ID", NoError)
    ensures body.Bound? && !Atoi(pathId).Failed() && !check.Passed? ==>
      out.0 == Fail(StatusBadRequest, "Error Invalid Data", ValidationErrorsV1(check))
    ensures body.Bound? && !Atoi(pathId).Failed() && check.Passed? && !HasRow(db.users, Atoi(pathId).value) ==>
      out.0 == Fail(StatusNotFound, "User not found", NoError)
    ensures (body.Bound? && !Atoi(pathId).Failed() && check.Passed? && HasRow(db.users, Atoi(pathId).value)
             && body.value.password != body.value.rePassword) ==>
      out.0 == Fail(StatusBadRequest, "Invalid Data", FieldErrors(MismatchErrors(body.value.password, body.value.rePassword)))
    ensures out.0.status == StatusOK <==>
      && body.Bound? && !Atoi(pathId).Failed() && check.Passed? && HasRow(db.users, Atoi(pathId).value)
      && body.value.password == body.value.rePassword && hashing.Hashed?
    ensures out.0.status != StatusOK ==> out.1 == db
    ensures out.0.status == StatusOK ==>
      var id := Atoi(pathId).value as nat;
      && out.1 == db.(users := db.users[id := db.users[id].(password := hashing.hash)])
      && out.0 == Succeed(StatusOK, "User Password Reset Successfully", None)
  {
    if body.BindFailed? then (Fail(StatusBadRequest, "Invalid Input", Failure(body.text)), db)
    else
      var input := body.value;
      var id := Atoi(pathId);
      if id.Failed() then (Fail(StatusBadRequest, "Invalid ID", NoError), db)
      else if !check.Passed? then (Fail(StatusBadRequest, "Error Invalid Data", ValidationErrorsV1(check)), db)
      else if !HasRow(db.users, id.value) then (Fail(StatusNotFound, "User not found", NoError), db)
      else
        var errors := MismatchErrors(input.password, input.rePassword);
        if |errors| != 0 then (Fail(StatusBadRequest, "Invalid Data", FieldErrors(errors)), db)
        else StorePassword(db, id.value as nat, hashing)
  }

  /** The common tail of both password operations: hash, store, answer 200. */
  function StorePassword(db: Db, id: nat, hashing: HashResult): (out: (ServiceResponse<()>, Db))
    requires id in db.users
    ensures hashing.HashFailed? ==> out == (Fail(StatusBadRequest, "Failed to hash password", Failure(hashing.text)), db)
    ensures hashing.Hashed? ==>
      out == (Succeed(StatusOK, "User Password Reset Successfully", None), db.(users := db.users[id := db.users[id].(password := hashing.hash)]))
  {
    if hashing.HashFailed? then (Fail(StatusBadRequest, "Failed to hash password", Failure(hashing.text)), db)
    else (Succeed(StatusOK, "User Password Reset Successfully", None), db.(users := db.users[id := db.users[id].(password := hashing.hash)]))
  }

  /** The errors `ChangePass` accumulates: the mismatch pair, and `old_password` when bcrypt does
      not accept the old password against the stored hash. */
  function ChangePassErrors(input: ChangePassInput, storedHash: string, matches: (string, string) -> bool): (m: map<string, string>)
    ensures "password" in m <==> input.password != input.rePassword
    ensures "re_password" in m <==> input.password != input.rePassword
    ensures "old_password" in m <==> !matches(storedHash, input.oldPassword)
    ensures m.Keys <= {"password", "re_password", "old_password"}
    ensures |m| == 0 <==> input.password == input.rePassword && matches(storedHash, input.oldPassword)
  {
    var errors := MismatchErrors(input.password, input.rePassword);
    var errors' := if !matches(storedHash, input.oldPassword) then errors["old_password" := OldPasswordWrong] else errors;
    assert "old_password" in errors' ==> |errors'| > 0;
    assert "password" in errors' ==> |errors'| > 0;
    errors'
  }

  /** `ChangePass`: like `ResetPass`, but the old password must also match the stored hash, and both
      problems are reported together. */
  function ChangePass(db: Db, body: Binding<ChangePassInput>, pathId: string, check: ValidationOutcome,
                      matches: (string, string) -> bool, hashing: HashResult)
    : (out: (ServiceResponse<()>, Db))
    ensures body.BindFailed? ==> out.0 == Fail(StatusBadRequest, "Invalid Input", Failure(body.text))
    ensures body.Bound? && Atoi(pathId).Failed() ==> out.0 == Fail(StatusBadRequest, "Invalid ID", NoError)
    ensures body.Bound? && !Atoi(pathId).Failed() && !check.Passed? ==>
      out.0 == Fail(StatusBadRequest, "Error Invalid Data", ValidationErrorsV1(check))
    ensures body.Bound? && !Atoi(pathId).Failed() && check.Passed? && !HasRow(db.users, Atoi(pathId).value) ==>
      out.0 == Fail(StatusNotFound, "User not found", NoError)
    ensures body.Bound? && !Atoi(pathId).Failed() && check.Passed? && HasRow(db.users, Atoi(pathId).value) ==>
      var errors := ChangePassErrors(body.value, db.users[Atoi(pathId).value as nat].password, matches);
      |errors| > 0 ==> out.0 == Fail(StatusBadRequest, "Invalid Data", FieldErrors(errors))
    ensures out.0.status == StatusOK <==>
      && body.Bound? && !Atoi(pathId).Failed() && check.Passed? && HasRow(db.users, Atoi(pathId).value)
      && body.value.password == body.value.rePassword
      && matches(db.users[Atoi(pathId).value as nat].password, body.value.oldPassword)
      && hashing.Hashed?
    ensures out.0.status != StatusOK ==> out.1 == db
    ensures out.0.status == StatusOK ==>
      var id := Atoi(pathId).value as nat;
      out.1 == db.(users := db.users[id := db.users[id].(password := hashing.hash)])
  {
    if body.BindFailed? then (Fail(StatusBadRequest, "Invalid Input", Failure(body.text)), db)
    else
      var input := body.value;
      var id := Atoi(pathId);
      if id.Failed() then (Fail(StatusBadRequest, "Invalid ID", NoError), db)
      else if !check.Passed? then (Fail(StatusBadRequest, "Error Invalid Data", ValidationErrorsV1(check)), db)
      else if !HasRow(db.users, id.value) then (Fail(StatusNotFound, "User not found", NoError), db)
      else
        var errors := ChangePassErrors(input, db.users[id.value as nat].password, matches);
        if |errors| != 0 then (Fail(StatusBadRequest, "Invalid Data", FieldErrors(errors)), db)
        else StorePassword(db, id.value as nat, hashing)
  }

  // ---------------------------------------------------------------------------------------------
  // Properties across operations

  /** Changing a password is resetting it with one more condition: whenever `ChangePass` succeeds,
      `ResetPass` with the same new password gives the same answer and the same database. */
  lemma ChangePassRefinesResetPass(db: Db, input: ChangePassInput, pathId: string,
                                   matches: (string, string) -> bool, hashing: HashResult)
    requires ChangePass(db, Bound(input), pathId, Passed, matches, hashing).0.status == StatusOK
    ensures ChangePass(db, Bound(input), pathId, Passed, matches, hashing)
         == ResetPass(db, Bound(ResetPassInput(input.password, input.rePassword)), pathId, Passed, hashing)
  {
  }

  /** A created user reads back through `GetByID` with the submitted name and email and the parsed
      role id, and the stored password is the hash, never the plaintext unless bcrypt returned it. */
  lemma CreatedUserReadsBack(db: Db, input: CreateUserInput, hash: string, newId: nat)
    requires 0 < newId <= MaxInt64 && newId !in db.users
    requires !EmailTaken(db, input.email, None) && ParseRoleId(input.roleId) in db.roles
    ensures var (resp, db') := AddUser(db, Bound(input), Passed, Hashed(hash), newId);
      var read := GetUser(db', NatToDecimal(newId));
      && resp.status == StatusCreated && read.status == StatusOK
      && read.data.value.id == newId && read.data.value.name == input.name
      && read.data.value.email == input.email && read.data.value.roleId == ParseRoleId(input.roleId)
      && db'.users[newId].password == hash
  {
    AtoiRoundTrip(newId);
    assert IntToDecimal(newId) == NatToDecimal(newId);
  }

  /** An update leaves every other user untouched and the updated user's password hash as it was. */
  lemma UpdateKeepsPassword(db: Db, input: UpdateUserInput, pathId: string)
    requires UpdateUser(db, Bound(input), pathId, Passed).0.status == StatusOK
    ensures var db' := UpdateUser(db, Bound(input), pathId, Passed).1;
      var id := Atoi(pathId).value as nat;
      && db'.users.Keys == db.users.Keys
      && db'.users[id].password == db.users[id].password
      && forall k :: k in db.users && k != id ==> db'.users[k] == db.users[k]
  {
  }

  /** After a successful delete the user no longer reads back (404, with the source's "Role not found"
      wording), a second delete finds nothing, and every other user is untouched. */
  lemma DeletedUserNotFound(db: Db, pathId: string)
    requires DeleteUser(db, pathId).0.status == StatusOK
    ensures var db' := DeleteUser(db, pathId).1;
      && GetUser(db', pathId) == Fail(StatusNotFound, "Role not found", NoError)
      && DeleteUser(db', pathId).0 == Fail(StatusNotFound, "User not found", NoError)
      && forall k :: k in db.users && k != Atoi(pathId).value ==> k in db'.users && db'.users[k] == db.users[k]
  {
  }
}
