/** The module service: reading one module with its children and features, and creating, updating
    and deleting modules. The parent reference is checked for existence only; nothing prevents a
    module from becoming its own parent or ancestor. */
module ModuleService {

  import opened Base
  import opened Numbers
  import opened Models
  import opened Store
  import opened Response
  import opened Validator
  import opened Dtos

  /** Some module other than `except` already has this name. */
  predicate NameTaken(db: Db, name: string, except: Option<int>)
  {
    exists k :: k in db.modules && except != Some(k as int) && db.modules[k].name == name
  }

  /** A parent is named and no active module has that id. */
  predicate ParentMissing(db: Db, parentId: Option<nat>)
  {
    parentId.Some? && parentId.value !in db.modules
  }

  function NameTakenMessage(name: string): string
  {
    "Module name " + name + " already exist"
  }

  const ParentNotFound := "Parent Module Not Found"

  /** `inputValidator`: a name conflict (any module on POST, another module on PUT) and a missing
      parent are reported together under `name` and `parent_id`. */
  function InputValidator(db: Db, name: string, parentId: Option<nat>, except: Option<int>): (out: (map<string, string>, bool))
    ensures "name" in out.0 <==> NameTaken(db, name, except)
    ensures "parent_id" in out.0 <==> ParentMissing(db, parentId)
    ensures out.0.Keys <= {"name", "parent_id"}
    ensures "name" in out.0 ==> out.0["name"] == NameTakenMessage(name)
    ensures "parent_id" in out.0 ==> out.0["parent_id"] == ParentNotFound
    ensures out.1 <==> |out.0| > 0
  {
    var duplicate := FindOther(db.modules, (row: ModuleRow) => row.name == name, except);
    var errors := if duplicate.Some? then map["name" := NameTakenMessage(name)] else map[];
    var errors' := if ParentMissing(db, parentId) then errors["parent_id" := ParentNotFound] else errors;
    assert "name" in errors' ==> |errors'| > 0;
    (errors', duplicate.Some? || ParentMissing(db, parentId))
  }

  /** `GetByID`: the module with its direct children and its features. */
  function GetModule(db: Db, pathId: string): (r: ServiceResponse<ModuleFeaturesDto>)
    ensures Atoi(pathId).Failed() ==> r == Fail(StatusBadRequest, "Invalid ID", Failure(AtoiErrorText(pathId)))
    ensures !Atoi(pathId).Failed() && !HasRow(db.modules, Atoi(pathId).value) ==> r == Fail(StatusNotFound, "Module not found", NoError)
    ensures r.status == StatusOK <==> !Atoi(pathId).Failed() && HasRow(db.modules, Atoi(pathId).value)
    ensures r.status == StatusOK ==> r.data == Some(ToModuleWithFeaturesDto(LoadModuleTree(db, Atoi(pathId).value as nat)))
  {
    var id := Atoi(pathId);
    if id.Failed() then Fail(StatusBadRequest, "Invalid ID", Failure(AtoiErrorText(pathId)))
    else if !HasRow(db.modules, id.value) then Fail(StatusNotFound, "Module not found", NoError)
    else Succeed(StatusOK, "Success Getting Module Data", Some(ToModuleWithFeaturesDto(LoadModuleTree(db, id.value as nat))))
  }

  /** `AddData`. The body's `id`, when non-zero, is kept by the insert, which then fails (500) if a
      module with that id exists, reporting the database's `insertError`; otherwise the database
      assigns `newId`. */
  function AddModule(db: Db, body: Binding<ModuleMinimalDto>, check: ValidationOutcome, newId: nat, insertError: string)
    : (out: (ServiceResponse<ModuleMinimalDto>, Db))
    requires newId > 0 && newId !in db.modules
    ensures body.BindFailed? ==> out.0 == Fail(StatusBadRequest, "Invalid Input", Failure(body.text))
    ensures body.Bound? && !check.Passed? ==> out.0 == Fail(StatusBadRequest, "Error Invalid Data", ValidationErrorsV1(check))
    ensures body.Bound? && check.Passed? ==>
      var (errors, failed) := InputValidator(db, body.value.name, body.value.parentId, None);
      failed ==> out.0 == Fail(StatusBadRequest, "Error Invalid Data", FieldErrors(errors))
    ensures out.0.status == StatusCreated <==>
      && body.Bound? && check.Passed?
      && !NameTaken(db, body.value.name, None) && !ParentMissing(db, body.value.parentId)
      && CreatedId(body.value.id, newId) !in db.modules
    ensures out.0.status == StatusInternalServerError <==>
      && body.Bound? && check.Passed? && !InputValidator(db, body.value.name, body.value.parentId, None).1
      && CreatedId(body.value.id, newId) in db.modules
    ensures out.0.status == StatusInternalServerError ==> out.0 == Fail(StatusInternalServerError, "Error Creating Data", Failure(insertError))
    ensures out.0.status != StatusCreated ==> out.1 == db
    ensures out.0.status == StatusCreated ==>
      var id := CreatedId(body.value.id, newId);
      && out.1 == db.(modules := db.modules[id := ModuleRow(body.value.name, body.value.parentId)])
      && out.0 == Succeed(StatusCreated, "Module Created Successfully", Some(body.value.(id := id)))
  {
    if body.BindFailed? then (Fail(StatusBadRequest, "Invalid Input", Failure(body.text)), db)
    else
      var m := ToModuleMinimalModel(body.value);
      if !check.Passed? then (Fail(StatusBadRequest, "Error Invalid Data", ValidationErrorsV1(check)), db)
      else
        var (errors, failed) := InputValidator(db, m.name, m.parentId, None);
        if failed then (Fail(StatusBadRequest, "Error Invalid Data", FieldErrors(errors)), db)
        else
          var id := CreatedId(m.id, newId);
          if id in db.modules then (Fail(StatusInternalServerError, "Error Creating Data", Failure(insertError)), db)
          else
            var db' := db.(modules := db.modules[id := ModuleRow(m.name, m.parentId)]);
            (Succeed(StatusCreated, "Module Created Successfully", Some(ToModuleMinimalDto(m.(id := id)))), db')
  }

  /** `UpdateData`: a bind failure is reported as "Invalid ID"; existence is checked before the body
      is validated; on success only name and parent change. */
  function UpdateModule(db: Db, body: Binding<ModuleMinimalDto>, pathId: string, check: ValidationOutcome)
    : (out: (ServiceResponse<ModuleMinimalDto>, Db))
    ensures body.BindFailed? ==> out.0 == Fail(StatusBadRequest, "Invalid ID", Failure(body.text))
    ensures body.Bound? && Atoi(pathId).Failed() ==> out.0 == Fail(StatusBadRequest, "Invalid ID", Failure(AtoiErrorText(pathId)))
    ensures body.Bound? && !Atoi(pathId).Failed() && !HasRow(db.modules, Atoi(pathId).value) ==>
      out.0 == Fail(StatusNotFound, "Module not found", NoError)
    ensures body.Bound? && !Atoi(pathId).Failed() && HasRow(db.modules, Atoi(pathId).value) && !check.Passed? ==>
      out.0 == Fail(StatusBadRequest, "Error Invalid Data", ValidationErrorsV1(check))
    ensures body.Bound? && !Atoi(pathId).Failed() && HasRow(db.modules, Atoi(pathId).value) && check.Passed? ==>
      var (errors, failed) := InputValidator(db, body.value.name, body.value.parentId, Some(Atoi(pathId).value));
      failed ==> out.0 == Fail(StatusBadRequest, "Error Invalid Data", FieldErrors(errors))
    ensures out.0.status == StatusOK <==>
      && body.Bound? && !Atoi(pathId).Failed() && HasRow(db.modules, Atoi(pathId).value) && check.Passed?
      && !NameTaken(db, body.value.name, Some(Atoi(pathId).value)) && !ParentMissing(db, body.value.parentId)
    ensures out.0.status != StatusOK ==> out.1 == db
    ensures out.0.status == StatusOK ==>
      var id := Atoi(pathId).value as nat;
      && out.1 == db.(modules := db.modules[id := ModuleRow(body.value.name, body.value.parentId)])
      && out.0 == Succeed(StatusOK, "Module Updated Successfully", Some(ModuleMinimalDto(id, body.value.name, body.value.parentId)))
  {
    if body.BindFailed? then (Fail(StatusBadRequest, "Invalid ID", Failure(body.text)), db)
    else
      var id := Atoi(pathId);
      if id.Failed() then (Fail(StatusBadRequest, "Invalid ID", Failure(AtoiErrorText(pathId))), db)
      else if !HasRow(db.modules, id.value) then (Fail(StatusNotFound, "Module not found", NoError), db)
      else if !check.Passed? then (Fail(StatusBadRequest, "Error Invalid Data", ValidationErrorsV1(check)), db)
      else
        var input := ToModuleMinimalModel(body.value).(id := id.value as nat);
        var (errors, failed) := InputValidator(db, input.name, input.parentId, Some(id.value));
        if failed then (Fail(StatusBadRequest, "Error Invalid Data", FieldErrors(errors)), db)
        else
          var mid := id.value as nat;
          var row := ModuleRow(body.value.name, body.value.parentId);
          (Succeed(StatusOK, "Module Updated Successfully", Some(ToModuleMinimalDto(LoadModule(db.modules[mid := row], mid)))),
           db.(modules := db.modules[mid := row]))
  }

  /** `DeleteData`: the module's children and features are left in place, pointing at a module that
      no longer reads back. */
  function DeleteModule(db: Db, pathId: string): (out: (ServiceResponse<()>, Db))
    ensures Atoi(pathId).Failed() ==> out == (Fail(StatusBadRequest, "Invalid ID", Failure(AtoiErrorText(pathId))), db)
    ensures !Atoi(pathId).Failed() && !HasRow(db.modules, Atoi(pathId).value) ==>
      out == (Fail(StatusNotFound, "Module not found", NoError), db)
    ensures !Atoi(pathId).Failed() && HasRow(db.modules, Atoi(pathId).value) ==>
      out == (Succeed(StatusOK, "Module Deleted Successfully", None), db.(modules := db.modules - {Atoi(pathId).value as nat}))
  {
    var id := Atoi(pathId);
    if id.Failed() then (Fail(StatusBadRequest, "Invalid ID", Failure(AtoiErrorText(pathId))), db)
    else if !HasRow(db.modules, id.value) then (Fail(StatusNotFound, "Module not found", NoError), db)
    else (Succeed(StatusOK, "Module Deleted Successfully", None), db.(modules := db.modules - {id.value as nat}))
  }

  // ---------------------------------------------------------------------------------------------
  // Properties across operations

  /** There is no cycle check: a module whose name is its own can be made its own parent. */
  lemma SelfParentAccepted(db: Db, id: nat)
    requires id <= MaxInt64 && id in db.modules
    requires !NameTaken(db, db.modules[id].name, Some(id))
    ensures var body := ModuleMinimalDto(0, db.modules[id].name, Some(id));
      var (resp, db') := UpdateModule(db, Bound(body), NatToDecimal(id), Passed);
      && resp.status == StatusOK
      && db'.modules[id].parentId == Some(id)
      && id in ChildIds(db'.modules, id)
  {
    AtoiRoundTrip(id);
    assert IntToDecimal(id) == NatToDecimal(id);
  }

  /** A module created without a body id reads back through `GetByID` with its name and parent, and
      with no children and no features yet unless rows already point at the new id. */
  lemma CreatedModuleReadsBack(db: Db, name: string, parentId: Option<nat>, newId: nat)
    requires 0 < newId <= MaxInt64 && newId !in db.modules
    requires !NameTaken(db, name, None) && !ParentMissing(db, parentId)
    ensures var (resp, db') := AddModule(db, Bound(ModuleMinimalDto(0, name, parentId)), Passed, newId, "");
      var read := GetModule(db', NatToDecimal(newId));
      && resp.status == StatusCreated && read.status == StatusOK
      && read.data.value.id == newId && read.data.value.name == name && read.data.value.parentId == parentId
  {
    AtoiRoundTrip(newId);
    assert IntToDecimal(newId) == NatToDecimal(newId);
  }

  /** A path id that is not a number is reported with `strconv`'s own text, which quotes it. */
  lemma NonNumericIdReported(db: Db)
    ensures GetModule(db, "abc") == Fail(StatusBadRequest, "Invalid ID", Failure("strconv.Atoi: parsing \"abc\": invalid syntax"))
  {
    AtoiRefusesWord();
  }

  /** The error detail of an invalid path id identifies the path id. */
  lemma InvalidIdDetailNamesPath(db: Db, s: string, t: string)
    requires Atoi(s).Failed() && Atoi(t).Failed() && GetModule(db, s) == GetModule(db, t)
    ensures s == t
  {
    NumErrorTextNamesInput("Atoi", s, t, Atoi(s), Atoi(t));
  }

  /** After a successful delete the module no longer reads back and a second delete finds nothing,
      while its other children keep pointing at it and its features stay. */
  lemma DeletedModuleNotFound(db: Db, pathId: string, child: nat)
    requires DeleteModule(db, pathId).0.status == StatusOK
    ensures var db' := DeleteModule(db, pathId).1;
      && GetModule(db', pathId) == Fail(StatusNotFound, "Module not found", NoError)
      && DeleteModule(db', pathId).0 == Fail(StatusNotFound, "Module not found", NoError)
      && db'.features == db.features
      && (child in db.modules && child != Atoi(pathId).value && db.modules[child].parentId == Some(Atoi(pathId).value as nat) ==>
            child in db'.modules && db'.modules[child].parentId == Some(Atoi(pathId).value as nat))
  {
  }
}
