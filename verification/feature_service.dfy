/** The feature service: listing features (optionally those of one module), reading one, and
    creating, updating and deleting features. Its messages reuse the module wording in two places
    ("Module name … already exist", "Module Created Successfully"), and both are kept. */
module FeatureService {

  import opened Base
  import opened Numbers
  import opened Collections
  import opened Models
  import opened Store
  import opened Response
  import opened Validator
  import opened Dtos

  /** Some feature other than `except` already has this name. */
  predicate NameTaken(db: Db, name: string, except: Option<int>)
  {
    exists k :: k in db.features && except != Some(k as int) && db.features[k].name == name
  }

  /** A module id is given (non-zero) and no active module has it; zero skips the check. */
  predicate ModuleMissing(db: Db, moduleId: nat)
  {
    moduleId != 0 && moduleId !in db.modules
  }

  function NameTakenMessage(name: string): string
  {
    "Module name " + name + " already exist"
  }

  const ModuleNotFound := "Module Not Found"

  /** `inputValidator`: a name conflict under `name` and a missing module under `feature_id`,
      reported together. */
  function InputValidator(db: Db, name: string, moduleId: nat, except: Option<int>): (out: (map<string, string>, bool))
    ensures "name" in out.0 <==> NameTaken(db, name, except)
    ensures "feature_id" in out.0 <==> ModuleMissing(db, moduleId)
    ensures out.0.Keys <= {"name", "feature_id"}
    ensures "name" in out.0 ==> out.0["name"] == NameTakenMessage(name)
    ensures "feature_id" in out.0 ==> out.0["feature_id"] == ModuleNotFound
    ensures out.1 <==> |out.0| > 0
  {
    var duplicate := FindOther(db.features, (row: FeatureRow) => row.name == name, except);
    var errors := if duplicate.Some? then map["name" := NameTakenMessage(name)] else map[];
    var errors' := if ModuleMissing(db, moduleId) then errors["feature_id" := ModuleNotFound] else errors;
    assert "name" in errors' ==> |errors'| > 0;
    (errors', duplicate.Some? || ModuleMissing(db, moduleId))
  }

  /** The ids of the features a listing returns, ascending: all of them, or those of one module. */
  function ListedIds(db: Db, moduleId: Option<nat>): (ids: seq<nat>)
    ensures StrictlyIncreasing(ids)
    ensures forall k :: k in ids <==> k in db.features && (moduleId.Some? ==> db.features[k].moduleId == moduleId.value)
  {
    Sorted(set k | k in db.features && (moduleId.Some? ==> db.features[k].moduleId == moduleId.value))
  }

  /** The features of a listing, each with its module preloaded. */
  function ListFeatures(db: Db, moduleId: Option<nat>): (fs: seq<Feature>)
    ensures |fs| == |ListedIds(db, moduleId)|
    ensures forall i :: 0 <= i < |fs| ==> fs[i] == LoadFeatureWithModule(db, ListedIds(db, moduleId)[i])
  {
    var ids := ListedIds(db, moduleId);
    seq(|ids|, i requires 0 <= i < |ids| => LoadFeatureWithModule(db, ids[i]))
  }

  /** `GetAll`: an empty `module_id` lists every feature; otherwise it must parse as an unsigned
      64-bit decimal (400 "Invalid module_id" if not) and only that module's features are listed. */
  function GetAllFeatures(db: Db, moduleIdParam: string): (r: ServiceResponse<JsonList<FeatureWithModuleDto>>)
    ensures moduleIdParam != "" && ParseUint(moduleIdParam, MaxUint64).Failed() ==>
      r == Fail(StatusBadRequest, "Invalid module_id", Failure(NumErrorText("ParseUint", moduleIdParam, ParseUint(moduleIdParam, MaxUint64))))
    ensures r.status == StatusOK <==> moduleIdParam == "" || !ParseUint(moduleIdParam, MaxUint64).Failed()
    ensures r.status == StatusOK ==>
      var filter := if moduleIdParam == "" then None else Some(DigitsValue(moduleIdParam));
      r.data == Some(ToFeatureWithModuleDtos(ListFeatures(db, filter)))
  {
    if moduleIdParam == "" then
      Succeed(StatusOK, "Success Getting All Feature Data", Some(ToFeatureWithModuleDtos(ListFeatures(db, None))))
    else
      var moduleId := ParseUint(moduleIdParam, MaxUint64);
      if moduleId.Failed() then Fail(StatusBadRequest, "Invalid module_id", Failure(NumErrorText("ParseUint", moduleIdParam, moduleId)))
      else Succeed(StatusOK, "Success Getting All Feature Data", Some(ToFeatureWithModuleDtos(ListFeatures(db, Some(moduleId.value)))))
  }

  /** `GetByID`: one feature with its module as a detail DTO. */
  function GetFeature(db: Db, pathId: string): (r: ServiceResponse<FeatureWithModuleDto>)
    ensures Atoi(pathId).Failed() ==> r == Fail(StatusBadRequest, "Invalid ID", NoError)
    ensures !Atoi(pathId).Failed() && !HasRow(db.features, Atoi(pathId).value) ==> r == Fail(StatusNotFound, "Feature Not Found", Failure(RecordNotFound))
    ensures r.status == StatusOK <==> !Atoi(pathId).Failed() && HasRow(db.features, Atoi(pathId).value)
    ensures r.status == StatusOK ==> r.data == Some(ToFeatureWithModuleDto(LoadFeatureWithModule(db, Atoi(pathId).value as nat)))
  {
    var id := Atoi(pathId);
    if id.Failed() then Fail(StatusBadRequest, "Invalid ID", NoError)
    else if !HasRow(db.features, id.value) then Fail(StatusNotFound, "Feature Not Found", Failure(RecordNotFound))
    else Succeed(StatusOK, "Success Getting Feature Data", Some(ToFeatureWithModuleDto(LoadFeatureWithModule(db, id.value as nat))))
  }

  /** `AddData`. As for modules, a non-zero body id is kept by the insert, which fails (500) with the
      database's `insertError` when a feature with that id exists. */
  function AddFeature(db: Db, body: Binding<FeatureMinimalDto>, check: ValidationOutcome, newId: nat, insertError: string)
    : (out: (ServiceResponse<FeatureMinimalDto>, Db))
    requires newId > 0 && newId !in db.features
    ensures body.BindFailed? ==> out.0 == Fail(StatusBadRequest, "Invalid Input", Failure(body.text))
    ensures body.Bound? && !check.Passed? ==> out.0 == Fail(StatusBadRequest, "Error Invalid Data", ValidationErrorsV1(check))
    ensures body.Bound? && check.Passed? ==>
      var (errors, failed) := InputValidator(db, body.value.name, body.value.moduleId, None);
      failed ==> out.0 == Fail(StatusBadRequest, "Error Invalid Data", FieldErrors(errors))
    ensures out.0.status == StatusCreated <==>
      && body.Bound? && check.Passed?
      && !NameTaken(db, body.value.name, None) && !ModuleMissing(db, body.value.moduleId)
      && CreatedId(body.value.id, newId) !in db.features
    ensures out.0.status == StatusInternalServerError <==>
      && body.Bound? && check.Passed? && !InputValidator(db, body.value.name, body.value.moduleId, None).1
      && CreatedId(body.value.id, newId) in db.features
    ensures out.0.status == StatusInternalServerError ==> out.0 == Fail(StatusInternalServerError, "Error Creating Data", Failure(insertError))
    ensures out.0.status != StatusCreated ==> out.1 == db
    ensures out.0.status == StatusCreated ==>
      var id := CreatedId(body.value.id, newId);
      && out.1 == db.(features := db.features[id := FeatureRow(body.value.moduleId, body.value.name)])
      && out.0 == Succeed(StatusCreated, "Module Created Successfully", Some(body.value.(id := id)))
  {
    if body.BindFailed? then (Fail(StatusBadRequest, "Invalid Input", Failure(body.text)), db)
    else if !check.Passed? then (Fail(StatusBadRequest, "Error Invalid Data", ValidationErrorsV1(check)), db)
    else
      var f := ToFeatureMinimalModel(body.value);
      var (errors, failed) := InputValidator(db, f.name, f.moduleId, None);
      if failed then (Fail(StatusBadRequest, "Error Invalid Data", FieldErrors(errors)), db)
      else
        var id := CreatedId(f.id, newId);
        if id in db.features then (Fail(StatusInternalServerError, "Error Creating Data", Failure(insertError)), db)
        else
          var db' := db.(features := db.features[id := FeatureRow(f.moduleId, f.name)]);
          (Succeed(StatusCreated, "Module Created Successfully", Some(ToFeatureMinimalDto(f.(id := id)))), db')
  }

  /** `UpdateData`: a bind failure is reported as "Invalid ID"; existence is checked before the body
      is validated; on success only name and module change and no data is returned. */
  function UpdateFeature(db: Db, body: Binding<FeatureMinimalDto>, pathId: string, check: ValidationOutcome)
    : (out: (ServiceResponse<FeatureMinimalDto>, Db))
    ensures body.BindFailed? ==> out.0 == Fail(StatusBadRequest, "Invalid ID", NoError)
    ensures body.Bound? && Atoi(pathId).Failed() ==> out.0 == Fail(StatusBadRequest, "Invalid ID", NoError)
    ensures body.Bound? && !Atoi(pathId).Failed() && !HasRow(db.features, Atoi(pathId).value) ==>
      out.0 == Fail(StatusNotFound, "Feature not found", NoError)
    ensures body.Bound? && !Atoi(pathId).Failed() && HasRow(db.features, Atoi(pathId).value) && !check.Passed? ==>
      out.0 == Fail(StatusBadRequest, "Error Invalid Data", ValidationErrorsV1(check))
    ensures body.Bound? && !Atoi(pathId).Failed() && HasRow(db.features, Atoi(pathId).value) && check.Passed? ==>
      var (errors, failed) := InputValidator(db, body.value.name, body.value.moduleId, Some(Atoi(pathId).value));
      failed ==> out.0 == Fail(StatusBadRequest, "Error Invalid Data", FieldErrors(errors))
    ensures out.0.status == StatusOK <==>
      && body.Bound? && !Atoi(pathId).Failed() && HasRow(db.features, Atoi(pathId).value) && check.Passed?
      && !NameTaken(db, body.value.name, Some(Atoi(pathId).value)) && !ModuleMissing(db, body.value.moduleId)
    ensures out.0.status != StatusOK ==> out.1 == db
    ensures out.0.status == StatusOK ==>
      var id := Atoi(pathId).value as nat;
      && out.1 == db.(features := db.features[id := FeatureRow(body.value.moduleId, body.value.name)])
      && out.0 == Succeed(StatusOK, "Feature Updated Successfully", None)
  {
    if body.BindFailed? then (Fail(StatusBadRequest, "Invalid ID", NoError), db)
    else
      var id := Atoi(pathId);
      if id.Failed() then (Fail(StatusBadRequest, "Invalid ID", NoError), db)
      else if !HasRow(db.features, id.value) then (Fail(StatusNotFound, "Feature not found", NoError), db)
      else if !check.Passed? then (Fail(StatusBadRequest, "Error Invalid Data", ValidationErrorsV1(check)), db)
      else
        var input := ToFeatureMinimalModel(body.value).(id := id.value as nat);
        var (errors, failed) := InputValidator(db, input.name, input.moduleId, Some(id.value));
        if failed then (Fail(StatusBadRequest, "Error Invalid Data", FieldErrors(errors)), db)
        else
          var fid := id.value as nat;
          (Succeed(StatusOK, "Feature Updated Successfully", None),
           db.(features := db.features[fid := FeatureRow(body.value.moduleId, body.value.name)]))
  }

  /** `DeleteData`: role grants naming the feature stay in the join table and are skipped when roles
      are read. */
  function DeleteFeature(db: Db, pathId: string): (out: (ServiceResponse<()>, Db))
    ensures Atoi(pathId).Failed() ==> out == (Fail(StatusBadRequest, "Invalid ID", NoError), db)
    ensures !Atoi(pathId).Failed() && !HasRow(db.features, Atoi(pathId).value) ==>
      out == (Fail(StatusNotFound, "Feature not found", NoError), db)
    ensures !Atoi(pathId).Failed() && HasRow(db.features, Atoi(pathId).value) ==>
      out == (Succeed(StatusOK, "Feature Deleted Successfully", None), db.(features := db.features - {Atoi(pathId).value as nat}))
  {
    var id := Atoi(pathId);
    if id.Failed() then (Fail(StatusBadRequest, "Invalid ID", NoError), db)
    else if !HasRow(db.features, id.value) then (Fail(StatusNotFound, "Feature not found", NoError), db)
    else (Succeed(StatusOK, "Feature Deleted Successfully", None), db.(features := db.features - {id.value as nat}))
  }

  // ---------------------------------------------------------------------------------------------
  // Properties across operations

  /** The module filter of the listing is exact: a feature is listed under `module_id=n` if and only
      if it belongs to module n, and an unfiltered listing has every feature. */
  lemma {:induction false} ListingFilterExact(db: Db, n: nat, k: nat)
    requires n <= MaxUint64
    ensures var r := GetAllFeatures(db, NatToDecimal(n));
      && r.status == StatusOK
      && ((exists i :: 0 <= i < |r.data.value.items| && r.data.value.items[i].id == k)
          <==> k in db.features && db.features[k].moduleId == n)
  {
    ParseUintRoundTrip(n, MaxUint64);
    NatDecimalValue(n);
    var r := GetAllFeatures(db, NatToDecimal(n));
    var ids := ListedIds(db, Some(n));
    assert |r.data.value.items| == |ids|;
    forall i | 0 <= i < |ids| ensures r.data.value.items[i].id == ids[i] {
    }
    if k in db.features && db.features[k].moduleId == n {
      assert k in ids;
      var i :| 0 <= i < |ids| && ids[i] == k;
      assert r.data.value.items[i].id == k;
    }
  }

  /** A deleted feature disappears from every role that granted it, while the role rows themselves
      are untouched. */
  lemma DeletedFeatureNotGranted(db: Db, featureId: nat, roleId: nat)
    requires featureId <= MaxInt64 && featureId in db.features && roleId in db.roles
    ensures var db' := DeleteFeature(db, NatToDecimal(featureId)).1;
      && db'.roles == db.roles
      && forall i :: 0 <= i < |LoadRole(db', roleId, true).features| ==> LoadRole(db', roleId, true).features[i].id != featureId
  {
    AtoiRoundTrip(featureId);
    assert IntToDecimal(featureId) == NatToDecimal(featureId);
  }

  /** A created feature reads back with its name, its module id, and its module preloaded. */
  lemma CreatedFeatureReadsBack(db: Db, name: string, moduleId: nat, newId: nat)
    requires 0 < newId <= MaxInt64 && newId !in db.features
    requires !NameTaken(db, name, None) && !ModuleMissing(db, moduleId)
    ensures var (resp, db') := AddFeature(db, Bound(FeatureMinimalDto(0, name, moduleId)), Passed, newId, "");
      var read := GetFeature(db', NatToDecimal(newId));
      && resp.status == StatusCreated && read.status == StatusOK
      && read.data.value.id == newId && read.data.value.name == name
      && (moduleId in db.modules ==> read.data.value.owner == ToModuleDto(LoadModule(db.modules, moduleId)))
  {
    AtoiRoundTrip(newId);
    assert IntToDecimal(newId) == NatToDecimal(newId);
  }

  /** A successful update reads back with the new name and module, and touches nothing else: other
      features, modules and roles, grants included, are as they were. */
  lemma UpdatedFeatureReadsBack(db: Db, body: FeatureMinimalDto, pathId: string, check: ValidationOutcome)
    requires !Atoi(pathId).Failed() && HasRow(db.features, Atoi(pathId).value) && check.Passed?
    requires !NameTaken(db, body.name, Some(Atoi(pathId).value)) && !ModuleMissing(db, body.moduleId)
    ensures var db' := UpdateFeature(db, Bound(body), pathId, check).1;
      var read := GetFeature(db', pathId);
      && UpdateFeature(db, Bound(body), pathId, check).0.status == StatusOK
      && read.status == StatusOK
      && read.data.value.id == Atoi(pathId).value && read.data.value.name == body.name
      && (body.moduleId in db.modules ==> read.data.value.owner == ToModuleDto(LoadModule(db.modules, body.moduleId)))
      && db'.modules == db.modules && db'.roles == db.roles && db'.users == db.users
      && forall k :: k in db.features && k != Atoi(pathId).value ==> k in db'.features && db'.features[k] == db.features[k]
  {
  }
}
