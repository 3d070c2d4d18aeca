/** The go-playground validator as the handlers use it: the struct check itself is abstract (a
    `ValidationOutcome` the caller supplies), while the message table, the `no_space` rule and the two
    ways of turning failures into a response are modelled. */
module Validator {

  import opened Base
  import opened Strings
  import opened Response

  /** One failed rule: the Go field name, the field's `json` tag ("" when it has none), the rule's
      tag and parameter, and the library's own error text. */
  datatype FieldError = FieldError(field: string, jsonTag: string, tag: string, param: string, text: string)

  /** What `ValidateStruct` returns: nil, `validator.ValidationErrors` (never empty), or any other
      error, represented by its text. */
  datatype ValidationOutcome = Passed | Invalid(errors: seq<FieldError>) | OtherError(text: string)

  predicate WellFormedOutcome(o: ValidationOutcome)
  {
    o.Invalid? ==> |o.errors| > 0
  }

  /** `customMessage`: the human message for a rule tag; `min` embeds the rule's parameter and every
      unlisted tag falls back to "Invalid Field". */
  function CustomMessage(tag: string, size: string): (m: string)
    ensures tag == "required" <==> m == "Field is required"
    ensures tag == "email" <==> m == "Invalid email format"
    ensures tag == "no_space" <==> m == "Field should not contain spaces"
    ensures tag == "min" <==> m == "Field require minimum of " + size + " size/length/unit"
    ensures tag !in {"required", "email", "min", "no_space"} <==> m == "Invalid Field"
  {
    match tag
    case "required" => "Field is required"
    case "email" => "Invalid email format"
    case "min" => "Field require minimum of " + size + " size/length/unit"
    case "no_space" => "Field should not contain spaces"
    case _ => "Invalid Field"
  }

  /** The custom `no_space` rule: the value contains no space character (U+0020). */
  function NoSpace(value: string): (ok: bool)
    ensures ok <==> ' ' !in value
  {
    ContainsSingle(value, ' ');
    !Contains(value, " ")
  }

  /** The key a failure is reported under: the json tag, else the Go field name. */
  function ErrorKey(e: FieldError): (k: string)
    ensures e.jsonTag != "" ==> k == e.jsonTag
    ensures e.jsonTag == "" ==> k == e.field
  {
    if e.jsonTag == "" then e.field else e.jsonTag
  }

  function ErrorMessage(e: FieldError): string
  {
    CustomMessage(e.tag, e.param)
  }

  /** The map `ValidationErrorHandlerV1` builds, one entry per reported key (see `ErrorMapLastWins`
      for which message a key gets). */
  function ErrorMap(errs: seq<FieldError>): (m: map<string, string>)
    ensures forall k :: k in m <==> exists i :: 0 <= i < |errs| && ErrorKey(errs[i]) == k
  {
    if |errs| == 0 then map[]
    else
      var init := errs[..|errs| - 1];
      var last := errs[|errs| - 1];
      assert forall i :: 0 <= i < |init| ==> init[i] == errs[i];
      ErrorMap(init)[ErrorKey(last) := ErrorMessage(last)]
  }

  /** When several failures share a key, the later one overwrites the earlier: each key holds the
      message of the last failure reported under it. */
  lemma {:induction false} ErrorMapLastWins(errs: seq<FieldError>, i: int)
    requires 0 <= i < |errs| && IsLastWithKey(errs, i)
    ensures ErrorKey(errs[i]) in ErrorMap(errs) && ErrorMap(errs)[ErrorKey(errs[i])] == ErrorMessage(errs[i])
  {
    var init := errs[..|errs| - 1];
    if i < |errs| - 1 {
      assert init[i] == errs[i];
      assert IsLastWithKey(init, i) by {
        forall j | i < j < |init| ensures ErrorKey(init[j]) != ErrorKey(init[i]) {
          assert init[j] == errs[j];
        }
      }
      ErrorMapLastWins(init, i);
    }
  }

  /** No failure after position `i` is reported under the same key. */
  predicate IsLastWithKey(errs: seq<FieldError>, i: int)
    requires 0 <= i < |errs|
  {
    forall j :: i < j < |errs| ==> ErrorKey(errs[j]) != ErrorKey(errs[i])
  }

  /** `ValidationErrorHandlerV1`: field-scoped messages for validation failures, nil for anything
      else (and for no error). */
  function ValidationErrorsV1(o: ValidationOutcome): (r: ErrDetail)
    ensures o.Invalid? <==> r.FieldErrors?
    ensures !o.Invalid? ==> r == NoError
    ensures o.Invalid? ==> r.errors == ErrorMap(o.errors)
  {
    if o.Invalid? then FieldErrors(ErrorMap(o.errors)) else NoError
  }

  /** The legacy `ValidationErrorHandler`, called only with an error: validation failures answer 400
      with the library text of the first failure, any other error answers 500 with its text. */
  function ValidationErrorHandler<D>(o: ValidationOutcome): (e: Envelope<D>)
    requires WellFormedOutcome(o) && !o.Passed?
    ensures o.Invalid? ==> e == ResponseFormatter(StatusBadRequest, None, o.errors[0].text)
    ensures o.OtherError? ==> e == ResponseFormatter(StatusInternalServerError, None, o.text)
    ensures !e.success && e.data.EmptyObject?
  {
    if o.Invalid? then ResponseFormatter(StatusBadRequest, None, o.errors[0].text)
    else ResponseFormatter(StatusInternalServerError, None, o.text)
  }
}
