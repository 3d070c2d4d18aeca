/** The decisions of the two loggers that do not depend on I/O: how the request body and headers are
    redacted before logging, how the API log message and level are chosen, and how the system log
    classifies an entry and fills `user_info`. */
module LogHandler {

  import opened Base
  import opened Strings
  import opened Response

  const Redacted := "[REDACTED]"

  /** The form fields whose values never reach the log. */
  predicate Sensitive(key: string)
  {
    key == "password" || key == "re_password" || key == "old_password"
  }

  /** Parsed form values, as `url.Values` or a multipart form's value map: every key has at least
      one value. */
  type Form = map<string, seq<string>>

  predicate WellFormedForm(form: Form)
  {
    forall k :: k in form ==> |form[k]| >= 1
  }

  /** A logged field: a single value is logged as a string, several as a list. */
  datatype LoggedValue = Scalar(text: string) | Many(texts: seq<string>)

  /** The redacted copy of a form the API log records. */
  function RedactForm(form: Form): (logged: map<string, LoggedValue>)
    requires WellFormedForm(form)
    ensures logged.Keys == form.Keys
    ensures forall k :: k in form && Sensitive(k) ==> logged[k] == Scalar(Redacted)
    ensures forall k :: k in form && !Sensitive(k) && |form[k]| > 1 ==> logged[k] == Many(form[k])
    ensures forall k :: k in form && !Sensitive(k) && |form[k]| == 1 ==> logged[k] == Scalar(form[k][0])
  {
    map k | k in form :: if Sensitive(k) then Scalar(Redacted) else if |form[k]| > 1 then Many(form[k]) else Scalar(form[k][0])
  }

  /** No value of a sensitive field survives redaction, whatever the form held. */
  lemma RedactionHidesPasswords(form: Form, k: string)
    requires WellFormedForm(form) && k in form && Sensitive(k)
    ensures forall v :: v in form[k] && v != Redacted ==> RedactForm(form)[k] != Scalar(v) && !RedactForm(form)[k].Many?
  {
  }

  /** What the API log records as `request_body`. */
  datatype LoggedBody = Fields(fields: map<string, LoggedValue>) | Text(text: string) | Json(json: string)

  /** The request body as the middleware sees it: the content type, the outcome of parsing it as a
      form (the parse error text on failure), whether it parses as JSON, and the raw bytes. */
  datatype RequestBody = RequestBody(contentType: string, form: Option<Form>, parseError: string, isJson: bool, raw: string)

  /** The logged body: multipart and url-encoded forms are redacted; anything else is logged as JSON
      when it parses and as text when not, with no redaction at all. */
  function LogRequestBody(b: RequestBody): (logged: LoggedBody)
    requires b.form.Some? ==> WellFormedForm(b.form.value)
    ensures Contains(b.contentType, "multipart/form-data") ==>
      logged == (if b.form.Some? then Fields(RedactForm(b.form.value)) else Text("Error parsing form-data: " + b.parseError))
    ensures !Contains(b.contentType, "multipart/form-data") && Contains(b.contentType, "application/x-www-form-urlencoded") ==>
      logged == (if b.form.Some? then Fields(RedactForm(b.form.value)) else Text(b.raw))
    ensures !Contains(b.contentType, "multipart/form-data") && !Contains(b.contentType, "application/x-www-form-urlencoded") ==>
      logged == (if b.isJson then Json(b.raw) else Text(b.raw))
  {
    if Contains(b.contentType, "multipart/form-data") then
      if b.form.Some? then Fields(RedactForm(b.form.value)) else Text("Error parsing form-data: " + b.parseError)
    else if Contains(b.contentType, "application/x-www-form-urlencoded") then
      if b.form.Some? then Fields(RedactForm(b.form.value)) else Text(b.raw)
    else if b.isJson then Json(b.raw) else Text(b.raw)
  }

  /** A JSON body is logged verbatim: a password inside it reaches the log. */
  lemma JsonBodiesNotRedacted(raw: string)
    ensures LogRequestBody(RequestBody("application/json", None, "", true, raw)) == Json(raw)
  {
    assert !Contains("application/json", "multipart/form-data");
    assert !Contains("application/json", "application/x-www-form-urlencoded");
  }

  /** Request headers, canonical key to values. */
  type Headers = map<string, seq<string>>

  /** The clone logged as `request_header`: the Authorization header, when present, is replaced. */
  function RedactHeaders(h: Headers): (logged: Headers)
    ensures logged.Keys == h.Keys
    ensures "Authorization" in h ==> logged["Authorization"] == [Redacted]
    ensures forall k :: k in h && k != "Authorization" ==> logged[k] == h[k]
  {
    if "Authorization" in h then h["Authorization" := [Redacted]] else h
  }

  /** A JSON value as far as the logger inspects it. */
  datatype JsonField = JString(s: string) | JOther

  /** `response_body`: the decoded JSON object, or the raw text under "raw" when it does not decode. */
  function LogResponseBody(raw: string, decoded: Option<map<string, JsonField>>): (logged: map<string, JsonField>)
    ensures decoded.Some? ==> logged == decoded.value
    ensures decoded.None? ==> logged == map["raw" := JString(raw)]
  {
    if decoded.Some? then decoded.value else map["raw" := JString(raw)]
  }

  /** The API log message. A `message` that is not a string makes the type assertion panic: None. */
  function LogMessage(body: map<string, JsonField>): (m: Option<string>)
    ensures "message" !in body ==> m == Some("API LOG | No message in response")
    ensures "message" in body && body["message"].JString? ==> m == Some("API Log | " + body["message"].s)
    ensures "message" in body && body["message"].JOther? ==> m.None?
  {
    if "message" !in body then Some("API LOG | No message in response")
    else if body["message"].JString? then Some("API Log | " + body["message"].s)
    else None
  }

  /** Every envelope the formatters produce carries its message into the API log. */
  lemma EnvelopeMessageLogged<D>(e: Envelope<D>, fields: map<string, JsonField>)
    requires "message" in fields && fields["message"] == JString(e.message)
    ensures LogMessage(LogResponseBody("", Some(fields))) == Some("API Log | " + e.message)
  {
  }

  /** A response that is not JSON is always logged with the no-message text. */
  lemma NonJsonResponseHasNoMessage(raw: string)
    ensures LogMessage(LogResponseBody(raw, None)) == Some("API LOG | No message in response")
  {
  }

  /** The zap level of the API log and the category of the system log. */
  datatype Level = Fatal | Error | Info

  function LevelOf(status: int): (l: Level)
    ensures l == Fatal <==> status == 500
    ensures l == Error <==> 400 <= status < 500
    ensures l == Info <==> status != 500 && !(400 <= status < 500)
  {
    if status == 500 then Fatal else if status < 500 && status >= 400 then Error else Info
  }

  /** The system log's `category`. */
  function Category(status: int): (c: string)
    ensures c == "FATAL" <==> LevelOf(status) == Fatal
    ensures c == "ERROR" <==> LevelOf(status) == Error
    ensures c == "INFO" <==> LevelOf(status) == Info
  {
    match LevelOf(status)
    case Fatal => "FATAL"
    case Error => "ERROR"
    case Info => "INFO"
  }

  /** Server errors other than 500 (501–599) are logged as information, not as errors. */
  lemma OtherServerErrorsAreInfo(status: int)
    requires 501 <= status <= 599
    ensures LevelOf(status) == Info && Category(status) == "INFO"
  {
  }

  /** `user_info` in the system log: an empty object when the entry has neither id nor username, and
      nil (absent) otherwise, so a known user is never written there. */
  datatype UserInfoField = Nil | Empty

  function UserInfoLogged(u: LogUserInfo): (f: UserInfoField)
    ensures f == Empty <==> u.id == "" && u.username == ""
  {
    if u.id == "" && u.username == "" then Empty else Nil
  }

  /** The system log entry's classification and user info. */
  datatype SystemLogEntry = SystemLogEntry(category: string, responseCode: int, location: string, message: string,
                                           identifier: string, userInfo: UserInfoField, errors: ErrDetail)

  function LogSystem(p: LogSystemParam): (e: SystemLogEntry)
    ensures e.category == Category(p.statusCode) && e.responseCode == p.statusCode
    ensures e.location == p.location && e.message == p.message && e.identifier == p.identifier && e.errors == p.err
    ensures e.userInfo == Empty <==> p.userInfo.id == "" && p.userInfo.username == ""
  {
    SystemLogEntry(Category(p.statusCode), p.statusCode, p.location, p.message, p.identifier, UserInfoLogged(p.userInfo), p.err)
  }
}
