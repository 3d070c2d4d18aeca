/** The result every service hands back to its controller, and the JSON envelope the controller
    writes from it. */
module Response {

  import opened Base

  /** The `Err` field of a service result: nil, a map of field-scoped messages (rendered as
      `{"errors": {field: message}}`), or an error value, represented by its text. */
  datatype ErrDetail = NoError | FieldErrors(errors: map<string, string>) | Failure(text: string)

  /** The outcome of binding a request body (`ShouldBind`/`ShouldBindJSON`): the decoded value, or
      the binder's error text. */
  datatype Binding<+T> = Bound(value: T) | BindFailed(text: string)

  /** `handlers.ServiceResponse`: status, message, optional payload, error detail. */
  datatype ServiceResponse<+D> = ServiceResponse(status: int, message: string, data: Option<D>, err: ErrDetail)

  function Fail<D>(status: int, message: string, err: ErrDetail): (r: ServiceResponse<D>)
    ensures r.status == status && r.message == message && r.data.None? && r.err == err
  {
    ServiceResponse(status, message, None, err)
  }

  function Succeed<D>(status: int, message: string, data: Option<D>): (r: ServiceResponse<D>)
    ensures r.status == status && r.message == message && r.data == data && r.err == NoError
  {
    ServiceResponse(status, message, data, NoError)
  }

  /** The `data` member of the envelope: the payload, or `{}` when the handler passed nil. */
  datatype Body<+D> = EmptyObject | Payload(value: D)

  /** The JSON written to the client, with the HTTP status it is written under. */
  datatype Envelope<+D> = Envelope(httpStatus: int, success: bool, message: string, data: Body<D>)

  /** The two statuses the envelope reports as a success. */
  predicate IsSuccessStatus(status: int)
  {
    status == StatusOK || status == StatusCreated
  }

  /** `ResponseFormatter`: the status is written unchanged, `success` holds exactly for 200 and 201,
      the message passes through, and a nil payload is replaced by an empty object. */
  function ResponseFormatter<D>(status: int, data: Option<D>, message: string): (e: Envelope<D>)
    ensures e.httpStatus == status && e.message == message
    ensures e.success <==> status == 200 || status == 201
    ensures e.data.EmptyObject? <==> data.None?
    ensures data.Some? ==> e.data == Payload(data.value)
  {
    Envelope(status, IsSuccessStatus(status), message, if data.None? then EmptyObject else Payload(data.value))
  }

  /** The envelope determines what it was written from: the status, the message and the payload,
      with `{}` standing for nil. */
  lemma ResponseFormatterInjective<D>(s1: int, d1: Option<D>, m1: string, s2: int, d2: Option<D>, m2: string)
    ensures ResponseFormatter(s1, d1, m1) == ResponseFormatter(s2, d2, m2) <==> s1 == s2 && d1 == d2 && m1 == m2
  {
    if ResponseFormatter(s1, d1, m1) == ResponseFormatter(s2, d2, m2) && d1.Some? {
      assert ResponseFormatter(s2, d2, m2).data == Payload(d1.value);
    }
  }

  /** The user identity taken from the request context for the system log. */
  datatype LogUserInfo = LogUserInfo(id: string, username: string)

  /** Timing and location a service attaches to its result; `startTime` None is Go's zero time. */
  datatype LogInfo = LogInfo(location: string, startTime: Option<int>, endTime: int)

  /** `LogSystemParam`: what is handed to the system logger. */
  datatype LogSystemParam = LogSystemParam(
    identifier: string,
    statusCode: int,
    location: string,
    message: string,
    startTime: int,
    endTime: int,
    userInfo: LogUserInfo,
    err: ErrDetail)

  /** `ResponseFormatterWithLogging`: the same envelope as `ResponseFormatter`, plus a system-log
      entry exactly when the result carries a start time. `userId` and `username` are the request
      context's "UserID" and "username" values when set; `requestId` is its "X-Request-ID". */
  function ResponseFormatterWithLogging<D>(
    resp: ServiceResponse<D>, log: LogInfo, userId: Option<string>, username: Option<string>, requestId: string
  ): (out: (Envelope<D>, Option<LogSystemParam>))
    ensures out.0 == ResponseFormatter(resp.status, resp.data, resp.message)
    ensures out.1.Some? <==> log.startTime.Some?
    ensures out.1.Some? ==>
      && out.1.value.statusCode == resp.status && out.1.value.message == resp.message
      && out.1.value.err == resp.err && out.1.value.identifier == requestId
      && out.1.value.location == log.location
    ensures out.1.Some? ==>
      && out.1.value.userInfo.id == (if userId.Some? then userId.value else "")
      && out.1.value.userInfo.username == (if username.Some? then username.value else "")
  {
    var envelope := Envelope(resp.status, IsSuccessStatus(resp.status), resp.message,
                             if resp.data.None? then EmptyObject else Payload(resp.data.value));
    var user := LogUserInfo(if userId.Some? then userId.value else "", if username.Some? then username.value else "");
    var entry := if log.startTime.None? then None
                 else Some(LogSystemParam(requestId, resp.status, log.location, resp.message,
                                          log.startTime.value, log.endTime, user, resp.err));
    (envelope, entry)
  }
}
