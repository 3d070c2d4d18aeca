/** Shared vocabulary: optional values, Go slices as they appear in JSON, and the HTTP status codes
    the handlers use. */
module Base {

  datatype Option<+T> = None | Some(value: T)

  /** A Go slice as encoding/json renders it: a nil slice becomes `null`, a non-nil one (even of length
      zero) becomes an array. */
  datatype JsonList<+T> = Null | Items(items: seq<T>)

  /** The slice built by `var xs []T` followed by one `append` per element: nil when nothing was appended. */
  function Appended<T>(s: seq<T>): (r: JsonList<T>)
    ensures r.Null? <==> |s| == 0
    ensures r.Items? ==> r.items == s
  {
    if |s| == 0 then Null else Items(s)
  }

  /** The elements of a slice, `null` read as no elements. */
  function Elements<T>(l: JsonList<T>): seq<T>
  {
    match l
    case Null => []
    case Items(s) => s
  }

  const StatusOK := 200
  const StatusCreated := 201
  const StatusProcessing := 102
  const StatusBadRequest := 400
  const StatusUnauthorized := 401
  const StatusForbidden := 403
  const StatusNotFound := 404
  const StatusConflict := 409
  const StatusInternalServerError := 500
}
