/** Shared vocabulary of the dispatch model: an optional value and a
    success-or-error result (plain datatypes, matched on explicitly), byte strings, the dynamically typed values a handler may store or
    render, error records and the inbound request. */
module Common {

  /** Conventional optional value. */
  datatype Option<+T> = None | Some(value: T)

  /** Either a value or an error, used for operations that can fail. */
  datatype Result<+R, +E> = Success(value: R) | Failure(error: E)

  /** A Go `string` where the code compares or encodes it byte by byte. */
  type Bytes = seq<bv8>

  /** The `interface{}` values stored in the side table, attached to error
      records as metadata, or rendered into a response body. `Nil` is Go's
      untyped nil. */
  datatype Value =
    | Nil
    | Text(s: string)
    | Raw(b: Bytes)
    | Num(n: int)
    | Errors(list: seq<ErrorMsg>)

  /** One recorded error: the message of the Go error value, its metadata and
      a kind bitmask that error-reporting middleware filters on. */
  datatype ErrorMsg = ErrorMsg(message: string, meta: Value, kind: bv32)

  /** The parts of an inbound HTTP request that the dispatch core reads. */
  datatype Request = Request(
    verb: string,
    path: string,
    uri: string,
    headers: map<string, Bytes>,
    remoteAddr: Bytes)

  /** Header lookup: a missing header reads as the empty string. */
  function HeaderGet(req: Request, name: string): (v: Bytes)
    ensures name !in req.headers ==> v == []
    ensures name in req.headers ==> v == req.headers[name]
  {
    if name in req.headers then req.headers[name] else []
  }
}
