/** The per-request context: the request, the response wrapper, the lazily
    created side table, the recorded errors, the handler chain fixed at
    registration and the cursor into it. This module holds the operations
    that change the context without running any handler; running the chain
    is `Chain`'s. The handler type is a parameter: nothing here looks at one. */
module RequestContext {
  import opened Common
  import Response

  /** `AbortIndex = math.MaxInt8 / 2`: the cursor value that stops the chain. */
  const AbortIndex: int := 63

  /** The longest chain the abort sentinel can stop: every position is below
      `AbortIndex + 1`, so the increment after an abort leaves the chain. */
  const MaxHandlers: nat := 64

  /** Go's `int8` range. */
  const MinInt8: int := -128
  const MaxInt8: int := 127

  /** The metadata `Fail` attaches to the error it records. */
  const AbortedMeta: Value := Text("Operation aborted")

  /** How the cursor stores its value: `Int8Cursor` is the `int8` field of
      the code as written, whose increment wraps around; `WideCursor` is a
      cursor that cannot overflow, the evidently intended behaviour. */
  datatype Width = Int8Cursor | WideCursor

  /** Two's-complement truncation to `int8`, as Go's `int8` arithmetic. */
  function WrapInt8(x: int): (r: int)
    ensures MinInt8 <= r <= MaxInt8
    ensures (r - x) % 256 == 0
  {
    (x + 128) % 256 - 128
  }

  /** Why a handler chain stops abnormally: `Get` of a missing or nil key
      (`log.Panicf`), or a slice index out of range. */
  datatype PanicReason = MissingKey(key: string) | IndexOutOfRange(index: int)

  datatype Context<H> = Context(
    request: Request,
    writer: Response.Writer,
    keys: Option<map<string, Value>>,
    errors: seq<ErrorMsg>,
    handlers: seq<H>,
    index: int,
    width: Width)

  /** A context whose chain the abort sentinel can stop and whose cursor
      holds a value of its width. */
  ghost predicate Valid<H>(c: Context<H>)
  {
    |c.handlers| <= MaxHandlers
    && MinInt8 <= c.index
    && (c.width == Int8Cursor ==> c.index <= MaxInt8)
  }

  /** `c.index++` in the cursor's width. */
  function Bump<H>(c: Context<H>): (r: int)
    requires Valid(c)
    ensures c.index < MaxInt8 ==> r == c.index + 1
    ensures c.width == WideCursor ==> r == c.index + 1
    ensures c.width == Int8Cursor && c.index == MaxInt8 ==> r == MinInt8
  {
    if c.width == Int8Cursor then WrapInt8(c.index + 1) else c.index + 1
  }

  /** `createContext`: a fresh context before any handler ran. The response
      wrapper is reset onto the sink, as the engine of gin 0.2b does before
      handing it over. */
  function Create<H>(request: Request, sink: Response.Sink, handlers: seq<H>, width: Width): (c: Context<H>)
    requires |handlers| <= MaxHandlers
    ensures Valid(c)
    ensures c.index == -1 && c.handlers == handlers && c.request == request
    ensures c.keys.None? && c.errors == []
    ensures c.writer.sink == sink && !c.writer.written
    ensures c.width == width && c.writer == Response.Reset(sink) && c.writer.status == 0
  {
    Context(request, Response.Reset(sink), None, [], handlers, -1, width)
  }

  /** `Abort(code)`: one status write, then the cursor jumps to the
      sentinel; nothing else changes. */
  function Abort<H>(c: Context<H>, code: int): (r: Context<H>)
    ensures r.index == AbortIndex
    ensures r.writer.status == code && r.writer.written
    ensures r.writer.sink.statusWrites == c.writer.sink.statusWrites + [code]
    ensures r.writer.sink.body == c.writer.sink.body && r.writer.sink.headers == c.writer.sink.headers
    ensures r.(index := c.index, writer := c.writer) == c
  {
    c.(writer := Response.WriteHeader(c.writer, code), index := AbortIndex)
  }

  /** `Error(err, meta)`: append one record after those already there. */
  function RecordError<H>(c: Context<H>, message: string, meta: Value, kind: bv32): (r: Context<H>)
    ensures |r.errors| == |c.errors| + 1
    ensures r.errors[..|c.errors|] == c.errors
    ensures r.errors[|c.errors|] == ErrorMsg(message, meta, kind)
    ensures r.(errors := c.errors) == c
  {
    c.(errors := c.errors + [ErrorMsg(message, meta, kind)])
  }

  /** `Fail(code, err)`: record the error with the "Operation aborted"
      metadata, then abort with `code`. */
  function Fail<H>(c: Context<H>, code: int, message: string, kind: bv32): (r: Context<H>)
    ensures r.errors == c.errors + [ErrorMsg(message, AbortedMeta, kind)]
    ensures r.index == AbortIndex
    ensures r.writer.status == code && r.writer.written
    ensures r.writer.sink.statusWrites == c.writer.sink.statusWrites + [code]
    ensures r.writer.sink.body == c.writer.sink.body && r.writer.sink.headers == c.writer.sink.headers
    ensures r.keys == c.keys && r.handlers == c.handlers && r.request == c.request && r.width == c.width
  {
    Abort(RecordError(c, message, AbortedMeta, kind), code)
  }

  /** `Set(key, item)`: create the table on first use, then bind `key`. */
  function SetKey<H>(c: Context<H>, key: string, item: Value): (r: Context<H>)
    ensures r.keys.Some? && key in r.keys.value && r.keys.value[key] == item
    ensures c.keys.Some? ==> r.keys.value.Keys == c.keys.value.Keys + {key}
    ensures c.keys.None? ==> r.keys.value.Keys == {key}
    ensures forall k | c.keys.Some? && k in c.keys.value && k != key :: r.keys.value[k] == c.keys.value[k]
    ensures r.(keys := c.keys) == c
  {
    var table := if c.keys.None? then map[] else c.keys.value;
    c.(keys := Some(table[key := item]))
  }

  /** `Get(key)`: the bound value, or the panic raised when the table was
      never created, the key is absent, or its value is nil. */
  function GetKey<H>(c: Context<H>, key: string): (r: Result<Value, PanicReason>)
    ensures r.Success? <==> c.keys.Some? && key in c.keys.value && c.keys.value[key] != Nil
    ensures r.Success? ==> r.value == c.keys.value[key]
    ensures r.Failure? ==> r.error == MissingKey(key)
  {
    if c.keys.Some? && key in c.keys.value && c.keys.value[key] != Nil then Success(c.keys.value[key])
    else Failure(MissingKey(key))
  }

  /** `application/json`. */
  const JsonContentType: Bytes := [97, 112, 112, 108, 105, 99, 97, 116, 105, 111, 110, 47, 106, 115, 111, 110]

  /** `JSON(code, obj)`: a negative code leaves the status alone, any other
      is written first; then the content type is set and the object is
      encoded into the body. Encoding errors are not modelled. */
  function Json<H>(c: Context<H>, code: int, obj: Value): (r: Context<H>)
    ensures code >= 0 ==> r.writer.status == code && r.writer.written
    ensures code >= 0 ==> r.writer.sink.statusWrites == c.writer.sink.statusWrites + [code]
    ensures code < 0 ==> r.writer.status == c.writer.status && r.writer.written == c.writer.written
    ensures code < 0 ==> r.writer.sink.statusWrites == c.writer.sink.statusWrites
    ensures r.writer.sink.headers == c.writer.sink.headers["Content-Type" := JsonContentType]
    ensures r.writer.sink.body == c.writer.sink.body + [obj]
    ensures r.(writer := c.writer) == c
  {
    var w := if code >= 0 then Response.WriteHeader(c.writer, code) else c.writer;
    var w := Response.SetHeader(w, "Content-Type", JsonContentType);
    c.(writer := Response.WriteBody(w, obj))
  }

  /* ----- relations between the operations ----- */

  /** What `Set` stores, `Get` returns; a nil value reads as missing; other
      keys read as before. */
  lemma SetThenGet<H>(c: Context<H>, key: string, item: Value, other: string)
    requires other != key
    ensures item != Nil ==> GetKey(SetKey(c, key, item), key) == Success(item)
    ensures item == Nil ==> GetKey(SetKey(c, key, item), key) == Failure(MissingKey(key))
    ensures GetKey(SetKey(c, key, item), other) == GetKey(c, other)
  {
  }

  /** A later `Set` of the same key replaces the earlier one entirely. */
  lemma SetOverwrites<H>(c: Context<H>, key: string, a: Value, b: Value)
    ensures SetKey(SetKey(c, key, a), key, b) == SetKey(c, key, b)
  {
    var t := if c.keys.None? then map[] else c.keys.value;
    assert t[key := a][key := b] == t[key := b];
  }

  /** Until the first `Set`, every `Get` panics. */
  lemma GetBeforeSetPanics<H>(request: Request, sink: Response.Sink, handlers: seq<H>, width: Width, key: string)
    requires |handlers| <= MaxHandlers
    ensures GetKey(Create(request, sink, handlers, width), key) == Failure(MissingKey(key))
  {
  }

  /** A negative code makes `JSON` invisible to the status: the status and
      the sink's status writes are those before it, whatever ran earlier. */
  lemma NegativeCodeKeepsStatus<H>(c: Context<H>, code: int, obj: Value)
    requires code < 0
    ensures Response.Status(Json(c, code, obj).writer) == Response.Status(c.writer)
    ensures Response.Written(Json(c, code, obj).writer) == Response.Written(c.writer)
  {
  }
}
