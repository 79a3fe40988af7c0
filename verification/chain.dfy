/** Running a handler chain: `Context.Next` and the handlers that call it.
    A handler is a script of steps over the context; `Next` inside a script
    runs the rest of the chain re-entrantly before the script continues,
    which is what lets a middleware do work both before and after the
    handlers that follow it. Observable effects that do not live in the
    context (log lines, reads, markers a handler leaves) are returned as
    events beside it; a panic ends the run with the context as it was. */
module Chain {
  import opened Common
  import Response
  import Credentials
  import Logging
  import C = RequestContext

  /** What a handler can do. */
  datatype Step =
    | Next                                        // `c.Next()`
    | Abort(code: int)                            // `c.Abort(code)`
    | Fail(code: int, message: string, kind: bv32) // `c.Fail(code, err)`
    | Error(message: string, meta: Value, kind: bv32) // `c.Error(err, meta)`
    | Set(key: string, item: Value)               // `c.Set(key, item)`
    | Get(key: string)                            // `c.Get(key)`, its result observed
    | Json(code: int, obj: Value)                 // `c.JSON(code, obj)`
    | Mark(tag: nat)                              // any other work, observed by its tag
    | ReportErrors                                // gin 0.1 `ErrorLogger` after `Next`
    | ReportErrorsOfType(typ: bv32)               // gin 0.2b `ErrorLoggerT` after `Next`
    | LogRequest                                  // gin 0.1 `Logger` after `Next`
    | LogColoured                                 // gin 0.2b `Logger` after `Next`
    | Authenticate(store: Credentials.Store)      // the closure `BasicAuth` returns

  type Handler = seq<Step>

  type State = C.Context<Handler>

  /** A line a logger prints, without its timestamp and latency. */
  datatype LogLine =
    | Plain(uri: string)
    | Coloured(colour: Bytes, status: int, requester: Bytes, verb: string, path: string)
    | ErrorList(errors: seq<ErrorMsg>)

  datatype Event =
    | Enter(index: int)       // the chain loop calls handler `index`
    | Leave(index: int)       // handler `index` returned normally
    | Aborted(code: int)      // `Abort` or `Fail` ran with `code`
    | Marked(tag: nat)
    | Read(key: string, item: Value)
    | Logged(line: LogLine)

  datatype Outcome = Outcome(ctx: State, events: seq<Event>, panic: Option<C.PanicReason>)

  /** The challenge header, under the canonical name `Header().Set` stores
      it with (`WWW-Authenticate` canonicalises to `Www-Authenticate`). */
  const ChallengeHeader := "Www-Authenticate"

  /** `Basic realm="Authorization Required"`, the challenge of section 2 of
      RFC 7617. */
  const Challenge: Bytes :=
    [66, 97, 115, 105, 99, 32, 114, 101, 97, 108, 109, 61, 34, 65, 117, 116, 104, 111, 114,
     105, 122, 97, 116, 105, 111, 110, 32, 82, 101, 113, 117, 105, 114, 101, 100, 34]

  /** The key `BasicAuth` stores the authenticated user under. */
  const UserKey := "user"

  /** Frame shared by every run: only the writer, side table, errors and
      cursor change, and the cursor stays a value of its width. */
  ghost predicate Framed(c: State, d: State)
  {
    C.Valid(d) && d.handlers == c.handlers && d.width == c.width && d.request == c.request
  }

  /* ----- termination measures ----- */

  /** `Next` increments first; a cursor at 127 or beyond has one step left. */
  function NextRank(x: int): nat
    requires x >= C.MinInt8
  {
    if x < 128 then 128 - x else 1
  }

  /** The loop runs only while the cursor is a position of the chain. */
  function LoopRank(y: int): nat
  {
    if 0 <= y < 128 then 128 - y else 0
  }

  /** `Next`: increment the cursor, then run the loop. */
  function RunNext(c: State): (o: Outcome)
    requires C.Valid(c)
    ensures Framed(c, o.ctx)
    ensures o.panic.None? ==> o.ctx.index > c.index && o.ctx.index >= |c.handlers|
    decreases NextRank(c.index), 1, 0
  {
    RunFrom(c.(index := C.Bump(c)))
  }

  /** The loop of `Next`: while the cursor is below the chain length, run
      the handler under it, then increment. The length is `int8(len)`, the
      length itself for chains `Valid` admits; a negative cursor below it
      indexes the slice out of range. */
  function RunFrom(c: State): (o: Outcome)
    requires C.Valid(c)
    ensures Framed(c, o.ctx)
    ensures o.panic.None? ==> o.ctx.index >= c.index && o.ctx.index >= |c.handlers|
    ensures c.index < 0 ==> o.panic == Some(C.IndexOutOfRange(c.index)) && o.events == []
    decreases LoopRank(c.index), 3, 0
  {
    if c.index >= |c.handlers| then Outcome(c, [], None)
    else if c.index < 0 then Outcome(c, [], Some(C.IndexOutOfRange(c.index)))
    else
      var i := c.index;
      var o := RunHandler(c, i, c.handlers[i]);
      if o.panic.Some? then Outcome(o.ctx, [Enter(i)] + o.events, o.panic)
      else
        var o2 := RunFrom(o.ctx.(index := C.Bump(o.ctx)));
        Outcome(o2.ctx, [Enter(i)] + o.events + [Leave(i)] + o2.events, o2.panic)
  }

  /** The rest of handler `i`'s script, from the cursor `c.index` it sees.
      The cursor only moves forward, except that `Abort` may set it back
      to the sentinel. */
  function RunHandler(c: State, i: int, steps: seq<Step>): (o: Outcome)
    requires C.Valid(c) && 0 <= i < |c.handlers| && i <= c.index
    ensures Framed(c, o.ctx)
    ensures o.panic.None? ==> o.ctx.index >= i
    ensures o.panic.None? ==> o.ctx.index >= c.index || o.ctx.index >= C.AbortIndex
    decreases 128 - i, 2, |steps|
  {
    if steps == [] then Outcome(c, [], None)
    else
      var o := Exec(c, i, steps[0]);
      if o.panic.Some? then o
      else
        var o2 := RunHandler(o.ctx, i, steps[1..]);
        Outcome(o2.ctx, o.events + o2.events, o2.panic)
  }

  /** One step of handler `i`: `Next` re-enters the chain, any other step
      acts on the context alone. */
  function Exec(c: State, i: int, step: Step): (o: Outcome)
    requires C.Valid(c) && 0 <= i < |c.handlers| && i <= c.index
    ensures Framed(c, o.ctx)
    ensures o.panic.None? ==> o.ctx.index >= i
    ensures o.panic.None? ==> o.ctx.index >= c.index || o.ctx.index >= C.AbortIndex
    decreases 128 - i, 2, 0
  {
    if step.Next? then RunNext(c) else Effect(c, step)
  }

  /** A step other than `Next`: it never enters a handler, moves the cursor
      only to the abort sentinel and only when it reports an abort, and can
      only panic on a missing key. */
  function Effect(c: State, step: Step): (o: Outcome)
    requires C.Valid(c) && !step.Next?
    ensures Framed(c, o.ctx)
    ensures forall p | 0 <= p < |o.events| :: !o.events[p].Enter? && !o.events[p].Leave?
    ensures (exists p | 0 <= p < |o.events| :: o.events[p].Aborted?) ==> o.ctx.index == C.AbortIndex
    ensures o.ctx.index == c.index || (o.ctx.index == C.AbortIndex && |o.events| == 1 && o.events[0].Aborted?)
    ensures o.panic.Some? ==> o.panic.value.MissingKey? && o.events == []
  {
    match step
    case Abort(code) => Outcome(C.Abort(c, code), [Aborted(code)], None)
    case Fail(code, message, kind) => Outcome(C.Fail(c, code, message, kind), [Aborted(code)], None)
    case Error(message, meta, kind) => Outcome(C.RecordError(c, message, meta, kind), [], None)
    case Set(key, item) => Outcome(C.SetKey(c, key, item), [], None)
    case Get(key) =>
      (match C.GetKey(c, key)
       case Success(item) => Outcome(c, [Read(key, item)], None)
       case Failure(reason) => Outcome(c, [], Some(reason)))
    case Json(code, obj) => Outcome(C.Json(c, code, obj), [], None)
    case Mark(tag) => Outcome(c, [Marked(tag)], None)
    case ReportErrors => Outcome(ReportAll(c), [], None)
    case ReportErrorsOfType(typ) => Outcome(ReportOfType(c, typ), [], None)
    case LogRequest => Outcome(c, [Logged(Plain(c.request.uri))] + ErrorLines(c), None)
    case LogColoured => Outcome(c, [Logged(ColouredLine(c))] + ErrorLines(c), None)
    case Authenticate(store) =>
      var o := Authenticated(c, store);
      Outcome(o.0, o.1, None)
  }

  /** A script of one step runs exactly that step. */
  lemma SingleStep(c: State, i: int, step: Step)
    requires C.Valid(c) && 0 <= i < |c.handlers| && i <= c.index
    ensures RunHandler(c, i, [step]) == Exec(c, i, step)
  {
    var o := Exec(c, i, step);
    assert [step][1..] == [];
    if o.panic.None? {
      assert RunHandler(o.ctx, i, []) == Outcome(o.ctx, [], None);
      assert o.events + [] == o.events;
    }
  }

  /** A script runs its first step, then, unless that panicked, the rest
      from the state it left. */
  lemma Prepend(c: State, i: int, steps: seq<Step>)
    requires C.Valid(c) && 0 <= i < |c.handlers| && i <= c.index && steps != []
    ensures var o := Exec(c, i, steps[0]);
      o.panic.None? ==>
        var o2 := RunHandler(o.ctx, i, steps[1..]);
        RunHandler(c, i, steps) == Outcome(o2.ctx, o.events + o2.events, o2.panic)
  {
  }

  /** The wrap pattern `[Next, step]`: the rest of the chain, then `step`
      on the state it left. */
  lemma NextThen(c: State, i: int, step: Step)
    requires C.Valid(c) && 0 <= i < |c.handlers| && i <= c.index
    ensures var inner := RunNext(c);
      inner.panic.None? ==>
        var after := Exec(inner.ctx, i, step);
        RunHandler(c, i, [Next, step]) == Outcome(after.ctx, inner.events + after.events, after.panic)
  {
    var inner := RunNext(c);
    if inner.panic.None? {
      SingleStep(inner.ctx, i, step);
      assert [Next, step][1..] == [step];
    }
  }

  /** One turn of the loop that returns normally: handler `i` bracketed by
      its events, then the loop from the incremented cursor. */
  lemma Turn(c: State)
    requires C.Valid(c) && 0 <= c.index < |c.handlers|
    ensures var o := RunHandler(c, c.index, c.handlers[c.index]);
      o.panic.None? ==>
        var rest := RunFrom(o.ctx.(index := C.Bump(o.ctx)));
        RunFrom(c) == Outcome(rest.ctx, [Enter(c.index)] + o.events + [Leave(c.index)] + rest.events, rest.panic)
  {
  }

  /** The last turn of the loop: handler `i` returns and the increment
      leaves the chain, so the loop ends there. */
  lemma LastTurn(c: State)
    requires C.Valid(c) && 0 <= c.index < |c.handlers|
    ensures var o := RunHandler(c, c.index, c.handlers[c.index]);
      o.panic.None? && C.Bump(o.ctx) >= |c.handlers| ==>
        RunFrom(c) == Outcome(o.ctx.(index := C.Bump(o.ctx)), [Enter(c.index)] + o.events + [Leave(c.index)], None)
  {
    var o := RunHandler(c, c.index, c.handlers[c.index]);
    if o.panic.None? && C.Bump(o.ctx) >= |c.handlers| {
      var last := o.ctx.(index := C.Bump(o.ctx));
      assert RunFrom(last) == Outcome(last, [], None);
      assert [Enter(c.index)] + o.events + [Leave(c.index)] + [] == [Enter(c.index)] + o.events + [Leave(c.index)];
    }
  }

  /** A route's dispatch: a fresh context over the route's full handler
      list, then `Next`. */
  function Dispatch(handlers: seq<Handler>, request: Request, sink: Response.Sink, width: C.Width): (o: Outcome)
    requires |handlers| <= C.MaxHandlers
    ensures o.ctx.handlers == handlers && o.ctx.request == request && o.ctx.width == width
    ensures o.panic.None? ==> o.ctx.index >= |handlers|
    ensures handlers == [] ==> o.events == [] && o.panic.None? && o.ctx.writer == Response.Reset(sink)
  {
    var c := C.Create(request, sink, handlers, width);
    assert handlers == [] ==> C.Bump(c) == 0 && RunFrom(c.(index := 0)) == Outcome(c.(index := 0), [], None);
    RunNext(c)
  }

  /** gin 0.1 `ErrorLogger`'s tail: render every error, status untouched. */
  function ReportAll(c: State): (r: State)
    ensures |c.errors| == 0 ==> r == c
    ensures |c.errors| > 0 ==> r.writer.sink.body == c.writer.sink.body + [Errors(c.errors)]
    ensures r.writer.status == c.writer.status && r.writer.written == c.writer.written
    ensures r.writer.sink.statusWrites == c.writer.sink.statusWrites
    ensures r.(writer := c.writer) == c
  {
    if |c.errors| > 0 then C.Json(c, -1, Errors(c.errors)) else c
  }

  /** gin 0.2b `ErrorLoggerT`'s tail: if any error has a kind in `typ`,
      render all errors, not only those, status untouched. */
  function ReportOfType(c: State, typ: bv32): (r: State)
    ensures (forall e | e in c.errors :: e.kind & typ == 0) ==> r == c
    ensures (exists e | e in c.errors :: e.kind & typ != 0) ==>
      r.writer.sink.body == c.writer.sink.body + [Errors(c.errors)]
    ensures r.writer.status == c.writer.status && r.writer.written == c.writer.written
    ensures r.writer.sink.statusWrites == c.writer.sink.statusWrites
    ensures r.(writer := c.writer) == c
  {
    var errs := Logging.ByType(c.errors, typ);
    if |errs| > 0 then
      assert errs[0] in errs;
      C.Json(c, -1, Errors(c.errors))
    else c
  }

  /** The error dump both loggers print after their line, if any error was recorded. */
  function ErrorLines(c: State): (es: seq<Event>)
    ensures |c.errors| == 0 <==> es == []
    ensures |c.errors| > 0 ==> es == [Logged(ErrorList(c.errors))]
  {
    if |c.errors| > 0 then [Logged(ErrorList(c.errors))] else []
  }

  /** gin 0.2b `Logger`'s line: colour and status from the wrapper after
      the chain ran, the requester, the method and the path. */
  function ColouredLine(c: State): (line: LogLine)
    ensures line.Coloured? && line.status == Response.Status(c.writer)
    ensures line.colour == Logging.ColourFor(line.status)
    ensures line.requester == Logging.Requester(c.request)
    ensures line.verb == c.request.verb && line.path == c.request.path
  {
    var status := Response.Status(c.writer);
    Coloured(Logging.ColourFor(status), status, Logging.Requester(c.request), c.request.verb, c.request.path)
  }

  /** The `BasicAuth` closure: look the `Authorization` header up; on a
      miss set the challenge header and fail with 401, otherwise store the
      user under `"user"`. */
  function Authenticated(c: State, store: Credentials.Store): (r: (State, seq<Event>))
    ensures var user := Credentials.SearchCredential(store, HeaderGet(c.request, "Authorization"));
      if |user| == 0 then
        r.1 == [Aborted(401)]
        && r.0.index == C.AbortIndex
        && r.0.writer.status == 401 && r.0.writer.written
        && r.0.writer.sink.statusWrites == c.writer.sink.statusWrites + [401]
        && r.0.writer.sink.body == c.writer.sink.body
        && r.0.writer.sink.headers == c.writer.sink.headers[ChallengeHeader := Challenge]
        && r.0.errors == c.errors + [ErrorMsg("Unauthorized", C.AbortedMeta, Logging.ErrorTypeExternal)]
        && r.0.keys == c.keys
      else
        r.1 == [] && r.0 == C.SetKey(c, UserKey, Raw(user))
    ensures r.0.handlers == c.handlers && r.0.width == c.width && r.0.request == c.request
    ensures r.0.index == c.index || r.0.index == C.AbortIndex
  {
    var user := Credentials.SearchCredential(store, HeaderGet(c.request, "Authorization"));
    if |user| == 0 then
      var c1 := c.(writer := Response.SetHeader(c.writer, ChallengeHeader, Challenge));
      (C.Fail(c1, 401, "Unauthorized", Logging.ErrorTypeExternal), [Aborted(401)])
    else
      (C.SetKey(c, UserKey, Raw(user)), [])
  }
}
