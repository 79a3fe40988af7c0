/** The response-state wrapper: a decorator around the raw response sink that
    mirrors the last status code and whether a status line was written, so
    that handlers running after the chain can inspect them. gin 0.2b and
    gin 0.3 carry the same code; 0.3 only drops `reset` from the interface. */
module Response {
  import opened Common

  /** The underlying `http.ResponseWriter`, reduced to what is observable:
      every status line forwarded to it, its header map and the bodies
      written to it, in order. */
  datatype Sink = Sink(statusWrites: seq<int>, headers: map<string, Bytes>, body: seq<Value>)

  /** The wrapper's state: the bound sink plus the two mirrored fields. */
  datatype Writer = Writer(sink: Sink, status: int, written: bool)

  /** `reset`: bind a sink and clear both mirrored fields. */
  function Reset(sink: Sink): (w: Writer)
    ensures w.sink == sink
    ensures w.status == 0 && !w.written
  {
    Writer(sink, 0, false)
  }

  /** `setStatus`: change the mirrored status only; nothing reaches the sink. */
  function SetStatus(w: Writer, code: int): (r: Writer)
    ensures r.status == code
    ensures r.written == w.written && r.sink == w.sink
  {
    w.(status := code)
  }

  /** `WriteHeader`: mirror the code, mark the response written and forward
      exactly one status write to the sink, even when one was forwarded before. */
  function WriteHeader(w: Writer, code: int): (r: Writer)
    ensures r.status == code && r.written
    ensures r.sink.statusWrites == w.sink.statusWrites + [code]
    ensures r.sink.headers == w.sink.headers && r.sink.body == w.sink.body
  {
    Writer(w.sink.(statusWrites := w.sink.statusWrites + [code]), code, true)
  }

  /** `Status`: a read of the mirrored status. */
  function Status(w: Writer): int
  {
    w.status
  }

  /** `Written`: a read of the mirrored flag. */
  function Written(w: Writer): bool
  {
    w.written
  }

  /** `Header().Set(name, value)` on the embedded sink. */
  function SetHeader(w: Writer, name: string, value: Bytes): (r: Writer)
    ensures r.sink.headers == w.sink.headers[name := value]
    ensures r.status == w.status && r.written == w.written
    ensures r.sink.statusWrites == w.sink.statusWrites && r.sink.body == w.sink.body
  {
    w.(sink := w.sink.(headers := w.sink.headers[name := value]))
  }

  /** `Write(data)` on the embedded sink; the wrapper does not override it,
      so neither mirrored field changes. */
  function WriteBody(w: Writer, data: Value): (r: Writer)
    ensures r.sink.body == w.sink.body + [data]
    ensures r.status == w.status && r.written == w.written
    ensures r.sink.statusWrites == w.sink.statusWrites && r.sink.headers == w.sink.headers
  {
    w.(sink := w.sink.(body := w.sink.body + [data]))
  }

  /** The calls a handler can make on the wrapper. */
  datatype Call =
    | ResetCall(sink: Sink)
    | SetStatusCall(code: int)
    | WriteHeaderCall(code: int)
    | SetHeaderCall(name: string, value: Bytes)
    | WriteBodyCall(data: Value)

  function Apply(w: Writer, call: Call): Writer
  {
    match call
    case ResetCall(s) => Reset(s)
    case SetStatusCall(code) => SetStatus(w, code)
    case WriteHeaderCall(code) => WriteHeader(w, code)
    case SetHeaderCall(name, value) => SetHeader(w, name, value)
    case WriteBodyCall(data) => WriteBody(w, data)
  }

  /** A sequence of calls, applied left to right. */
  function ApplyAll(w: Writer, calls: seq<Call>): Writer
    decreases |calls|
  {
    if calls == [] then w else ApplyAll(Apply(w, calls[0]), calls[1..])
  }

  /** The status codes among `calls` that are forwarded to the sink. */
  function Forwarded(calls: seq<Call>): seq<int>
    decreases |calls|
  {
    if calls == [] then []
    else (if calls[0].WriteHeaderCall? then [calls[0].code] else []) + Forwarded(calls[1..])
  }

  ghost predicate NoReset(calls: seq<Call>)
  {
    forall k | 0 <= k < |calls| :: !calls[k].ResetCall?
  }

  /** Once `written` is true, only `reset` clears it. */
  lemma {:induction false} WrittenStaysTrue(w: Writer, calls: seq<Call>)
    requires Written(w)
    requires NoReset(calls)
    ensures Written(ApplyAll(w, calls))
    decreases |calls|
  {
    if calls != [] {
      WrittenStaysTrue(Apply(w, calls[0]), calls[1..]);
    }
  }

  /** Without `reset`, the sink receives every forwarded status write in
      order, none suppressed, after those it had already received. */
  lemma {:induction false} EveryWriteHeaderForwarded(w: Writer, calls: seq<Call>)
    requires NoReset(calls)
    ensures ApplyAll(w, calls).sink.statusWrites == w.sink.statusWrites + Forwarded(calls)
    decreases |calls|
  {
    if calls != [] {
      EveryWriteHeaderForwarded(Apply(w, calls[0]), calls[1..]);
    }
  }

  /** Repeated `WriteHeader` calls: `Status()` reports the last code and
      `Written()` is true, whatever came before. */
  lemma {:induction false} StatusIsLastWritten(w: Writer, codes: seq<int>)
    requires codes != []
    ensures var r := ApplyAll(w, seq(|codes|, k requires 0 <= k < |codes| => WriteHeaderCall(codes[k])));
      Status(r) == codes[|codes| - 1] && Written(r)
      && r.sink.statusWrites == w.sink.statusWrites + codes
    decreases |codes|
  {
    var calls := seq(|codes|, k requires 0 <= k < |codes| => WriteHeaderCall(codes[k]));
    var w1 := WriteHeader(w, codes[0]);
    if |codes| == 1 {
      assert calls == [WriteHeaderCall(codes[0])];
      assert ApplyAll(w, calls) == ApplyAll(w1, []);
    } else {
      var rest := codes[1..];
      var restCalls := seq(|rest|, k requires 0 <= k < |rest| => WriteHeaderCall(rest[k]));
      assert calls[1..] == restCalls;
      StatusIsLastWritten(w1, rest);
      assert w1.sink.statusWrites + rest == w.sink.statusWrites + codes;
    }
  }

  /** The state after any calls depends only on the calls since the last
      `reset`: two wrappers in any states, reset onto the same sink and then
      given the same calls, end up equal; right after the reset the wrapper
      is fresh on the new sink. */
  lemma ResetClears(w1: Writer, w2: Writer, sink: Sink, calls: seq<Call>)
    ensures ApplyAll(w1, [ResetCall(sink)] + calls) == ApplyAll(w2, [ResetCall(sink)] + calls)
    ensures var r := Apply(w1, ResetCall(sink));
      Status(r) == 0 && !Written(r) && r.sink == sink
  {
    assert ([ResetCall(sink)] + calls)[1..] == calls;
  }

  /** `setStatus` never makes a response look written, nor unwritten. */
  lemma {:induction false} SetStatusKeepsWritten(w: Writer, codes: seq<int>)
    ensures var r := ApplyAll(w, seq(|codes|, k requires 0 <= k < |codes| => SetStatusCall(codes[k])));
      Written(r) == Written(w) && r.sink == w.sink
      && (codes != [] ==> Status(r) == codes[|codes| - 1])
      && (codes == [] ==> Status(r) == Status(w))
    decreases |codes|
  {
    var calls := seq(|codes|, k requires 0 <= k < |codes| => SetStatusCall(codes[k]));
    if codes != [] {
      var rest := codes[1..];
      var restCalls := seq(|rest|, k requires 0 <= k < |rest| => SetStatusCall(rest[k]));
      assert calls[1..] == restCalls;
      SetStatusKeepsWritten(SetStatus(w, codes[0]), rest);
    }
  }
}
