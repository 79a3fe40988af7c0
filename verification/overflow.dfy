/** The cursor of `Context` is an `int8`. Every handler whose nested `Next`
    returns costs one more loop increment on the way out, so a chain of 64
    handlers that each call `Next` once drives the cursor to 127 inside the
    first handler; the top loop's increment wraps it to -128, which is
    below the chain length, and the loop indexes the handler slice at -128.
    A cursor that cannot overflow runs the same chain to completion. */
module CursorOverflow {
  import opened Common
  import Response
  import C = RequestContext
  import opened Chain

  /** `n` handlers that each only pass control on. */
  function Forwarders(n: nat): (hs: seq<Handler>)
    ensures |hs| == n
    ensures forall k | 0 <= k < n :: hs[k] == [Next]
  {
    seq(n, _ => [Next])
  }

  /** From cursor `j - 1`, `Next` over `n` forwarders returns with the
      cursor at `2n - j`: `n - j` handlers entered and `n - j` increments
      on the way out, provided no increment wraps. */
  lemma {:induction false} ForwardersReach(c: State, n: nat, j: int)
    requires C.Valid(c) && c.handlers == Forwarders(n) && 0 <= j <= n && c.index == j - 1
    requires c.width == C.WideCursor || 2 * n - j <= C.MaxInt8
    ensures RunNext(c).panic.None? && RunNext(c).ctx.index == 2 * n - j
    decreases n - j
  {
    var c1 := c.(index := C.Bump(c));
    assert c1.index == j;
    if j < n {
      ForwardersReach(c1, n, j + 1);
      var inner := RunNext(c1);
      assert c1.handlers[j] == [Next];
      assert [Next][1..] == [];
      assert RunHandler(inner.ctx, j, []) == Outcome(inner.ctx, [], None);
      assert RunHandler(c1, j, [Next]) == Outcome(inner.ctx, inner.events + [], None);
      var c2 := inner.ctx.(index := C.Bump(inner.ctx));
      assert c2.index == 2 * n - j;
      assert RunFrom(c2) == Outcome(c2, [], None);
    }
  }

  /** As written: 64 forwarders with the `int8` cursor panic with an index
      out of range at -128. */
  lemma Int8CursorOverflows(request: Request, sink: Response.Sink)
    ensures Dispatch(Forwarders(64), request, sink, C.Int8Cursor).panic == Some(C.IndexOutOfRange(-128))
  {
    var hs := Forwarders(64);
    var start := C.Create(request, sink, hs, C.Int8Cursor);
    var c0 := start.(index := 0);
    assert C.Bump(start) == 0;
    ForwardersReach(c0, 64, 1);
    var inner := RunNext(c0);
    assert [Next][1..] == [];
    assert RunHandler(inner.ctx, 0, []) == Outcome(inner.ctx, [], None);
    assert RunHandler(c0, 0, [Next]) == Outcome(inner.ctx, inner.events + [], None);
    var c2 := inner.ctx.(index := C.Bump(inner.ctx));
    assert c2.index == -128;
    assert RunFrom(c2).panic == Some(C.IndexOutOfRange(-128));
    assert c0.handlers[0] == [Next];
    assert RunFrom(c0).panic == RunFrom(c2).panic;
    assert Dispatch(hs, request, sink, C.Int8Cursor) == RunFrom(c0);
  }

  /** As written, one forwarder fewer is fine: up to 63 forwarders complete
      with the `int8` cursor, ending at `2n`. */
  lemma Int8CursorUpTo63(n: nat, request: Request, sink: Response.Sink)
    requires n <= 63
    ensures var o := Dispatch(Forwarders(n), request, sink, C.Int8Cursor);
      o.panic.None? && o.ctx.index == 2 * n
  {
    ForwardersReach(C.Create(request, sink, Forwarders(n), C.Int8Cursor), n, 0);
  }

  /** Corrected: with a cursor that cannot overflow, every forwarder chain
      the abort sentinel admits completes, ending at `2n`. */
  lemma WideCursorCompletes(n: nat, request: Request, sink: Response.Sink)
    requires n <= C.MaxHandlers
    ensures var o := Dispatch(Forwarders(n), request, sink, C.WideCursor);
      o.panic.None? && o.ctx.index == 2 * n
  {
    ForwardersReach(C.Create(request, sink, Forwarders(n), C.WideCursor), n, 0);
  }
}
