/** Small chains run end to end: the order of events a reader of the
    dispatch code should expect. */
module Traces {
  import opened Common
  import Response
  import C = RequestContext
  import opened Chain
  import Middleware

  /** A middleware that works before and after `Next`, a handler that
      aborts, and a handler behind it. */
  const AbortChain: seq<Handler> := [[Mark(1), Next, Mark(2)], [Abort(401)], [Mark(3)]]

  /** The middleware's `Next` enters the aborting handler, whose abort
      moves the cursor to the sentinel: the loop ends after it. */
  lemma AbortChainInner(c: State)
    requires C.Valid(c) && c.handlers == AbortChain && c.index == 0
    ensures RunNext(c) == Outcome(C.Abort(c.(index := 1), 401).(index := C.AbortIndex + 1),
                                  [Enter(1), Aborted(401), Leave(1)], None)
  {
    var c1 := c.(index := 1);
    assert C.Bump(c) == 1;
    SingleStep(c1, 1, Abort(401));
    assert C.Bump(C.Abort(c1, 401)) == C.AbortIndex + 1;
    LastTurn(c1);
  }

  /** The middleware's whole script: its marks around what `Next` ran. */
  lemma AbortChainFirst(c: State)
    requires C.Valid(c) && c.handlers == AbortChain && c.index == 0
    ensures RunHandler(c, 0, AbortChain[0]) == Outcome(C.Abort(c.(index := 1), 401).(index := C.AbortIndex + 1),
                                                       [Marked(1), Enter(1), Aborted(401), Leave(1), Marked(2)], None)
  {
    AbortChainInner(c);
    NextThen(c, 0, Mark(2));
    assert Exec(c, 0, Mark(1)) == Outcome(c, [Marked(1)], None);
    assert AbortChain[0][1..] == [Next, Mark(2)];
    Prepend(c, 0, AbortChain[0]);
  }

  /** The abort stops the chain but not the rest of the middleware's own
      script, and the third handler is never entered. */
  lemma AbortSkipsLaterHandlers(request: Request, sink: Response.Sink, width: C.Width)
    ensures var o := Dispatch(AbortChain, request, sink, width);
      o.panic.None?
      && o.events == [Enter(0), Marked(1), Enter(1), Aborted(401), Leave(1), Marked(2), Leave(0)]
      && Response.Status(o.ctx.writer) == 401
      && o.ctx.writer.sink.statusWrites == sink.statusWrites + [401]
  {
    var c := Middleware.FirstEntered(AbortChain, request, sink, width);
    Middleware.DispatchEntersFirst(AbortChain, request, sink, width);
    AbortChainFirst(c);
    var past := C.Abort(c.(index := 1), 401).(index := C.AbortIndex + 1);
    assert C.Bump(past) == C.AbortIndex + 2;
    LastTurn(c);
  }

  /** One handler stores a value and passes control on; the next reads it. */
  const StoreChain: seq<Handler> := [[Set("k", Num(1)), Next], [Get("k")]]

  lemma StoreChainInner(c: State)
    requires C.Valid(c) && c.handlers == StoreChain && c.index == 0 && C.GetKey(c, "k") == Success(Num(1))
    ensures RunNext(c) == Outcome(c.(index := 2), [Enter(1), Read("k", Num(1)), Leave(1)], None)
  {
    var c1 := c.(index := 1);
    assert C.Bump(c) == 1;
    SingleStep(c1, 1, Get("k"));
    assert Exec(c1, 1, Get("k")) == Outcome(c1, [Read("k", Num(1))], None);
    LastTurn(c1);
  }

  lemma StoreChainFirst(c: State)
    requires C.Valid(c) && c.handlers == StoreChain && c.index == 0
    ensures RunHandler(c, 0, StoreChain[0]) == Outcome(C.SetKey(c, "k", Num(1)).(index := 2),
                                                       [Enter(1), Read("k", Num(1)), Leave(1)], None)
  {
    var stored := C.SetKey(c, "k", Num(1));
    C.SetThenGet(c, "k", Num(1), "");
    StoreChainInner(stored);
    SingleStep(stored, 0, Next);
    assert StoreChain[0][1..] == [Next];
    assert Exec(c, 0, Set("k", Num(1))) == Outcome(stored, [], None);
    Prepend(c, 0, StoreChain[0]);
    assert [] + [Enter(1), Read("k", Num(1)), Leave(1)] == [Enter(1), Read("k", Num(1)), Leave(1)];
  }

  /** A value stored by one handler is read by a later one. */
  lemma SetThenGetAcrossHandlers(request: Request, sink: Response.Sink, width: C.Width)
    ensures var o := Dispatch(StoreChain, request, sink, width);
      o.panic.None? && o.events == [Enter(0), Enter(1), Read("k", Num(1)), Leave(1), Leave(0)]
  {
    var c := Middleware.FirstEntered(StoreChain, request, sink, width);
    Middleware.DispatchEntersFirst(StoreChain, request, sink, width);
    StoreChainFirst(c);
    assert C.Bump(C.SetKey(c, "k", Num(1)).(index := 2)) == 3;
    LastTurn(c);
  }

  /** `Get` of a key nobody stored panics, and the chain stops there. */
  lemma GetMissingPanics(request: Request, sink: Response.Sink, width: C.Width)
    ensures var o := Dispatch([[Get("absent"), Mark(1)], [Mark(2)]], request, sink, width);
      o.panic == Some(C.MissingKey("absent")) && o.events == [Enter(0)]
  {
    var hs: seq<Handler> := [[Get("absent"), Mark(1)], [Mark(2)]];
    var start := C.Create(request, sink, hs, width);
    assert C.Bump(start) == 0;
    var c0 := start.(index := 0);
    assert Exec(c0, 0, Get("absent")) == Outcome(c0, [], Some(C.MissingKey("absent")));
    assert RunFrom(c0) == Outcome(c0, [Enter(0)] + [], Some(C.MissingKey("absent")));
    assert Dispatch(hs, request, sink, width) == RunFrom(c0);
  }
}
