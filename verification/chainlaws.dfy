/** What running a chain guarantees, for every chain of at most 64
    handlers and both cursor widths: handlers are entered in ascending
    order, each at most once; nothing is entered after an abort; every
    handler entered on a run that did not panic also returned. Each property
    is proved by one family of mutually recursive lemmas that follows the
    interpreter's own recursion. */
module ChainLaws {
  import opened Common
  import opened Chain
  import Credentials
  import C = RequestContext

  /* ----- event vocabulary ----- */

  /** Every handler entered in `es` has a position in `[lo, hi)`. */
  ghost predicate EntersWithin(es: seq<Event>, lo: int, hi: int)
  {
    forall p | 0 <= p < |es| && es[p].Enter? :: lo <= es[p].index < hi
  }

  /** Handlers are entered in strictly ascending order, so none twice. */
  ghost predicate EntersIncreasing(es: seq<Event>)
  {
    forall p, q | 0 <= p < q < |es| && es[p].Enter? && es[q].Enter? :: es[p].index < es[q].index
  }

  ghost predicate NoEnter(es: seq<Event>)
  {
    forall p | 0 <= p < |es| :: !es[p].Enter?
  }

  ghost predicate HasAbort(es: seq<Event>)
  {
    exists p | 0 <= p < |es| :: es[p].Aborted?
  }

  /** No handler is entered after an `Abort` or `Fail`. */
  ghost predicate NoEnterAfterAbort(es: seq<Event>)
  {
    forall p, q | 0 <= p < q < |es| && es[p].Aborted? :: !es[q].Enter?
  }

  /** The handlers entered, and those that returned. */
  function Entered(es: seq<Event>): set<int>
    decreases |es|
  {
    if es == [] then {} else (if es[0].Enter? then {es[0].index} else {}) + Entered(es[1..])
  }

  function Left(es: seq<Event>): set<int>
    decreases |es|
  {
    if es == [] then {} else (if es[0].Leave? then {es[0].index} else {}) + Left(es[1..])
  }

  lemma {:induction false} EnteredLeftConcat(a: seq<Event>, b: seq<Event>)
    ensures Entered(a + b) == Entered(a) + Entered(b)
    ensures Left(a + b) == Left(a) + Left(b)
    decreases |a|
  {
    if a == [] {
      assert a + b == b;
    } else {
      assert (a + b)[0] == a[0] && (a + b)[1..] == a[1..] + b;
      EnteredLeftConcat(a[1..], b);
    }
  }

  /** Events without `Enter` and `Leave` contribute to neither set. */
  lemma {:induction false} QuietEvents(es: seq<Event>)
    requires forall p | 0 <= p < |es| :: !es[p].Enter? && !es[p].Leave?
    ensures Entered(es) == {} && Left(es) == {}
    decreases |es|
  {
    if es != [] {
      QuietEvents(es[1..]);
    }
  }

  lemma OrderConcat(a: seq<Event>, b: seq<Event>, lo: int, mid: int, hi: int)
    requires EntersIncreasing(a) && EntersIncreasing(b)
    requires EntersWithin(a, lo, mid) && EntersWithin(a, lo, hi)
    requires EntersWithin(b, mid, hi) && EntersWithin(b, lo, hi)
    ensures EntersIncreasing(a + b) && EntersWithin(a + b, lo, hi)
  {
    var ab := a + b;
    forall p, q | 0 <= p < q < |ab| && ab[p].Enter? && ab[q].Enter?
      ensures ab[p].index < ab[q].index
    {
      if q < |a| {
        assert ab[p] == a[p] && ab[q] == a[q];
      } else if p < |a| {
        assert ab[p] == a[p] && ab[q] == b[q - |a|];
      } else {
        assert ab[p] == b[p - |a|] && ab[q] == b[q - |a|];
      }
    }
    forall p | 0 <= p < |ab| && ab[p].Enter? ensures lo <= ab[p].index < hi
    {
      if p < |a| { assert ab[p] == a[p]; } else { assert ab[p] == b[p - |a|]; }
    }
  }

  lemma AbortConcat(a: seq<Event>, b: seq<Event>)
    requires NoEnterAfterAbort(a) && NoEnterAfterAbort(b)
    requires HasAbort(a) ==> NoEnter(b)
    ensures NoEnterAfterAbort(a + b)
    ensures HasAbort(a + b) ==> HasAbort(a) || HasAbort(b)
    ensures NoEnter(a) && NoEnter(b) ==> NoEnter(a + b)
  {
    var ab := a + b;
    forall p, q | 0 <= p < q < |ab| && ab[p].Aborted? ensures !ab[q].Enter?
    {
      if q < |a| {
        assert ab[p] == a[p] && ab[q] == a[q];
      } else if p < |a| {
        assert ab[p] == a[p] && ab[q] == b[q - |a|];
      } else {
        assert ab[p] == b[p - |a|] && ab[q] == b[q - |a|];
      }
    }
    if HasAbort(ab) {
      var p :| 0 <= p < |ab| && ab[p].Aborted?;
      if p < |a| { assert a[p] == ab[p]; } else { assert b[p - |a|] == ab[p]; }
    }
    if NoEnter(a) && NoEnter(b) {
      forall p | 0 <= p < |ab| ensures !ab[p].Enter?
      {
        if p < |a| { assert ab[p] == a[p]; } else { assert ab[p] == b[p - |a|]; }
      }
    }
  }

  /* ----- ordering: ascending, each handler at most once ----- */

  /** `Next` enters only handlers after the cursor, in ascending order. */
  lemma {:induction false} OrderNext(c: State)
    requires C.Valid(c)
    ensures EntersWithin(RunNext(c).events, c.index + 1, |c.handlers|)
    ensures EntersIncreasing(RunNext(c).events)
    decreases NextRank(c.index), 1, 0
  {
    OrderFrom(c.(index := C.Bump(c)));
  }

  lemma {:induction false} OrderFrom(c: State)
    requires C.Valid(c)
    ensures EntersWithin(RunFrom(c).events, c.index, |c.handlers|)
    ensures EntersIncreasing(RunFrom(c).events)
    decreases LoopRank(c.index), 3, 0
  {
    if 0 <= c.index < |c.handlers| {
      var i := c.index;
      var o := RunHandler(c, i, c.handlers[i]);
      OrderHandler(c, i, c.handlers[i]);
      if o.panic.None? {
        var c2 := o.ctx.(index := C.Bump(o.ctx));
        OrderFrom(c2);
        OrderLoopTurn(i, o.events, RunFrom(c2).events, o.ctx.index, c2.index, |c.handlers|);
      } else {
        OrderConcat([Enter(i)], o.events, i, i + 1, |c.handlers|);
      }
    }
  }

  /** One turn of the loop: `Enter(i)`, handler `i`'s events up to cursor
      `m`, `Leave(i)`, then the rest of the loop from cursor `next`. */
  lemma OrderLoopTurn(i: int, run: seq<Event>, rest: seq<Event>, m: int, next: int, n: int)
    requires 0 <= i <= m && i < n && EntersIncreasing(run) && EntersWithin(run, i + 1, n) && EntersWithin(run, i + 1, m + 1)
    requires EntersIncreasing(rest) && EntersWithin(rest, next, n)
    requires next == m + 1 || rest == []
    ensures var es := [Enter(i)] + run + [Leave(i)] + rest;
      EntersIncreasing(es) && EntersWithin(es, i, n)
  {
    var head := [Enter(i)];
    OrderConcat(head, run, i, i + 1, n);
    OrderConcat(head, run, i, i + 1, m + 1);
    OrderConcat(head + run, [Leave(i)], i, m + 1, n);
    OrderConcat(head + run + [Leave(i)], rest, i, m + 1, n);
  }

  /** A handler's steps enter handlers after the cursor it saw, in
      ascending order, and, if it returns, none beyond the cursor it leaves. */
  lemma {:induction false} OrderHandler(c: State, i: int, steps: seq<Step>)
    requires C.Valid(c) && 0 <= i < |c.handlers| && i <= c.index
    ensures var o := RunHandler(c, i, steps);
      EntersWithin(o.events, c.index + 1, |c.handlers|) && EntersIncreasing(o.events)
      && (o.panic.None? ==> EntersWithin(o.events, c.index + 1, o.ctx.index + 1))
    decreases 128 - i, 2, |steps|
  {
    if steps != [] {
      var o := Exec(c, i, steps[0]);
      OrderExec(c, i, steps[0]);
      if o.panic.None? {
        var o2 := RunHandler(o.ctx, i, steps[1..]);
        OrderHandler(o.ctx, i, steps[1..]);
        OrderSeqStep(o.events, o2.events, c.index + 1, o.ctx.index, o2.ctx.index, |c.handlers|);
      }
    }
  }

  /** Two consecutive runs of steps: the second enters only beyond the
      cursor the first left at `m1`; if it leaves the cursor at `m2`, no
      earlier than `m1` or past the chain, the whole enters nothing beyond. */
  lemma OrderSeqStep(a: seq<Event>, b: seq<Event>, lo: int, m1: int, m2: int, n: int)
    requires EntersIncreasing(a) && EntersWithin(a, lo, n) && EntersWithin(a, lo, m1 + 1)
    requires EntersIncreasing(b) && EntersWithin(b, m1 + 1, n)
    requires lo <= m1 + 1 || n <= m1 + 1
    ensures EntersIncreasing(a + b) && EntersWithin(a + b, lo, n)
    ensures EntersWithin(b, m1 + 1, m2 + 1) && (m2 >= m1 || n <= m2 + 1) ==> EntersWithin(a + b, lo, m2 + 1)
  {
    OrderConcat(a, b, lo, m1 + 1, n);
    if EntersWithin(b, m1 + 1, m2 + 1) {
      if m2 >= m1 {
        OrderConcat(a, b, lo, m1 + 1, m2 + 1);
      }
    }
  }

  lemma {:induction false} OrderExec(c: State, i: int, step: Step)
    requires C.Valid(c) && 0 <= i < |c.handlers| && i <= c.index
    ensures var o := Exec(c, i, step);
      EntersWithin(o.events, c.index + 1, |c.handlers|) && EntersIncreasing(o.events)
      && (o.panic.None? ==> EntersWithin(o.events, c.index + 1, o.ctx.index + 1))
    decreases 128 - i, 2, 0
  {
    if step.Next? {
      OrderNext(c);
    }
  }

  /* ----- abort: nothing entered afterwards ----- */

  /** After an abort in a run that returns, the cursor is at or past the
      sentinel, and from there `Next` enters nothing. */
  lemma {:induction false} AbortNext(c: State)
    requires C.Valid(c)
    ensures var o := RunNext(c);
      NoEnterAfterAbort(o.events)
      && (o.panic.None? && HasAbort(o.events) ==> o.ctx.index >= C.AbortIndex)
      && (c.index >= C.AbortIndex ==> o.events == [])
    decreases NextRank(c.index), 1, 0
  {
    AbortFrom(c.(index := C.Bump(c)));
  }

  lemma {:induction false} AbortFrom(c: State)
    requires C.Valid(c)
    ensures var o := RunFrom(c);
      NoEnterAfterAbort(o.events)
      && (o.panic.None? && HasAbort(o.events) ==> o.ctx.index >= C.AbortIndex)
      && (c.index >= C.MaxHandlers ==> o.events == [])
    decreases LoopRank(c.index), 3, 0
  {
    if 0 <= c.index < |c.handlers| {
      var i := c.index;
      var o := RunHandler(c, i, c.handlers[i]);
      AbortHandler(c, i, c.handlers[i]);
      var head := [Enter(i)];
      assert !HasAbort(head) && NoEnterAfterAbort(head);
      AbortConcat(head, o.events);
      if o.panic.None? {
        var c2 := o.ctx.(index := C.Bump(o.ctx));
        var o2 := RunFrom(c2);
        AbortFrom(c2);
        assert !HasAbort([Leave(i)]) && NoEnter([Leave(i)]);
        AbortConcat(head + o.events, [Leave(i)]);
        AbortConcat(head + o.events + [Leave(i)], o2.events);
      }
    }
  }

  lemma {:induction false} AbortHandler(c: State, i: int, steps: seq<Step>)
    requires C.Valid(c) && 0 <= i < |c.handlers| && i <= c.index
    ensures var o := RunHandler(c, i, steps);
      NoEnterAfterAbort(o.events)
      && (o.panic.None? && HasAbort(o.events) ==> o.ctx.index >= C.AbortIndex)
      && (c.index >= C.AbortIndex ==> NoEnter(o.events) && (o.panic.None? ==> o.ctx.index >= C.AbortIndex))
    decreases 128 - i, 2, |steps|
  {
    if steps != [] {
      var o := Exec(c, i, steps[0]);
      AbortExec(c, i, steps[0]);
      if o.panic.None? {
        var o2 := RunHandler(o.ctx, i, steps[1..]);
        AbortHandler(o.ctx, i, steps[1..]);
        AbortConcat(o.events, o2.events);
      }
    }
  }

  lemma {:induction false} AbortExec(c: State, i: int, step: Step)
    requires C.Valid(c) && 0 <= i < |c.handlers| && i <= c.index
    ensures var o := Exec(c, i, step);
      NoEnterAfterAbort(o.events)
      && (o.panic.None? && HasAbort(o.events) ==> o.ctx.index >= C.AbortIndex)
      && (c.index >= C.AbortIndex ==> NoEnter(o.events) && (o.panic.None? ==> o.ctx.index >= C.AbortIndex))
    decreases 128 - i, 2, 0
  {
    if step.Next? {
      AbortNext(c);
    }
  }

  /* ----- balance: every handler entered also returns ----- */

  lemma {:induction false} BalanceNext(c: State)
    requires C.Valid(c)
    ensures var o := RunNext(c);
      o.panic.None? ==> Entered(o.events) == Left(o.events)
    decreases NextRank(c.index), 1, 0
  {
    BalanceFrom(c.(index := C.Bump(c)));
  }

  lemma {:induction false} BalanceFrom(c: State)
    requires C.Valid(c)
    ensures var o := RunFrom(c);
      o.panic.None? ==> Entered(o.events) == Left(o.events)
    decreases LoopRank(c.index), 3, 0
  {
    if 0 <= c.index < |c.handlers| {
      var i := c.index;
      var o := RunHandler(c, i, c.handlers[i]);
      if o.panic.None? {
        BalanceHandler(c, i, c.handlers[i]);
        var o2 := RunFrom(o.ctx.(index := C.Bump(o.ctx)));
        BalanceFrom(o.ctx.(index := C.Bump(o.ctx)));
        if o2.panic.None? {
          BalanceLoopTurn(i, o.events, o2.events);
        }
      }
    } else {
      assert RunFrom(c).events == [];
    }
  }

  /** Bracketing a balanced run between `Enter(i)` and `Leave(i)` and
      following it with a balanced rest keeps the whole balanced. */
  lemma BalanceLoopTurn(i: int, run: seq<Event>, rest: seq<Event>)
    requires Entered(run) == Left(run) && Entered(rest) == Left(rest)
    ensures Entered([Enter(i)] + run + [Leave(i)] + rest) == Left([Enter(i)] + run + [Leave(i)] + rest)
  {
    EnteredLeftConcat([Enter(i)], run);
    EnteredLeftConcat([Enter(i)] + run, [Leave(i)]);
    EnteredLeftConcat([Enter(i)] + run + [Leave(i)], rest);
    assert Entered([Leave(i)]) == {} && Left([Enter(i)]) == {};
  }

  lemma {:induction false} BalanceHandler(c: State, i: int, steps: seq<Step>)
    requires C.Valid(c) && 0 <= i < |c.handlers| && i <= c.index
    ensures var o := RunHandler(c, i, steps);
      o.panic.None? ==> Entered(o.events) == Left(o.events)
    decreases 128 - i, 2, |steps|
  {
    if steps != [] {
      var o := Exec(c, i, steps[0]);
      if o.panic.None? {
        BalanceExec(c, i, steps[0]);
        var o2 := RunHandler(o.ctx, i, steps[1..]);
        BalanceHandler(o.ctx, i, steps[1..]);
        EnteredLeftConcat(o.events, o2.events);
      }
    }
  }

  lemma {:induction false} BalanceExec(c: State, i: int, step: Step)
    requires C.Valid(c) && 0 <= i < |c.handlers| && i <= c.index
    ensures var o := Exec(c, i, step);
      o.panic.None? ==> Entered(o.events) == Left(o.events)
    decreases 128 - i, 2, 0
  {
    if step.Next? {
      BalanceNext(c);
    } else {
      QuietEvents(Exec(c, i, step).events);
    }
  }

  /* ----- the wide cursor never leaves the slice ----- */

  /** With a cursor that cannot overflow, the only panic is a `Get` of a
      missing key: the chain never indexes its slice out of range. */
  lemma {:induction false} WideNext(c: State)
    requires C.Valid(c) && c.width == C.WideCursor && c.index >= -1
    ensures RunNext(c).panic.Some? ==> RunNext(c).panic.value.MissingKey?
    decreases NextRank(c.index), 1, 0
  {
    WideFrom(c.(index := C.Bump(c)));
  }

  lemma {:induction false} WideFrom(c: State)
    requires C.Valid(c) && c.width == C.WideCursor && c.index >= 0
    ensures RunFrom(c).panic.Some? ==> RunFrom(c).panic.value.MissingKey?
    decreases LoopRank(c.index), 3, 0
  {
    if c.index < |c.handlers| {
      var i := c.index;
      var o := RunHandler(c, i, c.handlers[i]);
      WideHandler(c, i, c.handlers[i]);
      if o.panic.None? {
        WideFrom(o.ctx.(index := C.Bump(o.ctx)));
      }
    }
  }

  lemma {:induction false} WideHandler(c: State, i: int, steps: seq<Step>)
    requires C.Valid(c) && c.width == C.WideCursor && 0 <= i < |c.handlers| && i <= c.index
    ensures RunHandler(c, i, steps).panic.Some? ==> RunHandler(c, i, steps).panic.value.MissingKey?
    decreases 128 - i, 2, |steps|
  {
    if steps != [] {
      var o := Exec(c, i, steps[0]);
      WideExec(c, i, steps[0]);
      if o.panic.None? {
        WideHandler(o.ctx, i, steps[1..]);
      }
    }
  }

  lemma {:induction false} WideExec(c: State, i: int, step: Step)
    requires C.Valid(c) && c.width == C.WideCursor && 0 <= i < |c.handlers| && i <= c.index
    ensures Exec(c, i, step).panic.Some? ==> Exec(c, i, step).panic.value.MissingKey?
    decreases 128 - i, 2, 0
  {
    if step.Next? {
      WideNext(c);
    }
  }

  /* ----- completeness: without an abort every later handler runs ----- */

  /** Every position in `[lo, hi)` was entered. */
  ghost predicate Covers(es: seq<Event>, lo: int, hi: int)
  {
    forall k | lo <= k < hi :: k in Entered(es)
  }

  lemma {:induction false} CompleteNext(c: State)
    requires C.Valid(c)
    ensures var o := RunNext(c);
      o.panic.None? && !HasAbort(o.events) ==> Covers(o.events, c.index + 1, |c.handlers|)
    decreases NextRank(c.index), 1, 0
  {
    CompleteFrom(c.(index := C.Bump(c)));
  }

  lemma {:induction false} CompleteFrom(c: State)
    requires C.Valid(c)
    ensures var o := RunFrom(c);
      o.panic.None? && !HasAbort(o.events) ==> Covers(o.events, c.index, |c.handlers|)
    decreases LoopRank(c.index), 3, 0
  {
    if 0 <= c.index < |c.handlers| {
      var i := c.index;
      var run := RunHandler(c, i, c.handlers[i]);
      if run.panic.None? {
        CompleteHandler(c, i, c.handlers[i]);
        var c2 := run.ctx.(index := C.Bump(run.ctx));
        var rest := RunFrom(c2);
        CompleteFrom(c2);
        if rest.panic.None? {
          CoverLoopTurn(i, run.events, rest.events, run.ctx.index, c2.index, |c.handlers|);
        }
      }
    }
  }

  /** One turn of the loop: handler `i`'s events, bracketed, then the rest
      of the loop. If the turn does not abort, neither part does, and it
      covers from `i` on. */
  lemma CoverLoopTurn(i: int, run: seq<Event>, rest: seq<Event>, m: int, next: int, n: int)
    requires !HasAbort(run) ==> forall k | i < k < n && k <= m :: k in Entered(run)
    requires !HasAbort(rest) ==> Covers(rest, next, n)
    requires next <= m + 1
    ensures !HasAbort([Enter(i)] + run + [Leave(i)] + rest) ==> Covers([Enter(i)] + run + [Leave(i)] + rest, i, n)
  {
    var head := [Enter(i)] + run + [Leave(i)];
    var es := head + rest;
    if !HasAbort(es) {
      forall p | 0 <= p < |run| ensures !run[p].Aborted?
      {
        assert es[1 + p] == run[p];
      }
      forall p | 0 <= p < |rest| ensures !rest[p].Aborted?
      {
        assert es[|head| + p] == rest[p];
      }
      EnteredLeftConcat([Enter(i)], run);
      EnteredLeftConcat([Enter(i)] + run, [Leave(i)]);
      EnteredLeftConcat(head, rest);
      assert Entered([Enter(i)]) == {i};
    }
  }

  /** A handler that does not abort leaves the cursor where it was or
      further on, and every position it moved over was entered. */
  lemma {:induction false} CompleteHandler(c: State, i: int, steps: seq<Step>)
    requires C.Valid(c) && 0 <= i < |c.handlers| && i <= c.index
    ensures var o := RunHandler(c, i, steps);
      o.panic.None? && !HasAbort(o.events) ==>
        o.ctx.index >= c.index
        && forall k | c.index < k < |c.handlers| && k <= o.ctx.index :: k in Entered(o.events)
    decreases 128 - i, 2, |steps|
  {
    var o := RunHandler(c, i, steps);
    if steps != [] && o.panic.None? && !HasAbort(o.events) {
      var o1 := Exec(c, i, steps[0]);
      CompleteExec(c, i, steps[0]);
      var o2 := RunHandler(o1.ctx, i, steps[1..]);
      CompleteHandler(o1.ctx, i, steps[1..]);
      assert o.events == o1.events + o2.events;
      forall p | 0 <= p < |o1.events| ensures !o1.events[p].Aborted?
      {
        assert o.events[p] == o1.events[p];
      }
      forall p | 0 <= p < |o2.events| ensures !o2.events[p].Aborted?
      {
        assert o.events[|o1.events| + p] == o2.events[p];
      }
      EnteredLeftConcat(o1.events, o2.events);
    }
  }

  lemma {:induction false} CompleteExec(c: State, i: int, step: Step)
    requires C.Valid(c) && 0 <= i < |c.handlers| && i <= c.index
    ensures var o := Exec(c, i, step);
      o.panic.None? && !HasAbort(o.events) ==>
        o.ctx.index >= c.index
        && forall k | c.index < k < |c.handlers| && k <= o.ctx.index :: k in Entered(o.events)
    decreases 128 - i, 2, 0
  {
    var o := Exec(c, i, step);
    match step
    case Next => CompleteNext(c);
    case Abort(_) => assert o.events[0].Aborted?;
    case Fail(_, _, _) => assert o.events[0].Aborted?;
    case Authenticate(store) =>
      var user := Credentials.SearchCredential(store, HeaderGet(c.request, "Authorization"));
      if |user| == 0 {
        assert o.events[0].Aborted?;
      }
    case _ =>
  }

  /* ----- a whole dispatch ----- */

  /** For any chain of at most 64 handlers: handlers are entered in
      ascending order, each at most once; none is entered after an abort;
      on a run without panic every entered handler returned, and without
      an abort every handler was entered; with a wide cursor the only
      panic is a missing key. */
  lemma DispatchLaws(handlers: seq<Handler>, request: Request, sink: Response.Sink, width: C.Width)
    requires |handlers| <= C.MaxHandlers
    ensures var o := Dispatch(handlers, request, sink, width);
      EntersWithin(o.events, 0, |handlers|) && EntersIncreasing(o.events)
      && NoEnterAfterAbort(o.events)
      && (o.panic.None? ==> Entered(o.events) == Left(o.events))
      && (o.panic.None? && !HasAbort(o.events) ==> Covers(o.events, 0, |handlers|))
      && (width == C.WideCursor && o.panic.Some? ==> o.panic.value.MissingKey?)
  {
    var c := C.Create(request, sink, handlers, width);
    OrderNext(c);
    AbortNext(c);
    BalanceNext(c);
    CompleteNext(c);
    if width == C.WideCursor {
      WideNext(c);
    }
  }
}
