/** The middleware of the dispatch core as handler scripts, and what each
    does to a dispatch when it is the first handler of a chain: the
    loggers run the rest of the chain first and then report on the state
    it left; `BasicAuth` either stops the chain with 401 or lets it run
    with the user bound. */
module Middleware {
  import opened Common
  import Response
  import Credentials
  import Logging
  import C = RequestContext
  import opened Chain

  /** gin 0.1 `ErrorLogger()`. */
  const ErrorLogger: Handler := [Next, ReportErrors]

  /** gin 0.2b `ErrorLoggerT(typ)`. */
  function ErrorLoggerT(typ: bv32): Handler
  {
    [Next, ReportErrorsOfType(typ)]
  }

  /** gin 0.2b `ErrorLogger()`: the typed logger for every kind. */
  const ErrorLoggerAll: Handler := ErrorLoggerT(Logging.ErrorTypeAll)

  /** gin 0.1 `Logger()`. */
  const PlainLogger: Handler := [Next, LogRequest]

  /** gin 0.2b `Logger()`. */
  const ColourLogger: Handler := [Next, LogColoured]

  /** `BasicAuth(accounts)`: the credential store is built once, when the
      middleware is created; a malformed account list is the construction
      panic, returned here as the error message. */
  function BasicAuth(accounts: seq<Credentials.Account>): (r: Result<Handler, string>)
    ensures |accounts| == 0 ==> r == Failure(Credentials.EmptyListError)
    ensures r.Success? <==> |accounts| > 0 && forall k | 0 <= k < |accounts| :: Credentials.ValidAccount(accounts[k])
    ensures |accounts| > 0 && r.Failure? ==> r.error == Credentials.EmptyFieldError
    ensures r.Success? ==>
      (|r.value| == 1 && r.value[0].Authenticate? && |r.value[0].store| == |accounts|
       && forall a | a in accounts :: Credentials.EncodePair(a) in r.value[0].store)
  {
    match Credentials.ProcessCredentials(accounts)
    case Failure(e) => Failure(e)
    case Success(ps) =>
      Credentials.StoreEntries(accounts, ps);
      Success([Authenticate(ps)])
  }

  /* ----- a middleware in front of the rest of the chain ----- */

  /** The first handler's cursor: `Next` from a fresh context enters 0. */
  function FirstEntered(handlers: seq<Handler>, request: Request, sink: Response.Sink, width: C.Width): (c: State)
    requires 0 < |handlers| <= C.MaxHandlers
    ensures C.Valid(c) && c.index == 0 && c.handlers == handlers && c.width == width
    ensures c == C.Create(request, sink, handlers, width).(index := 0)
  {
    C.Create(request, sink, handlers, width).(index := 0)
  }

  /** A first handler `[Next, tail]`: the dispatch is the rest of the
      chain, run from the first handler's `Next`, followed by `tail` on the
      state the rest left. The top loop's final increment must not wrap. */
  lemma AroundTheChain(handlers: seq<Handler>, request: Request, sink: Response.Sink, width: C.Width, tail: Step)
    requires 0 < |handlers| <= C.MaxHandlers
    requires handlers[0] == [Next, tail] && !tail.Next?
    ensures var c := FirstEntered(handlers, request, sink, width);
      var inner := RunNext(c);
      var o := Dispatch(handlers, request, sink, width);
      inner.panic.None? ==>
        var after := Exec(inner.ctx, 0, tail);
        (after.panic.None? && (width == C.WideCursor || after.ctx.index < C.MaxInt8) ==>
          o.panic.None? && o.ctx.(index := 0) == after.ctx.(index := 0)
          && o.events == [Enter(0)] + inner.events + after.events + [Leave(0)])
  {
    var c := FirstEntered(handlers, request, sink, width);
    DispatchEntersFirst(handlers, request, sink, width);
    var inner := RunNext(c);
    if inner.panic.None? {
      var after := Exec(inner.ctx, 0, tail);
      if after.panic.None? && (width == C.WideCursor || after.ctx.index < C.MaxInt8) {
        NextThen(c, 0, tail);
        LastTurn(c);
      }
    }
  }

  /** gin 0.1 `ErrorLogger` first: the rest of the chain runs, then every
      recorded error is rendered after the body it wrote, and the status it
      left stands. */
  lemma ErrorLoggerRendersAfterChain(rest: seq<Handler>, request: Request, sink: Response.Sink, width: C.Width)
    requires |rest| < C.MaxHandlers
    ensures var handlers := [ErrorLogger] + rest;
      var inner := RunNext(FirstEntered(handlers, request, sink, width));
      var o := Dispatch(handlers, request, sink, width);
      inner.panic.None? && (width == C.WideCursor || inner.ctx.index < C.MaxInt8) ==>
        o.panic.None? && o.events == [Enter(0)] + inner.events + [Leave(0)]
        && o.ctx.errors == inner.ctx.errors
        && Response.Status(o.ctx.writer) == Response.Status(inner.ctx.writer)
        && o.ctx.writer.sink.statusWrites == inner.ctx.writer.sink.statusWrites
        && (|inner.ctx.errors| > 0 ==> o.ctx.writer.sink.body == inner.ctx.writer.sink.body + [Errors(inner.ctx.errors)])
        && (|inner.ctx.errors| == 0 ==> o.ctx.writer == inner.ctx.writer)
  {
    var handlers := [ErrorLogger] + rest;
    AroundTheChain(handlers, request, sink, width, ReportErrors);
  }

  /** gin 0.2b `ErrorLoggerT(typ)` first: when at least one recorded error
      has a kind in `typ`, all recorded errors are rendered, including
      those of other kinds; otherwise nothing is. */
  lemma ErrorLoggerTRendersAll(typ: bv32, rest: seq<Handler>, request: Request, sink: Response.Sink, width: C.Width)
    requires |rest| < C.MaxHandlers
    ensures var handlers := [ErrorLoggerT(typ)] + rest;
      var inner := RunNext(FirstEntered(handlers, request, sink, width));
      var o := Dispatch(handlers, request, sink, width);
      inner.panic.None? && (width == C.WideCursor || inner.ctx.index < C.MaxInt8) ==>
        o.panic.None? && o.events == [Enter(0)] + inner.events + [Leave(0)]
        && Response.Status(o.ctx.writer) == Response.Status(inner.ctx.writer)
        && ((exists e | e in inner.ctx.errors :: e.kind & typ != 0) ==>
              o.ctx.writer.sink.body == inner.ctx.writer.sink.body + [Errors(inner.ctx.errors)])
        && ((forall e | e in inner.ctx.errors :: e.kind & typ == 0) ==> o.ctx.writer == inner.ctx.writer)
  {
    var handlers := [ErrorLoggerT(typ)] + rest;
    AroundTheChain(handlers, request, sink, width, ReportErrorsOfType(typ));
  }

  /** gin 0.2b `Logger` first: after the rest of the chain, one line with
      the status the rest left and its colour, then the errors if any; the
      response is not touched. */
  lemma ColourLoggerReportsFinalStatus(rest: seq<Handler>, request: Request, sink: Response.Sink, width: C.Width)
    requires |rest| < C.MaxHandlers
    ensures var handlers := [ColourLogger] + rest;
      var inner := RunNext(FirstEntered(handlers, request, sink, width));
      var o := Dispatch(handlers, request, sink, width);
      inner.panic.None? && (width == C.WideCursor || inner.ctx.index < C.MaxInt8) ==>
        var status := Response.Status(inner.ctx.writer);
        o.panic.None? && o.ctx.writer == inner.ctx.writer
        && o.events == [Enter(0)] + inner.events
             + [Logged(Coloured(Logging.ColourFor(status), status, Logging.Requester(request), request.verb, request.path))]
             + ErrorLines(inner.ctx) + [Leave(0)]
  {
    var handlers := [ColourLogger] + rest;
    AroundTheChain(handlers, request, sink, width, LogColoured);
  }

  /** gin 0.1 `Logger` first: after the rest of the chain, one line with
      the request URI, then the errors if any. */
  lemma PlainLoggerLogsAfterChain(rest: seq<Handler>, request: Request, sink: Response.Sink, width: C.Width)
    requires |rest| < C.MaxHandlers
    ensures var handlers := [PlainLogger] + rest;
      var inner := RunNext(FirstEntered(handlers, request, sink, width));
      var o := Dispatch(handlers, request, sink, width);
      inner.panic.None? && (width == C.WideCursor || inner.ctx.index < C.MaxInt8) ==>
        o.panic.None? && o.ctx.writer == inner.ctx.writer && o.ctx.errors == inner.ctx.errors
        && o.events == [Enter(0)] + inner.events + [Logged(Plain(request.uri))] + ErrorLines(inner.ctx) + [Leave(0)]
  {
    var handlers := [PlainLogger] + rest;
    AroundTheChain(handlers, request, sink, width, LogRequest);
  }

  /** The handler `BasicAuth` returns is its one closure over the store
      built from the accounts. */
  lemma BasicAuthHandler(accounts: seq<Credentials.Account>)
    requires BasicAuth(accounts).Success?
    ensures Credentials.ProcessCredentials(accounts).Success?
    ensures BasicAuth(accounts).value == [Authenticate(Credentials.ProcessCredentials(accounts).value)]
  {
  }

  /** The dispatch's first turn starts at handler 0. */
  lemma DispatchEntersFirst(handlers: seq<Handler>, request: Request, sink: Response.Sink, width: C.Width)
    requires 0 < |handlers| <= C.MaxHandlers
    ensures Dispatch(handlers, request, sink, width) == RunFrom(FirstEntered(handlers, request, sink, width))
  {
    assert C.Bump(C.Create(request, sink, handlers, width)) == 0;
  }

  /** The closure as a step of handler `i`: it acts as `Authenticated`. */
  lemma AuthenticateStep(c: State, i: int, store: Credentials.Store)
    requires C.Valid(c) && 0 <= i < |c.handlers| && i <= c.index
    ensures var a := Authenticated(c, store);
      Exec(c, i, Authenticate(store)) == Outcome(a.0, a.1, None)
  {
  }

  /** The closure, with a header no account's token matches, as the only
      step of the first handler. */
  lemma RejectStep(c: State, store: Credentials.Store)
    requires C.Valid(c) && c.index == 0 && 0 < |c.handlers|
    requires Credentials.SearchCredential(store, HeaderGet(c.request, "Authorization")) == []
    ensures RunHandler(c, 0, [Authenticate(store)]) == Outcome(Authenticated(c, store).0, [Aborted(401)], None)
  {
    AuthenticateStep(c, 0, store);
    SingleStep(c, 0, Authenticate(store));
  }

  /** The closure, with the header of an account whose user is `user`. */
  lemma AdmitStep(c: State, store: Credentials.Store, user: Bytes)
    requires C.Valid(c) && c.index == 0 && 0 < |c.handlers|
    requires Credentials.SearchCredential(store, HeaderGet(c.request, "Authorization")) == user && |user| > 0
    ensures RunHandler(c, 0, [Authenticate(store)]) == Outcome(C.SetKey(c, UserKey, Raw(user)), [], None)
  {
    AuthenticateStep(c, 0, store);
    SingleStep(c, 0, Authenticate(store));
  }

  /** A chain headed by the closure over `store`, on a request whose header
      the store does not know. */
  lemma RejectsChain(store: Credentials.Store, rest: seq<Handler>, request: Request, sink: Response.Sink, width: C.Width)
    requires |rest| < C.MaxHandlers
    requires Credentials.SearchCredential(store, HeaderGet(request, "Authorization")) == []
    ensures var o := Dispatch([[Authenticate(store)]] + rest, request, sink, width);
      o.panic.None? && o.events == [Enter(0), Aborted(401), Leave(0)]
      && Response.Status(o.ctx.writer) == 401
      && o.ctx.writer.sink.statusWrites == sink.statusWrites + [401]
      && o.ctx.writer.sink.headers == sink.headers[ChallengeHeader := Challenge]
      && o.ctx.errors == [ErrorMsg("Unauthorized", C.AbortedMeta, Logging.ErrorTypeExternal)]
      && o.ctx.keys.None?
  {
    var handlers := [[Authenticate(store)]] + rest;
    var c := FirstEntered(handlers, request, sink, width);
    DispatchEntersFirst(handlers, request, sink, width);
    RejectStep(c, store);
    LastTurn(c);
  }

  /** A chain headed by the closure over `store`, on a request whose header
      the store maps to `user`. */
  lemma AdmitsChain(store: Credentials.Store, user: Bytes, rest: seq<Handler>, request: Request, sink: Response.Sink, width: C.Width)
    requires |rest| < C.MaxHandlers
    requires Credentials.SearchCredential(store, HeaderGet(request, "Authorization")) == user && |user| > 0
    ensures var handlers := [[Authenticate(store)]] + rest;
      var admitted := C.SetKey(FirstEntered(handlers, request, sink, width), UserKey, Raw(user));
      var after := RunFrom(admitted.(index := 1));
      Dispatch(handlers, request, sink, width) == Outcome(after.ctx, [Enter(0), Leave(0)] + after.events, after.panic)
  {
    var handlers := [[Authenticate(store)]] + rest;
    var c := FirstEntered(handlers, request, sink, width);
    DispatchEntersFirst(handlers, request, sink, width);
    AdmitStep(c, store, user);
    assert C.Bump(C.SetKey(c, UserKey, Raw(user))) == 1;
    Turn(c);
    var after := RunFrom(C.SetKey(c, UserKey, Raw(user)).(index := 1));
    assert [Enter(0)] + [] + [Leave(0)] + after.events == [Enter(0), Leave(0)] + after.events;
  }

  /** `BasicAuth` first, with the token of a configured account, whatever
      the user names: the user bound under `"user"` is that of some account
      with the very same token (it need not be this account's, when user
      names contain `:`), and the chain loop goes on to the next handler. */
  lemma BasicAuthAdmitsSomeAccount(accounts: seq<Credentials.Account>, a: Credentials.Account, rest: seq<Handler>,
                                   request: Request, sink: Response.Sink, width: C.Width)
    requires BasicAuth(accounts).Success? && |rest| < C.MaxHandlers
    requires a in accounts
    requires HeaderGet(request, "Authorization") == Credentials.Token(a)
    ensures Credentials.ProcessCredentials(accounts).Success?
    ensures var user := Credentials.SearchCredential(Credentials.ProcessCredentials(accounts).value, Credentials.Token(a));
      var handlers := [BasicAuth(accounts).value] + rest;
      var admitted := C.SetKey(FirstEntered(handlers, request, sink, width), UserKey, Raw(user));
      var after := RunFrom(admitted.(index := 1));
      (exists b | b in accounts :: Credentials.Token(b) == Credentials.Token(a) && b.user == user)
      && Dispatch(handlers, request, sink, width) == Outcome(after.ctx, [Enter(0), Leave(0)] + after.events, after.panic)
  {
    BasicAuthHandler(accounts);
    var ps := Credentials.ProcessCredentials(accounts).value;
    Credentials.LookupFindsMatchingAccount(accounts, ps, a);
    AdmitsChain(ps, Credentials.SearchCredential(ps, Credentials.Token(a)), rest, request, sink, width);
  }

  /** `BasicAuth` first, with an `Authorization` header that is no
      account's token: 401 with the challenge, one error, and no other
      handler runs. */
  lemma BasicAuthRejects(accounts: seq<Credentials.Account>, rest: seq<Handler>,
                         request: Request, sink: Response.Sink, width: C.Width)
    requires BasicAuth(accounts).Success? && |rest| < C.MaxHandlers
    requires forall a | a in accounts :: Credentials.Token(a) != HeaderGet(request, "Authorization")
    ensures var o := Dispatch([BasicAuth(accounts).value] + rest, request, sink, width);
      o.panic.None? && o.events == [Enter(0), Aborted(401), Leave(0)]
      && Response.Status(o.ctx.writer) == 401
      && o.ctx.writer.sink.statusWrites == sink.statusWrites + [401]
      && o.ctx.writer.sink.headers == sink.headers[ChallengeHeader := Challenge]
      && o.ctx.errors == [ErrorMsg("Unauthorized", C.AbortedMeta, Logging.ErrorTypeExternal)]
      && o.ctx.keys.None?
  {
    BasicAuthHandler(accounts);
    var ps := Credentials.ProcessCredentials(accounts).value;
    Credentials.LookupRejectsUnknown(accounts, ps, HeaderGet(request, "Authorization"));
    RejectsChain(ps, rest, request, sink, width);
  }

  /** `BasicAuth` first, with the token of a configured account (user names
      without `:`): the account's user is bound under `"user"` and the
      chain loop goes on to the next handler; nothing else happens. */
  lemma BasicAuthAdmits(accounts: seq<Credentials.Account>, a: Credentials.Account, rest: seq<Handler>,
                        request: Request, sink: Response.Sink, width: C.Width)
    requires BasicAuth(accounts).Success? && |rest| < C.MaxHandlers
    requires a in accounts && forall b | b in accounts :: Credentials.NoColon(b.user)
    requires HeaderGet(request, "Authorization") == Credentials.Token(a)
    ensures var handlers := [BasicAuth(accounts).value] + rest;
      var admitted := C.SetKey(FirstEntered(handlers, request, sink, width), UserKey, Raw(a.user));
      var after := RunFrom(admitted.(index := 1));
      Dispatch(handlers, request, sink, width) == Outcome(after.ctx, [Enter(0), Leave(0)] + after.events, after.panic)
  {
    BasicAuthHandler(accounts);
    var ps := Credentials.ProcessCredentials(accounts).value;
    Credentials.LookupRoundTrip(accounts, ps, a);
    AdmitsChain(ps, a.user, rest, request, sink, width);
  }
}
