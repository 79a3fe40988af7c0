# gin dispatch core, modelled in Dafny

This project models the request-dispatch core of the gin web framework. The
model is based on gin 0.1, with the response wrapper of gin 0.2b and 0.3 and
the typed error logger and coloured logger of gin 0.2b.

The parts modelled:

- **Route groups** (`Routing`). `Use`, `Group` and `Handle` compose path
  prefixes and handler lists when routes are registered. A child group takes
  a snapshot of its parent's handlers when it is derived.
- **The per-request context** (`RequestContext`). It holds the response
  wrapper, the lazily created key table, the recorded errors, the handler
  chain and the `int8` cursor into it. The module models `createContext`,
  `Abort`, `Fail`, `Error`, `Set`, `Get`, and the `code >= 0` guard of `JSON`.
- **Running a chain** (`Chain`, `ChainLaws`). A handler is a script of steps.
  A `Next` step inside a script runs the rest of the chain re-entrantly, the
  same way `Context.Next` does. Effects that do not live in the context are
  returned as a list of events:
  - a handler being entered or returning;
  - aborts;
  - reads of the key table;
  - log lines.
- **The middleware** (`Middleware`, `Logging`). This covers:
  - gin 0.1 `ErrorLogger` and `Logger`;
  - gin 0.2b `ErrorLoggerT`, `ErrorLogger` and the coloured `Logger`;
  - `BasicAuth`.
- **Basic-Auth credentials** (`Credentials`, `Base64`). A token is
  `"Basic " + base64(user ":" password)`, following section 2 of RFC 7617
  and section 4 of RFC 4648. The store is the sorted token list, searched
  with a lower-bound search and then one exact comparison.
- **The response-state wrapper** (`Response`): `reset`, `setStatus`,
  `WriteHeader`, `Status` and `Written`. gin 0.2b and gin 0.3 carry the same
  code for these.
- **The cursor overflow** (`CursorOverflow`). The cursor is an `int8`, so a
  chain of 64 handlers that each call `Next` overflows it. See Findings.
- **Serving a registered route** (`Engine`).

Several things the code does are not under the model's control; each is a
parameter:

- the path join;
- the request;
- the response sink;
- the cursor width (`Int8Cursor` as written, `WideCursor` as corrected).

## Model

| member | source | states |
|---|---|---|
| Routing.New | gin-0.1/gin.go:88-107 | A new engine has exactly one group, the root. The root has an empty prefix, no middleware and no parent, and no route is registered yet. |
| Routing.CombineHandlers | gin-0.1/gin.go:257-263 | The combined list is the group's handlers followed by the given ones. Both keep their order and no element is lost. |
| Routing.Use | gin-0.1/gin.go:185-187 | The middleware is appended to that group's own list. Every other group and every registered route is unchanged. |
| Routing.Derive | gin-0.1/gin.go:192-201 | The child's prefix is the parent prefix joined with the component. Its handlers are the parent's followed by the new ones. It records its parent and leaves all existing groups and routes alone. |
| Routing.Handle | gin-0.1/gin.go:214-224 | Exactly one route is appended. Its path is the group prefix joined with the relative path, and its handlers are the group's followed by the route's own. |
| Routing.UseAfterDeriveIsInvisible | gin-0.1/gin.go:185-201 | Middleware added to a parent after a child was derived does not reach the child or any registered route. |
| Routing.ChainRoute | gin-0.1/gin.go:192-224 | For nested groups of any depth, a route gets the prefixes joined root to leaf. Its handlers are every ancestor's middleware, root to leaf, followed by its own. |
| RequestContext.WrapInt8 | gin-0.1/gin.go:274-277 | The result is an `int8` value and congruent to its argument modulo 256, as Go's `int8` arithmetic. |
| RequestContext.Bump | gin-0.1/gin.go:274-277 | `c.index++` adds one below 127. At 127 an `int8` cursor wraps to -128, while a wide cursor keeps counting. |
| RequestContext.Create | gin-0.1/gin.go:172-181 | A fresh context has cursor -1, the route's handlers, the request and the chosen cursor width, no key table, no errors, and a freshly reset wrapper on the sink (status 0, not written). |
| RequestContext.Abort | gin-0.1/gin.go:286-290 | Exactly one status write reaches the sink and the cursor becomes 63. Nothing else in the context changes. |
| RequestContext.RecordError | gin-0.1/gin.go:308-313 | One record is appended after the existing errors, which are kept in order. Nothing else changes. |
| RequestContext.Fail | gin-0.1/gin.go:299-302 | The error is recorded with "Operation aborted" metadata, then the request is aborted with the code. The sink receives exactly that one status write, its body and headers are untouched, and keys, handlers and request are kept. |
| RequestContext.SetKey | gin-0.1/gin.go:322-328 | The table is created on first use. Afterwards the key is bound to the item, every other key keeps its value, and the key set grows by exactly that key. |
| RequestContext.GetKey | gin-0.1/gin.go:333-346 | The lookup succeeds exactly when the table exists, has the key and its value is not nil, and then returns that value. Otherwise it fails with the missing-key panic. |
| RequestContext.SetThenGet | gin-0.1/gin.go:322-346 | Get returns what Set stored, and a stored nil reads as missing. Other keys are unaffected. |
| RequestContext.SetOverwrites | gin-0.1/gin.go:322-328 | A second Set of a key replaces the first entirely. |
| RequestContext.GetBeforeSetPanics | gin-0.1/gin.go:333-338 | Before any Set, every Get panics. |
| RequestContext.Json | gin-0.1/gin.go:377-388 | A negative code leaves the status and the status writes alone; any other code is written once. In both cases the JSON content type is set and the object appended to the body. |
| RequestContext.NegativeCodeKeepsStatus | gin-0.1/gin.go:378-380 | A call with code -1 is invisible to `Status()` and `Written()`. |
| Chain.RunNext | gin-0.1/gin.go:273-280 | `Next` only changes the writer, keys, errors and cursor. On a normal return the cursor is past both where it was and the end of the chain. |
| Chain.RunFrom | gin-0.1/gin.go:275-279 | The loop, started at a negative position, panics with an index out of range. On a normal return the cursor is at or past the chain's end. |
| Chain.Effect | gin-0.1/gin.go:286-346 | A step other than `Next` enters no handler and does not move the cursor. The one exception is an abort, which moves the cursor to 63 and emits that one event. A step panics only on a missing key. |
| Chain.ReportAll | gin-0.1/logger.go:14-23 | With errors recorded, all of them are appended to the body and the status is untouched. With none, nothing changes. |
| Chain.ReportOfType | gin-0.2b/logger.go:16-26 | If any error has a kind in the mask, every recorded error is rendered, including those outside the mask, and the status is untouched. Otherwise nothing changes. |
| Chain.ColouredLine | gin-0.2b/logger.go:48-80 | The line carries the wrapper's final status and that status's colour, then the requester, method and path. |
| Chain.Authenticated | gin-0.1/auth.go:80-91 | If the header matches no token, the challenge header is set and the request fails with 401. That 401 is forwarded to the sink exactly once, the response counts as written, the body is untouched, and one "Unauthorized" error is recorded. If it matches, the user is stored under "user" and nothing else changes. |
| Chain.Dispatch | gin-0.1/gin.go:221-223 | The route closure runs `Next` on a fresh context with the route's handlers and the request. A normal return leaves the cursor past the chain. A route with no handlers produces no event and leaves the wrapper fresh. |
| ChainLaws.DispatchLaws | gin-0.1/gin.go:273-290 | For every chain of at most 64 handlers: handlers are entered in ascending order, each at most once, and none after an abort. Without a panic every entered handler returns. Without an abort every handler runs. With a wide cursor the only panic is a missing key. |
| ChainLaws.OrderNext | gin-0.1/gin.go:273-280 | `Next` enters only handlers after the cursor, in strictly ascending order. |
| ChainLaws.AbortNext | gin-0.1/gin.go:273-290 | No handler is entered after an abort. A normal return after an abort leaves the cursor at or past the sentinel 63. A `Next` from the sentinel or beyond enters nothing. |
| ChainLaws.BalanceNext | gin-0.1/gin.go:273-280 | On a normal return, the handlers entered are exactly those that returned. |
| ChainLaws.CompleteNext | gin-0.1/gin.go:273-280 | Without an abort or a panic, every handler after the cursor is entered. |
| ChainLaws.WideNext | gin-0.1/gin.go:273-280 | With a cursor that cannot overflow, a chain panics only on a missing key. |
| Middleware.BasicAuth | gin-0.1/auth.go:73-79 | An empty list, or an account with an empty user or password, is the construction panic with the source's message. Otherwise the middleware holds one token per account. |
| Middleware.BasicAuthRejects | gin-0.1/auth.go:80-86 | With an unknown header: 401 with the challenge, exactly one error, and no other handler is entered. |
| Middleware.BasicAuthAdmits | gin-0.1/auth.go:86-91 | When no configured user name contains a colon, a configured account's token makes the dispatch bind that account's user under "user", then run the rest of the chain from the next handler. |
| Middleware.BasicAuthAdmitsSomeAccount | gin-0.1/auth.go:81-91 | For any account list, a configured account's token binds under "user" the user of some account with that same token, then runs the rest of the chain from the next handler. |
| Middleware.AroundTheChain | gin-0.1/gin.go:273-280 | A first handler `[Next, tail]` runs the rest of the chain, then its tail on the state the rest left. |
| Middleware.ErrorLoggerRendersAfterChain | gin-0.1/logger.go:14-23 | The rest of the chain runs first. Its errors are then rendered after its body, and its status and status writes stand. |
| Middleware.ErrorLoggerTRendersAll | gin-0.2b/logger.go:12-26 | After the chain, one error of a selected kind makes every error render. With none of a selected kind, the response is untouched. |
| Middleware.PlainLoggerLogsAfterChain | gin-0.1/logger.go:26-43 | After the chain, one line with the request URI, then the error list if any. The response is untouched. |
| Middleware.ColourLoggerReportsFinalStatus | gin-0.2b/logger.go:37-87 | After the chain, one line with the status the chain left and its colour, then the error list if any. The response is untouched. |
| Logging.ByType | gin-0.2b/logger.go:20 | The selection holds exactly the records whose kind shares a bit with the mask. |
| Logging.ByTypeAll | gin-0.2b/logger.go:12-14 | The all-kinds mask selects exactly the records with a non-zero kind. |
| Logging.Requester | gin-0.2b/logger.go:48-58 | The requester is `X-Real-IP` if set, else `X-Forwarded-For` if set, else the socket address. |
| Logging.RequesterEmpty | gin-0.2b/logger.go:48-58 | The requester is empty only when all three sources are. |
| Logging.ColourFor | gin-0.2b/logger.go:60-71 | Green exactly for 2xx, white exactly for 3xx, yellow exactly for 4xx, red for everything else. |
| Logging.ColourByClass | gin-0.2b/logger.go:60-71 | For three-digit codes, the colour depends only on the status class. |
| Credentials.LessIrreflexive | gin-0.1/auth.go:27-29 | The `Pairs` order, Go's byte-wise `<` on strings, never relates a token to itself. |
| Credentials.LessTransitive | gin-0.1/auth.go:27-29 | The `Pairs` order is transitive. |
| Credentials.LessTotal | gin-0.1/auth.go:27-29 | Any two distinct tokens are ordered one way or the other. |
| Credentials.TokenDecodes | gin-0.1/auth.go:41-43 | A token is `"Basic "` followed by base64 text that decodes back to exactly `user:password`. |
| Credentials.SortByCode | gin-0.1/auth.go:48 | The result is sorted ascending by token and is a permutation of the input. |
| Credentials.LowerBound | gin-0.1/auth.go:59 | `sort.Search`: every token before the result is smaller than the presented value, and the token at the result, if any, is not. |
| Credentials.ProcessCredentials | gin-0.1/auth.go:32-50 | An empty list or an empty field is refused with the source's message. Otherwise the result is a sorted permutation of the accounts' encoded pairs. |
| Credentials.SearchCredential | gin-0.1/auth.go:53-69 | An empty header finds nothing. Any user found is stored under exactly that token. A token that is in the store is found. |
| Credentials.LookupRoundTrip | gin-0.1/auth.go:32-69 | If no user name contains a colon, an account's own token finds that account's user. |
| Credentials.LookupFindsMatchingAccount | gin-0.1/auth.go:32-69 | An account's token always finds some user whose account has that same token. |
| Credentials.LookupRejectsUnknown | gin-0.1/auth.go:53-69 | A value that is no configured token finds nothing. |
| Credentials.ColonInUserCollides | gin-0.1/auth.go:38-43 | Because the code never rejects `:` in a user name, the accounts ("a:b", "c") and ("a", "b:c") get the same token although their users differ. |
| Credentials.TokenInjective | gin-0.1/auth.go:41-44 | Equal tokens mean equal `user:password` strings. |
| Base64.DecodeEncode | gin-0.1/auth.go:41-44 | Decoding the standard base64 encoding of any bytes gives those bytes back. |
| Base64.EncodeInjective | gin-0.1/auth.go:41-44 | Different byte strings encode to different strings. |
| Response.Reset | gin-0.2b/response_writer.go:30-34 | The wrapper is bound to the new sink with status 0 and not written. |
| Response.SetStatus | gin-0.2b/response_writer.go:37-39 | Only the mirrored status changes, and nothing reaches the sink. |
| Response.WriteHeader | gin-0.3/response_writer.go:38-42 | The code is mirrored and the response marked written. Exactly one status write is forwarded, even after an earlier one. |
| Response.WrittenStaysTrue | gin-0.2b/response_writer.go:42-56 | Once written, a wrapper stays written under every call but `reset`. |
| Response.EveryWriteHeaderForwarded | gin-0.3/response_writer.go:38-42 | Without `reset`, every `WriteHeader` code reaches the sink, in order, with none suppressed. |
| Response.StatusIsLastWritten | gin-0.3/response_writer.go:38-50 | After repeated `WriteHeader` calls, `Status()` is the last code and `Written()` is true. |
| Response.ResetClears | gin-0.3/response_writer.go:28-32 | Whatever came before, `reset` yields a fresh wrapper on the new sink. Two wrappers in any states, reset onto the same sink and given the same later calls, end up equal. |
| Response.SetStatusKeepsWritten | gin-0.3/response_writer.go:34-36 | `setStatus` never changes whether the response counts as written. |
| CursorOverflow.Int8CursorOverflows | gin-0.1/gin.go:54 | As written: 64 handlers that each call `Next` once end in an index-out-of-range panic at -128. |
| CursorOverflow.Int8CursorUpTo63 | gin-0.1/gin.go:273-280 | As written, up to 63 such handlers complete, and the cursor ends at twice their number. |
| CursorOverflow.WideCursorCompletes | gin-0.1/gin.go:273-280 | Corrected: with a cursor that cannot overflow, every such chain of at most 64 handlers completes. |
| Traces.AbortSkipsLaterHandlers | gin-0.1/gin.go:273-290 | A middleware works around a handler that aborts. The later handler is never entered, while the middleware's code after `Next` still runs. |
| Traces.SetThenGetAcrossHandlers | gin-0.1/gin.go:322-346 | A value one handler stores is read by the next. |
| Traces.GetMissingPanics | gin-0.1/gin.go:333-346 | A `Get` of a key nobody stored panics, and the chain stops there. |
| Engine.Serve | gin-0.1/gin.go:214-224 | The registered closure runs the route's full handler list on a fresh context. |
| Engine.GroupMiddlewareRunsFirst | gin-0.1/gin.go:214-224 | A group's middleware is entered before the route's own handlers. Without an abort or panic, all of them run. |
| Engine.LateUseDoesNotReachChildRoutes | gin-0.1/gin.go:185-224 | Late middleware on a parent changes nothing a route under an already derived child runs. |

## Left out

- **I/O.** Clocks, latency, timestamps and the log format are not modelled. A log line is an event carrying the fields that are decided.
- **The other renderers.** `XML`, `HTML`, `String`, `Data` and JSON encoding errors are not modelled. `JSON` appends the value itself to the body.
- **httprouter.** `Params`, `handle404`, `ServeFiles` and `Run` are not modelled. A route is chosen by its registration position (`Engine.Serve`), not by path matching.
- **`path.Join`.** It is a parameter `join` that is never interpreted.
- Credentials.SortByCode: states only that the result is a sorted permutation. `sort.Sort` is not stable while the insertion sort here is, so the order among equal tokens is not promised.
- Middleware.BasicAuthAdmits: promises the presented account's own user only when no user name contains `:`. Without that, two accounts can share a token (`Credentials.ColonInUserCollides`), and `Middleware.BasicAuthAdmitsSomeAccount` promises only the user of some account with that token.
- **Constant-time comparison.** `searchCredential`'s comparison is modelled as plain equality; only its result is observable.
- **Chains longer than 64 handlers.** Every member's `requires` limits the chain to at most 64 handlers (`MaxHandlers`). Beyond that the abort sentinel 63 no longer stops the chain, and the code does not guard against it.
- **The error kinds.** The values ErrorTypeInternal = 1, ErrorTypeExternal = 2 and ErrorTypeAll = 0xFFFFFFFF, and `ByType` as a bitmask test, come from gin 0.2b's `context.go`, which is not part of this model. gin 0.1's `ErrorMsg` has no kind. `BasicAuth`'s `Fail` records the external kind.
- **Header names.** Request and response header names are written in their canonical form (`X-Real-Ip`, `Www-Authenticate`); MIME canonicalisation itself is not modelled.
- **RequestContext.Create.** It resets the wrapper onto the sink, as the engine of gin 0.2b does. gin 0.1 stores the raw writer.
- **Steps after an abort.** A handler's steps after `Abort` still run, as in the code. `Abort` also moves the cursor back to 63 when it was already past it.
- **Unstated results.** `Response.Status`, `Response.Written`, `Chain.Exec` and `Chain.RunHandler` carry no property of their own beyond the frame. `Chain.Exec` and `Chain.RunHandler` are covered by the `ChainLaws` lemmas.

## Findings

| source | as written | input that shows it | evidently intended | confidence | as-written member | corrected member |
|---|---|---|---|---|---|---|
| gin-0.1/gin.go:54, gin-0.1/gin.go:273-280 | The cursor is an `int8`. Every handler that calls `Next` increments it once more on its way out, so a chain of n such handlers ends at 2n. | 64 handlers whose body is only `c.Next()`. The last increment goes from 127 to -128, and the loop indexes `handlers[-128]`. | Any chain the abort sentinel can stop (at most 64 handlers) completes. | not executed | CursorOverflow.Int8CursorOverflows | CursorOverflow.WideCursorCompletes |
