/** The decisions the logging middleware makes once the chain has run:
    which errors count for a typed error logger, who the requester is, and
    which terminal colour a status gets. Timestamps and latency come from
    the clock and are not modelled. */
module Logging {
  import opened Common

  /** Error kinds of gin 0.2b: bit flags, and the mask that selects all. */
  const ErrorTypeInternal: bv32 := 1
  const ErrorTypeExternal: bv32 := 2
  const ErrorTypeAll: bv32 := 0xFFFF_FFFF

  /** `Errors.ByType(typ)`: the records whose kind shares a bit with `typ`,
      in their recorded order. */
  function ByType(errors: seq<ErrorMsg>, typ: bv32): (r: seq<ErrorMsg>)
    ensures |r| <= |errors|
    ensures forall e | e in r :: e in errors && e.kind & typ != 0
    ensures forall e | e in errors && e.kind & typ != 0 :: e in r
    decreases |errors|
  {
    if errors == [] then []
    else
      var rest := ByType(errors[1..], typ);
      assert forall e | e in errors[1..] :: e in errors;
      if errors[0].kind & typ != 0 then [errors[0]] + rest else rest
  }

  /** Selecting with the all-kinds mask drops exactly the untyped records. */
  lemma {:induction false} ByTypeAll(errors: seq<ErrorMsg>)
    ensures ByType(errors, ErrorTypeAll) == Typed(errors)
    decreases |errors|
  {
    if errors != [] {
      ByTypeAll(errors[1..]);
      assert errors[0].kind & ErrorTypeAll == errors[0].kind;
    }
  }

  /** The records with a non-zero kind, in order. */
  function Typed(errors: seq<ErrorMsg>): seq<ErrorMsg>
    decreases |errors|
  {
    if errors == [] then []
    else (if errors[0].kind != 0 then [errors[0]] else []) + Typed(errors[1..])
  }

  /** `X-Real-IP` if set, else `X-Forwarded-For` if set, else the socket's
      remote address. Header names are taken in canonical form. */
  function Requester(req: Request): (r: Bytes)
    ensures var realIp, forwarded := HeaderGet(req, "X-Real-Ip"), HeaderGet(req, "X-Forwarded-For");
      (|realIp| > 0 ==> r == realIp)
      && (|realIp| == 0 && |forwarded| > 0 ==> r == forwarded)
      && (|realIp| == 0 && |forwarded| == 0 ==> r == req.remoteAddr)
  {
    var requester := HeaderGet(req, "X-Real-Ip");
    var requester := if |requester| == 0 then HeaderGet(req, "X-Forwarded-For") else requester;
    if |requester| == 0 then req.remoteAddr else requester
  }

  /** The requester is empty only when all three sources are. */
  lemma RequesterEmpty(req: Request)
    ensures |Requester(req)| == 0 <==>
      |HeaderGet(req, "X-Real-Ip")| == 0 && |HeaderGet(req, "X-Forwarded-For")| == 0 && |req.remoteAddr| == 0
  {
  }

  /** ANSI escape sequences: white text on green, black on white, white on
      yellow, white on red, and the reset after the status. */
  const Green: Bytes := [27, 91, 57, 55, 59, 52, 50, 109]
  const White: Bytes := [27, 91, 57, 48, 59, 52, 55, 109]
  const Yellow: Bytes := [27, 91, 57, 55, 59, 52, 51, 109]
  const Red: Bytes := [27, 91, 57, 55, 59, 52, 49, 109]
  const ResetColour: Bytes := [27, 91, 48, 109]

  /** The colour of a status: success green, redirect white, client error
      yellow, anything else (server errors, informational, unset) red. */
  function ColourFor(code: int): (colour: Bytes)
    ensures colour == Green <==> 200 <= code <= 299
    ensures colour == White <==> 300 <= code <= 399
    ensures colour == Yellow <==> 400 <= code <= 499
    ensures colour == Red <==> code < 200 || code > 499
  {
    if 200 <= code <= 299 then Green
    else if 300 <= code <= 399 then White
    else if 400 <= code <= 499 then Yellow
    else Red
  }

  /** The status class of section 15 of RFC 9110: the first digit of a
      three-digit code. */
  function StatusClass(code: int): int
    requires 100 <= code <= 999
  {
    code / 100
  }

  /** For three-digit codes the colour depends only on the status class. */
  lemma ColourByClass(a: int, b: int)
    requires 100 <= a <= 999 && 100 <= b <= 999
    requires StatusClass(a) == StatusClass(b)
    ensures ColourFor(a) == ColourFor(b)
  {
  }
}
