/** Serving a registered route: the closure `Handle` registers creates a
    fresh context over the route's combined handler list and calls `Next`.
    Path matching is the external router's and is not modelled; a route is
    chosen by its registration position. */
module Engine {
  import opened Common
  import Response
  import C = RequestContext
  import opened Chain
  import Routing
  import ChainLaws

  /** The request path of route `k` reached the registered closure. */
  function Serve(rt: Routing.Router<Handler>, k: nat, request: Request, sink: Response.Sink, width: C.Width): (o: Outcome)
    requires k < |rt.routes| && |rt.routes[k].handlers| <= C.MaxHandlers
    ensures o.ctx.handlers == rt.routes[k].handlers && o.ctx.request == request
    ensures o.panic.None? ==> o.ctx.index >= |rt.routes[k].handlers|
  {
    Dispatch(rt.routes[k].handlers, request, sink, width)
  }

  /** For a route registered under a group: the group's middleware is
      entered before any of the route's own handlers, each position at
      most once; without abort or panic all of them run. */
  lemma GroupMiddlewareRunsFirst(rt: Routing.Router<Handler>, id: nat, join: (string, string) -> string,
                                 verb: string, p: string, hs: seq<Handler>,
                                 request: Request, sink: Response.Sink, width: C.Width)
    requires Routing.ValidId(rt, id) && |rt.groups[id].handlers| + |hs| <= C.MaxHandlers
    ensures var r := Routing.Handle(rt, id, join, verb, p, hs);
      var o := Serve(r, |rt.routes|, request, sink, width);
      var m := |rt.groups[id].handlers|;
      (forall x, y | 0 <= x < y < |o.events| && o.events[x].Enter? && o.events[y].Enter? && o.events[y].index < m
         :: o.events[x].index < m)
      && ChainLaws.EntersIncreasing(o.events)
      && (o.panic.None? && !ChainLaws.HasAbort(o.events) ==> ChainLaws.Covers(o.events, 0, m + |hs|))
  {
    var r := Routing.Handle(rt, id, join, verb, p, hs);
    ChainLaws.DispatchLaws(r.routes[|rt.routes|].handlers, request, sink, width);
  }

  /** Middleware added to a parent group after a child group was derived
      changes nothing about what a route registered under the child runs. */
  lemma LateUseDoesNotReachChildRoutes(rt: Routing.Router<Handler>, id: nat, join: (string, string) -> string,
                                       component: string, groupHs: seq<Handler>, late: seq<Handler>,
                                       verb: string, p: string, hs: seq<Handler>,
                                       request: Request, sink: Response.Sink, width: C.Width)
    requires Routing.ValidId(rt, id) && |rt.groups[id].handlers| + |groupHs| + |hs| <= C.MaxHandlers
    ensures var (rt1, child) := Routing.Derive(rt, id, join, component, groupHs);
      var before := Routing.Handle(rt1, child, join, verb, p, hs);
      var after := Routing.Handle(Routing.Use(rt1, id, late), child, join, verb, p, hs);
      Serve(after, |rt.routes|, request, sink, width) == Serve(before, |rt.routes|, request, sink, width)
  {
    Routing.UseAfterDeriveIsInvisible(rt, id, join, component, groupHs, late);
  }
}
