/** Route groups: registration-time composition of path prefixes and
    handler lists. A router is the arena of every group created so far
    (group ids are positions in it) plus the routes registered so far.
    `path.Join` is the standard library's lexical path cleaning; it is
    taken as a parameter `join` and never interpreted. The handler type
    is a parameter too: composition never looks inside a handler. */
module Routing {
  import opened Common

  /** `RouterGroup`: its effective prefix and its effective handler list;
      `parent` is the id it was derived from, kept as a non-owning link. */
  datatype Group<H> = Group(prefix: string, handlers: seq<H>, parent: Option<nat>)

  /** One registration handed to the external path matcher: the method, the
      absolute path and the full handler list fixed at registration. */
  datatype Route<H> = Route(verb: string, path: string, handlers: seq<H>)

  datatype Router<H> = Router(groups: seq<Group<H>>, routes: seq<Route<H>>)

  ghost predicate ValidId<H>(rt: Router<H>, id: nat)
  {
    id < |rt.groups|
  }

  /** `New`: a router whose only group is the root, with an empty prefix and
      no middleware; nothing is registered yet. */
  function New<H>(): (rt: Router<H>)
    ensures |rt.groups| == 1 && rt.routes == []
    ensures rt.groups[0].prefix == "" && rt.groups[0].handlers == [] && rt.groups[0].parent.None?
  {
    Router([Group("", [], None)], [])
  }

  /** `combineHandlers`: a fresh list holding the group's handlers followed
      by `hs`, both in their original order. */
  function CombineHandlers<H>(g: Group<H>, hs: seq<H>): (r: seq<H>)
    ensures |r| == |g.handlers| + |hs|
    ensures forall k | 0 <= k < |g.handlers| :: r[k] == g.handlers[k]
    ensures forall k | 0 <= k < |hs| :: r[|g.handlers| + k] == hs[k]
  {
    g.handlers + hs
  }

  /** `Use`: append middleware to one group's own list. */
  function Use<H>(rt: Router<H>, id: nat, middlewares: seq<H>): (r: Router<H>)
    requires ValidId(rt, id)
    ensures |r.groups| == |rt.groups| && r.routes == rt.routes
    ensures |r.groups[id].handlers| == |rt.groups[id].handlers| + |middlewares|
    ensures r.groups[id].handlers[..|rt.groups[id].handlers|] == rt.groups[id].handlers
    ensures r.groups[id].handlers[|rt.groups[id].handlers|..] == middlewares
    ensures r.groups[id].prefix == rt.groups[id].prefix && r.groups[id].parent == rt.groups[id].parent
    ensures forall g | 0 <= g < |rt.groups| && g != id :: r.groups[g] == rt.groups[g]
  {
    var old_ := rt.groups[id];
    var grown := old_.(handlers := old_.handlers + middlewares);
    assert grown.handlers[..|old_.handlers|] == old_.handlers;
    rt.(groups := rt.groups[id := grown])
  }

  /** `Group`: derive a child of group `id`. The child is appended to the
      arena; its id is returned beside the new router. */
  function Derive<H>(rt: Router<H>, id: nat, join: (string, string) -> string,
                     component: string, hs: seq<H>): (r: (Router<H>, nat))
    requires ValidId(rt, id)
    ensures r.1 == |rt.groups| && |r.0.groups| == |rt.groups| + 1
    ensures r.0.groups[..|rt.groups|] == rt.groups && r.0.routes == rt.routes
    ensures r.0.groups[r.1].prefix == join(rt.groups[id].prefix, component)
    ensures r.0.groups[r.1].handlers == rt.groups[id].handlers + hs
    ensures r.0.groups[r.1].parent == Some(id)
  {
    var parent := rt.groups[id];
    var child := Group(join(parent.prefix, component), CombineHandlers(parent, hs), Some(id));
    (rt.(groups := rt.groups + [child]), |rt.groups|)
  }

  /** `Handle`: register `verb path` under group `id` with the group's
      handlers followed by `hs`, joined and combined at registration time. */
  function Handle<H>(rt: Router<H>, id: nat, join: (string, string) -> string,
                     verb: string, p: string, hs: seq<H>): (r: Router<H>)
    requires ValidId(rt, id)
    ensures r.groups == rt.groups
    ensures |r.routes| == |rt.routes| + 1 && r.routes[..|rt.routes|] == rt.routes
    ensures r.routes[|rt.routes|] == Route(verb, join(rt.groups[id].prefix, p), rt.groups[id].handlers + hs)
  {
    var g := rt.groups[id];
    rt.(routes := rt.routes + [Route(verb, join(g.prefix, p), CombineHandlers(g, hs))])
  }

  /** Snapshot at derivation: middleware added to a parent after a child was
      derived does not reach the child, nor any route already registered. */
  lemma UseAfterDeriveIsInvisible<H>(rt: Router<H>, id: nat, join: (string, string) -> string,
                                     component: string, hs: seq<H>, middlewares: seq<H>)
    requires ValidId(rt, id)
    ensures var (rt1, child) := Derive(rt, id, join, component, hs);
      var rt2 := Use(rt1, id, middlewares);
      rt2.groups[child] == rt1.groups[child]
      && rt2.groups[child].handlers == rt.groups[id].handlers + hs
      && rt2.routes == rt.routes
      && rt2.groups[id].handlers == rt.groups[id].handlers + middlewares
  {
    var (rt1, child) := Derive(rt, id, join, component, hs);
    var rt2 := Use(rt1, id, middlewares);
    var n := |rt.groups[id].handlers|;
    assert rt2.groups[id].handlers == rt2.groups[id].handlers[..n] + rt2.groups[id].handlers[n..];
  }

  /** One derivation step of a chain: a path component and the middleware
      given to `Group`. */
  datatype Step<H> = Step(component: string, middlewares: seq<H>)

  /** Derive a chain of nested groups from `id`, each step from the group
      the previous step produced; returns the router and the innermost id. */
  function DeriveChain<H>(rt: Router<H>, id: nat, join: (string, string) -> string,
                          steps: seq<Step<H>>): (r: (Router<H>, nat))
    requires ValidId(rt, id)
    ensures ValidId(r.0, r.1)
    ensures r.0.routes == rt.routes
    decreases |steps|
  {
    if steps == [] then (rt, id)
    else
      var d := Derive(rt, id, join, steps[0].component, steps[0].middlewares);
      DeriveChain(d.0, d.1, join, steps[1..])
  }

  /** All the middleware of a chain of steps, root to leaf. */
  function Flatten<H>(steps: seq<Step<H>>): seq<H>
    decreases |steps|
  {
    if steps == [] then [] else steps[0].middlewares + Flatten(steps[1..])
  }

  /** The prefix a chain of steps composes to. */
  function JoinAll(join: (string, string) -> string, prefix: string, steps: seq<Step<string>>): string
    decreases |steps|
  {
    if steps == [] then prefix else JoinAll(join, join(prefix, steps[0].component), steps[1..])
  }

  function Components<H>(steps: seq<Step<H>>): seq<Step<string>>
  {
    seq(|steps|, k requires 0 <= k < |steps| => Step(steps[k].component, []))
  }

  /** For a chain of nested groups of any depth, the innermost group's
      handlers are the starting group's followed by every step's middleware,
      in root-to-leaf order. */
  lemma {:induction false} ChainHandlers<H>(rt: Router<H>, id: nat, join: (string, string) -> string,
                                            steps: seq<Step<H>>)
    requires ValidId(rt, id)
    ensures var r := DeriveChain(rt, id, join, steps);
      r.0.groups[r.1].handlers == rt.groups[id].handlers + Flatten(steps)
    decreases |steps|
  {
    if steps != [] {
      var r1 := Derive(rt, id, join, steps[0].component, steps[0].middlewares);
      assert DeriveChain(rt, id, join, steps) == DeriveChain(r1.0, r1.1, join, steps[1..]);
      ChainHandlers(r1.0, r1.1, join, steps[1..]);
      assert r1.0.groups[r1.1].handlers == rt.groups[id].handlers + steps[0].middlewares;
      assert Flatten(steps) == steps[0].middlewares + Flatten(steps[1..]);
    }
  }

  /** The innermost group's prefix is the join of every component in turn. */
  lemma {:induction false} ChainPrefix<H>(rt: Router<H>, id: nat, join: (string, string) -> string,
                                          steps: seq<Step<H>>)
    requires ValidId(rt, id)
    ensures var r := DeriveChain(rt, id, join, steps);
      r.0.groups[r.1].prefix == JoinAll(join, rt.groups[id].prefix, Components(steps))
    decreases |steps|
  {
    if steps != [] {
      var r1 := Derive(rt, id, join, steps[0].component, steps[0].middlewares);
      assert DeriveChain(rt, id, join, steps) == DeriveChain(r1.0, r1.1, join, steps[1..]);
      ChainPrefix(r1.0, r1.1, join, steps[1..]);
      assert Components(steps[1..]) == Components(steps)[1..];
    }
  }

  /** A route registered under a chain of nested groups gets the join of
      every component and the path, and every ancestor's middleware in
      root-to-leaf order followed by its own handlers, independent of
      any other group in the router. */
  lemma ChainRoute<H>(rt: Router<H>, id: nat, join: (string, string) -> string,
                      steps: seq<Step<H>>, verb: string, p: string, hs: seq<H>)
    requires ValidId(rt, id)
    ensures var r := DeriveChain(rt, id, join, steps);
      Handle(r.0, r.1, join, verb, p, hs).routes[|rt.routes|]
        == Route(verb, join(JoinAll(join, rt.groups[id].prefix, Components(steps)), p),
                 rt.groups[id].handlers + Flatten(steps) + hs)
  {
    ChainHandlers(rt, id, join, steps);
    ChainPrefix(rt, id, join, steps);
  }
}
