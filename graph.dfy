/** The graph of TinyGraph (tinygraph.js) as a value: the world of nodes and
    ports, the `nodes` array and the `connections` record array. The
    functions here say what each method of the TinyGraph class leaves
    behind; the class itself lives in the Engine module. */
module Graph {
  import opened Wrappers
  import opened Values
  import opened IO
  import opened GraphNode
  import Catalogue
  import Registry
  import Text

  /** A `{ fromIO, toIO }` record of `this.connections`. */
  datatype Connection = Connection(from: PortRef, to: PortRef)

  datatype Graph = Graph(world: World, nodes: seq<NodeRef>, connections: seq<Connection>)

  /** The world is closed and every listed node exists. */
  ghost predicate Listed(g: Graph) {
    Valid(g.world) && forall n | n in g.nodes :: n in g.world.nodes
  }

  /** A record runs from an output to an input. */
  ghost predicate Oriented(ps: Ports, c: Connection) {
    c.from in ps && c.to in ps && !ps[c.from].isInput && ps[c.to].isInput
  }

  /** The records and the ports' lists tell the same story: every record
      runs from an output to an input that list each other; the lists are
      symmetric; every link an output lists has its record; and an input
      has at most one connection. */
  ghost predicate Consistent(g: Graph) {
    var ps := g.world.ports;
    && Listed(g)
    && (forall c | c in g.connections :: Oriented(ps, c) && c.to in ps[c.from].connections)
    && (forall p, q | p in ps && q in ps[p].connections :: p in ps[q].connections)
    && (forall p, q | p in ps && !ps[p].isInput && q in ps[p].connections :: Connection(p, q) in g.connections)
    && (forall p | p in ps && ps[p].isInput :: |ps[p].connections| <= 1)
  }

  /** A root has no inputs, or none of its inputs is connected. */
  predicate IsRoot(w: World, n: NodeRef)
    requires Valid(w) && n in w.nodes
  {
    assert Attached(w, n);
    |w.nodes[n].inputs| == 0 || forall s | s in w.nodes[n].inputs :: |w.ports[s.port].connections| == 0
  }

  /** `getRootNodes()`: the roots among `ns`, in the order of `ns`. */
  function Roots(w: World, ns: seq<NodeRef>): (r: seq<NodeRef>)
    requires Valid(w) && forall n | n in ns :: n in w.nodes
    ensures forall n :: n in r <==> n in ns && IsRoot(w, n)
    ensures |r| <= |ns|
  {
    if ns == [] then []
    else
      var rest := Roots(w, ns[1..]);
      assert forall n | n in ns[1..] :: n in ns;
      if IsRoot(w, ns[0]) then [ns[0]] + rest else rest
  }

  /** The roots of a concatenation are the roots of each part, in order:
      the roots keep the relative order they have in `ns`. */
  lemma {:induction false} RootsConcat(w: World, a: seq<NodeRef>, b: seq<NodeRef>)
    requires Valid(w) && forall n | n in a + b :: n in w.nodes
    ensures Roots(w, a + b) == Roots(w, a) + Roots(w, b)
  {
    var ab := a + b;
    if a != [] {
      var tail := a[1..];
      assert ab[0] == a[0] && ab[1..] == tail + b;
      assert forall n | n in tail + b :: n in ab;
      RootsConcat(w, tail, b);
      var head := if IsRoot(w, a[0]) then [a[0]] else [];
      assert Roots(w, ab) == head + Roots(w, tail + b);
      assert Roots(w, a) == head + Roots(w, tail);
      Text.AppendAssociative(head, Roots(w, tail), Roots(w, b));
    } else {
      assert ab == b;
    }
  }

  /** A node without inputs is always a root, whatever the wiring. */
  lemma NoInputsIsRoot(w: World, n: NodeRef)
    requires Valid(w) && n in w.nodes && w.nodes[n].inputs == []
    ensures IsRoot(w, n)
  {
  }

  /** Being a root depends only on the wiring. */
  lemma RootsShape(w: World, w': World, ns: seq<NodeRef>)
    requires Valid(w) && SameShape(w, w') && forall n | n in ns :: n in w.nodes
    ensures Valid(w') && Roots(w', ns) == Roots(w, ns)
  {
    ShapeValid(w, w');
    if ns != [] {
      var n := ns[0];
      assert SameNode(w.nodes[n], w'.nodes[n]);
      assert forall s | s in w.nodes[n].inputs :: s.port in w.ports && SamePort(w.ports[s.port], w'.ports[s.port]) by {
        assert Attached(w, n);
      }
      RootsShape(w, w', ns[1..]);
    }
  }

  /** The first loop of `compute()`: `setStatus(true, "Ok")` on every
      listed node, in order. */
  function ResetAll(w: World, ns: seq<NodeRef>): (r: World)
    requires forall n | n in ns :: n in w.nodes
    ensures SameShape(w, r) && r.ports == w.ports
    ensures forall n | n in ns :: r.nodes[n].status && r.nodes[n].statusMessage == "Ok"
    ensures forall n | n in w.nodes && n !in ns :: r.nodes[n] == w.nodes[n]
  {
    if ns == [] then w
    else
      var init := ns[..|ns| - 1];
      assert forall n | n in init :: n in ns;
      var w1 := ResetAll(w, init);
      ResetLast(w, w1, ns);
      SetStatus(w1, ns[|ns| - 1], true, "Ok")
  }

  /** The last step of `ResetAll`, from what the earlier steps left. */
  lemma ResetLast(w: World, w1: World, ns: seq<NodeRef>)
    requires |ns| > 0 && forall n | n in ns :: n in w.nodes
    requires SameShape(w, w1) && w1.ports == w.ports
    requires forall n | n in ns[..|ns| - 1] :: w1.nodes[n].status && w1.nodes[n].statusMessage == "Ok"
    requires forall n | n in w.nodes && n !in ns[..|ns| - 1] :: w1.nodes[n] == w.nodes[n]
    ensures var r := SetStatus(w1, ns[|ns| - 1], true, "Ok");
      && SameShape(w, r) && r.ports == w.ports
      && (forall n | n in ns :: r.nodes[n].status && r.nodes[n].statusMessage == "Ok")
      && (forall n | n in w.nodes && n !in ns :: r.nodes[n] == w.nodes[n])
  {
    var init := ns[..|ns| - 1];
    var last := ns[|ns| - 1];
    var r := SetStatus(w1, last, true, "Ok");
    assert forall n | n in ns :: n in init || n == last by {
      assert ns == init + [last];
    }
    SameShapeTransitive(w, w1, r);
  }

  lemma SameShapeTransitive(a: World, b: World, c: World)
    requires SameShape(a, b) && SameShape(b, c)
    ensures SameShape(a, c)
  {
    forall p | p in a.ports
      ensures SamePort(a.ports[p], c.ports[p])
    {
      assert SamePort(a.ports[p], b.ports[p]) && SamePort(b.ports[p], c.ports[p]);
    }
    forall n | n in a.nodes
      ensures SameNode(a.nodes[n], c.nodes[n])
    {
      assert SameNode(a.nodes[n], b.nodes[n]) && SameNode(b.nodes[n], c.nodes[n]);
    }
  }

  /** The nodes owning the ports in `conns`, in order; a port without a
      node (`inputIO.node` unset) is skipped. */
  function Owners(w: World, conns: seq<PortRef>): (r: seq<NodeRef>)
    requires Valid(w) && forall q | q in conns :: q in w.ports
    ensures forall m | m in r :: m in w.nodes
    ensures forall q | q in conns && w.ports[q].owner.Some? :: w.ports[q].owner.value in r
  {
    if conns == [] then []
    else
      var last := conns[|conns| - 1];
      Owners(w, conns[..|conns| - 1]) + (if w.ports[last].owner.Some? then [w.ports[last].owner.value] else [])
  }

  /** The nodes fed by the outputs in `outs`: output by output, in map
      order, and within one output in the order of its connections. */
  function TargetsOf(w: World, outs: seq<Slot>): (r: seq<NodeRef>)
    requires Valid(w) && forall s | s in outs :: s.port in w.ports
    ensures forall m | m in r :: m in w.nodes
    ensures forall k, q | 0 <= k < |outs| && q in w.ports[outs[k].port].connections && w.ports[q].owner.Some? ::
      w.ports[q].owner.value in r
  {
    if outs == [] then []
    else
      var last := outs[|outs| - 1];
      var init := outs[..|outs| - 1];
      assert forall k | 0 <= k < |init| :: init[k] == outs[k];
      TargetsOf(w, init) + Owners(w, w.ports[last.port].connections)
  }

  /** The nodes `_computeNodeRecursive(n)` descends into, in the order of
      its two loops, once per connection. */
  function Targets(w: World, n: NodeRef): (r: seq<NodeRef>)
    requires Valid(w) && n in w.nodes
    ensures forall m | m in r :: m in w.nodes
  {
    assert Attached(w, n);
    TargetsOf(w, w.nodes[n].outputs)
  }

  /** Targets depend only on the wiring. */
  lemma {:induction false} OwnersShape(w: World, w': World, conns: seq<PortRef>)
    requires Valid(w) && SameShape(w, w') && forall q | q in conns :: q in w.ports
    ensures Valid(w') && Owners(w', conns) == Owners(w, conns)
  {
    ShapeValid(w, w');
    if conns != [] {
      assert SamePort(w.ports[conns[|conns| - 1]], w'.ports[conns[|conns| - 1]]);
      OwnersShape(w, w', conns[..|conns| - 1]);
    }
  }

  lemma {:induction false} TargetsOfShape(w: World, w': World, outs: seq<Slot>)
    requires Valid(w) && SameShape(w, w') && forall s | s in outs :: s.port in w.ports
    ensures Valid(w') && TargetsOf(w', outs) == TargetsOf(w, outs)
  {
    ShapeValid(w, w');
    if outs != [] {
      var last := outs[|outs| - 1];
      assert SamePort(w.ports[last.port], w'.ports[last.port]);
      OwnersShape(w, w', w.ports[last.port].connections);
      TargetsOfShape(w, w', outs[..|outs| - 1]);
    }
  }

  lemma TargetsShape(w: World, w': World, n: NodeRef)
    requires Valid(w) && SameShape(w, w') && n in w.nodes
    ensures Valid(w') && Targets(w', n) == Targets(w, n)
  {
    assert Attached(w, n) && SameNode(w.nodes[n], w'.nodes[n]);
    TargetsOfShape(w, w', w.nodes[n].outputs);
  }

  /** Every wire leads to a node of lower rank: the wiring has no cycle.
      `_computeNodeRecursive` has no visited set, so on a cycle it recurses
      without end; the model asks for a rank instead. */
  ghost predicate Ranked(w: World, rank: map<NodeRef, nat>)
    requires Valid(w)
  {
    forall n | n in w.nodes :: n in rank && forall t | t in Targets(w, n) :: t in rank && rank[t] < rank[n]
  }

  lemma RankedShape(w: World, w': World, rank: map<NodeRef, nat>)
    requires Valid(w) && SameShape(w, w') && Ranked(w, rank)
    ensures Valid(w') && Ranked(w', rank)
  {
    ShapeValid(w, w');
    forall n | n in w'.nodes
      ensures Targets(w', n) == Targets(w, n)
    {
      TargetsShape(w, w', n);
    }
  }

  /** The nodes computed, in order, and the world left behind. */
  datatype Run = Run(world: World, trace: seq<NodeRef>)

  /** `_computeNodeRecursive(n)`: compute `n`; when that returns false stop,
      otherwise descend. */
  function Visit(env: Env, w: World, rank: map<NodeRef, nat>, n: NodeRef): (r: Run)
    requires Valid(w) && Ranked(w, rank) && n in w.nodes
    ensures SameShape(w, r.world) && Valid(r.world) && Ranked(r.world, rank)
    ensures |r.trace| > 0 && r.trace[0] == n
    ensures !Catalogue.Accepts(env, w, n) ==> r.trace == [n]
    decreases rank[n], 2, 0
  {
    var c := Catalogue.Compute(env, w, n);
    Catalogue.ComputeConfined(env, w, n);
    RankedShape(w, c.world, rank);
    if !c.ok then Run(c.world, [n])
    else
      var d := Descend(env, c.world, rank, n);
      SameShapeTransitive(w, c.world, d.world);
      d
  }

  /** The two loops of `_computeNodeRecursive(n)` once `n` has computed:
      every target is visited, in order. */
  function Descend(env: Env, w: World, rank: map<NodeRef, nat>, n: NodeRef): (r: Run)
    requires Valid(w) && Ranked(w, rank) && n in w.nodes
    ensures SameShape(w, r.world) && Valid(r.world) && Ranked(r.world, rank)
    ensures |r.trace| > 0 && r.trace[0] == n
    decreases rank[n], 1, 0
  {
    var rest := VisitAll(env, w, rank, Targets(w, n), rank[n]);
    Run(rest.world, [n] + rest.trace)
  }

  /** The descents of one `_computeNodeRecursive`, in order: each target
      is visited in the world the previous one left. */
  function VisitAll(env: Env, w: World, rank: map<NodeRef, nat>, ts: seq<NodeRef>, bound: nat): (r: Run)
    requires Valid(w) && Ranked(w, rank)
    requires forall t | t in ts :: t in w.nodes && t in rank && rank[t] < bound
    ensures SameShape(w, r.world) && Valid(r.world) && Ranked(r.world, rank)
    decreases bound, 0, |ts|
  {
    if ts == [] then Run(w, [])
    else
      var init := ts[..|ts| - 1];
      assert forall t | t in init :: t in ts;
      var before := VisitAll(env, w, rank, init, bound);
      var last := Visit(env, before.world, rank, ts[|ts| - 1]);
      SameShapeTransitive(w, before.world, last.world);
      Run(last.world, before.trace + last.trace)
  }

  /** Every path of wires that starts at `n`, each named by the node it
      ends at, in depth-first order: outputs in map order, connections in
      list order. A node reached along k different paths occurs k times. */
  function Paths(w: World, rank: map<NodeRef, nat>, n: NodeRef): (r: seq<NodeRef>)
    requires Valid(w) && Ranked(w, rank) && n in w.nodes
    ensures |r| > 0 && r[0] == n
    decreases rank[n], 1, 0
  {
    [n] + PathsAll(w, rank, Targets(w, n), rank[n])
  }

  function PathsAll(w: World, rank: map<NodeRef, nat>, ts: seq<NodeRef>, bound: nat): seq<NodeRef>
    requires Valid(w) && Ranked(w, rank)
    requires forall t | t in ts :: t in w.nodes && t in rank && rank[t] < bound
    decreases bound, 0, |ts|
  {
    if ts == [] then []
    else
      var init := ts[..|ts| - 1];
      assert forall t | t in init :: t in ts;
      PathsAll(w, rank, init, bound) + Paths(w, rank, ts[|ts| - 1])
  }

  /** Every node named has a kind whose compute never fails (see
      Catalogue.Infallible). */
  ghost predicate AllInfallible(w: World, ms: seq<NodeRef>) {
    forall m | m in ms :: m in w.nodes && Catalogue.Infallible(w.nodes[m].kind)
  }

  /** The paths from `n` cut below some nodes that can fail: `n` alone when
      its kind can fail, or `n` followed by a cut of the paths from each
      of its targets in turn. */
  ghost predicate PrunedPaths(w: World, rank: map<NodeRef, nat>, n: NodeRef, t: seq<NodeRef>)
    requires Valid(w) && Ranked(w, rank) && n in w.nodes
    decreases rank[n], 1, 0
  {
    || (t == [n] && !Catalogue.Infallible(w.nodes[n].kind))
    || (|t| > 0 && t[0] == n && PrunedAll(w, rank, Targets(w, n), rank[n], t[1..]))
  }

  /** A cut of the paths from each of `ts`, one after another. */
  ghost predicate PrunedAll(w: World, rank: map<NodeRef, nat>, ts: seq<NodeRef>, bound: nat, t: seq<NodeRef>)
    requires Valid(w) && Ranked(w, rank)
    requires forall u | u in ts :: u in w.nodes && u in rank && rank[u] < bound
    decreases bound, 0, |ts|
  {
    if ts == [] then t == []
    else
      var init := ts[..|ts| - 1];
      assert forall u | u in init :: u in ts;
      exists k | 0 <= k <= |t| :: PrunedAll(w, rank, init, bound, t[..k]) && PrunedPaths(w, rank, ts[|ts| - 1], t[k..])
  }

  /** `_computeNodeRecursive(n)` computes the ends of the paths from `n` in
      depth-first order, cut below every node whose compute fails: a node
      reachable by k paths through nodes that succeed is computed k times. */
  lemma {:induction false} VisitPruned(env: Env, w0: World, w: World, rank: map<NodeRef, nat>, n: NodeRef)
    requires Valid(w0) && Ranked(w0, rank) && n in w0.nodes
    requires Valid(w) && Ranked(w, rank) && SameShape(w0, w)
    ensures PrunedPaths(w0, rank, n, Visit(env, w, rank, n).trace)
    decreases rank[n], 2, 0
  {
    assert SameNode(w0.nodes[n], w.nodes[n]);
    var c := Catalogue.Compute(env, w, n);
    if c.ok {
      Catalogue.ComputeConfined(env, w, n);
      RankedShape(w, c.world, rank);
      SameShapeTransitive(w0, w, c.world);
      DescendPruned(env, w0, c.world, rank, n);
    } else if Catalogue.Infallible(w0.nodes[n].kind) {
      Catalogue.InfallibleCompute(env, w, n);
      assert false;
    }
  }

  lemma {:induction false} DescendPruned(env: Env, w0: World, w: World, rank: map<NodeRef, nat>, n: NodeRef)
    requires Valid(w0) && Ranked(w0, rank) && n in w0.nodes
    requires Valid(w) && Ranked(w, rank) && SameShape(w0, w)
    ensures var t := Descend(env, w, rank, n).trace; |t| > 0 && t[0] == n && PrunedAll(w0, rank, Targets(w0, n), rank[n], t[1..])
    decreases rank[n], 1, 0
  {
    TargetsShape(w0, w, n);
    var rest := VisitAll(env, w, rank, Targets(w, n), rank[n]);
    VisitAllPruned(env, w0, w, rank, Targets(w0, n), rank[n]);
    assert ([n] + rest.trace)[1..] == rest.trace;
  }

  lemma {:induction false} VisitAllPruned(env: Env, w0: World, w: World, rank: map<NodeRef, nat>, ts: seq<NodeRef>, bound: nat)
    requires Valid(w0) && Ranked(w0, rank)
    requires Valid(w) && Ranked(w, rank) && SameShape(w0, w)
    requires forall t | t in ts :: t in w0.nodes && t in rank && rank[t] < bound
    ensures PrunedAll(w0, rank, ts, bound, VisitAll(env, w, rank, ts, bound).trace)
    decreases bound, 0, |ts|
  {
    if ts != [] {
      var init := ts[..|ts| - 1];
      assert forall t | t in init :: t in ts;
      VisitAllPruned(env, w0, w, rank, init, bound);
      var before := VisitAll(env, w, rank, init, bound);
      SameShapeTransitive(w0, w, before.world);
      VisitPruned(env, w0, before.world, rank, ts[|ts| - 1]);
      var last := Visit(env, before.world, rank, ts[|ts| - 1]);
      var t := before.trace + last.trace;
      assert t[..|before.trace|] == before.trace && t[|before.trace|..] == last.trace;
    }
  }

  /** When every node on the paths from `n` has a kind that cannot fail,
      the only cut of those paths is the paths themselves. */
  lemma {:induction false} PrunedFull(w: World, rank: map<NodeRef, nat>, n: NodeRef, t: seq<NodeRef>)
    requires Valid(w) && Ranked(w, rank) && n in w.nodes
    requires AllInfallible(w, Paths(w, rank, n)) && PrunedPaths(w, rank, n, t)
    ensures t == Paths(w, rank, n)
    decreases rank[n], 1, 0
  {
    var ps := Paths(w, rank, n);
    assert ps[0] == n;
    PrunedAllFull(w, rank, Targets(w, n), rank[n], t[1..]);
    assert t == [n] + t[1..];
  }

  lemma {:induction false} PrunedAllFull(w: World, rank: map<NodeRef, nat>, ts: seq<NodeRef>, bound: nat, t: seq<NodeRef>)
    requires Valid(w) && Ranked(w, rank)
    requires forall u | u in ts :: u in w.nodes && u in rank && rank[u] < bound
    requires AllInfallible(w, PathsAll(w, rank, ts, bound)) && PrunedAll(w, rank, ts, bound, t)
    ensures t == PathsAll(w, rank, ts, bound)
    decreases bound, 0, |ts|
  {
    if ts != [] {
      var init := ts[..|ts| - 1];
      assert forall u | u in init :: u in ts;
      var k := PrunedAllSplit(w, rank, ts, bound, t);
      var front := PathsAll(w, rank, init, bound);
      var back := Paths(w, rank, ts[|ts| - 1]);
      assert PathsAll(w, rank, ts, bound) == front + back;
      assert AllInfallible(w, front) && AllInfallible(w, back) by {
        assert forall m | m in front || m in back :: m in front + back;
      }
      PrunedAllFull(w, rank, init, bound, t[..k]);
      PrunedFull(w, rank, ts[|ts| - 1], t[k..]);
      assert t == t[..k] + t[k..];
    }
  }

  /** Where a cut of the paths from several targets splits into the cut
      for all but the last and the cut for the last. */
  lemma PrunedAllSplit(w: World, rank: map<NodeRef, nat>, ts: seq<NodeRef>, bound: nat, t: seq<NodeRef>) returns (k: nat)
    requires Valid(w) && Ranked(w, rank) && ts != []
    requires forall u | u in ts :: u in w.nodes && u in rank && rank[u] < bound
    requires PrunedAll(w, rank, ts, bound, t)
    ensures var init := ts[..|ts| - 1];
      && (forall u | u in init :: u in ts)
      && k <= |t| && PrunedAll(w, rank, init, bound, t[..k]) && PrunedPaths(w, rank, ts[|ts| - 1], t[k..])
  {
    var init := ts[..|ts| - 1];
    assert forall u | u in init :: u in ts;
    k :| 0 <= k <= |t| && PrunedAll(w, rank, init, bound, t[..k]) && PrunedPaths(w, rank, ts[|ts| - 1], t[k..]);
  }

  /** When every node on the paths from `n` has a kind that cannot fail,
      `_computeNodeRecursive(n)` computes exactly the nodes at the ends of
      those paths, in depth-first order: a node reachable by k paths is
      computed k times. */
  lemma VisitPaths(env: Env, w0: World, w: World, rank: map<NodeRef, nat>, n: NodeRef)
    requires Valid(w0) && Ranked(w0, rank) && n in w0.nodes && AllInfallible(w0, Paths(w0, rank, n))
    requires Valid(w) && Ranked(w, rank) && SameShape(w0, w)
    ensures Visit(env, w, rank, n).trace == Paths(w0, rank, n)
  {
    VisitPruned(env, w0, w, rank, n);
    PrunedFull(w0, rank, n, Visit(env, w, rank, n).trace);
  }

  /** The nodes a trace names. */
  function Reached(trace: seq<NodeRef>): (r: set<NodeRef>)
    ensures forall m :: m in r <==> m in trace
  {
    set m | m in trace
  }

  lemma ConfinedChain(a: World, b: World, c: World, s: set<NodeRef>)
    requires Confined(a, b, s) && Confined(b, c, s)
    ensures Confined(a, c, s)
  {
    forall p | p in a.ports && !a.ports[p].isInput && !(a.ports[p].owner.Some? && a.ports[p].owner.value in s)
      ensures c.ports[p] == a.ports[p]
    {
      assert SamePort(a.ports[p], b.ports[p]);
    }
    SameShapeTransitive(a, b, c);
  }

  /** The first node of a trace is reached. */
  lemma ReachedHead(t: seq<NodeRef>)
    requires |t| > 0
    ensures {t[0]} <= Reached(t)
  {
  }

  /** A trace of one node reaches just that node. */
  lemma ReachedOne(n: NodeRef)
    ensures Reached([n]) == {n}
  {
  }

  /** The nodes of two traces run one after the other. */
  lemma ReachedConcat(a: seq<NodeRef>, b: seq<NodeRef>)
    ensures Reached(a + b) == Reached(a) + Reached(b)
  {
  }

  /** `_computeNodeRecursive` changes only the nodes it computes: every
      other node keeps its status and every output of another node keeps its
      value. */
  lemma {:induction false} VisitConfined(env: Env, w: World, rank: map<NodeRef, nat>, n: NodeRef)
    requires Valid(w) && Ranked(w, rank) && n in w.nodes
    ensures var r := Visit(env, w, rank, n); Confined(w, r.world, Reached(r.trace))
    decreases rank[n], 2, 0
  {
    var c := Catalogue.Compute(env, w, n);
    Catalogue.ComputeConfined(env, w, n);
    RankedShape(w, c.world, rank);
    var r := Visit(env, w, rank, n);
    if c.ok {
      assert r == Descend(env, c.world, rank, n);
      ComputedThenDescended(env, w, c.world, rank, n);
    } else {
      assert r == Run(c.world, [n]);
      ReachedOne(n);
    }
  }

  lemma ComputedThenDescended(env: Env, w: World, w1: World, rank: map<NodeRef, nat>, n: NodeRef)
    requires Valid(w) && n in w.nodes && Confined(w, w1, {n})
    requires Valid(w1) && Ranked(w1, rank)
    ensures var d := Descend(env, w1, rank, n); Confined(w, d.world, Reached(d.trace))
    decreases rank[n], 1, 1
  {
    var d := Descend(env, w1, rank, n);
    DescendConfined(env, w1, rank, n);
    ReachedHead(d.trace);
    ConfinedWider(w, w1, {n}, Reached(d.trace));
    ConfinedChain(w, w1, d.world, Reached(d.trace));
  }

  lemma {:induction false} DescendConfined(env: Env, w: World, rank: map<NodeRef, nat>, n: NodeRef)
    requires Valid(w) && Ranked(w, rank) && n in w.nodes
    ensures var r := Descend(env, w, rank, n); Confined(w, r.world, Reached(r.trace))
    decreases rank[n], 1, 0
  {
    var rest := VisitAll(env, w, rank, Targets(w, n), rank[n]);
    VisitAllConfined(env, w, rank, Targets(w, n), rank[n]);
    ReachedConcat([n], rest.trace);
    ConfinedWider(w, rest.world, Reached(rest.trace), Reached([n] + rest.trace));
  }

  lemma {:induction false} VisitAllConfined(env: Env, w: World, rank: map<NodeRef, nat>, ts: seq<NodeRef>, bound: nat)
    requires Valid(w) && Ranked(w, rank)
    requires forall t | t in ts :: t in w.nodes && t in rank && rank[t] < bound
    ensures var r := VisitAll(env, w, rank, ts, bound); Confined(w, r.world, Reached(r.trace))
    decreases bound, 0, |ts|
  {
    var r := VisitAll(env, w, rank, ts, bound);
    if ts == [] {
      assert Confined(w, r.world, {});
    } else {
      var init := ts[..|ts| - 1];
      assert forall t | t in init :: t in ts;
      VisitAllConfined(env, w, rank, init, bound);
      var before := VisitAll(env, w, rank, init, bound);
      VisitConfined(env, before.world, rank, ts[|ts| - 1]);
      var last := Visit(env, before.world, rank, ts[|ts| - 1]);
      ConfinedTransitive(w, before.world, last.world, Reached(before.trace), Reached(last.trace));
      assert r.world == last.world && r.trace == before.trace + last.trace;
      ReachedConcat(before.trace, last.trace);
    }
  }

  lemma PathsLeaf(w: World, rank: map<NodeRef, nat>, n: NodeRef)
    requires Valid(w) && Ranked(w, rank) && n in w.nodes && Targets(w, n) == []
    ensures Paths(w, rank, n) == [n]
  {
  }

  lemma PathsChain(w: World, rank: map<NodeRef, nat>, n: NodeRef, t: NodeRef)
    requires Valid(w) && Ranked(w, rank) && n in w.nodes && Targets(w, n) == [t]
    ensures Paths(w, rank, n) == [n] + Paths(w, rank, t)
  {
    var ts := Targets(w, n);
    assert ts[..0] == [] && ts[0] == t;
    assert PathsAll(w, rank, ts[..0], rank[n]) == [];
    assert PathsAll(w, rank, ts, rank[n]) == Paths(w, rank, t);
  }

  lemma PathsFork(w: World, rank: map<NodeRef, nat>, n: NodeRef, t: NodeRef, u: NodeRef)
    requires Valid(w) && Ranked(w, rank) && n in w.nodes && Targets(w, n) == [t, u]
    ensures Paths(w, rank, n) == [n] + Paths(w, rank, t) + Paths(w, rank, u)
  {
    var ts := Targets(w, n);
    var one := ts[..1];
    assert one == [t] && one[..0] == [] && ts[1] == u;
    assert PathsAll(w, rank, one[..0], rank[n]) == [];
    assert PathsAll(w, rank, one, rank[n]) == Paths(w, rank, t);
    assert PathsAll(w, rank, ts, rank[n]) == Paths(w, rank, t) + Paths(w, rank, u);
  }

  /** A diamond: `a` feeds `b` and `c`, both feed `d`. Two paths lead
      from `a` to `d`. */
  lemma DiamondTwice(w: World, rank: map<NodeRef, nat>, a: NodeRef, b: NodeRef, c: NodeRef, d: NodeRef)
    requires Valid(w) && Ranked(w, rank) && a in w.nodes && b in w.nodes && c in w.nodes && d in w.nodes
    requires Targets(w, a) == [b, c] && Targets(w, b) == [d] && Targets(w, c) == [d] && Targets(w, d) == []
    ensures Paths(w, rank, a) == [a] + ([b] + [d]) + ([c] + [d])
  {
    PathsLeaf(w, rank, d);
    PathsChain(w, rank, b, d);
    PathsChain(w, rank, c, d);
    PathsFork(w, rank, a, b, c);
  }

  /** The paths from a single root are the paths from that root. */
  lemma PathsFromOne(w: World, rank: map<NodeRef, nat>, a: NodeRef)
    requires Valid(w) && Ranked(w, rank) && a in w.nodes
    ensures PathsFrom(w, rank, [a]) == Paths(w, rank, a)
  {
    assert [a][..0] == [];
  }

  /** A pass over a graph whose only root is the source of a diamond,
      whose four nodes have kinds that cannot fail, computes the sink twice:
      once below each of the two middle nodes. */
  lemma DiamondPassTwice(env: Env, g: Graph, rank: map<NodeRef, nat>, a: NodeRef, b: NodeRef, c: NodeRef, d: NodeRef)
    requires Listed(g) && Ranked(g.world, rank) && Roots(g.world, g.nodes) == [a]
    requires a in g.world.nodes && b in g.world.nodes && c in g.world.nodes && d in g.world.nodes
    requires Targets(g.world, a) == [b, c] && Targets(g.world, b) == [d] && Targets(g.world, c) == [d] && Targets(g.world, d) == []
    requires AllInfallible(g.world, [a, b, c, d])
    ensures Pass(env, g, rank).trace == [a] + ([b] + [d]) + ([c] + [d])
  {
    DiamondRooted(g.world, rank, a, b, c, d);
    DiamondKinds(g.world, a, b, c, d);
    PassPaths(env, g, rank);
  }

  /** The paths from a diamond's source taken as the only root. */
  lemma DiamondRooted(w: World, rank: map<NodeRef, nat>, a: NodeRef, b: NodeRef, c: NodeRef, d: NodeRef)
    requires Valid(w) && Ranked(w, rank)
    requires a in w.nodes && b in w.nodes && c in w.nodes && d in w.nodes
    requires Targets(w, a) == [b, c] && Targets(w, b) == [d] && Targets(w, c) == [d] && Targets(w, d) == []
    ensures PathsFrom(w, rank, [a]) == [a] + ([b] + [d]) + ([c] + [d])
  {
    DiamondTwice(w, rank, a, b, c, d);
    PathsFromOne(w, rank, a);
  }

  /** Every node on the diamond's paths is one of its four nodes. */
  lemma DiamondKinds(w: World, a: NodeRef, b: NodeRef, c: NodeRef, d: NodeRef)
    requires AllInfallible(w, [a, b, c, d])
    ensures AllInfallible(w, [a] + ([b] + [d]) + ([c] + [d]))
  {
    var p := [a] + ([b] + [d]) + ([c] + [d]);
    forall m | m in p
      ensures m in [a, b, c, d]
    {
    }
  }

  /** `roots.forEach((root) => this._computeNodeRecursive(root))`. */
  function Walk(env: Env, w: World, rank: map<NodeRef, nat>, roots: seq<NodeRef>): (r: Run)
    requires Valid(w) && Ranked(w, rank) && forall m | m in roots :: m in w.nodes
    ensures SameShape(w, r.world) && Valid(r.world) && Ranked(r.world, rank)
    decreases |roots|
  {
    if roots == [] then Run(w, [])
    else
      var init := roots[..|roots| - 1];
      assert forall m | m in init :: m in roots;
      var before := Walk(env, w, rank, init);
      var last := Visit(env, before.world, rank, roots[|roots| - 1]);
      SameShapeTransitive(w, before.world, last.world);
      Run(last.world, before.trace + last.trace)
  }

  /** `compute()`: reset every listed node to (true, "Ok"), then walk the
      roots of the reset world in the order of `nodes`. */
  function Pass(env: Env, g: Graph, rank: map<NodeRef, nat>): (r: Run)
    requires Listed(g) && Ranked(g.world, rank)
    ensures SameShape(g.world, r.world) && Valid(r.world) && Ranked(r.world, rank)
  {
    var w0 := ResetAll(g.world, g.nodes);
    RankedShape(g.world, w0, rank);
    var r := Walk(env, w0, rank, Roots(w0, g.nodes));
    SameShapeTransitive(g.world, w0, r.world);
    r
  }

  /** The paths from each root, root after root. */
  function PathsFrom(w: World, rank: map<NodeRef, nat>, roots: seq<NodeRef>): seq<NodeRef>
    requires Valid(w) && Ranked(w, rank) && forall m | m in roots :: m in w.nodes
    decreases |roots|
  {
    if roots == [] then []
    else
      var init := roots[..|roots| - 1];
      assert forall m | m in init :: m in roots;
      PathsFrom(w, rank, init) + Paths(w, rank, roots[|roots| - 1])
  }

  /** A cut of the paths from each root, root after root. */
  ghost predicate PrunedFrom(w: World, rank: map<NodeRef, nat>, roots: seq<NodeRef>, t: seq<NodeRef>)
    requires Valid(w) && Ranked(w, rank) && forall m | m in roots :: m in w.nodes
    decreases |roots|
  {
    if roots == [] then t == []
    else
      var init := roots[..|roots| - 1];
      assert forall m | m in init :: m in roots;
      exists k | 0 <= k <= |t| :: PrunedFrom(w, rank, init, t[..k]) && PrunedPaths(w, rank, roots[|roots| - 1], t[k..])
  }

  lemma {:induction false} WalkPruned(env: Env, w0: World, w: World, rank: map<NodeRef, nat>, roots: seq<NodeRef>)
    requires Valid(w0) && Ranked(w0, rank) && forall m | m in roots :: m in w0.nodes
    requires Valid(w) && Ranked(w, rank) && SameShape(w0, w)
    ensures PrunedFrom(w0, rank, roots, Walk(env, w, rank, roots).trace)
    decreases |roots|
  {
    if roots != [] {
      var init := roots[..|roots| - 1];
      assert forall m | m in init :: m in roots;
      WalkPruned(env, w0, w, rank, init);
      var before := Walk(env, w, rank, init);
      SameShapeTransitive(w0, w, before.world);
      VisitPruned(env, w0, before.world, rank, roots[|roots| - 1]);
      var last := Visit(env, before.world, rank, roots[|roots| - 1]);
      var t := before.trace + last.trace;
      assert t[..|before.trace|] == before.trace && t[|before.trace|..] == last.trace;
    }
  }

  lemma {:induction false} PrunedFromFull(w: World, rank: map<NodeRef, nat>, roots: seq<NodeRef>, t: seq<NodeRef>)
    requires Valid(w) && Ranked(w, rank) && forall m | m in roots :: m in w.nodes
    requires AllInfallible(w, PathsFrom(w, rank, roots)) && PrunedFrom(w, rank, roots, t)
    ensures t == PathsFrom(w, rank, roots)
    decreases |roots|
  {
    if roots != [] {
      var init := roots[..|roots| - 1];
      assert forall m | m in init :: m in roots;
      var k := PrunedFromSplit(w, rank, roots, t);
      var front := PathsFrom(w, rank, init);
      var back := Paths(w, rank, roots[|roots| - 1]);
      assert PathsFrom(w, rank, roots) == front + back;
      assert AllInfallible(w, front) && AllInfallible(w, back) by {
        assert forall m | m in front || m in back :: m in front + back;
      }
      PrunedFromFull(w, rank, init, t[..k]);
      PrunedFull(w, rank, roots[|roots| - 1], t[k..]);
      assert t == t[..k] + t[k..];
    }
  }

  /** Where a cut of the paths from several roots splits into the cut for
      all but the last root and the cut for the last. */
  lemma PrunedFromSplit(w: World, rank: map<NodeRef, nat>, roots: seq<NodeRef>, t: seq<NodeRef>) returns (k: nat)
    requires Valid(w) && Ranked(w, rank) && roots != [] && forall m | m in roots :: m in w.nodes
    requires PrunedFrom(w, rank, roots, t)
    ensures var init := roots[..|roots| - 1];
      && (forall m | m in init :: m in roots)
      && k <= |t| && PrunedFrom(w, rank, init, t[..k]) && PrunedPaths(w, rank, roots[|roots| - 1], t[k..])
  {
    var init := roots[..|roots| - 1];
    assert forall m | m in init :: m in roots;
    k :| 0 <= k <= |t| && PrunedFrom(w, rank, init, t[..k]) && PrunedPaths(w, rank, roots[|roots| - 1], t[k..]);
  }

  /** A pass computes the ends of the paths from the roots, root by root in
      `nodes` order, each in depth-first order and cut below every node
      whose compute fails. */
  lemma PassPruned(env: Env, g: Graph, rank: map<NodeRef, nat>)
    requires Listed(g) && Ranked(g.world, rank)
    ensures PrunedFrom(g.world, rank, Roots(g.world, g.nodes), Pass(env, g, rank).trace)
  {
    var w0 := ResetAll(g.world, g.nodes);
    RankedShape(g.world, w0, rank);
    RootsShape(g.world, w0, g.nodes);
    WalkPruned(env, g.world, w0, rank, Roots(w0, g.nodes));
  }

  /** When every node on the paths from the roots has a kind that cannot
      fail, a pass computes exactly the ends of all those paths, root by
      root in `nodes` order, each in depth-first order. */
  lemma PassPaths(env: Env, g: Graph, rank: map<NodeRef, nat>)
    requires Listed(g) && Ranked(g.world, rank)
    requires AllInfallible(g.world, PathsFrom(g.world, rank, Roots(g.world, g.nodes)))
    ensures Pass(env, g, rank).trace == PathsFrom(g.world, rank, Roots(g.world, g.nodes))
  {
    PassPruned(env, g, rank);
    PrunedFromFull(g.world, rank, Roots(g.world, g.nodes), Pass(env, g, rank).trace);
  }

  lemma {:induction false} WalkConfined(env: Env, w: World, rank: map<NodeRef, nat>, roots: seq<NodeRef>)
    requires Valid(w) && Ranked(w, rank) && forall m | m in roots :: m in w.nodes
    ensures var r := Walk(env, w, rank, roots); Confined(w, r.world, Reached(r.trace))
    decreases |roots|
  {
    if roots == [] {
      assert Confined(w, w, {});
    } else {
      var init := roots[..|roots| - 1];
      assert forall m | m in init :: m in roots;
      WalkConfined(env, w, rank, init);
      var before := Walk(env, w, rank, init);
      VisitConfined(env, before.world, rank, roots[|roots| - 1]);
      WalkStep(env, w, rank, roots);
    }
  }

  /** The last root's visit extends the confinement of the ones before. */
  lemma WalkStep(env: Env, w: World, rank: map<NodeRef, nat>, roots: seq<NodeRef>)
    requires Valid(w) && Ranked(w, rank) && roots != [] && forall m | m in roots :: m in w.nodes
    requires var before := Walk(env, w, rank, roots[..|roots| - 1]);
      && Confined(w, before.world, Reached(before.trace))
      && var last := Visit(env, before.world, rank, roots[|roots| - 1]);
         Confined(before.world, last.world, Reached(last.trace))
    ensures var r := Walk(env, w, rank, roots); Confined(w, r.world, Reached(r.trace))
  {
    var init := roots[..|roots| - 1];
    var before := Walk(env, w, rank, init);
    var last := Visit(env, before.world, rank, roots[|roots| - 1]);
    ReachedConcat(before.trace, last.trace);
    ConfinedTransitive(w, before.world, last.world, Reached(before.trace), Reached(last.trace));
  }

  /** Every root is computed at least once. */
  lemma {:induction false} WalkReachesRoots(env: Env, w: World, rank: map<NodeRef, nat>, roots: seq<NodeRef>)
    requires Valid(w) && Ranked(w, rank) && forall m | m in roots :: m in w.nodes
    ensures forall m | m in roots :: m in Walk(env, w, rank, roots).trace
    decreases |roots|
  {
    if roots != [] {
      var init := roots[..|roots| - 1];
      assert forall m | m in init :: m in roots;
      WalkReachesRoots(env, w, rank, init);
      assert roots == init + [roots[|roots| - 1]];
    }
  }

  /** What a pass leaves: every root is computed; a listed node the pass
      never reaches keeps the (true, "Ok") of the reset; an unlisted node
      it never reaches is untouched; and an output of a node it never
      reaches keeps its value. */
  lemma PassEffect(env: Env, g: Graph, rank: map<NodeRef, nat>)
    requires Listed(g) && Ranked(g.world, rank)
    ensures var r := Pass(env, g, rank);
      && (forall m | m in Roots(g.world, g.nodes) :: m in r.trace)
      && (forall m | m in g.nodes && m !in r.trace :: r.world.nodes[m].status && r.world.nodes[m].statusMessage == "Ok")
      && (forall m | m in g.world.nodes && m !in g.nodes && m !in r.trace :: r.world.nodes[m] == g.world.nodes[m])
      && (forall p | p in g.world.ports && !g.world.ports[p].isInput && g.world.ports[p].owner.Some? &&
            g.world.ports[p].owner.value !in r.trace :: r.world.ports[p] == g.world.ports[p])
  {
    var w0 := ResetAll(g.world, g.nodes);
    RankedShape(g.world, w0, rank);
    RootsShape(g.world, w0, g.nodes);
    WalkConfined(env, w0, rank, Roots(w0, g.nodes));
    WalkReachesRoots(env, w0, rank, Roots(w0, g.nodes));
  }

  /** The ports keep everything but their connections, values and
      selections. */
  ghost predicate Rewired(ps: Ports, ps': Ports) {
    && ps'.Keys == ps.Keys
    && forall p | p in ps ::
         && ps'[p].id == ps[p].id && ps'[p].portType == ps[p].portType && ps'[p].owner == ps[p].owner
         && ps'[p].isInput == ps[p].isInput && ps'[p].allowConnections == ps[p].allowConnections
         && ps'[p].canEdit == ps[p].canEdit && ps'[p].choice.Some? == ps[p].choice.Some?
  }

  lemma RewiredValid(w: World, ps: Ports)
    requires Valid(w) && Rewired(w.ports, ps) && WellFormed(ps)
    ensures Valid(w.(ports := ps))
  {
    forall n | n in w.nodes
      ensures Attached(w.(ports := ps), n)
    {
      assert Attached(w, n);
    }
  }

  lemma LinkedRewired(ps: Ports, from: PortRef, to: PortRef)
    requires WellFormed(ps) && from in ps && to in ps
    ensures Rewired(ps, Linked(ps, from, to)) && WellFormed(Linked(ps, from, to))
  {
    ConnectToEffect(ps, from, to);
  }

  /** The guard of `addConnection`: the two ports sit on different sides
      and `toIO` has no connection yet. */
  predicate Guard(g: Graph, from: PortRef, to: PortRef)
    requires from in g.world.ports && to in g.world.ports
  {
    g.world.ports[from].isInput != g.world.ports[to].isInput && |g.world.ports[to].connections| == 0
  }

  /** The graph once the guard has passed: `fromIO.connectTo(toIO)` and the
      pushed record, before the `compute()` that follows. */
  function Wired(g: Graph, from: PortRef, to: PortRef): (r: Graph)
    requires Listed(g) && from in g.world.ports && to in g.world.ports
    ensures Listed(r) && r.nodes == g.nodes && r.world.nodes == g.world.nodes
    ensures r.world.ports.Keys == g.world.ports.Keys
  {
    var ps := Linked(g.world.ports, from, to);
    LinkedRewired(g.world.ports, from, to);
    RewiredValid(g.world, ps);
    Graph(g.world.(ports := ps), g.nodes, g.connections + [Connection(from, to)])
  }

  /** `addConnection(fromIO, toIO)`: nothing unless the guard passes;
      otherwise link, record, and run `compute()`. */
  function Added(env: Env, g: Graph, from: PortRef, to: PortRef, rank: map<NodeRef, nat>): (r: Graph)
    requires Listed(g) && from in g.world.ports && to in g.world.ports
    requires Guard(g, from, to) ==> Ranked(Wired(g, from, to).world, rank)
    ensures Listed(r) && r.nodes == g.nodes && r.world.ports.Keys == g.world.ports.Keys
  {
    if !Guard(g, from, to) then g
    else
      var gw := Wired(g, from, to);
      gw.(world := Pass(env, gw, rank).world)
  }

  /** A pass rewires nothing: the records and the ports' lists tell the
      same story after it as before. */
  lemma ConsistentShape(g: Graph, w: World)
    requires Consistent(g) && SameShape(g.world, w)
    ensures Consistent(g.(world := w))
  {
    ShapeValid(g.world, w);
    forall p | p in g.world.ports
      ensures SamePort(g.world.ports[p], w.ports[p])
    {
    }
  }

  /** A refused `addConnection` changes nothing: no record, no list, no
      value, no compute. */
  lemma AddRefused(env: Env, g: Graph, from: PortRef, to: PortRef, rank: map<NodeRef, nat>)
    requires Listed(g) && from in g.world.ports && to in g.world.ports
    requires g.world.ports[from].isInput == g.world.ports[to].isInput || |g.world.ports[to].connections| > 0
    ensures Added(env, g, from, to, rank) == g
  {
  }

  /** An output that allows connections wired to an unconnected input:
      exactly one record is appended, each port lists the other, no other
      list changes, every input listed by the output holds the output's
      value, and then a full pass runs, which rewires nothing. */
  lemma AddLinks(env: Env, g: Graph, from: PortRef, to: PortRef, rank: map<NodeRef, nat>)
    requires Listed(g) && from in g.world.ports && to in g.world.ports
    requires !g.world.ports[from].isInput && g.world.ports[from].allowConnections
    requires g.world.ports[to].isInput && |g.world.ports[to].connections| == 0
    requires Ranked(Wired(g, from, to).world, rank)
    ensures var ps := g.world.ports;
      var gw := Wired(g, from, to);
      var ps' := gw.world.ports;
      var r := Added(env, g, from, to, rank);
      && r.connections == g.connections + [Connection(from, to)]
      && ps'[to].connections == [from] && ps'[from].connections == ps[from].connections + [to]
      && (forall q | q in ps && q != from && q != to :: ps'[q].connections == ps[q].connections)
      && (forall q | q in ps'[from].connections :: ps'[q].value == ps[from].value)
      && r.world == Pass(env, gw, rank).world
      && (forall q | q in ps :: r.world.ports[q].connections == ps'[q].connections)
  {
    ConnectToEffect(g.world.ports, from, to);
    var gw := Wired(g, from, to);
    var r := Pass(env, gw, rank);
    forall q | q in g.world.ports
      ensures r.world.ports[q].connections == gw.world.ports[q].connections
    {
      assert SamePort(gw.world.ports[q], r.world.ports[q]);
    }
  }

  /** For an output that allows connections and an unconnected input,
      `addConnection` keeps records and lists in agreement. */
  lemma AddConsistent(env: Env, g: Graph, from: PortRef, to: PortRef, rank: map<NodeRef, nat>)
    requires Consistent(g) && from in g.world.ports && to in g.world.ports
    requires !g.world.ports[from].isInput && g.world.ports[from].allowConnections
    requires g.world.ports[to].isInput && |g.world.ports[to].connections| == 0
    requires Ranked(Wired(g, from, to).world, rank)
    ensures Consistent(Added(env, g, from, to, rank))
  {
    var gw := Wired(g, from, to);
    WiredConsistent(g, from, to);
    ConsistentShape(gw, Pass(env, gw, rank).world);
  }

  lemma WiredConsistent(g: Graph, from: PortRef, to: PortRef)
    requires Consistent(g) && from in g.world.ports && to in g.world.ports
    requires !g.world.ports[from].isInput && g.world.ports[from].allowConnections
    requires g.world.ports[to].isInput && |g.world.ports[to].connections| == 0
    ensures Consistent(Wired(g, from, to))
  {
    ConnectToEffect(g.world.ports, from, to);
    LinkedRewired(g.world.ports, from, to);
    AppendedConsistent(g, Wired(g, from, to), from, to);
  }

  /** `from` and `to` list each other in `g2`, one record is appended, and
      nothing else is rewired. */
  lemma AppendedConsistent(g: Graph, g2: Graph, from: PortRef, to: PortRef)
    requires Consistent(g) && Listed(g2) && from in g.world.ports && to in g.world.ports
    requires !g.world.ports[from].isInput && g.world.ports[to].isInput && |g.world.ports[to].connections| == 0
    requires Rewired(g.world.ports, g2.world.ports)
    requires g2.connections == g.connections + [Connection(from, to)]
    requires g2.world.ports[to].connections == [from]
    requires g2.world.ports[from].connections == g.world.ports[from].connections + [to]
    requires forall q | q in g.world.ports && q != from && q != to ::
      g2.world.ports[q].connections == g.world.ports[q].connections
    ensures Consistent(g2)
  {
    AppendedRecords(g, g2, from, to);
    AppendedSymmetric(g, g2, from, to);
    AppendedListed(g, g2, from, to);
  }

  lemma AppendedRecords(g: Graph, g2: Graph, from: PortRef, to: PortRef)
    requires Consistent(g) && Listed(g2) && from in g.world.ports && to in g.world.ports
    requires !g.world.ports[from].isInput && g.world.ports[to].isInput && |g.world.ports[to].connections| == 0
    requires Rewired(g.world.ports, g2.world.ports)
    requires g2.connections == g.connections + [Connection(from, to)]
    requires g2.world.ports[to].connections == [from]
    requires g2.world.ports[from].connections == g.world.ports[from].connections + [to]
    requires forall q | q in g.world.ports && q != from && q != to ::
      g2.world.ports[q].connections == g.world.ports[q].connections
    ensures forall c | c in g2.connections :: Oriented(g2.world.ports, c) && c.to in g2.world.ports[c.from].connections
  {
    forall c | c in g2.connections
      ensures Oriented(g2.world.ports, c) && c.to in g2.world.ports[c.from].connections
    {
      if c != Connection(from, to) {
        assert c in g.connections;
      }
    }
  }

  lemma AppendedSymmetric(g: Graph, g2: Graph, from: PortRef, to: PortRef)
    requires Consistent(g) && Listed(g2) && from in g.world.ports && to in g.world.ports
    requires !g.world.ports[from].isInput && g.world.ports[to].isInput && |g.world.ports[to].connections| == 0
    requires Rewired(g.world.ports, g2.world.ports)
    requires g2.connections == g.connections + [Connection(from, to)]
    requires g2.world.ports[to].connections == [from]
    requires g2.world.ports[from].connections == g.world.ports[from].connections + [to]
    requires forall q | q in g.world.ports && q != from && q != to ::
      g2.world.ports[q].connections == g.world.ports[q].connections
    ensures forall p, q | p in g2.world.ports && q in g2.world.ports[p].connections :: p in g2.world.ports[q].connections
  {
    var ps := g.world.ports;
    var ps' := g2.world.ports;
    forall p, q | p in ps' && q in ps'[p].connections
      ensures p in ps'[q].connections
    {
      if p != from && p != to {
        assert q in ps[p].connections && p in ps[q].connections;
        assert q != to by {
          assert |ps[to].connections| == 0;
        }
      } else if p == to {
        assert q == from;
      } else if q != to {
        assert q in ps[from].connections && from in ps[q].connections;
      }
    }
  }

  lemma AppendedListed(g: Graph, g2: Graph, from: PortRef, to: PortRef)
    requires Consistent(g) && Listed(g2) && from in g.world.ports && to in g.world.ports
    requires !g.world.ports[from].isInput && g.world.ports[to].isInput && |g.world.ports[to].connections| == 0
    requires Rewired(g.world.ports, g2.world.ports)
    requires g2.connections == g.connections + [Connection(from, to)]
    requires g2.world.ports[to].connections == [from]
    requires g2.world.ports[from].connections == g.world.ports[from].connections + [to]
    requires forall q | q in g.world.ports && q != from && q != to ::
      g2.world.ports[q].connections == g.world.ports[q].connections
    ensures forall p, q | p in g2.world.ports && !g2.world.ports[p].isInput && q in g2.world.ports[p].connections ::
      Connection(p, q) in g2.connections
  {
    var ps := g.world.ports;
    var ps' := g2.world.ports;
    forall p, q | p in ps' && !ps'[p].isInput && q in ps'[p].connections
      ensures Connection(p, q) in g2.connections
    {
      if p == from && q == to {
        assert g2.connections[|g.connections|] == Connection(from, to);
      } else {
        assert q in ps[p].connections;
        assert Connection(p, q) in g.connections;
      }
    }
  }

  /** `addConnection(input, output)` passes the guard, since the two sides
      differ and the output has no connection, but `connectTo` refuses to
      start from an input: the record is pushed while no list changes, so
      records and lists no longer agree. */
  lemma RecordWithoutLink(env: Env, g: Graph, from: PortRef, to: PortRef, rank: map<NodeRef, nat>)
    requires Listed(g) && Ranked(g.world, rank) && from in g.world.ports && to in g.world.ports
    requires g.world.ports[from].isInput && !g.world.ports[to].isInput
    requires |g.world.ports[to].connections| == 0
    ensures Guard(g, from, to) && Ranked(Wired(g, from, to).world, rank)
    ensures var r := Added(env, g, from, to, rank);
      && r.connections == g.connections + [Connection(from, to)]
      && (forall q | q in g.world.ports :: r.world.ports[q].connections == g.world.ports[q].connections)
      && !Consistent(r)
  {
    ConnectToEffect(g.world.ports, from, to);
    var gw := Wired(g, from, to);
    assert gw.world == g.world;
    var r := Added(env, g, from, to, rank);
    forall q | q in g.world.ports
      ensures r.world.ports[q].connections == g.world.ports[q].connections
    {
      assert SamePort(gw.world.ports[q], r.world.ports[q]);
    }
    assert Connection(from, to) in r.connections;
    assert r.world.ports[from].isInput;
  }

  /** Nothing stops an output from being wired to an input of its own node:
      the guard passes, and the graph then has no rank, so `compute()`
      would recurse without end. */
  lemma SelfLoopUnranked(g: Graph, n: NodeRef, k: nat, j: nat)
    requires Listed(g) && n in g.world.nodes
    requires k < |g.world.nodes[n].outputs| && j < |g.world.nodes[n].inputs|
    requires var from := g.world.nodes[n].outputs[k].port;
      from in g.world.ports && g.world.ports[from].allowConnections
    requires var to := g.world.nodes[n].inputs[j].port;
      to in g.world.ports && |g.world.ports[to].connections| == 0
    ensures var from := g.world.nodes[n].outputs[k].port;
      var to := g.world.nodes[n].inputs[j].port;
      && Guard(g, from, to)
      && forall rank :: !Ranked(Wired(g, from, to).world, rank)
  {
    var from := g.world.nodes[n].outputs[k].port;
    var to := g.world.nodes[n].inputs[j].port;
    assert Attached(g.world, n);
    assert g.world.nodes[n].outputs[k] in g.world.nodes[n].outputs;
    assert g.world.nodes[n].inputs[j] in g.world.nodes[n].inputs;
    ConnectToEffect(g.world.ports, from, to);
    var w := Wired(g, from, to).world;
    assert to in w.ports[w.nodes[n].outputs[k].port].connections;
    assert n in Targets(w, n);
  }

  /** Lists only lose peers; nothing else about a port is rewired. */
  ghost predicate Pruned(ps: Ports, ps': Ports) {
    Rewired(ps, ps') && forall p, q | p in ps && q in ps'[p].connections :: q in ps[p].connections
  }

  lemma PrunedWellFormed(ps: Ports, ps': Ports)
    requires WellFormed(ps) && Pruned(ps, ps')
    ensures WellFormed(ps')
  {
  }

  lemma PrunedWiring(ps: Ports, ps1: Ports, ps2: Ports)
    requires Pruned(ps, ps1) && SameWiring(ps1, ps2)
    ensures Pruned(ps, ps2)
  {
    forall p | p in ps
      ensures SamePort(ps1[p], ps2[p])
    {
    }
  }

  /** `p.connections = p.connections.filter(io => io !== x)`. */
  function Filtered(ps: Ports, p: PortRef, x: PortRef): (r: Ports)
    requires p in ps
    ensures Pruned(ps, r)
    ensures forall q :: q in r[p].connections <==> q in ps[p].connections && q != x
    ensures forall q | q in ps && q != p :: r[q] == ps[q]
    ensures forall q | q in ps :: r[q].value == ps[q].value && |r[q].connections| <= |ps[q].connections|
  {
    ps[p := ps[p].(connections := Text.Without(ps[p].connections, x))]
  }

  lemma PrunedTransitive(a: Ports, b: Ports, c: Ports)
    requires Pruned(a, b) && Pruned(b, c)
    ensures Pruned(a, c)
  {
  }

  /** The two filters of `removeConnection`: `fromIO`'s list drops `toIO`,
      then `toIO`'s list drops `fromIO`. */
  function Unlisted(ps: Ports, f: PortRef, t: PortRef): (r: Ports)
    requires f in ps && t in ps
    ensures Pruned(ps, r)
    ensures forall q :: q in r[f].connections <==> q in ps[f].connections && q != t
    ensures forall q :: q in r[t].connections <==> q in ps[t].connections && q != f
    ensures forall q | q in ps && q != f && q != t :: r[q] == ps[q]
    ensures forall q | q in ps :: r[q].value == ps[q].value && |r[q].connections| <= |ps[q].connections|
  {
    var ps1 := Filtered(ps, f, t);
    var r := Filtered(ps1, t, f);
    PrunedTransitive(ps, ps1, r);
    r
  }

  /** `removeConnection(fromIO, toIO)`: the matching records are filtered
      out, each port's list drops the other, and `toIO.setValue(null)`;
      there is no compute. */
  function Removed(g: Graph, f: PortRef, t: PortRef): (r: Graph)
    requires Listed(g) && f in g.world.ports && t in g.world.ports
    ensures Listed(r) && r.nodes == g.nodes && r.world.nodes == g.world.nodes
    ensures Pruned(g.world.ports, r.world.ports)
  {
    var ps := g.world.ports;
    var ps2 := Unlisted(ps, f, t);
    PrunedWellFormed(ps, ps2);
    var ps3 := WithValue(ps2, t, Null);
    PrunedWiring(ps, ps2, ps3);
    RewiredValid(g.world, ps3);
    Graph(g.world.(ports := ps3), g.nodes, Text.Without(g.connections, Connection(f, t)))
  }

  /** `removeConnection` drops exactly the records of that pair, and each
      of the two ports drops exactly the other from its list; `toIO` holds
      null afterwards, and so does every input it still lists when it is an
      output; no other value, no other list and no status changes. */
  lemma RemoveEffect(g: Graph, f: PortRef, t: PortRef)
    requires Listed(g) && f in g.world.ports && t in g.world.ports
    ensures var ps := g.world.ports;
      var r := Removed(g, f, t);
      var ps' := r.world.ports;
      && (forall c :: c in r.connections <==> c in g.connections && c != Connection(f, t))
      && (forall q :: q in ps'[f].connections <==> q in ps[f].connections && q != t)
      && (forall q :: q in ps'[t].connections <==> q in ps[t].connections && q != f)
      && (forall q | q in ps && q != f && q != t :: ps'[q].connections == ps[q].connections)
      && ps'[t].value == Null
      && (ps[t].isInput ==> forall q | q in ps && q != t :: ps'[q].value == ps[q].value)
      && (!ps[t].isInput ==> forall q | q in ps'[t].connections :: ps'[q].value == Null)
      && (forall q | q in ps :: |ps'[q].connections| <= |ps[q].connections|)
      && r.world.nodes == g.world.nodes
  {
  }

  /** The part of `RemoveEffect` about the records and `toIO`'s list. */
  lemma RemoveTarget(g: Graph, f: PortRef, t: PortRef)
    requires Listed(g) && f in g.world.ports && t in g.world.ports
    ensures forall c :: c in Removed(g, f, t).connections <==> c in g.connections && c != Connection(f, t)
    ensures forall q :: q in Removed(g, f, t).world.ports[t].connections <==> q in g.world.ports[t].connections && q != f
  {
  }

  /** Removing a recorded output-to-input pair keeps records and lists in
      agreement. */
  lemma RemoveConsistent(g: Graph, f: PortRef, t: PortRef)
    requires Consistent(g) && Oriented(g.world.ports, Connection(f, t))
    ensures Consistent(Removed(g, f, t))
  {
    RemoveEffect(g, f, t);
    var r := Removed(g, f, t);
    DroppedRecords(g, r, f, t);
    DroppedSymmetric(g, r, f, t);
    DroppedListed(g, r, f, t);
  }

  /** `f` and `t` no longer list each other in `g2`, their records are
      gone, and nothing else is rewired. */
  lemma DroppedRecords(g: Graph, g2: Graph, f: PortRef, t: PortRef)
    requires Consistent(g) && Listed(g2) && Oriented(g.world.ports, Connection(f, t))
    requires Pruned(g.world.ports, g2.world.ports)
    requires forall c :: c in g2.connections <==> c in g.connections && c != Connection(f, t)
    requires forall q :: q in g2.world.ports[f].connections <==> q in g.world.ports[f].connections && q != t
    requires forall q :: q in g2.world.ports[t].connections <==> q in g.world.ports[t].connections && q != f
    requires forall q | q in g.world.ports && q != f && q != t ::
      g2.world.ports[q].connections == g.world.ports[q].connections
    ensures forall c | c in g2.connections :: Oriented(g2.world.ports, c) && c.to in g2.world.ports[c.from].connections
  {
    forall c | c in g2.connections
      ensures Oriented(g2.world.ports, c) && c.to in g2.world.ports[c.from].connections
    {
      assert c in g.connections;
      assert c.to in g.world.ports[c.from].connections;
    }
  }

  lemma DroppedSymmetric(g: Graph, g2: Graph, f: PortRef, t: PortRef)
    requires Consistent(g) && Listed(g2) && Oriented(g.world.ports, Connection(f, t))
    requires Pruned(g.world.ports, g2.world.ports)
    requires forall c :: c in g2.connections <==> c in g.connections && c != Connection(f, t)
    requires forall q :: q in g2.world.ports[f].connections <==> q in g.world.ports[f].connections && q != t
    requires forall q :: q in g2.world.ports[t].connections <==> q in g.world.ports[t].connections && q != f
    requires forall q | q in g.world.ports && q != f && q != t ::
      g2.world.ports[q].connections == g.world.ports[q].connections
    ensures forall p, q | p in g2.world.ports && q in g2.world.ports[p].connections :: p in g2.world.ports[q].connections
  {
    var ps := g.world.ports;
    var ps' := g2.world.ports;
    forall p, q | p in ps' && q in ps'[p].connections
      ensures p in ps'[q].connections
    {
      assert q in ps[p].connections && p in ps[q].connections;
    }
  }

  lemma DroppedListed(g: Graph, g2: Graph, f: PortRef, t: PortRef)
    requires Consistent(g) && Listed(g2) && Oriented(g.world.ports, Connection(f, t))
    requires Pruned(g.world.ports, g2.world.ports)
    requires forall c :: c in g2.connections <==> c in g.connections && c != Connection(f, t)
    requires forall q :: q in g2.world.ports[f].connections <==> q in g.world.ports[f].connections && q != t
    requires forall q :: q in g2.world.ports[t].connections <==> q in g.world.ports[t].connections && q != f
    requires forall q | q in g.world.ports && q != f && q != t ::
      g2.world.ports[q].connections == g.world.ports[q].connections
    ensures forall p, q | p in g2.world.ports && !g2.world.ports[p].isInput && q in g2.world.ports[p].connections ::
      Connection(p, q) in g2.connections
  {
    var ps := g.world.ports;
    var ps' := g2.world.ports;
    forall p, q | p in ps' && !ps'[p].isInput && q in ps'[p].connections
      ensures Connection(p, q) in g2.connections
    {
      assert q in ps[p].connections;
      assert Connection(p, q) in g.connections;
    }
  }

  /** `_createNodeOfType(id, x, y)`: an unknown id changes nothing;
      otherwise the registered class is constructed and `addNode` pushes
      it onto `nodes`. There is no compute. */
  function Created(g: Graph, reg: seq<Registry.NodeType>, id: string): (r: Graph)
    requires Listed(g)
    ensures Listed(r)
    ensures id !in Registry.TypeIds(reg) ==> r == g
  {
    match Registry.Lookup(reg, id)
    case None => g
    case Some(t) =>
      Catalogue.ConstructIsBuild(g.world, t.kind);
      Catalogue.BuildWorld(g.world, t.kind, Catalogue.Constructor(t.kind));
      Graph(Catalogue.Construct(g.world, t.kind), g.nodes + [g.world.next], g.connections)
  }

  /** Every node and port of `w` is in `w2` unchanged, and the ports `w2`
      adds have no connections. */
  ghost predicate Grown(w: World, w2: World) {
    && (forall m | m in w.nodes :: m in w2.nodes && w2.nodes[m] == w.nodes[m])
    && (forall q | q in w.ports :: q in w2.ports && w2.ports[q] == w.ports[q])
    && (forall q | q in w2.ports && q !in w.ports :: w2.ports[q].connections == [])
  }

  /** A registered id appends exactly one new node, of the registered
      class, status (true, "Ok"); every node and port that existed is
      untouched, no record changes, the new ports are unconnected, and
      records and lists still agree. */
  lemma CreateEffect(g: Graph, reg: seq<Registry.NodeType>, id: string)
    requires Consistent(g) && id in Registry.TypeIds(reg)
    ensures var r := Created(g, reg, id);
      var n := g.world.next;
      && n !in g.world.nodes && n in r.world.nodes
      && r.nodes == g.nodes + [n]
      && r.world.nodes[n].kind == Registry.Lookup(reg, id).value.kind
      && r.world.nodes[n].status && r.world.nodes[n].statusMessage == "Ok"
      && Grown(g.world, r.world)
      && r.connections == g.connections
      && Consistent(r)
  {
    var t := Registry.Lookup(reg, id).value;
    var l := Catalogue.Constructor(t.kind);
    Catalogue.ConstructIsBuild(g.world, t.kind);
    Catalogue.BuildWorld(g.world, t.kind, l);
    Catalogue.BuildNode(g.world, t.kind, l);
    Catalogue.BuildUnlinked(g.world, t.kind, l);
    var r := Created(g, reg, id);
    assert r.world == Catalogue.Build(g.world, t.kind, l);
    CreatedConsistent(g, r);
  }

  /** Objects added to a consistent graph with empty lists keep it
      consistent. */
  lemma CreatedConsistent(g: Graph, g2: Graph)
    requires Consistent(g) && Listed(g2) && g2.connections == g.connections && Grown(g.world, g2.world)
    ensures Consistent(g2)
  {
    var ps := g.world.ports;
    var ps' := g2.world.ports;
    forall p, q | p in ps' && q in ps'[p].connections
      ensures p in ps'[q].connections
    {
      assert p in ps && q in ps;
    }
  }

  /** A list of at most one port that lost its only member is empty. */
  lemma LostOnly(xs: seq<PortRef>, ys: seq<PortRef>, x: PortRef)
    requires |xs| <= 1 && x in xs && x !in ys && forall y | y in ys :: y in xs
    ensures ys == [] && xs != []
  {
    NonEmpty(ys);
  }

  /** A list that is not empty holds its first element. */
  lemma NonEmpty(xs: seq<PortRef>)
    ensures xs == [] || xs[0] in xs
  {
  }

  /** The first half of the drop onto input `to`: an input that already
      has a connection first loses it, through `removeConnection` from its
      first listed peer. */
  function Cleared(g: Graph, to: PortRef): (r: Graph)
    requires Listed(g) && to in g.world.ports
    ensures Listed(r) && r.nodes == g.nodes && r.world.nodes == g.world.nodes
    ensures r.world.ports.Keys == g.world.ports.Keys
  {
    var ps := g.world.ports;
    if ps[to].connections != [] then
      assert ps[to].connections[0] in ps;
      Removed(g, ps[to].connections[0], to)
    else g
  }

  /** The graph after the drop has a rank whenever the new link is made. */
  ghost predicate Droppable(g: Graph, from: PortRef, to: PortRef, rank: map<NodeRef, nat>) {
    && Listed(g) && from in g.world.ports && to in g.world.ports
    && var g1 := Cleared(g, to); Guard(g1, from, to) ==> Ranked(Wired(g1, from, to).world, rank)
  }

  /** `_onConnectionDrop` once the hit test has chosen input `to`: clear
      it, then `addConnection(fromIO, to)`. */
  function Dropped(env: Env, g: Graph, from: PortRef, to: PortRef, rank: map<NodeRef, nat>): (r: Graph)
    requires Droppable(g, from, to, rank)
    ensures Listed(r) && r.nodes == g.nodes && r.world.ports.Keys == g.world.ports.Keys
  {
    Added(env, Cleared(g, to), from, to, rank)
  }

  /** Clearing an input of a consistent graph empties its list, drops the
      records that end at it and keeps records and lists in agreement. */
  lemma ClearedEffect(g: Graph, to: PortRef)
    requires Consistent(g) && to in g.world.ports && g.world.ports[to].isInput
    ensures var g1 := Cleared(g, to);
      && Consistent(g1)
      && g1.world.ports[to].connections == []
      && (forall c :: c in g1.connections <==> c in g.connections && c.to != to)
  {
    var ps := g.world.ports;
    if ps[to].connections != [] {
      var x := ps[to].connections[0];
      assert x in ps[to].connections;
      assert Oriented(ps, Connection(x, to));
      RemoveConsistent(g, x, to);
      ClearedOccupied(g, x, to);
    } else {
      forall c | c in g.connections
        ensures c.to != to
      {
        assert c.from in ps[c.to].connections;
      }
    }
  }

  lemma ClearedOccupied(g: Graph, x: PortRef, to: PortRef)
    requires Consistent(g) && to in g.world.ports && g.world.ports[to].isInput
    requires x in g.world.ports[to].connections
    ensures var g1 := Removed(g, x, to);
      && g1.world.ports[to].connections == []
      && (forall c :: c in g1.connections <==> c in g.connections && c.to != to)
  {
    RemoveTarget(g, x, to);
    TargetEmptied(g, Removed(g, x, to), x, to);
  }

  lemma TargetEmptied(g: Graph, g1: Graph, x: PortRef, to: PortRef)
    requires Consistent(g) && to in g.world.ports && g.world.ports[to].isInput
    requires x in g.world.ports[to].connections && to in g1.world.ports
    requires forall c :: c in g1.connections <==> c in g.connections && c != Connection(x, to)
    requires forall q :: q in g1.world.ports[to].connections <==> q in g.world.ports[to].connections && q != x
    ensures g1.world.ports[to].connections == []
    ensures forall c :: c in g1.connections <==> c in g.connections && c.to != to
  {
    LostOnly(g.world.ports[to].connections, g1.world.ports[to].connections, x);
    ClearedRecords(g, g1, x, to);
  }

  /** Dropping a connection from an output that allows connections onto an
      input of a consistent graph replaces whatever fed the input: its old
      record goes, the new one is appended, the input lists exactly the
      output, and records and lists still agree. */
  lemma DropReplaces(env: Env, g: Graph, from: PortRef, to: PortRef, rank: map<NodeRef, nat>)
    requires Consistent(g) && Droppable(g, from, to, rank)
    requires !g.world.ports[from].isInput && g.world.ports[from].allowConnections && g.world.ports[to].isInput
    ensures var r := Dropped(env, g, from, to, rank);
      && Consistent(r)
      && r.world.ports[to].connections == [from]
      && to in r.world.ports[from].connections
      && (forall c :: c in r.connections <==> (c in g.connections && c.to != to) || c == Connection(from, to))
  {
    var g1 := Cleared(g, to);
    ClearedEffect(g, to);
    AddReplaces(env, g1, from, to, rank);
    Replaced(g1.connections, g.connections, from, to);
  }

  /** Clearing an input rewires nothing but lists. */
  lemma ClearedRewired(g: Graph, to: PortRef)
    requires Listed(g) && to in g.world.ports
    ensures Rewired(g.world.ports, Cleared(g, to).world.ports)
  {
    var ps := g.world.ports;
    if ps[to].connections != [] {
      assert ps[to].connections[0] in ps;
      assert Pruned(ps, Removed(g, ps[to].connections[0], to).world.ports);
    }
  }

  /** A drop rewires nothing but lists: every port keeps its id, type,
      owner and side. */
  lemma DroppedRewired(env: Env, g: Graph, from: PortRef, to: PortRef, rank: map<NodeRef, nat>)
    requires Droppable(g, from, to, rank)
    ensures Rewired(g.world.ports, Dropped(env, g, from, to, rank).world.ports)
  {
    var g1 := Cleared(g, to);
    ClearedRewired(g, to);
    if Guard(g1, from, to) {
      var gw := Wired(g1, from, to);
      LinkedRewired(g1.world.ports, from, to);
      assert SameWiring(gw.world.ports, Pass(env, gw, rank).world.ports);
    }
  }

  /** Clearing input `t` leaves the list of every other input alone, and
      an output loses at most `t` from its list. */
  lemma ClearedKeeps(g: Graph, t: PortRef, u: PortRef, v: PortRef)
    requires Consistent(g) && t in g.world.ports && g.world.ports[t].isInput
    requires u in g.world.ports && g.world.ports[u].isInput && u != t && v in g.world.ports
    ensures var ps' := Cleared(g, t).world.ports;
      && ps'[u].connections == g.world.ports[u].connections
      && (u in g.world.ports[v].connections ==> u in ps'[v].connections)
  {
    var ps := g.world.ports;
    if ps[t].connections != [] {
      var x := ps[t].connections[0];
      assert x in ps[t].connections;
      assert !ps[x].isInput;
      RemoveEffect(g, x, t);
    }
  }

  /** A drop onto input `t` leaves the list of every other input alone,
      and the output still lists every input it listed before other than
      `t`. */
  lemma DropKeeps(env: Env, g: Graph, from: PortRef, t: PortRef, rank: map<NodeRef, nat>, u: PortRef)
    requires Consistent(g) && Droppable(g, from, t, rank)
    requires !g.world.ports[from].isInput && g.world.ports[from].allowConnections && g.world.ports[t].isInput
    requires u in g.world.ports && g.world.ports[u].isInput && u != t
    ensures var r := Dropped(env, g, from, t, rank);
      && r.world.ports[u].connections == g.world.ports[u].connections
      && (u in g.world.ports[from].connections ==> u in r.world.ports[from].connections)
  {
    var g1 := Cleared(g, t);
    ClearedEffect(g, t);
    ClearedRewired(g, t);
    ClearedKeeps(g, t, u, from);
    AddLinks(env, g1, from, t, rank);
  }

  /** The pending wire dropped on each hit input in turn. */
  ghost predicate DropsOk(env: Env, g: Graph, from: PortRef, ts: seq<PortRef>, rank: map<NodeRef, nat>)
    decreases |ts|
  {
    && Listed(g) && from in g.world.ports
    && (ts != [] ==> Droppable(g, from, ts[0], rank) && DropsOk(env, Dropped(env, g, from, ts[0], rank), from, ts[1..], rank))
  }

  /** `_onConnectionDrop` once the hit test is decided: the `break` leaves
      only one node's input loop, so the first hit input of every node, in
      `nodes` order, is cleared and wired in turn. */
  function DroppedAll(env: Env, g: Graph, from: PortRef, ts: seq<PortRef>, rank: map<NodeRef, nat>): (r: Graph)
    requires DropsOk(env, g, from, ts, rank)
    ensures Listed(r) && r.nodes == g.nodes && r.world.ports.Keys == g.world.ports.Keys
    decreases |ts|
  {
    if ts == [] then g
    else DroppedAll(env, Dropped(env, g, from, ts[0], rank), from, ts[1..], rank)
  }

  /** Later drops leave alone an input that is not among their targets,
      and the output keeps listing it. */
  lemma {:induction false} DropAllKeeps(env: Env, g: Graph, from: PortRef, ts: seq<PortRef>, rank: map<NodeRef, nat>, u: PortRef)
    requires Consistent(g) && DropsOk(env, g, from, ts, rank)
    requires !g.world.ports[from].isInput && g.world.ports[from].allowConnections
    requires forall t | t in ts :: t in g.world.ports && g.world.ports[t].isInput
    requires u in g.world.ports && g.world.ports[u].isInput && u !in ts
    ensures var r := DroppedAll(env, g, from, ts, rank);
      && r.world.ports[u].connections == g.world.ports[u].connections
      && (u in g.world.ports[from].connections ==> u in r.world.ports[from].connections)
    decreases |ts|
  {
    if ts != [] {
      var g1 := Dropped(env, g, from, ts[0], rank);
      DropKeeps(env, g, from, ts[0], rank, u);
      DropReplaces(env, g, from, ts[0], rank);
      DroppedRewired(env, g, from, ts[0], rank);
      assert forall t | t in ts[1..] :: t in ts;
      DropAllKeeps(env, g1, from, ts[1..], rank, u);
    }
  }

  /** Dropping the pending wire of an output that allows connections on
      every hit input: each of them lists exactly that output, the output
      lists each of them, and records and lists still agree. */
  lemma {:induction false} DropAllConnects(env: Env, g: Graph, from: PortRef, ts: seq<PortRef>, rank: map<NodeRef, nat>)
    requires Consistent(g) && DropsOk(env, g, from, ts, rank)
    requires !g.world.ports[from].isInput && g.world.ports[from].allowConnections
    requires forall t | t in ts :: t in g.world.ports && g.world.ports[t].isInput
    ensures var r := DroppedAll(env, g, from, ts, rank);
      && Consistent(r)
      && (forall t | t in ts :: r.world.ports[t].connections == [from] && t in r.world.ports[from].connections)
    decreases |ts|
  {
    if ts != [] {
      var g1 := Dropped(env, g, from, ts[0], rank);
      DropReplaces(env, g, from, ts[0], rank);
      DroppedRewired(env, g, from, ts[0], rank);
      assert forall t | t in ts[1..] :: t in ts;
      DropAllConnects(env, g1, from, ts[1..], rank);
      if ts[0] !in ts[1..] {
        DropAllKeeps(env, g1, from, ts[1..], rank, ts[0]);
      }
      assert forall t | t in ts :: t == ts[0] || t in ts[1..];
    }
  }

  /** Adding onto an empty input of a consistent graph: the record is
      appended, the input lists only the output, the output lists the input. */
  lemma AddReplaces(env: Env, g: Graph, from: PortRef, to: PortRef, rank: map<NodeRef, nat>)
    requires Consistent(g) && from in g.world.ports && to in g.world.ports
    requires !g.world.ports[from].isInput && g.world.ports[from].allowConnections
    requires g.world.ports[to].isInput && |g.world.ports[to].connections| == 0
    requires Ranked(Wired(g, from, to).world, rank)
    ensures var r := Added(env, g, from, to, rank);
      && Consistent(r)
      && r.world.ports[to].connections == [from]
      && to in r.world.ports[from].connections
      && r.connections == g.connections + [Connection(from, to)]
  {
    AddLinks(env, g, from, to, rank);
    AddConsistent(env, g, from, to, rank);
    assert to in Wired(g, from, to).world.ports[from].connections;
  }

  /** The records once the input's old record is gone and the new one is
      appended. */
  lemma Replaced(kept: seq<Connection>, all: seq<Connection>, from: PortRef, to: PortRef)
    requires forall c :: c in kept <==> c in all && c.to != to
    ensures forall c :: c in kept + [Connection(from, to)] <==> (c in all && c.to != to) || c == Connection(from, to)
  {
    forall c
      ensures c in kept + [Connection(from, to)] <==> c in kept || c == Connection(from, to)
    {
    }
  }

  lemma ClearedRecords(g: Graph, g1: Graph, x: PortRef, to: PortRef)
    requires Consistent(g) && to in g.world.ports && g.world.ports[to].connections == [x]
    requires forall c :: c in g1.connections <==> c in g.connections && c != Connection(x, to)
    ensures forall c :: c in g1.connections <==> c in g.connections && c.to != to
  {
    forall c | c in g.connections && c.to == to
      ensures c == Connection(x, to)
    {
      assert c.from in g.world.ports[c.to].connections;
    }
  }

  /** A user edit through a port's widget: `setValue(v)` on the port, then
      `compute()` of the whole graph. */
  function Edited(env: Env, g: Graph, p: PortRef, v: Value, rank: map<NodeRef, nat>): (r: Graph)
    requires Listed(g) && p in g.world.ports && Ranked(g.world, rank)
    ensures Listed(r) && r.nodes == g.nodes && r.connections == g.connections
  {
    var w1 := g.world.(ports := WithValue(g.world.ports, p, v));
    assert SameShape(g.world, w1) by {
      forall q | q in g.world.ports
        ensures SamePort(g.world.ports[q], w1.ports[q])
      {
      }
    }
    ShapeValid(g.world, w1);
    RankedShape(g.world, w1, rank);
    var g1 := g.(world := w1);
    g.(world := Pass(env, g1, rank).world)
  }

  /** An edit rewires nothing, so records and lists still agree; before
      the pass the port holds `v`, and so does every input an edited output
      feeds. */
  lemma EditEffect(env: Env, g: Graph, p: PortRef, v: Value, rank: map<NodeRef, nat>)
    requires Consistent(g) && p in g.world.ports && Ranked(g.world, rank)
    ensures var ps1 := WithValue(g.world.ports, p, v);
      && ps1[p].value == v
      && (!g.world.ports[p].isInput ==> forall q | q in ps1[p].connections :: ps1[q].value == v)
      && Consistent(Edited(env, g, p, v, rank))
  {
    var w1 := g.world.(ports := WithValue(g.world.ports, p, v));
    assert SameShape(g.world, w1) by {
      forall q | q in g.world.ports
        ensures SamePort(g.world.ports[q], w1.ports[q])
      {
      }
    }
    ShapeValid(g.world, w1);
    RankedShape(g.world, w1, rank);
    var g1 := g.(world := w1);
    ConsistentShape(g, w1);
    ConsistentShape(g1, Pass(env, g1, rank).world);
  }
}
