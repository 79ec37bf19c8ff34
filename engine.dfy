/** The TinyGraph class (tinygraph.js): the graph's state and the methods
    that change it step by step. Each method is proved to leave exactly the
    state that the matching function of the Graph and Deletion modules
    describes, and the properties of those functions are proved there. */
module Engine {
  import opened Wrappers
  import opened Values
  import opened IO
  import opened GraphNode
  import opened Graph
  import Deletion
  import Catalogue
  import Registry
  import Menu
  import Text

  class TinyGraph {
    /** The nodes and ports every node object and IO object holds. */
    var world: World
    /** `this.nodes`. */
    var nodes: seq<NodeRef>
    /** `this.connections`: the `{ fromIO, toIO }` records. */
    var connections: seq<Connection>
    /** `this.nodeTypes`, in key-insertion order. */
    var nodeTypes: seq<Registry.NodeType>
    /** `this.pendingConnection.fromIO` while a wire is being dragged. */
    var pending: Option<PortRef>
    /** The browser built-ins the nodes call while computing. */
    const env: Env

    function State(): Graph
      reads this`world, this`nodes, this`connections
    {
      Graph(world, nodes, connections)
    }

    /** What every method keeps: the world is closed and every listed
        node exists. */
    ghost predicate Valid()
      reads this`world, this`nodes, this`connections
    {
      Listed(State())
    }

    /** What `registerNodeType` keeps: no type id is registered twice. */
    ghost predicate Registered()
      reads this`nodeTypes
    {
      Text.NoDuplicates(Registry.TypeIds(nodeTypes))
    }

    /** The data half of `constructor()`: no node, no record, no type. */
    constructor(env: Env)
      ensures Valid() && Registered() && this.env == env
      ensures world.nodes == map[] && world.ports == map[]
      ensures nodes == [] && connections == [] && nodeTypes == [] && pending == None
    {
      this.env := env;
      world := World(map[], map[], 0);
      nodes := [];
      connections := [];
      nodeTypes := [];
      pending := None;
    }

    /** `registerNodeType(type, id, name, path)`; `kind` is None when no
        class is passed, `path` None when the default "/" applies. */
    method RegisterNodeType(kind: Option<Kind>, id: string, name: string, path: Option<string>)
      requires Registered()
      modifies this`nodeTypes
      ensures Registered()
      ensures nodeTypes == Registry.Register(old(nodeTypes), kind, id, name, path)
    {
      Registry.RegisterEffect(nodeTypes, kind, id, name, path);
      if kind.None? {
        return;
      }
      if id in Registry.TypeIds(nodeTypes) {
        return;
      }
      nodeTypes := nodeTypes + [Registry.NodeType(id, kind.value, name, if path.Some? then path.value else "/")];
    }

    /** `_createNodeOfType(id, x, y)`: construct the registered class and
        `addNode` it. */
    method CreateNodeOfType(id: string)
      requires Valid()
      modifies this`world, this`nodes
      ensures Valid()
      ensures State() == Created(old(State()), old(nodeTypes), id)
    {
      ghost var g0 := State();
      var t := Registry.Lookup(nodeTypes, id);
      if t.Some? {
        var n := world.next;
        world := Catalogue.Construct(world, t.value.kind);
        nodes := nodes + [n];
        CreatedSome(g0, nodeTypes, id);
        assert State() == Created(g0, nodeTypes, id);
      }
    }

    /** `compute()`: every listed node's status is reset, then each root is
        computed recursively, in the order of `nodes`. */
    method Compute(ghost rank: map<NodeRef, nat>)
      requires Valid() && Ranked(world, rank)
      modifies this`world
      ensures Valid()
      ensures world == Pass(env, old(State()), rank).world
    {
      ghost var g0 := State();
      ResetRanked(world, nodes, rank);
      ResetStatuses();
      var roots := Roots(world, nodes);
      WalkRoots(roots, rank);
      PassListed(env, g0, rank);
    }

    /** The first loop of `compute()`: every listed node is set to
        (true, "Ok"). */
    method ResetStatuses()
      requires forall n | n in nodes :: n in world.nodes
      modifies this`world
      ensures world == ResetAll(old(world), nodes)
    {
      ghost var w0 := world;
      var i := 0;
      while i < |nodes|
        invariant i <= |nodes| && world == Reset(w0, nodes, i)
      {
        world := SetStatus(world, nodes[i], true, "Ok");
        i := i + 1;
      }
      ResetPrefix(w0, nodes, i);
      assert nodes[..i] == nodes;
    }

    /** The second loop of `compute()`: each root in turn is computed
        recursively. */
    method WalkRoots(roots: seq<NodeRef>, ghost rank: map<NodeRef, nat>)
      requires GraphNode.Valid(world) && Ranked(world, rank) && forall m | m in roots :: m in world.nodes
      modifies this`world
      ensures world == Walk(env, old(world), rank, roots).world
    {
      ghost var w1 := world;
      WalkedEnds(env, w1, rank, roots);
      var j := 0;
      while j < |roots|
        invariant j <= |roots| && world == Walked(env, w1, rank, roots, j)
      {
        WalkedStep(env, w1, rank, roots, j);
        ComputeNodeRecursive(roots[j], rank);
        j := j + 1;
      }
    }

    /** `node.compute()` for node `n`: the node computes in place and
        reports whether its validation passed. */
    method ComputeNode(n: NodeRef) returns (ok: bool)
      requires GraphNode.Valid(world) && n in world.nodes
      modifies this`world
      ensures Catalogue.Compute(env, old(world), n) == Checked(ok, world)
    {
      var c := Catalogue.Compute(env, world, n);
      world := c.world;
      ok := c.ok;
    }

    /** `_computeNodeRecursive(node)`: compute the node; when it succeeds,
        recurse into the owner of every input each of its outputs lists. */
    method ComputeNodeRecursive(n: NodeRef, ghost rank: map<NodeRef, nat>)
      requires GraphNode.Valid(world) && Ranked(world, rank) && n in world.nodes
      modifies this`world
      ensures world == Visit(env, old(world), rank, n).world
      decreases rank[n], 2
    {
      ghost var w0 := world;
      var ok := ComputeNode(n);
      VisitUnfold(env, w0, rank, n);
      if ok {
        ComputeOutputs(n, rank);
      }
    }

    /** The outer loop of `_computeNodeRecursive(n)`: the outputs of `n`, in
        map order. */
    method ComputeOutputs(n: NodeRef, ghost rank: map<NodeRef, nat>)
      requires GraphNode.Valid(world) && Ranked(world, rank) && n in world.nodes
      modifies this`world
      ensures n in rank && world == VisitAll(env, old(world), rank, Targets(old(world), n), rank[n]).world
      decreases rank[n], 1
    {
      ghost var w1 := world;
      var outs := world.nodes[n].outputs;
      SweepEnds(env, w1, rank, n);
      var k := 0;
      while k < |outs|
        invariant k <= |outs| && world == Sweep(env, w1, rank, n, k)
      {
        SweepStep(env, w1, rank, n, k);
        var conns := world.ports[outs[k].port].connections;
        ComputeOwners(n, conns, w1, TargetsOf(w1, outs[..k]), rank);
        k := k + 1;
      }
    }

    /** The inner loop of `_computeNodeRecursive(n)`: each input one output
        lists, in list order, has its owner computed recursively. */
    method ComputeOwners(n: NodeRef, conns: seq<PortRef>, ghost w1: World, ghost done: seq<NodeRef>, ghost rank: map<NodeRef, nat>)
      requires n in rank && Scannable(w1, rank, done, conns, rank[n])
      requires world == Scan(env, w1, rank, done, conns, 0, rank[n])
      modifies this`world
      ensures world == Scan(env, w1, rank, done, conns, |conns|, rank[n])
      decreases rank[n], 0
    {
      var j := 0;
      while j < |conns|
        invariant j <= |conns| && world == Scan(env, w1, rank, done, conns, j, rank[n])
      {
        var q := conns[j];
        ghost var before := world;
        ghost var after := Scan(env, w1, rank, done, conns, j + 1, rank[n]);
        ScanStep(env, w1, rank, done, conns, j, rank[n]);
        if world.ports[q].owner.Some? {
          ComputeNodeRecursive(world.ports[q].owner.value, rank);
          assert world == after;
        }
        j := j + 1;
      }
    }

    /** `addConnection(fromIO, toIO)`. */
    method AddConnection(from: PortRef, to: PortRef, ghost rank: map<NodeRef, nat>)
      requires Valid() && from in world.ports && to in world.ports
      requires Guard(State(), from, to) ==> Ranked(Wired(State(), from, to).world, rank)
      modifies this`world, this`connections
      ensures Valid()
      ensures State() == Added(env, old(State()), from, to, rank)
    {
      if world.ports[from].isInput != world.ports[to].isInput && |world.ports[to].connections| == 0 {
        ghost var g0 := State();
        var ps := ConnectTo(world.ports, from, to);
        world := world.(ports := ps);
        connections := connections + [Connection(from, to)];
        assert State() == Wired(g0, from, to);
        Compute(rank);
      }
    }

    /** `removeConnection(fromIO, toIO)`. */
    method RemoveConnection(f: PortRef, t: PortRef)
      requires Valid() && f in world.ports && t in world.ports
      modifies this`world, this`connections
      ensures Valid()
      ensures State() == Removed(old(State()), f, t)
    {
      var r := Removed(State(), f, t);
      connections, world := r.connections, r.world;
    }

    /** `deleteNode(node)`: every connection of every port of the node is
        removed through `removeConnection`, then the node leaves `nodes`. */
    method DeleteNode(n: NodeRef)
      requires Valid() && n in world.nodes
      modifies this`world, this`connections, this`nodes
      ensures Valid()
      ensures State() == Deletion.Deleted(old(State()), n)
    {
      ghost var g0 := State();
      var ios := Deletion.PortList(world, n);
      ghost var target := Deletion.SeverAll(g0, ios);
      assert ios[0..] == ios;
      var i := 0;
      while i < |ios|
        invariant i <= |ios| && Valid() && forall p | p in ios :: p in world.ports
        invariant Deletion.SeverAll(State(), ios[i..]) == target
      {
        SeverAllStep(State(), ios, i);
        SeverPort(ios[i]);
        i := i + 1;
      }
      nodes := Text.Without(nodes, n);
    }

    /** The inner loop of `deleteNode`: `removeConnection` for each peer of
        the snapshot `io.connections.slice()`, the output first. */
    method SeverPort(io: PortRef)
      requires Valid() && io in world.ports
      modifies this`world, this`connections
      ensures Valid()
      ensures io in old(world.ports) && State() == Deletion.SeverPeers(old(State()), io, old(world.ports[io].connections))
    {
      var peers := world.ports[io].connections;
      PeersListed(world, io);
      PeersLeftStart(State(), io, peers);
      ghost var target := PeersLeft(State(), io, peers, 0);
      var j := 0;
      while j < |peers|
        invariant j <= |peers| && Valid() && io in world.ports && forall p | p in peers :: p in world.ports
        invariant PeersLeft(State(), io, peers, j) == target
      {
        ghost var g := State();
        var c := peers[j];
        if world.ports[io].isInput {
          RemoveConnection(c, io);
        } else {
          RemoveConnection(io, c);
        }
        SeverPeersStep(g, State(), io, peers, j);
        j := j + 1;
      }
      PeersLeftEnd(State(), io, peers);
    }

    /** `startConnection(fromIO)`: only the pending wire changes. */
    method StartConnection(from: PortRef)
      modifies this`pending
      ensures pending == Some(from)
    {
      pending := Some(from);
    }

    /** `editConnection(fromIO, toIO)`: the wire is taken off its input and
        becomes the pending wire again. */
    method EditConnection(from: PortRef, to: PortRef)
      requires Valid() && from in world.ports && to in world.ports
      modifies this`world, this`connections, this`pending
      ensures Valid()
      ensures State() == Removed(old(State()), from, to) && pending == Some(from)
    {
      RemoveConnection(from, to);
      StartConnection(from);
    }

    /** `_onConnectionDrop` once the hit test is decided: `targets` are the
        inputs under the pointer, at most the first of each node since the
        `break` leaves only that node's input loop, in `nodes` order. Each
        loses its connection and receives the pending wire in turn; then the
        pending wire ends. */
    method ConnectionDrop(targets: seq<PortRef>, ghost rank: map<NodeRef, nat>)
      requires Valid() && pending.Some?
      requires DropsOk(env, State(), pending.value, targets, rank)
      modifies this`world, this`connections, this`pending
      ensures Valid() && pending == None
      ensures State() == DroppedAll(env, old(State()), old(pending).value, targets, rank)
    {
      var from := pending.value;
      ghost var g0 := State();
      var i := 0;
      while i < |targets|
        invariant 0 <= i <= |targets|
        invariant Valid() && DropsOk(env, State(), from, targets[i..], rank)
        invariant DroppedAll(env, g0, from, targets, rank) == DroppedAll(env, State(), from, targets[i..], rank)
      {
        assert targets[i..][0] == targets[i] && targets[i..][1..] == targets[i + 1..];
        DropOn(from, targets[i], rank);
        i := i + 1;
      }
      pending := None;
    }

    /** The hit branch of `_onConnectionDrop`: input `io` loses its first
        connection, if it has one, then `addConnection(fromIO, io)`. */
    method DropOn(from: PortRef, io: PortRef, ghost rank: map<NodeRef, nat>)
      requires Valid() && Droppable(State(), from, io, rank)
      modifies this`world, this`connections
      ensures Valid()
      ensures State() == Dropped(env, old(State()), from, io, rank)
    {
      ghost var g0 := State();
      if |world.ports[io].connections| > 0 {
        assert world.ports[io].connections[0] in world.ports;
        RemoveConnection(world.ports[io].connections[0], io);
      }
      assert State() == Cleared(g0, io);
      AddConnection(from, io, rank);
    }

    /** A widget edit: the port's `setValue(v)` and then `compute()`, as
        the NumberIO, StringIO and TextboxIO inputs do. */
    method EditValue(p: PortRef, v: Value, ghost rank: map<NodeRef, nat>)
      requires Valid() && p in world.ports && Ranked(world, rank)
      modifies this`world
      ensures Valid()
      ensures State() == Edited(env, old(State()), p, v, rank)
    {
      ghost var w0 := world;
      var ps := SetValue(world.ports, p, v);
      world := world.(ports := ps);
      assert SameShape(w0, world) by {
        forall q | q in w0.ports
          ensures SamePort(w0.ports[q], world.ports[q])
        {
        }
      }
      ShapeValid(w0, world);
      RankedShape(w0, world, rank);
      Compute(rank);
    }

    /** `_buildMenuTree()`: each registered type, in registration order, is
        placed under the groups its path names. */
    method BuildMenuTree() returns (tree: Menu.Group)
      ensures tree == Menu.MenuTree(nodeTypes)
    {
      tree := Menu.Empty;
      var i := 0;
      while i < |nodeTypes|
        invariant 0 <= i <= |nodeTypes|
        invariant tree == Menu.MenuTree(nodeTypes[..i])
      {
        var e := nodeTypes[i];
        assert nodeTypes[..i + 1][..i] == nodeTypes[..i];
        tree := Menu.Insert(tree, Menu.Segments(e.path), Menu.Item(e.id, e.name));
        i := i + 1;
      }
      assert nodeTypes[..i] == nodeTypes;
    }
  }

  /** `Created` for a registered id, unfolded. */
  lemma CreatedSome(g: Graph, reg: seq<Registry.NodeType>, id: string)
    requires Listed(g) && Registry.Lookup(reg, id).Some?
    ensures Created(g, reg, id) == Graph(Catalogue.Construct(g.world, Registry.Lookup(reg, id).value.kind), g.nodes + [g.world.next], g.connections)
  {
  }

  /** Every node of `ts` exists and ranks below `bound`. */
  ghost predicate Below(w: World, rank: map<NodeRef, nat>, ts: seq<NodeRef>, bound: nat) {
    forall t | t in ts :: t in w.nodes && t in rank && rank[t] < bound
  }

  /** Every port of `conns` exists and its owner, if any, ranks below
      `bound`. */
  ghost predicate OwnersBelow(w: World, rank: map<NodeRef, nat>, conns: seq<PortRef>, bound: nat) {
    forall q | q in conns :: q in w.ports && (w.ports[q].owner.Some? ==> Below(w, rank, [w.ports[q].owner.value], bound))
  }

  lemma OutputsListed(w: World, n: NodeRef)
    requires Valid(w) && n in w.nodes
    ensures forall s | s in w.nodes[n].outputs :: s.port in w.ports
  {
    assert Attached(w, n);
  }

  lemma PeersListed(w: World, p: PortRef)
    requires Valid(w) && p in w.ports
    ensures forall q | q in w.ports[p].connections :: q in w.ports
  {
  }

  lemma BelowSnoc(w: World, rank: map<NodeRef, nat>, ts: seq<NodeRef>, m: NodeRef, bound: nat)
    requires Below(w, rank, ts, bound) && Below(w, rank, [m], bound)
    ensures Below(w, rank, ts + [m], bound)
  {
  }

  /** One more visit at the end of a run of visits. */
  lemma VisitAllSnoc(env: Env, w: World, rank: map<NodeRef, nat>, ts: seq<NodeRef>, m: NodeRef, bound: nat)
    requires Valid(w) && Ranked(w, rank) && Below(w, rank, ts + [m], bound)
    ensures Below(w, rank, ts, bound)
    ensures VisitAll(env, w, rank, ts + [m], bound).world == Visit(env, VisitAll(env, w, rank, ts, bound).world, rank, m).world
  {
    assert (ts + [m])[..|ts|] == ts;
  }

  /** `_computeNodeRecursive` in two cases: a failed compute stops, a
      successful one visits every target in the world it left. */
  lemma VisitUnfold(env: Env, w: World, rank: map<NodeRef, nat>, n: NodeRef)
    requires Valid(w) && Ranked(w, rank) && n in w.nodes
    ensures var c := Catalogue.Compute(env, w, n);
      && Valid(c.world) && Ranked(c.world, rank) && SameShape(w, c.world)
      && (!c.ok ==> Visit(env, w, rank, n).world == c.world)
      && (c.ok ==> Visit(env, w, rank, n).world == VisitAll(env, c.world, rank, Targets(c.world, n), rank[n]).world)
  {
    var c := Catalogue.Compute(env, w, n);
    Catalogue.ComputeConfined(env, w, n);
    RankedShape(w, c.world, rank);
  }

  lemma TargetsOfStart(env: Env, w: World, rank: map<NodeRef, nat>, outs: seq<Slot>, bound: nat)
    requires Valid(w) && Ranked(w, rank) && forall s | s in outs :: s.port in w.ports
    ensures TargetsOf(w, outs[..0]) == [] && Below(w, rank, [], bound)
    ensures VisitAll(env, w, rank, [], bound).world == w
  {
    assert outs[..0] == [];
  }

  lemma OwnersStart(w: World, done: seq<NodeRef>, conns: seq<PortRef>)
    requires Valid(w) && forall q | q in conns :: q in w.ports
    ensures done + Owners(w, conns[..0]) == done
  {
    assert conns[..0] == [];
  }

  /** What the inner loop needs of its inputs: a ranked world, a run of
      visits already below `bound`, and connections whose owners are below
      `bound` too. */
  ghost predicate Scannable(w: World, rank: map<NodeRef, nat>, done: seq<NodeRef>, conns: seq<PortRef>, bound: nat) {
    Valid(w) && Ranked(w, rank) && Below(w, rank, done, bound) && OwnersBelow(w, rank, conns, bound)
  }

  /** The world the inner loop leaves after `j` connections: the visits of
      `done`, then of the owners met so far, starting from `w`. */
  ghost function Scan(env: Env, w: World, rank: map<NodeRef, nat>, done: seq<NodeRef>, conns: seq<PortRef>, j: nat, bound: nat): World {
    if Scannable(w, rank, done, conns, bound) && j <= |conns| then
      OwnersPrefixBelow(w, rank, done, conns, j, bound);
      VisitAll(env, w, rank, done + Owners(w, conns[..j]), bound).world
    else w
  }

  lemma OwnersPrefixBelow(w: World, rank: map<NodeRef, nat>, done: seq<NodeRef>, conns: seq<PortRef>, j: nat, bound: nat)
    requires Scannable(w, rank, done, conns, bound) && j <= |conns|
    ensures forall q | q in conns[..j] :: q in w.ports
    ensures Below(w, rank, done + Owners(w, conns[..j]), bound)
  {
    forall m | m in Owners(w, conns[..j])
      ensures m in w.nodes && m in rank && m in rank && rank[m] < bound
    {
      var q := OwnersSource(w, conns[..j], m);
    }
  }

  /** Every owner listed comes from a port of the list. */
  lemma {:induction false} OwnersSource(w: World, conns: seq<PortRef>, m: NodeRef) returns (q: PortRef)
    requires Valid(w) && (forall q | q in conns :: q in w.ports) && m in Owners(w, conns)
    ensures q in conns && w.ports[q].owner == Some(m)
  {
    var init := conns[..|conns| - 1];
    var last := conns[|conns| - 1];
    assert forall q | q in init :: q in conns;
    if m in Owners(w, init) {
      q := OwnersSource(w, init, m);
    } else {
      q := last;
    }
  }

  /** One step of the inner loop: when the port has an owner, the scan
      grows by a visit of that owner, which ranks below `bound`. */
  lemma ScanStep(env: Env, w: World, rank: map<NodeRef, nat>, done: seq<NodeRef>, conns: seq<PortRef>, j: nat, bound: nat)
    requires Scannable(w, rank, done, conns, bound) && j < |conns|
    ensures var before := Scan(env, w, rank, done, conns, j, bound);
      var after := Scan(env, w, rank, done, conns, j + 1, bound);
      && Valid(before) && Ranked(before, rank) && conns[j] in before.ports
      && before.ports[conns[j]].owner == w.ports[conns[j]].owner
      && (w.ports[conns[j]].owner.Some? ==> var m := w.ports[conns[j]].owner.value;
            m in before.nodes && m in rank && rank[m] < bound && after == Visit(env, before, rank, m).world)
      && (w.ports[conns[j]].owner.None? ==> after == before)
  {
    OwnersPrefixBelow(w, rank, done, conns, j, bound);
    OwnersPrefixBelow(w, rank, done, conns, j + 1, bound);
    var ts := done + Owners(w, conns[..j]);
    OwnersStep(w, done, conns, j);
    if w.ports[conns[j]].owner.Some? {
      var m := w.ports[conns[j]].owner.value;
      BelowSnoc(w, rank, ts, m, bound);
      VisitAllSnoc(env, w, rank, ts, m, bound);
    }
  }

  /** One more connection scanned: its owner, if any, joins the targets. */
  lemma OwnersStep(w: World, done: seq<NodeRef>, conns: seq<PortRef>, j: nat)
    requires Valid(w) && (forall q | q in conns :: q in w.ports) && j < |conns|
    ensures w.ports[conns[j]].owner.Some? ==>
      done + Owners(w, conns[..j + 1]) == (done + Owners(w, conns[..j])) + [w.ports[conns[j]].owner.value]
    ensures w.ports[conns[j]].owner.None? ==>
      done + Owners(w, conns[..j + 1]) == done + Owners(w, conns[..j])
  {
    assert conns[..j + 1][..j] == conns[..j];
  }

  /** One more output scanned: the owners of its whole list join. */
  lemma TargetsOfStep(w: World, outs: seq<Slot>, k: nat, done: seq<NodeRef>, conns: seq<PortRef>)
    requires Valid(w) && (forall s | s in outs :: s.port in w.ports) && k < |outs|
    requires done == TargetsOf(w, outs[..k]) && conns == w.ports[outs[k].port].connections
    ensures done + Owners(w, conns) == TargetsOf(w, outs[..k + 1])
  {
    assert outs[..k + 1][..k] == outs[..k];
  }

  /** The owner of every input that an output of `n` lists ranks below `n`. */
  lemma TargetsBelow(w: World, rank: map<NodeRef, nat>, n: NodeRef, k: nat)
    requires Valid(w) && Ranked(w, rank) && n in w.nodes && k < |w.nodes[n].outputs|
    ensures n in rank && w.nodes[n].outputs[k].port in w.ports
    ensures OwnersBelow(w, rank, w.ports[w.nodes[n].outputs[k].port].connections, rank[n])
  {
    assert Attached(w, n);
    var p := w.nodes[n].outputs[k].port;
    forall q | q in w.ports[p].connections
      ensures q in w.ports && (w.ports[q].owner.Some? ==> Below(w, rank, [w.ports[q].owner.value], rank[n]))
    {
      if w.ports[q].owner.Some? {
        assert w.ports[q].owner.value in Targets(w, n);
      }
    }
  }

  /** The world the outer loop of `_computeNodeRecursive(n)` leaves after
      `k` outputs. */
  ghost function Sweep(env: Env, w: World, rank: map<NodeRef, nat>, n: NodeRef, k: nat): World {
    if Valid(w) && Ranked(w, rank) && n in w.nodes && k <= |w.nodes[n].outputs| then
      TargetsPrefixBelow(w, rank, n, k);
      VisitAll(env, w, rank, TargetsOf(w, w.nodes[n].outputs[..k]), rank[n]).world
    else w
  }

  /** The targets met in the first `k` outputs of `n` rank below `n`. */
  lemma TargetsPrefixBelow(w: World, rank: map<NodeRef, nat>, n: NodeRef, k: nat)
    requires Valid(w) && Ranked(w, rank) && n in w.nodes && k <= |w.nodes[n].outputs|
    ensures n in rank && forall s | s in w.nodes[n].outputs[..k] :: s.port in w.ports
    ensures Below(w, rank, TargetsOf(w, w.nodes[n].outputs[..k]), rank[n])
  {
    assert Attached(w, n);
    var outs := w.nodes[n].outputs;
    assert forall s | s in outs[..k] :: s in outs;
    forall m | m in TargetsOf(w, outs[..k])
      ensures m in w.nodes && m in rank && rank[m] < rank[n]
    {
      var i, q := TargetsOfSource(w, outs[..k], m);
      assert outs[..k][i] == outs[i];
      assert m in Targets(w, n);
    }
  }

  /** Every target listed comes from a connection of one of the outputs. */
  lemma {:induction false} TargetsOfSource(w: World, outs: seq<Slot>, m: NodeRef) returns (i: nat, q: PortRef)
    requires Valid(w) && (forall s | s in outs :: s.port in w.ports) && m in TargetsOf(w, outs)
    ensures i < |outs| && q in w.ports[outs[i].port].connections && w.ports[q].owner == Some(m)
  {
    var init := outs[..|outs| - 1];
    var last := outs[|outs| - 1];
    assert forall s | s in init :: s in outs;
    if m in TargetsOf(w, init) {
      i, q := TargetsOfSource(w, init, m);
      assert init[i] == outs[i];
    } else {
      i := |outs| - 1;
      q := OwnersSource(w, w.ports[last.port].connections, m);
    }
  }

  /** One output of the outer loop: the inner loop over its list starts
      where the previous outputs left the world and ends where the next
      prefix does. */
  lemma SweepStep(env: Env, w: World, rank: map<NodeRef, nat>, n: NodeRef, k: nat)
    requires Valid(w) && Ranked(w, rank) && n in w.nodes && k < |w.nodes[n].outputs|
    ensures var outs := w.nodes[n].outputs;
      && n in rank && (forall s | s in outs[..k] :: s.port in w.ports) && outs[k].port in w.ports
      && var conns := w.ports[outs[k].port].connections;
      && var done := TargetsOf(w, outs[..k]);
      && var before := Sweep(env, w, rank, n, k);
      && outs[k].port in before.ports && before.ports[outs[k].port].connections == conns
      && Scannable(w, rank, done, conns, rank[n])
      && before == Scan(env, w, rank, done, conns, 0, rank[n])
      && Sweep(env, w, rank, n, k + 1) == Scan(env, w, rank, done, conns, |conns|, rank[n])
  {
    var outs := w.nodes[n].outputs;
    TargetsPrefixBelow(w, rank, n, k);
    TargetsPrefixBelow(w, rank, n, k + 1);
    TargetsBelow(w, rank, n, k);
    var conns := w.ports[outs[k].port].connections;
    var done := TargetsOf(w, outs[..k]);
    PeersListed(w, outs[k].port);
    OwnersStart(w, done, conns);
    assert outs[..k + 1][..k] == outs[..k];
    assert conns[..|conns|] == conns;
    var before := Sweep(env, w, rank, n, k);
    assert SamePort(w.ports[outs[k].port], before.ports[outs[k].port]);
  }

  /** The outer loop starts from the computed world and ends with every
      target of `n` visited. */
  lemma SweepEnds(env: Env, w: World, rank: map<NodeRef, nat>, n: NodeRef)
    requires Valid(w) && Ranked(w, rank) && n in w.nodes
    ensures n in rank && Sweep(env, w, rank, n, 0) == w
    ensures Sweep(env, w, rank, n, |w.nodes[n].outputs|) == VisitAll(env, w, rank, Targets(w, n), rank[n]).world
  {
    var outs := w.nodes[n].outputs;
    TargetsPrefixBelow(w, rank, n, 0);
    assert outs[..0] == [];
    assert outs[..|outs|] == outs;
  }

  /** The first loop of `compute()` after `i` nodes. */
  function Reset(w: World, ns: seq<NodeRef>, i: nat): (r: World)
    requires i <= |ns| && forall n | n in ns :: n in w.nodes
    ensures SameShape(w, r)
  {
    if i == 0 then w
    else
      var before := Reset(w, ns, i - 1);
      assert ns[i - 1] in ns;
      SetStatus(before, ns[i - 1], true, "Ok")
  }

  /** The loop resets the nodes the way `ResetAll` does. */
  lemma {:induction false} ResetPrefix(w: World, ns: seq<NodeRef>, i: nat)
    requires i <= |ns| && forall n | n in ns :: n in w.nodes
    ensures Reset(w, ns, i) == ResetAll(w, ns[..i])
  {
    if i > 0 {
      ResetPrefix(w, ns, i - 1);
      var before := Reset(w, ns, i - 1);
      assert Reset(w, ns, i) == SetStatus(before, ns[i - 1], true, "Ok");
      var p := ns[..i];
      assert forall n | n in p :: n in ns;
      assert ResetAll(w, p) == SetStatus(before, ns[i - 1], true, "Ok") by {
        Text.PrefixLast(ns, i);
        ResetAllSnoc(w, p);
      }
    }
  }

  /** `ResetAll` over a list resets its last element after the rest. */
  lemma ResetAllSnoc(w: World, ns: seq<NodeRef>)
    requires |ns| > 0 && forall n | n in ns :: n in w.nodes
    ensures forall n | n in ns[..|ns| - 1] :: n in w.nodes
    ensures ResetAll(w, ns) == SetStatus(ResetAll(w, ns[..|ns| - 1]), ns[|ns| - 1], true, "Ok")
  {
    assert forall n | n in ns[..|ns| - 1] :: n in ns;
  }

  /** The second loop of `compute()` after `j` roots. */
  ghost function Walked(env: Env, w: World, rank: map<NodeRef, nat>, roots: seq<NodeRef>, j: nat): World {
    if Valid(w) && Ranked(w, rank) && j <= |roots| && forall m | m in roots :: m in w.nodes then
      assert forall m | m in roots[..j] :: m in roots;
      Walk(env, w, rank, roots[..j]).world
    else w
  }

  lemma WalkedStep(env: Env, w: World, rank: map<NodeRef, nat>, roots: seq<NodeRef>, j: nat)
    requires Valid(w) && Ranked(w, rank) && j < |roots| && forall m | m in roots :: m in w.nodes
    ensures var before := Walked(env, w, rank, roots, j);
      && Valid(before) && Ranked(before, rank) && roots[j] in before.nodes
      && Walked(env, w, rank, roots, j + 1) == Visit(env, before, rank, roots[j]).world
  {
    var p := roots[..j + 1];
    assert p[..|p| - 1] == roots[..j] && p[|p| - 1] == roots[j];
    assert forall m | m in p :: m in roots;
    assert roots[j] in roots;
    var before := Walk(env, w, rank, roots[..j]).world;
    assert Walked(env, w, rank, roots, j) == before;
    assert Walked(env, w, rank, roots, j + 1) == Walk(env, w, rank, p).world;
    assert Walk(env, w, rank, p).world == Visit(env, before, rank, roots[j]).world;
  }

  lemma WalkedEnds(env: Env, w: World, rank: map<NodeRef, nat>, roots: seq<NodeRef>)
    requires Valid(w) && Ranked(w, rank) && forall m | m in roots :: m in w.nodes
    ensures Walked(env, w, rank, roots, 0) == w
    ensures Walked(env, w, rank, roots, |roots|) == Walk(env, w, rank, roots).world
  {
    assert roots[..0] == [] && roots[..|roots|] == roots;
  }

  /** Resetting the statuses keeps the world closed and ranked. */
  lemma ResetRanked(w: World, ns: seq<NodeRef>, rank: map<NodeRef, nat>)
    requires Valid(w) && Ranked(w, rank) && forall n | n in ns :: n in w.nodes
    ensures Valid(ResetAll(w, ns)) && Ranked(ResetAll(w, ns), rank)
    ensures forall n | n in ns :: n in ResetAll(w, ns).nodes
  {
    RankedShape(w, ResetAll(w, ns), rank);
  }

  /** A pass keeps every listed node in the world. */
  lemma PassListed(env: Env, g: Graph, rank: map<NodeRef, nat>)
    requires Listed(g) && Ranked(g.world, rank)
    ensures Listed(g.(world := Pass(env, g, rank).world))
  {
    var w := Pass(env, g, rank).world;
    assert w.nodes.Keys == g.world.nodes.Keys;
  }

  /** What the inner loop of `deleteNode` still has to do after `j`
      peers. */
  ghost function PeersLeft(g: Graph, io: PortRef, peers: seq<PortRef>, j: nat): Graph {
    if Listed(g) && io in g.world.ports && (forall p | p in peers :: p in g.world.ports) && j <= |peers| then
      assert forall p | p in peers[j..] :: p in peers;
      Deletion.SeverPeers(g, io, peers[j..])
    else g
  }

  lemma PeersLeftStart(g: Graph, io: PortRef, peers: seq<PortRef>)
    requires Listed(g) && io in g.world.ports && forall p | p in peers :: p in g.world.ports
    ensures PeersLeft(g, io, peers, 0) == Deletion.SeverPeers(g, io, peers)
  {
    assert peers[0..] == peers;
  }

  lemma PeersLeftEnd(g: Graph, io: PortRef, peers: seq<PortRef>)
    requires Listed(g) && io in g.world.ports && forall p | p in peers :: p in g.world.ports
    ensures PeersLeft(g, io, peers, |peers|) == g
  {
    assert peers[|peers|..] == [];
  }

  /** One peer of the inner loop of `deleteNode`. */
  lemma SeverPeersStep(g: Graph, g1: Graph, io: PortRef, peers: seq<PortRef>, j: nat)
    requires Listed(g) && io in g.world.ports && (forall p | p in peers :: p in g.world.ports) && j < |peers|
    requires peers[j] in g.world.ports && g1 == Deletion.Sever(g, io, peers[j])
    ensures Listed(g1) && io in g1.world.ports && (forall p | p in peers :: p in g1.world.ports)
    ensures PeersLeft(g, io, peers, j) == PeersLeft(g1, io, peers, j + 1)
  {
    assert g1.world.ports.Keys == g.world.ports.Keys;
    var rest := peers[j..];
    assert rest[0] == peers[j] && rest[1..] == peers[j + 1..];
    assert forall p | p in rest :: p in peers;
    assert Deletion.SeverPeers(g, io, rest) == Deletion.SeverPeers(g1, io, rest[1..]);
    assert forall p | p in peers :: p in g1.world.ports;
    assert PeersLeft(g1, io, peers, j + 1) == Deletion.SeverPeers(g1, io, rest[1..]);
  }

  /** One port of the outer loop of `deleteNode`. */
  lemma SeverAllStep(g: Graph, ios: seq<PortRef>, i: nat)
    requires Listed(g) && (forall p | p in ios :: p in g.world.ports) && i < |ios|
    ensures ios[i] in g.world.ports && forall c | c in g.world.ports[ios[i]].connections :: c in g.world.ports
    ensures var g1 := Deletion.SeverPeers(g, ios[i], g.world.ports[ios[i]].connections);
      && Listed(g1) && (forall p | p in ios :: p in g1.world.ports)
      && Deletion.SeverAll(g, ios[i..]) == Deletion.SeverAll(g1, ios[i + 1..])
  {
    assert ios[i] in ios;
    PeersListed(g.world, ios[i]);
    assert ios[i..][0] == ios[i] && ios[i..][1..] == ios[i + 1..];
  }
}
