/** `deleteNode(node)` of TinyGraph (tinygraph.js) as a function on graph
    values: every connection of every port of the node is removed with
    `removeConnection`, then the node leaves the `nodes` array. */
module Deletion {
  import opened Values
  import opened IO
  import opened GraphNode
  import opened Graph
  import Text

  /** `removeConnection` between a port of the node and one peer, the
      output first. */
  function Sever(g: Graph, io: PortRef, c: PortRef): (r: Graph)
    requires Listed(g) && io in g.world.ports && c in g.world.ports
    ensures Listed(r) && r.nodes == g.nodes && r.world.nodes == g.world.nodes
    ensures Pruned(g.world.ports, r.world.ports)
  {
    if g.world.ports[io].isInput then Removed(g, c, io) else Removed(g, io, c)
  }

  /** The inner loop: `removeConnection` for each peer of the snapshot
      `io.connections.slice()`, with the output first. */
  function SeverPeers(g: Graph, io: PortRef, peers: seq<PortRef>): (r: Graph)
    requires Listed(g) && io in g.world.ports && forall c | c in peers :: c in g.world.ports
    ensures Listed(r) && r.nodes == g.nodes && r.world.nodes == g.world.nodes
    ensures Pruned(g.world.ports, r.world.ports)
    decreases |peers|
  {
    if peers == [] then g
    else
      var c := peers[0];
      var g1 := Sever(g, io, c);
      var r := SeverPeers(g1, io, peers[1..]);
      PrunedTransitive(g.world.ports, g1.world.ports, r.world.ports);
      r
  }

  /** The outer loop, over the node's inputs and then its outputs. */
  function SeverAll(g: Graph, ios: seq<PortRef>): (r: Graph)
    requires Listed(g) && forall io | io in ios :: io in g.world.ports
    ensures Listed(r) && r.nodes == g.nodes && r.world.nodes == g.world.nodes
    ensures Pruned(g.world.ports, r.world.ports)
    decreases |ios|
  {
    if ios == [] then g
    else
      var io := ios[0];
      assert forall c | c in g.world.ports[io].connections :: c in g.world.ports;
      var g1 := SeverPeers(g, io, g.world.ports[io].connections);
      var r := SeverAll(g1, ios[1..]);
      PrunedTransitive(g.world.ports, g1.world.ports, r.world.ports);
      r
  }

  /** The ports of node `n`: its inputs, then its outputs. */
  function PortList(w: World, n: NodeRef): (r: seq<PortRef>)
    requires Valid(w) && n in w.nodes
    ensures forall p | p in r :: p in w.ports
    ensures forall s | s in w.nodes[n].inputs || s in w.nodes[n].outputs :: s.port in r
  {
    assert Attached(w, n);
    PortsOfWithin(w.nodes[n].inputs, w.ports);
    PortsOfWithin(w.nodes[n].outputs, w.ports);
    PortsOf(w.nodes[n].inputs) + PortsOf(w.nodes[n].outputs)
  }

  /** The references of slots that all point into `ps` point into `ps`,
      and each slot's reference is among them. */
  lemma PortsOfWithin(slots: seq<Slot>, ps: Ports)
    requires forall s | s in slots :: s.port in ps
    ensures forall p | p in PortsOf(slots) :: p in ps
    ensures forall s | s in slots :: s.port in PortsOf(slots)
  {
    var r := PortsOf(slots);
    forall p | p in r
      ensures p in ps
    {
      var k :| 0 <= k < |r| && r[k] == p;
      assert slots[k] in slots;
    }
    forall s | s in slots
      ensures s.port in r
    {
      var k :| 0 <= k < |slots| && slots[k] == s;
      assert r[k] == s.port;
    }
  }

  /** `deleteNode(node)`. */
  function Deleted(g: Graph, n: NodeRef): (r: Graph)
    requires Listed(g) && n in g.world.nodes
    ensures Listed(r) && r.world.nodes == g.world.nodes
  {
    var g1 := SeverAll(g, PortList(g.world, n));
    g1.(nodes := Text.Without(g1.nodes, n))
  }

  /** What holds of `g` part-way through deleting the ports in `P` from
      `g0`: records and lists still agree; nothing is added; links and
      records between ports outside `P` survive; outputs keep their values;
      an input holds null exactly once it has lost its connection. */
  ghost predicate Kept(g0: Graph, g: Graph, P: set<PortRef>) {
    KeptWiring(g0, g, P) && KeptValues(g0, g)
  }

  ghost predicate KeptWiring(g0: Graph, g: Graph, P: set<PortRef>) {
    var ps0 := g0.world.ports;
    var ps := g.world.ports;
    && Consistent(g)
    && g.nodes == g0.nodes && g.world.nodes == g0.world.nodes
    && Pruned(ps0, ps)
    && (forall q, x | q in ps0 && q !in P && x !in P && x in ps0[q].connections :: x in ps[q].connections)
    && (forall c | c in g0.connections && c.from !in P && c.to !in P :: c in g.connections)
    && (forall c | c in g.connections :: c in g0.connections)
  }

  ghost predicate KeptValues(g0: Graph, g: Graph)
    requires g0.world.ports.Keys <= g.world.ports.Keys
  {
    var ps0 := g0.world.ports;
    var ps := g.world.ports;
    && (forall q | q in ps0 && !ps0[q].isInput :: ps[q].value == ps0[q].value)
    && (forall q | q in ps0 && ps0[q].isInput ::
          if ps0[q].connections != [] && ps[q].connections == [] then ps[q].value == Null
          else ps[q].value == ps0[q].value)
  }

  /** A list whose members all come from `peers`, none of which it holds,
      is empty. */
  lemma Emptied(xs: seq<PortRef>, peers: seq<PortRef>)
    requires forall y | y in xs :: y in peers
    requires forall c | c in peers :: c !in xs
    ensures xs == []
  {
    NonEmpty(xs);
  }

  /** One `removeConnection` of the inner loop keeps `Kept` and leaves the
      peer off the port's list. */
  lemma SeverStep(g0: Graph, g: Graph, io: PortRef, c: PortRef, P: set<PortRef>)
    requires Consistent(g0) && Kept(g0, g, P) && io in P && io in g0.world.ports
    requires c in g0.world.ports[io].connections
    ensures var ps := g.world.ports;
      var r := Sever(g, io, c);
      Kept(g0, r, P) && c !in r.world.ports[io].connections
  {
    var ps0 := g0.world.ports;
    assert c in ps0 && ps0[c].isInput != ps0[io].isInput;
    if g.world.ports[io].isInput {
      RemoveStep(g0, g, c, io, P);
    } else {
      assert io in ps0[c].connections;
      RemoveStep(g0, g, io, c, P);
    }
  }

  /** The same step with the connection's two ends named. */
  lemma RemoveStep(g0: Graph, g: Graph, f: PortRef, t: PortRef, P: set<PortRef>)
    requires Consistent(g0) && Kept(g0, g, P) && (f in P || t in P)
    requires Oriented(g0.world.ports, Connection(f, t)) && f in g0.world.ports[t].connections
    ensures var r := Removed(g, f, t);
      Kept(g0, r, P) && t !in r.world.ports[f].connections && f !in r.world.ports[t].connections
  {
    var ps0 := g0.world.ports;
    var ps := g.world.ports;
    assert Oriented(ps, Connection(f, t));
    RemoveConsistent(g, f, t);
    RemoveEffect(g, f, t);
    var r := Removed(g, f, t);
    PrunedTransitive(ps0, ps, r.world.ports);
    LostOnly(ps0[t].connections, r.world.ports[t].connections, f);
    SeverStepValues(g0, g, r, f, t, P);
  }

  lemma SeverStepValues(g0: Graph, g: Graph, r: Graph, f: PortRef, t: PortRef, P: set<PortRef>)
    requires Kept(g0, g, P) && Consistent(r) && Pruned(g0.world.ports, r.world.ports)
    requires r.nodes == g.nodes && r.world.nodes == g.world.nodes
    requires f in P || t in P
    requires Oriented(g.world.ports, Connection(f, t))
    requires g0.world.ports[t].connections != [] && r.world.ports[t].connections == []
    requires r.world.ports[t].value == Null
    requires forall c :: c in r.connections <==> c in g.connections && c != Connection(f, t)
    requires forall q :: q in r.world.ports[f].connections <==> q in g.world.ports[f].connections && q != t
    requires forall q | q in g.world.ports && q != f && q != t ::
      r.world.ports[q].connections == g.world.ports[q].connections
    requires forall q | q in g.world.ports && q != t :: r.world.ports[q].value == g.world.ports[q].value
    ensures Kept(g0, r, P)
  {
    SeverStepWiring(g0, g, r, f, t, P);
    var ps0 := g0.world.ports;
    var ps := g.world.ports;
    var ps' := r.world.ports;
    forall q | q in ps0 && ps0[q].isInput
      ensures if ps0[q].connections != [] && ps'[q].connections == [] then ps'[q].value == Null
        else ps'[q].value == ps0[q].value
    {
      if q != t {
        assert q != f;
        assert ps'[q].connections == ps[q].connections && ps'[q].value == ps[q].value;
      }
    }
  }

  lemma SeverStepWiring(g0: Graph, g: Graph, r: Graph, f: PortRef, t: PortRef, P: set<PortRef>)
    requires KeptWiring(g0, g, P) && Consistent(r) && Pruned(g0.world.ports, r.world.ports)
    requires r.nodes == g.nodes && r.world.nodes == g.world.nodes
    requires f in g.world.ports && (f in P || t in P)
    requires forall c :: c in r.connections <==> c in g.connections && c != Connection(f, t)
    requires forall q :: q in r.world.ports[f].connections <==> q in g.world.ports[f].connections && q != t
    requires forall q | q in g.world.ports && q != f && q != t ::
      r.world.ports[q].connections == g.world.ports[q].connections
    ensures KeptWiring(g0, r, P)
  {
  }

  /** The inner loop keeps `Kept` and leaves every peer of the snapshot
      off the port's list. */
  lemma {:induction false} SeverPeersKept(g0: Graph, g: Graph, io: PortRef, peers: seq<PortRef>, P: set<PortRef>)
    requires Consistent(g0) && Kept(g0, g, P) && io in P && io in g0.world.ports
    requires forall c | c in peers :: c in g0.world.ports[io].connections
    ensures forall c | c in peers :: c in g.world.ports
    ensures var r := SeverPeers(g, io, peers);
      Kept(g0, r, P) && forall c | c in peers :: c !in r.world.ports[io].connections
    decreases |peers|
  {
    assert forall c | c in peers :: c in g0.world.ports;
    if peers != [] {
      var c := peers[0];
      var ps := g.world.ports;
      var g1 := Sever(g, io, c);
      SeverStep(g0, g, io, c, P);
      SeverPeersKept(g0, g1, io, peers[1..], P);
      var r := SeverPeers(g1, io, peers[1..]);
      assert r == SeverPeers(g, io, peers);
      assert c !in r.world.ports[io].connections;
    }
  }

  /** The outer loop keeps `Kept` and empties the list of every port it
      visits. */
  lemma {:induction false} SeverAllKept(g0: Graph, g: Graph, ios: seq<PortRef>, P: set<PortRef>)
    requires Consistent(g0) && Kept(g0, g, P)
    requires forall io | io in ios :: io in P && io in g0.world.ports
    ensures var r := SeverAll(g, ios);
      Kept(g0, r, P) && forall io | io in ios :: r.world.ports[io].connections == []
    decreases |ios|
  {
    if ios != [] {
      var io := ios[0];
      var peers := g.world.ports[io].connections;
      SeverPeersKept(g0, g, io, peers, P);
      var g1 := SeverPeers(g, io, peers);
      Emptied(g1.world.ports[io].connections, peers);
      SeverAllKept(g0, g1, ios[1..], P);
      var r := SeverAll(g1, ios[1..]);
      assert r == SeverAll(g, ios);
      Emptied(r.world.ports[io].connections, g1.world.ports[io].connections);
    }
  }

  /** The ports of node `n`, as a set. */
  ghost function NodePorts(w: World, n: NodeRef): set<PortRef>
    requires Valid(w) && n in w.nodes
  {
    set p | p in PortList(w, n)
  }

  /** Deleting a node of a consistent graph, with `P` its ports: the node
      leaves the `nodes` array and no other does; no port and no record
      refers to a port of the node any longer, while every link and record
      between other ports survives; records and lists still agree, and no
      status changes, since no compute follows. */
  lemma DeleteEffect(g: Graph, n: NodeRef)
    requires Consistent(g) && n in g.world.nodes
    ensures var ps := g.world.ports;
      var P := NodePorts(g.world, n);
      var r := Deleted(g, n);
      var ps' := r.world.ports;
      && ps'.Keys == ps.Keys
      && Consistent(r)
      && n !in r.nodes && (forall m | m != n :: m in r.nodes <==> m in g.nodes)
      && r.world.nodes == g.world.nodes
      && (forall p | p in P :: ps'[p].connections == [])
      && (forall q, p | q in ps' && p in P :: p !in ps'[q].connections)
      && (forall c | c in r.connections :: c.from !in P && c.to !in P && c in g.connections)
      && (forall c | c in g.connections && c.from !in P && c.to !in P :: c in r.connections)
      && (forall q, x | q in ps && q !in P && x !in P :: x in ps'[q].connections <==> x in ps[q].connections)
  {
    var P := NodePorts(g.world, n);
    var ios := PortList(g.world, n);
    assert Kept(g, g, P);
    SeverAllKept(g, g, ios, P);
    var g1 := SeverAll(g, ios);
    var r := Deleted(g, n);
    assert r == g1.(nodes := Text.Without(g1.nodes, n));
    DeleteWiring(g, g1, r, P);
  }

  /** Deleting a node listed once in `nodes` leaves the nodes before it
      and after it where they were, in their order. */
  lemma DeleteKeepsOrder(g: Graph, n: NodeRef, before: seq<NodeRef>, after: seq<NodeRef>)
    requires Consistent(g) && n in g.world.nodes
    requires g.nodes == before + [n] + after && n !in before && n !in after
    ensures Deleted(g, n).nodes == before + after
  {
    SeverAllNodes(g, n);
    Text.WithoutOnce(before, n, after);
  }

  /** Severing a node's ports leaves the `nodes` array alone. */
  lemma SeverAllNodes(g: Graph, n: NodeRef)
    requires Consistent(g) && n in g.world.nodes
    ensures Deleted(g, n).nodes == Text.Without(g.nodes, n)
  {
    var P := NodePorts(g.world, n);
    var ios := PortList(g.world, n);
    assert Kept(g, g, P);
    SeverAllKept(g, g, ios, P);
  }

  /** Deleting a node of a consistent graph: every input the node fed, and
      every connected input of the node itself, holds null; every output
      and every other input keeps its value. */
  lemma DeleteValues(g: Graph, n: NodeRef)
    requires Consistent(g) && n in g.world.nodes
    ensures var ps := g.world.ports;
      var P := NodePorts(g.world, n);
      var ps' := Deleted(g, n).world.ports;
      && ps'.Keys == ps.Keys
      && (forall q | q in ps && !ps[q].isInput :: ps'[q].value == ps[q].value)
      && (forall q, p | q in ps && ps[q].isInput && p in P && p in ps[q].connections :: ps'[q].value == Null)
      && (forall q | q in P && ps[q].isInput && ps[q].connections != [] :: ps'[q].value == Null)
      && (forall q | q in ps && q !in P && ps[q].isInput && forall p | p in ps[q].connections :: p !in P ::
            ps'[q].value == ps[q].value)
  {
    var P := NodePorts(g.world, n);
    var ios := PortList(g.world, n);
    assert Kept(g, g, P);
    SeverAllKept(g, g, ios, P);
    var g1 := SeverAll(g, ios);
    assert Deleted(g, n).world == g1.world;
    SeveredValues(g, g1, P);
  }

  lemma DeleteWiring(g: Graph, g1: Graph, r: Graph, P: set<PortRef>)
    requires Consistent(g) && Kept(g, g1, P)
    requires forall p | p in P :: p in g1.world.ports && g1.world.ports[p].connections == []
    requires r.world == g1.world && r.connections == g1.connections
    requires forall m | m in r.nodes :: m in g1.nodes
    ensures var ps := g.world.ports;
      var ps' := r.world.ports;
      && Consistent(r)
      && (forall q, p | q in ps' && p in P :: p !in ps'[q].connections)
      && (forall c | c in r.connections :: c.from !in P && c.to !in P && c in g.connections)
      && (forall c | c in g.connections && c.from !in P && c.to !in P :: c in r.connections)
      && (forall q, x | q in ps && q !in P && x !in P :: x in ps'[q].connections <==> x in ps[q].connections)
  {
    var ps' := r.world.ports;
    forall q, p | q in ps' && p in P
      ensures p !in ps'[q].connections
    {
      assert q !in ps'[p].connections;
    }
  }

  lemma SeveredValues(g: Graph, g1: Graph, P: set<PortRef>)
    requires Consistent(g) && Kept(g, g1, P)
    requires forall p | p in P :: p in g1.world.ports && g1.world.ports[p].connections == []
    ensures var ps := g.world.ports;
      var ps' := g1.world.ports;
      && (forall q | q in ps && !ps[q].isInput :: ps'[q].value == ps[q].value)
      && (forall q, p | q in ps && ps[q].isInput && p in P && p in ps[q].connections :: ps'[q].value == Null)
      && (forall q | q in P && ps[q].isInput && ps[q].connections != [] :: ps'[q].value == Null)
      && (forall q | q in ps && q !in P && ps[q].isInput && forall p | p in ps[q].connections :: p !in P ::
            ps'[q].value == ps[q].value)
  {
    var ps := g.world.ports;
    var ps' := g1.world.ports;
    forall q, p | q in ps && ps[q].isInput && p in P && p in ps[q].connections
      ensures ps'[q].value == Null
    {
      if q !in P {
        assert q !in ps'[p].connections;
        LostOnly(ps[q].connections, ps'[q].connections, p);
      }
    }
    forall q | q in ps && q !in P && ps[q].isInput && forall p | p in ps[q].connections :: p !in P
      ensures ps'[q].value == ps[q].value
    {
      if ps[q].connections != [] {
        var x := ps[q].connections[0];
        assert x in ps[q].connections && x !in P;
        assert x in ps'[q].connections;
      }
    }
  }
}
