/** Ports (nodes/IO/IO.js).

    A port is an object that other ports refer to: an output lists the inputs
    it feeds and an input lists the output feeding it. Object identity is a
    `PortRef`, and the ports live in a store `Ports` that maps each reference
    to the port's current fields. The methods of IO are modelled over that
    store: each takes the store and returns the store after the call. */
module IO {
  import opened Wrappers
  import opened Values
  import Text

  type PortRef = nat
  type NodeRef = nat

  /** The selection state of a DropdownIO: its options and the selected index. */
  datatype Choice = Choice(options: seq<string>, selected: nat)

  datatype Port = Port(
    id: string,
    portType: string,              // `io.type`
    value: Value,
    owner: Option<NodeRef>,       // `io.node`
    isInput: bool,
    allowConnections: bool,
    canEdit: bool,
    connections: seq<PortRef>,
    choice: Option<Choice>)       // Some for a DropdownIO

  type Ports = map<PortRef, Port>

  /** `new IO(id, type, allowConnections, isInput)`: a port holding null, with
      no connections, editable, and not yet attached to a node. */
  function NewPort(id: string, portType: string, allowConnections: bool, isInput: bool): (p: Port)
    ensures p.value == Null && p.connections == [] && p.canEdit && p.owner == None
    ensures p.id == id && p.portType == portType && p.isInput == isInput
    ensures p.allowConnections == allowConnections
    ensures GetValue(p) == Null
  {
    Port(id, portType, Null, None, isInput, allowConnections, true, [], None)
  }

  /** `new DropdownIO(id, options)`: an input that refuses connections and
      whose value is the selected option, initially the first. */
  function NewDropdown(id: string, options: seq<string>): (p: Port)
    requires options != []
    ensures p.isInput && !p.allowConnections && p.connections == [] && p.owner == None
    ensures GetValue(p) == Str(options[0])
  {
    Port(id, "dropdown", Null, None, true, false, true, [], Some(Choice(options, 0)))
  }

  /** `io.getValue()`: the stored value, or the selected option of a dropdown. */
  function GetValue(p: Port): Value {
    match p.choice
    case None => p.value
    case Some(c) => if c.selected < |c.options| then Str(c.options[c.selected]) else p.value
  }

  /** The port after `this.value = v; this.onSetValue(v)`: a dropdown also
      selects `v` when `v` is one of its options. */
  function Stored(p: Port, v: Value): (q: Port)
    ensures q.value == v
    ensures p.choice.None? ==> GetValue(q) == v
    ensures p.choice.Some? && v.Str? && v.s in p.choice.value.options ==> GetValue(q) == v
    ensures SamePort(p, q)
  {
    match p.choice
    case None => p.(value := v)
    case Some(c) =>
      if v.Str? && v.s in c.options then p.(value := v, choice := Some(c.(selected := Text.IndexOf(c.options, v.s))))
      else p.(value := v)
  }

  /** Storing the same value twice is storing it once. */
  lemma StoredTwice(p: Port, v: Value)
    ensures Stored(Stored(p, v), v) == Stored(p, v)
  {
  }

  /** Every listed peer exists and sits on the other side: outputs list
      inputs and inputs list outputs. */
  ghost predicate WellFormed(ps: Ports) {
    forall p | p in ps :: forall q | q in ps[p].connections :: q in ps && ps[q].isInput != ps[p].isInput
  }

  /** The same ports with the same peers; only values and selections differ. */
  ghost predicate SamePort(a: Port, b: Port) {
    a.id == b.id && a.portType == b.portType && a.owner == b.owner && a.isInput == b.isInput
    && a.allowConnections == b.allowConnections && a.canEdit == b.canEdit
    && a.connections == b.connections && a.choice.Some? == b.choice.Some?
  }

  ghost predicate SameWiring(ps: Ports, ps': Ports) {
    ps'.Keys == ps.Keys && forall p | p in ps :: SamePort(ps[p], ps'[p])
  }

  lemma WellFormedWiring(ps: Ports, ps': Ports)
    requires WellFormed(ps) && SameWiring(ps, ps')
    ensures WellFormed(ps')
  {
  }

  /** The store after `p.updateConnections()`: an output hands its value to
      every input it lists; an input changes nothing. */
  function Propagated(ps: Ports, p: PortRef): Ports
    requires p in ps
  {
    if ps[p].isInput then ps
    else map q | q in ps :: if q in ps[p].connections then Stored(ps[q], ps[p].value) else ps[q]
  }

  /** `updateConnections` rewires nothing, and writes exactly the listed
      inputs of an output. */
  lemma PropagatedEffect(ps: Ports, p: PortRef)
    requires WellFormed(ps) && p in ps
    ensures var r := Propagated(ps, p);
      && SameWiring(ps, r)
      && r[p] == ps[p]
      && (!ps[p].isInput ==> forall q | q in ps[p].connections && q in ps :: r[q] == Stored(ps[q], ps[p].value))
      && (forall q | q in ps && (ps[p].isInput || q !in ps[p].connections) :: r[q] == ps[q])
  {
    var r := Propagated(ps, p);
    if !ps[p].isInput {
      assert p !in ps[p].connections ==> r[p] == ps[p];
    }
  }

  /** The store after `p.setValue(v)`: `p` holds `v`; when `p` is an output,
      every input it lists holds `v` too; no other port and no list changes. */
  function WithValue(ps: Ports, p: PortRef, v: Value): (r: Ports)
    requires WellFormed(ps) && p in ps
    ensures SameWiring(ps, r) && WellFormed(r)
    ensures r[p] == Stored(ps[p], v)
    ensures !ps[p].isInput ==> forall q | q in ps[p].connections :: r[q] == Stored(ps[q], v)
    ensures forall q | q in ps && q != p && (ps[p].isInput || q !in ps[p].connections) :: r[q] == ps[q]
  {
    var ps1 := ps[p := Stored(ps[p], v)];
    assert SameWiring(ps, ps1);
    WellFormedWiring(ps, ps1);
    PropagatedEffect(ps1, p);
    var r := Propagated(ps1, p);
    assert p !in ps[p].connections;
    WellFormedWiring(ps, r);
    r
  }

  /** The store after `from.connectTo(to)`. */
  function Linked(ps: Ports, from: PortRef, to: PortRef): Ports
    requires from in ps && to in ps
  {
    if !ps[from].allowConnections || ps[from].isInput || !ps[to].isInput then ps
    else Propagated(Hooked(ps, from, to), from)
  }

  /** The lists once a legal `connectTo` has run its guard: an empty input
      and the output list each other; an occupied input changes nothing. */
  function Hooked(ps: Ports, from: PortRef, to: PortRef): Ports
    requires from in ps && to in ps
  {
    if |ps[to].connections| == 0 then
      var ps0 := ps[to := ps[to].(connections := ps[to].connections + [from])];
      ps0[from := ps0[from].(connections := ps0[from].connections + [to])]
    else ps
  }

  lemma HookedEffect(ps: Ports, from: PortRef, to: PortRef)
    requires WellFormed(ps) && from in ps && to in ps && !ps[from].isInput && ps[to].isInput
    ensures var h := Hooked(ps, from, to);
      && h.Keys == ps.Keys && WellFormed(h)
      && h[from].value == ps[from].value && !h[from].isInput
      && (forall q | q in ps && q != from && q != to :: h[q].connections == ps[q].connections)
      && (|ps[to].connections| == 0 ==>
            h[to].connections == [from] && h[from].connections == ps[from].connections + [to])
      && (|ps[to].connections| != 0 ==> h == ps)
  {
    if |ps[to].connections| == 0 {
      var h := Hooked(ps, from, to);
      assert forall q | q in ps :: h[q].isInput == ps[q].isInput;
      assert forall q | q in ps && q != from && q != to :: h[q].connections == ps[q].connections;
      forall p | p in h
        ensures forall q | q in h[p].connections :: q in h && h[q].isInput != h[p].isInput
      {
        if p == to {
          assert h[p].connections == [from];
        } else if p == from {
          assert h[p].connections == ps[from].connections + [to];
        } else {
          assert h[p].connections == ps[p].connections;
        }
      }
    }
  }

  /** Connection legality of `connectTo`: nothing changes unless `from` is an
      output that allows connections and `to` is an input; the two are linked
      only when `to` had no connection, so an input never gains a second one;
      and afterwards every input listed by `from` holds `from`'s value. */
  lemma ConnectToEffect(ps: Ports, from: PortRef, to: PortRef)
    requires WellFormed(ps) && from in ps && to in ps
    ensures var r := Linked(ps, from, to);
      && r.Keys == ps.Keys && WellFormed(r)
      && (!ps[from].allowConnections || ps[from].isInput || !ps[to].isInput ==> r == ps)
      && (ps[from].allowConnections && !ps[from].isInput && ps[to].isInput ==>
            && r[from].value == ps[from].value
            && (forall q | q in r[from].connections :: r[q].value == ps[from].value)
            && (|ps[to].connections| == 0 ==>
                  r[to].connections == [from] && r[from].connections == ps[from].connections + [to])
            && (|ps[to].connections| != 0 ==>
                  r[to].connections == ps[to].connections && r[from].connections == ps[from].connections))
      && (forall q | q in ps && q != from && q != to :: r[q].connections == ps[q].connections)
  {
    if ps[from].allowConnections && !ps[from].isInput && ps[to].isInput {
      var h := Hooked(ps, from, to);
      HookedEffect(ps, from, to);
      PropagatedEffect(h, from);
      var r := Propagated(h, from);
      assert r == Linked(ps, from, to);
      forall q | q in r[from].connections
        ensures r[q].value == ps[from].value
      {
        assert q in h[from].connections;
      }
      WellFormedWiring(h, r);
    }
  }

  /** The store after `io.disconnectFrom(target)`. */
  function DisconnectFrom(ps: Ports, io: PortRef, target: PortRef): Ports
    requires io in ps && target in ps
  {
    var ps1 := ps[io := ps[io].(connections := Text.Without(ps[io].connections, target))];
    if ps1[target].isInput then
      ps1[target := ps1[target].(connections := Text.Without(ps1[target].connections, io))]
    else ps1
  }

  /** `disconnectFrom` always drops `target` from `io`'s list, but drops
      `io` from `target`'s list only when `target` is an input; values and
      every other list are left alone. */
  lemma DisconnectFromEffect(ps: Ports, io: PortRef, target: PortRef)
    requires io in ps && target in ps && io != target
    ensures var r := DisconnectFrom(ps, io, target);
      && r.Keys == ps.Keys
      && target !in r[io].connections
      && (forall q :: q in r[io].connections <==> q in ps[io].connections && q != target)
      && (ps[target].isInput ==> forall q :: q in r[target].connections <==> q in ps[target].connections && q != io)
      && (!ps[target].isInput ==> r[target] == ps[target])
      && (forall q | q in ps :: r[q].value == ps[q].value)
      && (forall q | q in ps && q != io && q != target :: r[q] == ps[q])
  {
  }

  /** `this.updateConnections()`: the loop over the connected inputs. */
  method UpdateConnections(ps: Ports, p: PortRef) returns (r: Ports)
    requires WellFormed(ps) && p in ps
    ensures r == Propagated(ps, p)
    decreases if ps[p].isInput then 0 else 2
  {
    r := ps;
    if !ps[p].isInput {
      var conns := ps[p].connections;
      var v := ps[p].value;
      var i := 0;
      while i < |conns|
        invariant 0 <= i <= |conns|
        invariant SameWiring(ps, r) && WellFormed(r)
        invariant forall q | q in ps :: r[q] == if q in conns[..i] then Stored(ps[q], v) else ps[q]
      {
        var t := conns[i];
        assert t in ps && ps[t].isInput;
        StoredTwice(ps[t], v);
        r := SetValue(r, t, v);
        assert conns[..i + 1] == conns[..i] + [t];
        i := i + 1;
      }
      assert conns[..i] == conns;
      assert p !in conns;
      assert r == Propagated(ps, p);
    }
  }

  /** `this.setValue(v)`: store, notify, and push one hop. */
  method SetValue(ps: Ports, p: PortRef, v: Value) returns (r: Ports)
    requires WellFormed(ps) && p in ps
    ensures r == WithValue(ps, p, v)
    decreases if ps[p].isInput then 1 else 3
  {
    r := ps[p := Stored(ps[p], v)];
    assert SameWiring(ps, r);
    r := UpdateConnections(r, p);
  }

  /** `this.connectTo(targetIO)`. */
  method ConnectTo(ps: Ports, from: PortRef, to: PortRef) returns (r: Ports)
    requires WellFormed(ps) && from in ps && to in ps
    ensures r == Linked(ps, from, to)
  {
    r := ps;
    if !r[from].allowConnections { return; }
    if r[from].isInput { return; }
    if !r[to].isInput { return; }
    if |r[to].connections| == 0 {
      r := r[to := r[to].(connections := r[to].connections + [from])];
      r := r[from := r[from].(connections := r[from].connections + [to])];
    }
    r := UpdateConnections(r, from);
  }
}
