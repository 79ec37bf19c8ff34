/** Nodes (nodes/GraphNode.js).

    A node owns ordered maps from port ids to ports (`inputs`, `outputs`, in
    insertion order, as a JavaScript Map iterates) and a status flag with a
    message. Nodes and ports together form the object `World`; the methods of
    GraphNode are modelled as functions from the world before the call to the
    world after it, and `setOutputValue`, which loops, also as a method. */
module GraphNode {
  import opened Wrappers
  import opened Values
  import opened IO
  import Text

  /** The subclass of GraphNode a node was created from. */
  datatype Kind =
    | ConstantNumber | ConstantString | ConstantTextbox
    | Substring | Concat | ToBase64 | FromBase64
    | ToLower | ToUpper
    | Math

  /** One entry of the `inputs` or `outputs` map: the port id and the port. */
  datatype Slot = Slot(id: string, port: PortRef)

  datatype Node = Node(
    kind: Kind,
    name: string,            // the `id` given to the GraphNode constructor
    inputs: seq<Slot>,
    outputs: seq<Slot>,
    status: bool,
    statusMessage: string)

  /** Every port and node object, and the next unused reference. */
  datatype World = World(ports: Ports, nodes: map<NodeRef, Node>, next: nat)

  /** The result of `validate()` or `compute()` together with the world it leaves. */
  datatype Checked = Checked(ok: bool, world: World)

  /** The port a widget constructor creates: a plain field (NumberIO,
      StringIO, TextboxIO) or a DropdownIO with its options. */
  datatype PortSpec = Field(id: string, portType: string) | Dropdown(id: string, options: seq<string>)

  /** The node name and the ports a subclass constructor adds, in order. */
  datatype Layout = Layout(name: string, inputs: seq<PortSpec>, outputs: seq<PortSpec>)

  /** `new GraphNode(id)`: empty port maps and status (true, "Ok"). */
  function NewNode(kind: Kind, name: string): (n: Node)
    ensures n.inputs == [] && n.outputs == []
    ensures n.status && n.statusMessage == "Ok"
  {
    Node(kind, name, [], [], true, "Ok")
  }

  /** `map.get(id)`: the port stored under `id`, if any. */
  function Find(slots: seq<Slot>, id: string): (r: Option<PortRef>)
    ensures r.Some? ==> Slot(id, r.value) in slots
    ensures r.None? <==> forall s | s in slots :: s.id != id
  {
    if slots == [] then None
    else if slots[0].id == id then Some(slots[0].port)
    else Find(slots[1..], id)
  }

  /** The first slot carrying an id is the one `Find` returns. */
  lemma {:induction false} FindAt(slots: seq<Slot>, k: nat)
    requires k < |slots| && forall j | 0 <= j < k :: slots[j].id != slots[k].id
    ensures Find(slots, slots[k].id) == Some(slots[k].port)
  {
    if k > 0 {
      FindAt(slots[1..], k - 1);
    }
  }

  /** `map.values()`. */
  function PortsOf(slots: seq<Slot>): (r: seq<PortRef>)
    ensures |r| == |slots| && forall i :: 0 <= i < |slots| ==> r[i] == slots[i].port
  {
    if slots == [] then [] else [slots[0].port] + PortsOf(slots[1..])
  }

  /** Every port a node lists exists, belongs to that node, and sits on the
      side it is listed on. */
  ghost predicate Attached(w: World, n: NodeRef)
    requires n in w.nodes
  {
    && (forall s | s in w.nodes[n].inputs ::
          s.port in w.ports && w.ports[s.port].owner == Some(n) && w.ports[s.port].isInput)
    && (forall s | s in w.nodes[n].outputs ::
          s.port in w.ports && w.ports[s.port].owner == Some(n) && !w.ports[s.port].isInput)
  }

  /** The object graph is closed: every reference resolves, ports are wired
      input-to-output, each port belongs to the node that lists it, and no
      output is a dropdown (every output of the catalogue is a plain field). */
  ghost predicate Valid(w: World) {
    && WellFormed(w.ports)
    && (forall p | p in w.ports ::
          && p < w.next
          && (w.ports[p].owner.Some? ==> w.ports[p].owner.value in w.nodes)
          && (!w.ports[p].isInput ==> w.ports[p].choice.None?))
    && (forall n | n in w.nodes :: n < w.next && Attached(w, n))
  }

  ghost predicate SameNode(a: Node, b: Node) {
    a.kind == b.kind && a.name == b.name && a.inputs == b.inputs && a.outputs == b.outputs
  }

  /** The same objects with the same wiring and port maps; only port values,
      dropdown selections and node statuses may differ. */
  ghost predicate SameShape(w: World, w': World) {
    && w'.next == w.next
    && SameWiring(w.ports, w'.ports)
    && w'.nodes.Keys == w.nodes.Keys
    && (forall n | n in w.nodes :: SameNode(w.nodes[n], w'.nodes[n]))
  }

  lemma ShapeValid(w: World, w': World)
    requires Valid(w) && SameShape(w, w')
    ensures Valid(w')
  {
    WellFormedWiring(w.ports, w'.ports);
    forall n | n in w'.nodes
      ensures Attached(w', n)
    {
      assert SameNode(w.nodes[n], w'.nodes[n]);
      assert Attached(w, n);
    }
  }

  /** Only the nodes in `s` may have changed: every other node keeps its
      status, and every output owned by another node keeps its value. */
  ghost predicate Confined(w: World, r: World, s: set<NodeRef>) {
    && SameShape(w, r)
    && (forall m | m in w.nodes && m !in s :: r.nodes[m] == w.nodes[m])
    && (forall p | p in w.ports && !w.ports[p].isInput && !(w.ports[p].owner.Some? && w.ports[p].owner.value in s) ::
          r.ports[p] == w.ports[p])
  }

  lemma ConfinedTransitive(a: World, b: World, c: World, s: set<NodeRef>, t: set<NodeRef>)
    requires Confined(a, b, s) && Confined(b, c, t)
    ensures Confined(a, c, s + t)
  {
    forall p | p in a.ports && !a.ports[p].isInput && !(a.ports[p].owner.Some? && a.ports[p].owner.value in s + t)
      ensures c.ports[p] == a.ports[p]
    {
      assert SamePort(a.ports[p], b.ports[p]);
    }
  }

  lemma ConfinedWider(w: World, r: World, s: set<NodeRef>, t: set<NodeRef>)
    requires Confined(w, r, s) && s <= t
    ensures Confined(w, r, t)
  {
  }

  /** `setStatus(status, message)`: the message falls back to "Invalid IO"
      whenever the given one is empty, so a status message is never empty. */
  function SetStatus(w: World, n: NodeRef, ok: bool, message: string): (r: World)
    requires n in w.nodes
    ensures SameShape(w, r) && r.ports == w.ports && Confined(w, r, {n})
    ensures r.nodes[n].status == ok && r.nodes[n].statusMessage != ""
    ensures message != "" ==> r.nodes[n].statusMessage == message
    ensures forall m | m in w.nodes && m != n :: r.nodes[m] == w.nodes[m]
  {
    var msg := if message == "" then "Invalid IO" else message;
    w.(nodes := w.nodes[n := w.nodes[n].(status := ok, statusMessage := msg)])
  }

  /** `registerIO(io, isInput)` without the DOM: the port learns its node and side. */
  function RegisterIO(w: World, n: NodeRef, p: PortRef, isInput: bool): World
    requires p in w.ports
  {
    w.(ports := w.ports[p := w.ports[p].(owner := Some(n), isInput := isInput)])
  }

  /** The `inputs` (isInput) or `outputs` map of a node. */
  function Side(node: Node, isInput: bool): seq<Slot> {
    if isInput then node.inputs else node.outputs
  }

  /** `addInput(io)` (isInput) and `addOutput(io)`: the port goes under its
      id unless that id is taken, and is registered on that side. */
  function AddSlot(w: World, n: NodeRef, p: PortRef, isInput: bool): World
    requires n in w.nodes && p in w.ports
  {
    var node := w.nodes[n];
    var id := w.ports[p].id;
    if Find(Side(node, isInput), id).Some? then w
    else
      var node' := if isInput then node.(inputs := node.inputs + [Slot(id, p)])
                   else node.(outputs := node.outputs + [Slot(id, p)]);
      RegisterIO(w.(nodes := w.nodes[n := node']), n, p, isInput)
  }

  /** A port nobody refers to: no owner, no peers, listed by no port. */
  ghost predicate Detached(w: World, p: PortRef)
    requires p in w.ports
  {
    w.ports[p].owner == None && w.ports[p].connections == []
    && forall q | q in w.ports :: p !in w.ports[q].connections
  }

  /** `addInput`/`addOutput`: an id already present on that side changes
      nothing; otherwise the port is appended under its id and learns its node
      and its side, the other side and every other node and port are left
      alone. */
  lemma AddSlotEffect(w: World, n: NodeRef, p: PortRef, isInput: bool)
    requires n in w.nodes && p in w.ports
    ensures var r := AddSlot(w, n, p, isInput);
      var id := w.ports[p].id;
      && r.next == w.next && r.ports.Keys == w.ports.Keys && r.nodes.Keys == w.nodes.Keys
      && (Find(Side(w.nodes[n], isInput), id).Some? ==> r == w)
      && (Find(Side(w.nodes[n], isInput), id).None? ==>
            && Side(r.nodes[n], isInput) == Side(w.nodes[n], isInput) + [Slot(id, p)]
            && Side(r.nodes[n], !isInput) == Side(w.nodes[n], !isInput)
            && r.nodes[n] == w.nodes[n].(inputs := r.nodes[n].inputs, outputs := r.nodes[n].outputs)
            && r.ports[p] == w.ports[p].(owner := Some(n), isInput := isInput)
            && (forall q | q in w.ports && q != p :: r.ports[q] == w.ports[q])
            && (forall m | m in w.nodes && m != n :: r.nodes[m] == w.nodes[m]))
  {
  }

  /** Adding a detached port keeps the world closed. */
  lemma AddSlotValid(w: World, n: NodeRef, p: PortRef, isInput: bool)
    requires Valid(w) && n in w.nodes && p in w.ports && Detached(w, p)
    requires isInput || w.ports[p].choice.None?
    ensures Valid(AddSlot(w, n, p, isInput))
  {
    var r := AddSlot(w, n, p, isInput);
    AddSlotEffect(w, n, p, isInput);
    if r != w {
      assert WellFormed(r.ports) by {
        forall a | a in r.ports
          ensures forall q | q in r.ports[a].connections :: q in r.ports && r.ports[q].isInput != r.ports[a].isInput
        {
          if a != p {
            assert r.ports[a] == w.ports[a];
            assert p !in w.ports[a].connections;
          }
        }
      }
      forall m | m in r.nodes
        ensures Attached(r, m)
      {
        assert Attached(w, m);
        if m == n {
          assert forall s | s in Side(w.nodes[n], isInput) :: s.port != p;
        }
      }
    }
  }

  /** The ids of a port map, in insertion order. */
  function Ids(slots: seq<Slot>): (r: seq<string>)
    ensures |r| == |slots| && forall i | 0 <= i < |slots| :: r[i] == slots[i].id
  {
    Text.Projected(slots, (s: Slot) => s.id)
  }

  lemma IdsAppend(slots: seq<Slot>, s: Slot)
    ensures Ids(slots + [s]) == Ids(slots) + [s.id]
  {
    assert forall i | 0 <= i < |slots| :: (slots + [s])[i] == slots[i];
  }

  /** `map.has(id)` is `id in` the map's ids. */
  lemma FindIds(slots: seq<Slot>, id: string)
    ensures Find(slots, id).Some? <==> id in Ids(slots)
  {
    if Find(slots, id).Some? {
      var k :| 0 <= k < |slots| && slots[k] == Slot(id, Find(slots, id).value);
      assert Ids(slots)[k] == id;
    }
  }

  /** The ids a constructor gives its ports, in order. */
  function SpecIds(specs: seq<PortSpec>): (r: seq<string>)
    ensures |r| == |specs| && forall i | 0 <= i < |specs| :: r[i] == specs[i].id
  {
    Text.Projected(specs, (s: PortSpec) => s.id)
  }

  /** `new NumberIO(id)`, `new StringIO(id)`, `new TextboxIO(id)`: a plain
      port that allows connections; `new DropdownIO(id, options)`. */
  function MakePort(spec: PortSpec): (p: Port)
    requires spec.Dropdown? ==> spec.options != []
    ensures p.id == spec.id && p.value == Null && p.connections == [] && p.owner == None
    ensures spec.Field? ==> p.choice.None? && p.allowConnections && p.portType == spec.portType
    ensures spec.Dropdown? ==> !p.allowConnections && GetValue(p) == Str(spec.options[0])
  {
    match spec
    case Field(id, t) => NewPort(id, t, true, true)
    case Dropdown(id, options) => NewDropdown(id, options)
  }

  /** Port specifications a constructor can add: distinct ids, dropdowns
      only on the input side, each with at least one option. */
  ghost predicate Buildable(specs: seq<PortSpec>, isInput: bool) {
    && (forall i | 0 <= i < |specs| :: specs[i].Dropdown? ==> specs[i].options != [] && isInput)
    && (forall i, j | 0 <= i < j < |specs| :: specs[i].id != specs[j].id)
  }

  /** Every port reference is below `next`, so `next` and above are free. */
  ghost predicate Fresh(w: World) {
    forall p | p in w.ports :: p < w.next
  }

  /** The port made for `spec` once node `n` has registered it. */
  function Owned(spec: PortSpec, n: NodeRef, isInput: bool): Port
    requires spec.Dropdown? ==> spec.options != []
  {
    MakePort(spec).(owner := Some(n), isInput := isInput)
  }

  /** A fresh port for `spec` stored at the next free reference. */
  function Allocate(w: World, spec: PortSpec): (r: World)
    requires spec.Dropdown? ==> spec.options != []
    ensures r.next == w.next + 1 && r.nodes == w.nodes && r.ports == w.ports[w.next := MakePort(spec)]
  {
    w.(ports := w.ports[w.next := MakePort(spec)], next := w.next + 1)
  }

  lemma AllocateValid(w: World, spec: PortSpec)
    requires Valid(w) && (spec.Dropdown? ==> spec.options != [])
    ensures Valid(Allocate(w, spec)) && w.next in Allocate(w, spec).ports && Detached(Allocate(w, spec), w.next)
  {
    var p := w.next;
    var r := Allocate(w, spec);
    assert WellFormed(r.ports) by {
      forall a | a in r.ports
        ensures forall q | q in r.ports[a].connections :: q in r.ports && r.ports[q].isInput != r.ports[a].isInput
      {
        if a != p {
          assert r.ports[a] == w.ports[a];
          assert p !in w.ports[a].connections;
        }
      }
    }
    forall m | m in r.nodes
      ensures Attached(r, m)
    {
      assert Attached(w, m);
    }
    assert Detached(r, p) by {
      forall q | q in r.ports
        ensures p !in r.ports[q].connections
      {
        if q != p {
          assert p !in w.ports[q].connections;
        }
      }
    }
  }

  /** One `addInput(new …)` or `addOutput(new …)` call of a constructor
      for an id not yet on that side: the new port takes the next free
      reference, belongs to the node on that side, and is appended to it. */
  function AddNew(w: World, n: NodeRef, spec: PortSpec, isInput: bool): (r: World)
    requires n in w.nodes && (spec.Dropdown? ==> spec.options != [])
  {
    var node := w.nodes[n];
    var slot := Slot(spec.id, w.next);
    var node' := if isInput then node.(inputs := node.inputs + [slot]) else node.(outputs := node.outputs + [slot]);
    World(w.ports[w.next := Owned(spec, n, isInput)], w.nodes[n := node'], w.next + 1)
  }

  /** `AddNew` is `addInput`/`addOutput` of a freshly allocated port. */
  lemma AddNewIsAddSlot(w: World, n: NodeRef, spec: PortSpec, isInput: bool)
    requires n in w.nodes && (spec.Dropdown? ==> spec.options != [])
    requires spec.id !in Ids(Side(w.nodes[n], isInput))
    ensures AddNew(w, n, spec, isInput) == AddSlot(Allocate(w, spec), n, w.next, isInput)
  {
    var w1 := Allocate(w, spec);
    FindIds(Side(w1.nodes[n], isInput), spec.id);
    AddSlotEffect(w1, n, w.next, isInput);
  }

  lemma AddNewValid(w: World, n: NodeRef, spec: PortSpec, isInput: bool)
    requires Valid(w) && n in w.nodes && (spec.Dropdown? ==> spec.options != [] && isInput)
    requires spec.id !in Ids(Side(w.nodes[n], isInput))
    ensures Valid(AddNew(w, n, spec, isInput))
  {
    AllocateValid(w, spec);
    AddNewIsAddSlot(w, n, spec, isInput);
    AddSlotValid(Allocate(w, spec), n, w.next, isInput);
  }

  /** The slots `AddPorts` appends: one per specification, at consecutive
      references from `base`. */
  function NewSlots(specs: seq<PortSpec>, base: nat): (r: seq<Slot>)
    ensures |r| == |specs|
  {
    if specs == [] then []
    else NewSlots(specs[..|specs| - 1], base) + [Slot(specs[|specs| - 1].id, base + |specs| - 1)]
  }

  lemma {:induction false} NewSlotsAt(specs: seq<PortSpec>, base: nat)
    ensures forall i | 0 <= i < |specs| :: NewSlots(specs, base)[i] == Slot(specs[i].id, base + i)
  {
    if specs != [] {
      var init := specs[..|specs| - 1];
      NewSlotsAt(init, base);
      assert forall i | 0 <= i < |init| :: init[i] == specs[i];
    }
  }

  /** The constructor's `addInput(new …)` (isInput) or `addOutput(new …)`
      calls, in order: each port is allocated at the next free reference and
      added under its id. */
  function AddPorts(w: World, n: NodeRef, specs: seq<PortSpec>, isInput: bool): (r: World)
    requires n in w.nodes && Buildable(specs, isInput)
    requires forall i | 0 <= i < |specs| :: specs[i].id !in Ids(Side(w.nodes[n], isInput))
    ensures r.next == w.next + |specs| && r.nodes.Keys == w.nodes.Keys
    ensures Ids(Side(r.nodes[n], isInput)) == Ids(Side(w.nodes[n], isInput)) + SpecIds(specs)
    decreases |specs|
  {
    if specs == [] then
      assert Ids(Side(w.nodes[n], isInput)) + SpecIds(specs) == Ids(Side(w.nodes[n], isInput));
      w
    else
      var init := specs[..|specs| - 1];
      var last := specs[|specs| - 1];
      assert forall i | 0 <= i < |init| :: init[i] == specs[i];
      var r0 := AddPorts(w, n, init, isInput);
      assert last.id !in Ids(Side(r0.nodes[n], isInput)) by {
        forall i | 0 <= i < |init|
          ensures SpecIds(init)[i] != last.id
        {
          assert specs[i].id != specs[|specs| - 1].id;
        }
        assert last.id !in Ids(Side(w.nodes[n], isInput));
      }
      var r := AddNew(r0, n, last, isInput);
      IdsAppend(Side(r0.nodes[n], isInput), Slot(last.id, r0.next));
      var before := Ids(Side(w.nodes[n], isInput));
      assert Ids(Side(r.nodes[n], isInput)) == (before + SpecIds(init)) + [last.id];
      assert SpecIds(specs) == SpecIds(init) + [last.id];
      assert (before + SpecIds(init)) + [last.id] == before + (SpecIds(init) + [last.id]);
      r
  }

  /** `AddPorts` on a non-empty list is `AddPorts` on all but the last
      specification followed by one `AddNew` for the last. */
  lemma AddPortsLast(w: World, n: NodeRef, specs: seq<PortSpec>, isInput: bool)
    requires n in w.nodes && Buildable(specs, isInput) && specs != []
    requires forall i | 0 <= i < |specs| :: specs[i].id !in Ids(Side(w.nodes[n], isInput))
    ensures var init := specs[..|specs| - 1];
      var last := specs[|specs| - 1];
      && Buildable(init, isInput)
      && (forall i | 0 <= i < |init| :: init[i].id !in Ids(Side(w.nodes[n], isInput)))
      && (last.Dropdown? ==> last.options != [] && isInput)
      && last.id !in Ids(Side(AddPorts(w, n, init, isInput).nodes[n], isInput))
      && AddPorts(w, n, specs, isInput) == AddNew(AddPorts(w, n, init, isInput), n, last, isInput)
  {
    var init := specs[..|specs| - 1];
    var last := specs[|specs| - 1];
    assert forall i | 0 <= i < |init| :: init[i] == specs[i];
    var r0 := AddPorts(w, n, init, isInput);
    forall i | 0 <= i < |init|
      ensures SpecIds(init)[i] != last.id
    {
      assert specs[i].id != specs[|specs| - 1].id;
    }
    assert last.id !in Ids(Side(w.nodes[n], isInput));
  }

  lemma {:induction false} AddPortsValid(w: World, n: NodeRef, specs: seq<PortSpec>, isInput: bool)
    requires Valid(w) && n in w.nodes && Buildable(specs, isInput)
    requires forall i | 0 <= i < |specs| :: specs[i].id !in Ids(Side(w.nodes[n], isInput))
    ensures Valid(AddPorts(w, n, specs, isInput))
    decreases |specs|
  {
    if specs != [] {
      var init := specs[..|specs| - 1];
      AddPortsLast(w, n, specs, isInput);
      AddPortsValid(w, n, init, isInput);
      AddNewValid(AddPorts(w, n, init, isInput), n, specs[|specs| - 1], isInput);
    }
  }

  /** The last call of a non-empty `AddPorts` appends one slot. */
  lemma AddPortsSideStep(w: World, n: NodeRef, specs: seq<PortSpec>, isInput: bool)
    requires n in w.nodes && Buildable(specs, isInput) && specs != []
    requires forall i | 0 <= i < |specs| :: specs[i].id !in Ids(Side(w.nodes[n], isInput))
    ensures (AddPortsLast(w, n, specs, isInput);
      Side(AddPorts(w, n, specs, isInput).nodes[n], isInput)
      == Side(AddPorts(w, n, specs[..|specs| - 1], isInput).nodes[n], isInput)
         + [Slot(specs[|specs| - 1].id, w.next + |specs| - 1)])
  {
    AddPortsLast(w, n, specs, isInput);
  }

  /** What `AddPorts` builds on the node: the new slots follow the ones
      already on that side, in order, at consecutive fresh references. */
  lemma {:induction false} AddPortsSlots(w: World, n: NodeRef, specs: seq<PortSpec>, isInput: bool)
    requires n in w.nodes && Buildable(specs, isInput)
    requires forall i | 0 <= i < |specs| :: specs[i].id !in Ids(Side(w.nodes[n], isInput))
    ensures Side(AddPorts(w, n, specs, isInput).nodes[n], isInput) == Side(w.nodes[n], isInput) + NewSlots(specs, w.next)
    decreases |specs|
  {
    if |specs| > 0 {
      var init := specs[..|specs| - 1];
      var slot := Slot(specs[|specs| - 1].id, w.next + |specs| - 1);
      var s0 := Side(w.nodes[n], isInput);
      AddPortsLast(w, n, specs, isInput);
      var a := Side(AddPorts(w, n, init, isInput).nodes[n], isInput);
      assert a == s0 + NewSlots(init, w.next) by {
        AddPortsSlots(w, n, init, isInput);
      }
      assert Side(AddPorts(w, n, specs, isInput).nodes[n], isInput) == a + [slot] by {
        AddPortsSideStep(w, n, specs, isInput);
      }
      assert NewSlots(specs, w.next) == NewSlots(init, w.next) + [slot];
      Text.AppendAssociative(s0, NewSlots(init, w.next), [slot]);
    } else {
      assert NewSlots(specs, w.next) == [];
    }
  }

  /** `AddPorts` leaves the other side of the node, the node's other fields
      and every other node alone. */
  lemma {:induction false} AddPortsRest(w: World, n: NodeRef, specs: seq<PortSpec>, isInput: bool)
    requires n in w.nodes && Buildable(specs, isInput)
    requires forall i | 0 <= i < |specs| :: specs[i].id !in Ids(Side(w.nodes[n], isInput))
    ensures var r := AddPorts(w, n, specs, isInput);
      && Side(r.nodes[n], !isInput) == Side(w.nodes[n], !isInput)
      && r.nodes[n] == w.nodes[n].(inputs := r.nodes[n].inputs, outputs := r.nodes[n].outputs)
      && (forall m | m in w.nodes && m != n :: r.nodes[m] == w.nodes[m])
    decreases |specs|
  {
    if specs != [] {
      AddPortsLast(w, n, specs, isInput);
      AddPortsRest(w, n, specs[..|specs| - 1], isInput);
    }
  }

  /** The last call of a non-empty `AddPorts` stores one port. */
  lemma AddPortsPortStep(w: World, n: NodeRef, specs: seq<PortSpec>, isInput: bool)
    requires n in w.nodes && Buildable(specs, isInput) && specs != []
    requires forall i | 0 <= i < |specs| :: specs[i].id !in Ids(Side(w.nodes[n], isInput))
    ensures (AddPortsLast(w, n, specs, isInput);
      var r0 := AddPorts(w, n, specs[..|specs| - 1], isInput);
      r0.next == w.next + |specs| - 1 &&
      AddPorts(w, n, specs, isInput).ports == r0.ports[r0.next := Owned(specs[|specs| - 1], n, isInput)])
  {
    AddPortsLast(w, n, specs, isInput);
    var r0 := AddPorts(w, n, specs[..|specs| - 1], isInput);
    var last := specs[|specs| - 1];
    assert r0.next == w.next + |specs| - 1;
    assert AddNew(r0, n, last, isInput).ports == r0.ports[r0.next := Owned(last, n, isInput)];
    assert AddPorts(w, n, specs, isInput) == AddNew(r0, n, last, isInput);
  }

  /** `AddPorts` allocates exactly the references from `w.next` on and
      leaves the ports that were there untouched. */
  lemma {:induction false} AddPortsDomain(w: World, n: NodeRef, specs: seq<PortSpec>, isInput: bool)
    requires n in w.nodes && Fresh(w) && Buildable(specs, isInput)
    requires forall i | 0 <= i < |specs| :: specs[i].id !in Ids(Side(w.nodes[n], isInput))
    ensures var r := AddPorts(w, n, specs, isInput);
      && (forall q :: q in r.ports <==> q in w.ports || w.next <= q < w.next + |specs|)
      && (forall q | q in w.ports :: r.ports[q] == w.ports[q])
    decreases |specs|
  {
    if specs != [] {
      AddPortsPortStep(w, n, specs, isInput);
      AddPortsLast(w, n, specs, isInput);
      AddPortsDomain(w, n, specs[..|specs| - 1], isInput);
    }
  }

  /** Each allocated port is a fresh port of its specification that belongs
      to the node on that side; `p` is its reference, `w.next + i`. */
  lemma {:induction false} AddPortsOwned(w: World, n: NodeRef, specs: seq<PortSpec>, isInput: bool, i: nat, p: PortRef)
    requires n in w.nodes && Buildable(specs, isInput) && i < |specs| && p == w.next + i
    requires forall k | 0 <= k < |specs| :: specs[k].id !in Ids(Side(w.nodes[n], isInput))
    ensures p in AddPorts(w, n, specs, isInput).ports
    ensures AddPorts(w, n, specs, isInput).ports[p] == Owned(specs[i], n, isInput)
    decreases |specs|
  {
    var init := specs[..|specs| - 1];
    AddPortsPortStep(w, n, specs, isInput);
    AddPortsLast(w, n, specs, isInput);
    if i < |init| {
      AddPortsOwned(w, n, init, isInput, i, p);
      assert init[i] == specs[i];
    }
  }

  /** A freshly added port has no connections: every port outside `known`
      that was unconnected stays so, and the new ones start unconnected. */
  lemma {:induction false} AddPortsUnlinked(w: World, n: NodeRef, specs: seq<PortSpec>, isInput: bool, known: set<PortRef>)
    requires n in w.nodes && Buildable(specs, isInput)
    requires forall k | 0 <= k < |specs| :: specs[k].id !in Ids(Side(w.nodes[n], isInput))
    requires forall q | q in w.ports && q !in known :: w.ports[q].connections == []
    ensures var r := AddPorts(w, n, specs, isInput);
      forall q | q in r.ports && q !in known :: r.ports[q].connections == []
    decreases |specs|
  {
    if specs != [] {
      AddPortsPortStep(w, n, specs, isInput);
      AddPortsLast(w, n, specs, isInput);
      AddPortsUnlinked(w, n, specs[..|specs| - 1], isInput, known);
    }
  }

  /** The same, for the slots `AddPorts` appends: the `k`th new slot holds
      the port made from the `k`th specification. */
  lemma AddPortsSlotPort(w: World, n: NodeRef, specs: seq<PortSpec>, isInput: bool, k: nat)
    requires n in w.nodes && Buildable(specs, isInput) && k < |specs|
    requires forall j | 0 <= j < |specs| :: specs[j].id !in Ids(Side(w.nodes[n], isInput))
    ensures NewSlots(specs, w.next)[k].id == specs[k].id
    ensures NewSlots(specs, w.next)[k].port in AddPorts(w, n, specs, isInput).ports
    ensures AddPorts(w, n, specs, isInput).ports[NewSlots(specs, w.next)[k].port] == Owned(specs[k], n, isInput)
  {
    NewSlotsAt(specs, w.next);
    AddPortsOwned(w, n, specs, isInput, k, NewSlots(specs, w.next)[k].port);
  }

  /** `getInputValue(id)`: null for an unknown id, else the port's value. */
  function GetInputValue(w: World, n: NodeRef, id: string): Value
    requires Valid(w) && n in w.nodes
  {
    match Find(w.nodes[n].inputs, id)
    case None => Null
    case Some(p) => assert Attached(w, n); GetValue(w.ports[p])
  }

  /** `getOutputValue(id)`. */
  function GetOutputValue(w: World, n: NodeRef, id: string): Value
    requires Valid(w) && n in w.nodes
  {
    match Find(w.nodes[n].outputs, id)
    case None => Null
    case Some(p) => assert Attached(w, n); GetValue(w.ports[p])
  }

  /** The world after `setOutputValue(id, v)`: with an unknown id nothing
      changes; otherwise the output and every input it lists hold `v`, and
      no other port, no list and no node changes (in particular no node
      downstream is recomputed). */
  function WithOutput(w: World, n: NodeRef, id: string, v: Value): (r: World)
    requires Valid(w) && n in w.nodes
    ensures SameShape(w, r) && Valid(r) && r.nodes == w.nodes && Confined(w, r, {n})
    ensures Find(w.nodes[n].outputs, id).None? ==> r == w
    ensures Find(w.nodes[n].outputs, id).Some? ==>
      var o := Find(w.nodes[n].outputs, id).value;
      && o in w.ports && !w.ports[o].isInput
      && r.ports[o].value == v && GetOutputValue(r, n, id) == v
      && (forall q | q in w.ports[o].connections :: r.ports[q].value == v)
      && (forall q | q in w.ports && q != o && q !in w.ports[o].connections :: r.ports[q] == w.ports[q])
  {
    match Find(w.nodes[n].outputs, id)
    case None => w
    case Some(o) =>
      assert Attached(w, n);
      var r := w.(ports := WithValue(w.ports, o, v));
      ShapeValid(w, r);
      r
  }

  /** The failure branch shared by the variants' `validate`: status false
      with `message`, then `setOutputValue(output, null)`. */
  function Rejected(w: World, n: NodeRef, message: string, output: string): (r: World)
    requires Valid(w) && n in w.nodes && message != ""
    ensures SameShape(w, r) && Valid(r) && Confined(w, r, {n})
    ensures !r.nodes[n].status && r.nodes[n].statusMessage == message
    ensures GetOutputValue(r, n, output) == Null
  {
    var w1 := SetStatus(w, n, false, message);
    ShapeValid(w, w1);
    var r := WithOutput(w1, n, output, Null);
    ConfinedTransitive(w, w1, r, {n}, {n});
    r
  }

  /** `setOutputValue(id, value)`: `setValue` on the output, then the loop
      that writes the value into each connected input once more. */
  method SetOutputValue(w: World, n: NodeRef, id: string, v: Value) returns (r: World)
    requires Valid(w) && n in w.nodes
    ensures r == WithOutput(w, n, id, v)
  {
    r := w;
    var io := Find(w.nodes[n].outputs, id);
    if io.Some? {
      var o := io.value;
      assert Attached(w, n);
      var ps := IO.SetValue(w.ports, o, v);
      var conns := ps[o].connections;
      var i := 0;
      while i < |conns|
        invariant 0 <= i <= |conns|
        invariant ps == WithValue(w.ports, o, v)
      {
        var t := conns[i];
        ghost var before := ps;
        assert ps[t].(value := v) == ps[t] by {
          assert ps[t].value == v;
        }
        ps := ps[t := ps[t].(value := v)];
        assert ps == before;
        i := i + 1;
      }
      r := w.(ports := ps);
    }
  }
}
