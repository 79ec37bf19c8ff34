/** The node catalogue seen through GraphNode's virtual methods: which
    constructor a kind runs, which `validate` and `onCompute` override it
    dispatches to, and `compute()` (nodes/GraphNode.js) that strings them
    together. */
module Catalogue {
  import opened Wrappers
  import opened Values
  import opened IO
  import opened GraphNode
  import MathNode
  import SubstringNode
  import ConcatNode
  import CaseNodes
  import Base64Nodes
  import ConstantNodes

  /** The ports the subclass constructor of `kind` adds. */
  function Constructor(kind: Kind): Layout {
    match kind
    case ConstantNumber => ConstantNodes.NumberConstructor()
    case ConstantString => ConstantNodes.StringConstructor()
    case ConstantTextbox => ConstantNodes.TextboxConstructor()
    case Substring => SubstringNode.Constructor()
    case Concat => ConcatNode.Constructor()
    case ToBase64 => Base64Nodes.EncoderConstructor()
    case FromBase64 => Base64Nodes.DecoderConstructor()
    case ToLower => CaseNodes.LowerConstructor()
    case ToUpper => CaseNodes.UpperConstructor()
    case Math => MathNode.Constructor()
  }

  /** The id of the one output every kind writes. */
  function OutputId(kind: Kind): string {
    if kind == Math then "Result" else "output"
  }

  /** Every constructor adds distinct ids on each side, puts its dropdowns
      on the input side with at least one option, and has exactly one
      output, named by `OutputId`. */
  lemma LayoutBuildable(kind: Kind)
    ensures Sound(Constructor(kind))
    ensures Constructor(kind).outputs == [Field(OutputId(kind), Constructor(kind).outputs[0].portType)]
  {
  }

  /** The world right after `super(id)`: a node with no ports at the next
      free reference. */
  function Opened(w: World, kind: Kind, name: string): World {
    World(w.ports, w.nodes[w.next := NewNode(kind, name)], w.next + 1)
  }

  lemma OpenedValid(w: World, kind: Kind, name: string)
    requires Valid(w)
    ensures Valid(Opened(w, kind, name)) && Fresh(Opened(w, kind, name))
  {
    var r := Opened(w, kind, name);
    forall m | m in r.nodes
      ensures Attached(r, m)
    {
      if m != w.next {
        assert Attached(w, m);
      }
    }
  }

  /** A layout a constructor can build. */
  ghost predicate Sound(l: Layout) {
    Buildable(l.inputs, true) && Buildable(l.outputs, false)
  }

  /** The GraphNode constructor followed by the subclass's `addInput`
      calls, one per input of the layout. The node is `w.next`. */
  function WithInputs(w: World, kind: Kind, l: Layout): (r: World)
    requires Sound(l)
    ensures w.next in r.nodes && r.next == w.next + 1 + |l.inputs|
    ensures r.nodes[w.next].outputs == []
  {
    var w1 := Opened(w, kind, l.name);
    AddPortsRest(w1, w.next, l.inputs, true);
    AddPorts(w1, w.next, l.inputs, true)
  }

  /** Then the subclass's `addOutput` calls, one per output. */
  function Build(w: World, kind: Kind, l: Layout): (r: World)
    requires Sound(l)
    ensures r.nodes.Keys == w.nodes.Keys + {w.next}
    ensures r.next == w.next + 1 + |l.inputs| + |l.outputs|
  {
    AddPorts(WithInputs(w, kind, l), w.next, l.outputs, false)
  }

  /** `new Kind(x, y)` for a kind of the catalogue. */
  function Construct(w: World, kind: Kind): (r: World)
    ensures r.nodes.Keys == w.nodes.Keys + {w.next}
    ensures r.next == w.next + 1 + |Constructor(kind).inputs| + |Constructor(kind).outputs|
  {
    LayoutBuildable(kind);
    Build(w, kind, Constructor(kind))
  }

  /** After the inputs: the node's header. */
  lemma WithInputsHeader(w: World, kind: Kind, l: Layout)
    requires Sound(l)
    ensures var node := WithInputs(w, kind, l).nodes[w.next];
      node.kind == kind && node.name == l.name && node.status && node.statusMessage == "Ok"
  {
    var w1 := Opened(w, kind, l.name);
    AddPortsRest(w1, w.next, l.inputs, true);
  }

  /** After the inputs: the node's input slots are the new slots. */
  lemma WithInputsSlots(w: World, kind: Kind, l: Layout)
    requires Sound(l)
    ensures WithInputs(w, kind, l).nodes[w.next].inputs == NewSlots(l.inputs, w.next + 1)
  {
    var w1 := Opened(w, kind, l.name);
    var r := AddPorts(w1, w.next, l.inputs, true);
    assert r.nodes[w.next].inputs == NewSlots(l.inputs, w.next + 1) by {
      assert Side(w1.nodes[w.next], true) == [];
      AddPortsSlots(w1, w.next, l.inputs, true);
      assert [] + NewSlots(l.inputs, w1.next) == NewSlots(l.inputs, w1.next);
    }
    assert WithInputs(w, kind, l) == r;
  }

  /** After the inputs: the `k`th input slot holds a port made from the
      `k`th input specification. */
  lemma WithInputsPort(w: World, kind: Kind, l: Layout, k: nat)
    requires Sound(l) && k < |l.inputs|
    ensures var r := WithInputs(w, kind, l);
      var s := r.nodes[w.next].inputs[k];
      s.id == l.inputs[k].id && s.port in r.ports && r.ports[s.port] == Owned(l.inputs[k], w.next, true)
  {
    var w1 := Opened(w, kind, l.name);
    WithInputsSlots(w, kind, l);
    AddPortsSlotPort(w1, w.next, l.inputs, true, k);
  }

  /** Adding the inputs keeps a valid world valid, leaves the objects that
      existed alone, and allocates exactly the references after `w.next`. */
  lemma WithInputsWorld(w: World, kind: Kind, l: Layout)
    requires Valid(w) && Sound(l)
    ensures var r := WithInputs(w, kind, l);
      && Valid(r) && Fresh(r)
      && (forall m | m in w.nodes :: r.nodes[m] == w.nodes[m])
      && (forall q :: q in r.ports <==> q in w.ports || w.next < q < r.next)
      && (forall q | q in w.ports :: r.ports[q] == w.ports[q])
  {
    WithInputsValid(w, kind, l);
    WithInputsFresh(w, kind, l);
    WithInputsKeeps(w, kind, l);
  }

  lemma WithInputsKeeps(w: World, kind: Kind, l: Layout)
    requires Fresh(w) && w.next !in w.nodes && Sound(l)
    ensures var r := WithInputs(w, kind, l);
      && (forall m | m in w.nodes :: r.nodes[m] == w.nodes[m])
      && (forall q :: q in r.ports <==> q in w.ports || w.next < q < r.next)
      && (forall q | q in w.ports :: r.ports[q] == w.ports[q])
  {
    var n := w.next;
    var w1 := Opened(w, kind, l.name);
    assert Fresh(w1);
    assert WithInputs(w, kind, l) == AddPorts(w1, n, l.inputs, true);
    AddPortsRest(w1, n, l.inputs, true);
    AddPortsDomain(w1, n, l.inputs, true);
  }

  lemma WithInputsValid(w: World, kind: Kind, l: Layout)
    requires Valid(w) && Sound(l)
    ensures Valid(WithInputs(w, kind, l))
  {
    var n := w.next;
    var w1 := Opened(w, kind, l.name);
    OpenedValid(w, kind, l.name);
    assert WithInputs(w, kind, l) == AddPorts(w1, n, l.inputs, true);
    AddPortsValid(w1, n, l.inputs, true);
  }

  /** The node a constructor leaves at `w.next`: the kind, the layout's
      name, status (true, "Ok"), and one slot per port of the layout, in
      order, under the port's id; each slot holds a port made from its
      specification that belongs to the node on that side. */
  lemma {:induction false} BuildNode(w: World, kind: Kind, l: Layout)
    requires Fresh(w) && Sound(l)
    ensures var r := Build(w, kind, l);
      var node := r.nodes[w.next];
      && node.kind == kind && node.name == l.name && node.status && node.statusMessage == "Ok"
      && |node.inputs| == |l.inputs| && |node.outputs| == |l.outputs|
      && (forall k | 0 <= k < |l.inputs| ::
            && node.inputs[k].id == l.inputs[k].id && node.inputs[k].port in r.ports
            && r.ports[node.inputs[k].port] == Owned(l.inputs[k], w.next, true))
      && (forall k | 0 <= k < |l.outputs| ::
            && node.outputs[k].id == l.outputs[k].id && node.outputs[k].port in r.ports
            && r.ports[node.outputs[k].port] == Owned(l.outputs[k], w.next, false))
  {
    var n := w.next;
    var w2 := WithInputs(w, kind, l);
    WithInputsHeader(w, kind, l);
    WithInputsSlots(w, kind, l);
    forall k | 0 <= k < |l.inputs|
      ensures var s := w2.nodes[n].inputs[k];
        s.id == l.inputs[k].id && s.port in w2.ports && w2.ports[s.port] == Owned(l.inputs[k], n, true)
    {
      WithInputsPort(w, kind, l, k);
    }
    WithInputsFresh(w, kind, l);
    var r := AddPorts(w2, n, l.outputs, false);
    AddPortsRest(w2, n, l.outputs, false);
    AddPortsDomain(w2, n, l.outputs, false);
    BuildOutputs(w, kind, l);
  }

  /** Adding the inputs keeps every reference of the world below `next`. */
  lemma WithInputsFresh(w: World, kind: Kind, l: Layout)
    requires Fresh(w) && Sound(l)
    ensures Fresh(WithInputs(w, kind, l))
  {
    var w1 := Opened(w, kind, l.name);
    assert Fresh(w1);
    AddPortsDomain(w1, w.next, l.inputs, true);
  }

  /** The output slots of the new node. */
  lemma {:induction false} BuildOutputs(w: World, kind: Kind, l: Layout)
    requires Sound(l)
    ensures var r := Build(w, kind, l);
      var node := r.nodes[w.next];
      && |node.outputs| == |l.outputs|
      && (forall k | 0 <= k < |l.outputs| ::
            && node.outputs[k].id == l.outputs[k].id && node.outputs[k].port in r.ports
            && r.ports[node.outputs[k].port] == Owned(l.outputs[k], w.next, false))
  {
    var n := w.next;
    var w2 := WithInputs(w, kind, l);
    var r := AddPorts(w2, n, l.outputs, false);
    assert r == Build(w, kind, l);
    var slots := NewSlots(l.outputs, w2.next);
    assert r.nodes[n].outputs == slots by {
      AddPortsSlots(w2, n, l.outputs, false);
      assert Side(w2.nodes[n], false) == [];
      assert [] + slots == slots;
    }
    forall k | 0 <= k < |l.outputs|
      ensures && slots[k].id == l.outputs[k].id && slots[k].port in r.ports
              && r.ports[slots[k].port] == Owned(l.outputs[k], n, false)
    {
      AddPortsSlotPort(w2, n, l.outputs, false, k);
    }
  }

  /** Constructing keeps the world valid, leaves every object that existed
      untouched, and allocates exactly the references from `w.next` up. */
  lemma BuildWorld(w: World, kind: Kind, l: Layout)
    requires Valid(w) && Sound(l)
    ensures var r := Build(w, kind, l);
      && Valid(r)
      && (forall m | m in w.nodes :: r.nodes[m] == w.nodes[m])
      && (forall q :: q in r.ports <==> q in w.ports || w.next < q < r.next)
      && (forall q | q in w.ports :: r.ports[q] == w.ports[q])
  {
    var w2 := WithInputs(w, kind, l);
    WithInputsWorld(w, kind, l);
    AddPortsRest(w2, w.next, l.outputs, false);
    AddPortsValid(w2, w.next, l.outputs, false);
    AddPortsDomain(w2, w.next, l.outputs, false);
  }

  /** Every port a constructor allocates starts without connections. */
  lemma BuildUnlinked(w: World, kind: Kind, l: Layout)
    requires Sound(l)
    ensures var r := Build(w, kind, l);
      forall q | q in r.ports && q !in w.ports :: r.ports[q].connections == []
  {
    var w1 := Opened(w, kind, l.name);
    AddPortsUnlinked(w1, w.next, l.inputs, true, w.ports.Keys);
    var w2 := WithInputs(w, kind, l);
    assert w2 == AddPorts(w1, w.next, l.inputs, true);
    AddPortsUnlinked(w2, w.next, l.outputs, false, w.ports.Keys);
  }

  /** Kinds whose `validate` is GraphNode's, which always accepts. */
  predicate Infallible(kind: Kind) {
    kind in {ConstantString, ConstantTextbox, Concat, ToLower, ToUpper}
  }

  /** The messages a failing `validate` leaves. */
  const Failures: set<string> := {
    ConstantNodes.NumberMessage, SubstringNode.StartMessage, SubstringNode.LengthMessage,
    Base64Nodes.EncodeMessage, Base64Nodes.DecodeMessage, "Inputs must be numbers" }

  /** What each kind's `validate` asks of the node's values. */
  ghost predicate Accepts(env: Env, w: World, n: NodeRef)
    requires Valid(w) && n in w.nodes
  {
    match w.nodes[n].kind
    case ConstantNumber => ParseFloat(env, GetOutputValue(w, n, "output")).Some?
    case Substring => IsInteger(SubstringNode.Start(w, n)) && IsInteger(SubstringNode.CheckedLength(w, n))
    case ToBase64 => Base64Nodes.Codec(env, GetInputValue(w, n, "input"), true).Some?
    case FromBase64 => Base64Nodes.Codec(env, GetInputValue(w, n, "input"), false).Some?
    case Math => MathNode.Operand(env, w, n, "A").Some? && MathNode.Operand(env, w, n, "B").Some?
    case _ => true
  }

  /** The `validate()` override of the node's kind (GraphNode's own, which
      returns true, for the infallible kinds; ToLower's `onValidate` is never
      called). A rejection changes only this node: status false with the
      kind's message, and (except ConstantNumber) a null output. */
  function Validate(env: Env, w: World, n: NodeRef): (c: Checked)
    requires Valid(w) && n in w.nodes
    ensures c.ok <==> Accepts(env, w, n)
    ensures c.ok ==> c.world == w
  {
    match w.nodes[n].kind
    case ConstantNumber => ConstantNodes.ValidateNumber(env, w, n)
    case Substring => SubstringNode.Validate(env, w, n)
    case ToBase64 => Base64Nodes.Validate(env, w, n, true)
    case FromBase64 => Base64Nodes.Validate(env, w, n, false)
    case Math => MathNode.Validate(env, w, n)
    case _ => Checked(true, w)
  }

  /** `validate` changes only its own node and keeps the world valid. */
  lemma ValidateConfined(env: Env, w: World, n: NodeRef)
    requires Valid(w) && n in w.nodes
    ensures Confined(w, Validate(env, w, n).world, {n}) && Valid(Validate(env, w, n).world)
  {
  }

  /** A rejecting `validate` sets the status to false with one of the
      kinds' messages and (except ConstantNumber) clears the output. */
  lemma ValidateRejects(env: Env, w: World, n: NodeRef)
    requires Valid(w) && n in w.nodes && !Accepts(env, w, n)
    ensures var c := Validate(env, w, n);
      && !c.world.nodes[n].status && c.world.nodes[n].statusMessage in Failures
      && (w.nodes[n].kind != ConstantNumber ==> GetOutputValue(c.world, n, OutputId(w.nodes[n].kind)) == Null)
  {
  }

  /** The value `onCompute` writes to the kind's output, if it writes one:
      constants write nothing and a division by zero writes nothing. */
  function Produced(env: Env, w: World, n: NodeRef): Option<Value>
    requires Valid(w) && n in w.nodes && Accepts(env, w, n)
  {
    match w.nodes[n].kind
    case ConstantNumber => None
    case ConstantString => None
    case ConstantTextbox => None
    case Substring => Some(Str(SubstringNode.Output(env, w, n)))
    case Concat => Some(Str(ConcatNode.Joined(env, GetInputValue(w, n, "input1"), GetInputValue(w, n, "input2"))))
    case ToBase64 =>
      Some(Str(Base64Nodes.Codec(env, GetInputValue(w, n, "input"), true).value))
    case FromBase64 =>
      Some(Str(Base64Nodes.Codec(env, GetInputValue(w, n, "input"), false).value))
    case ToLower => Some(Str(CaseNodes.Cased(env, GetInputValue(w, n, "input"), false)))
    case ToUpper => Some(Str(CaseNodes.Cased(env, GetInputValue(w, n, "input"), true)))
    case Math =>
      match MathNode.Arith(MathNode.Operand(env, w, n, "A").value, MathNode.Operand(env, w, n, "B").value,
                           GetInputValue(w, n, "Operation"))
      case DivisionByZero => None
      case Result(x) => Some(Num(x))
  }

  /** The `onCompute()` override of the node's kind, run after `validate`
      accepted; it changes only this node. */
  function OnCompute(env: Env, w: World, n: NodeRef): (r: World)
    requires Valid(w) && n in w.nodes && Accepts(env, w, n)
    ensures Confined(w, r, {n}) && Valid(r)
  {
    match w.nodes[n].kind
    case ConstantNumber => w
    case ConstantString => w
    case ConstantTextbox => w
    case Substring => SubstringNode.OnCompute(env, w, n)
    case Concat => ConcatNode.OnCompute(env, w, n)
    case ToBase64 => Base64Nodes.OnCompute(env, w, n, true)
    case FromBase64 => Base64Nodes.OnCompute(env, w, n, false)
    case ToLower => CaseNodes.OnCompute(env, w, n, false)
    case ToUpper => CaseNodes.OnCompute(env, w, n, true)
    case Math => MathNode.OnCompute(env, w, n)
  }

  /** `onCompute` writes `Produced` to the kind's output. */
  lemma OnComputeWrites(env: Env, w: World, n: NodeRef)
    requires Valid(w) && n in w.nodes && Accepts(env, w, n)
    requires Produced(env, w, n).Some? && Find(w.nodes[n].outputs, OutputId(w.nodes[n].kind)).Some?
    ensures GetOutputValue(OnCompute(env, w, n), n, OutputId(w.nodes[n].kind)) == Produced(env, w, n).value
  {
  }

  /** Apart from the output, `onCompute` changes nothing: the constants
      change nothing at all, no status changes, except that a division by
      zero sets the status (false, "Division by zero") and writes nothing. */
  lemma OnComputeKeeps(env: Env, w: World, n: NodeRef)
    requires Valid(w) && n in w.nodes && Accepts(env, w, n)
    ensures var r := OnCompute(env, w, n);
      && (Produced(env, w, n).None? && w.nodes[n].kind != Math ==> r == w)
      && (w.nodes[n].kind != Math || Produced(env, w, n).Some? ==> r.nodes == w.nodes)
      && (w.nodes[n].kind == Math && Produced(env, w, n).None? ==>
            r.ports == w.ports && !r.nodes[n].status && r.nodes[n].statusMessage == "Division by zero")
  {
  }
  /** The failure branch of `compute()`: status false, keeping the message
      `validate` left, or "Validation failed" when it left none. */
  function Failed(w: World, n: NodeRef): (r: World)
    requires Valid(w) && n in w.nodes
    ensures Confined(w, r, {n}) && Valid(r) && r.ports == w.ports
    ensures !r.nodes[n].status
    ensures w.nodes[n].statusMessage != "" ==> r.nodes[n].statusMessage == w.nodes[n].statusMessage
  {
    var m := w.nodes[n].statusMessage;
    var r := SetStatus(w, n, false, if m != "" then m else "Validation failed");
    ShapeValid(w, r);
    r
  }

  /** `compute()`: status (true, "Ok"), then `validate()`; a rejection goes
      through `Failed` and returns false; otherwise `onCompute()` runs and
      the result is true. Either way only this node changes, and the result
      is true exactly when the kind's `validate` accepts the node's values. */
  function Compute(env: Env, w: World, n: NodeRef): (c: Checked)
    requires Valid(w) && n in w.nodes
    ensures Valid(c.world)
    ensures c.ok <==> Accepts(env, w, n)
  {
    var w1 := SetStatus(w, n, true, "Ok");
    SetStatusKeepsAccepts(env, w, n);
    var v := Validate(env, w1, n);
    ValidateConfined(env, w1, n);
    if !v.ok then Checked(false, Failed(v.world, n))
    else Checked(true, OnCompute(env, w1, n))
  }

  /** `compute()` changes only its own node: its status and its outputs. */
  lemma ComputeConfined(env: Env, w: World, n: NodeRef)
    requires Valid(w) && n in w.nodes
    ensures Confined(w, Compute(env, w, n).world, {n})
  {
    var w1 := SetStatus(w, n, true, "Ok");
    SetStatusKeepsAccepts(env, w, n);
    var v := Validate(env, w1, n);
    ValidateConfined(env, w1, n);
    if !v.ok {
      ConfinedTransitive(w, w1, v.world, {n}, {n});
      ConfinedTransitive(w, v.world, Failed(v.world, n), {n}, {n});
    } else {
      ConfinedTransitive(w, w1, OnCompute(env, w1, n), {n}, {n});
    }
  }

  /** A failed `compute()` keeps the message `validate` set, which is one of
      the kinds' messages and never the "Validation failed" fallback. */
  lemma ComputeRejects(env: Env, w: World, n: NodeRef)
    requires Valid(w) && n in w.nodes && !Accepts(env, w, n)
    ensures var c := Compute(env, w, n);
      && !c.world.nodes[n].status
      && c.world.nodes[n].statusMessage in Failures
      && c.world.nodes[n].statusMessage != "Validation failed"
  {
    var w1 := SetStatus(w, n, true, "Ok");
    SetStatusKeepsAccepts(env, w, n);
    var v := Validate(env, w1, n);
    ValidateConfined(env, w1, n);
    ValidateRejects(env, w1, n);
    var m := v.world.nodes[n].statusMessage;
    FailuresDistinct(m);
    assert Compute(env, w, n).world == Failed(v.world, n);
  }

  /** No failure message is empty or the "Validation failed" fallback. */
  lemma FailuresDistinct(m: string)
    requires m in Failures
    ensures m != "" && m != "Validation failed"
  {
  }

  /** ... and, except for ConstantNumber, leaves the kind's output null. */
  lemma ComputeClears(env: Env, w: World, n: NodeRef)
    requires Valid(w) && n in w.nodes && !Accepts(env, w, n) && w.nodes[n].kind != ConstantNumber
    ensures GetOutputValue(Compute(env, w, n).world, n, OutputId(w.nodes[n].kind)) == Null
  {
    var w1 := SetStatus(w, n, true, "Ok");
    SetStatusKeepsAccepts(env, w, n);
    var v := Validate(env, w1, n);
    ValidateConfined(env, w1, n);
    ValidateRejects(env, w1, n);
    assert Compute(env, w, n).world == Failed(v.world, n);
    OutputsKept(v.world, Failed(v.world, n), n, OutputId(w.nodes[n].kind));
  }

  /** A change confined to `n` that keeps every port keeps `n`'s outputs'
      values. */
  lemma OutputsKept(w: World, r: World, n: NodeRef, id: string)
    requires Valid(w) && Valid(r) && n in w.nodes && Confined(w, r, {n}) && r.ports == w.ports
    requires r.nodes[n].outputs == w.nodes[n].outputs
    ensures GetOutputValue(r, n, id) == GetOutputValue(w, n, id)
  {
  }

  /** A successful `compute()` leaves status (true, "Ok") unless a division
      by zero replaced it, writes `Produced` to the kind's output, and for
      the constants changes no port. */
  lemma ComputeSucceeds(env: Env, w: World, n: NodeRef)
    requires Valid(w) && n in w.nodes && Accepts(env, w, n)
    ensures var c := Compute(env, w, n);
      && (w.nodes[n].kind != Math || Produced(env, w, n).Some? ==>
            c.world.nodes[n].status && c.world.nodes[n].statusMessage == "Ok")
      && (Produced(env, w, n).Some? && Find(w.nodes[n].outputs, OutputId(w.nodes[n].kind)).Some? ==>
            GetOutputValue(c.world, n, OutputId(w.nodes[n].kind)) == Produced(env, w, n).value)
      && (Produced(env, w, n).None? && w.nodes[n].kind != Math ==> c.world.ports == w.ports)
  {
    var w1 := SetStatus(w, n, true, "Ok");
    SetStatusKeepsProduced(env, w, n);
    assert Validate(env, w1, n).ok;
    assert Compute(env, w, n).world == OnCompute(env, w1, n);
    OnComputeKeeps(env, w1, n);
    if Produced(env, w, n).Some? && Find(w.nodes[n].outputs, OutputId(w.nodes[n].kind)).Some? {
      OnComputeWrites(env, w1, n);
    }
  }

  /** Resetting the status changes no value a `validate` or `onCompute`
      reads. */
  lemma SetStatusKeepsValues(w: World, n: NodeRef)
    requires Valid(w) && n in w.nodes
    ensures var w1 := SetStatus(w, n, true, "Ok");
      && Valid(w1)
      && (forall id :: GetInputValue(w1, n, id) == GetInputValue(w, n, id))
      && (forall id :: GetOutputValue(w1, n, id) == GetOutputValue(w, n, id))
      && w1.nodes[n].kind == w.nodes[n].kind && w1.nodes[n].outputs == w.nodes[n].outputs
  {
    var w1 := SetStatus(w, n, true, "Ok");
    ShapeValid(w, w1);
    assert w1.nodes[n].inputs == w.nodes[n].inputs && w1.nodes[n].outputs == w.nodes[n].outputs;
  }

  /** Hence `validate` accepts after the reset exactly when it did before. */
  lemma SetStatusKeepsAccepts(env: Env, w: World, n: NodeRef)
    requires Valid(w) && n in w.nodes
    ensures var w1 := SetStatus(w, n, true, "Ok");
      && Valid(w1) && w1.nodes[n].kind == w.nodes[n].kind && w1.nodes[n].outputs == w.nodes[n].outputs
      && (Accepts(env, w1, n) <==> Accepts(env, w, n))
  {
    SetStatusKeepsValues(w, n);
  }

  /** ... and `onCompute` would produce the same value. */
  lemma SetStatusKeepsProduced(env: Env, w: World, n: NodeRef)
    requires Valid(w) && n in w.nodes && Accepts(env, w, n)
    ensures var w1 := SetStatus(w, n, true, "Ok");
      && Valid(w1) && w1.nodes[n].kind == w.nodes[n].kind && w1.nodes[n].outputs == w.nodes[n].outputs
      && Accepts(env, w1, n) && Produced(env, w1, n) == Produced(env, w, n)
  {
    var w1 := SetStatus(w, n, true, "Ok");
    SetStatusKeepsValues(w, n);
    SetStatusKeepsAccepts(env, w, n);
    if w.nodes[n].kind == Math {
      MathKeepsProduced(env, w, n);
    }
  }

  lemma MathKeepsProduced(env: Env, w: World, n: NodeRef)
    requires Valid(w) && n in w.nodes && w.nodes[n].kind == Math && Accepts(env, w, n)
    ensures var w1 := SetStatus(w, n, true, "Ok");
      Valid(w1) && Accepts(env, w1, n) && Produced(env, w1, n) == Produced(env, w, n)
  {
    SetStatusKeepsValues(w, n);
    SetStatusKeepsAccepts(env, w, n);
  }

  /** The kinds whose `validate` is GraphNode's default (Concat, ToUpper,
      ToLower, ConstantString, ConstantTextbox) always compute successfully
      and end with status (true, "Ok"). */
  lemma InfallibleCompute(env: Env, w: World, n: NodeRef)
    requires Valid(w) && n in w.nodes && Infallible(w.nodes[n].kind)
    ensures Compute(env, w, n).ok
    ensures Compute(env, w, n).world.nodes[n].status && Compute(env, w, n).world.nodes[n].statusMessage == "Ok"
  {
    ComputeSucceeds(env, w, n);
  }

  /** The three constants never change a port when computed: their
      `onCompute` is empty, and ConstantNumber's rejection only sets the
      status and leaves the output as it was. */
  lemma ConstantsKeepPorts(env: Env, w: World, n: NodeRef)
    requires Valid(w) && n in w.nodes
    requires w.nodes[n].kind in {ConstantNumber, ConstantString, ConstantTextbox}
    ensures Compute(env, w, n).world.ports == w.ports
  {
    if Accepts(env, w, n) {
      ComputeSucceeds(env, w, n);
    } else {
      SetStatusKeepsAccepts(env, w, n);
    }
  }

  /** Dividing by zero: `compute()` still returns true, the status becomes
      (false, "Division by zero") and no port changes, so Result keeps its
      previous value. */
  lemma DivisionByZeroStillSucceeds(env: Env, w: World, n: NodeRef)
    requires Valid(w) && n in w.nodes && w.nodes[n].kind == Math && Accepts(env, w, n)
    requires GetInputValue(w, n, "Operation") == Str("Divide") && MathNode.Operand(env, w, n, "B") == Some(0.0)
    ensures var c := Compute(env, w, n);
      c.ok && !c.world.nodes[n].status && c.world.nodes[n].statusMessage == "Division by zero" && c.world.ports == w.ports
  {
    var w1 := SetStatus(w, n, true, "Ok");
    DivisionReset(env, w, n);
    OnComputeKeeps(env, w1, n);
  }

  /** The division case after the status reset: `onCompute` produces
      nothing, and `compute()` is `onCompute` on the reset world. */
  lemma DivisionReset(env: Env, w: World, n: NodeRef)
    requires Valid(w) && n in w.nodes && w.nodes[n].kind == Math && Accepts(env, w, n)
    requires GetInputValue(w, n, "Operation") == Str("Divide") && MathNode.Operand(env, w, n, "B") == Some(0.0)
    ensures var w1 := SetStatus(w, n, true, "Ok");
      && Valid(w1) && w1.nodes[n].kind == Math && w1.ports == w.ports && Accepts(env, w1, n)
      && Produced(env, w1, n) == None
      && Compute(env, w, n).ok && Compute(env, w, n).world == OnCompute(env, w1, n)
  {
    MathKeepsProduced(env, w, n);
    assert Produced(env, w, n) == None by {
      MathNode.ArithLaws(MathNode.Operand(env, w, n, "A").value, 0.0, Str("Divide"));
    }
  }

  /** The catalogue's construction as `Build` over the kind's layout. */
  lemma ConstructIsBuild(w: World, kind: Kind)
    ensures Sound(Constructor(kind))
    ensures Construct(w, kind) == Build(w, kind, Constructor(kind))
  {
    LayoutBuildable(kind);
  }

  /** A freshly created ConstantNumber holds null, which does not parse as a
      number: its first `compute()` fails with "Output must be a number",
      so a pass never descends from it. */
  lemma FreshConstantNumberFails(env: Env, w: World)
    requires Valid(w)
    ensures var r := Construct(w, ConstantNumber);
      && Valid(r) && w.next in r.nodes
      && GetOutputValue(r, w.next, "output") == Null
      && !Compute(env, r, w.next).ok
      && Compute(env, r, w.next).world.nodes[w.next].statusMessage == ConstantNodes.NumberMessage
  {
    ConstructIsBuild(w, ConstantNumber);
    BuiltOutput(w, ConstantNumber, Constructor(ConstantNumber));
    FreshNumberRejected(env, Construct(w, ConstantNumber), w.next);
  }

  /** A ConstantNumber whose output is null is rejected with its message. */
  lemma FreshNumberRejected(env: Env, w: World, n: NodeRef)
    requires Valid(w) && n in w.nodes && w.nodes[n].kind == ConstantNumber && GetOutputValue(w, n, "output") == Null
    ensures !Compute(env, w, n).ok && Compute(env, w, n).world.nodes[n].statusMessage == ConstantNodes.NumberMessage
  {
    var w1 := SetStatus(w, n, true, "Ok");
    SetStatusKeepsValues(w, n);
    var v := Validate(env, w1, n);
    ValidateConfined(env, w1, n);
    assert v == ConstantNodes.ValidateNumber(env, w1, n);
    assert Compute(env, w, n).world == Failed(v.world, n);
  }

  /** A freshly created Math node reads "Add" from its Operation dropdown
      and null from A and B; `Number(null)` is 0, so its first `compute()`
      succeeds and writes 0 to Result. */
  lemma FreshMathComputesZero(env: Env, w: World)
    requires Valid(w)
    ensures var r := Construct(w, Math);
      && Valid(r) && w.next in r.nodes
      && GetInputValue(r, w.next, "Operation") == Str("Add")
      && Compute(env, r, w.next).ok
      && GetOutputValue(Compute(env, r, w.next).world, w.next, "Result") == Num(0.0)
  {
    FreshMathInputs(w);
    FreshMathReads(env, Construct(w, Math), w.next);
  }

  /** The ports of a freshly created Math node. */
  lemma FreshMathInputs(w: World)
    requires Valid(w)
    ensures var r := Construct(w, Math);
      && Valid(r) && w.next in r.nodes && r.nodes[w.next].kind == Math
      && GetInputValue(r, w.next, "A") == Null && GetInputValue(r, w.next, "B") == Null
      && GetInputValue(r, w.next, "Operation") == Str("Add")
      && Find(r.nodes[w.next].outputs, "Result").Some?
  {
    var l := Constructor(Math);
    assert l == MathNode.Constructor();
    assert l.inputs[0].id == "A" && l.inputs[1].id == "B" && l.inputs[2].id == "Operation";
    assert l.inputs[2].options[0] == "Add" && l.outputs[0].id == "Result";
    ConstructIsBuild(w, Math);
    BuiltBinary(w, Math, l);
  }

  /** A built node with two fields and a dropdown as inputs reads null,
      null and the dropdown's first option. */
  lemma BuiltBinary(w: World, kind: Kind, l: Layout)
    requires Valid(w) && Sound(l) && |l.inputs| == 3 && |l.outputs| > 0 && l.outputs[0].Field?
    requires l.inputs[0].Field? && l.inputs[1].Field? && l.inputs[2].Dropdown?
    requires l.inputs[0].id != l.inputs[1].id && l.inputs[2].id !in {l.inputs[0].id, l.inputs[1].id}
    ensures var r := Build(w, kind, l);
      && Valid(r) && w.next in r.nodes && r.nodes[w.next].kind == kind
      && GetInputValue(r, w.next, l.inputs[0].id) == Null
      && GetInputValue(r, w.next, l.inputs[1].id) == Null
      && GetInputValue(r, w.next, l.inputs[2].id) == Str(l.inputs[2].options[0])
      && Find(r.nodes[w.next].outputs, l.outputs[0].id).Some?
  {
    BuildWorld(w, kind, l);
    BuiltInput(w, kind, l, 0);
    BuiltInput(w, kind, l, 1);
    BuiltInput(w, kind, l, 2);
    BuiltOutput(w, kind, l);
  }

  /** A built node reads, from its `k`-th input, the value that input was
      created with (null, or a dropdown's first option), provided no earlier
      input shares its id. */
  lemma BuiltInput(w: World, kind: Kind, l: Layout, k: nat)
    requires Valid(w) && Sound(l) && k < |l.inputs|
    requires forall j | 0 <= j < k :: l.inputs[j].id != l.inputs[k].id
    ensures var r := Build(w, kind, l);
      && Valid(r) && w.next in r.nodes
      && GetInputValue(r, w.next, l.inputs[k].id) == GetValue(Owned(l.inputs[k], w.next, true))
  {
    BuildNode(w, kind, l);
    BuildWorld(w, kind, l);
    var r := Build(w, kind, l);
    FindAt(r.nodes[w.next].inputs, k);
  }

  /** A built node's first output is found under its id and holds null. */
  lemma BuiltOutput(w: World, kind: Kind, l: Layout)
    requires Valid(w) && Sound(l) && |l.outputs| > 0 && l.outputs[0].Field?
    ensures var r := Build(w, kind, l);
      && Valid(r) && w.next in r.nodes && r.nodes[w.next].kind == kind
      && Find(r.nodes[w.next].outputs, l.outputs[0].id).Some?
      && GetOutputValue(r, w.next, l.outputs[0].id) == Null
  {
    BuildNode(w, kind, l);
    BuildWorld(w, kind, l);
    var r := Build(w, kind, l);
    FindAt(r.nodes[w.next].outputs, 0);
  }

  /** A Math node reading null, null and "Add" computes 0. */
  lemma FreshMathReads(env: Env, w: World, n: NodeRef)
    requires Valid(w) && n in w.nodes && w.nodes[n].kind == Math
    requires GetInputValue(w, n, "A") == Null && GetInputValue(w, n, "B") == Null
    requires GetInputValue(w, n, "Operation") == Str("Add") && Find(w.nodes[n].outputs, "Result").Some?
    ensures Compute(env, w, n).ok && GetOutputValue(Compute(env, w, n).world, n, "Result") == Num(0.0)
  {
    assert MathNode.Operand(env, w, n, "A") == Some(0.0);
    assert Produced(env, w, n) == Some(Num(0.0));
    ComputeSucceeds(env, w, n);
  }
}
