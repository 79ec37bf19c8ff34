/** The Math node (nodes/math/MathNode.js): two numeric inputs, an operation
    chosen from a dropdown, and a numeric Result. */
module MathNode {
  import opened Wrappers
  import opened Values
  import opened IO
  import opened GraphNode

  const Operations: seq<string> := ["Add", "Subtract", "Multiply", "Divide"]

  /** The constructor's ports. */
  function Constructor(): Layout {
    Layout("Math",
      [Field("A", "number"), Field("B", "number"), Dropdown("Operation", Operations)],
      [Field("Result", "number")])
  }

  /** What the operator switch produces: a number, or the divide-by-zero
      early return that writes nothing. */
  datatype Outcome = Result(r: real) | DivisionByZero

  /** The `switch (operation)` of `onCompute`: `sum` starts at 0, so an
      operation outside the four yields 0. */
  function Arith(a: real, b: real, op: Value): Outcome {
    if op == Str("Add") then Result(a + b)
    else if op == Str("Subtract") then Result(a - b)
    else if op == Str("Multiply") then Result(a * b)
    else if op == Str("Divide") then (if b == 0.0 then DivisionByZero else Result(a / b))
    else Result(0.0)
  }

  /** The operator laws: only dividing by zero fails, subtraction undoes
      addition, division undoes multiplication by a non-zero number, and an
      unknown operation gives 0. */
  lemma ArithLaws(a: real, b: real, op: Value)
    ensures Arith(a, b, op).DivisionByZero? <==> op == Str("Divide") && b == 0.0
    ensures Arith(Arith(a, b, Str("Add")).r, b, Str("Subtract")) == Result(a)
    ensures b != 0.0 ==> Arith(Arith(a, b, Str("Multiply")).r, b, Str("Divide")) == Result(a)
    ensures (forall o | o in Operations :: op != Str(o)) ==> Arith(a, b, op) == Result(0.0)
  {
    if b != 0.0 {
      assert (a * b) / b == a;
    }
  }

  /** `Number(this.getInputValue(id))`; None is NaN. */
  function Operand(env: Env, w: World, n: NodeRef, id: string): Option<real>
    requires Valid(w) && n in w.nodes
  {
    ToNumber(env, GetInputValue(w, n, id))
  }

  /** `validate()`: both operands must be numbers; otherwise the status says
      so and Result is cleared. */
  function Validate(env: Env, w: World, n: NodeRef): (c: Checked)
    requires Valid(w) && n in w.nodes
    ensures !c.ok ==> Confined(w, c.world, {n}) && Valid(c.world)
    ensures c.ok <==> Operand(env, w, n, "A").Some? && Operand(env, w, n, "B").Some?
    ensures c.ok ==> c.world == w
    ensures !c.ok ==>
      && !c.world.nodes[n].status && c.world.nodes[n].statusMessage == "Inputs must be numbers"
      && GetOutputValue(c.world, n, "Result") == Null
  {
    if Operand(env, w, n, "A").None? || Operand(env, w, n, "B").None? then
      Checked(false, Rejected(w, n, "Inputs must be numbers", "Result"))
    else
      Checked(true, w)
  }

  /** `onCompute()`: Result receives the operator's value; a division by zero
      instead sets the status to false and writes nothing. */
  function OnCompute(env: Env, w: World, n: NodeRef): (r: World)
    requires Valid(w) && n in w.nodes && Validate(env, w, n).ok
    ensures Confined(w, r, {n}) && Valid(r)
    ensures var o := Arith(Operand(env, w, n, "A").value, Operand(env, w, n, "B").value, GetInputValue(w, n, "Operation"));
      && (o.Result? ==> r.nodes == w.nodes)
      && (o.Result? && Find(w.nodes[n].outputs, "Result").Some? ==> GetOutputValue(r, n, "Result") == Num(o.r))
      && (o.DivisionByZero? ==>
            r.ports == w.ports && !r.nodes[n].status && r.nodes[n].statusMessage == "Division by zero")
  {
    var a := Operand(env, w, n, "A").value;
    var b := Operand(env, w, n, "B").value;
    match Arith(a, b, GetInputValue(w, n, "Operation"))
    case DivisionByZero =>
      var r := SetStatus(w, n, false, "Division by zero");
      ShapeValid(w, r);
      r
    case Result(sum) => WithOutput(w, n, "Result", Num(sum))
  }
}
