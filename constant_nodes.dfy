/** The constant nodes (nodes/constants/ConstantNumber.js,
    nodes/constants/ConstantString.js, nodes/constants/ConstantTextbox.js):
    one output, no inputs. */
module ConstantNodes {
  import opened Values
  import opened IO
  import opened GraphNode

  const NumberMessage := "Output must be a number"

  /** The constructors' ports. */
  function NumberConstructor(): Layout {
    Layout("Const Number", [], [Field("output", "number")])
  }

  function StringConstructor(): Layout {
    Layout("Const String", [], [Field("output", "string")])
  }

  function TextboxConstructor(): Layout {
    Layout("Const Textbox", [], [Field("output", "string")])
  }

  /** ConstantNumber's `validate()`: the output must parse as a number;
      otherwise only the status changes and the output keeps its value. */
  function ValidateNumber(env: Env, w: World, n: NodeRef): (c: Checked)
    requires Valid(w) && n in w.nodes
    ensures !c.ok ==> Confined(w, c.world, {n}) && Valid(c.world) && c.world.ports == w.ports
    ensures c.ok <==> ParseFloat(env, GetOutputValue(w, n, "output")).Some?
    ensures c.ok ==> c.world == w
    ensures !c.ok ==> !c.world.nodes[n].status && c.world.nodes[n].statusMessage == NumberMessage
  {
    if ParseFloat(env, GetOutputValue(w, n, "output")).None? then
      var r := SetStatus(w, n, false, NumberMessage);
      ShapeValid(w, r);
      Checked(false, r)
    else
      Checked(true, w)
  }
}
