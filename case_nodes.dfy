/** The ToUpper and ToLower nodes (nodes/transform/ToUpper.js,
    nodes/transform/ToLower.js). */
module CaseNodes {
  import opened Values
  import opened IO
  import opened GraphNode
  import Text

  /** The constructors' ports. */
  function UpperConstructor(): Layout {
    Layout("To Uppercase", [Field("input", "string")], [Field("output", "string")])
  }

  function LowerConstructor(): Layout {
    Layout("To Lowercase", [Field("input", "string")], [Field("output", "string")])
  }

  /** `String(input || "").toUpperCase()`, or `.toLowerCase()`. */
  function Cased(env: Env, v: Value, upper: bool): string {
    var s := ToJsString(env, Or(v, Str("")));
    if upper then Text.Upper(s) else Text.Lower(s)
  }

  /** A falsy input gives "", the length is kept, no character of the other
      case is left, and feeding the output through the same node again gives
      the same text. */
  lemma CasedLaws(env: Env, v: Value, upper: bool)
    ensures !Truthy(v) ==> Cased(env, v, upper) == ""
    ensures |Cased(env, v, upper)| == |ToJsString(env, Or(v, Str("")))|
    ensures upper ==> forall i | 0 <= i < |Cased(env, v, upper)| :: !('a' <= Cased(env, v, upper)[i] <= 'z')
    ensures !upper ==> forall i | 0 <= i < |Cased(env, v, upper)| :: !('A' <= Cased(env, v, upper)[i] <= 'Z')
    ensures Cased(env, Str(Cased(env, v, upper)), upper) == Cased(env, v, upper)
  {
    var s := ToJsString(env, Or(v, Str("")));
    if !Truthy(v) {
      assert s == "";
    }
    Text.UpperPointwise(s);
    Text.LowerPointwise(s);
    Text.UpperIdempotent(s);
    Text.LowerIdempotent(s);
    var c := Cased(env, v, upper);
    if c == "" {
      assert Or(Str(c), Str("")) == Str("");
    } else {
      assert Or(Str(c), Str("")) == Str(c);
    }
  }

  /** `onCompute()` of ToUpper (`upper`) and ToLower: the output receives the
      case-mapped input; nothing else changes. */
  function OnCompute(env: Env, w: World, n: NodeRef, upper: bool): (r: World)
    requires Valid(w) && n in w.nodes
    ensures Confined(w, r, {n}) && Valid(r) && r.nodes == w.nodes
    ensures Find(w.nodes[n].outputs, "output").Some? ==>
      GetOutputValue(r, n, "output") == Str(Cased(env, GetInputValue(w, n, "input"), upper))
  {
    WithOutput(w, n, "output", Str(Cased(env, GetInputValue(w, n, "input"), upper)))
  }
}
