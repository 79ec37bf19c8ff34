/** The Concat node (nodes/data/Concat.js). */
module ConcatNode {
  import opened Values
  import opened IO
  import opened GraphNode

  /** The constructor's ports. */
  function Constructor(): Layout {
    Layout("Concat", [Field("input1", "string"), Field("input2", "string")], [Field("output", "string")])
  }

  /** `String(a || "")`: the text one input contributes. */
  function Part(env: Env, v: Value): string {
    ToJsString(env, Or(v, Str("")))
  }

  /** `String(input1 || "") + String(input2 || "")`. */
  function Joined(env: Env, a: Value, b: Value): string {
    Part(env, a) + Part(env, b)
  }

  /** The first input's text is a prefix, the second's a suffix, the lengths
      add up, and a falsy input (null, "", 0) contributes nothing. */
  lemma JoinedLaws(env: Env, a: Value, b: Value)
    ensures |Joined(env, a, b)| == |Part(env, a)| + |Part(env, b)|
    ensures Joined(env, a, b)[..|Part(env, a)|] == Part(env, a)
    ensures Joined(env, a, b)[|Part(env, a)|..] == Part(env, b)
    ensures !Truthy(a) ==> Joined(env, a, b) == Part(env, b)
    ensures !Truthy(b) ==> Joined(env, a, b) == Part(env, a)
    ensures a.Str? && b.Str? ==> Joined(env, a, b) == a.s + b.s
  {
    if a.Str? && a.s == "" {
      assert Part(env, a) == "";
    }
    if b.Str? && b.s == "" {
      assert Part(env, b) == "";
    }
  }

  /** `onCompute()`: the output receives the joined text; nothing else changes. */
  function OnCompute(env: Env, w: World, n: NodeRef): (r: World)
    requires Valid(w) && n in w.nodes
    ensures Confined(w, r, {n}) && Valid(r) && r.nodes == w.nodes
    ensures Find(w.nodes[n].outputs, "output").Some? ==>
      GetOutputValue(r, n, "output") == Str(Joined(env, GetInputValue(w, n, "input1"), GetInputValue(w, n, "input2")))
  {
    WithOutput(w, n, "output", Str(Joined(env, GetInputValue(w, n, "input1"), GetInputValue(w, n, "input2"))))
  }
}
