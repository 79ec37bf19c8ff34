/** The ToBase64 and FromBase64 nodes (nodes/data/ToBase64.js,
    nodes/data/FromBase64.js), around the browser's `btoa` and `atob`. */
module Base64Nodes {
  import opened Wrappers
  import opened Values
  import opened IO
  import opened GraphNode

  const EncodeMessage := "Invalid string for Base64 encoding"
  const DecodeMessage := "Invalid string for Base64 decoding"

  /** The constructors' ports. */
  function EncoderConstructor(): Layout {
    Layout("To Base64", [Field("input", "string")], [Field("output", "string")])
  }

  function DecoderConstructor(): Layout {
    Layout("From Base64", [Field("input", "string")], [Field("output", "string")])
  }

  /** `btoa(v)` (encode) or `atob(v)`: both convert their argument with
      `String()` first, so null is the text "null"; None is a thrown error. */
  function Codec(env: Env, v: Value, encode: bool): Option<string> {
    var s := ToJsString(env, v);
    if encode then env.btoa(s) else env.atob(s)
  }

  /** `atob` undoes `btoa` wherever `btoa` succeeds. */
  ghost predicate Inverse(env: Env) {
    forall s | env.btoa(s).Some? :: env.atob(env.btoa(s).value) == Some(s)
  }

  /** Decoding what was encoded gives back the text of the encoded value. */
  lemma CodecRoundTrip(env: Env, v: Value)
    requires Inverse(env) && Codec(env, v, true).Some?
    ensures Codec(env, Str(Codec(env, v, true).value), false) == Some(ToJsString(env, v))
  {
    var s := ToJsString(env, v);
    assert env.btoa(s).Some?;
  }

  /** `validate()`: the codec must accept the input; otherwise the status
      carries the node's message and the output is cleared. */
  function Validate(env: Env, w: World, n: NodeRef, encode: bool): (c: Checked)
    requires Valid(w) && n in w.nodes
    ensures !c.ok ==> Confined(w, c.world, {n}) && Valid(c.world)
    ensures c.ok <==> Codec(env, GetInputValue(w, n, "input"), encode).Some?
    ensures c.ok ==> c.world == w
    ensures !c.ok ==>
      && !c.world.nodes[n].status
      && c.world.nodes[n].statusMessage == (if encode then EncodeMessage else DecodeMessage)
      && GetOutputValue(c.world, n, "output") == Null
  {
    if Codec(env, GetInputValue(w, n, "input"), encode).None? then
      Checked(false, Rejected(w, n, if encode then EncodeMessage else DecodeMessage, "output"))
    else
      Checked(true, w)
  }

  /** `onCompute()`: runs only after `validate` accepted the same input, so
      the codec cannot fail here; only the output changes. */
  function OnCompute(env: Env, w: World, n: NodeRef, encode: bool): (r: World)
    requires Valid(w) && n in w.nodes && Validate(env, w, n, encode).ok
    ensures Confined(w, r, {n}) && Valid(r) && r.nodes == w.nodes
    ensures Find(w.nodes[n].outputs, "output").Some? ==>
      GetOutputValue(r, n, "output") == Str(Codec(env, GetInputValue(w, n, "input"), encode).value)
  {
    WithOutput(w, n, "output", Str(Codec(env, GetInputValue(w, n, "input"), encode).value))
  }
}
