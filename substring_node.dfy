/** The Substring node (nodes/data/Substring.js): `slice` with the falsy
    defaults of JavaScript's `||`. */
module SubstringNode {
  import opened Values
  import opened IO
  import opened GraphNode
  import Text

  const StartMessage := "Start must be within the bounds of the input string"
  const LengthMessage := "Length must be a non-negative integer and within the bounds of the input string"

  /** The constructor's ports. */
  function Constructor(): Layout {
    Layout("Substring",
      [Field("input", "string"), Field("start", "number"), Field("length", "number")],
      [Field("output", "string")])
  }

  /** `v?.length`: a string's length; a number or null has none (undefined,
      which is falsy). */
  function LengthOf(v: Value): Value {
    if v.Str? then Num(|v.s| as real) else Null
  }

  /** `getInputValue("start") || 0`. */
  function Start(w: World, n: NodeRef): Value
    requires Valid(w) && n in w.nodes
  {
    Or(GetInputValue(w, n, "start"), Num(0.0))
  }

  /** The length `validate` checks: `length || input?.length || 0`. */
  function CheckedLength(w: World, n: NodeRef): Value
    requires Valid(w) && n in w.nodes
  {
    Or(Or(GetInputValue(w, n, "length"), LengthOf(GetInputValue(w, n, "input"))), Num(0.0))
  }

  /** `String(input || "").slice(start, start + (length || input.length))`
      for a whole-number start. A missing length on an input that is not a
      string makes the end NaN, which `slice` reads as 0. */
  function Piece(env: Env, input: Value, start: int, length: Value): (r: string)
    requires Truthy(length) ==> IsInteger(length)
  {
    var v := Or(input, Str(""));
    var end :=
      if Truthy(length) then start + length.r.Floor
      else if v.Str? then start + |v.s|
      else 0;
    Text.Slice(ToJsString(env, v), start, end)
  }

  /** The output is always a contiguous piece of `String(input || "")` no
      longer than it; a falsy input gives ""; in range, it is exactly the
      `length` characters from `start`; a falsy length reads through the end
      of a string input. A negative start counts from the end, so a negative
      start with a length that keeps the end negative takes that many
      characters there, while a negative start within the string's length and a falsy length make the
      end equal the start and give "". */
  lemma PieceLaws(env: Env, input: Value, start: int, length: Value)
    requires Truthy(length) ==> IsInteger(length)
    ensures var s := ToJsString(env, Or(input, Str("")));
      && (exists i, j :: 0 <= i <= j <= |s| && Piece(env, input, start, length) == s[i..j])
      && |Piece(env, input, start, length)| <= |s|
    ensures !Truthy(input) ==> Piece(env, input, start, length) == ""
    ensures input.Str? && Truthy(length) && 0 <= start && 0.0 <= length.r && start + length.r.Floor <= |input.s| ==>
      Piece(env, input, start, length) == input.s[start..start + length.r.Floor]
    ensures input.Str? && !Truthy(length) && 0 <= start <= |input.s| ==>
      Piece(env, input, start, length) == input.s[start..]
    ensures input.Str? && Truthy(length) && -|input.s| <= start && 0.0 <= length.r && start + length.r.Floor < 0 ==>
      Piece(env, input, start, length) == input.s[|input.s| + start..|input.s| + start + length.r.Floor]
    ensures input.Str? && !Truthy(length) && -|input.s| <= start < 0 ==> Piece(env, input, start, length) == ""
  {
    var v := Or(input, Str(""));
    var s := ToJsString(env, v);
    var end :=
      if Truthy(length) then start + length.r.Floor
      else if v.Str? then start + |v.s|
      else 0;
    assert Piece(env, input, start, length) == Text.Slice(s, start, end);
    if input.Str? && !Truthy(length) && -|input.s| <= start < 0 {
      assert Text.RelativeIndex(end, |s|) <= Text.RelativeIndex(start, |s|);
    }
  }

  /** `validate()`: the defaulted start and length must be integers (any
      sign, any size); otherwise the status names the culprit and the output
      is cleared. */
  function Validate(env: Env, w: World, n: NodeRef): (c: Checked)
    requires Valid(w) && n in w.nodes
    ensures !c.ok ==> Confined(w, c.world, {n}) && Valid(c.world)
    ensures c.ok <==> IsInteger(Start(w, n)) && IsInteger(CheckedLength(w, n))
    ensures c.ok ==> c.world == w
    ensures !c.ok ==> !c.world.nodes[n].status && GetOutputValue(c.world, n, "output") == Null
    ensures !IsInteger(Start(w, n)) ==> c.world.nodes[n].statusMessage == StartMessage
    ensures IsInteger(Start(w, n)) && !c.ok ==> c.world.nodes[n].statusMessage == LengthMessage
  {
    if !IsInteger(Start(w, n)) then Checked(false, Rejected(w, n, StartMessage, "output"))
    else if !IsInteger(CheckedLength(w, n)) then Checked(false, Rejected(w, n, LengthMessage, "output"))
    else Checked(true, w)
  }

  /** The text `onCompute` writes. */
  function Output(env: Env, w: World, n: NodeRef): string
    requires Valid(w) && n in w.nodes && Validate(env, w, n).ok
  {
    Piece(env, GetInputValue(w, n, "input"), Start(w, n).r.Floor, GetInputValue(w, n, "length"))
  }

  /** `onCompute()`: the output receives the slice; nothing else changes. */
  function OnCompute(env: Env, w: World, n: NodeRef): (r: World)
    requires Valid(w) && n in w.nodes && Validate(env, w, n).ok
    ensures Confined(w, r, {n}) && Valid(r) && r.nodes == w.nodes
    ensures Find(w.nodes[n].outputs, "output").Some? ==> GetOutputValue(r, n, "output") == Str(Output(env, w, n))
  {
    WithOutput(w, n, "output", Str(Output(env, w, n)))
  }
}
