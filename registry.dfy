/** The node-type registry of TinyGraph (tinygraph.js): the `nodeTypes` Map
    from a type id to `{id, type, name, path}`.

    A JavaScript Map keeps its keys in insertion order, so the registry is
    the sequence of its entries in that order. A node class is a `Kind`;
    `registerNodeType(null, …)` passes no class at all, which is `None`. */
module Registry {
  import opened Wrappers
  import GraphNode
  import Text

  datatype NodeType = NodeType(id: string, kind: GraphNode.Kind, name: string, path: string)

  /** The ids of the entries, in insertion order. */
  function TypeIds(reg: seq<NodeType>): (r: seq<string>)
    ensures |r| == |reg| && forall i | 0 <= i < |reg| :: r[i] == reg[i].id
  {
    Text.Projected(reg, (e: NodeType) => e.id)
  }

  /** `nodeTypes.get(id)`: the entry registered under `id`, if any. */
  function Lookup(reg: seq<NodeType>, id: string): (r: Option<NodeType>)
    ensures r.None? <==> id !in TypeIds(reg)
    ensures r.Some? ==> r.value in reg && r.value.id == id
  {
    if reg == [] then None
    else if reg[0].id == id then Some(reg[0])
    else
      assert TypeIds(reg) == [reg[0].id] + TypeIds(reg[1..]);
      Lookup(reg[1..], id)
  }

  /** Adding an entry at the end changes no lookup of another id. */
  lemma {:induction false} LookupAppend(reg: seq<NodeType>, e: NodeType, x: string)
    requires x != e.id
    ensures Lookup(reg + [e], x) == Lookup(reg, x)
  {
    if reg != [] {
      assert (reg + [e])[1..] == reg[1..] + [e];
      LookupAppend(reg[1..], e, x);
    }
  }

  /** `registerNodeType(type, id, name, path = "/")`: a missing class or an
      id already present leaves the registry as it was; otherwise the entry
      is added at the end, with "/" when no path was given. */
  function Register(reg: seq<NodeType>, kind: Option<GraphNode.Kind>, id: string, name: string, path: Option<string>): seq<NodeType> {
    if kind.None? || id in TypeIds(reg) then reg
    else reg + [NodeType(id, kind.value, name, if path.Some? then path.value else "/")]
  }

  /** The registry behaves as a Map: ids stay unique; the first registration
      of an id wins, so a later one changes nothing; a new id becomes
      retrievable under its own entry and every other lookup is unchanged. */
  lemma {:induction false} RegisterEffect(reg: seq<NodeType>, kind: Option<GraphNode.Kind>, id: string, name: string, path: Option<string>)
    requires Text.NoDuplicates(TypeIds(reg))
    ensures var r := Register(reg, kind, id, name, path);
      && Text.NoDuplicates(TypeIds(r))
      && (kind.None? || id in TypeIds(reg) ==> r == reg)
      && (kind.Some? && id !in TypeIds(reg) ==>
            && r == reg + [NodeType(id, kind.value, name, if path.Some? then path.value else "/")]
            && Lookup(r, id) == Some(NodeType(id, kind.value, name, if path.Some? then path.value else "/")))
      && (forall x | x != id :: Lookup(r, x) == Lookup(reg, x))
  {
    var r := Register(reg, kind, id, name, path);
    if kind.Some? && id !in TypeIds(reg) {
      var e := NodeType(id, kind.value, name, if path.Some? then path.value else "/");
      assert TypeIds(r) == TypeIds(reg) + [id];
      forall x | x != id
        ensures Lookup(r, x) == Lookup(reg, x)
      {
        LookupAppend(reg, e, x);
      }
      LookupUnique(r, |reg|);
    }
  }

  /** The entry an id retrieves is the one registered under it. */
  lemma {:induction false} LookupUnique(reg: seq<NodeType>, i: nat)
    requires Text.NoDuplicates(TypeIds(reg)) && i < |reg|
    ensures Lookup(reg, reg[i].id) == Some(reg[i])
  {
    if i > 0 {
      assert reg[0].id != reg[i].id by {
        assert TypeIds(reg)[0] == reg[0].id && TypeIds(reg)[i] == reg[i].id;
      }
      assert Text.NoDuplicates(TypeIds(reg[1..])) by {
        forall a, b | 0 <= a < b < |reg| - 1 ensures TypeIds(reg[1..])[a] != TypeIds(reg[1..])[b] {
          assert TypeIds(reg[1..])[a] == TypeIds(reg)[a + 1] && TypeIds(reg[1..])[b] == TypeIds(reg)[b + 1];
        }
      }
      LookupUnique(reg[1..], i - 1);
    }
  }

  /** Registering never removes an id, and after registering a class under
      `id` that id is present. */
  lemma RegisterKeepsIds(reg: seq<NodeType>, kind: Option<GraphNode.Kind>, id: string, name: string, path: Option<string>)
    ensures forall x | x in TypeIds(reg) :: x in TypeIds(Register(reg, kind, id, name, path))
    ensures kind.Some? ==> id in TypeIds(Register(reg, kind, id, name, path))
  {
    var r := Register(reg, kind, id, name, path);
    if kind.Some? && id !in TypeIds(reg) {
      assert TypeIds(r) == TypeIds(reg) + [id];
    }
  }
}
