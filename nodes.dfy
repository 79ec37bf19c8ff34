/** The node catalogue (Nodes.js): `RegisterNodes` registers the ten node
    classes, each under its id, display name and menu path. */
module Nodes {
  import opened Wrappers
  import Text
  import opened GraphNode
  import opened Registry
  import Menu
  import Engine

  /** `registerNodeType(type, id, name, path)` for each entry of `calls`,
      in order. */
  function RegisterAll(reg: seq<NodeType>, calls: seq<NodeType>): seq<NodeType>
    decreases |calls|
  {
    if calls == [] then reg
    else
      var e := calls[0];
      RegisterAll(Register(reg, Some(e.kind), e.id, e.name, Some(e.path)), calls[1..])
  }

  /** The registry after `RegisterNodes` has run on `reg`: the ten calls of
      Nodes.js, in the order it makes them. */
  function Registrations(reg: seq<NodeType>): seq<NodeType> {
    RegisterAll(reg, Catalogue)
  }

  /** One call of `RegisterAll` taken off the front. */
  lemma RegisterAllStep(reg: seq<NodeType>, k: nat)
    requires k < |Catalogue|
    ensures var e := Catalogue[k];
      RegisterAll(reg, Catalogue[k..]) == RegisterAll(Register(reg, Some(e.kind), e.id, e.name, Some(e.path)), Catalogue[k + 1..])
  {
    assert Catalogue[k..][1..] == Catalogue[k + 1..];
  }

  /** `RegisterNodes(tinygraph)`: the ten `registerNodeType` calls, in the
      order Nodes.js makes them. */
  method RegisterNodes(g: Engine.TinyGraph)
    requires g.Registered()
    modifies g`nodeTypes
    ensures g.Registered()
    ensures g.nodeTypes == Registrations(old(g.nodeTypes))
  {
    // Constants
    RegisterAllStep(g.nodeTypes, 0);
    g.RegisterNodeType(Some(ConstantNumber), "ConstantNumber", "Constant Number", Some("/Constants/"));
    RegisterAllStep(g.nodeTypes, 1);
    g.RegisterNodeType(Some(ConstantString), "ConstantString", "Constant String", Some("/Constants/"));
    RegisterAllStep(g.nodeTypes, 2);
    g.RegisterNodeType(Some(ConstantTextbox), "ConstantTextbox", "Constant Textbox", Some("/Constants/"));
    // Data
    RegisterAllStep(g.nodeTypes, 3);
    g.RegisterNodeType(Some(Substring), "Substring", "Substring", Some("/Data/"));
    RegisterAllStep(g.nodeTypes, 4);
    g.RegisterNodeType(Some(Concat), "Concat", "Concat", Some("/Data/"));
    RegisterAllStep(g.nodeTypes, 5);
    g.RegisterNodeType(Some(ToBase64), "ToBase64", "To Base64", Some("/Data/"));
    RegisterAllStep(g.nodeTypes, 6);
    g.RegisterNodeType(Some(FromBase64), "FromBase64", "From Base64", Some("/Data/"));
    // Transformation
    RegisterAllStep(g.nodeTypes, 7);
    g.RegisterNodeType(Some(ToLower), "ToLower", "To Lowercase", Some("/Transform/"));
    RegisterAllStep(g.nodeTypes, 8);
    g.RegisterNodeType(Some(ToUpper), "ToUpper", "To Uppercase", Some("/Transform/"));
    // Math
    RegisterAllStep(g.nodeTypes, 9);
    g.RegisterNodeType(Some(Math), "Math", "Math", Some("/Math/"));
    assert Catalogue[10..] == [];
  }

  /** The ten entries a fresh graph's registry holds, in registration order. */
  const Catalogue: seq<NodeType> := [
    NodeType("ConstantNumber", ConstantNumber, "Constant Number", "/Constants/"),
    NodeType("ConstantString", ConstantString, "Constant String", "/Constants/"),
    NodeType("ConstantTextbox", ConstantTextbox, "Constant Textbox", "/Constants/"),
    NodeType("Substring", Substring, "Substring", "/Data/"),
    NodeType("Concat", Concat, "Concat", "/Data/"),
    NodeType("ToBase64", ToBase64, "To Base64", "/Data/"),
    NodeType("FromBase64", FromBase64, "From Base64", "/Data/"),
    NodeType("ToLower", ToLower, "To Lowercase", "/Transform/"),
    NodeType("ToUpper", ToUpper, "To Uppercase", "/Transform/"),
    NodeType("Math", Math, "Math", "/Math/")
  ]

  /** The ten ids, in registration order. */
  const Ids: seq<string> := ["ConstantNumber", "ConstantString", "ConstantTextbox", "Substring", "Concat",
    "ToBase64", "FromBase64", "ToLower", "ToUpper", "Math"]

  lemma IdsDistinct()
    ensures Text.NoDuplicates(Ids)
  {
  }

  /** The catalogue lists the ten ids once each, in order. */
  lemma CatalogueIds()
    ensures TypeIds(Catalogue) == Ids && Text.NoDuplicates(TypeIds(Catalogue))
  {
    IdsDistinct();
  }

  /** Calls with fresh, distinct ids each append their entry. */
  lemma {:induction false} RegisterAllFresh(reg: seq<NodeType>, calls: seq<NodeType>)
    requires Text.NoDuplicates(TypeIds(reg + calls))
    ensures RegisterAll(reg, calls) == reg + calls
    decreases |calls|
  {
    if calls != [] {
      var e := calls[0];
      var ids := TypeIds(reg + calls);
      assert ids[|reg|] == e.id;
      assert forall k | 0 <= k < |reg| :: TypeIds(reg)[k] == ids[k];
      assert e.id !in TypeIds(reg);
      var reg' := reg + [e];
      assert reg' + calls[1..] == reg + calls;
      RegisterAllFresh(reg', calls[1..]);
    }
  }

  /** Calls whose ids are all registered already change nothing. */
  lemma {:induction false} RegisterAllKnown(reg: seq<NodeType>, calls: seq<NodeType>)
    requires forall k | 0 <= k < |calls| :: calls[k].id in TypeIds(reg)
    ensures RegisterAll(reg, calls) == reg
    decreases |calls|
  {
    if calls != [] {
      RegisterAllKnown(reg, calls[1..]);
    }
  }

  /** Every id registered before stays registered, and every called id is
      registered afterwards. */
  lemma {:induction false} RegisterAllIds(reg: seq<NodeType>, calls: seq<NodeType>)
    ensures forall x | x in TypeIds(reg) :: x in TypeIds(RegisterAll(reg, calls))
    ensures forall k | 0 <= k < |calls| :: calls[k].id in TypeIds(RegisterAll(reg, calls))
    decreases |calls|
  {
    if calls != [] {
      var e := calls[0];
      var reg' := Register(reg, Some(e.kind), e.id, e.name, Some(e.path));
      RegisterKeepsIds(reg, Some(e.kind), e.id, e.name, Some(e.path));
      RegisterAllIds(reg', calls[1..]);
      forall k | 0 <= k < |calls| ensures calls[k].id in TypeIds(RegisterAll(reg, calls)) {
        if k > 0 {
          assert calls[k] == calls[1..][k - 1];
        }
      }
    }
  }

  /** Registering the catalogue on an empty registry yields exactly the ten
      entries, in the order of the calls, each with the path it was given. */
  lemma FreshRegistry()
    ensures Registrations([]) == Catalogue
  {
    CatalogueIds();
    assert [] + Catalogue == Catalogue;
    RegisterAllFresh([], Catalogue);
  }

  /** `RegisterNodes` run a second time changes nothing: every id is
      present after the first run, and the first registration wins. */
  lemma RegistrationsIdempotent(reg: seq<NodeType>)
    ensures Registrations(Registrations(reg)) == Registrations(reg)
  {
    RegisterAllIds(reg, Catalogue);
    RegisterAllKnown(Registrations(reg), Catalogue);
  }

  /** Registering keeps the earlier entries in place and ids unique. */
  lemma {:induction false} RegisterAllExtends(reg: seq<NodeType>, calls: seq<NodeType>)
    requires Text.NoDuplicates(TypeIds(reg))
    ensures reg <= RegisterAll(reg, calls) && Text.NoDuplicates(TypeIds(RegisterAll(reg, calls)))
    decreases |calls|
  {
    if calls != [] {
      var e := calls[0];
      RegisterEffect(reg, Some(e.kind), e.id, e.name, Some(e.path));
      RegisterAllExtends(Register(reg, Some(e.kind), e.id, e.name, Some(e.path)), calls[1..]);
    }
  }

  /** The catalogue in its four groups, each run sharing one path. */
  lemma CatalogueGroups()
    ensures Catalogue == Catalogue[..3] + Catalogue[3..7] + Catalogue[7..9] + Catalogue[9..]
    ensures forall k | 0 <= k < 3 :: Catalogue[..3][k].path == "/" + "Constants" + "/"
    ensures forall k | 0 <= k < 4 :: Catalogue[3..7][k].path == "/" + "Data" + "/"
    ensures forall k | 0 <= k < 2 :: Catalogue[7..9][k].path == "/" + "Transform" + "/"
    ensures forall k | 0 <= k < 1 :: Catalogue[9..][k].path == "/" + "Math" + "/"
  {
  }

  /** The menu of a fresh graph: four groups under the root, each holding
      its entries in registration order, and nothing anywhere else (the
      root itself included). */
  lemma CatalogueMenu(reg: seq<NodeType>, names: seq<string>)
    requires reg == Catalogue
    ensures Menu.ItemsAt(Menu.MenuTree(reg), names) ==
      (if ["Constants"] == names then Menu.Items(reg[..3]) else []) +
      (if ["Data"] == names then Menu.Items(reg[3..7]) else []) +
      (if ["Transform"] == names then Menu.Items(reg[7..9]) else []) +
      (if ["Math"] == names then Menu.Items(reg[9..]) else [])
  {
    CatalogueGroups();
    Menu.FourRuns(reg[..3], reg[3..7], reg[7..9], reg[9..], "Constants", "Data", "Transform", "Math", names);
  }
}
