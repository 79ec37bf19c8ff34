# tinygraph: a Dafny model of the node-graph engine

tinygraph is a small browser node editor. Nodes (`GraphNode`) carry input
and output ports (`IO`). An output may feed many inputs; an input may be fed
by one output. The `TinyGraph` object holds the list of nodes, the list of
`{ fromIO, toIO }` connection records and the registry of node types. It
recomputes the graph by resetting every node's status and walking from the
roots. A root is a node none of whose inputs is connected. The walk is a
depth-first recursion: a node computes, and if that succeeds, every node fed
by one of its outputs is computed in turn. Ten node classes are registered
by `RegisterNodes`:

- three constants;
- Substring, Concat, ToBase64 and FromBase64;
- ToLower and ToUpper;
- Math.

The context menu is built from the registered paths and filtered by a
search box.

This project models that core:

- `Values`: port values (`null`, strings, numbers as reals), JavaScript
  truthiness and the coercions the nodes use. The browser's built-ins
  (`String(x)`, `Number`, `parseFloat`, `btoa`, `atob`) are the fields of an
  `Env` parameter.
- `IO`: ports as records in a store of references. `setValue`,
  `updateConnections`, `connectTo` and `disconnectFrom` are modelled, with
  the dropdown's `onSetValue`.
- `GraphNode`: the world of nodes and ports. It covers
  `setStatus`, `addInput`/`addOutput`/`registerIO`, the insertion-ordered
  port maps, `getInputValue`/`getOutputValue` and `setOutputValue`.
- `ConstantNodes`, `SubstringNode`, `ConcatNode`, `Base64Nodes`,
  `CaseNodes`, `MathNode`: each class's `validate` and `onCompute`.
- `Catalogue`: the constructor of every node class, and the
  `validate`/`onCompute`/`compute()` dispatch by kind.
- `Registry`: `registerNodeType` and the `nodeTypes` map.
- `Nodes`: `RegisterNodes`.
- `Graph`: the data model behind `TinyGraph`:
  - roots;
  - `compute()` and `_computeNodeRecursive`;
  - `addConnection` and `removeConnection`;
  - `_createNodeOfType`/`addNode`;
  - `_onConnectionDrop`;
  - widget edits.
- `Deletion`: `deleteNode`.
- `Menu`: `_buildMenuTree` and `buildMenu`'s filter.
- `Engine.TinyGraph`: a class whose fields are `nodes`, `connections`,
  `nodeTypes` and the pending wire, plus the world of node and port objects.
  Its methods run the source's loops. Each is proved to leave exactly the
  state that the `Graph`/`Deletion` function describes.
- `Text`: the string and list helpers (`slice`, `includes`, case mapping,
  `filter`).

Three behaviours of the source that a reader may not expect, which the
model reproduces:

- A rejecting `validate` clears the node's output, and `setOutputValue`
  pushes that null into every connected input.
- The inner `compute()` of `setOutputValue` never runs: no node has an
  `update` method.
- ToLower's `onValidate` is never called.

`Graph.RecordWithoutLink`, `Graph.SelfLoopUnranked`,
`Graph.DiamondPassTwice`, `Catalogue.DivisionByZeroStillSucceeds`,
`Catalogue.FreshConstantNumberFails` and `Catalogue.FreshMathComputesZero`
state these behaviours of the code as written.

## Model

| member | source | states |
|---|---|---|
| `IO.NewPort` | nodes/IO/IO.js:4-18 | a new port holds null, has no connections, is editable and belongs to no node |
| `IO.NewDropdown` | nodes/IO/DropdownIO.js:5-21 | a dropdown is an input that refuses connections and starts on its first option |
| `IO.Stored` | nodes/IO/DropdownIO.js:39-44 | storing keeps the wiring and sets the value; a plain port then reads v, a dropdown reads v when v is one of its options |
| `IO.StoredTwice` | nodes/IO/IO.js:125-130 | storing the same value twice is storing it once |
| `IO.PropagatedEffect` | nodes/IO/IO.js:111-119 | `updateConnections` rewires nothing and writes the output's value into exactly its listed inputs; an input's call changes nothing |
| `IO.WithValue` | nodes/IO/IO.js:125-130 | after `setValue(v)` the port holds v, and so does every input an output lists; no other port and no list changes |
| `IO.HookedEffect` | nodes/IO/IO.js:93-97 | the guard of `connectTo`: an empty input and the output list each other; an occupied input changes nothing |
| `IO.ConnectToEffect` | nodes/IO/IO.js:88-100 | nothing changes unless an output that allows connections targets an input; the input gains a peer only when it had none; afterwards every input the output lists holds its value |
| `IO.DisconnectFromEffect` | nodes/IO/IO.js:103-108 | the peer always leaves this port's list; this port leaves the peer's list only when the peer is an input; values are untouched |
| `IO.UpdateConnections` | nodes/IO/IO.js:111-119 | the loop over the listed inputs leaves the store `Propagated` describes |
| `IO.SetValue` | nodes/IO/IO.js:125-130 | store, notify and push one hop gives the store `WithValue` describes |
| `IO.ConnectTo` | nodes/IO/IO.js:88-100 | the guarded pushes and the update loop give the store `Linked` describes |
| `GraphNode.NewNode` | nodes/GraphNode.js:4-17 | a new node has empty port maps and status (true, "Ok") |
| `GraphNode.Find` | nodes/GraphNode.js:157-164 | `map.get(id)` finds nothing exactly when no slot carries the id; what it finds is stored under that id |
| `GraphNode.FindAt` | nodes/GraphNode.js:157-164 | the slot found is the first one carrying the id |
| `GraphNode.PortsOf` | tinygraph.js:199 | `map.values()` lists every slot's port, in insertion order |
| `GraphNode.SetStatus` | nodes/GraphNode.js:119-123 | sets the status, keeps a non-empty message, never leaves the message empty, and changes nothing else |
| `GraphNode.AddSlotEffect` | nodes/GraphNode.js:132-148 | an id already present on that side changes nothing; otherwise the port is appended under its id and learns its node and side, and nothing else changes |
| `GraphNode.AddSlotValid` | nodes/GraphNode.js:150-155 | registering a detached port keeps the world closed |
| `GraphNode.FindIds` | nodes/GraphNode.js:133 | `map.has(id)` is membership in the map's ids |
| `GraphNode.MakePort` | nodes/IO/NumberIO.js:4-6 | every new port holds null, unconnected and unowned; the field ports allow connections; a dropdown refuses them and reads its first option |
| `GraphNode.AddPorts` | nodes/constants/ConstantString.js:4-8 | the constructor's `addInput`/`addOutput(new …)` calls allocate one reference per port, and the side's ids become the old ids followed by the declared ids, in order |
| `GraphNode.AddPortsSlots` | nodes/data/Concat.js:5-10 | the new slots follow the existing ones, in order, at consecutive fresh references |
| `GraphNode.AddPortsRest` | nodes/data/Concat.js:5-10 | the other side, the node's other fields and every other node are left alone |
| `GraphNode.AddPortsDomain` | nodes/data/Concat.js:5-10 | exactly the references from `next` on are allocated; existing ports are untouched |
| `GraphNode.AddPortsOwned` | nodes/GraphNode.js:150-155 | the port at `next + i` is the port made from the i-th specification, owned by the node on that side |
| `GraphNode.AddPortsUnlinked` | nodes/IO/IO.js:17 | freshly added ports start without connections |
| `GraphNode.AddPortsSlotPort` | nodes/data/Concat.js:5-10 | the k-th new slot holds the port made from the k-th specification |
| `GraphNode.WithOutput` | nodes/GraphNode.js:166-179 | an unknown id changes nothing; otherwise the output and every input it lists hold v, and no list, no other port and no node changes; nothing downstream is recomputed |
| `GraphNode.Rejected` | nodes/math/MathNode.js:18-21 | a rejection sets status false with its message, nulls the named output and changes only this node |
| `GraphNode.SetOutputValue` | nodes/GraphNode.js:166-179 | the method, with its loop over connected inputs, leaves the world `WithOutput` describes |
| `ConstantNodes.ValidateNumber` | nodes/constants/ConstantNumber.js:10-17 | accepts exactly when the output parses as a number; a rejection changes only the status, to (false, "Output must be a number") |
| `SubstringNode.PieceLaws` | nodes/data/Substring.js:32-38 | the output is a contiguous piece of the input's text; a falsy input gives ""; in range it is exactly `length` characters from `start`; a falsy length reads to the end; a negative start counts from the end, and with a falsy length a negative start gives "" |
| `SubstringNode.Validate` | nodes/data/Substring.js:15-30 | accepts exactly when the defaulted start and length are integers of any sign and size (the messages speak of bounds that are not checked); otherwise the message names the culprit and the output is nulled |
| `SubstringNode.OnCompute` | nodes/data/Substring.js:32-38 | the output receives the slice; nothing else changes |
| `ConcatNode.JoinedLaws` | nodes/data/Concat.js:12-16 | the first input's text is a prefix and the second's a suffix, the lengths add up, and a falsy input contributes nothing |
| `ConcatNode.OnCompute` | nodes/data/Concat.js:12-16 | the output receives the joined text; nothing else changes |
| `Base64Nodes.CodecRoundTrip` | nodes/data/FromBase64.js:23-27 | decoding what `btoa` encoded gives back the text, for a codec whose `atob` inverts `btoa` |
| `Base64Nodes.Validate` | nodes/data/ToBase64.js:12-22 | accepts exactly when the codec accepts the input; otherwise the status carries the node's message and the output is nulled |
| `Base64Nodes.OnCompute` | nodes/data/FromBase64.js:23-27 | after an accepting `validate` the codec cannot fail; only the output changes, to the codec's result |
| `CaseNodes.CasedLaws` | nodes/transform/ToUpper.js:11-14 | a falsy input gives ""; the length is kept; no character of the other case is left; feeding the output back gives the same text |
| `CaseNodes.OnCompute` | nodes/transform/ToLower.js:14-17 | the output receives the case-mapped input; nothing else changes |
| `MathNode.ArithLaws` | nodes/math/MathNode.js:26-53 | only dividing by zero fails; subtraction undoes addition; division undoes multiplication by a non-zero number; an unknown operation gives 0 |
| `MathNode.Validate` | nodes/math/MathNode.js:15-24 | accepts exactly when both operands are numbers; otherwise status (false, "Inputs must be numbers") and Result is nulled |
| `MathNode.OnCompute` | nodes/math/MathNode.js:26-53 | Result receives the operator's value; dividing by zero sets (false, "Division by zero") and writes nothing |
| `Catalogue.LayoutBuildable` | nodes/math/MathNode.js:6-13 | every node class declares distinct port ids per side, puts its dropdowns on the input side with at least one option, and has exactly one output |
| `Catalogue.WithInputs` | nodes/math/MathNode.js:6-12 | the GraphNode constructor plus the `addInput` calls create the node at `next`, with no outputs yet, and allocate one reference per input |
| `Catalogue.Build` | nodes/data/Substring.js:7-13 | then the `addOutput` calls: exactly one node is added, and one reference per port is allocated |
| `Catalogue.Construct` | tinygraph.js:505 | `new Kind(x, y)` adds exactly the node `next` and allocates one reference per declared port |
| `Catalogue.BuildNode` | nodes/GraphNode.js:4-17 | the new node has its kind, its class's name, status (true, "Ok") and one slot per declared port, in order, each owned on its side |
| `Catalogue.BuildWorld` | nodes/data/ToBase64.js:6-10 | constructing leaves every existing object untouched and allocates exactly the references from `next` up |
| `Catalogue.BuildUnlinked` | nodes/IO/IO.js:17 | every port a constructor allocates starts without connections |
| `Catalogue.Validate` | nodes/GraphNode.js:182 | the kind's `validate` override accepts exactly when the kind's conditions hold (the default always accepts); an acceptance changes nothing |
| `Catalogue.ValidateConfined` | nodes/GraphNode.js:182 | `validate` changes only its own node and keeps the world valid |
| `Catalogue.ValidateRejects` | nodes/data/FromBase64.js:12-22 | a rejection sets one of the kinds' messages and (except ConstantNumber) nulls the output |
| `Catalogue.OnCompute` | nodes/GraphNode.js:199 | the kind's `onCompute` override changes only this node and keeps the world valid |
| `Catalogue.OnComputeWrites` | nodes/data/Concat.js:12-16 | `onCompute` writes the kind's produced value to its output |
| `Catalogue.OnComputeKeeps` | nodes/constants/ConstantNumber.js:19 | apart from the output nothing changes; the constants change nothing; only a division by zero touches the status |
| `Catalogue.Failed` | nodes/GraphNode.js:189-191 | only this node's status changes: to false, keeping a non-empty message `validate` left |
| `Catalogue.Compute` | nodes/GraphNode.js:184-196 | `compute()` keeps the world valid and returns true exactly when the kind's `validate` accepts the node's values |
| `Catalogue.ComputeConfined` | nodes/GraphNode.js:184-196 | `compute()` changes only its node's status and outputs |
| `Catalogue.ComputeRejects` | nodes/GraphNode.js:189-191 | a failed `compute()` keeps a message from `validate`, never the "Validation failed" fallback |
| `Catalogue.FailuresDistinct` | nodes/GraphNode.js:190 | no failure message is empty or equal to the fallback |
| `Catalogue.ComputeClears` | nodes/data/Substring.js:19-28 | a failed `compute()` (except ConstantNumber's) leaves the output null |
| `Catalogue.ComputeSucceeds` | nodes/GraphNode.js:193-195 | a successful `compute()` leaves (true, "Ok") unless dividing by zero, writes the produced value, and for the constants changes no port |
| `Catalogue.SetStatusKeepsAccepts` | nodes/GraphNode.js:187-189 | the status reset does not change whether `validate` accepts |
| `Catalogue.InfallibleCompute` | nodes/transform/ToLower.js:11-13 | Concat, ToUpper, ToLower, ConstantString and ConstantTextbox always compute, ending at (true, "Ok"); ToLower's `onValidate` plays no part |
| `Catalogue.ConstantsKeepPorts` | nodes/constants/ConstantNumber.js:10-19 | computing a constant never changes a port |
| `Catalogue.DivisionByZeroStillSucceeds` | nodes/math/MathNode.js:44-48 | dividing by zero: `compute()` returns true, the status is (false, "Division by zero") and Result keeps its previous value |
| `Catalogue.FreshConstantNumberFails` | nodes/constants/ConstantNumber.js:5-17 | a new ConstantNumber holds null, which is not a number, so its first `compute()` fails |
| `Catalogue.FreshMathComputesZero` | nodes/math/MathNode.js:6-53 | a new Math node reads null, null and "Add", and its first `compute()` succeeds and writes 0 |
| `Catalogue.BuiltInput` | nodes/IO/DropdownIO.js:36-38 | a built node reads, from each input, its initial value: null, or a dropdown's first option |
| `Catalogue.BuiltOutput` | nodes/GraphNode.js:161-164 | a built node's output is found under its id and holds null |
| `Registry.TypeIds` | tinygraph.js:529-541 | the registered ids, in insertion order |
| `Registry.Lookup` | tinygraph.js:503 | `nodeTypes.get(id)` finds an entry exactly when the id is registered, and the entry carries that id |
| `Registry.LookupAppend` | tinygraph.js:540 | appending an entry changes no lookup of another id |
| `Registry.RegisterEffect` | tinygraph.js:529-541 | a missing class or a known id changes nothing; a new id is appended, path defaulting to "/", and becomes retrievable; ids stay unique and other lookups are unchanged |
| `Registry.LookupUnique` | tinygraph.js:503 | with unique ids, the entry an id retrieves is the one registered under it |
| `Registry.RegisterKeepsIds` | tinygraph.js:535-540 | registering never removes an id, and a registered class's id is present afterwards |
| `Nodes.RegisterNodes` | Nodes.js:13-46 | the ten `registerNodeType` calls, in order, leave the registry `Registrations` describes and keep ids unique |
| `Nodes.CatalogueIds` | Nodes.js:13-46 | the ten ids are listed once each, in order |
| `Nodes.RegisterAllFresh` | tinygraph.js:529-541 | calls with fresh, distinct ids each append their entry |
| `Nodes.RegisterAllKnown` | tinygraph.js:535-538 | calls whose ids are registered already change nothing |
| `Nodes.RegisterAllIds` | tinygraph.js:529-541 | earlier ids stay registered, and every called id is registered afterwards |
| `Nodes.FreshRegistry` | tinygraph.js:29-32 | on an empty registry the catalogue yields exactly the ten entries, in call order, with their paths |
| `Nodes.RegistrationsIdempotent` | Nodes.js:13-46 | running `RegisterNodes` again changes nothing: the first registration wins |
| `Nodes.RegisterAllExtends` | tinygraph.js:529-541 | registering keeps the earlier entries in place and ids unique |
| `Nodes.CatalogueGroups` | Nodes.js:14-45 | the catalogue falls into four runs sharing the paths "/Constants/", "/Data/", "/Transform/" and "/Math/" |
| `Nodes.CatalogueMenu` | tinygraph.js:393-408 | a fresh graph's menu has four groups under the root holding their entries in registration order, and no item anywhere else |
| `Menu.Split` | tinygraph.js:396 | `split("/")` gives at least one piece and no piece holds a slash |
| `Menu.NonEmpty` | tinygraph.js:399 | the loop skips exactly the empty pieces and keeps the rest in order |
| `Menu.SplitJoined` | tinygraph.js:396 | splitting names joined by slashes gives back the names |
| `Menu.SegmentsOfPath` | tinygraph.js:396-402 | a path written "/a/b/" leads through groups a and b; "/" leads through none |
| `Menu.KeyIndex` | tinygraph.js:400 | the position of a group among the sub-groups, or their count when absent |
| `Menu.InsertItems` | tinygraph.js:400-405 | placing an item appends it to its group's `__items__` and changes no other group's items |
| `Menu.FourRuns` | tinygraph.js:393-408 | registrations in four runs of shared one-name paths give four groups, each holding exactly its run's items, in order |
| `Menu.PlacedUniform` | tinygraph.js:393-408 | registrations sharing one path all land in that path's group |
| `Menu.MenuTreeItems` | tinygraph.js:393-408 | each group's items are exactly the types registered with its path, in registration order |
| `Menu.MenuTreeHoldsAll` | tinygraph.js:393-408 | the tree holds each registered type exactly once (as a multiset of items) |
| `Menu.TrimLaws` | tinygraph.js:495 | trimming keeps a contiguous piece of the text and drops only white space around it |
| `Menu.TrimEdges` | tinygraph.js:495 | what trimming keeps neither starts nor ends with white space |
| `Menu.QueryLaws` | tinygraph.js:495 | an all-blank search is the empty filter, which shows everything; the filter is lower-case and no longer than the typed text |
| `Menu.ShownIff` | tinygraph.js:428-489 | a group is shown exactly when some item of its subtree matches |
| `Menu.MatchingMember` | tinygraph.js:433-436 | an item is listed exactly when its lower-cased name or id includes the filter, or the filter is empty |
| `Menu.MatchingItems` | tinygraph.js:431-463 | the first loop of `buildMenu` lists exactly the group's own matching items, in order |
| `Menu.BuildMenu` | tinygraph.js:428-489 | the entries listed, depth first, are exactly the subtree's matching items in tree order; the result says whether any was listed |
| `Menu.ShownMatching` | tinygraph.js:474-486 | a group is shown exactly when the list of its subtree's matching items is non-empty |
| `Graph.Roots` | tinygraph.js:170-179 | a node is among the roots exactly when it is listed and none of its inputs is connected (the order is `Graph.RootsConcat`'s) |
| `Graph.RootsConcat` | tinygraph.js:172 | the roots of a concatenation are the roots of each part, in order |
| `Graph.NoInputsIsRoot` | tinygraph.js:173 | a node without inputs is a root whatever the wiring |
| `Graph.RootsShape` | tinygraph.js:174-176 | being a root depends only on the wiring, not on values or statuses |
| `Graph.ResetAll` | tinygraph.js:184-186 | every listed node ends at (true, "Ok"); no port and no unlisted node changes |
| `Graph.ResetLast` | tinygraph.js:184-186 | the last reset step applies to what the earlier steps left |
| `Graph.Owners` | tinygraph.js:200-203 | every owner found is a node, and the owner of every listed port that has one is found |
| `Graph.TargetsOf` | tinygraph.js:199-205 | every target is a node, and the owner of every input any of the outputs lists is a target |
| `Graph.Targets` | tinygraph.js:199-205 | the nodes `_computeNodeRecursive` descends into are nodes of the world |
| `Graph.OwnersShape` | tinygraph.js:200-203 | the targets depend only on the wiring |
| `Graph.Visit` | tinygraph.js:194-206 | the visit computes the node first; when `validate` rejects it nothing else is visited; shape and rank are kept |
| `Graph.Descend` | tinygraph.js:199-205 | after the node's compute its targets are visited; shape and rank are kept |
| `Graph.VisitAll` | tinygraph.js:199-205 | visiting targets one after another keeps shape and rank |
| `Graph.Paths` | tinygraph.js:194-206 | the path list from a node starts with the node itself |
| `Graph.VisitPruned` | tinygraph.js:194-206 | a visit computes the ends of the paths from the node in depth-first order, cut only below nodes whose kind can fail: a node reachable by k paths through nodes that succeed is computed k times |
| `Graph.PrunedFull` | tinygraph.js:194-206 | when every node on the paths from a node has a kind that cannot fail, the only cut of those paths is the full path list |
| `Graph.VisitPaths` | tinygraph.js:194-206 | when every node on the paths from the node has a kind that cannot fail, a visit computes exactly the ends of those paths, in depth-first order |
| `Graph.VisitConfined` | tinygraph.js:194-206 | a visit changes only the nodes it computes; other statuses and outputs are kept |
| `Graph.PathsLeaf` | tinygraph.js:199-205 | a node without connected outputs has the single path to itself |
| `Graph.PathsChain` | tinygraph.js:199-205 | a node with one target: its paths are itself followed by the target's paths |
| `Graph.PathsFork` | tinygraph.js:199-205 | a node with two targets: itself, then the first target's paths, then the second's, in list order |
| `Graph.DiamondTwice` | tinygraph.js:194-206 | the paths from a diamond's source are source, left, sink, right, sink: the sink ends two of them |
| `Graph.PathsFromOne` | tinygraph.js:189-190 | the paths from a single root are that root's paths |
| `Graph.DiamondRooted` | tinygraph.js:189-206 | the paths from a diamond's source taken as the only root are source, left, sink, right, sink |
| `Graph.DiamondKinds` | tinygraph.js:194-206 | every node on those paths is one of the diamond's four nodes, so the kinds of the four cover them |
| `Graph.DiamondPassTwice` | tinygraph.js:182-206 | a pass over a graph whose only root is a diamond's source, with four nodes of kinds that cannot fail, computes source, left, sink, right, sink: the sink twice |
| `Graph.Walk` | tinygraph.js:190 | visiting the roots in turn keeps shape and rank |
| `Graph.Pass` | tinygraph.js:182-191 | `compute()` keeps the world's shape (no list, no port set changes) and its rank |
| `Graph.WalkPruned` | tinygraph.js:189-190 | visiting the roots in turn computes, root after root, a cut of each root's paths |
| `Graph.PrunedFromFull` | tinygraph.js:189-190 | when every node on the paths from the roots has a kind that cannot fail, the only cut of those paths is the full list |
| `Graph.PassPruned` | tinygraph.js:182-191 | a pass computes the ends of the paths from the roots, root by root in `nodes` order, depth first, cut only below nodes whose kind can fail |
| `Graph.PassPaths` | tinygraph.js:182-191 | when every node on the paths from the roots has a kind that cannot fail, a pass computes exactly the ends of those paths, root by root, depth first |
| `Graph.WalkReachesRoots` | tinygraph.js:189-190 | every root is computed at least once |
| `Graph.PassEffect` | tinygraph.js:182-191 | a pass computes every root; an unreached listed node keeps (true, "Ok"); an unreached unlisted node and the outputs of unreached nodes are untouched |
| `Graph.Wired` | tinygraph.js:276-278 | `connectTo` plus the pushed record keep the graph listed, its nodes and its ports |
| `Graph.Added` | tinygraph.js:270-282 | `addConnection` keeps the graph listed and keeps its nodes and ports |
| `Graph.ConsistentShape` | tinygraph.js:280 | a pass rewires nothing, so records and lists still agree |
| `Graph.AddRefused` | tinygraph.js:272 | same sides, or an occupied target: nothing changes |
| `Graph.AddLinks` | tinygraph.js:270-282 | from an output that allows connections to an empty input: one record appended, each port lists the other, no other list changes, the inputs hold the output's value, then a pass |
| `Graph.AddConsistent` | tinygraph.js:270-282 | such an `addConnection` keeps records and lists in agreement |
| `Graph.AddReplaces` | tinygraph.js:270-282 | on a consistent graph the record is appended, the input lists only the output, and the output lists the input |
| `Graph.RecordWithoutLink` | tinygraph.js:272-278 | `addConnection(input, output)` passes the guard and pushes a record, but `connectTo` links nothing, so records and lists disagree |
| `Graph.SelfLoopUnranked` | tinygraph.js:272 | an output may be wired to an input of its own node, after which no rank exists and `compute()` would recurse forever |
| `Graph.Filtered` | tinygraph.js:289 | the filter drops exactly the peer from one list and changes nothing else |
| `Graph.Unlisted` | tinygraph.js:289-290 | each of the two ports drops exactly the other; no other port changes |
| `Graph.Removed` | tinygraph.js:283-295 | `removeConnection` only prunes lists and keeps the nodes |
| `Graph.RemoveEffect` | tinygraph.js:283-295 | exactly the pair's records go; each port drops the other; `toIO` holds null, and so does every input it lists when it is an output; nothing else changes |
| `Graph.RemoveTarget` | tinygraph.js:285-290 | the records and `toIO`'s list lose exactly that pair |
| `Graph.RemoveConsistent` | tinygraph.js:283-295 | removing a recorded pair keeps records and lists in agreement |
| `Graph.Created` | tinygraph.js:502-508 | an unknown id changes nothing; the graph stays listed |
| `Graph.CreateEffect` | tinygraph.js:502-508 | a registered id appends one new node of the registered class with status (true, "Ok"); existing objects and records are untouched; new ports are unconnected; records and lists still agree |
| `Graph.CreatedConsistent` | tinygraph.js:145-148 | adding unconnected objects keeps records and lists in agreement |
| `Graph.Cleared` | tinygraph.js:242-245 | clearing a dropped-on input keeps the nodes and ports |
| `Graph.Dropped` | tinygraph.js:230-263 | clearing then `addConnection` keeps the nodes and ports |
| `Graph.ClearedEffect` | tinygraph.js:242-245 | clearing an input empties its list, drops the records ending at it and keeps agreement |
| `Graph.DropReplaces` | tinygraph.js:230-263 | a drop from an output onto an input replaces whatever fed the input: its old record goes, the new one is appended, the input lists exactly the output, and agreement holds |
| `Graph.ClearedRewired` | tinygraph.js:242-245 | clearing an input changes only lists: every port keeps its id, type, owner and side |
| `Graph.DroppedRewired` | tinygraph.js:242-247 | a drop changes only lists, values and selections: every port keeps its id, type, owner and side |
| `Graph.ClearedKeeps` | tinygraph.js:242-245 | clearing one input leaves every other input's list alone, and a port loses at most that input from its list |
| `Graph.DropKeeps` | tinygraph.js:242-247 | a drop onto one input leaves every other input's list alone, and the output still lists every other input it listed |
| `Graph.DroppedAll` | tinygraph.js:232-256 | dropping on each hit input in turn (the first hit input of each node, since `break` leaves only that node's loop) keeps the nodes and ports |
| `Graph.DropAllKeeps` | tinygraph.js:232-256 | the drops leave alone an input that is not among the hit inputs, and the output keeps listing it |
| `Graph.DropAllConnects` | tinygraph.js:232-256 | after the drops every hit input lists exactly the output, the output lists every hit input, and records and lists still agree |
| `Graph.Edited` | nodes/IO/NumberIO.js:13-16 | a widget edit is `setValue` then `compute()`; no record or node list changes |
| `Graph.EditEffect` | nodes/IO/StringIO.js:4-29 | an edit stores v in the port and in every input an edited output feeds, and keeps agreement |
| `Deletion.Sever` | tinygraph.js:155-158 | one `removeConnection`, output first, only prunes lists and keeps the nodes |
| `Deletion.SeverPeers` | tinygraph.js:154-159 | the inner loop over the snapshot only prunes lists and keeps the nodes |
| `Deletion.SeverAll` | tinygraph.js:152-160 | the outer loop over inputs then outputs only prunes lists and keeps the nodes |
| `Deletion.PortList` | tinygraph.js:152 | lists every input and output port of the node, all in the store |
| `Deletion.Deleted` | tinygraph.js:150-168 | `deleteNode` keeps the graph listed and every node object |
| `Deletion.DeleteEffect` | tinygraph.js:150-168 | the node leaves `nodes` and no other node does; no port or record refers to the node's ports; every other link and record survives; agreement holds; no status changes |
| `Deletion.DeleteKeepsOrder` | tinygraph.js:162 | the other nodes keep their places and order |
| `Deletion.DeleteValues` | tinygraph.js:150-168 | every input the node fed and every connected input of the node holds null; every output and every other input keeps its value |
| `Engine.TinyGraph.constructor` | tinygraph.js:20-29 | no node, no record, no type |
| `Engine.TinyGraph.RegisterNodeType` | tinygraph.js:529-541 | leaves the registry `Registry.Register` describes and keeps ids unique |
| `Engine.TinyGraph.CreateNodeOfType` | tinygraph.js:502-508 | leaves the graph `Graph.Created` describes |
| `Engine.TinyGraph.Compute` | tinygraph.js:182-191 | leaves the world `Graph.Pass` describes |
| `Engine.TinyGraph.ResetStatuses` | tinygraph.js:184-186 | the loop leaves the world `Graph.ResetAll` describes |
| `Engine.TinyGraph.WalkRoots` | tinygraph.js:190 | the loop leaves the world `Graph.Walk` describes |
| `Engine.TinyGraph.ComputeNode` | nodes/GraphNode.js:184-196 | the node's `compute()` result and world are `Catalogue.Compute`'s |
| `Engine.TinyGraph.ComputeNodeRecursive` | tinygraph.js:194-206 | leaves the world `Graph.Visit` describes |
| `Engine.TinyGraph.ComputeOutputs` | tinygraph.js:199-205 | the outer loop visits every target of the node, in order |
| `Engine.TinyGraph.ComputeOwners` | tinygraph.js:200-204 | the inner loop visits the owner of each listed input, in order |
| `Engine.TinyGraph.AddConnection` | tinygraph.js:270-282 | leaves the graph `Graph.Added` describes |
| `Engine.TinyGraph.RemoveConnection` | tinygraph.js:283-295 | leaves the graph `Graph.Removed` describes |
| `Engine.TinyGraph.DeleteNode` | tinygraph.js:150-168 | the loops and the filter leave the graph `Deletion.Deleted` describes |
| `Engine.TinyGraph.SeverPort` | tinygraph.js:154-159 | the inner loop over the snapshot leaves the graph `Deletion.SeverPeers` describes |
| `Engine.TinyGraph.StartConnection` | tinygraph.js:208-212 | only the pending wire changes |
| `Engine.TinyGraph.EditConnection` | tinygraph.js:265-268 | the connection is removed and its output becomes the pending wire |
| `Engine.TinyGraph.ConnectionDrop` | tinygraph.js:230-263 | leaves the graph `Graph.DroppedAll` describes, every hit input dropped on in turn (none on a miss); the pending wire ends |
| `Engine.TinyGraph.DropOn` | tinygraph.js:242-247 | the hit branch leaves the graph `Graph.Dropped` describes |
| `Engine.TinyGraph.EditValue` | nodes/IO/NumberIO.js:13-16 | leaves the graph `Graph.Edited` describes |
| `Engine.TinyGraph.BuildMenuTree` | tinygraph.js:393-408 | returns the tree `Menu.MenuTree` describes |
| `Text.UpperPointwise` | nodes/transform/ToUpper.js:13 | upper-casing keeps the length, maps each character alone and leaves nothing lower-case |
| `Text.LowerPointwise` | nodes/transform/ToLower.js:16 | lower-casing keeps the length, maps each character alone and leaves nothing upper-case |
| `Text.UpperIdempotent` | nodes/transform/ToUpper.js:13 | upper-casing twice is upper-casing once |
| `Text.LowerIdempotent` | nodes/transform/ToLower.js:16 | lower-casing twice is lower-casing once |
| `Text.Includes` | tinygraph.js:435-436 | `includes` holds exactly when the text occurs at some position |
| `Text.Slice` | nodes/data/Substring.js:36 | `slice` gives a contiguous piece, exactly `s[start..end]` in range, empty when the end precedes the start |
| `Text.Without` | tinygraph.js:289 | `filter(y => y !== x)` keeps exactly the other elements, in order |
| `Text.WithoutOnce` | tinygraph.js:162 | filtering out an element that occurs once removes just that occurrence |

## Left out

- DOM work is not modelled. This covers the canvas, drawing, node and
  socket elements, dragging, panning, selection boxes, keyboard shortcuts,
  positions and console logging. It is presentation, with no effect on the
  graph's data.
- `_onConnectionDrop`'s hit test over socket rectangles is replaced by a
  `targets` parameter: the first input of each node under the pointer, in
  `nodes` order. Geometry is DOM state.
- `editConnection`'s and `startConnection`'s event listeners are not
  modelled, nor is the drag preview.
- Deletion from the selection (the Delete key handler) is not modelled; it
  calls `deleteNode` on each selected node, and `deleteNode` is modelled.
- Engine.TinyGraph.constructor: models only the data fields. The
  constructor's `RegisterNodes(this)` call is `Nodes.RegisterNodes`, run
  next.
- Numbers are reals: no IEEE rounding, no NaN or infinities. NaN appears
  only as `None` from the `Env` coercions.
- `String(number)`, `Number`, `parseFloat`, `btoa` and `atob` are browser
  built-ins. They are `Env` parameters.
- Base64Nodes.CodecRoundTrip: holds only for an `Env` whose `atob` inverts
  `btoa`, which the browser's pair does on the texts `btoa` accepts.
- Case mapping covers ASCII letters only. Unicode case rules are not part
  of the model.
- SubstringNode.OnCompute: `start` and `length` count characters (Unicode
  scalar values), where JavaScript's `slice` and `length` count UTF-16 code
  units. The two agree on text without characters beyond U+FFFF; lone
  surrogates cannot be represented.
- SubstringNode.PieceLaws: the same; `SubstringNode.Piece` and its default
  length `input.length` count characters, not UTF-16 code units.
- Text.Slice: indices count characters, not UTF-16 code units, as above.
- Menu.Trim: white space is the ASCII and Latin-1 set and the byte-order
  mark. JavaScript's `trim` also strips U+1680, U+2000 to U+200A, U+2028,
  U+2029, U+202F, U+205F and U+3000.
- Menu.TrimLaws: the same white space set as `Menu.Trim`.
- `_computeNodeRecursive` on a cyclic graph recurses without end.
  - Every member that computes requires a rank: each node ranks above the
    nodes it feeds.
  - Non-termination is not modelled.
  - `Graph.SelfLoopUnranked` shows the source allows such a graph.
- Graph.VisitPruned: a cut of the paths is allowed below any node whose
  kind can fail; whether that node rejects depends on the inputs it reads
  at that moment, which the cut does not track. `Graph.Visit` states the
  other half: a node that rejects ends its visit.
- Graph.PassPruned: the same, for every root.
- GraphNode.SetOutputValue: does not model the `inputIO.node.compute()`
  branch. It needs a node with an `update` function, and no class has one.
- The JavaScript object order of `_buildMenuTree`'s groups is modelled as
  first-insertion order. The special handling of integer-like keys is not
  modelled; no registered path uses one.
- The `__items__` key is an entry of its own in the model; a group named
  `__items__` would clash with it in the source.
- The widget ports' `validate`, `onMount` and `onSetCanEdit` are not
  modelled: the engine never calls them. The same goes for `canEdit`.
- NumberIO's `onSetValue` writes only to the input element; StringIO's and
  TextboxIO's are the same. Only the dropdown's `onSetValue` changes what
  `getValue` returns, and that one is modelled.
- `nodes/constants/ConstantBase.js` is not part of this model: the
  registered constants do not use it.
- IO and GraphNode objects are records in a store keyed by reference, not
  Dafny objects. Aliasing is modelled through the references. The IO
  methods are methods over the store.
