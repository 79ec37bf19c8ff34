/** The context menu's data side (tinygraph.js): `_buildMenuTree` turns the
    registry's paths into a tree of groups, and `buildMenu` decides which
    groups and entries a search filter leaves visible. */
module Menu {
  import Text
  import opened Registry

  /** `path.split("/")`: the pieces between slashes, empty ones included. */
  function Split(s: string): (r: seq<string>)
    ensures |r| >= 1
    ensures forall p | p in r :: '/' !in p
    decreases |s|
  {
    if '/' !in s then [s]
    else
      var i := Text.IndexOf(s, '/');
      [s[..i]] + Split(s[i + 1..])
  }

  /** `path.replace(/^\/|\/$/g, "")`: one leading and one trailing slash
      removed. */
  function Strip(s: string): string {
    var a := if |s| > 0 && s[0] == '/' then s[1..] else s;
    if |a| > 0 && a[|a| - 1] == '/' then a[..|a| - 1] else a
  }

  /** The loop's `if (!part) continue`: the non-empty pieces, in order. */
  function NonEmpty(parts: seq<string>): (r: seq<string>)
    ensures forall p | p in r :: p in parts && p != ""
    ensures (forall p | p in parts :: p != "") ==> r == parts
  {
    if parts == [] then []
    else
      assert forall p | p in parts[1..] :: p in parts;
      assert parts[0] in parts;
      if parts[0] == "" then NonEmpty(parts[1..])
      else [parts[0]] + NonEmpty(parts[1..])
  }

  /** The group names a registry path leads through. */
  function Segments(path: string): seq<string> {
    NonEmpty(Split(Strip(path)))
  }

  /** A well-formed group name: non-empty and free of slashes. */
  predicate IsName(s: string) {
    s != "" && '/' !in s
  }

  /** The names joined by slashes. */
  function Joined(names: seq<string>): string {
    if |names| == 0 then ""
    else if |names| == 1 then names[0]
    else names[0] + "/" + Joined(names[1..])
  }

  lemma {:induction false} SplitJoined(names: seq<string>)
    requires names != [] && forall k | 0 <= k < |names| :: '/' !in names[k]
    ensures Split(Joined(names)) == names
  {
    if |names| > 1 {
      var s := Joined(names);
      var head := names[0];
      var tail := Joined(names[1..]);
      assert '/' in s && Text.IndexOf(s, '/') == |head| && s[|head| + 1..] == tail by {
        assert s == head + ("/" + tail);
        assert s[|head|] == '/' && s[..|head|] == head;
      }
      SplitJoined(names[1..]);
    }
  }

  /** Stripping a path written "/x/" gives back `x`. */
  lemma StripWrapped(x: string)
    ensures Strip("/" + x + "/") == x
  {
    var s := "/" + x + "/";
    assert s[0] == '/' && s[1..] == x + "/";
    var a := s[1..];
    assert a[|a| - 1] == '/' && a[..|a| - 1] == x;
  }

  /** Splitting a path written "/a/b/" gives back its names, so a path of
      "/" leads through no group at all. */
  lemma SegmentsOfPath(names: seq<string>)
    requires forall k | 0 <= k < |names| :: IsName(names[k])
    ensures Segments("/" + Joined(names) + "/") == names
  {
    StripWrapped(Joined(names));
    if names == [] {
      assert Split("") == [""];
      assert NonEmpty([""]) == [];
    } else {
      SplitJoined(names);
      assert forall p | p in names :: p != "";
    }
  }

  /** A single name written "/name/" leads to the group of that name. */
  lemma SegmentsOfName(x: string, path: string)
    requires IsName(x) && path == "/" + x + "/"
    ensures Segments(path) == [x]
  {
    SegmentsOfPath([x]);
  }

  /** A menu entry: `{ id, name }`. */
  datatype Item = Item(id: string, name: string)

  /** A group object of the tree: its `__items__` and its sub-groups in
      key-insertion order. */
  datatype Group = Group(items: seq<Item>, subgroups: seq<Entry>)
  datatype Entry = Entry(key: string, group: Group)

  const Empty := Group([], [])

  /** Where `key` sits among the sub-groups, or their count when absent. */
  function KeyIndex(es: seq<Entry>, key: string): (i: nat)
    ensures i <= |es|
    ensures i < |es| ==> es[i].key == key
    ensures forall j | 0 <= j < i :: es[j].key != key
  {
    if es == [] then 0
    else if es[0].key == key then 0
    else 1 + KeyIndex(es[1..], key)
  }

  /** One pass of the outer loop: walk (creating as needed) the groups
      named by `names`, then push the item on that group's `__items__`. */
  function Insert(g: Group, names: seq<string>, item: Item): Group
    decreases |names|
  {
    if names == [] then g.(items := g.items + [item])
    else
      var i := KeyIndex(g.subgroups, names[0]);
      if i < |g.subgroups| then
        g.(subgroups := g.subgroups[i := Entry(names[0], Insert(g.subgroups[i].group, names[1..], item))])
      else
        g.(subgroups := g.subgroups + [Entry(names[0], Insert(Empty, names[1..], item))])
  }

  /** `_buildMenuTree()` over the registry in insertion order. */
  function MenuTree(reg: seq<NodeType>): Group {
    if reg == [] then Empty
    else
      var e := reg[|reg| - 1];
      Insert(MenuTree(reg[..|reg| - 1]), Segments(e.path), Item(e.id, e.name))
  }

  /** The `__items__` of the group reached by `names` (none when there is
      no such group). */
  function ItemsAt(g: Group, names: seq<string>): seq<Item>
    decreases |names|
  {
    if names == [] then g.items
    else
      var i := KeyIndex(g.subgroups, names[0]);
      if i < |g.subgroups| then ItemsAt(g.subgroups[i].group, names[1..]) else []
  }

  /** The registered types whose path leads to `names`, in registration
      order. */
  function Placed(reg: seq<NodeType>, names: seq<string>): seq<Item> {
    if reg == [] then []
    else
      var e := reg[|reg| - 1];
      Placed(reg[..|reg| - 1], names) + (if Segments(e.path) == names then [Item(e.id, e.name)] else [])
  }

  /** Placement distributes over consecutive registrations. */
  lemma {:induction false} PlacedConcat(a: seq<NodeType>, b: seq<NodeType>, names: seq<string>)
    ensures Placed(a + b, names) == Placed(a, names) + Placed(b, names)
    decreases |b|
  {
    if b == [] {
      assert a + b == a;
    } else {
      var b0 := b[..|b| - 1];
      assert (a + b)[..|a + b| - 1] == a + b0;
      assert (a + b)[|a + b| - 1] == b[|b| - 1];
      PlacedConcat(a, b0, names);
    }
  }

  /** Registrations in four runs, each run sharing a path "/x/" of one
      name: each of the four groups holds exactly its run's items, in
      order, and every other group holds nothing. */
  lemma FourRuns(a: seq<NodeType>, b: seq<NodeType>, c: seq<NodeType>, d: seq<NodeType>,
                 xa: string, xb: string, xc: string, xd: string, names: seq<string>)
    requires IsName(xa) && IsName(xb) && IsName(xc) && IsName(xd)
    requires forall k | 0 <= k < |a| :: a[k].path == "/" + xa + "/"
    requires forall k | 0 <= k < |b| :: b[k].path == "/" + xb + "/"
    requires forall k | 0 <= k < |c| :: c[k].path == "/" + xc + "/"
    requires forall k | 0 <= k < |d| :: d[k].path == "/" + xd + "/"
    ensures ItemsAt(MenuTree(a + b + c + d), names) ==
      (if [xa] == names then Items(a) else []) + (if [xb] == names then Items(b) else []) +
      (if [xc] == names then Items(c) else []) + (if [xd] == names then Items(d) else [])
  {
    MenuTreeItems(a + b + c + d, names);
    PlacedConcat(a + b + c, d, names);
    PlacedConcat(a + b, c, names);
    PlacedConcat(a, b, names);
    SegmentsOfName(xa, "/" + xa + "/");
    PlacedUniform(a, "/" + xa + "/", names);
    SegmentsOfName(xb, "/" + xb + "/");
    PlacedUniform(b, "/" + xb + "/", names);
    SegmentsOfName(xc, "/" + xc + "/");
    PlacedUniform(c, "/" + xc + "/", names);
    SegmentsOfName(xd, "/" + xd + "/");
    PlacedUniform(d, "/" + xd + "/", names);
  }

  /** Registrations that share one path all land in that path's group. */
  lemma {:induction false} PlacedUniform(reg: seq<NodeType>, path: string, names: seq<string>)
    requires forall k | 0 <= k < |reg| :: reg[k].path == path
    ensures Placed(reg, names) == if Segments(path) == names then Items(reg) else []
  {
    if |reg| > 0 {
      var r0 := reg[..|reg| - 1];
      var e := reg[|reg| - 1];
      assert e.path == path;
      assert forall k | 0 <= k < |r0| :: r0[k].path == path by {
        assert forall k | 0 <= k < |r0| :: r0[k] == reg[k];
      }
      PlacedUniform(r0, path, names);
      assert Placed(reg, names) == Placed(r0, names) + (if Segments(path) == names then [Item(e.id, e.name)] else []);
      if Segments(path) == names {
        ItemsLast(reg);
      }
    } else {
      assert Items(reg) == [];
    }
  }

  /** Two entry lists whose keys agree up to the shorter length, and whose
      extra entries do not carry `key`, find `key` at the same index, or
      both fail to find it. */
  lemma {:induction false} KeyIndexStable(es: seq<Entry>, es': seq<Entry>, key: string)
    requires |es| <= |es'|
    requires forall k | 0 <= k < |es| :: es'[k].key == es[k].key
    requires forall k | |es| <= k < |es'| :: es'[k].key != key
    ensures KeyIndex(es', key) == if KeyIndex(es, key) < |es| then KeyIndex(es, key) else |es'|
  {
    var i := KeyIndex(es, key);
    var i' := KeyIndex(es', key);
    if i < |es| {
      assert es'[i].key == key;
    }
    if i' < |es'| {
      assert es'[i'].key == key;
      if i' < |es| {
        assert es[i'].key == key;
      }
    }
  }

  /** A new key appended after the others is found at the end. */
  lemma KeyIndexAppend(es: seq<Entry>, e: Entry)
    requires KeyIndex(es, e.key) == |es|
    ensures KeyIndex(es + [e], e.key) == |es|
  {
    var es' := es + [e];
    assert es'[|es|] == e;
    assert forall j | 0 <= j < |es| :: es'[j] == es[j];
  }

  /** Inserting at `at` appends the item to that group and changes no other
      group's items. */
  lemma {:induction false} InsertItems(g: Group, at: seq<string>, item: Item, names: seq<string>)
    ensures ItemsAt(Insert(g, at, item), names) == ItemsAt(g, names) + (if at == names then [item] else [])
    decreases |at|
  {
    if at != [] && names != [] {
      var i := KeyIndex(g.subgroups, at[0]);
      var g' := Insert(g, at, item);
      assert (at[1..] == names[1..] && at[0] == names[0]) == (at == names);
      if names[0] == at[0] {
        if i < |g.subgroups| {
          InsertItems(g.subgroups[i].group, at[1..], item, names[1..]);
          KeyIndexStable(g.subgroups, g'.subgroups, names[0]);
        } else {
          InsertItems(Empty, at[1..], item, names[1..]);
          KeyIndexAppend(g.subgroups, Entry(at[0], Insert(Empty, at[1..], item)));
        }
      } else {
        KeyIndexStable(g.subgroups, g'.subgroups, names[0]);
      }
    }
  }

  /** Every registered type sits in the `__items__` of the group its path
      names, and those items are exactly the types with that path, in
      registration order (a path of "/" places the item at the root). */
  lemma {:induction false} MenuTreeItems(reg: seq<NodeType>, names: seq<string>)
    ensures ItemsAt(MenuTree(reg), names) == Placed(reg, names)
  {
    if reg != [] {
      var e := reg[|reg| - 1];
      MenuTreeItems(reg[..|reg| - 1], names);
      InsertItems(MenuTree(reg[..|reg| - 1]), Segments(e.path), Item(e.id, e.name), names);
    }
  }

  /** Every item of a group's subtree, group by group. */
  function Flatten(g: Group): seq<Item>
    decreases g
  {
    g.items + FlattenAll(g.subgroups)
  }

  function FlattenAll(es: seq<Entry>): seq<Item>
    decreases es
  {
    if es == [] then [] else Flatten(es[0].group) + FlattenAll(es[1..])
  }

  lemma {:induction false} FlattenAllAppend(es: seq<Entry>, e: Entry)
    ensures FlattenAll(es + [e]) == FlattenAll(es) + Flatten(e.group)
  {
    if es != [] {
      assert (es + [e])[1..] == es[1..] + [e];
      FlattenAllAppend(es[1..], e);
    }
    else {
      assert [e][1..] == [];
    }
  }

  lemma {:induction false} FlattenAllConcat(a: seq<Entry>, b: seq<Entry>)
    ensures FlattenAll(a + b) == FlattenAll(a) + FlattenAll(b)
  {
    if a != [] {
      assert (a + b)[1..] == a[1..] + b;
      FlattenAllConcat(a[1..], b);
    } else {
      assert a + b == b;
    }
  }

  /** Replacing one entry replaces its items and keeps the others. */
  lemma FlattenAllUpdate(es: seq<Entry>, i: nat, e: Entry)
    requires i < |es|
    ensures multiset(FlattenAll(es[i := e])) + multiset(Flatten(es[i].group)) == multiset(FlattenAll(es)) + multiset(Flatten(e.group))
  {
    var pre := es[..i];
    var post := es[i + 1..];
    assert es == pre + ([es[i]] + post);
    assert es[i := e] == pre + ([e] + post);
    FlattenAllConcat(pre, [es[i]] + post);
    FlattenAllConcat(pre, [e] + post);
    FlattenAllConcat([es[i]], post);
    FlattenAllConcat([e], post);
    assert FlattenAll([e]) == Flatten(e.group) by {
      assert [e][1..] == [];
    }
    assert FlattenAll([es[i]]) == Flatten(es[i].group) by {
      assert [es[i]][1..] == [];
    }
  }

  lemma Cancel<T>(a: multiset<T>, b: multiset<T>, c: multiset<T>)
    requires a + c == b + c
    ensures a == b
  {
    forall x ensures a[x] == b[x] {
      assert (a + c)[x] == (b + c)[x];
    }
  }

  /** An insertion adds exactly one item to the tree. */
  lemma {:induction false} InsertFlatten(g: Group, at: seq<string>, item: Item)
    ensures multiset(Flatten(Insert(g, at, item))) == multiset(Flatten(g)) + multiset{item}
    decreases |at|, 1
  {
    if at == [] {
      assert Flatten(Insert(g, at, item)) == g.items + [item] + FlattenAll(g.subgroups);
    } else if KeyIndex(g.subgroups, at[0]) < |g.subgroups| {
      InsertFlattenInto(g, at, item);
    } else {
      InsertFlattenNew(g, at, item);
    }
  }

  /** Insertion below an existing group. */
  lemma {:induction false} InsertFlattenInto(g: Group, at: seq<string>, item: Item)
    requires at != [] && KeyIndex(g.subgroups, at[0]) < |g.subgroups|
    ensures multiset(Flatten(Insert(g, at, item))) == multiset(Flatten(g)) + multiset{item}
    decreases |at|, 0
  {
    var g' := Insert(g, at, item);
    var i := KeyIndex(g.subgroups, at[0]);
    var child := g.subgroups[i].group;
    var child' := Insert(child, at[1..], item);
    InsertFlatten(child, at[1..], item);
    var subs' := g.subgroups[i := Entry(at[0], child')];
    assert multiset(FlattenAll(subs')) == multiset(FlattenAll(g.subgroups)) + multiset{item} by {
      FlattenAllUpdate(g.subgroups, i, Entry(at[0], child'));
      var a := multiset(FlattenAll(subs'));
      var b := multiset(FlattenAll(g.subgroups));
      Cancel(a, b + multiset{item}, multiset(Flatten(child)));
    }
    assert Flatten(g') == g.items + FlattenAll(subs') by {
      assert g' == Group(g.items, subs');
    }
    assert Flatten(g) == g.items + FlattenAll(g.subgroups);
  }

  /** Insertion that opens a new group. */
  lemma {:induction false} InsertFlattenNew(g: Group, at: seq<string>, item: Item)
    requires at != [] && KeyIndex(g.subgroups, at[0]) == |g.subgroups|
    ensures multiset(Flatten(Insert(g, at, item))) == multiset(Flatten(g)) + multiset{item}
    decreases |at|, 0
  {
    var made := Insert(Empty, at[1..], item);
    assert multiset(Flatten(made)) == multiset{item} by {
      InsertFlatten(Empty, at[1..], item);
      assert Flatten(Empty) == [];
    }
    assert Flatten(Insert(g, at, item)) == g.items + (FlattenAll(g.subgroups) + Flatten(made)) by {
      FlattenAllAppend(g.subgroups, Entry(at[0], made));
    }
  }

  /** The registry's items, in order. */
  function Items(reg: seq<NodeType>): (r: seq<Item>)
    ensures |r| == |reg| && forall i | 0 <= i < |reg| :: r[i] == Item(reg[i].id, reg[i].name)
  {
    seq(|reg|, i requires 0 <= i < |reg| => Item(reg[i].id, reg[i].name))
  }

  /** The tree holds each registered type exactly once: its items are the
      registry's, counted with multiplicity. */
  lemma {:induction false} MenuTreeHoldsAll(reg: seq<NodeType>)
    ensures multiset(Flatten(MenuTree(reg))) == multiset(Items(reg))
  {
    if reg != [] {
      var init := reg[..|reg| - 1];
      var e := reg[|reg| - 1];
      var t := MenuTree(init);
      var it := Item(e.id, e.name);
      MenuTreeHoldsAll(init);
      InsertFlatten(t, Segments(e.path), it);
      assert MenuTree(reg) == Insert(t, Segments(e.path), it);
      ItemsLast(reg);
    }
  }

  lemma ItemsLast(reg: seq<NodeType>)
    requires reg != []
    ensures Items(reg) == Items(reg[..|reg| - 1]) + [Item(reg[|reg| - 1].id, reg[|reg| - 1].name)]
  {
    var a := Items(reg);
    var b := Items(reg[..|reg| - 1]) + [Item(reg[|reg| - 1].id, reg[|reg| - 1].name)];
    assert |a| == |b|;
    forall i | 0 <= i < |a|
      ensures a[i] == b[i]
    {
      if i < |reg| - 1 {
        assert reg[..|reg| - 1][i] == reg[i];
      }
    }
  }

  /** The white space `String.prototype.trim` removes, restricted to the
      ASCII and Latin-1 characters and the byte-order mark. */
  predicate IsSpace(c: char) {
    c == ' ' || c == '\t' || c == '\n' || c == '\r' || c == '\U{B}' || c == '\U{C}' || c == '\U{A0}' || c == '\U{FEFF}'
  }

  /** `s.trimStart()`. */
  function TrimStart(s: string): string
    decreases |s|
  {
    if s != [] && IsSpace(s[0]) then TrimStart(s[1..]) else s
  }

  /** `s.trimEnd()`. */
  function TrimEnd(s: string): string
    decreases |s|
  {
    if s != [] && IsSpace(s[|s| - 1]) then TrimEnd(s[..|s| - 1]) else s
  }

  /** `s.trim()`: leading and trailing white space removed. */
  function Trim(s: string): string {
    TrimEnd(TrimStart(s))
  }

  /** `trimStart` drops a run of `i` white-space characters from the
      front and stops at the first other character. */
  lemma {:induction false} TrimStartLaws(s: string) returns (i: nat)
    ensures i <= |s| && TrimStart(s) == s[i..] && forall k | 0 <= k < i :: IsSpace(s[k])
    ensures |TrimStart(s)| > 0 ==> !IsSpace(TrimStart(s)[0])
    decreases |s|
  {
    if s != [] && IsSpace(s[0]) {
      var i' := TrimStartLaws(s[1..]);
      i := i' + 1;
      assert TrimStart(s) == s[i..];
      forall k | 0 <= k < i ensures IsSpace(s[k]) {
        if k > 0 { assert s[k] == s[1..][k - 1]; }
      }
    } else {
      i := 0;
      assert TrimStart(s) == s[0..];
    }
  }

  /** `trimEnd` keeps the first `j` characters: it drops a run of white
      space from the back and stops at the last other character. */
  lemma {:induction false} TrimEndLaws(s: string) returns (j: nat)
    ensures j <= |s| && TrimEnd(s) == s[..j] && forall k | j <= k < |s| :: IsSpace(s[k])
    ensures |TrimEnd(s)| > 0 ==> !IsSpace(TrimEnd(s)[|TrimEnd(s)| - 1])
    decreases |s|
  {
    if s != [] && IsSpace(s[|s| - 1]) {
      var t := s[..|s| - 1];
      j := TrimEndLaws(t);
      assert TrimEnd(s) == s[..j];
      forall k | j <= k < |s| ensures IsSpace(s[k]) {
        if k < |t| { assert s[k] == t[k]; }
      }
    } else {
      j := |s|;
      assert TrimEnd(s) == s[..|s|];
    }
  }

  /** Trimming keeps a contiguous piece of the text and drops only white
      space around it. */
  lemma TrimLaws(s: string)
    ensures exists i, j ::
      && 0 <= i <= j <= |s| && Trim(s) == s[i..j]
      && (forall k | 0 <= k < i :: IsSpace(s[k])) && (forall k | j <= k < |s| :: IsSpace(s[k]))
  {
    var i := TrimStartLaws(s);
    var u := s[i..];
    var j := TrimEndLaws(u);
    assert Trim(s) == s[i..i + j] by {
      assert u[..j] == s[i..i + j];
    }
    assert forall k | i + j <= k < |s| :: IsSpace(s[k]) by {
      forall k | i + j <= k < |s| ensures IsSpace(s[k]) {
        assert s[k] == u[k - i];
      }
    }
  }

  /** What trimming keeps neither starts nor ends with white space. */
  lemma TrimEdges(s: string)
    ensures |Trim(s)| > 0 ==> !IsSpace(Trim(s)[0]) && !IsSpace(Trim(s)[|Trim(s)| - 1])
  {
    var u := TrimStart(s);
    var i := TrimStartLaws(s);
    var j := TrimEndLaws(u);
    if |Trim(s)| > 0 {
      assert Trim(s)[0] == u[0];
    }
  }

  /** The filter the search box hands to `buildMenu`:
      `searchBox.value.trim().toLowerCase()`. */
  function Query(raw: string): string {
    Text.Lower(Trim(raw))
  }

  /** An empty or all-blank search shows every entry; otherwise matching is
      by lower-cased name or id, so the query itself is already lower-case
      and unchanged by lower-casing again. */
  lemma QueryLaws(raw: string)
    ensures (forall k | 0 <= k < |raw| :: IsSpace(raw[k])) ==> Query(raw) == ""
    ensures Text.Lower(Query(raw)) == Query(raw)
    ensures |Query(raw)| <= |raw|
  {
    TrimLaws(raw);
    TrimEdges(raw);
    Text.LowerPointwise(Trim(raw));
    Text.LowerIdempotent(Trim(raw));
  }

  /** The entry test of `buildMenu`: an empty filter shows everything;
      otherwise the lower-cased name or id must contain it. */
  predicate Matches(item: Item, filter: string) {
    filter == "" || Text.Includes(Text.Lower(item.name), filter) || Text.Includes(Text.Lower(item.id), filter)
  }

  /** What `buildMenu(node, …, filter)` returns: some item of the group
      matches, or some sub-group is shown. */
  predicate Shown(g: Group, filter: string)
    decreases g
  {
    || (exists it | it in g.items :: Matches(it, filter))
    || (exists k | 0 <= k < |g.subgroups| :: Shown(g.subgroups[k].group, filter))
  }

  /** A group is shown exactly when some item in its subtree matches. */
  lemma {:induction false} ShownIff(g: Group, filter: string)
    ensures Shown(g, filter) <==> exists it | it in Flatten(g) :: Matches(it, filter)
    decreases g
  {
    forall k | 0 <= k < |g.subgroups|
      ensures Shown(g.subgroups[k].group, filter) <==> exists it | it in Flatten(g.subgroups[k].group) :: Matches(it, filter)
    {
      ShownIff(g.subgroups[k].group, filter);
    }
    FlattenAllMember(g.subgroups);
  }

  /** An item is in the flattened entries exactly when it is in one of
      them. */
  lemma {:induction false} FlattenAllMember(es: seq<Entry>)
    ensures forall it :: it in FlattenAll(es) <==> exists k | 0 <= k < |es| :: it in Flatten(es[k].group)
  {
    if es != [] {
      FlattenAllMember(es[1..]);
      forall it | it in FlattenAll(es)
        ensures exists k | 0 <= k < |es| :: it in Flatten(es[k].group)
      {
        if it !in Flatten(es[0].group) {
          assert it in FlattenAll(es[1..]);
          var k :| 0 <= k < |es[1..]| && it in Flatten(es[1..][k].group);
          assert es[k + 1] == es[1..][k];
        }
      }
      forall it, k | 0 <= k < |es| && it in Flatten(es[k].group)
        ensures it in FlattenAll(es)
      {
        if k > 0 {
          assert es[1..][k - 1] == es[k];
        }
      }
    }
  }

  /** The items of `xs` the filter lets through, in order. */
  function Matching(xs: seq<Item>, filter: string): seq<Item> {
    if xs == [] then []
    else Matching(xs[..|xs| - 1], filter) + (if Matches(xs[|xs| - 1], filter) then [xs[|xs| - 1]] else [])
  }

  /** The filter keeps exactly the matching items. */
  lemma {:induction false} MatchingMember(xs: seq<Item>, filter: string)
    ensures forall it :: it in Matching(xs, filter) <==> it in xs && Matches(it, filter)
  {
    if xs != [] {
      MatchingMember(xs[..|xs| - 1], filter);
      assert xs == xs[..|xs| - 1] + [xs[|xs| - 1]];
    }
  }

  lemma {:induction false} MatchingConcat(a: seq<Item>, b: seq<Item>, filter: string)
    ensures Matching(a + b, filter) == Matching(a, filter) + Matching(b, filter)
    decreases |b|
  {
    if b == [] {
      assert a + b == a;
    } else {
      var b0 := b[..|b| - 1];
      assert (a + b)[..|a + b| - 1] == a + b0;
      MatchingConcat(a, b0, filter);
    }
  }

  /** The first loop of `buildMenu`: the group's own items that match, in
      order. */
  method MatchingItems(items: seq<Item>, filter: string) returns (shown: seq<Item>)
    ensures shown == Matching(items, filter)
  {
    shown := [];
    var i := 0;
    while i < |items|
      invariant 0 <= i <= |items|
      invariant shown == Matching(items[..i], filter)
    {
      assert items[..i + 1][..i] == items[..i];
      if Matches(items[i], filter) {
        shown := shown + [items[i]];
      }
      i := i + 1;
    }
    assert items[..i] == items;
  }

  /** `buildMenu`'s walk: every item of the group is checked against the filter and the matching
      ones are listed, then every sub-group is built recursively. The
      entries listed, depth first, are exactly the matching items of the
      subtree in tree order; the result says whether anything was listed. */
  method BuildMenu(g: Group, filter: string) returns (hasVisible: bool, shown: seq<Item>)
    ensures shown == Matching(Flatten(g), filter)
    ensures hasVisible == Shown(g, filter) && (hasVisible <==> shown != [])
    decreases g
  {
    var own := MatchingItems(g.items, filter);
    hasVisible := own != [];
    var rest := [];
    var j := 0;
    while j < |g.subgroups|
      invariant 0 <= j <= |g.subgroups|
      invariant rest == Matching(FlattenAll(g.subgroups[..j]), filter)
      invariant hasVisible <==> own != [] || rest != []
    {
      var childVisible, childShown := BuildMenu(g.subgroups[j].group, filter);
      MatchingStep(g.subgroups, j, filter);
      rest := rest + childShown;
      hasVisible := hasVisible || childVisible;
      j := j + 1;
    }
    shown := own + rest;
    MatchingFlatten(g, filter);
    ShownMatching(g, filter);
  }

  lemma MatchingStep(es: seq<Entry>, j: nat, filter: string)
    requires j < |es|
    ensures Matching(FlattenAll(es[..j + 1]), filter) == Matching(FlattenAll(es[..j]), filter) + Matching(Flatten(es[j].group), filter)
  {
    assert es[..j + 1] == es[..j] + [es[j]];
    FlattenAllAppend(es[..j], es[j]);
    MatchingConcat(FlattenAll(es[..j]), Flatten(es[j].group), filter);
  }

  lemma MatchingFlatten(g: Group, filter: string)
    ensures Matching(Flatten(g), filter) == Matching(g.items, filter) + Matching(FlattenAll(g.subgroups[..|g.subgroups|]), filter)
  {
    assert g.subgroups[..|g.subgroups|] == g.subgroups;
    MatchingConcat(g.items, FlattenAll(g.subgroups), filter);
  }

  /** A group is shown exactly when its subtree has a matching item. */
  lemma ShownMatching(g: Group, filter: string)
    ensures Shown(g, filter) <==> Matching(Flatten(g), filter) != []
  {
    ShownIff(g, filter);
    MatchingMember(Flatten(g), filter);
    if Matching(Flatten(g), filter) != [] {
      assert Matching(Flatten(g), filter)[0] in Matching(Flatten(g), filter);
    }
  }
}
