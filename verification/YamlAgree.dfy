/**
 The two walkers of one YAML event stream agree (yaml.rs, yaml_index.rs): the editor's
 index lists exactly the scalars of the tree that the loader builds, with their paths
 and positions.
*/
module YamlAgree {
  import opened Wrappers
  import opened Values
  import opened PythonEq
  import opened YamlLoader
  import opened YamlIndex

  /** One scalar of a document, by its path. */
  datatype Spot = Spot(path: KeyPath, scalar: Scalar, mark: Mark)

  /** The scalars of a document, with the keys above them as `name` has them. */
  function Spots(t: Syntax, path: KeyPath, name: KeySyntax -> string): seq<Spot>
    decreases t
  {
    match t
    case Leaf(s, _, m) => [Spot(path, s, m)]
    case Ref(_, _) => []
    case Items(_, _, _, items, _) => ItemSpots(items, path, name, 0)
    case Pairs(_, _, _, pairs, _) => PairSpots(pairs, path, name)
  }

  function ItemSpots(items: seq<Syntax>, path: KeyPath, name: KeySyntax -> string, n: nat): seq<Spot>
    decreases items
  {
    if items == [] then []
    else Spots(items[0], path + [Index(n)], name) + ItemSpots(items[1..], path, name, n + 1)
  }

  function PairSpots(pairs: seq<Pair>, path: KeyPath, name: KeySyntax -> string): seq<Spot>
    decreases pairs
  {
    if pairs == [] then []
    else
      var p := pairs[0];
      assert p.value < p;
      Spots(p.value, path + [Name(name(p.key))], name) + PairSpots(pairs[1..], path, name)
  }

  // ---- the index ------------------------------------------------------------------------------

  /** The entries of an index that have a value: path, position, text, quoting. */
  function Valued(entries: seq<Listed>): seq<(KeyPath, ScalarValue)> {
    if entries == [] then []
    else (if entries[0].value.Some? then [(entries[0].path, entries[0].value.value)] else []) + Valued(entries[1..])
  }

  lemma {:induction false} ValuesAppend(a: seq<Listed>, b: seq<Listed>)
    ensures Valued(a + b) == Valued(a) + Valued(b)
    decreases |a|
  {
    if a == [] {
      assert a + b == b;
    } else {
      assert (a + b)[0] == a[0] && (a + b)[1..] == a[1..] + b;
      ValuesAppend(a[1..], b);
      var head := if a[0].value.Some? then [(a[0].path, a[0].value.value)] else [];
      assert Valued(a) == head + Valued(a[1..]) && Valued(a + b) == head + Valued(a[1..] + b);
      assert head + (Valued(a[1..]) + Valued(b)) == (head + Valued(a[1..])) + Valued(b);
    }
  }

  function ShownSpots(spots: seq<Spot>): (r: seq<(KeyPath, ScalarValue)>)
    ensures |r| == |spots|
    ensures forall i :: 0 <= i < |r| ==> r[i] == (spots[i].path, ShowScalar(spots[i].scalar, spots[i].mark))
  {
    seq(|spots|, i requires 0 <= i < |spots| => (spots[i].path, ShowScalar(spots[i].scalar, spots[i].mark)))
  }

  lemma {:induction false} IndexShows(t: Syntax, path: KeyPath, key: Option<Pos>, top: bool)
    requires NoAliases(t)
    ensures Valued(IndexOf(t, path, key, top)) == ShownSpots(Spots(t, path, KeyText))
    decreases t
  {
    var own := if top then [] else [Listed(path, key, None)];
    assert Valued(own) == [];
    match t {
      case Leaf(_, _, _) =>
      case Items(_, _, _, items, _) =>
        IndexShowsItems(items, path, 0);
        ValuesAppend(own, IndexItems(items, path, 0));
      case Pairs(_, _, _, pairs, _) =>
        IndexShowsPairs(pairs, path);
        ValuesAppend(own, IndexPairs(pairs, path));
    }
  }

  lemma {:induction false} IndexShowsItems(items: seq<Syntax>, path: KeyPath, n: nat)
    requires forall i :: 0 <= i < |items| ==> NoAliases(items[i])
    ensures Valued(IndexItems(items, path, n)) == ShownSpots(ItemSpots(items, path, KeyText, n))
    decreases items
  {
    if items != [] {
      IndexShows(items[0], path + [Index(n)], None, false);
      IndexShowsItems(items[1..], path, n + 1);
      ValuesAppend(IndexOf(items[0], path + [Index(n)], None, false), IndexItems(items[1..], path, n + 1));
    }
  }

  lemma {:induction false} IndexShowsPairs(pairs: seq<Pair>, path: KeyPath)
    requires forall i :: 0 <= i < |pairs| ==> pairs[i].key.KeyScalar? && NoAliases(pairs[i].value)
    ensures Valued(IndexPairs(pairs, path)) == ShownSpots(PairSpots(pairs, path, KeyText))
    decreases pairs
  {
    if pairs != [] {
      var p := pairs[0];
      assert p.value < p;
      var below, at := path + [Name(KeyText(p.key))], Some(PosOf(p.key.mark));
      IndexShows(p.value, below, at, false);
      IndexShowsPairs(pairs[1..], path);
      ValuesAppend(IndexOf(p.value, below, at, false), IndexPairs(pairs[1..], path));
    }
  }

  // ---- the tree ----------------------------------------------------------------------------------

  /** One scalar of a tree. */
  datatype TreeLeaf = TreeLeaf(path: KeyPath, node: Node)

  function Leaves(n: Node, path: KeyPath): seq<TreeLeaf>
    decreases n
  {
    match n.value
    case List(items) => ItemLeaves(items, path, 0)
    case Map(entries) => EntryLeaves(entries, path)
    case _ => [TreeLeaf(path, n)]
  }

  function ItemLeaves(items: seq<Node>, path: KeyPath, n: nat): seq<TreeLeaf>
    decreases items
  {
    if items == [] then [] else Leaves(items[0], path + [Index(n)]) + ItemLeaves(items[1..], path, n + 1)
  }

  function EntryLeaves(entries: seq<Entry>, path: KeyPath): seq<TreeLeaf>
    decreases entries
  {
    if entries == [] then []
    else
      var e := entries[0];
      assert e.node < e;
      Leaves(e.node, path + [Name(e.key)]) + EntryLeaves(entries[1..], path)
  }

  /** A key as it is stored: its value, printed. */
  function Printed(r: Resolver): KeySyntax -> string {
    (k: KeySyntax) => if k.KeyScalar? && Resolve(r, k.scalar).Ok? then r.pyStr(Resolve(r, k.scalar).value) else ""
  }

  predicate IsMergeKey(r: Resolver, k: KeySyntax) {
    k.KeyScalar? && Resolve(r, k.scalar) == Ok(Str("<<")) && k.scalar.style == Plain
  }

  /** No aliases, no `<<`; keys are scalars, stored under different names. */
  ghost predicate Clean(r: Resolver, t: Syntax)
    decreases t
  {
    match t
    case Leaf(_, _, _) => true
    case Ref(_, _) => false
    case Items(_, _, _, items, _) => forall i :: 0 <= i < |items| ==> Clean(r, items[i])
    case Pairs(_, _, _, pairs, _) =>
      && (forall i :: 0 <= i < |pairs| ==> CleanKey(r, pairs[i].key) && Clean(r, pairs[i].value))
      && (forall i, j :: 0 <= i < j < |pairs| ==> Printed(r)(pairs[i].key) != Printed(r)(pairs[j].key))
  }

  predicate CleanKey(r: Resolver, k: KeySyntax) { k.KeyScalar? && !IsMergeKey(r, k) }

  lemma {:induction false} CleanHasNoAliases(r: Resolver, t: Syntax)
    requires Clean(r, t)
    ensures NoAliases(t)
    decreases t
  {
    match t {
      case Items(_, _, _, items, _) =>
        forall i | 0 <= i < |items| ensures NoAliases(items[i]) {
          CleanHasNoAliases(r, items[i]);
        }
      case Pairs(_, _, _, pairs, _) =>
        forall i | 0 <= i < |pairs| ensures pairs[i].key.KeyScalar? && NoAliases(pairs[i].value) {
          assert pairs[i].value < pairs[i];
          CleanHasNoAliases(r, pairs[i].value);
        }
      case _ =>
    }
  }

  /** The tree's scalars are the document's, resolved. */
  ghost predicate Resolved(r: Resolver, spots: seq<Spot>, leaves: seq<TreeLeaf>) {
    |leaves| == |spots| && forall i :: 0 <= i < |spots| ==>
      && leaves[i].path == spots[i].path
      && Resolve(r, spots[i].scalar) == Ok(leaves[i].node.value)
      && leaves[i].node.origin == OriginOf(r, spots[i].mark)
  }

  lemma {:induction false} ResolvedAppend(
    r: Resolver, s1: seq<Spot>, l1: seq<TreeLeaf>, s2: seq<Spot>, l2: seq<TreeLeaf>)
    requires Resolved(r, s1, l1) && Resolved(r, s2, l2)
    ensures Resolved(r, s1 + s2, l1 + l2)
  {
  }

  lemma {:induction false} TreeShows(r: Resolver, t: Syntax, anchors: Anchors, path: KeyPath)
    requires ScalarsOnly(r) && Clean(r, t) && Mean(r, t, anchors).Ok?
    ensures Resolved(r, Spots(t, path, Printed(r)), Leaves(Mean(r, t, anchors).value.node, path))
    decreases t
  {
    match t {
      case Leaf(s, _, _) =>
        assert !Resolve(r, s).value.IsContainer();
      case Items(_, _, _, items, _) =>
        TreeShowsItems(r, items, anchors, path, 0);
      case Pairs(_, _, _, pairs, _) =>
        TreeShowsPairs(r, pairs, anchors, path);
        MeanKeys(r, pairs, anchors);
        var ms := MeanPairs(r, pairs, anchors).value;
        MappingLists(r, t.anchor, t.mark, ms);
    }
  }

  lemma {:induction false} MappingLists(r: Resolver, anchor: nat, mark: Mark, ms: Meanings)
    requires ms.merges == []
    requires forall i, j :: 0 <= i < j < |ms.pairs| ==> ms.pairs[i].key != ms.pairs[j].key
    ensures var mean := Mapping(r, anchor, mark, ms); mean.Ok? && mean.value.node.value == Map(ms.pairs)
  {
    assert [] + ms.pairs == ms.pairs;
    InsertedAreThemselves([], ms.pairs);
  }

  lemma {:induction false} TreeShowsItems(r: Resolver, items: seq<Syntax>, anchors: Anchors, path: KeyPath, n: nat)
    requires ScalarsOnly(r) && (forall i :: 0 <= i < |items| ==> Clean(r, items[i])) && MeanItems(r, items, anchors).Ok?
    ensures Resolved(r, ItemSpots(items, path, Printed(r), n),
      ItemLeaves(MeanItems(r, items, anchors).value.0, path, n))
    decreases items
  {
    if items != [] {
      var first := Mean(r, items[0], anchors).value;
      TreeShows(r, items[0], anchors, path + [Index(n)]);
      TreeShowsItems(r, items[1..], first.anchors, path, n + 1);
      var rest := MeanItems(r, items[1..], first.anchors).value.0;
      assert ([first.node] + rest)[1..] == rest;
      ResolvedAppend(r, Spots(items[0], path + [Index(n)], Printed(r)), Leaves(first.node, path + [Index(n)]),
                     ItemSpots(items[1..], path, Printed(r), n + 1), ItemLeaves(rest, path, n + 1));
    }
  }

  lemma {:induction false} TreeShowsPairs(r: Resolver, pairs: seq<Pair>, anchors: Anchors, path: KeyPath)
    requires ScalarsOnly(r) && MeanPairs(r, pairs, anchors).Ok?
    requires forall i :: 0 <= i < |pairs| ==> CleanKey(r, pairs[i].key) && Clean(r, pairs[i].value)
    ensures MeanPairs(r, pairs, anchors).value.merges == []
    ensures Resolved(r, PairSpots(pairs, path, Printed(r)), EntryLeaves(MeanPairs(r, pairs, anchors).value.pairs, path))
    decreases pairs
  {
    if pairs != [] {
      var p := pairs[0];
      assert p.value < p && CleanKey(r, p.key);
      var below := path + [Name(Printed(r)(p.key))];
      var first := Mean(r, p.value, anchors).value;
      TreeShows(r, p.value, anchors, below);
      TreeShowsPairs(r, pairs[1..], first.anchors, path);
      var rest := MeanPairs(r, pairs[1..], first.anchors).value.pairs;
      var e := Entry(Printed(r)(p.key), first.node);
      assert MeanPairs(r, pairs, anchors).value.pairs == [e] + rest && ([e] + rest)[1..] == rest;
      ResolvedAppend(r, Spots(p.value, below, Printed(r)), Leaves(first.node, below),
                     PairSpots(pairs[1..], path, Printed(r)), EntryLeaves(rest, path));
    }
  }

  lemma {:induction false} MeanKeys(r: Resolver, pairs: seq<Pair>, anchors: Anchors)
    requires ScalarsOnly(r) && MeanPairs(r, pairs, anchors).Ok?
    requires forall i :: 0 <= i < |pairs| ==> CleanKey(r, pairs[i].key)
    ensures var own := MeanPairs(r, pairs, anchors).value.pairs;
      |own| == |pairs| && forall i :: 0 <= i < |own| ==> own[i].key == Printed(r)(pairs[i].key)
    decreases pairs
  {
    if pairs != [] {
      assert CleanKey(r, pairs[0].key);
      MeanKeys(r, pairs[1..], Mean(r, pairs[0].value, anchors).value.anchors);
    }
  }

  /** Inserting entries of different keys one by one lists them all. */
  lemma {:induction false} InsertedAreThemselves(into: seq<Entry>, from: seq<Entry>)
    requires forall i, j :: 0 <= i < j < |into + from| ==> (into + from)[i].key != (into + from)[j].key
    ensures InsertAll(into, from) == into + from
    decreases |from|
  {
    if from == [] {
      assert into + from == into;
    } else {
      assert (into + from)[|into|] == from[0];
      assert forall i :: 0 <= i < |into| ==> (into + from)[i] == into[i];
      assert into + [from[0]] + from[1..] == into + from;
      InsertedAreThemselves(into + [from[0]], from[1..]);
    }
  }

  // ---- keys ------------------------------------------------------------------------------------------

  /** Whatever keys are called, the scalars are the same, and below the path. */
  lemma {:induction false} SpotsAlign(
    t: Syntax, p1: KeyPath, n1: KeySyntax -> string, p2: KeyPath, n2: KeySyntax -> string)
    ensures Aligned(Spots(t, p1, n1), p1, Spots(t, p2, n2), p2)
    decreases t
  {
    match t {
      case Items(_, _, _, items, _) => ItemSpotsAlign(items, p1, n1, p2, n2, 0);
      case Pairs(_, _, _, pairs, _) => PairSpotsAlign(pairs, p1, n1, p2, n2);
      case _ =>
    }
  }

  ghost predicate Aligned(a: seq<Spot>, p1: KeyPath, b: seq<Spot>, p2: KeyPath) {
    |a| == |b| && forall i :: 0 <= i < |a| ==>
      p1 <= a[i].path && p2 <= b[i].path && a[i].scalar == b[i].scalar && a[i].mark == b[i].mark
  }

  lemma AlignedAppend(
    a1: seq<Spot>, b1: seq<Spot>, q1: KeyPath, q2: KeyPath, a2: seq<Spot>, b2: seq<Spot>, p1: KeyPath, p2: KeyPath)
    requires Aligned(a1, q1, b1, q2) && Aligned(a2, p1, b2, p2) && p1 <= q1 && p2 <= q2
    ensures Aligned(a1 + a2, p1, b1 + b2, p2)
  {
  }

  lemma {:induction false} ItemSpotsAlign(
    items: seq<Syntax>, p1: KeyPath, n1: KeySyntax -> string, p2: KeyPath, n2: KeySyntax -> string, n: nat)
    ensures Aligned(ItemSpots(items, p1, n1, n), p1, ItemSpots(items, p2, n2, n), p2)
    decreases items
  {
    if items != [] {
      var q1, q2 := p1 + [Index(n)], p2 + [Index(n)];
      SpotsAlign(items[0], q1, n1, q2, n2);
      ItemSpotsAlign(items[1..], p1, n1, p2, n2, n + 1);
      AlignedAppend(Spots(items[0], q1, n1), Spots(items[0], q2, n2), q1, q2,
                    ItemSpots(items[1..], p1, n1, n + 1), ItemSpots(items[1..], p2, n2, n + 1), p1, p2);
    }
  }

  lemma {:induction false} PairSpotsAlign(
    pairs: seq<Pair>, p1: KeyPath, n1: KeySyntax -> string, p2: KeyPath, n2: KeySyntax -> string)
    ensures Aligned(PairSpots(pairs, p1, n1), p1, PairSpots(pairs, p2, n2), p2)
    decreases pairs
  {
    if pairs != [] {
      var p := pairs[0];
      assert p.value < p;
      var q1, q2 := p1 + [Name(n1(p.key))], p2 + [Name(n2(p.key))];
      SpotsAlign(p.value, q1, n1, q2, n2);
      PairSpotsAlign(pairs[1..], p1, n1, p2, n2);
      AlignedAppend(Spots(p.value, q1, n1), Spots(p.value, q2, n2), q1, q2,
                    PairSpots(pairs[1..], p1, n1), PairSpots(pairs[1..], p2, n2), p1, p2);
    }
  }

  /** Every key with a scalar somewhere below it is stored as it is written. */
  ghost predicate KeysPrint(r: Resolver, t: Syntax)
    decreases t
  {
    match t
    case Items(_, _, _, items, _) => forall i :: 0 <= i < |items| ==> KeysPrint(r, items[i])
    case Pairs(_, _, _, pairs, _) =>
      forall i :: 0 <= i < |pairs| ==> PairPrints(r, pairs[i])
    case _ => true
  }

  ghost predicate PairPrints(r: Resolver, p: Pair)
    decreases p
  {
    && (Spots(p.value, [], KeyText) != [] ==> Printed(r)(p.key) == KeyText(p.key))
    && KeysPrint(r, p.value)
  }

  ghost predicate SamePaths(a: seq<Spot>, b: seq<Spot>) {
    |a| == |b| && forall i :: 0 <= i < |a| ==> a[i].path == b[i].path
  }

  lemma SamePathsAppend(a1: seq<Spot>, b1: seq<Spot>, a2: seq<Spot>, b2: seq<Spot>)
    requires |a1| == |b1| && |a2| == |b2|
    ensures SamePaths(a1 + a2, b1 + b2) <==> SamePaths(a1, b1) && SamePaths(a2, b2)
  {
    var a, b := a1 + a2, b1 + b2;
    assert forall i :: 0 <= i < |a1| ==> a[i] == a1[i] && b[i] == b1[i];
    assert forall i :: 0 <= i < |a2| ==> a[|a1| + i] == a2[i] && b[|a1| + i] == b2[i];
  }

  /** The paths are those written exactly when such keys are. */
  lemma {:induction false} KeysDecide(r: Resolver, t: Syntax, path: KeyPath)
    ensures SamePaths(Spots(t, path, KeyText), Spots(t, path, Printed(r))) <==> KeysPrint(r, t)
    decreases t
  {
    match t {
      case Items(_, _, _, items, _) => KeysDecideItems(r, items, path, 0);
      case Pairs(_, _, _, pairs, _) => KeysDecidePairs(r, pairs, path);
      case _ =>
    }
  }

  lemma {:induction false} KeysDecideItems(r: Resolver, items: seq<Syntax>, path: KeyPath, n: nat)
    ensures SamePaths(ItemSpots(items, path, KeyText, n), ItemSpots(items, path, Printed(r), n)) <==>
      forall i :: 0 <= i < |items| ==> KeysPrint(r, items[i])
    decreases items
  {
    if items != [] {
      var below := path + [Index(n)];
      KeysDecide(r, items[0], below);
      KeysDecideItems(r, items[1..], path, n + 1);
      SpotsAlign(items[0], below, KeyText, below, Printed(r));
      ItemSpotsAlign(items[1..], path, KeyText, path, Printed(r), n + 1);
      SamePathsAppend(Spots(items[0], below, KeyText), Spots(items[0], below, Printed(r)),
                      ItemSpots(items[1..], path, KeyText, n + 1), ItemSpots(items[1..], path, Printed(r), n + 1));
      assert forall i :: 0 < i < |items| ==> items[i] == items[1..][i - 1];
    }
  }

  lemma {:induction false} KeysDecidePairs(r: Resolver, pairs: seq<Pair>, path: KeyPath)
    ensures SamePaths(PairSpots(pairs, path, KeyText), PairSpots(pairs, path, Printed(r))) <==>
      forall i :: 0 <= i < |pairs| ==> PairPrints(r, pairs[i])
    decreases pairs
  {
    if pairs != [] {
      var p := pairs[0];
      assert p.value < p;
      var q1, q2 := path + [Name(KeyText(p.key))], path + [Name(Printed(r)(p.key))];
      KeysDecide(r, p.value, q1);
      KeyDecides(r, p, path);
      KeysDecidePairs(r, pairs[1..], path);
      SpotsAlign(p.value, q1, KeyText, q2, Printed(r));
      PairSpotsAlign(pairs[1..], path, KeyText, path, Printed(r));
      SamePathsAppend(Spots(p.value, q1, KeyText), Spots(p.value, q2, Printed(r)),
                      PairSpots(pairs[1..], path, KeyText), PairSpots(pairs[1..], path, Printed(r)));
      FirstAndRest(r, pairs);
    }
  }

  lemma FirstAndRest(r: Resolver, pairs: seq<Pair>)
    requires pairs != []
    ensures (forall i :: 0 <= i < |pairs| ==> PairPrints(r, pairs[i])) <==>
      PairPrints(r, pairs[0]) && forall i :: 0 <= i < |pairs[1..]| ==> PairPrints(r, pairs[1..][i])
  {
    assert forall i :: 0 < i < |pairs| ==> pairs[i] == pairs[1..][i - 1];
  }

  lemma {:induction false} KeyDecides(r: Resolver, p: Pair, path: KeyPath)
    requires var q := path + [Name(KeyText(p.key))];
      SamePaths(Spots(p.value, q, KeyText), Spots(p.value, q, Printed(r))) <==> KeysPrint(r, p.value)
    ensures var q1, q2 := path + [Name(KeyText(p.key))], path + [Name(Printed(r)(p.key))];
      SamePaths(Spots(p.value, q1, KeyText), Spots(p.value, q2, Printed(r))) <==> PairPrints(r, p)
  {
    var q1, q2 := path + [Name(KeyText(p.key))], path + [Name(Printed(r)(p.key))];
    var a, b := Spots(p.value, q1, KeyText), Spots(p.value, q2, Printed(r));
    SpotsAlign(p.value, q1, KeyText, [], KeyText);
    SpotsAlign(p.value, q1, KeyText, q1, Printed(r));
    SpotsAlign(p.value, q1, KeyText, q2, Printed(r));
    if a != [] && KeyText(p.key) != Printed(r)(p.key) {
      assert a[0].path[|path|] == Name(KeyText(p.key)) && b[0].path[|path|] == Name(Printed(r)(p.key));
    }
  }

  // ---- they agree -----------------------------------------------------------------------------------

  /** The index shows this node's scalar, at this node's path and position. */
  ghost predicate Shows(r: Resolver, shown: (KeyPath, ScalarValue), leaf: TreeLeaf) {
    && shown.0 == leaf.path
    && exists s: Scalar, m: Mark ::
         && shown.1 == ShowScalar(s, m) && Resolve(r, s) == Ok(leaf.node.value) && leaf.node.origin == OriginOf(r, m)
         && shown.1.text == s.text && (shown.1.quoted <==> s.style == SingleQuoted || s.style == DoubleQuoted)
         && (m.line > 0 ==> leaf.node.origin == At(r.file, shown.1.at.line + 1, shown.1.at.col + 1))
  }

  /** Over one stream of events both walkers find the same scalars in the same order. */
  ghost predicate WalkersAgree(r: Resolver, events: seq<Event>) {
    var docs := Stream(r, true, events, map[], [], None, false);
    docs.Ok? && |docs.value| == 1 &&
    var leaves, shown := Leaves(docs.value[0], []), Valued(Walk(START, events).entries);
    |shown| == |leaves| && forall i :: 0 <= i < |leaves| ==> Shows(r, shown[i], leaves[i])
  }

  /** On a document that loads, with unique keys, no aliases and no `<<`, the two walkers
      agree exactly when every key with a scalar below it is stored as it is written. */
  lemma {:induction false} TwoWalkersAgree(r: Resolver, t: Syntax, m: Mark)
    requires ScalarsOnly(r) && Clean(r, t) && Mean(r, t, map[]).Ok?
    ensures WalkersAgree(r, OneDocument(t, m)) <==> KeysPrint(r, t)
  {
    OneDocumentIsItsMeaning(r, true, t, m);
    CleanHasNoAliases(r, t);
    WalkDocument(t, m);
    IndexShows(t, [], None, true);
    TreeShows(r, t, map[], []);
    KeysDecide(r, t, []);
    SpotsAlign(t, [], KeyText, [], Printed(r));
    ShownIsStored(r, Spots(t, [], KeyText), Spots(t, [], Printed(r)), Leaves(Mean(r, t, map[]).value.node, []));
  }

  lemma {:induction false} ShownIsStored(r: Resolver, written: seq<Spot>, stored: seq<Spot>, leaves: seq<TreeLeaf>)
    requires Aligned(written, [], stored, []) && Resolved(r, stored, leaves)
    ensures (forall i :: 0 <= i < |leaves| ==> Shows(r, ShownSpots(written)[i], leaves[i])) <==>
      SamePaths(written, stored)
  {
    var shown := ShownSpots(written);
    forall i | 0 <= i < |leaves| ensures Shows(r, shown[i], leaves[i]) <==> written[i].path == stored[i].path {
      assert shown[i] == (written[i].path, ShowScalar(written[i].scalar, written[i].mark));
      assert Resolve(r, written[i].scalar) == Ok(leaves[i].node.value);
    }
  }

  /** Keys that are strings are stored as written, so with such keys they always agree. */
  lemma {:induction false} StringKeysPrint(r: Resolver, t: Syntax)
    requires (forall s :: r.pyStr(Str(s)) == s) && StringKeys(r, t)
    ensures KeysPrint(r, t)
    decreases t
  {
    match t {
      case Items(_, _, _, items, _) =>
        forall i | 0 <= i < |items| ensures KeysPrint(r, items[i]) {
          StringKeysPrint(r, items[i]);
        }
      case Pairs(_, _, _, pairs, _) =>
        forall i | 0 <= i < |pairs| ensures PairPrints(r, pairs[i]) {
          assert pairs[i].value < pairs[i];
          StringKeysPrint(r, pairs[i].value);
        }
      case _ =>
    }
  }

  ghost predicate StringKeys(r: Resolver, t: Syntax)
    decreases t
  {
    match t
    case Items(_, _, _, items, _) => forall i :: 0 <= i < |items| ==> StringKeys(r, items[i])
    case Pairs(_, _, _, pairs, _) =>
      forall i :: 0 <= i < |pairs| ==>
        && pairs[i].key.KeyScalar? && Resolve(r, pairs[i].key.scalar) == Ok(Str(pairs[i].key.scalar.text))
        && StringKeys(r, pairs[i].value)
    case _ => true
  }

  lemma {:induction false} WalkDocument(t: Syntax, m: Mark)
    requires NoAliases(t)
    ensures Walk(START, OneDocument(t, m)).entries == IndexOf(t, [], None, true)
  {
    var end := [Outside(DocumentEnd, m), Outside(StreamEnd, m)];
    var open := Outside(DocumentStart, m);
    assert OneDocument(t, m) == [Outside(StreamStart, m)] + ([open] + (Flatten(t) + end));
    WalkOne(START, Outside(StreamStart, m), [open] + (Flatten(t) + end));
    WalkOne(START, open, Flatten(t) + end);
    WalkNode(START, t, end);
    WalkEnd(After(START, IndexHere(START, t)), m);
  }

  lemma WalkEnd(s: State, m: Mark)
    ensures Walk(s, [Outside(DocumentEnd, m), Outside(StreamEnd, m)]) == s
  {
    var close := Outside(StreamEnd, m);
    assert [Outside(DocumentEnd, m), close] == [Outside(DocumentEnd, m)] + [close] && [close] == [close] + [];
    WalkOne(s, Outside(DocumentEnd, m), [close]);
    WalkOne(s, close, []);
  }

  /** For every key with a scalar below it, errors and `<<` included: the walkers agree on
      `k: v` exactly when the key resolves, is no `<<`, and is stored as it is written. */
  lemma {:induction false} OneKeyDecides(r: Resolver, k: Scalar, v: Scalar, m: Mark)
    requires ScalarsOnly(r) && Resolve(r, v).Ok?
    ensures var key := KeyScalar(k, 0, m);
      WalkersAgree(r, OneDocument(Pairs(0, None, m, [Pair(key, Leaf(v, 0, m))], m), m)) <==>
      Resolve(r, k).Ok? && !IsMergeKey(r, key) && r.pyStr(Resolve(r, k).value) == k.text
  {
    var key := KeyScalar(k, 0, m);
    var p := Pair(key, Leaf(v, 0, m));
    var t := Pairs(0, None, m, [p], m);
    var n := Node(Resolve(r, v).value, OriginOf(r, m));
    assert [p][1..] == [];
    OneDocumentIsItsMeaning(r, true, t, m);
    OnePairMeans(r, p, n);
    if Resolve(r, k).Ok? && !IsMergeKey(r, key) {
      assert Clean(r, t);
      TwoWalkersAgree(r, t, m);
      assert Spots(p.value, [], KeyText) == [Spot([], v, m)];
      assert KeysPrint(r, p.value);
      assert KeysPrint(r, t) <==> PairPrints(r, [p][0]);
    }
  }

  /** What a mapping of one scalar means. */
  lemma {:induction false} OnePairMeans(r: Resolver, p: Pair, n: Node)
    requires ScalarsOnly(r) && p.key.KeyScalar? && p.value.Leaf? && p.value.anchor == 0
    requires Resolve(r, p.value.scalar) == Ok(n.value) && n.origin == OriginOf(r, p.value.mark)
    ensures forall m: Mark :: Mean(r, Pairs(0, None, m, [p], m), map[]).Ok? <==>
      Resolve(r, p.key.scalar).Ok? && !IsMergeKey(r, p.key)
  {
    assert [p][1..] == [] && !n.value.IsContainer();
    var key := Resolve(r, p.key.scalar);
    if key.Ok? {
      if IsMergeKey(r, p.key) {
        assert MeanPairs(r, [p], map[]) == Ok(Meanings([], [n] + [], map[]));
        assert FlattenMerges([], [n] + []).Err?;
      } else {
        var e := Entry(r.pyStr(key.value), n);
        assert MeanPairs(r, [p], map[]) == Ok(Meanings([e] + [], [], map[]));
        InsertedAreThemselves([], [e]);
      }
    }
  }
}
