/**
 What a mapping holds after its `<<` keys are merged (yaml.rs): under each key, which of
 the nodes written in it, and in what order the keys come.
*/
module YamlMerge {
  import opened Wrappers
  import opened Values
  import opened PythonEq
  import opened Merging
  import opened YamlLoader

  // ---- a mapping as it is written ------------------------------------------------------------------

  /** One pair: its key's text, whether the key is a plain `<<`, and the value's node. */
  datatype Written = Written(key: string, merge: bool, node: Node)

  /** A key is the text of what its scalar resolves to, or of what its alias stands for. */
  function ReadKey(r: Resolver, k: KeySyntax, anchors: Anchors): Option<string> {
    match k
    case KeyScalar(s, _, _) => (match Resolve(r, s) case Ok(v) => Some(r.pyStr(v)) case Err(_) => None)
    case KeyRef(id, _) => if id in anchors then Some(r.pyStr(anchors[id].value)) else None
  }

  /** A `<<` that is written as such, without quotes; an alias never is one. */
  predicate AsksToMerge(r: Resolver, k: KeySyntax) {
    k.KeyScalar? && k.scalar.style == Plain && Resolve(r, k.scalar) == Ok(Str("<<"))
  }

  /** The pairs in order; anchors of earlier ones are known to later ones. */
  function Read(r: Resolver, pairs: seq<Pair>, anchors: Anchors): seq<Written>
    decreases pairs
  {
    if pairs == [] then []
    else
      var key, value := ReadKey(r, pairs[0].key, anchors), Mean(r, pairs[0].value, anchors);
      if key.None? || value.Err? then []
      else
        [Written(key.value, AsksToMerge(r, pairs[0].key), value.value.node)] + Read(r, pairs[1..], value.value.anchors)
  }

  function OrElse<T>(a: Option<T>, b: Option<T>): Option<T> { if a.Some? then a else b }

  /** The value last written under a key of the mapping itself. */
  function LastOwn(ws: seq<Written>, k: string): Option<Node> {
    if ws == [] then None
    else OrElse(LastOwn(ws[1..], k), if !ws[0].merge && ws[0].key == k then Some(ws[0].node) else None)
  }

  /** What a map has under a key. */
  function In(n: Node, k: string): Option<Node> { if n.value.Map? then Under(n.value.entries, k) else None }

  /** What the first of these maps that has the key has there. */
  function FirstHolding(maps: seq<Node>, k: string): Option<Node> {
    if maps == [] then None else OrElse(In(maps[0], k), FirstHolding(maps[1..], k))
  }

  /** What the last `<<` that is a list, and has the key in a map of it, has there. */
  function FromLists(ws: seq<Written>, k: string): Option<Node> {
    if ws == [] then None
    else OrElse(FromLists(ws[1..], k),
                if ws[0].merge && ws[0].node.value.List? then FirstHolding(ws[0].node.value.items, k) else None)
  }

  /** What the first `<<` that is a map with the key has there. */
  function FromMaps(ws: seq<Written>, k: string): Option<Node> {
    if ws == [] then None else OrElse(if ws[0].merge then In(ws[0].node, k) else None, FromMaps(ws[1..], k))
  }

  /** A key's own value; without one, that of a list, and without that, of a map. */
  function Holds(ws: seq<Written>, k: string): Option<Node> {
    OrElse(LastOwn(ws, k), OrElse(FromLists(ws, k), FromMaps(ws, k)))
  }

  predicate CanMerge(n: Node) {
    n.value.Map? || (n.value.List? && forall i :: 0 <= i < |n.value.items| ==> n.value.items[i].value.Map?)
  }

  predicate AllCanMerge(ws: seq<Written>) { forall i :: 0 <= i < |ws| && ws[i].merge ==> CanMerge(ws[i].node) }

  // ---- the keys, in order --------------------------------------------------------------------------

  function KeysOf(n: Node): seq<string> { if n.value.Map? then Keys(n.value.entries) else [] }

  /** The keys of a list's maps, the last map's first. */
  function KeysBackwards(maps: seq<Node>): seq<string> {
    if maps == [] then [] else KeysOf(maps[|maps| - 1]) + KeysBackwards(maps[..|maps| - 1])
  }

  function KeysOfMerges(ws: seq<Written>): seq<string> {
    if ws == [] then []
    else
      (if !ws[0].merge then []
       else if ws[0].node.value.List? then KeysBackwards(ws[0].node.value.items)
       else KeysOf(ws[0].node)) + KeysOfMerges(ws[1..])
  }

  function OwnKeys(ws: seq<Written>): seq<string> {
    if ws == [] then [] else (if ws[0].merge then [] else [ws[0].key]) + OwnKeys(ws[1..])
  }

  // ---- inserting ---------------------------------------------------------------------------------------

  lemma {:induction false} InsertedUnder(into: seq<Entry>, key: string, n: Node, k: string)
    ensures Under(Insert(into, key, n), k) == if k == key then Some(n) else Under(into, k)
    ensures Keys(Insert(into, key, n)) == AppendNew(SameKey(), Keys(into), [key])
  {
    match Find(into, key) {
      case Some(i) =>
        assert Keys(Insert(into, key, n)) == Keys(into);
        SameFind(Insert(into, key, n), into, k);
        KeyIsThere(into, key);
      case None =>
        FindAppended(into, Entry(key, n), k);
        KeyIsThere(into, key);
    }
  }

  lemma {:induction false} KeyIsThere(into: seq<Entry>, key: string)
    ensures Has(SameKey(), Keys(into), key) <==> Find(into, key).Some?
  {
    if Find(into, key).Some? {
      assert SameKey()(Keys(into)[Find(into, key).value], key);
    }
  }

  /** The last entry under a key. */
  function LastIn(from: seq<Entry>, k: string): Option<Node> {
    if from == [] then None else OrElse(LastIn(from[1..], k), if from[0].key == k then Some(from[0].node) else None)
  }

  lemma {:induction false} AllInserted(into: seq<Entry>, from: seq<Entry>, k: string)
    ensures Under(InsertAll(into, from), k) == OrElse(LastIn(from, k), Under(into, k))
    ensures Keys(InsertAll(into, from)) == AppendNew(SameKey(), Keys(into), Keys(from))
    decreases |from|
  {
    if from != [] {
      InsertedUnder(into, from[0].key, from[0].node, k);
      AllInserted(Insert(into, from[0].key, from[0].node), from[1..], k);
      OneKeyMore(Keys(into), from);
    }
  }

  lemma OneKeyMore(keys: seq<string>, from: seq<Entry>)
    requires from != []
    ensures AppendNew(SameKey(), keys, Keys(from)) ==
            AppendNew(SameKey(), AppendNew(SameKey(), keys, [from[0].key]), Keys(from[1..]))
  {
    AppendNewInTwo(SameKey(), keys, [from[0].key], Keys(from[1..]));
    assert Keys(from) == [from[0].key] + Keys(from[1..]);
  }

  lemma {:induction false} MissingInserted(into: seq<Entry>, from: seq<Entry>, k: string)
    ensures Under(InsertMissing(into, from), k) == OrElse(Under(into, k), Under(from, k))
    ensures Keys(InsertMissing(into, from)) == AppendNew(SameKey(), Keys(into), Keys(from))
    decreases |from|
  {
    if from != [] {
      var e := from[0];
      InsertedUnder(into, e.key, e.node, k);
      KeyIsThere(into, e.key);
      assert into + [e] == into + [Entry(e.key, e.node)];
      MissingInserted(if Find(into, e.key).Some? then into else into + [e], from[1..], k);
      OneKeyMore(Keys(into), from);
    }
  }

  /** Keys that come once come last where they come first. */
  lemma {:induction false} OnceIsLast(from: seq<Entry>, k: string)
    requires UniqueKeys(from)
    ensures LastIn(from, k) == Under(from, k)
    decreases |from|
  {
    if from != [] {
      OnceIsLast(from[1..], k);
    }
  }

  ghost predicate AllUnique(maps: seq<Node>) { forall n :: n in maps && n.value.Map? ==> UniqueKeys(n.value.entries) }

  lemma {:induction false} LastOfMaps(maps: seq<Node>, k: string)
    requires maps != []
    ensures FirstHolding(maps, k) == OrElse(FirstHolding(maps[..|maps| - 1], k), In(maps[|maps| - 1], k))
    decreases |maps|
  {
    if |maps| > 1 {
      assert maps[1..][..|maps| - 2] == maps[..|maps| - 1][1..];
      LastOfMaps(maps[1..], k);
    } else {
      assert maps[1..] == [] == maps[..0];
    }
  }

  predicate AllMaps(items: seq<Node>) { forall i :: 0 <= i < |items| ==> items[i].value.Map? }

  lemma {:induction false} MapsInserted(into: seq<Entry>, items: seq<Node>, k: string)
    requires AllUnique(items)
    ensures var r := InsertMaps(into, items); if AllMaps(items) then r.Ok? else r == Err(BadMerge)
    ensures var r := InsertMaps(into, items); r.Ok? ==>
      && Under(r.value, k) == OrElse(FirstHolding(items, k), Under(into, k))
      && Keys(r.value) == AppendNew(SameKey(), Keys(into), KeysBackwards(items))
    decreases |items|
  {
    if items != [] {
      var init, last := items[..|items| - 1], items[|items| - 1];
      assert AllMaps(items) <==> AllMaps(init) && last.value.Map?;
      if last.value.Map? {
        LastInserted(into, items, k);
        MapsInserted(InsertAll(into, last.value.entries), init, k);
        LastOfMaps(items, k);
      }
    }
  }

  lemma {:induction false} LastInserted(into: seq<Entry>, items: seq<Node>, k: string)
    requires items != [] && AllUnique(items) && items[|items| - 1].value.Map?
    ensures var init, m := items[..|items| - 1], items[|items| - 1].value.entries;
      && Under(InsertAll(into, m), k) == OrElse(Under(m, k), Under(into, k))
      && AppendNew(SameKey(), Keys(InsertAll(into, m)), KeysBackwards(init)) ==
         AppendNew(SameKey(), Keys(into), KeysBackwards(items))
  {
    var init, m := items[..|items| - 1], items[|items| - 1].value.entries;
    AllInserted(into, m, k);
    OnceIsLast(m, k);
    AppendNewInTwo(SameKey(), Keys(into), Keys(m), KeysBackwards(init));
  }

  // ---- merging ------------------------------------------------------------------------------------------

  /** A mapping's own pairs, and the values of its `<<` keys. */
  function OwnEntries(ws: seq<Written>): seq<Entry> {
    if ws == [] then [] else (if ws[0].merge then [] else [Entry(ws[0].key, ws[0].node)]) + OwnEntries(ws[1..])
  }

  function Merges(ws: seq<Written>): seq<Node> {
    if ws == [] then [] else (if ws[0].merge then [ws[0].node] else []) + Merges(ws[1..])
  }

  /** Maps, and the maps in lists, have each key once. */
  ghost predicate Mergeable(n: Node) { (n.value.Map? ==> UniqueKeys(n.value.entries)) &&
    (n.value.List? ==> AllUnique(n.value.items)) }

  lemma {:induction false} OneMerged(into: seq<Entry>, n: Node, k: string)
    requires Mergeable(n)
    ensures var r := FlattenMerge(into, n); if CanMerge(n) then r.Ok? else r == Err(BadMerge)
    ensures var r := FlattenMerge(into, n); r.Ok? ==>
      && Under(r.value, k) ==
         (if n.value.List? then OrElse(FirstHolding(n.value.items, k), Under(into, k))
          else OrElse(Under(into, k), In(n, k)))
      && Keys(r.value) ==
         AppendNew(SameKey(), Keys(into), if n.value.List? then KeysBackwards(n.value.items) else KeysOf(n))
  {
    match n.value {
      case Map(m) => MissingInserted(into, m, k);
      case List(items) => MapsInserted(into, items, k);
      case _ =>
    }
  }

  lemma {:induction false} AllMerged(into: seq<Entry>, ws: seq<Written>, k: string)
    requires forall i :: 0 <= i < |ws| ==> Mergeable(ws[i].node)
    ensures var r := FlattenMerges(into, Merges(ws)); if AllCanMerge(ws) then r.Ok? else r == Err(BadMerge)
    ensures var r := FlattenMerges(into, Merges(ws)); r.Ok? ==>
      && Under(r.value, k) == OrElse(FromLists(ws, k), OrElse(Under(into, k), FromMaps(ws, k)))
      && Keys(r.value) == AppendNew(SameKey(), Keys(into), KeysOfMerges(ws))
    decreases |ws|
  {
    if ws != [] {
      if !ws[0].merge {
        assert Merges(ws) == Merges(ws[1..]) && KeysOfMerges(ws) == KeysOfMerges(ws[1..]);
        assert AllCanMerge(ws) <==> AllCanMerge(ws[1..]);
        AllMerged(into, ws[1..], k);
      } else {
        FirstMerged(into, ws, k);
        if CanMerge(ws[0].node) {
          AllMerged(FlattenMerge(into, ws[0].node).value, ws[1..], k);
        }
      }
    }
  }

  lemma {:induction false} FirstMerged(into: seq<Entry>, ws: seq<Written>, k: string)
    requires ws != [] && ws[0].merge && Mergeable(ws[0].node)
    ensures AllCanMerge(ws) <==> CanMerge(ws[0].node) && AllCanMerge(ws[1..])
    ensures var first := FlattenMerge(into, ws[0].node);
      && (if CanMerge(ws[0].node) then first.Ok? else first == Err(BadMerge))
      && (first.Ok? ==> FlattenMerges(into, Merges(ws)) == FlattenMerges(first.value, Merges(ws[1..])))
      && (first.Err? ==> FlattenMerges(into, Merges(ws)) == Err(BadMerge))
      && (first.Ok? ==>
        && OrElse(FromLists(ws[1..], k), OrElse(Under(first.value, k), FromMaps(ws[1..], k))) ==
           OrElse(FromLists(ws, k), OrElse(Under(into, k), FromMaps(ws, k)))
        && AppendNew(SameKey(), Keys(first.value), KeysOfMerges(ws[1..])) ==
           AppendNew(SameKey(), Keys(into), KeysOfMerges(ws)))
  {
    var n := ws[0].node;
    OneMerged(into, n, k);
    assert Merges(ws)[0] == n && Merges(ws)[1..] == Merges(ws[1..]);
    AppendNewInTwo(SameKey(), Keys(into), if n.value.List? then KeysBackwards(n.value.items) else KeysOf(n),
                   KeysOfMerges(ws[1..]));
  }

  lemma {:induction false} OwnAreLast(ws: seq<Written>, k: string)
    ensures LastIn(OwnEntries(ws), k) == LastOwn(ws, k)
    decreases |ws|
  {
    if ws != [] {
      OwnAreLast(ws[1..], k);
      RestOfOwn(ws);
    }
  }

  lemma {:induction false} OwnHaveKeys(ws: seq<Written>)
    ensures Keys(OwnEntries(ws)) == OwnKeys(ws)
    decreases |ws|
  {
    if ws != [] {
      OwnHaveKeys(ws[1..]);
      RestOfOwn(ws);
    }
  }

  lemma RestOfOwn(ws: seq<Written>)
    requires ws != []
    ensures ws[0].merge ==> OwnEntries(ws) == OwnEntries(ws[1..])
    ensures !ws[0].merge ==>
      && OwnEntries(ws) != [] && OwnEntries(ws)[0] == Entry(ws[0].key, ws[0].node)
      && OwnEntries(ws)[1..] == OwnEntries(ws[1..])
  {
  }

  /** What a mapping holds: under each key what `Holds` says, keys in the order in which
      they first come, merged ones before its own. */
  ghost predicate HoldsAll(entries: seq<Entry>, ws: seq<Written>) {
    && (forall k :: Under(entries, k) == Holds(ws, k))
    && Keys(entries) == AppendNew(SameKey(), [], KeysOfMerges(ws) + OwnKeys(ws))
  }

  lemma {:induction false} EntriesHold(ws: seq<Written>)
    requires forall i :: 0 <= i < |ws| ==> Mergeable(ws[i].node)
    ensures var r := Entries(OwnEntries(ws), Merges(ws));
      if AllCanMerge(ws) then r.Ok? && HoldsAll(r.value, ws) else r == Err(BadMerge)
  {
    AllMerged([], ws, "");
    if AllCanMerge(ws) {
      var merged, own := FlattenMerges([], Merges(ws)).value, OwnEntries(ws);
      forall k ensures Under(InsertAll(merged, own), k) == Holds(ws, k) {
        AllMerged([], ws, k);
        AllInserted(merged, own, k);
        OwnAreLast(ws, k);
      }
      AllInserted(merged, own, "");
      OwnHaveKeys(ws);
      AppendNewInTwo(SameKey(), [], KeysOfMerges(ws), OwnKeys(ws));
      assert Keys([]) == [];
    }
  }

  // ---- loaded trees ---------------------------------------------------------------------------------------

  /** What the loader makes of the pairs is what is read of each. */
  lemma {:induction false} ReadsPairs(r: Resolver, pairs: seq<Pair>, anchors: Anchors)
    ensures var ms, ws := MeanPairs(r, pairs, anchors), Read(r, pairs, anchors);
      && (ms.Ok? <==> |ws| == |pairs|) && |ws| <= |pairs|
      && (ms.Ok? ==> ms.value.pairs == OwnEntries(ws) && ms.value.merges == Merges(ws))
    decreases pairs
  {
    if pairs != [] {
      var value := Mean(r, pairs[0].value, anchors);
      if value.Ok? {
        ReadsPairs(r, pairs[1..], value.value.anchors);
      }
      var ws := Read(r, pairs, anchors);
      assert ws != [] ==> ws[1..] == Read(r, pairs[1..], value.value.anchors);
    }
  }

  ghost predicate AnchorsProper(anchors: Anchors) { forall id :: id in anchors ==> ProperNode(anchors[id]) }

  ghost predicate ReadProper(ws: seq<Written>) { forall i :: 0 <= i < |ws| ==> ProperNode(ws[i].node) }

  lemma {:induction false} HeldIsProper(ws: seq<Written>, k: string)
    requires ReadProper(ws)
    ensures LastOwn(ws, k).Some? ==> ProperNode(LastOwn(ws, k).value)
    ensures FromLists(ws, k).Some? ==> ProperNode(FromLists(ws, k).value)
    ensures FromMaps(ws, k).Some? ==> ProperNode(FromMaps(ws, k).value)
    decreases |ws|
  {
    if ws != [] {
      HeldIsProper(ws[1..], k);
      if ws[0].node.value.List? {
        HoldingIsProper(ws[0].node.value.items, k);
      }
    }
  }

  lemma {:induction false} HoldingIsProper(maps: seq<Node>, k: string)
    requires forall n :: n in maps ==> ProperNode(n)
    ensures FirstHolding(maps, k).Some? ==> ProperNode(FirstHolding(maps, k).value)
    decreases |maps|
  {
    if maps != [] {
      assert maps[0] in maps && forall n :: n in maps[1..] ==> n in maps;
      HoldingIsProper(maps[1..], k);
    }
  }

  lemma {:induction false} HoldsProper(entries: seq<Entry>, ws: seq<Written>)
    requires HoldsAll(entries, ws) && ReadProper(ws)
    ensures Proper(Map(entries))
  {
    KeysComeOnce(entries, ws);
    forall i | 0 <= i < |entries| ensures Proper(entries[i].node.value) {
      HeldIsProper(ws, entries[i].key);
      OnlyOneThere(entries, i);
    }
  }

  lemma {:induction false} KeysComeOnce(entries: seq<Entry>, ws: seq<Written>)
    requires HoldsAll(entries, ws)
    ensures UniqueKeys(entries)
  {
    NewKeysAreUnique([], KeysOfMerges(ws) + OwnKeys(ws));
    forall i, j | 0 <= i < j < |entries| ensures entries[i].key != entries[j].key {
      assert Keys(entries)[i] != Keys(entries)[j];
    }
  }

  lemma OnlyOneThere(entries: seq<Entry>, i: nat)
    requires UniqueKeys(entries) && i < |entries|
    ensures Under(entries, entries[i].key) == Some(entries[i].node)
  {
  }

  lemma MergeableIfProper(ws: seq<Written>)
    requires ReadProper(ws)
    ensures forall i :: 0 <= i < |ws| ==> Mergeable(ws[i].node)
  {
    forall i | 0 <= i < |ws| ensures Mergeable(ws[i].node) {
      ProperIsMergeable(ws[i].node);
    }
  }

  lemma ProperIsMergeable(n: Node)
    requires ProperNode(n)
    ensures Mergeable(n)
  {
    if n.value.List? {
      var items := n.value.items;
      forall m | m in items && m.value.Map? ensures UniqueKeys(m.value.entries) {
        var j :| 0 <= j < |items| && items[j] == m;
        assert Proper(items[j].value);
      }
    }
  }

  /** In a loaded tree every key comes once. */
  lemma {:induction false} MeansProper(r: Resolver, t: Syntax, anchors: Anchors)
    requires ScalarsOnly(r) && AnchorsProper(anchors)
    ensures var m := Mean(r, t, anchors); m.Ok? ==> ProperNode(m.value.node) && AnchorsProper(m.value.anchors)
    decreases t
  {
    match t {
      case Leaf(s, _, _) =>
      case Ref(_, _) =>
      case Items(_, _, _, items, _) =>
        ItemsProper(r, items, anchors);
        var m := MeanItems(r, items, anchors);
        assert m.Ok? ==> forall i :: 0 <= i < |m.value.0| ==> m.value.0[i] in m.value.0;
      case Pairs(_, _, _, pairs, _) =>
        PairsProper(r, pairs, anchors);
        var ws := Read(r, pairs, anchors);
        ReadsPairs(r, pairs, anchors);
        MergeableIfProper(ws);
        EntriesHold(ws);
        if Mean(r, t, anchors).Ok? {
          HoldsProper(Entries(OwnEntries(ws), Merges(ws)).value, ws);
        }
    }
  }

  lemma {:induction false} ItemsProper(r: Resolver, items: seq<Syntax>, anchors: Anchors)
    requires ScalarsOnly(r) && AnchorsProper(anchors)
    ensures var m := MeanItems(r, items, anchors); m.Ok? ==>
      (forall n :: n in m.value.0 ==> ProperNode(n)) && AnchorsProper(m.value.1)
    decreases items
  {
    if items != [] {
      MeansProper(r, items[0], anchors);
      if Mean(r, items[0], anchors).Ok? {
        ItemsProper(r, items[1..], Mean(r, items[0], anchors).value.anchors);
      }
    }
  }

  lemma {:induction false} PairsProper(r: Resolver, pairs: seq<Pair>, anchors: Anchors)
    requires ScalarsOnly(r) && AnchorsProper(anchors)
    ensures ReadProper(Read(r, pairs, anchors))
    ensures var m := MeanPairs(r, pairs, anchors); m.Ok? ==> AnchorsProper(m.value.anchors)
    decreases pairs
  {
    if pairs != [] {
      var p := pairs[0];
      assert p.value < p;
      MeansProper(r, p.value, anchors);
      if Mean(r, p.value, anchors).Ok? {
        PairsProper(r, pairs[1..], Mean(r, p.value, anchors).value.anchors);
      }
    }
  }

  /** `!!map` or `!!seq`, written out or not. */
  predicate IsOwnTag(tag: Tag, core: string) {
    tag == Tag("!!", core) || tag == Tag("tag:yaml.org,2002:", core)
  }

  /** A collection with any other tag is an error, whatever is in it. */
  lemma CollectionTags(r: Resolver, t: Syntax, rest: seq<Event>, anchors: Anchors)
    requires t.Items? || t.Pairs?
    requires t.tag.Some? && !IsOwnTag(t.tag.value, if t.Items? then "seq" else "map")
    ensures Build(r, Flatten(t) + rest, anchors) == Err(UnknownTag)
  {
    BuildsTheMeaning(r, t, rest, anchors);
  }

  /** A sequence is a list of what its items mean, in order, and fails only where one of
      them does. */
  lemma {:induction false} SequenceHolds(r: Resolver, t: Syntax, rest: seq<Event>, anchors: Anchors)
    requires t.Items? && (t.tag.None? || IsOwnTag(t.tag.value, "seq"))
    ensures var b, ns := Build(r, Flatten(t) + rest, anchors), ReadItems(r, t.items, anchors);
      && (b.Ok? <==> |ns| == |t.items|)
      && (b.Ok? ==> b.value.node == Node(List(ns), OriginOf(r, t.mark)))
  {
    BuildsTheMeaning(r, t, rest, anchors);
    ItemsAreRead(r, t.items, anchors);
  }

  function ReadItems(r: Resolver, items: seq<Syntax>, anchors: Anchors): seq<Node>
    decreases items
  {
    if items == [] then []
    else
      var first := Mean(r, items[0], anchors);
      if first.Err? then [] else [first.value.node] + ReadItems(r, items[1..], first.value.anchors)
  }

  lemma {:induction false} ItemsAreRead(r: Resolver, items: seq<Syntax>, anchors: Anchors)
    ensures var m, ns := MeanItems(r, items, anchors), ReadItems(r, items, anchors);
      (m.Ok? <==> |ns| == |items|) && |ns| <= |items| && (m.Ok? ==> m.value.0 == ns)
    decreases items
  {
    if items != [] && Mean(r, items[0], anchors).Ok? {
      ItemsAreRead(r, items[1..], Mean(r, items[0], anchors).value.anchors);
    }
  }

  /** The node the loader builds of a mapping, whatever follows: when it fails, and what
      it holds. */
  lemma {:induction false} MappingHolds(r: Resolver, t: Syntax, rest: seq<Event>, anchors: Anchors)
    requires t.Pairs? && ScalarsOnly(r) && AnchorsProper(anchors)
    ensures var b, ws := Build(r, Flatten(t) + rest, anchors), Read(r, t.pairs, anchors);
      && (b.Ok? <==> (t.tag.None? || IsOwnTag(t.tag.value, "map")) && |ws| == |t.pairs| && AllCanMerge(ws))
      && (b.Ok? ==>
           b.value.node.origin == OriginOf(r, t.mark) && b.value.node.value.Map? &&
           HoldsAll(b.value.node.value.entries, ws))
  {
    BuildsTheMeaning(r, t, rest, anchors);
    PairsProper(r, t.pairs, anchors);
    var ws := Read(r, t.pairs, anchors);
    ReadsPairs(r, t.pairs, anchors);
    MergeableIfProper(ws);
    EntriesHold(ws);
  }

  /** Whatever the events, what is built has each key once. */
  lemma BuildsProper(r: Resolver, events: seq<Event>, anchors: Anchors)
    requires ScalarsOnly(r) && AnchorsProper(anchors) && Build(r, events, anchors).Ok?
    ensures ProperNode(Build(r, events, anchors).value.node)
  {
    var t := BuildReadsOneNode(r, events, anchors);
    BuildsTheMeaning(r, t, Build(r, events, anchors).value.rest, anchors);
    MeansProper(r, t, anchors);
  }

  // ---- anchors ------------------------------------------------------------------------------------------------

  /** The anchors of a node and of the nodes in it; those of keys are not kept. */
  function AnchorsIn(t: Syntax): set<nat>
    decreases t
  {
    match t
    case Leaf(_, a, _) => {a}
    case Ref(_, _) => {}
    case Items(a, _, _, items, _) => {a} + AnchorsOf(items)
    case Pairs(a, _, _, pairs, _) => {a} + AnchorsOfPairs(pairs)
  }

  function AnchorsOf(items: seq<Syntax>): set<nat>
    decreases items
  {
    if items == [] then {} else AnchorsIn(items[0]) + AnchorsOf(items[1..])
  }

  function AnchorsOfPairs(pairs: seq<Pair>): set<nat>
    decreases pairs
  {
    if pairs == [] then {}
    else
      var p := pairs[0];
      assert p.value < p;
      AnchorsIn(p.value) + AnchorsOfPairs(pairs[1..])
  }

  predicate SameAnchor(a: Anchors, b: Anchors, id: nat) { (id in a <==> id in b) && (id in a ==> a[id] == b[id]) }

  /** After a node its anchor stands for it, and an anchor that is not in it for what it
      stood for before. */
  lemma {:induction false} AnchorsStand(r: Resolver, t: Syntax, anchors: Anchors)
    requires Mean(r, t, anchors).Ok?
    ensures var m := Mean(r, t, anchors).value;
      && (!t.Ref? && t.anchor != 0 ==> t.anchor in m.anchors && m.anchors[t.anchor] == m.node)
      && (forall id :: id !in AnchorsIn(t) ==> SameAnchor(anchors, m.anchors, id))
      && (t.Ref? ==> t.id in anchors && m.node == anchors[t.id])
    decreases t
  {
    match t {
      case Leaf(_, _, _) =>
      case Ref(_, _) =>
      case Items(_, _, _, items, _) =>
        ItemAnchorsStand(r, items, anchors);
      case Pairs(_, _, _, pairs, _) =>
        PairAnchorsStand(r, pairs, anchors);
    }
  }

  lemma {:induction false} ItemAnchorsStand(r: Resolver, items: seq<Syntax>, anchors: Anchors)
    requires MeanItems(r, items, anchors).Ok?
    ensures forall id :: id !in AnchorsOf(items) ==> SameAnchor(anchors, MeanItems(r, items, anchors).value.1, id)
    decreases items
  {
    if items != [] {
      AnchorsStand(r, items[0], anchors);
      ItemAnchorsStand(r, items[1..], Mean(r, items[0], anchors).value.anchors);
    }
  }

  lemma {:induction false} PairAnchorsStand(r: Resolver, pairs: seq<Pair>, anchors: Anchors)
    requires MeanPairs(r, pairs, anchors).Ok?
    ensures forall id :: id !in AnchorsOfPairs(pairs) ==>
      SameAnchor(anchors, MeanPairs(r, pairs, anchors).value.anchors, id)
    decreases pairs
  {
    if pairs != [] {
      var p := pairs[0];
      assert p.value < p;
      AnchorsStand(r, p.value, anchors);
      PairAnchorsStand(r, pairs[1..], Mean(r, p.value, anchors).value.anchors);
    }
  }
}
