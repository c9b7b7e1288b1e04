/**
 Merging parameter trees (merge.rs), as a function of the two trees when nothing is
 dereferenced: what a merge holds at every key, and exactly when merging three trees
 does not depend on the order.
*/
module Merging {
  import opened Wrappers
  import opened Values
  import opened PythonEq

  /** How two lists combine; inventories use the last. */
  datatype ListMode = Replace | Extend | ExtendUnique

  const MISSING := "???"

  predicate IsMissing(v: Value) { v == Str(MISSING) }

  function SameValue(): (Node, Node) -> bool { (a: Node, b: Node) => PyEq(a.value, b.value) }

  // ---- appending what is not there yet ----------------------------------------------------

  /** Some element of `s` stands for `x` already. */
  predicate Has<T>(rel: (T, T) -> bool, s: seq<T>, x: T) { exists i :: 0 <= i < |s| && rel(s[i], x) }

  function AppendNew<T>(rel: (T, T) -> bool, a: seq<T>, b: seq<T>): (r: seq<T>)
    ensures a <= r
    decreases |b|
  {
    if b == [] then a
    else if Has(rel, a, b[0]) then AppendNew(rel, a, b[1..])
    else AppendNew(rel, a + [b[0]], b[1..])
  }

  lemma {:induction false} AppendNewInTwo<T>(rel: (T, T) -> bool, a: seq<T>, b: seq<T>, c: seq<T>)
    ensures AppendNew(rel, a, b + c) == AppendNew(rel, AppendNew(rel, a, b), c)
    decreases |b|
  {
    if b == [] {
      assert b + c == c;
    } else {
      assert (b + c)[1..] == b[1..] + c;
      AppendNewInTwo(rel, if Has(rel, a, b[0]) then a else a + [b[0]], b[1..], c);
    }
  }

  ghost predicate IsTransitive<T(!new)>(rel: (T, T) -> bool) {
    forall x, y, z :: rel(x, y) && rel(y, z) ==> rel(x, z)
  }

  /** What stood for something is itself still stood for. */
  lemma {:induction false} StillThere<T(!new)>(rel: (T, T) -> bool, a: seq<T>, b: seq<T>, y: T, x: T)
    requires IsTransitive(rel) && y in b && rel(y, x)
    ensures Has(rel, AppendNew(rel, a, b), x)
    decreases |b|
  {
    var more := if Has(rel, a, b[0]) then a else a + [b[0]];
    if y == b[0] {
      assert Has(rel, more, x) by {
        if Has(rel, a, y) {
          var i :| 0 <= i < |a| && rel(a[i], y);
          assert rel(more[i], x);
        } else {
          assert more[|a|] == y;
        }
      }
      HasGrows(rel, more, AppendNew(rel, more, b[1..]), x);
    } else {
      StillThere(rel, more, b[1..], y, x);
    }
  }

  lemma HasGrows<T>(rel: (T, T) -> bool, a: seq<T>, b: seq<T>, x: T)
    requires a <= b && Has(rel, a, x)
    ensures Has(rel, b, x)
  {
    var i :| 0 <= i < |a| && rel(a[i], x);
    assert rel(b[i], x);
  }

  /** Appending `c` after `b` gives what appending `b` grown by `c` gives. */
  lemma {:induction false} AppendNewAssociates<T(!new)>(rel: (T, T) -> bool, a: seq<T>, b: seq<T>, c: seq<T>)
    requires IsTransitive(rel)
    ensures AppendNew(rel, AppendNew(rel, a, b), c) == AppendNew(rel, a, AppendNew(rel, b, c))
    decreases |c|
  {
    if c != [] {
      var x := c[0];
      if Has(rel, b, x) {
        var i :| 0 <= i < |b| && rel(b[i], x);
        StillThere(rel, a, b, b[i], x);
        AppendNewAssociates(rel, a, b, c[1..]);
      } else {
        AppendNewInTwo(rel, a, b, [x]);
        AppendNewAssociates(rel, a, b + [x], c[1..]);
      }
    }
  }

  /** What appending leaves: the old list, then elements of the new one that nothing
      before them stands for; and nothing of the new one is missing. */
  lemma {:induction false} AppendsExactly<T>(rel: (T, T) -> bool, a: seq<T>, b: seq<T>)
    ensures var r := AppendNew(rel, a, b);
      && (forall i :: |a| <= i < |r| ==> r[i] in b && !Has(rel, r[..i], r[i]))
      && (forall x :: x in b ==> x in r || Has(rel, r, x))
    decreases |b|
  {
    if b != [] {
      var r := AppendNew(rel, a, b);
      assert forall x :: x in b[1..] ==> x in b;
      if Has(rel, a, b[0]) {
        AppendsExactly(rel, a, b[1..]);
        HasGrows(rel, a, r, b[0]);
      } else {
        AppendsExactly(rel, a + [b[0]], b[1..]);
        assert r[|a|] == b[0] && r[..|a|] == a;
      }
      forall i | |a| <= i < |r| ensures r[i] in b && !Has(rel, r[..i], r[i]) {
        assert !Has(rel, a, b[0]) && i == |a| ==> r[i] == b[0] && r[..i] == a;
        assert r[i] in b[1..] || (i == |a| && r[i] == b[0]);
      }
      forall x | x in b ensures x in r || Has(rel, r, x) {
        assert x == b[0] || x in b[1..];
      }
    }
  }

  // ---- merging -------------------------------------------------------------------------------

  function MergeLists(mode: ListMode, dest: seq<Node>, src: seq<Node>): seq<Node> {
    match mode
    case Replace => src
    case Extend => dest + src
    case ExtendUnique => AppendNew(SameValue(), dest, src)
  }

  /** `dest` merged with `src`, when no placeholder is dereferenced. */
  function Merge(mode: ListMode, dest: Node, src: Node): Node
    decreases src
  {
    match (dest.value, src.value)
    case (Map(d), Map(s)) => Node(Map(MergeEntries(mode, d, s)), dest.origin)
    case (List(d), List(s)) => Node(List(MergeLists(mode, d, s)), dest.origin)
    case (_, Str(s)) => if s == MISSING then dest else src
    case _ => src
  }

  /** One key after the other. */
  function MergeEntries(mode: ListMode, dest: seq<Entry>, src: seq<Entry>): seq<Entry>
    decreases src
  {
    if src == [] then dest
    else
      var key, child := src[0].key, src[0].node;
      match Find(dest, key)
      case Some(i) => MergeEntries(mode, dest[i := Entry(key, Merge(mode, dest[i].node, child))], src[1..])
      case None => MergeEntries(mode, dest + [src[0]], src[1..])
  }

  // ---- what a merged map holds ------------------------------------------------------------------

  function Keys(entries: seq<Entry>): (r: seq<string>)
    ensures |r| == |entries| && forall i :: 0 <= i < |r| ==> r[i] == entries[i].key
  {
    seq(|entries|, i requires 0 <= i < |entries| => entries[i].key)
  }

  function Under(entries: seq<Entry>, key: string): Option<Node> {
    match Find(entries, key)
    case None => None
    case Some(i) => Some(entries[i].node)
  }

  function SameKey(): (string, string) -> bool { (a, b) => a == b }

  /** Old keys stay where they are, new ones follow in their order. */
  lemma {:induction false} MergedKeys(mode: ListMode, dest: seq<Entry>, src: seq<Entry>)
    ensures Keys(MergeEntries(mode, dest, src)) == AppendNew(SameKey(), Keys(dest), Keys(src))
    decreases src
  {
    if src != [] {
      var key, child := src[0].key, src[0].node;
      assert Keys(src)[1..] == Keys(src[1..]) && Keys(src)[0] == key;
      match Find(dest, key) {
        case Some(i) =>
          var next := dest[i := Entry(key, Merge(mode, dest[i].node, child))];
          assert Keys(next) == Keys(dest) && SameKey()(Keys(dest)[i], key);
          MergedKeys(mode, next, src[1..]);
        case None =>
          assert Keys(dest + [src[0]]) == Keys(dest) + [key];
          MergedKeys(mode, dest + [src[0]], src[1..]);
      }
    }
  }

  function MergeOptions(mode: ListMode, d: Option<Node>, s: Option<Node>): Option<Node> {
    if d.None? then s else if s.None? then d else Some(Merge(mode, d.value, s.value))
  }

  /** Under each key the two values are merged. */
  lemma {:induction false} MergedAt(mode: ListMode, dest: seq<Entry>, src: seq<Entry>, k: string)
    requires UniqueKeys(src)
    ensures Under(MergeEntries(mode, dest, src), k) == MergeOptions(mode, Under(dest, k), Under(src, k))
    decreases src
  {
    if src != [] {
      var key, child := src[0].key, src[0].node;
      var next := match Find(dest, key)
        case Some(i) => dest[i := Entry(key, Merge(mode, dest[i].node, child))]
        case None => dest + [src[0]];
      MergedAt(mode, next, src[1..], k);
      if k == key {
        assert Under(src[1..], k) == None;
        AtAfter(mode, dest, src[0], next, k);
      } else {
        assert Under(src, k) == Under(src[1..], k);
        AtAfter(mode, dest, src[0], next, k);
      }
    }
  }

  lemma AtAfter(mode: ListMode, dest: seq<Entry>, e: Entry, next: seq<Entry>, k: string)
    requires next == match Find(dest, e.key)
      case Some(i) => dest[i := Entry(e.key, Merge(mode, dest[i].node, e.node))]
      case None => dest + [e]
    ensures Under(next, k) == if k == e.key then MergeOptions(mode, Under(dest, k), Some(e.node)) else Under(dest, k)
  {
    match Find(dest, e.key) {
      case Some(i) =>
        assert Keys(next) == Keys(dest);
        SameFind(next, dest, k);
      case None =>
        FindAppended(dest, e, k);
    }
  }

  lemma {:induction false} SameFind(a: seq<Entry>, b: seq<Entry>, k: string)
    requires Keys(a) == Keys(b)
    ensures Find(a, k) == Find(b, k)
  {
    if a != [] {
      assert a[0].key == Keys(a)[0] == Keys(b)[0] == b[0].key;
      assert Keys(a[1..]) == Keys(a)[1..] == Keys(b)[1..] == Keys(b[1..]);
      SameFind(a[1..], b[1..], k);
    }
  }

  lemma {:induction false} FindAppended(a: seq<Entry>, e: Entry, k: string)
    ensures Find(a + [e], k) ==
      if Find(a, k).Some? then Find(a, k) else if e.key == k then Some(|a|) else None
  {
    if a != [] {
      assert (a + [e])[1..] == a[1..] + [e];
      FindAppended(a[1..], e, k);
    }
  }

  ghost predicate NoTwice(ks: seq<string>) { forall i, j :: 0 <= i < j < |ks| ==> ks[i] != ks[j] }

  lemma {:induction false} NewKeysAreUnique(a: seq<string>, b: seq<string>)
    requires NoTwice(a)
    ensures NoTwice(AppendNew(SameKey(), a, b))
    decreases |b|
  {
    if b != [] {
      if Has(SameKey(), a, b[0]) {
        NewKeysAreUnique(a, b[1..]);
      } else {
        forall i | 0 <= i < |a| ensures a[i] != b[0] {
          assert !SameKey()(a[i], b[0]);
        }
        NewKeysAreUnique(a + [b[0]], b[1..]);
      }
    }
  }

  lemma MergedIsUnique(mode: ListMode, a: seq<Entry>, b: seq<Entry>)
    requires UniqueKeys(a)
    ensures UniqueKeys(MergeEntries(mode, a, b))
  {
    MergedKeys(mode, a, b);
    NewKeysAreUnique(Keys(a), Keys(b));
    var m := MergeEntries(mode, a, b);
    assert forall i :: 0 <= i < |m| ==> m[i].key == Keys(m)[i];
  }

  lemma SameEntries(a: seq<Entry>, b: seq<Entry>)
    requires UniqueKeys(a) && Keys(a) == Keys(b) && forall k :: Under(a, k) == Under(b, k)
    ensures a == b
  {
    forall i | 0 <= i < |a| ensures a[i] == b[i] {
      assert a[i].key == Keys(a)[i] == Keys(b)[i] == b[i].key;
      SameFind(a, b, a[i].key);
      assert Find(a, a[i].key) == Some(i);
      assert Under(a, a[i].key) == Under(b, a[i].key);
    }
  }

  // ---- when the order of merges does not matter ---------------------------------------------------

  predicate SameContainer(a: Value, b: Value) { (a.Map? && b.Map?) || (a.List? && b.List?) }

  ghost predicate ProperNode(n: Node) { Proper(n.value) }

  ghost predicate AllProper(x: seq<Entry>) { forall i :: 0 <= i < |x| ==> ProperNode(x[i].node) }

  /** Unless both are maps, or both lists, one of the two is the result. */
  lemma MergeOther(mode: ListMode, a: Node, b: Node)
    requires !SameContainer(a.value, b.value)
    ensures Merge(mode, a, b) == if IsMissing(b.value) then a else b
  {
  }

  /** The list leaves nothing behind when `c` is merged over it: `c` starts with it, it
      holds no NaN, and nothing in the rest of `c` equals anything before. */
  predicate ListGivesWay(mode: ListMode, a: seq<Node>, c: seq<Node>) {
    match mode
    case Replace => true
    case Extend => a == []
    case ExtendUnique =>
      && a <= c && (forall i :: 0 <= i < |a| ==> NaNFree(a[i].value))
      && forall i :: |a| <= i < |c| ==> !Has(SameValue(), c[..i], c[i])
  }

  /** The node leaves nothing behind when `c` is merged over it: of two maps or two lists,
      they are written at the same place, `c` starts with the keys or items of `a`, and
      so on below; otherwise `c` is not `???`, or both are the same `???`. */
  predicate GivesWay(mode: ListMode, a: Node, c: Node)
    decreases a
  {
    match (a.value, c.value)
    case (Map(x), Map(z)) =>
      && a.origin == c.origin && |x| <= |z|
      && forall i :: 0 <= i < |x| ==> x[i].key == z[i].key && GivesWay(mode, x[i].node, z[i].node)
    case (List(x), List(z)) => a.origin == c.origin && ListGivesWay(mode, x, z)
    case _ => IsMissing(c.value) ==> a == c
  }

  /** At every path all three share: a map or list that is first replaced, and then
      merged into, must hold nothing the last one does not put there itself. */
  predicate Associates(mode: ListMode, a: Node, b: Node, c: Node)
    decreases a
  {
    if IsMissing(b.value) || !SameContainer(a.value, c.value) then true
    else if !SameContainer(a.value, b.value) then GivesWay(mode, a, c)
    else a.value.Map? ==>
      forall i :: 0 <= i < |a.value.entries| ==>
        var k := a.value.entries[i].key;
        Under(b.value.entries, k).Some? && Under(c.value.entries, k).Some? ==>
          Associates(mode, a.value.entries[i].node, Under(b.value.entries, k).value, Under(c.value.entries, k).value)
  }

  // ---- what leaves nothing behind -------------------------------------------------------------------

  lemma {:induction false} AllThere<T>(rel: (T, T) -> bool, a: seq<T>, b: seq<T>)
    requires forall x :: x in b ==> Has(rel, a, x)
    ensures AppendNew(rel, a, b) == a
    decreases |b|
  {
    if b != [] {
      assert b[0] in b && forall x :: x in b[1..] ==> x in b;
      AllThere(rel, a, b[1..]);
    }
  }

  lemma {:induction false} AllNew<T>(rel: (T, T) -> bool, a: seq<T>, b: seq<T>)
    ensures AppendNew(rel, a, b) == a + b <==> forall i :: |a| <= i < |a + b| ==> !Has(rel, (a + b)[..i], (a + b)[i])
    decreases |b|
  {
    if b == [] {
      assert a + b == a;
    } else {
      assert (a + b)[..|a|] == a && (a + b)[|a|] == b[0];
      if Has(rel, a, b[0]) {
        AppendIsShort(rel, a, b[1..]);
      } else {
        assert (a + [b[0]]) + b[1..] == a + b;
        AllNew(rel, a + [b[0]], b[1..]);
      }
    }
  }

  lemma {:induction false} AppendIsShort<T>(rel: (T, T) -> bool, a: seq<T>, b: seq<T>)
    ensures |AppendNew(rel, a, b)| <= |a| + |b|
    decreases |b|
  {
    if b != [] {
      AppendIsShort(rel, if Has(rel, a, b[0]) then a else a + [b[0]], b[1..]);
    }
  }

  /** What nothing there equals is appended every time. */
  lemma {:induction false} CountedAgain(rel: (Node, Node) -> bool, a: seq<Node>, b: seq<Node>, x: Node)
    requires forall y :: y in a || y in b ==> !rel(y, x)
    ensures multiset(AppendNew(rel, a, b))[x] == multiset(a)[x] + multiset(b)[x]
    decreases |b|
  {
    if b != [] {
      assert b == [b[0]] + b[1..] && b[0] in b;
      assert forall y :: y in b[1..] ==> y in b;
      CountedAgain(rel, if Has(rel, a, b[0]) then a else a + [b[0]], b[1..], x);
    }
  }

  lemma {:induction false} EqualToOne(x: Node, y: Node)
    requires ProperNode(x) && ProperNode(y) && PyEq(y.value, x.value)
    ensures NaNFree(x.value)
  {
    Symmetric(y.value, x.value);
    Transitive(x.value, y.value, x.value);
    Reflexive(x.value);
  }

  lemma {:induction false} NoNaNBefore(a: seq<Node>, c: seq<Node>, x: Node)
    requires forall y :: y in a || y in c ==> ProperNode(y)
    requires AppendNew(SameValue(), a, c) == c && x in a
    ensures NaNFree(x.value)
  {
    if !NaNFree(x.value) {
      forall y | y in a || y in c ensures !SameValue()(y, x) {
        if PyEq(y.value, x.value) {
          EqualToOne(x, y);
        }
      }
      CountedAgain(SameValue(), a, c, x);
    }
  }

  lemma {:induction false} ListsGiveWay(mode: ListMode, a: seq<Node>, c: seq<Node>)
    requires forall y :: y in a || y in c ==> ProperNode(y)
    ensures MergeLists(mode, a, c) == c <==> ListGivesWay(mode, a, c)
  {
    match mode {
      case Replace =>
      case Extend =>
        assert |a + c| == |c| ==> a == [];
        assert [] + c == c;
      case ExtendUnique =>
        UniqueGivesWay(a, c);
    }
  }

  lemma {:induction false} UniqueGivesWay(a: seq<Node>, c: seq<Node>)
    requires forall y :: y in a || y in c ==> ProperNode(y)
    ensures AppendNew(SameValue(), a, c) == c <==> ListGivesWay(ExtendUnique, a, c)
  {
    if a <= c {
      var rest := c[|a|..];
      assert c == a + rest;
      if AppendNew(SameValue(), a, c) == c {
        forall i | 0 <= i < |a| ensures NaNFree(a[i].value) {
          NoNaNBefore(a, c, a[i]);
        }
      }
      if forall i :: 0 <= i < |a| ==> NaNFree(a[i].value) {
        forall x | x in a ensures Has(SameValue(), a, x) {
          Reflexive(x.value);
          assert SameValue()(x, x);
        }
        AllThere(SameValue(), a, a);
        AppendNewInTwo(SameValue(), a, a, rest);
        AllNew(SameValue(), a, rest);
      }
    }
  }

  lemma {:induction false} MapsGiveWay(mode: ListMode, x: seq<Entry>, z: seq<Entry>)
    requires UniqueKeys(x) && UniqueKeys(z)
    ensures MergeEntries(mode, x, z) == z <==>
      |x| <= |z| && forall i :: 0 <= i < |x| ==> x[i].key == z[i].key && Merge(mode, x[i].node, z[i].node) == z[i].node
  {
    MergedKeys(mode, x, z);
    if MergeEntries(mode, x, z) == z {
      assert Keys(x) <= Keys(z);
      forall i | 0 <= i < |x| ensures x[i].key == z[i].key && Merge(mode, x[i].node, z[i].node) == z[i].node {
        assert Keys(x)[i] == Keys(z)[i];
        MergedAt(mode, x, z, x[i].key);
        assert Find(x, x[i].key) == Some(i) == Find(z, x[i].key);
      }
    }
    if |x| <= |z| &&
       forall i :: 0 <= i < |x| ==> x[i].key == z[i].key && Merge(mode, x[i].node, z[i].node) == z[i].node
    {
      KeysGiveWay(x, z);
      forall k ensures Under(MergeEntries(mode, x, z), k) == Under(z, k) {
        MergedAt(mode, x, z, k);
        UnderGivesWay(mode, x, z, k);
      }
      SameEntries(z, MergeEntries(mode, x, z));
    }
  }

  lemma {:induction false} UnderGivesWay(mode: ListMode, x: seq<Entry>, z: seq<Entry>, k: string)
    requires UniqueKeys(z) && |x| <= |z|
    requires forall i :: 0 <= i < |x| ==> x[i].key == z[i].key && Merge(mode, x[i].node, z[i].node) == z[i].node
    ensures MergeOptions(mode, Under(x, k), Under(z, k)) == Under(z, k)
  {
    if Find(x, k).Some? {
      var i := Find(x, k).value;
      assert z[i].key == k && Find(z, k) == Some(i);
    }
  }

  lemma {:induction false} KeysGiveWay(x: seq<Entry>, z: seq<Entry>)
    requires UniqueKeys(z) && |x| <= |z| && forall i :: 0 <= i < |x| ==> x[i].key == z[i].key
    ensures AppendNew(SameKey(), Keys(x), Keys(z)) == Keys(z)
  {
    var a, c := Keys(x), Keys(z);
    var rest := c[|a|..];
    assert c == a + rest;
    forall k | k in a ensures Has(SameKey(), a, k) {
      var i :| 0 <= i < |a| && a[i] == k;
      assert SameKey()(a[i], k);
    }
    AllThere(SameKey(), a, a);
    AppendNewInTwo(SameKey(), a, a, rest);
    AllNew(SameKey(), a, rest);
  }

  /** This is what giving way means. */
  lemma {:induction false} GivesWayExactly(mode: ListMode, a: Node, c: Node)
    requires ProperNode(a) && ProperNode(c)
    ensures Merge(mode, a, c) == c <==> GivesWay(mode, a, c)
    decreases a
  {
    if a.value.Map? && c.value.Map? {
      var x, z := a.value.entries, c.value.entries;
      assert AllProper(x) && AllProper(z);
      MapsGiveWay(mode, x, z);
      forall i | 0 <= i < |x| && i < |z|
        ensures Merge(mode, x[i].node, z[i].node) == z[i].node <==> GivesWay(mode, x[i].node, z[i].node)
      {
        GivesWayExactly(mode, x[i].node, z[i].node);
      }
    } else if a.value.List? && c.value.List? {
      forall y | y in a.value.items || y in c.value.items ensures ProperNode(y) {}
      ListsGiveWay(mode, a.value.items, c.value.items);
    } else {
      MergeOther(mode, a, c);
    }
  }

  lemma SameIsTransitive()
    ensures IsTransitive(SameValue())
  {
    forall x: Node, y: Node, z: Node | SameValue()(x, y) && SameValue()(y, z) ensures SameValue()(x, z) {
      Transitive(x.value, y.value, z.value);
    }
  }

  lemma {:induction false} ListsAssociate(mode: ListMode, a: seq<Node>, b: seq<Node>, c: seq<Node>)
    ensures MergeLists(mode, MergeLists(mode, a, b), c) == MergeLists(mode, a, MergeLists(mode, b, c))
  {
    match mode {
      case ExtendUnique =>
        SameIsTransitive();
        AppendNewAssociates(SameValue(), a, b, c);
      case Extend =>
        assert (a + b) + c == a + (b + c);
      case Replace =>
    }
  }

  /** Both orders, under one key. */
  lemma BothOrdersAt(mode: ListMode, a: seq<Entry>, b: seq<Entry>, c: seq<Entry>, k: string)
    requires UniqueKeys(b) && UniqueKeys(c)
    ensures Under(MergeEntries(mode, MergeEntries(mode, a, b), c), k) ==
            MergeOptions(mode, MergeOptions(mode, Under(a, k), Under(b, k)), Under(c, k))
    ensures Under(MergeEntries(mode, a, MergeEntries(mode, b, c)), k) ==
            MergeOptions(mode, Under(a, k), MergeOptions(mode, Under(b, k), Under(c, k)))
  {
    MergedIsUnique(mode, b, c);
    MergedAt(mode, a, b, k);
    MergedAt(mode, MergeEntries(mode, a, b), c, k);
    MergedAt(mode, b, c, k);
    MergedAt(mode, a, MergeEntries(mode, b, c), k);
  }

  lemma BothOrdersKeys(mode: ListMode, a: seq<Entry>, b: seq<Entry>, c: seq<Entry>)
    requires UniqueKeys(a)
    ensures Keys(MergeEntries(mode, MergeEntries(mode, a, b), c)) ==
      Keys(MergeEntries(mode, a, MergeEntries(mode, b, c)))
    ensures UniqueKeys(MergeEntries(mode, MergeEntries(mode, a, b), c))
  {
    MergedKeys(mode, a, b);
    MergedKeys(mode, MergeEntries(mode, a, b), c);
    MergedKeys(mode, b, c);
    MergedKeys(mode, a, MergeEntries(mode, b, c));
    AppendNewAssociates(SameKey(), Keys(a), Keys(b), Keys(c));
    MergedIsUnique(mode, a, b);
    MergedIsUnique(mode, MergeEntries(mode, a, b), c);
  }

  /** Merging is associative exactly on the trees that `Associates` describes: origins,
      key order and list order included. */
  lemma {:induction false} Associativity(mode: ListMode, a: Node, b: Node, c: Node)
    requires ProperNode(a) && ProperNode(b) && ProperNode(c)
    ensures Merge(mode, Merge(mode, a, b), c) == Merge(mode, a, Merge(mode, b, c)) <==> Associates(mode, a, b, c)
    decreases a
  {
    if SameContainer(a.value, b.value) && SameContainer(b.value, c.value) {
      if a.value.List? {
        ListsAssociate(mode, a.value.items, b.value.items, c.value.items);
      } else {
        MapsAssociate(mode, a, b, c);
      }
    } else {
      NotAllTheSame(mode, a, b, c);
    }
  }

  lemma MergeSame(mode: ListMode, a: Node, b: Node)
    requires SameContainer(a.value, b.value)
    ensures SameContainer(Merge(mode, a, b).value, a.value) && !IsMissing(Merge(mode, a, b).value)
  {
  }

  lemma {:induction false} NotAllTheSame(mode: ListMode, a: Node, b: Node, c: Node)
    requires ProperNode(a) && ProperNode(c)
    requires !(SameContainer(a.value, b.value) && SameContainer(b.value, c.value))
    ensures Merge(mode, Merge(mode, a, b), c) == Merge(mode, a, Merge(mode, b, c)) <==> Associates(mode, a, b, c)
  {
    if SameContainer(b.value, c.value) {
      MergeOther(mode, a, b);
      MergeSame(mode, b, c);
      MergeOther(mode, a, Merge(mode, b, c));
    } else if SameContainer(a.value, b.value) {
      MergeSame(mode, a, b);
      MergeOther(mode, b, c);
      MergeOther(mode, Merge(mode, a, b), c);
      MergeOther(mode, a, c);
    } else {
      MergeOther(mode, b, c);
      MergeOther(mode, a, b);
      if SameContainer(a.value, c.value) {
        GivesWayExactly(mode, a, c);
      } else {
        MergeOther(mode, a, c);
      }
    }
  }

  lemma {:induction false} MapsAssociate(mode: ListMode, a: Node, b: Node, c: Node)
    requires a.value.Map? && b.value.Map? && c.value.Map?
    requires ProperNode(a) && ProperNode(b) && ProperNode(c)
    ensures Merge(mode, Merge(mode, a, b), c) == Merge(mode, a, Merge(mode, b, c)) <==> Associates(mode, a, b, c)
    decreases a, 0
  {
    var x, y, z := a.value.entries, b.value.entries, c.value.entries;
    forall i | 0 <= i < |x| ensures KeyAgrees(mode, x, y, z, x[i].key) <==> KidAssociates(mode, x[i], y, z) {
      KidsAssociate(mode, a, b, c, i);
    }
    KidsDecide(mode, x, y, z);
    AllKeysAgree(mode, x, y, z);
    AssociatesByKey(mode, a, b, c);
  }

  lemma AssociatesByKey(mode: ListMode, a: Node, b: Node, c: Node)
    requires a.value.Map? && b.value.Map? && c.value.Map?
    ensures var x, y, z := a.value.entries, b.value.entries, c.value.entries;
      Associates(mode, a, b, c) <==> forall i :: 0 <= i < |x| ==> KidAssociates(mode, x[i], y, z)
  {
  }

  lemma KidsDecide(mode: ListMode, x: seq<Entry>, y: seq<Entry>, z: seq<Entry>)
    requires forall i :: 0 <= i < |x| ==> (KeyAgrees(mode, x, y, z, x[i].key) <==> KidAssociates(mode, x[i], y, z))
    ensures (forall k :: KeyAgrees(mode, x, y, z, k)) <==>
      (forall i :: 0 <= i < |x| ==> KidAssociates(mode, x[i], y, z))
  {
    if forall i :: 0 <= i < |x| ==> KidAssociates(mode, x[i], y, z) {
      forall k ensures KeyAgrees(mode, x, y, z, k) {
        if Find(x, k).Some? {
          assert KidAssociates(mode, x[Find(x, k).value], y, z);
        }
      }
    }
  }

  predicate KidAssociates(mode: ListMode, e: Entry, y: seq<Entry>, z: seq<Entry>) {
    Under(y, e.key).Some? && Under(z, e.key).Some? ==>
      Associates(mode, e.node, Under(y, e.key).value, Under(z, e.key).value)
  }

  /** Both orders give the same under this key. */
  predicate KeyAgrees(mode: ListMode, x: seq<Entry>, y: seq<Entry>, z: seq<Entry>, k: string) {
    MergeOptions(mode, MergeOptions(mode, Under(x, k), Under(y, k)), Under(z, k)) ==
    MergeOptions(mode, Under(x, k), MergeOptions(mode, Under(y, k), Under(z, k)))
  }

  lemma {:induction false} KidsAssociate(mode: ListMode, a: Node, b: Node, c: Node, i: nat)
    requires a.value.Map? && b.value.Map? && c.value.Map? && i < |a.value.entries|
    requires ProperNode(a) && ProperNode(b) && ProperNode(c)
    ensures var x, y, z := a.value.entries, b.value.entries, c.value.entries;
      KeyAgrees(mode, x, y, z, x[i].key) <==> KidAssociates(mode, x[i], y, z)
    decreases a.value
  {
    var x, y, z := a.value.entries, b.value.entries, c.value.entries;
    var k := x[i].key;
    assert Find(x, k) == Some(i);
    if Under(y, k).Some? && Under(z, k).Some? {
      assert Proper(x[i].node.value) && Proper(y[Find(y, k).value].node.value) &&
        Proper(z[Find(z, k).value].node.value);
      Associativity(mode, x[i].node, Under(y, k).value, Under(z, k).value);
    }
  }

  lemma AllKeysAgree(mode: ListMode, x: seq<Entry>, y: seq<Entry>, z: seq<Entry>)
    requires UniqueKeys(x) && UniqueKeys(y) && UniqueKeys(z)
    ensures MergeEntries(mode, MergeEntries(mode, x, y), z) == MergeEntries(mode, x, MergeEntries(mode, y, z)) <==>
            forall k :: KeyAgrees(mode, x, y, z, k)
  {
    var left, right := MergeEntries(mode, MergeEntries(mode, x, y), z), MergeEntries(mode, x, MergeEntries(mode, y, z));
    forall k ensures KeyAgrees(mode, x, y, z, k) <==> Under(left, k) == Under(right, k) {
      BothOrdersAt(mode, x, y, z, k);
    }
    BothOrdersKeys(mode, x, y, z);
    if forall k :: KeyAgrees(mode, x, y, z, k) {
      SameEntries(left, right);
    }
  }

  /** Kinds agree at every path two of the trees share. */
  predicate KindsAgree(a: Node, b: Node)
    decreases a
  {
    match (a.value, b.value)
    case (Map(x), Map(y)) =>
      forall i :: 0 <= i < |x| && Under(y, x[i].key).Some? ==> KindsAgree(x[i].node, Under(y, x[i].key).value)
    case (List(_), List(_)) => true
    case _ => !a.value.IsContainer() && !b.value.IsContainer()
  }

  /** As the comment on class closures assumes. */
  lemma AgreeingTreesAssociate(mode: ListMode, a: Node, b: Node, c: Node)
    requires ProperNode(a) && ProperNode(b) && ProperNode(c)
    requires KindsAgree(a, b) && KindsAgree(b, c)
    ensures Merge(mode, Merge(mode, a, b), c) == Merge(mode, a, Merge(mode, b, c))
  {
    AgreeingIsEnough(mode, a, b, c);
    Associativity(mode, a, b, c);
  }

  lemma {:induction false} AgreeingIsEnough(mode: ListMode, a: Node, b: Node, c: Node)
    requires KindsAgree(a, b) && KindsAgree(b, c)
    ensures Associates(mode, a, b, c)
    decreases a
  {
    if a.value.Map? && b.value.Map? && c.value.Map? {
      var x, y, z := a.value.entries, b.value.entries, c.value.entries;
      forall i | 0 <= i < |x| ensures KidAssociates(mode, x[i], y, z) {
        var k := x[i].key;
        if Under(y, k).Some? && Under(z, k).Some? {
          var j := Find(y, k).value;
          assert y[j].key == k;
          AgreeingIsEnough(mode, x[i].node, y[j].node, Under(z, k).value);
        }
      }
    }
  }

  /** Without it the order matters: a list, a scalar over it, a list over that. */
  lemma ReplacedListComesBack(o: Origin)
    ensures var one, two := Node(Int(1), o), Node(Int(2), o);
      var a, b, c := Node(List([one]), o), Node(Null, o), Node(List([two]), o);
      && Merge(ExtendUnique, Merge(ExtendUnique, a, b), c) == Node(List([two]), o)
      && Merge(ExtendUnique, a, Merge(ExtendUnique, b, c)) == Node(List([one, two]), o)
  {
    SmallIntegersAreExact(1, 2);
    var one, two := Node(Int(1), o), Node(Int(2), o);
    assert !Has(SameValue(), [one], two) && [two][1..] == [];
    assert AppendNew(SameValue(), [one], [two]) == AppendNew(SameValue(), [one] + [two], []);
    assert [one] + [two] == [one, two];
  }

  /** `???` leaves what it meets, and gives way to what meets it. */
  lemma {:induction false} MissingIsIdentity(mode: ListMode, a: Node, o: Origin)
    ensures Merge(mode, a, Node(Str(MISSING), o)) == a
    ensures !IsMissing(a.value) ==> Merge(mode, Node(Str(MISSING), o), a) == a
  {
  }

  /** Merging keeps keys unique everywhere. */
  lemma {:induction false} MergedIsProper(mode: ListMode, a: Node, b: Node)
    requires ProperNode(a) && ProperNode(b)
    ensures ProperNode(Merge(mode, a, b))
    decreases b
  {
    match (a.value, b.value) {
      case (Map(x), Map(y)) =>
        MergedIsUnique(mode, x, y);
        assert AllProper(x) && AllProper(y);
        EntriesAreProper(mode, x, y);
      case (List(x), List(y)) =>
        AppendedFrom(SameValue(), x, y);
        var r := MergeLists(mode, x, y);
        forall i | 0 <= i < |r| ensures Proper(r[i].value) {
          assert r[i] in r && (r[i] in x || r[i] in y);
        }
      case _ =>
    }
  }

  lemma {:induction false} AppendedFrom<T>(rel: (T, T) -> bool, a: seq<T>, b: seq<T>)
    ensures forall x :: x in AppendNew(rel, a, b) ==> x in a || x in b
    decreases |b|
  {
    if b != [] {
      AppendedFrom(rel, if Has(rel, a, b[0]) then a else a + [b[0]], b[1..]);
    }
  }

  lemma {:induction false} EntriesAreProper(mode: ListMode, x: seq<Entry>, y: seq<Entry>)
    requires AllProper(x) && AllProper(y)
    ensures AllProper(MergeEntries(mode, x, y))
    decreases y
  {
    if y != [] {
      match Find(x, y[0].key) {
        case Some(i) =>
          MergedIsProper(mode, x[i].node, y[0].node);
          EntriesAreProper(mode, x[i := Entry(y[0].key, Merge(mode, x[i].node, y[0].node))], y[1..]);
        case None =>
          EntriesAreProper(mode, x + [y[0]], y[1..]);
      }
    }
  }
}
