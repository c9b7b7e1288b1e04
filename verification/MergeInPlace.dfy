/**
 The merge as it runs (merge.rs): one tree, changed in place at a path that is pushed
 and popped, placeholders dereferenced against the tree merged so far, and a log of
 what was replaced.
*/
module MergeInPlace {
  import opened Wrappers
  import opened Decimal
  import opened Values
  import opened PythonEq
  import opened Merging

  // ---- navigating -----------------------------------------------------------------------

  function Kids(v: Value): (r: seq<Node>)
    ensures v.Map? ==> |r| == |v.entries| && forall i :: 0 <= i < |r| ==> r[i] == v.entries[i].node
    ensures v.List? ==> r == v.items
  {
    match v
    case List(xs) => xs
    case Map(xs) => seq(|xs|, i requires 0 <= i < |xs| => xs[i].node)
    case _ => []
  }

  /** Which child a key leads to. */
  function Step(v: Value, key: Key): (r: Option<nat>)
    ensures r.Some? ==> r.value < |Kids(v)|
  {
    match (v, key)
    case (Map(m), Name(k)) => Find(m, k)
    case (Map(m), Index(i)) => Find(m, Digits(i))
    case (List(l), Index(i)) => if i < |l| then Some(i) else None
    case (List(l), Name(s)) =>
      (match ParseUsize(s)
       case Some(i) => if i < |l| then Some(i) else None
       case None => None)
    case _ => None
  }

  function WithKid(v: Value, i: nat, n: Node): (r: Value)
    requires i < |Kids(v)|
    ensures Kids(r) == Kids(v)[i := n] && forall key :: Step(r, key) == Step(v, key)
  {
    match v
    case List(xs) => List(xs[i := n])
    case Map(xs) =>
      var ys := xs[i := Entry(xs[i].key, n)];
      assert Keys(ys) == Keys(xs);
      assert forall k {:trigger Find(ys, k)} :: Find(ys, k) == Find(xs, k) by {
        forall k { SameFind(ys, xs, k); }
      }
      Map(ys)
  }

  function Get(root: Node, path: KeyPath): Option<Node>
    decreases |path|
  {
    if path == [] then Some(root)
    else match Step(root.value, path[0])
      case None => None
      case Some(i) => Get(Kids(root.value)[i], path[1..])
  }

  /** The tree with another node at this path. */
  function Set(root: Node, path: KeyPath, n: Node): Node
    requires Get(root, path).Some?
    decreases |path|
  {
    if path == [] then n
    else
      var i := Step(root.value, path[0]).value;
      Node(WithKid(root.value, i, Set(Kids(root.value)[i], path[1..], n)), root.origin)
  }

  lemma {:induction false} GetSet(root: Node, path: KeyPath, n: Node)
    requires Get(root, path).Some?
    ensures Get(Set(root, path, n), path) == Some(n)
    decreases |path|
  {
    if path != [] {
      GetSet(Kids(root.value)[Step(root.value, path[0]).value], path[1..], n);
    }
  }

  lemma {:induction false} SetSet(root: Node, path: KeyPath, m: Node, n: Node)
    requires Get(root, path).Some?
    ensures Get(Set(root, path, m), path).Some? && Set(Set(root, path, m), path, n) == Set(root, path, n)
    decreases |path|
  {
    GetSet(root, path, m);
    if path != [] {
      var i := Step(root.value, path[0]).value;
      SetSet(Kids(root.value)[i], path[1..], m, n);
      KidTwice(root.value, i, Set(Kids(root.value)[i], path[1..], m), Set(Kids(root.value)[i], path[1..], n));
    }
  }

  lemma KidTwice(v: Value, i: nat, m: Node, n: Node)
    requires i < |Kids(v)|
    ensures WithKid(WithKid(v, i, m), i, n) == WithKid(v, i, n)
  {
  }

  lemma {:induction false} SetSame(root: Node, path: KeyPath)
    requires Get(root, path).Some?
    ensures Set(root, path, Get(root, path).value) == root
    decreases |path|
  {
    if path != [] {
      var i := Step(root.value, path[0]).value;
      SetSame(Kids(root.value)[i], path[1..]);
      KidSame(root.value, i);
    }
  }

  lemma KidSame(v: Value, i: nat)
    requires i < |Kids(v)|
    ensures WithKid(v, i, Kids(v)[i]) == v
  {
    if v.Map? {
      assert v.entries[i := Entry(v.entries[i].key, v.entries[i].node)] == v.entries;
    }
  }

  /** One key further down. */
  lemma {:induction false} Deeper(root: Node, path: KeyPath, key: Key, n: Node)
    requires Get(root, path).Some? && Step(Get(root, path).value.value, key).Some?
    ensures var dest := Get(root, path).value;
      var i := Step(dest.value, key).value;
      && Get(root, path + [key]) == Some(Kids(dest.value)[i])
      && Set(root, path + [key], n) == Set(root, path, Node(WithKid(dest.value, i, n), dest.origin))
    decreases |path|
  {
    if path == [] {
      assert [key][1..] == [];
    } else {
      assert (path + [key])[1..] == path[1..] + [key];
      Deeper(Kids(root.value)[Step(root.value, path[0]).value], path[1..], key, n);
    }
  }

  /** Two paths that lead to different places of the tree, neither below the other. */
  predicate Part(root: Node, p: KeyPath, q: KeyPath)
    decreases |p|
  {
    p != [] && q != [] &&
    var i, j := Step(root.value, p[0]), Step(root.value, q[0]);
    i.Some? && j.Some? && (i != j || Part(Kids(root.value)[i.value], p[1..], q[1..]))
  }

  /** Changing one place leaves every place apart from it as it was. */
  lemma {:induction false} SetElsewhere(root: Node, path: KeyPath, n: Node, q: KeyPath)
    requires Get(root, path).Some? && Part(root, path, q)
    ensures Get(Set(root, path, n), q) == Get(root, q)
    decreases |path|
  {
    var i, j := Step(root.value, path[0]).value, Step(root.value, q[0]).value;
    if i == j {
      SetElsewhere(Kids(root.value)[i], path[1..], n, q[1..]);
    }
  }

  // ---- the log ------------------------------------------------------------------------------

  ghost predicate Logged(path: KeyPath, log: seq<MergeEvent>) {
    exists i :: 0 <= i < |log| && log[i].path == path
  }

  /** A list that a list replaced as a whole. */
  predicate ListReplaced(mode: ListMode, before: Node, after: Node) {
    mode.Replace? && before.value.List? && after.value.List? && after.origin == before.origin
  }

  /** Whatever was there before and is not there any more is at or below a logged path, or
      in a list that was replaced as a whole. */
  ghost predicate Covered(mode: ListMode, before: Node, after: Node, path: KeyPath, log: seq<MergeEvent>)
    decreases before
  {
    || after == before
    || Logged(path, log)
    || ListReplaced(mode, before, after)
    || (before.value.Map? && after.value.Map? &&
      EntriesCovered(mode, before.value.entries, after.value.entries, path, log))
  }

  ghost predicate EntriesCovered(
    mode: ListMode, before: seq<Entry>, after: seq<Entry>, path: KeyPath, log: seq<MergeEvent>)
    decreases before
  {
    && |before| <= |after|
    && forall i :: 0 <= i < |before| ==>
         && after[i].key == before[i].key
         && Covered(mode, before[i].node, after[i].node, path + [Name(before[i].key)], log)
  }

  lemma {:induction false} MoreLog(
    mode: ListMode, before: Node, after: Node, path: KeyPath, log: seq<MergeEvent>, more: seq<MergeEvent>)
    requires Covered(mode, before, after, path, log) && forall e :: e in log ==> e in more
    ensures Covered(mode, before, after, path, more)
    decreases before
  {
    if Logged(path, log) {
      var i :| 0 <= i < |log| && log[i].path == path;
      assert log[i] in more;
    } else if after != before && !ListReplaced(mode, before, after) {
      var x, y := before.value.entries, after.value.entries;
      forall i | 0 <= i < |x| ensures Covered(mode, x[i].node, y[i].node, path + [Name(x[i].key)], more) {
        MoreLog(mode, x[i].node, y[i].node, path + [Name(x[i].key)], log, more);
      }
    }
  }

  /** Two changes one after the other. */
  lemma {:induction false} CoveredThen(
    mode: ListMode, a: Node, b: Node, c: Node, path: KeyPath, log: seq<MergeEvent>)
    requires Covered(mode, a, b, path, log) && Covered(mode, b, c, path, log)
    ensures Covered(mode, a, c, path, log)
    decreases a
  {
    if a != b && b != c && !Logged(path, log) && a.value.Map? {
      var x, y, z := a.value.entries, b.value.entries, c.value.entries;
      forall i | 0 <= i < |x|
        ensures z[i].key == x[i].key && Covered(mode, x[i].node, z[i].node, path + [Name(x[i].key)], log)
      {
        CoveredThen(mode, x[i].node, y[i].node, z[i].node, path + [Name(x[i].key)], log);
      }
    }
  }

  /** Something at or above this path is logged. */
  ghost predicate LoggedAbove(path: KeyPath, log: seq<MergeEvent>) {
    exists i :: 0 <= i < |log| && log[i].path <= path
  }

  /** At or above this place a list replaced a list. */
  ghost predicate InReplacedList(before: Node, after: Node, rel: KeyPath) {
    exists k :: 0 <= k <= |rel| && ListsAt(before, after, rel[..k])
  }

  predicate ListsAt(before: Node, after: Node, rel: KeyPath) {
    && Get(before, rel).Some? && Get(before, rel).value.value.List?
    && Get(after, rel).Some? && Get(after, rel).value.value.List?
  }

  /** A change at this place is at or below a logged path; when lists are replaced as a
      whole, it can also be in such a list. */
  ghost predicate Accounted(
    mode: ListMode, before: Node, after: Node, path: KeyPath, log: seq<MergeEvent>, rel: KeyPath)
  {
    LoggedAbove(path + rel, log) || (mode.Replace? && InReplacedList(before, after, rel))
  }

  /** In terms of paths: a scalar or list that is no longer what it was is accounted for. */
  lemma {:induction false} ChangesAreLogged(
    mode: ListMode, before: Node, after: Node, path: KeyPath, log: seq<MergeEvent>, rel: KeyPath)
    requires Covered(mode, before, after, path, log) && Get(before, rel).Some? && !Get(before, rel).value.value.Map?
    requires Get(after, rel) != Get(before, rel) && forall i :: 0 <= i < |rel| ==> rel[i].Name?
    ensures Accounted(mode, before, after, path, log, rel)
    decreases |rel|
  {
    if Logged(path, log) {
      AboveIsEnough(path, rel, log);
    } else if ListReplaced(mode, before, after) {
      assert rel[..0] == [] && ListsAt(before, after, rel[..0]);
    } else {
      var i := OneDown(mode, before, after, path, log, rel);
      var x, y := before.value.entries[i].node, after.value.entries[i].node;
      ChangesAreLogged(mode, x, y, path + [rel[0]], log, rel[1..]);
      AccountedBelow(mode, before, after, path, log, i, rel);
    }
  }

  lemma {:induction false} AccountedBelow(
    mode: ListMode, before: Node, after: Node, path: KeyPath, log: seq<MergeEvent>, i: nat, rel: KeyPath)
    requires before.value.Map? && after.value.Map? && rel != [] && rel[0].Name?
    requires Find(before.value.entries, rel[0].s) == Some(i) == Find(after.value.entries, rel[0].s)
    requires Accounted(mode, before.value.entries[i].node, after.value.entries[i].node, path + [rel[0]], log, rel[1..])
    ensures Accounted(mode, before, after, path, log, rel)
  {
    assert path + rel == (path + [rel[0]]) + rel[1..];
    if !LoggedAbove(path + rel, log) {
      InReplacedBelow(before, after, i, rel);
    }
  }

  lemma {:induction false} OneDown(
    mode: ListMode, before: Node, after: Node, path: KeyPath, log: seq<MergeEvent>, rel: KeyPath)
    returns (i: nat)
    requires before.value.Map? && after.value.Map?
    requires EntriesCovered(mode, before.value.entries, after.value.entries, path, log)
    requires Get(before, rel).Some? && !Get(before, rel).value.value.Map? && (rel != [] ==> rel[0].Name?)
    ensures rel != [] && i < |before.value.entries| && i < |after.value.entries|
    ensures Find(before.value.entries, rel[0].s) == Some(i) == Find(after.value.entries, rel[0].s)
    ensures Covered(mode, before.value.entries[i].node, after.value.entries[i].node, path + [rel[0]], log)
    ensures Get(before, rel) == Get(before.value.entries[i].node, rel[1..])
    ensures Get(after, rel) == Get(after.value.entries[i].node, rel[1..])
  {
    var x, y := before.value.entries, after.value.entries;
    i := Find(x, rel[0].s).value;
    SamePrefixFind(x, y, rel[0].s);
    assert rel[0] == Name(x[i].key);
    GetBelow(before, i, rel);
    GetBelow(after, i, rel);
  }

  lemma GetBelow(n: Node, i: nat, rel: KeyPath)
    requires n.value.Map? && rel != [] && rel[0].Name? && Find(n.value.entries, rel[0].s) == Some(i)
    ensures Get(n, rel) == Get(n.value.entries[i].node, rel[1..])
  {
  }

  lemma {:induction false} InReplacedBelow(before: Node, after: Node, i: nat, rel: KeyPath)
    requires before.value.Map? && after.value.Map? && rel != [] && rel[0].Name?
    requires Find(before.value.entries, rel[0].s) == Some(i) == Find(after.value.entries, rel[0].s)
    requires InReplacedList(before.value.entries[i].node, after.value.entries[i].node, rel[1..])
    ensures InReplacedList(before, after, rel)
  {
    var x, y := before.value.entries[i].node, after.value.entries[i].node;
    var k :| 0 <= k <= |rel[1..]| && ListsAt(x, y, rel[1..][..k]);
    ListsBelow(before, after, i, rel[..k + 1], rel[1..][..k]);
  }

  lemma {:induction false} ListsBelow(before: Node, after: Node, i: nat, rel: KeyPath, rest: KeyPath)
    requires before.value.Map? && after.value.Map? && rel != [] && rel[0].Name? && rel[1..] == rest
    requires Find(before.value.entries, rel[0].s) == Some(i) == Find(after.value.entries, rel[0].s)
    requires ListsAt(before.value.entries[i].node, after.value.entries[i].node, rest)
    ensures ListsAt(before, after, rel)
  {
    GetBelow(before, i, rel);
    GetBelow(after, i, rel);
  }

  lemma {:induction false} AboveIsEnough(path: KeyPath, rel: KeyPath, log: seq<MergeEvent>)
    requires Logged(path, log)
    ensures LoggedAbove(path + rel, log)
  {
    var i :| 0 <= i < |log| && log[i].path == path;
    assert log[i].path <= path + rel;
  }

  lemma SamePrefixFind(x: seq<Entry>, y: seq<Entry>, k: string)
    requires |x| <= |y| && (forall i :: 0 <= i < |x| ==> y[i].key == x[i].key) && Find(x, k).Some?
    ensures Find(y, k) == Find(x, k)
  {
    var i := Find(x, k).value;
    assert y[i].key == k && Find(y, k).Some?;
    assert Find(y, k).value < |x| ==> x[Find(y, k).value].key == k;
  }

  // ---- merging in place ---------------------------------------------------------------------------

  /** Evaluates a placeholder of the tree merged so far, if it can. */
  type Deref = (Node, KeyPath, string) -> Option<Value>

  /** Placeholders are never expanded. */
  ghost predicate NeverExpands(deref: Deref) {
    forall root, at, expr :: var v := deref(root, at, expr); v.Some? ==> !v.value.IsContainer()
  }

  function ValueOf(n: Node): Option<Value> { if n.value.IsContainer() then None else Some(n.value) }

  function Replaced(path: KeyPath, dest: Node, src: Node): MergeEvent {
    Override(path, dest.origin, src.origin, ValueOf(dest), dest.value.TypeName(), src.value.TypeName())
  }

  /** What is logged when nothing is expanded. */
  function Events(mode: ListMode, path: KeyPath, dest: Node, src: Node): seq<MergeEvent>
    decreases src
  {
    match (dest.value, src.value)
    case (Map(d), Map(s)) => EntryEvents(mode, path, d, s)
    case (List(d), List(s)) => if mode.Replace? then [] else ItemEvents(mode, path, d, s)
    case (_, Str(s)) => if s == MISSING then [] else [Replaced(path, dest, src)]
    case _ => [Replaced(path, dest, src)]
  }

  function EntryEvents(mode: ListMode, path: KeyPath, dest: seq<Entry>, src: seq<Entry>): seq<MergeEvent>
    decreases src
  {
    if src == [] then []
    else
      var key, child := src[0].key, src[0].node;
      match Find(dest, key)
      case Some(i) =>
        Events(mode, path + [Name(key)], dest[i].node, child) +
        EntryEvents(mode, path, dest[i := Entry(key, Merge(mode, dest[i].node, child))], src[1..])
      case None => EntryEvents(mode, path, dest + [src[0]], src[1..])
  }

  function ItemEvents(mode: ListMode, path: KeyPath, dest: seq<Node>, src: seq<Node>): seq<MergeEvent>
    decreases |src|
  {
    if src == [] then []
    else if mode.ExtendUnique? && Has(SameValue(), dest, src[0]) then ItemEvents(mode, path, dest, src[1..])
    else [ListAppend(path, |dest|, src[0].origin)] + ItemEvents(mode, path, dest + [src[0]], src[1..])
  }

  /** What a merge leaves at its path, and what it logs. */
  datatype Ran = Ran(node: Node, events: seq<MergeEvent>)

  /** The merge at a path of the tree merged so far. A placeholder that a container meets
      is evaluated in that tree, and expanded when it stands for a container. */
  function Run(deref: Deref, mode: ListMode, root: Node, path: KeyPath, src: Node): Ran
    requires Get(root, path).Some?
    decreases src, if Get(root, path).value.value.Str? then 1 else 0
  {
    var dest := Get(root, path).value;
    match (dest.value, src.value)
    case (Map(_), Map(s)) => RunEntries(deref, mode, root, path, s)
    case (Str(expr), _) =>
      if Expands(deref, root, path, dest, src) then
        var filled := Filled(deref, root, path, dest);
        var r := Run(deref, mode, filled, path, src);
        Ran(r.node, [Dereference(path, expr, dest.origin)] + r.events)
      else Ran(Merge(mode, dest, src), Events(mode, path, dest, src))
    case _ => Ran(Merge(mode, dest, src), Events(mode, path, dest, src))
  }

  /** A container meets a placeholder that stands for one. */
  predicate Expands(deref: Deref, root: Node, path: KeyPath, dest: Node, src: Node) {
    dest.value.Str? && src.value.IsContainer() && HasInterpolation(dest.value.s) &&
    var resolved := deref(root, path, dest.value.s);
    resolved.Some? && resolved.value.IsContainer()
  }

  /** The tree with what the placeholder at the path stands for, where it was written. */
  function Filled(deref: Deref, root: Node, path: KeyPath, dest: Node): (r: Node)
    requires Get(root, path) == Some(dest) && dest.value.Str? && deref(root, path, dest.value.s).Some?
    ensures Get(r, path) == Some(Node(deref(root, path, dest.value.s).value, dest.origin))
  {
    var n := Node(deref(root, path, dest.value.s).value, dest.origin);
    GetSet(root, path, n);
    Set(root, path, n)
  }

  function RunEntries(deref: Deref, mode: ListMode, root: Node, path: KeyPath, src: seq<Entry>): (r: Ran)
    requires Get(root, path).Some? && Get(root, path).value.value.Map?
    ensures r.node.value.Map? && r.node.origin == Get(root, path).value.origin
    decreases src
  {
    if src == [] then Ran(Get(root, path).value, [])
    else
      var first := RunEntry(deref, mode, root, path, src[0]);
      GetSet(root, path, first.node);
      var rest := RunEntries(deref, mode, Set(root, path, first.node), path, src[1..]);
      Ran(rest.node, first.events + rest.events)
  }

  function RunEntry(deref: Deref, mode: ListMode, root: Node, path: KeyPath, e: Entry): (r: Ran)
    requires Get(root, path).Some? && Get(root, path).value.value.Map?
    ensures r.node.value.Map? && r.node.origin == Get(root, path).value.origin
    decreases e
  {
    var dest := Get(root, path).value;
    match Find(dest.value.entries, e.key)
    case Some(i) =>
      Deeper(root, path, Name(e.key), dest);
      var r := Run(deref, mode, root, path + [Name(e.key)], e.node);
      Ran(Node(Map(dest.value.entries[i := Entry(e.key, r.node)]), dest.origin), r.events)
    case None => Ran(Node(Map(dest.value.entries + [e]), dest.origin), [])
  }

  class Merger {
    var root: Node
    var path: KeyPath
    var log: seq<MergeEvent>
    const logging: bool
    const mode: ListMode
    const deref: Deref

    constructor (root: Node, mode: ListMode, deref: Deref, logging: bool)
      ensures this.root == root && path == [] && log == []
      ensures this.mode == mode && this.deref == deref && this.logging == logging
    {
      this.root, path, log := root, [], [];
      this.mode, this.deref, this.logging := mode, deref, logging;
    }

    ghost predicate Valid() reads this { Get(root, path).Some? }

    /** The node at the path. */
    function Dest(): Node
      reads this
      requires Valid()
    {
      Get(root, path).value
    }

    method Push(e: MergeEvent)
      modifies this`log
      ensures log == if logging then old(log) + [e] else old(log)
    {
      if logging {
        log := log + [e];
      }
    }

    method Put(n: Node)
      requires Valid()
      modifies this`root
      ensures Valid() && root == Set(old(root), path, n) && Dest() == n
    {
      GetSet(root, path, n);
      root := Set(root, path, n);
    }

    method ReplaceDest(src: Node)
      requires Valid()
      modifies this`root, this`log
      ensures Steps(old(root), old(log), root, log, path, logging, mode) && Dest() == src
      ensures log == if logging then old(log) + [Replaced(path, old(Dest()), src)] else old(log)
    {
      ghost var e := Replaced(path, Dest(), src);
      Push(Replaced(path, Dest(), src));
      Put(src);
      AddedIsLogged(path, old(log), [e], logging);
    }

    /** What of `src` is not in the list yet is appended. */
    method NewItems(dest: seq<Node>, src: seq<Node>) returns (items: seq<Node>, ghost added: seq<MergeEvent>)
      requires !mode.Replace?
      modifies this`log
      ensures items == MergeLists(mode, dest, src) && added == ItemEvents(mode, path, dest, src)
      ensures log == if logging then old(log) + added else old(log)
      ensures AllAt(path, added) && (items == dest || added != [])
    {
      items, added := dest, [];
      ghost var goal, events, at := MergeLists(mode, dest, src), ItemEvents(mode, path, dest, src), path;
      assert src[0..] == src;
      for i := 0 to |src|
        invariant log == if logging then old(log) + added else old(log)
        invariant Pending(mode, at, items, src[i..], added, goal, events) && Grown(at, dest, items, added)
      {
        NextPending(mode, at, items, src, i, added, goal, events);
        StillGrown(at, dest, items, added, src[i], ListAppend(path, |items|, src[i].origin));
        if mode.Extend? || !Has(SameValue(), items, src[i]) {
          var e := ListAppend(path, |items|, src[i].origin);
          Push(e);
          added := added + [e];
          items := items + [src[i]];
        }
      }
      NoItems(mode, at, items, src);
    }

    method AppendItems(src: seq<Node>)
      requires Valid() && Dest().value.List? && !mode.Replace?
      modifies this`root, this`log
      ensures Steps(old(root), old(log), root, log, path, logging, mode)
      ensures Dest() == Node(List(MergeLists(mode, old(Dest()).value.items, src)), old(Dest()).origin)
      ensures logging ==> log == old(log) + ItemEvents(mode, path, old(Dest()).value.items, src)
    {
      var dest := Dest();
      var items, added := NewItems(dest.value.items, src);
      Put(Node(List(items), dest.origin));
      AddedIsLogged(path, old(log), added, logging);
    }

    method MergeItemsAt(src: seq<Node>)
      requires Valid() && Dest().value.List?
      modifies this`root, this`log
      ensures Steps(old(root), old(log), root, log, path, logging, mode)
      ensures var dest, from := old(Dest()), Node(List(src), Synthetic);
        && Dest() == Merge(mode, dest, from)
        && (logging ==> log == old(log) + Events(mode, path, dest, from))
    {
      if mode.Replace? {
        Put(Node(List(src), Dest().origin));
        assert log + [] == log;
      } else {
        AppendItems(src);
      }
    }

    /** `merge_at` */
    method MergeAt(src: Node)
      requires Valid()
      modifies this
      ensures path == old(path) && Steps(old(root), old(log), root, log, path, logging, mode)
      ensures var r := Run(deref, mode, old(root), path, src);
        Dest() == r.node && (logging ==> log == old(log) + r.events)
      decreases src, (if Dest().value.Str? then 1 else 0), 1
    {
      var dest := Dest();
      match (dest.value, src.value) {
        case (Map(_), Map(s)) =>
          MergeEntriesAt(s);
        case (List(_), List(s)) =>
          MergeItemsAt(s);
        case (Str(expr), _) =>
          if src.value.IsContainer() && HasInterpolation(expr) {
            Expand(src, expr);
          } else {
            MergeOther(src);
          }
        case _ =>
          MergeOther(src);
      }
    }

    /** A container meets a placeholder: it is merged into what the placeholder stands
        for, when that is a container too. */
    method Expand(src: Node, expr: string)
      requires Valid() && Dest().value == Str(expr) && src.value.IsContainer() && HasInterpolation(expr)
      modifies this
      ensures path == old(path) && Steps(old(root), old(log), root, log, path, logging, mode)
      ensures var r := Run(deref, mode, old(root), path, src);
        Dest() == r.node && (logging ==> log == old(log) + r.events)
      decreases src, 1, 0
    {
      var dest := Dest();
      var resolved := deref(root, path, expr);
      if resolved.Some? && resolved.value.IsContainer() {
        var e := Dereference(path, expr, dest.origin);
        Push(e);
        Put(Node(resolved.value, dest.origin));
        ghost var root1, log1 := root, log;
        assert root1 == Filled(deref, old(root), path, dest);
        MergeAt(src);
        StepsAfter(old(root), old(log), e, root1, log1, root, log, path, logging, mode);
        AppendOne(old(log), e, Run(deref, mode, root1, path, src).events);
      } else {
        ReplaceDest(src);
      }
    }

    /** Neither both maps nor both lists, and nothing to expand. */
    method MergeOther(src: Node)
      requires Valid() && !SameContainer(Dest().value, src.value)
      modifies this`root, this`log
      ensures Steps(old(root), old(log), root, log, path, logging, mode)
      ensures Dest() == Merge(mode, old(Dest()), src)
      ensures logging ==> log == old(log) + Events(mode, path, old(Dest()), src)
    {
      if IsMissing(src.value) {
        SetSame(root, path);
        assert log == log + [];
        return;
      }
      ReplaceDest(src);
    }

    method MergeEntriesAt(src: seq<Entry>)
      requires Valid() && Dest().value.Map?
      modifies this
      ensures path == old(path) && Steps(old(root), old(log), root, log, path, logging, mode)
      ensures var r := RunEntries(deref, mode, old(root), path, src);
        Dest() == r.node && (logging ==> log == old(log) + r.events)
      decreases src
    {
      SetSame(root, path);
      ghost var root0, log0, at := root, log, path;
      ghost var goal := RunEntries(deref, mode, root, path, src);
      assert src[0..] == src;
      for i := 0 to |src|
        invariant path == at && Steps(root0, log0, root, log, at, logging, mode) && Dest().value.Map?
        invariant OnCourse(deref, mode, root, at, log, src[i..], goal.node, log0 + goal.events, logging)
      {
        ghost var root1, log1 := root, log;
        MergeEntryAt(src[i]);
        StepsThen(root0, log0, root1, log1, root, log, at, logging, mode);
        NextEntry(deref, mode, root1, at, log1, root, log, src, i, goal.node, log0 + goal.events, logging);
      }
      assert src[|src|..] == [] && log + [] == log;
    }

    method MergeEntryAt(e: Entry)
      requires Valid() && Dest().value.Map?
      modifies this
      ensures path == old(path) && Steps(old(root), old(log), root, log, path, logging, mode)
      ensures var r := RunEntry(deref, mode, old(root), path, e);
        Dest() == r.node && (logging ==> log == old(log) + r.events)
      decreases e
    {
      var dest := Dest();
      if Find(dest.value.entries, e.key).Some? {
        Deeper(root, path, Name(e.key), dest);
        path := path + [Name(e.key)];
        MergeAt(e.node);
        StepsUp(old(root), old(log), root, log, old(path), e.key, logging, mode);
        path := path[..|path| - 1];
        assert path == old(path);
      } else {
        Put(Node(Map(dest.value.entries + [e]), dest.origin));
        assert log == log + [];
      }
    }
  }

  /** Nothing but the node at the path has changed, and what is gone is logged. */
  ghost predicate Steps(
    root0: Node, log0: seq<MergeEvent>, root1: Node, log1: seq<MergeEvent>, path: KeyPath, logging: bool,
    mode: ListMode)
  {
    && Get(root0, path).Some? && Get(root1, path).Some?
    && root1 == Set(root0, path, Get(root1, path).value)
    && log0 <= log1 && (!logging ==> log1 == log0)
    && (logging ==> Covered(mode, Get(root0, path).value, Get(root1, path).value, path, log1[|log0|..]))
  }

  lemma StepsThen(
    root0: Node, log0: seq<MergeEvent>, root1: Node, log1: seq<MergeEvent>, root2: Node, log2: seq<MergeEvent>,
    path: KeyPath, logging: bool, mode: ListMode)
    requires Steps(root0, log0, root1, log1, path, logging, mode) &&
      Steps(root1, log1, root2, log2, path, logging, mode)
    ensures Steps(root0, log0, root2, log2, path, logging, mode)
  {
    var a, b, c := Get(root0, path).value, Get(root1, path).value, Get(root2, path).value;
    SetSet(root0, path, b, c);
    if logging {
      MoreLog(mode, a, b, path, log1[|log0|..], log2[|log0|..]);
      MoreLog(mode, b, c, path, log2[|log1|..], log2[|log0|..]);
      CoveredThen(mode, a, b, c, path, log2[|log0|..]);
    }
  }

  /** A change of one child is a change of the map. */
  lemma StepsUp(
    root0: Node, log0: seq<MergeEvent>, root1: Node, log1: seq<MergeEvent>, path: KeyPath, key: string, logging: bool,
    mode: ListMode)
    requires Get(root0, path).Some? && Get(root0, path).value.value.Map?
    requires Find(Get(root0, path).value.value.entries, key).Some?
    requires Steps(root0, log0, root1, log1, path + [Name(key)], logging, mode)
    ensures Steps(root0, log0, root1, log1, path, logging, mode)
    ensures var dest := Get(root0, path).value;
      var i := Find(dest.value.entries, key).value;
      Get(root1, path).value ==
        Node(Map(dest.value.entries[i := Entry(key, Get(root1, path + [Name(key)]).value)]), dest.origin)
  {
    var dest := Get(root0, path).value;
    var i := Find(dest.value.entries, key).value;
    var kid := Get(root1, path + [Name(key)]).value;
    Deeper(root0, path, Name(key), kid);
    var after := Node(WithKid(dest.value, i, kid), dest.origin);
    GetSet(root0, path, after);
    if logging {
      OneKidCovered(mode, dest, i, kid, path, log1[|log0|..]);
    }
  }

  lemma OneKidCovered(mode: ListMode, dest: Node, i: nat, kid: Node, path: KeyPath, log: seq<MergeEvent>)
    requires dest.value.Map? && i < |dest.value.entries|
    requires Covered(mode, dest.value.entries[i].node, kid, path + [Name(dest.value.entries[i].key)], log)
    ensures Covered(mode, dest, Node(WithKid(dest.value, i, kid), dest.origin), path, log)
  {
  }

  /** A merge into what a placeholder stood for is a change of the placeholder. */
  lemma StepsAfter(
    root0: Node, log0: seq<MergeEvent>, e: MergeEvent, root1: Node, log1: seq<MergeEvent>, root2: Node,
    log2: seq<MergeEvent>, path: KeyPath, logging: bool, mode: ListMode)
    requires Get(root0, path).Some? && Get(root1, path).Some? && root1 == Set(root0, path, Get(root1, path).value)
    requires log1 == (if logging then log0 + [e] else log0) && e.path == path
    requires Steps(root1, log1, root2, log2, path, logging, mode)
    ensures Steps(root0, log0, root2, log2, path, logging, mode)
  {
    SetSet(root0, path, Get(root1, path).value, Get(root2, path).value);
    if logging {
      assert log2[|log0|..][0] == log1[|log0|] == e;
    }
  }

  /** Merging the rest gives what merging everything gives. */
  ghost predicate OnCourse(
    deref: Deref, mode: ListMode, root: Node, path: KeyPath, log: seq<MergeEvent>, rest: seq<Entry>, goal: Node,
    events: seq<MergeEvent>, logging: bool)
  {
    && Get(root, path).Some? && Get(root, path).value.value.Map?
    && var r := RunEntries(deref, mode, root, path, rest);
       r.node == goal && (logging ==> log + r.events == events)
  }

  lemma {:induction false} NextEntry(
    deref: Deref, mode: ListMode, root: Node, path: KeyPath, log: seq<MergeEvent>, root1: Node, log1: seq<MergeEvent>,
    src: seq<Entry>, i: nat, goal: Node, events: seq<MergeEvent>, logging: bool)
    requires i < |src| && OnCourse(deref, mode, root, path, log, src[i..], goal, events, logging)
    requires var first := RunEntry(deref, mode, root, path, src[i]);
      root1 == Set(root, path, first.node) && (logging ==> log1 == log + first.events)
    ensures OnCourse(deref, mode, root1, path, log1, src[i + 1..], goal, events, logging)
  {
    OneFurther(src, i);
    var first := RunEntry(deref, mode, root, path, src[i]);
    GetSet(root, path, first.node);
    if logging {
      var rest := RunEntries(deref, mode, root1, path, src[i + 1..]);
      assert log + (first.events + rest.events) == log1 + rest.events;
    }
  }

  function OneMerged(mode: ListMode, dest: seq<Entry>, e: Entry): seq<Entry> {
    match Find(dest, e.key)
    case Some(i) => dest[i := Entry(e.key, Merge(mode, dest[i].node, e.node))]
    case None => dest + [e]
  }

  function OneEvents(mode: ListMode, path: KeyPath, dest: seq<Entry>, e: Entry): seq<MergeEvent> {
    match Find(dest, e.key)
    case Some(i) => Events(mode, path + [Name(e.key)], dest[i].node, e.node)
    case None => []
  }

  lemma {:induction false} FirstEntry(mode: ListMode, path: KeyPath, dest: seq<Entry>, src: seq<Entry>)
    requires src != []
    ensures var after := OneMerged(mode, dest, src[0]);
      && MergeEntries(mode, dest, src) == MergeEntries(mode, after, src[1..])
      && EntryEvents(mode, path, dest, src) ==
         OneEvents(mode, path, dest, src[0]) + EntryEvents(mode, path, after, src[1..])
  {
  }

  lemma OneFurther<T>(s: seq<T>, i: nat)
    requires i < |s|
    ensures s[i..][0] == s[i] && s[i..][1..] == s[i + 1..]
  {
  }

  lemma AppendOne(a: seq<MergeEvent>, e: MergeEvent, b: seq<MergeEvent>)
    ensures a + ([e] + b) == (a + [e]) + b
  {
  }

  lemma NoItems(mode: ListMode, path: KeyPath, items: seq<Node>, src: seq<Node>)
    requires !mode.Replace?
    ensures MergeLists(mode, items, src[|src|..]) == items && ItemEvents(mode, path, items, src[|src|..]) == []
  {
    assert src[|src|..] == [] && items + [] == items;
  }

  lemma AddedIsLogged(path: KeyPath, log: seq<MergeEvent>, added: seq<MergeEvent>, logging: bool)
    requires AllAt(path, added)
    ensures (log + added)[|log|..] == added && (added != [] ==> Logged(path, added))
  {
    assert added != [] ==> added[0].path == path;
  }

  ghost predicate AllAt(path: KeyPath, log: seq<MergeEvent>) { forall i :: 0 <= i < |log| ==> log[i].path == path }

  lemma OneItem(mode: ListMode, path: KeyPath, items: seq<Node>, src: seq<Node>, i: nat)
    requires i < |src| && !mode.Replace?
    ensures var more := items + [src[i]];
      if mode.Extend? || !Has(SameValue(), items, src[i]) then
        && MergeLists(mode, items, src[i..]) == MergeLists(mode, more, src[i + 1..])
        && ItemEvents(mode, path, items, src[i..]) ==
           [ListAppend(path, |items|, src[i].origin)] + ItemEvents(mode, path, more, src[i + 1..])
      else
        && MergeLists(mode, items, src[i..]) == MergeLists(mode, items, src[i + 1..])
        && ItemEvents(mode, path, items, src[i..]) == ItemEvents(mode, path, items, src[i + 1..])
  {
    assert src[i..][0] == src[i] && src[i..][1..] == src[i + 1..];
    assert items + src[i..] == items + [src[i]] + src[i + 1..];
  }

  /** Every item that was added is logged at the path. */
  ghost predicate Grown(path: KeyPath, dest: seq<Node>, items: seq<Node>, added: seq<MergeEvent>) {
    AllAt(path, added) && (items == dest || added != [])
  }

  lemma StillGrown(path: KeyPath, dest: seq<Node>, items: seq<Node>, added: seq<MergeEvent>, item: Node, e: MergeEvent)
    requires Grown(path, dest, items, added) && e.path == path
    ensures Grown(path, dest, items + [item], added + [e])
  {
  }

  /** What has been merged and logged, and the items still to come, make up the whole. */
  ghost predicate Pending(mode: ListMode, path: KeyPath, items: seq<Node>, src: seq<Node>, added: seq<MergeEvent>,
                          goal: seq<Node>, events: seq<MergeEvent>) {
    !mode.Replace? && MergeLists(mode, items, src) == goal && added + ItemEvents(mode, path, items, src) == events
  }

  lemma NextPending(mode: ListMode, path: KeyPath, items: seq<Node>, src: seq<Node>, i: nat, added: seq<MergeEvent>,
                    goal: seq<Node>, events: seq<MergeEvent>)
    requires i < |src| && Pending(mode, path, items, src[i..], added, goal, events)
    ensures if mode.Extend? || !Has(SameValue(), items, src[i])
      then Pending(mode, path, items + [src[i]], src[i + 1..],
                   added + [ListAppend(path, |items|, src[i].origin)], goal, events)
      else Pending(mode, path, items, src[i + 1..], added, goal, events)
  {
    OneItem(mode, path, items, src, i);
    if mode.Extend? || !Has(SameValue(), items, src[i]) {
      AppendOne(added, ListAppend(path, |items|, src[i].origin),
                ItemEvents(mode, path, items + [src[i]], src[i + 1..]));
    }
  }

  // ---- what the log says is true -------------------------------------------------------------------

  /** An event tells what was there, and where what is there now was written. */
  ghost predicate Truthful(e: MergeEvent, path: KeyPath, before: Node, after: Node) {
    path <= e.path &&
    var was, now := Get(before, e.path[|path|..]), Get(after, e.path[|path|..]);
    && was.Some? && now.Some?
    && (match e
        case Override(_, o, n, v, t, u) =>
          && was.value.origin == o && was.value.value.TypeName() == t
          && v == (if was.value.value.IsContainer() then None else Some(was.value.value))
          && now.value.origin == n && now.value.value.TypeName() == u
        case ListAppend(_, i, o) =>
          && was.value.value.List? && now.value.value.List?
          && |was.value.value.items| <= i < |now.value.value.items|
          && now.value.value.items[i].origin == o
        case Dereference(_, _, _) => false)
  }

  /** The type names in an event tell the kinds of values apart. */
  lemma TypeNamesTell(a: Value, b: Value)
    ensures a.TypeName() == b.TypeName() <==>
      && (a.Null? <==> b.Null?) && (a.Bool? <==> b.Bool?) && (a.Int? <==> b.Int?) && (a.Float? <==> b.Float?)
      && (a.Str? <==> b.Str?) && (a.List? <==> b.List?) && (a.Map? <==> b.Map?)
  {
  }

  /** An event tells of an item that was appended. */
  predicate Appended(e: MergeEvent, path: KeyPath, dest: seq<Node>, all: seq<Node>) {
    e.ListAppend? && e.path == path && |dest| <= e.index < |all| && all[e.index].origin == e.origin
  }

  lemma {:induction false} ItemEventsAreTrue(
    mode: ListMode, path: KeyPath, dest: seq<Node>, src: seq<Node>, e: MergeEvent)
    requires !mode.Replace? && e in ItemEvents(mode, path, dest, src)
    ensures Appended(e, path, dest, MergeLists(mode, dest, src))
    decreases |src|
  {
    var more := dest + [src[0]];
    FirstItem(mode, dest, src);
    if mode.ExtendUnique? && Has(SameValue(), dest, src[0]) {
      ItemEventsAreTrue(mode, path, dest, src[1..], e);
    } else if e == ListAppend(path, |dest|, src[0].origin) {
      assert MergeLists(mode, dest, src)[|dest|] == more[|dest|];
    } else {
      ItemEventsAreTrue(mode, path, more, src[1..], e);
    }
  }

  lemma {:induction false} FirstItem(mode: ListMode, dest: seq<Node>, src: seq<Node>)
    requires !mode.Replace? && src != []
    ensures if mode.ExtendUnique? && Has(SameValue(), dest, src[0])
      then MergeLists(mode, dest, src) == MergeLists(mode, dest, src[1..])
      else dest + [src[0]] <= MergeLists(mode, dest, src) == MergeLists(mode, dest + [src[0]], src[1..])
  {
    assert src == [src[0]] + src[1..];
    assert dest + src == dest + [src[0]] + src[1..];
  }

  lemma {:induction false} AppendIsTrue(e: MergeEvent, path: KeyPath, dest: seq<Node>, all: seq<Node>, o: Origin)
    requires Appended(e, path, dest, all)
    ensures Truthful(e, path, Node(List(dest), o), Node(List(all), o))
  {
    assert path[|path|..] == [];
  }

  lemma OneKeyDeeper(before: Node, after: Node, path: KeyPath, k: string, e: MergeEvent)
    requires before.value.Map? && after.value.Map?
    requires Under(before.value.entries, k).Some? && Under(after.value.entries, k).Some?
    requires Truthful(e, path + [Name(k)], Under(before.value.entries, k).value, Under(after.value.entries, k).value)
    ensures Truthful(e, path, before, after)
  {
    var rel, deeper := e.path[|path|..], e.path[|path + [Name(k)]|..];
    BelowKey(e.path, path, k);
    GetBelowKey(before, k, deeper);
    GetBelowKey(after, k, deeper);
  }

  lemma {:induction false} BelowKey(whole: KeyPath, path: KeyPath, k: string)
    requires path + [Name(k)] <= whole
    ensures path <= whole && whole[|path|..] == [Name(k)] + whole[|path + [Name(k)]|..]
  {
  }

  lemma {:induction false} GetBelowKey(n: Node, k: string, rest: KeyPath)
    requires n.value.Map? && Under(n.value.entries, k).Some?
    ensures Get(n, [Name(k)] + rest) == Get(Under(n.value.entries, k).value, rest)
  {
    assert ([Name(k)] + rest)[1..] == rest;
  }

  lemma {:induction false} EntryEventsAreTrue(
    mode: ListMode, path: KeyPath, dest: seq<Entry>, src: seq<Entry>, e: MergeEvent) returns (k: string)
    requires AllProper(src) && UniqueKeys(src) && e in EntryEvents(mode, path, dest, src)
    ensures Under(dest, k).Some? && Under(src, k).Some?
    ensures Truthful(e, path + [Name(k)], Under(dest, k).value, Merge(mode, Under(dest, k).value, Under(src, k).value))
    decreases src
  {
    var key, child := src[0].key, src[0].node;
    var next := OneMerged(mode, dest, src[0]);
    if e in OneEvents(mode, path, dest, src[0]) {
      k := key;
      EventsAreTrue(mode, path + [Name(key)], Under(dest, k).value, child, e);
    } else {
      assert e in EntryEvents(mode, path, next, src[1..]);
      k := EntryEventsAreTrue(mode, path, next, src[1..], e);
      assert k != key;
      AtAfter(mode, dest, src[0], next, k);
    }
  }

  /** Every logged event is true of the tree before and the merged tree. */
  lemma {:induction false} EventsAreTrue(mode: ListMode, path: KeyPath, dest: Node, src: Node, e: MergeEvent)
    requires ProperNode(src) && e in Events(mode, path, dest, src)
    ensures Truthful(e, path, dest, Merge(mode, dest, src))
    decreases src
  {
    match (dest.value, src.value) {
      case (Map(d), Map(s)) =>
        var k := EntryEventsAreTrue(mode, path, d, s, e);
        MergedAt(mode, d, s, k);
        OneKeyDeeper(dest, Merge(mode, dest, src), path, k, e);
      case (List(d), List(s)) =>
        ItemEventsAreTrue(mode, path, d, s, e);
        AppendIsTrue(e, path, d, MergeLists(mode, d, s), dest.origin);
      case _ =>
        assert path[|path|..] == [];
    }
  }

  /** Replacing a list as a whole is not logged (no caller of the source asks for it). */
  lemma {:induction false} ReplacedListIsNotLogged(path: KeyPath, a: Node, b: Node)
    requires a.value.List? && b.value.List? && a.value != b.value
    ensures Events(Replace, path, a, b) == [] && Merge(Replace, a, b) != a
    ensures ListReplaced(Replace, a, Merge(Replace, a, b))
    ensures !LoggedAbove(path, Events(Replace, path, a, b))
  {
  }
}
