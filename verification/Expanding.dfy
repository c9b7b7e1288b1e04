/**
 What a merge that expands placeholders leaves (merge.rs): the plain merge into the tree
 in which the placeholders that containers meet have been replaced by what they stand
 for; and a log with one event for each of these, between the events of that merge.
*/
module Expanding {
  import opened Wrappers
  import opened Values
  import opened PythonEq
  import opened Merging
  import opened MergeInPlace

  // ---- the tree that is merged into ---------------------------------------------------------------

  /** The node at the path with the placeholders that `src` meets expanded; each is
      evaluated when it is met, in the tree merged so far. */
  function Expansion(deref: Deref, mode: ListMode, root: Node, path: KeyPath, src: Node): (r: Node)
    requires Get(root, path).Some?
    ensures r.origin == Get(root, path).value.origin
    decreases src, if Get(root, path).value.value.Str? then 1 else 0
  {
    var dest := Get(root, path).value;
    match (dest.value, src.value)
    case (Map(_), Map(s)) => Node(Map(ExpandEntries(deref, mode, root, path, s)), dest.origin)
    case (Str(expr), _) =>
      if Expands(deref, root, path, dest, src) then Expansion(deref, mode, Filled(deref, root, path, dest), path, src)
      else dest
    case _ => dest
  }

  function ExpandEntries(deref: Deref, mode: ListMode, root: Node, path: KeyPath, src: seq<Entry>): (r: seq<Entry>)
    requires Get(root, path).Some? && Get(root, path).value.value.Map?
    ensures Keys(r) == Keys(Get(root, path).value.value.entries)
    decreases src
  {
    var dest := Get(root, path).value.value.entries;
    if src == [] then dest
    else
      var after := RunEntry(deref, mode, root, path, src[0]).node;
      GetSet(root, path, after);
      var rest := ExpandEntries(deref, mode, Set(root, path, after), path, src[1..]);
      assert |rest| == |Keys(rest)| == |Keys(after.value.entries)|;
      match Find(dest, src[0].key)
      case None => KeysOfPrefix(rest, dest); rest[..|dest|]
      case Some(i) =>
        Deeper(root, path, Name(src[0].key), Get(root, path).value);
        var filled := Entry(src[0].key, Expansion(deref, mode, root, path + [Name(src[0].key)], src[0].node));
        assert Keys(rest[i := filled]) == Keys(rest) == Keys(dest);
        rest[i := filled]
  }

  lemma KeysOfPrefix(rest: seq<Entry>, dest: seq<Entry>)
    requires |rest| == |dest| + 1 && Keys(rest)[..|dest|] == Keys(dest)
    ensures Keys(rest[..|dest|]) == Keys(dest)
  {
  }

  /** A key that the source does not have stays as it is. */
  lemma {:induction false} StaysUnmet(
    deref: Deref, mode: ListMode, root: Node, path: KeyPath, src: seq<Entry>, i: nat)
    requires Get(root, path).Some? && Get(root, path).value.value.Map?
    requires var dest := Get(root, path).value.value.entries; i < |dest| && dest[i].key !in Keys(src)
    ensures var r := ExpandEntries(deref, mode, root, path, src);
      i < |r| && r[i] == Get(root, path).value.value.entries[i]
    decreases |src|
  {
    var dest := Get(root, path).value.value.entries;
    assert |ExpandEntries(deref, mode, root, path, src)| == |dest| by {
      assert |Keys(ExpandEntries(deref, mode, root, path, src))| == |Keys(dest)|;
    }
    if src != [] {
      assert src[0].key == Keys(src)[0] && Keys(src)[1..] == Keys(src[1..]);
      var after := RunEntry(deref, mode, root, path, src[0]).node;
      GetSet(root, path, after);
      assert after.value.entries[i] == dest[i];
      StaysUnmet(deref, mode, Set(root, path, after), path, src[1..], i);
    }
  }

  // ---- expanding first, then merging -----------------------------------------------------------------

  /** What the plain merge logs. */
  function Changes(events: seq<MergeEvent>): seq<MergeEvent> {
    if events == [] then []
    else (if events[0].Dereference? then [] else [events[0]]) + Changes(events[1..])
  }

  lemma {:induction false} ChangesAppend(a: seq<MergeEvent>, b: seq<MergeEvent>)
    ensures Changes(a + b) == Changes(a) + Changes(b)
    decreases |a|
  {
    if a == [] {
      assert a + b == b;
    } else {
      assert (a + b)[1..] == a[1..] + b;
      ChangesAppend(a[1..], b);
    }
  }

  lemma {:induction false} PlainEvents(mode: ListMode, path: KeyPath, dest: Node, src: Node)
    ensures Changes(Events(mode, path, dest, src)) == Events(mode, path, dest, src)
    decreases src
  {
    match (dest.value, src.value) {
      case (Map(d), Map(s)) => PlainEntryEvents(mode, path, d, s);
      case (List(d), List(s)) => if !mode.Replace? { PlainItemEvents(mode, path, d, s); }
      case _ => assert [Replaced(path, dest, src)][1..] == [];
    }
  }

  lemma {:induction false} PlainEntryEvents(mode: ListMode, path: KeyPath, dest: seq<Entry>, src: seq<Entry>)
    ensures Changes(EntryEvents(mode, path, dest, src)) == EntryEvents(mode, path, dest, src)
    decreases src
  {
    if src != [] {
      var first, after := OneEvents(mode, path, dest, src[0]), OneMerged(mode, dest, src[0]);
      FirstEntry(mode, path, dest, src);
      ChangesAppend(first, EntryEvents(mode, path, after, src[1..]));
      PlainEntryEvents(mode, path, after, src[1..]);
      if Find(dest, src[0].key).Some? {
        PlainEvents(mode, path + [Name(src[0].key)], dest[Find(dest, src[0].key).value].node, src[0].node);
      }
    }
  }

  lemma {:induction false} PlainItemEvents(mode: ListMode, path: KeyPath, dest: seq<Node>, src: seq<Node>)
    ensures Changes(ItemEvents(mode, path, dest, src)) == ItemEvents(mode, path, dest, src)
    decreases |src|
  {
    if src != [] {
      PlainItemEvents(mode, path, dest, src[1..]);
      PlainItemEvents(mode, path, dest + [src[0]], src[1..]);
      ChangesAppend([ListAppend(path, |dest|, src[0].origin)], ItemEvents(mode, path, dest + [src[0]], src[1..]));
    }
  }

  /** A merge that expands placeholders is the plain merge into the expanded tree, and
      without the events of the placeholders its log is the log of that merge. */
  lemma {:induction false} ExpandsFirst(deref: Deref, mode: ListMode, root: Node, path: KeyPath, src: Node)
    requires Get(root, path).Some? && ProperNode(src)
    ensures var r, into := Run(deref, mode, root, path, src), Expansion(deref, mode, root, path, src);
      r.node == Merge(mode, into, src) && Changes(r.events) == Events(mode, path, into, src)
    decreases src, if Get(root, path).value.value.Str? then 1 else 0
  {
    var dest := Get(root, path).value;
    match (dest.value, src.value) {
      case (Map(_), Map(s)) =>
        EntriesExpandFirst(deref, mode, root, path, s);
      case (Str(expr), _) =>
        if Expands(deref, root, path, dest, src) {
          ExpandsFirst(deref, mode, Filled(deref, root, path, dest), path, src);
          FilledFirst(deref, mode, root, path, src);
        } else {
          PlainEvents(mode, path, dest, src);
        }
      case _ =>
        PlainEvents(mode, path, dest, src);
    }
  }

  lemma FilledFirst(deref: Deref, mode: ListMode, root: Node, path: KeyPath, src: Node)
    requires Get(root, path).Some? && Expands(deref, root, path, Get(root, path).value, src)
    ensures var filled := Filled(deref, root, path, Get(root, path).value);
      && Run(deref, mode, root, path, src).node == Run(deref, mode, filled, path, src).node
      && Changes(Run(deref, mode, root, path, src).events) == Changes(Run(deref, mode, filled, path, src).events)
      && Expansion(deref, mode, root, path, src) == Expansion(deref, mode, filled, path, src)
  {
    var dest := Get(root, path).value;
    var e := Dereference(path, dest.value.s, dest.origin);
    ChangesAppend([e], Run(deref, mode, Filled(deref, root, path, dest), path, src).events);
    assert Changes([e]) == [] by { assert [e][1..] == []; }
  }

  lemma RestIsProper(src: seq<Entry>)
    requires src != [] && UniqueKeys(src) && AllProper(src)
    ensures ProperNode(src[0].node) && UniqueKeys(src[1..]) && AllProper(src[1..]) && src[0].key !in Keys(src[1..])
  {
  }

  lemma {:induction false} EntriesExpandFirst(
    deref: Deref, mode: ListMode, root: Node, path: KeyPath, src: seq<Entry>)
    requires Get(root, path).Some? && Get(root, path).value.value.Map? && UniqueKeys(src) && AllProper(src)
    ensures var r, into := RunEntries(deref, mode, root, path, src), ExpandEntries(deref, mode, root, path, src);
      && r.node == Node(Map(MergeEntries(mode, into, src)), Get(root, path).value.origin)
      && Changes(r.events) == EntryEvents(mode, path, into, src)
    decreases src
  {
    if src != [] {
      var first := RunEntry(deref, mode, root, path, src[0]);
      GetSet(root, path, first.node);
      var root1 := Set(root, path, first.node);
      RestIsProper(src);
      EntriesExpandFirst(deref, mode, root1, path, src[1..]);
      EntryExpandsFirst(deref, mode, root, path, src);
      var into := ExpandEntries(deref, mode, root, path, src);
      FirstEntry(mode, path, into, src);
      ChangesAppend(first.events, RunEntries(deref, mode, root1, path, src[1..]).events);
    }
  }

  /** The first entry: what it leaves is what the others meet. */
  lemma {:induction false} EntryExpandsFirst(
    deref: Deref, mode: ListMode, root: Node, path: KeyPath, src: seq<Entry>)
    requires src != [] && UniqueKeys(src) && AllProper(src)
    requires Get(root, path).Some? && Get(root, path).value.value.Map?
    ensures var first, into := RunEntry(deref, mode, root, path, src[0]), ExpandEntries(deref, mode, root, path, src);
      && Get(Set(root, path, first.node), path) == Some(first.node)
      && OneMerged(mode, into, src[0]) == ExpandEntries(deref, mode, Set(root, path, first.node), path, src[1..])
      && OneEvents(mode, path, into, src[0]) == Changes(first.events)
    decreases src, 0
  {
    var dest, e := Get(root, path).value, src[0];
    var first := RunEntry(deref, mode, root, path, e);
    GetSet(root, path, first.node);
    var root1 := Set(root, path, first.node);
    RestIsProper(src);
    SameFind(ExpandEntries(deref, mode, root, path, src), dest.value.entries, e.key);
    match Find(dest.value.entries, e.key) {
      case Some(i) =>
        Deeper(root, path, Name(e.key), dest);
        assert e.node < e;
        ExpandsFirst(deref, mode, root, path + [Name(e.key)], e.node);
        StaysUnmet(deref, mode, root1, path, src[1..], i);
        MetEntry(mode, ExpandEntries(deref, mode, root1, path, src[1..]), i, e,
                 Expansion(deref, mode, root, path + [Name(e.key)], e.node));
      case None =>
        StaysUnmet(deref, mode, root1, path, src[1..], |dest.value.entries|);
        NewEntry(mode, ExpandEntries(deref, mode, root1, path, src[1..]), |dest.value.entries|, e,
                 Keys(first.node.value.entries));
    }
  }

  lemma {:induction false} MetEntry(mode: ListMode, rest: seq<Entry>, i: nat, e: Entry, filled: Node)
    requires i < |rest| && rest[i] == Entry(e.key, Merge(mode, filled, e.node))
    requires Find(rest[i := Entry(e.key, filled)], e.key) == Some(i)
    ensures OneMerged(mode, rest[i := Entry(e.key, filled)], e) == rest
  {
  }

  lemma {:induction false} NewEntry(mode: ListMode, rest: seq<Entry>, n: nat, e: Entry, keys: seq<string>)
    requires n < |rest| && rest[n] == e && Keys(rest) == keys && |keys| == n + 1 && Find(rest[..n], e.key).None?
    ensures OneMerged(mode, rest[..n], e) == rest
  {
    assert |Keys(rest)| == |rest|;
  }

  // ---- placeholders that stand for nothing, or for one thing ---------------------------------------------

  /** Where nothing is expanded this is the plain merge. */
  lemma {:induction false} NothingExpands(deref: Deref, mode: ListMode, root: Node, path: KeyPath, src: Node)
    requires Get(root, path).Some? && NeverExpands(deref)
    ensures var dest := Get(root, path).value;
      Run(deref, mode, root, path, src) == Ran(Merge(mode, dest, src), Events(mode, path, dest, src))
    decreases src
  {
    var dest := Get(root, path).value;
    if dest.value.Map? && src.value.Map? {
      NoEntryExpands(deref, mode, root, path, src.value.entries);
    }
  }

  lemma {:induction false} NoEntryExpands(deref: Deref, mode: ListMode, root: Node, path: KeyPath, src: seq<Entry>)
    requires Get(root, path).Some? && Get(root, path).value.value.Map? && NeverExpands(deref)
    ensures var dest := Get(root, path).value;
      RunEntries(deref, mode, root, path, src) ==
      Ran(Node(Map(MergeEntries(mode, dest.value.entries, src)), dest.origin),
          EntryEvents(mode, path, dest.value.entries, src))
    decreases src
  {
    if src != [] {
      var dest, e := Get(root, path).value, src[0];
      FirstEntry(mode, path, dest.value.entries, src);
      if Find(dest.value.entries, e.key).Some? {
        Deeper(root, path, Name(e.key), dest);
        assert e.node < e;
        NothingExpands(deref, mode, root, path + [Name(e.key)], e.node);
      }
      var first := RunEntry(deref, mode, root, path, e);
      GetSet(root, path, first.node);
      NoEntryExpands(deref, mode, Set(root, path, first.node), path, src[1..]);
    }
  }

  ghost predicate NoDereference(events: seq<MergeEvent>) {
    forall i :: 0 <= i < |events| ==> !events[i].Dereference?
  }

  /** The log says whether something was expanded. */
  lemma {:induction false} UnexpandedIsPlain(deref: Deref, mode: ListMode, root: Node, path: KeyPath, src: Node)
    requires Get(root, path).Some? && NoDereference(Run(deref, mode, root, path, src).events)
    ensures Expansion(deref, mode, root, path, src) == Get(root, path).value
    decreases src, if Get(root, path).value.value.Str? then 1 else 0
  {
    var dest := Get(root, path).value;
    match (dest.value, src.value) {
      case (Map(_), Map(s)) =>
        UnexpandedEntries(deref, mode, root, path, s);
      case (Str(expr), _) =>
        if Expands(deref, root, path, dest, src) {
          assert Run(deref, mode, root, path, src).events[0].Dereference?;
        }
      case _ =>
    }
  }

  lemma {:induction false} UnexpandedEntries(deref: Deref, mode: ListMode, root: Node, path: KeyPath, src: seq<Entry>)
    requires Get(root, path).Some? && Get(root, path).value.value.Map?
    requires NoDereference(RunEntries(deref, mode, root, path, src).events)
    ensures ExpandEntries(deref, mode, root, path, src) == Get(root, path).value.value.entries
    decreases src
  {
    if src != [] {
      var dest, e := Get(root, path).value, src[0];
      var first := RunEntry(deref, mode, root, path, e);
      GetSet(root, path, first.node);
      var rest := RunEntries(deref, mode, Set(root, path, first.node), path, src[1..]);
      SplitDereference(first.events, rest.events);
      UnexpandedEntries(deref, mode, Set(root, path, first.node), path, src[1..]);
      if Find(dest.value.entries, e.key).Some? {
        Deeper(root, path, Name(e.key), dest);
        assert e.node < e;
        UnexpandedIsPlain(deref, mode, root, path + [Name(e.key)], e.node);
      }
      UnexpandedFirst(deref, mode, root, path, src);
    }
  }

  lemma {:induction false} UnexpandedFirst(deref: Deref, mode: ListMode, root: Node, path: KeyPath, src: seq<Entry>)
    requires Get(root, path).Some? && Get(root, path).value.value.Map? && src != []
    requires Find(Get(root, path).value.value.entries, src[0].key).Some? ==>
      var kid := path + [Name(src[0].key)];
      Get(root, kid).Some? && Expansion(deref, mode, root, kid, src[0].node) == Get(root, kid).value
    requires var after := RunEntry(deref, mode, root, path, src[0]).node;
      Get(Set(root, path, after), path) == Some(after) &&
      ExpandEntries(deref, mode, Set(root, path, after), path, src[1..]) == after.value.entries
    ensures ExpandEntries(deref, mode, root, path, src) == Get(root, path).value.value.entries
  {
    var dest, e := Get(root, path).value, src[0];
    match Find(dest.value.entries, e.key) {
      case Some(i) =>
        Deeper(root, path, Name(e.key), dest);
        var after := RunEntry(deref, mode, root, path, e).node.value.entries;
        assert after[i := Entry(e.key, dest.value.entries[i].node)] == dest.value.entries;
      case None =>
        assert (dest.value.entries + [e])[..|dest.value.entries|] == dest.value.entries;
    }
  }

  lemma SplitDereference(a: seq<MergeEvent>, b: seq<MergeEvent>)
    requires NoDereference(a + b)
    ensures NoDereference(a) && NoDereference(b)
  {
    forall i | 0 <= i < |a| ensures !a[i].Dereference? { assert (a + b)[i] == a[i]; }
    forall i | 0 <= i < |b| ensures !b[i].Dereference? { assert (a + b)[|a| + i] == b[i]; }
  }

  /** A placeholder that stands for a container is replaced by it, and what meets the
      placeholder is merged into it. */
  lemma {:induction false} PlaceholderIsFilled(
    deref: Deref, mode: ListMode, root: Node, path: KeyPath, src: Node, expr: string, o: Origin, c: Value)
    requires Get(root, path) == Some(Node(Str(expr), o)) && HasInterpolation(expr) && ProperNode(src)
    requires src.value.IsContainer() && c.IsContainer() && deref(root, path, expr) == Some(c)
    requires NoDereference(Run(deref, mode, Filled(deref, root, path, Node(Str(expr), o)), path, src).events)
    ensures Run(deref, mode, root, path, src) ==
      Ran(Merge(mode, Node(c, o), src), [Dereference(path, expr, o)] + Events(mode, path, Node(c, o), src))
  {
    var filled := Filled(deref, root, path, Node(Str(expr), o));
    UnexpandedIsPlain(deref, mode, filled, path, src);
    ExpandsFirst(deref, mode, filled, path, src);
    AllChanges(Run(deref, mode, filled, path, src).events);
  }

  lemma {:induction false} AllChanges(events: seq<MergeEvent>)
    requires NoDereference(events)
    ensures Changes(events) == events
  {
    if events != [] {
      AllChanges(events[1..]);
    }
  }

  // ---- what the log says is true here too --------------------------------------------------------------------

  lemma {:induction false} ChangesHold(events: seq<MergeEvent>, e: MergeEvent)
    requires e in events && !e.Dereference?
    ensures e in Changes(events)
  {
    if e != events[0] {
      ChangesHold(events[1..], e);
    }
  }

  /** Every change that is logged is true of the expanded tree and the result. */
  lemma ChangesAreTrue(deref: Deref, mode: ListMode, root: Node, path: KeyPath, src: Node, e: MergeEvent)
    requires Get(root, path).Some? && ProperNode(src)
    requires e in Run(deref, mode, root, path, src).events && !e.Dereference?
    ensures Truthful(e, path, Expansion(deref, mode, root, path, src), Run(deref, mode, root, path, src).node)
  {
    ExpandsFirst(deref, mode, root, path, src);
    ChangesHold(Run(deref, mode, root, path, src).events, e);
    EventsAreTrue(mode, path, Expansion(deref, mode, root, path, src), src, e);
  }

  /** What an event says was expanded is a container in the expanded tree, where the
      placeholder was written. */
  predicate Shows(e: MergeEvent, path: KeyPath, into: Node) {
    e.Dereference? && path <= e.path &&
    var at := Get(into, e.path[|path|..]);
    at.Some? && at.value.value.IsContainer() && at.value.origin == e.origin
  }

  lemma {:induction false} DereferencesAreTrue(
    deref: Deref, mode: ListMode, root: Node, path: KeyPath, src: Node, e: MergeEvent)
    requires Get(root, path).Some? && ProperNode(src)
    requires e in Run(deref, mode, root, path, src).events && e.Dereference?
    ensures Shows(e, path, Expansion(deref, mode, root, path, src))
    decreases src, if Get(root, path).value.value.Str? then 1 else 0
  {
    var dest := Get(root, path).value;
    match (dest.value, src.value) {
      case (Map(_), Map(s)) =>
        var k := EntryDereferences(deref, mode, root, path, s, e);
        KeyShows(Expansion(deref, mode, root, path, src), path, k, e);
      case (Str(expr), _) =>
        if Expands(deref, root, path, dest, src) {
          if e == Dereference(path, expr, dest.origin) {
            assert path[|path|..] == [];
          } else {
            DereferencesAreTrue(deref, mode, Filled(deref, root, path, dest), path, src, e);
          }
        } else {
          NoDereferenceThere(mode, path, dest, src, e);
        }
      case _ =>
        NoDereferenceThere(mode, path, dest, src, e);
    }
  }

  lemma NoDereferenceThere(mode: ListMode, path: KeyPath, dest: Node, src: Node, e: MergeEvent)
    requires e in Events(mode, path, dest, src)
    ensures !e.Dereference?
  {
    PlainEvents(mode, path, dest, src);
    NoneLeft(Events(mode, path, dest, src), e);
  }

  lemma {:induction false} NoneLeft(events: seq<MergeEvent>, e: MergeEvent)
    requires e in Changes(events)
    ensures !e.Dereference?
  {
    if e in Changes(events[1..]) {
      NoneLeft(events[1..], e);
    }
  }

  lemma {:induction false} KeyShows(into: Node, path: KeyPath, k: string, e: MergeEvent)
    requires into.value.Map? && Under(into.value.entries, k).Some?
    requires Shows(e, path + [Name(k)], Under(into.value.entries, k).value)
    ensures Shows(e, path, into)
  {
    BelowKey(e.path, path, k);
    GetBelowKey(into, k, e.path[|path + [Name(k)]|..]);
  }

  lemma {:induction false} EntryDereferences(
    deref: Deref, mode: ListMode, root: Node, path: KeyPath, src: seq<Entry>, e: MergeEvent) returns (k: string)
    requires Get(root, path).Some? && Get(root, path).value.value.Map? && UniqueKeys(src) && AllProper(src)
    requires e in RunEntries(deref, mode, root, path, src).events && e.Dereference?
    ensures k in Keys(src)
    ensures var into := ExpandEntries(deref, mode, root, path, src);
      Under(into, k).Some? && Shows(e, path + [Name(k)], Under(into, k).value)
    decreases src
  {
    var first := RunEntry(deref, mode, root, path, src[0]);
    GetSet(root, path, first.node);
    var root1 := Set(root, path, first.node);
    RestIsProper(src);
    assert src[0].key == Keys(src)[0] && Keys(src)[1..] == Keys(src[1..]);
    if e in first.events {
      k := src[0].key;
      FirstDereferences(deref, mode, root, path, src, e);
    } else {
      k := EntryDereferences(deref, mode, root1, path, src[1..], e);
      EntryExpandsFirst(deref, mode, root, path, src);
      var into := ExpandEntries(deref, mode, root, path, src);
      AtAfter(mode, into, src[0], OneMerged(mode, into, src[0]), k);
    }
  }

  lemma {:induction false} FirstDereferences(
    deref: Deref, mode: ListMode, root: Node, path: KeyPath, src: seq<Entry>, e: MergeEvent)
    requires Get(root, path).Some? && Get(root, path).value.value.Map? && src != [] && AllProper(src)
    requires e in RunEntry(deref, mode, root, path, src[0]).events && e.Dereference?
    ensures var into, k := ExpandEntries(deref, mode, root, path, src), src[0].key;
      Under(into, k).Some? && Shows(e, path + [Name(k)], Under(into, k).value)
    decreases src, 0
  {
    var child, k := src[0], src[0].key;
    var i := Find(Get(root, path).value.value.entries, k).value;
    Deeper(root, path, Name(k), Get(root, path).value);
    assert child.node < child;
    DereferencesAreTrue(deref, mode, root, path + [Name(k)], child.node, e);
    FirstIsExpanded(deref, mode, root, path, src, i);
  }

  lemma FirstIsExpanded(deref: Deref, mode: ListMode, root: Node, path: KeyPath, src: seq<Entry>, i: nat)
    requires Get(root, path).Some? && Get(root, path).value.value.Map? && src != []
    requires Find(Get(root, path).value.value.entries, src[0].key) == Some(i)
    requires Get(root, path + [Name(src[0].key)]).Some?
    ensures Under(ExpandEntries(deref, mode, root, path, src), src[0].key) ==
            Some(Expansion(deref, mode, root, path + [Name(src[0].key)], src[0].node))
  {
    var dest, key := Get(root, path).value, src[0].key;
    var into := ExpandEntries(deref, mode, root, path, src);
    SameFind(into, dest.value.entries, key);
    var after := RunEntry(deref, mode, root, path, src[0]).node;
    GetSet(root, path, after);
    var rest := ExpandEntries(deref, mode, Set(root, path, after), path, src[1..]);
    assert |Keys(into)| == |into| == |rest|;
    assert into[i] == Entry(key, Expansion(deref, mode, root, path + [Name(key)], src[0].node));
  }

  // ---- as a whole ---------------------------------------------------------------------------------------------

  /** `merge_with_mode` */
  method MergeWithMode(root: Node, src: Node, mode: ListMode, deref: Deref, logging: bool)
    returns (merged: Node, log: seq<MergeEvent>)
    ensures merged == Run(deref, mode, root, [], src).node
    ensures log == if logging then Run(deref, mode, root, [], src).events else []
    ensures ProperNode(src) ==> merged == Merge(mode, Expansion(deref, mode, root, [], src), src)
    ensures ProperNode(src) && logging ==>
      Changes(log) == Events(mode, [], Expansion(deref, mode, root, [], src), src)
    ensures logging ==> Covered(mode, root, merged, [], log)
  {
    var merger := new Merger(root, mode, deref, logging);
    merger.MergeAt(src);
    merged, log := merger.root, merger.log;
    assert log[0..] == log;
    if ProperNode(src) {
      ExpandsFirst(deref, mode, root, [], src);
    }
  }
}
