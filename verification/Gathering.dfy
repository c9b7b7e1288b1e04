/**
 What a closure gathers from its files (inventory.rs), said without the loop that gathers
 it: the files as they come up, each after the classes it includes, and what each adds.
*/
module Gathering {
  import opened Wrappers
  import opened Values
  import opened ClassLoader
  import opened Footprint

  // ---- merging one tree after the other ------------------------------------------------------------

  /** Empty trees are skipped. */
  function MergeOne(env: Env, a: Node, p: Node): Node { if IsEmptyMap(p) then a else env.merge(a, p).0 }

  function MergeAll(env: Env, a: Node, ps: seq<Node>): Node
    decreases |ps|
  {
    if ps == [] then a else MergeAll(env, MergeOne(env, a, ps[0]), ps[1..])
  }

  /** What these merges log. */
  function MergeLog(env: Env, a: Node, ps: seq<Node>): seq<MergeEvent>
    decreases |ps|
  {
    if ps == [] then []
    else
      (if IsEmptyMap(ps[0]) then [] else env.merge(a, ps[0]).1) + MergeLog(env, MergeOne(env, a, ps[0]), ps[1..])
  }

  lemma {:induction false} MergeAllAppend(env: Env, a: Node, ps: seq<Node>, qs: seq<Node>)
    ensures MergeAll(env, a, ps + qs) == MergeAll(env, MergeAll(env, a, ps), qs)
    ensures MergeLog(env, a, ps + qs) == MergeLog(env, a, ps) + MergeLog(env, MergeAll(env, a, ps), qs)
    decreases |ps|
  {
    if ps == [] {
      assert ps + qs == qs;
    } else {
      assert (ps + qs)[1..] == ps[1..] + qs;
      MergeAllAppend(env, MergeOne(env, a, ps[0]), ps[1..], qs);
    }
  }

  lemma {:induction false} OneIsAll(env: Env, a: Node, p: Node)
    ensures MergeAll(env, a, [p]) == MergeOne(env, a, p)
    ensures MergeLog(env, a, [p]) == if IsEmptyMap(p) then [] else env.merge(a, p).1
  {
    assert [p][1..] == [];
  }

  // ---- the files as they come up -----------------------------------------------------------------------

  /** A file that comes up, under which name, and what merging into it logged. */
  datatype Visit = Visit(file: Path, name: string, doc: ClassDoc, events: seq<MergeEvent>)

  /** The files below `file`, each time they come up, the file itself last. */
  ghost function Visits(env: Env, t: Tree, file: Path, name: string, initial: Node, stack: seq<Path>): seq<Visit>
    requires file !in stack
    decreases Room(t, stack), 0, 0
  {
    match Load(env, t, file)
    case Err(_) => []
    case Ok(loaded) =>
      match Expand(env, t, loaded.doc.classes)
      case Err(_) => []
      case Ok(refs) =>
        RoomShrinks(t, stack, file);
        var merged := Included(env, t, file, refs, stack + [file]) + [loaded.doc.parameters];
        ListVisits(env, t, file, refs, stack + [file]) + [Visit(file, name, loaded.doc, MergeLog(env, initial, merged))]
  }

  ghost function ListVisits(env: Env, t: Tree, file: Path, refs: seq<ClassRef>, stack: seq<Path>): seq<Visit>
    decreases Room(t, stack), 1, |refs|
  {
    if refs == [] then [] else EntryVisits(env, t, file, refs[0], stack) + ListVisits(env, t, file, refs[1..], stack)
  }

  ghost function EntryVisits(env: Env, t: Tree, file: Path, r: ClassRef, stack: seq<Path>): seq<Visit>
    decreases Room(t, stack), 1, 0
  {
    var found := ResolveClass(env, t, r.name, file).found;
    if found.Some? && found.value !in stack then Visits(env, t, found.value, r.name, EmptyMap, stack) else []
  }

  /** The parameters of the classes a file includes. */
  ghost function Included(env: Env, t: Tree, file: Path, refs: seq<ClassRef>, stack: seq<Path>): seq<Node>
    decreases |refs|
  {
    if refs == [] then []
    else EntryIncluded(env, t, file, refs[0], stack) + Included(env, t, file, refs[1..], stack)
  }

  ghost function EntryIncluded(env: Env, t: Tree, file: Path, r: ClassRef, stack: seq<Path>): seq<Node> {
    var found := ResolveClass(env, t, r.name, file).found;
    if found.Some? && found.value !in stack && BuildClosure(env, t, found.value, EmptyMap, stack).Ok?
    then [BuildClosure(env, t, found.value, EmptyMap, stack).value.params]
    else []
  }

  /** A file comes after the classes it includes. */
  lemma OwnIsLast(env: Env, t: Tree, file: Path, name: string, initial: Node, stack: seq<Path>) returns (own: Visit)
    requires file !in stack && ClassList(env, t, file).Some?
    ensures var doc, refs := Load(env, t, file).value.doc, ClassList(env, t, file).value;
      && Visits(env, t, file, name, initial, stack) == ListVisits(env, t, file, refs, stack + [file]) + [own]
      && own.file == file && own.name == name && own.doc == doc
      && own.events == MergeLog(env, initial, Included(env, t, file, refs, stack + [file]) + [doc.parameters])
  {
    var vs := Visits(env, t, file, name, initial, stack);
    own := vs[|vs| - 1];
  }

  // ---- what they add ---------------------------------------------------------------------------------------

  /** One list each, in the order of the visits. */
  datatype Sum = Sum(
    names: seq<string>, parameters: seq<Node>, exports: seq<Node>, applications: seq<Node>, events: seq<MergeEvent>)
  {
    function Plus(more: Sum): Sum {
      Sum(names + more.names, parameters + more.parameters, exports + more.exports,
          applications + more.applications, events + more.events)
    }
  }

  const Zero := Sum([], [], [], [], [])

  function Of(v: Visit): Sum {
    Sum([v.name], [v.doc.parameters], [v.doc.exports], v.doc.applications, v.events)
  }

  function Total(vs: seq<Visit>): Sum { if vs == [] then Zero else Of(vs[0]).Plus(Total(vs[1..])) }

  lemma PlusAssociates(a: Sum, b: Sum, c: Sum)
    ensures a.Plus(b).Plus(c) == a.Plus(b.Plus(c)) && Zero.Plus(a) == a == a.Plus(Zero)
  {
  }

  lemma {:induction false} InTurn(a: seq<Visit>, b: seq<Visit>)
    ensures Total(a + b) == Total(a).Plus(Total(b))
    decreases |a|
  {
    if a == [] {
      assert a + b == b;
      PlusAssociates(Total(b), Zero, Zero);
    } else {
      assert (a + b)[1..] == a[1..] + b;
      InTurn(a[1..], b);
      PlusAssociates(Of(a[0]), Total(a[1..]), Total(b));
    }
  }

  lemma {:induction false} OneVisit(v: Visit)
    ensures Total([v]) == Of(v)
  {
    assert [v][1..] == [];
    PlusAssociates(Of(v), Zero, Zero);
  }

  /** What a closure has gathered: of the classes their names, of every file its
      applications and what was logged, each file after the classes it includes. */
  ghost predicate Gathers(c: Closure, name: string, s: Sum) {
    && c.classes + [name] == s.names
    && c.applications == s.applications
    && c.log == s.events
  }

  /** What success says about the class list, and the sections of the file itself. */
  lemma BuildFinishes(env: Env, t: Tree, file: Path, initial: Node, stack: seq<Path>) returns (r: Acc)
    requires file !in stack && BuildClosure(env, t, file, initial, stack).Ok?
    ensures Load(env, t, file).Ok? && ClassList(env, t, file).Some?
    ensures var doc, refs := Load(env, t, file).value.doc, ClassList(env, t, file).value;
      && Includes(env, t, file, refs, Start(env, file, doc, initial), stack + [file]) == Ok(r)
      && BuildClosure(env, t, file, initial, stack) == Ok(Finish(env, r, doc))
  {
    var doc, refs := Load(env, t, file).value.doc, ClassList(env, t, file).value;
    r := Includes(env, t, file, refs, Start(env, file, doc, initial), stack + [file]).value;
  }

  lemma {:induction false} ClosureGathers(env: Env, t: Tree, file: Path, name: string, initial: Node, stack: seq<Path>)
    requires file !in stack && BuildClosure(env, t, file, initial, stack).Ok?
    ensures Gathers(BuildClosure(env, t, file, initial, stack).value, name,
                    Total(Visits(env, t, file, name, initial, stack)))
    decreases Room(t, stack), 0, 0
  {
    var r := BuildFinishes(env, t, file, initial, stack);
    RoomShrinks(t, stack, file);
    var doc, refs := Load(env, t, file).value.doc, ClassList(env, t, file).value;
    var acc0 := Start(env, file, doc, initial);
    ListGathers(env, t, file, refs, acc0, stack + [file]);
    var below, merged := ListVisits(env, t, file, refs, stack + [file]), Included(env, t, file, refs, stack + [file]);
    var own := OwnIsLast(env, t, file, name, initial, stack);
    InTurn(below, [own]);
    OneVisit(own);
    OwnComesLast(env, acc0, r, doc, Total(below), merged, own);
  }

  /** What a pass over a class list adds to what was there. */
  ghost predicate Adds(env: Env, acc: Acc, r: Acc, s: Sum, merged: seq<Node>) {
    && r.classes == acc.classes + s.names
    && r.applications == acc.applications + s.applications
    && r.nestedLog == acc.nestedLog + s.events
    && r.params == MergeAll(env, acc.params, merged)
    && r.ownLog == acc.ownLog + MergeLog(env, acc.params, merged)
  }

  lemma OwnComesLast(env: Env, acc: Acc, r: Acc, doc: ClassDoc, s: Sum, merged: seq<Node>, own: Visit)
    requires Adds(env, acc, r, s, merged)
    requires acc.classes == [] && acc.applications == [] && acc.nestedLog == [] && acc.ownLog == []
    requires own.doc == doc && own.events == MergeLog(env, acc.params, merged + [doc.parameters])
    ensures Gathers(Finish(env, r, doc), own.name, s.Plus(Of(own)))
  {
    MergeAllAppend(env, acc.params, merged, [doc.parameters]);
    OneIsAll(env, r.params, doc.parameters);
    OwnMerged(env, r, doc.parameters);
    NothingBefore(r.ownLog, MergeLog(env, acc.params, merged));
    NothingBefore(r.nestedLog, s.events);
    NothingBefore(r.classes, s.names);
    NothingBefore(r.applications, s.applications);
  }

  lemma OwnMerged(env: Env, acc: Acc, p: Node)
    ensures var m := MergeParams(env, acc, p);
      && m.ownLog == acc.ownLog + MergeLog(env, acc.params, [p])
      && m == acc.(params := MergeOne(env, acc.params, p), ownLog := m.ownLog)
  {
    OneIsAll(env, acc.params, p);
  }

  lemma NothingBefore<T>(a: seq<T>, b: seq<T>)
    requires a == [] + b
    ensures a == b
  {
  }

  lemma {:induction false} ListGathers(
    env: Env, t: Tree, file: Path, refs: seq<ClassRef>, acc: Acc, stack: seq<Path>)
    requires Includes(env, t, file, refs, acc, stack).Ok?
    ensures Adds(env, acc, Includes(env, t, file, refs, acc, stack).value,
                 Total(ListVisits(env, t, file, refs, stack)), Included(env, t, file, refs, stack))
    decreases Room(t, stack), 1, |refs|
  {
    if refs != [] {
      var next := Include(env, t, file, refs[0], acc, stack).value;
      EntryGathers(env, t, file, refs[0], acc, stack);
      ListGathers(env, t, file, refs[1..], next, stack);
      InTurn(EntryVisits(env, t, file, refs[0], stack), ListVisits(env, t, file, refs[1..], stack));
      AddsThen(env, acc, next, Includes(env, t, file, refs[1..], next, stack).value,
               Total(EntryVisits(env, t, file, refs[0], stack)), EntryIncluded(env, t, file, refs[0], stack),
               Total(ListVisits(env, t, file, refs[1..], stack)), Included(env, t, file, refs[1..], stack));
    }
  }

  lemma AddsThen(
    env: Env, acc: Acc, next: Acc, r: Acc, s: Sum, merged: seq<Node>, more: Sum, moreMerged: seq<Node>)
    requires Adds(env, acc, next, s, merged) && Adds(env, next, r, more, moreMerged)
    ensures Adds(env, acc, r, s.Plus(more), merged + moreMerged)
  {
    MergeAllAppend(env, acc.params, merged, moreMerged);
    Regroup(acc.classes, s.names, more.names);
    Regroup(acc.applications, s.applications, more.applications);
    Regroup(acc.nestedLog, s.events, more.events);
    Regroup(acc.ownLog, MergeLog(env, acc.params, merged), MergeLog(env, next.params, moreMerged));
  }

  lemma Regroup<T>(a: seq<T>, b: seq<T>, c: seq<T>)
    ensures (a + b) + c == a + (b + c)
  {
  }

  lemma {:induction false} EntryGathers(env: Env, t: Tree, file: Path, r: ClassRef, acc: Acc, stack: seq<Path>)
    requires Include(env, t, file, r, acc, stack).Ok?
    ensures Adds(env, acc, Include(env, t, file, r, acc, stack).value, Total(EntryVisits(env, t, file, r, stack)),
                 EntryIncluded(env, t, file, r, stack))
    decreases Room(t, stack), 1, 0
  {
    var res := ResolveClass(env, t, r.name, file);
    if res.found.Some? {
      var c := BuildClosure(env, t, res.found.value, EmptyMap, stack).value;
      ClosureGathers(env, t, res.found.value, r.name, EmptyMap, stack);
      OneAbsorbed(env, Probe(env, acc, r, res), r.name, c, Total(EntryVisits(env, t, file, r, stack)));
      assert EntryIncluded(env, t, file, r, stack) == [c.params];
    } else {
      NothingAdded(env, acc, AddAll(acc.probes, res.tried));
    }
  }

  lemma OneAbsorbed(env: Env, acc: Acc, name: string, c: Closure, s: Sum)
    requires Gathers(c, name, s)
    ensures Adds(env, acc, Absorb(env, acc, name, c), s, [c.params])
  {
    OneIsAll(env, acc.params, c.params);
    Regroup(acc.classes, c.classes, [name]);
  }

  lemma NothingAdded(env: Env, acc: Acc, probes: seq<Path>)
    ensures Adds(env, acc, acc.(probes := probes), Zero, [])
  {
  }
}
