/**
 Why a class rendered once can serve every target (inventory.rs): where merging is
 associative, merging whole closures gives the parameters that merging file after
 file, in the order the files come up, gives.
*/
module Linear {
  import opened Wrappers
  import opened Values
  import opened PythonEq
  import opened ClassLoader
  import opened Footprint
  import opened Gathering
  import M = Merging

  /** On these trees merging is associative, and empty maps change nothing. */
  ghost predicate Associates(env: Env, good: Node -> bool) {
    && good(EmptyMap)
    && (forall a, b :: good(a) && good(b) ==> good(env.merge(a, b).0))
    && (forall a, b, c :: good(a) && good(b) && good(c) ==>
          env.merge(env.merge(a, b).0, c).0 == env.merge(a, env.merge(b, c).0).0)
    && (forall a, n :: good(a) && IsEmptyMap(n) ==> env.merge(a, n).0 == a)
  }

  // ---- file after file --------------------------------------------------------------------

  ghost predicate AllGood(good: Node -> bool, ps: seq<Node>) { forall p :: p in ps ==> good(p) }

  lemma {:induction false} MergeOneIsMerge(env: Env, good: Node -> bool, a: Node, b: Node)
    requires Associates(env, good) && good(a) && good(b)
    ensures MergeOne(env, a, b) == env.merge(a, b).0 && good(MergeOne(env, a, b))
  {
  }

  /** Merging into `a` what was merged into `b` is merging into `a` merged with `b`. */
  lemma {:induction false} MergeAllInto(env: Env, good: Node -> bool, a: Node, b: Node, ps: seq<Node>)
    requires Associates(env, good) && good(a) && good(b) && AllGood(good, ps)
    ensures good(MergeAll(env, b, ps))
    ensures MergeOne(env, a, MergeAll(env, b, ps)) == MergeAll(env, MergeOne(env, a, b), ps)
    decreases |ps|
  {
    if ps != [] {
      var p := ps[0];
      assert p in ps && forall q :: q in ps[1..] ==> q in ps;
      MergeOneIsMerge(env, good, b, p);
      MergeOneIsMerge(env, good, a, b);
      MergeAllInto(env, good, a, MergeOne(env, b, p), ps[1..]);
      MergeOneIsMerge(env, good, a, MergeOne(env, b, p));
      MergeOneIsMerge(env, good, MergeOne(env, a, b), p);
    }
  }

  /** The closure's parameters are the files' parameters, merged one after the other in
      the order in which the files come up. */
  lemma {:induction false} ClosureMergesFiles(
    env: Env, good: Node -> bool, t: Tree, file: Path, name: string, initial: Node, stack: seq<Path>)
    requires Associates(env, good) && good(initial) && file !in stack
    requires BuildClosure(env, t, file, initial, stack).Ok?
    requires AllGood(good, Total(Visits(env, t, file, name, initial, stack)).parameters)
    ensures BuildClosure(env, t, file, initial, stack).value.params ==
      MergeAll(env, initial, Total(Visits(env, t, file, name, initial, stack)).parameters)
    decreases Room(t, stack), 0, 0
  {
    var r := BuildFinishes(env, t, file, initial, stack);
    RoomShrinks(t, stack, file);
    var doc, refs := Load(env, t, file).value.doc, ClassList(env, t, file).value;
    var below := Total(ListVisits(env, t, file, refs, stack + [file])).parameters;
    OwnSections(env, t, file, name, initial, stack);
    assert forall p :: p in below ==> p in below + [doc.parameters];
    ListMergesFiles(env, good, t, file, refs, Start(env, file, doc, initial), stack + [file]);
    MergeAllAppend(env, initial, below, [doc.parameters]);
    OneIsAll(env, MergeAll(env, initial, below), doc.parameters);
  }

  /** The file's own sections come after those of the classes it includes. */
  lemma OwnSections(env: Env, t: Tree, file: Path, name: string, initial: Node, stack: seq<Path>)
    requires file !in stack && ClassList(env, t, file).Some?
    ensures var doc, refs := Load(env, t, file).value.doc, ClassList(env, t, file).value;
      var below := Total(ListVisits(env, t, file, refs, stack + [file]));
      var all := Total(Visits(env, t, file, name, initial, stack));
      all.parameters == below.parameters + [doc.parameters] && all.exports == below.exports + [doc.exports]
  {
    var own := OwnIsLast(env, t, file, name, initial, stack);
    InTurn(ListVisits(env, t, file, ClassList(env, t, file).value, stack + [file]), [own]);
    OneVisit(own);
  }

  lemma {:induction false} ListMergesFiles(
    env: Env, good: Node -> bool, t: Tree, file: Path, refs: seq<ClassRef>, acc: Acc, stack: seq<Path>)
    requires Associates(env, good) && good(acc.params) && Includes(env, t, file, refs, acc, stack).Ok?
    requires AllGood(good, Total(ListVisits(env, t, file, refs, stack)).parameters)
    ensures Includes(env, t, file, refs, acc, stack).value.params ==
            MergeAll(env, acc.params, Total(ListVisits(env, t, file, refs, stack)).parameters)
    ensures good(Includes(env, t, file, refs, acc, stack).value.params)
    decreases Room(t, stack), 1, |refs|
  {
    if refs != [] {
      var next := Include(env, t, file, refs[0], acc, stack).value;
      var found := ResolveClass(env, t, refs[0].name, file).found;
      var first := Total(EntryVisits(env, t, file, refs[0], stack)).parameters;
      var rest := Total(ListVisits(env, t, file, refs[1..], stack)).parameters;
      InTurn(EntryVisits(env, t, file, refs[0], stack), ListVisits(env, t, file, refs[1..], stack));
      assert forall p :: (p in first ==> p in first + rest) && (p in rest ==> p in first + rest);
      if found.Some? {
        ClosureMergesFiles(env, good, t, found.value, refs[0].name, EmptyMap, stack);
        MergeAllInto(env, good, acc.params, EmptyMap, first);
        assert MergeOne(env, acc.params, EmptyMap) == acc.params;
        MergeOneIsMerge(env, good, acc.params, MergeAll(env, EmptyMap, first));
      }
      assert next.params == MergeAll(env, acc.params, first);
      ListMergesFiles(env, good, t, file, refs[1..], next, stack);
      MergeAllAppend(env, acc.params, first, rest);
    }
  }

  /** And its exports are the files' exports, merged in the same order. */
  lemma {:induction false} ClosureMergesExports(
    env: Env, good: Node -> bool, t: Tree, file: Path, name: string, initial: Node, stack: seq<Path>)
    requires Associates(env, good) && file !in stack && BuildClosure(env, t, file, initial, stack).Ok?
    requires AllGood(good, Total(Visits(env, t, file, name, initial, stack)).exports)
    ensures BuildClosure(env, t, file, initial, stack).value.exports ==
      MergeAll(env, EmptyMap, Total(Visits(env, t, file, name, initial, stack)).exports)
    decreases Room(t, stack), 0, 0
  {
    var r := BuildFinishes(env, t, file, initial, stack);
    RoomShrinks(t, stack, file);
    var doc, refs := Load(env, t, file).value.doc, ClassList(env, t, file).value;
    var below := Total(ListVisits(env, t, file, refs, stack + [file])).exports;
    OwnSections(env, t, file, name, initial, stack);
    assert forall p :: p in below ==> p in below + [doc.exports];
    assert doc.exports in below + [doc.exports];
    ListMergesExports(env, good, t, file, refs, Start(env, file, doc, initial), stack + [file]);
    OneMergedLast(env, good, EmptyMap, below, doc.exports);
  }

  lemma OneMergedLast(env: Env, good: Node -> bool, a: Node, ps: seq<Node>, p: Node)
    requires Associates(env, good) && good(MergeAll(env, a, ps)) && good(p)
    ensures MergeAll(env, a, ps + [p]) == env.merge(MergeAll(env, a, ps), p).0
  {
    MergeAllAppend(env, a, ps, [p]);
    OneIsAll(env, MergeAll(env, a, ps), p);
    MergeOneIsMerge(env, good, MergeAll(env, a, ps), p);
  }

  lemma {:induction false} ListMergesExports(
    env: Env, good: Node -> bool, t: Tree, file: Path, refs: seq<ClassRef>, acc: Acc, stack: seq<Path>)
    requires Associates(env, good) && good(acc.exports) && Includes(env, t, file, refs, acc, stack).Ok?
    requires AllGood(good, Total(ListVisits(env, t, file, refs, stack)).exports)
    ensures Includes(env, t, file, refs, acc, stack).value.exports ==
            MergeAll(env, acc.exports, Total(ListVisits(env, t, file, refs, stack)).exports)
    ensures good(Includes(env, t, file, refs, acc, stack).value.exports)
    decreases Room(t, stack), 1, |refs|
  {
    if refs != [] {
      var next := Include(env, t, file, refs[0], acc, stack).value;
      var found := ResolveClass(env, t, refs[0].name, file).found;
      var first := Total(EntryVisits(env, t, file, refs[0], stack)).exports;
      var rest := Total(ListVisits(env, t, file, refs[1..], stack)).exports;
      InTurn(EntryVisits(env, t, file, refs[0], stack), ListVisits(env, t, file, refs[1..], stack));
      assert forall p :: (p in first ==> p in first + rest) && (p in rest ==> p in first + rest);
      if found.Some? {
        ClosureMergesExports(env, good, t, found.value, refs[0].name, EmptyMap, stack);
        MergeAllInto(env, good, acc.exports, EmptyMap, first);
        assert MergeOne(env, acc.exports, EmptyMap) == acc.exports;
        MergeOneIsMerge(env, good, acc.exports, MergeAll(env, EmptyMap, first));
      }
      assert next.exports == MergeAll(env, acc.exports, first);
      ListMergesExports(env, good, t, file, refs[1..], next, stack);
      MergeAllAppend(env, acc.exports, first, rest);
    }
  }

  // ---- trees of one shape ----------------------------------------------------------------------

  datatype Kind = AMap | AList | AScalar

  function KindOf(v: Value): Kind { if v.Map? then AMap else if v.List? then AList else AScalar }

  /** Which kind of value belongs at which key path. */
  type Shape = seq<string> -> Kind

  ghost predicate Conforms(shape: Shape, path: seq<string>, n: Node)
    decreases n
  {
    && KindOf(n.value) == shape(path)
    && match n.value
       case Map(entries) =>
         UniqueKeys(entries) &&
         forall i :: 0 <= i < |entries| ==> Conforms(shape, path + [entries[i].key], entries[i].node)
       case List(items) => forall i :: 0 <= i < |items| ==> Proper(items[i].value)
       case _ => true
  }

  lemma {:induction false} ConformingIsProper(shape: Shape, path: seq<string>, n: Node)
    requires Conforms(shape, path, n)
    ensures M.ProperNode(n)
    decreases n
  {
    if n.value.Map? {
      var entries := n.value.entries;
      forall i | 0 <= i < |entries| ensures Proper(entries[i].node.value) {
        ConformingIsProper(shape, path + [entries[i].key], entries[i].node);
      }
    }
  }

  /** Trees of one shape agree in kinds. */
  lemma {:induction false} ConformingAgree(shape: Shape, path: seq<string>, a: Node, b: Node)
    requires Conforms(shape, path, a) && Conforms(shape, path, b)
    ensures M.KindsAgree(a, b)
    decreases a
  {
    if a.value.Map? {
      var x, y := a.value.entries, b.value.entries;
      forall i | 0 <= i < |x| && M.Under(y, x[i].key).Some?
        ensures M.KindsAgree(x[i].node, M.Under(y, x[i].key).value)
      {
        var j := Find(y, x[i].key).value;
        assert y[j].key == x[i].key;
        ConformingAgree(shape, path + [x[i].key], x[i].node, y[j].node);
      }
    }
  }

  ghost predicate EntriesConform(shape: Shape, path: seq<string>, x: seq<Entry>) {
    forall i :: 0 <= i < |x| ==> Conforms(shape, path + [x[i].key], x[i].node)
  }

  lemma {:induction false} MergedConforms(shape: Shape, path: seq<string>, a: Node, b: Node)
    requires Conforms(shape, path, a) && Conforms(shape, path, b)
    ensures Conforms(shape, path, M.Merge(M.ExtendUnique, a, b))
    decreases b
  {
    match (a.value, b.value) {
      case (Map(x), Map(y)) =>
        assert EntriesConform(shape, path, x) && EntriesConform(shape, path, y);
        M.MergedIsUnique(M.ExtendUnique, x, y);
        MergedEntriesConform(shape, path, x, y);
      case (List(x), List(y)) =>
        M.AppendedFrom(M.SameValue(), x, y);
        var r := M.MergeLists(M.ExtendUnique, x, y);
        forall i | 0 <= i < |r| ensures Proper(r[i].value) {
          assert r[i] in r && (r[i] in x || r[i] in y);
        }
      case _ =>
    }
  }

  lemma {:induction false} MergedEntriesConform(shape: Shape, path: seq<string>, x: seq<Entry>, y: seq<Entry>)
    requires EntriesConform(shape, path, x) && EntriesConform(shape, path, y)
    ensures EntriesConform(shape, path, M.MergeEntries(M.ExtendUnique, x, y))
    decreases y
  {
    if y != [] {
      var key, child := y[0].key, y[0].node;
      match Find(x, key) {
        case Some(i) =>
          MergedConforms(shape, path + [key], x[i].node, child);
          MergedEntriesConform(shape, path, x[i := Entry(key, M.Merge(M.ExtendUnique, x[i].node, child))], y[1..]);
        case None =>
          MergedEntriesConform(shape, path, x + [y[0]], y[1..]);
      }
    }
  }

  lemma {:induction false} ThreeAssociate(shape: Shape, a: Node, b: Node, c: Node)
    requires Conforms(shape, [], a) && Conforms(shape, [], b) && Conforms(shape, [], c)
    ensures M.Merge(M.ExtendUnique, M.Merge(M.ExtendUnique, a, b), c) ==
            M.Merge(M.ExtendUnique, a, M.Merge(M.ExtendUnique, b, c))
  {
    ConformingIsProper(shape, [], a);
    ConformingIsProper(shape, [], b);
    ConformingIsProper(shape, [], c);
    ConformingAgree(shape, [], a, b);
    ConformingAgree(shape, [], b, c);
    M.AgreeingTreesAssociate(M.ExtendUnique, a, b, c);
  }

  lemma {:induction false} EmptyChangesNothing(shape: Shape, a: Node, n: Node)
    requires shape([]) == AMap && Conforms(shape, [], a) && IsEmptyMap(n)
    ensures M.Merge(M.ExtendUnique, a, n) == a
  {
  }

  /** On trees of one shape the inventory's merge is associative. */
  lemma {:induction false} ShapedTreesAssociate(env: Env, shape: Shape)
    requires shape([]) == AMap
    requires forall a, b :: env.merge(a, b).0 == M.Merge(M.ExtendUnique, a, b)
    ensures Associates(env, n => Conforms(shape, [], n))
  {
    ghost var good := n => Conforms(shape, [], n);
    forall a, b | good(a) && good(b) ensures good(env.merge(a, b).0) {
      MergedConforms(shape, [], a, b);
    }
    forall a, b, c | good(a) && good(b) && good(c)
      ensures env.merge(env.merge(a, b).0, c).0 == env.merge(a, env.merge(b, c).0).0
    {
      ThreeAssociate(shape, a, b, c);
    }
    forall a, n | good(a) && IsEmptyMap(n) ensures env.merge(a, n).0 == a {
      EmptyChangesNothing(shape, a, n);
    }
  }

  /** A class rendered once serves every target that includes it: when every class
      file's parameters have one shape, and no placeholder is expanded while merging, a
      target's parameters are those of its files merged one after the other. */
  lemma {:induction false} ClosuresServeEveryTarget(env: Env, shape: Shape, t: Tree, file: Path, initial: Node)
    requires shape([]) == AMap && Conforms(shape, [], initial)
    requires forall a, b :: env.merge(a, b).0 == M.Merge(M.ExtendUnique, a, b)
    requires BuildClosure(env, t, file, initial, []).Ok?
    requires forall p :: p in Total(Visits(env, t, file, "", initial, [])).parameters ==> Conforms(shape, [], p)
    ensures BuildClosure(env, t, file, initial, []).value.params ==
      MergeAll(env, initial, Total(Visits(env, t, file, "", initial, [])).parameters)
  {
    ShapedTreesAssociate(env, shape);
    ClosureMergesFiles(env, n => Conforms(shape, [], n), t, file, "", initial, []);
  }
}
