/**
 What a closure depends on. `files` and `probes` are recorded on the way; the
 lemmas here show that they are enough: trees that agree on them give the same
 closure. They also show that the include stack and the order in which closures
 are built never matter for one that succeeds, and when it succeeds.
*/
module Footprint {
  import opened Wrappers
  import opened Values
  import opened Order
  import opened ClassLoader

  /** The trees agree on everything recorded. */
  ghost predicate Agree(env: Env, t1: Tree, t2: Tree, files: seq<Path>, probes: seq<Path>) {
    && (forall f :: f in files ==> (f in t1 <==> f in t2) && (f in t1 ==> t1[f] == t2[f]))
    && (forall p :: p in probes ==> (p in t1 <==> p in t2))
    && (env.classWildcards && env.ClassesDir() in probes ==> Available(env, t1) == Available(env, t2))
  }

  // ---- one pass over a class list ---------------------------------------------

  /** What a successful pass over the class list says about entry `i`. */
  ghost predicate EntryDone(env: Env, t: Tree, file: Path, r: ClassRef, stack: seq<Path>, acc: Acc) {
    var res := ResolveClass(env, t, r.name, file);
    && (forall p :: p in res.tried ==> p in acc.probes)
    && match res.found
       case None => env.ignoreClassNotFound
       case Some(g) =>
         && g !in stack
         && BuildClosure(env, t, g, EmptyMap, stack).Ok?
         && var c := BuildClosure(env, t, g, EmptyMap, stack).value;
            (forall f :: f in c.files ==> f in acc.files) && (forall p :: p in c.probes ==> p in acc.probes)
  }

  ghost predicate Within(acc: Acc, more: Acc) {
    && (forall f :: f in acc.files ==> f in more.files)
    && (forall p :: p in acc.probes ==> p in more.probes)
  }

  lemma EntryIsDone(env: Env, t: Tree, file: Path, r: ClassRef, acc: Acc, stack: seq<Path>)
    requires Include(env, t, file, r, acc, stack).Ok?
    ensures var next := Include(env, t, file, r, acc, stack).value;
      Within(acc, next) && EntryDone(env, t, file, r, stack, next)
  {
  }

  lemma EntryStaysDone(env: Env, t: Tree, file: Path, r: ClassRef, stack: seq<Path>, acc: Acc, more: Acc)
    requires EntryDone(env, t, file, r, stack, acc) && Within(acc, more)
    ensures EntryDone(env, t, file, r, stack, more)
  {
  }

  lemma {:induction false} IncludesGrow(env: Env, t: Tree, file: Path, refs: seq<ClassRef>, acc: Acc, stack: seq<Path>)
    requires Includes(env, t, file, refs, acc, stack).Ok?
    ensures Within(acc, Includes(env, t, file, refs, acc, stack).value)
    decreases |refs|
  {
    if refs != [] {
      EntryIsDone(env, t, file, refs[0], acc, stack);
      IncludesGrow(env, t, file, refs[1..], Include(env, t, file, refs[0], acc, stack).value, stack);
    }
  }

  lemma {:induction false} IncludesDone(
    env: Env, t: Tree, file: Path, refs: seq<ClassRef>, acc: Acc, stack: seq<Path>, i: nat)
    requires i < |refs| && Includes(env, t, file, refs, acc, stack).Ok?
    ensures EntryDone(env, t, file, refs[i], stack, Includes(env, t, file, refs, acc, stack).value)
    decreases |refs|
  {
    var next := Include(env, t, file, refs[0], acc, stack).value;
    assert Includes(env, t, file, refs, acc, stack) == Includes(env, t, file, refs[1..], next, stack);
    if i == 0 {
      EntryIsDone(env, t, file, refs[0], acc, stack);
      IncludesGrow(env, t, file, refs[1..], next, stack);
      EntryStaysDone(env, t, file, refs[0], stack, next, Includes(env, t, file, refs, acc, stack).value);
    } else {
      assert refs[i] == refs[1..][i - 1];
      IncludesDone(env, t, file, refs[1..], next, stack, i - 1);
    }
  }

  /** Two trees and stacks between which no entry makes a difference. */
  ghost predicate SameEntry(env: Env, t1: Tree, s1: seq<Path>, t2: Tree, s2: seq<Path>, file: Path, r: ClassRef) {
    && ResolveClass(env, t1, r.name, file) == ResolveClass(env, t2, r.name, file)
    && match ResolveClass(env, t1, r.name, file).found
       case None => true
       case Some(g) =>
         g !in s1 && g !in s2 && BuildClosure(env, t1, g, EmptyMap, s1) == BuildClosure(env, t2, g, EmptyMap, s2)
  }

  lemma {:induction false} IncludesSame(
    env: Env, t1: Tree, s1: seq<Path>, t2: Tree, s2: seq<Path>, file: Path, refs: seq<ClassRef>, acc: Acc)
    requires forall i :: 0 <= i < |refs| ==> SameEntry(env, t1, s1, t2, s2, file, refs[i])
    ensures Includes(env, t1, file, refs, acc, s1) == Includes(env, t2, file, refs, acc, s2)
    decreases |refs|
  {
    if refs != [] {
      assert SameEntry(env, t1, s1, t2, s2, file, refs[0]);
      assert Include(env, t1, file, refs[0], acc, s1) == Include(env, t2, file, refs[0], acc, s2);
      if Include(env, t1, file, refs[0], acc, s1).Ok? {
        IncludesSame(env, t1, s1, t2, s2, file, refs[1..], Include(env, t1, file, refs[0], acc, s1).value);
      }
    }
  }

  /** The class list of a file that loads. */
  ghost function ClassList(env: Env, t: Tree, file: Path): Option<seq<ClassRef>> {
    match Load(env, t, file)
    case Err(_) => None
    case Ok(loaded) =>
      match Expand(env, t, loaded.doc.classes)
      case Err(_) => None
      case Ok(refs) => Some(refs)
  }

  /** What success says about the file and its class list. */
  lemma BuildDone(env: Env, t: Tree, file: Path, initial: Node, stack: seq<Path>)
    requires file !in stack && BuildClosure(env, t, file, initial, stack).Ok?
    ensures var c := BuildClosure(env, t, file, initial, stack).value;
      && file in t && file in c.files
      && Load(env, t, file).Ok? && ClassList(env, t, file).Some?
      && (UsesPatterns(env, Load(env, t, file).value.doc.classes) ==> env.ClassesDir() in c.probes)
      && var refs := ClassList(env, t, file).value;
         var acc0 := Start(env, file, Load(env, t, file).value.doc, initial);
         && Includes(env, t, file, refs, acc0, stack + [file]).Ok?
         && var acc := Includes(env, t, file, refs, acc0, stack + [file]).value;
            && acc.files == c.files && acc.probes == c.probes
            && forall i :: 0 <= i < |refs| ==> EntryDone(env, t, file, refs[i], stack + [file], acc)
  {
    var refs := ClassList(env, t, file).value;
    var acc0, s := Start(env, file, Load(env, t, file).value.doc, initial), stack + [file];
    IncludesGrow(env, t, file, refs, acc0, s);
    forall i | 0 <= i < |refs|
      ensures EntryDone(env, t, file, refs[i], s, Includes(env, t, file, refs, acc0, s).value)
    {
      IncludesDone(env, t, file, refs, acc0, s, i);
    }
  }

  /** Builds with entries that make no difference are equal. */
  lemma BuildSame(env: Env, t1: Tree, s1: seq<Path>, t2: Tree, s2: seq<Path>, file: Path, initial: Node)
    requires file !in s1 && file !in s2
    requires Load(env, t1, file) == Load(env, t2, file)
    requires Load(env, t1, file).Ok? ==>
      var doc := Load(env, t1, file).value.doc;
      && Expand(env, t1, doc.classes) == Expand(env, t2, doc.classes)
      && (Expand(env, t1, doc.classes).Ok? ==>
            var refs := Expand(env, t1, doc.classes).value;
            forall i :: 0 <= i < |refs| ==> SameEntry(env, t1, s1 + [file], t2, s2 + [file], file, refs[i]))
    ensures BuildClosure(env, t1, file, initial, s1) == BuildClosure(env, t2, file, initial, s2)
  {
    if Load(env, t1, file).Ok? {
      var doc := Load(env, t1, file).value.doc;
      if Expand(env, t1, doc.classes).Ok? {
        IncludesSame(env, t1, s1 + [file], t2, s2 + [file], file, Expand(env, t1, doc.classes).value,
                     Start(env, file, doc, initial));
      }
    }
  }

  // ---- footprints are enough ------------------------------------------------------

  /** The outcome of a search depends only on the candidates it tried. */
  lemma {:induction false} ResolveSame(t1: Tree, t2: Tree, candidates: seq<Path>, i: nat)
    requires i <= |candidates|
    requires forall p :: p in TryFrom(t1, candidates, i).tried ==> (p in t1 <==> p in t2)
    ensures TryFrom(t1, candidates, i) == TryFrom(t2, candidates, i)
    decreases |candidates| - i
  {
    if i < |candidates| {
      var tried := TryFrom(t1, candidates, i).tried;
      assert i < |tried| && tried[i] == candidates[i];
      if candidates[i] !in t1 {
        ResolveSame(t1, t2, candidates, i + 1);
      }
    }
  }

  /** Trees that agree on the recorded files and probes give the same closure, with
      the same files and probes, through nested classes, fallbacks and wildcards. */
  lemma {:induction false} FootprintIsEnough(
    env: Env, t1: Tree, t2: Tree, file: Path, initial: Node, stack: seq<Path>)
    requires file !in stack && BuildClosure(env, t1, file, initial, stack).Ok?
    requires var c := BuildClosure(env, t1, file, initial, stack).value;
      Agree(env, t1, t2, c.files, c.probes)
    ensures BuildClosure(env, t2, file, initial, stack) == BuildClosure(env, t1, file, initial, stack)
    decreases Room(t1, stack)
  {
    BuildDone(env, t1, file, initial, stack);
    RoomShrinks(t1, stack, file);
    var refs, s := ClassList(env, t1, file).value, stack + [file];
    forall i | 0 <= i < |refs| ensures SameEntry(env, t1, s, t2, s, file, refs[i]) {
      var acc := Includes(env, t1, file, refs, Start(env, file, Load(env, t1, file).value.doc, initial), s).value;
      assert EntryDone(env, t1, file, refs[i], s, acc);
      ResolveSame(t1, t2, Candidates(env, refs[i].name, file), 0);
      var res := ResolveClass(env, t1, refs[i].name, file);
      if res.found.Some? {
        FootprintIsEnough(env, t1, t2, res.found.value, EmptyMap, s);
      }
    }
    BuildSame(env, t1, stack, t2, stack, file, initial);
  }

  // ---- the include stack does not matter --------------------------------------------

  ghost predicate Apart(stack: seq<Path>, files: seq<Path>) {
    forall p :: p in stack ==> p !in files
  }

  /** No file of a closure is one of the files that include it. */
  lemma {:induction false} FilesAvoidStack(env: Env, t: Tree, file: Path, initial: Node, stack: seq<Path>)
    requires file !in stack && BuildClosure(env, t, file, initial, stack).Ok?
    ensures Apart(stack, BuildClosure(env, t, file, initial, stack).value.files)
    decreases Room(t, stack), 0
  {
    BuildDone(env, t, file, initial, stack);
    RoomShrinks(t, stack, file);
    var doc, refs := Load(env, t, file).value.doc, ClassList(env, t, file).value;
    IncludedAvoidStack(env, t, file, refs, Start(env, file, doc, initial), stack, stack + [file]);
  }

  lemma {:induction false} IncludedAvoidStack(
    env: Env, t: Tree, file: Path, refs: seq<ClassRef>, acc: Acc, outer: seq<Path>, stack: seq<Path>)
    requires Includes(env, t, file, refs, acc, stack).Ok?
    requires forall p :: p in outer ==> p in stack
    requires Apart(outer, acc.files)
    ensures Apart(outer, Includes(env, t, file, refs, acc, stack).value.files)
    decreases Room(t, stack), |refs|
  {
    if refs != [] {
      var res := ResolveClass(env, t, refs[0].name, file);
      if res.found.Some? {
        FilesAvoidStack(env, t, res.found.value, EmptyMap, stack);
      }
      IncludedAvoidStack(env, t, file, refs[1..], Include(env, t, file, refs[0], acc, stack).value, outer, stack);
    }
  }

  /** A closure that succeeds below one stack succeeds, unchanged, below every
      stack that holds none of its files. */
  lemma {:induction false} StackChange(
    env: Env, t: Tree, file: Path, initial: Node, s1: seq<Path>, s2: seq<Path>)
    requires file !in s1 && BuildClosure(env, t, file, initial, s1).Ok?
    requires file !in s2 && Apart(s2, BuildClosure(env, t, file, initial, s1).value.files)
    ensures BuildClosure(env, t, file, initial, s2) == BuildClosure(env, t, file, initial, s1)
    decreases Room(t, s1)
  {
    BuildDone(env, t, file, initial, s1);
    RoomShrinks(t, s1, file);
    var refs := ClassList(env, t, file).value;
    var acc := Includes(env, t, file, refs, Start(env, file, Load(env, t, file).value.doc, initial), s1 + [file]).value;
    forall i | 0 <= i < |refs| ensures SameEntry(env, t, s1 + [file], t, s2 + [file], file, refs[i]) {
      assert EntryDone(env, t, file, refs[i], s1 + [file], acc);
      var res := ResolveClass(env, t, refs[i].name, file);
      if res.found.Some? {
        var g := res.found.value;
        BuildDone(env, t, g, EmptyMap, s1 + [file]);
        FilesAvoidStack(env, t, g, EmptyMap, s1 + [file]);
        assert Apart(s2 + [file], BuildClosure(env, t, g, EmptyMap, s1 + [file]).value.files);
        StackChange(env, t, g, EmptyMap, s1 + [file], s2 + [file]);
      }
    }
    BuildSame(env, t, s1, t, s2, file, initial);
  }

  /** Building below a stack is building from scratch, except that it fails when
      one of the files on the stack is needed. */
  lemma {:induction false} StackOnlyStopsCycles(
    env: Env, t: Tree, file: Path, initial: Node, stack: seq<Path>, c: Closure)
    requires file !in stack
    ensures BuildClosure(env, t, file, initial, stack) == Ok(c) <==>
            BuildClosure(env, t, file, initial, []) == Ok(c) && Apart(stack, c.files)
  {
    if BuildClosure(env, t, file, initial, stack) == Ok(c) {
      FilesAvoidStack(env, t, file, initial, stack);
      StackChange(env, t, file, initial, stack, []);
    }
    if BuildClosure(env, t, file, initial, []) == Ok(c) && Apart(stack, c.files) {
      StackChange(env, t, file, initial, [], stack);
    }
  }

  // ---- the class graph -----------------------------------------------------------------

  /** `g` is what an entry of the class list of `f` resolves to. */
  ghost predicate IncludesFile(env: Env, t: Tree, f: Path, g: Path) {
    ClassList(env, t, f).Some? &&
    exists i :: 0 <= i < |ClassList(env, t, f).value| &&
      ResolveClass(env, t, ClassList(env, t, f).value[i].name, f).found == Some(g)
  }

  /** Each file includes the next one. */
  ghost predicate Walk(env: Env, t: Tree, w: seq<Path>) {
    w != [] && forall i :: 0 < i < |w| ==> IncludesFile(env, t, w[i - 1], w[i])
  }

  /** The file can be read and parsed, its patterns match, and its classes are found. */
  ghost predicate Sound(env: Env, t: Tree, f: Path) {
    && ClassList(env, t, f).Some?
    && (env.ignoreClassNotFound ||
        forall i :: 0 <= i < |ClassList(env, t, f).value| ==>
          ResolveClass(env, t, ClassList(env, t, f).value[i].name, f).found.Some?)
  }

  ghost predicate NoRepeats(w: seq<Path>) {
    forall i, j :: 0 <= i < j < |w| ==> w[i] != w[j]
  }

  ghost predicate Builds(env: Env, t: Tree, file: Path, stack: seq<Path>) {
    file !in stack && BuildClosure(env, t, file, EmptyMap, stack).Ok?
  }

  lemma NextBuilds(env: Env, t: Tree, file: Path, initial: Node, stack: seq<Path>, g: Path)
    requires file !in stack && BuildClosure(env, t, file, initial, stack).Ok? && IncludesFile(env, t, file, g)
    ensures Builds(env, t, g, stack + [file])
    ensures var c, d := BuildClosure(env, t, file, initial, stack).value,
                        BuildClosure(env, t, g, EmptyMap, stack + [file]).value;
      g in c.files && forall f :: f in d.files ==> f in c.files
  {
    BuildDone(env, t, file, initial, stack);
    var refs := ClassList(env, t, file).value;
    var i :| 0 <= i < |refs| && ResolveClass(env, t, refs[i].name, file).found == Some(g);
    var acc := Includes(env, t, file, refs, Start(env, file, Load(env, t, file).value.doc, initial),
      stack + [file]).value;
    assert EntryDone(env, t, file, refs[i], stack + [file], acc);
    BuildDone(env, t, g, EmptyMap, stack + [file]);
  }

  /** Every walk out of a file whose closure builds stays inside the closure, and
      the end of the walk builds below the walk itself. */
  lemma {:induction false} WalkBuilds(env: Env, t: Tree, initial: Node, w: seq<Path>)
    requires Walk(env, t, w) && BuildClosure(env, t, w[0], initial, []).Ok?
    ensures EndBuilds(env, t, initial, w)
  {
    if |w| > 1 {
      var v := w[..|w| - 1];
      WalkBuilds(env, t, initial, v);
      assert IncludesFile(env, t, w[|w| - 2], w[|w| - 1]);
      NextEndBuilds(env, t, initial, v, w[|w| - 1]);
      assert w == v + [w[|w| - 1]];
    } else {
      assert w[..0] == [];
    }
  }

  ghost predicate EndBuilds(env: Env, t: Tree, initial: Node, w: seq<Path>) {
    && w != [] && NoRepeats(w)
    && var last, before := w[|w| - 1], w[..|w| - 1];
       && last !in before && BuildClosure(env, t, w[0], initial, []).Ok?
       && var end := BuildClosure(env, t, last, if |w| == 1 then initial else EmptyMap, before);
          && end.Ok?
          && (forall f :: f in end.value.files ==> f in BuildClosure(env, t, w[0], initial, []).value.files)
  }

  lemma NextEndBuilds(env: Env, t: Tree, initial: Node, v: seq<Path>, g: Path)
    requires EndBuilds(env, t, initial, v) && IncludesFile(env, t, v[|v| - 1], g)
    ensures EndBuilds(env, t, initial, v + [g])
  {
    var w := v + [g];
    assert v[..|v| - 1] + [v[|v| - 1]] == v && w[..|w| - 1] == v;
    NextBuilds(env, t, v[|v| - 1], if |v| == 1 then initial else EmptyMap, v[..|v| - 1], g);
    StillOnce(v, g);
  }

  lemma StillOnce(w: seq<Path>, g: Path)
    requires NoRepeats(w) && g !in w
    ensures NoRepeats(w + [g])
  {
    var longer := w + [g];
    forall a, b | 0 <= a < b < |longer| ensures longer[a] != longer[b] {
      assert longer[a] == w[a];
      if b < |w| { assert longer[b] == w[b]; }
    }
  }

  lemma WalkSnoc(env: Env, t: Tree, w: seq<Path>, g: Path)
    requires Walk(env, t, w) && IncludesFile(env, t, w[|w| - 1], g)
    ensures Walk(env, t, w + [g])
    ensures NoRepeats(w) ==> (NoRepeats(w + [g]) <==> g !in w)
  {
    var longer := w + [g];
    forall k | 0 < k < |longer| ensures IncludesFile(env, t, longer[k - 1], longer[k]) {
      if k < |w| { assert longer[k - 1] == w[k - 1] && longer[k] == w[k]; }
    }
    if NoRepeats(w) && g !in w {
      StillOnce(w, g);
    }
    if g in w {
      var k :| 0 <= k < |w| && w[k] == g;
      assert longer[k] == longer[|w|];
    }
  }

  lemma WalkCons(env: Env, t: Tree, f: Path, w: seq<Path>)
    requires Walk(env, t, w) && IncludesFile(env, t, f, w[0])
    ensures Walk(env, t, [f] + w)
  {
    var longer := [f] + w;
    forall k | 0 < k < |longer| ensures IncludesFile(env, t, longer[k - 1], longer[k]) {
      if k > 1 { assert longer[k - 1] == w[k - 2] && longer[k] == w[k - 1]; }
    }
  }

  /** A walk that cannot be continued soundly. */
  ghost predicate Stuck(env: Env, t: Tree, w: seq<Path>) {
    Walk(env, t, w) && (!NoRepeats(w) || !Sound(env, t, w[|w| - 1]))
  }

  /** A failing build has a walk to blame: an unsound file, or a cycle. */
  lemma {:induction false} FailureHasWalk(env: Env, t: Tree, w: seq<Path>, initial: Node) returns (blame: seq<Path>)
    requires Walk(env, t, w) && NoRepeats(w) && w[|w| - 1] !in w[..|w| - 1]
    requires BuildClosure(env, t, w[|w| - 1], initial, w[..|w| - 1]).Err?
    ensures w <= blame && Stuck(env, t, blame)
    decreases Room(t, w[..|w| - 1]), 1, 0
  {
    var file, stack := w[|w| - 1], w[..|w| - 1];
    assert stack + [file] == w;
    if !Sound(env, t, file) {
      blame := w;
    } else {
      RoomShrinks(t, stack, file);
      var doc := Load(env, t, file).value.doc;
      blame := FailureInList(env, t, w, ClassList(env, t, file).value, Start(env, file, doc, initial), 0);
    }
  }

  lemma {:induction false} FailureInList(env: Env, t: Tree, w: seq<Path>, refs: seq<ClassRef>, acc: Acc, i: nat)
    returns (blame: seq<Path>)
    requires Walk(env, t, w) && NoRepeats(w) && Sound(env, t, w[|w| - 1])
    requires refs == ClassList(env, t, w[|w| - 1]).value && i <= |refs|
    requires Includes(env, t, w[|w| - 1], refs[i..], acc, w).Err?
    ensures w <= blame && Stuck(env, t, blame)
    decreases Room(t, w), 3, |refs| - i
  {
    var file := w[|w| - 1];
    assert refs[i..] != [];
    var r := refs[i];
    assert refs[i..][0] == r && refs[i..][1..] == refs[i + 1..];
    var one := Include(env, t, file, r, acc, w);
    if one.Ok? {
      blame := FailureInList(env, t, w, refs, one.value, i + 1);
    } else {
      blame := FailureInEntry(env, t, w, i, acc);
    }
  }

  lemma {:induction false} FailureInEntry(env: Env, t: Tree, w: seq<Path>, i: nat, acc: Acc) returns (blame: seq<Path>)
    requires Walk(env, t, w) && NoRepeats(w) && Sound(env, t, w[|w| - 1])
    requires i < |ClassList(env, t, w[|w| - 1]).value|
    requires Include(env, t, w[|w| - 1], ClassList(env, t, w[|w| - 1]).value[i], acc, w).Err?
    ensures w <= blame && Stuck(env, t, blame)
    decreases Room(t, w), 2, 0
  {
    var file := w[|w| - 1];
    var g := ResolveClass(env, t, ClassList(env, t, file).value[i].name, file).found.value;
    assert IncludesFile(env, t, file, g);
    WalkSnoc(env, t, w, g);
    assert (w + [g])[..|w|] == w;
    if g in w {
      blame := w + [g];
    } else {
      blame := FailureHasWalk(env, t, w + [g], EmptyMap);
    }
  }

  /** Loading succeeds exactly when no walk along the class graph meets a file that
      cannot be loaded, a class that is not found, or the same file twice. */
  lemma {:induction false} SucceedsIffAcyclicAndSound(env: Env, t: Tree, file: Path, initial: Node)
    ensures BuildClosure(env, t, file, initial, []).Ok? <==>
            forall w :: Walk(env, t, w) && w[0] == file ==> !Stuck(env, t, w)
  {
    if BuildClosure(env, t, file, initial, []).Ok? {
      forall w | Walk(env, t, w) && w[0] == file ensures !Stuck(env, t, w) {
        WalkBuilds(env, t, initial, w);
        var last, before, init := w[|w| - 1], w[..|w| - 1], if |w| == 1 then initial else EmptyMap;
        BuildDone(env, t, last, init, before);
        var refs := ClassList(env, t, last).value;
        var acc := Includes(env, t, last, refs, Start(env, last, Load(env, t, last).value.doc, init),
          before + [last]).value;
        forall i | 0 <= i < |refs|
          ensures env.ignoreClassNotFound || ResolveClass(env, t, refs[i].name, last).found.Some?
        {
          assert EntryDone(env, t, last, refs[i], before + [last], acc);
        }
      }
    } else {
      assert [file][..0] == [];
      var blame := FailureHasWalk(env, t, [file], initial);
      assert Walk(env, t, blame) && blame[0] == file && Stuck(env, t, blame);
    }
  }

  // ---- memoised closures -------------------------------------------------------------------

  /** A memoised closure of `file` (built from scratch at some point) is what
      building it here would give: nothing on the stack that led here can be one
      of its files. */
  lemma {:induction false} MemoHit(env: Env, t: Tree, stack: seq<Path>, file: Path)
    requires file !in stack && Walk(env, t, stack + [file])
    requires BuildClosure(env, t, file, EmptyMap, []).Ok?
    ensures BuildClosure(env, t, file, EmptyMap, stack) == BuildClosure(env, t, file, EmptyMap, [])
  {
    var c := BuildClosure(env, t, file, EmptyMap, []).value;
    forall i | 0 <= i < |stack| ensures stack[i] !in c.files {
      if stack[i] in c.files {
        // From `file` down to stack[i] and, along the stack, back to `file`.
        var down := FilesAreReached(env, t, file, EmptyMap, [], stack[i]);
        var along := stack + [file];
        assert along[i] == stack[i] && along[|stack|] == file;
        var loop := ContinueAlong(env, t, down, along, i, |stack|);
        WalkBuilds(env, t, EmptyMap, loop);
        assert false;
      }
    }
    StackChange(env, t, file, EmptyMap, [], stack);
  }

  /** A walk to a place on another walk, continued along that one. */
  lemma {:induction false} ContinueAlong(env: Env, t: Tree, down: seq<Path>, along: seq<Path>, i: nat, j: nat)
    returns (w: seq<Path>)
    requires Walk(env, t, down) && Walk(env, t, along) && i <= j < |along| && down[|down| - 1] == along[i]
    ensures Walk(env, t, w) && w[0] == down[0] && w[|w| - 1] == along[j] && |w| == |down| + (j - i)
    decreases j
  {
    if j == i {
      w := down;
    } else {
      var v := ContinueAlong(env, t, down, along, i, j - 1);
      assert IncludesFile(env, t, along[j - 1], along[j]);
      WalkSnoc(env, t, v, along[j]);
      w := v + [along[j]];
    }
  }

  ghost predicate Reached(env: Env, t: Tree, file: Path, g: Path) {
    exists w :: Walk(env, t, w) && w[0] == file && w[|w| - 1] == g
  }

  /** Every file of a closure is reached by a walk. */
  lemma {:induction false} FilesAreReached(
    env: Env, t: Tree, file: Path, initial: Node, stack: seq<Path>, g: Path) returns (w: seq<Path>)
    requires file !in stack && BuildClosure(env, t, file, initial, stack).Ok?
    requires g in BuildClosure(env, t, file, initial, stack).value.files
    ensures Walk(env, t, w) && w[0] == file && w[|w| - 1] == g
    decreases Room(t, stack), 0
  {
    BuildDone(env, t, file, initial, stack);
    RoomShrinks(t, stack, file);
    var doc, refs := Load(env, t, file).value.doc, ClassList(env, t, file).value;
    assert Reached(env, t, file, file) by { assert Walk(env, t, [file]) && [file][0] == file; }
    w := IncludedAreReached(env, t, file, refs, 0, Start(env, file, doc, initial), stack + [file], g);
  }

  /** The recorded files are exactly those a walk reaches. */
  lemma {:induction false} FilesAreExactlyReached(env: Env, t: Tree, file: Path, initial: Node)
    requires BuildClosure(env, t, file, initial, []).Ok?
    ensures forall g :: g in BuildClosure(env, t, file, initial, []).value.files <==> Reached(env, t, file, g)
  {
    forall g | g in BuildClosure(env, t, file, initial, []).value.files ensures Reached(env, t, file, g) {
      var w := FilesAreReached(env, t, file, initial, [], g);
    }
    forall g | Reached(env, t, file, g) ensures g in BuildClosure(env, t, file, initial, []).value.files {
      var w :| Walk(env, t, w) && w[0] == file && w[|w| - 1] == g;
      WalkBuilds(env, t, initial, w);
      BuildDone(env, t, g, if |w| == 1 then initial else EmptyMap, w[..|w| - 1]);
    }
  }

  lemma {:induction false} IncludedAreReached(
    env: Env, t: Tree, file: Path, refs: seq<ClassRef>, i: nat, acc: Acc, stack: seq<Path>, g: Path)
    returns (w: seq<Path>)
    requires ClassList(env, t, file) == Some(refs) && i <= |refs|
    requires Includes(env, t, file, refs[i..], acc, stack).Ok?
    requires g in Includes(env, t, file, refs[i..], acc, stack).value.files
    requires forall f :: f in acc.files ==> Reached(env, t, file, f)
    ensures Walk(env, t, w) && w[0] == file && w[|w| - 1] == g
    decreases Room(t, stack), 2 + |refs| - i
  {
    if i == |refs| {
      w :| Walk(env, t, w) && w[0] == file && w[|w| - 1] == g;
    } else {
      assert refs[i..][0] == refs[i] && refs[i..][1..] == refs[i + 1..];
      EntryIsReached(env, t, file, i, acc, stack);
      w := IncludedAreReached(env, t, file, refs, i + 1, Include(env, t, file, refs[i], acc, stack).value, stack, g);
    }
  }

  /** Where the files come from after one entry. */
  lemma FilesAfterEntry(env: Env, t: Tree, file: Path, r: ClassRef, acc: Acc, stack: seq<Path>, f: Path)
    requires Include(env, t, file, r, acc, stack).Ok?
    requires f in Include(env, t, file, r, acc, stack).value.files && f !in acc.files
    ensures var res := ResolveClass(env, t, r.name, file);
      && res.found.Some? && Builds(env, t, res.found.value, stack)
      && f in BuildClosure(env, t, res.found.value, EmptyMap, stack).value.files
  {
  }

  lemma {:induction false} EntryIsReached(env: Env, t: Tree, file: Path, i: nat, acc: Acc, stack: seq<Path>)
    requires ClassList(env, t, file).Some? && i < |ClassList(env, t, file).value|
    requires forall f :: f in acc.files ==> Reached(env, t, file, f)
    requires Include(env, t, file, ClassList(env, t, file).value[i], acc, stack).Ok?
    ensures forall f :: f in Include(env, t, file, ClassList(env, t, file).value[i], acc, stack).value.files ==>
              Reached(env, t, file, f)
    decreases Room(t, stack), 1, 1
  {
    var r := ClassList(env, t, file).value[i];
    var next := Include(env, t, file, r, acc, stack).value;
    forall f | f in next.files ensures Reached(env, t, file, f) {
      if f !in acc.files {
        FilesAfterEntry(env, t, file, r, acc, stack, f);
        BelowIsReached(env, t, file, ResolveClass(env, t, r.name, file).found.value, stack, f);
      }
    }
  }

  lemma {:induction false} BelowIsReached(env: Env, t: Tree, file: Path, h: Path, stack: seq<Path>, f: Path)
    requires IncludesFile(env, t, file, h) && Builds(env, t, h, stack)
    requires f in BuildClosure(env, t, h, EmptyMap, stack).value.files
    ensures Reached(env, t, file, f)
    decreases Room(t, stack), 1, 0
  {
    var v := FilesAreReached(env, t, h, EmptyMap, stack, f);
    ReachedThrough(env, t, file, v);
  }

  lemma {:induction false} ReachedThrough(env: Env, t: Tree, file: Path, v: seq<Path>)
    requires Walk(env, t, v) && IncludesFile(env, t, file, v[0])
    ensures Reached(env, t, file, v[|v| - 1])
  {
    WalkCons(env, t, file, v);
    var w := [file] + v;
    assert w[|w| - 1] == v[|v| - 1] && w[0] == file;
  }
}
