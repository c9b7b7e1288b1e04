/**
 Where the probes and the warnings of a closure come from (inventory.rs): every one from a
 file that comes up, and none is forgotten.
*/
module Remarks {
  import opened Wrappers
  import opened Values
  import opened ClassLoader
  import opened Footprint
  import opened Gathering

  /** A path that including the classes of a file looks at. */
  ghost predicate Tries(env: Env, t: Tree, v: Visit, p: Path) {
    || (UsesPatterns(env, v.doc.classes) && p == env.ClassesDir())
    || (ClassList(env, t, v.file).Some? && TriedIn(env, t, v.file, ClassList(env, t, v.file).value, p))
  }

  ghost predicate TriedIn(env: Env, t: Tree, file: Path, refs: seq<ClassRef>, p: Path) {
    exists i :: 0 <= i < |refs| && p in ResolveClass(env, t, refs[i].name, file).tried
  }

  ghost predicate TriedBy(env: Env, t: Tree, vs: seq<Visit>, p: Path) { exists v :: v in vs && Tries(env, t, v, p) }

  /** The warning about a class that only a fallback found. */
  predicate IsFallback(env: Env, t: Tree, file: Path, r: ClassRef, w: Warning) {
    var res := ResolveClass(env, t, r.name, file);
    res.found.Some? && res.fallback &&
    w == Warning(
      if r.origin.Synthetic? then None else Some(r.origin),
      Fallback(r.name, res.found.value, Unrelated(env, res.found.value), res.tried[..2]), None)
  }

  ghost predicate FallbackIn(env: Env, t: Tree, file: Path, refs: seq<ClassRef>, w: Warning) {
    exists i :: 0 <= i < |refs| && IsFallback(env, t, file, refs[i], w)
  }

  /** A warning of a file: its own, or about a class it includes. */
  ghost predicate Warns(env: Env, t: Tree, v: Visit, w: Warning) {
    || w in v.doc.warnings
    || (ClassList(env, t, v.file).Some? && FallbackIn(env, t, v.file, ClassList(env, t, v.file).value, w))
  }

  ghost predicate WarnedBy(env: Env, t: Tree, vs: seq<Visit>, w: Warning) { exists v :: v in vs && Warns(env, t, v, w) }

  predicate HasPlace(ws: seq<Warning>, place: Option<Origin>) { exists i :: 0 <= i < |ws| && ws[i].place == place }

  lemma {:induction false} WarningsAdded(into: seq<Warning>, more: seq<Warning>)
    ensures var r := AddWarnings(into, more);
      && into <= r && (forall w :: w in r ==> w in into || w in more)
      && forall w :: w in more ==> HasPlace(r, w.place)
    decreases |more|
  {
    if more != [] {
      var next := if HasPlace(into, more[0].place) then into else into + [more[0]];
      WarningsAdded(next, more[1..]);
      var r := AddWarnings(into, more);
      assert r == AddWarnings(next, more[1..]);
      StillHasPlace(next, r, more[0].place);
    }
  }

  lemma StillHasPlace(a: seq<Warning>, b: seq<Warning>, place: Option<Origin>)
    requires a <= b
    ensures HasPlace(a, place) ==> HasPlace(b, place)
    ensures forall w :: w in a ==> HasPlace(a, w.place)
  {
    if HasPlace(a, place) {
      var i :| 0 <= i < |a| && a[i].place == place;
      assert b[i] == a[i];
    }
  }

  // ---- closures ----------------------------------------------------------------------------------------

  /** What the probes and warnings of a pass over a class list are. */
  ghost predicate Accounts(env: Env, t: Tree, file: Path, refs: seq<ClassRef>, vs: seq<Visit>, acc: Acc, r: Acc) {
    && (forall p :: p in r.probes <==> p in acc.probes || TriedIn(env, t, file, refs, p) || TriedBy(env, t, vs, p))
    && acc.warnings <= r.warnings
    && (forall w :: w in r.warnings ==>
          w in acc.warnings || FallbackIn(env, t, file, refs, w) || WarnedBy(env, t, vs, w))
    && (forall w :: FallbackIn(env, t, file, refs, w) || WarnedBy(env, t, vs, w) ==> HasPlace(r.warnings, w.place))
  }

  /** A closure's probes are exactly what its files try. It starts with its own file's
      warnings; each of its warnings is one of a file's, and for each warning of a file it
      has one at the same place. */
  ghost predicate AccountsFor(env: Env, t: Tree, vs: seq<Visit>, c: Closure) {
    && vs != []
    && (forall p :: p in c.probes <==> TriedBy(env, t, vs, p))
    && vs[|vs| - 1].doc.warnings <= c.warnings
    && (forall w :: w in c.warnings ==> WarnedBy(env, t, vs, w))
    && (forall w :: WarnedBy(env, t, vs, w) ==> HasPlace(c.warnings, w.place))
  }

  lemma {:induction false} ClosureAccounts(env: Env, t: Tree, file: Path, name: string, initial: Node, stack: seq<Path>)
    requires file !in stack && BuildClosure(env, t, file, initial, stack).Ok?
    ensures AccountsFor(env, t, Visits(env, t, file, name, initial, stack),
                        BuildClosure(env, t, file, initial, stack).value)
    decreases Room(t, stack), 0, 0
  {
    var r := BuildFinishes(env, t, file, initial, stack);
    RoomShrinks(t, stack, file);
    var doc, refs := Load(env, t, file).value.doc, ClassList(env, t, file).value;
    var acc0 := Start(env, file, doc, initial);
    ListAccounts(env, t, file, refs, acc0, stack + [file]);
    var own := OwnIsLast(env, t, file, name, initial, stack);
    OwnAccounts(env, t, file, refs, ListVisits(env, t, file, refs, stack + [file]), own, acc0, r, Finish(env, r, doc));
  }

  lemma OwnAccounts(
    env: Env, t: Tree, file: Path, refs: seq<ClassRef>, below: seq<Visit>, own: Visit, acc: Acc, r: Acc, c: Closure)
    requires Accounts(env, t, file, refs, below, acc, r) && c.probes == r.probes && c.warnings == r.warnings
    requires own.file == file && ClassList(env, t, file) == Some(refs) && acc.warnings == own.doc.warnings
    requires acc.probes == if UsesPatterns(env, own.doc.classes) then [env.ClassesDir()] else []
    ensures AccountsFor(env, t, below + [own], c)
  {
    var vs := below + [own];
    assert own in vs && forall v :: v in vs <==> v in below || v == own;
    forall p ensures p in c.probes <==> TriedBy(env, t, vs, p) {
      assert Tries(env, t, own, p) <==> p in acc.probes || TriedIn(env, t, file, refs, p);
    }
    forall w ensures WarnedBy(env, t, vs, w) <==>
      w in acc.warnings || FallbackIn(env, t, file, refs, w) || WarnedBy(env, t, below, w) {
      assert Warns(env, t, own, w) <==> w in acc.warnings || FallbackIn(env, t, file, refs, w);
    }
    forall w | w in acc.warnings ensures HasPlace(c.warnings, w.place) {
      StillHasPlace(acc.warnings, c.warnings, w.place);
    }
  }

  lemma {:induction false} ListAccounts(
    env: Env, t: Tree, file: Path, refs: seq<ClassRef>, acc: Acc, stack: seq<Path>)
    requires Includes(env, t, file, refs, acc, stack).Ok?
    ensures Accounts(env, t, file, refs, ListVisits(env, t, file, refs, stack), acc,
                     Includes(env, t, file, refs, acc, stack).value)
    decreases Room(t, stack), 1, |refs|
  {
    if refs != [] {
      var next := Include(env, t, file, refs[0], acc, stack).value;
      EntryAccounts(env, t, file, refs[0], acc, stack);
      ListAccounts(env, t, file, refs[1..], next, stack);
      AccountsThen(env, t, file, refs, EntryVisits(env, t, file, refs[0], stack),
                   ListVisits(env, t, file, refs[1..], stack), acc, next,
                   Includes(env, t, file, refs[1..], next, stack).value);
    }
  }

  lemma {:induction false} AccountsThen(
    env: Env, t: Tree, file: Path, refs: seq<ClassRef>, vs: seq<Visit>, more: seq<Visit>, acc: Acc, next: Acc, r: Acc)
    requires refs != [] && Accounts(env, t, file, [refs[0]], vs, acc, next)
    requires Accounts(env, t, file, refs[1..], more, next, r)
    ensures Accounts(env, t, file, refs, vs + more, acc, r)
  {
    InTwo(env, t, file, refs, vs, more);
    forall w: Warning | HasPlace(next.warnings, w.place) ensures HasPlace(r.warnings, w.place) {
      StillHasPlace(next.warnings, r.warnings, w.place);
    }
  }

  lemma InTwo(env: Env, t: Tree, file: Path, refs: seq<ClassRef>, vs: seq<Visit>, more: seq<Visit>)
    requires refs != []
    ensures forall p :: TriedIn(env, t, file, refs, p) <==>
      TriedIn(env, t, file, [refs[0]], p) || TriedIn(env, t, file, refs[1..], p)
    ensures forall w :: FallbackIn(env, t, file, refs, w) <==>
      FallbackIn(env, t, file, [refs[0]], w) || FallbackIn(env, t, file, refs[1..], w)
    ensures forall p :: TriedBy(env, t, vs + more, p) <==> TriedBy(env, t, vs, p) || TriedBy(env, t, more, p)
    ensures forall w :: WarnedBy(env, t, vs + more, w) <==> WarnedBy(env, t, vs, w) || WarnedBy(env, t, more, w)
  {
    forall p ensures TriedIn(env, t, file, refs, p) <==>
      TriedIn(env, t, file, [refs[0]], p) || TriedIn(env, t, file, refs[1..], p) {
      FirstOrRest(refs, (r: ClassRef) => p in ResolveClass(env, t, r.name, file).tried);
    }
    forall w ensures FallbackIn(env, t, file, refs, w) <==>
      FallbackIn(env, t, file, [refs[0]], w) || FallbackIn(env, t, file, refs[1..], w) {
      FirstOrRest(refs, (r: ClassRef) => IsFallback(env, t, file, r, w));
    }
    assert forall v :: v in vs + more <==> v in vs || v in more;
  }

  lemma FirstOrRest<T>(s: seq<T>, f: T -> bool)
    requires s != []
    ensures (exists i :: 0 <= i < |s| && f(s[i])) <==>
      (exists i :: 0 <= i < |[s[0]]| && f([s[0]][i])) || (exists i :: 0 <= i < |s[1..]| && f(s[1..][i]))
  {
    assert [s[0]][0] == s[0];
    if i :| 0 <= i < |s| && f(s[i]) {
      assert i > 0 ==> s[1..][i - 1] == s[i];
    }
    if i :| 0 <= i < |s[1..]| && f(s[1..][i]) {
      assert s[i + 1] == s[1..][i];
    }
  }

  lemma {:induction false} EntryAccounts(env: Env, t: Tree, file: Path, r: ClassRef, acc: Acc, stack: seq<Path>)
    requires Include(env, t, file, r, acc, stack).Ok?
    ensures Accounts(env, t, file, [r], EntryVisits(env, t, file, r, stack), acc,
                     Include(env, t, file, r, acc, stack).value)
    decreases Room(t, stack), 1, 0
  {
    var res := ResolveClass(env, t, r.name, file);
    if res.found.Some? {
      ClosureAccounts(env, t, res.found.value, r.name, EmptyMap, stack);
      ProbeAccounts(env, t, file, r, acc);
      AbsorbAccounts(env, t, file, r, EntryVisits(env, t, file, r, stack), acc, Probe(env, acc, r, res),
                     BuildClosure(env, t, res.found.value, EmptyMap, stack).value);
    } else {
      NotFoundAccounts(env, t, file, r, acc);
    }
  }

  lemma OneEntry(env: Env, t: Tree, file: Path, r: ClassRef)
    ensures forall p :: TriedIn(env, t, file, [r], p) <==> p in ResolveClass(env, t, r.name, file).tried
    ensures forall w :: FallbackIn(env, t, file, [r], w) <==> IsFallback(env, t, file, r, w)
  {
    assert [r][0] == r;
    var tried := ResolveClass(env, t, r.name, file).tried;
    forall p ensures TriedIn(env, t, file, [r], p) <==> p in tried {
      OnlyOne(r, (r: ClassRef) => p in ResolveClass(env, t, r.name, file).tried);
    }
    forall w ensures FallbackIn(env, t, file, [r], w) <==> IsFallback(env, t, file, r, w) {
      OnlyOne(r, (r: ClassRef) => IsFallback(env, t, file, r, w));
    }
  }

  lemma OnlyOne<T>(x: T, f: T -> bool)
    ensures (exists i :: 0 <= i < |[x]| && f([x][i])) <==> f(x)
  {
    assert [x][0] == x;
  }

  /** What the entry adds, whatever it tried and warned of. */
  lemma OnlyThese(
    env: Env, t: Tree, file: Path, refs: seq<ClassRef>, acc: Acc, next: Acc, tried: seq<Path>, warned: seq<Warning>)
    requires forall p :: TriedIn(env, t, file, refs, p) <==> p in tried
    requires forall w :: FallbackIn(env, t, file, refs, w) <==> w in warned
    requires forall p :: p in next.probes <==> p in acc.probes || p in tried
    requires next.warnings == acc.warnings + warned
    ensures Accounts(env, t, file, refs, [], acc, next)
  {
    forall w: Warning | w in warned ensures HasPlace(next.warnings, w.place) {
      StillHasPlace(next.warnings, next.warnings, w.place);
    }
  }

  lemma ProbeAccounts(env: Env, t: Tree, file: Path, r: ClassRef, acc: Acc)
    requires ResolveClass(env, t, r.name, file).found.Some?
    ensures Accounts(env, t, file, [r], [], acc, Probe(env, acc, r, ResolveClass(env, t, r.name, file)))
  {
    OneEntry(env, t, file, r);
    var res := ResolveClass(env, t, r.name, file);
    var next := Probe(env, acc, r, res);
    OnlyThese(env, t, file, [r], acc, next, res.tried, next.warnings[|acc.warnings|..]);
  }

  lemma NotFoundAccounts(env: Env, t: Tree, file: Path, r: ClassRef, acc: Acc)
    requires ResolveClass(env, t, r.name, file).found.None?
    ensures var tried := ResolveClass(env, t, r.name, file).tried;
      Accounts(env, t, file, [r], [], acc, acc.(probes := AddAll(acc.probes, tried)))
  {
    OneEntry(env, t, file, r);
    var tried := ResolveClass(env, t, r.name, file).tried;
    OnlyThese(env, t, file, [r], acc, acc.(probes := AddAll(acc.probes, tried)), tried, []);
  }

  lemma AbsorbAccounts(
    env: Env, t: Tree, file: Path, r: ClassRef, vs: seq<Visit>, acc: Acc, probed: Acc, c: Closure)
    requires Accounts(env, t, file, [r], [], acc, probed) && AccountsFor(env, t, vs, c)
    ensures Accounts(env, t, file, [r], vs, acc, Absorb(env, probed, r.name, c))
  {
    var next := Absorb(env, probed, r.name, c);
    WarningsAdded(probed.warnings, c.warnings);
    forall w | FallbackIn(env, t, file, [r], w) ensures HasPlace(next.warnings, w.place) {
      StillHasPlace(probed.warnings, next.warnings, w.place);
    }
    forall w | WarnedBy(env, t, vs, w) ensures HasPlace(next.warnings, w.place) {
      var i :| 0 <= i < |c.warnings| && c.warnings[i].place == w.place;
      assert c.warnings[i] in c.warnings;
    }
  }
}
