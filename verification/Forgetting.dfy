/**
 What the ways to forget (inventory.rs) are worth: a cached closure that survives
 some calls is right for a changed tree whenever the calls cover the change, and can
 be wrong when they do not.
*/
module Forgetting {
  import opened Wrappers
  import opened Values
  import opened Strings
  import opened Order
  import opened ClassLoader
  import opened Footprint
  import opened Rendering
  import opened Inventories
  import opened Fnmatch

  /** The ways to forget, as a sequence of calls between two renders. */
  datatype Forget = One(path: Path) | Dependents(paths: seq<Path>) | Under(dir: Path) | Everything

  /** The call drops what was read from or tried at `p`. */
  predicate Forgets(op: Forget, p: Path) {
    match op
    case One(q) => q == p
    case Dependents(paths) => p in paths
    case Under(dir) => dir <= p
    case Everything => true
  }

  /** The call drops what depends on the listing of `classes/`. */
  predicate ForgetsListing(env: Env, op: Forget) {
    match op
    case One(q) => q == env.ClassesDir()
    case Dependents(paths) => exists c :: c in paths && env.ClassesDir() <= c
    case Under(dir) => dir <= env.ClassesDir()
    case Everything => true
  }

  predicate KeepsFile(op: Forget, p: Path) { !Forgets(op, p) }

  predicate KeepsClosure(op: Forget, c: Closure) {
    match op
    case One(q) => q !in c.files && q !in c.probes
    case Dependents(paths) => KeptBy(c, paths)
    case Under(dir) => KeptOutside(c, dir)
    case Everything => false
  }

  ghost predicate Survives(ops: seq<Forget>, c: Closure) { forall op :: op in ops ==> KeepsClosure(op, c) }

  /** A file that patterns can match. */
  predicate IsListed(env: Env, p: Path) {
    env.ClassesDir() < p && IsYaml(p[|p| - 1]) && ClassName(p[|env.ClassesDir()|..]).Some?
  }

  /** The calls cover a change at `p`: it is forgotten, and when the file comes or goes
      and patterns can match it, the listing of `classes/` is forgotten too. */
  ghost predicate Cover(env: Env, ops: seq<Forget>, p: Path, comesOrGoes: bool) {
    && (exists op :: op in ops && Forgets(op, p))
    && (env.classWildcards && IsListed(env, p) && comesOrGoes ==> exists op :: op in ops && ForgetsListing(env, op))
  }

  predicate ComesOrGoes(t1: Tree, t2: Tree, p: Path) { (p in t1) != (p in t2) }

  /** Every difference between the trees is covered. */
  ghost predicate Accounted(env: Env, t1: Tree, t2: Tree, ops: seq<Forget>) {
    forall p :: Differ(t1, t2, p) ==> Cover(env, ops, p, ComesOrGoes(t1, t2, p))
  }

  // ---- covered changes -----------------------------------------------------------------

  lemma ForgottenIsDropped(op: Forget, c: Closure, p: Path)
    requires Forgets(op, p) && (p in c.files || p in c.probes)
    ensures !KeepsClosure(op, c)
  {
  }

  lemma ListingIsDropped(env: Env, op: Forget, c: Closure)
    requires ForgetsListing(env, op) && env.ClassesDir() in c.probes
    ensures !KeepsClosure(op, c)
  {
  }

  lemma SameAvailable(env: Env, t1: Tree, t2: Tree)
    requires forall p :: IsListed(env, p) ==> !ComesOrGoes(t1, t2, p)
    ensures Available(env, t1) == Available(env, t2)
  {
    NamesAmong(env, t1, t2);
    NamesAmong(env, t2, t1);
    SameNamesSameList(env, t1, t2, NamesOf(env.ClassesDir(), Listing(env, t1)));
  }

  lemma SameNamesSameList(env: Env, t1: Tree, t2: Tree, names: set<string>)
    requires NamesOf(env.ClassesDir(), Listing(env, t1)) == names == NamesOf(env.ClassesDir(), Listing(env, t2))
    ensures Available(env, t1) == Available(env, t2)
  {
  }

  lemma NamesAmong(env: Env, t1: Tree, t2: Tree)
    requires forall p :: IsListed(env, p) ==> !ComesOrGoes(t1, t2, p)
    ensures NamesOf(env.ClassesDir(), Listing(env, t1)) <= NamesOf(env.ClassesDir(), Listing(env, t2))
  {
    var dir := env.ClassesDir();
    forall n | n in NamesOf(dir, Listing(env, t1)) ensures n in NamesOf(dir, Listing(env, t2)) {
      var f :| f in Listing(env, t1) && ClassName(f[|dir|..]) == Some(n);
      assert IsListed(env, f) && !ComesOrGoes(t1, t2, f);
      assert f in Listing(env, t2);
    }
  }

  /** Whatever survives calls that cover every difference is right for the new tree, in
      whatever order and however often they are made. */
  lemma {:induction false} SurvivorsAreFresh(
    env: Env, t1: Tree, t2: Tree, ops: seq<Forget>, file: Path, c: Closure)
    requires Accounted(env, t1, t2, ops)
    requires BuildClosure(env, t1, file, EmptyMap, []) == Ok(c) && Survives(ops, c)
    ensures BuildClosure(env, t2, file, EmptyMap, []) == Ok(c)
  {
    forall f | f in c.files || f in c.probes ensures !Differ(t1, t2, f) {
      if Differ(t1, t2, f) {
        assert Cover(env, ops, f, ComesOrGoes(t1, t2, f));
        var op :| op in ops && Forgets(op, f);
        ForgottenIsDropped(op, c, f);
      }
    }
    if env.classWildcards && env.ClassesDir() in c.probes {
      forall p | IsListed(env, p) ensures !ComesOrGoes(t1, t2, p) {
        if ComesOrGoes(t1, t2, p) {
          assert Cover(env, ops, p, true);
          var op :| op in ops && ForgetsListing(env, op);
          ListingIsDropped(env, op, c);
        }
      }
      SameAvailable(env, t1, t2);
    }
    FootprintIsEnough(env, t1, t2, file, EmptyMap, []);
  }

  /** Of parsed files it is enough that each difference is forgotten. */
  lemma SurvivingFilesAreFresh(env: Env, t1: Tree, t2: Tree, ops: seq<Forget>, p: Path)
    requires forall q :: Differ(t1, t2, q) ==> exists op :: op in ops && Forgets(op, q)
    requires forall op :: op in ops ==> KeepsFile(op, p)
    ensures Load(env, t2, p) == Load(env, t1, p)
  {
    assert !Differ(t1, t2, p);
  }

  // ---- changes that are not covered ------------------------------------------------------

  ghost predicate SameSettings(e: Env, env: Env) { e.root == env.root && e.classWildcards == env.classWildcards }

  /** The trees differ at `p` and nowhere else. */
  ghost predicate ChangeAt(t1: Tree, t2: Tree, p: Path, comesOrGoes: bool) {
    && (forall q :: Differ(t1, t2, q) <==> q == p)
    && ComesOrGoes(t1, t2, p) == comesOrGoes
  }

  /** A closure cached for `t1` that survives the calls is wrong for `t2`. */
  ghost predicate Stale(e: Env, t1: Tree, t2: Tree, ops: seq<Forget>, file: Path, c: Closure) {
    && BuildClosure(e, t1, file, EmptyMap, []) == Ok(c) && Survives(ops, c)
    && BuildClosure(e, t2, file, EmptyMap, []) != Ok(c)
  }

  ghost predicate CanGoStale(env: Env, ops: seq<Forget>, p: Path, comesOrGoes: bool) {
    exists e: Env, t1: Tree, t2: Tree, file: Path, c: Closure ::
      SameSettings(e, env) && ChangeAt(t1, t2, p, comesOrGoes) && Stale(e, t1, t2, ops, file, c)
  }

  /** Covering is exact: for all class files at once, a change at one place can leave a
      stale closure behind exactly when the calls do not cover it. */
  lemma {:induction false} CoveringDecides(env: Env, ops: seq<Forget>, p: Path, comesOrGoes: bool)
    ensures CanGoStale(env, ops, p, comesOrGoes) <==> !Cover(env, ops, p, comesOrGoes)
  {
    if Cover(env, ops, p, comesOrGoes) {
      forall e: Env, t1: Tree, t2: Tree, file: Path, c: Closure
        | SameSettings(e, env) && ChangeAt(t1, t2, p, comesOrGoes)
        ensures !Stale(e, t1, t2, ops, file, c)
      {
        assert Accounted(e, t1, t2, ops);
        if BuildClosure(e, t1, file, EmptyMap, []) == Ok(c) && Survives(ops, c) {
          SurvivorsAreFresh(e, t1, t2, ops, file, c);
        }
      }
    } else if exists op :: op in ops && Forgets(op, p) {
      NewClassIsMissed(env, ops, p);
    } else {
      ChangeIsMissed(env, ops, p, comesOrGoes);
    }
  }

  // A file nobody forgets: its own closure.

  function Plain(parameters: Node): ClassDoc { ClassDoc([], parameters, [], EmptyMap, []) }

  /** Files read "a" or are rejected. */
  function OnlyA(env: Env): Env {
    env.(parse := (p: Path, text: string) =>
      if text == "a" then Ok(Plain(EmptyMap)) else Err(Failure(Rejected("", text), [], None)))
  }

  lemma {:induction false} ChangeIsMissed(env: Env, ops: seq<Forget>, p: Path, comesOrGoes: bool)
    requires forall op :: op in ops ==> !Forgets(op, p)
    ensures CanGoStale(env, ops, p, comesOrGoes)
  {
    var e, t1 := OnlyA(env), map[p := "a"];
    var t2: Tree := if comesOrGoes then map[] else map[p := "b"];
    assert BuildClosure(e, t1, p, EmptyMap, []) ==
      Ok(Finish(e, Start(e, p, Plain(EmptyMap), EmptyMap), Plain(EmptyMap)));
    var c := BuildClosure(e, t1, p, EmptyMap, []).value;
    assert c.files == [p] && c.probes == [];
    assert Load(e, t2, p).Err?;
    assert ChangeAt(t1, t2, p, comesOrGoes);
    assert Stale(e, t1, t2, ops, p, c);
  }

  // A file that takes every class: a new class is only seen in the listing.

  function TakesAll(env: Env): Env {
    env.(parse := (p: Path, text: string) =>
           Ok(ClassDoc([ClassRef("*", Synthetic)], EmptyMap, [], EmptyMap, [])),
         ignoreClassNotFound := true)
  }

  /** A name that no call mentions. */
  lemma {:induction false} UnusedName(used: set<string>) returns (n: string)
    ensures n != "" && (forall c :: c in n ==> c == 'x') && forall u :: u in used ==> |u| < |n|
  {
    if used == {} {
      n := "x";
    } else {
      var u :| u in used;
      n := UnusedName(used - {u});
      if |n| <= |u| {
        n := seq(|u| + 1, _ => 'x');
      }
    }
  }

  function PathsOf(op: Forget): seq<Path> {
    match op
    case One(q) => [q]
    case Dependents(paths) => paths
    case Under(dir) => [dir]
    case Everything => []
  }

  function NamesUsed(ops: seq<Forget>): set<string> {
    set op, q, i | op in ops && q in PathsOf(op) && 0 <= i < |q| :: q[i]
  }

  /** A place below `classes/` that calls which leave the listing alone do not forget. */
  lemma {:induction false} UnusedIsKept(env: Env, ops: seq<Forget>, op: Forget, n: string)
    requires op in ops && !ForgetsListing(env, op) && n !in NamesUsed(ops)
    ensures !Forgets(op, env.ClassesDir() + [n])
  {
    var dir := env.ClassesDir();
    var f := dir + [n];
    assert f[|dir|] == n;
    assert forall q :: q in PathsOf(op) && |dir| < |q| ==> q[|dir|] in NamesUsed(ops);
    assert f !in PathsOf(op) && f[..|f| - 1] == dir;
    ProperlyAbove(op, f);
  }

  lemma ProperlyAbove(op: Forget, f: Path)
    requires f != []
    ensures op.Under? && op.dir <= f && op.dir != f ==> op.dir <= f[..|f| - 1]
  {
  }

  lemma {:induction false} NoDotNoYaml(n: string)
    requires '.' !in n
    ensures !IsYaml(n)
  {
    assert LastIndex(n, '.') < 0;
  }

  lemma {:induction false} StarAccepts(name: string)
    ensures Accepts("*", name)
  {
    assert Tokens("*", 0) == [Star];
    StarIsEnough(name);
  }

  lemma {:induction false} StarIsEnough(name: string)
    ensures Unfolded([Star], name)
  {
    if name != "" {
      StarIsEnough(name[1..]);
    }
  }

  lemma StarIsPattern()
    ensures IsPattern("*") && !IsReference("*")
  {
    assert '*' in "*";
  }

  const STAR := ClassRef("*", Synthetic)

  /** Without any class, `*` stands for none; with one, for that one. */
  lemma {:induction false} StarTakesNone(env: Env)
    requires env.ignoreClassNotFound
    ensures ExpandFrom(env, [], [STAR], []) == Ok([])
  {
    StarIsPattern();
    assert [STAR][1..] == [] && Matching("*", []) == [];
  }

  lemma {:induction false} StarTakesOne(env: Env, n: string)
    requires env.ignoreClassNotFound
    ensures ExpandFrom(env, [n], [STAR], []) == Ok([ClassRef(n, Synthetic)])
  {
    StarIsPattern();
    assert [STAR][1..] == [] && [n][1..] == [];
    if n == "*" {
      assert StaysAsWritten([n], "*") && PushRef([], STAR) == [STAR];
    } else {
      StarAccepts(n);
      assert Matching("*", [n]) == [n] + Matching("*", []);
      var one := PushRef([], ClassRef(n, Synthetic));
      assert PushMatches([], [n], Synthetic) == PushMatches(one, [], Synthetic) == one == [ClassRef(n, Synthetic)];
      assert Matching("*", []) == [] && !StaysAsWritten([n], "*");
      assert ExpandFrom(env, [n], [STAR], []) == ExpandFrom(env, [n], [], PushMatches([], [n], Synthetic));
    }
  }

  lemma StarUsesPatterns(env: Env)
    requires env.classWildcards
    ensures UsesPatterns(env, [STAR])
  {
    StarIsPattern();
    assert [STAR][0].name == "*";
  }

  lemma NoneAvailable(env: Env, t: Tree)
    requires Listing(env, t) == {}
    ensures Available(env, t) == []
  {
    assert NamesOf(env.ClassesDir(), {}) == {};
    assert forall x :: x !in Available(env, t);
  }

  /** A file whose only class entry is `*`, when there are no classes. */
  lemma {:induction false} TakesNone(env: Env, t: Tree, f: Path)
    requires env.classWildcards && f in t && Listing(env, t) == {}
    ensures var b := BuildClosure(TakesAll(env), t, f, EmptyMap, []);
      b.Ok? && b.value.files == [f] && b.value.probes == [env.ClassesDir()]
  {
    var e := TakesAll(env);
    assert Listing(e, t) == {};
    NoneAvailable(e, t);
    StarUsesPatterns(e);
    StarTakesNone(e);
    assert Expand(e, t, [STAR]) == Ok([]);
  }

  /** And when there is one: its closure tries more than the listing. */
  lemma {:induction false} TakesOne(env: Env, t: Tree, f: Path, n: string)
    requires env.classWildcards && f in t && Available(env, t) == [n]
    ensures var b := BuildClosure(TakesAll(env), t, f, EmptyMap, []);
      b.Ok? ==> b.value.probes != [env.ClassesDir()]
  {
    var e := TakesAll(env);
    assert Available(e, t) == [n];
    StarUsesPatterns(e);
    StarTakesOne(e, n);
    assert ClassList(e, t, f) == Some([ClassRef(n, Synthetic)]);
    TriesClass(e, t, f, ClassRef(n, Synthetic));
  }

  lemma {:induction false} TriesClass(env: Env, t: Tree, f: Path, r: ClassRef)
    requires ClassList(env, t, f) == Some([r])
    ensures var b := BuildClosure(env, t, f, EmptyMap, []);
      b.Ok? ==> b.value.probes != [env.ClassesDir()]
  {
    var b := BuildClosure(env, t, f, EmptyMap, []);
    if b.Ok? {
      BuildDone(env, t, f, EmptyMap, []);
      FirstTry(env, t, r.name, f);
      var p := ResolveClass(env, t, r.name, f).tried[0];
      assert [r][0] == r && p in b.value.probes;
    }
  }

  lemma FirstTry(env: Env, t: Tree, n: string, f: Path)
    ensures var tried := ResolveClass(env, t, n, f).tried;
      tried != [] && tried[0] in tried && tried[0] != env.ClassesDir()
  {
    var base, parts := Base(env, n, f), Split(n, '.');
    var first := Candidates(env, n, f)[0];
    assert "init." + "yml" == "init.yml" && first == Cases(base, parts, "yml")[0];
    assert first == PushAll(base, parts).comps + ["init.yml"];
    assert first[|first| - 1] == "init.yml" && env.ClassesDir()[|env.root|] == "classes";
  }

  lemma {:induction false} OneListed(env: Env, t: Tree, p: Path)
    requires IsListed(env, p) && p in t && Listing(env, t) <= {p}
    ensures Available(env, t) == [ClassName(p[|env.ClassesDir()|..]).value]
  {
    var dir := env.ClassesDir();
    assert p in Listing(env, t) && Listing(env, t) == {p};
    assert NamesOf(dir, {p}) == {ClassName(p[|dir|..]).value};
    SortedSingle(ClassName(p[|dir|..]).value);
  }

  /** A class that comes is missed by a closure that depends on the listing, whichever
      other places are forgotten. */
  lemma {:induction false} NewClassIsMissed(env: Env, ops: seq<Forget>, p: Path)
    requires env.classWildcards && IsListed(env, p)
    requires forall op :: op in ops ==> !ForgetsListing(env, op)
    ensures CanGoStale(env, ops, p, true)
  {
    var n := UnusedName(NamesUsed(ops));
    var f := env.ClassesDir() + [n];
    NoDotNoYaml(n);
    assert f[|f| - 1] == n;
    var t: Tree := map[f := ""];
    TakesNone(env, t, f);
    var c := BuildClosure(TakesAll(env), t, f, EmptyMap, []).value;
    forall op | op in ops ensures KeepsClosure(op, c) {
      UnusedIsKept(env, ops, op, n);
      KeptWhenApart(env, op, c, f);
    }
    ListingChanges(env, t, f, p);
    NewEntry(t, p);
    GoesStale(TakesAll(env), env, ops, t, t[p := ""], p, f, c);
  }

  lemma GoesStale(e: Env, env: Env, ops: seq<Forget>, t1: Tree, t2: Tree, p: Path, file: Path, c: Closure)
    requires SameSettings(e, env) && ChangeAt(t1, t2, p, true) && Survives(ops, c)
    requires BuildClosure(e, t1, file, EmptyMap, []) == Ok(c)
    requires var b := BuildClosure(e, t2, file, EmptyMap, []); b.Ok? ==> b.value.probes != c.probes
    ensures CanGoStale(env, ops, p, true)
  {
    assert Stale(e, t1, t2, ops, file, c);
  }

  lemma KeptWhenApart(env: Env, op: Forget, c: Closure, f: Path)
    requires c.files == [f] && c.probes == [env.ClassesDir()] && !Forgets(op, f) && !ForgetsListing(env, op)
    ensures KeepsClosure(op, c)
  {
  }

  lemma {:induction false} ListingChanges(env: Env, t: Tree, f: Path, p: Path)
    requires env.classWildcards && IsListed(env, p) && f in t && Listing(env, t) == {}
    ensures var b := BuildClosure(TakesAll(env), t[p := ""], f, EmptyMap, []);
      b.Ok? ==> b.value.probes != [env.ClassesDir()]
  {
    ListingGrows(env, t, p);
    OneListed(env, t[p := ""], p);
    TakesOne(env, t[p := ""], f, ClassName(p[|env.ClassesDir()|..]).value);
  }

  lemma NewEntry(t: Tree, p: Path)
    requires p !in t
    ensures ChangeAt(t, t[p := ""], p, true)
  {
  }

  lemma ListingGrows(env: Env, t: Tree, p: Path)
    ensures Listing(env, t[p := ""]) <= Listing(env, t) + {p}
  {
  }

  // ---- two calls that are not enough ---------------------------------------------------------

  /** With wildcards, forgetting a new class file alone leaves closures that depend on
      the listing of `classes/`. */
  lemma {:induction false} OneIsNotEnough(env: Env)
    requires env.classWildcards
    ensures CanGoStale(env, [Forget.One(env.ClassesDir() + ["new.yml"])], env.ClassesDir() + ["new.yml"], true)
  {
    NewIsListed(env, ["new.yml"]);
    NewClassIsMissed(env, [Forget.One(env.ClassesDir() + ["new.yml"])], env.ClassesDir() + ["new.yml"]);
  }

  /** So does forgetting everything below the directory it is in. */
  lemma {:induction false} UnderIsNotEnough(env: Env)
    requires env.classWildcards
    ensures CanGoStale(env, [Under(env.ClassesDir() + ["d"])], env.ClassesDir() + ["d", "new.yml"], true)
  {
    NewIsListed(env, ["d", "new.yml"]);
    NewClassIsMissed(env, [Under(env.ClassesDir() + ["d"])], env.ClassesDir() + ["d", "new.yml"]);
  }

  lemma {:induction false} NewIsListed(env: Env, rel: Path)
    requires rel == ["new.yml"] || rel == ["d", "new.yml"]
    ensures IsListed(env, env.ClassesDir() + rel)
  {
    var p := env.ClassesDir() + rel;
    assert p[|env.ClassesDir()|..] == rel && p[|p| - 1] == "new.yml";
    assert "new.yml" == "new" + "." + "yml";
    LastDot("new", "yml");
  }
}
