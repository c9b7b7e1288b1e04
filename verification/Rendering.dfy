/** Target discovery and rendering from scratch (inventory.rs), as functions of the file tree. */
module Rendering {
  import opened Wrappers
  import opened Values
  import opened Strings
  import opened Order
  import opened ClassLoader
  import opened Footprint

  datatype TargetSpec = TargetSpec(name: string, path: string, file: Path)

  datatype RenderedTarget = RenderedTarget(
    name: string, path: string, parameters: Node, classes: seq<string>, applications: seq<Node>, exports: Node,
    files: seq<Path>, probes: seq<Path>, digest: string, documentDigest: string,
    merges: seq<MergeEvent>, resolutions: seq<string>, warnings: seq<Warning>)

  // ---- discovery --------------------------------------------------------------

  predicate IsTargetFile(env: Env, f: Path) {
    env.TargetsDir() < f && IsYaml(f[|f| - 1])
  }

  function TargetFiles(env: Env, t: Tree): set<Path> {
    set f | f in t.Keys && IsTargetFile(env, f)
  }

  function ReplaceChar(s: string, from: char, to: char): string {
    seq(|s|, i requires 0 <= i < |s| => if s[i] == from then to else s[i])
  }

  function SpecOf(env: Env, f: Path): TargetSpec
    requires IsTargetFile(env, f)
  {
    var path := Join(f[|env.TargetsDir()|..], "/");
    TargetSpec(if env.composeTargetName then ReplaceChar(Stem(path), '/', '.') else Stem(f[|f| - 1]), path, f)
  }

  function SpecsOf(env: Env, files: seq<Path>): (r: seq<TargetSpec>)
    requires forall f :: f in files ==> IsTargetFile(env, f)
    ensures |r| == |files| && forall i :: 0 <= i < |r| ==> r[i] == SpecOf(env, files[i])
  {
    if files == [] then [] else [SpecOf(env, files[0])] + SpecsOf(env, files[1..])
  }

  predicate NamesAreUnique(specs: seq<TargetSpec>) {
    forall i, j :: 0 <= i < j < |specs| ==> specs[i].name != specs[j].name
  }

  /** The first spec whose name an earlier one has. */
  function Conflict(specs: seq<TargetSpec>, i: nat): (r: Option<TargetSpec>)
    requires i <= |specs|
    ensures r.None? ==> forall j, k :: 0 <= k < j && i <= j < |specs| ==> specs[k].name != specs[j].name
    ensures r.Some? ==> !NamesAreUnique(specs)
    decreases |specs| - i
  {
    if i == |specs| then None
    else if exists k :: 0 <= k < i && specs[k].name == specs[i].name then Some(specs[i])
    else Conflict(specs, i + 1)
  }

  function Discover(env: Env, t: Tree): Result<seq<TargetSpec>, Failure> {
    if !exists f :: f in t.Keys && env.TargetsDir() < f then Err(Failure(NoTargetsDir(env.TargetsDir()), [], None))
    else
      var specs := SpecsOf(env, SortedPaths(TargetFiles(env, t)));
      match Conflict(specs, 0)
      case Some(s) => Err(Failure(ConflictingTargets(s.name, s.path), [], None))
      case None => Ok(specs)
  }

  /** `discover_targets().unwrap_or_default()` */
  function Specs(env: Env, t: Tree): seq<TargetSpec> {
    match Discover(env, t)
    case Ok(specs) => specs
    case Err(_) => []
  }

  /** Discovery fails without a `targets/` directory, and at the first target, in the order
      of the files, whose name an earlier one has. */
  lemma {:induction false} DiscoveryFails(env: Env, t: Tree)
    ensures var specs := SpecsOf(env, SortedPaths(TargetFiles(env, t)));
      match Discover(env, t)
      case Err(e) =>
        if forall f :: f in t.Keys ==> !(env.TargetsDir() < f) then
          e == Failure(NoTargetsDir(env.TargetsDir()), [], None)
        else
          exists i, k :: 0 <= k < i < |specs| && specs[k].name == specs[i].name && NamesAreUnique(specs[..i]) &&
            e == Failure(ConflictingTargets(specs[i].name, specs[i].path), [], None)
      case Ok(all) => all == specs && NamesAreUnique(specs)
  {
    var specs := SpecsOf(env, SortedPaths(TargetFiles(env, t)));
    if Conflict(specs, 0).Some? {
      var i, k := FirstConflict(specs, 0);
    }
  }

  lemma {:induction false} FirstConflict(specs: seq<TargetSpec>, j: nat) returns (i: nat, k: nat)
    requires j <= |specs| && Conflict(specs, j).Some? && NamesAreUnique(specs[..j])
    ensures 0 <= k < i < |specs| && specs[k].name == specs[i].name && NamesAreUnique(specs[..i])
    ensures Conflict(specs, j) == Some(specs[i])
    decreases |specs| - j
  {
    if exists k :: 0 <= k < j && specs[k].name == specs[j].name {
      i := j;
      k :| 0 <= k < j && specs[k].name == specs[j].name;
    } else {
      i, k := FirstConflict(specs, j + 1);
    }
  }

  /** Names are unique, and a spec is the spec of its file. */
  lemma {:induction false} SpecsAreProper(env: Env, t: Tree)
    ensures NamesAreUnique(Specs(env, t))
    ensures forall i :: 0 <= i < |Specs(env, t)| ==>
              var s := Specs(env, t)[i]; IsTargetFile(env, s.file) && s.file in t && s == SpecOf(env, s.file)
  {
    if Discover(env, t).Ok? {
      var files := SortedPaths(TargetFiles(env, t));
      forall i | 0 <= i < |files| ensures files[i] in TargetFiles(env, t) {
        assert files[i] in files;
      }
    }
  }

  /** Unless discovery fails, every target file has its spec. */
  lemma SpecsAreComplete(env: Env, t: Tree, f: Path)
    requires Specs(env, t) != [] && f in TargetFiles(env, t)
    ensures SpecOf(env, f) in Specs(env, t)
  {
    var files := SortedPaths(TargetFiles(env, t));
    SpecsAreListed(env, t);
    var specs := SpecsOf(env, files);
    var i :| 0 <= i < |files| && files[i] == f;
    assert specs[i] == SpecOf(env, f) && specs[i] in specs;
  }

  lemma SpecsAreListed(env: Env, t: Tree)
    requires Specs(env, t) != []
    ensures Specs(env, t) == SpecsOf(env, SortedPaths(TargetFiles(env, t)))
  {
  }

  // ---- rendering ----------------------------------------------------------------

  function PathText(p: Path): string { "/" + Join(p, "/") }

  /** What is fed to the content digest: each file's path and the digest of its text. */
  function DigestText(env: Env, t: Tree, files: seq<Path>): string {
    if files == [] then ""
    else
      PathText(files[0])
      + (match Load(env, t, files[0]) case Ok(l) => l.digest case Err(_) => "")
      + DigestText(env, t, files[1..])
  }

  function TargetWarnings(ws: seq<Warning>, name: string): seq<Warning> {
    seq(|ws|, i requires 0 <= i < |ws| => ws[i].(target := Some(name)))
  }

  /** The rendered target, once its closure is known. */
  function Complete(env: Env, spec: TargetSpec, c: Closure, e: Evaluated, digestText: string): RenderedTarget {
    RenderedTarget(
      spec.name, spec.path, e.params, c.classes, c.applications, c.exports, c.files, c.probes,
      env.hash(digestText), env.documentDigest(e.params, c.classes, c.applications, c.exports),
      c.log, e.resolutions, TargetWarnings(c.warnings, spec.name) + e.warnings)
  }

  function InitialParameters(env: Env, spec: TargetSpec): Node { env.initial(spec.name, Stem(spec.path)) }

  /** A target rendered from scratch, its errors labelled with its name. */
  function Render(env: Env, t: Tree, spec: TargetSpec): Result<RenderedTarget, Failure> {
    match BuildClosure(env, t, spec.file, InitialParameters(env, spec), [])
    case Err(e) => Err(e.WithTarget(spec.name))
    case Ok(c) =>
      match env.evaluate(spec.name, c.params)
      case Err(e) => Err(e.WithTarget(spec.name))
      case Ok(e) => Ok(Complete(env, spec, c, e, DigestText(env, t, c.files)))
  }

  /** The closure of a target's file, on top of its initial parameters. */
  function TargetClosure(env: Env, t: Tree, spec: TargetSpec): Result<Closure, Failure> {
    BuildClosure(env, t, spec.file, InitialParameters(env, spec), [])
  }

  /** A rendered target, field by field: its parameters are what evaluating the closure's
      gives, and the digest of the document is that of these parameters and of the rest of
      the document. */
  ghost predicate RenderedFrom(env: Env, t: Tree, spec: TargetSpec, c: Closure, r: RenderedTarget) {
    && r.name == spec.name && r.path == spec.path
    && r.classes == c.classes && r.applications == c.applications && r.exports == c.exports
    && r.files == c.files && r.probes == c.probes && r.merges == c.log
    && r.digest == env.hash(DigestText(env, t, r.files))
    && r.documentDigest == env.documentDigest(r.parameters, r.classes, r.applications, r.exports)
    && var e := env.evaluate(spec.name, c.params);
       && e.Ok? && r.parameters == e.value.params && r.resolutions == e.value.resolutions
       && |r.warnings| == |c.warnings| + |e.value.warnings|
       && (forall i :: 0 <= i < |c.warnings| ==> r.warnings[i] == c.warnings[i].(target := Some(spec.name)))
       && r.warnings[|c.warnings|..] == e.value.warnings
  }

  /** Rendering succeeds when the closure is built and its parameters can be evaluated. */
  lemma RenderedIsComplete(env: Env, t: Tree, spec: TargetSpec)
    ensures var c, r := TargetClosure(env, t, spec), Render(env, t, spec);
      && (r.Ok? <==> c.Ok? && env.evaluate(spec.name, c.value.params).Ok?)
      && (r.Ok? ==> RenderedFrom(env, t, spec, c.value, r.value))
  {
    if Render(env, t, spec).Ok? {
      var c, r := TargetClosure(env, t, spec).value, Render(env, t, spec).value;
      assert r.warnings[|c.warnings|..] == env.evaluate(spec.name, c.params).value.warnings;
    }
  }

  lemma RenderDone(env: Env, t: Tree, spec: TargetSpec)
    requires Render(env, t, spec).Ok?
    ensures var r, b := Render(env, t, spec).value, BuildClosure(env, t, spec.file, InitialParameters(env, spec), []);
      b.Ok? && r.files == b.value.files && r.probes == b.value.probes && r.name == spec.name && spec.file in r.files
  {
    BuildDone(env, t, spec.file, InitialParameters(env, spec), []);
  }

  lemma {:induction false} DigestSame(env: Env, t1: Tree, t2: Tree, files: seq<Path>)
    requires forall f :: f in files ==> Load(env, t1, f) == Load(env, t2, f)
    ensures DigestText(env, t1, files) == DigestText(env, t2, files)
  {
    if files != [] {
      assert forall f :: f in files[1..] ==> f in files;
      DigestSame(env, t1, t2, files[1..]);
    }
  }

  /** Trees that agree on the footprint of a render give the same render. */
  lemma RenderFootprint(env: Env, t1: Tree, t2: Tree, spec: TargetSpec)
    requires Render(env, t1, spec).Ok?
    requires var r := Render(env, t1, spec).value; Agree(env, t1, t2, r.files, r.probes)
    ensures Render(env, t2, spec) == Render(env, t1, spec)
  {
    RenderDone(env, t1, spec);
    FootprintIsEnough(env, t1, t2, spec.file, InitialParameters(env, spec), []);
    DigestSame(env, t1, t2, Render(env, t1, spec).value.files);
  }

  // ---- changes ---------------------------------------------------------------------

  ghost predicate Differ(t1: Tree, t2: Tree, p: Path) {
    (p in t1) != (p in t2) || (p in t1 && t1[p] != t2[p])
  }

  /** Every path that differs is listed, or lies below a listed path that is not a file now. */
  ghost predicate Covers(t1: Tree, t2: Tree, changed: seq<Path>) {
    forall p :: Differ(t1, t2, p) ==> exists c :: c in changed && (c == p || (c <= p && c !in t2))
  }

  /** What `invalidate_dependents` and `invalidate_under` keep, and what the daemon's
      index does not reach: nothing recorded is listed, no listed path is below a
      recorded probe, and nothing recorded is below a listed non-file. */
  ghost predicate Untouched(t2: Tree, changed: seq<Path>, files: seq<Path>, probes: seq<Path>) {
    && (forall f, c :: f in files && c in changed ==> f != c)
    && (forall p, c :: p in probes && c in changed ==> !(p <= c))
    && (forall f, c :: f in files && c in changed && c !in t2 ==> !(c <= f))
    && (forall p, c :: p in probes && c in changed && c !in t2 ==> !(c <= p))
  }

  lemma PrefixesOfOnePath(a: Path, b: Path, p: Path)
    requires a <= p && b <= p
    ensures a <= b || b <= a
  {
    if |a| <= |b| {
      assert a == p[..|a|] == b[..|a|];
    } else {
      assert b == p[..|b|] == a[..|b|];
    }
  }

  /** An untouched footprint looks the same before and after. */
  lemma UntouchedAgrees(env: Env, t1: Tree, t2: Tree, changed: seq<Path>, files: seq<Path>, probes: seq<Path>)
    requires Covers(t1, t2, changed) && Untouched(t2, changed, files, probes)
    ensures Agree(env, t1, t2, files, probes)
  {
    forall f | f in files ensures !Differ(t1, t2, f) {
      if Differ(t1, t2, f) {
        var c :| c in changed && (c == f || (c <= f && c !in t2));
      }
    }
    forall p | p in probes ensures !Differ(t1, t2, p) {
      if Differ(t1, t2, p) {
        var c :| c in changed && (c == p || (c <= p && c !in t2));
      }
    }
    if env.ClassesDir() in probes {
      var dir := env.ClassesDir();
      forall p | dir < p ensures p in t1 <==> p in t2 {
        if Differ(t1, t2, p) {
          var c :| c in changed && (c == p || (c <= p && c !in t2));
          PrefixesOfOnePath(c, dir, p);
          assert false;
        }
      }
      assert Listing(env, t1) == Listing(env, t2);
    }
  }

  /** A closure that no invalidation drops is still what a fresh build gives. */
  lemma KeptClosureIsFresh(env: Env, t1: Tree, t2: Tree, changed: seq<Path>, file: Path)
    requires BuildClosure(env, t1, file, EmptyMap, []).Ok? && Covers(t1, t2, changed)
    requires var c := BuildClosure(env, t1, file, EmptyMap, []).value; Untouched(t2, changed, c.files, c.probes)
    ensures BuildClosure(env, t2, file, EmptyMap, []) == BuildClosure(env, t1, file, EmptyMap, [])
  {
    var c := BuildClosure(env, t1, file, EmptyMap, []).value;
    UntouchedAgrees(env, t1, t2, changed, c.files, c.probes);
    FootprintIsEnough(env, t1, t2, file, EmptyMap, []);
  }
}
