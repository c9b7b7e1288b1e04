/**
 The inventory with its two caches (inventory.rs): parsed files and memoised
 closures. Every method that renders is proved to return what `ClassLoader` and
 `Rendering` compute from scratch on the current tree; every method that forgets
 says exactly what it keeps.
*/
module Inventories {
  import opened Wrappers
  import opened Values
  import opened Strings
  import opened Order
  import opened ClassLoader
  import opened Footprint
  import opened Rendering
  import opened Fnmatch

  class Inventory {
    const env: Env
    var files: map<Path, LoadedFile>
    var closures: map<Path, Closure>

    /** The caches hold nothing but what a fresh load or build of `t` gives, and
        every file of a cached closure is in the file cache. */
    ghost predicate Coherent(t: Tree)
      reads this
    {
      && (forall p :: p in files ==> Load(env, t, p) == Ok(files[p]))
      && (forall p :: p in closures ==> BuildClosure(env, t, p, EmptyMap, []) == Ok(closures[p]))
      && FilesAreCached()
    }

    ghost predicate FilesAreCached()
      reads this
    {
      forall p, f :: p in closures && f in closures[p].files ==> f in files
    }

    constructor (env: Env)
      ensures this.env == env && files == map[] && closures == map[]
      ensures forall t :: Coherent(t)
    {
      this.env := env;
      files, closures := map[], map[];
    }

    // ---- forgetting -----------------------------------------------------------

    /** Forget everything about one file. */
    method Invalidate(path: Path) returns (dropped: set<Path>)
      modifies this
      ensures files == old(files) - {path}
      ensures dropped == set k | k in old(closures) &&
        (path in old(closures)[k].files || path in old(closures)[k].probes)
      ensures closures == old(closures) - dropped
      ensures old(FilesAreCached()) ==> FilesAreCached()
    {
      files := files - {path};
      dropped := set k | k in closures && (path in closures[k].files || path in closures[k].probes);
      closures := closures - dropped;
    }

    /** Forget what depends on any of `paths`, by content or by class resolution. */
    method InvalidateDependents(paths: seq<Path>)
      modifies this
      ensures files == map p | p in old(files) && p !in paths :: old(files)[p]
      ensures closures == map k | k in old(closures) && KeptBy(old(closures)[k], paths) :: old(closures)[k]
      ensures old(FilesAreCached()) ==> FilesAreCached()
    {
      closures := map k | k in closures && KeptBy(closures[k], paths) :: closures[k];
      files := map p | p in files && p !in paths :: files[p];
      assert forall k, f :: k in closures && f in closures[k].files ==> f !in paths;
    }

    /** Forget what depends on anything under `dir`. */
    method InvalidateUnder(dir: Path)
      modifies this
      ensures files == map p | p in old(files) && !(dir <= p) :: old(files)[p]
      ensures closures == map k | k in old(closures) && KeptOutside(old(closures)[k], dir) :: old(closures)[k]
      ensures old(FilesAreCached()) ==> FilesAreCached()
    {
      closures := map k | k in closures && KeptOutside(closures[k], dir) :: closures[k];
      files := map p | p in files && !(dir <= p) :: files[p];
      assert forall k, f :: k in closures && f in closures[k].files ==> !(dir <= f);
    }

    method InvalidateAll()
      modifies this
      ensures files == map[] && closures == map[]
      ensures forall t :: Coherent(t)
    {
      files, closures := map[], map[];
    }

    // ---- loading ----------------------------------------------------------------

    // The methods that render end whatever the caches hold; that they return what a fresh
    // render gives needs caches that are right.

    method LoadFile(t: Tree, path: Path) returns (r: Result<LoadedFile, Failure>)
      modifies this`files
      ensures files == if r.Ok? then old(files)[path := r.value] else old(files)
      ensures r.Ok? ==> path in t || path in old(files)
      ensures path in old(files) ==> r == Ok(old(files)[path])
      ensures old(Coherent(t)) ==> Coherent(t) && r == Load(env, t, path)
    {
      if path in files {
        return Ok(files[path]);
      }
      if path !in t {
        return Err(Failure(Unreadable(path), [], None));
      }
      match env.parse(path, t[path])
      case Err(e) =>
        return Err(e);
      case Ok(doc) =>
        var loaded := LoadedFile(path, env.hash(t[path]), doc);
        files := files[path := loaded];
        return Ok(loaded);
    }

    /** The candidates are tried in order, one extension after the other. */
    method ResolveClassFile(t: Tree, name: string, from: Path) returns (r: Resolution)
      ensures r == ResolveClass(env, t, name, from)
    {
      var base, parts := Base(env, name, from), Split(name, '.');
      ghost var all := Candidates(env, name, from);
      ghost var goal := TryFrom(t, all, 0);
      var tried: seq<Path> := [];
      var e := 0;
      while e < 2
        invariant 0 <= e <= 2 && tried == all[..4 * e] && goal == TryFrom(t, all, 4 * e)
      {
        var cases := Cases(base, parts, EXTENSIONS[e]);
        CasesOf(env, name, from, e);
        var i := TryCases(t, cases);
        FourTries(t, all, 4 * e, cases, i);
        if i < 4 {
          return Resolution(Some(cases[i]), tried + cases[..i + 1], i >= 2);
        }
        tried := tried + cases;
        e := e + 1;
      }
      r := Resolution(None, tried, false);
    }

    /** The first of four candidates that is a file, or 4. */
    method TryCases(t: Tree, cases: seq<Path>) returns (i: nat)
      requires |cases| == 4
      ensures i <= 4 && (i < 4 ==> cases[i] in t) && forall k :: 0 <= k < i ==> cases[k] !in t
    {
      i := 0;
      while i < 4
        invariant i <= 4 && forall k :: 0 <= k < i ==> cases[k] !in t
      {
        if cases[i] in t {
          return;
        }
        i := i + 1;
      }
    }

    /** Only `*`, `?` and `[...]` entries that name no class are replaced. */
    method ExpandClassPatterns(t: Tree, refs: seq<ClassRef>) returns (r: Result<seq<ClassRef>, Failure>)
      ensures r == Expand(env, t, refs)
    {
      if !UsesPatterns(env, refs) {
        return Ok(refs);
      }
      r := ExpandAll(Available(env, t), refs);
    }

    method ExpandAll(available: seq<string>, refs: seq<ClassRef>) returns (r: Result<seq<ClassRef>, Failure>)
      ensures r == ExpandFrom(env, available, refs, [])
    {
      var out: seq<ClassRef> := [];
      var i := 0;
      ghost var goal := ExpandFrom(env, available, refs, []);
      assert refs[0..] == refs;
      while i < |refs|
        invariant 0 <= i <= |refs|
        invariant ExpandFrom(env, available, refs[i..], out) == goal
      {
        var ref := refs[i];
        ExpandAt(env, available, refs, i, out);
        if StaysAsWritten(available, ref.name) {
          out := PushRef(out, ref);
        } else {
          var matches := MatchingNames(ref.name, available);
          if matches == [] && !env.ignoreClassNotFound {
            return Err(Failure(PatternWithoutMatch(ref.name), [], None).WithLabel(ref.origin, "referenced here"));
          }
          out := PushMatches(out, matches, ref.origin);
        }
        i := i + 1;
      }
      r := Ok(out);
    }

    method MatchingNames(pattern: string, names: seq<string>) returns (r: seq<string>)
      ensures r == Matching(pattern, names)
    {
      r := [];
      var i := 0;
      assert names[0..] == names;
      while i < |names|
        invariant 0 <= i <= |names|
        invariant r + Matching(pattern, names[i..]) == Matching(pattern, names)
      {
        var ok := FnMatch(pattern, names[i]);
        assert names[i..][0] == names[i] && names[i..][1..] == names[i + 1..];
        if ok {
          assert r + ([names[i]] + Matching(pattern, names[i + 1..])) ==
            (r + [names[i]]) + Matching(pattern, names[i + 1..]);
          r := r + [names[i]];
        }
        i := i + 1;
      }
    }

    /** Every file a closure lists is in the file cache. */
    ghost predicate HasAll(fs: seq<Path>)
      reads this
    {
      forall f :: f in fs ==> f in files
    }

    /** The memoised closure of a class file that the files on `stack` include. `right`
        says that the caches are right for the tree; `known` are the files there can be. */
    method ClassClosure(t: Tree, file: Path, stack: seq<Path>, ghost known: set<Path>, ghost right: bool)
      returns (r: Result<Closure, Failure>)
      requires t.Keys + files.Keys <= known
      requires file !in stack && (right ==> Coherent(t) && Walk(env, t, stack + [file]))
      modifies this
      ensures old(files.Keys) <= files.Keys <= known && Extends(old(closures), closures)
      ensures right ==>
        Coherent(t) && r == BuildClosure(env, t, file, EmptyMap, stack) && (r.Ok? ==> HasAll(r.value.files))
      ensures r.Ok? ==> file in closures && closures[file] == r.value
      ensures file in old(closures) ==>
        r == Ok(old(closures)[file]) && files == old(files) && closures == old(closures)
      decreases Left(known, stack), 1, 0
    {
      if file in closures {
        if right {
          MemoHit(env, t, stack, file);
        }
        return Ok(closures[file]);
      }
      r := Build(t, file, EmptyMap, stack, known, right);
      if r.Ok? {
        if right {
          StackOnlyStopsCycles(env, t, file, EmptyMap, stack, r.value);
        }
        closures := closures[file := r.value];
      }
    }

    /** `build_closure` */
    method Build(t: Tree, file: Path, initial: Node, stack: seq<Path>, ghost known: set<Path>, ghost right: bool)
      returns (r: Result<Closure, Failure>)
      requires t.Keys + files.Keys <= known
      requires file !in stack && (right ==> Coherent(t) && Walk(env, t, stack + [file]))
      modifies this
      ensures old(files.Keys) <= files.Keys <= known && Extends(old(closures), closures)
      ensures right ==>
        Coherent(t) && r == BuildClosure(env, t, file, initial, stack) && (r.Ok? ==> HasAll(r.value.files))
      decreases Left(known, stack), 0
    {
      var loaded := LoadFile(t, file);
      if loaded.Err? {
        return Err(loaded.error);
      }
      LeftShrinks(known, stack, file);
      if right {
        LoadedBuilds(env, t, file, loaded.value, initial, stack);
      }
      r := BuildInner(t, file, loaded.value.doc, initial, stack + [file], known, right);
    }

    /** `build_closure_inner` */
    method BuildInner(
      t: Tree, file: Path, doc: ClassDoc, initial: Node, stack: seq<Path>, ghost known: set<Path>, ghost right: bool)
      returns (r: Result<Closure, Failure>)
      requires t.Keys + files.Keys <= known
      requires right ==> Coherent(t) && file in files && files[file].doc == doc && EndsAt(env, t, stack, file)
      modifies this
      ensures old(files.Keys) <= files.Keys <= known && Extends(old(closures), closures)
      ensures right ==>
        Coherent(t) && r == BuildLoaded(env, t, file, doc, initial, stack) && (r.Ok? ==> HasAll(r.value.files))
      decreases Left(known, stack), 4
    {
      var expanded := ExpandClassPatterns(t, doc.classes);
      if expanded.Err? {
        return Err(expanded.error);
      }
      assert right ==> InList(env, t, stack, file, expanded.value);
      ghost var rest := AllEntries(env, t, file, expanded.value, Start(env, file, doc, initial), stack);
      var acc := Gather(t, file, expanded.value, Start(env, file, doc, initial), stack, known, right, rest);
      if acc.Err? {
        return Err(acc.error);
      }
      r := Ok(Finish(env, acc.value, doc));
    }

    /** The loop over the class list, depth first and in order. */
    method Gather(
      t: Tree, file: Path, refs: seq<ClassRef>, start: Acc, stack: seq<Path>, ghost known: set<Path>,
      ghost right: bool, ghost rest: Rest)
      returns (r: Result<Acc, Failure>)
      requires t.Keys + files.Keys <= known && Follows(env, t, file, refs, stack, rest)
      requires right ==> InList(env, t, stack, file, refs) && Coherent(t) && HasAll(start.files)
      modifies this
      ensures old(files.Keys) <= files.Keys <= known && Extends(old(closures), closures)
      ensures right ==> Coherent(t) && r == rest(0, start) && (r.Ok? ==> HasAll(r.value.files))
      decreases Left(known, stack), 3
    {
      var acc := start;
      var i := 0;
      while i < |refs|
        invariant 0 <= i <= |refs| && old(files.Keys) <= files.Keys <= known && Extends(old(closures), closures)
        invariant right ==> Coherent(t) && HasAll(acc.files) && rest(i, acc) == rest(0, start)
      {
        var one := GatherNext(t, file, refs, i, acc, stack, known, right, rest);
        if one.Err? {
          return one;
        }
        acc := one.value;
        i := i + 1;
      }
      NoEntries(env, t, file, refs, acc, stack, rest);
      r := Ok(acc);
    }

    method GatherNext(
      t: Tree, file: Path, refs: seq<ClassRef>, i: nat, acc: Acc, stack: seq<Path>, ghost known: set<Path>,
      ghost right: bool, ghost rest: Rest)
      returns (r: Result<Acc, Failure>)
      requires t.Keys + files.Keys <= known
      requires i < |refs| && Follows(env, t, file, refs, stack, rest)
      requires right ==> InList(env, t, stack, file, refs) && Coherent(t) && HasAll(acc.files)
      modifies this
      ensures old(files.Keys) <= files.Keys <= known && Extends(old(closures), closures)
      ensures right ==> Coherent(t) && rest(i, acc) == if r.Err? then r else rest(i + 1, r.value)
      ensures right && r.Ok? ==> HasAll(r.value.files)
      decreases Left(known, stack), 2
    {
      EntryAt(env, t, file, refs, i, acc, stack, rest);
      r := GatherOne(t, file, refs, i, acc, stack, known, right);
    }

    /** One entry of the class list. */
    method GatherOne(
      t: Tree, file: Path, refs: seq<ClassRef>, i: nat, acc: Acc, stack: seq<Path>, ghost known: set<Path>,
      ghost right: bool)
      returns (r: Result<Acc, Failure>)
      requires t.Keys + files.Keys <= known
      requires i < |refs| && (right ==> InList(env, t, stack, file, refs) && Coherent(t) && HasAll(acc.files))
      modifies this
      ensures old(files.Keys) <= files.Keys <= known && Extends(old(closures), closures)
      ensures right ==>
        Coherent(t) && r == Include(env, t, file, refs[i], acc, stack) && (r.Ok? ==> HasAll(r.value.files))
      decreases Left(known, stack), 2, 0
    {
      var ref := refs[i];
      var res := ResolveClassFile(t, ref.name, file);
      if res.found.None? {
        if env.ignoreClassNotFound {
          return Ok(acc.(probes := AddAll(acc.probes, res.tried)));
        }
        return Err(Failure(ClassNotFound(ref.name, res.tried[..4]), [], None).WithLabel(ref.origin, "referenced here"));
      }
      if res.found.value in stack {
        return Err(Failure(ClassCycle(ref.name), [], None).WithLabel(ref.origin, "cycle closes here"));
      }
      r := GatherFound(t, file, refs, i, acc, stack, res, known, right);
    }

    method GatherFound(
      t: Tree, file: Path, refs: seq<ClassRef>, i: nat, acc: Acc, stack: seq<Path>, res: Resolution,
      ghost known: set<Path>, ghost right: bool)
      returns (r: Result<Acc, Failure>)
      requires t.Keys + files.Keys <= known
      requires i < |refs| && (right ==> InList(env, t, stack, file, refs) && Coherent(t) && HasAll(acc.files))
      requires res == ResolveClass(env, t, refs[i].name, file) && res.found.Some? && res.found.value !in stack
      modifies this
      ensures old(files.Keys) <= files.Keys <= known && Extends(old(closures), closures)
      ensures right ==>
        Coherent(t) && r == Include(env, t, file, refs[i], acc, stack) && (r.Ok? ==> HasAll(r.value.files))
      decreases Left(known, stack), 1, 1
    {
      if right {
        StepsTo(env, t, file, refs, i, stack, res.found.value);
      }
      var closure := ClassClosure(t, res.found.value, stack, known, right);
      FoundIncludes(env, t, file, refs[i], acc, stack, res);
      if closure.Err? {
        return Err(closure.error.WithLabel(refs[i].origin, "included as `" + refs[i].name + "`"));
      }
      r := Ok(Absorb(env, Probe(env, acc, refs[i], res), refs[i].name, closure.value));
    }

    // ---- rendering ----------------------------------------------------------------

    /** Sorted target files become specs; two files with one name fail the discovery. */
    method DiscoverTargets(t: Tree) returns (r: Result<seq<TargetSpec>, Failure>)
      ensures r == Discover(env, t)
    {
      if !exists f :: f in t.Keys && env.TargetsDir() < f {
        return Err(Failure(NoTargetsDir(env.TargetsDir()), [], None));
      }
      var specs := SpecsOf(env, SortedPaths(TargetFiles(env, t)));
      var conflict := FindConflict(specs);
      if conflict.Some? {
        return Err(Failure(ConflictingTargets(conflict.value.name, conflict.value.path), [], None));
      }
      r := Ok(specs);
    }

    method FindConflict(specs: seq<TargetSpec>) returns (r: Option<TargetSpec>)
      ensures r == Conflict(specs, 0)
    {
      var seen: set<string> := {};
      var i := 0;
      while i < |specs|
        invariant 0 <= i <= |specs|
        invariant forall n :: n in seen <==> exists k :: 0 <= k < i && specs[k].name == n
        invariant Conflict(specs, 0) == Conflict(specs, i)
      {
        if specs[i].name in seen {
          return Some(specs[i]);
        }
        seen := seen + {specs[i].name};
        i := i + 1;
      }
      r := None;
    }

    /** The digest loop asks the file cache, and never misses when the caches are right. */
    method DigestInput(t: Tree, fs: seq<Path>) returns (text: string)
      ensures Coherent(t) && HasAll(fs) ==> text == DigestText(env, t, fs)
    {
      text := "";
      var i := 0;
      assert fs[0..] == fs;
      while i < |fs|
        invariant 0 <= i <= |fs|
        invariant Coherent(t) && HasAll(fs) ==> text + DigestText(env, t, fs[i..]) == DigestText(env, t, fs)
      {
        assert fs[i..][0] == fs[i] && fs[i..][1..] == fs[i + 1..];
        var piece := PathText(fs[i]) + if fs[i] in files then files[fs[i]].digest else "";
        if Coherent(t) && HasAll(fs) {
          DigestStep(env, t, fs, i, text, piece);
        }
        text := text + piece;
        i := i + 1;
      }
    }

    method RenderTarget(t: Tree, spec: TargetSpec) returns (r: Result<RenderedTarget, Failure>)
      modifies this
      ensures r.Err? ==> r.error.target == Some(spec.name)
      ensures r.Ok? ==> var v := r.value;
        && v.name == spec.name
        && v.documentDigest == env.documentDigest(v.parameters, v.classes, v.applications, v.exports)
      ensures old(Coherent(t)) ==> Coherent(t) && r == Render(env, t, spec)
      ensures old(Coherent(t)) && r.Ok? ==>
        RenderedFrom(env, t, spec, TargetClosure(env, t, spec).value, r.value)
    {
      RenderedIsComplete(env, t, spec);
      var built := Build(t, spec.file, InitialParameters(env, spec), [], t.Keys + files.Keys, Coherent(t));
      if built.Err? {
        return Err(built.error.WithTarget(spec.name));
      }
      var c := built.value;
      match env.evaluate(spec.name, c.params)
      case Err(e) =>
        return Err(e.WithTarget(spec.name));
      case Ok(e) =>
        var text := DigestInput(t, c.files);
        return Ok(Complete(env, spec, c, e, text));
    }
  }

  /** What is remembered stays remembered. */
  ghost predicate Extends<V(!new)>(before: map<Path, V>, after: map<Path, V>) {
    forall k :: k in before ==> k in after && after[k] == before[k]
  }

  /** The stack is a walk that ends at the file. */
  ghost predicate EndsAt(env: Env, t: Tree, stack: seq<Path>, file: Path) {
    Walk(env, t, stack) && stack[|stack| - 1] == file
  }

  /** And the class list is that file's. */
  ghost predicate InList(env: Env, t: Tree, stack: seq<Path>, file: Path, refs: seq<ClassRef>) {
    EndsAt(env, t, stack, file) && ClassList(env, t, file) == Some(refs)
  }

  lemma StepsTo(env: Env, t: Tree, file: Path, refs: seq<ClassRef>, i: nat, stack: seq<Path>, next: Path)
    requires InList(env, t, stack, file, refs) && i < |refs|
    requires ResolveClass(env, t, refs[i].name, file).found == Some(next)
    ensures Walk(env, t, stack + [next])
  {
    assert IncludesFile(env, t, file, next);
    WalkSnoc(env, t, stack, next);
  }

  /** Building a closure once the file is loaded. */
  ghost function BuildLoaded(
    env: Env, t: Tree, file: Path, doc: ClassDoc, initial: Node, stack: seq<Path>): Result<Closure, Failure>
  {
    match Expand(env, t, doc.classes)
    case Err(e) => Err(e)
    case Ok(refs) =>
      match Includes(env, t, file, refs, Start(env, file, doc, initial), stack)
      case Err(e) => Err(e)
      case Ok(acc) => Ok(Finish(env, acc, doc))
  }

  lemma LoadedBuilds(env: Env, t: Tree, file: Path, loaded: LoadedFile, initial: Node, stack: seq<Path>)
    requires file !in stack && Load(env, t, file) == Ok(loaded)
    ensures BuildClosure(env, t, file, initial, stack) == BuildLoaded(env, t, file, loaded.doc, initial, stack + [file])
  {
  }

  /** How many known files are not on the stack yet. */
  ghost function Left(known: set<Path>, stack: seq<Path>): nat { |known - set p | p in stack| }

  lemma {:induction false} LeftShrinks(known: set<Path>, stack: seq<Path>, file: Path)
    requires file in known && file !in stack
    ensures Left(known, stack + [file]) < Left(known, stack)
  {
    var before, after := known - (set p | p in stack), known - (set p | p in stack + [file]);
    assert after == before - {file};
  }

  lemma ExpandAt(env: Env, available: seq<string>, refs: seq<ClassRef>, i: nat, out: seq<ClassRef>)
    requires i < |refs|
    ensures ExpandFrom(env, available, refs[i..], out) ==
      var r := refs[i];
      if StaysAsWritten(available, r.name) then ExpandFrom(env, available, refs[i + 1..], PushRef(out, r))
      else if Matching(r.name, available) == [] && !env.ignoreClassNotFound then
        Err(Failure(PatternWithoutMatch(r.name), [], None).WithLabel(r.origin, "referenced here"))
      else ExpandFrom(env, available, refs[i + 1..], PushMatches(out, Matching(r.name, available), r.origin))
  {
    assert refs[i..][0] == refs[i] && refs[i..][1..] == refs[i + 1..];
  }

  lemma DigestStep(env: Env, t: Tree, fs: seq<Path>, i: nat, text: string, piece: string)
    requires i < |fs| && Load(env, t, fs[i]).Ok?
    requires piece == PathText(fs[i]) + Load(env, t, fs[i]).value.digest
    ensures text + DigestText(env, t, fs[i..]) == (text + piece) + DigestText(env, t, fs[i + 1..])
  {
    assert fs[i..][0] == fs[i] && fs[i..][1..] == fs[i + 1..];
    assert DigestText(env, t, fs[i..]) == piece + DigestText(env, t, fs[i + 1..]);
  }

  /** What the loop gives from an entry on. */
  type Rest = (nat, Acc) -> Result<Acc, Failure>

  predicate Here(i: nat, acc: Acc) { true }

  ghost predicate Follows(env: Env, t: Tree, file: Path, refs: seq<ClassRef>, stack: seq<Path>, rest: Rest) {
    forall i: nat, acc: Acc {:trigger Here(i, acc)} ::
      i <= |refs| ==> rest(i, acc) == Includes(env, t, file, refs[i..], acc, stack)
  }

  lemma AllEntries(env: Env, t: Tree, file: Path, refs: seq<ClassRef>, acc: Acc, stack: seq<Path>) returns (rest: Rest)
    ensures Follows(env, t, file, refs, stack, rest) && rest(0, acc) == Includes(env, t, file, refs, acc, stack)
  {
    rest := (i: nat, a: Acc) => if i <= |refs| then Includes(env, t, file, refs[i..], a, stack) else Ok(a);
    assert refs[0..] == refs;
  }

  lemma EntryAt(env: Env, t: Tree, file: Path, refs: seq<ClassRef>, i: nat, acc: Acc, stack: seq<Path>, rest: Rest)
    requires i < |refs| && Follows(env, t, file, refs, stack, rest)
    ensures rest(i, acc) ==
      match Include(env, t, file, refs[i], acc, stack)
      case Err(e) => Err(e)
      case Ok(next) => rest(i + 1, next)
  {
    assert refs[i..][0] == refs[i] && refs[i..][1..] == refs[i + 1..];
    assert Here(i, acc);
    var one := Include(env, t, file, refs[i], acc, stack);
    assert one.Ok? ==> Here(i + 1, one.value);
  }

  lemma NoEntries(env: Env, t: Tree, file: Path, refs: seq<ClassRef>, acc: Acc, stack: seq<Path>, rest: Rest)
    requires Follows(env, t, file, refs, stack, rest)
    ensures rest(|refs|, acc) == Ok(acc)
  {
    assert Here(|refs|, acc);
  }

  lemma FoundIncludes(env: Env, t: Tree, file: Path, r: ClassRef, acc: Acc, stack: seq<Path>, res: Resolution)
    requires res == ResolveClass(env, t, r.name, file) && res.found.Some? && res.found.value !in stack
    ensures res.fallback ==> |res.tried| >= 2
    ensures Include(env, t, file, r, acc, stack) ==
      match BuildClosure(env, t, res.found.value, EmptyMap, stack)
      case Err(e) => Err(e.WithLabel(r.origin, "included as `" + r.name + "`"))
      case Ok(c) => Ok(Absorb(env, Probe(env, acc, r, res), r.name, c))
    ensures forall c, f :: f in Absorb(env, Probe(env, acc, r, res), r.name, c).files ==> f in acc.files || f in c.files
  {
  }

  lemma CasesOf(env: Env, name: string, from: Path, e: nat)
    requires e < 2
    ensures Candidates(env, name, from)[4 * e..4 * e + 4] ==
      Cases(Base(env, name, from), Split(name, '.'), EXTENSIONS[e])
  {
  }

  lemma {:induction false} FourTries(t: Tree, all: seq<Path>, from: nat, cases: seq<Path>, i: nat)
    requires |all| == 8 && (from == 0 || from == 4) && i <= 4 && all[from..from + 4] == cases
    requires (forall k :: 0 <= k < i ==> cases[k] !in t) && (i < 4 ==> cases[i] in t)
    ensures i == 4 ==> TryFrom(t, all, from) == TryFrom(t, all, from + 4)
    ensures i < 4 ==> TryFrom(t, all, from) == Resolution(Some(cases[i]), all[..from] + cases[..i + 1], i >= 2)
    ensures all[..from] + cases == all[..from + 4]
  {
    Missed(t, all, from, cases, i);
    Block(all, from, cases, i);
    Block(all, from, cases, 4);
    if i < 4 {
      Hit(t, all, from + i);
      Half(from, i);
    }
  }

  lemma {:induction false} Missed(t: Tree, all: seq<Path>, from: nat, cases: seq<Path>, i: nat)
    requires i <= 4 && from + 4 <= |all| && all[from..from + 4] == cases
    requires forall k :: 0 <= k < i ==> cases[k] !in t
    ensures TryFrom(t, all, from) == TryFrom(t, all, from + i)
  {
    forall k | from <= k < from + i ensures all[k] !in t {
      Block(all, from, cases, k - from);
    }
    Tries(t, all, from, i);
  }

  lemma Half(from: nat, i: nat)
    requires (from == 0 || from == 4) && i < 4
    ensures (from + i) % 4 >= 2 <==> i >= 2
  {
  }

  lemma Block(all: seq<Path>, from: nat, cases: seq<Path>, k: nat)
    requires from + 4 <= |all| && all[from..from + 4] == cases && k <= 4
    ensures k < 4 ==> all[from + k] == cases[k] && all[..from] + cases[..k + 1] == all[..from + k + 1]
    ensures k == 4 ==> all[..from] + cases == all[..from + 4]
  {
  }

  lemma Hit(t: Tree, all: seq<Path>, k: nat)
    requires k < |all| && all[k] in t
    ensures TryFrom(t, all, k) == Resolution(Some(all[k]), all[..k + 1], k % 4 >= 2)
  {
  }

  lemma {:induction false} Tries(t: Tree, all: seq<Path>, from: nat, n: nat)
    requires from + n <= |all|
    requires forall k :: from <= k < from + n ==> all[k] !in t
    ensures TryFrom(t, all, from) == TryFrom(t, all, from + n)
    decreases n
  {
    if n > 0 {
      Tries(t, all, from + 1, n - 1);
    }
  }

  predicate KeptBy(c: Closure, paths: seq<Path>) {
    && (forall f :: f in c.files ==> f !in paths)
    && (forall f, p :: f in c.probes && p in paths ==> !(f <= p))
  }

  predicate KeptOutside(c: Closure, dir: Path) {
    && (forall f :: f in c.files ==> !(dir <= f))
    && (forall f :: f in c.probes ==> !(dir <= f))
  }
}
