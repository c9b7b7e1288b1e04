/**
 Class resolution and the recursive class loader (inventory.rs), as functions of
 the file tree. `Env` holds what stays fixed for the life of a daemon: the
 settings, and the pure functions that are not part of this model (the YAML
 parser, merging, `${...}` evaluation, hashing).

 Everything here renders from scratch; the caches are in `Inventory`.
*/
module ClassLoader {
  import opened Wrappers
  import opened Values
  import opened Order
  import opened Fnmatch
  import opened Strings

  /** Regular files by path; directories are implied. */
  type Tree = map<Path, string>

  datatype ClassRef = ClassRef(name: string, origin: Origin)

  datatype ClassDoc = ClassDoc(
    classes: seq<ClassRef>, parameters: Node, applications: seq<Node>, exports: Node, warnings: seq<Warning>)

  datatype Remark =
    | UnknownSection(key: string)
    | Fallback(class_: string, file: Path, unrelated: bool, lookedFor: seq<Path>)
    | Other(text: string)

  /** `place` is the first label of the warning. */
  datatype Warning = Warning(place: Option<Origin>, remark: Remark, target: Option<string>)

  datatype Cause =
    | Unreadable(file: Path)
    | Rejected(code: string, text: string)
    | PatternWithoutMatch(pattern: string)
    | ClassNotFound(class_: string, lookedFor: seq<Path>)
    | ClassCycle(class_: string)
    | NoTargetsDir(dir: Path)
    | ConflictingTargets(name: string, path: string)

  datatype Label = Label(origin: Origin, text: string)

  datatype Failure = Failure(cause: Cause, labels: seq<Label>, target: Option<string>) {
    function WithLabel(origin: Origin, text: string): Failure {
      if origin.Synthetic? then this else this.(labels := labels + [Label(origin, text)])
    }

    function WithTarget(name: string): Failure { this.(target := Some(name)) }
  }

  datatype LoadedFile = LoadedFile(path: Path, digest: string, doc: ClassDoc)

  datatype Closure = Closure(
    params: Node, classes: seq<string>, applications: seq<Node>, exports: Node,
    files: seq<Path>, probes: seq<Path>, warnings: seq<Warning>, log: seq<MergeEvent>)

  datatype Evaluated = Evaluated(params: Node, warnings: seq<Warning>, resolutions: seq<string>)

  datatype Env = Env(
    root: Path,
    composeTargetName: bool,
    ignoreClassNotFound: bool,
    classWildcards: bool,
    /** YAML parsing and `ClassDoc::from_node`. */
    parse: (Path, string) -> Result<ClassDoc, Failure>,
    hash: string -> string,
    /** `merge(dest, src)`, with the events it logs. */
    merge: (Node, Node) -> (Node, seq<MergeEvent>),
    /** `model::initial_parameters`. */
    initial: (string, string) -> Node,
    /** `${...}` resolution, literals and normalisation. */
    evaluate: (string, Node) -> Result<Evaluated, Failure>,
    documentDigest: (Node, seq<string>, seq<Node>, Node) -> string)
  {
    function ClassesDir(): Path { root + ["classes"] }

    function TargetsDir(): Path { root + ["targets"] }
  }

  // ---- strings ------------------------------------------------------------

  /** The index of the last `c`, or -1. */
  function LastIndex(s: string, c: char): (r: int)
    ensures -1 <= r < |s|
    ensures r >= 0 ==> s[r] == c
  {
    if s == [] then -1
    else if s[|s| - 1] == c then |s| - 1
    else LastIndex(s[..|s| - 1], c)
  }

  /** `rsplit_once('.')`'s first half, or the whole string. */
  function Stem(s: string): string {
    var i := LastIndex(s, '.');
    if i < 0 then s else s[..i]
  }

  /** The extension of a file name is `yml` or `yaml`. */
  predicate IsYaml(file: string) {
    var i := LastIndex(file, '.');
    i > 0 && file[i + 1..] in {"yml", "yaml"}
  }

  lemma {:induction false} LastDot(stem: string, ext: string)
    requires '.' !in ext
    ensures LastIndex(stem + "." + ext, '.') == |stem|
    decreases |ext|
  {
    var s := stem + "." + ext;
    if ext != "" {
      var rest := ext[..|ext| - 1];
      assert s[|s| - 1] == ext[|ext| - 1] && s[..|s| - 1] == stem + "." + rest;
      LastDot(stem, rest);
    } else {
      assert s[|s| - 1] == '.';
    }
  }

  // ---- class names to files ------------------------------------------------

  /** A path under construction. A trailing separator matters to `with_ext`. */
  datatype PathBuf = PathBuf(comps: Path, slash: bool)

  function Components(s: string): Path { Nonempty(Split(s, '/')) }

  /** `PathBuf::push` of a non-empty segment; an absolute one replaces the path. */
  function Push(p: PathBuf, s: string): PathBuf
    requires s != ""
  {
    PathBuf((if s[0] == '/' then [] else p.comps) + Components(s), s[|s| - 1] == '/')
  }

  function PushAll(p: PathBuf, segments: seq<string>): PathBuf
    decreases |segments|
  {
    if segments == [] then p
    else PushAll(if segments[0] == "" then p else Push(p, segments[0]), segments[1..])
  }

  /** Appends `.ext` to the written path. */
  function WithExt(p: PathBuf, ext: string): Path {
    if p.slash || p.comps == [] then p.comps + ["." + ext]
    else p.comps[..|p.comps| - 1] + [p.comps[|p.comps| - 1] + "." + ext]
  }

  const EXTENSIONS: seq<string> := ["yml", "yaml"]

  /** Where relative names start: the including file's directory. */
  function Base(env: Env, name: string, from: Path): PathBuf {
    var classes := env.ClassesDir();
    if name != "" && name[0] == '.' then
      var parent := if from == [] then [] else from[..|from| - 1];
      if classes <= parent then PathBuf(parent, parent == classes) else PathBuf(parent, parent == [])
    else PathBuf(classes, false)
  }

  /** The four candidates for one extension, in the order they are tried; the last
      two are the reclass fallbacks, which drop two name components. */
  function Cases(base: PathBuf, parts: seq<string>, ext: string): (r: seq<Path>)
    ensures |r| == 4
  {
    var full := PushAll(base, parts);
    var compat := PushAll(base, if |parts| >= 2 then parts[2..] else []);
    [full.comps + ["init." + ext], WithExt(full, ext), WithExt(compat, ext), compat.comps + ["init." + ext]]
  }

  function Candidates(env: Env, name: string, from: Path): (r: seq<Path>)
    ensures |r| == 8
  {
    var base, parts := Base(env, name, from), Split(name, '.');
    Cases(base, parts, "yml") + Cases(base, parts, "yaml")
  }

  datatype Resolution = Resolution(found: Option<Path>, tried: seq<Path>, fallback: bool)

  /** Candidates are tried from `i` on; the first one that is a file wins. */
  function TryFrom(t: Tree, candidates: seq<Path>, i: nat): (r: Resolution)
    requires i <= |candidates|
    ensures r.tried <= candidates && i <= |r.tried|
    ensures forall k :: i <= k < |r.tried| - 1 ==> candidates[k] !in t
    ensures r.found.Some? ==> |r.tried| > i && r.found.value == r.tried[|r.tried| - 1] && r.found.value in t
    ensures r.found.None? ==> r.tried == candidates && forall k :: i <= k < |candidates| ==> candidates[k] !in t
    ensures r.fallback ==> |r.tried| >= 2
    decreases |candidates| - i
  {
    if i == |candidates| then Resolution(None, candidates, false)
    else if candidates[i] in t then
      Resolution(Some(candidates[i]), candidates[..i + 1], i % 4 >= 2)
    else TryFrom(t, candidates, i + 1)
  }

  function ResolveClass(env: Env, t: Tree, name: string, from: Path): Resolution {
    TryFrom(t, Candidates(env, name, from), 0)
  }

  // ---- wildcards -----------------------------------------------------------

  predicate IsPattern(n: string) { '*' in n || '?' in n || '[' in n }

  predicate IsReference(n: string) { HasInterpolation(n) && '}' in n }

  /** Every class file, as `class_files` lists them. */
  function Listing(env: Env, t: Tree): set<Path> {
    set f | f in t.Keys && env.ClassesDir() < f && IsYaml(f[|f| - 1])
  }

  /** The dotted name of a class file below `classes/`; hidden entries have none. */
  function ClassName(rel: Path): Option<string>
    requires rel != []
  {
    if exists i :: 0 <= i < |rel| && rel[i] != "" && rel[i][0] == '.' then None
    else
      var dirs, stem := rel[..|rel| - 1], Stem(rel[|rel| - 1]);
      Some(Join(if stem != "init" || dirs == [] then dirs + [stem] else dirs, "."))
  }

  function NamesOf(classes: Path, files: set<Path>): set<string>
    requires forall f :: f in files ==> classes < f
  {
    set f | f in files && ClassName(f[|classes|..]).Some? :: ClassName(f[|classes|..]).value
  }

  /** Class names known to patterns, sorted, without duplicates. */
  function Available(env: Env, t: Tree): seq<string> {
    SortedStrings(NamesOf(env.ClassesDir(), Listing(env, t)))
  }

  function PushRef(out: seq<ClassRef>, r: ClassRef): seq<ClassRef> {
    if exists i :: 0 <= i < |out| && out[i].name == r.name then out else out + [r]
  }

  function PushMatches(out: seq<ClassRef>, matches: seq<string>, origin: Origin): seq<ClassRef>
    decreases |matches|
  {
    if matches == [] then out
    else PushMatches(PushRef(out, ClassRef(matches[0], origin)), matches[1..], origin)
  }

  function Matching(pattern: string, names: seq<string>): seq<string> {
    if names == [] then []
    else (if Accepts(pattern, names[0]) then [names[0]] else []) + Matching(pattern, names[1..])
  }

  predicate StaysAsWritten(available: seq<string>, n: string) {
    IsReference(n) || n in available || !IsPattern(n)
  }

  function ExpandFrom(env: Env, available: seq<string>, refs: seq<ClassRef>, out: seq<ClassRef>)
    : Result<seq<ClassRef>, Failure>
  {
    if refs == [] then Ok(out)
    else
      var r := refs[0];
      if StaysAsWritten(available, r.name) then ExpandFrom(env, available, refs[1..], PushRef(out, r))
      else
        var matches := Matching(r.name, available);
        if matches == [] && !env.ignoreClassNotFound then
          Err(Failure(PatternWithoutMatch(r.name), [], None).WithLabel(r.origin, "referenced here"))
        else ExpandFrom(env, available, refs[1..], PushMatches(out, matches, r.origin))
  }

  predicate UsesPatterns(env: Env, refs: seq<ClassRef>) {
    env.classWildcards && exists i :: 0 <= i < |refs| && IsPattern(refs[i].name) && !IsReference(refs[i].name)
  }

  /** The class list a document stands for. */
  function Expand(env: Env, t: Tree, refs: seq<ClassRef>): Result<seq<ClassRef>, Failure> {
    if UsesPatterns(env, refs) then ExpandFrom(env, Available(env, t), refs, []) else Ok(refs)
  }

  // ---- the recursive loader --------------------------------------------------

  function Load(env: Env, t: Tree, file: Path): Result<LoadedFile, Failure> {
    if file !in t then Err(Failure(Unreadable(file), [], None))
    else
      match env.parse(file, t[file])
      case Err(e) => Err(e)
      case Ok(doc) => Ok(LoadedFile(file, env.hash(t[file]), doc))
  }

  /** Appends the paths that are not there yet. */
  function AddAll(into: seq<Path>, more: seq<Path>): (r: seq<Path>)
    ensures forall p :: p in r <==> p in into || p in more
    ensures into <= r
    decreases |more|
  {
    if more == [] then into
    else AddAll(if more[0] in into then into else into + [more[0]], more[1..])
  }

  /** One warning per location. */
  function AddWarnings(into: seq<Warning>, more: seq<Warning>): seq<Warning>
    decreases |more|
  {
    if more == [] then into
    else
      AddWarnings(
        if exists i :: 0 <= i < |into| && into[i].place == more[0].place then into else into + [more[0]],
        more[1..])
  }

  predicate IsEmptyMap(n: Node) { n.value == Map([]) }

  /** What a closure has gathered so far. */
  datatype Acc = Acc(
    params: Node, classes: seq<string>, applications: seq<Node>, exports: Node,
    files: seq<Path>, probes: seq<Path>, warnings: seq<Warning>,
    ownLog: seq<MergeEvent>, nestedLog: seq<MergeEvent>)

  function Start(env: Env, file: Path, doc: ClassDoc, initial: Node): Acc {
    Acc(initial, [], [], EmptyMap, [file],
        if UsesPatterns(env, doc.classes) then [env.ClassesDir()] else [], doc.warnings, [], [])
  }

  function Place(o: Origin): Option<Origin> { if o.Synthetic? then None else Some(o) }

  /** A name of which nothing is left cannot be the class meant. */
  predicate Unrelated(env: Env, file: Path) {
    exists i :: 0 <= i < 2 &&
      (file == env.ClassesDir() + ["init." + EXTENSIONS[i]] ||
       file == WithExt(PathBuf(env.ClassesDir(), false), EXTENSIONS[i]))
  }

  function Probe(env: Env, acc: Acc, r: ClassRef, res: Resolution): Acc
    requires res.fallback ==> |res.tried| >= 2 && res.found.Some?
  {
    var acc := acc.(probes := AddAll(acc.probes, res.tried));
    if res.fallback then
      acc.(warnings := acc.warnings + [Warning(Place(r.origin),
        Fallback(r.name, res.found.value, Unrelated(env, res.found.value), res.tried[..2]), None)])
    else acc
  }

  function MergeParams(env: Env, acc: Acc, params: Node): Acc {
    if IsEmptyMap(params) then acc
    else
      var (merged, events) := env.merge(acc.params, params);
      acc.(params := merged, ownLog := acc.ownLog + events)
  }

  /** One included closure is folded in. */
  function Absorb(env: Env, acc: Acc, name: string, c: Closure): Acc {
    var acc := MergeParams(env, acc, c.params);
    acc.(classes := acc.classes + c.classes + [name],
         applications := acc.applications + c.applications,
         exports := env.merge(acc.exports, c.exports).0,
         files := AddAll(acc.files, c.files),
         probes := AddAll(acc.probes, c.probes),
         warnings := AddWarnings(acc.warnings, c.warnings),
         nestedLog := acc.nestedLog + c.log)
  }

  /** The file's own sections come last. */
  function Finish(env: Env, acc: Acc, doc: ClassDoc): Closure {
    var acc := MergeParams(env, acc, doc.parameters);
    Closure(acc.params, acc.classes, acc.applications + doc.applications,
            env.merge(acc.exports, doc.exports).0, acc.files, acc.probes, acc.warnings,
            acc.nestedLog + acc.ownLog)
  }

  ghost function Room(t: Tree, stack: seq<Path>): nat {
    |t.Keys - set p | p in stack|
  }

  lemma {:induction false} RoomShrinks(t: Tree, stack: seq<Path>, file: Path)
    requires file in t && file !in stack
    ensures Room(t, stack + [file]) < Room(t, stack)
  {
    var before, after := t.Keys - (set p | p in stack), t.Keys - (set p | p in stack + [file]);
    assert after == before - {file};
  }

  /** `build_closure`: the loader on a file, with the including files on `stack`. */
  function BuildClosure(env: Env, t: Tree, file: Path, initial: Node, stack: seq<Path>): Result<Closure, Failure>
    requires file !in stack
    decreases Room(t, stack), 0, 0
  {
    match Load(env, t, file)
    case Err(e) => Err(e)
    case Ok(loaded) =>
      match Expand(env, t, loaded.doc.classes)
      case Err(e) => Err(e)
      case Ok(refs) =>
        RoomShrinks(t, stack, file);
        match Includes(env, t, file, refs, Start(env, file, loaded.doc, initial), stack + [file])
        case Err(e) => Err(e)
        case Ok(acc) => Ok(Finish(env, acc, loaded.doc))
  }

  /** The loop over the class list. */
  function Includes(
    env: Env, t: Tree, file: Path, refs: seq<ClassRef>, acc: Acc, stack: seq<Path>): Result<Acc, Failure>
    decreases Room(t, stack), 1, |refs|
  {
    if refs == [] then Ok(acc)
    else
      match Include(env, t, file, refs[0], acc, stack)
      case Err(e) => Err(e)
      case Ok(acc) => Includes(env, t, file, refs[1..], acc, stack)
  }

  /** One entry of the class list. */
  function Include(env: Env, t: Tree, file: Path, r: ClassRef, acc: Acc, stack: seq<Path>): Result<Acc, Failure>
    decreases Room(t, stack), 1, 0
  {
    var res := ResolveClass(env, t, r.name, file);
    match res.found
    case None =>
      if env.ignoreClassNotFound then Ok(acc.(probes := AddAll(acc.probes, res.tried)))
      else Err(Failure(ClassNotFound(r.name, res.tried[..4]), [], None).WithLabel(r.origin, "referenced here"))
    case Some(classFile) =>
      if classFile in stack then
        Err(Failure(ClassCycle(r.name), [], None).WithLabel(r.origin, "cycle closes here"))
      else
        match BuildClosure(env, t, classFile, EmptyMap, stack)
        case Err(e) => Err(e.WithLabel(r.origin, "included as `" + r.name + "`"))
        case Ok(c) => Ok(Absorb(env, Probe(env, acc, r, res), r.name, c))
  }
}
