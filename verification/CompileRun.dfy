/**
 A whole compile run (engine.rs): the stale targets are compiled and installed one
 after the other, then `compiled/` is cleaned up. Afterwards every target is up to
 date, so running again at once compiles nothing.
*/
module CompileRun {
  import opened Wrappers
  import opened Strings
  import opened Digest
  import opened Install
  import opened Readers
  import opened Staleness

  /** One compiled target: what its compile asked and wrote. */
  datatype Job = Job(name: string, asked: seq<Question>, probes: set<Path>, items: seq<ItemRecord>, temp: Fs)

  datatype Site = Site(fs: Fs, manifest: map<string, TargetRecord>)

  /** The manifest's record of this target stands. */
  predicate Stands(ctx: Ctx, docs: map<string, Json>, s: Site, n: string)
    requires n in docs
  {
    n in s.manifest && UpToDate(ctx, World(s.fs, docs, n), s.manifest[n])
  }

  function InstallJob(ctx: Ctx, fs: Fs, job: Job): Fs {
    Installed(fs, job.temp, OutputDir(ctx, job.name), Nested(ctx, job.name))
  }

  function CompileOne(ctx: Ctx, docs: map<string, Json>, s: Site, job: Job): Site
    requires job.name in docs
  {
    var fs := InstallJob(ctx, s.fs, job);
    Site(fs, s.manifest[job.name := RecordJob(ctx, docs, fs, job)])
  }

  function RecordJob(ctx: Ctx, docs: map<string, Json>, fs: Fs, job: Job): TargetRecord
    requires job.name in docs
  {
    Record(ctx, World(fs, docs, job.name), job.asked, job.probes, fs, job.items)
  }

  /** Compiling one target, as a step. */
  function Compiling(ctx: Ctx, docs: map<string, Json>): (Site, Job) -> Site {
    (s: Site, job: Job) => if job.name in docs then CompileOne(ctx, docs, s, job) else s
  }

  function CompileAll(compile: (Site, Job) -> Site, s: Site, jobs: seq<Job>): Site
    decreases |jobs|
  {
    if jobs == [] then s else CompileAll(compile, compile(s, jobs[0]), jobs[1..])
  }

  /** Leftovers are removed from the disk, and records of targets that are gone from the
      manifest, if there is anything compiled. */
  function CleanUp(ctx: Ctx, docs: map<string, Json>, s: Site): Site {
    if !IsDir(s.fs, ctx.compiledDir) then s
    else Site(Cleaned(s.fs, ctx.compiledDir, ctx.targets), map n | n in s.manifest && n in docs :: s.manifest[n])
  }

  // ---- assumptions about the targets and their compiles ----------------------------------

  /** Every document's target owns a directory; no name has an empty part. */
  ghost predicate Owned(ctx: Ctx, docs: map<string, Json>) {
    && EVERYTHING !in docs
    && (forall n :: n in docs ==> TargetPath(n) in ctx.targets)
    && (forall tp, i :: tp in ctx.targets && 0 <= i < |tp| ==> tp[i] != "")
    && (forall tp :: tp in ctx.targets ==> tp != [])
  }

  /** No dependency of the record is inside `compiled/`. */
  ghost predicate ReadsSources(ctx: Ctx, deps: map<Path, string>) {
    forall rel :: rel in deps ==> !(ctx.compiledDir <= ctx.repoRoot + rel)
  }

  /** The job writes nothing into the directory of another target (one it is nested in
      aside: there everything of its own is). */
  ghost predicate KeepsTo(ctx: Ctx, job: Job, n: string) {
    TargetPath(n) < TargetPath(job.name) ||
    forall rel :: rel in job.temp ==> !(OutputDir(ctx, n) <= OutputDir(ctx, job.name) + rel)
  }

  ghost predicate Disciplined(ctx: Ctx, docs: map<string, Json>, job: Job) {
    && job.name in docs && (job.temp == map[] || IsDir(job.temp, []))
    && (forall n :: n in docs && n != job.name ==> KeepsTo(ctx, job, n))
    && (forall rel :: rel in DepPaths(ctx, job.asked, job.probes) ==> !(ctx.compiledDir <= ctx.repoRoot + rel))
  }

  /** What the file system guarantees (`Disk.Install` keeps the first). */
  ghost predicate FsOk(fs: Fs) { Grounded(fs) && NamesOk(fs) }

  /** Each install succeeds. */
  ghost predicate Installs(ctx: Ctx, fs: Fs, jobs: seq<Job>)
    decreases |jobs|
  {
    jobs != [] ==>
      && CanInstall(fs, jobs[0].temp, OutputDir(ctx, jobs[0].name), Nested(ctx, jobs[0].name))
      && FsOk(InstallJob(ctx, fs, jobs[0]))
      && Installs(ctx, InstallJob(ctx, fs, jobs[0]), jobs[1..])
  }

  // ---- a fresh record stands ------------------------------------------------------------------

  lemma {:induction false} RecordIsFresh(ctx: Ctx, docs: map<string, Json>, s: Site, job: Job)
    requires job.name in docs && EVERYTHING !in docs && (job.temp == map[] || IsDir(job.temp, []))
    ensures Stands(ctx, docs, CompileOne(ctx, docs, s, job), job.name)
  {
    var dir := OutputDir(ctx, job.name);
    OutputDirIsThere(s.fs, job.temp, dir, Nested(ctx, job.name));
    var fs := InstallJob(ctx, s.fs, job);
    var w := World(fs, docs, job.name);
    FreshRecord(ctx, w, job.asked, job.probes, fs, job.items);
  }

  lemma FreshRecord(ctx: Ctx, w: World, asked: seq<Question>, probes: set<Path>, fs: Fs, items: seq<ItemRecord>)
    requires w.own in w.docs && w.fs == fs && EVERYTHING !in w.docs && IsDir(fs, OutputDir(ctx, w.own))
    ensures UpToDate(ctx, w, Record(ctx, w, asked, probes, fs, items))
  {
  }

  lemma OutputDirIsThere(fs: Fs, temp: Fs, dir: Path, children: set<string>)
    requires temp == map[] || IsDir(temp, [])
    ensures IsDir(Installed(fs, temp, dir, children), dir)
  {
    assert dir[|dir|..] == [] && dir in DirsTo(dir);
  }

  // ---- installing one target leaves the others' records standing ---------------------------------

  lemma {:induction false} InstallKeepsStanding(
    ctx: Ctx, docs: map<string, Json>, fs: Fs, job: Job, n: string, r: TargetRecord)
    requires Owned(ctx, docs) && Disciplined(ctx, docs, job) && n in docs && n != job.name
    requires CanInstall(fs, job.temp, OutputDir(ctx, job.name), Nested(ctx, job.name))
    requires Grounded(fs) && NamesOk(fs) && NamesOk(InstallJob(ctx, fs, job))
    requires UpToDate(ctx, World(fs, docs, n), r) && ReadsSources(ctx, r.deps)
    ensures UpToDate(ctx, World(InstallJob(ctx, fs, job), docs, n), r)
  {
    var after := InstallJob(ctx, fs, job);
    ProperDir(ctx, docs, job.name);
    CompiledIsThere(ctx, docs, fs, n);
    forall rel | rel in r.deps
      ensures Fingerprint(ctx.codec.hash, after, ctx.repoRoot + rel) ==
        Fingerprint(ctx.codec.hash, fs, ctx.repoRoot + rel)
    {
      SourcesUntouched(fs, job.temp, ctx.compiledDir, OutputDir(ctx, job.name), Nested(ctx, job.name),
        ctx.repoRoot + rel);
    }
    OwnTreeUntouched(ctx, docs, fs, job, n);
    SameTreeSameDigest(ctx.codec.hash, fs, Nested(ctx, n), after, Nested(ctx, n), OutputDir(ctx, n));
  }

  /** A target that is up to date has its directory, so `compiled/` is there. */
  lemma CompiledIsThere(ctx: Ctx, docs: map<string, Json>, fs: Fs, n: string)
    requires Owned(ctx, docs) && n in docs && Grounded(fs) && IsDir(fs, OutputDir(ctx, n))
    ensures IsDir(fs, ctx.compiledDir)
  {
    ProperDir(ctx, docs, n);
    AboveIsDir(fs, OutputDir(ctx, n), ctx.compiledDir);
  }

  predicate SameEntry(a: Fs, b: Fs, p: Path) { (p in a <==> p in b) && (p in a ==> a[p] == b[p]) }

  lemma SourcesUntouched(fs: Fs, temp: Fs, root: Path, dir: Path, children: set<string>, p: Path)
    requires Grounded(fs) && IsDir(fs, root) && root < dir && !(root <= p)
    ensures Look(Installed(fs, temp, dir, children), p) == Look(fs, p)
  {
    EntryUntouched(fs, temp, root, dir, children, p);
    forall q | |q| == |p| + 1 && p < q ensures SameEntry(Installed(fs, temp, dir, children), fs, q) {
      EntryUntouched(fs, temp, root, dir, children, q);
    }
    SameLook(Installed(fs, temp, dir, children), fs, p);
  }

  lemma EntryUntouched(fs: Fs, temp: Fs, root: Path, dir: Path, children: set<string>, q: Path)
    requires Grounded(fs) && IsDir(fs, root) && root < dir && !(root < q)
    ensures SameEntry(Installed(fs, temp, dir, children), fs, q)
  {
    InstalledElsewhere(fs, temp, dir, children, q);
    if q < dir {
      PrefixesCompare(q, root, dir);
      if q != root {
        assert q < root;
        AboveIsDir(fs, root, q);
      }
    }
  }

  lemma InstalledElsewhere(fs: Fs, temp: Fs, dir: Path, children: set<string>, q: Path)
    requires !(dir <= q)
    ensures var after := Installed(fs, temp, dir, children);
      && (q in after <==> q in fs || q < dir)
      && (q in after ==> after[q] == if q < dir then Dir else fs[q])
  {
  }

  lemma SameLook(a: Fs, b: Fs, p: Path)
    requires SameEntry(a, b, p) && forall q :: |q| == |p| + 1 && p < q ==> SameEntry(a, b, q)
    ensures Look(a, p) == Look(b, p)
  {
    SameNames(a, b, p);
    SameNames(b, a, p);
  }

  lemma SameNames(a: Fs, b: Fs, p: Path)
    requires forall q :: |q| == |p| + 1 && p < q ==> SameEntry(a, b, q)
    ensures ListedNames(a, p) <= ListedNames(b, p)
  {
    forall n | n in ListedNames(a, p) ensures n in ListedNames(b, p) {
      var q :| q in a && |q| == |p| + 1 && p < q && n == q[|p|] + if a[q].Dir? then "/" else "";
      assert SameEntry(a, b, q);
    }
  }

  lemma ProperDir(ctx: Ctx, docs: map<string, Json>, n: string)
    requires Owned(ctx, docs) && n in docs
    ensures OutputDir(ctx, n) == ctx.compiledDir + TargetPath(n) && OutputDir(ctx, n) != ctx.compiledDir
  {
    ProperPartsStay(TargetPath(n));
  }

  lemma PathsDiffer(a: string, b: string)
    requires a != b
    ensures TargetPath(a) != TargetPath(b)
  {
    JoinSplit(a, '.');
    JoinSplit(b, '.');
  }

  lemma OwnTreeUntouched(ctx: Ctx, docs: map<string, Json>, fs: Fs, job: Job, n: string)
    requires Owned(ctx, docs) && Disciplined(ctx, docs, job) && n in docs && n != job.name
    requires CanInstall(fs, job.temp, OutputDir(ctx, job.name), Nested(ctx, job.name))
    ensures var after, dir := InstallJob(ctx, fs, job), OutputDir(ctx, n);
      TreeFiles(after, dir, Nested(ctx, n)) == TreeFiles(fs, dir, Nested(ctx, n)) &&
        (IsDir(fs, dir) ==> IsDir(after, dir))
  {
    ProperDir(ctx, docs, n);
    ProperDir(ctx, docs, job.name);
    PathsDiffer(job.name, n);
    assert KeepsTo(ctx, job, n);
    if TargetPath(n) < TargetPath(job.name) {
      ParentSpared(fs, job.temp, ctx.compiledDir, ctx.targets, TargetPath(job.name), TargetPath(n));
    } else {
      OtherSpared(ctx, fs, job, TargetPath(job.name), TargetPath(n));
    }
  }

  lemma ParentSpared(fs: Fs, temp: Fs, root: Path, targets: set<Path>, a: Path, b: Path)
    requires a in targets && b in targets && b < a && Compatible(fs, DirsTo(root + a))
    requires forall tp, i :: tp in targets && 0 <= i < |tp| ==> tp[i] != ""
    ensures var after := Installed(fs, temp, root + a, ChildNames(a, targets));
      TreeFiles(after, root + b, ChildNames(b, targets)) == TreeFiles(fs, root + b, ChildNames(b, targets)) &&
      IsDir(after, root + b)
  {
    InstallSparesParent(fs, temp, root, targets, a, b);
    DirAbove(fs, temp, root + a, ChildNames(a, targets), root + b);
  }

  lemma OtherSpared(ctx: Ctx, fs: Fs, job: Job, a: Path, b: Path)
    requires a == TargetPath(job.name) && a in ctx.targets && b in ctx.targets && a != b && !(b < a)
    requires OutputDir(ctx, job.name) == ctx.compiledDir + a
    requires forall tp, i :: tp in ctx.targets && 0 <= i < |tp| ==> tp[i] != ""
    requires forall rel :: rel in job.temp ==> !(ctx.compiledDir + b <= OutputDir(ctx, job.name) + rel)
    ensures var after, dir, nested := InstallJob(ctx, fs, job), ctx.compiledDir + b, ChildNames(b, ctx.targets);
      TreeFiles(after, dir, nested) == TreeFiles(fs, dir, nested) && (IsDir(after, dir) <==> IsDir(fs, dir))
  {
    forall p | ctx.compiledDir + b <= p ensures SameEntry(InstallJob(ctx, fs, job), fs, p) {
      EntrySpared(ctx, fs, job, a, b, p);
    }
    SameTree(InstallJob(ctx, fs, job), fs, ctx.compiledDir + b, ChildNames(b, ctx.targets));
  }

  lemma EntrySpared(ctx: Ctx, fs: Fs, job: Job, a: Path, b: Path, p: Path)
    requires a == TargetPath(job.name) && a in ctx.targets && b in ctx.targets && a != b && !(b < a)
    requires OutputDir(ctx, job.name) == ctx.compiledDir + a
    requires forall tp, i :: tp in ctx.targets && 0 <= i < |tp| ==> tp[i] != ""
    requires forall rel :: rel in job.temp ==> !(ctx.compiledDir + b <= OutputDir(ctx, job.name) + rel)
    requires ctx.compiledDir + b <= p
    ensures SameEntry(InstallJob(ctx, fs, job), fs, p)
  {
    var dir := ctx.compiledDir + a;
    assert dir <= p ==> dir + p[|dir|..] == p;
    InstallSparesOthers(fs, job.temp, ctx.compiledDir, ctx.targets, a, b, p);
  }

  lemma DirAbove(fs: Fs, temp: Fs, dir: Path, children: set<string>, p: Path)
    requires p < dir
    ensures IsDir(Installed(fs, temp, dir, children), p)
  {
    assert p in DirsTo(dir) && !(dir <= p);
  }

  lemma SameTree(a: Fs, b: Fs, root: Path, skip: set<string>)
    requires forall p :: root <= p ==> SameEntry(a, b, p)
    ensures TreeFiles(a, root, skip) == TreeFiles(b, root, skip) && (IsDir(a, root) <==> IsDir(b, root))
  {
    assert SameEntry(a, b, root);
    assert forall rel :: root <= root + rel;
    assert forall rel :: SameEntry(a, b, root + rel);
  }

  // ---- the run ------------------------------------------------------------------------------------

  /** The target's record stands, and reads sources only. */
  ghost predicate Settled(ctx: Ctx, docs: map<string, Json>, s: Site, n: string) {
    n in docs && Stands(ctx, docs, s, n) && ReadsSources(ctx, s.manifest[n].deps)
  }

  ghost predicate AllStand(ctx: Ctx, docs: map<string, Json>, s: Site, names: set<string>) {
    forall n :: n in names ==> Settled(ctx, docs, s, n)
  }

  lemma {:induction false} OneMoreStands(ctx: Ctx, docs: map<string, Json>, s: Site, names: set<string>, job: Job)
    requires Owned(ctx, docs) && Disciplined(ctx, docs, job)
    requires CanInstall(s.fs, job.temp, OutputDir(ctx, job.name), Nested(ctx, job.name))
    requires FsOk(s.fs) && FsOk(InstallJob(ctx, s.fs, job))
    requires AllStand(ctx, docs, s, names)
    ensures AllStand(ctx, docs, CompileOne(ctx, docs, s, job), names + {job.name})
  {
    OwnSettled(ctx, docs, s, job);
    forall n | n in names && n != job.name ensures Settled(ctx, docs, CompileOne(ctx, docs, s, job), n) {
      OtherSettled(ctx, docs, s, job, n);
    }
    Together(ctx, docs, CompileOne(ctx, docs, s, job), names, job.name);
  }

  lemma Together(ctx: Ctx, docs: map<string, Json>, t: Site, names: set<string>, own: string)
    requires Settled(ctx, docs, t, own) && forall n :: n in names && n != own ==> Settled(ctx, docs, t, n)
    ensures AllStand(ctx, docs, t, names + {own})
  {
  }

  lemma OwnSettled(ctx: Ctx, docs: map<string, Json>, s: Site, job: Job)
    requires Disciplined(ctx, docs, job) && EVERYTHING !in docs
    ensures Settled(ctx, docs, CompileOne(ctx, docs, s, job), job.name)
  {
    RecordIsFresh(ctx, docs, s, job);
    RecordReadsSources(ctx, docs, s, job);
  }

  lemma RecordReadsSources(ctx: Ctx, docs: map<string, Json>, s: Site, job: Job)
    requires Disciplined(ctx, docs, job)
    ensures ReadsSources(ctx, CompileOne(ctx, docs, s, job).manifest[job.name].deps)
  {
  }

  lemma {:induction false} OtherSettled(ctx: Ctx, docs: map<string, Json>, s: Site, job: Job, n: string)
    requires Owned(ctx, docs) && Disciplined(ctx, docs, job) && n != job.name
    requires CanInstall(s.fs, job.temp, OutputDir(ctx, job.name), Nested(ctx, job.name))
    requires FsOk(s.fs) && FsOk(InstallJob(ctx, s.fs, job))
    requires Settled(ctx, docs, s, n)
    ensures Settled(ctx, docs, CompileOne(ctx, docs, s, job), n)
  {
    var fs := InstallJob(ctx, s.fs, job);
    InstallKeepsStanding(ctx, docs, s.fs, job, n, s.manifest[n]);
    OtherRecordStays(ctx, docs, Site(fs, s.manifest[job.name := RecordJob(ctx, docs, fs, job)]), fs,
                     s.manifest, job.name, RecordJob(ctx, docs, fs, job), n);
  }

  lemma OtherRecordStays(
    ctx: Ctx, docs: map<string, Json>, t: Site, fs: Fs, m: map<string, TargetRecord>, k: string, r: TargetRecord,
    n: string)
    requires t == Site(fs, m[k := r]) && n != k && n in m && n in docs
    requires UpToDate(ctx, World(fs, docs, n), m[n]) && ReadsSources(ctx, m[n].deps)
    ensures Settled(ctx, docs, t, n)
  {
    SettledFrom(ctx, docs, t, n, m[n]);
  }

  lemma SettledFrom(ctx: Ctx, docs: map<string, Json>, t: Site, n: string, r: TargetRecord)
    requires n in docs && n in t.manifest && t.manifest[n] == r && UpToDate(ctx, World(t.fs, docs, n), r)
    requires ReadsSources(ctx, r.deps)
    ensures Settled(ctx, docs, t, n)
  {
  }

  /** Between two compiles: the records of `names` stand. */
  ghost predicate Between(ctx: Ctx, docs: map<string, Json>, s: Site, names: set<string>) {
    AllStand(ctx, docs, s, names) && FsOk(s.fs)
  }

  ghost predicate Ahead(ctx: Ctx, docs: map<string, Json>, s: Site, jobs: seq<Job>) {
    (forall j :: j in jobs ==> Disciplined(ctx, docs, j)) && Installs(ctx, s.fs, jobs)
  }

  lemma {:induction false} StepStands(ctx: Ctx, docs: map<string, Json>, s: Site, names: set<string>, jobs: seq<Job>)
    requires Owned(ctx, docs) && jobs != [] && jobs[0].name in docs
    requires Between(ctx, docs, s, names) && Ahead(ctx, docs, s, jobs)
    ensures var t := CompileOne(ctx, docs, s, jobs[0]);
      Between(ctx, docs, t, names + {jobs[0].name}) && Ahead(ctx, docs, t, jobs[1..])
  {
    var job := jobs[0];
    assert job in jobs && forall j :: j in jobs[1..] ==> j in jobs;
    OneMoreStands(ctx, docs, s, names, job);
  }

  /** Compiling target by target keeps what each compile keeps. */
  lemma {:induction false} RunKeeps(
    compile: (Site, Job) -> Site, between: (Site, set<string>) -> bool, ahead: (Site, seq<Job>) -> bool,
    s: Site, names: set<string>, jobs: seq<Job>)
    requires between(s, names) && ahead(s, jobs)
    requires forall t: Site, ns: set<string>, js: seq<Job> :: js != [] && between(t, ns) && ahead(t, js) ==>
      between(compile(t, js[0]), ns + {js[0].name}) && ahead(compile(t, js[0]), js[1..])
    ensures between(CompileAll(compile, s, jobs), names + JobNames(jobs))
    decreases |jobs|
  {
    if jobs == [] {
      assert names + JobNames(jobs) == names;
    } else {
      RunKeeps(compile, between, ahead, compile(s, jobs[0]), names + {jobs[0].name}, jobs[1..]);
      assert names + JobNames(jobs) == names + {jobs[0].name} + JobNames(jobs[1..]);
    }
  }

  lemma {:induction false} RunStands(ctx: Ctx, docs: map<string, Json>, s: Site, names: set<string>, jobs: seq<Job>)
    requires Owned(ctx, docs) && Between(ctx, docs, s, names) && Ahead(ctx, docs, s, jobs)
    ensures Between(ctx, docs, CompileAll(Compiling(ctx, docs), s, jobs), names + JobNames(jobs))
  {
    ghost var compile := Compiling(ctx, docs);
    ghost var between := (t: Site, ns: set<string>) => Between(ctx, docs, t, ns);
    ghost var ahead := (t: Site, js: seq<Job>) => Ahead(ctx, docs, t, js);
    forall t: Site, ns: set<string>, js: seq<Job> | js != [] && between(t, ns) && ahead(t, js)
      ensures between(compile(t, js[0]), ns + {js[0].name}) && ahead(compile(t, js[0]), js[1..])
    {
      assert js[0] in js && Disciplined(ctx, docs, js[0]);
      StepStands(ctx, docs, t, ns, js);
    }
    RunKeeps(compile, between, ahead, s, names, jobs);
  }

  function JobNames(jobs: seq<Job>): set<string> { set j | j in jobs :: j.name }

  // ---- cleaning up ----------------------------------------------------------------------------------

  lemma {:induction false} CleanUpKeepsStanding(ctx: Ctx, docs: map<string, Json>, s: Site, n: string)
    requires Owned(ctx, docs) && n in docs && FsOk(s.fs) && Stands(ctx, docs, s, n)
    requires ReadsSources(ctx, s.manifest[n].deps)
    ensures Stands(ctx, docs, CleanUp(ctx, docs, s), n)
  {
    var fs, after := s.fs, Cleaned(s.fs, ctx.compiledDir, ctx.targets);
    CompiledIsThere(ctx, docs, fs, n);
    forall rel | rel in s.manifest[n].deps
      ensures Fingerprint(ctx.codec.hash, after, ctx.repoRoot + rel) ==
        Fingerprint(ctx.codec.hash, fs, ctx.repoRoot + rel)
    {
      SourcesKept(fs, ctx.compiledDir, ctx.targets, ctx.repoRoot + rel);
    }
    ProperDir(ctx, docs, n);
    OwnTreeKept(fs, ctx.compiledDir, ctx.targets, TargetPath(n));
    SameTreeSameDigest(ctx.codec.hash, fs, Nested(ctx, n), after, Nested(ctx, n), OutputDir(ctx, n));
  }

  lemma SourcesKept(fs: Fs, root: Path, targets: set<Path>, p: Path)
    requires !(root <= p)
    ensures Look(Cleaned(fs, root, targets), p) == Look(fs, p)
  {
    forall q | q == p || (|q| == |p| + 1 && p < q) ensures SameEntry(Cleaned(fs, root, targets), fs, q) {
      assert !(root < q);
    }
    SameLook(Cleaned(fs, root, targets), fs, p);
  }

  lemma OwnTreeKept(fs: Fs, root: Path, targets: set<Path>, tp: Path)
    requires tp in targets && IsDir(fs, root + tp)
    ensures var after := Cleaned(fs, root, targets);
      && TreeFiles(after, root + tp, ChildNames(tp, targets)) == TreeFiles(fs, root + tp, ChildNames(tp, targets))
      && IsDir(after, root + tp)
  {
    forall p | root + tp <= p ensures SameEntry(Cleaned(fs, root, targets), fs, p) {
      OwnEntryKept(fs, root, targets, tp, p);
    }
    SameTree(Cleaned(fs, root, targets), fs, root + tp, ChildNames(tp, targets));
  }

  lemma OwnEntryKept(fs: Fs, root: Path, targets: set<Path>, tp: Path, p: Path)
    requires tp in targets && IsDir(fs, root + tp) && root + tp <= p
    ensures SameEntry(Cleaned(fs, root, targets), fs, p)
  {
    var rel := p[|root|..];
    assert p == root + rel && tp == (root + tp)[|root|..] && tp <= rel;
    if p in fs {
      assert Belongs(fs[p], targets, rel) by {
        if rel == tp {
          assert fs[p].Dir? && rel <= tp;
        } else {
          assert tp < rel;
        }
      }
    }
  }

  /** A compile run converges, the first one, before there is anything compiled, included:
      when the targets that were not up to date have been compiled, and leftovers cleaned
      up, every target is up to date. */
  lemma {:induction false} SecondRunCompilesNothing(
    ctx: Ctx, docs: map<string, Json>, s: Site, names: set<string>, jobs: seq<Job>)
    requires Owned(ctx, docs) && (forall j :: j in jobs ==> Disciplined(ctx, docs, j))
    requires FsOk(s.fs) && Installs(ctx, s.fs, jobs)
    requires AllStand(ctx, docs, s, names) && docs.Keys == names + JobNames(jobs)
    ensures var t := CleanUp(ctx, docs, CompileAll(Compiling(ctx, docs), s, jobs));
      forall n :: n in docs ==> Stands(ctx, docs, t, n)
  {
    RunStands(ctx, docs, s, names, jobs);
    CleanUpKeepsAll(ctx, docs, CompileAll(Compiling(ctx, docs), s, jobs));
  }

  lemma CleanUpKeepsAll(ctx: Ctx, docs: map<string, Json>, s: Site)
    requires Owned(ctx, docs) && Between(ctx, docs, s, docs.Keys)
    ensures forall n :: n in docs ==> Stands(ctx, docs, CleanUp(ctx, docs, s), n)
  {
    forall n | n in docs ensures Stands(ctx, docs, CleanUp(ctx, docs, s), n) {
      assert n in docs.Keys && Settled(ctx, docs, s, n);
      CleanUpKeepsStanding(ctx, docs, s, n);
    }
  }
}
