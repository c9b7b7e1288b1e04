/**
 The compile engine's use of its records (engine.rs): `why_stale` and
 `install_and_record` as programs over the manifest and the disk.
*/
module Engine {
  import opened Wrappers
  import opened Digest
  import opened Install
  import opened Readers
  import opened Staleness

  // ---- why a target is stale -----------------------------------------------------------

  datatype Reason =
    | NeverCompiled
    | CompilerChanged
    | InventoryChanged
    | SettingsChanged
    | DepAppeared(rel: Path)
    | DepRemoved(rel: Path)
    | DepChanged(rel: Path)
    | AnyInventoryChanged
    | TargetInventoryChanged(name: string)
    | OutputMissing
    | OutputModified

  predicate DepsHold(ctx: Ctx, fs: Fs, deps: map<Path, string>) {
    forall rel :: rel in deps ==> Fingerprint(ctx.codec.hash, fs, ctx.repoRoot + rel) == deps[rel]
  }

  predicate GlobalsHold(ctx: Ctx, docs: map<string, Json>, globals: map<string, string>) {
    forall n :: n in globals ==> GlobalHolds(ctx, docs, n, globals[n])
  }

  predicate DepDiffers(ctx: Ctx, fs: Fs, deps: map<Path, string>, rel: Path) {
    rel in deps && Fingerprint(ctx.codec.hash, fs, ctx.repoRoot + rel) != deps[rel]
  }

  /** What a reason says, and that nothing checked before it differs. */
  predicate Justified(ctx: Ctx, w: World, record: Option<TargetRecord>, why: Reason)
    requires w.own in w.docs
  {
    if record.None? then why.NeverCompiled? else
    var r := record.value;
    var printed := (rel: Path) => Fingerprint(ctx.codec.hash, w.fs, ctx.repoRoot + rel);
    var engine, doc := r.engine == ctx.engine, r.docDigest == DocDigest(ctx.codec, w.docs[w.own]);
    var settings := engine && doc && r.configDigest == ctx.configDigest;
    var deps := settings && DepsHold(ctx, w.fs, r.deps);
    var globals := deps && GlobalsHold(ctx, w.docs, r.globals);
    var thereNow := IsDir(w.fs, OutputDir(ctx, w.own));
    match why
    case NeverCompiled => false
    case CompilerChanged => !engine
    case InventoryChanged => engine && !doc
    case SettingsChanged => engine && doc && !settings
    case DepAppeared(rel) => settings && DepDiffers(ctx, w.fs, r.deps, rel) && r.deps[rel] == "-"
    case DepRemoved(rel) => settings && DepDiffers(ctx, w.fs, r.deps, rel) && r.deps[rel] != "-" && printed(rel) == "-"
    case DepChanged(rel) => settings && DepDiffers(ctx, w.fs, r.deps, rel) && r.deps[rel] != "-" && printed(rel) != "-"
    case AnyInventoryChanged =>
      deps && EVERYTHING in r.globals && !GlobalHolds(ctx, w.docs, EVERYTHING, r.globals[EVERYTHING])
    case TargetInventoryChanged(n) =>
      deps && n != EVERYTHING && n in r.globals && !GlobalHolds(ctx, w.docs, n, r.globals[n])
    case OutputMissing => globals && !thereNow
    case OutputModified =>
      globals && thereNow &&
      TreeDigest(ctx.codec.hash, w.fs, OutputDir(ctx, w.own), Nested(ctx, w.own)) != r.outputDigest
  }

  method FirstDep(ctx: Ctx, fs: Fs, deps: map<Path, string>) returns (why: Option<Reason>)
    ensures why.None? <==> DepsHold(ctx, fs, deps)
    ensures why.Some? ==>
      && (why.value.DepAppeared? || why.value.DepRemoved? || why.value.DepChanged?)
      && DepDiffers(ctx, fs, deps, why.value.rel)
      && (why.value.DepAppeared? <==> deps[why.value.rel] == "-")
      && (why.value.DepRemoved? <==>
            (deps[why.value.rel] != "-" && Fingerprint(ctx.codec.hash, fs, ctx.repoRoot + why.value.rel) == "-"))
  {
    var todo := deps.Keys;
    while todo != {}
      invariant todo <= deps.Keys
      invariant forall rel :: rel in deps && rel !in todo ==>
        Fingerprint(ctx.codec.hash, fs, ctx.repoRoot + rel) == deps[rel]
      decreases |todo|
    {
      var rel :| rel in todo;
      var now := Fingerprint(ctx.codec.hash, fs, ctx.repoRoot + rel);
      if now != deps[rel] {
        assert DepDiffers(ctx, fs, deps, rel);
        return Some(if deps[rel] == "-" then DepAppeared(rel)
                    else if now == "-" then DepRemoved(rel)
                    else DepChanged(rel));
      }
      todo := todo - {rel};
    }
    why := None;
  }

  method FirstGlobal(ctx: Ctx, docs: map<string, Json>, globals: map<string, string>) returns (why: Option<Reason>)
    ensures why.None? <==> GlobalsHold(ctx, docs, globals)
    ensures why.Some? ==>
      var n := if why.value.TargetInventoryChanged? then why.value.name else EVERYTHING;
      && (why.value.TargetInventoryChanged? || why.value.AnyInventoryChanged?)
      && (why.value.TargetInventoryChanged? ==> n != EVERYTHING)
      && n in globals && !GlobalHolds(ctx, docs, n, globals[n])
  {
    var todo := globals.Keys;
    while todo != {}
      invariant todo <= globals.Keys
      invariant forall n :: n in globals && n !in todo ==> GlobalHolds(ctx, docs, n, globals[n])
      decreases |todo|
    {
      var n :| n in todo;
      if n == EVERYTHING {
        if globals[n] != EverythingDigest(ctx.codec, docs) {
          return Some(AnyInventoryChanged);
        }
      } else if n !in docs || DocDigest(ctx.codec, docs[n]) != globals[n] {
        return Some(TargetInventoryChanged(n));
      }
      todo := todo - {n};
    }
    why := None;
  }

  /** `why_stale`: no reason exactly when the target is up to date; otherwise a true
      reason, and the first kind of difference in this order. */
  method WhyStale(ctx: Ctx, w: World, record: Option<TargetRecord>) returns (why: Option<Reason>)
    requires w.own in w.docs
    ensures why.None? <==> record.Some? && UpToDate(ctx, w, record.value)
    ensures why.Some? ==> Justified(ctx, w, record, why.value)
  {
    if record.None? {
      return Some(NeverCompiled);
    }
    var r := record.value;
    if r.engine != ctx.engine {
      return Some(CompilerChanged);
    }
    if r.docDigest != DocDigest(ctx.codec, w.docs[w.own]) {
      return Some(InventoryChanged);
    }
    if r.configDigest != ctx.configDigest {
      return Some(SettingsChanged);
    }
    why := FirstDep(ctx, w.fs, r.deps);
    if why.Some? {
      return;
    }
    why := FirstGlobal(ctx, w.docs, r.globals);
    if why.Some? {
      return;
    }
    if !IsDir(w.fs, OutputDir(ctx, w.own)) {
      return Some(OutputMissing);
    }
    if TreeDigest(ctx.codec.hash, w.fs, OutputDir(ctx, w.own), Nested(ctx, w.own)) != r.outputDigest {
      return Some(OutputModified);
    }
    why := None;
  }

  // ---- installing and recording ------------------------------------------------------------

  datatype InstallError = Incomplete | CannotInstall

  class Compiler {
    const disk: Disk
    var manifest: map<string, TargetRecord>

    constructor (disk: Disk)
      ensures this.disk == disk && manifest == map[]
    {
      this.disk := disk;
      manifest := map[];
    }

    /** Fingerprints of everything read and probed, as it is now. */
    method RecordDeps(ctx: Ctx, asked: seq<Question>, probes: seq<Path>) returns (deps: map<Path, string>)
      ensures deps == Deps(ctx, disk.fs, asked, Elements(probes))
    {
      deps := map[];
      for i := 0 to |asked|
        invariant deps == Deps(ctx, disk.fs, asked[..i], {})
      {
        if asked[i].LookAt? && ctx.repoRoot <= asked[i].path {
          var rel := asked[i].path[|ctx.repoRoot|..];
          deps := deps[rel := Fingerprint(ctx.codec.hash, disk.fs, asked[i].path)];
        }
        OneReadMore(ctx, disk.fs, asked, i);
      }
      assert asked[..|asked|] == asked;
      for i := 0 to |probes|
        invariant deps == Deps(ctx, disk.fs, asked, Elements(probes[..i]))
      {
        if ctx.repoRoot <= probes[i] {
          var rel := probes[i][|ctx.repoRoot|..];
          deps := deps[rel := Fingerprint(ctx.codec.hash, disk.fs, probes[i])];
        }
        OneProbeMore(ctx, disk.fs, asked, probes, i);
      }
      assert probes[..|probes|] == probes;
    }

    /** `install_and_record` */
    method InstallAndRecord(
      ctx: Ctx, w: World, asked: seq<Question>, probes: seq<Path>, items: seq<ItemRecord>, temp: Fs, renames: bool)
      returns (r: Result<(), InstallError>)
      requires w.own in w.docs
      requires Grounded(disk.fs) && Grounded(temp) && (temp == map[] || IsDir(temp, []))
      modifies this, disk
      ensures Grounded(disk.fs)
      ensures r.Ok? <==>
        (!ReadsUnrendered(ctx, asked) && CanInstall(old(disk.fs), temp, OutputDir(ctx, w.own), Nested(ctx, w.own)))
      ensures r.Err? ==> manifest == old(manifest)
      ensures r == Err(Incomplete) <==> ReadsUnrendered(ctx, asked)
      ensures r == Err(Incomplete) ==> disk.fs == old(disk.fs)
      ensures r.Ok? ==>
        && disk.fs == Installed(old(disk.fs), temp, OutputDir(ctx, w.own), Nested(ctx, w.own))
        && manifest == old(manifest)[w.own := Record(ctx, w, asked, Elements(probes), disk.fs, items)]
    {
      var incomplete := IsIncomplete(ctx, asked);
      if incomplete {
        return Err(Incomplete);
      }
      var ok := disk.Install(temp, OutputDir(ctx, w.own), Nested(ctx, w.own), renames);
      if ok {
        AddRecord(ctx, w, asked, probes, items);
      }
      r := if ok then Ok(()) else Err(CannotInstall);
    }

    method AddRecord(ctx: Ctx, w: World, asked: seq<Question>, probes: seq<Path>, items: seq<ItemRecord>)
      requires w.own in w.docs
      modifies this
      ensures manifest == old(manifest)[w.own := Record(ctx, w, asked, Elements(probes), disk.fs, items)]
    {
      var outputDigest := TreeDigest(ctx.codec.hash, disk.fs, OutputDir(ctx, w.own), Nested(ctx, w.own));
      var deps := RecordDeps(ctx, asked, probes);
      var globals := RecordGlobals(ctx, w, asked);
      var record := TargetRecord(
        TargetPath(w.own), DocDigest(ctx.codec, w.docs[w.own]), ctx.configDigest, ctx.engine, deps, globals,
        outputDigest, items);
      manifest := manifest[w.own := record];
    }
  }

  /** The compile read a target that was not rendered. */
  method IsIncomplete(ctx: Ctx, asked: seq<Question>) returns (incomplete: bool)
    ensures incomplete <==> ReadsUnrendered(ctx, asked)
  {
    for i := 0 to |asked|
      invariant !ReadsUnrendered(ctx, asked[..i])
    {
      if (asked[i].AllTargets? && ctx.unrendered != {}) ||
         (asked[i].OtherTarget? && asked[i].name in ctx.unrendered) {
        assert asked[i] in asked;
        return true;
      }
      assert asked[..i + 1] == asked[..i] + [asked[i]];
    }
    assert asked[..|asked|] == asked;
    incomplete := false;
  }

  method RecordGlobals(ctx: Ctx, w: World, asked: seq<Question>) returns (globals: map<string, string>)
    ensures globals == Globals(ctx, w.docs, w.own, asked)
  {
    if AllTargets in asked {
      return map[EVERYTHING := EverythingDigest(ctx.codec, w.docs)];
    }
    globals := map[];
    for i := 0 to |asked|
      invariant forall n :: n in globals <==> n in w.docs && n != w.own && OtherTarget(n) in asked[..i]
      invariant forall n :: n in globals ==> globals[n] == DocDigest(ctx.codec, w.docs[n])
    {
      if asked[i].OtherTarget? && asked[i].name != w.own && asked[i].name in w.docs {
        globals := globals[asked[i].name := DocDigest(ctx.codec, w.docs[asked[i].name])];
      }
      assert asked[..i + 1] == asked[..i] + [asked[i]];
    }
    assert asked[..|asked|] == asked;
  }

  function Elements(ps: seq<Path>): set<Path> { set p | p in ps }

  lemma OneReadMore(ctx: Ctx, fs: Fs, asked: seq<Question>, i: nat)
    requires i < |asked|
    ensures Deps(ctx, fs, asked[..i + 1], {}) ==
      if asked[i].LookAt? && ctx.repoRoot <= asked[i].path
      then Deps(ctx, fs, asked[..i], {})[
        asked[i].path[|ctx.repoRoot|..] := Fingerprint(ctx.codec.hash, fs, asked[i].path)]
      else Deps(ctx, fs, asked[..i], {})
  {
    assert asked[..i + 1] == asked[..i] + [asked[i]];
    assert asked[i].LookAt? && ctx.repoRoot <= asked[i].path ==>
      ctx.repoRoot + asked[i].path[|ctx.repoRoot|..] == asked[i].path;
    assert forall rel :: (ctx.repoRoot + rel)[|ctx.repoRoot|..] == rel;
    assert forall rel :: rel in DepPaths(ctx, asked[..i + 1], {}) <==>
      rel in DepPaths(ctx, asked[..i], {}) || asked[i] == LookAt(ctx.repoRoot + rel);
  }

  lemma OneProbeMore(ctx: Ctx, fs: Fs, asked: seq<Question>, probes: seq<Path>, i: nat)
    requires i < |probes|
    ensures Deps(ctx, fs, asked, Elements(probes[..i + 1])) ==
      if ctx.repoRoot <= probes[i]
      then Deps(ctx, fs, asked, Elements(probes[..i]))[
        probes[i][|ctx.repoRoot|..] := Fingerprint(ctx.codec.hash, fs, probes[i])]
      else Deps(ctx, fs, asked, Elements(probes[..i]))
  {
    assert probes[..i + 1] == probes[..i] + [probes[i]];
    assert ctx.repoRoot <= probes[i] ==> ctx.repoRoot + probes[i][|ctx.repoRoot|..] == probes[i];
    assert forall rel :: (ctx.repoRoot + rel)[|ctx.repoRoot|..] == rel;
    assert forall rel :: rel in DepPaths(ctx, asked, Elements(probes[..i + 1])) <==>
      rel in DepPaths(ctx, asked, Elements(probes[..i])) || probes[i] == ctx.repoRoot + rel;
  }
}
