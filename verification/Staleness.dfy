/**
 Deciding that a target need not be compiled again (engine.rs): the record
 `install_and_record` writes, the questions `why_stale` asks of it, and the proof
 that a record nothing contradicts stands for a fresh compile.
*/
module Staleness {
  import opened Wrappers
  import opened Strings
  import opened Order
  import opened Digest
  import opened Install
  import opened Readers

  /** The hash, and JSON serialisation. */
  datatype Codec = Codec(hash: string -> string, text: Json -> string)

  ghost predicate Faithful(c: Codec) {
    && Hashes(c.hash)
    && (forall a, b :: c.text(a) == c.text(b) ==> a == b)
  }

  /** What stays fixed during a compile run. */
  datatype Ctx = Ctx(
    codec: Codec,
    engine: string, configDigest: string, repoRoot: Path, compiledDir: Path,
    /** The target paths under `compiled/`, one per target, split at `/`. */
    targets: set<Path>,
    unrendered: set<string>)

  datatype ItemRecord = ItemRecord(
    itemDigest: string, docReads: map<string, string>, deps: map<Path, string>, globals: map<string, string>,
    outputs: map<Path, string>)

  /** Times are left out. */
  datatype TargetRecord = TargetRecord(
    targetPath: Path, docDigest: string, configDigest: string, engine: string,
    deps: map<Path, string>, globals: map<string, string>, outputDigest: string, items: seq<ItemRecord>)

  // ---- digests of documents ----------------------------------------------------------

  function DocDigest(c: Codec, doc: Json): string { c.hash(c.text(doc)) }

  function DigestsOf(c: Codec, docs: map<string, Json>, names: seq<string>): (r: seq<string>)
    requires forall n :: n in names ==> n in docs
    ensures |r| == |names| && forall i :: 0 <= i < |r| ==> r[i] == DocDigest(c, docs[names[i]])
  {
    seq(|names|, i requires 0 <= i < |names| => assert names[i] in names; DocDigest(c, docs[names[i]]))
  }

  /** The digests of every document in the order of the names; the names are not part of it. */
  function EverythingDigest(c: Codec, docs: map<string, Json>): string {
    c.hash(Join(DigestsOf(c, docs, SortedStrings(docs.Keys)), "\n"))
  }

  // ---- recording -------------------------------------------------------------------------

  const EVERYTHING := "*"

  function TargetPath(name: string): Path { Split(name, '.') }

  function OutputDir(ctx: Ctx, name: string): Path { TargetDir(ctx.compiledDir, TargetPath(name)) }

  function Nested(ctx: Ctx, name: string): set<string> { ChildNames(TargetPath(name), ctx.targets) }

  /** Paths read and probed, relative to the repository; others are not recorded. */
  function DepPaths(ctx: Ctx, asked: seq<Question>, probes: set<Path>): (r: set<Path>)
    ensures forall rel :: rel in r <==> LookAt(ctx.repoRoot + rel) in asked || ctx.repoRoot + rel in probes
  {
    var r := (set q | q in asked && q.LookAt? && ctx.repoRoot <= q.path :: q.path[|ctx.repoRoot|..])
           + (set p | p in probes && ctx.repoRoot <= p :: p[|ctx.repoRoot|..]);
    assert forall rel :: (ctx.repoRoot + rel)[|ctx.repoRoot|..] == rel;
    assert forall p :: ctx.repoRoot <= p ==> ctx.repoRoot + p[|ctx.repoRoot|..] == p;
    assert forall rel :: LookAt(ctx.repoRoot + rel) in asked ==> LookAt(ctx.repoRoot + rel).path == ctx.repoRoot + rel;
    r
  }

  function Deps(ctx: Ctx, fs: Fs, asked: seq<Question>, probes: set<Path>): map<Path, string> {
    map rel | rel in DepPaths(ctx, asked, probes) :: Fingerprint(ctx.codec.hash, fs, ctx.repoRoot + rel)
  }

  /** Other targets read, with their digests; unknown names are dropped. */
  function Globals(ctx: Ctx, docs: map<string, Json>, own: string, asked: seq<Question>): map<string, string> {
    if AllTargets in asked then map[EVERYTHING := EverythingDigest(ctx.codec, docs)]
    else map n | n in docs && OtherTarget(n) in asked && n != own :: DocDigest(ctx.codec, docs[n])
  }

  function Record(
    ctx: Ctx, w: World, asked: seq<Question>, probes: set<Path>, fs: Fs, items: seq<ItemRecord>): TargetRecord
    requires w.own in w.docs
  {
    TargetRecord(
      TargetPath(w.own), DocDigest(ctx.codec, w.docs[w.own]), ctx.configDigest, ctx.engine,
      Deps(ctx, fs, asked, probes), Globals(ctx, w.docs, w.own, asked),
      TreeDigest(ctx.codec.hash, fs, OutputDir(ctx, w.own), Nested(ctx, w.own)), items)
  }

  /** Reading a target that fails to render is an error. */
  predicate ReadsUnrendered(ctx: Ctx, asked: seq<Question>) {
    || (AllTargets in asked && ctx.unrendered != {})
    || exists n :: n in ctx.unrendered && OtherTarget(n) in asked
  }

  // ---- deciding -----------------------------------------------------------------------------

  predicate GlobalHolds(ctx: Ctx, docs: map<string, Json>, n: string, digest: string) {
    if n == EVERYTHING then digest == EverythingDigest(ctx.codec, docs)
    else n in docs && DocDigest(ctx.codec, docs[n]) == digest
  }

  /** Nothing contradicts the record. */
  predicate UpToDate(ctx: Ctx, w: World, r: TargetRecord)
    requires w.own in w.docs
  {
    && r.engine == ctx.engine
    && r.docDigest == DocDigest(ctx.codec, w.docs[w.own])
    && r.configDigest == ctx.configDigest
    && (forall rel :: rel in r.deps ==> Fingerprint(ctx.codec.hash, w.fs, ctx.repoRoot + rel) == r.deps[rel])
    && (forall n :: n in r.globals ==> GlobalHolds(ctx, w.docs, n, r.globals[n]))
    && IsDir(w.fs, OutputDir(ctx, w.own))
    && TreeDigest(ctx.codec.hash, w.fs, OutputDir(ctx, w.own), Nested(ctx, w.own)) == r.outputDigest
  }

  // ---- equal digests, equal documents -----------------------------------------------------------

  lemma JoinedLinesDetermine(a: seq<string>, b: seq<string>)
    requires forall i :: 0 <= i < |a| ==> a[i] != "" && '\n' !in a[i]
    requires forall i :: 0 <= i < |b| ==> b[i] != "" && '\n' !in b[i]
    requires Join(a, "\n") == Join(b, "\n")
    ensures a == b
  {
    if a != [] && b != [] {
      JoinIsInjective(a, b, '\n');
    } else {
      JoinedIsEmpty(a);
      JoinedIsEmpty(b);
    }
  }

  lemma JoinedIsEmpty(a: seq<string>)
    requires forall i :: 0 <= i < |a| ==> a[i] != ""
    ensures Join(a, "\n") == "" <==> a == []
  {
  }

  /** The documents in the order of their targets' names. */
  function Listed(docs: map<string, Json>): seq<Json> { DocsOf(docs, SortedStrings(docs.Keys)) }

  function DocsOf(docs: map<string, Json>, names: seq<string>): (r: seq<Json>)
    requires forall n :: n in names ==> n in docs
    ensures |r| == |names| && forall i :: 0 <= i < |r| ==> r[i] == docs[names[i]]
  {
    seq(|names|, i requires 0 <= i < |names| => assert names[i] in names; docs[names[i]])
  }

  /** The digest of everything tells the documents and their order, not whose they are. */
  lemma {:induction false} EverythingIsListed(c: Codec, docs1: map<string, Json>, docs2: map<string, Json>)
    requires Faithful(c)
    ensures EverythingDigest(c, docs1) == EverythingDigest(c, docs2) <==> Listed(docs1) == Listed(docs2)
  {
    var n1, n2 := SortedStrings(docs1.Keys), SortedStrings(docs2.Keys);
    if EverythingDigest(c, docs1) == EverythingDigest(c, docs2) {
      SameLines(c, docs1, docs2);
      SameDocs(c, docs1, docs2, n1, n2);
    } else if Listed(docs1) == Listed(docs2) {
      SameDigests(c, docs1, docs2, n1, n2);
    }
  }

  lemma SameLines(c: Codec, docs1: map<string, Json>, docs2: map<string, Json>)
    requires Faithful(c) && EverythingDigest(c, docs1) == EverythingDigest(c, docs2)
    ensures DigestsOf(c, docs1, SortedStrings(docs1.Keys)) == DigestsOf(c, docs2, SortedStrings(docs2.Keys))
  {
    var a, b := DigestsOf(c, docs1, SortedStrings(docs1.Keys)), DigestsOf(c, docs2, SortedStrings(docs2.Keys));
    assert Join(a, "\n") == Join(b, "\n");
    JoinedLinesDetermine(a, b);
  }

  lemma SameDocs(
    c: Codec, docs1: map<string, Json>, docs2: map<string, Json>, n1: seq<string>, n2: seq<string>)
    requires Faithful(c) && (forall m :: m in n1 ==> m in docs1) && (forall m :: m in n2 ==> m in docs2)
    requires DigestsOf(c, docs1, n1) == DigestsOf(c, docs2, n2)
    ensures DocsOf(docs1, n1) == DocsOf(docs2, n2)
  {
    var a, b := DigestsOf(c, docs1, n1), DigestsOf(c, docs2, n2);
    forall i | 0 <= i < |n1| ensures DocsOf(docs1, n1)[i] == DocsOf(docs2, n2)[i] {
      assert a[i] == b[i] && n1[i] in n1 && n2[i] in n2;
    }
  }

  lemma SameDigests(
    c: Codec, docs1: map<string, Json>, docs2: map<string, Json>, n1: seq<string>, n2: seq<string>)
    requires (forall m :: m in n1 ==> m in docs1) && (forall m :: m in n2 ==> m in docs2)
    requires DocsOf(docs1, n1) == DocsOf(docs2, n2)
    ensures DigestsOf(c, docs1, n1) == DigestsOf(c, docs2, n2)
  {
    forall i | 0 <= i < |n1| ensures DigestsOf(c, docs1, n1)[i] == DigestsOf(c, docs2, n2)[i] {
      assert DocsOf(docs1, n1)[i] == DocsOf(docs2, n2)[i] && n1[i] in n1 && n2[i] in n2;
    }
  }

  /** So where the digests of everything are equal, the documents are exactly when they
      are those of the same targets. */
  lemma {:induction false} EverythingDetermines(c: Codec, docs1: map<string, Json>, docs2: map<string, Json>)
    requires Faithful(c) && EverythingDigest(c, docs1) == EverythingDigest(c, docs2)
    ensures docs1 == docs2 <==> docs1.Keys == docs2.Keys
  {
    EverythingIsListed(c, docs1, docs2);
    if docs1.Keys == docs2.Keys {
      var names := SortedStrings(docs1.Keys);
      forall n | n in docs1 ensures docs1[n] == docs2[n] {
        var i :| 0 <= i < |names| && names[i] == n;
        assert Listed(docs1)[i] == Listed(docs2)[i];
      }
    }
  }

  /** The name every rendered document starts out with; what is merged over it can
      replace it. */
  function FullName(doc: Json): Option<Json> { Member(doc, ["parameters", "_kapitan_", "name", "full"]) }

  function Member(doc: Json, keys: seq<string>): Option<Json>
    decreases |keys|
  {
    if keys == [] then Some(doc)
    else
      match doc.Get(keys[0])
      case None => None
      case Some(next) => Member(next, keys[1..])
  }

  ghost predicate NamesItsTarget(docs: map<string, Json>) {
    forall n :: n in docs ==> FullName(docs[n]) == Some(JString(n))
  }

  /** Documents that kept their names therefore cannot be confused. */
  lemma {:induction false} NamedDocumentsDetermine(c: Codec, docs1: map<string, Json>, docs2: map<string, Json>)
    requires Faithful(c) && NamesItsTarget(docs1) && NamesItsTarget(docs2)
    ensures EverythingDigest(c, docs1) == EverythingDigest(c, docs2) <==> docs1 == docs2
  {
    if EverythingDigest(c, docs1) == EverythingDigest(c, docs2) {
      EverythingIsListed(c, docs1, docs2);
      EverythingDetermines(c, docs1, docs2);
      NamesAmong(docs1, docs2);
      NamesAmong(docs2, docs1);
    }
  }

  lemma NamesAmong(docs1: map<string, Json>, docs2: map<string, Json>)
    requires NamesItsTarget(docs1) && NamesItsTarget(docs2) && Listed(docs1) == Listed(docs2)
    ensures docs1.Keys <= docs2.Keys
  {
    var n1, n2 := SortedStrings(docs1.Keys), SortedStrings(docs2.Keys);
    forall n | n in docs1 ensures n in docs2 {
      var i :| 0 <= i < |n1| && n1[i] == n;
      assert Listed(docs1)[i] == Listed(docs2)[i] && n2[i] in n2;
      assert FullName(docs1[n1[i]]) == FullName(docs2[n2[i]]);
    }
  }

  /** A document that two targets share, the digest of everything does not tell apart;
      at most one of the two targets can be the one it names. */
  lemma {:induction false} RenamingIsNotSeen(c: Codec, doc: Json)
    ensures EverythingDigest(c, map["a" := doc]) == EverythingDigest(c, map["b" := doc])
    ensures !NamesItsTarget(map["a" := doc]) || !NamesItsTarget(map["b" := doc])
  {
    var a, b := map["a" := doc], map["b" := doc];
    assert a.Keys == {"a"} && b.Keys == {"b"};
    SortedSingle("a");
    SortedSingle("b");
    assert DigestsOf(c, a, ["a"]) == DigestsOf(c, b, ["b"]);
    assert "a" in a && "b" in b;
  }

  // ---- soundness --------------------------------------------------------------------------------

  /** The recorded compile, and the assumptions under which its record is worth anything:
      in world `w` the compile wrote `temp` and left the disk as `left`; then it was installed. */
  ghost predicate Recorded(
    ctx: Ctx, w: World, program: Reader<Fs>, asked: seq<Question>, temp: Fs, probes: set<Path>, left: Fs, fs: Fs,
    r: TargetRecord)
  {
    && w.own in w.docs && EVERYTHING !in w.docs
    && Runs(program, w, asked, temp)
    && fs == Installed(left, temp, OutputDir(ctx, w.own), Nested(ctx, w.own))
    && r == Record(ctx, w, asked, probes, fs, r.items)
    // all reads lie under the repository root, and the compile did not rewrite what it read
    && (forall p :: LookAt(p) in asked ==> ctx.repoRoot <= p && Look(w.fs, p) == Look(fs, p))
    // targets read by name exist
    && (forall n :: OtherTarget(n) in asked ==> n in w.docs)
  }

  ghost predicate SameSetup(c1: Ctx, c2: Ctx) {
    && c1.codec == c2.codec && c1.repoRoot == c2.repoRoot && c1.compiledDir == c2.compiledDir
  }

  /** Every question of the recorded run still has the answer it had. */
  lemma {:induction false} RecordCoversQuestions(
    c1: Ctx, w1: World, program: Reader<Fs>, asked: seq<Question>, temp: Fs, probes: set<Path>, left: Fs, fs: Fs,
    r: TargetRecord, c2: Ctx, w2: World)
    requires SameSetup(c1, c2) && Faithful(c1.codec) && NamesOk(fs) && NamesOk(w2.fs)
    requires Recorded(c1, w1, program, asked, temp, probes, left, fs, r)
    requires w2.own == w1.own && w2.own in w2.docs
    requires AllTargets in asked ==> w1.docs.Keys == w2.docs.Keys
    requires UpToDate(c2, w2, r)
    ensures SameAnswers(w1, w2, asked)
  {
    assert w1.docs[w1.own] == w2.docs[w2.own];
    forall i | 0 <= i < |asked| ensures Ask(w1, asked[i]) == Ask(w2, asked[i]) {
      assert asked[i] in asked;
      QuestionIsCovered(c1, w1, asked, probes, fs, r.deps, r.globals, c2, w2, i);
    }
  }

  /** The documents, and for some targets that failed to render one as well. */
  ghost predicate Completes(ctx: Ctx, docs: map<string, Json>, more: map<string, Json>) {
    && (forall n :: n in docs ==> n in more && more[n] == docs[n])
    && forall n :: n in more ==> n in docs || n in ctx.unrendered
  }

  /** What is refused as incomplete is exactly what could be told otherwise by a document
      of a target that failed to render. */
  lemma {:induction false} RefusalIsExact(ctx: Ctx, w: World, asked: seq<Question>)
    requires w.own in w.docs && ctx.unrendered !! w.docs.Keys
    ensures !ReadsUnrendered(ctx, asked) <==>
      forall more :: Completes(ctx, w.docs, more) ==> SameAnswers(w, w.(docs := more), asked)
  {
    if !ReadsUnrendered(ctx, asked) {
      forall more | Completes(ctx, w.docs, more) ensures SameAnswers(w, w.(docs := more), asked) {
        forall i | 0 <= i < |asked| ensures Ask(w, asked[i]) == Ask(w.(docs := more), asked[i]) {
          assert asked[i] in asked;
          if asked[i].AllTargets? {
            assert more == w.docs;
          }
        }
      }
    } else {
      var n :| n in ctx.unrendered && (AllTargets in asked || OtherTarget(n) in asked);
      var more := w.docs[n := JNull];
      var q := if AllTargets in asked then AllTargets else OtherTarget(n);
      var i :| 0 <= i < |asked| && asked[i] == q;
      assert n !in w.docs && n in more && Completes(ctx, w.docs, more);
      assert Ask(w, asked[i]) != Ask(w.(docs := more), asked[i]);
      assert !SameAnswers(w, w.(docs := more), asked);
    }
  }

  /** The documents of other targets that were read are what they were. */
  ghost predicate OthersStand(w1: World, w2: World, asked: seq<Question>) {
    if AllTargets in asked then Listed(w1.docs) == Listed(w2.docs)
    else forall n :: OtherTarget(n) in asked && n in w1.docs && n != w1.own ==> n in w2.docs && w2.docs[n] == w1.docs[n]
  }

  /** The paths that were read or probed look as they did. */
  ghost predicate PathsStand(c: Ctx, fs1: Fs, fs2: Fs, asked: seq<Question>, probes: set<Path>) {
    forall p :: (LookAt(p) in asked || p in probes) && c.repoRoot <= p ==> Look(fs1, p) == Look(fs2, p)
  }

  /** A record stands exactly when nothing that was asked has another answer, and the
      target's own files are those that were left: no other change makes it stale. */
  lemma {:induction false} RecordStandsExactly(
    c1: Ctx, w1: World, asked: seq<Question>, probes: set<Path>, fs: Fs, items: seq<ItemRecord>, c2: Ctx, w2: World)
    requires SameSetup(c1, c2) && Faithful(c1.codec) && NamesOk(fs) && NamesOk(w2.fs) && EVERYTHING !in w1.docs
    requires w1.own == w2.own && w1.own in w1.docs && w2.own in w2.docs
    ensures var dir := OutputDir(c2, w2.own);
      UpToDate(c2, w2, Record(c1, w1, asked, probes, fs, items)) <==>
      && c1.engine == c2.engine && c1.configDigest == c2.configDigest && w1.docs[w1.own] == w2.docs[w2.own]
      && PathsStand(c1, fs, w2.fs, asked, probes) && OthersStand(w1, w2, asked)
      && IsDir(w2.fs, dir) && TreeFiles(fs, dir, Nested(c1, w1.own)) == TreeFiles(w2.fs, dir, Nested(c2, w2.own))
  {
    var dir, r := OutputDir(c2, w2.own), Record(c1, w1, asked, probes, fs, items);
    DepsStand(c1, fs, w2.fs, asked, probes);
    GlobalsStand(c1, w1, c2, w2, asked);
    if r.outputDigest == TreeDigest(c2.codec.hash, w2.fs, dir, Nested(c2, w2.own)) {
      TreeDigestDetermines(c1.codec.hash, fs, Nested(c1, w1.own), w2.fs, Nested(c2, w2.own), dir);
    } else if TreeFiles(fs, dir, Nested(c1, w1.own)) == TreeFiles(w2.fs, dir, Nested(c2, w2.own)) {
      SameTreeSameDigest(c1.codec.hash, fs, Nested(c1, w1.own), w2.fs, Nested(c2, w2.own), dir);
    }
  }

  lemma {:induction false} DepsStand(c: Ctx, fs1: Fs, fs2: Fs, asked: seq<Question>, probes: set<Path>)
    requires Faithful(c.codec) && NamesOk(fs1) && NamesOk(fs2)
    ensures var deps := Deps(c, fs1, asked, probes);
      (forall rel :: rel in deps ==> Fingerprint(c.codec.hash, fs2, c.repoRoot + rel) == deps[rel]) <==>
      PathsStand(c, fs1, fs2, asked, probes)
  {
    var deps := Deps(c, fs1, asked, probes);
    if forall rel :: rel in deps ==> Fingerprint(c.codec.hash, fs2, c.repoRoot + rel) == deps[rel] {
      forall p | (LookAt(p) in asked || p in probes) && c.repoRoot <= p ensures Look(fs1, p) == Look(fs2, p) {
        var rel := p[|c.repoRoot|..];
        assert c.repoRoot + rel == p && rel in DepPaths(c, asked, probes);
        FingerprintDetermines(c.codec.hash, fs1, fs2, p);
      }
    }
    if PathsStand(c, fs1, fs2, asked, probes) {
      forall rel | rel in deps ensures Fingerprint(c.codec.hash, fs2, c.repoRoot + rel) == deps[rel] {
        assert c.repoRoot <= c.repoRoot + rel && rel in DepPaths(c, asked, probes);
      }
    }
  }

  lemma {:induction false} GlobalsStand(c1: Ctx, w1: World, c2: Ctx, w2: World, asked: seq<Question>)
    requires SameSetup(c1, c2) && Faithful(c1.codec) && EVERYTHING !in w1.docs && w1.own == w2.own
    ensures var globals := Globals(c1, w1.docs, w1.own, asked);
      && ((forall n :: n in globals ==> GlobalHolds(c2, w2.docs, n, globals[n])) <==> OthersStand(w1, w2, asked))
      && (AllTargets in asked ==> globals.Keys == {"*"})
  {
    var globals := Globals(c1, w1.docs, w1.own, asked);
    if AllTargets in asked {
      EverythingIsListed(c1.codec, w1.docs, w2.docs);
      assert EVERYTHING in globals && forall n :: n in globals ==> n == EVERYTHING;
    } else {
      forall n | n in globals
        ensures GlobalHolds(c2, w2.docs, n, globals[n]) <==> n in w2.docs && w2.docs[n] == w1.docs[n]
      {
        assert n in w2.docs && DocDigest(c2.codec, w2.docs[n]) == DocDigest(c1.codec, w1.docs[n]) ==>
          c1.codec.text(w2.docs[n]) == c1.codec.text(w1.docs[n]);
      }
    }
  }

  lemma QuestionIsCovered(
    c1: Ctx, w1: World, asked: seq<Question>, probes: set<Path>, fs: Fs, deps: map<Path, string>,
    globals: map<string, string>, c2: Ctx, w2: World, i: nat)
    requires SameSetup(c1, c2) && Faithful(c1.codec) && NamesOk(fs) && NamesOk(w2.fs) && i < |asked|
    requires w1.own == w2.own && w1.own in w1.docs && w2.own in w2.docs && w1.docs[w1.own] == w2.docs[w2.own]
    requires EVERYTHING !in w1.docs
    requires AllTargets in asked ==> w1.docs.Keys == w2.docs.Keys
    requires asked[i].LookAt? ==>
      c1.repoRoot <= asked[i].path && Look(w1.fs, asked[i].path) == Look(fs, asked[i].path)
    requires asked[i].OtherTarget? ==> asked[i].name in w1.docs
    requires deps == Deps(c1, fs, asked, probes)
    requires forall rel :: rel in deps ==> Fingerprint(c2.codec.hash, w2.fs, c2.repoRoot + rel) == deps[rel]
    requires globals == Globals(c1, w1.docs, w1.own, asked)
    requires forall n :: n in globals ==> GlobalHolds(c2, w2.docs, n, globals[n])
    ensures Ask(w1, asked[i]) == Ask(w2, asked[i])
  {
    match asked[i]
    case LookAt(p) =>
      PathIsCovered(c1, w1, asked, probes, fs, deps, c2, w2, i);
    case DocKey(_) =>
    case OtherTarget(n) =>
      TargetIsCovered(c1, w1, asked, globals, c2, w2, i);
    case AllTargets =>
      assert asked[i] in asked;
      EverythingIsCovered(c1, w1, asked, globals, c2, w2);
  }

  lemma PathIsCovered(
    c1: Ctx, w1: World, asked: seq<Question>, probes: set<Path>, fs: Fs, deps: map<Path, string>, c2: Ctx,
    w2: World, i: nat)
    requires SameSetup(c1, c2) && Faithful(c1.codec) && NamesOk(fs) && NamesOk(w2.fs)
    requires i < |asked| && asked[i].LookAt?
    requires c1.repoRoot <= asked[i].path && Look(w1.fs, asked[i].path) == Look(fs, asked[i].path)
    requires deps == Deps(c1, fs, asked, probes)
    requires forall rel :: rel in deps ==> Fingerprint(c2.codec.hash, w2.fs, c2.repoRoot + rel) == deps[rel]
    ensures Look(w1.fs, asked[i].path) == Look(w2.fs, asked[i].path)
  {
    var p := asked[i].path;
    var rel := p[|c1.repoRoot|..];
    assert c1.repoRoot + rel == p && asked[i] == LookAt(p) && asked[i] in asked;
    assert rel in DepPaths(c1, asked, probes);
    FingerprintDetermines(c1.codec.hash, fs, w2.fs, p);
  }

  lemma EverythingIsCovered(
    c1: Ctx, w1: World, asked: seq<Question>, globals: map<string, string>, c2: Ctx, w2: World)
    requires SameSetup(c1, c2) && Faithful(c1.codec) && AllTargets in asked
    requires w1.docs.Keys == w2.docs.Keys
    requires globals == Globals(c1, w1.docs, w1.own, asked)
    requires forall n :: n in globals ==> GlobalHolds(c2, w2.docs, n, globals[n])
    ensures w1.docs == w2.docs
  {
    assert EVERYTHING in globals;
    assert EverythingDigest(c2.codec, w2.docs) == EverythingDigest(c1.codec, w2.docs);
    EverythingDetermines(c1.codec, w1.docs, w2.docs);
  }

  lemma TargetIsCovered(
    c1: Ctx, w1: World, asked: seq<Question>, globals: map<string, string>, c2: Ctx, w2: World, i: nat)
    requires SameSetup(c1, c2) && Faithful(c1.codec) && i < |asked| && asked[i].OtherTarget?
    requires asked[i].name in w1.docs && w1.own == w2.own && w1.own in w1.docs && w2.own in w2.docs
    requires w1.docs[w1.own] == w2.docs[w2.own] && EVERYTHING !in w1.docs
    requires AllTargets in asked ==> w1.docs.Keys == w2.docs.Keys
    requires globals == Globals(c1, w1.docs, w1.own, asked)
    requires forall n :: n in globals ==> GlobalHolds(c2, w2.docs, n, globals[n])
    ensures asked[i].name in w2.docs && w2.docs[asked[i].name] == w1.docs[asked[i].name]
  {
    var n := asked[i].name;
    assert asked[i] == OtherTarget(n) && asked[i] in asked;
    if AllTargets in asked {
      EverythingIsCovered(c1, w1, asked, globals, c2, w2);
    } else if n != w1.own {
      assert n in globals && n != EVERYTHING;
      assert DocDigest(c2.codec, w2.docs[n]) == DocDigest(c1.codec, w1.docs[n]);
    }
  }

  /** What is at one place of the target's directory after an install. */
  lemma InstalledAt(fs: Fs, temp: Fs, dir: Path, children: set<string>, rel: Path)
    requires rel != []
    ensures var after, p := Installed(fs, temp, dir, children), dir + rel;
      && (p in after <==> rel in temp || (p in fs && IsKept(children, rel[0])))
      && (p in after ==> after[p] == if rel in temp then temp[rel] else fs[p])
  {
    var p := dir + rel;
    assert p[|dir|..] == rel && [] + rel == rel && p[|dir|] == rel[0];
    assert dir < p && !(p <= dir);
  }

  /** The files of a target's own tree after an install: the fresh ones, and a kept manifest. */
  lemma {:induction false} InstalledTree(fs: Fs, temp: Fs, dir: Path, children: set<string>, rel: Path)
    requires rel != [] && rel[0] !in children
    ensures var tree := TreeFiles(Installed(fs, temp, dir, children), dir, children);
      && (rel in tree <==> if rel in temp then temp[rel].File?
                           else rel[0] == MANIFEST_FILE && dir + rel in fs && fs[dir + rel].File?)
      && (rel in tree ==> tree[rel] == if rel in temp then temp[rel] else fs[dir + rel])
  {
    InstalledAt(fs, temp, dir, children, rel);
  }

  /** Everything the compile wrote below a directory that was nested then is still
      below a nested one. */
  predicate NestedOutputStaysNested(temp: Fs, before: set<string>, now: set<string>) {
    forall rel :: rel in temp && rel != [] && temp[rel].File? && rel[0] in before ==> rel[0] in now
  }

  lemma TreeUnchanged(fs1: Fs, fs2: Fs, temp: Fs, dir: Path, ch1: set<string>, ch2: set<string>)
    requires TreeFiles(fs2, dir, ch2) == TreeFiles(Installed(fs1, temp, dir, ch1), dir, ch1)
    requires NestedOutputStaysNested(temp, ch1, ch2)
    ensures TreeFiles(Installed(fs2, temp, dir, ch2), dir, ch2) == TreeFiles(fs2, dir, ch2)
  {
    var x, y := TreeFiles(Installed(fs2, temp, dir, ch2), dir, ch2), TreeFiles(fs2, dir, ch2);
    forall rel ensures SameAt(x, y, rel) {
      if rel != [] {
        InstalledPlace(fs1, fs2, temp, dir, ch1, ch2, rel);
      }
    }
    SameEverywhere(x, y);
  }

  predicate SameAt(x: map<Path, Entry>, y: map<Path, Entry>, rel: Path) {
    (rel in x <==> rel in y) && (rel in x ==> x[rel] == y[rel])
  }

  lemma SameEverywhere(x: map<Path, Entry>, y: map<Path, Entry>)
    requires forall rel :: SameAt(x, y, rel)
    ensures x == y
  {
    assert forall rel :: SameAt(x, y, rel) ==> (rel in x <==> rel in y) && (rel in x ==> x[rel] == y[rel]);
  }

  lemma InstalledPlace(fs1: Fs, fs2: Fs, temp: Fs, dir: Path, ch1: set<string>, ch2: set<string>, rel: Path)
    requires TreeFiles(fs2, dir, ch2) == TreeFiles(Installed(fs1, temp, dir, ch1), dir, ch1)
    requires NestedOutputStaysNested(temp, ch1, ch2) && rel != []
    ensures SameAt(TreeFiles(Installed(fs2, temp, dir, ch2), dir, ch2), TreeFiles(fs2, dir, ch2), rel)
  {
    if rel[0] !in ch2 {
      InstalledTree(fs2, temp, dir, ch2, rel);
      if rel[0] !in ch1 {
        InstalledTree(fs1, temp, dir, ch1, rel);
      }
    }
  }

  lemma TreeLosesNestedOutput(fs1: Fs, fs2: Fs, temp: Fs, dir: Path, ch1: set<string>, ch2: set<string>)
    requires TreeFiles(fs2, dir, ch2) == TreeFiles(Installed(fs1, temp, dir, ch1), dir, ch1)
    requires !NestedOutputStaysNested(temp, ch1, ch2)
    ensures TreeFiles(Installed(fs2, temp, dir, ch2), dir, ch2) != TreeFiles(fs2, dir, ch2)
  {
    var rel :| rel in temp && rel != [] && temp[rel].File? && rel[0] in ch1 && rel[0] !in ch2;
    InstalledTree(fs2, temp, dir, ch2, rel);
    assert rel in TreeFiles(Installed(fs2, temp, dir, ch2), dir, ch2);
    assert rel !in TreeFiles(Installed(fs1, temp, dir, ch1), dir, ch1);
  }

  /** Everything in a target's directory outside nested targets, directories included. */
  function OwnEntries(fs: Fs, dir: Path, skip: set<string>): map<Path, Entry> {
    map rel | rel in Below(fs, dir) && rel[0] !in skip :: fs[dir + rel]
  }

  /** Every directory the compile made is still there. */
  predicate DirectoriesStand(fs: Fs, temp: Fs, dir: Path, skip: set<string>) {
    forall rel :: rel in temp && rel != [] && temp[rel].Dir? && rel[0] !in skip ==> IsDir(fs, dir + rel)
  }

  /** And no other is there. */
  predicate NoStrayDirectories(fs: Fs, temp: Fs, dir: Path, skip: set<string>) {
    forall rel :: rel in Below(fs, dir) && fs[dir + rel].Dir? && !IsKept(skip, rel[0]) ==> IsDir(temp, rel)
  }

  /** Own entries are own files and own directories. */
  lemma {:induction false} EntriesAreFilesAndDirs(fs1: Fs, fs2: Fs, dir: Path, skip: set<string>)
    ensures OwnEntries(fs1, dir, skip) == OwnEntries(fs2, dir, skip) <==>
      && TreeFiles(fs1, dir, skip) == TreeFiles(fs2, dir, skip)
      && forall rel :: rel != [] && rel[0] !in skip ==> (IsDir(fs1, dir + rel) <==> IsDir(fs2, dir + rel))
  {
    var x, y := OwnEntries(fs1, dir, skip), OwnEntries(fs2, dir, skip);
    if TreeFiles(fs1, dir, skip) == TreeFiles(fs2, dir, skip) {
      if forall rel :: rel != [] && rel[0] !in skip ==> (IsDir(fs1, dir + rel) <==> IsDir(fs2, dir + rel)) {
        forall rel ensures SameAt(x, y, rel) {
          SameEntryThere(fs1, fs2, dir, skip, rel);
        }
        SameEverywhere(x, y);
      }
    }
    if x == y {
      forall rel | rel != [] && rel[0] !in skip ensures rel in x <==> rel in y {}
    }
  }

  lemma SameEntryThere(fs1: Fs, fs2: Fs, dir: Path, skip: set<string>, rel: Path)
    requires TreeFiles(fs1, dir, skip) == TreeFiles(fs2, dir, skip)
    requires rel != [] && rel[0] !in skip ==> (IsDir(fs1, dir + rel) <==> IsDir(fs2, dir + rel))
    ensures SameAt(OwnEntries(fs1, dir, skip), OwnEntries(fs2, dir, skip), rel)
  {
    if rel != [] && rel[0] !in skip {
      var a, b := TreeFiles(fs1, dir, skip), TreeFiles(fs2, dir, skip);
      assert rel in a <==> dir + rel in fs1 && fs1[dir + rel].File?;
      assert rel in b <==> dir + rel in fs2 && fs2[dir + rel].File?;
    }
  }

  /** Installing again over equal files changes no directory exactly when the
      directories there are those of the output. */
  lemma {:induction false} DirectoriesUnchanged(fs: Fs, temp: Fs, dir: Path, skip: set<string>)
    requires TreeFiles(Installed(fs, temp, dir, skip), dir, skip) == TreeFiles(fs, dir, skip)
    ensures OwnEntries(Installed(fs, temp, dir, skip), dir, skip) == OwnEntries(fs, dir, skip) <==>
      DirectoriesStand(fs, temp, dir, skip) && NoStrayDirectories(fs, temp, dir, skip)
  {
    var again := Installed(fs, temp, dir, skip);
    EntriesAreFilesAndDirs(again, fs, dir, skip);
    forall rel | rel != [] && rel[0] !in skip
      ensures IsDir(again, dir + rel) <==>
        if rel in temp then temp[rel].Dir? else rel[0] == MANIFEST_FILE && IsDir(fs, dir + rel)
      ensures rel in temp && temp[rel].File? ==> !IsDir(fs, dir + rel)
    {
      InstalledAt(fs, temp, dir, skip, rel);
      InstalledTree(fs, temp, dir, skip, rel);
    }
  }

  /** Up to date is sound. When nothing contradicts a record, compiling the target
      again asks the same questions and writes the same output. Installing it would
      leave the files outside nested targets as they are exactly when what the compile
      wrote into directories of nested targets is still in such directories; and every
      entry, when moreover the directories there are those of the output. */
  lemma {:induction false} UpToDateIsSound(
    c1: Ctx, w1: World, compiler: (string, string, string) -> Reader<Fs>, asked: seq<Question>, temp: Fs,
    probes: set<Path>, left: Fs, fs: Fs, r: TargetRecord, c2: Ctx, w2: World)
    requires SameSetup(c1, c2) && Faithful(c1.codec) && NamesOk(fs) && NamesOk(w2.fs)
    requires Recorded(c1, w1, compiler(c1.engine, c1.configDigest, w1.own), asked, temp, probes, left, fs, r)
    requires w2.own == w1.own && w2.own in w2.docs
    requires AllTargets in asked ==> w1.docs.Keys == w2.docs.Keys
    requires UpToDate(c2, w2, r)
    ensures Runs(compiler(c2.engine, c2.configDigest, w2.own), w2, asked, temp)
    ensures var dir, nested := OutputDir(c2, w2.own), Nested(c2, w2.own);
      TreeFiles(Installed(w2.fs, temp, dir, nested), dir, nested) == TreeFiles(w2.fs, dir, nested) <==>
      NestedOutputStaysNested(temp, Nested(c1, w1.own), nested)
    ensures var dir, nested := OutputDir(c2, w2.own), Nested(c2, w2.own);
      OwnEntries(Installed(w2.fs, temp, dir, nested), dir, nested) == OwnEntries(w2.fs, dir, nested) <==>
      && NestedOutputStaysNested(temp, Nested(c1, w1.own), nested)
      && DirectoriesStand(w2.fs, temp, dir, nested) && NoStrayDirectories(w2.fs, temp, dir, nested)
  {
    var program := compiler(c1.engine, c1.configDigest, w1.own);
    RecordCoversQuestions(c1, w1, program, asked, temp, probes, left, fs, r, c2, w2);
    SameAnswersSameRun(program, w1, w2, asked, temp);
    var dir, ch1, ch2 := OutputDir(c1, w1.own), Nested(c1, w1.own), Nested(c2, w2.own);
    TreeDigestDetermines(c1.codec.hash, fs, ch1, w2.fs, ch2, dir);
    OutputStands(left, w2.fs, temp, dir, ch1, ch2);
  }

  lemma {:induction false} OutputStands(
    fs1: Fs, fs2: Fs, temp: Fs, dir: Path, ch1: set<string>, ch2: set<string>)
    requires TreeFiles(fs2, dir, ch2) == TreeFiles(Installed(fs1, temp, dir, ch1), dir, ch1)
    ensures TreeFiles(Installed(fs2, temp, dir, ch2), dir, ch2) == TreeFiles(fs2, dir, ch2) <==>
      NestedOutputStaysNested(temp, ch1, ch2)
    ensures OwnEntries(Installed(fs2, temp, dir, ch2), dir, ch2) == OwnEntries(fs2, dir, ch2) <==>
      && NestedOutputStaysNested(temp, ch1, ch2)
      && DirectoriesStand(fs2, temp, dir, ch2) && NoStrayDirectories(fs2, temp, dir, ch2)
  {
    if NestedOutputStaysNested(temp, ch1, ch2) {
      TreeUnchanged(fs1, fs2, temp, dir, ch1, ch2);
      DirectoriesUnchanged(fs2, temp, dir, ch2);
    } else {
      TreeLosesNestedOutput(fs1, fs2, temp, dir, ch1, ch2);
      EntriesAreFilesAndDirs(Installed(fs2, temp, dir, ch2), fs2, dir, ch2);
    }
  }

  // A target `a` writes `n/x`, below the directory of the nested target `a.n`.

  function Before(codec: Codec): Ctx { Ctx(codec, "e", "s", [], ["c"], {["a"], ["a", "n"]}, {}) }

  function After(codec: Codec): Ctx { Before(codec).(targets := {["a"]}) }

  const EmptyOutput: Fs := map[[] := Dir, ["c"] := Dir, ["c", "a"] := Dir]

  const WritesBelowN: Fs := map[[] := Dir, ["n"] := Dir, ["n", "x"] := File(false, "")]

  /** The other case happens: `a.n` is removed from the inventory and its directory
      deleted; `a` is then taken to be up to date, although compiling it again would
      write `n/x`. */
  lemma {:induction false} NestedOutputCanBeLost(codec: Codec, doc: Json, w1: World, w2: World)
    requires w1 == World(EmptyOutput, map["a" := doc, "a.n" := doc], "a")
    requires w2 == World(EmptyOutput, map["a" := doc], "a")
    ensures var c1, c2 := Before(codec), After(codec);
      var first := Installed(w1.fs, WritesBelowN, OutputDir(c1, "a"), Nested(c1, "a"));
      var again := Installed(w2.fs, WritesBelowN, OutputDir(c2, "a"), Nested(c2, "a"));
      && UpToDate(c2, w2, Record(c1, w1, [], {}, first, []))
      && ["n", "x"] !in TreeFiles(w2.fs, OutputDir(c2, "a"), Nested(c2, "a"))
      && ["n", "x"] in TreeFiles(again, OutputDir(c2, "a"), Nested(c2, "a"))
  {
    var c1, c2, dir := Before(codec), After(codec), ["c", "a"];
    PathOfA(c1);
    PathOfA(c2);
    NestedInA(codec);
    NothingThereYet(dir);
    OnlyBelowN();
    LostHere(c1, w1, c2, w2, EmptyOutput, WritesBelowN, dir, ["n", "x"]);
  }

  const EmptyBelowD: Fs := map[[] := Dir, ["d"] := Dir]

  /** And so does the one about directories, which the digest does not contain: a target
      whose output is the empty directory `d` is taken to be up to date when `d` is
      deleted, although compiling it again would make it. */
  lemma {:induction false} EmptyDirectoryCanBeLost(codec: Codec, doc: Json, w: World)
    requires w == World(EmptyOutput, map["a" := doc], "a")
    ensures var c, dir := After(codec), OutputDir(After(codec), "a");
      var first := Installed(w.fs, EmptyBelowD, dir, Nested(c, "a"));
      && UpToDate(c, w, Record(c, w, [], {}, first, []))
      && NestedOutputStaysNested(EmptyBelowD, Nested(c, "a"), Nested(c, "a"))
      && ["d"] !in OwnEntries(w.fs, dir, Nested(c, "a")) && ["d"] in OwnEntries(first, dir, Nested(c, "a"))
  {
    var c, dir := After(codec), ["c", "a"];
    PathOfA(c);
    NestedInA(codec);
    NothingThereYet(dir);
    MissedHere(c, w, EmptyOutput, EmptyBelowD, dir, ["d"]);
  }

  lemma {:induction false} MissedHere(c: Ctx, w: World, fs: Fs, temp: Fs, dir: Path, rel: Path)
    requires w.own in w.docs && w.fs == fs && IsDir(fs, dir) && OutputDir(c, w.own) == dir && Nested(c, w.own) == {}
    requires forall q :: q in temp ==> temp[q].Dir?
    requires forall q :: q != [] ==> dir + q !in fs
    requires rel != [] && rel in temp
    ensures UpToDate(c, w, Record(c, w, [], {}, Installed(fs, temp, dir, {}), []))
    ensures rel !in OwnEntries(fs, dir, {}) && rel in OwnEntries(Installed(fs, temp, dir, {}), dir, {})
  {
    var first := Installed(fs, temp, dir, {});
    NoFileHere(fs, temp, dir);
    SameEmptyTree(c.codec.hash, first, {}, fs, {}, dir);
    NothingContradicts(c, w, c, w, first);
    InstalledAt(fs, temp, dir, {}, rel);
  }

  lemma NoFileHere(fs: Fs, temp: Fs, dir: Path)
    requires forall q :: q in temp ==> temp[q].Dir?
    requires forall q :: q != [] ==> dir + q !in fs
    ensures TreeFiles(Installed(fs, temp, dir, {}), dir, {}) == map[] == TreeFiles(fs, dir, {})
  {
    forall rel ensures rel !in TreeFiles(Installed(fs, temp, dir, {}), dir, {}) {
      if rel != [] {
        InstalledTree(fs, temp, dir, {}, rel);
      }
    }
  }

  lemma LostHere(c1: Ctx, w1: World, c2: Ctx, w2: World, fs: Fs, temp: Fs, dir: Path, rel: Path)
    requires c1.codec == c2.codec && c1.engine == c2.engine && c1.configDigest == c2.configDigest
    requires w1.own in w1.docs && w2.own == w1.own && w2.own in w2.docs && w1.docs[w1.own] == w2.docs[w2.own]
    requires w2.fs == fs && IsDir(fs, dir) && OutputDir(c1, w1.own) == OutputDir(c2, w2.own) == dir
    requires Nested(c1, w1.own) == {"n"} && Nested(c2, w2.own) == {}
    requires forall q :: q in temp && q != [] ==> q[0] == "n"
    requires forall q :: q != [] ==> dir + q !in fs
    requires rel != [] && rel in temp && temp[rel].File?
    ensures UpToDate(c2, w2, Record(c1, w1, [], {}, Installed(fs, temp, dir, {"n"}), []))
    ensures rel !in TreeFiles(fs, dir, {}) && rel in TreeFiles(Installed(fs, temp, dir, {}), dir, {})
  {
    var first := Installed(fs, temp, dir, {"n"});
    NothingOfItsOwn(fs, temp, dir, {"n"});
    assert TreeFiles(fs, dir, {}) == map[];
    SameEmptyTree(c1.codec.hash, first, {"n"}, fs, {}, dir);
    NothingContradicts(c1, w1, c2, w2, first);
    InstalledTree(fs, temp, dir, {}, rel);
  }

  lemma NothingContradicts(c1: Ctx, w1: World, c2: Ctx, w2: World, fs: Fs)
    requires c1.codec == c2.codec && c1.engine == c2.engine && c1.configDigest == c2.configDigest
    requires w1.own in w1.docs && w2.own == w1.own && w2.own in w2.docs && w1.docs[w1.own] == w2.docs[w2.own]
    requires IsDir(w2.fs, OutputDir(c2, w2.own))
    requires TreeDigest(c1.codec.hash, fs, OutputDir(c1, w1.own), Nested(c1, w1.own)) ==
             TreeDigest(c2.codec.hash, w2.fs, OutputDir(c2, w2.own), Nested(c2, w2.own))
    ensures UpToDate(c2, w2, Record(c1, w1, [], {}, fs, []))
  {
  }

  lemma NestedInA(codec: Codec)
    ensures Nested(Before(codec), "a") == {"n"} && Nested(After(codec), "a") == {}
  {
    PathOfA(Before(codec));
    var a, n: Path := ["a"], ["a", "n"];
    assert a < n && n[|a|] == "n" && !(a < a);
  }

  lemma NothingThereYet(dir: Path)
    requires dir == ["c", "a"]
    ensures IsDir(EmptyOutput, dir) && forall rel :: rel != [] ==> dir + rel !in EmptyOutput
  {
    forall rel | rel != [] ensures dir + rel !in EmptyOutput {
      assert |dir + rel| >= 3;
    }
  }

  lemma OnlyBelowN()
    ensures forall q :: q in WritesBelowN && q != [] ==> q[0] == "n"
    ensures ["n", "x"] in WritesBelowN && WritesBelowN[["n", "x"]].File?
  {
  }

  /** A target that writes only into directories of nested targets has no tree of its own. */
  lemma NothingOfItsOwn(fs: Fs, temp: Fs, dir: Path, children: set<string>)
    requires forall q :: q in temp && q != [] ==> q[0] in children
    requires forall q :: q != [] ==> dir + q !in fs
    ensures TreeFiles(Installed(fs, temp, dir, children), dir, children) == map[]
  {
    var tree := TreeFiles(Installed(fs, temp, dir, children), dir, children);
    forall rel ensures rel !in tree {
      if rel != [] {
        if rel[0] !in children {
          InstalledTree(fs, temp, dir, children, rel);
        }
      }
    }
  }

  lemma PathOfA(c: Ctx)
    requires c.compiledDir == ["c"]
    ensures TargetPath("a") == ["a"] && OutputDir(c, "a") == ["c", "a"]
  {
    SplitAtom("a", '.');
  }

  lemma SameEmptyTree(hash: string -> string, fs1: Fs, skip1: set<string>, fs2: Fs, skip2: set<string>, root: Path)
    requires TreeFiles(fs1, root, skip1) == map[] == TreeFiles(fs2, root, skip2)
    ensures TreeDigest(hash, fs1, root, skip1) == TreeDigest(hash, fs2, root, skip2)
  {
    var none: set<Path> := {};
    assert RelTexts(none) == {};
    assert TreeList(fs1, root, skip1) == [] && TreeList(fs2, root, skip2) == [];
  }
}
