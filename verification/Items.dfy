/**
 Reusing a single kadet item (native.rs): its record, when nothing contradicts it, and
 the proof that what is copied then is what evaluating the item would write.
*/
module Items {
  import opened Wrappers
  import opened Digest
  import opened Install
  import opened Readers
  import opened Staleness

  // ---- items and what they write ---------------------------------------------------------

  /** One compile item with one of its inputs. */
  datatype Unit = Unit(raw: Json, input: Path)

  /** A file, relative to the compile root. */
  datatype Written = Written(rel: Path, file: Entry)

  type Files = map<Path, Entry>

  /** What evaluating a unit asked and wrote, in order. */
  datatype Eval = Eval(asked: seq<Question>, writes: seq<Written>)

  predicate WritesFiles(writes: seq<Written>) {
    forall i :: 0 <= i < |writes| ==> writes[i].file.File?
  }

  function Apply(temp: Files, writes: seq<Written>): Files
    decreases |writes|
  {
    if writes == [] then temp else Apply(temp[writes[0].rel := writes[0].file], writes[1..])
  }

  /** The files a unit leaves, when it is the only one. */
  function Outputs(writes: seq<Written>): Files { Apply(map[], writes) }

  lemma {:induction false} ApplyOverrides(temp: Files, writes: seq<Written>)
    ensures Apply(temp, writes) == temp + Outputs(writes)
    decreases |writes|
  {
    if writes != [] {
      var first := writes[0];
      ApplyOverrides(temp[first.rel := first.file], writes[1..]);
      ApplyOverrides(map[first.rel := first.file], writes[1..]);
      assert (map[])[first.rel := first.file] == map[first.rel := first.file];
    }
  }

  lemma {:induction false} OutputsAreFiles(temp: Files, writes: seq<Written>)
    requires WritesFiles(writes) && forall rel :: rel in temp ==> temp[rel].File?
    ensures forall rel :: rel in Apply(temp, writes) ==> Apply(temp, writes)[rel].File?
    decreases |writes|
  {
    if writes != [] {
      OutputsAreFiles(temp[writes[0].rel := writes[0].file], writes[1..]);
    }
  }

  // ---- what the writer itself takes from the document -----------------------------------------

  datatype Style = Literal | Folded | DoubleQuotes

  /** How files are written; unset means the compile settings. */
  datatype Writer = Writer(style: Option<Style>, secrets: Option<Json>)

  function ParseStyle(s: string): Option<Style> {
    match s
    case "literal" => Some(Literal)
    case "folded" => Some(Folded)
    case "double-quotes" => Some(DoubleQuotes)
    case _ => None
  }

  function Parameter(doc: Json, key: string): Option<Json> {
    match doc.Get("parameters")
    case None => None
    case Some(p) => p.Get(key)
  }

  function WriterOf(doc: Json): Writer {
    Writer(
      match Parameter(doc, "multiline_string_style")
      case Some(JString(s)) => ParseStyle(s)
      case _ => None,
      match Parameter(doc, "kapitan")
      case Some(k) => k.Get("secrets")
      case None => None)
  }

  /** An item's evaluation, as a program over what it reads. */
  type Evaluator = (Json, Path, Writer, string) -> Reader<seq<Written>>

  ghost predicate Evaluates(evaluate: Evaluator, w: World, u: Unit, e: Eval)
    requires w.own in w.docs
  {
    Runs(evaluate(u.raw, u.input, WriterOf(w.docs[w.own]), w.own), w, e.asked, e.writes)
  }

  // ---- records ------------------------------------------------------------------------------------

  function ItemDigest(c: Codec, u: Unit): string { DocDigest(c, u.raw) }

  function PartDigest(c: Codec, part: Option<Json>): string {
    match part
    case None => "-"
    case Some(v) => c.hash(c.text(v))
  }

  /** `doc_read_digest` */
  function DocReadDigest(c: Codec, doc: Json, key: string): string { PartDigest(c, DocPart(doc, key)) }

  const WHOLE := "*"

  function DocReads(c: Codec, doc: Json, asked: seq<Question>): map<string, string> {
    if DocKey(WHOLE) in asked then map[WHOLE := DocDigest(c, doc)]
    else map k | k in (set q | q in asked && q.DocKey? :: q.key) :: DocReadDigest(c, doc, k)
  }

  function FilePrint(c: Codec, file: Entry): string
    requires file.File?
  {
    ViewPrint(c.hash, FileView(file))
  }

  function Prints(c: Codec, files: Files): map<Path, string>
    requires forall rel :: rel in files ==> files[rel].File?
  {
    map rel | rel in files :: FilePrint(c, files[rel])
  }

  /** `item_record` */
  function ItemOf(ctx: Ctx, w: World, u: Unit, e: Eval): ItemRecord
    requires w.own in w.docs && WritesFiles(e.writes)
  {
    OutputsAreFiles(map[], e.writes);
    ItemRecord(
      ItemDigest(ctx.codec, u), DocReads(ctx.codec, w.docs[w.own], e.asked), Deps(ctx, w.fs, e.asked, {}),
      Globals(ctx, w.docs, w.own, e.asked), Prints(ctx.codec, Outputs(e.writes)))
  }

  /** Nothing contradicts an item's record. */
  predicate Unchanged(ctx: Ctx, w: World, r: ItemRecord)
    requires w.own in w.docs
  {
    && (forall k :: k in r.docReads ==> DocReadDigest(ctx.codec, w.docs[w.own], k) == r.docReads[k])
    && (forall rel :: rel in r.deps ==> Fingerprint(ctx.codec.hash, w.fs, ctx.repoRoot + rel) == r.deps[rel])
    && (forall n :: n in r.globals ==> GlobalHolds(ctx, w.docs, n, r.globals[n]))
    && (forall rel :: rel in r.outputs ==> Fingerprint(ctx.codec.hash, w.fs, ctx.compiledDir + rel) == r.outputs[rel])
  }

  /** The files `restore_outputs` copies. */
  function Restored(ctx: Ctx, fs: Fs, outputs: map<Path, string>): Files {
    map rel | rel in outputs && ctx.compiledDir + rel in fs :: fs[ctx.compiledDir + rel]
  }

  // ---- a reused item is the item evaluated ---------------------------------------------------------

  /** What the recorded evaluation asked is in its record: paths below the repository,
      other targets that exist; the own document is read as such, never through the
      global inventory. */
  ghost predicate Reported(ctx: Ctx, w: World, asked: seq<Question>) {
    && w.own in w.docs && EVERYTHING !in w.docs
    && (forall p :: LookAt(p) in asked ==> ctx.repoRoot <= p)
    && (forall n :: OtherTarget(n) in asked ==> n in w.docs && n != w.own)
  }

  lemma {:induction false} DocKeyIsCovered(c: Codec, doc1: Json, doc2: Json, asked: seq<Question>, key: string)
    requires Faithful(c) && DocKey(key) in asked
    requires forall k :: k in DocReads(c, doc1, asked) ==> DocReadDigest(c, doc2, k) == DocReads(c, doc1, asked)[k]
    ensures DocPart(doc1, key) == DocPart(doc2, key)
  {
    if DocKey(WHOLE) in asked {
      assert WHOLE in DocReads(c, doc1, asked);
      assert c.text(doc1) == c.text(doc2);
    } else {
      assert DocKey(key).key == key && key in DocReads(c, doc1, asked);
      PartDigestDetermines(c, DocPart(doc1, key), DocPart(doc2, key));
    }
  }

  lemma PartDigestDetermines(c: Codec, a: Option<Json>, b: Option<Json>)
    requires Faithful(c) && PartDigest(c, a) == PartDigest(c, b)
    ensures a == b
  {
  }

  /** The parts of the own document that were asked for are what they were: the whole, a
      parameter, or a member at the top. */
  ghost predicate PartsStand(doc1: Json, doc2: Json, asked: seq<Question>) {
    && (DocKey("*") in asked ==> doc1 == doc2)
    && (forall k :: DocKey("parameters." + k) in asked ==>
          Member(doc1, ["parameters", k]) == Member(doc2, ["parameters", k]))
    && (forall k :: DocKey(k) in asked && k != "*" && !("parameters." <= k) ==> Member(doc1, [k]) == Member(doc2, [k]))
  }

  lemma MemberAt(doc: Json, a: string, b: string)
    ensures Member(doc, [a]) == doc.Get(a)
    ensures Member(doc, [a, b]) == match doc.Get(a) case Some(p) => p.Get(b) case None => None
  {
    assert [a, b][1..] == [b] && [a][1..] == [] && [b][1..] == [];
    match doc.Get(a) {
      case Some(p) => assert Member(p, [b]) == p.Get(b);
      case None =>
    }
  }

  /** What a key names, walked to in the document. */
  lemma KeysName(doc: Json, k: string)
    ensures DocPart(doc, "*") == Some(doc)
    ensures DocPart(doc, "parameters." + k) == Member(doc, ["parameters", k])
    ensures k != "*" && !("parameters." <= k) ==> DocPart(doc, k) == Member(doc, [k])
  {
    var key := "parameters." + k;
    assert key[0] == 'p' && OWN_PARAMETERS <= key && key[|OWN_PARAMETERS|..] == k;
    MemberAt(doc, "parameters", k);
    MemberAt(doc, k, "");
  }

  ghost predicate SameParts(doc1: Json, doc2: Json, asked: seq<Question>) {
    forall k :: DocKey(k) in asked ==> DocPart(doc1, k) == DocPart(doc2, k)
  }

  lemma {:induction false} NamedIfSame(doc1: Json, doc2: Json, asked: seq<Question>)
    requires SameParts(doc1, doc2, asked)
    ensures PartsStand(doc1, doc2, asked)
  {
    if DocKey("*") in asked {
      KeysName(doc1, "*");
      KeysName(doc2, "*");
    }
    forall k | DocKey("parameters." + k) in asked
      ensures Member(doc1, ["parameters", k]) == Member(doc2, ["parameters", k]) {
      KeysName(doc1, k);
      KeysName(doc2, k);
    }
    forall k | DocKey(k) in asked && k != "*" && !("parameters." <= k) ensures Member(doc1, [k]) == Member(doc2, [k]) {
      KeysName(doc1, k);
      KeysName(doc2, k);
    }
  }

  lemma {:induction false} SameIfNamed(doc1: Json, doc2: Json, asked: seq<Question>)
    requires PartsStand(doc1, doc2, asked)
    ensures SameParts(doc1, doc2, asked)
  {
    forall k | DocKey(k) in asked ensures DocPart(doc1, k) == DocPart(doc2, k) {
      var rest := if "parameters." <= k then k[|"parameters."|..] else k;
      assert "parameters." <= k ==> k == "parameters." + rest;
      KeysName(doc1, rest);
      KeysName(doc2, rest);
    }
  }

  /** The recorded digests of the own document hold exactly when these parts stand. */
  lemma {:induction false} DocReadsAreExact(c: Codec, doc1: Json, doc2: Json, asked: seq<Question>)
    requires Faithful(c)
    ensures var held := DocReads(c, doc1, asked);
      && ((forall k :: k in held ==> DocReadDigest(c, doc2, k) == held[k]) <==> PartsStand(doc1, doc2, asked))
      && forall k :: k in held <==> if DocKey("*") in asked then k == "*" else DocKey(k) in asked
  {
    var held := DocReads(c, doc1, asked);
    if forall k :: k in held ==> DocReadDigest(c, doc2, k) == held[k] {
      forall k | DocKey(k) in asked ensures DocPart(doc1, k) == DocPart(doc2, k) {
        DocKeyIsCovered(c, doc1, doc2, asked, k);
      }
      NamedIfSame(doc1, doc2, asked);
    }
    if PartsStand(doc1, doc2, asked) {
      SameIfNamed(doc1, doc2, asked);
    }
  }

  /** So a changed parameter is noticed by the record of an item that read it. */
  lemma {:induction false} ChangedPartIsNoticed(ctx: Ctx, w1: World, u: Unit, e: Eval, w2: World)
    requires Faithful(ctx.codec) && w1.own in w1.docs && w2.own in w2.docs && WritesFiles(e.writes)
    requires Unchanged(ctx, w2, ItemOf(ctx, w1, u, e))
    ensures PartsStand(w1.docs[w1.own], w2.docs[w2.own], e.asked)
  {
    DocReadsAreExact(ctx.codec, w1.docs[w1.own], w2.docs[w2.own], e.asked);
  }

  lemma OtherIsCovered(c1: Ctx, w1: World, asked: seq<Question>, c2: Ctx, w2: World, n: string)
    requires SameSetup(c1, c2) && Faithful(c1.codec) && OtherTarget(n) in asked && w1.own == w2.own
    requires Reported(c1, w1, asked)
    requires AllTargets in asked ==> w1.docs.Keys == w2.docs.Keys
    requires var globals := Globals(c1, w1.docs, w1.own, asked);
      forall m :: m in globals ==> GlobalHolds(c2, w2.docs, m, globals[m])
    ensures n in w2.docs && w2.docs[n] == w1.docs[n]
  {
    var globals := Globals(c1, w1.docs, w1.own, asked);
    if AllTargets in asked {
      EverythingIsCovered(c1, w1, asked, globals, c2, w2);
    } else {
      assert n in globals && n != EVERYTHING;
      assert DocDigest(c2.codec, w2.docs[n]) == DocDigest(c1.codec, w1.docs[n]);
    }
  }

  /** Every question of the recorded evaluation has the answer it had. */
  lemma ItemIsCovered(
    c1: Ctx, w1: World, u: Unit, e: Eval, c2: Ctx, w2: World)
    requires SameSetup(c1, c2) && Faithful(c1.codec) && NamesOk(w1.fs) && NamesOk(w2.fs)
    requires Reported(c1, w1, e.asked) && WritesFiles(e.writes)
    requires w2.own == w1.own && w2.own in w2.docs && (AllTargets in e.asked ==> w1.docs.Keys == w2.docs.Keys)
    requires Unchanged(c2, w2, ItemOf(c1, w1, u, e))
    ensures SameAnswers(w1, w2, e.asked)
  {
    var r := ItemOf(c1, w1, u, e);
    forall i | 0 <= i < |e.asked| ensures Ask(w1, e.asked[i]) == Ask(w2, e.asked[i]) {
      assert e.asked[i] in e.asked;
      match e.asked[i]
      case LookAt(p) =>
        PathIsCovered(c1, w1, e.asked, {}, w1.fs, r.deps, c2, w2, i);
      case DocKey(key) =>
        DocKeyIsCovered(c1.codec, w1.docs[w1.own], w2.docs[w2.own], e.asked, key);
      case OtherTarget(n) =>
        OtherIsCovered(c1, w1, e.asked, c2, w2, n);
      case AllTargets =>
        EverythingIsCovered(c1, w1, e.asked, r.globals, c2, w2);
    }
  }

  /** A fingerprint that is a file's means this file is there. */
  lemma FilePrintDetermines(c: Codec, fs: Fs, p: Path, file: Entry)
    requires Faithful(c) && file.File? && Fingerprint(c.hash, fs, p) == FilePrint(c, file)
    ensures p in fs && fs[p] == file
  {
    TagsDiffer(c.hash, Look(fs, p));
    TagsDiffer(c.hash, FileView(file));
    assert Fingerprint(c.hash, fs, p)[2..] == c.hash(FileText(fs[p])) &&
      FilePrint(c, file)[2..] == c.hash(FileText(file));
    assert FileText(fs[p])[1..] == fs[p].bytes && FileText(file)[1..] == file.bytes;
  }

  lemma RestoredIsOutput(ctx: Ctx, fs: Fs, files: Files)
    requires Faithful(ctx.codec) && forall rel :: rel in files ==> files[rel].File?
    requires forall rel :: rel in files ==>
      Fingerprint(ctx.codec.hash, fs, ctx.compiledDir + rel) == FilePrint(ctx.codec, files[rel])
    ensures Restored(ctx, fs, Prints(ctx.codec, files)) == files
  {
    forall rel | rel in files ensures ctx.compiledDir + rel in fs && fs[ctx.compiledDir + rel] == files[rel] {
      FilePrintDetermines(ctx.codec, fs, ctx.compiledDir + rel, files[rel]);
    }
  }

  /** The record of a reused item is the record evaluating it would give. */
  lemma SameRecord(c1: Ctx, w1: World, u: Unit, e: Eval, c2: Ctx, w2: World)
    requires SameSetup(c1, c2) && Faithful(c1.codec) && NamesOk(w1.fs) && NamesOk(w2.fs)
    requires Reported(c1, w1, e.asked) && WritesFiles(e.writes)
    requires w2.own == w1.own && w2.own in w2.docs && (AllTargets in e.asked ==> w1.docs.Keys == w2.docs.Keys)
    requires Unchanged(c2, w2, ItemOf(c1, w1, u, e))
    ensures ItemOf(c2, w2, u, e) == ItemOf(c1, w1, u, e)
  {
    var r := ItemOf(c1, w1, u, e);
    SameDocReads(c1.codec, w1.docs[w1.own], w2.docs[w2.own], e.asked);
    assert Deps(c2, w2.fs, e.asked, {}) == r.deps by {
      assert DepPaths(c1, e.asked, {}) == DepPaths(c2, e.asked, {});
    }
    SameGlobals(c1, w1, e.asked, c2, w2);
  }

  lemma SameDocReads(c: Codec, doc1: Json, doc2: Json, asked: seq<Question>)
    requires Faithful(c)
    requires forall k :: k in DocReads(c, doc1, asked) ==> DocReadDigest(c, doc2, k) == DocReads(c, doc1, asked)[k]
    ensures DocReads(c, doc2, asked) == DocReads(c, doc1, asked)
  {
    if DocKey(WHOLE) in asked {
      assert WHOLE in DocReads(c, doc1, asked);
    }
  }

  lemma SameGlobals(c1: Ctx, w1: World, asked: seq<Question>, c2: Ctx, w2: World)
    requires SameSetup(c1, c2) && Faithful(c1.codec) && Reported(c1, w1, asked) && w1.own == w2.own
    requires AllTargets in asked ==> w1.docs.Keys == w2.docs.Keys
    requires var globals := Globals(c1, w1.docs, w1.own, asked);
      forall m :: m in globals ==> GlobalHolds(c2, w2.docs, m, globals[m])
    ensures Globals(c2, w2.docs, w2.own, asked) == Globals(c1, w1.docs, w1.own, asked)
  {
    var globals := Globals(c1, w1.docs, w1.own, asked);
    if AllTargets in asked {
      EverythingIsCovered(c1, w1, asked, globals, c2, w2);
    } else {
      forall n | OtherTarget(n) in asked ensures n in w2.docs && w2.docs[n] == w1.docs[n] {
        OtherIsCovered(c1, w1, asked, c2, w2, n);
      }
    }
  }

  /** The recorded outputs are there, as they were written. */
  ghost predicate OutputsStand(ctx: Ctx, fs: Fs, files: Files) {
    forall rel :: rel in files ==> ctx.compiledDir + rel in fs && fs[ctx.compiledDir + rel] == files[rel]
  }

  /** An item is reused exactly when the parts of the document it read, the paths and the
      other targets have not changed, and its own output is what it wrote. */
  lemma {:induction false} ItemStandsExactly(c1: Ctx, w1: World, u: Unit, e: Eval, c2: Ctx, w2: World)
    requires SameSetup(c1, c2) && Faithful(c1.codec) && NamesOk(w1.fs) && NamesOk(w2.fs) && EVERYTHING !in w1.docs
    requires w1.own == w2.own && w1.own in w1.docs && w2.own in w2.docs && WritesFiles(e.writes)
    ensures Unchanged(c2, w2, ItemOf(c1, w1, u, e)) <==>
      && PartsStand(w1.docs[w1.own], w2.docs[w2.own], e.asked)
      && PathsStand(c1, w1.fs, w2.fs, e.asked, {})
      && OthersStand(w1, w2, e.asked)
      && OutputsStand(c2, w2.fs, Outputs(e.writes))
  {
    DocReadsAreExact(c1.codec, w1.docs[w1.own], w2.docs[w2.own], e.asked);
    DepsStand(c1, w1.fs, w2.fs, e.asked, {});
    GlobalsStand(c1, w1, c2, w2, e.asked);
    OutputsAreFiles(map[], e.writes);
    PrintsStand(c2, w2.fs, Outputs(e.writes));
  }

  lemma {:induction false} PrintsStand(ctx: Ctx, fs: Fs, files: Files)
    requires Faithful(ctx.codec) && forall rel :: rel in files ==> files[rel].File?
    ensures var outputs := Prints(ctx.codec, files);
      (forall rel :: rel in outputs ==> Fingerprint(ctx.codec.hash, fs, ctx.compiledDir + rel) == outputs[rel]) <==>
      OutputsStand(ctx, fs, files)
  {
    var outputs := Prints(ctx.codec, files);
    if forall rel :: rel in outputs ==> Fingerprint(ctx.codec.hash, fs, ctx.compiledDir + rel) == outputs[rel] {
      forall rel | rel in files ensures ctx.compiledDir + rel in fs && fs[ctx.compiledDir + rel] == files[rel] {
        FilePrintDetermines(ctx.codec, fs, ctx.compiledDir + rel, files[rel]);
      }
    }
  }

  /** Reuse of one item. When nothing contradicts its record, and the document still
      asks for the same way of writing, evaluating the item now would ask and write the
      same, give the same record, and what is copied is what it would write. */
  lemma {:induction false} ReusedItemIsTheSame(
    evaluate: Evaluator, c1: Ctx, w1: World, u: Unit, e: Eval, c2: Ctx, w2: World)
    requires SameSetup(c1, c2) && Faithful(c1.codec) && NamesOk(w1.fs) && NamesOk(w2.fs)
    requires Reported(c1, w1, e.asked) && WritesFiles(e.writes) && Evaluates(evaluate, w1, u, e)
    requires w2.own == w1.own && w2.own in w2.docs && (AllTargets in e.asked ==> w1.docs.Keys == w2.docs.Keys)
    requires WriterOf(w1.docs[w1.own]) == WriterOf(w2.docs[w2.own])
    requires Unchanged(c2, w2, ItemOf(c1, w1, u, e))
    ensures Evaluates(evaluate, w2, u, e)
    ensures ItemOf(c2, w2, u, e) == ItemOf(c1, w1, u, e)
    ensures Restored(c2, w2.fs, ItemOf(c1, w1, u, e).outputs) == Outputs(e.writes)
  {
    ItemIsCovered(c1, w1, u, e, c2, w2);
    SameAnswersSameRun(evaluate(u.raw, u.input, WriterOf(w1.docs[w1.own]), w1.own), w1, w2, e.asked, e.writes);
    SameRecord(c1, w1, u, e, c2, w2);
    OutputsAreFiles(map[], e.writes);
    RestoredIsOutput(c2, w2.fs, Outputs(e.writes));
  }

  /** What a reused item reports as read: what is in its record. */
  ghost predicate ReportsRecord(ctx: Ctx, r: ItemRecord, asked: seq<Question>) {
    && (forall p :: LookAt(p) in asked <==> ctx.repoRoot <= p && p[|ctx.repoRoot|..] in r.deps)
    && (forall n :: OtherTarget(n) in asked <==> n in r.globals && n != EVERYTHING)
    && (AllTargets in asked <==> EVERYTHING in r.globals)
  }

  /** To the target's own record a reused item adds what evaluating it would add. */
  lemma {:induction false} ReusedReadsAreRecorded(
    ctx: Ctx, w: World, u: Unit, e: Eval, restored: seq<Question>, others: seq<Question>,
    probes: set<Path>)
    requires Reported(ctx, w, e.asked) && WritesFiles(e.writes)
    requires ReportsRecord(ctx, ItemOf(ctx, w, u, e), restored)
    ensures Deps(ctx, w.fs, others + restored, probes) == Deps(ctx, w.fs, others + e.asked, probes)
    ensures Globals(ctx, w.docs, w.own, others + restored) == Globals(ctx, w.docs, w.own, others + e.asked)
  {
    var r := ItemOf(ctx, w, u, e);
    forall rel ensures LookAt(ctx.repoRoot + rel) in restored <==> LookAt(ctx.repoRoot + rel) in e.asked {
      assert (ctx.repoRoot + rel)[|ctx.repoRoot|..] == rel;
      assert rel in r.deps <==> rel in DepPaths(ctx, e.asked, {});
    }
    assert DepPaths(ctx, others + restored, probes) == DepPaths(ctx, others + e.asked, probes);
    if AllTargets !in e.asked {
      assert EVERYTHING !in r.globals;
    } else {
      assert EVERYTHING in r.globals;
    }
  }

  /** The writing settings are the one thing a record does not cover: for all items at
      once, reuse is right exactly when they are unchanged. */
  lemma {:induction false} WritingDecides(
    c1: Ctx, w1: World, u: Unit, e: Eval, c2: Ctx, w2: World)
    requires SameSetup(c1, c2) && Faithful(c1.codec) && NamesOk(w1.fs) && NamesOk(w2.fs)
    requires Reported(c1, w1, e.asked) && WritesFiles(e.writes)
    requires w2.own == w1.own && w2.own in w2.docs && (AllTargets in e.asked ==> w1.docs.Keys == w2.docs.Keys)
    requires Unchanged(c2, w2, ItemOf(c1, w1, u, e))
    ensures (forall evaluate: Evaluator :: Evaluates(evaluate, w1, u, e) ==> Evaluates(evaluate, w2, u, e)) <==>
            WriterOf(w1.docs[w1.own]) == WriterOf(w2.docs[w2.own])
  {
    if WriterOf(w1.docs[w1.own]) == WriterOf(w2.docs[w2.own]) {
      forall evaluate: Evaluator | Evaluates(evaluate, w1, u, e) ensures Evaluates(evaluate, w2, u, e) {
        ReusedItemIsTheSame(evaluate, c1, w1, u, e, c2, w2);
      }
    } else {
      var evaluate := Sensitive(WriterOf(w1.docs[w1.own]), e);
      SensitiveEvaluates(w1, u, e);
      assert evaluate(u.raw, u.input, WriterOf(w2.docs[w2.own]), w2.own)(Answers(w2, e.asked)) ==
        Done(e.writes + EXTRA);
      assert !Evaluates(evaluate, w2, u, e);
    }
  }

  const EXTRA: seq<Written> := [Written([], File(false, ""))]

  function Replay(e: Eval): Reader<seq<Written>> {
    got => if |got| < |e.asked| then Next(e.asked[|got|]) else Done(e.writes)
  }

  /** An item whose files show how they were to be written. */
  function Sensitive(writer: Writer, e: Eval): Evaluator {
    (raw, input, now, own) => if now == writer then Replay(e) else got => Done(e.writes + EXTRA)
  }

  lemma SensitiveEvaluates(w: World, u: Unit, e: Eval)
    requires w.own in w.docs
    ensures Evaluates(Sensitive(WriterOf(w.docs[w.own]), e), w, u, e)
  {
  }

  function Styled(style: string): Json {
    JObject(map["parameters" := JObject(map["multiline_string_style" := JString(style)])])
  }

  /** What the settings are, walked to in the document. */
  lemma SettingsAre(doc: Json)
    ensures WriterOf(doc).secrets == Member(doc, ["parameters", "kapitan", "secrets"])
    ensures WriterOf(doc).style ==
      match Member(doc, ["parameters", "multiline_string_style"])
      case Some(JString(s)) =>
        if s == "literal" then Some(Literal) else if s == "folded" then Some(Folded)
        else if s == "double-quotes" then Some(DoubleQuotes) else None
      case _ => None
  {
    assert ["parameters", "multiline_string_style"][1..] == ["multiline_string_style"];
    assert ["parameters", "kapitan", "secrets"][1..] == ["kapitan", "secrets"];
    assert ["kapitan", "secrets"][1..] == ["secrets"];
    assert ["multiline_string_style"][1..] == [] && ["secrets"][1..] == [];
  }

  /** And they do change without a record noticing: of two documents that differ in
      `multiline_string_style` alone, a record with no reads holds for both. */
  lemma {:induction false} StyleIsNotSeen(ctx: Ctx, w1: World, u: Unit, w2: World)
    requires w1.own in w1.docs && w2.own in w2.docs
    requires w1.docs[w1.own] == Styled("literal") && w2.docs[w2.own] == Styled("folded")
    ensures Unchanged(ctx, w2, ItemOf(ctx, w1, u, Eval([], [])))
    ensures WriterOf(w1.docs[w1.own]) != WriterOf(w2.docs[w2.own])
  {
    var d1, d2 := w1.docs[w1.own], w2.docs[w2.own];
    assert Parameter(d1, "multiline_string_style") == Some(JString("literal"));
    assert Parameter(d2, "multiline_string_style") == Some(JString("folded"));
    assert WriterOf(d1).style == Some(Literal) && WriterOf(d2).style == Some(Folded);
  }

  function Secret(secrets: Json): Json {
    JObject(map["parameters" := JObject(map["kapitan" := JObject(map["secrets" := secrets])])])
  }

  /** Nor does it notice other secrets. */
  lemma {:induction false} SecretsAreNotSeen(ctx: Ctx, w1: World, u: Unit, w2: World, a: Json, b: Json)
    requires w1.own in w1.docs && w2.own in w2.docs && a != b
    requires w1.docs[w1.own] == Secret(a) && w2.docs[w2.own] == Secret(b)
    ensures Unchanged(ctx, w2, ItemOf(ctx, w1, u, Eval([], [])))
    ensures WriterOf(w1.docs[w1.own]) != WriterOf(w2.docs[w2.own])
  {
    assert WriterOf(Secret(a)).secrets == Some(a) && WriterOf(Secret(b)).secrets == Some(b);
  }
}
