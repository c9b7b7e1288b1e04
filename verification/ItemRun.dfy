/**
 A kadet compile over all items (native.rs): the loop that matches each input of each
 item with the first unmatched record of its digest, restores or evaluates it, and
 the proof that this leaves the files and the records of evaluating everything.
*/
module ItemRun {
  import opened Wrappers
  import opened Digest
  import opened Readers
  import opened Staleness
  import opened Items

  // ---- matching by digest and position ----------------------------------------------------

  function Count<T(==)>(s: seq<T>, x: T): nat {
    if s == [] then 0 else Count(s[..|s| - 1], x) + if s[|s| - 1] == x then 1 else 0
  }

  lemma {:induction false} CountAppend<T>(a: seq<T>, b: seq<T>, x: T)
    ensures Count(a + b, x) == Count(a, x) + Count(b, x)
    decreases |b|
  {
    if b == [] {
      assert a + b == a;
    } else {
      assert (a + b)[..|a + b| - 1] == a + b[..|b| - 1];
      CountAppend(a, b[..|b| - 1], x);
    }
  }

  predicate Free(previous: seq<ItemRecord>, matched: seq<bool>, digest: string, j: nat)
    requires |matched| == |previous| && j < |previous|
  {
    !matched[j] && previous[j].itemDigest == digest
  }

  /** The first record of this digest that is not matched yet, from `i` on. */
  function FirstFree(previous: seq<ItemRecord>, matched: seq<bool>, digest: string, i: nat): (r: Option<nat>)
    requires |matched| == |previous| && i <= |previous|
    ensures match r
      case Some(j) =>
        i <= j < |previous| && Free(previous, matched, digest, j) &&
        forall k :: i <= k < j ==> !Free(previous, matched, digest, k)
      case None => forall k :: i <= k < |previous| ==> !Free(previous, matched, digest, k)
    decreases |previous| - i
  {
    if i == |previous| then None
    else if Free(previous, matched, digest, i) then Some(i)
    else FirstFree(previous, matched, digest, i + 1)
  }

  // ---- one unit after the other ------------------------------------------------------------------

  datatype Progress = Progress(temp: Files, matched: seq<bool>, records: seq<ItemRecord>, reused: nat)

  function Start(previous: seq<ItemRecord>): Progress { Progress(map[], seq(|previous|, _ => false), [], 0) }

  /** What evaluating each unit now would ask and write. */
  type Evals = Unit -> Eval

  ghost predicate EvalsWriteFiles(run: Evals) { forall u :: WritesFiles(run(u).writes) }

  function Restore(ctx: Ctx, w: World, s: Progress, j: nat, previous: ItemRecord): Progress
    requires j < |s.matched|
  {
    Progress(s.temp + Restored(ctx, w.fs, previous.outputs), s.matched[j := true], s.records + [previous], s.reused + 1)
  }

  function Evaluate(ctx: Ctx, w: World, s: Progress, matched: seq<bool>, u: Unit, e: Eval): Progress
    requires w.own in w.docs && WritesFiles(e.writes)
  {
    Progress(Apply(s.temp, e.writes), matched, s.records + [ItemOf(ctx, w, u, e)], s.reused)
  }

  function CompileUnit(ctx: Ctx, w: World, e: Eval, previous: seq<ItemRecord>, s: Progress, u: Unit): (r: Progress)
    requires w.own in w.docs && WritesFiles(e.writes) && |s.matched| == |previous|
    ensures |r.matched| == |previous|
  {
    match FirstFree(previous, s.matched, ItemDigest(ctx.codec, u), 0)
    case None => Evaluate(ctx, w, s, s.matched, u, e)
    case Some(j) =>
      if Unchanged(ctx, w, previous[j]) then Restore(ctx, w, s, j, previous[j])
      else Evaluate(ctx, w, s, s.matched[j := true], u, e)
  }

  /** Compiling one unit, as a step. */
  function Compiling(ctx: Ctx, w: World, run: Evals, previous: seq<ItemRecord>): (Progress, Unit) -> Progress {
    (s: Progress, u: Unit) =>
      if w.own in w.docs && WritesFiles(run(u).writes) && |s.matched| == |previous|
      then CompileUnit(ctx, w, run(u), previous, s, u) else s
  }

  function CompileUnits(step: (Progress, Unit) -> Progress, s: Progress, units: seq<Unit>): Progress
    decreases |units|
  {
    if units == [] then s else CompileUnits(step, step(s, units[0]), units[1..])
  }

  /** Evaluating everything: the files, and the records. */
  function AllWritten(temp: Files, run: Evals, units: seq<Unit>): Files
    decreases |units|
  {
    if units == [] then temp else AllWritten(Apply(temp, run(units[0]).writes), run, units[1..])
  }

  function AllRecords(ctx: Ctx, w: World, run: Evals, units: seq<Unit>): (r: seq<ItemRecord>)
    requires w.own in w.docs && EvalsWriteFiles(run)
    ensures |r| == |units| && forall i :: 0 <= i < |r| ==> r[i] == ItemOf(ctx, w, units[i], run(units[i]))
  {
    seq(|units|, i requires 0 <= i < |units| => ItemOf(ctx, w, units[i], run(units[i])))
  }

  /** `kadet` arm of `compile_item`, over all items. */
  class Compile {
    var temp: Files
    var matched: seq<bool>
    var items: seq<ItemRecord>
    var reused: nat

    ghost function State(): Progress reads this { Progress(temp, matched, items, reused) }

    constructor (previous: seq<ItemRecord>)
      ensures State() == Start(previous)
    {
      temp, matched, items, reused := map[], seq(|previous|, _ => false), [], 0;
    }

    /** `reusable`: the record is matched whether or not it can be used. */
    method Reusable(ctx: Ctx, w: World, previous: seq<ItemRecord>, digest: string) returns (found: Option<ItemRecord>)
      requires w.own in w.docs && |matched| == |previous|
      modifies this`matched
      ensures var free := FirstFree(previous, old(matched), digest, 0);
        && matched == (if free.Some? then old(matched)[free.value := true] else old(matched))
        && found == (if free.Some? && Unchanged(ctx, w, previous[free.value]) then Some(previous[free.value]) else None)
    {
      var i := 0;
      while i < |previous| && !(!matched[i] && previous[i].itemDigest == digest)
        invariant 0 <= i <= |previous| && matched == old(matched)
        invariant FirstFree(previous, matched, digest, 0) == FirstFree(previous, matched, digest, i)
      {
        i := i + 1;
      }
      if i == |previous| {
        return None;
      }
      matched := matched[i := true];
      var holds := Unchanged(ctx, w, previous[i]);
      found := if holds then Some(previous[i]) else None;
    }

    method RestoreOutputs(ctx: Ctx, w: World, outputs: map<Path, string>)
      modifies this`temp
      ensures temp == old(temp) + Restored(ctx, w.fs, outputs)
    {
      var todo := outputs.Keys;
      NothingRestored(ctx, w.fs, outputs, temp);
      while todo != {}
        invariant todo <= outputs.Keys
        invariant temp == old(temp) + RestoredBut(ctx, w.fs, outputs, todo)
        decreases |todo|
      {
        var rel :| rel in todo;
        if ctx.compiledDir + rel in w.fs {
          temp := temp[rel := w.fs[ctx.compiledDir + rel]];
        }
        OneRestoredMore(ctx, w.fs, outputs, todo, rel, old(temp));
        todo := todo - {rel};
      }
      AllRestored(ctx, w.fs, outputs);
    }

    method WriteOutputs(c: Codec, writes: seq<Written>) returns (outputs: map<Path, string>)
      requires WritesFiles(writes)
      modifies this`temp
      ensures temp == Apply(old(temp), writes)
      ensures (forall rel :: rel in Outputs(writes) ==> Outputs(writes)[rel].File?) &&
        outputs == Prints(c, Outputs(writes))
    {
      ghost var files: Files := map[];
      outputs := map[];
      for i := 0 to |writes|
        invariant Apply(temp, writes[i..]) == Apply(old(temp), writes)
        invariant Apply(files, writes[i..]) == Outputs(writes)
        invariant forall rel :: rel in files ==> files[rel].File?
        invariant outputs == Prints(c, files)
      {
        assert writes[i..][0] == writes[i] && writes[i..][1..] == writes[i + 1..];
        temp := temp[writes[i].rel := writes[i].file];
        outputs := outputs[writes[i].rel := FilePrint(c, writes[i].file)];
        files := files[writes[i].rel := writes[i].file];
      }
    }

    method Unit(ctx: Ctx, w: World, run: Evals, previous: seq<ItemRecord>, u: Unit)
      requires w.own in w.docs && EvalsWriteFiles(run) && |matched| == |previous|
      modifies this
      ensures State() == CompileUnit(ctx, w, run(u), previous, old(State()), u)
    {
      var record: ItemRecord;
      var found := Reusable(ctx, w, previous, ItemDigest(ctx.codec, u));
      match found {
        case Some(p) =>
          RestoreOutputs(ctx, w, p.outputs);
          reused := reused + 1;
          record := p;
        case None =>
          var e := run(u);
          var outputs := WriteOutputs(ctx.codec, e.writes);
          record := ItemRecord(
            ItemDigest(ctx.codec, u), DocReads(ctx.codec, w.docs[w.own], e.asked), Deps(ctx, w.fs, e.asked, {}),
            Globals(ctx, w.docs, w.own, e.asked), outputs);
      }
      items := items + [record];
    }

    method Units(ctx: Ctx, w: World, run: Evals, previous: seq<ItemRecord>, units: seq<Unit>)
      requires w.own in w.docs && EvalsWriteFiles(run) && |matched| == |previous|
      modifies this
      ensures State() == CompileUnits(Compiling(ctx, w, run, previous), old(State()), units)
    {
      ghost var step := Compiling(ctx, w, run, previous);
      for i := 0 to |units|
        invariant |matched| == |previous|
        invariant CompileUnits(step, State(), units[i..]) == CompileUnits(step, old(State()), units)
      {
        assert units[i..][0] == units[i] && units[i..][1..] == units[i + 1..];
        Unit(ctx, w, run, previous, units[i]);
      }
    }
  }

  function RestoredBut(ctx: Ctx, fs: Fs, outputs: map<Path, string>, todo: set<Path>): Files {
    Restored(ctx, fs, outputs) - todo
  }

  lemma NothingRestored(ctx: Ctx, fs: Fs, outputs: map<Path, string>, base: Files)
    ensures base + RestoredBut(ctx, fs, outputs, outputs.Keys) == base
  {
    assert RestoredBut(ctx, fs, outputs, outputs.Keys) == map[];
  }

  lemma AllRestored(ctx: Ctx, fs: Fs, outputs: map<Path, string>)
    ensures RestoredBut(ctx, fs, outputs, {}) == Restored(ctx, fs, outputs)
  {
  }

  lemma OneRestoredMore(ctx: Ctx, fs: Fs, outputs: map<Path, string>, todo: set<Path>, rel: Path, base: Files)
    requires rel in todo && todo <= outputs.Keys
    ensures base + RestoredBut(ctx, fs, outputs, todo - {rel}) ==
      if ctx.compiledDir + rel in fs then (base + RestoredBut(ctx, fs, outputs, todo))[rel := fs[ctx.compiledDir + rel]]
      else base + RestoredBut(ctx, fs, outputs, todo)
  {
    var all, p := Restored(ctx, fs, outputs), ctx.compiledDir + rel;
    if p in fs {
      assert all - (todo - {rel}) == (all - todo)[rel := fs[p]];
      AddThenSet(base, all - todo, rel, fs[p]);
    } else {
      assert all - (todo - {rel}) == all - todo;
    }
  }

  lemma AddThenSet(a: Files, b: Files, rel: Path, file: Entry)
    ensures a + b[rel := file] == (a + b)[rel := file]
  {
  }

  // ---- which record a unit is matched with ------------------------------------------------------------

  function Raws(units: seq<Unit>): (r: seq<Json>)
    ensures |r| == |units| && forall i :: 0 <= i < |r| ==> r[i] == units[i].raw
  {
    seq(|units|, i requires 0 <= i < |units| => units[i].raw)
  }

  /** How often this item came up before position `j`. */
  function Before(units: seq<Unit>, j: nat, raw: Json): nat
    requires j <= |units|
  {
    Count(Raws(units)[..j], raw)
  }

  lemma BeforeGrows(units: seq<Unit>, i: nat, raw: Json)
    requires i < |units|
    ensures Before(units, i + 1, raw) == Before(units, i, raw) + if units[i].raw == raw then 1 else 0
  {
    assert Raws(units)[..i + 1][..i] == Raws(units)[..i];
  }

  lemma {:induction false} BeforeIsMonotone(units: seq<Unit>, i: nat, j: nat, raw: Json)
    requires i <= j <= |units|
    ensures Before(units, i, raw) <= Before(units, j, raw)
    decreases j
  {
    if i < j {
      BeforeIsMonotone(units, i, j - 1, raw);
      BeforeGrows(units, j - 1, raw);
    }
  }

  predicate SameOccurrence(before: seq<Unit>, j: nat, now: seq<Unit>, i: nat)
    requires i < |now| && j < |before|
  {
    now[i].raw == before[j].raw && Before(now, i, now[i].raw) == Before(before, j, before[j].raw)
  }

  /** The `n`-th time an item comes up it has the input it had the `n`-th time then. */
  ghost predicate SameInputs(before: seq<Unit>, now: seq<Unit>) {
    forall i, j :: 0 <= i < |now| && 0 <= j < |before| && SameOccurrence(before, j, now, i) ==> now[i] == before[j]
  }

  /** A record is matched once its item came up often enough among the first `i` units. */
  ghost predicate Matching(before: seq<Unit>, matched: seq<bool>, now: seq<Unit>, i: nat)
    requires i <= |now|
  {
    |matched| == |before| &&
    forall j :: 0 <= j < |before| ==> (matched[j] <==> Before(before, j, before[j].raw) < Before(now, i, before[j].raw))
  }

  /** The record matched is the one of the same occurrence of the item, if there is one. */
  lemma {:induction false} MatchStep(
    c: Codec, before: seq<Unit>, previous: seq<ItemRecord>, matched: seq<bool>, now: seq<Unit>, i: nat)
    requires Faithful(c) && i < |now| && Matching(before, matched, now, i)
    requires |previous| == |before| && forall j :: 0 <= j < |previous| ==>
      previous[j].itemDigest == ItemDigest(c, before[j])
    ensures var free := FirstFree(previous, matched, ItemDigest(c, now[i]), 0);
      && (forall j :: 0 <= j < |before| ==> (SameOccurrence(before, j, now, i) <==> free == Some(j)))
      && Matching(before, if free.Some? then matched[free.value := true] else matched, now, i + 1)
  {
    var digest := ItemDigest(c, now[i]);
    var free := FirstFree(previous, matched, digest, 0);
    forall j | 0 <= j < |before| ensures Free(previous, matched, digest, j) <==>
      before[j].raw == now[i].raw && Before(now, i, now[i].raw) <= Before(before, j, now[i].raw)
    {
      assert before[j].raw == now[i].raw <==> previous[j].itemDigest == digest;
    }
    if free.Some? {
      FirstIsExact(before, previous, matched, now, i, digest, free.value);
    }
    forall j | 0 <= j < |before| && SameOccurrence(before, j, now, i) ensures free == Some(j) {
      assert Free(previous, matched, digest, j);
      if free.value != j {
        OtherOccurrence(before, j, free.value, now[i].raw);
      }
    }
    StillMatching(before, matched, now, i, free);
  }

  lemma {:induction false} StillMatching(
    before: seq<Unit>, matched: seq<bool>, now: seq<Unit>, i: nat, free: Option<nat>)
    requires i < |now| && Matching(before, matched, now, i) && (free.Some? ==> free.value < |before|)
    requires forall j :: 0 <= j < |before| ==> (SameOccurrence(before, j, now, i) <==> free == Some(j))
    ensures Matching(before, if free.Some? then matched[free.value := true] else matched, now, i + 1)
  {
    var m := if free.Some? then matched[free.value := true] else matched;
    forall j | 0 <= j < |before|
      ensures m[j] <==> Before(before, j, before[j].raw) < Before(now, i + 1, before[j].raw)
    {
      BeforeGrows(now, i, before[j].raw);
      assert SameOccurrence(before, j, now, i) <==> free == Some(j);
    }
  }

  lemma FirstIsExact(
    before: seq<Unit>, previous: seq<ItemRecord>, matched: seq<bool>, now: seq<Unit>, i: nat, digest: string, j: nat)
    requires i < |now| && |matched| == |previous| == |before| && j < |before|
    requires forall k :: 0 <= k < |before| ==> (Free(previous, matched, digest, k) <==>
      before[k].raw == now[i].raw && Before(now, i, now[i].raw) <= Before(before, k, now[i].raw))
    requires Free(previous, matched, digest, j) && forall k :: 0 <= k < j ==> !Free(previous, matched, digest, k)
    ensures Before(before, j, now[i].raw) == Before(now, i, now[i].raw)
  {
    NotMoreThan(before, j, now[i].raw, Before(now, i, now[i].raw));
  }

  lemma {:induction false} NotMoreThan(units: seq<Unit>, j: nat, x: Json, c: nat)
    requires j <= |units| && forall k :: 0 <= k < j && units[k].raw == x ==> Before(units, k, x) < c
    ensures Before(units, j, x) <= c
    decreases j
  {
    if j > 0 {
      BeforeGrows(units, j - 1, x);
      NotMoreThan(units, j - 1, x, c);
    }
  }

  lemma OtherOccurrence(units: seq<Unit>, j: nat, k: nat, x: Json)
    requires j < |units| && k < |units| && j != k && units[j].raw == units[k].raw == x
    ensures Before(units, j, x) != Before(units, k, x)
  {
    if j < k {
      BeforeGrows(units, j, x);
      BeforeIsMonotone(units, j + 1, k, x);
    } else {
      BeforeGrows(units, k, x);
      BeforeIsMonotone(units, k + 1, j, x);
    }
  }

  // ---- reuse is evaluation ----------------------------------------------------------------------------------

  /** The records are those of evaluating these units in this world. */
  ghost predicate RecordsOf(
    ctx: Ctx, w: World, evaluate: Evaluator, run: Evals, units: seq<Unit>,
    records: seq<ItemRecord>)
  {
    && w.own in w.docs && NamesOk(w.fs) && EvalsWriteFiles(run)
    && records == AllRecords(ctx, w, run, units)
    && forall i :: 0 <= i < |units| ==>
         Evaluates(evaluate, w, units[i], run(units[i])) && Reported(ctx, w, run(units[i]).asked)
  }

  /** If an item read all targets, they are still the same ones. */
  ghost predicate SameTargetsIfRead(w1: World, run1: Evals, before: seq<Unit>, w2: World) {
    forall u :: u in before && AllTargets in run1(u).asked ==> w1.docs.Keys == w2.docs.Keys
  }

  /** One unit: restored or evaluated, the files and the record are those of evaluating it. */
  lemma UnitIsEvaluated(
    c1: Ctx, w1: World, evaluate: Evaluator, e1: Eval, u: Unit, c2: Ctx, w2: World, e2: Eval)
    requires SameSetup(c1, c2) && Faithful(c1.codec) && NamesOk(w1.fs) && NamesOk(w2.fs)
    requires w1.own in w1.docs && WritesFiles(e1.writes) && WritesFiles(e2.writes)
    requires Evaluates(evaluate, w1, u, e1) && Reported(c1, w1, e1.asked)
    requires w2.own == w1.own && w2.own in w2.docs && (AllTargets in e1.asked ==> w1.docs.Keys == w2.docs.Keys)
    requires WriterOf(w1.docs[w1.own]) == WriterOf(w2.docs[w2.own])
    requires Evaluates(evaluate, w2, u, e2)
    requires Unchanged(c2, w2, ItemOf(c1, w1, u, e1))
    ensures ItemOf(c1, w1, u, e1) == ItemOf(c2, w2, u, e2)
    ensures forall temp: Files :: temp + Restored(c2, w2.fs, ItemOf(c1, w1, u, e1).outputs) == Apply(temp, e2.writes)
  {
    ReusedItemIsTheSame(evaluate, c1, w1, u, e1, c2, w2);
    RunsAgree(
      evaluate(u.raw, u.input, WriterOf(w2.docs[w2.own]), w2.own), w2, e1.asked, e1.writes, e2.asked, e2.writes);
    forall temp: Files ensures temp + Outputs(e2.writes) == Apply(temp, e2.writes) {
      ApplyOverrides(temp, e2.writes);
    }
  }

  /** What is known between two units of a compile that may reuse records. */
  ghost predicate InStep(
    c2: Ctx, w2: World, run2: Evals, before: seq<Unit>, now: seq<Unit>, i: nat, s: Progress)
    requires w2.own in w2.docs && EvalsWriteFiles(run2)
  {
    && i <= |now| && Matching(before, s.matched, now, i)
    && s.records == AllRecords(c2, w2, run2, now[..i])
  }

  /** A unit's step, given that its record, if any is found, is of the same unit. */
  lemma StepIsEvaluated(
    c1: Ctx, w1: World, evaluate: Evaluator, run1: Evals, before: seq<Unit>,
    previous: seq<ItemRecord>, c2: Ctx, w2: World, e2: Eval, s: Progress, u: Unit)
    requires SameSetup(c1, c2) && Faithful(c1.codec)
    requires RecordsOf(c1, w1, evaluate, run1, before, previous)
    requires w2.own == w1.own && w2.own in w2.docs && NamesOk(w2.fs) && SameTargetsIfRead(w1, run1, before, w2)
    requires WriterOf(w1.docs[w1.own]) == WriterOf(w2.docs[w2.own])
    requires WritesFiles(e2.writes) && Evaluates(evaluate, w2, u, e2) && |s.matched| == |previous|
    requires var free := FirstFree(previous, s.matched, ItemDigest(c2.codec, u), 0);
      free.Some? ==> before[free.value] == u
    ensures var t := CompileUnit(c2, w2, e2, previous, s, u);
      t.temp == Apply(s.temp, e2.writes) && t.records == s.records + [ItemOf(c2, w2, u, e2)]
  {
    var free := FirstFree(previous, s.matched, ItemDigest(c2.codec, u), 0);
    if free.Some? {
      if Unchanged(c2, w2, previous[free.value]) {
        assert previous[free.value] == ItemOf(c1, w1, u, run1(u)) && before[free.value] in before;
        UnitIsEvaluated(c1, w1, evaluate, run1(u), u, c2, w2, e2);
      }
    }
  }

  lemma {:induction false} StepKeeps(
    c1: Ctx, w1: World, evaluate: Evaluator, run1: Evals, before: seq<Unit>,
    previous: seq<ItemRecord>, c2: Ctx, w2: World, run2: Evals, now: seq<Unit>, i: nat, s: Progress)
    requires SameSetup(c1, c2) && Faithful(c1.codec)
    requires RecordsOf(c1, w1, evaluate, run1, before, previous)
    requires w2.own == w1.own && w2.own in w2.docs && NamesOk(w2.fs) && SameTargetsIfRead(w1, run1, before, w2)
    requires WriterOf(w1.docs[w1.own]) == WriterOf(w2.docs[w2.own])
    requires EvalsWriteFiles(run2) && i < |now| && Evaluates(evaluate, w2, now[i], run2(now[i]))
    requires SameInputs(before, now) && InStep(c2, w2, run2, before, now, i, s)
    ensures var t := CompileUnit(c2, w2, run2(now[i]), previous, s, now[i]);
      InStep(c2, w2, run2, before, now, i + 1, t) && t.temp == Apply(s.temp, run2(now[i]).writes)
  {
    var u, e := now[i], run2(now[i]);
    MatchedIsSame(c1.codec, before, previous, s.matched, now, i);
    StepIsEvaluated(c1, w1, evaluate, run1, before, previous, c2, w2, e, s, u);
    StepMatches(c2, w2, e, previous, s, u);
    OneRecordMore(c2, w2, run2, now, i);
  }

  lemma {:induction false} MatchedIsSame(
    c: Codec, before: seq<Unit>, previous: seq<ItemRecord>, matched: seq<bool>, now: seq<Unit>, i: nat)
    requires Faithful(c) && SameInputs(before, now) && i < |now| && Matching(before, matched, now, i)
    requires |previous| == |before| && forall j :: 0 <= j < |previous| ==>
      previous[j].itemDigest == ItemDigest(c, before[j])
    ensures var free := FirstFree(previous, matched, ItemDigest(c, now[i]), 0);
      && (free.Some? ==> before[free.value] == now[i])
      && Matching(before, if free.Some? then matched[free.value := true] else matched, now, i + 1)
  {
    MatchStep(c, before, previous, matched, now, i);
    var free := FirstFree(previous, matched, ItemDigest(c, now[i]), 0);
    assert free.Some? ==> SameOccurrence(before, free.value, now, i);
  }

  lemma StepMatches(ctx: Ctx, w: World, e: Eval, previous: seq<ItemRecord>, s: Progress, u: Unit)
    requires w.own in w.docs && WritesFiles(e.writes) && |s.matched| == |previous|
    ensures var free := FirstFree(previous, s.matched, ItemDigest(ctx.codec, u), 0);
      CompileUnit(ctx, w, e, previous, s, u).matched ==
        if free.Some? then s.matched[free.value := true] else s.matched
  {
  }

  lemma OneRecordMore(ctx: Ctx, w: World, run: Evals, units: seq<Unit>, i: nat)
    requires w.own in w.docs && EvalsWriteFiles(run) && i < |units|
    ensures AllRecords(ctx, w, run, units[..i + 1]) ==
      AllRecords(ctx, w, run, units[..i]) + [ItemOf(ctx, w, units[i], run(units[i]))]
  {
  }

  /** A compile whose every step is that of evaluating is an evaluation. */
  lemma {:induction false} StepsWrite(
    step: (Progress, Unit) -> Progress, good: (nat, Progress) -> bool, run: Evals, units: seq<Unit>, i: nat,
    s: Progress)
    requires i <= |units| && good(i, s)
    requires forall k: nat, t: Progress :: k < |units| && good(k, t) ==>
      good(k + 1, step(t, units[k])) && step(t, units[k]).temp == Apply(t.temp, run(units[k]).writes)
    ensures var t := CompileUnits(step, s, units[i..]);
      good(|units|, t) && t.temp == AllWritten(s.temp, run, units[i..])
    decreases |units| - i
  {
    if i < |units| {
      assert units[i..][0] == units[i] && units[i..][1..] == units[i + 1..];
      StepsWrite(step, good, run, units, i + 1, step(s, units[i]));
    }
  }

  /** Reuse preserves output. A compile that reuses records of an earlier one leaves the
      files, overwritten ones included, that evaluating every item leaves; and its
      records are again those of evaluating every item, so the next compile can reuse
      them in turn. */
  lemma {:induction false} ReuseIsEvaluation(
    c1: Ctx, w1: World, evaluate: Evaluator, run1: Evals, before: seq<Unit>,
    previous: seq<ItemRecord>, c2: Ctx, w2: World, run2: Evals, now: seq<Unit>, start: Progress)
    requires SameSetup(c1, c2) && Faithful(c1.codec)
    requires RecordsOf(c1, w1, evaluate, run1, before, previous)
    requires w2.own == w1.own && w2.own in w2.docs && SameTargetsIfRead(w1, run1, before, w2)
    requires WriterOf(w1.docs[w1.own]) == WriterOf(w2.docs[w2.own])
    requires EvalsWriteFiles(run2) && RecordsOf(c2, w2, evaluate, run2, now, AllRecords(c2, w2, run2, now))
    requires SameInputs(before, now)
    requires start == Start(previous)
    ensures var t := CompileUnits(Compiling(c2, w2, run2, previous), start, now);
      && t.temp == AllWritten(map[], run2, now)
      && RecordsOf(c2, w2, evaluate, run2, now, t.records)
  {
    ghost var step := Compiling(c2, w2, run2, previous);
    ghost var good := (i: nat, s: Progress) => InStep(c2, w2, run2, before, now, i, s);
    forall k: nat, t: Progress | k < |now| && good(k, t)
      ensures good(k + 1, step(t, now[k])) && step(t, now[k]).temp == Apply(t.temp, run2(now[k]).writes)
    {
      StepKeeps(c1, w1, evaluate, run1, before, previous, c2, w2, run2, now, k, t);
    }
    NothingMatchedYet(before, start.matched, now);
    assert now[0..] == now && now[..0] == [] && now[..|now|] == now;
    StepsWrite(step, good, run2, now, 0, start);
  }

  lemma NothingMatchedYet(before: seq<Unit>, matched: seq<bool>, now: seq<Unit>)
    requires |matched| == |before| && forall j :: 0 <= j < |matched| ==> !matched[j]
    ensures Matching(before, matched, now, 0)
  {
    forall j | 0 <= j < |before| ensures Before(now, 0, before[j].raw) == 0 {
      assert Raws(now)[..0] == [];
    }
  }

  // ---- when inputs resolve the same way ------------------------------------------------------------------------

  function UnitsOf(raw: Json, inputs: seq<Path>): (r: seq<Unit>)
    ensures |r| == |inputs| && forall i :: 0 <= i < |r| ==> r[i] == Unit(raw, inputs[i])
  {
    seq(|inputs|, i requires 0 <= i < |inputs| => Unit(raw, inputs[i]))
  }

  /** The units of a list of items, each with the inputs it resolves to. */
  function Flattened(items: seq<Json>, inputs: Json -> seq<Path>): seq<Unit> {
    if items == [] then []
    else Flattened(items[..|items| - 1], inputs) + UnitsOf(items[|items| - 1], inputs(items[|items| - 1]))
  }

  lemma {:induction false} CountSame(raw: Json, n: nat, s: seq<Json>, x: Json)
    requires |s| == n && forall i :: 0 <= i < n ==> s[i] == raw
    ensures Count(s, x) == if x == raw then n else 0
    decreases n
  {
    if n > 0 {
      CountSame(raw, n - 1, s[..n - 1], x);
    }
  }

  lemma RawsAppend(a: seq<Unit>, b: seq<Unit>, raw: Json)
    ensures Before(a + b, |a + b|, raw) == Before(a, |a|, raw) + Count(Raws(b), raw)
  {
    assert Raws(a + b)[..|a + b|] == Raws(a) + Raws(b) && Raws(a)[..|a|] == Raws(a);
    CountAppend(Raws(a), Raws(b), raw);
  }

  /** Before any position an item has come up a number of whole times. */
  lemma {:induction false} WholeTimes(items: seq<Json>, inputs: Json -> seq<Path>, raw: Json) returns (times: nat)
    ensures Before(Flattened(items, inputs), |Flattened(items, inputs)|, raw) == Times(times, |inputs(raw)|)
  {
    times := 0;
    if items != [] {
      var last := items[|items| - 1];
      var rest, own := Flattened(items[..|items| - 1], inputs), UnitsOf(last, inputs(last));
      RawsAppend(rest, own, raw);
      CountSame(last, |own|, Raws(own), raw);
      times := WholeTimes(items[..|items| - 1], inputs, raw);
      if raw == last {
        times := times + 1;
      }
    }
  }

  function Times(times: nat, n: nat): nat { if times == 0 then 0 else n + Times(times - 1, n) }

  /** The place of the `k`-th input, counting through the list again and again. */
  function Place(k: nat, n: nat): nat
    requires n > 0
  {
    if k < n then k else Place(k - n, n)
  }

  lemma {:induction false} PlaceOf(times: nat, n: nat, k: nat)
    requires k < n
    ensures Place(Times(times, n) + k, n) == k
    decreases times
  {
    if times > 0 {
      PlaceOf(times - 1, n, k);
    }
  }

  /** So a unit's input follows from how often its item came up before. */
  lemma {:induction false} InputByCount(items: seq<Json>, inputs: Json -> seq<Path>, i: nat)
    requires i < |Flattened(items, inputs)|
    ensures var u := Flattened(items, inputs)[i];
      var n := |inputs(u.raw)|;
      && 0 < n && Place(Before(Flattened(items, inputs), i, u.raw), n) < n
      && u.input == inputs(u.raw)[Place(Before(Flattened(items, inputs), i, u.raw), n)]
  {
    var units := Flattened(items, inputs);
    var last := items[|items| - 1];
    var rest, own := Flattened(items[..|items| - 1], inputs), UnitsOf(last, inputs(last));
    if i < |rest| {
      InputByCount(items[..|items| - 1], inputs, i);
      BeforeInFirst(rest, own, i, units[i].raw);
    } else {
      var times := WholeTimes(items[..|items| - 1], inputs, last);
      BeforeInLast(rest, own, i - |rest|, last);
      PlaceOf(times, |inputs(last)|, i - |rest|);
    }
  }

  lemma BeforeInFirst(a: seq<Unit>, b: seq<Unit>, i: nat, raw: Json)
    requires i <= |a|
    ensures Before(a + b, i, raw) == Before(a, i, raw)
  {
    assert Raws(a + b)[..i] == Raws(a)[..i];
  }

  lemma BeforeInLast(a: seq<Unit>, b: seq<Unit>, k: nat, raw: Json)
    requires k <= |b| && forall i :: 0 <= i < |b| ==> b[i].raw == raw
    ensures Before(a + b, |a| + k, raw) == Before(a, |a|, raw) + k
  {
    assert Raws(a + b)[..|a| + k] == Raws(a) + Raws(b)[..k] && Raws(a)[..|a|] == Raws(a);
    CountAppend(Raws(a), Raws(b)[..k], raw);
    CountSame(raw, k, Raws(b)[..k], raw);
  }

  /** When each item resolves to the inputs it had, records match units of the same input. */
  lemma {:induction false} SameResolutionMatches(items1: seq<Json>, items2: seq<Json>, inputs: Json -> seq<Path>)
    ensures SameInputs(Flattened(items1, inputs), Flattened(items2, inputs))
  {
    var before, now := Flattened(items1, inputs), Flattened(items2, inputs);
    forall i, j | 0 <= i < |now| && 0 <= j < |before| && SameOccurrence(before, j, now, i) ensures now[i] == before[j]
    {
      InputByCount(items1, inputs, j);
      InputByCount(items2, inputs, i);
    }
  }

  // ---- and when they do not ---------------------------------------------------------------------------------------

  /** Of an item that had the input `a` and now has the input `b`, the record of `a` is
      matched: its files are restored, whatever evaluating `b` would write. */
  lemma {:induction false} OtherInputIsRestored(
    c1: Ctx, w1: World, raw: Json, a: Path, b: Path, e: Eval, c2: Ctx, w2: World, run2: Evals)
    requires SameSetup(c1, c2) && Faithful(c1.codec) && w1.own in w1.docs && w2.own in w2.docs
    requires WritesFiles(e.writes) && EvalsWriteFiles(run2)
    requires Unchanged(c2, w2, ItemOf(c1, w1, Unit(raw, a), e))
    ensures var previous, now := [ItemOf(c1, w1, Unit(raw, a), e)], [Unit(raw, b)];
      var t := CompileUnits(Compiling(c2, w2, run2, previous), Start(previous), now);
      && t.temp == Outputs(e.writes) && t.records == previous
      && (t.temp == AllWritten(map[], run2, now) <==> Outputs(e.writes) == Outputs(run2(Unit(raw, b)).writes))
  {
    var r, u := ItemOf(c1, w1, Unit(raw, a), e), Unit(raw, b);
    OneUnit(Compiling(c2, w2, run2, [r]), Start([r]), u);
    OneRecord(c2, w2, run2(u), r, u);
    OneWritten(run2, u);
    OutputsAreFiles(map[], e.writes);
    RestoredIsOutput(c2, w2.fs, Outputs(e.writes));
  }

  lemma OneUnit(step: (Progress, Unit) -> Progress, s: Progress, u: Unit)
    ensures CompileUnits(step, s, [u]) == step(s, u)
  {
    assert [u][1..] == [];
  }

  lemma OneWritten(run: Evals, u: Unit)
    ensures AllWritten(map[], run, [u]) == Outputs(run(u).writes)
  {
    assert [u][1..] == [];
  }

  lemma OneRecord(ctx: Ctx, w: World, e: Eval, r: ItemRecord, u: Unit)
    requires w.own in w.docs && WritesFiles(e.writes)
    requires r.itemDigest == ItemDigest(ctx.codec, u) && Unchanged(ctx, w, r)
    ensures CompileUnit(ctx, w, e, [r], Start([r]), u) == Progress(Restored(ctx, w.fs, r.outputs), [true], [r], 1)
  {
    var s := Start([r]);
    assert s.matched == [false] && FirstFree([r], s.matched, ItemDigest(ctx.codec, u), 0) == Some(0);
    assert s.matched[0 := true] == [true] && s.temp + Restored(ctx, w.fs, r.outputs) == Restored(ctx, w.fs, r.outputs);
  }

  /** Reusing the records of an earlier compile leaves the files and the records of
      evaluating everything. */
  ghost predicate ReuseIsRight(
    c1: Ctx, w1: World, evaluate: Evaluator, run1: Evals, before: seq<Unit>, c2: Ctx, w2: World, run2: Evals,
    now: seq<Unit>)
  {
    EvalsWriteFiles(run1) && w1.own in w1.docs && EvalsWriteFiles(run2) && w2.own in w2.docs &&
    RecordsOf(c1, w1, evaluate, run1, before, AllRecords(c1, w1, run1, before)) &&
    RecordsOf(c2, w2, evaluate, run2, now, AllRecords(c2, w2, run2, now)) ==>
      var previous := AllRecords(c1, w1, run1, before);
      var t := CompileUnits(Compiling(c2, w2, run2, previous), Start(previous), now);
      t.temp == AllWritten(map[], run2, now) && t.records == AllRecords(c2, w2, run2, now)
  }

  /** Matching by digest and position decides: for all items at once, reuse is right
      exactly when the `n`-th time an item comes up it has the input it had then. */
  lemma {:induction false} InputsDecide(c1: Ctx, w1: World, before: seq<Unit>, c2: Ctx, w2: World, now: seq<Unit>)
    requires SameSetup(c1, c2) && Faithful(c1.codec) && NamesOk(w1.fs) && NamesOk(w2.fs)
    requires w1.own == w2.own && w1.own in w1.docs && w1.docs.Keys == w2.docs.Keys && EVERYTHING !in w1.docs
    requires WriterOf(w1.docs[w1.own]) == WriterOf(w2.docs[w2.own])
    ensures (forall evaluate: Evaluator, run1: Evals, run2: Evals ::
        ReuseIsRight(c1, w1, evaluate, run1, before, c2, w2, run2, now)) <==>
      SameInputs(before, now)
  {
    if SameInputs(before, now) {
      forall evaluate: Evaluator, run1: Evals, run2: Evals
        ensures ReuseIsRight(c1, w1, evaluate, run1, before, c2, w2, run2, now)
      {
        RightIfSameInputs(c1, w1, evaluate, run1, before, c2, w2, run2, now);
      }
    } else {
      var i, j :| 0 <= i < |now| && 0 <= j < |before| && SameOccurrence(before, j, now, i) && now[i] != before[j];
      var run := Marking(now[i]);
      WrongRecord(c1, w1, before, c2, w2, now, i, j);
      assert !ReuseIsRight(c1, w1, Marker(now[i]), run, before, c2, w2, run, now);
    }
  }

  lemma {:induction false} RightIfSameInputs(
    c1: Ctx, w1: World, evaluate: Evaluator, run1: Evals, before: seq<Unit>, c2: Ctx, w2: World, run2: Evals,
    now: seq<Unit>)
    requires SameSetup(c1, c2) && Faithful(c1.codec) && w1.own == w2.own && w1.docs.Keys == w2.docs.Keys
    requires w1.own in w1.docs && WriterOf(w1.docs[w1.own]) == WriterOf(w2.docs[w2.own])
    requires SameInputs(before, now)
    ensures ReuseIsRight(c1, w1, evaluate, run1, before, c2, w2, run2, now)
  {
    if EvalsWriteFiles(run1) && EvalsWriteFiles(run2) {
      var previous := AllRecords(c1, w1, run1, before);
      if RecordsOf(c1, w1, evaluate, run1, before, previous) &&
         RecordsOf(c2, w2, evaluate, run2, now, AllRecords(c2, w2, run2, now)) {
        ReuseIsEvaluation(c1, w1, evaluate, run1, before, previous, c2, w2, run2, now, Start(previous));
      }
    }
  }

  /** One unit writes a file, all others nothing; nothing is read. */
  function Marking(u: Unit): Evals { (v: Unit) => Eval([], if v == u then EXTRA else []) }

  function Marker(u: Unit): Evaluator {
    (raw: Json, input: Path, writer: Writer, own: string) =>
      (got: seq<Answer>) => Done(if Unit(raw, input) == u then EXTRA else [])
  }

  lemma MarkedRecords(ctx: Ctx, w: World, u: Unit, units: seq<Unit>)
    requires w.own in w.docs && NamesOk(w.fs) && EVERYTHING !in w.docs
    ensures EvalsWriteFiles(Marking(u))
    ensures RecordsOf(ctx, w, Marker(u), Marking(u), units, AllRecords(ctx, w, Marking(u), units))
  {
    forall v: Unit ensures Evaluates(Marker(u), w, v, Marking(u)(v)) {
      assert v == Unit(v.raw, v.input);
    }
  }

  /** The record of a unit that reads and writes nothing always holds, and is no record
      of one that writes. */
  lemma {:induction false} EmptyRecord(c1: Ctx, w1: World, v: Unit, c2: Ctx, w2: World, u: Unit)
    requires w1.own in w1.docs && w2.own in w2.docs
    ensures WritesFiles(EXTRA)
    ensures var r := ItemOf(c1, w1, v, Eval([], []));
      Unchanged(c2, w2, r) && r != ItemOf(c2, w2, u, Eval([], EXTRA))
  {
    assert Outputs([]) == map[];
    assert EXTRA[1..] == [] && [] in Outputs(EXTRA);
    OutputsAreFiles(map[], EXTRA);
    assert [] in ItemOf(c2, w2, u, Eval([], EXTRA)).outputs;
  }

  /** Between two units: the record at place `i`, once it is there, is this one. */
  ghost predicate HasRecord(before: seq<Unit>, now: seq<Unit>, i: nat, r: ItemRecord, k: nat, s: Progress) {
    k <= |now| && Matching(before, s.matched, now, k) && |s.records| == k && (i < k ==> s.records[i] == r)
  }

  lemma {:induction false} RecordStays(
    c2: Ctx, w2: World, run: Evals, before: seq<Unit>, previous: seq<ItemRecord>, now: seq<Unit>, i: nat, j: nat,
    k: nat, s: Progress)
    requires Faithful(c2.codec) && w2.own in w2.docs && EvalsWriteFiles(run) && k < |now|
    requires |previous| == |before| && j < |before| && i < |now| && SameOccurrence(before, j, now, i)
    requires forall m :: 0 <= m < |previous| ==> previous[m].itemDigest == ItemDigest(c2.codec, before[m])
    requires Unchanged(c2, w2, previous[j]) && HasRecord(before, now, i, previous[j], k, s)
    ensures HasRecord(before, now, i, previous[j], k + 1, CompileUnit(c2, w2, run(now[k]), previous, s, now[k]))
  {
    MatchStep(c2.codec, before, previous, s.matched, now, k);
    StepMatches(c2, w2, run(now[k]), previous, s, now[k]);
    if i == k {
      assert FirstFree(previous, s.matched, ItemDigest(c2.codec, now[k]), 0) == Some(j);
    }
  }

  lemma {:induction false} StepsKeep(
    step: (Progress, Unit) -> Progress, good: (nat, Progress) -> bool, units: seq<Unit>, i: nat, s: Progress)
    requires i <= |units| && good(i, s)
    requires forall k: nat, t: Progress :: k < |units| && good(k, t) ==> good(k + 1, step(t, units[k]))
    ensures good(|units|, CompileUnits(step, s, units[i..]))
    decreases |units| - i
  {
    if i < |units| {
      assert units[i..][0] == units[i] && units[i..][1..] == units[i + 1..];
      StepsKeep(step, good, units, i + 1, step(s, units[i]));
    }
  }

  lemma {:induction false} MismatchStays(
    c2: Ctx, w2: World, run: Evals, before: seq<Unit>, previous: seq<ItemRecord>, now: seq<Unit>, i: nat, j: nat)
    requires Faithful(c2.codec) && w2.own in w2.docs && EvalsWriteFiles(run)
    requires |previous| == |before| && j < |before| && i < |now| && SameOccurrence(before, j, now, i)
    requires forall m :: 0 <= m < |previous| ==> previous[m].itemDigest == ItemDigest(c2.codec, before[m])
    requires Unchanged(c2, w2, previous[j])
    ensures var t := CompileUnits(Compiling(c2, w2, run, previous), Start(previous), now);
      |t.records| == |now| && t.records[i] == previous[j]
  {
    ghost var step := Compiling(c2, w2, run, previous);
    ghost var good := (k: nat, s: Progress) => HasRecord(before, now, i, previous[j], k, s);
    forall k: nat, s: Progress | k < |now| && good(k, s) ensures good(k + 1, step(s, now[k])) {
      RecordStays(c2, w2, run, before, previous, now, i, j, k, s);
    }
    NothingMatchedYet(before, Start(previous).matched, now);
    assert now[0..] == now;
    StepsKeep(step, good, now, 0, Start(previous));
  }

  lemma {:induction false} WrongRecord(
    c1: Ctx, w1: World, before: seq<Unit>, c2: Ctx, w2: World, now: seq<Unit>, i: nat, j: nat)
    requires SameSetup(c1, c2) && Faithful(c1.codec) && NamesOk(w1.fs) && NamesOk(w2.fs)
    requires w1.own == w2.own && w1.own in w1.docs && w1.docs.Keys == w2.docs.Keys && EVERYTHING !in w1.docs
    requires i < |now| && j < |before| && SameOccurrence(before, j, now, i) && now[i] != before[j]
    ensures !ReuseIsRight(c1, w1, Marker(now[i]), Marking(now[i]), before, c2, w2, Marking(now[i]), now)
  {
    var run := Marking(now[i]);
    MarkedRecords(c1, w1, now[i], before);
    MarkedRecords(c2, w2, now[i], now);
    var previous, renewed := AllRecords(c1, w1, run, before), AllRecords(c2, w2, run, now);
    assert previous[j] == ItemOf(c1, w1, before[j], Eval([], [])) &&
      renewed[i] == ItemOf(c2, w2, now[i], Eval([], EXTRA));
    EmptyRecord(c1, w1, before[j], c2, w2, now[i]);
    MismatchStays(c2, w2, run, before, previous, now, i, j);
    NotAllRight(c1, w1, Marker(now[i]), run, before, previous, c2, w2, now, renewed, i);
  }

  lemma {:induction false} NotAllRight(
    c1: Ctx, w1: World, evaluate: Evaluator, run: Evals, before: seq<Unit>, previous: seq<ItemRecord>, c2: Ctx,
    w2: World, now: seq<Unit>, renewed: seq<ItemRecord>, i: nat)
    requires EvalsWriteFiles(run) && w1.own in w1.docs && w2.own in w2.docs && i < |now|
    requires previous == AllRecords(c1, w1, run, before) && renewed == AllRecords(c2, w2, run, now)
    requires RecordsOf(c1, w1, evaluate, run, before, previous) && RecordsOf(c2, w2, evaluate, run, now, renewed)
    requires var t := CompileUnits(Compiling(c2, w2, run, previous), Start(previous), now);
      |t.records| == |now| && t.records[i] != renewed[i]
    ensures !ReuseIsRight(c1, w1, evaluate, run, before, c2, w2, run, now)
  {
  }

  // ---- how much is reused -----------------------------------------------------------------------------

  /** The record of the same occurrence of this item stands. */
  ghost predicate IsReused(
    ctx: Ctx, w: World, before: seq<Unit>, previous: seq<ItemRecord>, now: seq<Unit>, i: nat)
    requires w.own in w.docs && |previous| == |before| && i < |now|
  {
    exists j :: 0 <= j < |before| && SameOccurrence(before, j, now, i) && Unchanged(ctx, w, previous[j])
  }

  ghost function ReusedFrom(
    ctx: Ctx, w: World, before: seq<Unit>, previous: seq<ItemRecord>, now: seq<Unit>, i: nat): nat
    requires w.own in w.docs && |previous| == |before| && i <= |now|
    decreases |now| - i
  {
    if i == |now| then 0
    else
      (if IsReused(ctx, w, before, previous, now, i) then 1 else 0)
      + ReusedFrom(ctx, w, before, previous, now, i + 1)
  }

  /** A compile reuses exactly the items of which the record stands that they left the same
      time they came up. */
  lemma {:induction false} ReusedExactly(
    ctx: Ctx, w: World, run: Evals, before: seq<Unit>, previous: seq<ItemRecord>, now: seq<Unit>)
    requires Faithful(ctx.codec) && w.own in w.docs && EvalsWriteFiles(run)
    requires |previous| == |before| && forall j :: 0 <= j < |previous| ==>
      previous[j].itemDigest == ItemDigest(ctx.codec, before[j])
    ensures CompileUnits(Compiling(ctx, w, run, previous), Start(previous), now).reused ==
      ReusedFrom(ctx, w, before, previous, now, 0)
  {
    NothingMatchedYet(before, Start(previous).matched, now);
    assert now[0..] == now;
    RestReused(ctx, w, run, before, previous, now, 0, Start(previous));
  }

  lemma {:induction false} RestReused(
    ctx: Ctx, w: World, run: Evals, before: seq<Unit>, previous: seq<ItemRecord>, now: seq<Unit>, i: nat, s: Progress)
    requires Faithful(ctx.codec) && w.own in w.docs && EvalsWriteFiles(run) && i <= |now|
    requires |previous| == |before| && forall j :: 0 <= j < |previous| ==>
      previous[j].itemDigest == ItemDigest(ctx.codec, before[j])
    requires Matching(before, s.matched, now, i)
    ensures CompileUnits(Compiling(ctx, w, run, previous), s, now[i..]).reused ==
      s.reused + ReusedFrom(ctx, w, before, previous, now, i)
    decreases |now| - i
  {
    if i < |now| {
      var next := CompileUnit(ctx, w, run(now[i]), previous, s, now[i]);
      MatchStep(ctx.codec, before, previous, s.matched, now, i);
      assert now[i..][0] == now[i] && now[i..][1..] == now[i + 1..];
      OneReused(ctx, w, run, before, previous, now, i, s);
      RestReused(ctx, w, run, before, previous, now, i + 1, next);
    }
  }

  lemma OneReused(
    ctx: Ctx, w: World, run: Evals, before: seq<Unit>, previous: seq<ItemRecord>, now: seq<Unit>, i: nat, s: Progress)
    requires w.own in w.docs && EvalsWriteFiles(run) && i < |now| && |previous| == |before| == |s.matched|
    requires var free := FirstFree(previous, s.matched, ItemDigest(ctx.codec, now[i]), 0);
      forall j :: 0 <= j < |before| ==> (SameOccurrence(before, j, now, i) <==> free == Some(j))
    ensures CompileUnit(ctx, w, run(now[i]), previous, s, now[i]).reused ==
      s.reused + if IsReused(ctx, w, before, previous, now, i) then 1 else 0
  {
    var free := FirstFree(previous, s.matched, ItemDigest(ctx.codec, now[i]), 0);
    if free.Some? {
      assert SameOccurrence(before, free.value, now, i);
    }
  }
}
