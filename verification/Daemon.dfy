/**
 The daemon's bookkeeping (state.rs) as functions: what one change batch does to
 the specs, the rendered targets, the errors, the index and the history. The
 stateful program is `Server`; the theorems about every run are here.
*/
module Daemon {
  import opened Wrappers
  import opened Values
  import opened ClassLoader
  import opened Footprint
  import opened Rendering

  datatype Summary = Summary(generation: nat, changed: seq<Path>, rerendered: seq<string>, errors: seq<Failure>)

  datatype Inner = Inner(
    specs: seq<TargetSpec>,
    targets: map<string, RenderedTarget>,
    errors: map<string, Failure>,
    index: map<Path, set<string>>,
    generation: nat,
    history: seq<Summary>)

  const Nothing := Inner([], map[], map[], map[], 0, [])

  // ---- rendering many targets -----------------------------------------------------

  type Outcome = Result<RenderedTarget, Failure>

  /** Rendering one target. What follows holds of any deterministic renderer. */
  type Renderer = TargetSpec -> Outcome

  /** Rendering on the current tree. */
  function RenderIn(env: Env, t: Tree): Renderer { s => Render(env, t, s) }

  function Names(specs: seq<TargetSpec>): set<string> {
    set s | s in specs :: s.name
  }

  /** `specs.iter().filter(|s| affected.contains(&s.name))` */
  function Selected(specs: seq<TargetSpec>, affected: set<string>): (r: seq<TargetSpec>)
    ensures forall s :: s in r <==> s in specs && s.name in affected
  {
    if specs == [] then []
    else
      var last := specs[|specs| - 1];
      assert specs == specs[..|specs| - 1] + [last];
      Selected(specs[..|specs| - 1], affected) + if last.name in affected then [last] else []
  }

  /** The outcome for each name, the last spec of a name deciding. */
  function Results(render: Renderer, specs: seq<TargetSpec>): map<string, Outcome> {
    if specs == [] then map[]
    else
      var last := specs[|specs| - 1];
      Results(render, specs[..|specs| - 1])[last.name := render(last)]
  }

  lemma {:induction false} ResultsByName(render: Renderer, specs: seq<TargetSpec>)
    ensures Results(render, specs).Keys == Names(specs)
    ensures NamesAreUnique(specs) ==> forall s :: s in specs ==> Results(render, specs)[s.name] == render(s)
    decreases |specs|
  {
    if specs != [] {
      var init, last := specs[..|specs| - 1], specs[|specs| - 1];
      assert specs == init + [last];
      ResultsByName(render, init);
      assert Names(specs) == Names(init) + {last.name};
      if NamesAreUnique(specs) {
        LastIsNew(specs);
      }
    }
  }

  lemma LastIsNew(specs: seq<TargetSpec>)
    requires specs != [] && NamesAreUnique(specs)
    ensures var init, last := specs[..|specs| - 1], specs[|specs| - 1];
      NamesAreUnique(init) && forall s :: s in init ==> s.name != last.name
  {
    var init, last := specs[..|specs| - 1], specs[|specs| - 1];
    forall s | s in init ensures s.name != last.name {
      var i :| 0 <= i < |init| && init[i] == s;
      assert specs[i] == s;
    }
  }

  /** Rendering a selection gives the same outcomes, for the names selected. */
  lemma {:induction false} SelectedResults(render: Renderer, specs: seq<TargetSpec>, affected: set<string>)
    ensures Results(render, Selected(specs, affected)) ==
            map n | n in Results(render, specs) && n in affected :: Results(render, specs)[n]
    decreases |specs|
  {
    if specs != [] {
      var init, last := specs[..|specs| - 1], specs[|specs| - 1];
      SelectedResults(render, init, affected);
      var picked := Selected(init, affected);
      if last.name in affected {
        assert Selected(specs, affected) == picked + [last];
        assert (picked + [last])[..|picked|] == picked;
      } else {
        assert Selected(specs, affected) == picked;
      }
      RestrictMore(Results(render, init), last.name, render(last), affected);
    }
  }

  lemma RestrictMore<V>(m: map<string, V>, n: string, v: V, names: set<string>)
    ensures (map k | k in m[n := v] && k in names :: m[n := v][k]) ==
            var r := map k | k in m && k in names :: m[k]; if n in names then r[n := v] else r
  {
  }

  /** The targets that rendered. */
  function Good(results: map<string, Outcome>): map<string, RenderedTarget> {
    map n | n in results && results[n].Ok? :: results[n].value
  }

  /** The others, with their errors. */
  function Bad(results: map<string, Outcome>): map<string, Failure> {
    map n | n in results && results[n].Err? :: results[n].error
  }

  /** The errors of a report, in the order of the specs. */
  function ErrorList(render: Renderer, specs: seq<TargetSpec>): seq<Failure> {
    if specs == [] then []
    else
      var last := specs[|specs| - 1];
      ErrorList(render, specs[..|specs| - 1]) + (match render(last) case Err(e) => [e] case Ok(_) => [])
  }

  // ---- the index --------------------------------------------------------------------

  predicate Uses(r: RenderedTarget, p: Path) { p in r.files || p in r.probes }

  function UsersOf(targets: map<string, RenderedTarget>, p: Path): set<string> {
    set n | n in targets && Uses(targets[n], p)
  }

  /** Every path some target uses, with the targets that use it. */
  function IndexOf(targets: map<string, RenderedTarget>): (index: map<Path, set<string>>)
    ensures forall p :: p in index <==> UsersOf(targets, p) != {}
    ensures forall p :: p in index ==> index[p] == UsersOf(targets, p)
  {
    var paths := (set n, p | n in targets && p in targets[n].files :: p)
               + (set n, p | n in targets && p in targets[n].probes :: p);
    assert forall p, n :: n in UsersOf(targets, p) ==> p in paths;
    assert forall p :: p in paths ==> UsersOf(targets, p) != {} by {
      forall p | p in paths ensures UsersOf(targets, p) != {} {
        var n :| n in targets && Uses(targets[n], p);
        assert n in UsersOf(targets, p);
      }
    }
    map p | p in paths :: UsersOf(targets, p)
  }

  // ---- one change batch -----------------------------------------------------------------

  const HISTORY := 200

  function Trim(history: seq<Summary>): seq<Summary> {
    if |history| > HISTORY then history[|history| - HISTORY..] else history
  }

  function NamesInOrder(specs: seq<TargetSpec>): seq<string> {
    seq(|specs|, i requires 0 <= i < |specs| => specs[i].name)
  }

  /** Affected names are rendered again; the others keep what they had. `results`
      says what rendering any current name gives. */
  function TargetsAfter(
    results: map<string, Outcome>, targets: map<string, RenderedTarget>, affected: set<string>)
    : map<string, RenderedTarget>
  {
    map n | n in results && (if n in affected then results[n].Ok? else n in targets)
      :: if n in affected then results[n].value else targets[n]
  }

  function ErrorsAfter(
    results: map<string, Outcome>, errors: map<string, Failure>, affected: set<string>): map<string, Failure>
  {
    map n | n in results && (if n in affected then results[n].Err? else n in errors)
      :: if n in affected then results[n].error else errors[n]
  }

  function SummaryOf(
    render: Renderer, generation: nat, changed: seq<Path>, selected: seq<TargetSpec>): (s: Summary)
    ensures s.generation == generation
  {
    Summary(generation, changed, NamesInOrder(selected), ErrorList(render, selected))
  }

  /** What `rerender` leaves behind. */
  function Rerendered(
    render: Renderer, inner: Inner, changed: seq<Path>, specs: seq<TargetSpec>, affected: set<string>): Inner
  {
    var results := Results(render, specs);
    var targets := TargetsAfter(results, inner.targets, affected);
    var generation := inner.generation + 1;
    Inner(specs, targets, ErrorsAfter(results, inner.errors, affected), IndexOf(targets), generation,
          Trim(inner.history + [SummaryOf(render, generation, changed, Selected(specs, affected))]))
  }

  /** Targets listed under a changed path, under a path above one, or, when the
      changed path is not a file any more, under a path below it. */
  function FromIndex(index: map<Path, set<string>>, t: Tree, changed: seq<Path>): set<string> {
    set c, p, n | c in changed && p in index && (p <= c || (c !in t && c <= p)) && n in index[p] :: n
  }

  function Affected(inner: Inner, t: Tree, changed: seq<Path>, specs: seq<TargetSpec>): set<string> {
    FromIndex(inner.index, t, changed) + inner.errors.Keys + (Names(specs) - Names(inner.specs))
  }

  /** Drops repeated paths (`expand_aliases` without aliases). */
  function Distinct(changed: seq<Path>): (r: seq<Path>)
    ensures forall p :: p in r <==> p in changed
  {
    if changed == [] then []
    else
      var init, last := Distinct(changed[..|changed| - 1]), changed[|changed| - 1];
      assert changed == changed[..|changed| - 1] + [last];
      if last in init then init else init + [last]
  }

  /** A batch of changes, whatever rendering a target gives. */
  function AppliedWith(render: Renderer, env: Env, t: Tree, inner: Inner, changed: seq<Path>): Inner {
    var changed := Distinct(changed);
    Rerendered(render, inner, changed, Specs(env, t), Affected(inner, t, changed, Specs(env, t)))
  }

  function Applied(env: Env, t: Tree, inner: Inner, changed: seq<Path>): Inner {
    AppliedWith(RenderIn(env, t), env, t, inner, changed)
  }

  function RenderedAll(env: Env, t: Tree, inner: Inner): Inner {
    Rerendered(RenderIn(env, t), inner, [], Specs(env, t), Names(Specs(env, t)))
  }

  // ---- incremental equals full ------------------------------------------------------------

  /** What rendering every target of `t` from scratch gives. */
  function Fresh(env: Env, t: Tree): map<string, Outcome> { Results(RenderIn(env, t), Specs(env, t)) }

  /** The state is what a full render gives. */
  ghost predicate Synced(env: Env, t: Tree, inner: Inner) {
    && inner.specs == Specs(env, t)
    && inner.targets == Good(Fresh(env, t))
    && inner.errors == Bad(Fresh(env, t))
    && inner.index == IndexOf(inner.targets)
  }

  /** A partial render is complete when whatever is not rendered again is already
      what rendering it would give. */
  lemma PartialIsComplete(
    results: map<string, Outcome>, targets: map<string, RenderedTarget>, errors: map<string, Failure>,
    affected: set<string>)
    requires forall n :: n in results && n !in affected ==>
      n in targets && n !in errors && results[n] == Ok(targets[n])
    ensures TargetsAfter(results, targets, affected) == Good(results)
    ensures ErrorsAfter(results, errors, affected) == Bad(results)
  {
  }

  /** Rendering everything does that, whatever was there before. */
  lemma {:induction false} FullRenderSyncs(env: Env, t: Tree, inner: Inner)
    ensures Synced(env, t, RenderedAll(env, t, inner))
  {
    ResultsByName(RenderIn(env, t), Specs(env, t));
    PartialIsComplete(Fresh(env, t), inner.targets, inner.errors, Names(Specs(env, t)));
  }

  /** A target that is not affected keeps its spec and its render. */
  lemma {:induction false} UnaffectedStays(env: Env, t1: Tree, t2: Tree, inner: Inner, changed: seq<Path>, n: string)
    requires Synced(env, t1, inner) && Covers(t1, t2, changed)
    requires n in Fresh(env, t2) && n !in Affected(inner, t2, changed, Specs(env, t2))
    ensures n in inner.targets && n !in inner.errors && Fresh(env, t2)[n] == Ok(inner.targets[n])
  {
    ResultsByName(RenderIn(env, t1), Specs(env, t1));
    ResultsByName(RenderIn(env, t2), Specs(env, t2));
    SpecsAreProper(env, t1);
    SpecsAreProper(env, t2);
    var s :| s in Specs(env, t1) && s.name == n;
    var r := inner.targets[n];
    UnaffectedIsUntouched(t2, inner.targets, changed, n);
    UntouchedAgrees(env, t1, t2, changed, r.files, r.probes);
    RenderFootprint(env, t1, t2, s);
    RenderDone(env, t1, s);
    SameSpec(env, t1, t2, s);
  }

  lemma UnaffectedIsUntouched(t: Tree, targets: map<string, RenderedTarget>, changed: seq<Path>, n: string)
    requires n in targets && n !in FromIndex(IndexOf(targets), t, changed)
    ensures Untouched(t, changed, targets[n].files, targets[n].probes)
  {
    forall p, c | Uses(targets[n], p) && c in changed ensures !(p <= c) && (c !in t ==> !(c <= p)) {
      assert n in UsersOf(targets, p);
      assert p in IndexOf(targets) && n in IndexOf(targets)[p];
    }
    var r := targets[n];
    assert forall f :: f in r.files ==> Uses(r, f);
    assert forall p :: p in r.probes ==> Uses(r, p);
  }

  /** As long as the old target file is still there, its name still means it. */
  lemma {:induction false} SameSpec(env: Env, t1: Tree, t2: Tree, s: TargetSpec)
    requires s in Specs(env, t1) && s.file in t2 && Specs(env, t2) != []
    ensures s in Specs(env, t2)
  {
    SpecsAreProper(env, t1);
    var i :| 0 <= i < |Specs(env, t1)| && Specs(env, t1)[i] == s;
    SpecsAreComplete(env, t2, s.file);
  }

  lemma CoversDistinct(t1: Tree, t2: Tree, changed: seq<Path>)
    requires Covers(t1, t2, changed)
    ensures Covers(t1, t2, Distinct(changed))
  {
    var batch := Distinct(changed);
    forall p | Differ(t1, t2, p) ensures exists c :: c in batch && (c == p || (c <= p && c !in t2)) {
      var c :| c in changed && (c == p || (c <= p && c !in t2));
      assert c in batch;
    }
  }

  /** One change batch that reports every difference leaves exactly what rendering
      the new tree from scratch would. */
  lemma {:induction false} StepSyncs(env: Env, t1: Tree, t2: Tree, inner: Inner, changed: seq<Path>)
    requires Synced(env, t1, inner) && Covers(t1, t2, changed)
    ensures Synced(env, t2, Applied(env, t2, inner, changed))
  {
    CoversDistinct(t1, t2, changed);
    var batch, specs := Distinct(changed), Specs(env, t2);
    var affected := Affected(inner, t2, batch, specs);
    forall n | n in Fresh(env, t2) && n !in affected
      ensures n in inner.targets && n !in inner.errors && Fresh(env, t2)[n] == Ok(inner.targets[n])
    {
      UnaffectedStays(env, t1, t2, inner, batch, n);
    }
    PartialIsComplete(Fresh(env, t2), inner.targets, inner.errors, affected);
  }

  datatype Edit = Edit(tree: Tree, changed: seq<Path>)

  /** Each edit reports what differs from the tree before it. */
  ghost predicate Reported(t: Tree, edits: seq<Edit>)
    decreases |edits|
  {
    edits == [] || (Covers(t, edits[0].tree, edits[0].changed) && Reported(edits[0].tree, edits[1..]))
  }

  function Run(env: Env, inner: Inner, edits: seq<Edit>): Inner
    decreases |edits|
  {
    if edits == [] then inner
    else Run(env, Applied(env, edits[0].tree, inner, edits[0].changed), edits[1..])
  }

  function LastTree(t: Tree, edits: seq<Edit>): Tree
    decreases |edits|
  {
    if edits == [] then t else LastTree(edits[0].tree, edits[1..])
  }

  lemma {:induction false} RunSyncs(env: Env, t: Tree, inner: Inner, edits: seq<Edit>)
    requires Synced(env, t, inner) && Reported(t, edits)
    ensures Synced(env, LastTree(t, edits), Run(env, inner, edits))
    decreases |edits|
  {
    if edits != [] {
      StepSyncs(env, t, edits[0].tree, inner, edits[0].changed);
      RunSyncs(env, edits[0].tree, Applied(env, edits[0].tree, inner, edits[0].changed), edits[1..]);
    }
  }

  /** Every run: after the first full render and any number of change batches, the
      daemon holds what a full render of the last tree, from nothing, gives. */
  lemma IncrementalEqualsFull(env: Env, t: Tree, edits: seq<Edit>)
    requires Reported(t, edits)
    ensures var run, full := Run(env, RenderedAll(env, t, Nothing), edits),
      RenderedAll(env, LastTree(t, edits), Nothing);
      run.specs == full.specs && run.targets == full.targets && run.errors == full.errors && run.index == full.index
  {
    FullRenderSyncs(env, t, Nothing);
    RunSyncs(env, t, RenderedAll(env, t, Nothing), edits);
    FullRenderSyncs(env, LastTree(t, edits), Nothing);
  }

  // ---- bookkeeping over every run -----------------------------------------------------------

  /** `history` is the gap-free tail of all generations, 200 at most. */
  ghost predicate IsTail(history: seq<Summary>, generation: nat) {
    && |history| == (if generation < HISTORY then generation else HISTORY)
    && forall i :: 0 <= i < |history| ==> history[i].generation == generation - |history| + 1 + i
  }

  /** A target is listed under a path exactly when it is rendered and uses the path;
      no listed set is empty. */
  ghost predicate IsExact(index: map<Path, set<string>>, targets: map<string, RenderedTarget>) {
    && (forall p, n :: (p in index && n in index[p]) <==> (n in targets && Uses(targets[n], p)))
    && (forall p :: p in index ==> index[p] != {})
  }

  /** Every name is rendered or failed, not both, and nothing else is. */
  ghost predicate Partition(targets: map<string, RenderedTarget>, errors: map<string, Failure>, names: set<string>) {
    targets.Keys !! errors.Keys && targets.Keys + errors.Keys == names
  }

  ghost predicate Bookkept(inner: Inner) {
    && IsExact(inner.index, inner.targets)
    && Partition(inner.targets, inner.errors, Names(inner.specs))
    && IsTail(inner.history, inner.generation)
  }

  /** Kept by every batch, whether or not all differences are reported, and whatever
      rendering gives: from stale caches it need not be what the tree says. */
  lemma {:induction false} BookkeepingIsKept(render: Renderer, env: Env, t: Tree, inner: Inner, changed: seq<Path>)
    requires Bookkept(inner)
    ensures Bookkept(AppliedWith(render, env, t, inner, changed))
  {
    var batch, specs := Distinct(changed), Specs(env, t);
    RerenderKeepsBooks(render, inner, batch, specs, Affected(inner, t, batch, specs));
  }

  lemma RerenderKeepsBooks(
    render: Renderer, inner: Inner, changed: seq<Path>, specs: seq<TargetSpec>, affected: set<string>)
    requires Bookkept(inner)
    requires Names(specs) - Names(inner.specs) <= affected
    ensures Bookkept(Rerendered(render, inner, changed, specs, affected))
  {
    var after := Rerendered(render, inner, changed, specs, affected);
    assert IsExact(after.index, after.targets) by {
      IndexIsExact(after.targets);
    }
    assert Partition(after.targets, after.errors, Names(specs)) by {
      ResultsByName(render, specs);
      RerenderPartitions(Results(render, specs), inner.targets, inner.errors, Names(inner.specs), affected);
    }
    assert IsTail(after.history, after.generation) by {
      TrimKeepsTail(inner.history, inner.generation,
        SummaryOf(render, inner.generation + 1, changed, Selected(specs, affected)));
    }
  }

  lemma RerenderPartitions(
    results: map<string, Outcome>, targets: map<string, RenderedTarget>, errors: map<string, Failure>,
    known: set<string>, affected: set<string>)
    requires Partition(targets, errors, known) && results.Keys - known <= affected
    ensures Partition(TargetsAfter(results, targets, affected), ErrorsAfter(results, errors, affected), results.Keys)
  {
  }

  lemma TrimKeepsTail(history: seq<Summary>, generation: nat, summary: Summary)
    requires IsTail(history, generation) && summary.generation == generation + 1
    ensures IsTail(Trim(history + [summary]), generation + 1)
  {
  }

  lemma IndexIsExact(targets: map<string, RenderedTarget>)
    ensures IsExact(IndexOf(targets), targets)
  {
    var index := IndexOf(targets);
    forall p, n ensures (p in index && n in index[p]) <==> (n in targets && Uses(targets[n], p)) {
      assert n in targets && Uses(targets[n], p) <==> n in UsersOf(targets, p);
    }
  }

  /** A batch as it happens: the tree by then, what is reported, and what rendering gives. */
  datatype Batch = Batch(tree: Tree, changed: seq<Path>, render: Renderer)

  function RunWith(env: Env, inner: Inner, batches: seq<Batch>): Inner
    decreases |batches|
  {
    if batches == [] then inner
    else
      var b := batches[0];
      RunWith(env, AppliedWith(b.render, env, b.tree, inner, b.changed), batches[1..])
  }

  /** Every run from the start of the daemon on. */
  lemma {:induction false} EveryRunIsBookkept(env: Env, inner: Inner, batches: seq<Batch>)
    requires Bookkept(inner)
    ensures Bookkept(RunWith(env, inner, batches))
    ensures var last := RunWith(env, inner, batches);
      last.generation == inner.generation + |batches| &&
      |last.history| == if last.generation < 200 then last.generation else 200
    decreases |batches|
  {
    if batches != [] {
      var b := batches[0];
      BookkeepingIsKept(b.render, env, b.tree, inner, b.changed);
      EveryRunIsBookkept(env, AppliedWith(b.render, env, b.tree, inner, b.changed), batches[1..]);
    }
  }

  lemma NothingIsBookkept()
    ensures Bookkept(Nothing)
  {
  }

  // ---- waiting for changes ---------------------------------------------------------------------

  function After(history: seq<Summary>, since: nat): seq<Summary> {
    if history == [] then []
    else (if history[0].generation > since then [history[0]] else []) + After(history[1..], since)
  }

  lemma {:induction false} AfterDropsPrefix(history: seq<Summary>, first: nat, since: nat)
    requires forall i :: 0 <= i < |history| ==> history[i].generation == first + i
    ensures After(history, since) ==
      if since < first then history
      else if since - first + 1 <= |history| then history[since - first + 1..] else []
  {
    if history != [] {
      forall i | 0 <= i < |history[1..]| ensures history[1..][i].generation == first + 1 + i {
        assert history[1..][i] == history[i + 1];
      }
      AfterDropsPrefix(history[1..], first + 1, since);
      assert history[0].generation == first;
      if since < first {
        assert history == [history[0]] + history[1..];
      } else if since - first + 1 <= |history| {
        assert history[1..][since - first..] == history[since - first + 1..];
      }
    }
  }

  /** A client that asks for what happened after `since` gets exactly the kept
      generations after it: all of them when at most 200 have passed. */
  lemma WaitReturnsTheTail(inner: Inner, since: nat)
    requires IsTail(inner.history, inner.generation) && inner.generation > since
    ensures var changes := After(inner.history, since);
      && |changes| == (if inner.generation - since < HISTORY then inner.generation - since else HISTORY)
      && forall i :: 0 <= i < |changes| ==> changes[i].generation == inner.generation - |changes| + 1 + i
  {
    AfterDropsPrefix(inner.history, inner.generation - |inner.history| + 1, since);
  }

  /** Of repeated paths the first stays where it is. */
  lemma {:induction false} DistinctKeepsOrder(changed: seq<Path>, i: nat, j: nat)
    requires i < j < |Distinct(changed)|
    ensures var r := Distinct(changed);
      r[i] != r[j] && exists k :: 0 <= k < |changed| && changed[k] == r[i] && r[j] !in changed[..k + 1]
    decreases |changed|
  {
    var n := |changed| - 1;
    var init, r := Distinct(changed[..n]), Distinct(changed);
    assert changed == changed[..n] + [changed[n]];
    if j < |init| {
      DistinctKeepsOrder(changed[..n], i, j);
      var k :| 0 <= k < n && changed[..n][k] == init[i] && init[j] !in changed[..n][..k + 1];
      assert changed[..n][..k + 1] == changed[..k + 1] && changed[k] == r[i];
    } else {
      assert r[i] == init[i] && init[i] in changed[..n];
      var k :| 0 <= k < n && changed[..n][k] == init[i];
      assert changed[k] == r[i] && forall p :: p in changed[..k + 1] ==> p in changed[..n];
    }
  }

  // ---- what one batch does --------------------------------------------------------------------------

  /** A changed path concerns a path that was read or tried: one at or above the change,
      or below it when nothing is there any more. */
  predicate Concerns(t: Tree, c: Path, p: Path) { p <= c || (c !in t && c <= p) }

  /** The targets that are rendered again are exactly those that use a path a change
      concerns, those that failed before, and those that are new. */
  lemma {:induction false} AffectedExactly(
    inner: Inner, t: Tree, changed: seq<Path>, specs: seq<TargetSpec>, n: string)
    requires IsExact(inner.index, inner.targets)
    ensures n in Affected(inner, t, changed, specs) <==>
      || (n in inner.targets && exists c, p :: c in changed && Uses(inner.targets[n], p) && Concerns(t, c, p))
      || n in inner.errors
      || (n in Names(specs) && n !in Names(inner.specs))
  {
    forall c, p | c in changed && Concerns(t, c, p)
      ensures p in inner.index && n in inner.index[p] <==> n in inner.targets && Uses(inner.targets[n], p)
    {
    }
  }

  lemma {:induction false} ErrorsAreListed(render: Renderer, specs: seq<TargetSpec>, e: Failure)
    ensures e in ErrorList(render, specs) <==> exists s :: s in specs && render(s) == Err(e)
    decreases |specs|
  {
    if specs != [] {
      var init, last := specs[..|specs| - 1], specs[|specs| - 1];
      assert specs == init + [last];
      ErrorsAreListed(render, init, e);
    }
  }

  lemma RerenderedNames(specs: seq<TargetSpec>, affected: set<string>, n: string)
    ensures n in NamesInOrder(Selected(specs, affected)) <==> n in Names(specs) && n in affected
  {
    var selected := Selected(specs, affected);
    if n in Names(specs) && n in affected {
      var s :| s in specs && s.name == n;
      assert s in selected;
      var i :| 0 <= i < |selected| && selected[i] == s;
      assert NamesInOrder(selected)[i] == n;
    }
    if n in NamesInOrder(selected) {
      var i :| 0 <= i < |selected| && NamesInOrder(selected)[i] == n;
      assert selected[i] in selected;
    }
  }

  /** What a batch publishes: the next generation, each changed path once, exactly the
      targets that were rendered again, and exactly the failures among these. */
  lemma {:induction false} BatchIsPublished(render: Renderer, env: Env, t: Tree, inner: Inner, changed: seq<Path>)
    requires |inner.history| <= 200
    ensures var specs, paths := Specs(env, t), Distinct(changed);
      Publishes(render, inner, paths, specs, Affected(inner, t, paths, specs),
                AppliedWith(render, env, t, inner, changed))
  {
    var specs, paths := Specs(env, t), Distinct(changed);
    RerenderPublishes(render, inner, paths, specs, Affected(inner, t, paths, specs));
  }

  ghost predicate Publishes(
    render: Renderer, inner: Inner, changed: seq<Path>, specs: seq<TargetSpec>, affected: set<string>, after: Inner)
  {
    && after.specs == specs && after.generation == inner.generation + 1 && after.history != []
    && Tells(render, after.generation, changed, specs, affected, after.history[|after.history| - 1])
  }

  lemma {:induction false} RerenderPublishes(
    render: Renderer, inner: Inner, changed: seq<Path>, specs: seq<TargetSpec>, affected: set<string>)
    requires |inner.history| <= 200
    ensures Publishes(render, inner, changed, specs, affected, Rerendered(render, inner, changed, specs, affected))
  {
    SummaryTells(render, inner.generation + 1, changed, specs, affected);
    LastIsPublished(render, inner, changed, specs, affected);
  }

  ghost predicate Tells(
    render: Renderer, generation: nat, changed: seq<Path>, specs: seq<TargetSpec>, affected: set<string>, s: Summary)
  {
    && s.generation == generation && s.changed == changed
    && (forall n :: n in s.rerendered <==> n in Names(specs) && n in affected)
    && (forall e :: e in s.errors <==> exists s' :: s' in specs && s'.name in s.rerendered && render(s') == Err(e))
  }

  lemma {:induction false} SummaryTells(
    render: Renderer, generation: nat, changed: seq<Path>, specs: seq<TargetSpec>, affected: set<string>)
    ensures Tells(render, generation, changed, specs, affected,
                  SummaryOf(render, generation, changed, Selected(specs, affected)))
  {
    var selected := Selected(specs, affected);
    forall n ensures n in NamesInOrder(selected) <==> n in Names(specs) && n in affected {
      RerenderedNames(specs, affected, n);
    }
    forall e ensures e in ErrorList(render, selected) <==>
      exists s :: s in specs && s.name in NamesInOrder(selected) && render(s) == Err(e) {
      ErrorsAreListed(render, selected, e);
    }
  }

  lemma {:induction false} LastIsPublished(
    render: Renderer, inner: Inner, changed: seq<Path>, specs: seq<TargetSpec>, affected: set<string>)
    requires |inner.history| <= 200
    ensures var after := Rerendered(render, inner, changed, specs, affected);
      && after.history != []
      && after.history[|after.history| - 1] ==
         SummaryOf(render, inner.generation + 1, changed, Selected(specs, affected))
  {
    var s := SummaryOf(render, inner.generation + 1, changed, Selected(specs, affected));
    assert (inner.history + [s])[|inner.history|] == s;
  }

  /** And what it leaves: of a target that was rendered again its outcome, of every other
      one what there was. */
  lemma {:induction false} BatchLeaves(
    render: Renderer, env: Env, t: Tree, inner: Inner, changed: seq<Path>, s: TargetSpec)
    requires s in Specs(env, t)
    ensures var after, n := AppliedWith(render, env, t, inner, changed), s.name;
      if n in Affected(inner, t, Distinct(changed), Specs(env, t)) then
        match render(s)
        case Ok(r) => n in after.targets && after.targets[n] == r && n !in after.errors
        case Err(e) => n in after.errors && after.errors[n] == e && n !in after.targets
      else
        && (n in after.targets <==> n in inner.targets)
        && (n in after.targets ==> after.targets[n] == inner.targets[n])
        && n !in inner.errors && n !in after.errors
  {
    SpecsAreProper(env, t);
    ResultsByName(render, Specs(env, t));
  }
}
