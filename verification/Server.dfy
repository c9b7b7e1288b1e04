/**
 The daemon itself (state.rs): the inventory with its caches and the state that
 requests read. Each method is proved to leave exactly what the functions of
 `Daemon` say, so the theorems there hold of every run of this program.
*/
module Server {
  import opened Wrappers
  import opened Values
  import opened ClassLoader
  import opened Footprint
  import opened Rendering
  import opened Inventories
  import opened Daemon

  class State {
    const inv: Inventory
    var specs: seq<TargetSpec>
    var targets: map<string, RenderedTarget>
    var errors: map<string, Failure>
    var index: map<Path, set<string>>
    var generation: nat
    var history: seq<Summary>

    function View(): Inner
      reads this
    {
      Inner(specs, targets, errors, index, generation, history)
    }

    constructor (inv: Inventory)
      ensures this.inv == inv && View() == Nothing && Bookkept(View())
    {
      this.inv := inv;
      specs, targets, errors, index, generation, history := [], map[], map[], map[], 0, [];
    }

    // ---- the index -------------------------------------------------------------

    /** A target leaves the index: the files first, then the probes. */
    method Unlist(name: string, paths: seq<Path>)
      modifies this`index
      ensures index.Keys == old(index.Keys)
      ensures forall p :: p in index ==> index[p] == if p in paths then old(index)[p] - {name} else old(index)[p]
    {
      var i := 0;
      while i < |paths|
        invariant 0 <= i <= |paths|
        invariant index.Keys == old(index.Keys)
        invariant forall p :: p in index ==>
          index[p] == if p in paths[..i] then old(index)[p] - {name} else old(index)[p]
      {
        if paths[i] in index {
          index := index[paths[i] := index[paths[i]] - {name}];
        }
        assert paths[..i + 1] == paths[..i] + [paths[i]];
        i := i + 1;
      }
    }

    method List(name: string, paths: seq<Path>)
      modifies this`index
      ensures forall p :: p in index <==> p in old(index) || p in paths
      ensures forall p :: p in index ==>
        index[p] == (if p in old(index) then old(index)[p] else {}) + (if p in paths then {name} else {})
    {
      var i := 0;
      while i < |paths|
        invariant 0 <= i <= |paths|
        invariant forall p :: p in index <==> p in old(index) || p in paths[..i]
        invariant forall p :: p in index ==>
          index[p] == (if p in old(index) then old(index)[p] else {}) + (if p in paths[..i] then {name} else {})
      {
        var listed := if paths[i] in index then index[paths[i]] else {};
        index := index[paths[i] := listed + {name}];
        assert paths[..i + 1] == paths[..i] + [paths[i]];
        i := i + 1;
      }
    }

    // ---- rendering -----------------------------------------------------------------

    /** `render_many`: every selected target is rendered, and a report made of the results
        and the errors in the order of the specs. `render` is what rendering gave: when
        the caches are right, what rendering from scratch gives. */
    method RenderMany(t: Tree, selected: seq<TargetSpec>)
      returns (good: map<string, RenderedTarget>, bad: seq<Failure>, ghost render: Renderer)
      requires NamesAreUnique(selected)
      modifies inv
      ensures LabelsErrors(render)
      ensures good == Good(Results(render, selected)) && bad == ErrorList(render, selected)
      ensures old(inv.Coherent(t)) ==> inv.Coherent(t) && render == RenderIn(inv.env, t)
    {
      ghost var right := inv.Coherent(t);
      var outcomes := RenderEach(t, selected, right);
      if right {
        render := RenderIn(inv.env, t);
        RenderLabelsErrors(inv.env, t);
      } else {
        render := Replay(selected, outcomes);
        ReplayGives(selected, outcomes);
      }
      good, bad := Report(render, selected, outcomes);
    }

    method RenderEach(t: Tree, selected: seq<TargetSpec>, ghost right: bool) returns (outcomes: seq<Outcome>)
      requires right ==> inv.Coherent(t)
      modifies inv
      ensures |outcomes| == |selected|
      ensures forall k :: 0 <= k < |selected| && outcomes[k].Err? ==> outcomes[k].error.target == Some(selected[k].name)
      ensures right ==> inv.Coherent(t) && forall k :: 0 <= k < |selected| ==>
        outcomes[k] == Render(inv.env, t, selected[k])
    {
      outcomes := [];
      var i := 0;
      while i < |selected|
        invariant 0 <= i == |outcomes| <= |selected|
        invariant forall k :: 0 <= k < i && outcomes[k].Err? ==> outcomes[k].error.target == Some(selected[k].name)
        invariant right ==> inv.Coherent(t) && forall k :: 0 <= k < i ==> outcomes[k] == Render(inv.env, t, selected[k])
      {
        var r := inv.RenderTarget(t, selected[i]);
        outcomes := outcomes + [r];
        i := i + 1;
      }
    }

    static method Report(ghost render: Renderer, selected: seq<TargetSpec>, outcomes: seq<Outcome>)
      returns (good: map<string, RenderedTarget>, bad: seq<Failure>)
      requires NamesAreUnique(selected) && |outcomes| == |selected|
      requires forall k :: 0 <= k < |selected| ==> outcomes[k] == render(selected[k])
      ensures good == Good(Results(render, selected)) && bad == ErrorList(render, selected)
    {
      good, bad := map[], [];
      var i := 0;
      assert selected[..0] == [];
      while i < |selected|
        invariant 0 <= i <= |selected|
        invariant good == Good(Results(render, selected[..i])) && bad == ErrorList(render, selected[..i])
      {
        OneMore(render, selected, i);
        ReportStep(Results(render, selected[..i]), selected[i].name, outcomes[i]);
        match outcomes[i] {
          case Ok(target) => good := good[selected[i].name := target];
          case Err(e) => bad := bad + [e];
        }
        i := i + 1;
      }
      assert selected[..i] == selected;
    }

    ghost predicate Valid(t: Tree)
      reads this, inv
    {
      inv.Coherent(t) && index == IndexOf(targets)
    }

    /** Targets that disappeared or are rendered again leave the index. */
    method Withdraw(gone: set<string>)
      requires ListsOf(index, targets) && gone <= targets.Keys
      modifies this`index, this`targets
      ensures ListsOf(index, targets)
      ensures targets == old(targets) - gone
    {
      var todo := gone;
      while todo != {}
        invariant todo <= targets.Keys
        invariant targets - todo == old(targets) - gone
        invariant ListsOf(index, targets)
        decreases |todo|
      {
        var n :| n in todo;
        var was := targets[n];
        ghost var before := index;
        Unlist(n, was.files + was.probes);
        Unlisted(before, targets, n, index);
        TakeOne(targets, todo, n);
        targets := targets - {n};
        todo := todo - {n};
      }
    }

    /** Fresh renders enter it. */
    method Enter(good: map<string, RenderedTarget>)
      requires ListsOf(index, targets) && targets.Keys !! good.Keys
      modifies this`index, this`targets
      ensures ListsOf(index, targets)
      ensures targets == old(targets) + good
    {
      var todo := good.Keys;
      NothingEntered(targets, good);
      while todo != {}
        invariant todo <= good.Keys && targets == Entered(old(targets), good, todo)
        invariant ListsOf(index, targets)
        decreases |todo|
      {
        var n :| n in todo;
        OneEntered(old(targets), good, todo, n);
        EnterOne(n, good[n]);
        todo := todo - {n};
      }
    }

    method EnterOne(n: string, r: RenderedTarget)
      requires ListsOf(index, targets) && n !in targets
      modifies this`index, this`targets
      ensures ListsOf(index, targets) && targets == old(targets)[n := r]
    {
      ghost var before := index;
      List(n, r.files + r.probes);
      Listed(before, targets, n, r, index);
      targets := targets[n := r];
    }

    method RecordErrors(bad: seq<Failure>)
      modifies this`errors
      ensures errors == Inserted(old(errors), bad)
    {
      var i := 0;
      while i < |bad|
        invariant 0 <= i <= |bad|
        invariant Inserted(errors, bad[i..]) == Inserted(old(errors), bad)
      {
        assert bad[i..][0] == bad[i] && bad[i..][1..] == bad[i + 1..];
        if bad[i].target.Some? {
          errors := errors[bad[i].target.value := bad[i]];
        }
        i := i + 1;
      }
    }

    /** The rendered targets, the errors and the index of a new batch. */
    method Replace(ghost render: Renderer, good: map<string, RenderedTarget>, bad: seq<Failure>,
                   specs': seq<TargetSpec>, affected: set<string>)
      requires index == IndexOf(targets) && NamesAreUnique(specs') && LabelsErrors(render)
      requires good == Good(Results(render, Selected(specs', affected)))
      requires bad == ErrorList(render, Selected(specs', affected))
      modifies this`targets, this`errors, this`index
      ensures targets == TargetsAfter(Results(render, specs'), old(targets), affected)
      ensures errors == ErrorsAfter(Results(render, specs'), old(errors), affected)
      ensures index == IndexOf(targets)
    {
      var current := Names(specs');
      IndexLists(targets);
      Withdraw(set n | n in targets && (n !in current || n in affected));
      errors := map n | n in errors && n in current && n !in affected :: errors[n];
      ResultsByName(render, specs');
      SelectedResults(render, specs', affected);
      TargetsMeet(Results(render, specs'), old(targets), targets, affected);
      Enter(good);
      ErrorsMeet(render, old(errors), specs', affected);
      RecordErrors(bad);
      NonEmptyLists(index, targets);
      index := NonEmpty(index);
    }

    /** A new generation, and the oldest ones dropped. */
    method Publish(summary: Summary)
      modifies this`generation, this`history
      ensures generation == old(generation) + 1
      ensures history == Trim(old(history) + [summary])
    {
      generation := generation + 1;
      history := history + [summary];
      while |history| > HISTORY
        invariant generation == old(generation) + 1
        invariant Trim(history) == Trim(old(history) + [summary])
        decreases |history|
      {
        history := history[1..];
      }
    }

    /** Whatever the caches hold, the state is what some rendering of the affected targets
        leaves, so its bookkeeping stays right; with right caches it is that of
        rendering them from scratch. */
    method Rerender(t: Tree, changed: seq<Path>, specs': seq<TargetSpec>, affected: set<string>)
      returns (summary: Summary, ghost render: Renderer)
      requires index == IndexOf(targets) && NamesAreUnique(specs')
      modifies this, inv
      ensures View() == Rerendered(render, old(View()), changed, specs', affected)
      ensures summary == SummaryOf(render, generation, changed, Selected(specs', affected))
      ensures index == IndexOf(targets)
      ensures Bookkept(old(View())) && Names(specs') - Names(old(specs)) <= affected ==> Bookkept(View())
      ensures old(inv.Coherent(t)) ==> Valid(t) && render == RenderIn(inv.env, t)
    {
      ghost var before := View();
      var selected := Selected(specs', affected);
      SelectedNamesAreUnique(specs', affected);
      var good, bad;
      good, bad, render := RenderMany(t, selected);
      summary := Settle(render, good, bad, changed, specs', affected);
      KeepsBooks(render, before, changed, specs', affected);
    }

    /** The report goes in, and a new generation is published. */
    method Settle(
      ghost render: Renderer, good: map<string, RenderedTarget>, bad: seq<Failure>, changed: seq<Path>,
      specs': seq<TargetSpec>, affected: set<string>)
      returns (summary: Summary)
      requires index == IndexOf(targets) && NamesAreUnique(specs') && LabelsErrors(render)
      requires good == Good(Results(render, Selected(specs', affected)))
      requires bad == ErrorList(render, Selected(specs', affected))
      modifies this
      ensures View() == Rerendered(render, old(View()), changed, specs', affected)
      ensures summary == SummaryOf(render, generation, changed, Selected(specs', affected))
    {
      Replace(render, good, bad, specs', affected);
      specs := specs';
      summary := Summary(generation + 1, changed, NamesInOrder(Selected(specs', affected)), bad);
      Publish(summary);
    }

    /** Render every target from scratch. */
    method RenderAll(t: Tree) returns (summary: Summary)
      requires index == IndexOf(targets)
      modifies this, inv
      ensures Valid(t) && View() == RenderedAll(inv.env, t, old(View()))
      ensures Synced(inv.env, t, View())
    {
      inv.InvalidateAll();
      var discovered := inv.DiscoverTargets(t);
      var specs' := if discovered.Ok? then discovered.value else [];
      SpecsAreProper(inv.env, t);
      ghost var render;
      summary, render := Rerender(t, [], specs', set s | s in specs' :: s.name);
      FullRenderSyncs(inv.env, t, old(View()));
    }

    /** Files changed on disk, from `t0` to `t`: drop what depends on them and render
        the affected targets again. When every difference is reported this leaves what
        the tree says; the bookkeeping is right in any case. */
    method ApplyChanges(ghost t0: Tree, t: Tree, changed: seq<Path>) returns (summary: Summary, ghost render: Renderer)
      requires index == IndexOf(targets)
      modifies this, inv
      ensures View() == AppliedWith(render, inv.env, t, old(View()), changed) && index == IndexOf(targets)
      ensures Bookkept(old(View())) ==> Bookkept(View())
      ensures old(Valid(t0)) && Covers(t0, t, changed) ==>
        Valid(t) && View() == Applied(inv.env, t, old(View()), changed)
      ensures old(Valid(t0)) && Covers(t0, t, changed) && Synced(inv.env, t0, old(View())) ==>
        Synced(inv.env, t, View())
    {
      var batch := Distinct(changed);
      ghost var right := inv.Coherent(t0) && Covers(t0, t, changed);
      if right {
        CoversDistinct(t0, t, changed);
      }
      Forget(t0, t, batch, right);
      var discovered := inv.DiscoverTargets(t);
      var specs' := if discovered.Ok? then discovered.value else [];
      SpecsAreProper(inv.env, t);
      var affected := CollectAffected(t, batch, specs');
      summary, render := Rerender(t, batch, specs', affected);
      if right && Synced(inv.env, t0, old(View())) {
        StepSyncs(inv.env, t0, t, old(View()), changed);
      }
    }

    /** Targets the index names, targets that failed, and new ones. */
    method CollectAffected(t: Tree, batch: seq<Path>, specs': seq<TargetSpec>) returns (affected: set<string>)
      ensures affected == Affected(View(), t, batch, specs')
    {
      affected := FromIndex(index, t, batch);
      affected := affected + errors.Keys;
      affected := affected + (Names(specs') - Names(specs));
    }

    /** The two invalidations leave caches that are right for the new tree, if they were
        right for the old one and the batch says what differs. */
    method Forget(ghost t0: Tree, t: Tree, batch: seq<Path>, ghost right: bool)
      requires right ==> inv.Coherent(t0) && Covers(t0, t, batch)
      modifies inv
      ensures right ==> inv.Coherent(t)
    {
      ghost var files, closures := inv.files, inv.closures;
      inv.InvalidateDependents(batch);
      if right {
        DropListed(inv.env, t0, t, batch, files, closures);
      }
      var i := 0;
      while i < |batch|
        invariant 0 <= i <= |batch|
        invariant right ==> inv.FilesAreCached() && Dropped(inv.env, t0, t, batch, i, inv.files, inv.closures)
      {
        files, closures := inv.files, inv.closures;
        if batch[i] !in t {
          inv.InvalidateUnder(batch[i]);
        }
        if right {
          DropUnder(inv.env, t0, t, batch, i, files, closures);
        }
        i := i + 1;
      }
      if right {
        WhatIsLeftIsFresh(inv.env, t0, t, batch, inv.files, inv.closures);
      }
    }

    /** The part of `wait_for` that answers: some generation after `since` exists. */
    method Changes(since: nat) returns (now: nat, changes: seq<Summary>)
      requires generation > since
      ensures now == generation && changes == After(history, since)
    {
      now := generation;
      changes := [];
      var i := 0;
      assert history[0..] == history;
      while i < |history|
        invariant 0 <= i <= |history|
        invariant changes + After(history[i..], since) == After(history, since)
      {
        AfterStep(history, i, since, changes);
        if history[i].generation > since {
          changes := changes + [history[i]];
        }
        i := i + 1;
      }
    }
  }

  // ---- what the loops above rely on ---------------------------------------------------

  /** The index lists exactly the users of every path; a listed set may be empty. */
  ghost predicate ListsOf(index: map<Path, set<string>>, targets: map<string, RenderedTarget>) {
    forall p :: (if p in index then index[p] else {}) == UsersOf(targets, p)
  }

  lemma IndexLists(targets: map<string, RenderedTarget>)
    ensures ListsOf(IndexOf(targets), targets)
  {
  }

  function NonEmpty(index: map<Path, set<string>>): map<Path, set<string>> {
    map p | p in index && index[p] != {} :: index[p]
  }

  lemma {:induction false} NonEmptyLists(index: map<Path, set<string>>, targets: map<string, RenderedTarget>)
    requires ListsOf(index, targets)
    ensures NonEmpty(index) == IndexOf(targets)
  {
    SameLists(NonEmpty(index), IndexOf(targets), p => UsersOf(targets, p));
  }

  /** Two indexes that list the same users are the same when they list nothing empty. */
  lemma {:induction false} SameLists(a: map<Path, set<string>>, b: map<Path, set<string>>, users: Path -> set<string>)
    requires forall p :: p in a <==> users(p) != {}
    requires forall p :: p in a ==> a[p] == users(p)
    requires forall p :: p in b <==> users(p) != {}
    requires forall p :: p in b ==> b[p] == users(p)
    ensures a == b
  {
  }

  lemma Unlisted(
    index: map<Path, set<string>>, targets: map<string, RenderedTarget>, n: string, after: map<Path, set<string>>)
    requires ListsOf(index, targets) && n in targets
    requires after.Keys == index.Keys
    requires forall p :: p in after ==>
      after[p] == if p in targets[n].files + targets[n].probes then index[p] - {n} else index[p]
    ensures ListsOf(after, targets - {n})
  {
    forall p ensures (if p in after then after[p] else {}) == UsersOf(targets - {n}, p) {
      assert (if p in index then index[p] else {}) == UsersOf(targets, p);
      assert UsersOf(targets - {n}, p) == UsersOf(targets, p) - {n};
    }
  }

  lemma Listed(
    index: map<Path, set<string>>, targets: map<string, RenderedTarget>, n: string, r: RenderedTarget,
    after: map<Path, set<string>>)
    requires ListsOf(index, targets) && n !in targets
    requires forall p :: p in after <==> p in index || p in r.files + r.probes
    requires forall p :: p in after ==>
      after[p] == (if p in index then index[p] else {}) + (if p in r.files + r.probes then {n} else {})
    ensures ListsOf(after, targets[n := r])
  {
    forall p ensures (if p in after then after[p] else {}) == UsersOf(targets[n := r], p) {
      assert (if p in index then index[p] else {}) == UsersOf(targets, p);
      OneMoreUser(targets, n, r, p);
      assert p in r.files + r.probes <==> Uses(r, p);
    }
  }

  lemma OneMoreUser(targets: map<string, RenderedTarget>, n: string, r: RenderedTarget, p: Path)
    requires n !in targets
    ensures UsersOf(targets[n := r], p) == UsersOf(targets, p) + (if Uses(r, p) then {n} else {})
  {
  }

  function Inserted(errors: map<string, Failure>, bad: seq<Failure>): map<string, Failure>
    decreases |bad|
  {
    if bad == [] then errors
    else Inserted(if bad[0].target.Some? then errors[bad[0].target.value := bad[0]] else errors, bad[1..])
  }

  /** Errors carry the name of their target. */
  ghost predicate LabelsErrors(render: Renderer) {
    forall s :: render(s).Err? ==> render(s).error.target == Some(s.name)
  }

  lemma KeepsBooks(
    render: Renderer, inner: Inner, changed: seq<Path>, specs: seq<TargetSpec>, affected: set<string>)
    ensures Bookkept(inner) && Names(specs) - Names(inner.specs) <= affected ==>
      Bookkept(Rerendered(render, inner, changed, specs, affected))
  {
    if Bookkept(inner) && Names(specs) - Names(inner.specs) <= affected {
      RerenderKeepsBooks(render, inner, changed, specs, affected);
    }
  }

  /** A renderer that gives these outcomes for these targets. */
  ghost function Replay(selected: seq<TargetSpec>, outcomes: seq<Outcome>): Renderer
    requires |outcomes| == |selected|
  {
    (s: TargetSpec) => Recorded(selected, outcomes, s)
  }

  function Recorded(selected: seq<TargetSpec>, outcomes: seq<Outcome>, s: TargetSpec): Outcome {
    if selected == [] || |outcomes| != |selected| then Err(Failure(Unreadable(s.file), [], Some(s.name)))
    else if selected[0] == s then outcomes[0]
    else Recorded(selected[1..], outcomes[1..], s)
  }

  lemma {:induction false} RecordedAt(selected: seq<TargetSpec>, outcomes: seq<Outcome>, k: nat)
    requires NamesAreUnique(selected) && |outcomes| == |selected| && k < |selected|
    ensures Recorded(selected, outcomes, selected[k]) == outcomes[k]
    decreases k
  {
    if k > 0 {
      assert selected[0].name != selected[k].name && selected[1..][k - 1] == selected[k];
      RecordedAt(selected[1..], outcomes[1..], k - 1);
    }
  }

  lemma {:induction false} RecordedLabels(selected: seq<TargetSpec>, outcomes: seq<Outcome>, s: TargetSpec)
    requires |outcomes| == |selected|
    requires forall k :: 0 <= k < |selected| && outcomes[k].Err? ==> outcomes[k].error.target == Some(selected[k].name)
    ensures var r := Recorded(selected, outcomes, s); r.Err? ==> r.error.target == Some(s.name)
  {
    if selected != [] && selected[0] != s {
      assert forall k :: 0 <= k < |selected[1..]| ==>
        selected[1..][k] == selected[k + 1] && outcomes[1..][k] == outcomes[k + 1];
      RecordedLabels(selected[1..], outcomes[1..], s);
    }
  }

  lemma {:induction false} ReplayGives(selected: seq<TargetSpec>, outcomes: seq<Outcome>)
    requires NamesAreUnique(selected) && |outcomes| == |selected|
    requires forall k :: 0 <= k < |selected| && outcomes[k].Err? ==> outcomes[k].error.target == Some(selected[k].name)
    ensures LabelsErrors(Replay(selected, outcomes))
    ensures forall k :: 0 <= k < |selected| ==> Replay(selected, outcomes)(selected[k]) == outcomes[k]
  {
    forall s: TargetSpec ensures var r := Recorded(selected, outcomes, s); r.Err? ==> r.error.target == Some(s.name) {
      RecordedLabels(selected, outcomes, s);
    }
    forall k | 0 <= k < |selected| ensures Recorded(selected, outcomes, selected[k]) == outcomes[k] {
      RecordedAt(selected, outcomes, k);
    }
  }

  lemma RenderLabelsErrors(env: Env, t: Tree)
    ensures LabelsErrors(RenderIn(env, t))
  {
  }

  lemma AfterStep(history: seq<Summary>, i: nat, since: nat, changes: seq<Summary>)
    requires i < |history|
    ensures changes + After(history[i..], since) ==
      (if history[i].generation > since then changes + [history[i]] else changes) + After(history[i + 1..], since)
  {
    assert history[i..][0] == history[i] && history[i..][1..] == history[i + 1..];
  }

  /** What the invalidations up to the `i`-th batch entry leave. */
  ghost predicate Dropped(
    env: Env, t0: Tree, t: Tree, batch: seq<Path>, i: nat, files: map<Path, LoadedFile>, closures: map<Path, Closure>)
    requires i <= |batch|
  {
    && (forall p :: p in files ==> Load(env, t0, p) == Ok(files[p]))
    && (forall k :: k in closures ==> BuildClosure(env, t0, k, EmptyMap, []) == Ok(closures[k]))
    && (forall k :: k in closures ==> KeptBy(closures[k], batch))
    && (forall p :: p in files ==> p !in batch)
    && (forall k, j :: k in closures && 0 <= j < i && batch[j] !in t ==> KeptOutside(closures[k], batch[j]))
    && (forall p, j :: p in files && 0 <= j < i && batch[j] !in t ==> !(batch[j] <= p))
  }

  lemma DropListed(
    env: Env, t0: Tree, t: Tree, batch: seq<Path>, files: map<Path, LoadedFile>, closures: map<Path, Closure>)
    requires forall p :: p in files ==> Load(env, t0, p) == Ok(files[p])
    requires forall k :: k in closures ==> BuildClosure(env, t0, k, EmptyMap, []) == Ok(closures[k])
    ensures Dropped(env, t0, t, batch, 0,
              map p | p in files && p !in batch :: files[p],
              map k | k in closures && KeptBy(closures[k], batch) :: closures[k])
  {
  }

  lemma DropUnder(
    env: Env, t0: Tree, t: Tree, batch: seq<Path>, i: nat, files: map<Path, LoadedFile>, closures: map<Path, Closure>)
    requires i < |batch| && Dropped(env, t0, t, batch, i, files, closures)
    ensures batch[i] in t ==> Dropped(env, t0, t, batch, i + 1, files, closures)
    ensures batch[i] !in t ==> Dropped(env, t0, t, batch, i + 1,
              map p | p in files && !(batch[i] <= p) :: files[p],
              map k | k in closures && KeptOutside(closures[k], batch[i]) :: closures[k])
  {
  }

  lemma WhatIsLeftIsFresh(
    env: Env, t0: Tree, t: Tree, batch: seq<Path>, files: map<Path, LoadedFile>, closures: map<Path, Closure>)
    requires Covers(t0, t, batch) && Dropped(env, t0, t, batch, |batch|, files, closures)
    ensures forall p :: p in files ==> Load(env, t, p) == Ok(files[p])
    ensures forall p :: p in closures ==> BuildClosure(env, t, p, EmptyMap, []) == Ok(closures[p])
  {
    forall k | k in closures ensures BuildClosure(env, t, k, EmptyMap, []) == Ok(closures[k]) {
      KeptIsUntouched(t, batch, closures[k]);
      KeptClosureIsFresh(env, t0, t, batch, k);
    }
    forall p | p in files ensures Load(env, t, p) == Ok(files[p]) {
      assert !Differ(t0, t, p);
    }
  }

  lemma KeptIsUntouched(t: Tree, batch: seq<Path>, c: Closure)
    requires KeptBy(c, batch)
    requires forall j :: 0 <= j < |batch| && batch[j] !in t ==> KeptOutside(c, batch[j])
    ensures Untouched(t, batch, c.files, c.probes)
  {
  }

  lemma TakeOne<V>(m: map<string, V>, todo: set<string>, n: string)
    requires n in todo && todo <= m.Keys
    ensures (m - {n}) - (todo - {n}) == m - todo
  {
  }

  /** The old targets, and the fresh ones that are no longer to do. */
  function Entered<V>(before: map<string, V>, good: map<string, V>, todo: set<string>): map<string, V> {
    before + (good - todo)
  }

  lemma {:induction false} NothingEntered<V>(before: map<string, V>, good: map<string, V>)
    ensures Entered(before, good, good.Keys) == before
    ensures Entered(before, good, {}) == before + good
  {
    assert good - good.Keys == map[] && good - {} == good;
  }

  lemma {:induction false} OneEntered<V>(before: map<string, V>, good: map<string, V>, todo: set<string>, n: string)
    requires before.Keys !! good.Keys && todo <= good.Keys && n in todo
    ensures n !in Entered(before, good, todo)
    ensures Entered(before, good, todo - {n}) == Entered(before, good, todo)[n := good[n]]
  {
  }

  lemma TargetsMeet(
    results: map<string, Outcome>, targets: map<string, RenderedTarget>, kept: map<string, RenderedTarget>,
    affected: set<string>)
    requires kept == targets - set n | n in targets && (n !in results.Keys || n in affected)
    ensures var good := Good(map n | n in results && n in affected :: results[n]);
      kept.Keys !! good.Keys && kept + good == TargetsAfter(results, targets, affected)
  {
  }

  lemma ErrorsMeet(render: Renderer, errors: map<string, Failure>, specs: seq<TargetSpec>, affected: set<string>)
    requires NamesAreUnique(specs) && LabelsErrors(render)
    ensures Inserted(map n | n in errors && n in Names(specs) && n !in affected :: errors[n],
                     ErrorList(render, Selected(specs, affected))) ==
            ErrorsAfter(Results(render, specs), errors, affected)
  {
    var kept := map n | n in errors && n in Names(specs) && n !in affected :: errors[n];
    SelectedNamesAreUnique(specs, affected);
    InsertedErrors(render, kept, Selected(specs, affected));
    SelectedResults(render, specs, affected);
    ResultsByName(render, specs);
    ErrorsUnion(Results(render, specs), errors, kept, affected);
  }

  lemma ErrorsUnion(
    results: map<string, Outcome>, errors: map<string, Failure>, kept: map<string, Failure>, affected: set<string>)
    requires kept == map n | n in errors && n in results.Keys && n !in affected :: errors[n]
    ensures kept + Bad(map n | n in results && n in affected :: results[n]) == ErrorsAfter(results, errors, affected)
  {
  }

  lemma {:induction false} SelectedNamesAreUnique(specs: seq<TargetSpec>, affected: set<string>)
    requires NamesAreUnique(specs)
    ensures NamesAreUnique(Selected(specs, affected))
    decreases |specs|
  {
    if specs != [] {
      var init, last := specs[..|specs| - 1], specs[|specs| - 1];
      var r := Selected(init, affected);
      SelectedNamesAreUnique(init, affected);
      forall i | 0 <= i < |r| ensures r[i].name != last.name {
        assert r[i] in init;
        var j :| 0 <= j < |init| && init[j] == r[i];
        assert specs[j] == r[i];
      }
    }
  }

  lemma NewName(specs: seq<TargetSpec>)
    requires NamesAreUnique(specs) && specs != []
    ensures specs[|specs| - 1].name !in Names(specs[..|specs| - 1])
    ensures NamesAreUnique(specs[..|specs| - 1])
  {
    var init, last := specs[..|specs| - 1], specs[|specs| - 1];
    forall s | s in init ensures s.name != last.name {
      var j :| 0 <= j < |init| && init[j] == s;
      assert specs[j] == s;
    }
  }

  lemma {:induction false} InsertedErrors(render: Renderer, errors: map<string, Failure>, selected: seq<TargetSpec>)
    requires NamesAreUnique(selected) && LabelsErrors(render)
    ensures Inserted(errors, ErrorList(render, selected)) == errors + Bad(Results(render, selected))
    decreases |selected|
  {
    if selected != [] {
      var init, last := selected[..|selected| - 1], selected[|selected| - 1];
      NewName(selected);
      ResultsByName(render, init);
      InsertedErrors(render, errors, init);
      ReportStep(Results(render, init), last.name, render(last));
      var e: seq<Failure> := match render(last) case Err(e) => [e] case Ok(_) => [];
      InsertedSnoc(errors, ErrorList(render, init), e);
      InsertedLast(errors, Bad(Results(render, init)), last.name, render(last));
    }
  }

  lemma InsertedLast(errors: map<string, Failure>, bad: map<string, Failure>, n: string, r: Outcome)
    requires r.Err? ==> r.error.target == Some(n)
    ensures Inserted(errors + bad, match r case Err(e) => [e] case Ok(_) => []) ==
            errors + (if r.Err? then bad[n := r.error] else bad)
  {
    if r.Err? {
      assert [r.error][1..] == [];
      assert Inserted((errors + bad)[n := r.error], []) == (errors + bad)[n := r.error];
      assert (errors + bad)[n := r.error] == errors + bad[n := r.error];
    }
  }

  lemma {:induction false} InsertedSnoc(errors: map<string, Failure>, a: seq<Failure>, b: seq<Failure>)
    ensures Inserted(errors, a + b) == Inserted(Inserted(errors, a), b)
    decreases |a|
  {
    if a == [] {
      assert a + b == b;
    } else {
      assert (a + b)[1..] == a[1..] + b;
      InsertedSnoc(if a[0].target.Some? then errors[a[0].target.value := a[0]] else errors, a[1..], b);
    }
  }

  /** What one more outcome adds to a report. */
  lemma ReportStep(results: map<string, Outcome>, n: string, r: Outcome)
    requires n !in results
    ensures Good(results[n := r]) == if r.Ok? then Good(results)[n := r.value] else Good(results)
    ensures Bad(results[n := r]) == if r.Err? then Bad(results)[n := r.error] else Bad(results)
  {
  }

  lemma OneMore(render: Renderer, selected: seq<TargetSpec>, i: nat)
    requires i < |selected| && NamesAreUnique(selected)
    ensures var more, before, r := selected[..i + 1], selected[..i], render(selected[i]);
      && Results(render, more) == Results(render, before)[selected[i].name := r]
      && selected[i].name !in Results(render, before)
      && ErrorList(render, more) == ErrorList(render, before) + (match r case Err(e) => [e] case Ok(_) => [])
  {
    var more, before := selected[..i + 1], selected[..i];
    assert more[..|more| - 1] == before && more[|more| - 1] == selected[i];
    NewName(more);
    ResultsByName(render, before);
  }
}
