/** What every interleaving of synchronization actions keeps. */
module SyncTheorems {
  import opened Common
  import opened StableSort
  import opened RevisionLedger
  import opened SyncRuns

  // ---------- How a run may change ----------

  /** Everything a run was planned with. */
  predicate SameIdentity(x: Run, y: Run) {
    y == x.(state := y.state, writtenAt := y.writtenAt, deferredUntil := y.deferredUntil, startedAt := y.startedAt,
            finishedAt := y.finishedAt, orphaned := y.orphaned, pages := y.pages, received := y.received,
            applied := y.applied, duplicates := y.duplicates, errors := y.errors)
  }

  /** No edge, one allowed edge, or the start of a run followed by an allowed edge. */
  predicate Reaches(from: RunState, to: RunState) {
    from == to || Transition(from, to) || (Transition(from, Running) && Transition(Running, to))
  }

  /** Terminal runs never change; others keep their identity and follow the transition table. */
  predicate Evolves(x: Run, y: Run) {
    SameIdentity(x, y) && Reaches(x.state, y.state) && (!x.state.Active() ==> y == x)
  }

  predicate AllEvolve(s: System, s': System) {
    |s.runs| <= |s'.runs| && forall i | 0 <= i < |s.runs| :: Evolves(s.runs[i], s'.runs[i])
  }

  lemma {:induction false} ReleaseEffect(s: System, ids: seq<nat>, now: int)
    ensures var s' := ReleaseAll(s, ids, now);
      && s' == s.(runs := s'.runs) && |s'.runs| == |s.runs|
      && forall i | 0 <= i < |s.runs| ::
           s'.runs[i] == if i in ids && s.runs[i].state.Active() then Released(s.runs[i], now) else s.runs[i]
  {
    if |ids| > 0 {
      ReleaseEffect(s, ids[..|ids| - 1], now);
      assert ids == ids[..|ids| - 1] + [ids[|ids| - 1]];
    }
  }

  lemma WithRunEvolves(s: System, id: nat, x: Run)
    requires id < |s.runs| && Evolves(s.runs[id], x)
    ensures AllEvolve(s, WithRun(s, id, x))
  {}

  lemma PageEvolves(s: System, id: nat, page: Page, now: int)
    requires id < |s.runs| && s.runs[id].state.Active() && PageApplied(s, id, page, now).Ok?
    ensures AllEvolve(s, PageApplied(s, id, page, now).value)
  {
    var x := s.runs[id];
    hide UpsertedAll, MetricFits, OwnAll;
    var y := PageApplied(s, id, page, now).value.runs[id];
    assert Evolves(x, y);
  }

  lemma ApplyEvolves(s: System, a: Action)
    requires a.Apply?
    ensures AllEvolve(s, Step(s, a))
  {
    hide PageApplied, FenceOk;
    if a.id < |s.runs| && s.runs[a.id].state.Active() && PageApplied(s, a.id, a.page, a.now).Ok? {
      PageEvolves(s, a.id, a.page, a.now);
    }
  }

  lemma CancelEvolves(s: System, a: Action)
    requires a.Cancel? || a.Queue? || a.Restart?
    ensures AllEvolve(s, Step(s, a))
  {
    hide FenceOk;
  }

  lemma FailEvolves(s: System, a: Action)
    requires a.Fail?
    ensures AllEvolve(s, Step(s, a))
  {
    hide FenceOk, AllEvolve;
    if a.id < |s.runs| && s.runs[a.id].state.Active() {
      var y := Step(s, a).runs[a.id];
      assert Evolves(s.runs[a.id], y);
      WithRunEvolves(s, a.id, y);
      assert Step(s, a) == WithRun(s, a.id, y);
    } else {
      Unmoved(s);
    }
  }

  lemma Unmoved(s: System)
    ensures AllEvolve(s, s)
  {}

  lemma PlanEvolves(s: System, a: Action)
    requires a.Plan? || a.WriteSource? || a.WriteConnection?
    ensures AllEvolve(s, Step(s, a))
  {
    hide PlanRefusal, WrittenSource, WrittenConnection;
  }

  lemma StepEvolves(s: System, a: Action)
    ensures AllEvolve(s, Step(s, a))
  {
    if a.Apply? {
      ApplyEvolves(s, a);
    } else if a.Fail? {
      FailEvolves(s, a);
    } else if a.Cancel? || a.Queue? || a.Restart? {
      CancelEvolves(s, a);
    } else if a.Watchdog? {
      hide RecoverStuckRuns;
      WatchdogIsRelease(s, a.now, a.plannedMinutes, a.activeHours, a.limit, a.locked);
    } else {
      PlanEvolves(s, a);
    }
  }

  lemma ClampAtLeast(low: int, x: int, high: int)
    ensures low <= Clamp(low, x, high)
  {}

  lemma WatchdogIsRelease(s: System, now: int, plannedMinutes: int, activeHours: int, limit: int, locked: set<nat>)
    ensures var s' := RecoverStuckRuns(s, now, plannedMinutes, activeHours, limit, locked);
      && s' == s.(runs := s'.runs) && |s'.runs| == |s.runs|
      && forall i | 0 <= i < |s.runs| ::
        s'.runs[i] == s.runs[i] || (s.runs[i].state.Active() && s'.runs[i] == Released(s.runs[i], now))
  {
    hide StuckRuns, ReleaseAll, Released, Max;
    var ids := StuckRuns(s, now - Clamp(5, plannedMinutes, 24 * 60) * MINUTE,
      now - Clamp(1, activeHours, 7 * 24) * HOUR, locked);
    var n := Min(|ids|, Clamp(1, limit, 1000));
    assert 0 <= n <= |ids| by { ClampAtLeast(1, limit, 1000); }
    ReleaseEffect(s, ids[..n], now);
  }

  /** Over every interleaving, runs keep their identity, follow the transition table, and never
   *  change again once they are terminal. */
  lemma {:induction false} RunsEvolve(s: System, actions: seq<Action>, i: nat)
    requires i < |s.runs|
    ensures var s' := Steps(s, actions);
      && i < |s'.runs| && SameIdentity(s.runs[i], s'.runs[i])
      && (!s.runs[i].state.Active() ==> s'.runs[i] == s.runs[i])
  {
    if |actions| > 0 {
      RunsEvolve(s, actions[..|actions| - 1], i);
      StepEvolves(Steps(s, actions[..|actions| - 1]), actions[|actions| - 1]);
    }
  }

  // ---------- One owner per scope, one run per occurrence ----------

  predicate SameScope(x: Run, y: Run) {
    x.source == y.source && x.request.scope == y.request.scope
  }

  predicate SameKey(x: Run, y: Run) {
    SameScope(x, y) && x.request.trigger == y.request.trigger && x.request.triggerRef == y.request.triggerRef
  }

  predicate Unique(s: System) {
    forall i, j | 0 <= i < j < |s.runs| ::
      && !SameKey(s.runs[i], s.runs[j])
      && !(SameScope(s.runs[i], s.runs[j]) && s.runs[i].state.Active() && s.runs[j].state.Active())
  }

  lemma EvolvedUnique(s: System, s': System)
    requires Unique(s) && AllEvolve(s, s') && |s'.runs| == |s.runs|
    ensures Unique(s')
  {
    forall i, j | 0 <= i < j < |s'.runs|
      ensures !SameKey(s'.runs[i], s'.runs[j])
      ensures !(SameScope(s'.runs[i], s'.runs[j]) && s'.runs[i].state.Active() && s'.runs[j].state.Active())
    {
      assert Evolves(s.runs[i], s'.runs[i]) && Evolves(s.runs[j], s'.runs[j]);
    }
  }

  lemma StepUnique(s: System, a: Action)
    requires Unique(s)
    ensures Unique(Step(s, a))
  {
    StepEvolves(s, a);
    if a.Plan? {
      hide PlanRefusal, AllEvolve;
    } else {
      StepKeepsCount(s, a);
      hide Step;
      EvolvedUnique(s, Step(s, a));
    }
  }

  lemma StepKeepsCount(s: System, a: Action)
    requires !a.Plan?
    ensures |Step(s, a).runs| == |s.runs|
  {
    hide UpsertedAll, MetricFits, FenceOk, RecoverStuckRuns;
    if a.Watchdog? { WatchdogIsRelease(s, a.now, a.plannedMinutes, a.activeHours, a.limit, a.locked); }
  }

  /** At most one run per source, kind and scope is active, and each occurrence has one run. */
  lemma {:induction false} AlwaysUnique(s: System, actions: seq<Action>)
    requires Unique(s)
    ensures Unique(Steps(s, actions))
  {
    if |actions| > 0 {
      AlwaysUnique(s, actions[..|actions| - 1]);
      StepUnique(Steps(s, actions[..|actions| - 1]), actions[|actions| - 1]);
    }
  }

  // ---------- Cursors ----------

  /** The pages applied by all runs that share a cursor. */
  function PagesOf(runs: seq<Run>, key: CursorKey): nat {
    if |runs| == 0 then 0
    else PagesOf(runs[..|runs| - 1], key) + if runs[|runs| - 1].Key() == key then runs[|runs| - 1].pages else 0
  }

  /** How far a cursor's sequence is ahead of the pages of its runs. */
  function Ahead(s: System, key: CursorKey): int {
    CursorAt(s, key).sequence - PagesOf(s.runs, key)
  }

  /** The action clears this cursor: its run is still planned, its fence holds, and the cursor
   *  has been used.  Each of these can be read off before the restart. */
  predicate RestartsUsed(s: System, a: Action, key: CursorKey) {
    && a.Restart? && a.id < |s.runs| && s.runs[a.id].state.Planned? && FenceOk(s, s.runs[a.id])
    && s.runs[a.id].Key() == key && CursorAt(s, key).Used()
  }

  /** How often the actions restart a used cursor. */
  function UsedRestarts(s: System, actions: seq<Action>, key: CursorKey): nat {
    if |actions| == 0 then 0
    else
      var n := |actions| - 1;
      UsedRestarts(s, actions[..n], key) + if RestartsUsed(Steps(s, actions[..n]), actions[n], key) then 1 else 0
  }

  lemma {:induction false} PagesCongruent(runs: seq<Run>, runs': seq<Run>, key: CursorKey)
    requires |runs| == |runs'| && forall i | 0 <= i < |runs| ::
      runs'[i].Key() == runs[i].Key() && runs'[i].pages == runs[i].pages
    ensures PagesOf(runs', key) == PagesOf(runs, key)
  {
    if |runs| > 0 { PagesCongruent(runs[..|runs| - 1], runs'[..|runs| - 1], key); }
  }

  lemma {:induction false} PagesUpdate(runs: seq<Run>, id: nat, x: Run, key: CursorKey)
    requires id < |runs| && x.Key() == runs[id].Key()
    ensures PagesOf(runs[id := x], key) == PagesOf(runs, key) + if x.Key() == key then x.pages - runs[id].pages else 0
  {
    var n := |runs| - 1;
    if id < n {
      assert runs[id := x][..n] == runs[..n][id := x];
      PagesUpdate(runs[..n], id, x, key);
    } else {
      assert runs[id := x][..n] == runs[..n];
    }
  }

  predicate Applies(s: System, id: nat, seen: RunState, page: Page, expected: nat, now: int) {
    id < |s.runs| && s.runs[id].state.Active() && FenceOk(s, s.runs[id])
      && ApplyPage(s, id, seen, page, expected, now).Ok?
  }

  /** A page that takes effect moves its cursor and its run's page count by one. */
  lemma ApplyAdvances(s: System, id: nat, seen: RunState, page: Page, expected: nat, now: int)
    requires Applies(s, id, seen, page, expected, now)
    ensures var s', key := ApplyPage(s, id, seen, page, expected, now).value, s.runs[id].Key();
      && CursorAt(s, key).sequence == expected && CursorAt(s', key).sequence == expected + 1
      && (forall k | k != key :: CursorAt(s', k) == CursorAt(s, k))
      && s'.runs == s.runs[id := s'.runs[id]] && s'.runs[id].pages == s.runs[id].pages + 1 && s'.runs[id].Key() == key
      && s'.sources == s.sources && s'.connections == s.connections
  {
    hide UpsertedAll, MetricFits, FenceOk, OwnAll;
  }

  /** Actions other than planning and applying pages count no page, and only the restart of a
   *  used cursor moves a sequence on. */
  lemma CountsNoPage(s: System, a: Action, key: CursorKey)
    requires !a.Plan? && !(a.Apply? && Applies(s, a.id, a.seen, a.page, a.expected, a.now))
    ensures var s' := Step(s, a);
      && |s'.runs| == |s.runs| && (forall i | 0 <= i < |s.runs| :: s'.runs[i].pages == s.runs[i].pages)
      && CursorAt(s', key).sequence == CursorAt(s, key).sequence + if RestartsUsed(s, a, key) then 1 else 0
  {
    hide PageApplied, FenceOk, RecoverStuckRuns, WrittenSource, WrittenConnection, SameIdentity;
    if a.Watchdog? {
      hide CursorAt;
      WatchdogIsRelease(s, a.now, a.plannedMinutes, a.activeHours, a.limit, a.locked);
      assert Step(s, a).cursors == s.cursors;
      SameCursors(s, Step(s, a), key);
    }
  }

  lemma SameCursors(s: System, s': System, key: CursorKey)
    requires s'.cursors == s.cursors
    ensures CursorAt(s', key) == CursorAt(s, key)
  {}

  lemma StepBalance(s: System, a: Action, key: CursorKey)
    ensures Ahead(Step(s, a), key) == Ahead(s, key) + if RestartsUsed(s, a, key) then 1 else 0
  {
    var s' := Step(s, a);
    if a.Plan? {
      hide PlanRefusal;
      if |s'.runs| > |s.runs| { assert s'.runs[..|s.runs|] == s.runs; }
    } else if a.Apply? && Applies(s, a.id, a.seen, a.page, a.expected, a.now) {
      ApplyAdvances(s, a.id, a.seen, a.page, a.expected, a.now);
      hide ApplyPage;
      PagesUpdate(s.runs, a.id, s'.runs[a.id], key);
    } else {
      hide Step, RestartsUsed;
      StepEvolves(s, a);
      CountsNoPage(s, a, key);
      PagesCongruent(s.runs, s'.runs, key);
    }
  }

  lemma {:induction false} RestartsBalance(s: System, actions: seq<Action>, key: CursorKey)
    ensures Ahead(Steps(s, actions), key) == Ahead(s, key) + UsedRestarts(s, actions, key)
  {
    if |actions| > 0 {
      RestartsBalance(s, actions[..|actions| - 1], key);
      hide Ahead, RestartsUsed;
      StepBalance(Steps(s, actions[..|actions| - 1]), actions[|actions| - 1], key);
    }
  }

  lemma {:induction false} NoneUsedIffNever(s: System, actions: seq<Action>, key: CursorKey)
    ensures UsedRestarts(s, actions, key) == 0 <==>
      forall n | 0 <= n < |actions| :: !RestartsUsed(Steps(s, actions[..n]), actions[n], key)
  {
    hide RestartsUsed, Steps;
    if |actions| > 0 {
      var m := |actions| - 1;
      NoneUsedIffNever(s, actions[..m], key);
      assert forall n | 0 <= n < m :: actions[..m][..n] == actions[..n] && actions[..m][n] == actions[n];
    }
  }

  /** A cursor whose sequence counted the pages of its runs still does after any interleaving
   *  exactly when nobody restarted it while it was used. */
  lemma CursorCountsPagesIff(s: System, actions: seq<Action>, key: CursorKey)
    requires CursorAt(s, key).sequence == PagesOf(s.runs, key)
    ensures var s' := Steps(s, actions);
      && (CursorAt(s', key).sequence == PagesOf(s'.runs, key) <==>
            forall n | 0 <= n < |actions| :: !RestartsUsed(Steps(s, actions[..n]), actions[n], key))
      && CursorAt(s', key).sequence == PagesOf(s'.runs, key) + UsedRestarts(s, actions, key)
  {
    RestartsBalance(s, actions, key);
    NoneUsedIffNever(s, actions, key);
  }

  // ---------- A restarted cursor ----------

  const SOURCE := Source(7, true, true, true, "UTC", "EUR", "", "", 0)

  const CONNECTION := Connection(7, 1, true, true, true, "google", 0, "", "", 0)

  function Configured(): System {
    System(map[1 := SOURCE], map[2 := CONNECTION], [], map[], NO_FACTS)
  }

  function CatalogRequest(occurrence: string): Request {
    Request(Scope(Catalog, "campaign", "", "customer", ""), None, "UTC", Manual, occurrence)
  }

  function FirstPage(): Page {
    Page(Catalog, [], "next", true, "", false, "", "", 0)
  }

  /** The first run stores a page and is cancelled; the next run of its scope starts over. */
  function CancelledThenRestarted(now: int): seq<Action> {
    [Plan(7, 1, 2, CatalogRequest("first"), now), Apply(0, Planned, FirstPage(), 0, now), Cancel(0, now),
     Plan(7, 1, 2, CatalogRequest("second"), now), Restart(1)]
  }

  lemma LastStep(s: System, actions: seq<Action>, n: nat)
    requires n < |actions|
    ensures Steps(s, actions[..n + 1]) == Step(Steps(s, actions[..n]), actions[n])
  {
    hide Step;
    assert actions[..n + 1][..n] == actions[..n];
  }

  lemma FiveSteps(s: System, actions: seq<Action>)
    requires |actions| == 5
    ensures Steps(s, actions)
      == Step(Step(Step(Step(Step(s, actions[0]), actions[1]), actions[2]), actions[3]), actions[4])
  {
    hide Step;
    assert actions[..5] == actions;
    assert Steps(s, actions[..0]) == s;
    hide Steps;
    LastStep(s, actions, 0);
    LastStep(s, actions, 1);
    LastStep(s, actions, 2);
    LastStep(s, actions, 3);
    LastStep(s, actions, 4);
  }

  function PlannedRun(occurrence: string, now: int): Run {
    Run(7, 1, 2, 0, 0, 0, "google", CatalogRequest(occurrence), Planned, now, now, None, None, None, false,
        0, 0, 0, 0, 0)
  }

  lemma FirstRunPaged(now: int)
    ensures var s := Step(Step(Configured(), Plan(7, 1, 2, CatalogRequest("first"), now)),
      Apply(0, Planned, FirstPage(), 0, now));
      var started := PlannedRun("first", now).(state := Running, startedAt := Some(now));
      s == Configured().(runs := [started.(pages := 1)],
        cursors := map[started.Key() := Cursor(1, "next", "", "", Some(0))])
  {
    var planned := Configured().(runs := [PlannedRun("first", now)]);
    assert Step(Configured(), Plan(7, 1, 2, CatalogRequest("first"), now)) == planned;
    assert UpsertedAll(NO_FACTS, [], Some(0)) == (NO_FACTS, []);
    assert OwnAll(Started(planned.runs[0], now), []) == [];
  }

  lemma CancelledIsReplanned(s: System, x: Run, now: int)
    requires s == Configured().(runs := [x], cursors := s.cursors) && x.source == 1
      && x.request == CatalogRequest("first")
    requires x.state.Running?
    ensures var cancelled := x.(state := Cancelled, writtenAt := now, finishedAt := Some(now));
      Step(Step(s, Cancel(0, now)), Plan(7, 1, 2, CatalogRequest("second"), now))
        == s.(runs := [cancelled, PlannedRun("second", now)])
  {
    var cancelled := x.(state := Cancelled, writtenAt := now, finishedAt := Some(now));
    assert Step(s, Cancel(0, now)) == s.(runs := [cancelled]);
  }

  /** Restarting a planned run's used cursor moves its sequence on, and no page. */
  lemma RestartMovesOn(s: System, id: nat, key: CursorKey)
    requires RestartsUsed(s, Restart(id), key)
    ensures var s' := Step(s, Restart(id));
      s' == s.(cursors := s'.cursors) && CursorAt(s', key).sequence == CursorAt(s, key).sequence + 1
  {
    hide FenceOk;
  }

  lemma PagesOfPair(x: Run, y: Run, key: CursorKey)
    requires x.Key() == key && y.Key() == key
    ensures PagesOf([x, y], key) == x.pages + y.pages
  {
    assert [x][..0] == [];
    assert PagesOf([x], key) == x.pages;
    assert [x, y][..1] == [x];
  }

  /** Then the sequence of the cursor is two, but only one page was ever applied to it. */
  lemma RestartedCursorIsAhead(now: int)
    ensures var s := Steps(Configured(), CancelledThenRestarted(now));
      && |s.runs| == 2 && s.runs[1].state.Planned?
      && CursorAt(s, s.runs[1].Key()).sequence == 2 && PagesOf(s.runs, s.runs[1].Key()) == 1
  {
    FiveSteps(Configured(), CancelledThenRestarted(now));
    FirstRunPaged(now);
    var first, second := PlannedRun("first", now).(state := Running, startedAt := Some(now), pages := 1),
      PlannedRun("second", now);
    var paged := Configured().(runs := [first], cursors := map[first.Key() := Cursor(1, "next", "", "", Some(0))]);
    CancelledIsReplanned(paged, first, now);
    var cancelled := first.(state := Cancelled, writtenAt := now, finishedAt := Some(now));
    var replanned := paged.(runs := [cancelled, second]);
    assert second.Key() == first.Key() == cancelled.Key();
    assert FenceOk(replanned, second);
    hide Step, Steps, PagesOf, FenceOk;
    RestartMovesOn(replanned, 1, first.Key());
    PagesOfPair(cancelled, second, first.Key());
  }

  lemma StepMonotone(s: System, a: Action, key: CursorKey)
    ensures CursorAt(s, key).sequence <= CursorAt(Step(s, a), key).sequence
  {
    if a.Apply? {
      if Applies(s, a.id, a.seen, a.page, a.expected, a.now) {
        ApplyAdvances(s, a.id, a.seen, a.page, a.expected, a.now);
        hide ApplyPage;
      } else {
        hide PageApplied;
      }
    } else if a.Watchdog? {
      hide RecoverStuckRuns;
      WatchdogIsRelease(s, a.now, a.plannedMinutes, a.activeHours, a.limit, a.locked);
    } else {
      hide PlanRefusal, FenceOk;
    }
  }

  lemma {:induction false} CursorMonotone(s: System, actions: seq<Action>, key: CursorKey)
    ensures CursorAt(s, key).sequence <= CursorAt(Steps(s, actions), key).sequence
  {
    if |actions| > 0 {
      CursorMonotone(s, actions[..|actions| - 1], key);
      StepMonotone(Steps(s, actions[..|actions| - 1]), actions[|actions| - 1], key);
    }
  }

  /** Two applications that expect the same sequence of one cursor never both take effect,
   *  whatever happens in between. */
  lemma ExpectedOnce(s: System, first: Action, between: seq<Action>, second: Action)
    requires first.Apply? && Applies(s, first.id, first.seen, first.page, first.expected, first.now)
    requires second.Apply? && second.id < |Steps(Step(s, first), between).runs|
    requires Steps(Step(s, first), between).runs[second.id].Key() == s.runs[first.id].Key()
    requires second.expected == first.expected
    ensures !Applies(Steps(Step(s, first), between), second.id, second.seen, second.page, second.expected, second.now)
  {
    var later := Steps(Step(s, first), between);
    ApplyAdvances(s, first.id, first.seen, first.page, first.expected, first.now);
    hide ApplyPage, Steps;
    CursorMonotone(Step(s, first), between, s.runs[first.id].Key());
    if Applies(later, second.id, second.seen, second.page, second.expected, second.now) {
      ApplyAdvances(later, second.id, second.seen, second.page, second.expected, second.now);
    }
  }

  // ---------- Counters ----------

  predicate CountersFit(x: Run) {
    x.applied + x.duplicates <= x.received && (x.state.Succeeded? ==> x.errors == 0)
  }

  predicate CountersExact(x: Run) {
    x.applied + x.duplicates == x.received
  }

  lemma {:induction false} DuplicatesBounded(ds: seq<Disposition>)
    ensures Duplicates(ds) <= |ds|
  {
    if |ds| > 0 { DuplicatesBounded(ds[..|ds| - 1]); }
  }

  lemma {:induction false} OneDispositionEach(f: Facts, items: seq<Item>, run: Option<nat>)
    ensures |UpsertedAll(f, items, run).1| == |items|
  {
    if |items| > 0 { OneDispositionEach(f, items[..|items| - 1], run); }
  }

  predicate PendingPage(page: Page) {
    page.jobRef != "" && page.jobPending
  }

  /** A page adds its items to the received ones and, unless its provider job is still pending,
   *  each of them to the applied or to the duplicate ones. */
  lemma ApplyCounts(s: System, id: nat, seen: RunState, page: Page, expected: nat, now: int)
    requires Applies(s, id, seen, page, expected, now)
    ensures var x, y := s.runs[id], ApplyPage(s, id, seen, page, expected, now).value.runs[id];
      && y.received == x.received + |page.items|
      && y.errors == x.errors + page.errors
      && y.applied + y.duplicates == x.applied + x.duplicates + (if PendingPage(page) then 0 else |page.items|)
      && (!y.state.Active() <==> !PendingPage(page) && !page.hasMore)
      && (!y.state.Active() ==> y.state == if y.errors > 0 then Partial else Succeeded)
  {
    var x := Started(s.runs[id], now);
    OneDispositionEach(s.facts, OwnAll(x, page.items), Some(id));
    DuplicatesBounded(UpsertedAll(s.facts, OwnAll(x, page.items), Some(id)).1);
    hide UpsertedAll, MetricFits, FenceOk, Duplicates;
  }

  predicate QuietAction(a: Action) {
    a.Apply? && PendingPage(a.page) ==> a.page.items == []
  }

  lemma ApplyCounters(s: System, a: Action, i: nat)
    requires i < |s.runs| && a.Apply? && Applies(s, a.id, a.seen, a.page, a.expected, a.now)
    ensures i < |Step(s, a).runs|
    ensures CountersFit(s.runs[i]) ==> CountersFit(Step(s, a).runs[i])
    ensures CountersExact(s.runs[i]) && QuietAction(a) ==> CountersExact(Step(s, a).runs[i])
  {
    hide ApplyPage, Applies, CursorAt;
    AppliesOk(s, a);
    ApplyAdvances(s, a.id, a.seen, a.page, a.expected, a.now);
    ApplyCounts(s, a.id, a.seen, a.page, a.expected, a.now);
  }

  lemma AppliesOk(s: System, a: Action)
    requires a.Apply? && Applies(s, a.id, a.seen, a.page, a.expected, a.now)
    ensures a.id < |s.runs| && s.runs[a.id].state.Active() && ApplyPage(s, a.id, a.seen, a.page, a.expected, a.now).Ok?
  {
    hide ApplyPage, FenceOk;
  }

  lemma QuietCounters(s: System, a: Action, i: nat)
    requires i < |s.runs| && !(a.Apply? && Applies(s, a.id, a.seen, a.page, a.expected, a.now))
    ensures i < |Step(s, a).runs|
    ensures CountersFit(s.runs[i]) ==> CountersFit(Step(s, a).runs[i])
    ensures CountersExact(s.runs[i]) ==> CountersExact(Step(s, a).runs[i])
  {
    hide PageApplied, PlanRefusal, RecoverStuckRuns, FenceOk;
    if a.Watchdog? { WatchdogIsRelease(s, a.now, a.plannedMinutes, a.activeHours, a.limit, a.locked); }
  }

  lemma StepCounters(s: System, a: Action, i: nat)
    requires i < |s.runs|
    ensures i < |Step(s, a).runs|
    ensures CountersFit(s.runs[i]) ==> CountersFit(Step(s, a).runs[i])
    ensures CountersExact(s.runs[i]) && QuietAction(a) ==> CountersExact(Step(s, a).runs[i])
  {
    hide Step, CountersFit, CountersExact, QuietAction, Applies;
    if a.Apply? && Applies(s, a.id, a.seen, a.page, a.expected, a.now) {
      ApplyCounters(s, a, i);
    } else {
      QuietCounters(s, a, i);
    }
  }

  /** Applied plus duplicate items never exceed the received ones, and equal them when no page
   *  with a pending provider job carries items; a succeeded run has seen no error. */
  lemma {:induction false} CountersAlwaysFit(s: System, actions: seq<Action>)
    requires forall x | x in s.runs :: CountersFit(x) && CountersExact(x)
    ensures forall x | x in Steps(s, actions).runs :: CountersFit(x)
    ensures (forall a | a in actions :: QuietAction(a)) ==> forall x | x in Steps(s, actions).runs :: CountersExact(x)
  {
    if |actions| > 0 {
      var n := |actions| - 1;
      CountersAlwaysFit(s, actions[..n]);
      var before, after := Steps(s, actions[..n]), Steps(s, actions);
      forall i | 0 <= i < |after.runs|
        ensures CountersFit(after.runs[i])
        ensures (forall a | a in actions :: QuietAction(a)) ==> CountersExact(after.runs[i])
      {
        if i < |before.runs| {
          assert before.runs[i] in before.runs;
          StepCounters(before, actions[n], i);
        } else {
          NewRunsCountNothing(before, actions[n], i);
        }
      }
    }
  }

  lemma NewRunsCountNothing(s: System, a: Action, i: nat)
    requires |s.runs| <= i < |Step(s, a).runs|
    ensures CountersFit(Step(s, a).runs[i]) && CountersExact(Step(s, a).runs[i])
  {
    if a.Plan? { hide PlanRefusal; } else { StepKeepsCount(s, a); assert false; }
  }

  // ---------- Facts ----------

  lemma PageAgrees(f: Facts, items: seq<Item>, run: Option<nat>)
    requires Agrees(f)
    ensures Agrees(UpsertedAll(f, items, run).0)
  {
    hide Agrees, UpsertedAll, Recorded;
    PageIsHistory(f, items, run);
    HistoryAgrees(f, seq(|items|, i requires 0 <= i < |items| => Observation(items[i], run)));
  }

  lemma StepFacts(s: System, a: Action)
    requires Agrees(s.facts)
    ensures Agrees(Step(s, a).facts)
  {
    if a.Apply? && Applies(s, a.id, a.seen, a.page, a.expected, a.now) {
      PageAgrees(s.facts, OwnAll(Started(s.runs[a.id], a.now), a.page.items), Some(a.id));
      hide Agrees, UpsertedAll, MetricFits, FenceOk, OwnAll, Started;
    } else {
      hide Agrees, PageApplied, FenceOk, PlanRefusal, RecoverStuckRuns;
      if a.Watchdog? { WatchdogIsRelease(s, a.now, a.plannedMinutes, a.activeHours, a.limit, a.locked); }
    }
  }

  /** Whatever is interleaved, every stored row agrees with its revisions. */
  lemma {:induction false} FactsAlwaysAgree(s: System, actions: seq<Action>)
    requires Agrees(s.facts)
    ensures Agrees(Steps(s, actions).facts)
  {
    if |actions| > 0 {
      FactsAlwaysAgree(s, actions[..|actions| - 1]);
      StepFacts(Steps(s, actions[..|actions| - 1]), actions[|actions| - 1]);
    }
  }

  lemma {:induction false} AllDuplicates(ds: seq<Disposition>)
    requires forall i | 0 <= i < |ds| :: ds[i] == Duplicate
    ensures Duplicates(ds) == |ds|
  {
    if |ds| > 0 { AllDuplicates(ds[..|ds| - 1]); }
  }

  /** A page delivered again under the next expected sequence counts only duplicates and writes
   *  no revision. */
  lemma ReplayedPageDuplicates(s: System, id: nat, seen: RunState, page: Page, expected: nat, now: int, later: int)
    requires Applies(s, id, seen, page, expected, now) && !PendingPage(page) && page.hasMore
    requires DistinctItems(OwnAll(s.runs[id], page.items))
    ensures var once := ApplyPage(s, id, seen, page, expected, now).value;
      var again := ApplyPage(once, id, seen, page, expected + 1, later);
      && again.Ok? && again.value.facts.revisions == once.facts.revisions
      && again.value.runs[id].applied == once.runs[id].applied
      && again.value.runs[id].duplicates == once.runs[id].duplicates + |page.items|
  {
    var x := Started(s.runs[id], now);
    var items := OwnAll(x, page.items);
    assert items == OwnAll(s.runs[id], page.items);
    AppliedTwice(s, id, seen, page, expected, now, later);
    ReplayOnlyDuplicates(s.facts, items, Some(id), Some(id));
    var ds := UpsertedAll(UpsertedAll(s.facts, items, Some(id)).0, items, Some(id)).1;
    AllDuplicates(ds);
    hide UpsertedAll, ApplyPage, OwnAll, DistinctItems;
  }

  /** What a page that is neither pending nor the last one leaves behind. */
  lemma AppliedPage(s: System, id: nat, seen: RunState, page: Page, expected: nat, now: int)
    requires Applies(s, id, seen, page, expected, now) && !PendingPage(page) && page.hasMore
    ensures var items := OwnAll(s.runs[id], page.items);
      var s' := ApplyPage(s, id, seen, page, expected, now).value;
      var (facts, ds) := UpsertedAll(s.facts, items, Some(id));
      && s'.facts == facts && id < |s'.runs| && s'.runs[id].state == Running
      && s'.runs[id].request == s.runs[id].request && s'.runs[id].source == s.runs[id].source
      && s'.runs[id].applied == s.runs[id].applied + Max(0, |ds| - Duplicates(ds))
      && s'.runs[id].duplicates == s.runs[id].duplicates + Duplicates(ds)
  {
    assert OwnAll(Started(s.runs[id], now), page.items) == OwnAll(s.runs[id], page.items);
    hide UpsertedAll, OwnAll, FenceOk, MetricFits, Duplicates;
  }

  /** A page that was applied once can be applied again under the next expected sequence. */
  lemma AppliesAgain(s: System, id: nat, seen: RunState, page: Page, expected: nat, now: int, later: int)
    requires Applies(s, id, seen, page, expected, now) && !PendingPage(page) && page.hasMore
    ensures Applies(ApplyPage(s, id, seen, page, expected, now).value, id, seen, page, expected + 1, later)
  {
    ApplyAdvances(s, id, seen, page, expected, now);
    AppliedPage(s, id, seen, page, expected, now);
    var once := ApplyPage(s, id, seen, page, expected, now).value;
    var x := s.runs[id];
    var y := once.runs[id];
    assert y == x.(state := y.state, writtenAt := y.writtenAt, startedAt := y.startedAt, pages := y.pages,
                   received := y.received, applied := y.applied, duplicates := y.duplicates, errors := y.errors) by {
      hide UpsertedAll, OwnAll, FenceOk, MetricFits, Duplicates;
    }
    FenceFollows(s, once, x, y);
    assert page.kind.Metrics? ==> forall item | item in page.items :: MetricFits(s, Started(x, now), item) by {
      hide UpsertedAll, OwnAll, FenceOk;
    }
    hide UpsertedAll, OwnAll, FenceOk, Duplicates;
    assert forall item | item in page.items ::
      MetricFits(once, Started(once.runs[id], later), item) == MetricFits(s, Started(x, now), item);
    hide MetricFits;
  }

  lemma FenceFollows(s: System, s': System, x: Run, y: Run)
    requires s'.sources == s.sources && s'.connections == s.connections && FenceOk(s, x)
    requires y.source == x.source && y.connection == x.connection && y.sourceRevision == x.sourceRevision
    requires y.bindingRevision == x.bindingRevision && y.profileRevision == x.profileRevision
      && y.adapterKey == x.adapterKey
    ensures FenceOk(s', y)
  {}

  lemma AppliedTwice(s: System, id: nat, seen: RunState, page: Page, expected: nat, now: int, later: int)
    requires Applies(s, id, seen, page, expected, now) && !PendingPage(page) && page.hasMore
    ensures var items := OwnAll(s.runs[id], page.items);
      var once := ApplyPage(s, id, seen, page, expected, now).value;
      var again := ApplyPage(once, id, seen, page, expected + 1, later);
      var (facts, ds) := UpsertedAll(once.facts, items, Some(id));
      && once.facts == UpsertedAll(s.facts, items, Some(id)).0
      && again.Ok? && again.value.facts == facts
      && again.value.runs[id].applied == once.runs[id].applied + Max(0, |ds| - Duplicates(ds))
      && again.value.runs[id].duplicates == once.runs[id].duplicates + Duplicates(ds)
  {
    hide UpsertedAll, OwnAll, ApplyPage, FenceOk, MetricFits, Duplicates, PendingPage;
    var once := ApplyPage(s, id, seen, page, expected, now).value;
    AppliedPage(s, id, seen, page, expected, now);
    OwnedAlike(s.runs[id], once.runs[id], page.items);
    AppliesAgain(s, id, seen, page, expected, now, later);
    AppliedPage(once, id, seen, page, expected + 1, later);
  }

  lemma OwnedAlike(x: Run, y: Run, items: seq<Item>)
    requires x.source == y.source
    ensures OwnAll(x, items) == OwnAll(y, items)
  {}
}
