/** Which configuration writes stop a run, and which runs the watchdog releases. */
module SyncFencing {
  import opened Common
  import opened StableSort
  import opened SyncRuns
  import opened SyncTheorems

  // ---------- Revisions stand for the whole fence ----------

  /** A run's revisions are never ahead of its configuration, and while they are equal the
   *  configuration is still the one the run was planned under. */
  predicate RunFenced(s: System, x: Run) {
    && x.source in s.sources && x.connection in s.connections
    && var source, c := s.sources[x.source], s.connections[x.connection];
    && c.source == x.source
    && x.sourceRevision <= source.revision && (x.sourceRevision == source.revision ==> Readable(source))
    && x.bindingRevision <= c.bindingRevision
    && (x.bindingRevision == c.bindingRevision ==>
      Ready(c) && c.adapterKey == x.adapterKey && c.profileRevision == x.profileRevision)
  }

  predicate Fenced(s: System) {
    forall i | 0 <= i < |s.runs| :: RunFenced(s, s.runs[i])
  }

  lemma SameConfiguration(s: System, a: Action)
    requires !a.WriteSource? && !a.WriteConnection?
    ensures Step(s, a).sources == s.sources && Step(s, a).connections == s.connections
  {
    hide FenceOk, PlanRefusal, RecoverStuckRuns;
    if a.Watchdog? { WatchdogIsRelease(s, a.now, a.plannedMinutes, a.activeHours, a.limit, a.locked); }
  }

  lemma StepFenced(s: System, a: Action)
    requires Fenced(s)
    ensures Fenced(Step(s, a))
  {
    var s' := Step(s, a);
    if a.WriteSource? || a.WriteConnection? {
      forall i | 0 <= i < |s'.runs| ensures RunFenced(s', s'.runs[i]) { assert RunFenced(s, s.runs[i]); }
    } else {
      SameConfiguration(s, a);
      StepEvolves(s, a);
      PlannedFenced(s, a);
      hide Step, RunFenced;
      forall i | 0 <= i < |s'.runs| ensures RunFenced(s', s'.runs[i]) {
        if i < |s.runs| { assert Evolves(s.runs[i], s'.runs[i]); SameFence(s, s', s.runs[i], s'.runs[i]); }
      }
    }
  }

  lemma SameFence(s: System, s': System, x: Run, y: Run)
    requires RunFenced(s, x) && SameIdentity(x, y) && s'.sources == s.sources && s'.connections == s.connections
    ensures RunFenced(s', y)
  {}

  lemma PlannedFenced(s: System, a: Action)
    requires !a.WriteSource? && !a.WriteConnection?
    ensures forall i | |s.runs| <= i < |Step(s, a).runs| :: RunFenced(Step(s, a), Step(s, a).runs[i])
  {
    if !a.Plan? { StepKeepsCount(s, a); }
  }

  lemma {:induction false} AlwaysFenced(s: System, actions: seq<Action>)
    requires Fenced(s)
    ensures Fenced(Steps(s, actions))
  {
    if |actions| > 0 {
      AlwaysFenced(s, actions[..|actions| - 1]);
      StepFenced(Steps(s, actions[..|actions| - 1]), actions[|actions| - 1]);
    }
  }

  /** Equal revisions imply every other condition of the fence. */
  lemma FenceIsRevisions(s: System, i: nat)
    requires Fenced(s) && i < |s.runs|
    ensures var x := s.runs[i];
      && x.source in s.sources && x.connection in s.connections
      && (FenceOk(s, x) <==>
            && s.sources[x.source].revision == x.sourceRevision
            && s.connections[x.connection].bindingRevision == x.bindingRevision)
  {
    assert RunFenced(s, s.runs[i]);
  }

  // ---------- Writes since the plan ----------

  function SourceWrites(actions: seq<Action>, source: nat): nat {
    if |actions| == 0 then 0
    else
      var a := actions[|actions| - 1];
      SourceWrites(actions[..|actions| - 1], source) +
        if a.WriteSource? && a.source == source && a.sourceValues.Bearing() then 1 else 0
  }

  function ConnectionWrites(actions: seq<Action>, connection: nat): nat {
    if |actions| == 0 then 0
    else
      var a := actions[|actions| - 1];
      ConnectionWrites(actions[..|actions| - 1], connection) +
        if a.WriteConnection? && a.connection == connection && a.connectionValues.Bearing() then 1 else 0
  }

  /** A configuration revision counts the writes to its revision-bearing fields. */
  lemma {:induction false} RevisionsCountWrites(s: System, actions: seq<Action>, source: nat, connection: nat)
    requires source in s.sources && connection in s.connections
    ensures var s' := Steps(s, actions);
      && source in s'.sources && s'.sources[source].revision == s.sources[source].revision
        + SourceWrites(actions, source)
      && connection in s'.connections
      && s'.connections[connection].bindingRevision == s.connections[connection].bindingRevision
        + ConnectionWrites(actions, connection)
  {
    if |actions| > 0 {
      var before, a := Steps(s, actions[..|actions| - 1]), actions[|actions| - 1];
      RevisionsCountWrites(s, actions[..|actions| - 1], source, connection);
      if !a.WriteSource? && !a.WriteConnection? { SameConfiguration(before, a); hide Step; }
    }
  }

  /** A run's fence holds exactly while no revision-bearing field of its source or connection
   *  has been written since it was planned, so only then a page of it can take effect. */
  lemma FenceIffUnwritten(s: System, company: nat, source: nat, connection: nat, asked: Request, now: int,
                          actions: seq<Action>)
    requires Fenced(s) && PlanRun(s, company, source, connection, asked, now).Ok?
    requires PlanRun(s, company, source, connection, asked, now).value.1 == |s.runs|
    ensures var planned := PlanRun(s, company, source, connection, asked, now).value.0;
      var later := Steps(planned, actions);
      && |s.runs| < |later.runs|
      && (FenceOk(later, later.runs[|s.runs|]) <==>
        SourceWrites(actions, source) == 0 && ConnectionWrites(actions, connection) == 0)
      && (forall seen, page, expected, at | Applies(later, |s.runs|, seen, page, expected, at) ::
            SourceWrites(actions, source) == 0 && ConnectionWrites(actions, connection) == 0)
  {
    var a := Plan(company, source, connection, asked, now);
    var planned, id := PlanRun(s, company, source, connection, asked, now).value.0, |s.runs|;
    var later := Steps(planned, actions);
    assert Step(s, a) == planned;
    StepFenced(s, a);
    AlwaysFenced(planned, actions);
    RunsEvolve(planned, actions, id);
    RevisionsCountWrites(planned, actions, source, connection);
    FenceIsRevisions(later, id);
  }

  // ---------- The watchdog ----------

  lemma {:induction false} StuckMembers(runs: seq<Run>, plannedCutoff: int, activeCutoff: int, locked: set<nat>,
                                        id: nat)
    ensures id in StuckBelow(runs, plannedCutoff, activeCutoff, locked)
      <==> id < |runs| && Stuck(runs[id], plannedCutoff, activeCutoff) && id !in locked
  {
    if |runs| > 0 { StuckMembers(runs[..|runs| - 1], plannedCutoff, activeCutoff, locked, id); }
  }

  lemma StuckInOrder(s: System, plannedCutoff: int, activeCutoff: int, locked: set<nat>)
    ensures var ids := StuckRuns(s, plannedCutoff, activeCutoff, locked);
      && (forall id: nat ::
        id in ids <==> id < |s.runs| && Stuck(s.runs[id], plannedCutoff, activeCutoff) && id !in locked)
      && (forall i, j | 0 <= i < j < |ids| :: CreatedAt(s.runs, ids[i]) <= CreatedAt(s.runs, ids[j]))
  {
    var below, le := StuckBelow(s.runs, plannedCutoff, activeCutoff, locked), Earlier(s.runs);
    SortSorts(below, le);
    var ids := StuckRuns(s, plannedCutoff, activeCutoff, locked);
    forall id: nat
      ensures id in ids <==> id < |s.runs| && Stuck(s.runs[id], plannedCutoff, activeCutoff) && id !in locked
    {
      StuckMembers(s.runs, plannedCutoff, activeCutoff, locked, id);
      assert id in multiset(ids) <==> id in multiset(below);
    }
    forall i, j | 0 <= i < j < |ids| ensures CreatedAt(s.runs, ids[i]) <= CreatedAt(s.runs, ids[j]) {
      assert le(ids[i], ids[j]);
    }
  }

  predicate EndedEarlier(s: System, s': System, id: nat, created: int) {
    id < |s.runs| && id < |s'.runs| && !s'.runs[id].state.Active() && s.runs[id].createdAt <= created
  }

  /** What releasing the first n stuck runs does to run i. */
  lemma PrefixReleased(s: System, plannedCutoff: int, activeCutoff: int, locked: set<nat>, n: nat, now: int, i: nat)
    requires i < |s.runs| && n <= |StuckRuns(s, plannedCutoff, activeCutoff, locked)|
    ensures var ids := StuckRuns(s, plannedCutoff, activeCutoff, locked);
      var s' := ReleaseAll(s, ids[..n], now);
      && i < |s'.runs|
      && (s'.runs[i] != s.runs[i] ==>
            Stuck(s.runs[i], plannedCutoff, activeCutoff) && i !in locked
            && s'.runs[i].state == if s.runs[i].state.Planned? then Cancelled else Failed)
      && (Stuck(s.runs[i], plannedCutoff, activeCutoff) && i !in locked && s'.runs[i].state.Active() ==>
            n < |ids| && forall k | 0 <= k < n :: EndedEarlier(s, s', ids[k], s.runs[i].createdAt))
  {
    var ids := StuckRuns(s, plannedCutoff, activeCutoff, locked);
    StuckInOrder(s, plannedCutoff, activeCutoff, locked);
    hide ReleaseAll, StuckRuns;
    ReleaseEffect(s, ids[..n], now);
    if i in ids { StuckIsActive(s.runs[i], plannedCutoff, activeCutoff); }
    hide Stuck;
    if i in ids && i !in ids[..n] {
      LeftOver(s, ids, n, i);
      forall k | 0 <= k < n ensures EndedEarlier(s, ReleaseAll(s, ids[..n], now), ids[k], s.runs[i].createdAt) {
        assert ids[k] in ids[..n] && ids[k] in ids;
      }
    } else if i in ids {
      assert !Released(s.runs[i], now).state.Active();
    }
  }

  /** The watchdog ends only runs without progress since the clamped cutoffs, a planned one as
   *  cancelled and another as failed; it leaves a stuck unlocked run alone only when its limit
   *  was used up on runs created no later. */
  lemma WatchdogReleases(s: System, now: int, plannedMinutes: int, activeHours: int, limit: int, locked: set<nat>,
                         i: nat)
    requires i < |s.runs|
    ensures var s' := RecoverStuckRuns(s, now, plannedMinutes, activeHours, limit, locked);
      var plannedCutoff, activeCutoff := now - Clamp(5, plannedMinutes, 1440) * MINUTE,
        now - Clamp(1, activeHours, 168) * HOUR;
      var ids := StuckRuns(s, plannedCutoff, activeCutoff, locked);
      && i < |s'.runs|
      && (s'.runs[i] != s.runs[i] ==>
            Stuck(s.runs[i], plannedCutoff, activeCutoff) && i !in locked
            && s'.runs[i].state == if s.runs[i].state.Planned? then Cancelled else Failed)
      && (Stuck(s.runs[i], plannedCutoff, activeCutoff) && i !in locked && s'.runs[i].state.Active() ==>
            && Clamp(1, limit, 1000) < |ids|
            && forall k | 0 <= k < Clamp(1, limit, 1000) :: EndedEarlier(s, s', ids[k], s.runs[i].createdAt))
  {
    var plannedCutoff, activeCutoff := now - Clamp(5, plannedMinutes, 1440) * MINUTE,
      now - Clamp(1, activeHours, 168) * HOUR;
    var ids, count := StuckRuns(s, plannedCutoff, activeCutoff, locked), Clamp(1, limit, 1000);
    hide ReleaseAll, StuckRuns, Stuck, EndedEarlier;
    PrefixReleased(s, plannedCutoff, activeCutoff, locked, Min(|ids|, count), now, i);
  }

  lemma LeftOver(s: System, ids: seq<nat>, n: nat, i: nat)
    requires n <= |ids| && i in ids && i !in ids[..n] && i < |s.runs|
    requires forall j, k | 0 <= j < k < |ids| :: CreatedAt(s.runs, ids[j]) <= CreatedAt(s.runs, ids[k])
    ensures n < |ids| && forall k | 0 <= k < n :: CreatedAt(s.runs, ids[k]) <= s.runs[i].createdAt
  {
    var m :| 0 <= m < |ids| && ids[m] == i;
    assert forall k | 0 <= k < n :: ids[k] in ids[..n];
  }

  lemma StuckIsActive(x: Run, plannedCutoff: int, activeCutoff: int)
    requires Stuck(x, plannedCutoff, activeCutoff)
    ensures x.state.Active()
  {}
}
