/** The synchronization service step by step: it changes runs, cursors and configuration rows in
 *  place, and undoes a page whose application raised an error. */
module SyncService {
  import opened Common
  import opened RevisionLedger
  import opened SyncRuns

  class Service {
    var sources: map<nat, Source>
    var connections: map<nat, Connection>
    var runs: seq<Run>
    var cursors: map<CursorKey, Cursor>
    const facts: FactTable

    function State(): System
      reads this, facts
    {
      System(sources, connections, runs, cursors, facts.Contents())
    }

    ghost predicate Valid()
      reads this, facts
    {
      facts.Valid()
    }

    constructor (sources: map<nat, Source>, connections: map<nat, Connection>)
      ensures Valid() && fresh(facts) && State() == System(sources, connections, [], map[], NO_FACTS)
    {
      this.sources, this.connections, runs, cursors := sources, connections, [], map[];
      facts := new FactTable();
    }

    /** Writes a source; writing any revision-bearing field bumps its revision, changed or not. */
    method WriteSource(source: nat, w: SourceWrite)
      modifies this`sources
      ensures State() == Step(old(State()), Action.WriteSource(source, w))
    {
      if source in sources {
        var x := sources[source];
        x := x.(active := w.active.GetOr(x.active), readEnabled := w.readEnabled.GetOr(x.readEnabled),
                stateActive := w.stateActive.GetOr(x.stateActive), timezone := w.timezone.GetOr(x.timezone),
                currency := w.currency.GetOr(x.currency), settings := w.settings.GetOr(x.settings),
                caption := w.caption.GetOr(x.caption));
        if w.Bearing() { x := x.(revision := x.revision + 1); }
        sources := sources[source := x];
      }
    }

    method WriteConnection(connection: nat, w: ConnectionWrite)
      modifies this`connections
      ensures State() == Step(old(State()), Action.WriteConnection(connection, w))
    {
      if connection in connections {
        var x := connections[connection];
        x := x.(active := w.active.GetOr(x.active), ready := w.ready.GetOr(x.ready), reader := w.reader.GetOr(x.reader),
                adapterKey := w.adapterKey.GetOr(x.adapterKey),
                profileRevision := w.profileRevision.GetOr(x.profileRevision),
                settings := w.settings.GetOr(x.settings), health := w.health.GetOr(x.health));
        if w.Bearing() { x := x.(bindingRevision := x.bindingRevision + 1); }
        connections := connections[connection := x];
      }
    }

    /** Creates the run of an occurrence, or returns the one it already has. */
    method PlanRun(company: nat, source: nat, connection: nat, asked: Request, now: int)
      returns (r: Result<nat, SyncError>)
      modifies this`runs
      ensures match SyncRuns.PlanRun(old(State()), company, source, connection, asked, now)
        case Ok(planned) => r == Ok(planned.1) && State() == planned.0
        case Err(error) => r == Err(error) && State() == old(State())
    {
      var refusal := PlanRefusal(State(), company, source, connection, asked);
      if refusal.Some? { return Err(refusal.value); }
      var request := Zoned(sources[source], asked);
      var planned := NewRun(State(), company, source, connection, request, now);
      var existing := FirstRun(runs, x => SameOccurrence(x, source, request));
      if existing.Some? {
        if !SamePlan(runs[existing.value], planned) { return Err(OccurrenceConflict); }
        return Ok(existing.value);
      }
      if FirstRun(runs, x => OwnsScope(x, source, request)).Some? { return Err(ScopeOwned); }
      runs := runs + [planned];
      r := Ok(|runs| - 1);
    }

    /** Moves a run along the transition table, or refuses. */
    method MoveRun(id: nat, to: RunState, now: int) returns (moved: bool)
      requires id < |runs|
      modifies this`runs
      ensures moved == Transition(old(runs[id].state), to)
      ensures runs == if moved then old(runs)[id := Moved(old(runs[id]), to, now)] else old(runs)
    {
      moved := Transition(runs[id].state, to);
      if moved { runs := runs[id := runs[id].(state := to, writtenAt := now)]; }
    }

    /** Ends a run through the transition table. */
    method EndRun(id: nat, to: RunState, now: int) returns (ended: bool)
      requires id < |runs|
      modifies this`runs
      ensures ended == Transition(old(runs[id].state), to)
      ensures runs == if ended then old(runs)[id := Finished(old(runs[id]), to, now)] else old(runs)
    {
      ended := MoveRun(id, to, now);
      if ended { runs := runs[id := runs[id].(finishedAt := Some(now))]; }
    }

    method StartRun(id: nat, now: int)
      requires id < |runs| && runs[id].state.Active()
      modifies this`runs
      ensures runs == old(runs)[id := Started(old(runs[id]), now)]
    {
      if !runs[id].state.Running? {
        var moved := MoveRun(id, Running, now);
        runs := runs[id := runs[id].(startedAt := Some(now))];
      }
    }

    method CancelRun(id: nat, now: int)
      modifies this`runs
      ensures State() == SyncRuns.CancelRun(old(State()), id, now)
    {
      if id < |runs| && runs[id].state.Active() {
        var ended := EndRun(id, Cancelled, now);
      }
    }

    method CountPage(id: nat, page: Page, ds: seq<Disposition>, terminal: bool, now: int)
      requires id < |runs|
      modifies this`runs
      ensures runs == old(runs)[id := Paged(old(runs[id]), page, ds, terminal, now)]
    {
      var x := runs[id];
      var duplicates := Duplicates(ds);
      x := x.(pages := x.pages + 1, received := x.received + |page.items|,
        applied := x.applied + Max(0, |ds| - duplicates),
              duplicates := x.duplicates + duplicates, errors := x.errors + page.errors, writtenAt := now);
      if terminal {
        x := x.(state := if x.errors > 0 then Partial else Succeeded, finishedAt := Some(now));
      }
      runs := runs[id := x];
    }

    /** Records the items of a page one by one; a metric out of scope undoes those before it. */
    method UpsertItems(id: nat, page: Page, ghost s: System) returns (r: Result<seq<Disposition>, SyncError>)
      requires Valid() && id < |runs| && s.sources == sources
      modifies facts
      ensures Valid()
      ensures r.Err? <==> page.kind.Metrics? && exists item | item in page.items :: !MetricFits(s, runs[id], item)
      ensures r.Err? ==> r.error == MetricOutOfScope && facts.Contents() == old(facts.Contents())
      ensures r.Ok? ==>
        (facts.Contents(), r.value) == UpsertedAll(old(facts.Contents()), OwnAll(runs[id], page.items), Some(id))
    {
      hide MetricFits, Agrees, Upserted;
      var before := facts.Contents();
      ghost var items := OwnAll(runs[id], page.items);
      var ds: seq<Disposition> := [];
      assert items[..0] == [];
      for k := 0 to |page.items|
        invariant Valid() && before == old(facts.Contents()) && Agrees(before)
        invariant page.kind.Metrics? ==> forall j | 0 <= j < k :: MetricFits(s, runs[id], page.items[j])
        invariant (facts.Contents(), ds) == UpsertedAll(before, items[..k], Some(id))
      {
        SameScopeCheck(s, State(), runs[id], page.items[k]);
        if page.kind.Metrics? && !MetricFits(State(), runs[id], page.items[k]) {
          facts.Restore(before);
          return Err(MetricOutOfScope);
        }
        assert items[..k + 1][..k] == items[..k] && items[..k + 1][k] == Own(runs[id], page.items[k]);
        var d := facts.Upsert(Own(runs[id], page.items[k]), Some(id));
        ds := ds + [d];
      }
      assert items[..|page.items|] == items;
      r := Ok(ds);
    }

    lemma SameScopeCheck(s: System, s': System, x: Run, item: Item)
      requires s'.sources == s.sources
      ensures MetricFits(s, x, item) == MetricFits(s', x, item)
    {}

    /** A page whose provider job is still pending only moves the cursor on. */
    method NotePendingJob(id: nat, page: Page, now: int)
      requires id < |runs| && runs[id].state.Active() && page.jobRef != "" && page.jobPending
      modifies this`runs, this`cursors
      ensures PageApplied(old(State()), id, page, now) == Ok(State())
    {
      hide FenceOk, MetricFits, UpsertedAll;
      var key := runs[id].Key();
      var cursor := CursorAt(State(), key);
      StartRun(id, now);
      cursors := cursors[key := cursor.(jobRef := page.jobRef,
        watermark := if page.watermark != "" then page.watermark else cursor.watermark,
        sequence := cursor.sequence + 1)];
      CountPage(id, page, [], false, now);
      assert runs == old(runs)[id := Paged(Started(old(runs[id]), now), page, [], false, now)];
      assert Started(old(runs[id]), now).Key() == key;
    }

    /** A page of items changes run, cursor and facts together, or not at all. */
    method StorePage(id: nat, page: Page, now: int) returns (refusal: Option<SyncError>)
      requires Valid() && id < |runs| && runs[id].state.Active() && !(page.jobRef != "" && page.jobPending)
      modifies this`runs, this`cursors, facts
      ensures Valid()
      ensures match PageApplied(old(State()), id, page, now)
        case Ok(s) => refusal == None && State() == s
        case Err(error) => refusal == Some(error) && State() == old(State())
    {
      hide PageApplied, FenceOk, MetricFits, UpsertedAll, Paged, OwnAll, Started, Agrees;
      PageOutcome(State(), id, page, now);
      var before := runs;
      var key := runs[id].Key();
      var cursor := CursorAt(State(), key);
      ghost var s := State();
      StartRun(id, now);
      assert runs[id] == Started(before[id], now);
      var results := UpsertItems(id, page, s);
      if results.Err? {
        runs := before;
        return Some(results.error);
      }
      cursors := cursors[key := cursor.(value := page.nextCursor, sequence := cursor.sequence + 1,
        jobRef := page.jobRef, watermark := page.watermark, lastRun := Some(id))];
      CountPage(id, page, results.value, !page.hasMore, now);
      assert runs == before[id := Paged(Started(before[id], now), page, results.value, !page.hasMore, now)];
      refusal := None;
    }

    /** The atomic part of a page, once its run is locked and its fence and cursor hold. */
    method ApplyLockedPage(id: nat, page: Page, now: int) returns (refusal: Option<SyncError>)
      requires Valid() && id < |runs| && runs[id].state.Active()
      modifies this`runs, this`cursors, facts
      ensures Valid()
      ensures match PageApplied(old(State()), id, page, now)
        case Ok(s) => refusal == None && State() == s
        case Err(error) => refusal == Some(error) && State() == old(State())
    {
      hide PageApplied, Agrees;
      if page.jobRef != "" && page.jobPending {
        NotePendingJob(id, page, now);
        refusal := None;
      } else {
        refusal := StorePage(id, page, now);
      }
    }

    lemma PageOutcome(s: System, id: nat, page: Page, now: int)
      requires id < |s.runs| && !(page.jobRef != "" && page.jobPending)
      ensures var x, key := Started(s.runs[id], now), s.runs[id].Key();
        var (facts', ds) := UpsertedAll(s.facts, OwnAll(x, page.items), Some(id));
        PageApplied(s, id, page, now) ==
          if page.kind.Metrics? && exists item | item in page.items :: !MetricFits(s, x, item)
          then Err(MetricOutOfScope)
          else Ok(System(s.sources, s.connections, s.runs[id := Paged(x, page, ds, !page.hasMore, now)],
            s.cursors[key := CursorAt(s, key).(value := page.nextCursor, sequence := CursorAt(s, key).sequence + 1,
              jobRef := page.jobRef, watermark := page.watermark, lastRun := Some(id))], facts'))
    {
      hide FenceOk, MetricFits, UpsertedAll, Paged, OwnAll;
    }

    /** Applies one page of a run. */
    method ApplyPage(id: nat, seen: RunState, page: Page, expected: nat, now: int) returns (refusal: Option<SyncError>)
      requires Valid()
      modifies this`runs, this`cursors, facts
      ensures Valid()
      ensures match SyncRuns.ApplyPage(old(State()), id, seen, page, expected, now)
        case Ok(s) => refusal == None && State() == s
        case Err(error) => refusal == Some(error) && State() == old(State())
    {
      if id >= |runs| { return Some(UnknownRun); }
      if page.kind.Leads? || runs[id].request.scope.kind != page.kind { return Some(WrongKind); }
      if !seen.Active() { return Some(AlreadyTerminal); }
      if page.context != runs[id].request.scope.context { return Some(ContextMismatch); }
      if !runs[id].state.Active() { return None; }
      if !FenceOk(State(), runs[id]) {
        var ended := EndRun(id, Stale, now);
        return None;
      }
      if CursorAt(State(), runs[id].Key()).sequence != expected { return Some(CursorChanged); }
      refusal := ApplyLockedPage(id, page, now);
    }

    /** Clears a used cursor before a planned run is queued. */
    method RestartCursor(id: nat) returns (refusal: Option<SyncError>)
      modifies this`cursors
      ensures match SyncRuns.RestartCursor(old(State()), id)
        case Ok(s) => refusal == None && State() == s
        case Err(error) => refusal == Some(error) && State() == old(State())
    {
      if id >= |runs| { return Some(UnknownRun); }
      if !runs[id].state.Planned? { return Some(RestartTooLate); }
      if !FenceOk(State(), runs[id]) { return Some(ConfigurationChanged); }
      var key := runs[id].Key();
      var cursor := CursorAt(State(), key);
      if cursor.value != "" || cursor.jobRef != "" || cursor.watermark != "" {
        cursor := cursor.(value := "", jobRef := "", watermark := "", sequence := cursor.sequence + 1);
      }
      cursors := cursors[key := cursor];
      refusal := None;
    }

    /** Ends a run whose provider failed. */
    method FinishFailure(id: nat, now: int)
      modifies this`runs
      ensures State() == SyncRuns.FinishFailure(old(State()), id, now)
    {
      if id < |runs| && runs[id].state.Active() {
        if !FenceOk(State(), runs[id]) {
          var ended := EndRun(id, Stale, now);
        } else {
          StartRun(id, now);
          var ended := EndRun(id, if runs[id].pages > 0 then Partial else Failed, now);
        }
      }
    }

    /** Ends one run that stopped making progress. */
    method ReleaseRun(id: nat, now: int)
      requires id < |runs| && runs[id].state.Active()
      modifies this`runs
      ensures runs == old(runs)[id := Released(old(runs[id]), now)]
    {
      if runs[id].state.Planned? {
        var ended := EndRun(id, Cancelled, now);
      } else {
        var ended := EndRun(id, Failed, now);
      }
      runs := runs[id := runs[id].(orphaned := true)];
    }

    /** Releases runs that stopped making progress, oldest first and at most limit of them. */
    method RecoverStuckRuns(now: int, plannedMinutes: int, activeHours: int, limit: int, locked: set<nat>)
      modifies this`runs
      ensures State() == SyncRuns.RecoverStuckRuns(old(State()), now, plannedMinutes, activeHours, limit, locked)
    {
      hide StuckRuns, Released;
      var plannedCutoff := now - Clamp(5, plannedMinutes, 24 * 60) * MINUTE;
      var activeCutoff := now - Clamp(1, activeHours, 7 * 24) * HOUR;
      var ids := StuckRuns(State(), plannedCutoff, activeCutoff, locked);
      ids := ids[..Min(|ids|, Clamp(1, limit, 1000))];
      assert ids[..0] == [];
      for k := 0 to |ids|
        invariant State() == ReleaseAll(old(State()), ids[..k], now)
      {
        assert ids[..k + 1][..k] == ids[..k];
        if ids[k] < |runs| && runs[ids[k]].state.Active() { ReleaseRun(ids[k], now); }
      }
      assert ids[..|ids|] == ids;
    }
  }
}
