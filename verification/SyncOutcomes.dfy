/** What each synchronization action does to runs, cursors and facts, field by field. */
module SyncOutcomes {
  import opened Common
  import opened StableSort
  import opened RevisionLedger
  import RevisionOutcomes
  import opened SyncRuns
  import opened SyncTheorems
  import opened SyncFencing

  predicate Live(state: RunState) {
    state == Planned || state == Queued || state == Running
  }

  /** The run's source and connection are still enabled and in the revisions it was planned under. */
  predicate Current(s: System, x: Run) {
    && x.source in s.sources && x.connection in s.connections
    && var source, c := s.sources[x.source], s.connections[x.connection];
    && source.active && source.readEnabled && source.stateActive && source.revision == x.sourceRevision
    && c.active && c.ready && c.reader && c.source == x.source && c.adapterKey == x.adapterKey
    && c.bindingRevision == x.bindingRevision && c.profileRevision == x.profileRevision
  }

  /** The cursor of a key; one that does not exist yet starts out empty. */
  function Reads(s: System, key: CursorKey): Cursor {
    if key in s.cursors then s.cursors[key] else Cursor(0, "", "", "", None)
  }

  function KeyOf(x: Run): CursorKey {
    CursorKey(x.source, x.adapterKey, x.request.scope, x.request.window, x.request.timezone)
  }

  predicate OtherRunsStay(s: System, s': System, id: nat) {
    |s'.runs| == |s.runs| && forall i | 0 <= i < |s.runs| && i != id :: s'.runs[i] == s.runs[i]
  }

  ghost predicate OtherCursorsStay(s: System, s': System, key: CursorKey) {
    forall k | k != key :: Reads(s', k) == Reads(s, k)
  }

  predicate SameConfiguration(s: System, s': System) {
    s'.sources == s.sources && s'.connections == s.connections
  }

  /** Everything the run was planned with, and what only other actions write. */
  predicate SamePlannedRun(x: Run, y: Run) {
    && y.company == x.company && y.source == x.source && y.connection == x.connection
    && y.sourceRevision == x.sourceRevision && y.bindingRevision == x.bindingRevision
    && y.profileRevision == x.profileRevision && y.adapterKey == x.adapterKey && y.request == x.request
    && y.createdAt == x.createdAt
  }

  /** The run ended now in the given state, and nothing else about it changed. */
  predicate Ended(x: Run, y: Run, state: RunState, now: int) {
    && SamePlannedRun(x, y)
    && y.state == state && y.writtenAt == now && y.finishedAt == Some(now)
    && y.deferredUntil == x.deferredUntil && y.orphaned == x.orphaned
    && y.pages == x.pages && y.received == x.received && y.applied == x.applied
    && y.duplicates == x.duplicates && y.errors == x.errors
  }

  predicate OnlyEnds(s: System, s': System, id: nat, state: RunState, now: int)
    requires id < |s.runs|
  {
    && OtherRunsStay(s, s', id) && SameConfiguration(s, s') && s'.cursors == s.cursors && s'.facts == s.facts
    && Ended(s.runs[id], s'.runs[id], state, now) && s'.runs[id].startedAt == s.runs[id].startedAt
  }

  // ---------- Pages ----------

  /** A first page starts the run. */
  predicate StartTime(x: Run, y: Run, now: int) {
    y.startedAt == if x.state == Running then x.startedAt else Some(now)
  }

  /** A metric of the run's own source, grain, context, currency and window. */
  predicate InScope(s: System, x: Run, item: Item) {
    && item.key.MetricKey? && item.content.MetricContent? && x.source in s.sources && x.request.window.Some?
    && item.key.grain == x.request.scope.grain && item.key.context == x.request.scope.context
    && item.content.timezone == x.request.timezone && x.request.timezone == s.sources[x.source].timezone
    && item.content.currency == s.sources[x.source].currency
    && x.request.window.value.0 <= item.content.periodStart
    && item.content.periodEnd <= x.request.window.value.1
  }

  predicate Pending(page: Page) {
    |page.jobRef| > 0 && page.jobPending
  }

  /** The page gets as far as the run's cursor. */
  predicate Reaches(s: System, id: nat, seen: RunState, page: Page) {
    && id < |s.runs| && Live(seen) && Live(s.runs[id].state)
    && page.kind != Leads && page.kind == s.runs[id].request.scope.kind
    && page.context == s.runs[id].request.scope.context
  }

  predicate Effective(s: System, id: nat, seen: RunState, page: Page, expected: nat) {
    && Reaches(s, id, seen, page) && Current(s, s.runs[id])
    && Reads(s, KeyOf(s.runs[id])).sequence == expected
    && (Pending(page) || page.kind != Metrics || forall item | item in page.items :: InScope(s, s.runs[id], item))
  }

  /** A page that does not take effect: each refusal in its order, a run that ended meanwhile, and
   *  a run whose configuration moved on. */
  lemma IneffectivePage(s: System, id: nat, seen: RunState, page: Page, expected: nat, now: int)
    requires !Effective(s, id, seen, page, expected)
    ensures var r := ApplyPage(s, id, seen, page, expected, now);
      if id >= |s.runs| then r == Err(UnknownRun)
      else if page.kind == Leads || page.kind != s.runs[id].request.scope.kind then r == Err(WrongKind)
      else if !Live(seen) then r == Err(AlreadyTerminal)
      else if page.context != s.runs[id].request.scope.context then r == Err(ContextMismatch)
      else if !Live(s.runs[id].state) then r == Ok(s)
      else if !Current(s, s.runs[id]) then r.Ok? && OnlyEnds(s, r.value, id, Stale, now)
      else if Reads(s, KeyOf(s.runs[id])).sequence != expected then r == Err(CursorChanged)
      else r == Err(MetricOutOfScope)
  {
    hide UpsertedAll, OwnAll;
    if id < |s.runs| {
      var x := s.runs[id];
      FitsInScope(s, x, page.items, now);
    }
  }

  lemma FitsInScope(s: System, x: Run, items: seq<Item>, now: int)
    ensures forall item | item in items :: MetricFits(s, Started(x, now), item) == InScope(s, x, item)
  {}

  /** The counters of a run after a page. */
  predicate Counted(x: Run, y: Run, page: Page, applied: nat, duplicates: nat) {
    && y.pages == x.pages + 1 && y.received == x.received + |page.items| && y.errors == x.errors + page.errors
    && y.applied == x.applied + applied && y.duplicates == x.duplicates + duplicates
  }

  /** A page whose provider job is still pending leaves the cursor naming that job: its value and
   *  its last run stay, its watermark is replaced only by one the page has, and no fact is recorded. */
  lemma PendingOutcome(s: System, id: nat, seen: RunState, page: Page, expected: nat, now: int)
    requires Effective(s, id, seen, page, expected) && Pending(page)
    ensures var r, x, key := ApplyPage(s, id, seen, page, expected, now), s.runs[id], KeyOf(s.runs[id]);
      && r.Ok?
      && OtherRunsStay(s, r.value, id) && SameConfiguration(s, r.value) && OtherCursorsStay(s, r.value, key)
      && r.value.facts == s.facts
      && key in r.value.cursors
      && r.value.cursors[key].jobRef == page.jobRef
      && r.value.cursors[key].sequence == expected + 1
      && r.value.cursors[key].value == Reads(s, key).value
      && r.value.cursors[key].lastRun == Reads(s, key).lastRun
      && r.value.cursors[key].watermark == (if |page.watermark| > 0 then page.watermark else Reads(s, key).watermark)
      && var y := r.value.runs[id];
         && SamePlannedRun(x, y) && y.state == Running && y.writtenAt == now && StartTime(x, y, now)
         && Counted(x, y, page, 0, 0)
         && y.deferredUntil == x.deferredUntil && y.finishedAt == x.finishedAt && y.orphaned == x.orphaned
  {
    hide UpsertedAll, OwnAll, MetricFits;
  }

  /** The items as they are recorded: each under the run's own source. */
  predicate Owned(x: Run, items: seq<Item>, own: seq<Item>) {
    && |own| == |items|
    && forall i | 0 <= i < |items| ::
         && own[i].content == items[i].content && own[i].observedAt == items[i].observedAt
         && own[i].providerUpdatedAt == items[i].providerUpdatedAt
         && own[i].key == items[i].key.(source := x.source)
  }

  lemma {:induction false} DuplicatesAreCounted(ds: seq<Disposition>)
    ensures Duplicates(ds) == multiset(ds)[Duplicate] <= |ds|
  {
    if |ds| > 0 {
      var n := |ds| - 1;
      assert ds == ds[..n] + [ds[n]];
      DuplicatesAreCounted(ds[..n]);
    }
  }

  /** The facts after the items, each recorded by the given run. */
  ghost predicate RecordedEach(f: Facts, f': Facts, own: seq<Item>, run: nat, ds: seq<Disposition>,
                               states: seq<Facts>) {
    && |states| == |own| + 1 && |ds| == |own| && states[0] == f && states[|own|] == f'
    && forall k | 0 <= k < |own| :: RevisionOutcomes.Recorded(states[k], states[k + 1], own[k], Some(run), ds[k])
  }

  lemma OwnedItems(x: Run, items: seq<Item>)
    ensures Owned(x, items, OwnAll(x, items))
  {}

  /** Any other page that takes effect records each of its items, and makes the cursor's value, job
   *  and watermark its own. */
  lemma CompletedOutcome(s: System, id: nat, seen: RunState, page: Page, expected: nat, now: int)
    returns (own: seq<Item>, states: seq<Facts>, ds: seq<Disposition>)
    requires Effective(s, id, seen, page, expected) && !Pending(page)
    ensures Owned(s.runs[id], page.items, own)
    ensures var r, key := ApplyPage(s, id, seen, page, expected, now), KeyOf(s.runs[id]);
      && r.Ok?
      && OtherRunsStay(s, r.value, id) && SameConfiguration(s, r.value) && OtherCursorsStay(s, r.value, key)
      && RecordedEach(s.facts, r.value.facts, own, id, ds, states)
      && key in r.value.cursors
      && r.value.cursors[key] == Cursor(expected + 1, page.nextCursor, page.jobRef, page.watermark, Some(id))
      && RunPaged(s.runs[id], r.value.runs[id], page, ds, now)
  {
    own := OwnAll(s.runs[id], page.items);
    OwnedItems(s.runs[id], page.items);
    states := RevisionOutcomes.PageOutcome(s.facts, own, Some(id));
    ds := UpsertedAll(s.facts, own, Some(id)).1;
    hide *;
    IsApplied(s, id, seen, page, expected, now);
    CompletedPage(s, id, page, now);
    CompletedRun(s.runs[id], page, ds, now);
    var y, key := Paged(Started(s.runs[id], now), page, ds, !page.hasMore, now), KeyOf(s.runs[id]);
    var cursor := Cursor(expected + 1, page.nextCursor, page.jobRef, page.watermark, Some(id));
    OthersStay(s, id, y, key, cursor, states[|own|]);
    RecordedIs(s.facts, states[|own|], own, id, ds, states);
  }

  lemma RecordedIs(f: Facts, f': Facts, own: seq<Item>, run: nat, ds: seq<Disposition>, states: seq<Facts>)
    requires |states| == |own| + 1 && |ds| == |own| && states[0] == f && states[|own|] == f'
    requires forall k | 0 <= k < |own| :: RevisionOutcomes.Recorded(states[k], states[k + 1], own[k], Some(run), ds[k])
    ensures RecordedEach(f, f', own, run, ds, states)
  {
    hide RevisionOutcomes.Recorded;
  }

  lemma OthersStay(s: System, id: nat, y: Run, key: CursorKey, cursor: Cursor, facts: Facts)
    requires id < |s.runs|
    ensures var s' := System(s.sources, s.connections, s.runs[id := y], s.cursors[key := cursor], facts);
      && OtherRunsStay(s, s', id) && OtherCursorsStay(s, s', key) && SameConfiguration(s, s')
      && s'.runs[id] == y && key in s'.cursors && s'.cursors[key] == cursor && s'.facts == facts
  {}

  /** Each item is counted as applied or as a repetition.  The run ends with the last page,
   *  partially if any item of it ever failed. */
  predicate RunPaged(x: Run, y: Run, page: Page, ds: seq<Disposition>, now: int) {
    && SamePlannedRun(x, y) && y.writtenAt == now && StartTime(x, y, now)
    && multiset(ds)[Duplicate] <= |ds|
    && Counted(x, y, page, |ds| - multiset(ds)[Duplicate], multiset(ds)[Duplicate])
    && y.deferredUntil == x.deferredUntil && y.orphaned == x.orphaned
    && y.state == (if page.hasMore then Running else if y.errors > 0 then Partial else Succeeded)
    && y.finishedAt == if page.hasMore then x.finishedAt else Some(now)
  }

  lemma IsApplied(s: System, id: nat, seen: RunState, page: Page, expected: nat, now: int)
    requires Effective(s, id, seen, page, expected) && !Pending(page)
    ensures ApplyPage(s, id, seen, page, expected, now) == PageApplied(s, id, page, now)
    ensures Live(s.runs[id].state) && Reads(s, KeyOf(s.runs[id])).sequence == expected
    ensures page.kind == Metrics ==> forall item | item in page.items :: InScope(s, s.runs[id], item)
  {
    hide PageApplied, InScope;
  }

  lemma CompletedPage(s: System, id: nat, page: Page, now: int)
    requires id < |s.runs| && !Pending(page)
    requires page.kind == Metrics ==> forall item | item in page.items :: InScope(s, s.runs[id], item)
    ensures var x := s.runs[id];
      var (facts, ds) := UpsertedAll(s.facts, OwnAll(x, page.items), Some(id));
      PageApplied(s, id, page, now) == Ok(System(s.sources, s.connections,
        s.runs[id := Paged(Started(x, now), page, ds, !page.hasMore, now)],
        s.cursors[KeyOf(x) := Cursor(Reads(s, KeyOf(x)).sequence + 1, page.nextCursor, page.jobRef, page.watermark,
          Some(id))],
        facts))
  {
    FitsInScope(s, s.runs[id], page.items, now);
    assert OwnAll(Started(s.runs[id], now), page.items) == OwnAll(s.runs[id], page.items);
    hide UpsertedAll, OwnAll, MetricFits, InScope, Paged;
  }

  lemma CompletedRun(x: Run, page: Page, ds: seq<Disposition>, now: int)
    requires Live(x.state)
    ensures RunPaged(x, Paged(Started(x, now), page, ds, !page.hasMore, now), page, ds, now)
  {
    DuplicatesAreCounted(ds);
    hide Duplicates;
  }

  // ---------- Planning ----------

  predicate ReportableMetrics(x: Source, asked: Request) {
    && asked.scope.grain in {"account", "campaign", "ad_group", "ad", "keyword"} && asked.window.Some?
    && (|asked.timezone| == 0 || asked.timezone == x.timezone)
  }

  /** Why a request is refused whatever runs exist, if it is. */
  function Fault(s: System, company: nat, source: nat, connection: nat, asked: Request): Option<SyncError> {
    if !(source in s.sources && s.sources[source].company == company) then Some(UnknownSource)
    else if !(connection in s.connections && s.connections[connection].source == source
              && s.connections[connection].company == company) then Some(ConnectionMismatch)
    else
      var x, c := s.sources[source], s.connections[connection];
      if !(x.active && x.readEnabled && x.stateActive) then Some(SourceDisabled)
      else if !(c.active && c.ready && c.reader) then Some(ConnectionNotReady)
      else if asked.window.Some? && asked.window.value.1 <= asked.window.value.0 then Some(InvalidWindow)
      else if asked.scope.kind == Metrics && !ReportableMetrics(x, asked) then Some(InvalidMetricsPlan)
      else None
  }

  /** The request with the time zone it is planned in. */
  function InZone(s: System, source: nat, asked: Request): Request
    requires source in s.sources
  {
    Request(asked.scope, asked.window, if |asked.timezone| == 0 then s.sources[source].timezone else asked.timezone,
      asked.trigger, asked.triggerRef)
  }

  predicate Occurs(x: Run, source: nat, r: Request) {
    x.source == source && x.request.scope == r.scope && x.request.trigger == r.trigger
      && x.request.triggerRef == r.triggerRef
  }

  /** The run was planned for the same window, in the same zone, and under the same configuration. */
  predicate PlannedAlike(s: System, x: Run, source: nat, connection: nat, r: Request)
    requires source in s.sources && connection in s.connections
  {
    var c := s.connections[connection];
    && x.request.window == r.window && x.request.timezone == r.timezone && x.connection == connection
    && x.sourceRevision == s.sources[source].revision && x.bindingRevision == c.bindingRevision
    && x.profileRevision == c.profileRevision && x.adapterKey == c.adapterKey
  }

  /** A request that the configuration allows returns the run of its occurrence if there is one and
   *  it was planned alike; a different plan for the same occurrence is a conflict.  A new occurrence
   *  is refused while its scope has a live run, and otherwise planned. */
  lemma PlanOutcome(s: System, company: nat, source: nat, connection: nat, asked: Request, now: int)
    requires Unique(s)
    ensures var r := PlanRun(s, company, source, connection, asked, now);
      var fault := Fault(s, company, source, connection, asked);
      if fault.Some? then r == Err(fault.value)
      else
        && source in s.sources && connection in s.connections
        && var request := InZone(s, source, asked);
           && (forall i | 0 <= i < |s.runs| && Occurs(s.runs[i], source, request) ::
                 r == if PlannedAlike(s, s.runs[i], source, connection, request) then Ok((s, i))
                      else Err(OccurrenceConflict))
           && ((forall i | 0 <= i < |s.runs| :: !Occurs(s.runs[i], source, request)) ==>
                 if exists i | 0 <= i < |s.runs| ::
                   s.runs[i].source == source && s.runs[i].request.scope == asked.scope && Live(s.runs[i].state)
                 then r == Err(ScopeOwned)
                 else
                   var c := s.connections[connection];
                   var x := Run(company, source, connection, s.sources[source].revision, c.bindingRevision,
                     c.profileRevision, c.adapterKey, request, Planned, now, now, None, None, None, false, 0, 0, 0, 0,
                       0);
                   r == Ok((System(s.sources, s.connections, s.runs + [x], s.cursors, s.facts), |s.runs|)))
  {
    RefusalIsFault(s, company, source, connection, asked);
    hide PlanRefusal;
    if Fault(s, company, source, connection, asked).None? {
      hide Fault;
      var request := InZone(s, source, asked);
      assert request == Zoned(s.sources[source], asked);
      forall i, j | 0 <= i < |s.runs| && 0 <= j < |s.runs| && Occurs(s.runs[i], source, request)
        && Occurs(s.runs[j], source, request)
        ensures i == j
      {
        assert SameKey(s.runs[i], s.runs[j]) && SameKey(s.runs[j], s.runs[i]);
      }
      forall i | 0 <= i < |s.runs|
        ensures Occurs(s.runs[i], source, request) == SameOccurrence(s.runs[i], source, request)
        ensures OwnsScope(s.runs[i], source, request) <==>
          s.runs[i].source == source && s.runs[i].request.scope == asked.scope && Live(s.runs[i].state) {}
    }
  }

  lemma RefusalIsFault(s: System, company: nat, source: nat, connection: nat, asked: Request)
    ensures PlanRefusal(s, company, source, connection, asked) == Fault(s, company, source, connection, asked)
    ensures Fault(s, company, source, connection, asked).None? ==> source in s.sources && connection in s.connections
  {}

  // ---------- Other actions ----------

  /** Which moves of a run are legal: none out of a terminal state or back, to be queued only once
   *  planned, to succeed even partially only while running, and to fail only once queued. */
  lemma LegalMoves(from: RunState, to: RunState)
    ensures Transition(from, to) <==>
      && Live(from) && to != from && to != Planned
      && (to == Queued ==> from == Planned)
      && (to == Succeeded || to == Partial ==> from == Running)
      && (to == Failed ==> from != Planned)
  {}

  /** Only a live run is queued, and then it waits as long as it is told. */
  lemma QueueOutcome(s: System, id: nat, deferredUntil: Option<int>, now: int)
    ensures var r := QueueRun(s, id, deferredUntil, now);
      if id >= |s.runs| then r == Err(UnknownRun)
      else if !Live(s.runs[id].state) then r == Err(AlreadyTerminal)
      else
        && r.Ok? && OtherRunsStay(s, r.value, id) && SameConfiguration(s, r.value)
        && r.value.cursors == s.cursors && r.value.facts == s.facts
        && var x, y := s.runs[id], r.value.runs[id];
           && SamePlannedRun(x, y) && y.state == (if x.state == Planned then Queued else x.state)
           && y.deferredUntil == deferredUntil && y.writtenAt == now
           && y.startedAt == x.startedAt && y.finishedAt == x.finishedAt && y.orphaned == x.orphaned
           && y.pages == x.pages && y.received == x.received && y.applied == x.applied
           && y.duplicates == x.duplicates && y.errors == x.errors
  {}

  /** Cancelling ends a live run and leaves any other alone. */
  lemma CancelOutcome(s: System, id: nat, now: int)
    ensures var s' := CancelRun(s, id, now);
      if id < |s.runs| && Live(s.runs[id].state) then OnlyEnds(s, s', id, Cancelled, now) else s' == s
  {}

  /** A restart empties a cursor that holds anything and moves its sequence on. */
  lemma RestartOutcome(s: System, id: nat)
    ensures var r := RestartCursor(s, id);
      if id >= |s.runs| then r == Err(UnknownRun)
      else if s.runs[id].state != Planned then r == Err(RestartTooLate)
      else if !Current(s, s.runs[id]) then r == Err(ConfigurationChanged)
      else
        var key := KeyOf(s.runs[id]);
        var cursor := Reads(s, key);
        && r.Ok? && r.value.runs == s.runs && r.value.facts == s.facts && SameConfiguration(s, r.value)
        && OtherCursorsStay(s, r.value, key)
        && Reads(r.value, key) ==
             if |cursor.value| > 0 || |cursor.jobRef| > 0 || |cursor.watermark| > 0
             then Cursor(cursor.sequence + 1, "", "", "", cursor.lastRun)
             else cursor
  {}

  /** A failed provider call ends the run: partially once a page was stored, as failed before, and
   *  as stale when its configuration moved on. */
  lemma FailureOutcome(s: System, id: nat, now: int)
    ensures var s' := FinishFailure(s, id, now);
      if !(id < |s.runs| && Live(s.runs[id].state)) then s' == s
      else if !Current(s, s.runs[id]) then OnlyEnds(s, s', id, Stale, now)
      else
        && OtherRunsStay(s, s', id) && SameConfiguration(s, s') && s'.cursors == s.cursors && s'.facts == s.facts
        && Ended(s.runs[id], s'.runs[id], if s.runs[id].pages > 0 then Partial else Failed, now)
        && StartTime(s.runs[id], s'.runs[id], now)
  {}

  function Given<T>(value: Option<T>, before: T): T {
    if value.Some? then value.value else before
  }

  /** A write changes the fields it gives; only a caption leaves the revision as it was. */
  lemma SourceWriteOutcome(s: System, source: nat, w: SourceWrite)
    ensures var s' := Step(s, WriteSource(source, w));
      if source !in s.sources then s' == s
      else
        && s'.connections == s.connections && s'.runs == s.runs && s'.cursors == s.cursors && s'.facts == s.facts
        && source in s'.sources && s'.sources == s.sources[source := s'.sources[source]]
        && var x, y := s.sources[source], s'.sources[source];
           && y.company == x.company && y.active == Given(w.active, x.active)
           && y.readEnabled == Given(w.readEnabled, x.readEnabled)
           && y.stateActive == Given(w.stateActive, x.stateActive) && y.timezone == Given(w.timezone, x.timezone)
           && y.currency == Given(w.currency, x.currency) && y.settings == Given(w.settings, x.settings)
           && y.caption == Given(w.caption, x.caption)
           && y.revision == if w == SourceWrite(None, None, None, None, None, None, w.caption) then x.revision
                            else x.revision + 1
  {}

  lemma ConnectionWriteOutcome(s: System, connection: nat, w: ConnectionWrite)
    ensures var s' := Step(s, WriteConnection(connection, w));
      if connection !in s.connections then s' == s
      else
        && s'.sources == s.sources && s'.runs == s.runs && s'.cursors == s.cursors && s'.facts == s.facts
        && connection in s'.connections && s'.connections == s.connections[connection := s'.connections[connection]]
        && var x, y := s.connections[connection], s'.connections[connection];
           && y.company == x.company && y.source == x.source && y.active == Given(w.active, x.active)
           && y.ready == Given(w.ready, x.ready) && y.reader == Given(w.reader, x.reader)
           && y.adapterKey == Given(w.adapterKey, x.adapterKey)
           && y.profileRevision == Given(w.profileRevision, x.profileRevision)
           && y.settings == Given(w.settings, x.settings) && y.health == Given(w.health, x.health)
           && y.bindingRevision == if w == ConnectionWrite(None, None, None, None, None, None, w.health)
                                   then x.bindingRevision else x.bindingRevision + 1
  {}

  // ---------- Cursors over runs ----------

  /** The action applies a page to this cursor. */
  predicate AppliesTo(s: System, a: Action, key: CursorKey) {
    a.Apply? && Effective(s, a.id, a.seen, a.page, a.expected) && KeyOf(s.runs[a.id]) == key
  }

  /** The action restarts this cursor although it holds something. */
  predicate Empties(s: System, a: Action, key: CursorKey) {
    && a.Restart? && a.id < |s.runs| && s.runs[a.id].state == Planned && Current(s, s.runs[a.id])
    && KeyOf(s.runs[a.id]) == key
    && (|Reads(s, key).value| > 0 || |Reads(s, key).jobRef| > 0 || |Reads(s, key).watermark| > 0)
  }

  /** Nothing but a page of its own key, or a restart of its own key, ever changes a cursor. */
  lemma StepKeepsCursor(s: System, a: Action, key: CursorKey)
    requires !AppliesTo(s, a, key) && !Empties(s, a, key)
    ensures Reads(Step(s, a), key) == Reads(s, key)
  {
    hide Effective, ApplyPage, RecoverStuckRuns, FinishFailure, PlanRun, CancelRun, QueueRun, RestartCursor,
      WrittenSource,
      WrittenConnection, Current, OnlyEnds;
    match a {
      case Apply(id, seen, page, expected, now) =>
        if Effective(s, id, seen, page, expected) { PageKeepsOthers(s, a, key); } else { IneffectiveKeeps(s, a, key); }
      case Watchdog(now, plannedMinutes, activeHours, limit, locked) =>
        WatchdogIsRelease(s, now, plannedMinutes, activeHours, limit, locked);
      case Cancel(id, now) => CancelKeeps(s, a);
      case Fail(id, now) => FailKeeps(s, a);
      case Restart(id) => RestartOutcome(s, id);
      case Queue(id, deferredUntil, now) => QueueOutcome(s, id, deferredUntil, now);
      case Plan(company, source, connection, request, now) => PlanKeeps(s, a);
      case _ =>
    }
  }

  lemma PageKeepsOthers(s: System, a: Action, key: CursorKey)
    requires a.Apply? && Effective(s, a.id, a.seen, a.page, a.expected) && KeyOf(s.runs[a.id]) != key
    ensures Reads(Step(s, a), key) == Reads(s, key)
  {
    hide Effective, ApplyPage, RecordedEach, SamePlannedRun, Counted;
    if Pending(a.page) {
      PendingOutcome(s, a.id, a.seen, a.page, a.expected, a.now);
    } else {
      var own, states, ds := CompletedOutcome(s, a.id, a.seen, a.page, a.expected, a.now);
    }
  }

  lemma IneffectiveKeeps(s: System, a: Action, key: CursorKey)
    requires a.Apply? && !Effective(s, a.id, a.seen, a.page, a.expected)
    ensures Step(s, a).cursors == s.cursors
  {
    hide Effective, ApplyPage, Current;
    IneffectivePage(s, a.id, a.seen, a.page, a.expected, a.now);
  }

  lemma CancelKeeps(s: System, a: Action)
    requires a.Cancel?
    ensures Step(s, a).cursors == s.cursors
  {}

  lemma FailKeeps(s: System, a: Action)
    requires a.Fail?
    ensures Step(s, a).cursors == s.cursors
  {
    hide FenceOk;
  }

  lemma PlanKeeps(s: System, a: Action)
    requires a.Plan?
    ensures Step(s, a).cursors == s.cursors
  {
    hide PlanRefusal;
  }

  /** A provider job that a pending page named stays on the cursor, with the value and the watermark,
   *  through every interleaving that neither applies a page to that cursor nor empties it. */
  lemma {:induction false} CursorKept(s: System, actions: seq<Action>, key: CursorKey)
    requires forall n | 0 <= n < |actions| ::
      !AppliesTo(Steps(s, actions[..n]), actions[n], key) && !Empties(Steps(s, actions[..n]), actions[n], key)
    ensures Reads(Steps(s, actions), key) == Reads(s, key)
  {
    if |actions| > 0 {
      var m := |actions| - 1;
      assert forall n | 0 <= n < m :: actions[..m][..n] == actions[..n] && actions[..m][n] == actions[n];
      hide AppliesTo, Empties, Reads, Step;
      CursorKept(s, actions[..m], key);
      StepKeepsCursor(Steps(s, actions[..m]), actions[m], key);
    }
  }

  // ---------- The watchdog ----------

  function Between(low: int, x: int, high: int): int {
    if x < low then low else if x > high then high else x
  }

  /** No progress for the given time: since its creation for a planned run, and for another one
   *  both since it was last written and since its wait was over. */
  predicate Idle(x: Run, now: int, plannedMinutes: int, activeHours: int) {
    if x.state == Planned then x.createdAt + 60 * Between(5, plannedMinutes, 1440) < now
    else
      var patience := 3600 * Between(1, activeHours, 168);
      && (x.state == Queued || x.state == Running)
      && x.writtenAt + patience < now
      && (if x.deferredUntil.Some? then x.deferredUntil.value else x.createdAt) + patience < now
  }

  lemma IdleIsStuck(x: Run, now: int, plannedMinutes: int, activeHours: int)
    ensures Idle(x, now, plannedMinutes, activeHours) <==>
      Stuck(x, now - Clamp(5, plannedMinutes, 24 * 60) * MINUTE, now - Clamp(1, activeHours, 7 * 24) * HOUR)
  {}

  /** Created earlier, or at the same time with a smaller id. */
  predicate Before(runs: seq<Run>, j: nat, i: nat)
    requires j < |runs| && i < |runs|
  {
    runs[j].createdAt < runs[i].createdAt || (runs[j].createdAt == runs[i].createdAt && j < i)
  }

  predicate InBefore(runs: seq<Run>, ids: seq<nat>) {
    && (forall i | 0 <= i < |ids| :: ids[i] < |runs|)
    && (forall i, j | 0 <= i < j < |ids| :: Before(runs, ids[i], ids[j]))
  }

  predicate Ascending(ids: seq<nat>) {
    forall i, j | 0 <= i < j < |ids| :: ids[i] < ids[j]
  }

  lemma {:induction false} InsertedBefore(runs: seq<Run>, x: nat, ids: seq<nat>)
    requires x < |runs| && InBefore(runs, ids) && forall i | 0 <= i < |ids| :: x < ids[i]
    ensures var t := Insert(x, ids, Earlier(runs));
      InBefore(runs, t) && |t| == |ids| + 1 && forall y :: y in t <==> y == x || y in ids
  {
    var le := Earlier(runs);
    if |ids| > 0 && !le(x, ids[0]) {
      InsertedBefore(runs, x, ids[1..]);
      var rest := Insert(x, ids[1..], le);
      assert Insert(x, ids, le) == [ids[0]] + rest;
      assert ids == [ids[0]] + ids[1..];
      forall i | 0 <= i < |rest| ensures Before(runs, ids[0], rest[i]) {
        assert rest[i] in rest;
        if rest[i] != x { var k :| 0 <= k < |ids[1..]| && ids[1..][k] == rest[i]; }
      }
    }
  }

  lemma {:induction false} SortedBefore(runs: seq<Run>, ids: seq<nat>)
    requires Ascending(ids) && forall i | 0 <= i < |ids| :: ids[i] < |runs|
    ensures var t := Sort(ids, Earlier(runs)); InBefore(runs, t) && forall y :: y in t <==> y in ids
  {
    if |ids| > 0 {
      SortedBefore(runs, ids[1..]);
      var t := Sort(ids[1..], Earlier(runs));
      forall i | 0 <= i < |t| ensures ids[0] < t[i] {
        assert t[i] in ids[1..];
        var k :| 0 <= k < |ids[1..]| && ids[1..][k] == t[i];
      }
      InsertedBefore(runs, ids[0], t);
      assert ids == [ids[0]] + ids[1..];
    }
  }

  lemma {:induction false} StuckAscend(runs: seq<Run>, plannedCutoff: int, activeCutoff: int, locked: set<nat>)
    ensures var ids := StuckBelow(runs, plannedCutoff, activeCutoff, locked);
      Ascending(ids) && forall i | 0 <= i < |ids| :: ids[i] < |runs|
  {
    if |runs| > 0 { StuckAscend(runs[..|runs| - 1], plannedCutoff, activeCutoff, locked); }
  }

  lemma {:induction false} DistinctPrefix(runs: seq<Run>, ids: seq<nat>, n: nat)
    requires InBefore(runs, ids) && n <= |ids|
    ensures |set k | 0 <= k < n :: ids[k]| == n
  {
    if n > 0 {
      DistinctPrefix(runs, ids, n - 1);
      var before := set k | 0 <= k < n - 1 :: ids[k];
      assert ids[n - 1] !in before;
      assert (set k | 0 <= k < n :: ids[k]) == before + {ids[n - 1]};
    }
  }

  /** In such an order a member is among the first n exactly when fewer than n come before it. */
  lemma PlaceByRank(runs: seq<Run>, ids: seq<nat>, n: nat, i: nat)
    requires InBefore(runs, ids) && n <= |ids| && i in ids && i < |runs|
    ensures i in ids[..n] <==> |set j | j in ids && j < |runs| && Before(runs, j, i)| < n
  {
    var m :| 0 <= m < |ids| && ids[m] == i;
    var earlier := set j | j in ids && j < |runs| && Before(runs, j, i);
    forall j ensures j in earlier <==> j in set k | 0 <= k < m :: ids[k] {
      if j in earlier {
        var k :| 0 <= k < |ids| && ids[k] == j;
        assert k < m;
      }
    }
    assert earlier == set k | 0 <= k < m :: ids[k];
    DistinctPrefix(runs, ids, m);
    if i in ids[..n] {
      var k :| 0 <= k < n && ids[..n][k] == i;
      assert k == m;
    }
  }

  /** The idle runs that nobody else has locked, and that come before run i. */
  function IdleBefore(s: System, now: int, plannedMinutes: int, activeHours: int, locked: set<nat>, i: nat): set<nat>
    requires i < |s.runs|
  {
    set j: nat | j < |s.runs| && Idle(s.runs[j], now, plannedMinutes, activeHours) && j !in locked
      && Before(s.runs, j, i)
  }

  /** The watchdog ends a run exactly when it is idle, nobody has it locked, and fewer such runs
   *  than the limit come before it; a planned run is cancelled and another one fails. */
  lemma WatchdogOutcome(s: System, now: int, plannedMinutes: int, activeHours: int, limit: int, locked: set<nat>,
                        i: nat)
    requires i < |s.runs|
    ensures var s' := RecoverStuckRuns(s, now, plannedMinutes, activeHours, limit, locked);
      && SameConfiguration(s, s') && s'.cursors == s.cursors && s'.facts == s.facts && |s'.runs| == |s.runs|
      && var x, y := s.runs[i], s'.runs[i];
         if Idle(x, now, plannedMinutes, activeHours) && i !in locked
            && |IdleBefore(s, now, plannedMinutes, activeHours, locked, i)| < Between(1, limit, 1000)
         then
           && SamePlannedRun(x, y) && y.state == (if x.state == Planned then Cancelled else Failed)
           && y.writtenAt == now && y.finishedAt == Some(now) && y.orphaned
           && y.deferredUntil == x.deferredUntil && y.startedAt == x.startedAt
           && y.pages == x.pages && y.received == x.received && y.applied == x.applied
           && y.duplicates == x.duplicates && y.errors == x.errors
         else y == x
  {
    var ids := Chosen(s, now, plannedMinutes, activeHours, limit, locked, i);
    hide RecoverStuckRuns, ReleaseAll, Idle, Between, IdleBefore;
    ReleaseEffect(s, ids, now);
  }

  lemma IdleInOrder(s: System, now: int, plannedMinutes: int, activeHours: int, locked: set<nat>)
    returns (ids: seq<nat>)
    ensures InBefore(s.runs, ids)
    ensures forall j: nat ::
      j in ids <==> j < |s.runs| && Idle(s.runs[j], now, plannedMinutes, activeHours) && j !in locked
    ensures ids == StuckRuns(s, now - Clamp(5, plannedMinutes, 24 * 60) * MINUTE,
      now - Clamp(1, activeHours, 7 * 24) * HOUR, locked)
  {
    hide Stuck, Idle, InBefore, StuckBelow, Clamp;
    var plannedCutoff, activeCutoff :=
      now - Clamp(5, plannedMinutes, 24 * 60) * MINUTE, now - Clamp(1, activeHours, 7 * 24) * HOUR;
    ids := StuckRuns(s, plannedCutoff, activeCutoff, locked);
    StuckAscend(s.runs, plannedCutoff, activeCutoff, locked);
    SortedBefore(s.runs, StuckBelow(s.runs, plannedCutoff, activeCutoff, locked));
    forall j: nat
      ensures j in ids <==> j < |s.runs| && Idle(s.runs[j], now, plannedMinutes, activeHours) && j !in locked
    {
      StuckMembers(s.runs, plannedCutoff, activeCutoff, locked, j);
      if j < |s.runs| { IdleIsStuck(s.runs[j], now, plannedMinutes, activeHours); }
    }
  }

  lemma LimitIsBetween(count: nat, limit: int)
    ensures var n := Min(count, Clamp(1, limit, 1000));
      0 <= n <= count && (n == Between(1, limit, 1000) < count || (n == count <= Between(1, limit, 1000)))
  {}

  lemma WatchdogReleasesFirst(s: System, now: int, plannedMinutes: int, activeHours: int, limit: int, locked: set<nat>)
    returns (ids: seq<nat>, n: nat)
    ensures InBefore(s.runs, ids) && n <= |ids|
    ensures n == Between(1, limit, 1000) < |ids| || (n == |ids| <= Between(1, limit, 1000))
    ensures forall j: nat ::
      j in ids <==> j < |s.runs| && Idle(s.runs[j], now, plannedMinutes, activeHours) && j !in locked
    ensures RecoverStuckRuns(s, now, plannedMinutes, activeHours, limit, locked) == ReleaseAll(s, ids[..n], now)
  {
    hide Idle, Clamp, Between, InBefore, ReleaseAll, StuckRuns;
    ids := IdleInOrder(s, now, plannedMinutes, activeHours, locked);
    LimitIsBetween(|ids|, limit);
    n := Min(|ids|, Clamp(1, limit, 1000));
  }

  lemma Chosen(s: System, now: int, plannedMinutes: int, activeHours: int, limit: int, locked: set<nat>, i: nat)
    returns (ids: seq<nat>)
    requires i < |s.runs|
    ensures RecoverStuckRuns(s, now, plannedMinutes, activeHours, limit, locked) == ReleaseAll(s, ids, now)
    ensures i in ids <==>
      && Idle(s.runs[i], now, plannedMinutes, activeHours) && i !in locked
      && |IdleBefore(s, now, plannedMinutes, activeHours, locked, i)| < Between(1, limit, 1000)
    ensures i in ids ==> Live(s.runs[i].state)
  {
    var all, n := WatchdogReleasesFirst(s, now, plannedMinutes, activeHours, limit, locked);
    ids := all[..n];
    assert Idle(s.runs[i], now, plannedMinutes, activeHours) ==> Live(s.runs[i].state);
    hide RecoverStuckRuns, ReleaseAll, Idle, Between, InBefore, Before, IdleBefore;
    if i in all {
      PlaceByRank(s.runs, all, n, i);
      RankIsIdle(s, now, plannedMinutes, activeHours, locked, all, i);
      AllBelow(s.runs, all, i);
    }
  }

  /** Fewer than all members come before any of them. */
  lemma AllBelow(runs: seq<Run>, ids: seq<nat>, i: nat)
    requires InBefore(runs, ids) && i in ids && i < |runs|
    ensures |set j | j in ids && j < |runs| && Before(runs, j, i)| < |ids|
  {
    PlaceByRank(runs, ids, |ids|, i);
    assert ids[..|ids|] == ids;
  }

  lemma RankIsIdle(s: System, now: int, plannedMinutes: int, activeHours: int, locked: set<nat>, ids: seq<nat>, i: nat)
    requires i < |s.runs|
    requires forall j: nat ::
      j in ids <==> j < |s.runs| && Idle(s.runs[j], now, plannedMinutes, activeHours) && j !in locked
    ensures (set j | j in ids && j < |s.runs| && Before(s.runs, j, i))
      == IdleBefore(s, now, plannedMinutes, activeHours, locked, i)
  {
    hide Idle, Before;
  }
}
