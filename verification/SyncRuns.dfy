/** Synchronization runs and cursors: planning, page application, cancellation, the watchdog, and
 *  the configuration writes that fence them. */
module SyncRuns {
  import opened Common
  import opened StableSort
  import opened RevisionLedger

  datatype Kind = Catalog | Metrics | Leads

  datatype Trigger = Manual | Scheduled | Webhook | Backfill | Retry

  datatype RunState = Planned | Queued | Running | Succeeded | Partial | Failed | Cancelled | Stale {
    predicate Active() {
      Planned? || Queued? || Running?
    }
  }

  predicate Transition(from: RunState, to: RunState) {
    match from
    case Planned => to.Queued? || to.Running? || to.Cancelled? || to.Stale?
    case Queued => to.Running? || to.Cancelled? || to.Stale? || to.Failed?
    case Running => to.Succeeded? || to.Partial? || to.Failed? || to.Cancelled? || to.Stale?
    case _ => false
  }

  // ---------- Configuration ----------

  /** settings stands for the other revision-bearing fields, caption for the rest. */
  datatype Source = Source(
    company: nat, active: bool, readEnabled: bool, stateActive: bool, timezone: string, currency: string,
    settings: string, caption: string, revision: nat)

  datatype SourceWrite = SourceWrite(
    active: Option<bool>, readEnabled: Option<bool>, stateActive: Option<bool>, timezone: Option<string>,
    currency: Option<string>, settings: Option<string>, caption: Option<string>)
  {
    predicate Bearing() {
      active.Some? || readEnabled.Some? || stateActive.Some? || timezone.Some? || currency.Some? || settings.Some?
    }
  }

  /** settings stands for the profile reference and the capabilities hash, health for the rest. */
  datatype Connection = Connection(
    company: nat, source: nat, active: bool, ready: bool, reader: bool, adapterKey: string, profileRevision: nat,
    settings: string, health: string, bindingRevision: nat)

  datatype ConnectionWrite = ConnectionWrite(
    active: Option<bool>, ready: Option<bool>, reader: Option<bool>, adapterKey: Option<string>,
    profileRevision: Option<nat>, settings: Option<string>, health: Option<string>)
  {
    predicate Bearing() {
      active.Some? || ready.Some? || reader.Some? || adapterKey.Some? || profileRevision.Some? || settings.Some?
    }
  }

  function WrittenSource(x: Source, w: SourceWrite): Source {
    x.(active := w.active.GetOr(x.active), readEnabled := w.readEnabled.GetOr(x.readEnabled),
       stateActive := w.stateActive.GetOr(x.stateActive), timezone := w.timezone.GetOr(x.timezone),
       currency := w.currency.GetOr(x.currency), settings := w.settings.GetOr(x.settings),
       caption := w.caption.GetOr(x.caption), revision := x.revision + if w.Bearing() then 1 else 0)
  }

  function WrittenConnection(x: Connection, w: ConnectionWrite): Connection {
    x.(active := w.active.GetOr(x.active), ready := w.ready.GetOr(x.ready), reader := w.reader.GetOr(x.reader),
       adapterKey := w.adapterKey.GetOr(x.adapterKey), profileRevision := w.profileRevision.GetOr(x.profileRevision),
       settings := w.settings.GetOr(x.settings), health := w.health.GetOr(x.health),
       bindingRevision := x.bindingRevision + if w.Bearing() then 1 else 0)
  }

  predicate Readable(x: Source) {
    x.active && x.readEnabled && x.stateActive
  }

  predicate Ready(x: Connection) {
    x.active && x.ready && x.reader
  }

  // ---------- Runs and cursors ----------

  datatype Scope = Scope(kind: Kind, entityType: string, grain: string, scopeRef: string, context: string)

  datatype Request = Request(scope: Scope, window: Option<(int, int)>, timezone: string, trigger: Trigger,
    triggerRef: string)

  datatype CursorKey = CursorKey(source: nat, adapterKey: string, scope: Scope, window: Option<(int, int)>,
    timezone: string)

  datatype Run = Run(
    company: nat, source: nat, connection: nat, sourceRevision: nat, bindingRevision: nat, profileRevision: nat,
    adapterKey: string, request: Request, state: RunState, createdAt: int, writtenAt: int, deferredUntil: Option<int>,
    startedAt: Option<int>, finishedAt: Option<int>, orphaned: bool,
    pages: nat, received: nat, applied: nat, duplicates: nat, errors: nat)
  {
    function Key(): CursorKey {
      CursorKey(source, adapterKey, request.scope, request.window, request.timezone)
    }
  }

  datatype Cursor = Cursor(sequence: nat, value: string, jobRef: string, watermark: string, lastRun: Option<nat>) {
    predicate Used() {
      value != "" || jobRef != "" || watermark != ""
    }
  }

  const NEW_CURSOR := Cursor(0, "", "", "", None)

  datatype System = System(
    sources: map<nat, Source>, connections: map<nat, Connection>, runs: seq<Run>, cursors: map<CursorKey, Cursor>,
    facts: Facts)

  datatype SyncError =
    | UnknownSource | ConnectionMismatch | SourceDisabled | ConnectionNotReady | InvalidWindow | InvalidMetricsPlan
    | OccurrenceConflict | ScopeOwned | UnknownRun | WrongKind | AlreadyTerminal | ContextMismatch | CursorChanged
    | MetricOutOfScope | RestartTooLate | ConfigurationChanged

  function CursorAt(s: System, key: CursorKey): Cursor {
    if key in s.cursors then s.cursors[key] else NEW_CURSOR
  }

  // ---------- Planning ----------

  predicate SameOccurrence(x: Run, source: nat, r: Request) {
    x.source == source && x.request.scope == r.scope && x.request.trigger == r.trigger
      && x.request.triggerRef == r.triggerRef
  }

  predicate OwnsScope(x: Run, source: nat, r: Request) {
    x.source == source && x.request.scope == r.scope && x.state.Active()
  }

  function FirstRun(runs: seq<Run>, p: Run -> bool): (i: Option<nat>)
    ensures i.Some? ==> i.value < |runs| && p(runs[i.value])
    ensures i.None? ==> forall k | 0 <= k < |runs| :: !p(runs[k])
  {
    if |runs| == 0 then None
    else
      var before := FirstRun(runs[..|runs| - 1], p);
      if before.Some? then before else if p(runs[|runs| - 1]) then Some(|runs| - 1) else None
  }

  /** A new run carries the revisions its plan was made under. */
  function NewRun(s: System, company: nat, source: nat, connection: nat, r: Request, now: int): Run
    requires source in s.sources && connection in s.connections
  {
    var c := s.connections[connection];
    Run(company, source, connection, s.sources[source].revision, c.bindingRevision, c.profileRevision, c.adapterKey, r,
      Planned, now, now, None, None, None, false, 0, 0, 0, 0, 0)
  }

  predicate SamePlan(x: Run, planned: Run) {
    && x.request.window == planned.request.window && x.request.timezone == planned.request.timezone
    && x.connection == planned.connection
    && x.sourceRevision == planned.sourceRevision && x.bindingRevision == planned.bindingRevision
    && x.profileRevision == planned.profileRevision && x.adapterKey == planned.adapterKey
  }

  predicate MetricsPlanValid(r: Request, x: Source) {
    r.scope.grain in {"account", "campaign", "ad_group", "ad", "keyword"} && r.window.Some? && r.timezone == x.timezone
  }

  function PlanRefusal(s: System, company: nat, source: nat, connection: nat, asked: Request): Option<SyncError> {
    if source !in s.sources || s.sources[source].company != company then Some(UnknownSource)
    else if connection !in s.connections || s.connections[connection].source != source
      || s.connections[connection].company != company
    then Some(ConnectionMismatch)
    else if !Readable(s.sources[source]) then Some(SourceDisabled)
    else if !Ready(s.connections[connection]) then Some(ConnectionNotReady)
    else if asked.window.Some? && asked.window.value.0 >= asked.window.value.1 then Some(InvalidWindow)
    else if asked.scope.kind.Metrics? && !MetricsPlanValid(Zoned(s.sources[source], asked), s.sources[source])
      then Some(InvalidMetricsPlan)
    else None
  }

  /** A request without a time zone reports in the source's. */
  function Zoned(x: Source, asked: Request): Request {
    if asked.timezone == "" then asked.(timezone := x.timezone) else asked
  }

  function PlanRun(s: System, company: nat, source: nat, connection: nat, asked: Request,
                   now: int): Result<(System, nat), SyncError> {
    var refusal := PlanRefusal(s, company, source, connection, asked);
    if refusal.Some? then Err(refusal.value)
    else
      var r := Zoned(s.sources[source], asked);
      var planned := NewRun(s, company, source, connection, r, now);
      var existing := FirstRun(s.runs, x => SameOccurrence(x, source, r));
      if existing.Some? then
        if SamePlan(s.runs[existing.value], planned) then Ok((s, existing.value)) else Err(OccurrenceConflict)
      else if FirstRun(s.runs, x => OwnsScope(x, source, r)).Some? then Err(ScopeOwned)
      else Ok((s.(runs := s.runs + [planned]), |s.runs|))
  }

  // ---------- Pages ----------

  datatype Page = Page(
    kind: Kind, items: seq<Item>, nextCursor: string, hasMore: bool, jobRef: string, jobPending: bool,
    watermark: string, context: string, errors: nat)

  /** The run may still act for the configuration it was planned under. */
  predicate FenceOk(s: System, x: Run) {
    && x.source in s.sources && x.connection in s.connections
    && var source, c := s.sources[x.source], s.connections[x.connection];
    && Readable(source) && source.revision == x.sourceRevision
    && Ready(c) && c.source == x.source && c.adapterKey == x.adapterKey
    && c.bindingRevision == x.bindingRevision && c.profileRevision == x.profileRevision
  }

  predicate MetricFits(s: System, x: Run, item: Item) {
    && item.key.MetricKey? && item.content.MetricContent? && x.source in s.sources
    && item.content.timezone == s.sources[x.source].timezone == x.request.timezone
    && item.content.currency == s.sources[x.source].currency
    && item.key.grain == x.request.scope.grain && item.key.context == x.request.scope.context
    && x.request.window.Some?
    && x.request.window.value.0 <= item.content.periodStart && item.content.periodEnd <= x.request.window.value.1
  }

  /** Items are observations of the run's own source. */
  function Own(x: Run, item: Item): Item {
    item.(key := item.key.(source := x.source))
  }

  function OwnAll(x: Run, items: seq<Item>): seq<Item> {
    seq(|items|, i requires 0 <= i < |items| => Own(x, items[i]))
  }

  function Moved(x: Run, state: RunState, now: int): Run {
    x.(state := state, writtenAt := now)
  }

  function Finished(x: Run, state: RunState, now: int): Run {
    Moved(x, state, now).(finishedAt := Some(now))
  }

  /** A run that is not yet running starts with its first page. */
  function Started(x: Run, now: int): Run {
    if x.state.Running? then x else Moved(x, Running, now).(startedAt := Some(now))
  }

  function Duplicates(ds: seq<Disposition>): nat {
    if |ds| == 0 then 0 else Duplicates(ds[..|ds| - 1]) + if ds[|ds| - 1] == Duplicate then 1 else 0
  }

  /** The counters after a page; at the end of the last page the state is written directly. */
  function Paged(x: Run, page: Page, ds: seq<Disposition>, terminal: bool, now: int): Run {
    var y := x.(pages := x.pages + 1, received := x.received + |page.items|,
      applied := x.applied + Max(0, |ds| - Duplicates(ds)), duplicates := x.duplicates + Duplicates(ds),
      errors := x.errors + page.errors, writtenAt := now);
    if terminal then Finished(y, if y.errors > 0 then Partial else Succeeded, now) else y
  }

  function WithRun(s: System, id: nat, x: Run): System
    requires id < |s.runs|
  {
    s.(runs := s.runs[id := x])
  }

  /** What a page does once the run is locked, fenced and its cursor compared. */
  function PageApplied(s: System, id: nat, page: Page, now: int): Result<System, SyncError>
    requires id < |s.runs|
  {
    var x := Started(s.runs[id], now);
    var cursor := CursorAt(s, x.Key());
    if page.jobRef != "" && page.jobPending then
      Ok(WithRun(s, id, Paged(x, page, [], false, now)).(cursors := s.cursors[x.Key() :=
        cursor.(jobRef := page.jobRef, watermark := if page.watermark != "" then page.watermark else cursor.watermark,
                sequence := cursor.sequence + 1)]))
    else if page.kind.Metrics? && exists item | item in page.items :: !MetricFits(s, x, item) then Err(MetricOutOfScope)
    else
      var (facts, ds) := UpsertedAll(s.facts, OwnAll(x, page.items), Some(id));
      Ok(WithRun(s, id, Paged(x, page, ds, !page.hasMore, now)).(facts := facts, cursors := s.cursors[x.Key() :=
        cursor.(value := page.nextCursor, sequence := cursor.sequence + 1, jobRef := page.jobRef,
                watermark := page.watermark, lastRun := Some(id))]))
  }

  /** Applies one page. seen is the state the caller read before it locked the run: a run that
   *  became terminal in between is left alone, and a lost fence makes it stale. */
  function ApplyPage(s: System, id: nat, seen: RunState, page: Page, expected: nat,
                     now: int): Result<System, SyncError> {
    if id >= |s.runs| then Err(UnknownRun)
    else
      var x := s.runs[id];
      if page.kind.Leads? || x.request.scope.kind != page.kind then Err(WrongKind)
      else if !seen.Active() then Err(AlreadyTerminal)
      else if page.context != x.request.scope.context then Err(ContextMismatch)
      else if !x.state.Active() then Ok(s)
      else if !FenceOk(s, x) then Ok(WithRun(s, id, Finished(x, Stale, now)))
      else if CursorAt(s, x.Key()).sequence != expected then Err(CursorChanged)
      else PageApplied(s, id, page, now)
  }

  // ---------- Other writers of runs and cursors ----------

  function CancelRun(s: System, id: nat, now: int): System {
    if id < |s.runs| && s.runs[id].state.Active() then WithRun(s, id, Finished(s.runs[id], Cancelled, now)) else s
  }

  /** Registers the queue job of a page that is still to come. */
  function QueueRun(s: System, id: nat, deferredUntil: Option<int>, now: int): Result<System, SyncError> {
    if id >= |s.runs| then Err(UnknownRun)
    else if !s.runs[id].state.Active() then Err(AlreadyTerminal)
    else
      var x := s.runs[id];
      Ok(WithRun(s, id, Moved(x, if x.state.Planned? then Queued else x.state, now).(deferredUntil := deferredUntil)))
  }

  /** Clears a used cursor before a planned run is queued; its sequence moves on, so that pages
   *  expecting the old one are refused. */
  function RestartCursor(s: System, id: nat): Result<System, SyncError> {
    if id >= |s.runs| then Err(UnknownRun)
    else if !s.runs[id].state.Planned? then Err(RestartTooLate)
    else if !FenceOk(s, s.runs[id]) then Err(ConfigurationChanged)
    else
      var key := s.runs[id].Key();
      var cursor := CursorAt(s, key);
      Ok(s.(cursors := s.cursors[key :=
        if cursor.Used() then cursor.(value := "", jobRef := "", watermark := "", sequence := cursor.sequence + 1)
        else cursor]))
  }

  /** Ends a run whose provider failed: what earlier pages stored stays. */
  function FinishFailure(s: System, id: nat, now: int): System {
    if id >= |s.runs| || !s.runs[id].state.Active() then s
    else if !FenceOk(s, s.runs[id]) then WithRun(s, id, Finished(s.runs[id], Stale, now))
    else
      var x := Started(s.runs[id], now);
      WithRun(s, id, Finished(x, if x.pages > 0 then Partial else Failed, now))
  }

  // ---------- The watchdog ----------

  const MINUTE := 60

  const HOUR := 3600

  function Clamp(low: int, x: int, high: int): int {
    Max(low, Min(x, high))
  }

  function LastProgress(x: Run): int {
    Max(x.writtenAt, x.deferredUntil.GetOr(x.createdAt))
  }

  predicate Stuck(x: Run, plannedCutoff: int, activeCutoff: int) {
    || (x.state.Planned? && x.createdAt < plannedCutoff)
    || ((x.state.Queued? || x.state.Running?) && LastProgress(x) < activeCutoff)
  }

  /** Stuck runs that nobody else holds locked, in order of creation. */
  function StuckRuns(s: System, plannedCutoff: int, activeCutoff: int, locked: set<nat>): seq<nat> {
    Sort(StuckBelow(s.runs, plannedCutoff, activeCutoff, locked), Earlier(s.runs))
  }

  function Earlier(runs: seq<Run>): (nat, nat) -> bool {
    (a: nat, b: nat) => CreatedAt(runs, a) <= CreatedAt(runs, b)
  }

  function CreatedAt(runs: seq<Run>, id: nat): int {
    if id < |runs| then runs[id].createdAt else 0
  }

  function StuckBelow(runs: seq<Run>, plannedCutoff: int, activeCutoff: int, locked: set<nat>): seq<nat> {
    if |runs| == 0 then []
    else
      var id := |runs| - 1;
      StuckBelow(runs[..id], plannedCutoff, activeCutoff, locked) +
        if Stuck(runs[id], plannedCutoff, activeCutoff) && id !in locked then [id] else []
  }

  function Released(x: Run, now: int): Run {
    Finished(x, if x.state.Planned? then Cancelled else Failed, now).(orphaned := true)
  }

  function ReleaseAll(s: System, ids: seq<nat>, now: int): System {
    if |ids| == 0 then s
    else
      var before, id := ReleaseAll(s, ids[..|ids| - 1], now), ids[|ids| - 1];
      if id < |before.runs| && before.runs[id].state.Active() then WithRun(before, id, Released(before.runs[id], now))
        else before
  }

  function RecoverStuckRuns(s: System, now: int, plannedMinutes: int, activeHours: int, limit: int,
                            locked: set<nat>): System {
    var plannedCutoff := now - Clamp(5, plannedMinutes, 24 * 60) * MINUTE;
    var activeCutoff := now - Clamp(1, activeHours, 7 * 24) * HOUR;
    var ids := StuckRuns(s, plannedCutoff, activeCutoff, locked);
    ReleaseAll(s, ids[..Min(|ids|, Clamp(1, limit, 1000))], now)
  }

  // ---------- All actions ----------

  datatype Action =
    | Plan(company: nat, source: nat, connection: nat, request: Request, now: int)
    | Queue(id: nat, deferredUntil: Option<int>, now: int)
    | Apply(id: nat, seen: RunState, page: Page, expected: nat, now: int)
    | Cancel(id: nat, now: int)
    | Watchdog(now: int, plannedMinutes: int, activeHours: int, limit: int, locked: set<nat>)
    | Restart(id: nat)
    | Fail(id: nat, now: int)
    | WriteSource(source: nat, sourceValues: SourceWrite)
    | WriteConnection(connection: nat, connectionValues: ConnectionWrite)

  /** An action that raises an error is rolled back and leaves the state unchanged. */
  function Step(s: System, a: Action): System {
    match a
    case Plan(company, source, connection, request, now) =>
      (match PlanRun(s, company, source, connection, request, now) case Ok(r) => r.0 case Err(_) => s)
    case Queue(id, deferredUntil, now) => (match QueueRun(s, id, deferredUntil, now) case Ok(s') => s' case Err(_) => s)
    case Apply(id, seen, page, expected, now) =>
      (match ApplyPage(s, id, seen, page, expected, now) case Ok(s') => s' case Err(_) => s)
    case Cancel(id, now) => CancelRun(s, id, now)
    case Watchdog(now, plannedMinutes, activeHours, limit, locked) =>
      RecoverStuckRuns(s, now, plannedMinutes, activeHours, limit, locked)
    case Restart(id) => (match RestartCursor(s, id) case Ok(s') => s' case Err(_) => s)
    case Fail(id, now) => FinishFailure(s, id, now)
    case WriteSource(source, w) =>
      if source in s.sources then s.(sources := s.sources[source := WrittenSource(s.sources[source], w)]) else s
    case WriteConnection(connection, w) =>
      if connection in s.connections
      then s.(connections := s.connections[connection := WrittenConnection(s.connections[connection], w)])
      else s
  }

  function Steps(s: System, actions: seq<Action>): System {
    if |actions| == 0 then s else Step(Steps(s, actions[..|actions| - 1]), actions[|actions| - 1])
  }
}
