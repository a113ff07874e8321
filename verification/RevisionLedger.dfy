/** External entities and daily metrics: append-only revisions and the current row drawn from
 *  them.  A content hash is injective in the model, so contents are compared directly. */
module RevisionLedger {
  import opened Common

  datatype Key =
    | EntityKey(source: nat, entityType: string, externalRef: string)
    | MetricKey(
        source: nat, grain: string, externalRef: string, date: int, dimensions: string, origin: string,
        context: string)

  datatype Content =
    | EntityContent(
        externalId: string, name: string, remoteStatus: string, groupType: string, parentType: string,
        parentRef: string, missingAt: Option<int>, attributes: string, schema: string)
    | MetricContent(
        impressions: Option<nat>, clicks: Option<nat>, costMicros: Option<int>,
        periodStart: int, periodEnd: int, timezone: string, currency: string, schema: string)

  /** The columns of a current row, which texts and counters the tables store in their own way. */
  datatype Columns =
    | EntityColumns(
        externalId: Option<string>, name: string, remoteStatus: Option<string>, groupType: Option<string>,
        parentType: Option<string>, parentRef: Option<string>, missingAt: Option<int>, attributes: string)
    | MetricColumns(
        hasImpressions: bool, impressions: nat, hasClicks: bool, clicks: nat, hasCost: bool, costMicros: int,
        periodStart: int, periodEnd: int, timezone: string, currency: string)

  datatype Item = Item(key: Key, content: Content, observedAt: int, providerUpdatedAt: Option<int>)

  datatype Row = Row(
    columns: Columns, related: Option<Key>, hash: Content, sequence: nat,
    firstObserved: int, lastObserved: int, providerUpdated: Option<int>, lastRun: Option<nat>)

  datatype Revision = Revision(sequence: nat, content: Content, observedAt: int, run: Option<nat>)

  datatype Facts = Facts(rows: map<Key, Row>, revisions: map<Key, seq<Revision>>)

  datatype Disposition = Accepted | Updated | Tombstone | Duplicate

  function OrNone(text: string): Option<string> {
    if text == "" then None else Some(text)
  }

  function ColumnsOf(key: Key, c: Content): Columns {
    match c
    case EntityContent(id, name, status, group, parentType, parentRef, missing, attributes, _) =>
      EntityColumns(OrNone(id), if name == "" then key.externalRef else name, OrNone(status), OrNone(group),
        OrNone(parentType), OrNone(parentRef), missing, attributes)
    case MetricContent(impressions, clicks, cost, from, to, timezone, currency, _) =>
      MetricColumns(impressions.Some?, impressions.GetOr(0), clicks.Some?, clicks.GetOr(0), cost.Some?, cost.GetOr(0),
        from, to, timezone, currency)
  }

  /** The entity a row should point to, whether or not it is known yet. */
  function RelatedKey(x: Item): Option<Key> {
    match x.content
    case EntityContent(_, _, _, _, parentType, parentRef, _, _, _) =>
      if parentRef == "" then None else Some(EntityKey(x.key.source, parentType, parentRef))
    case MetricContent(_, _, _, _, _, _, _, _) =>
      if x.key.MetricKey? then Some(EntityKey(x.key.source, x.key.grain, x.key.externalRef)) else None
  }

  function Resolve(f: Facts, x: Item): Option<Key> {
    var related := RelatedKey(x);
    if related.Some? && related.value in f.rows then related else None
  }

  function Later(a: Option<int>, b: Option<int>): Option<int> {
    if a.Some? && b.Some? then Some(Max(a.value, b.value)) else if b.Some? then b else a
  }

  predicate Repeats(f: Facts, x: Item) {
    x.key in f.rows && f.rows[x.key].hash == x.content
  }

  /** The row after an observation that repeats its current content. */
  function Observed(f: Facts, x: Item, run: Option<nat>): Row
    requires x.key in f.rows
  {
    var row, related := f.rows[x.key], Resolve(f, x);
    row.(lastObserved := Max(row.lastObserved, x.observedAt),
         lastRun := if run.Some? then run else row.lastRun,
         providerUpdated := Later(row.providerUpdated, x.providerUpdatedAt),
         related := if related.Some? then related else row.related)
  }

  /** The row after an observation with new content. */
  function Revised(f: Facts, x: Item, run: Option<nat>): Row {
    var known := x.key in f.rows;
    Row(ColumnsOf(x.key, x.content), Resolve(f, x), x.content,
      if known then f.rows[x.key].sequence + 1 else 1,
      if known then f.rows[x.key].firstObserved else x.observedAt,
      if known then Max(f.rows[x.key].lastObserved, x.observedAt) else x.observedAt,
      if known then Later(f.rows[x.key].providerUpdated, x.providerUpdatedAt) else x.providerUpdatedAt,
      run)
  }

  function History(f: Facts, key: Key): seq<Revision> {
    if key in f.revisions then f.revisions[key] else []
  }

  function Upserted(f: Facts, x: Item, run: Option<nat>): (Facts, Disposition) {
    if Repeats(f, x) then (f.(rows := f.rows[x.key := Observed(f, x, run)]), Duplicate)
    else
      var row := Revised(f, x, run);
      (Facts(f.rows[x.key := row],
             f.revisions[x.key := History(f, x.key) + [Revision(row.sequence, x.content, x.observedAt, run)]]),
       if x.content.EntityContent? && x.content.missingAt.Some? then Tombstone
       else if row.sequence > 1 then Updated else Accepted)
  }

  function UpsertedAll(f: Facts, items: seq<Item>, run: Option<nat>): (Facts, seq<Disposition>) {
    if |items| == 0 then (f, [])
    else
      var before := UpsertedAll(f, items[..|items| - 1], run);
      var last := Upserted(before.0, items[|items| - 1], run);
      (last.0, before.1 + [last.1])
  }

  const NO_FACTS := Facts(map[], map[])

  // ---------- The current row agrees with the log ----------

  ghost predicate RowAgrees(key: Key, row: Row, log: seq<Revision>) {
    && |log| > 0
    && (forall i | 0 <= i < |log| :: log[i].sequence == i + 1)
    && (forall i | 0 <= i < |log| - 1 :: log[i].content != log[i + 1].content)
    && (forall i | 0 <= i < |log| :: row.firstObserved <= log[0].observedAt && log[i].observedAt <= row.lastObserved)
    && row.sequence == |log|
    && row.hash == log[|log| - 1].content
    && row.columns == ColumnsOf(key, log[|log| - 1].content)
    && (row.related.Some? ==> row.related.value.EntityKey?)
  }

  ghost predicate Agrees(f: Facts) {
    && f.rows.Keys == f.revisions.Keys
    && forall key | key in f.rows :: RowAgrees(key, f.rows[key], f.revisions[key])
  }

  lemma ObservedAgrees(f: Facts, x: Item, run: Option<nat>)
    requires x.key in f.rows && x.key in f.revisions && RowAgrees(x.key, f.rows[x.key], f.revisions[x.key])
    ensures RowAgrees(x.key, Observed(f, x, run), f.revisions[x.key])
    ensures f.rows[x.key].lastObserved <= Observed(f, x, run).lastObserved
      && x.observedAt <= Observed(f, x, run).lastObserved
  {
    hide ColumnsOf;
  }

  lemma RevisedAgrees(f: Facts, x: Item, run: Option<nat>)
    requires x.key in f.rows ==> x.key in f.revisions && RowAgrees(x.key, f.rows[x.key], f.revisions[x.key])
    requires x.key !in f.rows ==> x.key !in f.revisions
    requires !Repeats(f, x)
    ensures var row := Revised(f, x, run);
      && RowAgrees(x.key, row, History(f, x.key) + [Revision(row.sequence, x.content, x.observedAt, run)])
      && (x.key in f.rows ==> f.rows[x.key].lastObserved <= row.lastObserved) && x.observedAt <= row.lastObserved
  {
    hide ColumnsOf;
    var row, log := Revised(f, x, run), History(f, x.key);
    var log' := log + [Revision(row.sequence, x.content, x.observedAt, run)];
    assert log'[|log|].content == x.content;
    if x.key in f.rows { assert log[|log| - 1].content != x.content; }
  }

  lemma UpsertAgrees(f: Facts, x: Item, run: Option<nat>)
    requires Agrees(f)
    ensures var f' := Upserted(f, x, run).0;
      && Agrees(f')
      && f.rows.Keys <= f'.rows.Keys
      && (forall key | key in f.rows ::
        f.rows[key].lastObserved <= f'.rows[key].lastObserved && f.revisions[key] <= f'.revisions[key])
      && (forall key | key in f.rows && key != x.key ::
        f'.rows[key] == f.rows[key] && f'.revisions[key] == f.revisions[key])
      && x.key in f'.rows && x.observedAt <= f'.rows[x.key].lastObserved
  {
    hide RowAgrees, ColumnsOf, Observed, Revised, RelatedKey;
    if Repeats(f, x) { ObservedAgrees(f, x, run); } else { RevisedAgrees(f, x, run); }
  }

  lemma UpsertKeeps(f: Facts, x: Item, run: Option<nat>)
    requires Agrees(f)
    ensures Agrees(Upserted(f, x, run).0)
  {
    hide Agrees, Upserted;
    UpsertAgrees(f, x, run);
  }

  /** One observation and the run that made it, if any. */
  datatype Observation = Observation(item: Item, run: Option<nat>)

  function Recorded(f: Facts, history: seq<Observation>): Facts {
    if |history| == 0 then f
    else
      var last := history[|history| - 1];
      Upserted(Recorded(f, history[..|history| - 1]), last.item, last.run).0
  }

  /** For every history of observations, made by whatever runs, the revisions of a key are numbered
   *  from one without a gap, neighbours differ, the current row shows the last one, logs only grow
   *  and times never go back. */
  lemma {:induction false} HistoryAgrees(f: Facts, history: seq<Observation>)
    requires Agrees(f)
    ensures var f' := Recorded(f, history);
      && Agrees(f') && f.rows.Keys <= f'.rows.Keys
      && (forall key | key in f.rows ::
            f.rows[key].lastObserved <= f'.rows[key].lastObserved && f.revisions[key] <= f'.revisions[key])
      && (forall x | x in history :: x.item.key in f'.rows && x.item.observedAt <= f'.rows[x.item.key].lastObserved)
  {
    hide RowAgrees, Upserted;
    if |history| > 0 {
      var prefix, last := history[..|history| - 1], history[|history| - 1];
      assert history == prefix + [last];
      HistoryAgrees(f, prefix);
      UpsertAgrees(Recorded(f, prefix), last.item, last.run);
    }
  }

  /** A page is a history of one run. */
  lemma {:induction false} PageIsHistory(f: Facts, items: seq<Item>, run: Option<nat>)
    ensures UpsertedAll(f, items, run).0 == Recorded(f,
      seq(|items|, i requires 0 <= i < |items| => Observation(items[i], run)))
    ensures |UpsertedAll(f, items, run).1| == |items|
  {
    hide Upserted;
    if |items| > 0 {
      var n := |items| - 1;
      PageIsHistory(f, items[..n], run);
      var history := seq(|items|, i requires 0 <= i < |items| => Observation(items[i], run));
      assert history[..n] == seq(n, i requires 0 <= i < n => Observation(items[..n][i], run));
    }
  }

  predicate DistinctItems(items: seq<Item>) {
    forall i, j | 0 <= i < j < |items| :: items[i].key != items[j].key
  }

  /** Everything the items say is already the current content. */
  ghost predicate Known(f: Facts, items: seq<Item>) {
    forall i | 0 <= i < |items| :: Repeats(f, items[i])
  }

  lemma {:induction false} AppliedIsKnown(f: Facts, items: seq<Item>, run: Option<nat>)
    requires DistinctItems(items)
    ensures Known(UpsertedAll(f, items, run).0, items)
  {
    if |items| > 0 {
      var n := |items| - 1;
      AppliedIsKnown(f, items[..n], run);
      forall i | 0 <= i < |items| ensures Repeats(UpsertedAll(f, items, run).0, items[i]) {
        if i < n { assert items[..n][i] == items[i]; assert Repeats(UpsertedAll(f, items[..n], run).0, items[i]); }
      }
    }
  }

  lemma {:induction false} KnownRepeats(f: Facts, items: seq<Item>, run: Option<nat>)
    requires Known(f, items)
    ensures var (f', ds) := UpsertedAll(f, items, run);
      && f'.revisions == f.revisions && |ds| == |items| && (forall i | 0 <= i < |ds| :: ds[i] == Duplicate)
      && f'.rows.Keys == f.rows.Keys && forall key | key in f.rows :: f'.rows[key].hash == f.rows[key].hash
  {
    if |items| > 0 {
      KnownRepeats(f, items[..|items| - 1], run);
      assert Repeats(f, items[|items| - 1]);
    }
  }

  /** Replaying an applied page reports only duplicates and writes no revision. */
  lemma ReplayOnlyDuplicates(f: Facts, items: seq<Item>, run: Option<nat>, again: Option<nat>)
    requires DistinctItems(items)
    ensures var once := UpsertedAll(f, items, run).0;
      var (twice, ds) := UpsertedAll(once, items, again);
      twice.revisions == once.revisions && |ds| == |items| && forall i | 0 <= i < |ds| :: ds[i] == Duplicate
  {
    AppliedIsKnown(f, items, run);
    KnownRepeats(UpsertedAll(f, items, run).0, items, again);
  }

  // ---------- The tables ----------

  class FactTable {
    var rows: map<Key, Row>
    var revisions: map<Key, seq<Revision>>

    function Contents(): Facts
      reads this
    {
      Facts(rows, revisions)
    }

    ghost predicate Valid()
      reads this
    {
      Agrees(Contents())
    }

    constructor ()
      ensures Valid() && Contents() == NO_FACTS
    {
      rows, revisions := map[], map[];
    }

    /** Returns to an earlier state, as a rolled back savepoint does. */
    method Restore(f: Facts)
      requires Agrees(f)
      modifies this
      ensures Valid() && Contents() == f
    {
      rows, revisions := f.rows, f.revisions;
    }

    /** Moves the times and the links of a row whose content is repeated. */
    method Observe(x: Item, related: Option<Key>, run: Option<nat>)
      requires x.key in rows && related == Resolve(Contents(), x)
      modifies this`rows
      ensures rows == old(rows)[x.key := Observed(old(Contents()), x, run)]
    {
      hide Resolve, ColumnsOf;
      var row := rows[x.key];
      row := row.(lastObserved := Max(row.lastObserved, x.observedAt));
      if run.Some? { row := row.(lastRun := run); }
      if x.providerUpdatedAt.Some?
         && (row.providerUpdated.None? || x.providerUpdatedAt.value > row.providerUpdated.value)
      {
        row := row.(providerUpdated := x.providerUpdatedAt);
      }
      if related.Some? && row.related != related { row := row.(related := related); }
      rows := rows[x.key := row];
    }

    /** Creates the row of an unseen key, before its first revision. */
    method CreateRow(x: Item, related: Option<Key>, run: Option<nat>)
      requires x.key !in rows
      modifies this`rows
      ensures rows == old(rows)[x.key :=
        Row(ColumnsOf(x.key, x.content), related, x.content, 0, x.observedAt, x.observedAt, x.providerUpdatedAt, run)]
    {
      rows := rows[x.key := Row(ColumnsOf(x.key, x.content), related, x.content, 0, x.observedAt, x.observedAt,
        x.providerUpdatedAt, run)];
    }

    /** Appends the next revision and rewrites the row from it. */
    method Revise(x: Item, related: Option<Key>, run: Option<nat>) returns (sequence: nat)
      requires related == Resolve(Contents(), x)
      modifies this
      ensures sequence == Revised(old(Contents()), x, run).sequence
      ensures rows == old(rows)[x.key := Revised(old(Contents()), x, run)]
      ensures revisions == old(revisions)[x.key := History(old(Contents()), x.key)
        + [Revision(sequence, x.content, x.observedAt, run)]]
    {
      hide Resolve, ColumnsOf;
      if x.key !in rows { CreateRow(x, related, run); }
      var row := rows[x.key];
      sequence := row.sequence + 1;
      revisions := revisions[x.key := History(Contents(), x.key) + [Revision(sequence, x.content, x.observedAt, run)]];
      rows := rows[x.key := row.(columns := ColumnsOf(x.key, x.content), related := related,
        lastObserved := Max(row.lastObserved, x.observedAt),
        providerUpdated := Later(row.providerUpdated, x.providerUpdatedAt),
        hash := x.content, sequence := sequence, lastRun := run)];
    }

    /** Records one observation: appends a revision and rewrites the current row, or only moves
     *  the row's times when its content is unchanged. */
    method Upsert(x: Item, run: Option<nat>) returns (d: Disposition)
      requires Valid()
      modifies this
      ensures Valid()
      ensures Contents() == Upserted(old(Contents()), x, run).0
      ensures d == Upserted(old(Contents()), x, run).1
    {
      hide Agrees, ColumnsOf, RelatedKey, Resolve, Observed, Revised, History;
      ghost var before := Contents();
      UpsertKeeps(before, x, run);
      var related := Resolve(Contents(), x);
      if x.key in rows && rows[x.key].hash == x.content {
        Observe(x, related, run);
        assert Upserted(before, x, run) == (Contents(), Duplicate);
        return Duplicate;
      }
      var sequence := Revise(x, related, run);
      d := if x.content.EntityContent? && x.content.missingAt.Some? then Tombstone else Accepted;
      if sequence > 1 && d == Accepted { d := Updated; }
      assert Upserted(before, x, run).0 == Contents();
    }
  }
}
