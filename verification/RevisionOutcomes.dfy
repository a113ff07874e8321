/** What one observation of an entity or a metric leaves in the tables, column by column. */
module RevisionOutcomes {
  import opened Common
  import opened RevisionLedger

  // ---------- Columns ----------

  /** An empty text is stored as no value. */
  predicate StoredText(column: Option<string>, text: string) {
    column == if |text| == 0 then None else Some(text)
  }

  predicate ShowsEntity(columns: Columns, externalRef: string, c: Content)
    requires columns.EntityColumns? && c.EntityContent?
  {
    && StoredText(columns.externalId, c.externalId) && StoredText(columns.remoteStatus, c.remoteStatus)
    && StoredText(columns.groupType, c.groupType) && StoredText(columns.parentType, c.parentType)
    && StoredText(columns.parentRef, c.parentRef)
    && columns.name == (if |c.name| == 0 then externalRef else c.name)
    && columns.missingAt == c.missingAt && columns.attributes == c.attributes
  }

  /** A counter that was not reported is stored as zero, and told apart from a reported zero. */
  predicate ShowsMetric(columns: Columns, c: Content)
    requires columns.MetricColumns? && c.MetricContent?
  {
    && columns.hasImpressions == c.impressions.Some?
    && columns.impressions == (if c.impressions.Some? then c.impressions.value else 0)
    && columns.hasClicks == c.clicks.Some? && columns.clicks == (if c.clicks.Some? then c.clicks.value else 0)
    && columns.hasCost == c.costMicros.Some?
    && columns.costMicros == (if c.costMicros.Some? then c.costMicros.value else 0)
    && columns.periodStart == c.periodStart && columns.periodEnd == c.periodEnd
    && columns.timezone == c.timezone && columns.currency == c.currency
  }

  predicate Shows(columns: Columns, externalRef: string, c: Content) {
    if c.EntityContent? then columns.EntityColumns? && ShowsEntity(columns, externalRef, c)
    else columns.MetricColumns? && ShowsMetric(columns, c)
  }

  // ---------- One observation ----------

  /** The known entity an observation points to: the named parent of an entity, the measured entity
   *  of a metric. */
  predicate PointsTo(f: Facts, x: Item, related: Option<Key>) {
    var target :=
      if x.content.EntityContent? then EntityKey(x.key.source, x.content.parentType, x.content.parentRef)
      else if x.key.MetricKey? then EntityKey(x.key.source, x.key.grain, x.key.externalRef)
      else EntityKey(x.key.source, "", "");
    var named := if x.content.EntityContent? then |x.content.parentRef| > 0 else x.key.MetricKey?;
    related == if named && target in f.rows then Some(target) else None
  }

  /** The later of two times, one of which may be missing. */
  predicate LaterOf(t: Option<int>, a: Option<int>, b: Option<int>) {
    && (t == a || t == b)
    && (a.Some? ==> t.Some? && a.value <= t.value)
    && (b.Some? ==> t.Some? && b.value <= t.value)
  }

  predicate OtherRowsStay(f: Facts, f': Facts, key: Key) {
    && (forall k | k in f.rows && k != key :: k in f'.rows && f'.rows[k] == f.rows[k])
    && (forall k | k in f'.rows && k != key :: k in f.rows)
    && (forall k | k in f.revisions && k != key :: k in f'.revisions && f'.revisions[k] == f.revisions[k])
    && (forall k | k in f'.revisions && k != key :: k in f.revisions)
  }

  /** An observation that repeats the current content moves times and links, and nothing else. */
  predicate Repeated(f: Facts, f': Facts, x: Item, run: Option<nat>) {
    && x.key in f.rows && x.key in f'.rows && f'.revisions == f.revisions
    && var row, row' := f.rows[x.key], f'.rows[x.key];
       && row'.columns == row.columns && row'.hash == row.hash && row'.sequence == row.sequence
       && row'.firstObserved == row.firstObserved
       && LaterOf(Some(row'.lastObserved), Some(row.lastObserved), Some(x.observedAt))
       && LaterOf(row'.providerUpdated, row.providerUpdated, x.providerUpdatedAt)
       && row'.lastRun == (if run.Some? then run else row.lastRun)
       && (PointsTo(f, x, row'.related) || (PointsTo(f, x, None) && row'.related == row.related))
       && (row'.related == None ==> PointsTo(f, x, None))
  }

  /** An observation with new content appends the next revision and rewrites the row from it. */
  predicate RevisedTo(f: Facts, f': Facts, x: Item, run: Option<nat>) {
    && x.key in f'.rows && x.key in f'.revisions
    && var row' := f'.rows[x.key];
       && Shows(row'.columns, x.key.externalRef, x.content) && row'.hash == x.content
       && PointsTo(f, x, row'.related) && row'.lastRun == run
       && (if x.key in f.rows then
             && row'.sequence == f.rows[x.key].sequence + 1 && row'.firstObserved == f.rows[x.key].firstObserved
             && LaterOf(Some(row'.lastObserved), Some(f.rows[x.key].lastObserved), Some(x.observedAt))
             && LaterOf(row'.providerUpdated, f.rows[x.key].providerUpdated, x.providerUpdatedAt)
           else
             && row'.sequence == 1 && row'.firstObserved == x.observedAt && row'.lastObserved == x.observedAt
             && row'.providerUpdated == x.providerUpdatedAt)
       && f'.revisions[x.key] == (if x.key in f.revisions then f.revisions[x.key] else [])
            + [Revision(row'.sequence, x.content, x.observedAt, run)]
  }

  /** One observation, and how it is reported. */
  predicate Recorded(f: Facts, f': Facts, x: Item, run: Option<nat>, d: Disposition) {
    && OtherRowsStay(f, f', x.key)
    && if x.key in f.rows && f.rows[x.key].hash == x.content then Repeated(f, f', x, run) && d == Duplicate
       else
         && RevisedTo(f, f', x, run)
         && d == if x.content.EntityContent? && x.content.missingAt.Some? then Tombstone
                 else if x.key in f.rows && f.rows[x.key].sequence > 0 then Updated else Accepted
  }

  lemma RevisedShows(key: Key, c: Content)
    ensures Shows(ColumnsOf(key, c), key.externalRef, c)
  {}

  lemma ResolvedPoints(f: Facts, x: Item)
    ensures PointsTo(f, x, Resolve(f, x))
  {}

  lemma LaterIs(a: Option<int>, b: Option<int>)
    ensures LaterOf(Later(a, b), a, b)
  {}

  /** What one observation leaves in the tables. */
  lemma ObservationOutcome(f: Facts, x: Item, run: Option<nat>)
    ensures Recorded(f, Upserted(f, x, run).0, x, run, Upserted(f, x, run).1)
  {
    RevisedShows(x.key, x.content);
    ResolvedPoints(f, x);
    if x.key in f.rows { LaterIs(f.rows[x.key].providerUpdated, x.providerUpdatedAt); }
    hide ColumnsOf, Shows, Resolve, PointsTo, Later, LaterOf;
    if x.key in f.rows {
      assert LaterOf(Some(Max(f.rows[x.key].lastObserved, x.observedAt)), Some(f.rows[x.key].lastObserved),
                     Some(x.observedAt)) by { MaxIsLater(f.rows[x.key].lastObserved, x.observedAt); }
      UnknownStays(f, x);
    }
  }

  lemma MaxIsLater(a: int, b: int)
    ensures LaterOf(Some(Max(a, b)), Some(a), Some(b))
  {}

  lemma UnknownStays(f: Facts, x: Item)
    ensures Resolve(f, x) == None ==> PointsTo(f, x, None)
  {}

  /** A page records its items one after the other. */
  lemma {:induction false} PageOutcome(f: Facts, items: seq<Item>, run: Option<nat>) returns (states: seq<Facts>)
    ensures |states| == |items| + 1 && |UpsertedAll(f, items, run).1| == |items|
    ensures states[0] == f && states[|items|] == UpsertedAll(f, items, run).0
    ensures forall k | 0 <= k < |items| ::
      Recorded(states[k], states[k + 1], items[k], run, UpsertedAll(f, items, run).1[k])
  {
    hide Recorded, Upserted;
    if |items| == 0 {
      states := [f];
    } else {
      var n := |items| - 1;
      var before := PageOutcome(f, items[..n], run);
      ObservationOutcome(before[n], items[n], run);
      states := before + [UpsertedAll(f, items, run).0];
      assert forall k | 0 <= k < n :: items[..n][k] == items[k];
    }
  }
}
