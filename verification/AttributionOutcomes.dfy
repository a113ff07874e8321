/** What a calculation stores and what it refuses, stated on the submitted candidates, the
 *  touchpoints and the stored rows alone. */
module AttributionOutcomes {
  import opened Common
  import opened Allocation
  import opened StableSort
  import opened AttributionCalculation
  import opened AttributionTheorems

  // ---------- The order of the candidates ----------

  /** The first difference of two texts puts a before b. */
  predicate TextBefore(a: string, b: string) {
    exists k | 0 <= k <= |a| && k <= |b| :: a[..k] == b[..k] && k < |b| && (k == |a| || a[k] < b[k])
  }

  predicate ListedBefore(a: Candidate, b: Candidate) {
    || a.touchpoint < b.touchpoint
    || (a.touchpoint == b.touchpoint && TextBefore(a.basis, b.basis))
    || (a.touchpoint == b.touchpoint && a.basis == b.basis && TextBefore(a.evidenceRef, b.evidenceRef))
  }

  predicate ListedAlike(a: Candidate, b: Candidate) {
    a.touchpoint == b.touchpoint && a.basis == b.basis && a.evidenceRef == b.evidenceRef
  }

  predicate Follows(s: seq<Candidate>, a: Candidate, b: Candidate) {
    exists i, j :: 0 <= i < j < |s| && s[i] == a && s[j] == b
  }

  /** cs are the submitted candidates by touchpoint, basis and evidence; candidates that agree on all
   *  three stay in the order in which they were submitted. */
  predicate ListOf(submitted: seq<Candidate>, cs: seq<Candidate>) {
    && multiset(cs) == multiset(submitted)
    && (forall i, j | 0 <= i < j < |cs| :: ListedBefore(cs[i], cs[j]) || ListedAlike(cs[i], cs[j]))
    && (forall i, j | 0 <= i < j < |submitted| && ListedAlike(submitted[i], submitted[j]) ::
          Follows(cs, submitted[i], submitted[j]))
  }

  lemma {:induction false} TextOrder(a: string, b: string)
    ensures TextLe(a, b) <==> a == b || TextBefore(a, b)
  {
    if |a| == 0 {
      if |b| > 0 { assert a[..0] == b[..0]; }
    } else if |b| > 0 && a[0] == b[0] {
      TextOrder(a[1..], b[1..]);
      assert a == [a[0]] + a[1..] && b == [b[0]] + b[1..];
      SameFirst(a, b);
      hide TextBefore;
    } else if |b| > 0 {
      assert a[..0] == b[..0];
      if TextBefore(a, b) { DifferAtFirst(a, b); }
    }
  }

  /** Behind an equal first character the rest decides. */
  lemma SameFirst(a: string, b: string)
    requires |a| > 0 && |b| > 0 && a[0] == b[0]
    ensures TextBefore(a, b) <==> TextBefore(a[1..], b[1..])
  {
    if TextBefore(a[1..], b[1..]) {
      var k :| 0 <= k <= |a[1..]| && k <= |b[1..]| && a[1..][..k] == b[1..][..k] && k < |b[1..]|
        && (k == |a[1..]| || a[1..][k] < b[1..][k]);
      assert a[..k + 1] == [a[0]] + a[1..][..k] && b[..k + 1] == [b[0]] + b[1..][..k];
    }
    if TextBefore(a, b) {
      var k :| 0 <= k <= |a| && k <= |b| && a[..k] == b[..k] && k < |b| && (k == |a| || a[k] < b[k]);
      assert a[1..][..k - 1] == a[..k][1..] && b[1..][..k - 1] == b[..k][1..];
    }
  }

  lemma DifferAtFirst(a: string, b: string)
    requires |a| > 0 && TextBefore(a, b)
    ensures a[0] <= b[0]
  {
    var k :| 0 <= k <= |a| && k <= |b| && a[..k] == b[..k] && k < |b| && (k == |a| || a[k] < b[k]);
    if k > 0 { assert a[..k][0] == b[..k][0]; }
  }

  lemma KeyOrderIs(a: Candidate, b: Candidate)
    ensures KeyLe(a, b) <==> ListedBefore(a, b) || ListedAlike(a, b)
    ensures KeyLe(a, b) && KeyLe(b, a) <==> ListedAlike(a, b)
  {
    TextOrder(a.basis, b.basis);
    TextOrder(a.evidenceRef, b.evidenceRef);
    assert KeyLe(a, b) && KeyLe(b, a) <==> SameKey(a, b) by { KeyOrder(); }
    hide TextLe, TextBefore;
  }

  /** Tying elements keep their places relative to each other among the ties. */
  lemma {:induction false} TiesKeep<T(!new)>(s: seq<T>, x: T, le: (T, T) -> bool, i: nat, j: nat)
    requires i < j < |s| && le(x, s[i]) && le(s[i], x) && le(x, s[j]) && le(s[j], x)
    ensures exists a, b :: 0 <= a < b < |Ties(s, x, le)| && Ties(s, x, le)[a] == s[i] && Ties(s, x, le)[b] == s[j]
  {
    var rest := Ties(s[1..], x, le);
    if i == 0 {
      assert s[j] == s[1..][j - 1] && s[j] in rest;
      var b :| 0 <= b < |rest| && rest[b] == s[j];
      assert Ties(s, x, le)[0] == s[0] && Ties(s, x, le)[b + 1] == s[j];
    } else {
      TiesKeep(s[1..], x, le, i - 1, j - 1);
      var a, b :| 0 <= a < b < |rest| && rest[a] == s[1..][i - 1] && rest[b] == s[1..][j - 1];
      var d := |Ties(s, x, le)| - |rest|;
      assert Ties(s, x, le)[a + d] == rest[a] && Ties(s, x, le)[b + d] == rest[b];
    }
  }

  lemma {:induction false} TiesStem<T(!new)>(s: seq<T>, x: T, le: (T, T) -> bool, a: nat, b: nat)
    requires a < b < |Ties(s, x, le)|
    ensures exists i, j :: 0 <= i < j < |s| && s[i] == Ties(s, x, le)[a] && s[j] == Ties(s, x, le)[b]
  {
    hide Ties;
    TiesStep(s, x, le);
    var rest, d := Ties(s[1..], x, le), if le(x, s[0]) && le(s[0], x) then 1 else 0;
    if d == 1 && a == 0 {
      FirstTie(s, x, le, rest, b);
    } else {
      TiesStem(s[1..], x, le, a - d, b - d);
      var i, j :| 0 <= i < j < |s[1..]| && s[1..][i] == rest[a - d] && s[1..][j] == rest[b - d];
      assert s[i + 1] == rest[a - d] && s[j + 1] == rest[b - d];
    }
  }

  lemma TiesStep<T(!new)>(s: seq<T>, x: T, le: (T, T) -> bool)
    ensures |s| == 0 ==> Ties(s, x, le) == []
    ensures |s| > 0 ==>
      Ties(s, x, le) == (if le(x, s[0]) && le(s[0], x) then [s[0]] else []) + Ties(s[1..], x, le)
  {}

  lemma FirstTie<T(!new)>(s: seq<T>, x: T, le: (T, T) -> bool, rest: seq<T>, b: nat)
    requires |s| > 0 && rest == Ties(s[1..], x, le) && 0 < b <= |rest|
    ensures exists i, j :: 0 <= i < j < |s| && s[i] == s[0] && s[j] == rest[b - 1]
  {
    assert rest[b - 1] in s[1..];
    var j :| 0 <= j < |s[1..]| && s[1..][j] == rest[b - 1];
    assert s[0] == s[0] && s[j + 1] == rest[b - 1];
  }

  lemma OrderedIsList(submitted: seq<Candidate>)
    ensures ListOf(submitted, Ordered(submitted))
  {
    KeyOrder();
    SortSorts(submitted, KeyLe);
    var cs := Ordered(submitted);
    hide KeyLe, TotalPreorder, Ties, ListedBefore, ListedAlike;
    forall i, j | 0 <= i < j < |cs| ensures ListedBefore(cs[i], cs[j]) || ListedAlike(cs[i], cs[j]) {
      KeyOrderIs(cs[i], cs[j]);
    }
    forall i, j | 0 <= i < j < |submitted| && ListedAlike(submitted[i], submitted[j])
      ensures Follows(cs, submitted[i], submitted[j])
    {
      var x := submitted[i];
      KeyOrderIs(x, submitted[j]);
      SelfAlike(x);
      SortStable(submitted, x, KeyLe);
      TiesKeep(submitted, x, KeyLe, i, j);
      var a, b :| 0 <= a < b < |Ties(submitted, x, KeyLe)| && Ties(submitted, x, KeyLe)[a] == x
        && Ties(submitted, x, KeyLe)[b] == submitted[j];
      TiesStem(cs, x, KeyLe, a, b);
    }
  }

  lemma SelfAlike(x: Candidate)
    ensures KeyLe(x, x)
  {
    KeyOrder();
  }

  // ---------- Which candidates count ----------

  function WindowStart(m: Model, s: Subject, r: Request): int {
    if r.window.Some? then r.window.value.0 else s.occurredAt - 86400 * m.windowDays
  }

  function WindowEnd(s: Subject, r: Request): int {
    if r.window.Some? then r.window.value.1 else s.occurredAt
  }

  predicate Known(w: World, cs: seq<Candidate>) {
    forall c | c in cs :: c.touchpoint in w.touchpoints
  }

  /** The model allows the evidence, and no correlation is evidence. */
  predicate Allowed(m: Model, c: Candidate) {
    c.basis in m.bases && c.basis != "correlation_only"
  }

  predicate Admissible(w: World, m: Model, s: Subject, r: Request, c: Candidate)
    requires c.touchpoint in w.touchpoints
  {
    var at := w.touchpoints[c.touchpoint].occurredAt;
    && Allowed(m, c) && c.touchpoint in w.effective
    && at <= s.occurredAt && WindowStart(m, s, r) <= at && at <= WindowEnd(s, r)
  }

  /** The first admissible candidate of its touchpoint. */
  predicate Counts(w: World, m: Model, s: Subject, r: Request, cs: seq<Candidate>, i: nat)
    requires Known(w, cs) && i < |cs|
  {
    && Admissible(w, m, s, r, cs[i])
    && !exists j | 0 <= j < i :: Admissible(w, m, s, r, cs[j]) && cs[j].touchpoint == cs[i].touchpoint
  }

  /** Why a candidate that does not count was excluded; the reasons are tried in this order. */
  predicate Excluded(w: World, m: Model, s: Subject, r: Request, c: Candidate, state: State)
    requires c.touchpoint in w.touchpoints
  {
    var at := w.touchpoints[c.touchpoint].occurredAt;
    match state
    case ExcludedCorrelation => c.basis == "correlation_only"
    case ExcludedPolicy => c.basis != "correlation_only" && c.basis !in m.bases
    case ExcludedStaleRevision => Allowed(m, c) && c.touchpoint !in w.effective
    case ExcludedAfterSubject => Allowed(m, c) && c.touchpoint in w.effective && s.occurredAt < at
    case ExcludedWindow =>
      && Allowed(m, c) && c.touchpoint in w.effective && at <= s.occurredAt
      && (at < WindowStart(m, s, r) || WindowEnd(s, r) < at)
    case DuplicateTouchpoint => Admissible(w, m, s, r, c)
    case _ => false
  }

  lemma StateIs(w: World, m: Model, s: Subject, r: Request, c: Candidate)
    requires c.touchpoint in w.touchpoints
    ensures var state := StateOf(w, m, s, c, WindowOf(m, s, r).0, WindowOf(m, s, r).1);
      && (state == Eligible <==> Admissible(w, m, s, r, c))
      && (state != Eligible ==> Excluded(w, m, s, r, c, state) && state != DuplicateTouchpoint)
  {}

  /** Before the weights are known: who counts, and who was excluded for what. */
  lemma ClassifiedIs(w: World, m: Model, s: Subject, r: Request, cs: seq<Candidate>, i: nat)
    requires Known(w, cs) && i < |cs|
    ensures var (from, to) := WindowOf(m, s, r);
      var x := Classified(w, m, s, cs, from, to)[i];
      && x.index == i && x.candidate == cs[i] && x.occurredAt == w.touchpoints[cs[i].touchpoint].occurredAt
      && (x.state == Eligible <==> Counts(w, m, s, r, cs, i))
      && (x.state != Eligible ==> Excluded(w, m, s, r, cs[i], x.state))
  {
    forall j | 0 <= j <= i
      ensures StateOf(w, m, s, cs[j], WindowOf(m, s, r).0, WindowOf(m, s, r).1) == Eligible <==>
        Admissible(w, m, s, r, cs[j])
    {
      StateIs(w, m, s, r, cs[j]);
    }
    StateIs(w, m, s, r, cs[i]);
    hide StateOf, Admissible, WindowOf;
  }

  // ---------- Weights ----------

  /** In time, then by touchpoint, then by place. */
  predicate Earlier(w: World, cs: seq<Candidate>, j: nat, i: nat)
    requires Known(w, cs) && j < |cs| && i < |cs|
  {
    var (a, b) := (cs[j].touchpoint, cs[i].touchpoint);
    var (at, bt) := (w.touchpoints[a].occurredAt, w.touchpoints[b].occurredAt);
    at < bt || (at == bt && (a < b || (a == b && j < i)))
  }

  function Counting(w: World, m: Model, s: Subject, r: Request, cs: seq<Candidate>): set<nat>
    requires Known(w, cs)
  {
    set i: nat | i < |cs| && Counts(w, m, s, r, cs, i)
  }

  /** How many counting candidates are earlier than candidate i. */
  function RankOf(w: World, m: Model, s: Subject, r: Request, cs: seq<Candidate>, i: nat): nat
    requires Known(w, cs) && i < |cs|
  {
    |set j: nat | j < |cs| && Counts(w, m, s, r, cs, j) && Earlier(w, cs, j, i)|
  }

  /** The weight of the candidate of this rank among so many. */
  predicate WeightIs(strategy: Strategy, weight: nat, rank: nat, count: nat, reported: Option<nat>) {
    match strategy
    case FirstTouch => weight == if rank == 0 then 1_000_000 else 0
    case LastTouch => weight == if rank + 1 == count then 1_000_000 else 0
    case Linear => count > 0 && weight == 1_000_000 / count + if rank < 1_000_000 % count then 1 else 0
    case PlatformReported => weight == if reported.Some? then reported.value else 0
  }

  lemma {:induction false} PrefixIndices(c: seq<Item>, n: nat)
    requires DistinctIndices(c) && n <= |c|
    ensures |set k: nat | k < n :: c[k].index| == n
  {
    if n > 0 {
      PrefixIndices(c, n - 1);
      var before := set k: nat | k < n - 1 :: c[k].index;
      assert c[n - 1].index !in before;
      assert (set k: nat | k < n :: c[k].index) == before + {c[n - 1].index};
    }
  }

  /** The items as the candidates say. */
  ghost predicate ItemsOf(w: World, m: Model, s: Subject, r: Request, cs: seq<Candidate>, items: seq<Item>)
    requires Known(w, cs)
  {
    && |items| == |cs| && WellPrepared(items)
    && forall i | 0 <= i < |items| ::
         && items[i].index == i && items[i].candidate == cs[i]
         && items[i].occurredAt == w.touchpoints[cs[i].touchpoint].occurredAt
         && (items[i].state == Eligible <==> Counts(w, m, s, r, cs, i))
         && (items[i].state != Eligible ==> Excluded(w, m, s, r, cs[i], items[i].state))
  }

  lemma ClassifiedItems(w: World, m: Model, s: Subject, r: Request, cs: seq<Candidate>)
    requires Known(w, cs)
    ensures ItemsOf(w, m, s, r, cs, Classified(w, m, s, cs, WindowOf(m, s, r).0, WindowOf(m, s, r).1))
  {
    var (from, to) := WindowOf(m, s, r);
    ClassifiedWell(w, m, s, cs, from, to);
    forall i: nat | i < |cs|
      ensures var x := Classified(w, m, s, cs, from, to)[i];
        && x.index == i && x.candidate == cs[i] && x.occurredAt == w.touchpoints[cs[i].touchpoint].occurredAt
        && (x.state == Eligible <==> Counts(w, m, s, r, cs, i))
        && (x.state != Eligible ==> Excluded(w, m, s, r, cs[i], x.state))
    {
      ClassifiedIs(w, m, s, r, cs, i);
    }
    hide Repeats, StateOf, Counts, Excluded, WindowOf, WellPrepared;
  }

  lemma EarlierIs(w: World, m: Model, s: Subject, r: Request, cs: seq<Candidate>, items: seq<Item>, j: nat, i: nat)
    requires Known(w, cs) && ItemsOf(w, m, s, r, cs, items) && i < |cs| && j < |cs|
    ensures Earlier(w, cs, j, i) <==> ChronoLe(items[j], items[i]) && j != i
  {
    hide Counts, Excluded, WellPrepared;
  }

  /** The eligible items in time, each once. */
  ghost predicate InTime(items: seq<Item>, c: seq<Item>) {
    && DistinctIndices(c) && Sorted(c, ChronoLe)
    && (forall i: nat | i < |items| :: items[i].index == i)
    && (forall i: nat | i < |items| && items[i].state == Eligible :: items[i] in c)
    && (forall k: nat | k < |c| :: c[k].index < |items| && items[c[k].index] == c[k] && c[k].state == Eligible)
  }

  lemma ChronologicalInTime(items: seq<Item>)
    requires WellPrepared(items)
    ensures InTime(items, Chronological(items))
  {
    assert forall i: nat | i < |items| :: items[i].index == i;
    hide Chronological, Sorted, DistinctIndices, WellPrepared;
    ChronologicalDistinct(items);
    var c := Chronological(items);
    forall k: nat | k < |c|
      ensures c[k].index < |items| && items[c[k].index] == c[k] && c[k].state == Eligible
    {
      assert c[k] in c;
    }
  }

  /** In that order as many items come before one as are earlier. */
  lemma PlaceInTime(items: seq<Item>, c: seq<Item>, p: nat, i: nat)
    requires InTime(items, c) && p < |c| && i < |items| && c[p] == items[i]
    ensures |set j: nat | j < |items| && items[j].state == Eligible && ChronoLe(items[j], items[i]) && j != i| == p
  {
    var before := set k: nat | k < p :: c[k].index;
    var earlier := set j: nat | j < |items| && items[j].state == Eligible && ChronoLe(items[j], items[i]) && j != i;
    PrefixIndices(c, p);
    hide ChronoLe;
    forall j: nat ensures j in before <==> j in earlier {
      if j in before {
        var k: nat :| k < p && c[k].index == j;
        assert ChronoLe(c[k], c[p]);
      }
      if j in earlier {
        var k: nat :| k < |c| && c[k] == items[j];
        if p < k { assert ChronoLe(c[p], c[k]); NotBothWays(c[p], c[k]); }
      }
    }
    assert before == earlier;
  }

  lemma LengthInTime(items: seq<Item>, c: seq<Item>)
    requires InTime(items, c)
    ensures |set j: nat | j < |items| && items[j].state == Eligible| == |c|
  {
    var all, eligible := set k: nat | k < |c| :: c[k].index, set j: nat | j < |items| && items[j].state == Eligible;
    PrefixIndices(c, |c|);
    hide ChronoLe, Sorted, DistinctIndices;
    forall j: nat | j in eligible ensures j in all {
      var k: nat :| k < |c| && c[k] == items[j];
    }
    assert all == eligible;
  }

  lemma RankIsPlace(w: World, m: Model, s: Subject, r: Request, cs: seq<Candidate>, items: seq<Item>, i: nat)
    requires Known(w, cs) && ItemsOf(w, m, s, r, cs, items) && i < |cs|
    ensures RankOf(w, m, s, r, cs, i)
      == |set j: nat | j < |items| && items[j].state == Eligible && ChronoLe(items[j], items[i]) && j != i|
    ensures |Counting(w, m, s, r, cs)| == |set j: nat | j < |items| && items[j].state == Eligible|
  {
    var ranked := set j: nat | j < |cs| && Counts(w, m, s, r, cs, j) && Earlier(w, cs, j, i);
    var earlier := set j: nat | j < |items| && items[j].state == Eligible && ChronoLe(items[j], items[i]) && j != i;
    hide Counts, Excluded, WellPrepared, Earlier, ChronoLe;
    forall j: nat | j < |cs| ensures Earlier(w, cs, j, i) <==> ChronoLe(items[j], items[i]) && j != i {
      EarlierIs(w, m, s, r, cs, items, j, i);
    }
    assert ranked == earlier;
    assert Counting(w, m, s, r, cs) == set j: nat | j < |items| && items[j].state == Eligible;
  }

  lemma NotBothWays(x: Item, y: Item)
    requires ChronoLe(x, y) && ChronoLe(y, x)
    ensures x.index == y.index
  {}

  lemma WeightAt(strategy: Strategy, items: seq<Item>, c: seq<Item>, i: nat) returns (p: nat)
    requires InTime(items, c) && c == Chronological(items) && i < |items| && Weights(strategy, items).Ok?
    ensures items[i].state == Eligible ==>
      p < |c| && c[p] == items[i] && Get(Weights(strategy, items).value, i) == Share(strategy, c, p)
    ensures items[i].state != Eligible ==> Get(Weights(strategy, items).value, i) == 0
  {
    hide Chronological, Share, Sorted;
    p := 0;
    if items[i].state == Eligible {
      p :| 0 <= p < |c| && c[p] == items[i];
      KeyedAt(c, Shares(strategy, c), p);
    } else if |c| > 0 {
      KeyedOnly(c, Shares(strategy, c), i);
    }
    hide Keyed;
  }

  lemma ShareIs(strategy: Strategy, c: seq<Item>, p: nat)
    requires p < |c|
    ensures WeightIs(strategy, Share(strategy, c, p), p, |c|, c[p].candidate.reported)
  {}

  /** The weight of every candidate, by its rank among the counting ones. */
  lemma WeightOutcome(w: World, m: Model, s: Subject, r: Request, cs: seq<Candidate>, items: seq<Item>, i: nat)
    requires Known(w, cs) && ItemsOf(w, m, s, r, cs, items) && i < |cs| && Weights(m.strategy, items).Ok?
    ensures var weight := Get(Weights(m.strategy, items).value, i);
      if Counts(w, m, s, r, cs, i)
      then WeightIs(m.strategy, weight, RankOf(w, m, s, r, cs, i), |Counting(w, m, s, r, cs)|, cs[i].reported)
      else weight == 0
  {
    var c := Chronological(items);
    hide Chronological, Counts, Excluded, WellPrepared, RankOf, Counting, InTime, Weights, Share, WeightIs;
    ChronologicalInTime(items);
    var p := WeightAt(m.strategy, items, c, i);
    if items[i].state == Eligible {
      RankIsPlace(w, m, s, r, cs, items, i);
      PlaceInTime(items, c, p, i);
      LengthInTime(items, c);
      ShareIs(m.strategy, c, p);
    }
  }

  // ---------- Refusals ----------

  /** What the provider reported for the first n counting candidates. */
  function ReportedTotal(w: World, m: Model, s: Subject, r: Request, cs: seq<Candidate>, n: nat): nat
    requires Known(w, cs) && n <= |cs|
  {
    if n == 0 then 0
    else
      ReportedTotal(w, m, s, r, cs, n - 1) +
      if Counts(w, m, s, r, cs, n - 1) && cs[n - 1].reported.Some? then cs[n - 1].reported.value else 0
  }

  lemma {:induction false} LookedIsReported(w: World, m: Model, s: Subject, r: Request, cs: seq<Candidate>,
                                            weights: map<nat, nat>, n: nat)
    requires Known(w, cs) && n <= |cs|
    requires forall i | 0 <= i < |cs| ::
      Get(weights, i) == (if Counts(w, m, s, r, cs, i) && cs[i].reported.Some? then cs[i].reported.value else 0)
    ensures Looked(weights, n) == ReportedTotal(w, m, s, r, cs, n)
  {
    if n > 0 {
      hide Counts, Get;
      LookedIsReported(w, m, s, r, cs, weights, n - 1);
    }
  }

  lemma ReportedAt(items: seq<Item>, c: seq<Item>, i: nat)
    requires InTime(items, c) && i < |items|
    ensures Get(Keyed(c, Shares(PlatformReported, c)), i)
      == if items[i].state == Eligible && items[i].candidate.reported.Some? then items[i].candidate.reported.value
        else 0
  {
    hide Sorted;
    if items[i].state == Eligible {
      var p :| 0 <= p < |c| && c[p] == items[i];
      KeyedAt(c, Shares(PlatformReported, c), p);
    } else {
      KeyedOnly(c, Shares(PlatformReported, c), i);
    }
    hide Keyed;
  }

  lemma WeightsRefusal(w: World, m: Model, s: Subject, r: Request, cs: seq<Candidate>, items: seq<Item>)
    requires Known(w, cs) && ItemsOf(w, m, s, r, cs, items)
    ensures Weights(m.strategy, items).Err? <==>
      m.strategy == PlatformReported && Counting(w, m, s, r, cs) != {}
      && ReportedTotal(w, m, s, r, cs, |cs|) != 1_000_000
    ensures Weights(m.strategy, items).Err? ==> Weights(m.strategy, items).error == WeightsNotMillion
  {
    var c := Chronological(items);
    var shares := Shares(PlatformReported, c);
    hide Chronological, Counts, Excluded, WellPrepared, Shares, Sorted, Keyed, Get, InTime;
    ChronologicalInTime(items);
    LengthInTime(items, c);
    assert Counting(w, m, s, r, cs) == set j: nat | j < |items| && items[j].state == Eligible;
    forall i: nat | i < |cs| ensures Get(Keyed(c, shares), i)
      == if Counts(w, m, s, r, cs, i) && cs[i].reported.Some? then cs[i].reported.value else 0
    {
      ReportedAt(items, c, i);
    }
    LookedIsReported(w, m, s, r, cs, Keyed(c, shares), |cs|);
    TotalIsLooked(items, c, shares);
  }

  lemma TotalIsLooked(items: seq<Item>, c: seq<Item>, shares: seq<nat>)
    requires InTime(items, c) && |shares| == |c|
    ensures Looked(Keyed(c, shares), |items|) == Total(shares)
  {
    hide Sorted;
    LookedTotal(c, shares, |items|);
  }

  lemma SameCandidates(submitted: seq<Candidate>)
    ensures forall c :: c in Ordered(submitted) <==> c in submitted
  {
    KeyOrder();
    SortSorts(submitted, KeyLe);
    hide KeyLe, TotalPreorder;
    forall c ensures c in Ordered(submitted) <==> c in submitted {
      assert c in multiset(Ordered(submitted)) <==> c in multiset(submitted);
    }
  }

  /** A calculation under a new reference fails exactly for a candidate whose touchpoint is missing
   *  or belongs to another company, and for provider weights that do not total a million. */
  lemma ComputedRefusal(w: World, company: nat, m: Model, s: Subject, r: Request) returns (cs: seq<Candidate>)
    ensures ListOf(r.candidates, cs)
    ensures var result := Computed(w, company, m, s, r);
      if !Known(w, r.candidates) then result == Err(MissingTouchpoint)
      else if exists c | c in r.candidates :: w.touchpoints[c.touchpoint].company != company
      then result == Err(ForeignTouchpoint)
      else
        && Known(w, cs)
        && if m.strategy == PlatformReported && Counting(w, m, s, r, cs) != {}
              && ReportedTotal(w, m, s, r, cs, |cs|) != 1_000_000
           then result == Err(WeightsNotMillion)
           else result.Ok?
  {
    cs := Ordered(r.candidates);
    OrderedIsList(r.candidates);
    SameCandidates(r.candidates);
    hide ListOf, Ordered, Weights, Row, Settled, Classified, Counting, ReportedTotal;
    if Known(w, cs) {
      var (from, to) := WindowOf(m, s, r);
      ClassifiedItems(w, m, s, r, cs);
      WeightsRefusal(w, m, s, r, cs, Classified(w, m, s, cs, from, to));
      hide ItemsOf, WindowOf;
    }
  }

  // ---------- Stored rows ----------

  /** The stored record of the candidate at place i. */
  predicate CandidateRow(w: World, m: Model, s: Subject, r: Request, cs: seq<Candidate>, i: nat, x: Item)
    requires Known(w, cs) && i < |cs|
  {
    && x.index == i && x.candidate == cs[i] && x.occurredAt == w.touchpoints[cs[i].touchpoint].occurredAt
    && if Counts(w, m, s, r, cs, i) then
         && WeightIs(m.strategy, x.weight, RankOf(w, m, s, r, cs, i), |Counting(w, m, s, r, cs)|, cs[i].reported)
         && x.state == (if x.weight > 0 then Credited else EligibleNotSelected)
       else x.weight == 0 && Excluded(w, m, s, r, cs[i], x.state)
  }

  lemma SettledIs(w: World, m: Model, s: Subject, r: Request, cs: seq<Candidate>, items: seq<Item>, i: nat)
    requires Known(w, cs) && ItemsOf(w, m, s, r, cs, items) && i < |cs| && Weights(m.strategy, items).Ok?
    ensures CandidateRow(w, m, s, r, cs, i, Settled(items, Weights(m.strategy, items).value)[i])
  {
    WeightOutcome(w, m, s, r, cs, items, i);
    hide Counts, Excluded, WeightIs, RankOf, Counting, Weights, WellPrepared;
  }

  /** Each contribution cites a credited candidate, with its touchpoint and its weight. */
  predicate CitesEach(row: ResultRow) {
    && |row.contributions| == row.creditedCount
    && forall k | 0 <= k < |row.contributions| ::
         var x := row.contributions[k];
         && x.sequence == k + 1 && 1 <= x.candidateSequence <= |row.candidates|
         && var c := row.candidates[x.candidateSequence - 1];
            c.state == Credited && x.touchpoint == c.candidate.touchpoint && x.weight == c.weight
  }

  /** The contributions follow the order of the candidates and leave out no credited one. */
  predicate CitesAll(row: ResultRow) {
    && (forall k, l | 0 <= k < l < |row.contributions| ::
          row.contributions[k].candidateSequence < row.contributions[l].candidateSequence)
    && (forall i | 0 <= i < |row.candidates| && row.candidates[i].state == Credited ::
          exists k | 0 <= k < |row.contributions| :: row.contributions[k].candidateSequence == i + 1)
  }

  lemma {:induction false} CreditedInOrder(settled: seq<Item>, n: nat)
    requires n <= |settled| && forall i | 0 <= i < |settled| :: settled[i].index == i
    ensures var credited := CreditedOf(settled[..n]);
      && (forall k | 0 <= k < |credited| :: credited[k].index < n && settled[credited[k].index] == credited[k]
            && credited[k].state == Credited)
      && (forall k, l | 0 <= k < l < |credited| :: credited[k].index < credited[l].index)
      && (forall i | 0 <= i < n && settled[i].state == Credited ::
            exists k | 0 <= k < |credited| :: credited[k] == settled[i])
  {
    if n > 0 {
      CreditedInOrder(settled, n - 1);
      assert settled[..n][..n - 1] == settled[..n - 1];
      var before, credited := CreditedOf(settled[..n - 1]), CreditedOf(settled[..n]);
      assert before <= credited;
      forall i | 0 <= i < n && settled[i].state == Credited
        ensures exists k | 0 <= k < |credited| :: credited[k] == settled[i]
      {
        if i < n - 1 {
          var k :| 0 <= k < |before| && before[k] == settled[i];
          assert credited[k] == settled[i];
        } else {
          assert credited[|before|] == settled[i];
        }
      }
    }
  }

  lemma RowCites(settled: seq<Item>, s: Subject, from: int, to: int)
    requires forall i | 0 <= i < |settled| :: settled[i].index == i
    ensures CitesEach(Row(settled, s, from, to)) && CitesAll(Row(settled, s, from, to))
  {
    var credited := CreditedOf(settled);
    var shares := Allocated(s.amount.GetOr(0), WeightsIn(credited));
    assert settled[..|settled|] == settled;
    hide CreditedOf, Allocated, EligibleTouchpoints, WeightsIn, Total, CitesEach, CitesAll;
    CreditedInOrder(settled, |settled|);
    var row := Row(settled, s, from, to);
    ContributionsCite(settled, credited, shares, row);
    ContributionsCiteAll(settled, credited, shares, row);
  }

  lemma ContributionsCite(settled: seq<Item>, credited: seq<Item>, shares: seq<int>, row: ResultRow)
    requires row.candidates == settled && |shares| == |credited| == row.creditedCount
    requires row.contributions == Contributions(credited, shares)
    requires forall k | 0 <= k < |credited| ::
      credited[k].index < |settled| && settled[credited[k].index] == credited[k] && credited[k].state == Credited
    ensures CitesEach(row)
  {}

  lemma ContributionsCiteAll(settled: seq<Item>, credited: seq<Item>, shares: seq<int>, row: ResultRow)
    requires row.candidates == settled && |shares| == |credited|
    requires row.contributions == Contributions(credited, shares)
    requires forall k, l | 0 <= k < l < |credited| :: credited[k].index < credited[l].index
    requires forall i | 0 <= i < |settled| :: settled[i].index == i
    requires forall i | 0 <= i < |settled| && settled[i].state == Credited ::
      exists k | 0 <= k < |credited| :: credited[k] == settled[i]
    ensures CitesAll(row)
  {
    forall i | 0 <= i < |settled| && settled[i].state == Credited
      ensures exists k | 0 <= k < |row.contributions| :: row.contributions[k].candidateSequence == i + 1
    {
      var k :| 0 <= k < |credited| && credited[k] == settled[i];
      assert row.contributions[k].candidateSequence == i + 1;
    }
  }

  /** What the contributions receive before the remainder, regardless of sign. */
  function Floored(xs: seq<Contribution>, size: nat): nat {
    if xs == [] then 0 else Floored(xs[..|xs| - 1], size) + size * xs[|xs| - 1].weight / 1_000_000
  }

  /** The proportion of an amount, rounded towards zero. */
  function Rounded(amount: int, weight: nat): int {
    if amount < 0 then -(-amount * weight / 1_000_000) else amount * weight / 1_000_000
  }

  /** The proportion of the amount, and one micro more for the first places. */
  predicate ShareOf(amount: int, x: Contribution, place: nat, extra: int) {
    x.amount == Rounded(amount, x.weight) + if place < extra then (if amount < 0 then -1 else 1) else 0
  }

  /** Each contribution gets its proportion of the amount, rounded towards zero, and the first ones
   *  get one micro more, until nothing is left. */
  predicate Split(amount: int, xs: seq<Contribution>) {
    var size := if amount < 0 then -amount else amount;
    && Floored(xs, size) <= size
    && forall k | 0 <= k < |xs| :: ShareOf(amount, xs[k], k, size - Floored(xs, size))
  }

  lemma {:induction false} FlooredIsBase(xs: seq<Contribution>, size: nat, weights: seq<nat>)
    requires |weights| == |xs| && forall k | 0 <= k < |xs| :: weights[k] == xs[k].weight
    ensures Floored(xs, size) == Base(size, weights)
  {
    if |xs| > 0 { FlooredIsBase(xs[..|xs| - 1], size, weights[..|xs| - 1]); }
  }

  lemma ContributionsSplit(amount: int, xs: seq<Contribution>, weights: seq<nat>)
    requires |weights| == |xs| && forall k | 0 <= k < |xs| :: weights[k] == xs[k].weight
    requires forall k | 0 <= k < |xs| :: xs[k].amount == Allocated(amount, weights)[k]
    requires |weights| > 0 ==> Total(weights) == MILLION
    ensures Split(amount, xs)
  {
    hide Remainder, Floored, Base, Allocated, Total, ShareOf, Abs;
    var size := if amount < 0 then -amount else amount;
    FlooredIsBase(xs, size, weights);
    if |xs| > 0 {
      RestIs(amount, weights);
      SharesSplit(amount, xs, weights);
      assert Abs(Remainder(amount, weights)) == size - Floored(xs, size);
    } else {
      NothingFloored(size, weights);
    }
  }

  lemma SharesSplit(amount: int, xs: seq<Contribution>, weights: seq<nat>)
    requires |weights| == |xs| && forall k | 0 <= k < |xs| :: weights[k] == xs[k].weight
    requires forall k | 0 <= k < |xs| :: xs[k].amount == Allocated(amount, weights)[k]
    requires Total(weights) == MILLION
    ensures forall k | 0 <= k < |xs| :: ShareOf(amount, xs[k], k, Abs(Remainder(amount, weights)))
  {
    hide *;
    forall k | 0 <= k < |xs| ensures ShareOf(amount, xs[k], k, Abs(Remainder(amount, weights))) {
      OneShare(amount, xs[k], weights, k);
    }
  }

  lemma OneShare(amount: int, x: Contribution, weights: seq<nat>, k: nat)
    requires Total(weights) == MILLION && k < |weights|
    requires weights[k] == x.weight && x.amount == Allocated(amount, weights)[k]
    ensures ShareOf(amount, x, k, Abs(Remainder(amount, weights)))
  {
    hide Remainder, Allocated, Total, Floor, Rounded;
    PlainShare(amount, weights, k);
    FloorIsRounded(amount, weights[k]);
  }

  lemma FloorIsRounded(amount: int, weight: nat)
    ensures Floor(amount, weight) == Rounded(amount, weight)
  {}

  lemma NothingFloored(size: nat, weights: seq<nat>)
    requires weights == []
    ensures Base(size, weights) == 0
  {}

  /** What is left after rounding, regardless of sign. */
  lemma RestIs(amount: int, weights: seq<nat>)
    requires Total(weights) == MILLION && |weights| > 0
    ensures var size := if amount < 0 then -amount else amount;
      Base(size, weights) <= size && Abs(Remainder(amount, weights)) == size - Base(size, weights)
  {
    FloorsAreBase(amount, weights);
    BaseBounds(Abs(amount), weights);
    RemainderSmall(amount, weights);
    hide Floors, Sum, Base, Total;
  }

  lemma {:induction false} DistinctImage(xs: set<nat>, cs: seq<Candidate>)
    requires forall i | i in xs :: i < |cs|
    requires forall i, j | i in xs && j in xs && i != j :: cs[i].touchpoint != cs[j].touchpoint
    ensures |set i | i in xs :: cs[i].touchpoint| == |xs|
    decreases |xs|
  {
    if x :| x in xs {
      DistinctImage(xs - {x}, cs);
      var before := set i | i in xs - {x} :: cs[i].touchpoint;
      assert cs[x].touchpoint !in before;
      assert (set i | i in xs :: cs[i].touchpoint) == before + {cs[x].touchpoint};
    }
  }

  lemma EligibleAreCounting(w: World, m: Model, s: Subject, r: Request, cs: seq<Candidate>, settled: seq<Item>)
    requires Known(w, cs) && |settled| == |cs|
    requires forall i | 0 <= i < |cs| :: CandidateRow(w, m, s, r, cs, i, settled[i])
    ensures |EligibleTouchpoints(settled)| == |Counting(w, m, s, r, cs)|
  {
    var counting := Counting(w, m, s, r, cs);
    forall i, j | i in counting && j in counting && i != j ensures cs[i].touchpoint != cs[j].touchpoint {
      if i < j { OnlyFirstCounts(w, m, s, r, cs, i, j); } else { OnlyFirstCounts(w, m, s, r, cs, j, i); }
    }
    DistinctImage(counting, cs);
    hide Counts, Admissible, RankOf, WeightIs, Counting, CandidateRow, Excluded;
    var image := set i | i in counting :: cs[i].touchpoint;
    forall i: nat | i < |cs|
      ensures settled[i].candidate == cs[i]
      ensures i in counting <==> settled[i].state == Credited || settled[i].state == EligibleNotSelected
    {
      CountingState(w, m, s, r, cs, i, settled[i]);
    }
    forall t | t in EligibleTouchpoints(settled) ensures t in image {
      var x :| x in settled && (x.state == Credited || x.state == EligibleNotSelected) && x.candidate.touchpoint == t;
      var i :| 0 <= i < |settled| && settled[i] == x;
      assert i in counting;
    }
    forall i | i in counting ensures cs[i].touchpoint in EligibleTouchpoints(settled) {
      assert i in Counting(w, m, s, r, cs) && i < |cs| by { CountingBelow(w, m, s, r, cs, i); }
      assert settled[i] in settled;
    }
    assert image == EligibleTouchpoints(settled);
  }

  lemma CountingBelow(w: World, m: Model, s: Subject, r: Request, cs: seq<Candidate>, i: nat)
    requires Known(w, cs) && i in Counting(w, m, s, r, cs)
    ensures i < |cs|
  {}

  lemma CountingState(w: World, m: Model, s: Subject, r: Request, cs: seq<Candidate>, i: nat, x: Item)
    requires Known(w, cs) && i < |cs| && CandidateRow(w, m, s, r, cs, i, x)
    ensures x.candidate == cs[i]
    ensures i in Counting(w, m, s, r, cs) <==> x.state == Credited || x.state == EligibleNotSelected
  {
    hide Counts, RankOf, WeightIs;
  }

  lemma OnlyFirstCounts(w: World, m: Model, s: Subject, r: Request, cs: seq<Candidate>, i: nat, j: nat)
    requires Known(w, cs) && i < j < |cs| && Counts(w, m, s, r, cs, i) && Counts(w, m, s, r, cs, j)
    ensures cs[i].touchpoint != cs[j].touchpoint
  {}

  /** The counters and amounts of a stored result. */
  predicate Summary(w: World, m: Model, s: Subject, r: Request, cs: seq<Candidate>, row: ResultRow)
    requires Known(w, cs)
  {
    var amount := if s.amount.Some? then s.amount.value else 0;
    var credited := exists i | 0 <= i < |row.candidates| :: row.candidates[i].state == Credited;
    && row.windowStart == WindowStart(m, s, r) && row.windowEnd == WindowEnd(s, r)
    && row.candidateCount == |cs| && row.eligibleCount == |Counting(w, m, s, r, cs)|
    && row.totalWeight == (if Counting(w, m, s, r, cs) == {} then 0 else 1_000_000)
    && row.credited == credited
    && row.reason == (if credited then NoReason else if cs == [] then NoCandidates else NoEligibleCandidates)
    && row.hasAmount == s.amount.Some? && row.subjectAmount == amount
    && row.attributedAmount == (if credited then amount else 0)
    && Split(amount, row.contributions)
  }

  /** A row of a calculation that returned: the submitted candidates in their order with weights and
   *  states, the contributions of those credited, and the counters and amounts of them all. */
  ghost predicate RowFrom(w: World, m: Model, s: Subject, r: Request, cs: seq<Candidate>, row: ResultRow) {
    && ListOf(r.candidates, cs) && Known(w, cs) && |row.candidates| == |cs|
    && (forall i | 0 <= i < |cs| :: CandidateRow(w, m, s, r, cs, i, row.candidates[i]))
    && CitesEach(row) && CitesAll(row) && Summary(w, m, s, r, cs, row)
  }

  lemma RowOutcome(w: World, company: nat, m: Model, s: Subject, r: Request) returns (cs: seq<Candidate>)
    requires Computed(w, company, m, s, r).Ok?
    ensures cs == Ordered(r.candidates)
    ensures RowFrom(w, m, s, r, cs, Computed(w, company, m, s, r).value)
  {
    cs := Ordered(r.candidates);
    var (from, to) := WindowOf(m, s, r);
    OrderedIsList(r.candidates);
    hide ListOf, Ordered, Weights, Row, Settled, Classified, Counting, Summary, CitesEach, CitesAll, CandidateRow,
      WindowOf;
    var items := Classified(w, m, s, cs, from, to);
    ClassifiedItems(w, m, s, r, cs);
    SettledRow(w, m, s, r, cs, items);
  }

  lemma SettledRow(w: World, m: Model, s: Subject, r: Request, cs: seq<Candidate>, items: seq<Item>)
    requires Known(w, cs) && ItemsOf(w, m, s, r, cs, items) && Weights(m.strategy, items).Ok?
    ensures var row := Row(Settled(items, Weights(m.strategy, items).value), s, WindowOf(m, s, r).0,
      WindowOf(m, s, r).1);
      && |row.candidates| == |cs| && (forall i | 0 <= i < |cs| :: CandidateRow(w, m, s, r, cs, i, row.candidates[i]))
      && CitesEach(row) && CitesAll(row) && Summary(w, m, s, r, cs, row)
  {
    var weights := Weights(m.strategy, items).value;
    var settled := Settled(items, weights);
    SettledLength(items, weights);
    hide Weights, Counts, Excluded, RankOf, Counting, WeightIs, CitesEach, CitesAll, CandidateRow, Summary,
      WellPrepared, Settled, Row, WindowOf;
    forall i | 0 <= i < |cs| ensures CandidateRow(w, m, s, r, cs, i, settled[i]) {
      SettledIs(w, m, s, r, cs, items, i);
    }
    IndicesAre(w, m, s, r, cs, settled);
    RowCites(settled, s, WindowOf(m, s, r).0, WindowOf(m, s, r).1);
    CandidatesAre(settled, s, WindowOf(m, s, r).0, WindowOf(m, s, r).1);
    CreditTotal(w, m, s, r, cs, items, weights);
    EligibleAreCounting(w, m, s, r, cs, settled);
    RowSums(w, m, s, r, cs, settled);
  }

  lemma IndicesAre(w: World, m: Model, s: Subject, r: Request, cs: seq<Candidate>, settled: seq<Item>)
    requires Known(w, cs) && |settled| == |cs|
    requires forall i | 0 <= i < |cs| :: CandidateRow(w, m, s, r, cs, i, settled[i])
    ensures forall i | 0 <= i < |settled| :: settled[i].index == i
  {}

  lemma CandidatesAre(settled: seq<Item>, s: Subject, from: int, to: int)
    ensures Row(settled, s, from, to).candidates == settled
  {}

  /** Once some candidate counts, the credited weights total a million. */
  lemma CreditTotal(w: World, m: Model, s: Subject, r: Request, cs: seq<Candidate>, items: seq<Item>,
                    weights: map<nat, nat>)
    requires Known(w, cs) && ItemsOf(w, m, s, r, cs, items) && Weights(m.strategy, items) == Ok(weights)
    ensures Total(WeightsIn(CreditedOf(Settled(items, weights))))
      == if Counting(w, m, s, r, cs) == {} then 0 else 1_000_000
  {
    var settled, c := Settled(items, weights), Chronological(items);
    SettledLength(items, weights);
    assert settled[..|items|] == settled;
    hide Weights, Counts, Excluded, Settled, Chronological, WellPrepared, WeightsIn, CreditedOf, Looked, InTime;
    CreditedTotal(items, weights, |items|);
    WeightsTotal(m.strategy, items);
    ChronologicalInTime(items);
    LengthInTime(items, c);
    assert Counting(w, m, s, r, cs) == set j: nat | j < |items| && items[j].state == Eligible;
  }

  lemma {:induction false} NoneCredited(settled: seq<Item>)
    ensures CreditedOf(settled) == [] <==> forall i | 0 <= i < |settled| :: settled[i].state != Credited
  {
    if |settled| > 0 {
      NoneCredited(settled[..|settled| - 1]);
      assert forall i | 0 <= i < |settled| - 1 :: settled[..|settled| - 1][i] == settled[i];
    }
  }

  lemma RowSums(w: World, m: Model, s: Subject, r: Request, cs: seq<Candidate>, settled: seq<Item>)
    requires Known(w, cs) && |settled| == |cs|
    requires |EligibleTouchpoints(settled)| == |Counting(w, m, s, r, cs)|
    requires Total(WeightsIn(CreditedOf(settled))) == if Counting(w, m, s, r, cs) == {} then 0 else 1_000_000
    requires forall i | 0 <= i < |cs| :: CandidateRow(w, m, s, r, cs, i, settled[i])
    ensures Summary(w, m, s, r, cs, Row(settled, s, WindowOf(m, s, r).0, WindowOf(m, s, r).1))
  {
    hide *;
    NoneCredited(settled);
    if CreditedOf(settled) != [] { SomeCounts(w, m, s, r, cs, settled); }
    RowSplits(settled, s, WindowOf(m, s, r).0, WindowOf(m, s, r).1);
    CountersAre(w, m, s, r, cs, settled);
  }

  lemma RowSplits(settled: seq<Item>, s: Subject, from: int, to: int)
    requires CreditedOf(settled) != [] ==> Total(WeightsIn(CreditedOf(settled))) == 1_000_000
    ensures Split(if s.amount.Some? then s.amount.value else 0, Row(settled, s, from, to).contributions)
  {
    var credited, amount := CreditedOf(settled), s.amount.GetOr(0);
    var shares := Allocated(amount, WeightsIn(credited));
    hide CreditedOf, Allocated, EligibleTouchpoints, Total, Split;
    ContributionsSplit(amount, Contributions(credited, shares), WeightsIn(credited));
  }

  lemma CountersAre(w: World, m: Model, s: Subject, r: Request, cs: seq<Candidate>, settled: seq<Item>)
    requires Known(w, cs) && |settled| == |cs|
    requires |EligibleTouchpoints(settled)| == |Counting(w, m, s, r, cs)|
    requires Total(WeightsIn(CreditedOf(settled))) == if Counting(w, m, s, r, cs) == {} then 0 else 1_000_000
    requires CreditedOf(settled) == [] <==> forall i | 0 <= i < |settled| :: settled[i].state != Credited
    requires Split(if s.amount.Some? then s.amount.value else 0,
      Row(settled, s, WindowOf(m, s, r).0, WindowOf(m, s, r).1).contributions)
    ensures Summary(w, m, s, r, cs, Row(settled, s, WindowOf(m, s, r).0, WindowOf(m, s, r).1))
  {
    hide CreditedOf, Allocated, Counting, EligibleTouchpoints, Total, Split, WeightsIn, Contributions;
  }

  lemma SomeCounts(w: World, m: Model, s: Subject, r: Request, cs: seq<Candidate>, settled: seq<Item>)
    requires Known(w, cs) && |settled| == |cs|
    requires forall i | 0 <= i < |cs| :: CandidateRow(w, m, s, r, cs, i, settled[i])
    requires exists i | 0 <= i < |settled| :: settled[i].state == Credited
    ensures Counting(w, m, s, r, cs) != {}
  {
    var i :| 0 <= i < |settled| && settled[i].state == Credited;
    assert CandidateRow(w, m, s, r, cs, i, settled[i]);
    hide Counts, RankOf, WeightIs;
    assert i in Counting(w, m, s, r, cs);
  }

  // ---------- Requests ----------

  predicate LegibleCandidate(c: Candidate) {
    && c.touchpoint > 0
    && c.basis in {"deterministic_first_party", "manual_reviewed", "provider_reported", "correlation_only"}
    && c.channelClass in {"direct", "organic", "paid", "referral", "unknown"}
    && (if c.basis == "provider_reported" then c.reported.Some? && c.reported.value <= 1_000_000
      else c.reported == None)
  }

  predicate LegibleRequest(r: Request) {
    && (forall i | 0 <= i < |r.candidates| :: LegibleCandidate(r.candidates[i]))
    && (forall i, j | 0 <= i < j < |r.candidates| :: r.candidates[i] != r.candidates[j])
    && (r.window.Some? ==> r.window.value.0 <= r.window.value.1)
  }

  lemma LegibleIsValid(r: Request)
    ensures ValidRequest(r) <==> LegibleRequest(r)
  {
    forall c ensures ValidCandidate(c) <==> LegibleCandidate(c) {}
    hide ValidCandidate, LegibleCandidate;
  }

  /** A model looks back between a day and ten years, and credits one kind of evidence: what the
   *  provider reported if that is its strategy, and deterministic first-party evidence otherwise. */
  lemma LegibleModels(m: Model)
    ensures ValidModel(m) <==>
      && m.windowDays > 0 && m.windowDays <= 3650
      && m.bases == {if m.strategy == PlatformReported then "provider_reported" else "deterministic_first_party"}
  {
    if ValidModel(m) && m.strategy != PlatformReported {
      var x :| x in m.bases;
      assert x == DETERMINISTIC;
    }
  }

  /** A request is checked before its reference is looked up.  A stored reference returns its row if
   *  the model, the event, the window, the producer, the time and the candidates in their order are
   *  those it was calculated from, and is refused otherwise; only a new reference is calculated. */
  lemma RequestOutcome(runs: map<string, Run>, w: World, company: nat, m: Model, s: Subject, r: Request,
                       producer: string)
    returns (cs: seq<Candidate>)
    ensures ListOf(r.candidates, cs)
    ensures var result := Calculation(runs, w, company, m, s, r, producer);
      if !LegibleRequest(r) then result == Err(InvalidRequest)
      else if m.company != company || s.company != company then result == Err(ForeignRecord)
      else if WindowEnd(s, r) > s.occurredAt then result == Err(WindowBeyondEvent)
      else if r.ref in runs then
        result == if runs[r.ref].input
                    == Input(r.ref, m, s.key, r.observedAt, WindowStart(m, s, r), WindowEnd(s, r), cs, producer)
                  then Ok((runs[r.ref].row, Disposition.Duplicate)) else Err(ReferenceConflict)
      else
        && (result.Ok? ==> RowFrom(w, m, s, r, cs, result.value.0) && result.value.1 == Accepted)
        && (result.Ok? <==> Computed(w, company, m, s, r).Ok?)
        && (result.Err? ==> Computed(w, company, m, s, r) == Err(result.error))
  {
    LegibleIsValid(r);
    hide ListOf, Computed, ValidRequest, LegibleRequest, RowFrom;
    cs := Ordered(r.candidates);
    OrderedIsList(r.candidates);
    if Computed(w, company, m, s, r).Ok? { var same := RowOutcome(w, company, m, s, r); }
  }
}
