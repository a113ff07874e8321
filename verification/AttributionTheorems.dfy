/** What every calculation that returns satisfies, and when the order of its input matters. */
module AttributionTheorems {
  import opened Common
  import opened Allocation
  import opened StableSort
  import opened AttributionCalculation

  // ---------- The orders are total ----------

  lemma {:induction false} TextTotal(a: string, b: string)
    ensures TextLe(a, b) || TextLe(b, a)
    ensures TextLe(a, b) && TextLe(b, a) ==> a == b
  {
    if |a| > 0 && |b| > 0 {
      TextTotal(a[1..], b[1..]);
      assert a == [a[0]] + a[1..] && b == [b[0]] + b[1..];
    }
  }

  lemma {:induction false} TextTransitive(a: string, b: string, c: string)
    requires TextLe(a, b) && TextLe(b, c)
    ensures TextLe(a, c)
  {
    if |a| > 0 && a[0] == b[0] == c[0] {
      TextTransitive(a[1..], b[1..], c[1..]);
    }
  }

  lemma KeyOrder()
    ensures TotalPreorder(KeyLe)
    ensures forall a, b :: KeyLe(a, b) && KeyLe(b, a) <==> SameKey(a, b)
  {
    forall a, b ensures KeyLe(a, b) || KeyLe(b, a) ensures KeyLe(a, b) && KeyLe(b, a) <==> SameKey(a, b) {
      TextTotal(a.basis, b.basis);
      TextTotal(a.evidenceRef, b.evidenceRef);
    }
    forall a, b, c | KeyLe(a, b) && KeyLe(b, c) ensures KeyLe(a, c) {
      TextTotal(a.basis, b.basis);
      if TextLe(a.basis, b.basis) && TextLe(b.basis, c.basis) { TextTransitive(a.basis, b.basis, c.basis); }
      if TextLe(a.evidenceRef, b.evidenceRef) && TextLe(b.evidenceRef, c.evidenceRef) {
        TextTransitive(a.evidenceRef, b.evidenceRef, c.evidenceRef);
      }
      TextTotal(b.basis, c.basis);
    }
  }

  lemma ChronoOrder()
    ensures TotalPreorder(ChronoLe)
  {}

  // ---------- Prepared candidates ----------

  /** Places are numbered, and every touchpoint is eligible at most once. */
  ghost predicate WellPrepared(items: seq<Item>) {
    && (forall i | 0 <= i < |items| ::
      items[i].index == i && items[i].state != Credited && items[i].state != EligibleNotSelected)
    && (forall i, j | 0 <= i < j < |items| && items[i].state == Eligible && items[j].state == Eligible ::
          items[i].candidate.touchpoint != items[j].candidate.touchpoint)
  }

  lemma ClassifiedWell(w: World, m: Model, s: Subject, cs: seq<Candidate>, from: int, to: int)
    requires AllKnown(w, cs)
    ensures WellPrepared(Classified(w, m, s, cs, from, to))
  {
    var items := Classified(w, m, s, cs, from, to);
    forall i, j | 0 <= i < j < |items| && items[i].state == Eligible && items[j].state == Eligible
      ensures items[i].candidate.touchpoint != items[j].candidate.touchpoint
    {
      assert !Repeats(w, m, s, cs, from, to, j);
      assert StateOf(w, m, s, cs[i], from, to) == Eligible;
    }
  }

  // ---------- Weights ----------

  predicate DistinctIndices(c: seq<Item>) {
    forall i, j | 0 <= i < j < |c| :: c[i].index != c[j].index
  }

  lemma {:induction false} EligibleDistinct(items: seq<Item>, n: nat)
    requires n <= |items| && WellPrepared(items)
    ensures DistinctIndices(EligibleOf(items[..n]))
    ensures forall x | x in EligibleOf(items[..n]) :: x.index < n
  {
    if n > 0 {
      EligibleDistinct(items, n - 1);
      assert items[..n][..n - 1] == items[..n - 1];
    }
  }

  lemma ChronologicalDistinct(items: seq<Item>)
    requires WellPrepared(items)
    ensures var c := Chronological(items);
      && DistinctIndices(c) && Sorted(c, ChronoLe) && multiset(c) == multiset(EligibleOf(items))
      && (forall x :: x in c <==> x in items && x.state == Eligible)
      && (forall x | x in c :: x.index < |items| && items[x.index] == x)
  {
    var e, c := EligibleOf(items), Chronological(items);
    assert items[..|items|] == items;
    EligibleDistinct(items, |items|);
    ChronoOrder();
    hide TotalPreorder, ChronoLe, Sorted;
    SortSorts(e, ChronoLe);
    SameMembers(e, c);
    DistinctStays(e, c);
  }

  lemma SameMembers(e: seq<Item>, c: seq<Item>)
    requires multiset(c) == multiset(e)
    ensures forall x :: x in c <==> x in e
  {
    forall x ensures x in c <==> x in e { assert x in multiset(c) <==> x in multiset(e); }
  }

  lemma DistinctStays(e: seq<Item>, c: seq<Item>)
    requires multiset(c) == multiset(e) && DistinctIndices(e)
    ensures DistinctIndices(c)
  {
    SameMembers(e, c);
    if i, j :| 0 <= i < j < |c| && c[i].index == c[j].index {
      assert c[i] in c && c[j] in c;
      assert c[i] == c[j];
      TwoPlaces(c, i, j);
      DistinctOnce(e, c[i]);
    }
  }

  lemma DistinctOnce(e: seq<Item>, x: Item)
    requires DistinctIndices(e) && x in e
    ensures multiset(e)[x] == 1
  {
    var k :| 0 <= k < |e| && e[k] == x;
    assert e == e[..k] + [x] + e[k + 1..];
    assert x !in e[..k] && x !in e[k + 1..];
  }

  lemma {:induction false} KeyedAt(c: seq<Item>, shares: seq<nat>, p: nat)
    requires |c| == |shares| && p < |c| && DistinctIndices(c)
    ensures c[p].index in Keyed(c, shares) && Keyed(c, shares)[c[p].index] == shares[p]
  {
    var n := |c| - 1;
    if p < n { KeyedAt(c[..n], shares[..n], p); }
  }

  lemma {:induction false} KeyedOnly(c: seq<Item>, shares: seq<nat>, k: nat)
    requires |c| == |shares|
    ensures k in Keyed(c, shares) <==> exists p | 0 <= p < |c| :: c[p].index == k
  {
    if |c| > 0 {
      var n := |c| - 1;
      KeyedOnly(c[..n], shares[..n], k);
      if k in Keyed(c[..n], shares[..n]) {
        var p :| 0 <= p < n && c[..n][p].index == k;
        assert c[p].index == k;
      }
      if p :| 0 <= p < |c| && c[p].index == k {
        if p < n { assert c[..n][p].index == k; }
      }
    }
  }

  function Looked(weights: map<nat, nat>, n: nat): nat {
    if n == 0 then 0 else Looked(weights, n - 1) + Get(weights, n - 1)
  }

  lemma {:induction false} LookedAdds(weights: map<nat, nat>, n: nat, k: nat, v: nat)
    requires k !in weights
    ensures Looked(weights[k := v], n) == Looked(weights, n) + if k < n then v else 0
  {
    if n > 0 { LookedAdds(weights, n - 1, k, v); }
  }

  lemma {:induction false} LookedTotal(c: seq<Item>, shares: seq<nat>, n: nat)
    requires |c| == |shares| && DistinctIndices(c) && forall p | 0 <= p < |c| :: c[p].index < n
    ensures Looked(Keyed(c, shares), n) == Total(shares)
  {
    var k := |c| - 1;
    if |c| == 0 {
      LookedNothing(n);
    } else {
      LookedTotal(c[..k], shares[..k], n);
      KeyedOnly(c[..k], shares[..k], c[k].index);
      LookedAdds(Keyed(c[..k], shares[..k]), n, c[k].index, shares[k]);
    }
  }

  lemma {:induction false} LookedNothing(n: nat)
    ensures Looked(map[], n) == 0
  {
    if n > 0 { LookedNothing(n - 1); }
  }

  /** A sum of equal parts, the first few one micro larger. */
  lemma {:induction false} TotalLinear(c: seq<Item>, shares: seq<nat>, n: nat, q: nat, r: nat)
    requires |shares| <= n && forall p | 0 <= p < |shares| :: shares[p] == q + if p < r then 1 else 0
    ensures Total(shares) == |shares| * q + Min(|shares|, r)
  {
    if |shares| > 0 {
      TotalLinear(c, shares[..|shares| - 1], n, q, r);
      assert |shares| * q == (|shares| - 1) * q + q;
    }
  }

  lemma {:induction false} TotalSingle(shares: seq<nat>, at: nat)
    requires forall p | 0 <= p < |shares| :: shares[p] == if p == at then MILLION else 0
    ensures Total(shares) == if at < |shares| then MILLION else 0
  {
    if |shares| > 0 { TotalSingle(shares[..|shares| - 1], at); }
  }

  /** Whenever some candidate is eligible, the weights total exactly one million micros. */
  lemma WeightsTotal(strategy: Strategy, items: seq<Item>)
    requires WellPrepared(items) && Weights(strategy, items).Ok?
    ensures var weights := Weights(strategy, items).value;
      && Looked(weights, |items|) == (if Chronological(items) == [] then 0 else MILLION)
      && (forall k: nat | Get(weights, k) > 0 :: k < |items| && items[k].state == Eligible)
  {
    var c := Chronological(items);
    ChronologicalDistinct(items);
    hide Sorted, Chronological, Shares, WellPrepared;
    LookedNothing(|items|);
    if |c| > 0 {
      KeyedWeights(strategy, items, c);
    }
  }

  lemma KeyedWeights(strategy: Strategy, items: seq<Item>, c: seq<Item>)
    requires |c| > 0 && DistinctIndices(c) && (strategy.PlatformReported? ==> Total(Shares(strategy, c)) == MILLION)
    requires forall x | x in c :: x in items && x.state == Eligible && x.index < |items| && items[x.index] == x
    ensures var weights := Keyed(c, Shares(strategy, c));
      && Looked(weights, |items|) == MILLION
      && (forall k: nat | Get(weights, k) > 0 :: k < |items| && items[k].state == Eligible)
  {
    var shares := Shares(strategy, c);
    SharesTotal(strategy, c);
    hide Shares;
    LookedTotal(c, shares, |items|);
    forall k: nat | Get(Keyed(c, shares), k) > 0 ensures k < |items| && items[k].state == Eligible {
      KeyedOnly(c, shares, k);
      var p :| 0 <= p < |c| && c[p].index == k;
      assert c[p] in c;
    }
  }

  lemma SharesTotal(strategy: Strategy, c: seq<Item>)
    requires |c| > 0 && (strategy.PlatformReported? ==> Total(Shares(strategy, c)) == MILLION)
    ensures Total(Shares(strategy, c)) == MILLION
  {
    var shares := Shares(strategy, c);
    match strategy {
      case FirstTouch => TotalSingle(shares, 0);
      case LastTouch => TotalSingle(shares, |c| - 1);
      case Linear =>
        TotalLinear(c, shares, |c|, MILLION / |c|, MILLION % |c|);
        assert |c| * (MILLION / |c|) + MILLION % |c| == MILLION;
      case PlatformReported =>
    }
  }

  // ---------- What the tables demand ----------

  predicate CountsValid(row: ResultRow) {
    row.creditedCount <= row.eligibleCount <= row.candidateCount
  }

  predicate WeightValid(row: ResultRow) {
    row.totalWeight == 0 || row.totalWeight == MILLION
  }

  predicate AmountValid(row: ResultRow) {
    !row.hasAmount ==> row.subjectAmount == 0 && row.attributedAmount == 0
  }

  predicate CreditedShape(row: ResultRow) {
    if row.credited then
      row.reason == NoReason && row.creditedCount > 0 && row.totalWeight == MILLION
        && row.attributedAmount == row.subjectAmount
    else
      row.reason != NoReason && row.creditedCount == 0 && row.totalWeight == 0 && row.attributedAmount == 0
  }

  predicate WindowValid(row: ResultRow, s: Subject) {
    row.windowStart <= row.windowEnd <= s.occurredAt
  }

  /** Each contribution cites its own candidate record, has a weight in range, and no touchpoint
   *  is credited twice; the contributions add up to the attributed amount. */
  predicate ContributionsValid(row: ResultRow) {
    && |row.contributions| == row.creditedCount
    && (forall k | 0 <= k < |row.contributions| ::
          var x := row.contributions[k];
          && x.sequence == k + 1
          && 1 <= x.candidateSequence <= |row.candidates|
          && row.candidates[x.candidateSequence - 1].candidate.touchpoint == x.touchpoint
          && row.candidates[x.candidateSequence - 1].state == Credited
          && 0 < x.weight <= MILLION)
    && (forall k, l | 0 <= k < l < |row.contributions| ::
      row.contributions[k].touchpoint != row.contributions[l].touchpoint)
    && Sum(Amounts(row.contributions)) == row.attributedAmount
  }

  function Amounts(xs: seq<Contribution>): (r: seq<int>)
    ensures |r| == |xs|
  {
    seq(|xs|, k requires 0 <= k < |xs| => xs[k].amount)
  }

  /** Candidate records are numbered in order, and no payload has two of them. */
  predicate CandidatesUnique(row: ResultRow) {
    && (forall i | 0 <= i < |row.candidates| :: row.candidates[i].index == i)
    && (forall i, j | 0 <= i < j < |row.candidates| :: row.candidates[i].candidate != row.candidates[j].candidate)
  }

  predicate TablesValid(row: ResultRow, s: Subject) {
    && CandidatesUnique(row)
    && CountsValid(row) && WeightValid(row) && AmountValid(row) && CreditedShape(row) && WindowValid(row, s)
    && ContributionsValid(row)
  }

  /** Items after the weights have been applied. */
  ghost predicate WellSettled(items: seq<Item>, settled: seq<Item>) {
    && |settled| == |items| && WellPrepared(items)
    && (forall i | 0 <= i < |items| :: settled[i].index == i && settled[i].candidate == items[i].candidate)
    && (forall i | 0 <= i < |items| ::
      settled[i].state == Credited || settled[i].state == EligibleNotSelected <==> items[i].state == Eligible)
    && (forall i | 0 <= i < |items| :: settled[i].state == Credited <==> settled[i].weight > 0)
  }

  lemma SettledWell(items: seq<Item>, weights: map<nat, nat>)
    requires WellPrepared(items) && forall k: nat | Get(weights, k) > 0 :: k < |items| && items[k].state == Eligible
    ensures WellSettled(items, Settled(items, weights))
  {}

  lemma {:induction false} CreditedTotal(items: seq<Item>, weights: map<nat, nat>, n: nat)
    requires n <= |items| && WellPrepared(items)
    ensures Total(WeightsIn(CreditedOf(Settled(items, weights)[..n]))) == Looked(weights, n)
  {
    var settled := Settled(items, weights);
    if n > 0 {
      CreditedTotal(items, weights, n - 1);
      assert settled[..n][..n - 1] == settled[..n - 1];
      var before, x := CreditedOf(settled[..n - 1]), settled[n - 1];
      assert x.weight == Get(weights, n - 1) && (x.state == Credited <==> x.weight > 0);
      hide WellPrepared, Get, Settled;
      if x.weight > 0 {
        assert CreditedOf(settled[..n]) == before + [x];
        TotalAppend(before, x);
      } else {
        assert CreditedOf(settled[..n]) == before;
      }
    }
  }

  lemma TotalAppend(xs: seq<Item>, x: Item)
    ensures Total(WeightsIn(xs + [x])) == Total(WeightsIn(xs)) + x.weight
  {
    assert WeightsIn(xs + [x])[..|xs|] == WeightsIn(xs);
  }

  predicate DistinctTouchpoints(xs: seq<Item>) {
    forall k, l | 0 <= k < l < |xs| :: xs[k].candidate.touchpoint != xs[l].candidate.touchpoint
  }

  lemma TouchpointsAppend(xs: seq<Item>, x: Item)
    requires DistinctTouchpoints(xs) && forall k | 0 <= k < |xs| :: xs[k].candidate.touchpoint != x.candidate.touchpoint
    ensures DistinctTouchpoints(xs + [x])
  {}

  lemma {:induction false} CreditedDistinct(items: seq<Item>, settled: seq<Item>, n: nat)
    requires WellSettled(items, settled) && n <= |settled|
    ensures var credited := CreditedOf(settled[..n]);
      && (forall k | 0 <= k < |credited| :: credited[k].index < n && settled[credited[k].index] == credited[k])
      && DistinctTouchpoints(credited)
  {
    if n > 0 {
      CreditedDistinct(items, settled, n - 1);
      assert settled[..n][..n - 1] == settled[..n - 1];
      var before := CreditedOf(settled[..n - 1]);
      if settled[n - 1].state == Credited {
        assert CreditedOf(settled[..n]) == before + [settled[n - 1]];
        forall k | 0 <= k < |before| ensures before[k].candidate.touchpoint != settled[n - 1].candidate.touchpoint {
          var i := before[k].index;
          assert before[k] in before;
          assert settled[i].state == Credited && items[i].state == Eligible && items[n - 1].state == Eligible;
          assert items[i].candidate.touchpoint != items[n - 1].candidate.touchpoint;
        }
        TouchpointsAppend(before, settled[n - 1]);
      } else {
        assert CreditedOf(settled[..n]) == before;
      }
    }
  }

  function TouchpointsOf(xs: seq<Item>): set<nat> {
    set x | x in xs :: x.candidate.touchpoint
  }

  lemma {:induction false} TouchpointCount(xs: seq<Item>)
    ensures |TouchpointsOf(xs)| <= |xs|
    ensures DistinctTouchpoints(xs) ==> |TouchpointsOf(xs)| == |xs|
  {
    if |xs| > 0 {
      var before, x := xs[..|xs| - 1], xs[|xs| - 1];
      assert xs == before + [x];
      TouchpointCount(before);
      assert TouchpointsOf(xs) == TouchpointsOf(before) + {x.candidate.touchpoint};
      if DistinctTouchpoints(xs) {
        assert x.candidate.touchpoint !in TouchpointsOf(before);
      }
    }
  }

  lemma SubsetSmaller(a: set<nat>, b: set<nat>)
    requires a <= b
    ensures |a| <= |b|
  {
    assert b == a + (b - a);
  }

  lemma CountsHold(items: seq<Item>, settled: seq<Item>)
    requires WellSettled(items, settled)
    ensures |CreditedOf(settled)| <= |EligibleTouchpoints(settled)| <= |settled|
  {
    var credited := CreditedOf(settled);
    assert settled[..|settled|] == settled;
    CreditedDistinct(items, settled, |settled|);
    TouchpointCount(credited);
    TouchpointCount(settled);
    SubsetSmaller(TouchpointsOf(credited), EligibleTouchpoints(settled));
    SubsetSmaller(EligibleTouchpoints(settled), TouchpointsOf(settled));
  }

  lemma {:induction false} WeightBelowTotal(weights: seq<nat>, k: nat)
    requires k < |weights|
    ensures weights[k] <= Total(weights)
  {
    if k < |weights| - 1 { WeightBelowTotal(weights[..|weights| - 1], k); }
  }

  lemma ContributionsHold(items: seq<Item>, settled: seq<Item>, s: Subject, from: int, to: int)
    requires WellSettled(items, settled)
    requires CreditedOf(settled) != [] ==> Total(WeightsIn(CreditedOf(settled))) == MILLION
    ensures ContributionsValid(Row(settled, s, from, to))
  {
    hide Allocated, CreditedOf, WeightsIn, Total, EligibleTouchpoints, Sum, WellSettled, ContributionsValid;
    var credited, amount := CreditedOf(settled), s.amount.GetOr(0);
    CreditedRecords(items, settled);
    var shares := Allocated(amount, WeightsIn(credited));
    SharesOfCredited(amount, credited);
    RecordsValid(settled, credited, shares, Row(settled, s, from, to));
  }

  lemma SharesOfCredited(amount: int, credited: seq<Item>)
    ensures Sum(Allocated(amount, WeightsIn(credited))) == if credited != [] then amount else 0
  {
    if credited != [] { SharesAddUp(amount, WeightsIn(credited)); }
  }

  lemma RecordsValid(settled: seq<Item>, credited: seq<Item>, shares: seq<int>, row: ResultRow)
    requires forall k | 0 <= k < |credited| ::
      && 0 < credited[k].weight <= MILLION && credited[k].index < |settled|
      && settled[credited[k].index] == credited[k] && credited[k].state == Credited
    requires DistinctTouchpoints(credited) && |shares| == |credited| == row.creditedCount
    requires row.candidates == settled && row.contributions == Contributions(credited, shares)
      && row.attributedAmount == Sum(shares)
    ensures ContributionsValid(row)
  {
    assert Amounts(row.contributions) == shares;
    hide Sum;
  }

  lemma CreditedRecords(items: seq<Item>, settled: seq<Item>)
    requires WellSettled(items, settled)
    requires CreditedOf(settled) != [] ==> Total(WeightsIn(CreditedOf(settled))) == MILLION
    ensures var credited := CreditedOf(settled);
      && (forall k | 0 <= k < |credited| ::
            && 0 < credited[k].weight <= MILLION && credited[k].index < |settled|
            && settled[credited[k].index] == credited[k] && credited[k].state == Credited)
      && DistinctTouchpoints(credited)
  {
    var credited := CreditedOf(settled);
    assert settled[..|settled|] == settled;
    CreditedDistinct(items, settled, |settled|);
    forall k | 0 <= k < |credited| ensures 0 < credited[k].weight <= MILLION && credited[k].state == Credited {
      WeightBelowTotal(WeightsIn(credited), k);
      assert credited[k] == settled[credited[k].index] && credited[k] in credited;
    }
  }

  predicate DistinctCandidates(items: seq<Item>) {
    forall i, j | 0 <= i < j < |items| :: items[i].candidate != items[j].candidate
  }

  lemma UniqueHolds(items: seq<Item>, settled: seq<Item>, s: Subject, from: int, to: int)
    requires WellSettled(items, settled) && DistinctCandidates(items)
    ensures CandidatesUnique(Row(settled, s, from, to))
  {
    hide CreditedOf, Allocated, EligibleTouchpoints, WellPrepared, Contributions, Total, WeightsIn;
  }

  lemma ShapeHolds(items: seq<Item>, settled: seq<Item>, s: Subject, from: int, to: int)
    requires WellSettled(items, settled) && from <= to <= s.occurredAt
    requires CreditedOf(settled) != [] ==> Total(WeightsIn(CreditedOf(settled))) == MILLION
    requires DistinctCandidates(items)
    ensures TablesValid(Row(settled, s, from, to), s)
  {
    assert CreditedOf(settled) == [] ==> WeightsIn(CreditedOf(settled)) == [];
    hide ContributionsValid, CandidatesUnique, DistinctCandidates, CreditedOf, WeightsIn, Allocated, WellSettled,
      EligibleTouchpoints, Contributions;
    UniqueHolds(items, settled, s, from, to);
    CountsHold(items, settled);
    ContributionsHold(items, settled, s, from, to);
    hide Total;
  }

  lemma CreditedNeedsWeight(items: seq<Item>, settled: seq<Item>)
    requires WellSettled(items, settled) && CreditedOf(settled) != []
    ensures Total(WeightsIn(CreditedOf(settled))) > 0
  {
    var credited := CreditedOf(settled);
    assert settled[..|settled|] == settled;
    CreditedDistinct(items, settled, |settled|);
    WeightBelowTotal(WeightsIn(credited), 0);
    assert credited[0] in credited;
  }

  lemma WindowOrdered(company: nat, m: Model, s: Subject, r: Request)
    requires ValidModel(m) && Refusal(company, m, s, r) == None
    ensures WindowOf(m, s, r).0 <= WindowOf(m, s, r).1 <= s.occurredAt
  {}

  lemma OrderedUnrepeated(company: nat, m: Model, s: Subject, r: Request)
    requires Refusal(company, m, s, r) == None
    ensures Unrepeated(Ordered(r.candidates))
  {
    KeyOrder();
    SortSorts(r.candidates, KeyLe);
    UnrepeatedPermuted(r.candidates, Ordered(r.candidates));
  }

  lemma PreparedDistinct(w: World, company: nat, m: Model, s: Subject, r: Request, from: int, to: int)
    requires Refusal(company, m, s, r) == None && Prepared(w, company, m, s, r.candidates, from, to).Ok?
    ensures DistinctCandidates(Prepared(w, company, m, s, r.candidates, from, to).value)
  {
    OrderedUnrepeated(company, m, s, r);
    hide Ordered, Repeats, StateOf, ValidRequest, ValidModel;
  }

  /** Every calculation that returns stores rows that meet all the tables' constraints. */
  lemma CalculationMeetsTables(w: World, company: nat, m: Model, s: Subject, r: Request)
    requires ValidModel(m) && Refusal(company, m, s, r) == None && Computed(w, company, m, s, r).Ok?
    ensures TablesValid(Computed(w, company, m, s, r).value, s)
  {
    WindowOrdered(company, m, s, r);
    var (from, to) := WindowOf(m, s, r);
    hide Settled, Looked, Chronological, TablesValid, Weights, Row, WindowOf, Ordered, Refusal;
    var items := Prepared(w, company, m, s, r.candidates, from, to).value;
    ClassifiedWell(w, m, s, Ordered(r.candidates), from, to);
    PreparedDistinct(w, company, m, s, r, from, to);
    hide WellPrepared, Prepared, WellSettled, DistinctCandidates;
    var weights := Weights(m.strategy, items).value;
    WeightsTotal(m.strategy, items);
    SettledWell(items, weights);
    var settled := Settled(items, weights);
    assert |settled| == |items| by { SettledLength(items, weights); }
    assert settled[..|settled|] == settled;
    CreditedTotal(items, weights, |items|);
    if CreditedOf(settled) != [] { CreditedNeedsWeight(items, settled); }
    ShapeHolds(items, settled, s, from, to);
  }

  lemma SettledLength(items: seq<Item>, weights: map<nat, nat>)
    ensures |Settled(items, weights)| == |items|
  {}

  // ---------- What each strategy selects ----------

  /** First and last touch credit one candidate: no eligible one is earlier, or later. */
  lemma EndTouchSelected(strategy: Strategy, items: seq<Item>, i: nat, j: nat)
    requires WellPrepared(items) && (strategy.FirstTouch? || strategy.LastTouch?) && i < |items| && j < |items|
    requires Get(Weights(strategy, items).value, i) > 0 && items[j].state == Eligible
    ensures Get(Weights(strategy, items).value, i) == MILLION
    ensures if strategy.FirstTouch? then ChronoLe(items[i], items[j]) else ChronoLe(items[j], items[i])
  {
    var c := Chronological(items);
    ChronologicalDistinct(items);
    hide Chronological, Keyed, WellPrepared, DistinctIndices, ChronoLe;
    assert items[j] in c;
    var q :| 0 <= q < |c| && c[q] == items[j];
    KeyedOnly(c, Shares(strategy, c), i);
    var p :| 0 <= p < |c| && c[p].index == i;
    KeyedAt(c, Shares(strategy, c), p);
    assert c[p] in c && c[p] == items[i];
    assert Get(Weights(strategy, items).value, i) == Shares(strategy, c)[p];
    hide Get, Weights, Sorted;
    EndShare(strategy, c, p, q);
  }

  /** A touch with a share of a first or last touch strategy stands at that end. */
  lemma EndShare(strategy: Strategy, c: seq<Item>, p: nat, q: nat)
    requires (strategy.FirstTouch? || strategy.LastTouch?) && p < |c| && q < |c| && Sorted(c, ChronoLe)
    requires Shares(strategy, c)[p] > 0
    ensures Shares(strategy, c)[p] == MILLION
    ensures if strategy.FirstTouch? then ChronoLe(c[p], c[q]) else ChronoLe(c[q], c[p])
  {
    hide ChronoLe;
    assert ChronoLe(c[q], c[q]) by { ChronoOrder(); }
  }

  lemma LinearShares(c: seq<Item>, p: nat, q: nat)
    requires p <= q < |c|
    ensures Shares(Linear, c)[q] <= Shares(Linear, c)[p] <= Shares(Linear, c)[q] + 1
  {}

  lemma PlaceInOrder(items: seq<Item>, i: nat) returns (p: nat)
    requires WellPrepared(items) && i < |items| && items[i].state == Eligible
    ensures p < |Chronological(items)| && Chronological(items)[p] == items[i] && items[i].index == i
    ensures DistinctIndices(Chronological(items)) && Sorted(Chronological(items), ChronoLe)
  {
    hide Chronological, Sorted, DistinctIndices;
    ChronologicalDistinct(items);
    var c := Chronological(items);
    assert items[i] in c;
    p :| 0 <= p < |c| && c[p] == items[i];
  }

  /** Linear weights differ by at most one micro and favour the earlier touch, for any number of
   *  candidates. */
  lemma LinearFair(items: seq<Item>, i: nat, j: nat)
    requires WellPrepared(items) && i < |items| && j < |items|
    requires items[i].state == Eligible && items[j].state == Eligible && ChronoLe(items[i], items[j])
    ensures Get(Weights(Linear, items).value, j) <= Get(Weights(Linear, items).value, i)
      <= Get(Weights(Linear, items).value, j) + 1
  {
    hide Chronological, WellPrepared, Keyed, Shares, DistinctIndices;
    var c := Chronological(items);
    var p := PlaceInOrder(items, i);
    var q := PlaceInOrder(items, j);
    KeyedAt(c, Shares(Linear, c), p);
    KeyedAt(c, Shares(Linear, c), q);
    if p <= q {
      LinearShares(c, p, q);
    } else {
      assert ChronoLe(c[q], c[p]);
      SameMoment(items[i], items[j]);
    }
  }

  lemma SameMoment(x: Item, y: Item)
    requires ChronoLe(x, y) && ChronoLe(y, x)
    ensures x.index == y.index
  {}

  // ---------- The order of the input ----------

  predicate Reordering(r: Request, r': Request) {
    r' == r.(candidates := r'.candidates) && multiset(r'.candidates) == multiset(r.candidates)
  }

  predicate DistinctKeys(cs: seq<Candidate>) {
    forall i, j | 0 <= i < j < |cs| :: !SameKey(cs[i], cs[j])
  }

  predicate SameOutcome(w: World, company: nat, m: Model, s: Subject, r: Request, r': Request, producer: string) {
    InputOf(m, s, r', producer) == InputOf(m, s, r, producer)
      && Computed(w, company, m, s, r') == Computed(w, company, m, s, r)
  }

  lemma SortedSameOutcome(w: World, company: nat, m: Model, s: Subject, r: Request, r': Request, producer: string)
    requires Reordering(r, r') && Ordered(r'.candidates) == Ordered(r.candidates)
    ensures SameOutcome(w, company, m, s, r, r', producer)
  {
    hide Ordered, Weights, Row, Settled, Classified;
  }

  lemma TieChangesInput(w: World, company: nat, m: Model, s: Subject, r: Request, producer: string, i: nat, j: nat)
    requires Unrepeated(r.candidates) && i < j < |r.candidates| && SameKey(r.candidates[i], r.candidates[j])
    ensures var r' := r.(candidates := Reversed(r.candidates));
      Reordering(r, r') && !SameOutcome(w, company, m, s, r, r', producer)
  {
    hide Computed, KeyLe, TotalPreorder;
    KeyOrder();
    OrderRelevant(r.candidates, i, j, KeyLe);
    var r' := r.(candidates := Reversed(r.candidates));
    assert InputOf(m, s, r', producer).candidates != InputOf(m, s, r, producer).candidates;
  }

  lemma DistinctHasNoTies(cs: seq<Candidate>)
    ensures DistinctKeys(cs) <==> NoTies(cs, KeyLe)
  {
    KeyOrder();
    hide KeyLe, TotalPreorder, SameKey;
  }

  /** The hashed input, the stored rows and the refusals are the same for every order of the
   *  candidates if and only if their sort keys are pairwise distinct. */
  lemma OrderMattersOnlyOnTies(w: World, company: nat, m: Model, s: Subject, r: Request, producer: string)
    requires ValidRequest(r)
    ensures DistinctKeys(r.candidates) <==> forall r' | Reordering(r, r') ::
      SameOutcome(w, company, m, s, r, r', producer)
  {
    hide KeyLe, TotalPreorder, SameOutcome, ValidCandidate, SameKey;
    KeyOrder();
    var cs := r.candidates;
    if DistinctKeys(cs) {
      DistinctHasNoTies(cs);
      forall r' | Reordering(r, r') ensures SameOutcome(w, company, m, s, r, r', producer) {
        OrderIrrelevant(cs, r'.candidates, KeyLe);
        SortedSameOutcome(w, company, m, s, r, r', producer);
      }
    } else {
      var i, j :| 0 <= i < j < |cs| && SameKey(cs[i], cs[j]);
      TieChangesInput(w, company, m, s, r, producer, i, j);
    }
  }
}
