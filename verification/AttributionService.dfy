/** The calculation service step by step: it builds the candidate list in place, settles the
 *  weights, allocates the amount and stores an immutable run once per reference. */
module AttributionService {
  import opened Common
  import opened Allocation
  import opened StableSort
  import opened AttributionCalculation
  import opened AttributionTheorems

  /** Classifies the sorted candidates, then marks repeated eligible touchpoints. */
  method PrepareCandidates(w: World, company: nat, m: Model, s: Subject, candidates: seq<Candidate>, from: int, to: int)
    returns (r: Result<seq<Item>, Error>)
    ensures r == Prepared(w, company, m, s, candidates, from, to)
  {
    var cs := Ordered(candidates);
    if !AllKnown(w, cs) { return Err(MissingTouchpoint); }
    if exists c | c in cs :: w.touchpoints[c.touchpoint].company != company { return Err(ForeignTouchpoint); }
    var prepared: seq<Item> := [];
    for i := 0 to |cs|
      invariant |prepared| == i
      invariant forall k | 0 <= k < i :: prepared[k] == Fresh(w, m, s, cs, from, to, k)
    {
      var at := w.touchpoints[cs[i].touchpoint].occurredAt;
      var state := CandidateState(cs[i], at, w.effective, m.bases, s.occurredAt, from, to);
      prepared := prepared + [Item(i, cs[i], at, state, 0)];
    }
    var seen: set<nat> := {};
    for i := 0 to |cs|
      invariant |prepared| == |cs|
      invariant seen == EligibleBefore(w, m, s, cs, from, to, i)
      invariant forall k | 0 <= k < i :: prepared[k] == Classified(w, m, s, cs, from, to)[k]
      invariant forall k | i <= k < |cs| :: prepared[k] == Fresh(w, m, s, cs, from, to, k)
    {
      assert Repeats(w, m, s, cs, from, to, i) <==> prepared[i].state == Eligible && cs[i].touchpoint in seen;
      if prepared[i].state == Eligible {
        if cs[i].touchpoint in seen {
          prepared := prepared[i := prepared[i].(state := DuplicateTouchpoint)];
        } else {
          seen := seen + {cs[i].touchpoint};
        }
      }
    }
    assert prepared == Classified(w, m, s, cs, from, to);
    r := Ok(prepared);
  }

  /** An item before repeated touchpoints are marked. */
  ghost function Fresh(w: World, m: Model, s: Subject, cs: seq<Candidate>, from: int, to: int, k: nat): Item
    requires AllKnown(w, cs) && k < |cs|
  {
    Item(k, cs[k], w.touchpoints[cs[k].touchpoint].occurredAt, StateOf(w, m, s, cs[k], from, to), 0)
  }

  ghost function EligibleBefore(w: World, m: Model, s: Subject, cs: seq<Candidate>, from: int, to: int,
                                i: nat): set<nat>
    requires AllKnown(w, cs) && i <= |cs|
  {
    set j | 0 <= j < i && StateOf(w, m, s, cs[j], from, to) == Eligible :: cs[j].touchpoint
  }

  /** Writes each candidate's weight and final state. */
  method SettleWeights(items: seq<Item>, weights: map<nat, nat>) returns (settled: seq<Item>)
    ensures settled == Settled(items, weights)
  {
    settled := items;
    for i := 0 to |items|
      invariant |settled| == |items|
      invariant forall k | 0 <= k < i :: settled[k] == Settled(items, weights)[k]
      invariant forall k | i <= k < |items| :: settled[k] == items[k]
    {
      var weight := Get(weights, settled[i].index);
      settled := settled[i := settled[i].(weight := weight)];
      if settled[i].weight > 0 {
        settled := settled[i := settled[i].(state := Credited)];
      } else if settled[i].state == Eligible {
        settled := settled[i := settled[i].(state := EligibleNotSelected)];
      }
    }
  }

  /** One contribution per credited candidate, citing that candidate's stored record. */
  method CreateContributions(items: seq<Item>, shares: seq<int>) returns (xs: seq<Contribution>)
    requires |shares| == |CreditedOf(items)|
    ensures xs == Contributions(CreditedOf(items), shares)
  {
    var credited := CreditedOf(items);
    xs := [];
    for k := 0 to |credited|
      invariant xs == Contributions(credited, shares)[..k]
    {
      xs := xs + [Contribution(k + 1, credited[k].index + 1, credited[k].candidate.touchpoint, credited[k].weight,
        shares[k])];
    }
  }

  class CalculationStore {
    var runs: map<string, Run>

    constructor ()
      ensures runs == map[]
    {
      runs := map[];
    }

    /** Calculates once per reference: a repeated identical input returns the stored run, a
     *  different input under a used reference is refused, and a refusal stores nothing. */
    method Calculate(w: World, company: nat, m: Model, s: Subject, request: Request, producer: string)
      returns (r: Result<(ResultRow, Disposition), Error>)
      modifies this
      ensures r == Calculation(old(runs), w, company, m, s, request, producer)
      ensures runs == if r.Ok? && r.value.1 == Accepted
        then old(runs)[request.ref := Run(InputOf(m, s, request, producer), s, r.value.0)] else old(runs)
    {
      var refusal := Refusal(company, m, s, request);
      if refusal.Some? { return Err(refusal.value); }
      var (from, to) := WindowOf(m, s, request);
      var input := InputOf(m, s, request, producer);
      if request.ref in runs {
        if runs[request.ref].input != input { return Err(ReferenceConflict); }
        return Ok((runs[request.ref].row, Duplicate));
      }
      var prepared := PrepareCandidates(w, company, m, s, request.candidates, from, to);
      if prepared.Err? { return Err(prepared.error); }
      var weights := Weights(m.strategy, prepared.value);
      if weights.Err? { return Err(weights.error); }
      var items := SettleWeights(prepared.value, weights.value);
      var credited := CreditedOf(items);
      var subject := s.amount.GetOr(0);
      var shares := AllocateAmounts(subject, WeightsIn(credited));
      var contributions := CreateContributions(items, shares);
      var row := ResultRow(from, to, credited != [],
        if credited != [] then NoReason else if items == [] then NoCandidates else NoEligibleCandidates,
        |items|, |EligibleTouchpoints(items)|, |credited|, Total(WeightsIn(credited)),
        s.amount.Some?, subject, if credited != [] then subject else 0, items, contributions);
      runs := runs[request.ref := Run(input, s, row)];
      r := Ok((row, Accepted));
    }
  }

  /** Every stored run is filed under its own reference and meets the table constraints. */
  ghost predicate RunsValid(runs: map<string, Run>) {
    forall ref | ref in runs ::
      runs[ref].input.ref == ref && TablesValid(runs[ref].row, runs[ref].subject)
  }

  /** A request keeps every stored run, and adds only runs that meet the tables' constraints. */
  lemma CalculationsKeepRuns(runs: map<string, Run>, w: World, company: nat, m: Model, s: Subject, request: Request,
                             producer: string)
    requires RunsValid(runs) && ValidModel(m)
    ensures var r := Calculation(runs, w, company, m, s, request, producer);
      && (r.Ok? && r.value.1 == Accepted ==>
            request.ref !in runs && RunsValid(runs[request.ref := Run(InputOf(m, s, request, producer), s, r.value.0)]))
      && (r.Ok? && r.value.1 == Duplicate ==> request.ref in runs && runs[request.ref].row == r.value.0)
  {
    var r := Calculation(runs, w, company, m, s, request, producer);
    if r.Ok? && r.value.1 == Accepted {
      CalculationMeetsTables(w, company, m, s, request);
      assert TablesValid(r.value.0, s);
      hide TablesValid, Computed, Refusal;
    }
  }

  // ---------- A tie that decides the outcome ----------

  predicate InReach(w: World, company: nat, m: Model, s: Subject, t: nat, from: int, to: int) {
    && t in w.touchpoints && w.touchpoints[t].company == company && t in w.effective
    && from <= w.touchpoints[t].occurredAt <= to && to <= s.occurredAt
  }

  lemma OrderedPair(a: Candidate, b: Candidate)
    requires SameKey(a, b)
    ensures Ordered([a, b]) == [a, b]
  {
    KeyOrder();
    assert KeyLe(a, b);
    assert [a, b][1..] == [b] && [b][1..] == [];
    assert Sort([b], KeyLe) == [b];
  }

  lemma PairSettled(w: World, company: nat, m: Model, s: Subject, a: Candidate, b: Candidate, from: int, to: int)
    requires SameKey(a, b) && a.basis == PROVIDER && m.bases == {PROVIDER}
      && InReach(w, company, m, s, a.touchpoint, from, to)
    ensures var at := w.touchpoints[a.touchpoint].occurredAt;
      Prepared(w, company, m, s, [a, b], from, to)
        == Ok([Item(0, a, at, Eligible, 0), Item(1, b, at, DuplicateTouchpoint, 0)])
  {
    OrderedPair(a, b);
    var cs := [a, b];
    assert cs[0] == a && cs[1] == b;
    assert StateOf(w, m, s, a, from, to) == Eligible == StateOf(w, m, s, b, from, to);
    assert Repeats(w, m, s, cs, from, to, 1);
    assert !Repeats(w, m, s, cs, from, to, 0);
    var at := w.touchpoints[a.touchpoint].occurredAt;
    var items := Classified(w, m, s, cs, from, to);
    assert items[0] == Item(0, a, at, Eligible, 0) && items[1] == Item(1, b, at, DuplicateTouchpoint, 0);
    assert items == [items[0], items[1]];
  }

  lemma OneEligible(x: Item, y: Item)
    requires x.state == Eligible && y.state != Eligible
    ensures Chronological([x, y]) == [x]
  {
    assert [x, y][..1] == [x] && [x][..0] == [];
    assert EligibleOf([x]) == [x];
    assert EligibleOf([x, y]) == [x];
    SortOne(x);
  }

  lemma SortOne(x: Item)
    ensures Sort([x], ChronoLe) == [x]
  {
    assert [x][1..] == [];
    assert Sort([x][1..], ChronoLe) == [];
  }

  /** Two candidates may share their sort key and differ in the reported weight; then the order
   *  in which they were submitted decides whether the calculation credits or is refused. */
  lemma TieDecidesOutcome(w: World, company: nat, m: Model, s: Subject, r: Request, whole: Candidate, none: Candidate)
    requires SameKey(whole, none) && whole.basis == PROVIDER && whole.reported == Some(MILLION)
      && none.reported == Some(0)
    requires m.strategy.PlatformReported? && m.bases == {PROVIDER}
    requires InReach(w, company, m, s, whole.touchpoint, WindowOf(m, s, r).0, WindowOf(m, s, r).1)
    ensures Computed(w, company, m, s, r.(candidates := [whole, none])).Ok?
    ensures Computed(w, company, m, s, r.(candidates := [none, whole])) == Err(WeightsNotMillion)
  {
    var (from, to) := WindowOf(m, s, r);
    var at := w.touchpoints[whole.touchpoint].occurredAt;
    PairSettled(w, company, m, s, whole, none, from, to);
    PairSettled(w, company, m, s, none, whole, from, to);
    PairWeights(Item(0, whole, at, Eligible, 0), Item(1, none, at, DuplicateTouchpoint, 0), MILLION);
    PairWeights(Item(0, none, at, Eligible, 0), Item(1, whole, at, DuplicateTouchpoint, 0), 0);
    hide Prepared, Weights, Row, Settled;
  }

  lemma PairWeights(x: Item, y: Item, weight: nat)
    requires x.state == Eligible && y.state != Eligible && x.candidate.reported == Some(weight)
    ensures Weights(PlatformReported, [x, y]).Ok? <==> weight == MILLION
    ensures weight != MILLION ==> Weights(PlatformReported, [x, y]) == Err(WeightsNotMillion)
  {
    OneEligible(x, y);
    assert Shares(PlatformReported, [x]) == [weight];
    assert Total([weight]) == weight by { assert [weight][..0] == []; }
  }
}
