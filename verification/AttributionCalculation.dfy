/** Attribution of one business event to marketing touchpoints: candidates are sorted, classified,
 *  deduplicated and weighted, and the event's amount is allocated over the weights. */
module AttributionCalculation {
  import opened Common
  import opened Allocation
  import opened StableSort

  datatype Strategy = FirstTouch | LastTouch | Linear | PlatformReported

  const DETERMINISTIC := "deterministic_first_party"
  const REVIEWED := "manual_reviewed"
  const PROVIDER := "provider_reported"
  const CORRELATION := "correlation_only"

  datatype Candidate = Candidate(touchpoint: nat, basis: string, evidenceRef: string, channelClass: string,
    reported: Option<nat>)

  datatype Model = Model(company: nat, code: string, version: nat, strategy: Strategy, windowDays: nat,
    bases: set<string>)

  datatype Touchpoint = Touchpoint(company: nat, occurredAt: int)

  /** The touchpoint ledger as a calculation reads it: its rows, and the current effective ones. */
  datatype World = World(touchpoints: map<nat, Touchpoint>, effective: set<nat>)

  datatype Subject = Subject(company: nat, key: string, occurredAt: int, amount: Option<int>)

  datatype Request = Request(ref: string, candidates: seq<Candidate>, observedAt: int, window: Option<(int, int)>)

  datatype State =
    | Eligible | DuplicateTouchpoint | Credited | EligibleNotSelected
    | ExcludedCorrelation | ExcludedPolicy | ExcludedStaleRevision | ExcludedAfterSubject | ExcludedWindow

  datatype Item = Item(index: nat, candidate: Candidate, occurredAt: int, state: State, weight: nat)

  datatype Error = InvalidRequest | ForeignRecord | WindowBeyondEvent | MissingTouchpoint | ForeignTouchpoint
    | WeightsNotMillion | ReferenceConflict

  // ---------- Preconditions of the payloads ----------

  predicate ValidCandidate(c: Candidate) {
    && c.touchpoint >= 1
    && c.basis in {DETERMINISTIC, REVIEWED, PROVIDER, CORRELATION}
    && c.channelClass in {"direct", "organic", "paid", "referral", "unknown"}
    && (c.reported.Some? ==> c.reported.value <= MILLION)
    && (c.reported.Some? <==> c.basis == PROVIDER)
  }

  predicate ValidModel(m: Model) {
    && 1 <= m.windowDays <= 3650
    && m.bases != {}
    && if m.strategy.PlatformReported? then m.bases == {PROVIDER} else m.bases <= {DETERMINISTIC}
  }

  predicate ValidRequest(r: Request) {
    && (forall c | c in r.candidates :: ValidCandidate(c))
    && Unrepeated(r.candidates)
    && (r.window.Some? ==> r.window.value.0 <= r.window.value.1)
  }

  // ---------- Sort keys ----------

  /** The order of texts by their first difference. */
  predicate TextLe(a: string, b: string) {
    |a| == 0 || (|b| > 0 && (a[0] < b[0] || (a[0] == b[0] && TextLe(a[1..], b[1..]))))
  }

  predicate KeyLe(a: Candidate, b: Candidate) {
    if a.touchpoint != b.touchpoint then a.touchpoint < b.touchpoint
    else if a.basis != b.basis then TextLe(a.basis, b.basis)
    else TextLe(a.evidenceRef, b.evidenceRef)
  }

  predicate SameKey(a: Candidate, b: Candidate) {
    a.touchpoint == b.touchpoint && a.basis == b.basis && a.evidenceRef == b.evidenceRef
  }

  predicate ChronoLe(a: Item, b: Item) {
    if a.occurredAt != b.occurredAt then a.occurredAt < b.occurredAt
    else if a.candidate.touchpoint != b.candidate.touchpoint then a.candidate.touchpoint < b.candidate.touchpoint
    else a.index <= b.index
  }

  function Ordered(cs: seq<Candidate>): seq<Candidate> {
    Sort(cs, KeyLe)
  }

  // ---------- Classification ----------

  function CandidateState(c: Candidate, at: int, effective: set<nat>, bases: set<string>, subjectAt: int, from: int,
                          to: int): State {
    if c.basis == CORRELATION then ExcludedCorrelation
    else if c.basis !in bases then ExcludedPolicy
    else if c.touchpoint !in effective then ExcludedStaleRevision
    else if at > subjectAt then ExcludedAfterSubject
    else if !(from <= at <= to) then ExcludedWindow
    else Eligible
  }

  predicate AllKnown(w: World, cs: seq<Candidate>) {
    forall c | c in cs :: c.touchpoint in w.touchpoints
  }

  function StateOf(w: World, m: Model, s: Subject, c: Candidate, from: int, to: int): State
    requires c.touchpoint in w.touchpoints
  {
    CandidateState(c, w.touchpoints[c.touchpoint].occurredAt, w.effective, m.bases, s.occurredAt, from, to)
  }

  /** An eligible candidate whose touchpoint was already eligible through an earlier one. */
  predicate Repeats(w: World, m: Model, s: Subject, cs: seq<Candidate>, from: int, to: int, i: nat)
    requires AllKnown(w, cs) && i < |cs|
  {
    StateOf(w, m, s, cs[i], from, to) == Eligible
    && exists j | 0 <= j < i :: StateOf(w, m, s, cs[j], from, to) == Eligible && cs[j].touchpoint == cs[i].touchpoint
  }

  /** The classified candidates, in sort order. */
  function Classified(w: World, m: Model, s: Subject, cs: seq<Candidate>, from: int, to: int): seq<Item>
    requires AllKnown(w, cs)
  {
    seq(|cs|, i requires 0 <= i < |cs| => Item(i, cs[i], w.touchpoints[cs[i].touchpoint].occurredAt,
      if Repeats(w, m, s, cs, from, to, i) then DuplicateTouchpoint else StateOf(w, m, s, cs[i], from, to), 0))
  }

  function Prepared(w: World, company: nat, m: Model, s: Subject, candidates: seq<Candidate>, from: int,
                    to: int): Result<seq<Item>, Error> {
    var cs := Ordered(candidates);
    if !AllKnown(w, cs) then Err(MissingTouchpoint)
    else if exists c | c in cs :: w.touchpoints[c.touchpoint].company != company then Err(ForeignTouchpoint)
    else Ok(Classified(w, m, s, cs, from, to))
  }

  // ---------- Weights ----------

  function EligibleOf(items: seq<Item>): (r: seq<Item>)
    ensures forall x :: x in r <==> x in items && x.state == Eligible
  {
    if |items| == 0 then []
    else EligibleOf(items[..|items| - 1]) + if items[|items| - 1].state == Eligible then [items[|items| - 1]] else []
  }

  function Chronological(items: seq<Item>): seq<Item> {
    Sort(EligibleOf(items), ChronoLe)
  }

  function Share(strategy: Strategy, c: seq<Item>, p: nat): nat
    requires p < |c|
  {
    match strategy
    case FirstTouch => if p == 0 then MILLION else 0
    case LastTouch => if p == |c| - 1 then MILLION else 0
    case Linear => MILLION / |c| + if p < MILLION % |c| then 1 else 0
    case PlatformReported => c[p].candidate.reported.GetOr(0)
  }

  function Shares(strategy: Strategy, c: seq<Item>): (r: seq<nat>)
    ensures |r| == |c|
  {
    seq(|c|, p requires 0 <= p < |c| => Share(strategy, c, p))
  }

  function Keyed(c: seq<Item>, shares: seq<nat>): map<nat, nat>
    requires |c| == |shares|
  {
    if |c| == 0 then map[]
    else Keyed(c[..|c| - 1], shares[..|c| - 1])[c[|c| - 1].index := shares[|c| - 1]]
  }

  /** The weight of every selected candidate, by candidate index. */
  function Weights(strategy: Strategy, items: seq<Item>): Result<map<nat, nat>, Error> {
    var c := Chronological(items);
    var shares := Shares(strategy, c);
    if |c| == 0 then Ok(map[])
    else if strategy.PlatformReported? && Total(shares) != MILLION then Err(WeightsNotMillion)
    else Ok(Keyed(c, shares))
  }

  function Get(weights: map<nat, nat>, i: nat): nat {
    if i in weights then weights[i] else 0
  }

  function Settle(x: Item, weight: nat): Item {
    if weight > 0 then x.(weight := weight, state := Credited)
    else if x.state == Eligible then x.(weight := 0, state := EligibleNotSelected)
    else x.(weight := 0)
  }

  function Settled(items: seq<Item>, weights: map<nat, nat>): seq<Item> {
    seq(|items|, i requires 0 <= i < |items| => Settle(items[i], Get(weights, items[i].index)))
  }

  function CreditedOf(items: seq<Item>): (r: seq<Item>)
    ensures forall x :: x in r <==> x in items && x.state == Credited
  {
    if |items| == 0 then []
    else CreditedOf(items[..|items| - 1]) + if items[|items| - 1].state == Credited then [items[|items| - 1]] else []
  }

  function WeightsIn(items: seq<Item>): (r: seq<nat>)
    ensures |r| == |items|
  {
    seq(|items|, i requires 0 <= i < |items| => items[i].weight)
  }

  // ---------- Stored rows ----------

  datatype Contribution = Contribution(sequence: nat, candidateSequence: nat, touchpoint: nat, weight: nat, amount: int)

  datatype Reason = NoReason | NoCandidates | NoEligibleCandidates

  datatype ResultRow = ResultRow(
    windowStart: int, windowEnd: int, credited: bool, reason: Reason,
    candidateCount: nat, eligibleCount: nat, creditedCount: nat, totalWeight: nat,
    hasAmount: bool, subjectAmount: int, attributedAmount: int,
    candidates: seq<Item>, contributions: seq<Contribution>)

  function EligibleTouchpoints(items: seq<Item>): set<nat> {
    set x | x in items && (x.state == Credited || x.state == EligibleNotSelected) :: x.candidate.touchpoint
  }

  function Contributions(credited: seq<Item>, shares: seq<int>): seq<Contribution>
    requires |shares| == |credited|
  {
    seq(|credited|, k requires 0 <= k < |credited| =>
      Contribution(k + 1, credited[k].index + 1, credited[k].candidate.touchpoint, credited[k].weight, shares[k]))
  }

  function Row(items: seq<Item>, s: Subject, from: int, to: int): ResultRow {
    var credited := CreditedOf(items);
    var subject := s.amount.GetOr(0);
    ResultRow(from, to, credited != [],
      if credited != [] then NoReason else if items == [] then NoCandidates else NoEligibleCandidates,
      |items|, |EligibleTouchpoints(items)|, |credited|, Total(WeightsIn(credited)),
      s.amount.Some?, subject, if credited != [] then subject else 0,
      items, Contributions(credited, Allocated(subject, WeightsIn(credited))))
  }

  /** Everything the input hash covers. */
  datatype Input = Input(
    ref: string, model: Model, eventKey: string, observedAt: int, windowStart: int, windowEnd: int,
    candidates: seq<Candidate>, producer: string)

  datatype Run = Run(input: Input, subject: Subject, row: ResultRow)

  const DAY := 86400

  function WindowOf(m: Model, s: Subject, r: Request): (int, int) {
    match r.window
    case Some(window) => window
    case None => (s.occurredAt - m.windowDays * DAY, s.occurredAt)
  }

  function InputOf(m: Model, s: Subject, r: Request, producer: string): Input {
    var window := WindowOf(m, s, r);
    Input(r.ref, m, s.key, r.observedAt, window.0, window.1, Ordered(r.candidates), producer)
  }

  /** The checks made before the reference is looked up. */
  function Refusal(company: nat, m: Model, s: Subject, r: Request): Option<Error> {
    if !ValidRequest(r) then Some(InvalidRequest)
    else if m.company != company || s.company != company then Some(ForeignRecord)
    else if WindowOf(m, s, r).1 > s.occurredAt then Some(WindowBeyondEvent)
    else None
  }

  /** The rows a first calculation stores. */
  function Computed(w: World, company: nat, m: Model, s: Subject, r: Request): Result<ResultRow, Error> {
    var (from, to) := WindowOf(m, s, r);
    match Prepared(w, company, m, s, r.candidates, from, to)
    case Err(error) => Err(error)
    case Ok(items) =>
      match Weights(m.strategy, items)
      case Err(error) => Err(error)
      case Ok(weights) => Ok(Row(Settled(items, weights), s, from, to))
  }

  datatype Disposition = Accepted | Duplicate

  /** One calculation request against the stored runs of a company. */
  function Calculation(runs: map<string, Run>, w: World, company: nat, m: Model, s: Subject, r: Request,
                       producer: string)
    : Result<(ResultRow, Disposition), Error>
  {
    var refusal := Refusal(company, m, s, r);
    if refusal.Some? then Err(refusal.value)
    else if r.ref in runs then
      if runs[r.ref].input == InputOf(m, s, r, producer) then Ok((runs[r.ref].row, Duplicate))
        else Err(ReferenceConflict)
    else
      match Computed(w, company, m, s, r)
      case Err(error) => Err(error)
      case Ok(row) => Ok((row, Accepted))
  }
}
