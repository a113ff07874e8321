/** The append-only ledger of business events as a value: lookups, aggregates, the admission
 *  guard and the ingestion step.  An event is identified by its natural key, which the table
 *  keeps unique. */
module Ledger {
  import opened Common
  import opened BusinessEventDto

  datatype Ref = EventRef(company: nat, system: string, key: EventKey)

  datatype Event = Event(company: nat, content: Content, reverses: Option<Ref>, root: Option<Ref>) {
    function Id(): Ref {
      EventRef(company, content.sourceSystem, content.key)
    }

    function Type(): EventType {
      content.eventType
    }

    function Micros(): int {
      content.Micros()
    }
  }

  datatype Disposition = Accepted | Duplicate | Conflict

  datatype Observation = Observation(
    event: Ref, observedAt: int, evidenceRef: string, content: Content, disposition: Disposition)

  datatype State = State(events: seq<Event>, observations: seq<Observation>)

  datatype Rejection =
    | InvalidPayload
    | UnknownCurrency
    | MissingReversedEvent
    | ReversalOfReversal
    | ClassMismatch
    | TypeMismatch
    | CurrencyMismatch
    | NotExactNegation
    | CreditNotOpposing
    | InactiveInvoice
    | CreditExceedsInvoice
    | AlreadyReversed
    | InvalidChain
    | CrossCompany
    | InvalidPostingReversal

  // ---------- Lookups and aggregates ----------

  function Find(l: seq<Event>, ref: Ref): (r: Option<Event>)
    ensures r.Some? ==> r.value in l && r.value.Id() == ref
    ensures r.None? ==> forall e | e in l :: e.Id() != ref
  {
    if |l| == 0 then None
    else if l[|l| - 1].Id() == ref then Some(l[|l| - 1])
    else Find(l[..|l| - 1], ref)
  }

  /** Some event of type t refers back to ref. */
  predicate ReversedBy(l: seq<Event>, ref: Ref, t: EventType) {
    exists e | e in l :: e.reverses == Some(ref) && e.Type() == t
  }

  predicate Cancels(e: Event, ref: Ref) {
    e.reverses == Some(ref) && IsRequiredReversal(e.Type())
  }

  /** Some event exactly negates ref. */
  predicate Cancelled(l: seq<Event>, ref: Ref) {
    exists e | e in l :: Cancels(e, ref)
  }

  /** A posting that no posting counterevent has cancelled. */
  predicate ActivePosting(l: seq<Event>, e: Event) {
    && IsPosting(e.Type())
    && !exists x | x in l :: x.reverses == Some(e.Id()) && IsPostingReversal(x.Type())
  }

  function SumIf(l: seq<Event>, p: Event -> bool): int {
    if |l| == 0 then 0
    else SumIf(l[..|l| - 1], p) + if p(l[|l| - 1]) then l[|l| - 1].Micros() else 0
  }

  predicate CreditOf(e: Event, invoice: Ref) {
    e.reverses == Some(invoice) && e.Type().CreditNotePosted?
  }

  /** The uncancelled credits against one invoice posting. */
  function ActiveCredit(l: seq<Event>, invoice: Ref): int {
    SumIf(l, e => CreditOf(e, invoice) && ActivePosting(l, e))
  }

  // ---------- Admission ----------

  /** The event a payload reverses or credits, or the reason it may not. */
  function ReversedEvent(l: seq<Event>, company: nat, c: Content): Result<Option<Event>, Rejection> {
    if c.reversesKey.None? then Ok(None)
    else
      match Find(l, EventRef(company, c.sourceSystem, c.reversesKey.value))
      case None => Err(MissingReversedEvent)
      case Some(event) =>
        var rejection := ReversalRejection(l, event, c);
        if rejection.Some? then Err(rejection.value) else Ok(Some(event))
  }

  function ReversalRejection(l: seq<Event>, event: Event, c: Content): Option<Rejection> {
    var original, observed := event.Micros(), c.Micros();
    if event.reverses.Some? && !(c.eventType.CreditNotePostingReversed? && event.Type().CreditNotePosted?)
    then Some(ReversalOfReversal)
    else if event.content.eventClass != c.eventClass then Some(ClassMismatch)
    else if ReversedType(c.eventType) != Some(event.Type()) then Some(TypeMismatch)
    else if event.content.currency != c.currency then Some(CurrencyMismatch)
    else if IsRequiredReversal(c.eventType) then
      if observed != -original then Some(NotExactNegation)
      else if ReversedBy(l, event.Id(), c.eventType) then Some(AlreadyReversed)
      else None
    else if observed * original > 0 then Some(CreditNotOpposing)
    else if c.eventType.CreditNotePosted? then
      if !ActivePosting(l, event) then Some(InactiveInvoice)
      else if Abs(ActiveCredit(l, event.Id()) + observed) > Abs(original) then Some(CreditExceedsInvoice)
      else None
    else None
  }

  /** The key two transactions contend for before either reads what a reversal depends on: the
   *  target, or for the counterevent of a charged credit, the posting the credit is charged to. */
  function ReversalLockKey(l: seq<Event>, company: nat, c: Content): Option<Ref> {
    match c.reversesKey
    case None => None
    case Some(key) =>
      var target := EventRef(company, c.sourceSystem, key);
      if !c.eventType.CreditNotePostingReversed? then Some(target)
      else
        match Find(l, target)
        case None => Some(target)
        case Some(credit) => Some(credit.reverses.GetOr(target))
  }

  /** The row written for an admitted payload. */
  function NewEvent(company: nat, c: Content, reversed: Option<Event>): Event {
    match reversed
    case None => Event(company, c, None, None)
    case Some(event) => Event(company, c, Some(event.Id()), Some(event.root.GetOr(event.Id())))
  }

  /** The table constraint on a stored reversal edge. */
  predicate ChainValid(e: Event, reversed: Event) {
    && reversed.Id() != e.Id()
    && reversed.company == e.company
    && reversed.content.eventClass == e.content.eventClass
    && reversed.content.sourceModel == e.content.sourceModel
    && (e.Type().CreditNotePosted? || reversed.content.sourceResId == e.content.sourceResId)
    && e.root == Some(reversed.root.GetOr(reversed.Id()))
  }

  /** The event an unseen payload would append. */
  function Admit(l: seq<Event>, company: nat, currencies: set<string>, c: Content): Result<Event, Rejection> {
    if c.currency != "" && c.currency !in currencies then Err(UnknownCurrency)
    else
      match ReversedEvent(l, company, c)
      case Err(rejection) => Err(rejection)
      case Ok(reversed) =>
        var e := NewEvent(company, c, reversed);
        if reversed.Some? && !ChainValid(e, reversed.value) then Err(InvalidChain) else Ok(e)
  }

  // ---------- Ingestion ----------

  function Observe(observations: seq<Observation>, event: Ref, p: Payload, d: Disposition): seq<Observation> {
    if exists o | o in observations :: o.event == event && o.evidenceRef == p.evidenceRef && o.content == p.content
    then observations
    else observations + [Observation(event, p.observedAt, p.evidenceRef, p.content, d)]
  }

  function Ingest(s: State, company: nat, currencies: set<string>,
                  p: Payload): Result<(State, Disposition), Rejection> {
    if !ValidContent(p.content) then Err(InvalidPayload)
    else
      var ref := EventRef(company, p.content.sourceSystem, p.content.key);
      match Find(s.events, ref)
      case Some(existing) =>
        var d := if existing.content == p.content then Duplicate else Conflict;
        Ok((State(s.events, Observe(s.observations, ref, p, d)), d))
      case None =>
        match Admit(s.events, company, currencies, p.content)
        case Err(rejection) => Err(rejection)
        case Ok(e) => Ok((State(s.events + [e], Observe(s.observations, ref, p, Accepted)), Accepted))
  }

  datatype Delivery = Delivery(company: nat, payload: Payload)

  /** A refused delivery rolls back, so it leaves the ledger as it was. */
  function Deliver(s: State, currencies: set<string>, d: Delivery): State {
    match Ingest(s, d.company, currencies, d.payload)
    case Ok(r) => r.0
    case Err(_) => s
  }

  function DeliverAll(s: State, currencies: set<string>, ds: seq<Delivery>): State {
    if |ds| == 0 then s
    else Deliver(DeliverAll(s, currencies, ds[..|ds| - 1]), currencies, ds[|ds| - 1])
  }

  const EMPTY: State := State([], [])
}
