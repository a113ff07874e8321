/** Which payloads the ledger takes, and what it stores for them, stated on payloads and stored
 *  events alone. */
module LedgerOutcomes {
  import opened Common
  import opened BusinessEventDto
  import opened Ledger
  import opened LedgerTheorems

  // ---------- Legible payloads ----------

  predicate Money(c: Content) {
    && c.eventClass == Revenue && c.amountMicros.Some?
    && -999_999_999_999_999_999_999 <= c.amountMicros.value <= 999_999_999_999_999_999_999
    && |c.currency| == 3 && forall i | 0 <= i < 3 :: 'A' <= c.currency[i] <= 'Z'
  }

  /** Originals carry no reference, counterevents need one, and a credit may have one. */
  predicate Legible(c: Content) {
    && c.sourceResId > 0 && c.reversesKey != Some(c.key)
    && match c.eventType
       case LifecycleFact(_) =>
         c.eventClass == Lifecycle && c.amountMicros == None && c.currency == "" && c.reversesKey == None
       case InvoicePosted => Money(c) && c.amountMicros.value >= 0 && c.reversesKey == None
       case OrderConfirmed => Money(c) && c.amountMicros.value >= 0 && c.reversesKey == None
       case PaymentAllocated => Money(c) && c.amountMicros.value >= 0 && c.reversesKey == None
       case CreditNotePosted => Money(c) && c.amountMicros.value <= 0
       case InvoicePostingReversed => Money(c) && c.amountMicros.value <= 0 && c.reversesKey.Some?
       case CreditNotePostingReversed => Money(c) && c.amountMicros.value >= 0 && c.reversesKey.Some?
       case OrderCancelled => Money(c) && c.amountMicros.value <= 0 && c.reversesKey.Some?
       case PaymentAllocationReversed => Money(c) && c.amountMicros.value <= 0 && c.reversesKey.Some?
  }

  lemma ValidIffLegible(c: Content)
    ensures ValidContent(c) <==> Legible(c)
  {
    assert |c.currency| == 3 ==> forall x | x in c.currency :: exists i | 0 <= i < 3 :: c.currency[i] == x;
    assert |c.currency| == 3 ==> forall i | 0 <= i < 3 :: c.currency[i] in c.currency;
  }

  // ---------- Accepted payloads ----------

  function IdOf(e: Event): Ref {
    EventRef(e.company, e.content.sourceSystem, e.content.key)
  }

  predicate Unseen(l: seq<Event>, company: nat, c: Content) {
    forall e | e in l :: !(e.company == company && e.content.sourceSystem == c.sourceSystem && e.content.key == c.key)
  }

  /** The event that the payload names, in its own company and system. */
  predicate Names(company: nat, c: Content, o: Event) {
    o.company == company && o.content.sourceSystem == c.sourceSystem && c.reversesKey == Some(o.content.key)
  }

  /** The type of the first undoes an event of the type of the second exactly. */
  predicate Undoes(t: EventType, o: EventType) {
    || (t == InvoicePostingReversed && o == InvoicePosted)
    || (t == CreditNotePostingReversed && o == CreditNotePosted)
    || (t == OrderCancelled && o == OrderConfirmed)
    || (t == PaymentAllocationReversed && o == PaymentAllocated)
  }

  predicate Undone(l: seq<Event>, o: Event) {
    exists e | e in l :: e.reverses == Some(IdOf(o)) && Undoes(e.content.eventType, o.content.eventType)
  }

  predicate Counterevent(t: EventType) {
    t == InvoicePostingReversed || t == CreditNotePostingReversed || t == OrderCancelled
      || t == PaymentAllocationReversed
  }

  /** The payload undoes o: same currency, model and document, exactly negated, and for the first time. */
  predicate MayUndo(l: seq<Event>, company: nat, c: Content, o: Event) {
    && Names(company, c, o) && Undoes(c.eventType, o.content.eventType)
    && o.content.currency == c.currency
    && o.content.sourceModel == c.sourceModel && o.content.sourceResId == c.sourceResId
    && o.content.amountMicros.Some? && c.amountMicros == Some(-o.content.amountMicros.value)
    && !Undone(l, o)
  }

  /** Credits of an invoice posting that nothing has undone. */
  function OpenCredit(l: seq<Event>, o: Event): int {
    SumIf(l, (e: Event) => e.content.eventType == CreditNotePosted && e.reverses == Some(IdOf(o)) && !Undone(l, e))
  }

  /** The payload is a credit that fits the invoice posting o beside the credits it already has. */
  predicate MayCredit(l: seq<Event>, company: nat, c: Content, o: Event) {
    && Names(company, c, o) && o.content.eventType == InvoicePosted && !Undone(l, o)
    && o.content.currency == c.currency && o.content.sourceModel == c.sourceModel
    && o.content.amountMicros.Some? && c.amountMicros.Some?
    && -(OpenCredit(l, o) + c.amountMicros.value) <= o.content.amountMicros.value
  }

  function RootOf(o: Event): Ref {
    if o.root.Some? then o.root.value else IdOf(o)
  }

  /** The payload was accepted as this event, after all the others. */
  predicate AcceptedAs(s: State, r: Result<(State, Disposition), Rejection>, e: Event) {
    r.Ok? && r.value.1 == Accepted && r.value.0.events == s.events + [e]
  }

  lemma UnseenIsNew(l: seq<Event>, company: nat, c: Content)
    ensures Find(l, EventRef(company, c.sourceSystem, c.key)).None? <==> Unseen(l, company, c)
  {}

  lemma NamedIsFound(l: seq<Event>, company: nat, c: Content, o: Event)
    requires WellFormed(l) && o in l && Names(company, c, o)
    ensures Find(l, EventRef(company, c.sourceSystem, c.reversesKey.value)) == Some(o)
  {
    FindMember(l, o);
  }

  /** Nothing but counterevents and linked credits refers to another event, and always to one they may. */
  lemma StoredEdge(l: seq<Event>, e: Event) returns (o: Event)
    requires WellFormed(l) && e in l && e.reverses.Some?
    ensures o in l && e.reverses == Some(IdOf(o)) && o.company == e.company
    ensures o.content.sourceSystem == e.content.sourceSystem && o.content.sourceModel == e.content.sourceModel
    ensures o.content.currency == e.content.currency && e.root == Some(RootOf(o))
    ensures Undoes(e.content.eventType, o.content.eventType)
         || (e.content.eventType == CreditNotePosted && o.content.eventType == InvoicePosted)
    ensures Undoes(e.content.eventType, o.content.eventType) ==>
      o.content.sourceResId == e.content.sourceResId && e.content.Micros() == -o.content.Micros()
  {
    Members(l, e);
    o :| o in l && Edge(e, o);
  }

  /** Only originals and credits are ever undone, so an undone event has one exact counterevent. */
  lemma UndoneIffReversed(l: seq<Event>, o: Event, t: EventType)
    requires WellFormed(l) && o in l && Undoes(t, o.content.eventType)
    ensures Undone(l, o) <==> ReversedBy(l, o.Id(), t)
  {
    if Undone(l, o) {
      var e :| e in l && e.reverses == Some(IdOf(o)) && Undoes(e.content.eventType, o.content.eventType);
      assert e.Type() == t;
    }
  }

  lemma PostingOpenIffActive(l: seq<Event>, o: Event)
    requires WellFormed(l) && o in l && (o.content.eventType == InvoicePosted
      || o.content.eventType == CreditNotePosted)
    ensures ActivePosting(l, o) <==> !Undone(l, o)
  {
    forall e | e in l && e.reverses == Some(o.Id())
      ensures IsPostingReversal(e.Type()) <==> Undoes(e.content.eventType, o.content.eventType)
    {
      var y := StoredEdge(l, e);
      IdsUnique(l, y, o);
    }
  }

  lemma OpenCreditIsActive(l: seq<Event>, o: Event)
    requires WellFormed(l) && o in l
    ensures OpenCredit(l, o) == ActiveCredit(l, o.Id())
  {
    forall e | e in l
      ensures (e.content.eventType == CreditNotePosted && e.reverses == Some(IdOf(o)) && !Undone(l, e))
        == (CreditOf(e, o.Id()) && ActivePosting(l, e))
    {
      if e.content.eventType == CreditNotePosted { PostingOpenIffActive(l, e); }
    }
    SumCongruent(l,
      (e: Event) => e.content.eventType == CreditNotePosted && e.reverses == Some(IdOf(o)) && !Undone(l, e),
      (e: Event) => CreditOf(e, o.Id()) && ActivePosting(l, e));
  }

  lemma StoredOriginal(l: seq<Event>, o: Event)
    requires WellFormed(l) && o in l
    ensures Legible(o.content)
    ensures o.content.eventType in {InvoicePosted, OrderConfirmed, PaymentAllocated} ==> o.reverses == None
  {
    Members(l, o);
    ValidIffLegible(o.content);
    if o.reverses.Some? { var y := StoredEdge(l, o); }
  }

  lemma UndoRejection(l: seq<Event>, company: nat, c: Content, o: Event)
    requires WellFormed(l) && Legible(c) && Counterevent(c.eventType) && o in l && Names(company, c, o)
    ensures (ReversalRejection(l, o, c).None? && ChainValid(NewEvent(company, c, Some(o)), o)
      && o.Id() != EventRef(company, c.sourceSystem, c.key))
      <==> MayUndo(l, company, c, o)
  {
    StoredOriginal(l, o);
    if Undoes(c.eventType, o.content.eventType) { UndoneIffReversed(l, o, c.eventType); }
  }

  /** A counterevent is accepted if and only if it undoes a stored event of its company and system
   *  exactly and for the first time. */
  lemma CountereventOutcome(s: State, company: nat, currencies: set<string>, p: Payload)
    requires WellFormed(s.events) && Legible(p.content) && Unseen(s.events, company, p.content)
    requires Counterevent(p.content.eventType)
    ensures var r, c := Ingest(s, company, currencies, p), p.content;
      && (r.Ok? <==> c.currency in currencies && exists o | o in s.events :: MayUndo(s.events, company, c, o))
      && (forall o | r.Ok? && o in s.events && Names(company, c, o) ::
            AcceptedAs(s, r, Event(company, c, Some(IdOf(o)), Some(RootOf(o)))))
  {
    var c := p.content;
    ValidIffLegible(c);
    UnseenIsNew(s.events, company, c);
    var found := Find(s.events, EventRef(company, c.sourceSystem, c.reversesKey.value));
    if found.Some? {
      UndoRejection(s.events, company, c, found.value);
    }
    forall o | o in s.events && Names(company, c, o) ensures found == Some(o) { NamedIsFound(s.events, company, c, o); }
    hide ReversalRejection, ChainValid, ValidContent, Legible, WellFormed, MayUndo;
    assert found.Some? ==> Names(company, c, found.value);
    assert forall o | o in s.events && MayUndo(s.events, company, c, o) ::
      Names(company, c, o) by { UndoNames(s.events, company, c); }
  }

  lemma UndoNames(l: seq<Event>, company: nat, c: Content)
    ensures forall o | MayUndo(l, company, c, o) :: Names(company, c, o)
    ensures forall o | MayCredit(l, company, c, o) :: Names(company, c, o)
  {}

  lemma CreditRejection(l: seq<Event>, company: nat, c: Content, o: Event)
    requires WellFormed(l) && Legible(c) && c.eventType == CreditNotePosted && o in l && Names(company, c, o)
    ensures (ReversalRejection(l, o, c).None? && ChainValid(NewEvent(company, c, Some(o)), o)
      && o.Id() != EventRef(company, c.sourceSystem, c.key))
      <==> MayCredit(l, company, c, o)
  {
    StoredOriginal(l, o);
    if o.content.eventType == InvoicePosted {
      PostingOpenIffActive(l, o);
      OpenCreditIsActive(l, o);
      ActiveCreditNonPositive(l, o.Id());
      Opposed(c.Micros(), o.Micros());
      hide ActiveCredit, OpenCredit, WellFormed, ActivePosting, Undone;
    }
  }

  lemma Opposed(x: int, y: int)
    requires x <= 0 <= y
    ensures x * y <= 0
  {}

  /** A credit that names an event is accepted if and only if that is an invoice posting nothing
   *  has undone, in the same currency and model, and all its open credits fit its amount. */
  lemma CreditOutcome(s: State, company: nat, currencies: set<string>, p: Payload)
    requires WellFormed(s.events) && Legible(p.content) && Unseen(s.events, company, p.content)
    requires p.content.eventType == CreditNotePosted && p.content.reversesKey.Some?
    ensures var r, c := Ingest(s, company, currencies, p), p.content;
      && (r.Ok? <==> c.currency in currencies && exists o | o in s.events :: MayCredit(s.events, company, c, o))
      && (forall o | r.Ok? && o in s.events && Names(company, c, o) ::
            AcceptedAs(s, r, Event(company, c, Some(IdOf(o)), Some(IdOf(o)))))
  {
    var c := p.content;
    ValidIffLegible(c);
    UnseenIsNew(s.events, company, c);
    var found := Find(s.events, EventRef(company, c.sourceSystem, c.reversesKey.value));
    if found.Some? {
      CreditRejection(s.events, company, c, found.value);
      RootlessInvoice(s.events, found.value);
    }
    forall o | o in s.events && Names(company, c, o) ensures found == Some(o) { NamedIsFound(s.events, company, c, o); }
    hide ReversalRejection, ChainValid, ValidContent, Legible, WellFormed;
    assert found.Some? ==> Names(company, c, found.value);
    UndoNames(s.events, company, c);
    assert found.Some? && MayCredit(s.events, company, c, found.value) ==>
      found.value.content.eventType == InvoicePosted;
    hide MayCredit;
  }

  lemma RootlessInvoice(l: seq<Event>, o: Event)
    requires WellFormed(l) && o in l
    ensures o.content.eventType == InvoicePosted ==> o.root == None
  {
    StoredOriginal(l, o);
    Members(l, o);
  }

  /** A payload that names no event is accepted whenever its currency is known. */
  lemma OriginalOutcome(s: State, company: nat, currencies: set<string>, p: Payload)
    requires Legible(p.content) && Unseen(s.events, company, p.content) && p.content.reversesKey == None
    ensures var r, c := Ingest(s, company, currencies, p), p.content;
      && (r.Ok? <==> c.currency == "" || c.currency in currencies)
      && (r.Ok? ==> AcceptedAs(s, r, Event(company, c, None, None)))
  {
    ValidIffLegible(p.content);
    UnseenIsNew(s.events, company, p.content);
  }

  /** An illegible payload is refused before anything is looked up. */
  lemma IllegibleOutcome(s: State, company: nat, currencies: set<string>, p: Payload)
    ensures Ingest(s, company, currencies, p) == Err(InvalidPayload) <==> !Legible(p.content)
  {
    ValidIffLegible(p.content);
  }

  /** Some event the payload names makes the refusal true. */
  predicate Accuses(l: seq<Event>, company: nat, c: Content, rejection: Rejection) {
    exists o | o in l && Names(company, c, o) :: Guilty(l, c, o, rejection)
  }

  predicate Guilty(l: seq<Event>, c: Content, o: Event, rejection: Rejection) {
    match rejection
    case ReversalOfReversal => o.reverses.Some?
    case ClassMismatch => o.content.eventClass != c.eventClass
    case TypeMismatch =>
      && !Undoes(c.eventType, o.content.eventType)
      && !(c.eventType == CreditNotePosted && o.content.eventType == InvoicePosted)
    case CurrencyMismatch => o.content.currency != c.currency
    case NotExactNegation => Counterevent(c.eventType) && o.content.Micros() != -c.Micros()
    case AlreadyReversed => Counterevent(c.eventType) && Undone(l, o)
    case InactiveInvoice => o.content.eventType == InvoicePosted && c.eventType == CreditNotePosted && Undone(l, o)
    case CreditExceedsInvoice => -(OpenCredit(l, o) + c.Micros()) > o.content.Micros()
    case InvalidChain => o.content.sourceModel != c.sourceModel || o.content.sourceResId != c.sourceResId
    case _ => false
  }

  lemma GuiltyTarget(l: seq<Event>, company: nat, c: Content, o: Event)
    requires WellFormed(l) && Legible(c) && o in l && Names(company, c, o)
    ensures var rejection := ReversalRejection(l, o, c);
      if rejection.Some? then Guilty(l, c, o, rejection.value)
      else !ChainValid(NewEvent(company, c, Some(o)), o) ==>
        Guilty(l, c, o, InvalidChain) || o.Id() == EventRef(company, c.sourceSystem, c.key)
  {
    hide WellFormed, ActiveCredit, OpenCredit, Undone, ActivePosting, ReversedBy;
    StoredOriginal(l, o);
    if Undoes(c.eventType, o.content.eventType) { UndoneIffReversed(l, o, c.eventType); }
    if c.eventType == CreditNotePosted && o.content.eventType == InvoicePosted {
      PostingOpenIffActive(l, o);
      OpenCreditIsActive(l, o);
      ActiveCreditNonPositive(l, o.Id());
      Opposed(c.Micros(), o.Micros());
    }
  }

  /** What each refusal says about the payload and the ledger. */
  lemma RefusalsTell(s: State, company: nat, currencies: set<string>, p: Payload)
    requires WellFormed(s.events) && Ingest(s, company, currencies, p).Err?
    ensures var c, rejection := p.content, Ingest(s, company, currencies, p).error;
      match rejection
      case InvalidPayload => !Legible(c)
      case UnknownCurrency => c.currency != "" && c.currency !in currencies
      case MissingReversedEvent => c.reversesKey.Some? && forall o | o in s.events :: !Names(company, c, o)
      case _ => Accuses(s.events, company, c, rejection)
  {
    var c, l := p.content, s.events;
    ValidIffLegible(c);
    if Legible(c) && c.reversesKey.Some? {
      var found := Find(l, EventRef(company, c.sourceSystem, c.reversesKey.value));
      if found.Some? {
        assert Names(company, c, found.value);
        GuiltyTarget(l, company, c, found.value);
      }
    }
    hide WellFormed, ReversalRejection, ChainValid, ValidContent, Legible, Guilty;
  }

  // ---------- Reachable ledgers ----------

  /** In every reachable ledger a counterevent undoes an original of its own kind exactly, and a
   *  linked credit reduces an invoice posting. */
  lemma StoredReversalsTyped(currencies: set<string>, ds: seq<Delivery>, e: Event)
    requires e in DeliverAll(EMPTY, currencies, ds).events
    ensures var l := DeliverAll(EMPTY, currencies, ds).events;
      && Legible(e.content)
      && e.content.Micros() == (if e.content.amountMicros.Some? then e.content.amountMicros.value else 0)
      && (Counterevent(e.content.eventType) ==> e.reverses.Some?)
      && (e.reverses.Some? ==> exists o | o in l :: Pairs(e, o))
  {
    LedgerSafety(currencies, ds);
    var l := DeliverAll(EMPTY, currencies, ds).events;
    StoredOriginal(l, e);
    Members(l, e);
    if e.reverses.Some? { var o := StoredEdge(l, e); }
  }

  predicate Pairs(e: Event, o: Event) {
    && e.reverses == Some(IdOf(o)) && o.company == e.company && o.content.currency == e.content.currency
    && match e.content.eventType
       case OrderCancelled => o.content.eventType == OrderConfirmed && e.content.Micros() == -o.content.Micros()
       case PaymentAllocationReversed =>
         o.content.eventType == PaymentAllocated && e.content.Micros() == -o.content.Micros()
       case InvoicePostingReversed => o.content.eventType == InvoicePosted && e.content.Micros() == -o.content.Micros()
       case CreditNotePostingReversed =>
         o.content.eventType == CreditNotePosted && e.content.Micros() == -o.content.Micros()
       case CreditNotePosted => o.content.eventType == InvoicePosted
       case _ => false
  }

  // ---------- Locks and observations ----------

  /** Every reversal contends for the key of the event it names, except the counterevent of a
   *  charged credit, which contends for the posting the credit is charged to. */
  lemma LockOutcome(l: seq<Event>, company: nat, c: Content)
    requires WellFormed(l)
    ensures c.reversesKey == None ==> ReversalLockKey(l, company, c) == None
    ensures c.reversesKey.Some? && c.eventType != CreditNotePostingReversed ==>
      ReversalLockKey(l, company, c) == Some(EventRef(company, c.sourceSystem, c.reversesKey.value))
    ensures forall o | c.eventType == CreditNotePostingReversed && o in l && Names(company, c, o) ::
      ReversalLockKey(l, company, c) == if o.reverses.Some? then o.reverses else Some(IdOf(o))
  {
    forall o | o in l && Names(company, c, o)
      ensures c.reversesKey.Some? && Find(l, EventRef(company, c.sourceSystem, c.reversesKey.value)) == Some(o)
    {
      NamedIsFound(l, company, c, o);
    }
  }

  /** Accepted, repeated or conflicting: afterwards the payload is on record as observed, and the
   *  record keeps everything it had, in order. */
  lemma ObservationOutcome(s: State, company: nat, currencies: set<string>, p: Payload)
    requires Ingest(s, company, currencies, p).Ok?
    ensures var before, after := s.observations, Ingest(s, company, currencies, p).value.0.observations;
      var d := Ingest(s, company, currencies, p).value.1;
      && (before == after || after == before + [Observation(
            EventRef(company, p.content.sourceSystem, p.content.key), p.observedAt, p.evidenceRef, p.content, d)])
      && exists o | o in after :: o.event == EventRef(company, p.content.sourceSystem, p.content.key)
           && o.evidenceRef == p.evidenceRef && o.content == p.content
  {
    var after := Ingest(s, company, currencies, p).value.0.observations;
    hide ValidContent, Admit;
    if after != s.observations { assert after[|after| - 1] in after; }
  }

  /** A payload already on record for its event is not recorded again. */
  lemma ObservedOnce(s: State, company: nat, currencies: set<string>, p: Payload, o: Observation)
    requires Ingest(s, company, currencies, p).Ok? && o in s.observations
    requires o.event == EventRef(company, p.content.sourceSystem, p.content.key)
    requires o.evidenceRef == p.evidenceRef && o.content == p.content
    ensures Ingest(s, company, currencies, p).value.0.observations == s.observations
  {
    hide ValidContent, Admit;
  }

  /** A key that is stored already gains nothing but an observation. */
  lemma StoredOutcome(s: State, company: nat, currencies: set<string>, p: Payload, e: Event)
    requires WellFormed(s.events) && Legible(p.content) && e in s.events
    requires e.company == company && e.content.sourceSystem == p.content.sourceSystem && e.content.key == p.content.key
    ensures var r := Ingest(s, company, currencies, p);
      r.Ok? && r.value.0.events == s.events && r.value.1 == if e.content == p.content then Duplicate else Conflict
  {
    ValidIffLegible(p.content);
    FindMember(s.events, e);
  }
}
