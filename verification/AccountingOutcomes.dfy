/** What the accounting adapter writes, stated on documents, events and links alone: which posting
 *  it finds, which credit it links, and each event it appends, field by field. */
module AccountingOutcomes {
  import opened Common
  import opened BusinessEventDto
  import opened Ledger
  import opened LedgerTheorems
  import opened LedgerOutcomes
  import opened Accounting
  import opened AccountingInvariants
  import opened AccountingPosting
  import opened AccountingTheorems
  import opened AccountingUnposting
  import opened AccountingHistory
  import opened AccountingOperations

  function Size(x: int): int {
    if x < 0 then -x else x
  }

  // ---------- The posting of a document ----------

  predicate OpenPosting(b: Book, e: Event, id: nat, t: EventType) {
    && e in b.ledger.events && e.content.sourceSystem == "odoo.account" && e.content.sourceModel == "account.move"
    && e.content.sourceResId == id && e.content.eventType == t && !Undone(b.ledger.events, e)
  }

  /** No other open posting occurred later, nor at the same time and was stored later. */
  predicate LastAt(b: Book, k: nat, id: nat, t: EventType)
    requires k < |b.ledger.events|
  {
    var l := b.ledger.events;
    && OpenPosting(b, l[k], id, t)
    && forall j | 0 <= j < |l| && OpenPosting(b, l[j], id, t) ::
         l[j].content.occurredAt < l[k].content.occurredAt
         || (l[j].content.occurredAt == l[k].content.occurredAt && j <= k)
  }

  predicate LastOpen(b: Book, p: Event, id: nat, t: EventType) {
    exists k: nat | k < |b.ledger.events| :: b.ledger.events[k] == p && LastAt(b, k, id, t)
  }

  function PostedAs(t: MoveType): EventType {
    if t == OutInvoice then InvoicePosted else CreditNotePosted
  }

  lemma {:induction false} LatestAtIndex(l: seq<Event>, p: Event -> bool) returns (k: nat)
    requires Latest(l, p).Some?
    ensures k < |l| && l[k] == Latest(l, p).value
    ensures forall j | 0 <= j < |l| && p(l[j]) ::
      l[j].content.occurredAt < l[k].content.occurredAt
      || (l[j].content.occurredAt == l[k].content.occurredAt && j <= k)
  {
    var n := |l| - 1;
    var before := Latest(l[..n], p);
    if p(l[n]) && (before.None? || before.value.content.occurredAt <= l[n].content.occurredAt) {
      k := n;
      if before.Some? { var i := LatestAtIndex(l[..n], p); }
      assert forall j | 0 <= j < n :: l[j] in l[..n];
    } else {
      k := LatestAtIndex(l[..n], p);
      assert forall j | 0 <= j < n :: l[..n][j] == l[j];
    }
  }

  lemma OpenIffActive(b: Book, id: nat, t: EventType)
    requires WellFormed(b.Events()) && (t == InvoicePosted || t == CreditNotePosted)
    ensures forall e | e in b.Events() :: OpenPosting(b, e, id, t) <==> ActiveFor(b.Events(), e, id, t)
  {
    forall e | e in b.Events() ensures OpenPosting(b, e, id, t) <==> ActiveFor(b.Events(), e, id, t) {
      if e.content.eventType == t { PostingOpenIffActive(b.Events(), e); }
    }
  }

  /** The adapter finds the last open posting of a document, if it has one. */
  lemma FoundIsLast(b: Book, id: nat)
    requires WellFormed(b.Events()) && id in b.moves && b.moves[id].terms.moveType != OtherMove
    ensures var t, found := PostedAs(b.moves[id].terms.moveType), ActivePostingOf(b, id);
      && (found.Some? <==> exists e | e in b.ledger.events :: OpenPosting(b, e, id, t))
      && (found.Some? ==> LastOpen(b, found.value, id, t))
  {
    var t := PostedAs(b.moves[id].terms.moveType);
    OpenIffActive(b, id, t);
    hide ActiveFor, OpenPosting, WellFormed;
    if ActivePostingOf(b, id).Some? {
      var k := LatestAtIndex(b.Events(), e => ActiveFor(b.Events(), e, id, t));
      assert LastAt(b, k, id, t);
    }
  }

  // ---------- What a posting writes ----------

  /** The document's sequence is taken one step further. */
  function Stepped(b: Book, id: nat): Book
    requires id in b.moves
  {
    b.(moves := b.moves[id := b.moves[id].(sequence := b.moves[id].sequence + 1)])
  }

  /** The fields of a posting event, as its document and its target give them. */
  predicate Describes(b: Book, id: nat, key: EventKey, at: int, level: string, target: Option<Event>, reason: string,
                      e: Event)
    requires id in b.moves
  {
    var m := b.moves[id];
    var size := Size(m.terms.untaxedMicros);
    && e.company == m.company
    && e.content.eventClass == Revenue
    && e.content.eventType == PostedAs(m.terms.moveType)
    && e.content.sourceSystem == "odoo.account" && e.content.sourceModel == "account.move"
    && e.content.sourceResId == id && e.content.key == key
    && e.content.occurredAt == at && e.content.evidenceLevel == level
    && e.content.amountMicros == Some(if m.terms.moveType == OutInvoice then size else -size)
    && e.content.currency == m.terms.currency
    && e.content.reversesKey == (if target.Some? then Some(target.value.content.key) else None)
    && e.content.extensions == DocumentExtensions(m.terms.details, m.terms.reversedEntry, reason,
         if level == "imported" then "document_date" else "observed_transition", "")
    && e.reverses == (if target.Some? then Some(IdOf(target.value)) else None)
    && e.root == (if target.Some? then Some(RootOf(target.value)) else None)
  }

  /** From b to b' the posting e of document id was appended, charged to the target if there is one. */
  predicate Written(b: Book, b': Book, id: nat, key: EventKey, at: int, level: string, target: Option<Event>,
                    reason: string, e: Event)
    requires id in b.moves
  {
    var m := b.moves[id];
    && Describes(b, id, key, at, level, target, reason, e)
    && b'.moves == b.moves && b'.currencies == b.currencies
    && b'.ledger.events == b.ledger.events + [e]
    && b'.links == b.links + {MoveLink(IdOf(e), id, SourceDocument)}
         + (if m.terms.moveType == OutRefund && m.terms.reversedEntry.Some?
            then {MoveLink(IdOf(e), m.terms.reversedEntry.value, ReversedInvoice)} else {})
    && ObservedAs(b.ledger, b'.ledger, Observation(IdOf(e), at, "", e.content, Accepted))
  }

  /** At most this observation was added, and one of its content is there. */
  predicate ObservedAs(s: State, s': State, o: Observation) {
    && (s'.observations == s.observations || s'.observations == s.observations + [o])
    && exists x | x in s'.observations :: x.event == o.event && x.evidenceRef == "" && x.content == o.content
  }

  /** The last open posting of an invoice, or else the one recorded from it now. */
  predicate InvoiceSecured(b: Book, b': Book, id: nat, p: Event)
    requires id in b.moves
  {
    if exists e | e in b.ledger.events :: OpenPosting(b, e, id, InvoicePosted)
    then b' == b && LastOpen(b, p, id, InvoicePosted)
    else
      var m := b.moves[id];
      Written(Stepped(b, id), b', id, MovePosting(id, Some(m.terms.documentDate), m.sequence + 1),
        m.terms.documentDate, "imported", None, "", p)
  }

  // ---------- Which credit is linked ----------

  /** A credit of the native invoice that no event of the ledger negates. */
  predicate Credits(b: Book, e: Event, invoice: nat, company: nat, currency: string) {
    && e.company == company && e.content.eventType == CreditNotePosted && e.content.currency == currency
    && MoveLink(IdOf(e), invoice, ReversedInvoice) in b.links
    && !Undone(b.ledger.events, e)
  }

  function OpenNative(b: Book, invoice: nat, company: nat, currency: string): int {
    SumIf(b.ledger.events, e => Credits(b, e, invoice, company, currency))
  }

  lemma NativeIsOpen(b: Book, invoice: nat, company: nat, currency: string)
    requires WellFormed(b.Events())
    ensures LinkedCredit(b, invoice, company, currency) == OpenNative(b, invoice, company, currency)
    ensures OpenNative(b, invoice, company, currency) <= 0
  {
    var l := b.Events();
    var p := (e: Event) => Credits(b, e, invoice, company, currency);
    forall e | e in l
      ensures p(e) == (LinkedCreditEvent(b, e, invoice, company, currency) && ActivePosting(l, e))
      ensures p(e) ==> e.Micros() <= 0
    {
      if e.content.eventType == CreditNotePosted {
        PostingOpenIffActive(l, e);
        Members(l, e);
      }
    }
    SumCongruent(l, e => Credits(b, e, invoice, company, currency), p);
    SumCongruent(l, e => LinkedCreditEvent(b, e, invoice, company, currency) && ActivePosting(l, e), p);
    SumMonotone(l, e => false, p);
    NothingSelected(l);
  }

  /** The credit fits the posting beside all open credits of the invoice. */
  predicate Fits(b: Book, credit: Move, invoice: nat, p: Event) {
    && p.content.amountMicros.Some?
    && -OpenNative(b, invoice, credit.company, credit.terms.currency) + Size(credit.terms.untaxedMicros)
         <= p.content.amountMicros.value
  }

  /** The posting the credit is charged to, or the reason it is not. */
  ghost predicate Answered(b: Book, b': Book, id: nat, target: Option<Event>, reason: string)
    requires Closed(b) && id in b.moves && b.moves[id].terms.reversedEntry.Some?
  {
    var credit, o := b.moves[id], b.moves[id].terms.reversedEntry.value;
    if b.moves[o].terms.moveType != OutInvoice
    then b' == b && target == None && reason == "target_not_customer_invoice"
    else if b.moves[o].state != Posted then b' == b && target == None && reason == "target_not_posted"
    else exists p :: InvoiceSecured(b, b', o, p) && ChargedOrNot(b', credit, o, p, target, reason)
  }

  predicate ChargedOrNot(b: Book, credit: Move, invoice: nat, p: Event, target: Option<Event>, reason: string) {
    if p.content.currency != credit.terms.currency then target == None && reason == "different_currency"
    else if Fits(b, credit, invoice, p) then target == Some(p) && reason == "linked"
    else target == None && reason == "exceeds_active_invoice_amount"
  }

  lemma RecordObserves(b: Book, company: nat, c: Content, targets: set<Target>)
    requires Record(b, company, c, targets).Ok? && c.sourceSystem == SYSTEM && Fresh(b, company, c.key)
    ensures ObservedAs(b.ledger, Record(b, company, c, targets).value.0.ledger,
      Observation(EventRef(company, SYSTEM, c.key), c.occurredAt, "", c, Accepted))
  {
    hide ValidContent, Admit, LinksTo;
    assert Find(b.Events(), EventRef(company, SYSTEM, c.key)).None?;
    ObservationOutcome(b.ledger, company, b.currencies, Payload(c, c.occurredAt, ""));
  }

  lemma ReadyDescribes(b: Book, id: nat, c: Content, target: Option<Event>)
    requires PostingReady(b, id, c, target)
    ensures Describes(b, id, c.key, c.occurredAt, c.evidenceLevel, target, c.extensions.creditReason,
      PostingEvent(b, id, c, target))
  {
    hide Sound, Chargeable, Fresh;
  }

  lemma AppendedWrites(b: Book, b': Book, id: nat, c: Content, target: Option<Event>)
    requires Appended(b, b', id, c, target)
    ensures var e, m := PostingEvent(b, id, c, target), b.moves[id];
      && b'.moves == b.moves && b'.currencies == b.currencies && b'.ledger.events == b.ledger.events + [e]
      && b'.links == b.links + {MoveLink(IdOf(e), id, SourceDocument)}
         + (if m.terms.moveType == OutRefund && m.terms.reversedEntry.Some?
            then {MoveLink(IdOf(e), m.terms.reversedEntry.value, ReversedInvoice)} else {})
  {
    LinksOfPosting(PostingEvent(b, id, c, target), id, b.moves[id].terms);
    hide Sound, ActivePosting, Extends, PostingReady, LinksTo, TargetsOf;
  }

  lemma PostingWritten(b: Book, id: nat, c: Content, target: Option<Event>)
    requires Sound(b, {}) && PostingReady(b, id, c, target)
    ensures id in b.moves && c.extensions.DocumentExtensions?
    ensures var r := Record(b, b.moves[id].company, c, TargetsOf(id, b.moves[id].terms));
      && r.Ok? && r.value.1 == Some(PostingEvent(b, id, c, target))
      && Written(b, r.value.0, id, c.key, c.occurredAt, c.evidenceLevel, target, c.extensions.creditReason,
           PostingEvent(b, id, c, target))
  {
    hide *;
    ReadyShape(b, id, c, target);
    var company, targets := b.moves[id].company, TargetsOf(id, b.moves[id].terms);
    RecordPosting(b, id, c, target);
    RecordObserves(b, company, c, targets);
    ReadyDescribes(b, id, c, target);
    var b' := Record(b, company, c, targets).value.0;
    AppendedWrites(b, b', id, c, target);
    WrittenIs(b, b', id, c.key, c.occurredAt, c.evidenceLevel, target, c.extensions.creditReason,
      PostingEvent(b, id, c, target));
  }

  lemma ReadyShape(b: Book, id: nat, c: Content, target: Option<Event>)
    requires PostingReady(b, id, c, target)
    ensures id in b.moves && c.extensions.DocumentExtensions? && c.sourceSystem == SYSTEM
      && Fresh(b, b.moves[id].company, c.key)
      && IdOf(PostingEvent(b, id, c, target)) == EventRef(b.moves[id].company, SYSTEM, c.key)
      && PostingEvent(b, id, c, target).content == c
  {
    hide Chargeable, Fresh;
  }

  lemma WrittenIs(b: Book, b': Book, id: nat, key: EventKey, at: int, level: string, target: Option<Event>,
                  reason: string, e: Event)
    requires id in b.moves && Describes(b, id, key, at, level, target, reason, e)
    requires var m := b.moves[id];
      && b'.moves == b.moves && b'.currencies == b.currencies && b'.ledger.events == b.ledger.events + [e]
      && b'.links == b.links + {MoveLink(IdOf(e), id, SourceDocument)}
         + (if m.terms.moveType == OutRefund && m.terms.reversedEntry.Some?
            then {MoveLink(IdOf(e), m.terms.reversedEntry.value, ReversedInvoice)} else {})
    requires ObservedAs(b.ledger, b'.ledger, Observation(IdOf(e), at, "", e.content, Accepted))
    ensures Written(b, b', id, key, at, level, target, reason, e)
  {
    hide ObservedAs, Describes;
  }

  lemma LinksOfPosting(e: Event, id: nat, terms: Terms)
    ensures LinksTo(e.Id(), TargetsOf(id, terms)) == {MoveLink(IdOf(e), id, SourceDocument)}
      + (if terms.moveType == OutRefund && terms.reversedEntry.Some?
         then {MoveLink(IdOf(e), terms.reversedEntry.value, ReversedInvoice)} else {})
  {
    assert Target(id, SourceDocument) in TargetsOf(id, terms);
    if terms.moveType == OutRefund && terms.reversedEntry.Some? {
      assert Target(terms.reversedEntry.value, ReversedInvoice) in TargetsOf(id, terms);
    }
  }

  /** An invoice, or a credit that names no document, is written as it stands. */
  lemma PlainWritten(b: Book, id: nat, key: EventKey, at: int, level: string)
    requires EmitReady(b, id, key) && !(b.moves[id].terms.moveType == OutRefund
      && b.moves[id].terms.reversedEntry.Some?)
    ensures var r := EmitMoveEvent(b, id, key, at, level);
      r.Ok? && r.value.1.Some? && Written(b, r.value.0, id, key, at, level, None, "", r.value.1.value)
  {
    var c := PostingContent(b, id, key, at, level, None, "");
    PostingWritten(b, id, c, None);
    hide Sound, Written, Record;
  }

  lemma InvoiceIsSecured(b: Book, id: nat)
    requires Sound(b, {}) && id in b.moves && b.moves[id].terms.moveType == OutInvoice && b.moves[id].state == Posted
    ensures Closed(b)
    ensures var r := EnsureMoveEvent(b, id, "imported");
      r.Ok? && r.value.1.Some? && InvoiceSecured(b, r.value.0, id, r.value.1.value)
  {
    assert WellFormed(b.Events()) && Closed(b);
    hide Sound, LastOpen, OpenPosting, ActivePostingOf, Written, WellFormed, Closed, LinkSources, EnsureMoveEvent;
    SourcesLinked(b, id);
    FoundIsLast(b, id);
    if ActivePostingOf(b, id).None? { InvoiceImported(b, id); } else { SecuredFound(b, id); }
  }

  lemma InvoiceImported(b: Book, id: nat)
    requires Sound(b, {}) && Closed(b) && id in b.moves && PostedOutgoing(b, id) && ActivePostingOf(b, id).None?
    requires LinkSources(b, id) == b && b.moves[id].terms.moveType == OutInvoice
    ensures var r, m := EnsureMoveEvent(b, id, "imported"), b.moves[id];
      && r.Ok? && r.value.1.Some?
      && Written(Stepped(b, id), r.value.0, id, MovePosting(id, Some(m.terms.documentDate), m.sequence + 1),
           m.terms.documentDate, "imported", None, "", r.value.1.value)
  {
    var m, stamp := b.moves[id], Some(b.moves[id].terms.documentDate);
    var b1, key := NextSequence(b, id), MovePosting(id, stamp, m.sequence + 1);
    hide Sound, ActivePostingOf, LinkSources, Grows, SameDocuments, Fresh, EnsureMoveEvent, EmitMoveEvent, Written;
    NextSequenceSound(b, id, stamp);
    ImportReady(b, id);
    PlainWritten(b1, id, key, stamp.value, "imported");
    EnsureIsEmission(b, id, key);
  }

  lemma ImportReady(b: Book, id: nat)
    requires Sound(b, {}) && Closed(b) && id in b.moves && PostedOutgoing(b, id)
    ensures var stamp := b.moves[id].terms.documentDate;
      var b1, key := NextSequence(b, id), MovePosting(id, Some(stamp), b.moves[id].sequence + 1);
      && EmitReady(b1, id, key) && Closed(b1) && b1 == Stepped(b, id)
      && b1.moves[id].terms == b.moves[id].terms && CreditsAcrossCompanies(b1, id) == CreditsAcrossCompanies(b, id)
  {
    hide Sound;
    NextSequenceSound(b, id, Some(b.moves[id].terms.documentDate));
    hide Grows, SameDocuments, Fresh;
  }

  /** What the search for a credit's target answers, spelled out. */
  lemma TargetAnswer(b: Book, id: nat, b': Book, p: Event)
    requires Closed(b) && id in b.moves && IsLinkedCredit(b, id) && OriginalPosted(b, id)
      && !CreditsAcrossCompanies(b, id)
    requires EnsureMoveEvent(b, b.moves[id].terms.reversedEntry.value, "imported") == Ok((b', Some(p)))
    requires p.content.currency == b.moves[id].terms.currency ==>
      (Abs(LinkedCredit(b', b.moves[id].terms.reversedEntry.value, b.moves[id].company, p.content.currency)
           - Size(b.moves[id].terms.untaxedMicros)) <= Abs(p.Micros())
      <==> Fits(b', b.moves[id], b.moves[id].terms.reversedEntry.value, p))
    ensures var r := CreditReversalTarget(b, id, -Size(b.moves[id].terms.untaxedMicros));
      r.Ok? && r.value.0 == b' && ChargedOrNot(b', b.moves[id], b.moves[id].terms.reversedEntry.value, p, r.value.1,
        ReasonText(r.value.2))
  {
    hide EnsureMoveEvent, LinkedCredit, Fits, Size, Closed, SameDocuments;
    var m, o := b.moves[id], b.moves[id].terms.reversedEntry.value;
    var r := CreditReversalTarget(b, id, -Size(m.terms.untaxedMicros));
    if p.content.currency != m.terms.currency {
      assert r == Ok((b', None, DifferentCurrency));
    } else if Fits(b', m, o, p) {
      assert r == Ok((b', Some(p), Linked));
    } else {
      assert r == Ok((b', None, ExceedsActiveInvoiceAmount));
    }
  }

  /** Whatever a consistent book holds, a credit is linked to the last open posting of its invoice
   *  if and only if that invoice is posted, in the credit's company and currency, and the credit
   *  fits beside every credit of the invoice that no event of the ledger negates. */
  lemma CreditTargetOutcome(b: Book, id: nat)
    requires Sound(b, {}) && id in b.moves && b.moves[id].terms.moveType == OutRefund
      && b.moves[id].terms.reversedEntry.Some?
    ensures Closed(b)
    ensures var m := b.moves[id];
      var r := CreditReversalTarget(b, id, -Size(m.terms.untaxedMicros));
      && (r.Ok? <==> b.moves[m.terms.reversedEntry.value].company == m.company)
      && (r.Err? ==> r.error == Rejection.CrossCompany)
      && (r.Ok? ==> Answered(b, r.value.0, id, r.value.1, ReasonText(r.value.2)))
  {
    assert Closed(b);
    hide Sound, EnsureMoveEvent, Answered, Closed, CreditReversalTarget;
    if b.moves[b.moves[id].terms.reversedEntry.value].company == b.moves[id].company && OriginalPosted(b, id) {
      PostedAnswer(b, id);
    } else {
      OtherAnswer(b, id);
    }
  }

  lemma OtherAnswer(b: Book, id: nat)
    requires Closed(b) && id in b.moves && IsLinkedCredit(b, id)
    requires CreditsAcrossCompanies(b, id) || !OriginalPosted(b, id)
    ensures var r := CreditReversalTarget(b, id, -Size(b.moves[id].terms.untaxedMicros));
      if CreditsAcrossCompanies(b, id) then r == Err(Rejection.CrossCompany)
      else r.Ok? && Answered(b, r.value.0, id, r.value.1, ReasonText(r.value.2))
  {
    hide EnsureMoveEvent, InvoiceSecured, ChargedOrNot, Closed, SameDocuments, Size;
  }

  lemma PostedAnswer(b: Book, id: nat)
    requires Sound(b, {}) && Closed(b) && id in b.moves && IsLinkedCredit(b, id) && OriginalPosted(b, id)
    requires !CreditsAcrossCompanies(b, id)
    ensures var r := CreditReversalTarget(b, id, -Size(b.moves[id].terms.untaxedMicros));
      r.Ok? && Answered(b, r.value.0, id, r.value.1, ReasonText(r.value.2))
  {
    hide *;
    OriginalFacts(b, id);
    var m, o := b.moves[id], b.moves[id].terms.reversedEntry.value;
    InvoiceIsSecured(b, o);
    EnsureOk(b, o, "imported");
    NotCredit(b, o);
    var (b', p) := EnsureMoveEvent(b, o, "imported").value;
    EnsuredIsInvoice(b, b', o, p);
    SecuredBudget(b', o, m, p.value);
    TargetAnswer(b, id, b', p.value);
    var r := CreditReversalTarget(b, id, -Size(m.terms.untaxedMicros));
    AnsweredIs(b, b', id, p.value, r.value.1, ReasonText(r.value.2));
  }

  lemma OriginalFacts(b: Book, id: nat)
    requires Closed(b) && id in b.moves && IsLinkedCredit(b, id) && OriginalPosted(b, id)
    ensures b.moves[id].terms.reversedEntry.Some? && b.moves[id].terms.moveType == OutRefund
    ensures b.moves[id].terms.reversedEntry.value in b.moves
    ensures b.moves[b.moves[id].terms.reversedEntry.value].terms.moveType == OutInvoice
    ensures b.moves[b.moves[id].terms.reversedEntry.value].state == Posted
  {}

  lemma AnsweredIs(b: Book, b': Book, id: nat, p: Event, target: Option<Event>, reason: string)
    requires Closed(b) && id in b.moves && IsLinkedCredit(b, id) && OriginalPosted(b, id)
    requires InvoiceSecured(b, b', b.moves[id].terms.reversedEntry.value, p)
    requires ChargedOrNot(b', b.moves[id], b.moves[id].terms.reversedEntry.value, p, target, reason)
    ensures Answered(b, b', id, target, reason)
  {
    hide InvoiceSecured, ChargedOrNot, Closed;
  }

  lemma NotCredit(b: Book, id: nat)
    requires Closed(b) && id in b.moves && b.moves[id].terms.moveType == OutInvoice
    ensures !Blocked(b, id)
  {}

  lemma EnsuredIsInvoice(b: Book, b': Book, id: nat, p: Option<Event>)
    requires Closed(b) && id in b.moves && b.moves[id].terms.moveType == OutInvoice && b.moves[id].state == Posted
    requires EnsuredOf(b, b', id, p)
    ensures Sound(b', {}) && p.Some? && p.value in b'.Events() && p.value.Type().InvoicePosted?
  {
    hide Sound, Grows, StayOne, Has;
  }

  lemma SecuredBudget(b: Book, invoice: nat, credit: Move, p: Event)
    requires Sound(b, {}) && p in b.Events() && p.Type().InvoicePosted?
    ensures p.content.currency == credit.terms.currency ==>
      (Abs(LinkedCredit(b, invoice, credit.company, p.content.currency) - Size(credit.terms.untaxedMicros))
        <= Abs(p.Micros())
      <==> Fits(b, credit, invoice, p))
  {
    NativeIsOpen(b, invoice, credit.company, credit.terms.currency);
    Members(b.Events(), p);
    hide Sound, LinkedCredit, OpenNative;
  }

  // ---------- Posting documents ----------

  predicate Charges(m: Move) {
    m.terms.moveType == OutRefund && m.terms.reversedEntry.Some?
  }

  /** From b to b' the document's posting was recorded under the given key; a credit that names a
   *  document first asks which posting it is charged to. */
  ghost predicate Recorded(b: Book, b': Book, id: nat, key: EventKey, at: int, level: string, e: Event)
    requires Closed(b) && id in b.moves
  {
    if Charges(b.moves[id]) then
      exists b1, target, reason ::
        && Answered(b, b1, id, target, reason)
        && id in b1.moves && Written(b1, b', id, key, at, level, target, reason, e)
    else Written(b, b', id, key, at, level, None, "", e)
  }

  /** A document that is not posted, or is no invoice or credit, emits nothing. */
  lemma NothingEmitted(b: Book, id: nat, key: EventKey, at: int, level: string)
    requires Closed(b) && id in b.moves && (b.moves[id].state != Posted || b.moves[id].terms.moveType == OtherMove)
    ensures EmitMoveEvent(b, id, key, at, level) == Ok((b, None))
  {}

  lemma EmissionRecorded(b: Book, id: nat, key: EventKey, at: int, level: string)
    requires EmitReady(b, id, key) && !CreditsAcrossCompanies(b, id)
    ensures Closed(b)
    ensures var r := EmitMoveEvent(b, id, key, at, level);
      r.Ok? && r.value.1.Some? && Recorded(b, r.value.0, id, key, at, level, r.value.1.value)
  {
    assert Closed(b) && id in b.moves;
    if Charges(b.moves[id]) {
      CreditRecorded(b, id, key, at, level);
    } else {
      hide EmitReady, Closed, CreditsAcrossCompanies, EmitMoveEvent, Written;
      PlainWritten(b, id, key, at, level);
    }
  }

  lemma EmitTarget(b: Book, id: nat, key: EventKey, at: int, level: string, b1: Book, target: Option<Event>,
                   reason: CreditReason)
    requires EmitReady(b, id, key) && IsLinkedCredit(b, id) && Closed(b)
    requires CreditReversalTarget(b, id, Amount(b.moves[id].terms)) == Ok((b1, target, reason))
    ensures id in b1.moves && b1.moves[id].Outgoing() && b1.moves[id].company == b.moves[id].company
      && b1.moves[id].terms == b.moves[id].terms
    ensures EmitMoveEvent(b, id, key, at, level)
      == Record(b1, b.moves[id].company, CreditContent(b1, id, key, at, level, target, reason),
        TargetsOf(id, b.moves[id].terms))
  {
    assert Find(b.Events(), EventRef(b.moves[id].company, SYSTEM, key)).None?;
    hide Sound, Record, CreditReversalTarget, Closed, Fresh;
  }

  lemma CreditRecorded(b: Book, id: nat, key: EventKey, at: int, level: string)
    requires EmitReady(b, id, key) && IsLinkedCredit(b, id) && !CreditsAcrossCompanies(b, id) && Closed(b)
    ensures var r := EmitMoveEvent(b, id, key, at, level);
      r.Ok? && r.value.1.Some? && Recorded(b, r.value.0, id, key, at, level, r.value.1.value)
  {
    hide *;
    CreditFacts(b, id, key);
    CreditTargetOutcome(b, id);
    LinkedIsAccepted(b, id, key, at, level);
    var (b1, target, reason) := CreditReversalTarget(b, id, Amount(b.moves[id].terms)).value;
    EmitTarget(b, id, key, at, level, b1, target, reason);
    ChargedRecorded(b, b1, id, key, at, level, target, reason);
  }

  lemma CreditFacts(b: Book, id: nat, key: EventKey)
    requires EmitReady(b, id, key) && IsLinkedCredit(b, id) && Closed(b)
    ensures Sound(b, {}) && id in b.moves && b.moves[id].terms.moveType == OutRefund
    ensures b.moves[id].terms.reversedEntry.Some? && b.moves[id].Outgoing()
    ensures Amount(b.moves[id].terms) == -Size(b.moves[id].terms.untaxedMicros)
    ensures b.moves[b.moves[id].terms.reversedEntry.value].company == b.moves[id].company
      <==> !CreditsAcrossCompanies(b, id)
  {
    hide Sound, Closed, Fresh;
  }

  lemma ChargedRecorded(b: Book, b1: Book, id: nat, key: EventKey, at: int, level: string, target: Option<Event>,
                        reason: CreditReason)
    requires Closed(b) && id in b.moves && IsLinkedCredit(b, id) && TargetOf(b, b1, id, target)
    requires Answered(b, b1, id, target, ReasonText(reason))
    requires CreditAccepted(b1, id, key, at, level, target, reason)
    requires b1.moves[id].company == b.moves[id].company && b1.moves[id].terms == b.moves[id].terms
    requires EmitMoveEvent(b, id, key, at, level)
      == Record(b1, b.moves[id].company, CreditContent(b1, id, key, at, level, target, reason),
        TargetsOf(id, b.moves[id].terms))
    ensures var r := EmitMoveEvent(b, id, key, at, level);
      r.Ok? && r.value.1.Some? && Recorded(b, r.value.0, id, key, at, level, r.value.1.value)
  {
    hide EmitMoveEvent, Record, Written, Answered, PostingReady, Sound, TargetOf, Closed, Admit;
    TargetIsSound(b, b1, id, target);
    PostingWritten(b1, id, CreditContent(b1, id, key, at, level, target, reason), target);
  }

  lemma TargetIsSound(b: Book, b1: Book, id: nat, target: Option<Event>)
    requires Closed(b) && id in b.moves && IsLinkedCredit(b, id) && TargetOf(b, b1, id, target)
    ensures Sound(b1, {})
  {
    hide Sound;
  }

  /** A posting operation writes exactly one posting of a posted document, under the next sequence
   *  of that document and at the time of the operation. */
  ghost predicate PostedNow(b: Book, b': Book, id: nat, now: int)
    requires Closed(b) && id in b.moves
  {
    var b1, key := Stepped(b, id), MovePosting(id, None, b.moves[id].sequence + 1);
    Closed(b1) && exists e :: Recorded(b1, b', id, key, now, "first_party", e)
  }

  lemma PostOneOutcome(b: Book, id: nat, now: int)
    requires Sound(b, {}) && id in b.moves && b.moves[id].Outgoing()
    requires b.moves[id].state == Posted ==> !CreditsAcrossCompanies(b, id)
    ensures Closed(b) && PostOne(b, id, now).Ok? && Sound(PostOne(b, id, now).value, {})
    ensures var b' := PostOne(b, id, now).value;
      if b.moves[id].state == Posted then PostedNow(b, b', id, now) else b' == b
  {
    assert Closed(b);
    hide Sound, PostedOne, Closed, PostedNow, PostOne, CreditsAcrossCompanies;
    PostOneOk(b, id, now);
    PostedOneSound(b, PostOne(b, id, now).value, id);
    if b.moves[id].state == Posted { PostingStep(b, id, now); } else { IdlePost(b, id, now); }
  }

  lemma IdlePost(b: Book, id: nat, now: int)
    requires Closed(b) && id in b.moves && b.moves[id].state != Posted
    ensures PostOne(b, id, now) == Ok(b)
  {}

  lemma PostedOneSound(b: Book, b': Book, id: nat)
    requires Sound(b, {}) && Closed(b) && id in b.moves && b.moves[id].Outgoing() && PostedOne(b, b', id)
    ensures Sound(b', {})
  {
    hide Sound, Grows, NewActive, KeepsOne, Has;
  }

  lemma PostingStep(b: Book, id: nat, now: int)
    requires Sound(b, {}) && Closed(b) && id in b.moves && b.moves[id].Outgoing() && b.moves[id].state == Posted
    requires !CreditsAcrossCompanies(b, id)
    ensures PostOne(b, id, now).Ok? && PostedNow(b, PostOne(b, id, now).value, id, now)
  {
    var b1, key := NextSequence(b, id), MovePosting(id, None, b.moves[id].sequence + 1);
    hide Sound;
    NextSequenceSound(b, id, None);
    hide Grows, SameDocuments, Fresh;
    assert Closed(b1) && !CreditsAcrossCompanies(b1, id);
    hide Closed, CreditsAcrossCompanies, Recorded;
    EmissionRecorded(b1, id, key, now, "first_party");
    assert b1 == Stepped(b, id) && key == MovePosting(id, None, b1.moves[id].sequence);
    hide EmitReady, NextSequence, EmitMoveEvent;
    var e := EmitMoveEvent(b1, id, key, now, "first_party").value.1.value;
    assert PostOne(b, id, now).value == EmitMoveEvent(b1, id, key, now,
      "first_party").value.0 by { PostIsEmission(b, id, now); }
    assert Recorded(b1, PostOne(b, id, now).value, id, key, now, "first_party", e);
  }

  lemma PostIsEmission(b: Book, id: nat, now: int)
    requires Closed(b) && id in b.moves && b.moves[id].state == Posted && Closed(NextSequence(b, id))
    ensures var r := EmitMoveEvent(NextSequence(b, id), id, MovePosting(id, None, b.moves[id].sequence + 1), now,
      "first_party");
      PostOne(b, id, now) == if r.Ok? then Ok(r.value.0) else Err(r.error)
  {
    hide EmitMoveEvent, Closed;
  }

  // ---------- Batches ----------

  /** Every document of ids that the batch does not defer is posted. */
  predicate NowPosted(b: Book, b': Book, ids: seq<nat>, deferred: set<nat>) {
    && b'.ledger == b.ledger && b'.links == b.links && b'.currencies == b.currencies
    && b'.moves.Keys == b.moves.Keys
    && forall id | id in b.moves ::
         var m := b.moves[id];
         b'.moves[id] == if id in ids && id !in deferred then Move(m.company, m.terms, Posted, m.sequence) else m
  }

  predicate SomeForeignCredit(b: Book, ids: seq<nat>, deferred: set<nat>)
    requires Closed(b)
  {
    exists id | id in ids && id in b.moves && id !in deferred ::
      && b.moves[id].state != Posted && Charges(b.moves[id])
      && b.moves[b.moves[id].terms.reversedEntry.value].company != b.moves[id].company
  }

  /** The invoices and credits among the listed documents that are not posted, in the order of the list. */
  function Arriving(b: Book, ids: seq<nat>): seq<nat>
    requires forall id | id in ids :: id in b.moves
  {
    if ids == [] then []
    else if b.moves[ids[0]].state != Posted && b.moves[ids[0]].terms.moveType != OtherMove
    then [ids[0]] + Arriving(b, ids[1..])
    else Arriving(b, ids[1..])
  }

  lemma {:induction false} ArrivingAppend(b: Book, ids: seq<nat>, id: nat)
    requires forall x | x in ids + [id] :: x in b.moves
    ensures Arriving(b, ids + [id]) == Arriving(b, ids)
      + if b.moves[id].state != Posted && b.moves[id].terms.moveType != OtherMove then [id] else []
  {
    if ids == [] {
      assert ids + [id] == [id] && [id][1..] == [];
    } else {
      assert (ids + [id])[1..] == ids[1..] + [id] && (ids + [id])[0] == ids[0];
      ArrivingAppend(b, ids[1..], id);
    }
  }

  lemma {:induction false} ArrivingAreCandidates(b: Book, ids: seq<nat>)
    requires forall id | id in ids :: id in b.moves
    ensures Candidates(b, ids, false) == Arriving(b, ids)
  {
    if |ids| > 0 {
      var n := |ids| - 1;
      assert ids == ids[..n] + [ids[n]];
      ArrivingAreCandidates(b, ids[..n]);
      ArrivingAppend(b, ids[..n], ids[n]);
    }
  }

  /** One posting for each document that is posted, one after the other. */
  ghost predicate PostedEach(ids: seq<nat>, now: int, books: seq<Book>) {
    && |books| == |ids| + 1
    && forall k | 0 <= k < |ids| ::
         && Closed(books[k]) && ids[k] in books[k].moves
         && if books[k].moves[ids[k]].state == Posted then PostedNow(books[k], books[k + 1], ids[k], now)
            else books[k + 1] == books[k]
  }

  lemma {:induction false} EachPosted(b: Book, ids: seq<nat>, now: int) returns (books: seq<Book>)
    requires Sound(b, {}) && Closed(b) && forall id | id in ids :: id in b.moves && b.moves[id].Outgoing()
    requires PostEach(b, ids, now).Ok?
    ensures PostedEach(ids, now, books)
    ensures books[0] == b && books[|ids|] == PostEach(b, ids, now).value
  {
    if |ids| == 0 {
      books := [b];
    } else {
      var n := |ids| - 1;
      var prefix, id := ids[..n], ids[n];
      hide *;
      forall x | x in prefix ensures x in b.moves && b.moves[x].Outgoing() {}
      PostEachLast(b, ids, now);
      var before := EachPosted(b, prefix, now);
      var b1, b2 := PostEach(b, prefix, now).value, PostEach(b, ids, now).value;
      PrefixPosted(b, prefix, id, now);
      PostOneOutcome(b1, id, now);
      PostedLast(ids, n, now, before, b1, b2);
      books := before + [b2];
    }
  }

  lemma PrefixPosted(b: Book, prefix: seq<nat>, id: nat, now: int)
    requires Sound(b, {}) && Closed(b) && forall x | x in prefix + [id] :: x in b.moves && b.moves[x].Outgoing()
    requires PostEach(b, prefix, now).Ok? && PostEach(b, prefix + [id], now).Ok?
    ensures var b1 := PostEach(b, prefix, now).value;
      && Sound(b1, {}) && Closed(b1) && id in b1.moves && b1.moves[id].Outgoing()
      && (b1.moves[id].state == Posted ==> !CreditsAcrossCompanies(b1, id))
  {
    PostEachOk(b, prefix, now);
    PostEachOk(b, prefix + [id], now);
    hide Sound, PostEach, TouchedAll;
    assert id in prefix + [id];
  }

  lemma PostedLast(ids: seq<nat>, n: nat, now: int, before: seq<Book>, b1: Book, b2: Book)
    requires n == |ids| - 1 && PostedEach(ids[..n], now, before) && before[n] == b1
    requires Closed(b1) && ids[n] in b1.moves
    requires if b1.moves[ids[n]].state == Posted then PostedNow(b1, b2, ids[n], now) else b2 == b1
    ensures PostedEach(ids, now, before + [b2])
    ensures (before + [b2])[0] == before[0] && (before + [b2])[|ids|] == b2
  {
    hide PostedNow, Closed;
    var books := before + [b2];
    forall k | 0 <= k < |ids|
      ensures Closed(books[k]) && ids[k] in books[k].moves
      ensures if books[k].moves[ids[k]].state == Posted then PostedNow(books[k], books[k + 1], ids[k], now)
              else books[k + 1] == books[k]
    {
      if k < n { assert ids[..n][k] == ids[k]; }
    }
  }

  lemma NativePosts(b: Book, ids: seq<nat>, deferred: set<nat>)
    ensures NowPosted(b, NativePost(b, ToSet(ids) - deferred), ids, deferred)
  {}

  /** Posting a batch fails exactly when it posts a credit of another company's document.  Otherwise
   *  every listed document is posted that the batch does not defer, and then each of them that was
   *  not posted before gets exactly one posting, in the order of the list. */
  lemma BatchOutcome(b: Book, ids: seq<nat>, deferred: set<nat>, now: int) returns (books: seq<Book>)
    requires Consistent(b) && Allowed(b, PostBatch(ids, deferred, now))
    ensures Closed(b)
    ensures var r, arriving := Apply(b, PostBatch(ids, deferred, now)), Arriving(b, ids);
      && (r.Ok? <==> !SomeForeignCredit(b, ids, deferred))
      && (r.Err? ==> r.error == Rejection.CrossCompany)
      && (r.Ok? ==>
            && PostedEach(arriving, now, books) && NowPosted(b, books[0], ids, deferred)
            && r.value == books[|arriving|])
  {
    assert Closed(b);
    var b', cs := NativePost(b, ToSet(ids) - deferred), Candidates(b, ids, false);
    books := [];
    ArrivingAreCandidates(b, ids);
    NativePostSound(b, ToSet(ids) - deferred);
    NativePosts(b, ids, deferred);
    BatchIsEach(b, ids, deferred, now);
    ForeignIffCrossing(b, ids, deferred);
    assert Sound(b', {}) && Closed(b');
    hide *;
    BatchPosting(b, ids, deferred, now);
    if Apply(b, PostBatch(ids, deferred, now)).Ok? {
      books := EachPosted(b', cs, now);
    } else {
      OnlyCrossing(b', cs, now);
    }
  }

  lemma BatchIsEach(b: Book, ids: seq<nat>, deferred: set<nat>, now: int)
    requires Consistent(b) && Allowed(b, PostBatch(ids, deferred, now)) && Closed(b)
    requires Closed(NativePost(b, ToSet(ids) - deferred))
    ensures forall id | id in ids :: id in b.moves
    ensures var b', cs := NativePost(b, ToSet(ids) - deferred), Candidates(b, ids, false);
      && (forall id | id in cs :: id in b'.moves && b'.moves[id].Outgoing())
      && Apply(b, PostBatch(ids, deferred, now)) == PostEach(b', cs, now)
  {
    hide Sound, One, PostEach;
  }

  lemma ForeignIffCrossing(b: Book, ids: seq<nat>, deferred: set<nat>)
    requires Closed(b)
    ensures (exists x | x in ids :: NewlyPosted(b, ids, deferred, x) && CreditsAcrossCompanies(b, x))
      <==> SomeForeignCredit(b, ids, deferred)
  {}

  lemma {:induction false} OnlyCrossing(b: Book, ids: seq<nat>, now: int)
    requires Sound(b, {}) && Closed(b) && forall id | id in ids :: id in b.moves && b.moves[id].Outgoing()
    ensures PostEach(b, ids, now).Err? ==> PostEach(b, ids, now).error == Rejection.CrossCompany
  {
    if |ids| > 0 {
      var prefix, id := ids[..|ids| - 1], ids[|ids| - 1];
      OnlyCrossing(b, prefix, now);
      hide Sound, PostedOne, PostOne, Grows, Crosses, TouchedAll, Closed;
      if PostEach(b, prefix, now).Ok? {
        PostEachOk(b, prefix, now);
        var b1 := PostEach(b, prefix, now).value;
        SameOutgoing(b, b1, id);
        PostOneOk(b1, id, now);
      }
    }
  }

  // ---------- Securing a posting ----------

  /** A posted document's last open posting, or else the one recorded from the document now, under
   *  its date and its next sequence. */
  ghost predicate Secured(b: Book, b': Book, id: nat, p: Option<Event>)
    requires Closed(b) && id in b.moves
  {
    var m := b.moves[id];
    if m.state != Posted || m.terms.moveType == OtherMove then b' == b && p == None
    else if exists e | e in b.ledger.events :: OpenPosting(b, e, id, PostedAs(m.terms.moveType))
    then b' == b && p.Some? && LastOpen(b, p.value, id, PostedAs(m.terms.moveType))
    else
      && p.Some? && Closed(Stepped(b, id))
      && Recorded(Stepped(b, id), b', id, MovePosting(id, Some(m.terms.documentDate), m.sequence + 1),
           m.terms.documentDate, "imported", p.value)
  }

  /** Securing fails exactly for a credit of another company's document that has no open posting. */
  predicate Unsecurable(b: Book, id: nat)
    requires Closed(b) && id in b.moves
  {
    && b.moves[id].state == Posted && Charges(b.moves[id])
    && b.moves[b.moves[id].terms.reversedEntry.value].company != b.moves[id].company
    && !exists e | e in b.ledger.events :: OpenPosting(b, e, id, CreditNotePosted)
  }

  lemma BlockedIffUnsecurable(b: Book, id: nat)
    requires WellFormed(b.Events()) && Closed(b) && id in b.moves
    ensures Blocked(b, id) <==> Unsecurable(b, id)
  {
    if Charges(b.moves[id]) {
      hide WellFormed, ActivePostingOf, OpenPosting, LastOpen, Closed;
      FoundIsLast(b, id);
    }
    hide WellFormed, ActivePostingOf, OpenPosting, Closed;
  }

  lemma SecureOutcome(b: Book, id: nat)
    requires Sound(b, {}) && id in b.moves
    ensures Closed(b)
    ensures var r := EnsureMoveEvent(b, id, "imported");
      && (r.Err? <==> Unsecurable(b, id)) && (r.Err? ==> r.error == Rejection.CrossCompany)
      && (r.Ok? ==> Secured(b, r.value.0, id, r.value.1))
  {
    assert Closed(b) && WellFormed(b.Events());
    hide Sound, Closed, WellFormed, EnsuredOf, EnsureMoveEvent, Secured, Unsecurable, Blocked;
    EnsureOk(b, id, "imported");
    BlockedIffUnsecurable(b, id);
    SourcesLinked(b, id);
    if !Unsecurable(b, id) { SecuredPosting(b, id); }
  }

  lemma SecuredPosting(b: Book, id: nat)
    requires Sound(b, {}) && Closed(b) && WellFormed(b.Events()) && id in b.moves && LinkSources(b, id) == b
    requires !Blocked(b, id)
    ensures var r := EnsureMoveEvent(b, id, "imported"); r.Ok? && Secured(b, r.value.0, id, r.value.1)
  {
    hide Sound, Closed, WellFormed, EmitMoveEvent, LinkSources, ActivePostingOf, LastOpen, OpenPosting, Recorded;
    if PostedOutgoing(b, id) {
      FoundIsLast(b, id);
      if ActivePostingOf(b, id).Some? {
        SecuredFound(b, id);
      } else {
        hide EnsureMoveEvent;
        ImportOutcome(b, id);
      }
    }
  }

  lemma SecuredFound(b: Book, id: nat)
    requires Closed(b) && id in b.moves && LinkSources(b, id) == b && PostedOutgoing(b, id)
    requires ActivePostingOf(b, id).Some?
    ensures EnsureMoveEvent(b, id, "imported") == Ok((b, ActivePostingOf(b, id)))
  {
    hide Closed, EmitMoveEvent, LinkSources, ActivePostingOf;
  }

  lemma EnsureIsEmission(b: Book, id: nat, key: EventKey)
    requires Closed(b) && id in b.moves && LinkSources(b, id) == b && PostedOutgoing(b, id)
    requires ActivePostingOf(b, id).None? && Closed(NextSequence(b, id))
    requires key == MovePosting(id, Some(b.moves[id].terms.documentDate), b.moves[id].sequence + 1)
    ensures EnsureMoveEvent(b, id, "imported")
      == EmitMoveEvent(NextSequence(b, id), id, key, b.moves[id].terms.documentDate, "imported")
  {
    hide Closed, EmitMoveEvent, LinkSources, ActivePostingOf;
  }

  lemma ImportOutcome(b: Book, id: nat)
    requires Sound(b, {}) && Closed(b) && id in b.moves && PostedOutgoing(b, id) && ActivePostingOf(b, id).None?
    requires !Blocked(b, id) && LinkSources(b, id) == b
    ensures var r, m := EnsureMoveEvent(b, id, "imported"), b.moves[id];
      && r.Ok? && r.value.1.Some? && Closed(Stepped(b, id))
      && Recorded(Stepped(b, id), r.value.0, id, MovePosting(id, Some(m.terms.documentDate), m.sequence + 1),
           m.terms.documentDate, "imported", r.value.1.value)
  {
    hide *;
    var stamp := Some(b.moves[id].terms.documentDate);
    var b1, key := NextSequence(b, id), MovePosting(id, stamp, b.moves[id].sequence + 1);
    ImportReady(b, id);
    NotCrossing(b, id);
    EmissionRecorded(b1, id, key, stamp.value, "imported");
    EnsureIsEmission(b, id, key);
  }

  lemma NotCrossing(b: Book, id: nat)
    requires Closed(b) && id in b.moves && PostedOutgoing(b, id) && ActivePostingOf(b, id).None? && !Blocked(b, id)
    ensures !CreditsAcrossCompanies(b, id)
  {}

  /** A backfill secures the posting of its document and does nothing else. */
  lemma BackfillOutcome(b: Book, id: nat)
    requires Consistent(b) && id in b.moves
    ensures Closed(b)
    ensures var r := Apply(b, Backfill(id));
      && (r.Err? <==> Unsecurable(b, id)) && (r.Err? ==> r.error == Rejection.CrossCompany)
      && (r.Ok? ==> exists p :: Secured(b, r.value, id, p))
  {
    SecureOutcome(b, id);
    hide Sound, Secured, EnsureMoveEvent, Unsecurable;
  }

  // ---------- Counterevents ----------

  function Gone(destination: MoveState): string {
    if destination == Draft then "draft" else "cancel"
  }

  ghost predicate CountermandedOnce(b: Book, b': Book, id: nat, p: Event, destination: MoveState, now: int)
    requires id in b.moves
  {
    exists e :: Countermanded(b, b', id, p, destination, now, e)
  }

  lemma CopiedLinks(links: set<MoveLink>, p: Ref, e: Ref)
    ensures forall k: MoveLink ::
      k in LinksTo(e, LinkTargets(links, p)) <==> k.event == e && MoveLink(p, k.move, k.role) in links
  {
    forall k: MoveLink | k.event == e && MoveLink(p, k.move, k.role) in links
      ensures k in LinksTo(e, LinkTargets(links, p))
    {
      assert MoveLink(p, k.move, k.role).event == p;
      assert Target(k.move, k.role) in LinkTargets(links, p);
    }
    forall k | k in LinksTo(e, LinkTargets(links, p))
      ensures k.event == e && MoveLink(p, k.move, k.role) in links
    {
      var x :| x in LinkTargets(links, p) && k == MoveLink(e, x.move, x.role);
      var y :| y in links && y.event == p && x == Target(y.move, y.role);
      assert y == MoveLink(p, k.move, k.role);
    }
  }

  /** The fields of a counterevent. */
  predicate Counters(b: Book, id: nat, p: Event, destination: MoveState, now: int, e: Event)
    requires id in b.moves
  {
    var x := p.content.extensions;
    && e.company == b.moves[id].company
    && e.content.eventClass == Revenue
    && e.content.eventType == (if p.content.eventType == InvoicePosted then InvoicePostingReversed
                               else CreditNotePostingReversed)
    && e.content.sourceSystem == "odoo.account" && e.content.sourceModel == "account.move"
    && e.content.sourceResId == id && e.content.key == MoveUnposting(id, p.content.key)
    && e.content.occurredAt == now && e.content.evidenceLevel == "first_party"
    && e.content.amountMicros == Some(-p.content.Micros())
    && e.content.currency == p.content.currency && e.content.reversesKey == Some(p.content.key)
    && e.content.extensions == (if x.DocumentExtensions?
         then DocumentExtensions(x.details, x.reversedMoveId, x.creditReason, "observed_transition", Gone(destination))
         else x)
    && e.reverses == Some(IdOf(p)) && e.root == Some(RootOf(p))
  }

  /** From b to b' the posting p of document id got its exact counterevent e, with p's links. */
  ghost predicate Countermanded(b: Book, b': Book, id: nat, p: Event, destination: MoveState, now: int, e: Event)
    requires id in b.moves
  {
    && Counters(b, id, p, destination, now, e)
    && b'.moves == b.moves && b'.currencies == b.currencies && b'.ledger.events == b.ledger.events + [e]
    && (forall k: MoveLink ::
          k in b'.links <==> k in b.links || (k.event == IdOf(e) && MoveLink(IdOf(p), k.move, k.role) in b.links))
    && ObservedAs(b.ledger, b'.ledger, Observation(IdOf(e), now, "", e.content, Accepted))
  }

  lemma ReversalCountersIt(b: Book, id: nat, p: Event, destination: MoveState, now: int)
    requires id in b.moves && destination != Posted
    ensures Counters(b, id, p, destination, now, ReversalEvent(b, id, p, destination, now))
    ensures ReversalEvent(b, id, p, destination, now).content == ReversalContent(id, p, destination, now)
    ensures IdOf(ReversalEvent(b, id, p, destination, now))
      == EventRef(b.moves[id].company, SYSTEM, ReversalContent(id, p, destination, now).key)
  {}

  /** Reversing an open posting always succeeds, and appends its counterevent. */
  lemma CountereventWritten(b: Book, id: nat, p: Event, destination: MoveState, now: int, pending: set<nat>)
    requires Sound(b, pending) && Reversible(b, id, p) && destination != Posted
    ensures id in b.moves
    ensures var r := EmitPostingReversal(b, id, p, destination, now);
      r.Ok? && CountermandedOnce(b, r.value, id, p, destination, now)
  {
    assert WellFormed(b.Events()) && id in b.moves;
    var c, targets := ReversalContent(id, p, destination, now), LinkTargets(b.links, p.Id());
    var e := ReversalEvent(b, id, p, destination, now);
    hide *;
    ReversalAdmitted(b, id, p, destination, now, pending);
    ReversalShape(b, id, p, destination, now);
    PostingReversalOk(b, id, p, destination, now, pending);
    ReversalRecorded(b, id, p, destination, now);
    var b' := EmitPostingReversal(b, id, p, destination, now).value;
    ReversalCountersIt(b, id, p, destination, now);
    RecordAppends(b, b.moves[id].company, c, e, targets);
    RecordObserves(b, b.moves[id].company, c, targets);
    CountermandedIs(b, b', id, p, destination, now, e);
    OnceIs(b, b', id, p, destination, now, e);
  }

  lemma OnceIs(b: Book, b': Book, id: nat, p: Event, destination: MoveState, now: int, e: Event)
    requires id in b.moves && Countermanded(b, b', id, p, destination, now, e)
    ensures CountermandedOnce(b, b', id, p, destination, now)
  {}

  lemma CountermandedIs(b: Book, b': Book, id: nat, p: Event, destination: MoveState, now: int, e: Event)
    requires id in b.moves && Counters(b, id, p, destination, now, e)
    requires b'.moves == b.moves && b'.currencies == b.currencies && b'.Events() == b.Events() + [e]
    requires b'.links == b.links + LinksTo(e.Id(), LinkTargets(b.links, p.Id()))
    requires ObservedAs(b.ledger, b'.ledger, Observation(IdOf(e), now, "", e.content, Accepted))
    ensures Countermanded(b, b', id, p, destination, now, e)
  {
    CopiedLinks(b.links, p.Id(), e.Id());
    hide LinksTo, Counters, ObservedAs;
  }

  /** A counterevent is refused for anything but a posting of that very document, and for a
   *  document that stays posted; a posting that has one already gets no other. */
  lemma CountereventRefusal(b: Book, id: nat, p: Event, destination: MoveState, now: int)
    requires id in b.moves && WellFormed(b.Events())
    ensures var r := EmitPostingReversal(b, id, p, destination, now);
      var posting := p.content.eventType == InvoicePosted || p.content.eventType == CreditNotePosted;
      var own := p.company == b.moves[id].company && p.content.sourceSystem == "odoo.account"
        && p.content.sourceModel == "account.move" && p.content.sourceResId == id;
      && (!posting || !own || destination == Posted ==> r == Err(InvalidPostingReversal))
      && (posting && own && destination != Posted && p in b.ledger.events && Undone(b.ledger.events, p) ==> r == Ok(b))
  {
    if p in b.Events() && p.content.eventType == InvoicePosted {
      UndoneIffReversed(b.Events(), p, InvoicePostingReversed);
    }
    if p in b.Events() && p.content.eventType == CreditNotePosted {
      UndoneIffReversed(b.Events(), p, CreditNotePostingReversed);
    }
    hide Record, WellFormed, Undone, ReversedBy, Departed;
  }

  /** Unposting a credit releases exactly its share of the budget of the invoice it is linked to. */
  lemma UnpostingReleases(b: Book, b': Book, id: nat, p: Event, destination: MoveState, now: int, e: Event,
                          invoice: nat, company: nat, currency: string)
    requires WellFormed(b.Events()) && WellFormed(b'.Events()) && p in b.Events() && id in b.moves
    requires p.content.eventType == InvoicePosted || p.content.eventType == CreditNotePosted
    requires Countermanded(b, b', id, p, destination, now, e) && !Undone(b.Events(), p)
    ensures OpenNative(b', invoice, company, currency) == OpenNative(b, invoice, company, currency)
      - if Credits(b, p, invoice, company, currency) then p.content.Micros() else 0
  {
    var l, l' := b.Events(), b'.Events();
    var before := (x: Event) => Credits(b, x, invoice, company, currency);
    var after := (x: Event) => Credits(b', x, invoice, company, currency);
    assert l' == l + [e];
    hide Countermanded, Credits, WellFormed;
    forall x | x in l ensures if x == p then !after(x) else after(x) == before(x) {
      CreditStays(b, b', id, p, destination, now, e, x, invoice, company, currency);
    }
    assert !after(e) by { CountereventIsNoCredit(b, b', id, p, destination, now, e, invoice, company, currency); }
    SumAppend(l, e, x => Credits(b', x, invoice, company, currency));
    SumCongruent(l, x => Credits(b', x, invoice, company, currency), after);
    SumCongruent(l, x => Credits(b, x, invoice, company, currency), before);
    if before(p) { SumWithout(l, before, after, p); } else { SumCongruent(l, before, after); }
  }

  lemma CountereventIsNoCredit(b: Book, b': Book, id: nat, p: Event, destination: MoveState, now: int, e: Event,
                               invoice: nat, company: nat, currency: string)
    requires id in b.moves && Countermanded(b, b', id, p, destination, now, e)
    ensures !Credits(b', e, invoice, company, currency)
  {}

  lemma CreditStays(b: Book, b': Book, id: nat, p: Event, destination: MoveState, now: int, e: Event, x: Event,
                    invoice: nat, company: nat, currency: string)
    requires WellFormed(b.Events()) && WellFormed(b'.Events()) && p in b.Events() && x in b.Events() && id in b.moves
    requires p.content.eventType == InvoicePosted || p.content.eventType == CreditNotePosted
    requires Countermanded(b, b', id, p, destination, now, e)
    ensures if x == p then !Credits(b', x, invoice, company, currency)
      else Credits(b', x, invoice, company, currency) == Credits(b, x, invoice, company, currency)
  {
    var l, l' := b.Events(), b'.Events();
    assert e in l' && forall y | y in l :: y in l';
    assert forall y | y in l' :: y in l || y == e;
    EventIsNew(l, e, x);
    if x.Id() == p.Id() { IdsUnique(l, x, p); }
    hide WellFormed, ObservedAs;
  }

  lemma EventIsNew(l: seq<Event>, e: Event, x: Event)
    requires WellFormed(l + [e]) && x in l
    ensures x.Id() != e.Id()
  {
    assert (l + [e])[..|l|] == l;
  }

  // ---------- Unposting documents ----------

  /** The posted invoices and credits among the listed documents, in the order of the list. */
  function Departing(b: Book, ids: seq<nat>): seq<nat>
    requires forall id | id in ids :: id in b.moves
  {
    if ids == [] then []
    else if b.moves[ids[0]].state == Posted && b.moves[ids[0]].terms.moveType != OtherMove
    then [ids[0]] + Departing(b, ids[1..])
    else Departing(b, ids[1..])
  }

  lemma {:induction false} DepartingAppend(b: Book, ids: seq<nat>, id: nat)
    requires forall x | x in ids + [id] :: x in b.moves
    ensures Departing(b, ids + [id]) == Departing(b, ids)
      + if b.moves[id].state == Posted && b.moves[id].terms.moveType != OtherMove then [id] else []
  {
    if ids == [] {
      assert ids + [id] == [id] && [id][1..] == [];
    } else {
      assert (ids + [id])[1..] == ids[1..] + [id] && (ids + [id])[0] == ids[0];
      DepartingAppend(b, ids[1..], id);
    }
  }

  lemma {:induction false} DepartingAreCandidates(b: Book, ids: seq<nat>)
    requires forall id | id in ids :: id in b.moves
    ensures Candidates(b, ids, true) == Departing(b, ids)
  {
    if |ids| > 0 {
      var n := |ids| - 1;
      assert ids == ids[..n] + [ids[n]];
      DepartingAreCandidates(b, ids[..n]);
      DepartingAppend(b, ids[..n], ids[n]);
    }
  }

  /** The postings of several documents, secured one after the other. */
  ghost predicate SecuredEach(ids: seq<nat>, postings: seq<Option<Event>>, books: seq<Book>) {
    && |postings| == |ids| && |books| == |ids| + 1
    && forall k | 0 <= k < |ids| ::
         && Closed(books[k]) && ids[k] in books[k].moves
         && postings[k].Some? && Secured(books[k], books[k + 1], ids[k], postings[k])
  }

  lemma {:induction false} EachSecured(b: Book, ids: seq<nat>) returns (books: seq<Book>)
    requires Consistent(b) && Distinct(ids) && forall id | id in ids :: id in b.moves && PostedOutgoing(b, id)
    requires EnsureEach(b, ids).Ok?
    ensures SecuredEach(ids, EnsureEach(b, ids).value.1, books)
    ensures books[0] == b && books[|ids|] == EnsureEach(b, ids).value.0
  {
    if |ids| == 0 {
      books := [b];
    } else {
      var n := |ids| - 1;
      var prefix, id := ids[..n], ids[n];
      hide *;
      PrefixEnsured(b, ids, n);
      var before := EachSecured(b, prefix);
      var (b1, postings) := EnsureEach(b, prefix).value;
      SecureOutcome(b1, id);
      var (b2, p) := EnsureMoveEvent(b1, id, "imported").value;
      books := before + [b2];
      SecuredLast(b1, ids, n, before, postings, b2, p);
    }
  }

  lemma PrefixEnsured(b: Book, ids: seq<nat>, n: nat)
    requires Consistent(b) && Distinct(ids) && forall id | id in ids :: id in b.moves && PostedOutgoing(b, id)
    requires |ids| == n + 1 && EnsureEach(b, ids).Ok?
    ensures Closed(b) && Distinct(ids[..n]) && forall id | id in ids[..n] :: id in b.moves && PostedOutgoing(b, id)
    ensures EnsureEach(b, ids[..n]).Ok?
    ensures var (b1, postings) := EnsureEach(b, ids[..n]).value;
      && Sound(b1, {}) && Closed(b1) && ids[n] in b1.moves
      && b1.moves[ids[n]].state == Posted && b1.moves[ids[n]].terms.moveType != OtherMove
      && EnsureMoveEvent(b1, ids[n], "imported").Ok?
      && EnsureEach(b, ids).value.0 == EnsureMoveEvent(b1, ids[n], "imported").value.0
      && EnsureEach(b, ids).value.1 == postings + [EnsureMoveEvent(b1, ids[n], "imported").value.1]
  {
    hide *;
    PrefixDeparting(b, ids, n);
    EnsureEachLast(b, ids, n);
    EnsuredSound(b, ids[..n]);
    StillDeparting(b, EnsureEach(b, ids[..n]).value.0, ids[n]);
  }

  lemma PrefixDeparting(b: Book, ids: seq<nat>, n: nat)
    requires Consistent(b) && Distinct(ids) && forall id | id in ids :: id in b.moves && PostedOutgoing(b, id)
    requires |ids| == n + 1
    ensures Closed(b) && Distinct(ids[..n]) && forall id | id in ids[..n] :: id in b.moves && PostedOutgoing(b, id)
  {
    assert forall x | x in ids[..n] :: x in ids;
    hide One, Closed;
  }

  lemma EnsuredSound(b: Book, ids: seq<nat>)
    requires Consistent(b) && Closed(b) && Distinct(ids) && forall id | id in ids ::
      id in b.moves && PostedOutgoing(b, id)
    requires EnsureEach(b, ids).Ok?
    ensures Sound(EnsureEach(b, ids).value.0, {}) && SameDocuments(b, EnsureEach(b, ids).value.0)
  {
    hide Sound, One, TouchedAll, Grows, EnsureEach, FoundPostings, StayOne, SomeBlocked, Closed, SameDocuments;
    EnsureEachOk(b, ids);
  }

  lemma StillDeparting(b: Book, b1: Book, id: nat)
    requires Closed(b) && SameDocuments(b, b1) && id in b.moves && PostedOutgoing(b, id)
    ensures Closed(b1) && id in b1.moves && b1.moves[id].state == Posted && b1.moves[id].terms.moveType != OtherMove
  {}

  lemma EnsureEachLast(b: Book, ids: seq<nat>, n: nat)
    requires Closed(b) && |ids| == n + 1 && (forall id | id in ids :: id in b.moves) && EnsureEach(b, ids).Ok?
    ensures EnsureEach(b, ids[..n]).Ok?
    ensures var (b1, postings) := EnsureEach(b, ids[..n]).value;
      && Closed(b1) && ids[n] in b1.moves && EnsureMoveEvent(b1, ids[n], "imported").Ok?
      && EnsureEach(b, ids).value.0 == EnsureMoveEvent(b1, ids[n], "imported").value.0
      && EnsureEach(b, ids).value.1 == postings + [EnsureMoveEvent(b1, ids[n], "imported").value.1]
  {
    hide EnsureMoveEvent;
  }

  lemma SecuredLast(b1: Book, ids: seq<nat>, n: nat, before: seq<Book>, postings: seq<Option<Event>>, b2: Book,
                    p: Option<Event>)
    requires n == |ids| - 1 && SecuredEach(ids[..n], postings, before) && before[n] == b1
    requires Closed(b1) && ids[n] in b1.moves && b1.moves[ids[n]].state == Posted
      && b1.moves[ids[n]].terms.moveType != OtherMove
    requires Secured(b1, b2, ids[n], p)
    ensures SecuredEach(ids, postings + [p], before + [b2])
    ensures (before + [b2])[0] == before[0] && (before + [b2])[|ids|] == b2
  {
    assert p.Some?;
    hide Secured, Closed;
    forall k | 0 <= k < |ids|
      ensures Closed((before + [b2])[k]) && ids[k] in (before + [b2])[k].moves && (postings + [p])[k].Some?
      ensures Secured((before + [b2])[k], (before + [b2])[k + 1], ids[k], (postings + [p])[k])
    {
      if k < n { assert ids[..n][k] == ids[k]; }
    }
  }

  /** The postings of several documents, each with its counterevent, one after the other. */
  ghost predicate CountermandedEach(ids: seq<nat>, postings: seq<Option<Event>>, destination: MoveState, now: int,
                                    books: seq<Book>) {
    && |postings| == |ids| && |books| == |ids| + 1
    && forall k | 0 <= k < |ids| ::
         ids[k] in books[k].moves && postings[k].Some?
         && CountermandedOnce(books[k], books[k + 1], ids[k], postings[k].value, destination, now)
  }

  lemma CountermandedLast(ids: seq<nat>, n: nat, postings: seq<Option<Event>>, destination: MoveState, now: int,
                          before: seq<Book>, b2: Book)
    requires n == |ids| - 1 && |postings| == |ids|
    requires CountermandedEach(ids[..n], postings[..n], destination, now, before)
    requires ids[n] in before[n].moves && postings[n].Some?
    requires CountermandedOnce(before[n], b2, ids[n], postings[n].value, destination, now)
    ensures CountermandedEach(ids, postings, destination, now, before + [b2])
  {
    hide CountermandedOnce;
    var books := before + [b2];
    forall k | 0 <= k < |ids|
      ensures ids[k] in books[k].moves && postings[k].Some?
      ensures CountermandedOnce(books[k], books[k + 1], ids[k], postings[k].value, destination, now)
    {
      if k < n { assert ids[..n][k] == ids[k] && postings[..n][k] == postings[k]; }
    }
  }

  lemma {:induction false} EachCountermanded(b: Book, ids: seq<nat>, postings: seq<Option<Event>>,
                                             destination: MoveState, now: int, pending: set<nat>)
    returns (books: seq<Book>)
    requires Sound(b, pending) && Distinct(ids) && !destination.Posted?
    requires PostingsOf(b, ids, postings) && forall id | id in ids :: id in b.moves
    ensures ReverseEach(b, ids, postings, destination, now).Ok?
    ensures CountermandedEach(ids, postings, destination, now, books)
    ensures books[0] == b && books[|ids|] == ReverseEach(b, ids, postings, destination, now).value
  {
    hide Sound, EmitPostingReversal, ActivePosting, CountermandedOnce;
    if |ids| == 0 {
      books := [b];
    } else {
      var n := |ids| - 1;
      var prefix, id, p := ids[..n], ids[n], postings[n].value;
      assert ids == prefix + [id] && postings == postings[..n] + [Some(p)];
      var before := EachCountermanded(b, prefix, postings[..n], destination, now, pending);
      ReverseEachOk(b, prefix, postings[..n], destination, now, pending);
      var b1 := ReverseEach(b, prefix, postings[..n], destination, now).value;
      StillReversible(b, b1, ids, postings, pending, n);
      hide CountermandedEach, Reversible, LostExactly, PostingsOf;
      CountereventWritten(b1, id, p, destination, now, pending - ToSet(prefix));
      var b2 := EmitPostingReversal(b1, id, p, destination, now).value;
      assert ReverseEach(b, ids, postings, destination, now) == Ok(b2);
      assert before[n] == b1 && |before| == n + 1 by { LengthOfBooks(prefix, postings[..n], destination, now, before); }
      CountermandedLast(ids, n, postings, destination, now, before, b2);
      books := before + [b2];
    }
  }

  lemma LengthOfBooks(ids: seq<nat>, postings: seq<Option<Event>>, destination: MoveState, now: int, books: seq<Book>)
    requires CountermandedEach(ids, postings, destination, now, books)
    ensures |books| == |ids| + 1
  {}

  /** Every listed document is in its new state, with the terms it got. */
  predicate NowGone(b: Book, b': Book, ids: seq<nat>, destination: MoveState, after: map<nat, Terms>) {
    && b'.ledger == b.ledger && b'.links == b.links && b'.currencies == b.currencies
    && b'.moves.Keys == b.moves.Keys
    && forall id | id in b.moves ::
         var m := b.moves[id];
         b'.moves[id] == if id in ids then Move(m.company, if id in after then after[id]
           else m.terms, destination, m.sequence)
                         else m
  }

  /** Unposting fails exactly when a listed document's posting cannot be secured.  Otherwise the
   *  posting of every posted invoice and credit of the list is secured, then the documents change,
   *  and then each of those postings gets its counterevent; all of it in the order of the list. */
  lemma UnpostOutcome(b: Book, ids: seq<nat>, destination: MoveState, after: map<nat, Terms>, now: int)
    returns (secured: seq<Book>, postings: seq<Option<Event>>, reversed: seq<Book>)
    requires Consistent(b) && Allowed(b, Unpost(ids, destination, after, now))
    ensures Closed(b)
    ensures var r, departing := Apply(b, Unpost(ids, destination, after, now)), Departing(b, ids);
      && (r.Err? <==> exists id | id in ids :: Unsecurable(b, id))
      && (r.Ok? ==>
            && SecuredEach(departing, postings, secured) && secured[0] == b
            && CountermandedEach(departing, postings, destination, now, reversed)
            && NowGone(secured[|departing|], reversed[0], ids, destination, after)
            && r.value == reversed[|departing|])
  {
    assert Closed(b);
    var departing := Departing(b, ids);
    secured, postings, reversed := [], [], [];
    DepartingAreCandidates(b, ids);
    CandidatesDistinct(b, ids, true);
    UnsecurableIffBlocked(b, ids);
    hide Sound, One, Candidates, Departing, CancelsFound, HasActive, CountedOnce, Blocked, Unsecurable;
    Unposting(b, ids, destination, after, now);
    EnsureEachOk(b, departing);
    if EnsureEach(b, departing).Ok? {
      secured := EachSecured(b, departing);
      var b1 := EnsureEach(b, departing).value.0;
      postings := EnsureEach(b, departing).value.1;
      reversed := UnpostBooks(b, b1, departing, postings, ids, destination, after, now);
    }
  }

  lemma UnsecurableIffBlocked(b: Book, ids: seq<nat>)
    requires Sound(b, {}) && Closed(b) && forall id | id in ids :: id in b.moves
    ensures (exists x | x in ids :: Blocked(b, x)) <==> exists x | x in ids :: Unsecurable(b, x)
  {
    assert WellFormed(b.Events());
    hide Sound, Blocked, Unsecurable, WellFormed, Closed;
    forall id | id in ids ensures Blocked(b, id) == Unsecurable(b, id) { BlockedIffUnsecurable(b, id); }
  }

  lemma UnpostBooks(b: Book, b1: Book, cs: seq<nat>, postings: seq<Option<Event>>, ids: seq<nat>,
                    destination: MoveState, after: map<nat, Terms>, now: int)
    returns (reversed: seq<Book>)
    requires Consistent(b1) && SameDocuments(b, b1) && Allowed(b, Unpost(ids, destination, after, now))
    requires cs == Candidates(b, ids, true) && Distinct(cs) && FoundPostings(b1, cs, postings)
    ensures var b2 := NativeUnpost(b1, ToSet(ids), destination, after);
      && (forall id | id in cs :: id in b2.moves)
      && ReverseEach(b2, cs, postings, destination, now).Ok?
      && CountermandedEach(cs, postings, destination, now, reversed)
      && NowGone(b1, reversed[0], ids, destination, after)
      && reversed[|cs|] == ReverseEach(b2, cs, postings, destination, now).value
  {
    var b2 := NativeUnpost(b1, ToSet(ids), destination, after);
    assert forall id | id in after :: TermsOk(b1, after[id]);
    NativeUnpostSound(b1, ids, cs, destination, after);
    FoundIsReversible(b1, b2, cs, postings);
    GoneNow(b1, ids, destination, after);
    hide Sound, Allowed, One, ActivePosting, Candidates, FoundPostings, PostingsOf, ReverseEach, NativeUnpost,
      CountermandedEach;
    reversed := EachCountermanded(b2, cs, postings, destination, now, ToSet(cs));
  }

  lemma GoneNow(b: Book, ids: seq<nat>, destination: MoveState, after: map<nat, Terms>)
    ensures NowGone(b, NativeUnpost(b, ToSet(ids), destination, after), ids, destination, after)
  {}

  lemma NativeBudgetIs(b: Book, b': Book, invoice: nat, company: nat, currency: string)
    requires b.ledger == b'.ledger && b.links == b'.links
    ensures OpenNative(b, invoice, company, currency) == OpenNative(b', invoice, company, currency)
  {
    SumCongruent(b.Events(), e => Credits(b, e, invoice, company, currency),
      e => Credits(b', e, invoice, company, currency));
  }

  /** Once a posted credit with an open posting leaves the posted state, the budget of its invoice
   *  is what it was without that posting. */
  lemma CreditUnposted(b: Book, id: nat, destination: MoveState, after: map<nat, Terms>, now: int,
                       invoice: nat, company: nat, currency: string) returns (p: Event)
    requires Consistent(b) && Allowed(b, Unpost([id], destination, after, now))
    requires b.moves[id].state == Posted && b.moves[id].terms.moveType == OutRefund
    requires exists e | e in b.ledger.events :: OpenPosting(b, e, id, CreditNotePosted)
    ensures LastOpen(b, p, id, CreditNotePosted)
    ensures Closed(b)
    ensures var r := Apply(b, Unpost([id], destination, after, now));
      && r.Ok?
      && OpenNative(r.value, invoice, company, currency) == OpenNative(b, invoice, company, currency)
           - if Credits(b, p, invoice, company, currency) then p.content.Micros() else 0
  {
    assert Closed(b) && WellFormed(b.Events());
    assert [id][0] == id && [id][1..] == [];
    assert Departing(b, [id]) == [id];
    assert !Unsecurable(b, id);
    hide *;
    var secured, postings, reversed := UnpostOutcome(b, [id], destination, after, now);
    Unposting(b, [id], destination, after, now);
    p := OneDeparture(b, id, destination, after, now, secured, postings, reversed, invoice, company, currency);
  }

  lemma OneDeparture(b: Book, id: nat, destination: MoveState, after: map<nat, Terms>, now: int,
                     secured: seq<Book>, postings: seq<Option<Event>>, reversed: seq<Book>,
                     invoice: nat, company: nat, currency: string) returns (p: Event)
    requires Closed(b) && WellFormed(b.Events()) && id in b.moves
    requires b.moves[id].state == Posted && b.moves[id].terms.moveType == OutRefund
    requires exists e | e in b.ledger.events :: OpenPosting(b, e, id, CreditNotePosted)
    requires SecuredEach([id], postings, secured) && secured[0] == b
    requires CountermandedEach([id], postings, destination, now, reversed)
    requires NowGone(secured[1], reversed[0], [id], destination, after)
    requires Consistent(reversed[1])
    ensures LastOpen(b, p, id, CreditNotePosted)
    ensures OpenNative(reversed[1], invoice, company, currency) == OpenNative(b, invoice, company, currency)
      - if Credits(b, p, invoice, company, currency) then p.content.Micros() else 0
  {
    p := postings[0].value;
    var b1, b2 := reversed[0], reversed[1];
    assert WellFormed(b2.Events());
    hide *;
    OneStep(b, id, destination, after, now, secured, postings, reversed);
    NativeBudgetIs(b, b1, invoice, company, currency);
    SameCredits(b, b1, p, invoice, company, currency);
    var e := TheCounterevent(b1, b2, id, p, destination, now);
    UnpostingReleases(b1, b2, id, p, destination, now, e, invoice, company, currency);
  }

  lemma TheCounterevent(b: Book, b': Book, id: nat, p: Event, destination: MoveState, now: int) returns (e: Event)
    requires id in b.moves && CountermandedOnce(b, b', id, p, destination, now)
    ensures Countermanded(b, b', id, p, destination, now, e)
  {
    e :| Countermanded(b, b', id, p, destination, now, e);
  }

  lemma OneStep(b: Book, id: nat, destination: MoveState, after: map<nat, Terms>, now: int,
                secured: seq<Book>, postings: seq<Option<Event>>, reversed: seq<Book>)
    requires Closed(b) && id in b.moves && b.moves[id].state == Posted && b.moves[id].terms.moveType == OutRefund
    requires exists e | e in b.ledger.events :: OpenPosting(b, e, id, CreditNotePosted)
    requires SecuredEach([id], postings, secured) && secured[0] == b
    requires CountermandedEach([id], postings, destination, now, reversed)
    requires NowGone(secured[1], reversed[0], [id], destination, after)
    ensures postings[0].Some? && LastOpen(b, postings[0].value, id, CreditNotePosted)
    ensures id in reversed[0].moves && reversed[0].ledger == b.ledger && reversed[0].links == b.links
    ensures postings[0].value in reversed[0].Events() && !Undone(reversed[0].Events(), postings[0].value)
    ensures postings[0].value.content.eventType == CreditNotePosted
    ensures CountermandedOnce(reversed[0], reversed[1], id, postings[0].value, destination, now)
  {
    hide Closed, CountermandedOnce, Recorded, Undone;
    assert Secured(b, secured[1], id, postings[0]);
  }

  lemma SameCredits(b: Book, b': Book, e: Event, invoice: nat, company: nat, currency: string)
    requires b.ledger == b'.ledger && b.links == b'.links
    ensures Credits(b, e, invoice, company, currency) == Credits(b', e, invoice, company, currency)
  {}

  // ---------- Edits and replays ----------

  predicate PossibleTerms(b: Book, terms: Terms) {
    && terms.currency in b.currencies && |terms.currency| == 3 && (forall c | c in terms.currency :: 'A' <= c <= 'Z')
    && -999_999_999_999_999_999_999 <= terms.untaxedMicros <= 999_999_999_999_999_999_999
    && (terms.reversedEntry == None || terms.reversedEntry.value in b.moves)
  }

  /** Which operations users have: batches and unpostings of existing documents, each listed once,
   *  backfills of existing ones, and possible terms; a posted document keeps its type and the
   *  document it reverses. */
  lemma PossibleOutcome(b: Book, op: MoveOp)
    ensures Allowed(b, op) <==>
      match op
      case PostBatch(ids, _, _) =>
        (forall i | 0 <= i < |ids| :: ids[i] in b.moves) && forall i, j | 0 <= i < j < |ids| :: ids[i] != ids[j]
      case Unpost(ids, destination, after, _) =>
        && (forall i | 0 <= i < |ids| :: ids[i] in b.moves) && (forall i, j | 0 <= i < j < |ids| :: ids[i] != ids[j])
        && (destination == Draft || destination == Cancel)
        && forall id | id in after :: PossibleTerms(b, after[id])
      case Backfill(id) => id in b.moves
      case Edit(id, terms) =>
        && id in b.moves && PossibleTerms(b, terms)
        && (b.moves[id].state == Posted ==>
              terms.moveType == b.moves[id].terms.moveType && terms.reversedEntry == b.moves[id].terms.reversedEntry)
      case Create(id, _, terms) => id >= 1 && id !in b.moves && PossibleTerms(b, terms)
  {
    forall terms: Terms ensures TermsOk(b, terms) <==> PossibleTerms(b, terms) {}
    hide TermsOk, PossibleTerms;
  }

  /** An edit changes the terms of one document, a creation adds one draft; no event is written. */
  lemma EditOutcome(b: Book, op: MoveOp)
    requires Closed(b) && Allowed(b, op) && (op.Edit? || op.Create?)
    ensures var r := Apply(b, op);
      && r.Ok? && r.value.ledger == b.ledger && r.value.links == b.links && r.value.currencies == b.currencies
      && (forall id | id in b.moves && id != op.id :: id in r.value.moves && r.value.moves[id] == b.moves[id])
      && (forall id | id in r.value.moves && id != op.id :: id in b.moves)
      && op.id in r.value.moves
      && r.value.moves[op.id] == if op.Create? then Move(op.company, op.terms, Draft, 0)
           else Move(b.moves[op.id].company, op.terms, b.moves[op.id].state, b.moves[op.id].sequence)
  {}

  /** A step of a history: an operation that is possible and succeeds, or another producer's event
   *  that does not use the adapter's identities and is accepted; anything else changes nothing. */
  lemma StepOutcome(b: Book, step: Step)
    ensures match step
      case Native(op) =>
        Perform(b, step) == if Closed(b) && Allowed(b, op) && Apply(b, op).Ok? then Apply(b, op).value else b
      case Foreign(company, p) =>
        var c := p.content;
        var own := c.sourceSystem == "odoo.account" && (c.sourceModel == "account.move" || !c.key.External?);
        var r := Ingest(b.ledger, company, b.currencies, p);
        Perform(b, step) == if !own && r.Ok? then Book(b.moves, r.value.0, b.links, b.currencies) else b
  {
    hide Apply, Allowed, Ingest, Closed;
  }

  /** A credit emitted again under a key that is stored keeps the stored relation and reason: no
   *  event is added, and what is observed is the document as it is now with that relation. */
  lemma ReplayOutcome(b: Book, id: nat, key: EventKey, at: int, level: string, e: Event)
    requires Closed(b) && WellFormed(b.Events()) && id in b.moves && b.moves[id].state == Posted && Charges(b.moves[id])
    requires e in b.Events() && IdOf(e) == EventRef(b.moves[id].company, "odoo.account", key)
    requires b.moves[b.moves[id].terms.reversedEntry.value].company == b.moves[id].company
    requires EmitMoveEvent(b, id, key, at, level).Ok?
    ensures var r, m := EmitMoveEvent(b, id, key, at, level).value, b.moves[id];
      var c := ReplayContent(m, id, key, at, level, e);
      && r.1 == Some(e) && r.0.ledger.events == b.ledger.events && r.0.moves == b.moves
      && r.0.links == b.links + {MoveLink(IdOf(e), id, SourceDocument),
                                 MoveLink(IdOf(e), m.terms.reversedEntry.value, ReversedInvoice)}
      && ObservedAs(b.ledger, r.0.ledger, Observation(IdOf(e), at, "", c, if c == e.content then Duplicate
        else Conflict))
  {
    hide WellFormed, Closed, Record, EmitMoveEvent, ObservedAs, TargetsOf, LinksTo;
    FindMember(b.Events(), e);
    LinksOfPosting(e, id, b.moves[id].terms);
    var c := ReplayContent(b.moves[id], id, key, at, level, e);
    ReplayIsRecord(b, id, key, at, level, e);
    RecordedAgain(b, b.moves[id].company, c, TargetsOf(id, b.moves[id].terms), e);
  }

  /** The document as it is now, with the relation and the reason that are stored. */
  function ReplayContent(m: Move, id: nat, key: EventKey, at: int, level: string, e: Event): Content {
    var x := e.content.extensions;
    Content(Revenue, CreditNotePosted, "odoo.account", "account.move", id, key, at, level,
      Some(-Size(m.terms.untaxedMicros)), m.terms.currency,
      if e.reverses.Some? then Some(e.reverses.value.key) else None,
      DocumentExtensions(m.terms.details, m.terms.reversedEntry,
        if x.DocumentExtensions? then x.creditReason else if e.reverses.Some? then "linked" else "independent",
        if level == "imported" then "document_date" else "observed_transition", ""))
  }

  lemma ReplayIsRecord(b: Book, id: nat, key: EventKey, at: int, level: string, e: Event)
    requires Closed(b) && id in b.moves && b.moves[id].state == Posted && Charges(b.moves[id])
    requires Find(b.Events(), EventRef(b.moves[id].company, SYSTEM, key)) == Some(e)
    ensures EmitMoveEvent(b, id, key, at, level)
      == if b.moves[b.moves[id].terms.reversedEntry.value].company != b.moves[id].company
        then Err(Rejection.CrossCompany)
         else Record(b, b.moves[id].company, ReplayContent(b.moves[id], id, key, at, level, e),
                TargetsOf(id, b.moves[id].terms))
  {
    hide Closed, Record, TargetsOf, CreditReversalTarget;
  }

  lemma RecordedAgain(b: Book, company: nat, c: Content, targets: set<Target>, e: Event)
    requires Find(b.Events(), EventRef(company, c.sourceSystem, c.key)) == Some(e)
    requires Record(b, company, c, targets).Ok?
    ensures var r := Record(b, company, c, targets).value;
      && r.1 == Some(e) && r.0.ledger.events == b.ledger.events && r.0.moves == b.moves
      && r.0.links == b.links + LinksTo(e.Id(), targets)
      && ObservedAs(b.ledger, r.0.ledger,
           Observation(IdOf(e), c.occurredAt, "", c, if c == e.content then Duplicate else Conflict))
  {
    ObservationOutcome(b.ledger, company, b.currencies, Payload(c, c.occurredAt, ""));
    hide LinksTo, Admit, ValidContent;
  }

  /** Such a replay is refused only across companies, once the content is legible. */
  lemma ReplayRefusal(b: Book, id: nat, key: EventKey, at: int, level: string, e: Event)
    requires Sound(b, {}) && id in b.moves && b.moves[id].state == Posted && Charges(b.moves[id])
    requires e in b.Events() && IdOf(e) == EventRef(b.moves[id].company, "odoo.account", key)
    requires key.MovePosting?
    ensures Closed(b)
    ensures var r := EmitMoveEvent(b, id, key, at, level);
      r.Err? <==> b.moves[b.moves[id].terms.reversedEntry.value].company != b.moves[id].company
  {
    assert Closed(b) && TermsOk(b, b.moves[id].terms) && id > 0 && WellFormed(b.Events());
    hide Sound, Closed, WellFormed, Record, TargetsOf, TermsOk;
    FindMember(b.Events(), e);
    KeyOfTarget(b.Events(), e);
    ReplayIsRecord(b, id, key, at, level, e);
    ReplayLegible(b, id, key, at, level, e);
    RecordedIfLegible(b, b.moves[id].company, ReplayContent(b.moves[id], id, key, at, level, e),
      TargetsOf(id, b.moves[id].terms), e);
  }

  lemma KeyOfTarget(l: seq<Event>, e: Event)
    requires WellFormed(l) && e in l
    ensures e.reverses.Some? ==> e.reverses.value.key != IdOf(e).key
  {
    Members(l, e);
  }

  lemma ReplayLegible(b: Book, id: nat, key: EventKey, at: int, level: string, e: Event)
    requires id in b.moves && id > 0 && TermsOk(b, b.moves[id].terms) && IdOf(e).key == key
    requires e.reverses.Some? ==> e.reverses.value.key != key
    ensures ValidContent(ReplayContent(b.moves[id], id, key, at, level, e))
  {}

  lemma RecordedIfLegible(b: Book, company: nat, c: Content, targets: set<Target>, e: Event)
    requires Find(b.Events(), EventRef(company, c.sourceSystem, c.key)) == Some(e) && ValidContent(c)
    ensures Record(b, company, c, targets).Ok?
  {
    hide ValidContent, LinksTo, Admit;
  }
}
