/** Posting and backfilling documents: the adapter is never refused by the ledger, and what it
 *  emits depends on the order of a batch. */
module AccountingPosting {
  import opened Common
  import opened BusinessEventDto
  import opened Ledger
  import opened LedgerTheorems
  import opened Accounting
  import opened AccountingInvariants

  predicate PostedOutgoing(b: Book, id: nat)
    requires id in b.moves
  {
    b.moves[id].state.Posted? && b.moves[id].Outgoing()
  }

  /** The event is of the type its posted document would be recorded with. */
  predicate MatchesDocument(b: Book, e: Event) {
    && e.content.sourceResId in b.moves && PostedOutgoing(b, e.content.sourceResId)
    && e.Type() == PostingType(b.moves[e.content.sourceResId].terms.moveType)
  }

  /** From b to b' only posting events of touched documents were appended, all still active. */
  ghost predicate Grows(b: Book, b': Book, touched: set<nat>) {
    && SameDocuments(b, b')
    && b.Events() <= b'.Events()
    && b.links <= b'.links
    && (forall e | e in b'.Events() && e !in b.Events() ::
          ActiveMove(b'.Events(), e) && e.content.sourceResId in touched && MatchesDocument(b', e))
    && (forall e | e in b.Events() :: ActivePosting(b'.Events(), e) == ActivePosting(b.Events(), e))
    && (forall id | id in b.moves && id !in touched :: b'.moves[id] == b.moves[id])
  }

  lemma GrowsOn(a: Book, b: Book, c: Book, s: set<nat>, t: set<nat>)
    requires Grows(a, b, s) && Grows(b, c, t)
    ensures Grows(a, c, s + t)
  {
    forall e | e in c.Events() && e !in a.Events()
      ensures ActiveMove(c.Events(), e) && e.content.sourceResId in s + t && MatchesDocument(c, e)
    {
      if e in b.Events() { assert ActiveMove(b.Events(), e) && MatchesDocument(b, e); }
    }
    forall e | e in a.Events() ensures ActivePosting(c.Events(), e) == ActivePosting(a.Events(), e) {
      assert e in b.Events();
    }
  }

  lemma GrowsKeepsActive(b: Book, b': Book, touched: set<nat>, id: nat, t: EventType)
    requires Grows(b, b', touched)
    ensures Has(b, id, t) ==> Has(b', id, t)
    ensures id !in touched ==> Has(b', id, t) == Has(b, id, t)
  {
    if Has(b, id, t) {
      var e :| e in b.Events() && ActiveOf(b.Events(), e, id, t);
      assert e in b'.Events() && ActiveOf(b'.Events(), e, id, t);
    }
    if id !in touched && Has(b', id, t) {
      var e :| e in b'.Events() && ActiveOf(b'.Events(), e, id, t);
      assert e in b.Events() && ActiveOf(b.Events(), e, id, t);
    }
  }

  lemma GrowsKeepsMatch(b: Book, b': Book, touched: set<nat>)
    requires Grows(b, b', touched) && InvoicesMatchDocuments(b, {})
    ensures InvoicesMatchDocuments(b', {})
  {
    forall e | e in b'.Events() && ActiveMove(b'.Events(), e) && e.Type().InvoicePosted?
      ensures e.content.sourceResId in b'.moves
      ensures b'.moves[e.content.sourceResId].state.Posted?
      ensures b'.moves[e.content.sourceResId].terms.moveType.OutInvoice?
    {
      if e in b.Events() { assert ActiveMove(b.Events(), e); } else { assert MatchesDocument(b', e); }
    }
  }

  lemma FreshOn(b: Book, b': Book, touched: set<nat>, company: nat, key: EventKey)
    requires Grows(b, b', touched) && Sound(b', {}) && key.MovePosting? && key.move !in touched
    requires Fresh(b, company, key)
    ensures Fresh(b', company, key)
  {
    forall e | e in b'.Events() ensures e.Id() != EventRef(company, SYSTEM, key) {
      assert EventOk(b', e);
    }
  }

  /** Sequences may advance freely. */
  lemma SequencesAdvance(b: Book, b': Book)
    requires Sound(b, {}) && SameDocuments(b, b') && b'.ledger == b.ledger && b'.links == b.links
    ensures Sound(b', {})
  {
    forall id | id in b'.moves ensures id > 0 && TermsOk(b', b'.moves[id].terms) {
      assert TermsOk(b, b.moves[id].terms);
    }
    forall e | e in b'.Events() ensures EventOk(b', e) { assert EventOk(b, e); }
  }

  lemma NextSequenceSound(b: Book, id: nat, stamp: Option<int>)
    requires Sound(b, {}) && id in b.moves
    ensures var b' := NextSequence(b, id);
      && Sound(b', {}) && Grows(b, b', {id}) && SameDocuments(b, b')
      && Fresh(b', b.moves[id].company, MovePosting(id, stamp, b'.moves[id].sequence))
  {
    var b' := NextSequence(b, id);
    SequencesAdvance(b, b');
    var key := MovePosting(id, stamp, b'.moves[id].sequence);
    forall e | e in b'.Events() ensures e.Id() != EventRef(b.moves[id].company, SYSTEM, key) {
      assert EventOk(b, e);
    }
  }

  lemma ChargedIsLinked(b: Book, t: Event, e: Event)
    requires Sound(b, {}) && t in b.Events() && MoveEvent(t) && e in b.Events() && CreditOf(e, t.Id())
    ensures LinkedCreditEvent(b, e, t.content.sourceResId, t.company, t.content.currency)
  {
    Members(b.Events(), e);
    var o :| o in b.Events() && Edge(e, o);
    IdsUnique(b.Events(), o, t);
    LinkedIffTold(b.Events(), e, Target(t.content.sourceResId, ReversedInvoice));
  }

  lemma LinkedCreditBelow(b: Book, t: Event)
    requires Sound(b, {}) && t in b.Events() && MoveEvent(t)
    ensures LinkedCredit(b, t.content.sourceResId, t.company, t.content.currency) <= ActiveCredit(b.Events(), t.Id())
  {
    var l := b.Events();
    var p := (e: Event) => CreditOf(e, t.Id()) && ActivePosting(l, e);
    var q := (e: Event) => LinkedCreditEvent(b, e, t.content.sourceResId, t.company, t.content.currency)
      && ActivePosting(l, e);
    forall e | e in l ensures p(e) ==> q(e) {
      if p(e) { ChargedIsLinked(b, t, e); }
    }
    forall e | e in l ensures q(e) ==> e.Micros() <= 0 { Members(l, e); }
    SumMonotone(l, p, q);
    assert LinkedCredit(b, t.content.sourceResId, t.company, t.content.currency) == SumIf(l, q);
  }

  /** The native-invoice aggregate dominates the per-posting aggregate the ledger checks. */
  lemma LinkedDominates(b: Book, t: Event, amount: int)
    requires Sound(b, {}) && t in b.Events() && MoveEvent(t) && t.Type().InvoicePosted? && amount <= 0
    ensures Abs(ActiveCredit(b.Events(), t.Id()) + amount)
         <= Abs(LinkedCredit(b, t.content.sourceResId, t.company, t.content.currency) + amount)
  {
    LinkedCreditBelow(b, t);
    ActiveCreditNonPositive(b.Events(), t.Id());
  }

  predicate IsLinkedCredit(b: Book, id: nat)
    requires id in b.moves
  {
    b.moves[id].terms.moveType.OutRefund? && b.moves[id].terms.reversedEntry.Some?
  }

  predicate OriginalPosted(b: Book, id: nat)
    requires Closed(b) && id in b.moves && b.moves[id].terms.reversedEntry.Some?
  {
    var original := b.moves[b.moves[id].terms.reversedEntry.value];
    original.terms.moveType.OutInvoice? && original.state.Posted?
  }

  /** The document whose posting a credit may have to record first. */
  function OriginalOf(b: Book, id: nat): set<nat>
    requires Closed(b) && id in b.moves
  {
    if IsLinkedCredit(b, id) && OriginalPosted(b, id) then {b.moves[id].terms.reversedEntry.value} else {}
  }

  function Touched(b: Book, id: nat): set<nat>
    requires Closed(b) && id in b.moves
  {
    {id} + OriginalOf(b, id)
  }

  predicate CreditsAcrossCompanies(b: Book, id: nat)
    requires Closed(b) && id in b.moves
  {
    var terms := b.moves[id].terms;
    terms.moveType.OutRefund? && terms.reversedEntry.Some?
      && b.moves[terms.reversedEntry.value].company != b.moves[id].company
  }

  /** What an emitted posting event is. */
  ghost predicate Emitted(b: Book, b': Book, id: nat, e: Event)
    requires id in b.moves
  {
    && e in b'.Events() && ActiveMove(b'.Events(), e) && e.content.sourceResId == id
    && b.moves[id].Outgoing() && e.Type() == PostingType(b.moves[id].terms.moveType)
  }

  /** b' is b with one more active posting event of document id. */
  ghost predicate OneMore(b: Book, b': Book, id: nat, e: Event) {
    && b'.Events() == b.Events() + [e] && e !in b.Events()
    && b'.moves == b.moves && b'.currencies == b.currencies && b.links <= b'.links
    && ActiveMove(b'.Events(), e) && e.content.sourceResId == id && MatchesDocument(b', e)
    && (forall x | x in b.Events() :: ActivePosting(b'.Events(), x) == ActivePosting(b.Events(), x))
  }

  lemma AppendedIsOneMore(b: Book, b': Book, id: nat, c: Content, target: Option<Event>)
    requires Appended(b, b', id, c, target)
    ensures OneMore(b, b', id, PostingEvent(b, id, c, target))
    ensures Emitted(b, b', id, PostingEvent(b, id, c, target))
  {}

  /** Emitting a posting of document id counts no document twice that was not counted before. */
  ghost predicate KeepsOne(b: Book, b': Book, id: nat)
    requires id in b.moves && b.moves[id].Outgoing()
  {
    forall t :: One(b, t) && (t == PostingType(b.moves[id].terms.moveType) ==> !Has(b, id, t)) ==> One(b', t)
  }

  ghost predicate StayOne(b: Book, b': Book) {
    forall t :: One(b, t) ==> One(b', t)
  }

  lemma OneMoreGrows(b: Book, b': Book, id: nat, e: Event)
    requires OneMore(b, b', id, e)
    ensures Grows(b, b', {id}) && id in b.moves && b.moves[id].Outgoing() && KeepsOne(b, b', id)
  {
    forall t | One(b, t) && (t == PostingType(b.moves[id].terms.moveType) ==> !Has(b, id, t)) ensures One(b', t) {
      OneMoreKeepsOne(b, b', id, e, t);
    }
  }

  lemma OneMoreKeepsOne(b: Book, b': Book, id: nat, e: Event, t: EventType)
    requires OneMore(b, b', id, e) && One(b, t) && (e.Type() == t ==> !Has(b, id, t))
    ensures One(b', t)
  {
    forall y, x | y in b'.Events() && x in b'.Events() && ActiveOf(b'.Events(), y, y.content.sourceResId, t)
      && ActiveOf(b'.Events(), x, y.content.sourceResId, t)
      ensures y == x
    {
      if y in b.Events() { assert ActiveOf(b.Events(), y, y.content.sourceResId, t); }
      if x in b.Events() { assert ActiveOf(b.Events(), x, y.content.sourceResId, t); }
    }
  }

  ghost predicate EmitReady(b: Book, id: nat, key: EventKey) {
    && Sound(b, {}) && id in b.moves && b.moves[id].state.Posted? && b.moves[id].Outgoing()
    && key.MovePosting? && key.move == id && key.sequence <= b.moves[id].sequence
    && Fresh(b, b.moves[id].company, key)
  }

  /** What looking for a credit's target leaves behind, and what a found target satisfies. */
  ghost predicate TargetOf(b: Book, b': Book, id: nat, target: Option<Event>)
    requires Closed(b) && id in b.moves && IsLinkedCredit(b, id)
  {
    && Sound(b', {}) && Grows(b, b', OriginalOf(b, id))
    && StayOne(b, b')
    && (if OriginalPosted(b, id) then Has(b', b.moves[id].terms.reversedEntry.value, InvoicePosted) else b' == b)
    && (target.Some? ==> Chargeable(b', id, target.value, Amount(b.moves[id].terms)))
  }

  lemma TargetOk(b: Book, id: nat)
    requires Sound(b, {}) && id in b.moves && IsLinkedCredit(b, id) && !CreditsAcrossCompanies(b, id)
    ensures var r := CreditReversalTarget(b, id, Amount(b.moves[id].terms));
      r.Ok? && TargetOf(b, r.value.0, id, r.value.1) && (r.value.1.Some? <==> r.value.2 == Linked)
    decreases Rank(b, id), 0
  {
    assert Closed(b);
    if OriginalPosted(b, id) {
      var originalId := b.moves[id].terms.reversedEntry.value;
      EnsureOk(b, originalId, "imported");
      hide Sound, One, Has, EnsuredOf, EnsureMoveEvent, TargetOf;
      var r := EnsureMoveEvent(b, originalId, "imported").value;
      PostedTarget(b, id, r.0, r.1);
    } else {
      GrowsNothing(b, OriginalOf(b, id));
    }
  }

  lemma PostedTarget(b: Book, id: nat, b': Book, ensured: Option<Event>)
    requires Closed(b) && id in b.moves && IsLinkedCredit(b, id) && !CreditsAcrossCompanies(b, id)
      && OriginalPosted(b, id)
    requires EnsureMoveEvent(b, b.moves[id].terms.reversedEntry.value, "imported") == Ok((b', ensured))
    requires EnsuredOf(b, b', b.moves[id].terms.reversedEntry.value, ensured)
    ensures var r := CreditReversalTarget(b, id, Amount(b.moves[id].terms));
      r.Ok? && TargetOf(b, r.value.0, id, r.value.1) && (r.value.1.Some? <==> r.value.2 == Linked)
  {
    hide Sound, One, Has, Grows, Chargeable, LinkedCredit, EnsureMoveEvent, Emitted;
    assert OriginalOf(b, id) == Touched(b, b.moves[id].terms.reversedEntry.value);
    var r := CreditReversalTarget(b, id, Amount(b.moves[id].terms));
    assert r.Ok? && r.value.0 == b';
    if r.value.1.Some? {
      EnsuredIsChargeable(b, b', id, ensured.value);
    }
  }

  /** An ensured invoice posting within the native budget is one the credit may be charged to. */
  lemma EnsuredIsChargeable(b: Book, b': Book, id: nat, t: Event)
    requires Closed(b) && id in b.moves && IsLinkedCredit(b, id) && OriginalPosted(b, id)
      && !CreditsAcrossCompanies(b, id)
    requires Sound(b', {}) && SameDocuments(b, b') && Emitted(b, b', b.moves[id].terms.reversedEntry.value, t)
    requires t.content.currency == b.moves[id].terms.currency
    requires Abs(LinkedCredit(b', b.moves[id].terms.reversedEntry.value, b.moves[id].company, t.content.currency)
      + Amount(b.moves[id].terms)) <= Abs(t.Micros())
    ensures Chargeable(b', id, t, Amount(b.moves[id].terms))
  {
    assert EventOk(b', t);
    LinkedDominates(b', t, Amount(b.moves[id].terms));
  }

  function CreditContent(b: Book, id: nat, key: EventKey, occurredAt: int, level: string, target: Option<Event>,
                         reason: CreditReason): Content
    requires id in b.moves && b.moves[id].Outgoing()
  {
    PostingContent(b, id, key, occurredAt, level,
      if target.Some? then Some(target.value.content.key) else None, ReasonText(reason))
  }

  /** Whenever the adapter reports a target as linked, the ledger accepts that very credit. */
  lemma LinkedIsAccepted(b: Book, id: nat, key: EventKey, occurredAt: int, level: string)
    requires EmitReady(b, id, key) && IsLinkedCredit(b, id) && !CreditsAcrossCompanies(b, id)
    ensures var r := CreditReversalTarget(b, id, Amount(b.moves[id].terms));
      && r.Ok?
      && (r.value.1.Some? <==> r.value.2 == Linked)
      && TargetOf(b, r.value.0, id, r.value.1)
      && CreditAccepted(r.value.0, id, key, occurredAt, level, r.value.1, r.value.2)
    decreases Rank(b, id), 1
  {
    TargetOk(b, id);
    hide *;
    var r := CreditReversalTarget(b, id, Amount(b.moves[id].terms)).value;
    TargetAccepted(b, r.0, id, key, occurredAt, level, r.1, r.2);
  }

  ghost predicate CreditAccepted(b: Book, id: nat, key: EventKey, occurredAt: int, level: string, target: Option<Event>,
                                 reason: CreditReason) {
    && id in b.moves && b.moves[id].Outgoing()
    && var c := CreditContent(b, id, key, occurredAt, level, target, reason);
       PostingReady(b, id, c, target) && Admit(b.Events(), b.moves[id].company, b.currencies, c).Ok?
  }

  lemma TargetAccepted(b: Book, b': Book, id: nat, key: EventKey, occurredAt: int, level: string, target: Option<Event>,
                       reason: CreditReason)
    requires EmitReady(b, id, key) && IsLinkedCredit(b, id) && TargetOf(b, b', id, target)
    ensures CreditAccepted(b', id, key, occurredAt, level, target, reason)
  {
    if OriginalPosted(b, id) {
      FreshOn(b, b', OriginalOf(b, id), b.moves[id].company, key);
    }
    hide Sound, Chargeable;
    CreditIsReady(b, b', id, key, occurredAt, level, target, reason);
    PostingAdmitted(b', id, CreditContent(b', id, key, occurredAt, level, target, reason), target);
  }

  lemma CreditIsReady(b: Book, b': Book, id: nat, key: EventKey, occurredAt: int, level: string, target: Option<Event>,
                      reason: CreditReason)
    requires EmitReady(b, id, key) && SameDocuments(b, b') && Fresh(b', b.moves[id].company, key)
    requires target.Some? ==> Chargeable(b', id, target.value, Amount(b.moves[id].terms))
    ensures PostingReady(b', id, CreditContent(b', id, key, occurredAt, level, target, reason), target)
  {}

  /** What a successful emission from b to b' guarantees. */
  ghost predicate EmissionOf(b: Book, b': Book, id: nat, e: Event)
    requires Closed(b) && id in b.moves && b.moves[id].Outgoing()
  {
    && Sound(b', {}) && Grows(b, b', Touched(b, id))
    && Emitted(b, b', id, e) && e !in b.Events()
    && KeepsOne(b, b', id)
    && (IsLinkedCredit(b, id) && OriginalPosted(b, id) ==>
          Has(b', b.moves[id].terms.reversedEntry.value, InvoicePosted))
  }

  lemma EmitCreditOk(b: Book, id: nat, key: EventKey, occurredAt: int, level: string)
    requires EmitReady(b, id, key) && IsLinkedCredit(b, id) && !CreditsAcrossCompanies(b, id)
    ensures var r := EmitMoveEvent(b, id, key, occurredAt, level);
      r.Ok? && r.value.1.Some? && EmissionOf(b, r.value.0, id, r.value.1.value)
    decreases Rank(b, id), 2
  {
    var move := b.moves[id];
    assert Find(b.Events(), EventRef(move.company, SYSTEM, key)).None?;
    LinkedIsAccepted(b, id, key, occurredAt, level);
    var (b1, target, reason) := CreditReversalTarget(b, id, Amount(move.terms)).value;
    var c := CreditContent(b1, id, key, occurredAt, level, target, reason);
    assert EmitMoveEvent(b, id, key, occurredAt, level) == Record(b1, move.company, c, TargetsOf(id, move.terms));
    RecordPosting(b1, id, c, target);
    var b2 := Record(b1, move.company, c, TargetsOf(id, move.terms)).value.0;
    AppendedIsOneMore(b1, b2, id, c, target);
    CreditEmission(b, b1, b2, id, PostingEvent(b1, id, c, target), target);
  }

  lemma CreditEmission(b: Book, b1: Book, b2: Book, id: nat, e: Event, target: Option<Event>)
    requires Closed(b) && id in b.moves && IsLinkedCredit(b, id) && TargetOf(b, b1, id, target)
    requires OneMore(b1, b2, id, e) && Emitted(b1, b2, id, e) && Sound(b2, {})
    ensures EmissionOf(b, b2, id, e)
  {
    hide Sound, One, Has;
    var links := OriginalOf(b, id);
    OneMoreGrows(b1, b2, id, e);
    GrowsOn(b, b1, b2, links, {id});
    assert links + {id} == Touched(b, id);
    GrowsKeepsActive(b1, b2, {id}, b.moves[id].terms.reversedEntry.value, InvoicePosted);
    GrowsKeepsActive(b, b1, links, id, CreditNotePosted);
  }

  /** Emitting a posting under a fresh key always succeeds, except across companies. */
  lemma EmitOk(b: Book, id: nat, key: EventKey, occurredAt: int, level: string)
    requires EmitReady(b, id, key)
    ensures var r := EmitMoveEvent(b, id, key, occurredAt, level);
      if CreditsAcrossCompanies(b, id) then r == Err(Rejection.CrossCompany)
      else r.Ok? && r.value.1.Some? && EmissionOf(b, r.value.0, id, r.value.1.value)
    decreases Rank(b, id), 3
  {
    if IsLinkedCredit(b, id) {
      assert Find(b.Events(), EventRef(b.moves[id].company, SYSTEM, key)).None?;
      if !CreditsAcrossCompanies(b, id) { EmitCreditOk(b, id, key, occurredAt, level); }
    } else {
      var c := PostingContent(b, id, key, occurredAt, level, None, "");
      RecordPosting(b, id, c, None);
      var b' := EmitMoveEvent(b, id, key, occurredAt, level).value.0;
      AppendedIsOneMore(b, b', id, c, None);
      OneMoreGrows(b, b', id, PostingEvent(b, id, c, None));
    }
  }

  /** In a sound book every event is linked to its document already. */
  lemma SourcesLinked(b: Book, id: nat)
    requires Sound(b, {}) && id in b.moves
    ensures LinkSources(b, id) == b
  {
    assert LinksTold(b);
    hide Sound;
    forall e | e in b.Events() && MoveEvent(e) && e.content.sourceResId == id
      ensures MoveLink(e.Id(), id, SourceDocument) in b.links
    {
      assert Target(id, SourceDocument) in Told(e);
    }
    assert LinkSources(b, id).links == b.links;
  }

  /** What a successful search for, or emission of, a document's posting guarantees. */
  ghost predicate EnsuredOf(b: Book, b': Book, id: nat, e: Option<Event>)
    requires Closed(b) && id in b.moves
  {
    && Sound(b', {}) && Grows(b, b', Touched(b, id))
    && StayOne(b, b')
    && (if PostedOutgoing(b, id)
        then e.Some? && Emitted(b, b', id, e.value) && Has(b', id, PostingType(b.moves[id].terms.moveType))
        else e.None? && b' == b)
  }

  /** A credit of another company's document blocks the emission it would need. */
  ghost predicate Blocked(b: Book, id: nat)
    requires Closed(b) && id in b.moves
  {
    b.moves[id].state.Posted? && CreditsAcrossCompanies(b, id) && ActivePostingOf(b, id).None?
  }

  lemma GrowsNothing(b: Book, touched: set<nat>)
    ensures Grows(b, b, touched)
  {}

  lemma FoundIsEnsured(b: Book, id: nat)
    requires Sound(b, {}) && id in b.moves && PostedOutgoing(b, id) && ActivePostingOf(b, id).Some?
    ensures EnsuredOf(b, b, id, ActivePostingOf(b, id))
  {
    assert Closed(b);
    hide Sound, One;
    GrowsNothing(b, Touched(b, id));
    var e := ActivePostingOf(b, id).value;
    assert ActiveOf(b.Events(), e, id, PostingType(b.moves[id].terms.moveType));
  }

  lemma EmissionIsEnsured(b: Book, b1: Book, b2: Book, id: nat, e: Event)
    requires Sound(b, {}) && id in b.moves && PostedOutgoing(b, id)
    requires !Has(b, id, PostingType(b.moves[id].terms.moveType))
    requires b1 == NextSequence(b, id) && Closed(b1) && Grows(b, b1, {id}) && EmissionOf(b1, b2, id, e)
    ensures EnsuredOf(b, b2, id, Some(e))
  {
    hide Sound;
    GrowsOn(b, b1, b2, {id}, Touched(b, id));
    assert {id} + Touched(b, id) == Touched(b, id);
    SameLedgerCounts(b, b1);
    var t := PostingType(b.moves[id].terms.moveType);
    assert ActiveOf(b2.Events(), e, id, t);
    hide One, Has, Grows;
    assert Has(b2, id, t) by { HasWitness(b2, e, id, t); }
  }

  lemma HasWitness(b: Book, e: Event, id: nat, t: EventType)
    requires e in b.Events() && ActiveOf(b.Events(), e, id, t)
    ensures Has(b, id, t)
  {}

  lemma SameLedgerCounts(b: Book, b': Book)
    requires b.ledger == b'.ledger
    ensures forall t :: One(b, t) == One(b', t)
    ensures forall id, t :: Has(b, id, t) == Has(b', id, t)
  {
    assert b.Events() == b'.Events();
    forall t ensures One(b, t) == One(b', t) {}
    forall id, t ensures Has(b, id, t) == Has(b', id, t) {}
  }

  lemma EnsureOk(b: Book, id: nat, level: string)
    requires Sound(b, {}) && id in b.moves
    ensures var r := EnsureMoveEvent(b, id, level);
      if Blocked(b, id) then r == Err(Rejection.CrossCompany) else r.Ok? && EnsuredOf(b, r.value.0, id, r.value.1)
    decreases Rank(b, id), 4
  {
    assert Closed(b);
    SourcesLinked(b, id);
    if PostedOutgoing(b, id) {
      ActiveIsFound(b, id);
      if ActivePostingOf(b, id).Some? {
        FoundIsEnsured(b, id);
      } else {
        var stamp := Some(b.moves[id].terms.documentDate);
        var b1 := NextSequence(b, id);
        NextSequenceSound(b, id, stamp);
        EmitOk(b1, id, MovePosting(id, stamp, b1.moves[id].sequence), stamp.value, level);
        hide Sound, One, Has, Grows, EmissionOf, EnsuredOf;
        if !CreditsAcrossCompanies(b, id) {
          var (b2, e) := EnsureMoveEvent(b, id, level).value;
          EmissionIsEnsured(b, b1, b2, id, e.value);
        }
      }
    } else {
      GrowsNothing(b, Touched(b, id));
    }
  }

  /** On any document the adapter finds an active posting of its type exactly when there is one. */
  lemma ActiveIsFound(b: Book, id: nat)
    requires id in b.moves && b.moves[id].Outgoing()
    ensures ActivePostingOf(b, id).Some? <==> Has(b, id, PostingType(b.moves[id].terms.moveType))
  {
    var t := PostingType(b.moves[id].terms.moveType);
    if Has(b, id, t) {
      var e :| e in b.Events() && ActiveOf(b.Events(), e, id, t);
      assert ActiveFor(b.Events(), e, id, t);
    }
    if ActivePostingOf(b, id).Some? { assert ActiveOf(b.Events(), ActivePostingOf(b, id).value, id, t); }
  }
}
