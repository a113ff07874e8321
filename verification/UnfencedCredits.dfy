/** Why the row fence matters: two credits posted concurrently on one snapshot would each fit the
 *  invoice posting and together exceed it, if both could commit. */
module UnfencedCredits {
  import opened Common
  import opened BusinessEventDto
  import opened Ledger
  import opened LedgerTheorems
  import opened Accounting
  import opened AccountingInvariants
  import opened AccountingPosting
  import opened AccountingTheorems
  import opened AccountingHistory
  import opened AccountingFrames
  import opened Concurrency

  /** A draft credit that fits t, the active posting the adapter finds for the invoice it reverses. */
  ghost predicate FittingCredit(b: Book, id: nat, t: Event) {
    && id in b.moves && b.moves[id].state.Draft? && IsLinkedCredit(b, id)
    && b.moves[id].terms.reversedEntry == Some(t.content.sourceResId)
    && t.content.sourceResId in b.moves && b.moves[t.content.sourceResId].state.Posted?
    && b.moves[t.content.sourceResId].terms.moveType.OutInvoice?
    && ActivePostingOf(b, t.content.sourceResId) == Some(t)
    && t.company == b.moves[id].company && t.content.currency == b.moves[id].terms.currency
    && Abs(LinkedCredit(b, t.content.sourceResId, t.company, t.content.currency) + Amount(b.moves[id].terms))
      <= Abs(t.Micros())
  }

  /** The book once the document itself is posted, before its event. */
  function Ready(b: Book, id: nat): Book
    requires id in b.moves
  {
    NextSequence(NativePost(b, {id}), id)
  }

  function CreditEvent(b: Book, id: nat, t: Event, now: int): Event
    requires id in b.moves && b.moves[id].Outgoing()
  {
    var r := Ready(b, id);
    PostingEvent(r, id, CreditContent(r, id, MovePosting(id, None, r.moves[id].sequence), now, "first_party", Some(t),
      Linked), Some(t))
  }

  lemma ReadySound(b: Book, id: nat, t: Event)
    requires Consistent(b) && FittingCredit(b, id, t)
    ensures var r := Ready(b, id);
      && Sound(r, {}) && FittingPosted(r, id, t) && r.Events() == b.Events() && r.links == b.links
      && EmitReady(r, id, MovePosting(id, None, r.moves[id].sequence))
  {
    hide Sound, One, InvoicesMatchDocuments, LinkedCredit, Fresh, Grows, ActivePosting, ActivePostingOf;
    var posted := NativePost(b, {id});
    NativePostSound(b, {id});
    NextSequenceSound(posted, id, None);
    SameAggregate(b, Ready(b, id), t);
    SameFound(b, Ready(b, id), t.content.sourceResId);
    InvoiceCompany(b, t);
    assert SameDocuments(posted, Ready(b, id));
  }

  lemma InvoiceCompany(b: Book, t: Event)
    requires Sound(b, {}) && t in b.Events() && MoveEvent(t)
    ensures t.content.sourceResId in b.moves && t.company == b.moves[t.content.sourceResId].company
  {
    assert EventOk(b, t);
  }

  lemma SameFound(b: Book, b': Book, id: nat)
    requires b'.ledger == b.ledger && id in b.moves && id in b'.moves
    requires b.moves[id].Outgoing() && b'.moves[id].terms == b.moves[id].terms
    ensures ActivePostingOf(b', id) == ActivePostingOf(b, id)
  {
    var t := PostingType(b.moves[id].terms.moveType);
    LatestCongruent(b.Events(), e => ActiveFor(b.Events(), e, id, t), e => ActiveFor(b'.Events(), e, id, t));
  }

  lemma SameAggregate(b: Book, b': Book, t: Event)
    requires b'.ledger == b.ledger && b'.links == b.links
    ensures LinkedCredit(b', t.content.sourceResId, t.company, t.content.currency)
      == LinkedCredit(b, t.content.sourceResId, t.company, t.content.currency)
  {
    hide ActivePosting;
    SumCongruent(b.Events(),
      e => LinkedCreditEvent(b', e, t.content.sourceResId, t.company, t.content.currency)
        && ActivePosting(b'.Events(), e),
      e => LinkedCreditEvent(b, e, t.content.sourceResId, t.company, t.content.currency)
        && ActivePosting(b.Events(), e));
  }

  /** The same credit once its document is posted. */
  ghost predicate FittingPosted(b: Book, id: nat, t: Event) {
    && id in b.moves && b.moves[id].state.Posted? && IsLinkedCredit(b, id)
    && b.moves[id].terms.reversedEntry == Some(t.content.sourceResId)
    && t.content.sourceResId in b.moves && b.moves[t.content.sourceResId].state.Posted?
    && b.moves[t.content.sourceResId].terms.moveType.OutInvoice?
    && ActivePostingOf(b, t.content.sourceResId) == Some(t)
    && t.company == b.moves[id].company && t.content.currency == b.moves[id].terms.currency
    && b.moves[t.content.sourceResId].company == b.moves[id].company
    && Abs(LinkedCredit(b, t.content.sourceResId, t.company, t.content.currency) + Amount(b.moves[id].terms))
      <= Abs(t.Micros())
  }

  lemma TargetIsPosting(b: Book, id: nat, t: Event)
    requires Sound(b, {}) && FittingPosted(b, id, t)
    ensures Closed(b) && CreditReversalTarget(b, id, Amount(b.moves[id].terms)) == Ok((b, Some(t), Linked))
  {
    hide ActivePostingOf;
    assert Closed(b);
    SourcesLinked(b, t.content.sourceResId);
    hide Sound;
    assert EnsureMoveEvent(b, t.content.sourceResId, "imported") == Ok((b, Some(t)));
    hide EnsureMoveEvent, LinkedCredit;
  }

  /** A fitting credit is charged to the posting, as one event after all the others. */
  lemma PostingCharges(b: Book, id: nat, t: Event, now: int)
    requires Consistent(b) && FittingCredit(b, id, t) && Closed(b)
    ensures Allowed(b, PostBatch([id], {}, now)) && Apply(b, PostBatch([id], {}, now)).Ok?
    ensures Apply(b, PostBatch([id], {}, now)).value.Events() == b.Events() + [CreditEvent(b, id, t, now)]
    ensures Extends(b.Events(), CreditEvent(b, id, t, now))
  {
    var r := Ready(b, id);
    var key := MovePosting(id, None, r.moves[id].sequence);
    ReadySound(b, id, t);
    TargetIsPosting(r, id, t);
    hide Sound, FittingPosted, CreditReversalTarget, FittingCredit;
    var c := CreditContent(r, id, key, now, "first_party", Some(t), Linked);
    assert !CreditsAcrossCompanies(r, id) by { SameCompany(r, id, t); }
    LinkedIsAccepted(r, id, key, now, "first_party");
    RecordPosting(r, id, c, Some(t));
    EmissionCharges(r, id, key, now, t);
    var r' := Record(r, r.moves[id].company, c, TargetsOf(id, r.moves[id].terms)).value.0;
    hide Record, EmitMoveEvent;
    BatchOfOne(b, id, now, r');
  }

  lemma SameCompany(b: Book, id: nat, t: Event)
    requires FittingPosted(b, id, t) && Closed(b)
    ensures !CreditsAcrossCompanies(b, id)
  {}

  lemma EmissionCharges(b: Book, id: nat, key: EventKey, now: int, t: Event)
    requires EmitReady(b, id, key) && IsLinkedCredit(b, id) && Closed(b)
    requires CreditReversalTarget(b, id, Amount(b.moves[id].terms)) == Ok((b, Some(t), Linked))
    ensures EmitMoveEvent(b, id, key, now, "first_party")
      == Record(b, b.moves[id].company, CreditContent(b, id, key, now, "first_party", Some(t), Linked),
        TargetsOf(id, b.moves[id].terms))
  {
    assert Find(b.Events(), EventRef(b.moves[id].company, SYSTEM, key)).None?;
    hide Sound, Record, CreditReversalTarget, Fresh;
  }

  lemma BatchOfOne(b: Book, id: nat, now: int, after: Book)
    requires Closed(b) && id in b.moves && b.moves[id].state.Draft? && b.moves[id].Outgoing() && Closed(Ready(b, id))
    requires var r := Ready(b, id);
      var e := EmitMoveEvent(r, id, MovePosting(id, None, r.moves[id].sequence), now, "first_party");
      e.Ok? && e.value.0 == after
    ensures Allowed(b, PostBatch([id], {}, now)) && Apply(b, PostBatch([id], {}, now)) == Ok(after)
  {
    hide EmitMoveEvent, NextSequence, NativePost, PostOne;
    var posted := NativePost(b, {id});
    OneCandidate(b, id);
    assert ToSet([id]) - {} == {id};
    SinglePosting(b, posted, id, now, after);
    assert [id][..0] == [];
    assert PostEach(posted, [], now) == Ok(posted);
  }

  lemma OneCandidate(b: Book, id: nat)
    requires id in b.moves && b.moves[id].state.Draft? && b.moves[id].Outgoing()
    ensures Candidates(b, [id], false) == [id]
  {
    assert [id][..0] == [];
  }

  lemma SinglePosting(b: Book, posted: Book, id: nat, now: int, after: Book)
    requires id in b.moves && posted == NativePost(b, {id}) && Closed(b) && Closed(Ready(b, id))
    requires var r := Ready(b, id);
      var e := EmitMoveEvent(r, id, MovePosting(id, None, r.moves[id].sequence), now, "first_party");
      e.Ok? && e.value.0 == after
    ensures Closed(posted) && id in posted.moves && PostOne(posted, id, now) == Ok(after)
  {
    hide EmitMoveEvent;
  }

  /** Two transactions that each posted one credit on the same snapshot. */
  function Unfenced(b: Book, id: nat, now: int): Txn
    requires Closed(b) && Allowed(b, PostBatch([id], {}, now)) && Apply(b, PostBatch([id], {}, now)).Ok?
  {
    Txn(b, map[], Apply(b, PostBatch([id], {}, now)).value, [PostBatch([id], {}, now)], {id})
  }

  lemma CreditsAddUp(l: seq<Event>, t: Event, e1: Event, e2: Event)
    requires WellFormed(l) && t in l && t.Type().InvoicePosted? && Extends(l, e1) && Extends(l, e2)
      && e1.Id() != e2.Id()
    requires e1.Type().CreditNotePosted? && e2.Type().CreditNotePosted? && e1.root == e2.root == Some(t.Id())
    ensures ActiveCredit(l + [e1] + [e2], t.Id()) == ActiveCredit(l, t.Id()) + e1.Micros() + e2.Micros()
  {
    WellFormedAppend(l, e1);
    CreditStep(l, e1, t);
    assert forall x | x in l + [e1] :: x in l || x == e1;
    assert Extends(l + [e1], e2) by {
      var o :| o in l && Edge(e2, o);
      assert o in l + [e1];
    }
    CreditStep(l + [e1], e2, t);
  }

  /** If two such transactions could both commit, as they could without updating the invoice's
   *  row, two credits that each fit would together exceed the invoice posting. */
  lemma OverdrawnWithoutFence(b: Book, t: Event, x: nat, y: nat, now: int)
    requires Consistent(b) && Closed(b) && FittingCredit(b, x, t) && FittingCredit(b, y, t) && x != y
    requires Abs(ActiveCredit(b.Events(), t.Id()) + Amount(b.moves[x].terms)
      + Amount(b.moves[y].terms)) > Abs(t.Micros())
    ensures Allowed(b, PostBatch([x], {}, now)) && Apply(b, PostBatch([x], {}, now)).Ok?
    ensures Allowed(b, PostBatch([y], {}, now)) && Apply(b, PostBatch([y], {}, now)).Ok?
    ensures !WithinBudget(Merge(Merge(b, Unfenced(b, x, now)), Unfenced(b, y, now)).Events())
  {
    hide Consistent, FittingCredit, Apply, CreditEvent, WellFormed, Extends, WithinBudget, ActiveCredit, Amount,
      Allowed, Merge;
    PostingFacts(b, x, t);
    FittingMove(b, x, t);
    FittingMove(b, y, t);
    CreditShape(b, x, t, now);
    CreditShape(b, y, t, now);
    PostingCharges(b, x, t, now);
    PostingCharges(b, y, t, now);
    var l, e1, e2 := b.Events(), CreditEvent(b, x, t, now), CreditEvent(b, y, t, now);
    assert e1.Id() != e2.Id();
    CreditsAddUp(l, t, e1, e2);
    var once := Merge(b, Unfenced(b, x, now));
    MergeAppends(b, Unfenced(b, x, now), e1);
    MergeAppends(once, Unfenced(b, y, now), e2);
    Overdrawn(l + [e1] + [e2], t);
  }

  lemma FittingMove(b: Book, id: nat, t: Event)
    requires FittingCredit(b, id, t)
    ensures id in b.moves && b.moves[id].Outgoing()
  {}

  lemma PostingFacts(b: Book, id: nat, t: Event)
    requires Consistent(b) && FittingCredit(b, id, t)
    ensures WellFormed(b.Events()) && t in b.Events() && t.Type().InvoicePosted? && t.root.None?
  {
    Members(b.Events(), t);
    hide Sound, One, LinkedCredit;
  }

  lemma MergeAppends(c: Book, x: Txn, e: Event)
    requires x.view.Events() == x.snapshot.Events() + [e]
    ensures Merge(c, x).Events() == c.Events() + [e]
  {}

  lemma Overdrawn(l: seq<Event>, t: Event)
    requires t in l && t.Type().InvoicePosted? && Abs(ActiveCredit(l, t.Id())) > Abs(t.Micros())
    ensures !WithinBudget(l)
  {}

  lemma CreditShape(b: Book, id: nat, t: Event, now: int)
    requires FittingCredit(b, id, t) && t.root.None?
    ensures var e := CreditEvent(b, id, t, now);
      e.Type().CreditNotePosted? && e.root == Some(t.Id()) && e.Micros() == Amount(b.moves[id].terms)
      && e.content.key.MovePosting? && e.content.key.move == id
  {}
}
