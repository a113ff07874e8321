/** Replaying an operation on another book that agrees on its rows repeats it exactly. */
module AccountingReplay {
  import opened Common
  import opened BusinessEventDto
  import opened Ledger
  import opened LedgerTheorems
  import opened Accounting
  import opened AccountingInvariants
  import opened AccountingPosting
  import opened AccountingTheorems
  import opened AccountingUnposting
  import opened AccountingHistory
  import opened AccountingOperations
  import opened AccountingFrames

  /** Two sound books that agree on rows f. */
  ghost predicate Paired(a: Book, b: Book, f: set<nat>) {
    Sound(a, {}) && Sound(b, {}) && Twin(a, b, f)
  }

  /** The rows that emitting a document's event may read or write. */
  ghost predicate Needs(b: Book, id: nat, f: set<nat>) {
    id in b.moves && id in f && (IsLinkedCredit(b, id) ==> b.moves[id].terms.reversedEntry.value in f)
  }

  /** What agreeing on a document's rows settles. */
  lemma PairedRows(a: Book, b: Book, f: set<nat>, id: nat)
    requires Paired(a, b, f) && Needs(a, id, f)
    ensures Closed(a) && Closed(b) && Needs(b, id, f) && Traced(a) && Traced(b) && Twin(a, b, f)
    ensures a.moves[id] == b.moves[id] && IsLinkedCredit(a, id) == IsLinkedCredit(b, id)
    ensures PostedOutgoing(a, id) == PostedOutgoing(b, id) && Rank(a, id) == Rank(b, id)
    ensures CreditsAcrossCompanies(a, id) == CreditsAcrossCompanies(b, id)
    ensures IsLinkedCredit(a, id) ==> OriginalPosted(a, id) == OriginalPosted(b, id)
    ensures IsLinkedCredit(a, id) ==>
      a.moves[a.moves[id].terms.reversedEntry.value] == b.moves[a.moves[id].terms.reversedEntry.value]
  {
    SoundIsTraced(a, {});
    SoundIsTraced(b, {});
    hide Sound, Traced;
  }

  // ---------- Emitting one posting ----------

  lemma AppendedShape(b: Book, b': Book, id: nat, c: Content, target: Option<Event>, f: set<nat>)
    requires Appended(b, b', id, c, target) && Needs(b, id, f)
    ensures b'.Events() == b.Events() + [PostingEvent(b, id, c, target)] && b'.moves == b.moves
      && b'.currencies == b.currencies
    ensures Within(PostingEvent(b, id, c, target), f)
  {
    hide Sound, Extends, ActivePosting, Chargeable;
  }

  lemma RecordedAlike(a: Book, b: Book, f: set<nat>, id: nat, c: Content, target: Option<Event>)
    requires Paired(a, b, f) && Needs(a, id, f)
    requires PostingReady(a, id, c, target) && PostingReady(b, id, c, target)
    ensures Alike(a, Record(a, a.moves[id].company, c, TargetsOf(id, a.moves[id].terms)),
                  b, Record(b, b.moves[id].company, c, TargetsOf(id, b.moves[id].terms)), f)
    ensures Record(a, a.moves[id].company, c, TargetsOf(id, a.moves[id].terms)).Ok?
  {
    PairedRows(a, b, f, id);
    assert Sound(a, {}) && Sound(b, {});
    assert PostingEvent(a, id, c, target) == PostingEvent(b, id, c, target);
    hide Sound, Paired, Traced, Twin, InStep, Record, Appended, PostingReady, PostingEvent, Needs, Closed, Within;
    RecordPosting(a, id, c, target);
    RecordPosting(b, id, c, target);
    var ra, rb := Record(a, a.moves[id].company, c, TargetsOf(id, a.moves[id].terms)),
      Record(b, b.moves[id].company, c, TargetsOf(id, b.moves[id].terms));
    AppendedShape(a, ra.value.0, id, c, target, f);
    AppendedShape(b, rb.value.0, id, c, target, f);
    StepEvent(a, ra.value.0, b, rb.value.0, f, PostingEvent(a, id, c, target));
  }

  /** Outcomes of one function on paired books. */
  ghost predicate Alike<T(!new)>(a: Book, ra: Result<(Book, T), Rejection>, b: Book, rb: Result<(Book, T), Rejection>,
                          f: set<nat>) {
    if ra.Ok? then rb.Ok? && ra.value.1 == rb.value.1 && InStep(a, ra.value.0, b, rb.value.0, f)
    else rb.Err? && ra.error == rb.error
  }

  lemma PlainPosting(b: Book, id: nat, key: EventKey, occurredAt: int, level: string)
    requires EmitReady(b, id, key) && Closed(b) && !IsLinkedCredit(b, id)
    ensures var c := PostingContent(b, id, key, occurredAt, level, None, "");
      && PostingReady(b, id, c, None)
      && EmitMoveEvent(b, id, key, occurredAt, level)
        == Record(b, b.moves[id].company, c, TargetsOf(id, b.moves[id].terms))
  {
    hide Sound, Record, Fresh;
  }

  lemma EmitAlike(a: Book, b: Book, f: set<nat>, id: nat, key: EventKey, occurredAt: int, level: string)
    requires Paired(a, b, f) && Needs(a, id, f) && EmitReady(a, id, key) && EmitReady(b, id, key)
    ensures Closed(a) && Closed(b)
    ensures Alike(a, EmitMoveEvent(a, id, key, occurredAt, level), b, EmitMoveEvent(b, id, key, occurredAt, level), f)
    decreases Rank(a, id), 3
  {
    PairedRows(a, b, f, id);
    if IsLinkedCredit(a, id) {
      if CreditsAcrossCompanies(a, id) {
        hide Sound, Paired, Twin, Needs, EmitReady, EmissionOf, Traced, Closed;
        EmitOk(a, id, key, occurredAt, level);
        EmitOk(b, id, key, occurredAt, level);
      } else {
        EmitCreditAlike(a, b, f, id, key, occurredAt, level);
      }
    } else {
      PlainPosting(a, id, key, occurredAt, level);
      PlainPosting(b, id, key, occurredAt, level);
      var c := PostingContent(a, id, key, occurredAt, level, None, "");
      assert c == PostingContent(b, id, key, occurredAt, level, None, "");
      hide Sound, Paired, Twin, Needs, EmitReady, Traced, Closed, Record, PostingReady, EmitMoveEvent, InStep;
      RecordedAlike(a, b, f, id, c, None);
    }
  }

  /** What a linked credit emits once its target is known. */
  lemma TargetedPosting(b: Book, id: nat, key: EventKey, occurredAt: int, level: string)
    requires EmitReady(b, id, key) && Closed(b) && IsLinkedCredit(b, id) && !CreditsAcrossCompanies(b, id)
    ensures var r := CreditReversalTarget(b, id, Amount(b.moves[id].terms));
      && r.Ok? && r.value.0.moves.Keys == b.moves.Keys && r.value.0.moves[id].terms == b.moves[id].terms
      && r.value.0.moves[id].company == b.moves[id].company && Sound(r.value.0, {})
      && var c := CreditContent(r.value.0, id, key, occurredAt, level, r.value.1, r.value.2);
      && PostingReady(r.value.0, id, c, r.value.1)
      && EmitMoveEvent(b, id, key, occurredAt, level)
        == Record(r.value.0, b.moves[id].company, c, TargetsOf(id, b.moves[id].terms))
  {
    LinkedIsAccepted(b, id, key, occurredAt, level);
    assert Find(b.Events(), EventRef(b.moves[id].company, SYSTEM, key)).None?;
    hide Sound, Record, CreditReversalTarget, PostingReady, Fresh, Chargeable, Has, One, Grows, Admit;
  }

  lemma EmitCreditAlike(a: Book, b: Book, f: set<nat>, id: nat, key: EventKey, occurredAt: int, level: string)
    requires Paired(a, b, f) && Needs(a, id, f) && EmitReady(a, id, key) && EmitReady(b, id, key)
    requires IsLinkedCredit(a, id) && Closed(a) && Closed(b) && !CreditsAcrossCompanies(a, id)
    ensures Alike(a, EmitMoveEvent(a, id, key, occurredAt, level), b, EmitMoveEvent(b, id, key, occurredAt, level), f)
    decreases Rank(a, id), 2
  {
    PairedRows(a, b, f, id);
    TargetAlike(a, b, f, id);
    TargetedPosting(a, id, key, occurredAt, level);
    TargetedPosting(b, id, key, occurredAt, level);
    var (a1, target, reason) := CreditReversalTarget(a, id, Amount(a.moves[id].terms)).value;
    var (b1, _, _) := CreditReversalTarget(b, id, Amount(a.moves[id].terms)).value;
    hide Sound, Record, EmitMoveEvent, CreditReversalTarget, PostingReady, EmitReady, Traced, Closed, Moved;
    assert Paired(a1, b1, f) && Needs(a1, id, f);
    assert a1.moves[id] == b1.moves[id];
    var c := CreditContent(a1, id, key, occurredAt, level, target, reason);
    assert c == CreditContent(b1, id, key, occurredAt, level, target, reason);
    hide Twin, Paired, Needs, InStep;
    RecordedAlike(a1, b1, f, id, c, target);
    StepOn(a, a1, Record(a1, a1.moves[id].company, c, TargetsOf(id, a1.moves[id].terms)).value.0,
           b, b1, Record(b1, b1.moves[id].company, c, TargetsOf(id, b1.moves[id].terms)).value.0, f);
  }

  lemma TargetAlike(a: Book, b: Book, f: set<nat>, id: nat)
    requires Paired(a, b, f) && Needs(a, id, f) && id in b.moves && IsLinkedCredit(a, id) && IsLinkedCredit(b, id)
    requires Closed(a) && Closed(b) && !CreditsAcrossCompanies(a, id)
    ensures var ra, rb := CreditReversalTarget(a, id, Amount(a.moves[id].terms)),
      CreditReversalTarget(b, id, Amount(b.moves[id].terms));
      && ra.Ok? && rb.Ok? && ra.value.1 == rb.value.1 && ra.value.2 == rb.value.2
      && InStep(a, ra.value.0, b, rb.value.0, f)
    decreases Rank(a, id), 1
  {
    hide Sound, Twin, Traced, InStep, EnsureMoveEvent, EnsuredOf, CreditReversalTarget, LinkedCredit;
    PairedRows(a, b, f, id);
    if OriginalPosted(a, id) {
      PostedTargetAlike(a, b, f, id);
    } else {
      NoTarget(a, id);
      NoTarget(b, id);
      StayInStep(a, b, f);
    }
  }

  lemma NoTarget(b: Book, id: nat)
    requires Closed(b) && id in b.moves && IsLinkedCredit(b, id) && !OriginalPosted(b, id)
      && !CreditsAcrossCompanies(b, id)
    ensures CreditReversalTarget(b, id, Amount(b.moves[id].terms)) == Ok((b, None,
      if b.moves[b.moves[id].terms.reversedEntry.value].terms.moveType.OutInvoice? then TargetNotPosted
        else TargetNotCustomerInvoice))
  {}

  lemma PostedTargetAlike(a: Book, b: Book, f: set<nat>, id: nat)
    requires Paired(a, b, f) && Needs(a, id, f) && id in b.moves && IsLinkedCredit(a, id) && IsLinkedCredit(b, id)
    requires Closed(a) && Closed(b) && !CreditsAcrossCompanies(a, id) && OriginalPosted(a, id)
    ensures var ra, rb := CreditReversalTarget(a, id, Amount(a.moves[id].terms)),
      CreditReversalTarget(b, id, Amount(b.moves[id].terms));
      && ra.Ok? && rb.Ok? && ra.value.1 == rb.value.1 && ra.value.2 == rb.value.2
      && InStep(a, ra.value.0, b, rb.value.0, f)
    decreases Rank(a, id), 0
  {
    hide Sound, Twin, Traced, InStep, EnsureMoveEvent, EnsuredOf, CreditReversalTarget, LinkedCredit;
    PairedRows(a, b, f, id);
    var originalId := a.moves[id].terms.reversedEntry.value;
    NeverBlocked(a, id);
    NeverBlocked(b, id);
    EnsureAlike(a, b, f, originalId, "imported");
    EnsureOk(a, originalId, "imported");
    EnsureOk(b, originalId, "imported");
    var (a1, target) := EnsureMoveEvent(a, originalId, "imported").value;
    var (b1, _) := EnsureMoveEvent(b, originalId, "imported").value;
    AggregatesAlike(a, a1, b, b1, f, originalId, target, a.moves[id].company);
    TargetChosen(a, id, a1, target);
    TargetChosen(b, id, b1, target);
  }

  lemma NeverBlocked(b: Book, id: nat)
    requires Closed(b) && id in b.moves && IsLinkedCredit(b, id) && OriginalPosted(b, id)
    ensures !Blocked(b, b.moves[id].terms.reversedEntry.value)
  {}

  /** How a credit's target follows from the ensured posting and the native aggregate. */
  lemma TargetChosen(b: Book, id: nat, b1: Book, target: Option<Event>)
    requires Closed(b) && id in b.moves && IsLinkedCredit(b, id) && OriginalPosted(b, id)
      && !CreditsAcrossCompanies(b, id)
    requires EnsureMoveEvent(b, b.moves[id].terms.reversedEntry.value, "imported") == Ok((b1, target))
    ensures var move := b.moves[id];
      CreditReversalTarget(b, id, Amount(move.terms)) ==
        if target.None? || target.value.content.currency != move.terms.currency then Ok((b1, None, DifferentCurrency))
        else if Abs(LinkedCredit(b1, move.terms.reversedEntry.value, move.company, target.value.content.currency)
          + Amount(move.terms))
          > Abs(target.value.Micros()) then Ok((b1, None, ExceedsActiveInvoiceAmount))
        else Ok((b1, target, Linked))
  {
    hide LinkedCredit, EnsureMoveEvent;
  }

  lemma AggregatesAlike(a: Book, a1: Book, b: Book, b1: Book, f: set<nat>, invoice: nat, target: Option<Event>,
                        company: nat)
    requires Closed(a) && Closed(b) && invoice in a.moves && invoice in b.moves && invoice in f
    requires EnsuredOf(a, a1, invoice, target) && EnsuredOf(b, b1, invoice, target) && InStep(a, a1, b, b1, f)
    ensures forall currency ::
      LinkedCredit(a1, invoice, company, currency) == LinkedCredit(b1, invoice, company, currency)
  {
    SoundIsTraced(a1, {});
    SoundIsTraced(b1, {});
    assert Twin(a1, b1, f);
    hide Sound, Traced, Twin, InStep, EnsuredOf, LinkedCredit;
    forall currency ensures LinkedCredit(a1, invoice, company, currency)
      == LinkedCredit(b1, invoice, company, currency) {
      LinkedCreditAgrees(a1, b1, f, invoice, company, currency);
    }
  }

  lemma EnsureAlike(a: Book, b: Book, f: set<nat>, id: nat, level: string)
    requires Paired(a, b, f) && Needs(a, id, f)
    ensures Closed(a) && Closed(b) && id in b.moves
    ensures Alike(a, EnsureMoveEvent(a, id, level), b, EnsureMoveEvent(b, id, level), f)
    decreases Rank(a, id), 4
  {
    PairedRows(a, b, f, id);
    StayInStep(a, b, f);
    SourcesLinked(a, id);
    SourcesLinked(b, id);
    if PostedOutgoing(a, id) {
      FoundPostingAgrees(a, b, f, id);
      if ActivePostingOf(a, id).None? {
        var a1, b1 := NextSequence(a, id), NextSequence(b, id);
        Advanced(a, b, f, id, Some(a.moves[id].terms.documentDate));
        hide Sound, Paired, Traced, Twin, InStep, EmitReady, EmitMoveEvent, Closed, Needs, ActivePostingOf;
        var at := a.moves[id].terms.documentDate;
        EmitAlike(a1, b1, f, id, MovePosting(id, Some(at), a1.moves[id].sequence), at, level);
        assert EnsureMoveEvent(a, id, level)
          == EmitMoveEvent(a1, id, MovePosting(id, Some(at), a1.moves[id].sequence), at, level);
        assert EnsureMoveEvent(b, id, level)
          == EmitMoveEvent(b1, id, MovePosting(id, Some(at), b1.moves[id].sequence), at, level);
        var ra := EnsureMoveEvent(a, id, level);
        if ra.Ok? { StepOn(a, a1, ra.value.0, b, b1, EnsureMoveEvent(b, id, level).value.0, f); }
      }
    }
  }

  lemma SequencesInStep(a: Book, b: Book, f: set<nat>, id: nat)
    requires Twin(a, b, f) && id in f && id in a.moves && id in b.moves
    ensures InStep(a, NextSequence(a, id), b, NextSequence(b, id), f)
    ensures NextSequence(a, id).moves[id] == NextSequence(b, id).moves[id]
  {
    StepRows(a, NextSequence(a, id), b, NextSequence(b, id), f);
  }

  lemma Advanced(a: Book, b: Book, f: set<nat>, id: nat, stamp: Option<int>)
    requires Paired(a, b, f) && Needs(a, id, f) && PostedOutgoing(a, id) && id in b.moves
    ensures var a1, b1 := NextSequence(a, id), NextSequence(b, id);
      && Paired(a1, b1, f) && Needs(a1, id, f) && InStep(a, a1, b, b1, f) && Rank(a1, id) == Rank(a, id)
      && a1.moves[id] == b1.moves[id] && Closed(a1) && Closed(b1)
      && EmitReady(a1, id, MovePosting(id, stamp, a1.moves[id].sequence))
      && EmitReady(b1, id, MovePosting(id, stamp, a1.moves[id].sequence))
  {
    PairedRows(a, b, f, id);
    hide Sound, Grows, Traced, Fresh, One, Has;
    assert Sound(a, {}) && Sound(b, {});
    var a1, b1 := NextSequence(a, id), NextSequence(b, id);
    NextSequenceSound(a, id, stamp);
    NextSequenceSound(b, id, stamp);
    SoundIsTraced(a1, {});
    SoundIsTraced(b1, {});
    SequencesInStep(a, b, f, id);
  }
}
