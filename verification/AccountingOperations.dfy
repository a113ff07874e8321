/** The main results of the accounting adapter, over single operations and over histories. */
module AccountingOperations {
  import opened Common
  import opened BusinessEventDto
  import opened Ledger
  import opened LedgerTheorems
  import opened Accounting
  import opened AccountingInvariants
  import opened AccountingPosting
  import opened AccountingTheorems
  import opened AccountingUnposting
  import opened AccountingHistory

  // ---------- Batches ----------

  /** The document is posted by this very batch. */
  predicate NewlyPosted(b: Book, ids: seq<nat>, deferred: set<nat>, x: nat) {
    x in ids && x in b.moves && b.moves[x].Outgoing() && !b.moves[x].state.Posted? && x !in deferred
  }

  /** A newly posted credit and the newly posted invoice it reverses. */
  predicate CreditOfInvoice(b: Book, ids: seq<nat>, deferred: set<nat>, x: nat, y: nat) {
    && NewlyPosted(b, ids, deferred, x) && NewlyPosted(b, ids, deferred, y)
    && b.moves[x].terms.moveType.OutRefund? && b.moves[x].terms.reversedEntry == Some(y)
    && b.moves[y].terms.moveType.OutInvoice?
  }

  /** No newly posted credit note comes before the newly posted invoice it reverses. */
  predicate BatchOrdered(b: Book, ids: seq<nat>, deferred: set<nat>) {
    forall x, y | x in ids && y in ids && Precedes(ids, x, y) :: !CreditOfInvoice(b, ids, deferred, x, y)
  }

  lemma PrecedesAppend(s: seq<nat>, z: nat, x: nat, y: nat)
    ensures Precedes(s + [z], x, y) <==> Precedes(s, x, y) || (x in s && y == z)
  {
    var t := s + [z];
    if Precedes(s, x, y) {
      var i, j :| 0 <= i < j < |s| && s[i] == x && s[j] == y;
      assert t[i] == x && t[j] == y;
    }
    if x in s && y == z {
      var i :| 0 <= i < |s| && s[i] == x;
      assert t[i] == x && t[|s|] == y;
    }
    if Precedes(t, x, y) {
      var i, j :| 0 <= i < j < |t| && t[i] == x && t[j] == y;
      if j < |s| { assert s[i] == x && s[j] == y; } else { assert s[i] == x; }
    }
  }

  lemma {:induction false} CandidatesKeepOrder(b: Book, ids: seq<nat>, posted: bool, x: nat, y: nat)
    requires forall id | id in ids :: id in b.moves
    ensures var cs := Candidates(b, ids, posted);
      Precedes(cs, x, y) <==> Precedes(ids, x, y) && x in cs && y in cs
  {
    if |ids| > 0 {
      var prefix, z := ids[..|ids| - 1], ids[|ids| - 1];
      assert ids == prefix + [z];
      var before := Candidates(b, prefix, posted);
      CandidatesKeepOrder(b, prefix, posted, x, y);
      PrecedesAppend(prefix, z, x, y);
      PrecedesAppend(before, z, x, y);
      if Precedes(before, x, y) {
        var i, j :| 0 <= i < j < |before| && before[i] == x && before[j] == y;
      }
      if Precedes(prefix, x, y) {
        var i, j :| 0 <= i < j < |prefix| && prefix[i] == x && prefix[j] == y;
      }
      if b.moves[z].Outgoing() && b.moves[z].state.Posted? == posted {
        assert Candidates(b, ids, posted) == before + [z];
      } else {
        assert Candidates(b, ids, posted) == before + [] == before;
      }
    }
  }

  lemma DistinctIffNoRepeat(ids: seq<nat>)
    ensures Distinct(ids) <==> forall x :: !Precedes(ids, x, x)
  {
    if !Distinct(ids) {
      var i, j :| 0 <= i < j < |ids| && ids[i] == ids[j];
      assert Precedes(ids, ids[i], ids[i]);
    }
  }

  lemma CandidatesDistinct(b: Book, ids: seq<nat>, posted: bool)
    requires Distinct(ids) && forall id | id in ids :: id in b.moves
    ensures Distinct(Candidates(b, ids, posted))
  {
    DistinctIffNoRepeat(ids);
    DistinctIffNoRepeat(Candidates(b, ids, posted));
    forall x ensures !Precedes(Candidates(b, ids, posted), x, x) { CandidatesKeepOrder(b, ids, posted, x, x); }
  }

  lemma OriginalIffCredit(b: Book, ids: seq<nat>, deferred: set<nat>, x: nat, y: nat)
    requires Closed(b) && Closed(NativePost(b, ToSet(ids) - deferred)) && forall id | id in ids :: id in b.moves
    requires x in ids && y in ids
    ensures var b', cs := NativePost(b, ToSet(ids) - deferred), Candidates(b, ids, false);
      CreditOfInvoice(b, ids, deferred, x, y) <==>
        x in cs && y in cs && b'.moves[x].state.Posted? && y in OriginalOf(b', x)
  {}

  lemma BatchOrderIsOrder(b: Book, ids: seq<nat>, deferred: set<nat>)
    requires Closed(b) && forall id | id in ids :: id in b.moves
    ensures Closed(NativePost(b, ToSet(ids) - deferred))
    ensures Ordered(NativePost(b, ToSet(ids) - deferred), Candidates(b, ids, false)) <==> BatchOrdered(b, ids, deferred)
  {
    var b', cs := NativePost(b, ToSet(ids) - deferred), Candidates(b, ids, false);
    assert Closed(b');
    hide Precedes, CreditOfInvoice, OriginalOf, NativePost, Candidates;
    if BatchOrdered(b, ids, deferred) {
      forall x, y | x in cs && y in cs && Precedes(cs, x, y)
        ensures !(b'.moves[x].state.Posted? && y in OriginalOf(b', x)) {
        CandidatesKeepOrder(b, ids, false, x, y);
        OriginalIffCredit(b, ids, deferred, x, y);
      }
    }
    if Ordered(b', cs) {
      forall x, y | x in ids && y in ids && Precedes(ids, x, y) ensures !CreditOfInvoice(b, ids, deferred, x, y) {
        CandidatesKeepOrder(b, ids, false, x, y);
        OriginalIffCredit(b, ids, deferred, x, y);
      }
    }
  }

  /** A document that is not posted has no active credit, nor while invoices match any other posting. */
  lemma UnpostedHasNone(b: Book, id: nat)
    requires Consistent(b) && id in b.moves && !b.moves[id].state.Posted?
    ensures !Has(b, id, CreditNotePosted)
    ensures InvoicesMatchDocuments(b, {}) ==> !Has(b, id, InvoicePosted) && !HasActive(b, id)
  {
    assert CreditsMatchDocuments(b, {});
    hide Sound;
    forall e | e in b.Events() && ActiveMove(b.Events(), e) && e.content.sourceResId == id
      ensures e.Type().InvoicePosted? {
      assert ActiveCreditMove(b.Events(), e) || e.Type().InvoicePosted?;
    }
  }

  lemma CrossesIffBatch(b: Book, ids: seq<nat>, deferred: set<nat>)
    requires Closed(b) && Closed(NativePost(b, ToSet(ids) - deferred)) && forall id | id in ids :: id in b.moves
    ensures Crosses(NativePost(b, ToSet(ids) - deferred), Candidates(b, ids, false))
      <==> exists x | x in ids :: NewlyPosted(b, ids, deferred, x) && CreditsAcrossCompanies(b, x)
  {
    var b', cs := NativePost(b, ToSet(ids) - deferred), Candidates(b, ids, false);
    forall x | x in cs ensures (b'.moves[x].state.Posted? && CreditsAcrossCompanies(b', x))
      <==> (NewlyPosted(b, ids, deferred, x) && CreditsAcrossCompanies(b, x)) {}
    forall x | x in ids && NewlyPosted(b, ids, deferred, x) ensures x in cs {}
  }

  /** Posting a batch is refused only for a credit of another company's document.  It keeps the
   *  book consistent in any order, and counts each document once exactly when it was ordered. */
  lemma BatchPosting(b: Book, ids: seq<nat>, deferred: set<nat>, now: int)
    requires Consistent(b) && Allowed(b, PostBatch(ids, deferred, now))
    ensures var r := Apply(b, PostBatch(ids, deferred, now));
      && (r.Ok? <==> !exists x | x in ids :: NewlyPosted(b, ids, deferred, x) && CreditsAcrossCompanies(b, x))
      && (r.Ok? ==> Consistent(r.value))
      && (r.Ok? && CountedOnce(b) ==> (CountedOnce(r.value) <==> BatchOrdered(b, ids, deferred)))
      && (r.Ok? && OneActive(r.value) ==> BatchOrdered(b, ids, deferred))
  {
    assert Closed(b);
    var b', cs := NativePost(b, ToSet(ids) - deferred), Candidates(b, ids, false);
    NativePostSound(b, ToSet(ids) - deferred);
    assert Consistent(b') && Closed(b');
    hide Sound, Ordered, BatchOrdered, OneActive, One, Has, HasActive, InvoicesMatchDocuments, Crosses,
      CreditsAcrossCompanies, NewlyPosted, Grows, PostEach, TouchedAll;
    assert forall x | x in cs :: x in b'.moves && b'.moves[x].Outgoing();
    SameLedgerCounts(b, b');
    forall x | x in cs
      ensures !Has(b', x, CreditNotePosted) && (InvoicesMatchDocuments(b, {}) ==> !Has(b', x, InvoicePosted))
    {
      UnpostedHasNone(b, x);
    }
    PostEachOk(b', cs, now);
    CandidatesDistinct(b, ids, false);
    BatchOrderIsOrder(b, ids, deferred);
    CrossesIffBatch(b, ids, deferred);
    if PostEach(b', cs, now).Ok? {
      BatchCounts(b, b', cs, now);
    }
  }

  lemma BatchCounts(b: Book, b': Book, cs: seq<nat>, now: int)
    requires Consistent(b) && Consistent(b') && b'.ledger == b.ledger && Distinct(cs) && Closed(b')
    requires forall x | x in cs :: x in b'.moves && b'.moves[x].Outgoing()
    requires forall x | x in cs :: !Has(b', x, CreditNotePosted)
    requires InvoicesMatchDocuments(b, {}) ==>
      InvoicesMatchDocuments(b', {}) && forall x | x in cs :: !Has(b', x, InvoicePosted)
    requires PostEach(b', cs, now).Ok?
    ensures var r := PostEach(b', cs, now).value;
      && Consistent(r)
      && (CountedOnce(b) ==> (CountedOnce(r) <==> Ordered(b', cs)))
      && (OneActive(r) ==> Ordered(b', cs))
  {
    hide Sound, Ordered, OneActive, One, Has, InvoicesMatchDocuments, Grows, PostEach, TouchedAll, Crosses;
    var r := PostEach(b', cs, now).value;
    PostEachOk(b', cs, now);
    BatchKeepsOne(b', cs, CreditNotePosted, now);
    if !Ordered(b', cs) { UnorderedDoubles(b', cs, now); }
    NotOneNotActive(r);
    if CountedOnce(b) {
      SameLedgerCounts(b, b');
      OneActiveIff(b);
      GrowsKeepsMatch(b', r, TouchedAll(b', cs));
      OneActiveIff(r);
      if Ordered(b', cs) { BatchKeepsOne(b', cs, InvoicePosted, now); }
    }
  }

  lemma NotOneNotActive(b: Book)
    ensures OneActive(b) ==> One(b, InvoicePosted)
  {}

  /** Unposting is refused only when a needed posting would be.  It cancels exactly one found
   *  posting of every departed document, and none of them stays counted if each counted once. */
  lemma Unposting(b: Book, ids: seq<nat>, destination: MoveState, after: map<nat, Terms>, now: int)
    requires Consistent(b) && Allowed(b, Unpost(ids, destination, after, now))
    ensures var r := Apply(b, Unpost(ids, destination, after, now));
      && (r.Ok? <==> !exists x | x in ids :: Blocked(b, x))
      && (r.Ok? ==> Consistent(r.value) && CancelsFound(b, r.value, Candidates(b, ids, true)))
      && (r.Ok? && CountedOnce(b) ==> CountedOnce(r.value) && forall x | x in ids :: !HasActive(r.value, x))
  {
    var cs := Candidates(b, ids, true);
    CandidatesDistinct(b, ids, true);
    EnsureEachOk(b, cs);
    assert SomeBlocked(b, cs) <==> exists x | x in ids :: Blocked(b, x);
    if EnsureEach(b, cs).Ok? {
      var r := EnsureEach(b, cs).value;
      UnpostAfter(b, r.0, cs, r.1, ids, destination, after, now);
    }
  }

  /** After the departing documents got the postings they lacked, one posting of each was cancelled
   *  and every other one kept its activity. */
  ghost predicate CancelsFound(b: Book, b': Book, departing: seq<nat>)
    requires Closed(b) && forall id | id in departing :: id in b.moves
  {
    && EnsureEach(b, departing).Ok?
    && var ensured := EnsureEach(b, departing).value;
       FoundPostings(ensured.0, departing, ensured.1) && LostExactly(ensured.0, b', ensured.1)
  }

  lemma UnpostAfter(b: Book, b1: Book, cs: seq<nat>, postings: seq<Option<Event>>,
                    ids: seq<nat>, destination: MoveState, after: map<nat, Terms>, now: int)
    requires Consistent(b) && Consistent(b1) && Allowed(b, Unpost(ids, destination, after, now))
    requires cs == Candidates(b, ids, true) && Distinct(cs) && FoundPostings(b1, cs, postings)
    requires Grows(b, b1, TouchedAll(b, cs)) && StayOne(b, b1)
    ensures var b2 := NativeUnpost(b1, ToSet(ids), destination, after);
      var r := ReverseEach(b2, cs, postings, destination, now);
      && r.Ok? && Consistent(r.value) && LostExactly(b1, r.value, postings)
      && (CountedOnce(b) ==> CountedOnce(r.value) && forall x | x in ids :: !HasActive(r.value, x))
  {
    var b2 := NativeUnpost(b1, ToSet(ids), destination, after);
    UnpostReversed(b, b1, cs, postings, ids, destination, after, now);
    var b3 := ReverseEach(b2, cs, postings, destination, now).value;
    hide Sound, Allowed, One, ReverseEach, LostExactly, OneActive, InvoicesMatchDocuments;
    LostKeepsOne(b1, b3, postings, CreditNotePosted);
    if CountedOnce(b) {
      OneActiveIff(b);
      GrowsKeepsMatch(b, b1, TouchedAll(b, cs));
      OneActiveIff(b1);
      UnpostRows(b, b1, cs, ids, destination, after);
      hide NativeUnpost, Candidates, Grows, StayOne, Consistent, FoundPostings;
      DepartedUncounted(b1, b3, cs, postings, ids);
    }
  }

  lemma UnpostRows(b: Book, b1: Book, cs: seq<nat>, ids: seq<nat>, destination: MoveState, after: map<nat, Terms>)
    requires SameDocuments(b, b1) && (forall id | id in ids :: id in b.moves) && cs == Candidates(b, ids, true)
    ensures var b2 := NativeUnpost(b1, ToSet(ids), destination, after);
      && (forall id | id in ids :: id in b1.moves && (PostedOutgoing(b1, id) ==> id in cs))
      && (forall id | id in b1.moves && id !in ids :: id in b2.moves && b2.moves[id] == b1.moves[id])
  {}

  lemma UnpostReversed(b: Book, b1: Book, cs: seq<nat>, postings: seq<Option<Event>>,
                       ids: seq<nat>, destination: MoveState, after: map<nat, Terms>, now: int)
    requires Consistent(b1) && SameDocuments(b, b1) && Allowed(b, Unpost(ids, destination, after, now))
    requires cs == Candidates(b, ids, true) && Distinct(cs) && FoundPostings(b1, cs, postings)
    ensures var b2 := NativeUnpost(b1, ToSet(ids), destination, after);
      var r := ReverseEach(b2, cs, postings, destination, now);
      && (forall id | id in cs :: id in b2.moves) && r.Ok?
      && Sound(r.value, {}) && r.value.moves == b2.moves && LostExactly(b1, r.value, postings)
  {
    var b2 := NativeUnpost(b1, ToSet(ids), destination, after);
    assert forall id | id in after :: TermsOk(b1, after[id]);
    NativeUnpostSound(b1, ids, cs, destination, after);
    FoundIsReversible(b1, b2, cs, postings);
    assert b2.Events() == b1.Events();
    assert ToSet(cs) - ToSet(cs) == {};
    hide Sound, Allowed, One, ActivePosting, Candidates, FoundPostings, PostingsOf, ReverseEach;
    ReverseEachOk(b2, cs, postings, destination, now, ToSet(cs));
  }

  lemma LostKeepsOne(b: Book, b': Book, postings: seq<Option<Event>>, t: EventType)
    requires LostExactly(b, b', postings) && One(b, t)
    ensures One(b', t)
  {
    forall e, x | e in b'.Events() && x in b'.Events() && ActiveOf(b'.Events(), e, e.content.sourceResId, t)
      && ActiveOf(b'.Events(), x, e.content.sourceResId, t)
      ensures e == x
    {
      assert ActiveOf(b.Events(), e, e.content.sourceResId, t) && ActiveOf(b.Events(), x, e.content.sourceResId, t);
    }
  }

  /** Where each document is counted once, the found postings are all the active ones. */
  lemma FoundAreAll(b: Book, cs: seq<nat>, postings: seq<Option<Event>>, e: Event)
    requires OneActive(b) && FoundPostings(b, cs, postings)
    requires e in b.Events() && ActiveMove(b.Events(), e) && e.content.sourceResId in cs
    ensures Some(e) in postings
  {
    var k :| 0 <= k < |cs| && cs[k] == e.content.sourceResId;
    assert FoundPosting(b, cs[k], postings[k].value);
    assert postings[k] == Some(e);
  }

  lemma DepartedUncounted(b: Book, b': Book, cs: seq<nat>, postings: seq<Option<Event>>, ids: seq<nat>)
    requires Consistent(b) && CountedOnce(b) && FoundPostings(b, cs, postings) && LostExactly(b, b', postings)
    requires forall id | id in ids :: id in b.moves && (PostedOutgoing(b, id) ==> id in cs)
    requires forall id | id in b.moves && id !in ids :: id in b'.moves && b'.moves[id] == b.moves[id]
    ensures CountedOnce(b') && forall x | x in ids :: !HasActive(b', x)
  {
    assert CreditsMatchDocuments(b, {});
    hide Sound, ActivePosting, FoundPostings;
    forall e | e in b'.Events() && ActiveMove(b'.Events(), e) ensures e.content.sourceResId !in ids {
      assert ActiveMove(b.Events(), e);
      PostingIsEither(b.Events(), e);
      assert ActiveCreditMove(b.Events(), e) || e.Type().InvoicePosted?;
      if e.content.sourceResId in cs { FoundAreAll(b, cs, postings, e); }
    }
    assert OneActive(b') && InvoicesMatchDocuments(b', {});
  }

  lemma PostingIsEither(l: seq<Event>, e: Event)
    requires ActiveMove(l, e)
    ensures e.Type().CreditNotePosted? || e.Type().InvoicePosted?
  {}

  /** A backfill is refused only when the posting it needs would be, and counts nothing twice. */
  lemma Backfilling(b: Book, id: nat)
    requires Consistent(b) && id in b.moves
    ensures var r := Apply(b, Backfill(id));
      && (r.Ok? <==> !Blocked(b, id))
      && (r.Ok? ==> Consistent(r.value) && (PostedOutgoing(b, id) ==> HasActive(r.value, id)))
      && (r.Ok? && CountedOnce(b) ==> CountedOnce(r.value) && (HasActive(r.value, id) <==> PostedOutgoing(b, id)))
  {
    EnsureOk(b, id, "imported");
    if !Blocked(b, id) {
      var b' := Apply(b, Backfill(id)).value;
      BackfillCounts(b, b', id);
    }
  }

  lemma BackfillCounts(b: Book, b': Book, id: nat)
    requires Consistent(b) && id in b.moves && Sound(b', {}) && Grows(b, b', Touched(b, id)) && StayOne(b, b')
    requires if PostedOutgoing(b, id) then Has(b', id, PostingType(b.moves[id].terms.moveType)) else b' == b
    ensures Consistent(b') && (PostedOutgoing(b, id) ==> HasActive(b', id))
    ensures CountedOnce(b) ==> CountedOnce(b') && (HasActive(b', id) <==> PostedOutgoing(b, id))
  {
    if PostedOutgoing(b, id) { HasIsActive(b', id, PostingType(b.moves[id].terms.moveType)); }
    if CountedOnce(b) {
      hide Sound, One, Grows;
      OneActiveIff(b);
      GrowsKeepsMatch(b, b', Touched(b, id));
      OneActiveIff(b');
      if !PostedOutgoing(b, id) { NotOutgoingHasNone(b, id); }
    }
  }

  lemma HasIsActive(b: Book, id: nat, t: EventType)
    requires Has(b, id, t)
    ensures HasActive(b, id)
  {
    var e :| e in b.Events() && ActiveOf(b.Events(), e, id, t);
    assert ActiveMove(b.Events(), e);
  }

  lemma NotOutgoingHasNone(b: Book, id: nat)
    requires Consistent(b) && InvoicesMatchDocuments(b, {}) && id in b.moves && !PostedOutgoing(b, id)
    ensures !HasActive(b, id)
  {
    assert CreditsMatchDocuments(b, {});
    hide Sound;
    forall e | e in b.Events() && ActiveMove(b.Events(), e) ensures e.content.sourceResId != id {
      assert ActiveCreditMove(b.Events(), e) || e.Type().InvoicePosted?;
    }
  }

  // ---------- Histories ----------

  /** Other producers never use the accounting adapter's identities. */
  predicate ForeignContent(c: Content) {
    !(c.sourceSystem == SYSTEM && (c.sourceModel == MODEL || !c.key.External?))
  }

  datatype Step = Native(op: MoveOp) | Foreign(company: nat, payload: Payload)

  function Perform(b: Book, step: Step): Book {
    match step
    case Native(op) =>
      if Closed(b) && Allowed(b, op) then (match Apply(b, op) case Ok(b') => b' case Err(_) => b) else b
    case Foreign(company, payload) =>
      if ForeignContent(payload.content) then
        match Ingest(b.ledger, company, b.currencies, payload)
        case Ok(r) => b.(ledger := r.0)
        case Err(_) => b
      else b
  }

  function Run(b: Book, steps: seq<Step>): Book {
    if |steps| == 0 then b else Perform(Run(b, steps[..|steps| - 1]), steps[|steps| - 1])
  }

  lemma ForeignInert(b: Book, b': Book, e: Event)
    requires WellFormed(b.Events()) && !MoveEvent(e) && Extends(b.Events(), e) && b'.Events() == b.Events() + [e]
    ensures forall x | x in b.Events() && MoveEvent(x) :: e.reverses != Some(x.Id())
    ensures forall x | x in b'.Events() :: ActiveMove(b'.Events(), x) <==> x in b.Events() && ActiveMove(b.Events(), x)
  {
    forall x | x in b.Events() && MoveEvent(x) ensures e.reverses != Some(x.Id()) {
      if e.reverses == Some(x.Id()) {
        var o :| o in b.Events() && Edge(e, o);
        IdsUnique(b.Events(), o, x);
      }
    }
    forall x | x in b.Events() && MoveEvent(x) ensures ActivePosting(b'.Events(), x) == ActivePosting(b.Events(), x) {
      assert forall y | y in b.Events() :: y in b'.Events();
      assert forall y | y in b'.Events() :: y in b.Events() || y == e;
    }
  }

  lemma ForeignAppend(b: Book, b': Book, e: Event)
    requires Consistent(b) && !MoveEvent(e) && ForeignContent(e.content) && Extends(b.Events(), e)
    requires b'.Events() == b.Events() + [e] && b'.moves == b.moves && b'.links == b.links
      && b'.currencies == b.currencies
    requires WellFormed(b'.Events()) && WithinBudget(b'.Events())
    ensures Consistent(b') && (CountedOnce(b) ==> CountedOnce(b'))
  {
    ForeignInert(b, b', e);
    ForeignLinks(b, b', e);
    forall x | x in b'.Events() ensures EventOk(b', x) {
      if x in b.Events() { assert EventOk(b, x); }
    }
    forall i | i in b'.moves ensures i > 0 && TermsOk(b', b'.moves[i].terms) { assert TermsOk(b, b.moves[i].terms); }
    hide Extends, ActivePosting;
    assert CreditsMatchDocuments(b', {}) by {
      forall x | x in b'.Events() && ActiveCreditMove(b'.Events(), x)
        ensures x in b.Events() && ActiveCreditMove(b.Events(), x) {}
    }
  }

  lemma ForeignLinks(b: Book, b': Book, e: Event)
    requires ChargedCreditsLinked(b) && CountereventsCopyLinks(b) && LinksTold(b)
    requires !MoveEvent(e) && WellFormed(b.Events()) && Extends(b.Events(), e)
    requires b'.Events() == b.Events() + [e] && b'.moves == b.moves && b'.links == b.links
    requires forall x | x in b.Events() && MoveEvent(x) :: e.reverses != Some(x.Id())
    ensures ChargedCreditsLinked(b') && CountereventsCopyLinks(b') && LinksTold(b')
  {
    NoneReverseLatest(b.Events(), e);
    LinksFromAppend(b.Events(), e);
  }

  lemma ForeignKeeps(b: Book, company: nat, p: Payload)
    requires Consistent(b) && ForeignContent(p.content)
    ensures Consistent(Perform(b, Foreign(company, p)))
    ensures CountedOnce(b) ==> CountedOnce(Perform(b, Foreign(company, p)))
  {
    var r := Ingest(b.ledger, company, b.currencies, p);
    if r.Ok? {
      if r.value.1 == Accepted {
        var e := Admit(b.Events(), company, b.currencies, p.content).value;
        AdmittedExtends(b.Events(), company, b.currencies, p.content);
        WellFormedAppend(b.Events(), e);
        BudgetKept(b.Events(), company, b.currencies, p.content);
        ForeignAppend(b, b.(ledger := r.value.0), e);
      } else {
        SameEvents(b, b.(ledger := r.value.0));
      }
    }
  }

  lemma SameEvents(b: Book, b': Book)
    requires Consistent(b) && b'.Events() == b.Events() && b'.moves == b.moves && b'.links == b.links
      && b'.currencies == b.currencies
    ensures Consistent(b') && (CountedOnce(b) ==> CountedOnce(b'))
  {
    forall x | x in b'.Events() ensures EventOk(b', x) { assert EventOk(b, x); }
    forall i | i in b'.moves ensures i > 0 && TermsOk(b', b'.moves[i].terms) { assert TermsOk(b, b.moves[i].terms); }
  }

  /** The step takes effect: it is an allowed operation that is not rejected. */
  predicate Succeeds(b: Book, op: MoveOp) {
    Closed(b) && Allowed(b, op) && Apply(b, op).Ok?
  }

  /** If the operation is an accepted batch, no credit of it comes before its own invoice. */
  predicate OrderedOp(b: Book, op: MoveOp) {
    Succeeds(b, op) && op.PostBatch? ==> BatchOrdered(b, op.ids, op.deferred)
  }

  /** Every accepted batch of the history is ordered when it is posted. */
  predicate OrderedRun(b: Book, steps: seq<Step>) {
    |steps| == 0 || (
      && OrderedRun(b, steps[..|steps| - 1])
      && (steps[|steps| - 1].Native? ==> OrderedOp(Run(b, steps[..|steps| - 1]), steps[|steps| - 1].op)))
  }

  /** Every accepted operation keeps the book consistent; only an unordered batch counts twice. */
  lemma OperationKeeps(b: Book, op: MoveOp)
    requires Consistent(b) && Succeeds(b, op)
    ensures Consistent(Apply(b, op).value)
    ensures CountedOnce(b) ==> (CountedOnce(Apply(b, op).value) <==> OrderedOp(b, op))
    ensures OneActive(Apply(b, op).value) ==> OrderedOp(b, op)
  {
    match op
    case PostBatch(ids, deferred, now) => BatchPosting(b, ids, deferred, now);
    case Unpost(ids, destination, after, now) => Unposting(b, ids, destination, after, now);
    case Backfill(id) => Backfilling(b, id);
    case Edit(id, terms) => EditSound(b, id, terms);
    case Create(id, company, terms) => CreateSound(b, id, company, terms);
  }

  lemma StepKeeps(b: Book, step: Step)
    requires Consistent(b)
    ensures Consistent(Perform(b, step))
    ensures CountedOnce(b) ==> (CountedOnce(Perform(b, step)) <==> (step.Native? ==> OrderedOp(b, step.op)))
    ensures OneActive(Perform(b, step)) && step.Native? ==> OrderedOp(b, step.op)
  {
    hide Consistent, CountedOnce, OneActive, BatchOrdered, Apply;
    match step {
      case Native(op) =>
        if Succeeds(b, op) { OperationKeeps(b, op); }
      case Foreign(company, p) =>
        if ForeignContent(p.content) { ForeignKeeps(b, company, p); }
    }
  }

  /** Over every history of batches, unpostings, backfills, edits and foreign deliveries, in
   *  whatever order a batch lists its documents: postings are never over-credited, credits are
   *  never counted twice, links tell the truth and the next key of every document is unused. */
  lemma {:induction false} HistoryConsistent(b: Book, steps: seq<Step>)
    requires Consistent(b)
    ensures Consistent(Run(b, steps)) && WithinBudget(Run(b, steps).Events()) && KeysFresh(Run(b, steps))
  {
    if |steps| > 0 {
      HistoryConsistent(b, steps[..|steps| - 1]);
      StepKeeps(Run(b, steps[..|steps| - 1]), steps[|steps| - 1]);
    }
    ConsistentKeysFresh(Run(b, steps));
  }

  /** No document was ever counted twice exactly when every accepted batch was ordered. */
  lemma {:induction false} NeverDoubledIffOrdered(b: Book, steps: seq<Step>)
    requires Consistent(b) && CountedOnce(b)
    ensures (forall n | 0 <= n <= |steps| :: OneActive(Run(b, steps[..n]))) <==> OrderedRun(b, steps)
    ensures OrderedRun(b, steps) ==> CountedOnce(Run(b, steps))
  {
    hide Consistent, OneActive, OrderedOp, InvoicesMatchDocuments;
    assert steps[..|steps|] == steps;
    if |steps| > 0 {
      var prefix, last := steps[..|steps| - 1], steps[|steps| - 1];
      NeverDoubledIffOrdered(b, prefix);
      HistoryConsistent(b, prefix);
      StepKeeps(Run(b, prefix), last);
      assert forall n | 0 <= n <= |prefix| :: prefix[..n] == steps[..n];
      assert forall n | 0 <= n <= |steps| :: n <= |prefix| || steps[..n] == steps;
    }
  }

  /** Books that no accounting event has reached yet, whatever documents they hold. */
  predicate Initial(b: Book) {
    && Closed(b) && (forall id | id in b.moves :: id > 0 && TermsOk(b, b.moves[id].terms))
    && WellFormed(b.Events()) && WithinBudget(b.Events())
    && (forall e | e in b.Events() :: ForeignContent(e.content))
    && b.links == {}
  }

  lemma InitialConsistent(b: Book)
    requires Initial(b)
    ensures Consistent(b) && CountedOnce(b)
  {
    assert forall e | e in b.Events() :: !MoveEvent(e);
  }

  // ---------- What a document contributes ----------

  predicate DocumentEvent(e: Event, id: nat, currency: string) {
    MoveEvent(e) && e.content.sourceResId == id && e.content.currency == currency
  }

  /** All events of a document, in one currency, summed as flows. */
  function DocumentTotal(l: seq<Event>, id: nat, currency: string): int {
    SumIf(l, e => DocumentEvent(e, id, currency))
  }

  function ActiveTotal(l: seq<Event>, id: nat, currency: string): int {
    SumIf(l, e => DocumentEvent(e, id, currency) && ActivePosting(l, e))
  }

  lemma DocumentPairs(l: seq<Event>, id: nat, currency: string, t: EventType)
    ensures PairClosed(l, t, (e: Event) => DocumentEvent(e, id, currency))
  {}

  lemma DocumentTypes(b: Book, e: Event)
    requires Sound(b, {}) && e in b.Events() && MoveEvent(e)
    ensures IsPosting(e.Type()) || IsPostingReversal(e.Type())
  {
    assert EventOk(b, e);
  }

  /** In every book the events of a document sum to its active postings, however many there are. */
  lemma TotalIsActive(b: Book, id: nat, currency: string)
    requires Sound(b, {})
    ensures DocumentTotal(b.Events(), id, currency) == ActiveTotal(b.Events(), id, currency)
  {
    var l := b.Events();
    var sel := (e: Event) => DocumentEvent(e, id, currency);
    assert WellFormed(l);
    hide Sound, WellFormed, PairClosed, ActivePosting, IsPosting, IsPostingReversal;
    forall e | e in l ensures sel(e) ==> IsPosting(e.Type()) || IsPostingReversal(e.Type()) {
      if sel(e) { DocumentTypes(b, e); }
    }
    DocumentPairs(l, id, currency, InvoicePosted);
    DocumentPairs(l, id, currency, CreditNotePosted);
    PostingsBalance(l, sel);
    SumCongruent(l, e => DocumentEvent(e, id, currency),
      e => sel(e) && (IsPosting(e.Type()) || IsPostingReversal(e.Type())));
    SumCongruent(l, e => sel(e) && ActivePosting(l, e), e => DocumentEvent(e, id, currency) && ActivePosting(l, e));
  }

  lemma SumSingle(l: seq<Event>, p: Event -> bool, x: Event)
    requires WellFormed(l) && x in l && p(x) && forall e | e in l && e != x :: !p(e)
    ensures SumIf(l, p) == x.Micros()
  {
    SumWithout(l, p, e => false, x);
    NothingSelected(l);
  }

  /** A document's events sum to its active posting, or to zero when it has none. */
  lemma DocumentBalance(b: Book, id: nat, currency: string)
    requires Consistent(b) && CountedOnce(b)
    ensures (forall e | e in b.Events() && ActiveMove(b.Events(), e) && DocumentEvent(e, id, currency) ::
               DocumentTotal(b.Events(), id, currency) == e.Micros())
    ensures (forall e | e in b.Events() && ActiveMove(b.Events(), e) :: !DocumentEvent(e, id, currency)) ==>
               DocumentTotal(b.Events(), id, currency) == 0
  {
    var l := b.Events();
    var p := (e: Event) => DocumentEvent(e, id, currency) && ActivePosting(l, e);
    assert WellFormed(l);
    TotalIsActive(b, id, currency);
    hide Sound, ActivePosting, WellFormed;
    forall e | e in l && ActiveMove(l, e) && DocumentEvent(e, id, currency) ensures SumIf(l, p) == e.Micros() {
      forall x | x in l && x != e ensures !p(x) { assert ActiveMove(l, x) || !p(x); }
      SumSingle(l, p, e);
    }
    if forall e | e in l && ActiveMove(l, e) :: !DocumentEvent(e, id, currency) {
      SumCongruent(l, p, e => false);
      NothingSelected(l);
    }
  }

  // ---------- The batch order matters ----------

  /** An invoice and the credit note that reverses it, both drafts. */
  function DraftPair(): Book {
    var invoice := Terms(OutInvoice, "USD", 100_000_000, 1, None, "");
    var credit := Terms(OutRefund, "USD", 40_000_000, 2, Some(1), "");
    Book(map[1 := Move(7, invoice, Draft, 0), 2 := Move(7, credit, Draft, 0)], EMPTY, {}, {"USD"})
  }

  lemma DraftPairInitial()
    ensures Initial(DraftPair()) && Consistent(DraftPair()) && CountedOnce(DraftPair())
    ensures forall id | id in DraftPair().moves :: !CreditsAcrossCompanies(DraftPair(), id)
  {
    assert ValidCurrency("USD");
    InitialConsistent(DraftPair());
  }

  /** Posting the credit before its invoice in one batch leaves the invoice with two active
   *  postings; posting them the other way round does not. */
  lemma CreditFirstDoublesInvoice(now: int)
    ensures Succeeds(DraftPair(), PostBatch([2, 1], {}, now))
    ensures !OneActive(Perform(DraftPair(), Native(PostBatch([2, 1], {}, now))))
    ensures Succeeds(DraftPair(), PostBatch([1, 2], {}, now))
    ensures OneActive(Perform(DraftPair(), Native(PostBatch([1, 2], {}, now))))
  {
    var b := DraftPair();
    DraftPairInitial();
    var creditFirst, invoiceFirst := [2, 1], [1, 2];
    assert creditFirst[0] == 2 && creditFirst[1] == 1;
    assert Precedes(creditFirst, 2, 1) && CreditOfInvoice(b, creditFirst, {}, 2, 1);
    assert !BatchOrdered(b, creditFirst, {});
    assert BatchOrdered(b, invoiceFirst, {}) by {
      forall x, y | x in invoiceFirst && y in invoiceFirst && Precedes(invoiceFirst, x, y)
        ensures !CreditOfInvoice(b, invoiceFirst, {}, x, y) {}
    }
    assert Allowed(b, PostBatch(creditFirst, {}, now)) && Allowed(b, PostBatch(invoiceFirst, {}, now));
    hide Consistent, Sound, OneActive, InvoicesMatchDocuments, BatchOrdered, Apply, CreditsAcrossCompanies, DraftPair;
    BatchPosting(b, creditFirst, {}, now);
    BatchPosting(b, invoiceFirst, {}, now);
  }
}
