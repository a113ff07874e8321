/** Operations and whole histories of native documents. */
module AccountingHistory {
  import opened Common
  import opened BusinessEventDto
  import opened Ledger
  import opened LedgerTheorems
  import opened Accounting
  import opened AccountingInvariants
  import opened AccountingPosting
  import opened AccountingTheorems
  import opened AccountingUnposting

  /** What every history keeps, also one that counts an invoice twice. */
  ghost predicate Consistent(b: Book) {
    Sound(b, {}) && One(b, CreditNotePosted)
  }

  /** While invoices match, a document can only be counted twice through two invoice postings. */
  lemma OneActiveIff(b: Book)
    requires Consistent(b) && InvoicesMatchDocuments(b, {})
    ensures OneActive(b) <==> One(b, InvoicePosted)
  {
    if One(b, InvoicePosted) {
      forall e, x | e in b.Events() && x in b.Events() && ActiveMove(b.Events(), e) && ActiveMove(b.Events(), x)
        && e.content.sourceResId == x.content.sourceResId
        ensures e == x
      {
        assert ActiveOf(b.Events(), e, e.content.sourceResId, e.Type());
        assert ActiveOf(b.Events(), x, e.content.sourceResId, x.Type());
      }
    }
    if OneActive(b) {
      forall e, x | e in b.Events() && x in b.Events() && ActiveOf(b.Events(), e, e.content.sourceResId, InvoicePosted)
        && ActiveOf(b.Events(), x, e.content.sourceResId, InvoicePosted)
        ensures e == x {}
    }
  }

  ghost predicate NextKeyFresh(b: Book, id: nat, stamp: Option<int>)
    requires id in b.moves
  {
    Fresh(b, b.moves[id].company, MovePosting(id, stamp, b.moves[id].sequence + 1))
  }

  /** The key of the next transition of every document is unused, whatever its stamp. */
  ghost predicate KeysFresh(b: Book) {
    forall id, stamp | id in b.moves :: NextKeyFresh(b, id, stamp)
  }

  lemma ConsistentKeysFresh(b: Book)
    requires Consistent(b)
    ensures KeysFresh(b)
  {
    forall id, stamp | id in b.moves ensures NextKeyFresh(b, id, stamp) { NextSequenceSound(b, id, stamp); }
  }

  // ---------- Native changes of documents ----------

  /** Documents may change while the ledger does not, if active postings still match them. */
  lemma DocumentsChange(b: Book, b': Book, before: set<nat>, pending: set<nat>)
    requires Sound(b, before) && Documents(b') && CreditsMatchDocuments(b', pending)
    requires b'.ledger == b.ledger && b'.links == b.links && b'.currencies == b.currencies
    requires forall id | id in b.moves ::
      id in b'.moves && b'.moves[id].company == b.moves[id].company && b'.moves[id].sequence == b.moves[id].sequence
    ensures Sound(b', pending)
  {
    forall e | e in b'.Events() ensures EventOk(b', e) { assert EventOk(b, e); }
  }

  lemma NativePostSound(b: Book, ids: set<nat>)
    requires Consistent(b)
    ensures Consistent(NativePost(b, ids))
    ensures InvoicesMatchDocuments(b, {}) ==> InvoicesMatchDocuments(NativePost(b, ids), {})
  {
    var b' := NativePost(b, ids);
    forall id | id in b'.moves ensures id > 0 && TermsOk(b', b'.moves[id].terms) {
      assert TermsOk(b, b.moves[id].terms);
    }
    DocumentsChange(b, b', {}, {});
    SameLedgerCounts(b, b');
  }

  lemma NativeUnpostSound(b: Book, ids: seq<nat>, departing: seq<nat>, destination: MoveState, after: map<nat, Terms>)
    requires Consistent(b) && (forall id | id in ids :: id in b.moves)
    requires forall id | id in ids && b.moves[id].Outgoing() && b.moves[id].state.Posted? :: id in departing
    requires forall id | id in after :: TermsOk(b, after[id])
    ensures Sound(NativeUnpost(b, ToSet(ids), destination, after), ToSet(departing))
  {
    var b' := NativeUnpost(b, ToSet(ids), destination, after);
    forall id | id in b'.moves ensures id > 0 && TermsOk(b', b'.moves[id].terms) {
      assert TermsOk(b, b.moves[id].terms);
    }
    forall e | e in b'.Events() && ActiveCreditMove(b'.Events(), e) && e.content.sourceResId !in ToSet(departing)
      ensures e.content.sourceResId in b'.moves && b'.moves[e.content.sourceResId] == b.moves[e.content.sourceResId]
    {
      assert e in b.Events() && ActiveCreditMove(b.Events(), e);
    }
    DocumentsChange(b, b', {}, ToSet(departing));
  }

  lemma EditSound(b: Book, id: nat, terms: Terms)
    requires Consistent(b) && Allowed(b, Edit(id, terms))
    ensures Consistent(Apply(b, Edit(id, terms)).value)
    ensures CountedOnce(b) ==> CountedOnce(Apply(b, Edit(id, terms)).value)
  {
    var b' := Apply(b, Edit(id, terms)).value;
    forall i | i in b'.moves ensures i > 0 && TermsOk(b', b'.moves[i].terms) {
      assert i in b.moves && TermsOk(b, b.moves[i].terms);
    }
    forall e | e in b'.Events() && ActiveCreditMove(b'.Events(), e)
      ensures e.content.sourceResId in b'.moves
      ensures var move, before := b'.moves[e.content.sourceResId], b.moves[e.content.sourceResId];
        && move.state == before.state && move.terms.moveType == before.terms.moveType
        && move.terms.reversedEntry == before.terms.reversedEntry
    {
      assert e in b.Events() && ActiveCreditMove(b.Events(), e);
    }
    DocumentsChange(b, b', {}, {});
    SameLedgerCounts(b, b');
  }

  lemma CreateSound(b: Book, id: nat, company: nat, terms: Terms)
    requires Consistent(b) && Allowed(b, Create(id, company, terms))
    ensures Consistent(Apply(b, Create(id, company, terms)).value)
    ensures CountedOnce(b) ==> CountedOnce(Apply(b, Create(id, company, terms)).value)
  {
    var b' := Apply(b, Create(id, company, terms)).value;
    forall i | i in b'.moves ensures i > 0 && TermsOk(b', b'.moves[i].terms) {
      if i in b.moves { assert TermsOk(b, b.moves[i].terms); }
    }
    forall e | e in b'.Events() && ActiveCreditMove(b'.Events(), e)
      ensures e.content.sourceResId in b.moves && b'.moves[e.content.sourceResId] == b.moves[e.content.sourceResId]
    {
      assert e in b.Events() && ActiveCreditMove(b.Events(), e);
    }
    DocumentsChange(b, b', {}, {});
    SameLedgerCounts(b, b');
  }

  // ---------- Unposting a batch ----------

  /** Every departing document has a posting that can be reversed at hand. */
  ghost predicate PostingsOf(b: Book, ids: seq<nat>, postings: seq<Option<Event>>) {
    && |postings| == |ids|
    && forall k | 0 <= k < |ids| :: postings[k].Some? && Reversible(b, ids[k], postings[k].value)
  }

  /** An active posting of a posted document, of that document's type. */
  ghost predicate FoundPosting(b: Book, id: nat, p: Event) {
    p in b.Events() && ActiveMove(b.Events(), p) && p.content.sourceResId == id && MatchesDocument(b, p)
  }

  ghost predicate FoundPostings(b: Book, ids: seq<nat>, postings: seq<Option<Event>>) {
    && |postings| == |ids|
    && forall k | 0 <= k < |ids| :: postings[k].Some? && FoundPosting(b, ids[k], postings[k].value)
  }

  /** The documents may change now: what was found can be reversed. */
  lemma FoundIsReversible(b: Book, b': Book, ids: seq<nat>, postings: seq<Option<Event>>)
    requires Consistent(b) && FoundPostings(b, ids, postings)
    requires b'.ledger == b.ledger && b'.moves.Keys == b.moves.Keys
    ensures PostingsOf(b', ids, postings)
  {
    assert CreditsMatchDocuments(b, {});
    hide Sound;
    forall k | 0 <= k < |ids| ensures postings[k].Some? && Reversible(b', ids[k], postings[k].value) {
      var p := postings[k].value;
      assert FoundPosting(b, ids[k], p);
      forall x | x in b'.Events() && ActiveCreditMove(b'.Events(), x) && x.content.sourceResId == ids[k]
        ensures x == p {
        assert ActiveCreditMove(b.Events(), x);
        assert ActiveOf(b.Events(), x, ids[k], CreditNotePosted) && ActiveOf(b.Events(), p, ids[k], CreditNotePosted);
      }
    }
  }

  ghost predicate SomeBlocked(b: Book, ids: seq<nat>)
    requires Closed(b) && forall id | id in ids :: id in b.moves
  {
    exists id | id in ids :: Blocked(b, id)
  }

  lemma {:induction false} EnsureEachOk(b: Book, ids: seq<nat>)
    requires Consistent(b) && Distinct(ids) && forall id | id in ids :: id in b.moves && PostedOutgoing(b, id)
    ensures EnsureEach(b, ids).Ok? <==> !SomeBlocked(b, ids)
    ensures EnsureEach(b, ids).Ok? ==>
      var (b', postings) := EnsureEach(b, ids).value;
      Consistent(b') && StayOne(b, b') && Grows(b, b', TouchedAll(b, ids)) && FoundPostings(b', ids, postings)
  {
    if |ids| == 0 {
      GrowsNothing(b, TouchedAll(b, ids));
    } else {
      var n := |ids| - 1;
      var prefix, id := ids[..n], ids[n];
      assert ids == prefix + [id];
      EnsureEachOk(b, prefix);
      if EnsureEach(b, prefix).Ok? {
        var (b1, postings) := EnsureEach(b, prefix).value;
        EnsureOk(b1, id, "imported");
        BlockedStays(b, b1, prefix, id);
        if EnsureEach(b, ids).Ok? {
          var r := EnsureMoveEvent(b1, id, "imported").value;
          EnsureStep(b, b1, r.0, prefix, id, postings, r.1);
        }
      }
    }
  }

  lemma BlockedStays(b: Book, b1: Book, prefix: seq<nat>, id: nat)
    requires Closed(b) && (forall x | x in prefix + [id] :: x in b.moves) && Distinct(prefix + [id])
    requires Grows(b, b1, TouchedAll(b, prefix)) && Closed(b1)
    ensures Blocked(b1, id) == Blocked(b, id)
  {
    if CreditsAcrossCompanies(b, id) {
      forall x | x in prefix ensures x != id {
        var k :| 0 <= k < |prefix| && prefix[k] == x;
        assert (prefix + [id])[k] == x && (prefix + [id])[|prefix|] == id;
      }
      assert id !in TouchedAll(b, prefix);
      GrowsKeepsActive(b, b1, TouchedAll(b, prefix), id, CreditNotePosted);
      ActiveIsFound(b, id);
      ActiveIsFound(b1, id);
    }
  }

  lemma EnsureStep(b: Book, b1: Book, b2: Book, prefix: seq<nat>, id: nat, postings: seq<Option<Event>>,
                   e: Option<Event>)
    requires Closed(b) && Closed(b1) && forall x | x in prefix + [id] :: x in b.moves && PostedOutgoing(b, x)
    requires SameDocuments(b, b1) && Consistent(b1) && StayOne(b, b1) && Grows(b, b1, TouchedAll(b, prefix))
    requires FoundPostings(b1, prefix, postings) && EnsuredOf(b1, b2, id, e)
    ensures Consistent(b2) && StayOne(b, b2) && Grows(b, b2, TouchedAll(b, prefix + [id]))
    ensures FoundPostings(b2, prefix + [id], postings + [e])
  {
    hide Sound, One, Grows, Has, FoundPosting, Emitted;
    assert Touched(b1, id) == Touched(b, id);
    GrowsOn(b, b1, b2, TouchedAll(b, prefix), Touched(b, id));
    assert TouchedAll(b, prefix + [id]) == TouchedAll(b, prefix) + Touched(b, id);
    EnsuredIsFound(b1, b2, id, e.value);
    forall k | 0 <= k < |prefix + [id]|
      ensures (postings + [e])[k].Some? && FoundPosting(b2, (prefix + [id])[k], (postings + [e])[k].value)
    {
      if k < |prefix| { FoundStays(b1, b2, Touched(b, id), prefix[k], postings[k].value); }
    }
  }

  lemma EnsuredIsFound(b: Book, b': Book, id: nat, e: Event)
    requires Closed(b) && id in b.moves && PostedOutgoing(b, id) && Emitted(b, b', id, e)
      && Grows(b, b', Touched(b, id))
    ensures FoundPosting(b', id, e)
  {}

  lemma FoundStays(b: Book, b': Book, touched: set<nat>, id: nat, p: Event)
    requires FoundPosting(b, id, p) && Grows(b, b', touched)
    ensures FoundPosting(b', id, p)
  {}

  /** Exactly the given postings are no longer active; nothing else changed its activity. */
  ghost predicate LostExactly(b: Book, b': Book, postings: seq<Option<Event>>) {
    forall x :: x in b'.Events() && ActiveMove(b'.Events(), x)
      <==> x in b.Events() && ActiveMove(b.Events(), x) && Some(x) !in postings
  }

  ghost predicate Unposted(b: Book, b': Book, ids: seq<nat>, postings: seq<Option<Event>>, pending: set<nat>) {
    && Sound(b', pending - ToSet(ids)) && b'.moves == b.moves && b.Events() <= b'.Events()
    && LostExactly(b, b', postings)
  }

  lemma {:induction false} ReverseEachOk(b: Book, ids: seq<nat>, postings: seq<Option<Event>>,
                                         destination: MoveState, now: int, pending: set<nat>)
    requires Sound(b, pending) && Distinct(ids) && !destination.Posted?
    requires PostingsOf(b, ids, postings) && forall id | id in ids :: id in b.moves
    ensures ReverseEach(b, ids, postings, destination, now).Ok?
    ensures Unposted(b, ReverseEach(b, ids, postings, destination, now).value, ids, postings, pending)
  {
    hide Sound, EmitPostingReversal, CounteredWell, ActivePosting;
    if |ids| == 0 {
      assert pending - ToSet(ids) == pending;
    } else {
      var n := |ids| - 1;
      var prefix, id, p := ids[..n], ids[n], postings[n].value;
      assert ids == prefix + [id] && postings == postings[..n] + [Some(p)];
      ReverseEachOk(b, prefix, postings[..n], destination, now, pending);
      var b1 := ReverseEach(b, prefix, postings[..n], destination, now).value;
      StillReversible(b, b1, ids, postings, pending, n);
      PostingReversalOk(b1, id, p, destination, now, pending - ToSet(prefix));
      UnpostStep(b, b1, EmitPostingReversal(b1, id, p, destination, now).value, prefix, postings[..n], id, p,
        ReversalEvent(b1, id, p, destination, now), pending);
    }
  }

  /** The earlier reversals of a batch leave the later postings alone. */
  lemma StillReversible(b: Book, b1: Book, ids: seq<nat>, postings: seq<Option<Event>>, pending: set<nat>, n: nat)
    requires Distinct(ids) && PostingsOf(b, ids, postings) && n < |ids|
    requires Unposted(b, b1, ids[..n], postings[..n], pending)
    ensures Reversible(b1, ids[n], postings[n].value)
  {
    hide Sound, ActivePosting;
    var id, p := ids[n], postings[n].value;
    assert Reversible(b, id, p);
    forall k | 0 <= k < n ensures postings[..n][k] != Some(p) { assert Reversible(b, ids[k], postings[k].value); }
    assert ActiveMove(b1.Events(), p);
    forall x | x in b1.Events() && ActiveCreditMove(b1.Events(), x) && x.content.sourceResId == id ensures x == p {
      assert ActiveMove(b.Events(), x) && ActiveCreditMove(b.Events(), x);
    }
  }

  lemma UnpostStep(b: Book, b1: Book, b2: Book, prefix: seq<nat>, postings: seq<Option<Event>>, id: nat, p: Event,
                   e: Event,
                   pending: set<nat>)
    requires Unposted(b, b1, prefix, postings, pending) && CounteredWell(b1, b2, id, p, e, pending - ToSet(prefix))
    ensures Unposted(b, b2, prefix + [id], postings + [Some(p)], pending)
  {
    hide Sound, ActiveMove;
    assert pending - ToSet(prefix + [id]) == pending - ToSet(prefix) - {id};
    forall x ensures x in b2.Events() && ActiveMove(b2.Events(), x)
      <==> x in b.Events() && ActiveMove(b.Events(), x) && Some(x) !in postings + [Some(p)]
    {
      assert x in b2.Events() && ActiveMove(b2.Events(), x) <==>
        x in b1.Events() && ActiveMove(b1.Events(), x) && x != p;
    }
  }
}
