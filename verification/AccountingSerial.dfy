/** Whole operations repeat themselves on every consistent book that agrees on their rows. */
module AccountingSerial {
  import opened Common
  import opened BusinessEventDto
  import opened Ledger
  import opened LedgerTheorems
  import opened Accounting
  import opened AccountingInvariants
  import opened AccountingPosting
  import opened AccountingTheorems
  import opened AccountingUnposting
  import opened AccountingHistory
  import opened AccountingOperations
  import opened AccountingFrames
  import opened AccountingReplay

  ghost predicate Same(a: Book, ra: Result<Book, Rejection>, b: Book, rb: Result<Book, Rejection>, f: set<nat>) {
    if ra.Ok? then rb.Ok? && InStep(a, ra.value, b, rb.value, f) else rb.Err? && ra.error == rb.error
  }

  ghost predicate NeedsAll(b: Book, ids: seq<nat>, f: set<nat>) {
    forall id | id in ids :: Needs(b, id, f)
  }

  // ---------- Posting ----------

  lemma PostOneAlike(a: Book, b: Book, f: set<nat>, id: nat, now: int)
    requires Paired(a, b, f) && Needs(a, id, f) && a.moves[id].Outgoing()
    ensures Closed(a) && Closed(b) && id in b.moves
    ensures Same(a, PostOne(a, id, now), b, PostOne(b, id, now), f)
  {
    hide Sound, Twin, Traced, InStep, EmitMoveEvent, EmitReady;
    PairedRows(a, b, f, id);
    if PostedOutgoing(a, id) {
      Advanced(a, b, f, id, None);
      var a1, b1 := NextSequence(a, id), NextSequence(b, id);
      var key := MovePosting(id, None, a1.moves[id].sequence);
      EmitAlike(a1, b1, f, id, key, now, "first_party");
      var ra := EmitMoveEvent(a1, id, key, now, "first_party");
      if ra.Ok? { StepOn(a, a1, ra.value.0, b, b1, EmitMoveEvent(b1, id, key, now, "first_party").value.0, f); }
    } else {
      StayInStep(a, b, f);
    }
  }

  lemma PairedBooks(a: Book, b: Book, f: set<nat>)
    requires Paired(a, b, f)
    ensures Sound(a, {}) && Sound(b, {}) && Twin(a, b, f) && Closed(a) && Closed(b)
  {
    hide Twin;
  }

  lemma NeedsRow(b: Book, id: nat, f: set<nat>)
    requires Needs(b, id, f)
    ensures id in b.moves && id in f
  {}

  lemma NeedsKept(b: Book, b': Book, ids: seq<nat>, f: set<nat>)
    requires NeedsAll(b, ids, f) && SameDocuments(b, b')
    ensures NeedsAll(b', ids, f)
  {}

  lemma {:induction false} PostEachAlike(a: Book, b: Book, f: set<nat>, ids: seq<nat>, now: int)
    requires Paired(a, b, f) && NeedsAll(a, ids, f) && forall id | id in ids :: a.moves[id].Outgoing()
    ensures Closed(a) && Closed(b) && forall id | id in ids :: id in b.moves
    ensures Same(a, PostEach(a, ids, now), b, PostEach(b, ids, now), f)
  {
    PairedBooks(a, b, f);
    hide Sound, Twin, InStep, PostOne, Closed, Grows, TouchedAll, Crosses, SameDocuments, Paired, Needs, Traced, Rank,
      CreditsAcrossCompanies;
    forall id | id in ids ensures id in a.moves && id in b.moves && a.moves[id] == b.moves[id] {
      NeedsRow(a, id, f);
      PairedRows(a, b, f, id);
      NeedsRow(b, id, f);
    }
    if |ids| == 0 {
      StayInStep(a, b, f);
    } else {
      var prefix, id := ids[..|ids| - 1], ids[|ids| - 1];
      PostEachAlike(a, b, f, prefix, now);
      PostEachOk(a, prefix, now);
      PostEachOk(b, prefix, now);
      if PostEach(a, prefix, now).Ok? {
        var a1, b1 := PostEach(a, prefix, now).value, PostEach(b, prefix, now).value;
        NeedsKept(a, a1, ids, f);
        StillPaired(a, a1, b, b1, f);
        SameDocumentsFacts(a, a1, id);
        PostOneAlike(a1, b1, f, id, now);
        if PostOne(a1, id, now).Ok? { StepOn(a, a1, PostOne(a1, id, now).value, b, b1, PostOne(b1, id, now).value, f); }
      }
    }
  }

  lemma StillPaired(a: Book, a1: Book, b: Book, b1: Book, f: set<nat>)
    requires InStep(a, a1, b, b1, f) && Sound(a1, {}) && Sound(b1, {})
    ensures Paired(a1, b1, f)
  {
    hide Sound, Twin;
  }

  lemma SameDocumentsFacts(b: Book, b': Book, id: nat)
    requires SameDocuments(b, b') && id in b.moves
    ensures id in b'.moves && b'.moves[id].Outgoing() == b.moves[id].Outgoing()
      && b'.moves[id].terms == b.moves[id].terms
    ensures b'.moves[id].state == b.moves[id].state && b'.moves[id].company == b.moves[id].company
  {}

  // ---------- Unposting ----------

  lemma {:induction false} EnsureEachAlike(a: Book, b: Book, f: set<nat>, ids: seq<nat>)
    requires Consistent(a) && Consistent(b) && Twin(a, b, f) && NeedsAll(a, ids, f)
    requires Distinct(ids) && forall id | id in ids :: PostedOutgoing(a, id)
    ensures Closed(a) && Closed(b) && forall id | id in ids :: id in b.moves && PostedOutgoing(b, id)
    ensures Alike(a, EnsureEach(a, ids), b, EnsureEach(b, ids), f)
  {
    assert Closed(a) && Closed(b);
    assert forall id | id in ids :: id in b.moves && PostedOutgoing(b, id);
    hide Sound, One, Twin, InStep, EnsureMoveEvent, Closed, Grows, TouchedAll, SomeBlocked, SameDocuments,
      FoundPostings;
    if |ids| == 0 {
      StayInStep(a, b, f);
    } else {
      var prefix, id := ids[..|ids| - 1], ids[|ids| - 1];
      EnsureEachAlike(a, b, f, prefix);
      EnsureEachOk(a, prefix);
      EnsureEachOk(b, prefix);
      if EnsureEach(a, prefix).Ok? {
        var a1, b1 := EnsureEach(a, prefix).value.0, EnsureEach(b, prefix).value.0;
        NeedsKept(a, a1, ids, f);
        StillPaired(a, a1, b, b1, f);
        EnsureAlike(a1, b1, f, id, "imported");
        var ra := EnsureMoveEvent(a1, id, "imported");
        if ra.Ok? { StepOn(a, a1, ra.value.0, b, b1, EnsureMoveEvent(b1, id, "imported").value.0, f); }
      }
    }
  }

  ghost predicate LinkWithin(p: Event, f: set<nat>) {
    LinkedMove(p).Some? ==> LinkedMove(p).value in f
  }

  lemma ReversalAlike(a: Book, b: Book, f: set<nat>, id: nat, p: Event, destination: MoveState, now: int,
                      pending: set<nat>)
    requires Sound(a, pending) && Reversible(a, id, p) && Sound(b, pending) && Reversible(b, id, p)
    requires Twin(a, b, f) && id in f && LinkWithin(p, f) && !destination.Posted?
    ensures Same(a, EmitPostingReversal(a, id, p, destination, now),
                 b, EmitPostingReversal(b, id, p, destination, now), f)
    ensures EmitPostingReversal(a, id, p, destination, now).Ok?
  {
    assert id in a.moves && id in b.moves;
    assert ReversalEvent(a, id, p, destination, now) == ReversalEvent(b, id, p, destination, now);
    hide Sound, Twin, InStep, EmitPostingReversal, Reversible, ReversalEvent, CounteredWell;
    PostingReversalOk(a, id, p, destination, now, pending);
    PostingReversalOk(b, id, p, destination, now, pending);
    var e := ReversalEvent(a, id, p, destination, now);
    var a1, b1 := EmitPostingReversal(a, id, p, destination, now).value,
      EmitPostingReversal(b, id, p, destination, now).value;
    CounteredFacts(a, a1, id, p, e, pending, f);
    CounteredFacts(b, b1, id, p, e, pending, f);
    StepEvent(a, a1, b, b1, f, e);
  }

  lemma CounteredFacts(b: Book, b': Book, id: nat, p: Event, e: Event, pending: set<nat>, f: set<nat>)
    requires CounteredWell(b, b', id, p, e, pending) && id in f && LinkWithin(p, f)
    ensures b'.Events() == b.Events() + [e] && b'.moves == b.moves && b'.currencies == b.currencies && Within(e, f)
  {
    hide Sound, ActivePosting;
  }

  ghost predicate LinksWithin(postings: seq<Option<Event>>, f: set<nat>) {
    forall k | 0 <= k < |postings| :: postings[k].Some? ==> LinkWithin(postings[k].value, f)
  }

  lemma {:induction false} ReverseEachAlike(a: Book, b: Book, f: set<nat>, ids: seq<nat>, postings: seq<Option<Event>>,
                                            destination: MoveState, now: int, pending: set<nat>)
    requires Sound(a, pending) && Sound(b, pending) && Twin(a, b, f)
    requires Distinct(ids) && (forall id | id in ids :: id in f && id in a.moves && id in b.moves)
      && !destination.Posted?
    requires PostingsOf(a, ids, postings) && PostingsOf(b, ids, postings) && LinksWithin(postings, f)
    ensures Same(a, ReverseEach(a, ids, postings, destination, now),
                 b, ReverseEach(b, ids, postings, destination, now), f)
    ensures ReverseEach(a, ids, postings, destination, now).Ok?
  {
    hide Sound, Twin, InStep, EmitPostingReversal, Reversible, Unposted;
    if |ids| == 0 {
      StayInStep(a, b, f);
    } else {
      var n := |ids| - 1;
      var prefix, id, p := ids[..n], ids[n], postings[n].value;
      ReverseEachAlike(a, b, f, prefix, postings[..n], destination, now, pending);
      ReverseEachOk(a, prefix, postings[..n], destination, now, pending);
      ReverseEachOk(b, prefix, postings[..n], destination, now, pending);
      var a1, b1 := ReverseEach(a, prefix, postings[..n], destination, now).value,
        ReverseEach(b, prefix, postings[..n], destination, now).value;
      StillReversible(a, a1, ids, postings, pending, n);
      StillReversible(b, b1, ids, postings, pending, n);
      UnpostedSound(a, a1, prefix, postings[..n], pending);
      UnpostedSound(b, b1, prefix, postings[..n], pending);
      InStepTwin(a, a1, b, b1, f);
      ReversalAlike(a1, b1, f, id, p, destination, now, pending - ToSet(prefix));
      StepOn(a, a1, EmitPostingReversal(a1, id, p, destination, now).value, b, b1,
        EmitPostingReversal(b1, id, p, destination, now).value, f);
    }
  }

  lemma InStepTwin(a: Book, a1: Book, b: Book, b1: Book, f: set<nat>)
    requires InStep(a, a1, b, b1, f)
    ensures Twin(a1, b1, f)
  {}

  lemma UnpostedSound(b: Book, b1: Book, prefix: seq<nat>, postings: seq<Option<Event>>, pending: set<nat>)
    requires Unposted(b, b1, prefix, postings, pending)
    ensures Sound(b1, pending - ToSet(prefix))
  {
    hide Sound;
  }

  // ---------- Native changes ----------

  lemma {:induction false} CandidatesAlike(a: Book, b: Book, f: set<nat>, ids: seq<nat>, posted: bool)
    requires Twin(a, b, f) && forall id | id in ids :: id in f && id in a.moves && id in b.moves
    ensures Candidates(a, ids, posted) == Candidates(b, ids, posted)
  {
    if |ids| > 0 {
      CandidatesAlike(a, b, f, ids[..|ids| - 1], posted);
    }
  }

  lemma NativePostAlike(a: Book, b: Book, f: set<nat>, ids: set<nat>)
    requires Twin(a, b, f) && ids <= f
    ensures InStep(a, NativePost(a, ids), b, NativePost(b, ids), f)
  {
    StepRows(a, NativePost(a, ids), b, NativePost(b, ids), f);
  }

  lemma NativeUnpostAlike(a: Book, b: Book, f: set<nat>, ids: set<nat>, destination: MoveState, after: map<nat, Terms>)
    requires Twin(a, b, f) && ids <= f
    ensures InStep(a, NativeUnpost(a, ids, destination, after), b, NativeUnpost(b, ids, destination, after), f)
  {
    StepRows(a, NativeUnpost(a, ids, destination, after), b, NativeUnpost(b, ids, destination, after), f);
  }

  /** The rows an operation updates cover everything its documents need. */
  lemma FenceCovers(b: Book, cs: seq<nat>, f: set<nat>)
    requires (forall id | id in cs :: id in b.moves) && Fence(b, cs) <= f
    ensures NeedsAll(b, cs, f)
  {
    forall id | id in cs ensures Needs(b, id, f) {
      assert id in Fence(b, cs);
      if b.moves[id].terms.reversedEntry.Some? { assert b.moves[id].terms.reversedEntry.value in Fence(b, cs); }
    }
  }

  // ---------- Operations ----------

  /** The second book knows every document the first one knows. */
  predicate Newer(a: Book, b: Book) {
    a.moves.Keys <= b.moves.Keys
  }

  lemma AllowedAlike(a: Book, b: Book, f: set<nat>, op: MoveOp)
    requires Twin(a, b, f) && Newer(a, b) && Allowed(a, op) && Rows(a, op) <= f
    ensures Allowed(b, op)
  {
    hide Fence;
    if op.Create? {
      assert op.id in Rows(a, op);
    } else if op.Edit? {
      assert op.id in Rows(a, op);
    } else if op.Unpost? {
      forall id | id in op.after ensures TermsOk(b, op.after[id]) { assert TermsOk(a, op.after[id]); }
    }
  }

  lemma PostBatchAlike(a: Book, b: Book, f: set<nat>, op: MoveOp)
    requires Consistent(a) && Consistent(b) && Twin(a, b, f) && op.PostBatch?
    requires Closed(a) && Closed(b) && Allowed(a, op) && Allowed(b, op) && Rows(a, op) <= f
    ensures Same(a, Apply(a, op), b, Apply(b, op), f)
  {
    var ids, posted := op.ids, ToSet(op.ids) - op.deferred;
    var cs := Candidates(a, ids, false);
    assert Fence(a, cs) <= f;
    assert forall id | id in ids :: id in f && id in a.moves && id in b.moves by {
      assert forall id | id in ids :: id in Rows(a, op);
    }
    CandidatesAlike(a, b, f, ids, false);
    FenceCovers(a, cs, f);
    hide Sound, One, Twin, InStep, PostEach, Fence, Rows, Needs;
    PostRest(a, b, f, cs, posted, op.now);
  }

  lemma PostRest(a: Book, b: Book, f: set<nat>, cs: seq<nat>, posted: set<nat>, now: int)
    requires Consistent(a) && Consistent(b) && Twin(a, b, f) && posted <= f && NeedsAll(a, cs, f)
    requires forall id | id in cs :: id in a.moves && id in b.moves && a.moves[id].Outgoing()
    ensures var a1, b1 := NativePost(a, posted), NativePost(b, posted);
      && Closed(a1) && Closed(b1) && (forall id | id in cs :: id in a1.moves && id in b1.moves)
      && Same(a, PostEach(a1, cs, now), b, PostEach(b1, cs, now), f)
  {
    var a1, b1 := NativePost(a, posted), NativePost(b, posted);
    assert NeedsAll(a1, cs, f) && forall id | id in cs :: a1.moves[id].Outgoing();
    hide Sound, One, InvoicesMatchDocuments, Twin, InStep, PostEach, NativePost, NeedsAll;
    NativePostAlike(a, b, f, posted);
    NativePostSound(a, posted);
    NativePostSound(b, posted);
    StillPaired(a, a1, b, b1, f);
    PostEachAlike(a1, b1, f, cs, now);
    hide Paired, Closed;
    if PostEach(a1, cs, now).Ok? {
      StepOn(a, a1, PostEach(a1, cs, now).value, b, b1, PostEach(b1, cs, now).value, f);
    }
  }

  lemma PostingsLinkWithin(b: Book, cs: seq<nat>, postings: seq<Option<Event>>, f: set<nat>)
    requires Consistent(b) && FoundPostings(b, cs, postings) && (forall id | id in cs :: id in b.moves)
      && Fence(b, cs) <= f
    ensures LinksWithin(postings, f)
  {
    assert CreditsMatchDocuments(b, {});
    hide Sound, One, Fence;
    forall k | 0 <= k < |postings| ensures postings[k].Some? ==> LinkWithin(postings[k].value, f) {
      var p := postings[k].value;
      assert FoundPosting(b, cs[k], p);
      if LinkedMove(p).Some? {
        PostingIsEither(b.Events(), p);
        assert !p.Type().InvoicePosted?;
        assert ActiveCreditMove(b.Events(), p);
        assert b.moves[cs[k]].terms.reversedEntry == LinkedMove(p);
        FenceHas(b, cs, cs[k]);
      }
    }
  }

  lemma FenceHas(b: Book, cs: seq<nat>, id: nat)
    requires (forall x | x in cs :: x in b.moves) && id in cs
    ensures id in Fence(b, cs)
    ensures b.moves[id].terms.reversedEntry.Some? ==> b.moves[id].terms.reversedEntry.value in Fence(b, cs)
  {}

  lemma UnpostAlike(a: Book, b: Book, f: set<nat>, op: MoveOp)
    requires Consistent(a) && Consistent(b) && Twin(a, b, f) && op.Unpost?
    requires Closed(a) && Closed(b) && Allowed(a, op) && Allowed(b, op) && Rows(a, op) <= f
    ensures Same(a, Apply(a, op), b, Apply(b, op), f)
  {
    var ids := op.ids;
    var cs := Candidates(a, ids, true);
    assert Fence(a, cs) <= f;
    assert forall id | id in ids :: id in f && id in a.moves && id in b.moves by {
      assert forall id | id in ids :: id in Rows(a, op);
    }
    CandidatesAlike(a, b, f, ids, true);
    CandidatesDistinct(a, ids, true);
    FenceCovers(a, cs, f);
    assert forall id | id in cs :: PostedOutgoing(a, id);
    hide Sound, One, Twin, InStep, Fence, Rows, EnsureEach, ReverseEach;
    EnsureEachAlike(a, b, f, cs);
    if EnsureEach(a, cs).Ok? {
      EnsureEachOk(a, cs);
      EnsureEachOk(b, cs);
      var r := EnsureEach(a, cs).value;
      FenceKept(a, r.0, cs);
      hide Grows, Consistent, TouchedAll, SameDocuments, FoundPostings, Candidates, Distinct;
      UnpostRest(a, r.0, b, EnsureEach(b, cs).value.0, f, ids, cs, r.1, op.destination, op.after, op.now);
    }
  }

  lemma FenceKept(b: Book, b': Book, cs: seq<nat>)
    requires SameDocuments(b, b') && forall id | id in cs :: id in b.moves
    ensures Fence(b', cs) == Fence(b, cs)
  {
    forall id | id in cs ensures id in b'.moves && b'.moves[id].terms == b.moves[id].terms {}
  }

  lemma UnpostRest(a: Book, a1: Book, b: Book, b1: Book, f: set<nat>, ids: seq<nat>, cs: seq<nat>,
                   postings: seq<Option<Event>>, destination: MoveState, after: map<nat, Terms>, now: int)
    requires InStep(a, a1, b, b1, f) && Consistent(a1) && Consistent(b1) && SameDocuments(a, a1) && SameDocuments(b, b1)
    requires FoundPostings(a1, cs, postings) && FoundPostings(b1, cs, postings) && Distinct(cs) && !destination.Posted?
    requires forall id | id in ids :: id in f && id in a.moves && id in b.moves
    requires cs == Candidates(a, ids, true) == Candidates(b, ids, true) && Fence(a1, cs) <= f
    requires forall id | id in after :: TermsOk(a, after[id]) && TermsOk(b, after[id])
    ensures var a2, b2 := NativeUnpost(a1, ToSet(ids), destination, after),
      NativeUnpost(b1, ToSet(ids), destination, after);
      && (forall id | id in cs :: id in a2.moves && id in b2.moves)
      && Same(a, ReverseEach(a2, cs, postings, destination, now), b, ReverseEach(b2, cs, postings, destination, now), f)
  {
    var a2, b2 := NativeUnpost(a1, ToSet(ids), destination, after), NativeUnpost(b1, ToSet(ids), destination, after);
    assert forall id | id in cs :: id in ids && id in a1.moves && id in b1.moves;
    PostingsLinkWithin(a1, cs, postings, f);
    UnpostReady(a, a1, ids, cs, postings, destination, after);
    UnpostReady(b, b1, ids, cs, postings, destination, after);
    InStepTwin(a, a1, b, b1, f);
    assert ToSet(ids) <= f;
    hide Sound, Twin, InStep, Fence, NativeUnpost, Consistent, ReverseEach, PostingsOf, FoundPostings, SameDocuments,
      Candidates, LinksWithin;
    NativeUnpostAlike(a1, b1, f, ToSet(ids), destination, after);
    InStepTwin(a1, a2, b1, b2, f);
    ReverseEachAlike(a2, b2, f, cs, postings, destination, now, ToSet(cs));
    StepOn(a, a1, a2, b, b1, b2, f);
    StepOn(a, a2, ReverseEach(a2, cs, postings, destination, now).value, b, b2,
      ReverseEach(b2, cs, postings, destination, now).value, f);
  }

  lemma UnpostReady(b: Book, b1: Book, ids: seq<nat>, cs: seq<nat>, postings: seq<Option<Event>>,
                    destination: MoveState, after: map<nat, Terms>)
    requires Consistent(b1) && SameDocuments(b, b1) && FoundPostings(b1, cs, postings)
    requires (forall id | id in ids :: id in b.moves) && cs == Candidates(b, ids, true)
    requires forall id | id in after :: TermsOk(b, after[id])
    ensures var b2 := NativeUnpost(b1, ToSet(ids), destination, after);
      Sound(b2, ToSet(cs)) && PostingsOf(b2, cs, postings) && b2.moves.Keys == b1.moves.Keys
  {
    assert forall id | id in after :: TermsOk(b1, after[id]);
    NativeUnpostSound(b1, ids, cs, destination, after);
    FoundIsReversible(b1, NativeUnpost(b1, ToSet(ids), destination, after), cs, postings);
    hide Sound, Consistent, PostingsOf, FoundPostings;
  }

  lemma BackfillAlike(a: Book, b: Book, f: set<nat>, id: nat)
    requires Consistent(a) && Consistent(b) && Twin(a, b, f) && id in a.moves && id in b.moves && Fence(a, [id]) <= f
    requires Closed(a) && Closed(b)
    ensures Same(a, Apply(a, Backfill(id)), b, Apply(b, Backfill(id)), f)
  {
    FenceCovers(a, [id], f);
    assert id in [id];
    hide Sound, One, Twin, InStep, Fence, EnsureMoveEvent;
    EnsureAlike(a, b, f, id, "imported");
  }

  /** An operation that succeeds on one book repeats itself on every consistent book that knows
   *  the same documents and agrees on the rows the operation updates. */
  lemma OperationRepeats(a: Book, b: Book, f: set<nat>, op: MoveOp)
    requires Consistent(a) && Consistent(b) && Twin(a, b, f) && Newer(a, b) && Allowed(a, op) && Rows(a, op) <= f
    ensures Closed(a) && Closed(b) && Allowed(b, op)
    ensures Same(a, Apply(a, op), b, Apply(b, op), f)
    ensures Apply(a, op).Ok? ==> Newer(Apply(a, op).value, Apply(b, op).value)
  {
    assert Closed(a) && Closed(b);
    AllowedAlike(a, b, f, op);
    hide Sound, One;
    match op {
      case PostBatch(_, _, _) => hide *; PostBatchAlike(a, b, f, op);
      case Unpost(_, _, _, _) => hide *; UnpostAlike(a, b, f, op);
      case Backfill(id) => BackfillAlike(a, b, f, id);
      case Edit(id, terms) =>
        assert id in f;
        StepRows(a, Apply(a, op).value, b, Apply(b, op).value, f);
      case Create(id, company, terms) =>
        assert id in f;
        StepRows(a, Apply(a, op).value, b, Apply(b, op).value, f);
    }
  }
}
