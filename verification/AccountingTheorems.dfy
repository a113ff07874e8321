/** Whole operations on native documents: what they never refuse, and what they always keep. */
module AccountingTheorems {
  import opened Common
  import opened BusinessEventDto
  import opened Ledger
  import opened LedgerTheorems
  import opened Accounting
  import opened AccountingInvariants
  import opened AccountingPosting

  // ---------- Posting a batch ----------

  ghost predicate NewActive(b: Book, b': Book, id: nat, t: EventType) {
    exists e | e in b'.Events() :: e !in b.Events() && ActiveOf(b'.Events(), e, id, t)
  }

  ghost predicate PostedOne(b: Book, b': Book, id: nat)
    requires Closed(b) && id in b.moves && b.moves[id].Outgoing()
  {
    if !b.moves[id].state.Posted? then b' == b
    else
      && Sound(b', {}) && Grows(b, b', Touched(b, id))
      && NewActive(b, b', id, PostingType(b.moves[id].terms.moveType))
      && KeepsOne(b, b', id)
      && (forall x | x in OriginalOf(b, id) :: Has(b', x, InvoicePosted))
  }

  lemma PostOneOk(b: Book, id: nat, now: int)
    requires Sound(b, {}) && id in b.moves && b.moves[id].Outgoing()
    ensures var r := PostOne(b, id, now);
      if b.moves[id].state.Posted? && CreditsAcrossCompanies(b, id) then r == Err(Rejection.CrossCompany)
      else r.Ok? && PostedOne(b, r.value, id)
  {
    assert Closed(b);
    if b.moves[id].state.Posted? {
      var b1 := NextSequence(b, id);
      NextSequenceSound(b, id, None);
      EmitOk(b1, id, MovePosting(id, None, b1.moves[id].sequence), now, "first_party");
      if !CreditsAcrossCompanies(b, id) {
        var r := EmitMoveEvent(b1, id, MovePosting(id, None, b1.moves[id].sequence), now, "first_party").value;
        EmissionIsPosting(b, b1, r.0, id, r.1.value);
      }
    }
  }

  lemma EmissionIsPosting(b: Book, b1: Book, b2: Book, id: nat, e: Event)
    requires Sound(b, {}) && id in b.moves && PostedOutgoing(b, id)
    requires b1 == NextSequence(b, id) && Closed(b1) && Grows(b, b1, {id}) && EmissionOf(b1, b2, id, e)
    ensures PostedOne(b, b2, id)
  {
    assert Closed(b);
    hide Sound;
    GrowsOn(b, b1, b2, {id}, Touched(b, id));
    assert {id} + Touched(b, id) == Touched(b, id);
    assert ActiveOf(b2.Events(), e, id, PostingType(b.moves[id].terms.moveType));
    SameLedgerCounts(b, b1);
    hide One, Has, Grows;
    assert OriginalOf(b1, id) == OriginalOf(b, id);
  }

  function TouchedAll(b: Book, ids: seq<nat>): set<nat>
    requires Closed(b) && forall id | id in ids :: id in b.moves
  {
    set id, x | id in ids && b.moves[id].state.Posted? && x in Touched(b, id) :: x
  }

  predicate Crosses(b: Book, ids: seq<nat>)
    requires Closed(b) && forall id | id in ids :: id in b.moves
  {
    exists id | id in ids :: b.moves[id].state.Posted? && CreditsAcrossCompanies(b, id)
  }

  /** The ledger never refuses a posting; only a credit of another company's document fails. */
  lemma {:induction false} PostEachOk(b: Book, ids: seq<nat>, now: int)
    requires Sound(b, {}) && forall id | id in ids :: id in b.moves && b.moves[id].Outgoing()
    ensures PostEach(b, ids, now).Ok? <==> !Crosses(b, ids)
    ensures PostEach(b, ids, now).Ok? ==>
      Sound(PostEach(b, ids, now).value, {}) && Grows(b, PostEach(b, ids, now).value, TouchedAll(b, ids))
  {
    if |ids| == 0 {
      GrowsNothing(b, {});
      assert TouchedAll(b, ids) == {};
    } else {
      var prefix, id := ids[..|ids| - 1], ids[|ids| - 1];
      assert ids == prefix + [id];
      PostEachOk(b, prefix, now);
      if PostEach(b, prefix, now).Ok? {
        var b1 := PostEach(b, prefix, now).value;
        PostOneOk(b1, id, now);
        hide Sound, Grows, PostedOne;
        assert CreditsAcrossCompanies(b1, id) == CreditsAcrossCompanies(b, id);
        if PostOne(b1, id, now).Ok? {
          PostStep(b, b1, PostOne(b1, id, now).value, prefix, id);
        }
      }
    }
  }

  lemma PrefixStep(b: Book, b0: Book, b1: Book, b2: Book, prefix: seq<nat>, id: nat)
    requires Closed(b) && Closed(b1) && SameDocuments(b, b1) && forall x | x in prefix + [id] :: x in b.moves
    requires b.moves[id].Outgoing() && Grows(b0, b1, TouchedAll(b, prefix)) && PostedOne(b1, b2, id)
    ensures Grows(b0, b2, TouchedAll(b, prefix + [id]))
  {
    hide Sound, Grows, TouchedAll, Has, NewActive, KeepsOne;
    assert Touched(b1, id) == Touched(b, id);
    TouchedAppend(b, prefix, id);
    if b.moves[id].state.Posted? {
      GrowsOn(b0, b1, b2, TouchedAll(b, prefix), Touched(b, id));
    } else {
      assert TouchedAll(b, prefix) + {} == TouchedAll(b, prefix);
    }
  }

  lemma TouchedAppend(b: Book, prefix: seq<nat>, id: nat)
    requires Closed(b) && forall x | x in prefix + [id] :: x in b.moves
    ensures TouchedAll(b, prefix + [id]) == TouchedAll(b, prefix) + if b.moves[id].state.Posted? then Touched(b, id)
      else {}
  {}

  lemma PostStep(b: Book, b1: Book, b2: Book, prefix: seq<nat>, id: nat)
    requires Closed(b) && Closed(b1) && SameDocuments(b, b1) && forall x | x in prefix + [id] :: x in b.moves
    requires b.moves[id].Outgoing()
    requires Sound(b1, {}) && Grows(b, b1, TouchedAll(b, prefix)) && PostedOne(b1, b2, id)
    ensures Sound(b2, {}) && Grows(b, b2, TouchedAll(b, prefix + [id]))
  {
    PrefixStep(b, b, b1, b2, prefix, id);
    hide Sound, Grows;
  }

  predicate Precedes(ids: seq<nat>, x: nat, y: nat) {
    exists i, j :: 0 <= i < j < |ids| && ids[i] == x && ids[j] == y
  }

  /** No posted credit comes before the invoice posting it may have to record first. */
  predicate Ordered(b: Book, ids: seq<nat>)
    requires Closed(b) && forall id | id in ids :: id in b.moves
  {
    forall x, y | x in ids && y in ids && Precedes(ids, x, y) :: !(b.moves[x].state.Posted? && y in OriginalOf(b, x))
  }

  lemma OrderedPrefix(b: Book, ids: seq<nat>, n: nat)
    requires Closed(b) && (forall id | id in ids :: id in b.moves) && Ordered(b, ids) && n <= |ids|
    ensures Ordered(b, ids[..n])
  {
    forall x, y | x in ids[..n] && y in ids[..n] && Precedes(ids[..n], x, y) ensures Precedes(ids, x, y) {
      var i, j :| 0 <= i < j < n && ids[..n][i] == x && ids[..n][j] == y;
      assert ids[i] == x && ids[j] == y;
    }
  }

  /** A batch counts no document twice, given that its documents have no active posting yet; for
   *  invoices it must be ordered. */
  lemma {:induction false} BatchKeepsOne(b: Book, ids: seq<nat>, t: EventType, now: int)
    requires Sound(b, {}) && One(b, t) && Distinct(ids)
    requires forall id | id in ids ::
      && id in b.moves && b.moves[id].Outgoing()
      && (t == PostingType(b.moves[id].terms.moveType) ==> !Has(b, id, t))
    requires t == CreditNotePosted || Ordered(b, ids)
    requires PostEach(b, ids, now).Ok?
    ensures One(PostEach(b, ids, now).value, t)
  {
    if |ids| > 0 {
      var n := |ids| - 1;
      assert Closed(b);
      hide Sound, One, Has, Closed, Ordered, PostOne;
      if t != CreditNotePosted { OrderedPrefix(b, ids, n); }
      BatchKeepsOne(b, ids[..n], t, now);
      LastKeepsOne(b, ids, t, now);
    }
  }

  lemma LastKeepsOne(b: Book, ids: seq<nat>, t: EventType, now: int)
    requires Sound(b, {}) && Distinct(ids) && |ids| > 0 && Closed(b)
    requires forall id | id in ids :: id in b.moves && b.moves[id].Outgoing()
    requires var id := ids[|ids| - 1];
      id in b.moves && b.moves[id].Outgoing() && (t == PostingType(b.moves[id].terms.moveType) ==> !Has(b, id, t))
    requires t == CreditNotePosted || Ordered(b, ids)
    requires PostEach(b, ids, now).Ok? && One(PostEach(b, ids[..|ids| - 1], now).value, t)
    ensures One(PostEach(b, ids, now).value, t)
  {
    var n := |ids| - 1;
    var prefix, id := ids[..n], ids[n];
    hide Sound, One, Has, Grows, PostedOne, Closed, Ordered, TouchedAll, SameDocuments, Crosses, PostEach, PostOne,
      CreditsAcrossCompanies;
    PostEachLast(b, ids, now);
    PostEachOk(b, prefix, now);
    var b1 := PostEach(b, prefix, now).value;
    SameTerms(b, b1, id);
    if t == PostingType(b.moves[id].terms.moveType) {
      UntouchedBefore(b, ids, n);
      GrowsKeepsActive(b, b1, TouchedAll(b, prefix), id, t);
    }
    PostOneOk(b1, id, now);
    PostedKeepsOne(b1, PostOne(b1, id, now).value, id, t);
  }

  /** No earlier document touches a later credit, nor in an ordered batch a later invoice. */
  lemma UntouchedBefore(b: Book, ids: seq<nat>, n: nat)
    requires Closed(b) && Distinct(ids) && n < |ids| && (forall id | id in ids :: id in b.moves)
    requires b.moves[ids[n]].terms.moveType.OutRefund? || Ordered(b, ids)
    ensures ids[n] !in TouchedAll(b, ids[..n])
  {
    forall x | x in ids[..n] && b.moves[x].state.Posted? ensures ids[n] !in Touched(b, x) {
      var i :| 0 <= i < n && ids[..n][i] == x;
      assert ids[i] == x;
      assert Precedes(ids, x, ids[n]);
    }
  }

  lemma PostedKeepsOne(b: Book, b': Book, id: nat, t: EventType)
    requires Closed(b) && id in b.moves && b.moves[id].Outgoing() && PostedOne(b, b', id)
    requires One(b, t) && (t == PostingType(b.moves[id].terms.moveType) ==> !Has(b, id, t))
    ensures One(b', t)
  {
    hide Sound, One, Has, Grows;
  }

  lemma {:induction false} PrefixGrows(b: Book, ids: seq<nat>, n: nat, now: int)
    requires Sound(b, {}) && (forall id | id in ids :: id in b.moves && b.moves[id].Outgoing())
    requires n <= |ids| && PostEach(b, ids, now).Ok?
    ensures PostEach(b, ids[..n], now).Ok?
    ensures Grows(PostEach(b, ids[..n], now).value, PostEach(b, ids, now).value, TouchedAll(b, ids))
    decreases |ids|
  {
    assert Closed(b);
    hide Sound, Grows, PostedOne, TouchedAll, CreditsAcrossCompanies, PostOne;
    if n == |ids| {
      assert ids[..n] == ids;
      GrowsNothing(PostEach(b, ids, now).value, TouchedAll(b, ids));
    } else {
      var prefix, id := ids[..|ids| - 1], ids[|ids| - 1];
      assert prefix[..n] == ids[..n] && prefix + [id] == ids;
      PrefixGrows(b, prefix, n, now);
      PostEachOk(b, prefix, now);
      var b0, b1, b2 := PostEach(b, ids[..n], now).value, PostEach(b, prefix, now).value, PostEach(b, ids, now).value;
      PostOneOk(b1, id, now);
      SameOutgoing(b, b1, id);
      PrefixStep(b, b0, b1, b2, prefix, id);
    }
  }

  lemma TwoActive(b: Book, e: Event, x: Event, id: nat, t: EventType)
    requires e in b.Events() && x in b.Events() && e != x
    requires ActiveOf(b.Events(), e, id, t) && ActiveOf(b.Events(), x, id, t)
    ensures !One(b, t)
  {}

  lemma GrowsKeepsTwo(b: Book, b': Book, touched: set<nat>, t: EventType)
    requires Grows(b, b', touched) && !One(b, t)
    ensures !One(b', t)
  {
    var e, x :| e in b.Events() && x in b.Events() && ActiveOf(b.Events(), e, e.content.sourceResId, t)
      && ActiveOf(b.Events(), x, e.content.sourceResId, t) && e != x;
    TwoActive(b', e, x, e.content.sourceResId, t);
  }

  lemma LastPosted(b: Book, ids: seq<nat>, k: nat, now: int)
    requires Sound(b, {}) && (forall id | id in ids :: id in b.moves && b.moves[id].Outgoing())
    requires k < |ids| && PostEach(b, ids, now).Ok?
    ensures PostEach(b, ids[..k], now).Ok? && PostEach(b, ids[..k + 1], now).Ok?
    ensures var b0, b1 := PostEach(b, ids[..k], now).value, PostEach(b, ids[..k + 1], now).value;
      && SameDocuments(b, b0) && Closed(b0) && b0.moves[ids[k]].Outgoing()
      && PostedOne(b0, b1, ids[k]) && Grows(b1, PostEach(b, ids, now).value, TouchedAll(b, ids))
  {
    assert Closed(b);
    hide Sound, Grows, PostedOne, TouchedAll, PostOne, PostEach, CreditsAcrossCompanies, Crosses, SameDocuments;
    PrefixGrows(b, ids, k + 1, now);
    var upto := ids[..k + 1];
    assert upto[..k] == ids[..k] && upto[k] == ids[k];
    PrefixGrows(b, upto, k, now);
    PostEachOk(b, ids[..k], now);
    PostEachLast(b, upto, now);
    var b0 := PostEach(b, ids[..k], now).value;
    SameOutgoing(b, b0, ids[k]);
    PostOneOk(b0, ids[k], now);
  }

  lemma SameOutgoing(b: Book, b0: Book, id: nat)
    requires SameDocuments(b, b0) && id in b.moves
    ensures id in b0.moves && b0.moves[id].Outgoing() == b.moves[id].Outgoing()
  {}

  lemma SameTerms(b: Book, b0: Book, id: nat)
    requires SameDocuments(b, b0) && id in b.moves
    ensures id in b0.moves && b0.moves[id].terms == b.moves[id].terms
  {}

  lemma PostEachLast(b: Book, ids: seq<nat>, now: int)
    requires Closed(b) && |ids| > 0 && (forall id | id in ids :: id in b.moves) && PostEach(b, ids, now).Ok?
    ensures var n := |ids| - 1;
      && PostEach(b, ids[..n], now).Ok? && Closed(PostEach(b, ids[..n], now).value)
      && ids[n] in PostEach(b, ids[..n], now).value.moves
      && PostEach(b, ids, now) == PostOne(PostEach(b, ids[..n], now).value, ids[n], now)
  {
    hide PostOne;
  }

  /** A credit posted before its own invoice in one batch leaves that invoice counted twice. */
  lemma UnorderedDoubles(b: Book, ids: seq<nat>, now: int)
    requires Sound(b, {}) && (forall id | id in ids :: id in b.moves && b.moves[id].Outgoing())
    requires !Ordered(b, ids) && PostEach(b, ids, now).Ok?
    ensures !One(PostEach(b, ids, now).value, InvoicePosted)
  {
    assert Closed(b);
    hide Sound, Grows, One, PostedOne, TouchedAll, PostEach, OriginalOf;
    var x, y :| x in ids && y in ids && Precedes(ids, x, y) && b.moves[x].state.Posted? && y in OriginalOf(b, x);
    var i, j :| 0 <= i < j < |ids| && ids[i] == x && ids[j] == y;
    PairDoubles(b, ids, i, j, now);
  }

  lemma EarlierPosted(b: Book, ids: seq<nat>, i: nat, j: nat, now: int)
    requires Sound(b, {}) && (forall id | id in ids :: id in b.moves && b.moves[id].Outgoing())
    requires i < j <= |ids| && PostEach(b, ids[..j], now).Ok?
    ensures PostEach(b, ids[..i], now).Ok? && PostEach(b, ids[..i + 1], now).Ok?
    ensures var b0, b1 := PostEach(b, ids[..i], now).value, PostEach(b, ids[..i + 1], now).value;
      && SameDocuments(b, b0) && Closed(b0) && b0.moves[ids[i]].Outgoing() && PostedOne(b0, b1, ids[i])
      && Grows(b1, PostEach(b, ids[..j], now).value, TouchedAll(b, ids[..j]))
  {
    assert Closed(b);
    hide Sound, Grows, PostedOne, TouchedAll, PostEach, SameDocuments;
    assert ids[..j][..i] == ids[..i] && ids[..j][..i + 1] == ids[..i + 1] && ids[..j][i] == ids[i];
    LastPosted(b, ids[..j], i, now);
  }

  lemma PairDoubles(b: Book, ids: seq<nat>, i: nat, j: nat, now: int)
    requires Sound(b, {}) && (forall id | id in ids :: id in b.moves && b.moves[id].Outgoing())
    requires i < j < |ids| && b.moves[ids[i]].state.Posted? && ids[j] in OriginalOf(b, ids[i])
    requires PostEach(b, ids, now).Ok?
    ensures !One(PostEach(b, ids, now).value, InvoicePosted)
  {
    assert Closed(b);
    assert ids[..|ids|] == ids;
    hide Sound, Grows, One, PostedOne, TouchedAll, PostEach, OriginalOf, SameDocuments;
    EarlierPosted(b, ids, j, |ids|, now);
    EarlierPosted(b, ids, i, j, now);
    Doubled(b, PostEach(b, ids[..i], now).value, PostEach(b, ids[..i + 1], now).value, PostEach(b, ids[..j], now).value,
      PostEach(b, ids[..j + 1], now).value, PostEach(b, ids, now).value, ids[i], ids[j], TouchedAll(b, ids[..j]),
        TouchedAll(b, ids));
  }

  lemma Doubled(b: Book, b0: Book, b1: Book, b2: Book, b3: Book, b4: Book, x: nat, y: nat, s: set<nat>, t: set<nat>)
    requires Closed(b) && x in b.moves && y in b.moves && b.moves[x].state.Posted? && y in OriginalOf(b, x)
    requires SameDocuments(b, b0) && Closed(b0) && b0.moves[x].Outgoing() && PostedOne(b0, b1, x)
    requires SameDocuments(b, b2) && Closed(b2) && b2.moves[y].Outgoing() && PostedOne(b2, b3, y)
    requires Grows(b1, b2, s) && Grows(b3, b4, t)
    ensures !One(b4, InvoicePosted)
  {
    hide Sound, One;
    assert OriginalOf(b0, x) == OriginalOf(b, x);
    GrowsKeepsActive(b1, b2, s, y, InvoicePosted);
    DoublePosted(b2, b3, y, Touched(b2, y), InvoicePosted);
    GrowsKeepsTwo(b3, b4, t, InvoicePosted);
  }

  lemma DoublePosted(b: Book, b': Book, id: nat, touched: set<nat>, t: EventType)
    requires Has(b, id, t) && NewActive(b, b', id, t) && Grows(b, b', touched)
    ensures !One(b', t)
  {
    var e :| e in b.Events() && ActiveOf(b.Events(), e, id, t);
    var x :| x in b'.Events() && x !in b.Events() && ActiveOf(b'.Events(), x, id, t);
    TwoActive(b', e, x, id, t);
  }
}
