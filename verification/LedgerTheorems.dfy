/** What every history of deliveries keeps true of the business-event ledger. */
module LedgerTheorems {
  import opened Common
  import opened BusinessEventDto
  import opened Ledger

  // ---------- The structural invariant ----------

  /** What a stored reversal edge from e to o promises. */
  predicate Edge(e: Event, o: Event) {
    && e.reverses == Some(o.Id())
    && e.content.sourceSystem == o.content.sourceSystem
    && ChainValid(e, o)
    && ReversedType(e.Type()) == Some(o.Type())
    && e.content.currency == o.content.currency
    && (o.reverses.Some? ==> e.Type().CreditNotePostingReversed? && o.Type().CreditNotePosted?)
    && (IsRequiredReversal(e.Type()) ==> e.Micros() == -o.Micros())
  }

  predicate Extends(p: seq<Event>, e: Event) {
    && (forall x | x in p :: x.Id() != e.Id())
    && ValidContent(e.content)
    && (e.reverses.None? ==> e.root.None? && !IsRequiredReversal(e.Type()))
    && (e.reverses.Some? ==> exists o | o in p :: Edge(e, o))
    && (IsRequiredReversal(e.Type()) ==> !Cancelled(p, e.reverses.value))
  }

  /** Every event is unique, valid, and linked only to an earlier event that it may reverse. */
  predicate WellFormed(l: seq<Event>) {
    |l| == 0 || (WellFormed(l[..|l| - 1]) && Extends(l[..|l| - 1], l[|l| - 1]))
  }

  /** Uncancelled credits never exceed the invoice posting they are charged to. */
  predicate WithinBudget(l: seq<Event>) {
    forall o | o in l && o.Type().InvoicePosted? :: Abs(ActiveCredit(l, o.Id())) <= Abs(o.Micros())
  }

  lemma WellFormedAppend(l: seq<Event>, e: Event)
    requires WellFormed(l) && Extends(l, e)
    ensures WellFormed(l + [e])
  {
    assert (l + [e])[..|l|] == l;
  }

  lemma {:induction false} IdsUnique(l: seq<Event>, x: Event, y: Event)
    requires WellFormed(l) && x in l && y in l && x.Id() == y.Id()
    ensures x == y
  {
    var p := l[..|l| - 1];
    assert l == p + [l[|l| - 1]];
    if x in p && y in p {
      IdsUnique(p, x, y);
    }
  }

  lemma {:induction false} Members(l: seq<Event>, e: Event)
    requires WellFormed(l) && e in l
    ensures ValidContent(e.content)
    ensures e.reverses.None? ==> e.root.None? && !IsRequiredReversal(e.Type())
    ensures e.reverses.Some? ==> exists o | o in l :: Edge(e, o)
  {
    var p := l[..|l| - 1];
    assert l == p + [l[|l| - 1]];
    if e in p {
      Members(p, e);
    }
  }

  lemma {:induction false} SingleCanceller(l: seq<Event>, x: Event, y: Event, ref: Ref)
    requires WellFormed(l) && x in l && y in l && Cancels(x, ref) && Cancels(y, ref)
    ensures x == y
  {
    var p := l[..|l| - 1];
    assert l == p + [l[|l| - 1]];
    if x in p && y in p {
      SingleCanceller(p, x, y, ref);
    }
  }

  lemma FindMember(l: seq<Event>, e: Event)
    requires WellFormed(l) && e in l
    ensures Find(l, e.Id()) == Some(e)
  {
    IdsUnique(l, e, Find(l, e.Id()).value);
  }

  /** Only posting counterevents cancel postings, so the projection of active postings is exact. */
  lemma ActiveIffUncancelled(l: seq<Event>, e: Event)
    requires WellFormed(l) && e in l && IsPosting(e.Type())
    ensures ActivePosting(l, e) <==> !Cancelled(l, e.Id())
  {
    forall x | x in l && Cancels(x, e.Id()) ensures IsPostingReversal(x.Type()) {
      Members(l, x);
      var o :| o in l && Edge(x, o);
      IdsUnique(l, o, e);
    }
  }

  // ---------- Sums ----------

  lemma SumAppend(l: seq<Event>, e: Event, p: Event -> bool)
    ensures SumIf(l + [e], p) == SumIf(l, p) + if p(e) then e.Micros() else 0
  {
    assert (l + [e])[..|l|] == l;
  }

  lemma {:induction false} SumCongruent(l: seq<Event>, p: Event -> bool, q: Event -> bool)
    requires forall e | e in l :: p(e) == q(e)
    ensures SumIf(l, p) == SumIf(l, q)
  {
    if |l| > 0 {
      SumCongruent(l[..|l| - 1], p, q);
    }
  }

  /** Dropping one member from the selection drops its amount. */
  lemma {:induction false} SumWithout(l: seq<Event>, p: Event -> bool, q: Event -> bool, x: Event)
    requires WellFormed(l) && x in l && p(x) && !q(x)
    requires forall e | e in l && e != x :: p(e) == q(e)
    ensures SumIf(l, p) == SumIf(l, q) + x.Micros()
  {
    var n := |l| - 1;
    if l[n] == x {
      SumCongruent(l[..n], p, q);
    } else {
      SumWithout(l[..n], p, q, x);
    }
  }

  /** Selecting more events, the extra ones not positive, can only lower the sum. */
  lemma {:induction false} SumMonotone(l: seq<Event>, p: Event -> bool, q: Event -> bool)
    requires forall e | e in l && p(e) :: q(e)
    requires forall e | e in l && q(e) && !p(e) :: e.Micros() <= 0
    ensures SumIf(l, q) <= SumIf(l, p)
  {
    if |l| > 0 {
      SumMonotone(l[..|l| - 1], p, q);
    }
  }

  // ---------- Conservation ----------

  /** The selection takes or leaves an event and its exact counterevent together. */
  predicate PairClosed(l: seq<Event>, t: EventType, sel: Event -> bool) {
    forall e, o | e in l && o in l && Edge(e, o) && RequiredReversed(e.Type()) == Some(t) :: sel(e) == sel(o)
  }

  /** Originals of type t and their counterevents, summed as flows. */
  function Net(l: seq<Event>, t: EventType, sel: Event -> bool): int {
    SumIf(l, e => sel(e) && (e.Type() == t || RequiredReversed(e.Type()) == Some(t)))
  }

  predicate Stands(l: seq<Event>, x: Event, t: EventType, sel: Event -> bool) {
    sel(x) && x.Type() == t && !Cancelled(l, x.Id())
  }

  /** Originals of type t that nothing has cancelled, summed as a balance. */
  function Standing(l: seq<Event>, t: EventType, sel: Event -> bool): int {
    SumIf(l, e => Stands(l, e, t, sel))
  }

  /** The flow of originals and counterevents equals the balance of uncancelled originals. */
  lemma {:induction false} Conservation(l: seq<Event>, t: EventType, sel: Event -> bool)
    requires WellFormed(l) && PairClosed(l, t, sel) && !IsRequiredReversal(t)
    ensures Net(l, t, sel) == Standing(l, t, sel)
  {
    if |l| > 0 {
      var p, e := l[..|l| - 1], l[|l| - 1];
      assert l == p + [e];
      Conservation(p, t, sel);
      ConservationStep(p, e, t, sel);
    }
  }

  lemma CancelledOnAppend(p: seq<Event>, e: Event, ref: Ref)
    ensures Cancelled(p + [e], ref) <==> Cancelled(p, ref) || Cancels(e, ref)
  {
    var l := p + [e];
    assert e in l && forall x | x in p :: x in l;
    if Cancelled(p, ref) {
      var c :| c in p && Cancels(c, ref);
      assert c in l;
    }
  }

  lemma ConservationStep(p: seq<Event>, e: Event, t: EventType, sel: Event -> bool)
    requires WellFormed(p) && Extends(p, e) && PairClosed(p + [e], t, sel) && !IsRequiredReversal(t)
    requires Net(p, t, sel) == Standing(p, t, sel)
    ensures Net(p + [e], t, sel) == Standing(p + [e], t, sel)
  {
    var l := p + [e];
    var after := (x: Event) => Stands(l, x, t, sel);
    SumAppend(p, e, x => sel(x) && (x.Type() == t || RequiredReversed(x.Type()) == Some(t)));
    SumAppend(p, e, after);
    LatestUncancelled(p, e);
    StandingChange(p, e, t, sel);
    if RequiredReversed(e.Type()) == Some(t) {
      var o :| o in p && Edge(e, o);
      assert o in l && e in l;
      assert sel(e) == sel(o);
      FindMember(p, o);
    }
  }

  lemma StandsOnAppend(p: seq<Event>, e: Event, o: Event, x: Event, t: EventType, sel: Event -> bool)
    requires WellFormed(p) && o in p && x in p && Edge(e, o) && IsRequiredReversal(e.Type())
    ensures x != o ==> Stands(p + [e], x, t, sel) == Stands(p, x, t, sel)
    ensures !Stands(p + [e], o, t, sel)
  {
    CancelledOnAppend(p, e, x.Id());
    CancelledOnAppend(p, e, o.Id());
    if x.Id() == o.Id() { IdsUnique(p, x, o); }
  }

  /** How the new event changes which earlier originals stand. */
  lemma StandingChange(p: seq<Event>, e: Event, t: EventType, sel: Event -> bool)
    requires WellFormed(p) && Extends(p, e)
    ensures SumIf(p, x => Stands(p + [e], x, t, sel)) == SumIf(p, x => Stands(p, x, t, sel))
      + if RequiredReversed(e.Type()) == Some(t) && sel(Find(p, e.reverses.value).value) then e.Micros() else 0
  {
    if IsRequiredReversal(e.Type()) {
      var o :| o in p && Edge(e, o);
      assert !Cancelled(p, o.Id());
      FindMember(p, o);
      TargetFalls(p, e, o, t, sel);
    } else {
      var before := (x: Event) => Stands(p, x, t, sel);
      var after := (x: Event) => Stands(p + [e], x, t, sel);
      hide Extends, WellFormed, Cancelled;
      forall x | x in p ensures before(x) == after(x) {
        CancelledOnAppend(p, e, x.Id());
      }
      SumCongruent(p, before, after);
    }
  }

  lemma TargetFalls(p: seq<Event>, e: Event, o: Event, t: EventType, sel: Event -> bool)
    requires WellFormed(p) && o in p && Edge(e, o) && IsRequiredReversal(e.Type()) && !Cancelled(p, o.Id())
    ensures SumIf(p, x => Stands(p + [e], x, t, sel)) == SumIf(p, x => Stands(p, x, t, sel))
      + if RequiredReversed(e.Type()) == Some(t) && sel(o) then e.Micros() else 0
  {
    var before := (x: Event) => Stands(p, x, t, sel);
    var after := (x: Event) => Stands(p + [e], x, t, sel);
    assert e.Micros() == -o.Micros() && RequiredReversed(e.Type()) == Some(o.Type());
    assert before(o) == (o.Type() == t && sel(o));
    hide Edge, WellFormed, Stands;
    forall x | x in p ensures (x != o ==> before(x) == after(x)) && !after(o) {
      StandsOnAppend(p, e, o, x, t, sel);
    }
    if before(o) {
      SumWithout(p, before, after, o);
    } else {
      SumCongruent(p, before, after);
    }
  }

  lemma LatestUncancelled(p: seq<Event>, e: Event)
    requires WellFormed(p) && Extends(p, e)
    ensures !Cancelled(p + [e], e.Id())
  {
    forall x | x in p + [e] ensures !Cancels(x, e.Id()) {
      if x.reverses.Some? {
        if x in p {
          Members(p, x);
          var o :| o in p && Edge(x, o);
        } else {
          var o :| o in p && Edge(x, o);
        }
      }
    }
  }

  // ---------- Credits ----------

  /** The credit flow charged to an invoice posting: its credits and their counterevents. */
  function CreditFlow(l: seq<Event>, invoice: Ref): int {
    Net(l, CreditNotePosted, (e: Event) => e.root == Some(invoice))
  }

  lemma CreditRoot(l: seq<Event>, e: Event)
    requires WellFormed(l) && e in l && e.Type().CreditNotePosted?
    ensures e.root == e.reverses
  {
    Members(l, e);
    if e.reverses.Some? {
      var o :| o in l && Edge(e, o);
      Members(l, o);
    }
  }

  /** The budget used by active credits is exactly the net flow of credit events. */
  lemma ActiveCreditIsFlow(l: seq<Event>, invoice: Event)
    requires WellFormed(l) && invoice in l && invoice.Type().InvoicePosted?
    ensures ActiveCredit(l, invoice.Id()) == CreditFlow(l, invoice.Id())
  {
    var id := invoice.Id();
    var sel := (e: Event) => e.root == Some(id);
    forall e, o | e in l && o in l && Edge(e, o) && RequiredReversed(e.Type()) == Some(CreditNotePosted)
      ensures sel(e) == sel(o)
    {
      CreditRoot(l, o);
      if o.root.None? && o.Id() == id { IdsUnique(l, o, invoice); }
    }
    Conservation(l, CreditNotePosted, sel);
    forall e | e in l && e.Type().CreditNotePosted?
      ensures (e.root == Some(id) && !Cancelled(l, e.Id())) == (CreditOf(e, id) && ActivePosting(l, e))
    {
      CreditRoot(l, e);
      ActiveIffUncancelled(l, e);
    }
    SumCongruent(l,
      e => Stands(l, e, CreditNotePosted, sel),
      e => CreditOf(e, id) && ActivePosting(l, e));
  }

  lemma ActiveCreditNonPositive(l: seq<Event>, invoice: Ref)
    requires WellFormed(l)
    ensures ActiveCredit(l, invoice) <= 0
  {
    var q := (e: Event) => CreditOf(e, invoice) && ActivePosting(l, e);
    forall e | e in l && q(e) ensures e.Micros() <= 0 {
      Members(l, e);
    }
    SumMonotone(l, e => false, q);
    NothingSelected(l);
  }

  lemma {:induction false} NothingSelected(l: seq<Event>)
    ensures SumIf(l, e => false) == 0
  {
    if |l| > 0 {
      NothingSelected(l[..|l| - 1]);
      SumCongruent(l[..|l| - 1], e => false, e => false);
    }
  }

  // ---------- Every accepted delivery keeps the invariant ----------

  lemma AdmittedExtends(l: seq<Event>, company: nat, currencies: set<string>, c: Content)
    requires WellFormed(l) && ValidContent(c)
    requires forall x | x in l :: x.Id() != EventRef(company, c.sourceSystem, c.key)
    requires Admit(l, company, currencies, c).Ok?
    ensures Extends(l, Admit(l, company, currencies, c).value)
  {
    var e := Admit(l, company, currencies, c).value;
    if e.reverses.Some? {
      var o := ReversedEvent(l, company, c).value.value;
      assert o in l && Edge(e, o);
      if IsRequiredReversal(e.Type()) {
        forall x | x in l ensures !Cancels(x, o.Id()) {
          if Cancels(x, o.Id()) {
            Members(l, x);
            var z :| z in l && Edge(x, z);
            IdsUnique(l, z, o);
          }
        }
      }
    }
  }

  /** Adding an event changes the credit against an invoice by its amount, or not at all. */
  lemma CreditStep(l: seq<Event>, e: Event, invoice: Event)
    requires WellFormed(l) && Extends(l, e) && invoice in l && invoice.Type().InvoicePosted?
    ensures ActiveCredit(l + [e], invoice.Id()) == ActiveCredit(l, invoice.Id()) +
      if e.root == Some(invoice.Id()) && (e.Type().CreditNotePosted? || e.Type().CreditNotePostingReversed?)
      then e.Micros() else 0
  {
    WellFormedAppend(l, e);
    ActiveCreditIsFlow(l, invoice);
    ActiveCreditIsFlow(l + [e], invoice);
    var id := invoice.Id();
    SumAppend(l, e, (x: Event) => x.root == Some(id)
      && (x.Type() == CreditNotePosted || RequiredReversed(x.Type()) == Some(CreditNotePosted)));
    assert RequiredReversed(e.Type()) == Some(CreditNotePosted) <==> e.Type().CreditNotePostingReversed?;
  }

  lemma BudgetKept(l: seq<Event>, company: nat, currencies: set<string>, c: Content)
    requires WellFormed(l) && WithinBudget(l) && ValidContent(c)
    requires forall x | x in l :: x.Id() != EventRef(company, c.sourceSystem, c.key)
    requires Admit(l, company, currencies, c).Ok?
    ensures WithinBudget(l + [Admit(l, company, currencies, c).value])
  {
    var e := Admit(l, company, currencies, c).value;
    AdmittedExtends(l, company, currencies, c);
    WellFormedAppend(l, e);
    forall o | o in l + [e] && o.Type().InvoicePosted?
      ensures Abs(ActiveCredit(l + [e], o.Id())) <= Abs(o.Micros())
    {
      hide Admit, WellFormed, Extends, ActiveCredit;
      if o in l { PostingKept(l, company, currencies, c, o); } else { NoCreditYet(l, e); }
    }
  }

  /** What the guard checked before it admitted a credit of an invoice posting. */
  lemma AdmittedFits(l: seq<Event>, company: nat, currencies: set<string>, c: Content, o: Event)
    requires WellFormed(l) && o in l && Admit(l, company, currencies, c).Ok? && c.eventType.CreditNotePosted?
    requires Admit(l, company, currencies, c).value.reverses == Some(o.Id())
    ensures Abs(ActiveCredit(l, o.Id()) + c.Micros()) <= Abs(o.Micros())
  {
    FindMember(l, o);
    hide ActiveCredit, WellFormed, ChainValid;
  }

  lemma PostingKept(l: seq<Event>, company: nat, currencies: set<string>, c: Content, o: Event)
    requires WellFormed(l) && WithinBudget(l) && ValidContent(c) && o in l && o.Type().InvoicePosted?
    requires Admit(l, company, currencies, c).Ok? && Extends(l, Admit(l, company, currencies, c).value)
    requires WellFormed(l + [Admit(l, company, currencies, c).value])
    ensures var e := Admit(l, company, currencies, c).value;
      Abs(ActiveCredit(l + [e], o.Id())) <= Abs(o.Micros())
  {
    var e := Admit(l, company, currencies, c).value;
    AdmittedShape(l, company, currencies, c);
    hide Admit, Extends, WellFormed, ActiveCredit;
    assert ValidContent(e.content);
    CreditStep(l, e, o);
    ActiveCreditNonPositive(l + [e], o.Id());
    if e.Type().CreditNotePosted? && e.root == Some(o.Id()) {
      CreditRoot(l + [e], e);
      AdmittedFits(l, company, currencies, c, o);
    }
  }

  /** An admitted event carries the payload, and refers to what the payload's key names. */
  lemma AdmittedShape(l: seq<Event>, company: nat, currencies: set<string>, c: Content)
    requires Admit(l, company, currencies, c).Ok?
    ensures var e := Admit(l, company, currencies, c).value;
      && e.content == c && e.company == company
      && (e.reverses.Some? <==> c.reversesKey.Some?)
      && (c.reversesKey.Some? ==> e.reverses == Some(EventRef(company, c.sourceSystem, c.reversesKey.value)))
  {
    hide ReversalRejection, ChainValid;
  }

  /** Whatever changes the credit against an invoice posting, a credit or the counterevent of one,
   *  contends for the lock of that very posting. */
  lemma BudgetUnderOneLock(l: seq<Event>, company: nat, currencies: set<string>, c: Content, invoice: Event)
    requires WellFormed(l) && ValidContent(c) && invoice in l && invoice.Type().InvoicePosted?
    requires forall x | x in l :: x.Id() != EventRef(company, c.sourceSystem, c.key)
    requires Admit(l, company, currencies, c).Ok?
    requires ActiveCredit(l + [Admit(l, company, currencies, c).value], invoice.Id()) != ActiveCredit(l, invoice.Id())
    ensures ReversalLockKey(l, company, c) == Some(invoice.Id())
  {
    var e := Admit(l, company, currencies, c).value;
    AdmittedExtends(l, company, currencies, c);
    AdmittedShape(l, company, currencies, c);
    var o :| e.reverses.Some? ==> o in l && Edge(e, o);
    hide Admit, Extends, WellFormed, ActiveCredit;
    CreditStep(l, e, invoice);
    WellFormedAppend(l, e);
    if e.Type().CreditNotePosted? {
      CreditRoot(l + [e], e);
    } else {
      FindMember(l, o);
      CreditRoot(l, o);
      if o.reverses.None? { IdsUnique(l, o, invoice); }
    }
  }

  lemma NoCreditYet(l: seq<Event>, e: Event)
    requires WellFormed(l) && Extends(l, e)
    ensures ActiveCredit(l + [e], e.Id()) == 0
  {
    var l' := l + [e];
    WellFormedAppend(l, e);
    forall x | x in l' ensures x.reverses != Some(e.Id()) {
      if x.reverses.Some? {
        if x in l {
          Members(l, x);
          var o :| o in l && Edge(x, o);
        } else {
          var o :| o in l && Edge(x, o);
        }
      }
    }
    SumCongruent(l', x => CreditOf(x, e.Id()) && ActivePosting(l', x), x => false);
    NothingSelected(l');
  }

  lemma IngestKeeps(s: State, company: nat, currencies: set<string>, p: Payload)
    requires WellFormed(s.events) && WithinBudget(s.events)
    ensures Ingest(s, company, currencies, p).Ok? ==>
      var s' := Ingest(s, company, currencies, p).value.0;
      WellFormed(s'.events) && WithinBudget(s'.events) && s.events <= s'.events
  {
    var r := Ingest(s, company, currencies, p);
    if r.Ok? && r.value.1 == Accepted {
      AdmittedExtends(s.events, company, currencies, p.content);
      WellFormedAppend(s.events, r.value.0.events[|s.events|]);
      BudgetKept(s.events, company, currencies, p.content);
    }
  }

  /** Safety over all histories: any sequence of deliveries, accepted or refused, from an empty
   *  ledger leaves a well-formed ledger in which no invoice posting is over-credited. */
  lemma {:induction false} LedgerSafety(currencies: set<string>, ds: seq<Delivery>)
    ensures WellFormed(DeliverAll(EMPTY, currencies, ds).events)
    ensures WithinBudget(DeliverAll(EMPTY, currencies, ds).events)
  {
    if |ds| > 0 {
      LedgerSafety(currencies, ds[..|ds| - 1]);
      var s, d := DeliverAll(EMPTY, currencies, ds[..|ds| - 1]), ds[|ds| - 1];
      IngestKeeps(s, d.company, currencies, d.payload);
    }
  }

  /** Cancelling a credit releases exactly its share, and only against its own invoice. */
  lemma CancellationReleases(s: State, company: nat, currencies: set<string>, p: Payload, credit: Event, invoice: Event)
    requires WellFormed(s.events) && invoice in s.events && invoice.Type().InvoicePosted?
    requires p.content.eventType.CreditNotePostingReversed? && credit in s.events
    requires p.content.reversesKey == Some(credit.content.key)
    requires company == credit.company && p.content.sourceSystem == credit.content.sourceSystem
    requires Ingest(s, company, currencies, p).Ok? && Ingest(s, company, currencies, p).value.1 == Accepted
    ensures ActivePosting(s.events, credit)
    ensures !ActivePosting(Ingest(s, company, currencies, p).value.0.events, credit)
    ensures ActiveCredit(Ingest(s, company, currencies, p).value.0.events, invoice.Id())
         == ActiveCredit(s.events, invoice.Id()) - if CreditOf(credit, invoice.Id()) then credit.Micros() else 0
  {
    var l := s.events;
    AdmittedExtends(l, company, currencies, p.content);
    FindMember(l, credit);
    var e := Admit(l, company, currencies, p.content).value;
    assert Ingest(s, company, currencies, p).value.0.events == l + [e];
    assert e in l + [e];
    CreditStep(l, e, invoice);
    CreditRoot(l, credit);
    ActiveIffUncancelled(l, credit);
    if credit.root.None? && credit.Id() == invoice.Id() { IdsUnique(l, credit, invoice); }
  }

  // ---------- Reversal chains ----------

  /** An event, the event it reverses, and so on to the event that reverses nothing. */
  function Chain(l: seq<Event>, e: Event): (c: seq<Event>)
    requires WellFormed(l) && e in l
    ensures |c| > 0 && c[0] == e
    ensures forall i | 0 <= i < |c| :: c[i] in l
    ensures forall i | 0 <= i < |c| - 1 :: Edge(c[i], c[i + 1]) && c[i].reverses.Some?
    ensures c[|c| - 1].reverses.None?
    decreases |l|
  {
    var p := l[..|l| - 1];
    assert l == p + [l[|l| - 1]];
    if e in p then Chain(p, e)
    else if e.reverses.None? then [e]
    else
      assert exists o :: o in p && Edge(e, o);
      FindEdge(p, e);
      [e] + Chain(p, Find(p, e.reverses.value).value)
  }

  lemma FindEdge(p: seq<Event>, e: Event)
    requires WellFormed(p) && e.reverses.Some? && exists o | o in p :: Edge(e, o)
    ensures Find(p, e.reverses.value).Some? && Edge(e, Find(p, e.reverses.value).value)
  {
    var o :| o in p && Edge(e, o);
    FindMember(p, o);
  }

  /** Reversal edges form a forest of height at most two, and the stored root is its end. */
  lemma ChainShape(l: seq<Event>, e: Event)
    requires WellFormed(l) && e in l
    ensures |Chain(l, e)| <= 3
    ensures e.root == if e.reverses.None? then None else Some(Chain(l, e)[|Chain(l, e)| - 1].Id())
  {
    var c := Chain(l, e);
    Members(l, e);
    if |c| > 1 {
      assert Edge(c[0], c[1]);
      Members(l, c[1]);
      if |c| > 2 {
        assert Edge(c[1], c[2]);
        Members(l, c[2]);
        assert c[2].reverses.None?;
      }
    }
  }

  // ---------- Periods and balances ----------

  predicate InScope(e: Event, company: nat, currency: string) {
    e.company == company && e.content.currency == currency
  }

  predicate PostingFlow(e: Event, company: nat, currency: string) {
    InScope(e, company, currency) && (IsPosting(e.Type()) || IsPostingReversal(e.Type()))
  }

  /** The flow of one period: postings and counterevents that occurred in it. */
  function PeriodFlow(l: seq<Event>, company: nat, currency: string, periodOf: int -> nat, k: nat): int {
    SumIf(l, e => PostingFlow(e, company, currency) && periodOf(e.content.occurredAt) == k)
  }

  function FirstPeriods(l: seq<Event>, company: nat, currency: string, periodOf: int -> nat, n: nat): int {
    if n == 0 then 0
    else FirstPeriods(l, company, currency, periodOf, n - 1) + PeriodFlow(l, company, currency, periodOf, n - 1)
  }

  /** The current balance: every posting not cancelled by its counterevent. */
  function ActiveBalance(l: seq<Event>, company: nat, currency: string): int {
    SumIf(l, e => InScope(e, company, currency) && ActivePosting(l, e))
  }

  lemma {:induction false} SumSplit(l: seq<Event>, p: Event -> bool, q: Event -> bool, r: Event -> bool)
    requires forall e | e in l :: (p(e) <==> q(e) || r(e)) && !(q(e) && r(e))
    ensures SumIf(l, p) == SumIf(l, q) + SumIf(l, r)
  {
    if |l| > 0 {
      SumSplit(l[..|l| - 1], p, q, r);
    }
  }

  lemma {:induction false} PeriodsAddUp(l: seq<Event>, company: nat, currency: string, periodOf: int -> nat, n: nat)
    ensures FirstPeriods(l, company, currency, periodOf, n)
         == SumIf(l, e => PostingFlow(e, company, currency) && periodOf(e.content.occurredAt) < n)
  {
    if n == 0 {
      SumCongruent(l, e => PostingFlow(e, company, currency) && periodOf(e.content.occurredAt) < 0, e => false);
      NothingSelected(l);
    } else {
      PeriodsAddUp(l, company, currency, periodOf, n - 1);
      SumSplit(l,
        e => PostingFlow(e, company, currency) && periodOf(e.content.occurredAt) < n,
        e => PostingFlow(e, company, currency) && periodOf(e.content.occurredAt) < n - 1,
        e => PostingFlow(e, company, currency) && periodOf(e.content.occurredAt) == n - 1);
    }
  }

  lemma PostingsBalance(l: seq<Event>, sel: Event -> bool)
    requires WellFormed(l) && PairClosed(l, InvoicePosted, sel) && PairClosed(l, CreditNotePosted, sel)
    ensures SumIf(l, e => sel(e) && (IsPosting(e.Type()) || IsPostingReversal(e.Type())))
         == SumIf(l, e => sel(e) && ActivePosting(l, e))
  {
    Conservation(l, InvoicePosted, sel);
    Conservation(l, CreditNotePosted, sel);
    SumSplit(l, e => sel(e) && (IsPosting(e.Type()) || IsPostingReversal(e.Type())),
      e => sel(e) && (e.Type() == InvoicePosted || RequiredReversed(e.Type()) == Some(InvoicePosted)),
      e => sel(e) && (e.Type() == CreditNotePosted || RequiredReversed(e.Type()) == Some(CreditNotePosted)));
    forall e | e in l && IsPosting(e.Type()) ensures ActivePosting(l, e) == !Cancelled(l, e.Id()) {
      ActiveIffUncancelled(l, e);
    }
    SumSplit(l, e => sel(e) && ActivePosting(l, e),
      e => Stands(l, e, InvoicePosted, sel),
      e => Stands(l, e, CreditNotePosted, sel));
  }

  /** In every reachable ledger, per company and currency, the flows of any set of periods that
   *  covers all events add up to the balance of the currently active postings. */
  lemma PeriodsMatchBalance(currencies: set<string>, ds: seq<Delivery>, company: nat, currency: string,
                            periodOf: int -> nat, n: nat)
    requires forall e | e in DeliverAll(EMPTY, currencies, ds).events :: periodOf(e.content.occurredAt) < n
    ensures var l := DeliverAll(EMPTY, currencies, ds).events;
      FirstPeriods(l, company, currency, periodOf, n) == ActiveBalance(l, company, currency)
  {
    var l := DeliverAll(EMPTY, currencies, ds).events;
    LedgerSafety(currencies, ds);
    PeriodsAddUp(l, company, currency, periodOf, n);
    var sel := (e: Event) => InScope(e, company, currency);
    PostingsBalance(l, sel);
    SumCongruent(l, e => PostingFlow(e, company, currency) && periodOf(e.content.occurredAt) < n,
      e => sel(e) && (IsPosting(e.Type()) || IsPostingReversal(e.Type())));
    SumCongruent(l, e => InScope(e, company, currency) && ActivePosting(l, e),
      e => sel(e) && ActivePosting(l, e));
  }

  // ---------- Observations ----------

  /** Every stored event keeps an accepted observation of its own content, and a disposition
   *  says truthfully whether the observed content is the stored one. */
  predicate ObservationsTruthful(s: State) {
    && (forall e | e in s.events :: exists o | o in s.observations ::
          o.event == e.Id() && o.content == e.content && o.disposition == Accepted)
    && (forall o | o in s.observations :: Find(s.events, o.event).Some? &&
          (o.disposition == Conflict <==> o.content != Find(s.events, o.event).value.content))
  }

  lemma ObserveTruthful(s: State, p: Payload, e: Event, d: Disposition)
    requires Find(s.events, e.Id()) == Some(e) && ObservationsTruthful(s)
    requires d == if e.content == p.content then Duplicate else Conflict
    ensures ObservationsTruthful(State(s.events, Observe(s.observations, e.Id(), p, d)))
  {
    var os := Observe(s.observations, e.Id(), p, d);
    assert s.observations <= os;
    forall x | x in s.events
      ensures exists o | o in os :: o.event == x.Id() && o.content == x.content && o.disposition == Accepted
    {
      var o :| o in s.observations && o.event == x.Id() && o.content == x.content && o.disposition == Accepted;
      assert o in os;
    }
  }

  lemma FindInExtension(l: seq<Event>, e: Event, ref: Ref)
    requires e.Id() != ref
    ensures Find(l + [e], ref) == Find(l, ref)
  {
    assert (l + [e])[..|l|] == l;
  }

  lemma AppendTruthful(s: State, p: Payload, e: Event)
    requires Find(s.events, e.Id()).None? && ObservationsTruthful(s) && e.content == p.content
    ensures ObservationsTruthful(State(s.events + [e], Observe(s.observations, e.Id(), p, Accepted)))
  {
    var os := Observe(s.observations, e.Id(), p, Accepted);
    var o' := Observation(e.Id(), p.observedAt, p.evidenceRef, p.content, Accepted);
    forall o | o in s.observations ensures o.event != e.Id()
      && Find(s.events + [e], o.event) == Find(s.events, o.event) {
      FindInExtension(s.events, e, o.event);
    }
    assert os == s.observations + [o'];
    assert forall o | o in os :: o in s.observations || o == o';
    forall x | x in s.events + [e]
      ensures exists o | o in os :: o.event == x.Id() && o.content == x.content && o.disposition == Accepted
    {
      if x in s.events {
        var o :| o in s.observations && o.event == x.Id() && o.content == x.content && o.disposition == Accepted;
        assert o in os;
      } else {
        assert o' in os;
      }
    }
    assert Find(s.events + [e], e.Id()) == Some(e);
  }

  lemma IngestObserves(s: State, company: nat, currencies: set<string>, p: Payload)
    requires ObservationsTruthful(s)
    ensures Ingest(s, company, currencies, p).Ok? ==> ObservationsTruthful(Ingest(s, company, currencies, p).value.0)
  {
    if ValidContent(p.content) {
      var existing := Find(s.events, EventRef(company, p.content.sourceSystem, p.content.key));
      if existing.Some? {
        ObserveTruthful(s, p, existing.value, if existing.value.content == p.content then Duplicate else Conflict);
      } else if Admit(s.events, company, currencies, p.content).Ok? {
        AppendTruthful(s, p, Admit(s.events, company, currencies, p.content).value);
      }
    }
  }

  lemma {:induction false} ObservationsAlwaysTruthful(currencies: set<string>, ds: seq<Delivery>)
    ensures ObservationsTruthful(DeliverAll(EMPTY, currencies, ds))
  {
    if |ds| > 0 {
      ObservationsAlwaysTruthful(currencies, ds[..|ds| - 1]);
      LedgerSafety(currencies, ds[..|ds| - 1]);
      var s, d := DeliverAll(EMPTY, currencies, ds[..|ds| - 1]), ds[|ds| - 1];
      IngestObserves(s, d.company, currencies, d.payload);
    }
  }

  /** Once a key is stored, no later delivery under it changes any event: an equal content is a
   *  duplicate and a different one is a conflict, whatever was delivered in between. */
  lemma {:induction false} KeysAreFinal(s: State, currencies: set<string>, ds: seq<Delivery>, e: Event, p: Payload)
    requires WellFormed(s.events) && WithinBudget(s.events) && e in s.events && ValidContent(p.content)
    requires EventRef(e.company, p.content.sourceSystem, p.content.key) == e.Id()
    ensures var s' := DeliverAll(s, currencies, ds);
      var r := Ingest(s', e.company, currencies, p);
      && WellFormed(s'.events) && WithinBudget(s'.events) && e in s'.events
      && r.Ok? && r.value.0.events == s'.events
      && r.value.1 == if p.content == e.content then Duplicate else Conflict
  {
    if |ds| > 0 {
      KeysAreFinal(s, currencies, ds[..|ds| - 1], e, p);
      var before, d := DeliverAll(s, currencies, ds[..|ds| - 1]), ds[|ds| - 1];
      IngestKeeps(before, d.company, currencies, d.payload);
    }
    FindMember(DeliverAll(s, currencies, ds).events, e);
  }
}
