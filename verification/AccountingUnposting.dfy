/** Unposting documents: each active posting gets exactly one counterevent. */
module AccountingUnposting {
  import opened Common
  import opened BusinessEventDto
  import opened Ledger
  import opened LedgerTheorems
  import opened Accounting
  import opened AccountingInvariants
  import opened AccountingPosting

  // ---------- One counterevent ----------

  function ReversalOf(t: EventType): EventType {
    if t.InvoicePosted? then InvoicePostingReversed else CreditNotePostingReversed
  }

  function ReversalContent(id: nat, p: Event, destination: MoveState, now: int): Content {
    Content(Revenue, ReversalOf(p.Type()), SYSTEM, MODEL, id, MoveUnposting(id, p.content.key), now, "first_party",
      Some(-p.Micros()), p.content.currency, Some(p.content.key), Departed(p.content.extensions, destination))
  }

  /** An active posting that can be reversed, and is the only active credit if it is one. */
  ghost predicate Reversible(b: Book, id: nat, p: Event) {
    && p in b.Events() && ActiveMove(b.Events(), p) && p.content.sourceResId == id && id in b.moves
    && forall x | x in b.Events() && ActiveCreditMove(b.Events(), x) && x.content.sourceResId == id :: x == p
  }

  function ReversalEvent(b: Book, id: nat, p: Event, destination: MoveState, now: int): Event
    requires id in b.moves
  {
    NewEvent(b.moves[id].company, ReversalContent(id, p, destination, now), Some(p))
  }

  lemma ReversalAdmitted(b: Book, id: nat, p: Event, destination: MoveState, now: int, pending: set<nat>)
    requires Sound(b, pending) && Reversible(b, id, p)
    ensures var c := ReversalContent(id, p, destination, now);
      && ValidContent(c) && p.company == b.moves[id].company && Fresh(b, p.company, c.key)
      && !ReversedBy(b.Events(), p.Id(), ReversalOf(p.Type()))
      && Admit(b.Events(), b.moves[id].company, b.currencies, c) == Ok(ReversalEvent(b, id, p, destination, now))
  {
    var c := ReversalContent(id, p, destination, now);
    assert EventOk(b, p);
    Members(b.Events(), p);
    FindMember(b.Events(), p);
    if p.reverses.Some? {
      var o :| o in b.Events() && Edge(p, o);
      Members(b.Events(), o);
    }
    forall e | e in b.Events() ensures e.Id() != EventRef(p.company, SYSTEM, c.key) {
      assert EventOk(b, e);
    }
    assert ReversalRejection(b.Events(), p, c) == None;
  }

  /** b' is b with the counterevent of posting p, which carries p's links. */
  ghost predicate Countered(b: Book, b': Book, id: nat, p: Event, e: Event) {
    && Reversible(b, id, p)
    && b'.Events() == b.Events() + [e] && e !in b.Events() && b'.moves == b.moves && b'.currencies == b.currencies
    && b'.links == b.links + LinksTo(e.Id(), LinkTargets(b.links, p.Id()))
    && MoveEvent(e) && e.content.sourceResId == id && e.reverses == Some(p.Id()) && IsPostingReversal(e.Type())
    && e.company == p.company && e.content.currency == p.content.currency
    && e.content.key == MoveUnposting(id, p.content.key) && LinkedMove(e) == LinkedMove(p)
    && (forall x | x in b.Events() :: ActivePosting(b'.Events(), x) == (ActivePosting(b.Events(), x) && x != p))
    && !IsPosting(e.Type())
    && (forall x | x in b'.Events() :: x.reverses != Some(e.Id()))
    && (forall x | x in b.Events() :: x.Id() != e.Id())
  }

  lemma RecordCounters(b: Book, b': Book, id: nat, p: Event, e: Event)
    requires Reversible(b, id, p) && WellFormed(b.Events()) && Extends(b.Events(), e)
    requires b'.Events() == b.Events() + [e] && b'.moves == b.moves && b'.currencies == b.currencies
    requires b'.links == b.links + LinksTo(e.Id(), LinkTargets(b.links, p.Id()))
    requires MoveEvent(e) && e.content.sourceResId == id && e.reverses == Some(p.Id()) && IsPostingReversal(e.Type())
    requires e.company == p.company && e.content.currency == p.content.currency
      && e.content.key == MoveUnposting(id, p.content.key)
    requires LinkedMove(e) == LinkedMove(p)
    ensures Countered(b, b', id, p, e)
  {
    NoneReverseLatest(b.Events(), e);
    forall x | x in b.Events() ensures ActivePosting(b'.Events(), x) == (ActivePosting(b.Events(), x) && x != p) {
      assert e in b'.Events();
      assert forall y | y in b.Events() :: y in b'.Events();
      assert forall y | y in b'.Events() :: y in b.Events() || y == e;
      if x.Id() == p.Id() { IdsUnique(b.Events(), x, p); }
    }
  }

  lemma CounteredLinks(b: Book, b': Book, id: nat, p: Event, e: Event)
    requires Countered(b, b', id, p, e) && WellFormed(b.Events())
    requires ChargedCreditsLinked(b) && CountereventsCopyLinks(b) && LinksTold(b)
    ensures ChargedCreditsLinked(b') && CountereventsCopyLinks(b') && LinksTold(b')
  {
    assert ChargedCreditsLinked(b') by {
      forall x, t | x in b'.Events() && t in b'.Events() && MoveEvent(x) && CreditOf(x, t.Id())
        ensures LinkedMove(x) == Some(t.content.sourceResId)
      {
        assert x in b.Events() && t in b.Events();
      }
    }
    assert CountereventsCopyLinks(b') by {
      forall y, x | y in b'.Events() && x in b'.Events() && MoveEvent(y) && x.reverses == Some(y.Id())
        && IsPostingReversal(x.Type())
        ensures LinkedMove(x) == LinkedMove(y)
      {
        assert y in b.Events();
        if x == e { IdsUnique(b.Events(), y, p); }
      }
    }
    LinksFromAppend(b.Events(), e);
    LinkTargetsTold(b, p);
    assert Told(e) == Told(p);
  }

  /** An event is linked to exactly the documents it tells about. */
  lemma LinkTargetsTold(b: Book, e: Event)
    requires WellFormed(b.Events()) && LinksTold(b) && e in b.Events()
    ensures LinkTargets(b.links, e.Id()) == Told(e)
  {
    hide Told;
    forall x ensures x in LinkTargets(b.links, e.Id()) <==> x in Told(e) {
      LinkedIffTold(b.Events(), e, x);
      if x in LinkTargets(b.links, e.Id()) {
        var k :| k in b.links && k.event == e.Id() && Target(k.move, k.role) == x;
        assert k == MoveLink(e.Id(), x.move, x.role);
      }
      if MoveLink(e.Id(), x.move, x.role) in b.links {
        assert Target(x.move, x.role) == x;
      }
    }
  }

  lemma CounteredSound(b: Book, b': Book, id: nat, p: Event, e: Event, pending: set<nat>)
    requires Countered(b, b', id, p, e) && Sound(b, pending)
    requires WellFormed(b'.Events()) && WithinBudget(b'.Events())
    ensures Sound(b', pending - {id})
  {
    CounteredLinks(b, b', id, p, e);
    forall x | x in b'.Events() ensures EventOk(b', x) {
      if x in b.Events() { assert EventOk(b, x); } else { assert EventOk(b, p); }
    }
    forall i | i in b'.moves ensures i > 0 && TermsOk(b', b'.moves[i].terms) { assert TermsOk(b, b.moves[i].terms); }
    CounteredMatches(b, b', id, p, e, pending);
  }

  lemma CounteredMatches(b: Book, b': Book, id: nat, p: Event, e: Event, pending: set<nat>)
    requires Countered(b, b', id, p, e) && CreditsMatchDocuments(b, pending)
    ensures CreditsMatchDocuments(b', pending - {id})
  {
    forall x | x in b'.Events() && ActiveCreditMove(b'.Events(), x) && x.content.sourceResId !in pending - {id}
      ensures x.content.sourceResId in b'.moves
      ensures var move := b'.moves[x.content.sourceResId];
        && move.state.Posted? && move.terms.moveType.OutRefund?
        && (LinkedMove(x).Some? ==> move.terms.reversedEntry == LinkedMove(x))
    {
      assert x in b.Events() && ActiveCreditMove(b.Events(), x) && x != p;
      assert x.content.sourceResId != id;
    }
  }

  /** The active postings after the counterevent are those before it without the reversed one. */
  ghost predicate OnlyLost(b: Book, b': Book, p: Event) {
    forall x :: x in b'.Events() && ActiveMove(b'.Events(), x)
      <==> x in b.Events() && ActiveMove(b.Events(), x) && x != p
  }

  lemma CounteredLoses(b: Book, b': Book, id: nat, p: Event, e: Event)
    requires Countered(b, b', id, p, e)
    ensures OnlyLost(b, b', p)
  {
    forall x ensures x in b'.Events() && ActiveMove(b'.Events(), x)
      <==> x in b.Events() && ActiveMove(b.Events(), x) && x != p
    {
      assert x in b'.Events() <==> x in b.Events() || x == e;
    }
  }

  /** What one accepted counterevent leaves behind. */
  ghost predicate CounteredWell(b: Book, b': Book, id: nat, p: Event, e: Event, pending: set<nat>) {
    Countered(b, b', id, p, e) && Sound(b', pending - {id}) && OnlyLost(b, b', p)
  }

  /** The counterevent of an active posting is what the adapter hands to the ledger. */
  lemma ReversalRecorded(b: Book, id: nat, p: Event, destination: MoveState, now: int)
    requires Reversible(b, id, p) && !destination.Posted? && p.company == b.moves[id].company
    requires !ReversedBy(b.Events(), p.Id(), ReversalOf(p.Type()))
    ensures var targets := LinkTargets(b.links, p.Id());
      var r := Record(b, b.moves[id].company, ReversalContent(id, p, destination, now), targets);
      EmitPostingReversal(b, id, p, destination, now) == if r.Ok? then Ok(r.value.0) else Err(r.error)
  {
    hide Record, ReversedBy, Ingest, Departed, LinkTargets;
  }

  /** The counterevent of an active posting is always accepted, and cancels that posting only. */
  lemma PostingReversalOk(b: Book, id: nat, p: Event, destination: MoveState, now: int, pending: set<nat>)
    requires Sound(b, pending) && Reversible(b, id, p) && !destination.Posted?
    ensures EmitPostingReversal(b, id, p, destination, now).Ok?
    ensures CounteredWell(b, EmitPostingReversal(b, id, p, destination, now).value, id, p,
                          ReversalEvent(b, id, p, destination, now), pending)
  {
    ReversalAdmitted(b, id, p, destination, now, pending);
    assert WellFormed(b.Events()) && WithinBudget(b.Events());
    assert id in b.moves;
    var c, e := ReversalContent(id, p, destination, now), ReversalEvent(b, id, p, destination, now);
    var company := b.moves[id].company;
    var targets := LinkTargets(b.links, p.Id());
    ReversalShape(b, id, p, destination, now);
    hide *;
    ReversalRecorded(b, id, p, destination, now);
    RecordAppends(b, company, c, e, targets);
    BudgetStays(b, company, c, e);
    ReversalCounters(b, Record(b, company, c, targets).value.0, id, p, e, pending);
  }

  lemma ReversalShape(b: Book, id: nat, p: Event, destination: MoveState, now: int)
    requires Reversible(b, id, p) && p.company == b.moves[id].company
    ensures var e := ReversalEvent(b, id, p, destination, now);
      && ReversalContent(id, p, destination, now).sourceSystem == SYSTEM
      && MoveEvent(e) && e.content.sourceResId == id && e.reverses == Some(p.Id()) && IsPostingReversal(e.Type())
      && e.company == p.company && e.content.currency == p.content.currency
      && e.content.key == MoveUnposting(id, p.content.key)
      && LinkedMove(e) == LinkedMove(p)
  {}

  lemma BudgetStays(b: Book, company: nat, c: Content, e: Event)
    requires WellFormed(b.Events()) && WithinBudget(b.Events()) && ValidContent(c) && c.sourceSystem == SYSTEM
    requires Fresh(b, company, c.key) && Admit(b.Events(), company, b.currencies, c) == Ok(e)
    ensures WithinBudget(b.Events() + [e])
  {
    BudgetKept(b.Events(), company, b.currencies, c);
  }

  lemma ReversalCounters(b: Book, b': Book, id: nat, p: Event, e: Event, pending: set<nat>)
    requires Sound(b, pending) && Reversible(b, id, p) && Extends(b.Events(), e)
    requires b'.Events() == b.Events() + [e] && b'.moves == b.moves && b'.currencies == b.currencies
    requires b'.links == b.links + LinksTo(e.Id(), LinkTargets(b.links, p.Id()))
    requires MoveEvent(e) && e.content.sourceResId == id && e.reverses == Some(p.Id()) && IsPostingReversal(e.Type())
    requires e.company == p.company && e.content.currency == p.content.currency
      && e.content.key == MoveUnposting(id, p.content.key)
    requires LinkedMove(e) == LinkedMove(p)
    requires WellFormed(b'.Events()) && WithinBudget(b'.Events())
    ensures CounteredWell(b, b', id, p, e, pending)
  {
    assert WellFormed(b.Events());
    hide Sound;
    RecordCounters(b, b', id, p, e);
    CounteredSound(b, b', id, p, e, pending);
    CounteredLoses(b, b', id, p, e);
  }
}
