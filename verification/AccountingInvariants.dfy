/** The invariant that ties native documents, ledger events and credit links together, and how
 *  the primitive steps of the adapter keep it. */
module AccountingInvariants {
  import opened Common
  import opened BusinessEventDto
  import opened Ledger
  import opened LedgerTheorems
  import opened Accounting

  /** A key says which document an event belongs to and what it did to it. */
  ghost predicate KeyMatches(b: Book, e: Event)
    requires e.content.sourceResId in b.moves
  {
    match e.content.key
    case External(_) => false
    case MovePosting(id, _, n) =>
      id == e.content.sourceResId && n <= b.moves[id].sequence && IsPosting(e.Type())
    case MoveUnposting(id, posting) =>
      && id == e.content.sourceResId
      && IsPostingReversal(e.Type())
      && e.reverses == Some(EventRef(e.company, SYSTEM, posting))
  }

  ghost predicate EventOk(b: Book, e: Event) {
    && (e.content.sourceSystem == SYSTEM && !e.content.key.External? ==> MoveEvent(e))
    && (MoveEvent(e) ==>
          && e.content.sourceResId in b.moves
          && e.company == b.moves[e.content.sourceResId].company
          && e.content.currency in b.currencies
          && (LinkedMove(e).Some? ==> LinkedMove(e).value in b.moves)
          && KeyMatches(b, e))
  }

  ghost predicate Documents(b: Book) {
    Closed(b) && forall id | id in b.moves :: id > 0 && TermsOk(b, b.moves[id].terms)
  }

  /** A credit charged to a posting is linked to that posting's document. */
  ghost predicate ChargedCreditsLinked(b: Book) {
    forall e, t | e in b.Events() && t in b.Events() && MoveEvent(e) && CreditOf(e, t.Id()) ::
      LinkedMove(e) == Some(t.content.sourceResId)
  }

  ghost predicate CountereventsCopyLinks(b: Book) {
    forall e, x | e in b.Events() && x in b.Events() && MoveEvent(e) && x.reverses == Some(e.Id())
      && IsPostingReversal(x.Type()) :: LinkedMove(x) == LinkedMove(e)
  }

  /** The documents an event tells about: its own, and the one it reverses. */
  function Told(e: Event): set<Target> {
    if !MoveEvent(e) then {}
    else
      {Target(e.content.sourceResId, SourceDocument)} +
      if LinkedMove(e).Some? then {Target(LinkedMove(e).value, ReversedInvoice)} else {}
  }

  function LinksFrom(l: seq<Event>): set<MoveLink> {
    set e, x | e in l && x in Told(e) :: MoveLink(e.Id(), x.move, x.role)
  }

  /** The link table says exactly what the events say. */
  ghost predicate LinksTold(b: Book) {
    b.links == LinksFrom(b.Events())
  }

  ghost predicate ActiveMove(l: seq<Event>, e: Event) {
    MoveEvent(e) && ActivePosting(l, e)
  }

  ghost predicate ActiveCreditMove(l: seq<Event>, e: Event) {
    ActiveMove(l, e) && e.Type().CreditNotePosted?
  }

  /** An active credit belongs to a posted credit note and is linked only to what that document
   *  reverses now; pending documents are exempt. */
  ghost predicate CreditsMatchDocuments(b: Book, pending: set<nat>) {
    forall e | e in b.Events() && ActiveCreditMove(b.Events(), e) && e.content.sourceResId !in pending ::
      && e.content.sourceResId in b.moves
      && var move := b.moves[e.content.sourceResId];
         && move.state.Posted? && move.terms.moveType.OutRefund?
         && (LinkedMove(e).Some? ==> move.terms.reversedEntry == LinkedMove(e))
  }

  ghost predicate Sound(b: Book, pending: set<nat>) {
    && Documents(b)
    && WellFormed(b.Events()) && WithinBudget(b.Events())
    && (forall e | e in b.Events() :: EventOk(b, e))
    && ChargedCreditsLinked(b)
    && CountereventsCopyLinks(b)
    && LinksTold(b)
    && CreditsMatchDocuments(b, pending)
  }

  // ---------- How often a document is counted ----------

  ghost predicate ActiveOf(l: seq<Event>, e: Event, id: nat, t: EventType) {
    ActiveMove(l, e) && e.content.sourceResId == id && e.Type() == t
  }

  ghost predicate Has(b: Book, id: nat, t: EventType) {
    exists e | e in b.Events() :: ActiveOf(b.Events(), e, id, t)
  }

  /** No document has two active postings of type t. */
  ghost predicate One(b: Book, t: EventType) {
    forall e, x | e in b.Events() && x in b.Events() && ActiveOf(b.Events(), e, e.content.sourceResId, t)
      && ActiveOf(b.Events(), x, e.content.sourceResId, t) :: e == x
  }

  /** An active invoice posting belongs to a posted invoice; pending documents are exempt. */
  ghost predicate InvoicesMatchDocuments(b: Book, pending: set<nat>) {
    forall e | e in b.Events() && ActiveMove(b.Events(), e) && e.Type().InvoicePosted?
      && e.content.sourceResId !in pending ::
      && e.content.sourceResId in b.moves
      && b.moves[e.content.sourceResId].state.Posted? && b.moves[e.content.sourceResId].terms.moveType.OutInvoice?
  }

  /** No document has two active posting events. */
  ghost predicate OneActive(b: Book) {
    forall e, x | e in b.Events() && x in b.Events() && ActiveMove(b.Events(), e) && ActiveMove(b.Events(), x)
      && e.content.sourceResId == x.content.sourceResId :: e == x
  }

  /** Each document is counted at most once, and only while it is posted. */
  ghost predicate CountedOnce(b: Book) {
    OneActive(b) && InvoicesMatchDocuments(b, {})
  }

  ghost predicate HasActive(b: Book, id: nat) {
    exists e | e in b.Events() :: ActiveMove(b.Events(), e) && e.content.sourceResId == id
  }

  // ---------- Appending one posting ----------

  ghost predicate Fresh(b: Book, company: nat, key: EventKey) {
    forall e | e in b.Events() :: e.Id() != EventRef(company, SYSTEM, key)
  }

  /** What lets a credit of this amount be charged to a posting. */
  ghost predicate Chargeable(b: Book, id: nat, t: Event, amount: int)
    requires id in b.moves
  {
    var move := b.moves[id];
    && move.terms.moveType.OutRefund?
    && move.terms.reversedEntry == Some(t.content.sourceResId)
    && t in b.Events() && MoveEvent(t) && t.Type().InvoicePosted? && ActivePosting(b.Events(), t)
    && t.company == move.company
    && t.content.currency == move.terms.currency
    && Abs(ActiveCredit(b.Events(), t.Id()) + amount) <= Abs(t.Micros())
  }

  ghost predicate PostingReady(b: Book, id: nat, c: Content, target: Option<Event>) {
    && id in b.moves && b.moves[id].state.Posted? && b.moves[id].Outgoing()
    && c.key.MovePosting? && c.key.move == id && c.key.sequence <= b.moves[id].sequence
    && Fresh(b, b.moves[id].company, c.key)
    && c.extensions.DocumentExtensions?
    && c == PostingContent(b, id, c.key, c.occurredAt, c.evidenceLevel,
              if target.Some? then Some(target.value.content.key) else None, c.extensions.creditReason)
    && (target.Some? ==> Chargeable(b, id, target.value, c.Micros()))
  }

  function PostingEvent(b: Book, id: nat, c: Content, target: Option<Event>): Event
    requires id in b.moves
  {
    NewEvent(b.moves[id].company, c, target)
  }

  lemma PostingAdmitted(b: Book, id: nat, c: Content, target: Option<Event>)
    requires Sound(b, {}) && PostingReady(b, id, c, target)
    ensures ValidContent(c)
    ensures Admit(b.Events(), b.moves[id].company, b.currencies, c) == Ok(PostingEvent(b, id, c, target))
  {
    assert TermsOk(b, b.moves[id].terms);
    if target.Some? {
      var t := target.value;
      FindMember(b.Events(), t);
      Members(b.Events(), t);
      assert c.reversesKey == Some(t.content.key);
      assert EventOk(b, t);
      assert c.Micros() <= 0 <= t.Micros();
      assert c.Micros() * t.Micros() <= 0 by { ProductSign(c.Micros(), t.Micros()); }
      assert ReversalRejection(b.Events(), t, c) == None;
      assert t.Id() != EventRef(b.moves[id].company, SYSTEM, c.key);
    }
  }

  lemma ProductSign(x: int, y: int)
    requires x <= 0 <= y
    ensures x * y <= 0
  {}

  /** Appending a posting neither cancels nor revives any other event. */
  lemma PostingKeepsActivity(l: seq<Event>, e: Event)
    requires WellFormed(l) && Extends(l, e) && IsPosting(e.Type())
    ensures ActivePosting(l + [e], e)
    ensures forall x | x in l :: ActivePosting(l + [e], x) == ActivePosting(l, x)
  {
    WellFormedAppend(l, e);
    LatestUncancelled(l, e);
    ActiveIffUncancelled(l + [e], e);
    forall x | x in l ensures ActivePosting(l + [e], x) == ActivePosting(l, x) {
      forall y | y in l + [e] && IsPostingReversal(y.Type()) ensures y in l {}
      assert forall y | y in l :: y in l + [e];
    }
  }

  lemma RecordAppends(b: Book, company: nat, c: Content, e: Event, targets: set<Target>)
    requires WellFormed(b.Events()) && ValidContent(c) && c.sourceSystem == SYSTEM
    requires Fresh(b, company, c.key) && Admit(b.Events(), company, b.currencies, c) == Ok(e)
    ensures Extends(b.Events(), e) && WellFormed(b.Events() + [e]) && e.company == company && e.content == c
    ensures var r := Record(b, company, c, targets);
      && r.Ok? && r.value.1 == Some(e)
      && r.value.0.Events() == b.Events() + [e]
      && r.value.0.moves == b.moves && r.value.0.currencies == b.currencies
      && r.value.0.links == b.links + LinksTo(e.Id(), targets)
  {
    AdmittedExtends(b.Events(), company, b.currencies, c);
    WellFormedAppend(b.Events(), e);
    FindMember(b.Events() + [e], e);
    assert Find(b.Events(), e.Id()).None?;
  }

  /** The ledger takes every ready posting, and recording it keeps the book sound. */
  lemma RecordPosting(b: Book, id: nat, c: Content, target: Option<Event>)
    requires Sound(b, {}) && PostingReady(b, id, c, target)
    ensures var r := Record(b, b.moves[id].company, c, TargetsOf(id, b.moves[id].terms));
      && r.Ok? && r.value.1 == Some(PostingEvent(b, id, c, target))
      && Appended(b, r.value.0, id, c, target) && Sound(r.value.0, {})
  {
    var company := b.moves[id].company;
    var e := PostingEvent(b, id, c, target);
    PostingAdmitted(b, id, c, target);
    RecordAppends(b, company, c, e, TargetsOf(id, b.moves[id].terms));
    BudgetKept(b.Events(), company, b.currencies, c);
    PostingKeepsActivity(b.Events(), e);
    PostingSound(b, Record(b, company, c, TargetsOf(id, b.moves[id].terms)).value.0, id, c, target);
  }

  /** b' is b with the posting event of a ready content and its links. */
  ghost predicate Appended(b: Book, b': Book, id: nat, c: Content, target: Option<Event>) {
    && Sound(b, {}) && PostingReady(b, id, c, target)
    && var e := PostingEvent(b, id, c, target);
    && Extends(b.Events(), e) && ActivePosting(b.Events() + [e], e)
    && (forall x | x in b.Events() :: ActivePosting(b.Events() + [e], x) == ActivePosting(b.Events(), x))
    && b'.Events() == b.Events() + [e] && b'.moves == b.moves && b'.currencies == b.currencies
    && b'.links == b.links + LinksTo(e.Id(), TargetsOf(id, b.moves[id].terms))
  }

  lemma PostingSound(b: Book, b': Book, id: nat, c: Content, target: Option<Event>)
    requires Appended(b, b', id, c, target)
    requires WellFormed(b'.Events()) && WithinBudget(b'.Events())
    ensures Sound(b', {})
  {
    var e := PostingEvent(b, id, c, target);
    forall x | x in b'.Events() ensures EventOk(b', x) {
      if x in b.Events() { assert EventOk(b, x); }
    }
    forall i | i in b'.moves ensures i > 0 && TermsOk(b', b'.moves[i].terms) { assert TermsOk(b, b.moves[i].terms); }
    PostingLinks(b, b', id, c, target);
    PostingMatches(b, b', id, c, target);
  }

  lemma PostingLinks(b: Book, b': Book, id: nat, c: Content, target: Option<Event>)
    requires Appended(b, b', id, c, target)
    ensures ChargedCreditsLinked(b') && CountereventsCopyLinks(b') && LinksTold(b')
  {
    NoneReverseLatest(b.Events(), PostingEvent(b, id, c, target));
    PostingCharged(b, b', id, c, target);
    PostingCopies(b, b', id, c, target);
    PostingTold(b, b', id, c, target);
  }

  lemma PostingTold(b: Book, b': Book, id: nat, c: Content, target: Option<Event>)
    requires Appended(b, b', id, c, target)
    ensures LinksTold(b')
  {
    var e := PostingEvent(b, id, c, target);
    LinksFromAppend(b.Events(), e);
    assert LinkedMove(e) == if b.moves[id].terms.moveType.OutRefund? then b.moves[id].terms.reversedEntry else None;
    assert LinksTold(b);
    hide LinksFrom, Sound;
    assert Told(e) == TargetsOf(id, b.moves[id].terms);
  }

  lemma PostingCopies(b: Book, b': Book, id: nat, c: Content, target: Option<Event>)
    requires Appended(b, b', id, c, target)
    requires forall x | x in b'.Events() :: x.reverses != Some(PostingEvent(b, id, c, target).Id())
    ensures CountereventsCopyLinks(b')
  {
    assert CountereventsCopyLinks(b);
    hide Sound, Extends;
    forall y, x | y in b'.Events() && x in b'.Events() && MoveEvent(y) && x.reverses == Some(y.Id())
      && IsPostingReversal(x.Type())
      ensures LinkedMove(x) == LinkedMove(y)
    {
      assert y in b.Events() && x in b.Events();
    }
  }

  lemma LinksFromAppend(l: seq<Event>, e: Event)
    ensures LinksFrom(l + [e]) == LinksFrom(l) + LinksTo(e.Id(), Told(e))
  {
    hide Told;
    assert forall x | x in l + [e] :: x in l || x == e;
    assert forall x | x in l :: x in l + [e];
    assert e in l + [e];
  }

  /** The link table relates an event to a document exactly when the event tells about it. */
  lemma LinkedIffTold(l: seq<Event>, e: Event, x: Target)
    requires WellFormed(l) && e in l
    ensures MoveLink(e.Id(), x.move, x.role) in LinksFrom(l) <==> x in Told(e)
  {
    hide Told;
    if MoveLink(e.Id(), x.move, x.role) in LinksFrom(l) {
      var y, z :| y in l && z in Told(y) && MoveLink(y.Id(), z.move, z.role) == MoveLink(e.Id(), x.move, x.role);
      IdsUnique(l, y, e);
      assert z == x;
    }
  }

  lemma PostingCharged(b: Book, b': Book, id: nat, c: Content, target: Option<Event>)
    requires Appended(b, b', id, c, target)
    requires forall x | x in b'.Events() :: x.reverses != Some(PostingEvent(b, id, c, target).Id())
    ensures ChargedCreditsLinked(b')
  {
    forall x, t | x in b'.Events() && t in b'.Events() && MoveEvent(x) && CreditOf(x, t.Id())
      ensures LinkedMove(x) == Some(t.content.sourceResId)
    {
      assert t in b.Events();
      if x !in b.Events() { IdsUnique(b.Events(), t, target.value); }
    }
  }

  lemma PostingMatches(b: Book, b': Book, id: nat, c: Content, target: Option<Event>)
    requires Appended(b, b', id, c, target)
    ensures CreditsMatchDocuments(b', {})
  {
    forall x | x in b'.Events() && ActiveCreditMove(b'.Events(), x)
      ensures x.content.sourceResId in b'.moves
      ensures var move := b'.moves[x.content.sourceResId];
        && move.state.Posted? && move.terms.moveType.OutRefund?
        && (LinkedMove(x).Some? ==> move.terms.reversedEntry == LinkedMove(x))
    {
      if x in b.Events() { assert ActiveCreditMove(b.Events(), x); }
    }
  }

  lemma NoneReverseLatest(l: seq<Event>, e: Event)
    requires WellFormed(l) && Extends(l, e)
    ensures forall x | x in l + [e] :: x.reverses != Some(e.Id())
  {
    forall x | x in l + [e] ensures x.reverses != Some(e.Id()) {
      if x.reverses.Some? {
        if x in l { Members(l, x); }
        var o :| o in l && Edge(x, o);
      }
    }
  }
}
