/** Deliveries to the ledger whose transactions hold nothing but advisory locks.
 *
 *  A transaction reads the snapshot it began with.  A lock is refused while another transaction
 *  holds it, but it says nothing about what was committed between the snapshot and the lock.
 *  Unique indexes, unlike reads, see every committed row. */
module AdvisoryLocks {
  import opened Common
  import opened BusinessEventDto
  import opened Ledger
  import opened LedgerTheorems

  datatype Lock = ReversalLock(target: Ref) | EventLock(event: Ref)

  datatype Txn = Txn(snapshot: seq<Event>, added: seq<Event>, locks: set<Lock>) {
    function View(): seq<Event> {
      snapshot + added
    }
  }

  datatype Database = Database(committed: seq<Event>, currencies: set<string>, open: map<nat, Txn>)

  datatype Action = Begin(t: nat) | Deliver(t: nat, company: nat, content: Content) | Commit(t: nat) | Abort(t: nat)

  /** What a delivery locks before it reads the event or its target. */
  function LocksOf(view: seq<Event>, company: nat, c: Content): set<Lock> {
    {EventLock(EventRef(company, c.sourceSystem, c.key))} +
    match ReversalLockKey(view, company, c)
    case None => {}
    case Some(target) => {ReversalLock(target)}
  }

  /** The unique indexes on natural keys and on required reversals accept e beside the rows l. */
  predicate IndexesAccept(l: seq<Event>, e: Event) {
    forall x | x in l ::
      x.Id() != e.Id() && (IsRequiredReversal(e.Type()) && e.reverses.Some? ==> !Cancels(x, e.reverses.value))
  }

  /** The event that a delivery would insert. */
  function Inserted(db: Database, a: Action): Event
    requires a.Deliver? && a.t in db.open && Admit(db.open[a.t].View(), a.company, db.currencies, a.content).Ok?
  {
    Admit(db.open[a.t].View(), a.company, db.currencies, a.content).value
  }

  /** The delivery obtains its locks, is admitted on its own view, and inserts an event. */
  predicate Inserts(db: Database, a: Action) {
    && a.Deliver? && a.t in db.open && ValidContent(a.content)
    && var view := db.open[a.t].View();
    && (forall u | u in db.open && u != a.t :: LocksOf(view, a.company, a.content) !! db.open[u].locks)
    && Find(view, EventRef(a.company, a.content.sourceSystem, a.content.key)).None?
    && Admit(view, a.company, db.currencies, a.content).Ok?
    && IndexesAccept(db.committed, Inserted(db, a))
    && forall u | u in db.open && u != a.t :: IndexesAccept(db.open[u].added, Inserted(db, a))
  }

  function Act(db: Database, a: Action): Database {
    match a
    case Begin(t) => if t in db.open then db else db.(open := db.open[t := Txn(db.committed, [], {})])
    case Deliver(t, company, content) =>
      if Inserts(db, a) then
        var x := db.open[t];
        db.(open := db.open[t := x.(added := x.added + [Inserted(db, a)],
                                    locks := x.locks + LocksOf(x.View(), company, content))])
      else db
    case Commit(t) =>
      if t in db.open then db.(committed := db.committed + db.open[t].added, open := db.open - {t}) else db
    case Abort(t) => db.(open := db.open - {t})
  }

  function ActAll(db: Database, actions: seq<Action>): Database {
    if |actions| == 0 then db else Act(ActAll(db, actions[..|actions| - 1]), actions[|actions| - 1])
  }

  /** The committed rows with the transaction's own. */
  function Whole(db: Database, t: nat): seq<Event>
    requires t in db.open
  {
    db.committed + db.open[t].added
  }

  // ---------- The indexes keep the structure ----------

  predicate CreditKind(e: Event) {
    e.Type().CreditNotePosted? || e.Type().CreditNotePostingReversed?
  }

  /** A transaction holds the lock of every posting whose credit its own rows change. */
  predicate LocksHeld(x: Txn) {
    forall e | e in x.added && CreditKind(e) && e.root.Some? :: ReversalLock(e.root.value) in x.locks
  }

  predicate Apart(a: seq<Event>, b: seq<Event>) {
    forall e | e in b :: IndexesAccept(a, e)
  }

  ghost predicate TxnGood(committed: seq<Event>, x: Txn) {
    && x.snapshot <= committed && LocksHeld(x)
    && WellFormed(x.View()) && WellFormed(committed + x.added)
  }

  ghost predicate Good(db: Database) {
    && WellFormed(db.committed)
    && (forall t | t in db.open :: TxnGood(db.committed, db.open[t]))
    && (forall t, u | t in db.open && u in db.open && t != u ::
          db.open[t].locks !! db.open[u].locks && Apart(db.open[t].added, db.open[u].added))
  }

  lemma ExtendsWider(l: seq<Event>, m: seq<Event>, e: Event)
    requires Extends(l, e) && (forall x | x in l :: x in m) && IndexesAccept(m, e)
    ensures Extends(m, e)
  {
    if e.reverses.Some? {
      var o :| o in l && Edge(e, o);
      assert o in m;
    }
  }

  lemma AcceptsBoth(a: seq<Event>, b: seq<Event>, e: Event)
    ensures IndexesAccept(a + b, e) <==> IndexesAccept(a, e) && IndexesAccept(b, e)
  {
    assert forall x | x in a :: x in a + b;
    assert forall x | x in b :: x in a + b;
  }

  lemma ExtendsAccepts(l: seq<Event>, e: Event)
    requires Extends(l, e)
    ensures IndexesAccept(l, e)
  {}

  /** Rows of two transactions that the indexes keep apart fit behind the same committed rows. */
  lemma {:induction false} WellFormedBoth(l: seq<Event>, a: seq<Event>, b: seq<Event>)
    requires WellFormed(l + a) && WellFormed(l + b) && Apart(a, b)
    ensures WellFormed(l + a + b)
  {
    hide IndexesAccept, Extends;
    if |b| == 0 {
      assert l + a + b == l + a;
    } else {
      var n := |b| - 1;
      var e := b[n];
      assert (l + b)[..|l + b| - 1] == l + b[..n];
      WellFormedBoth(l, a, b[..n]);
      ExtendsAccepts(l + b[..n], e);
      AcceptsBoth(l, b[..n], e);
      AcceptsBoth(l, a, e);
      AcceptsBoth(l + a, b[..n], e);
      ExtendsWider(l + b[..n], l + a + b[..n], e);
      WellFormedAppend(l + a + b[..n], e);
      assert l + a + b == l + a + b[..n] + [e];
    }
  }

  /** A credit or its counterevent contends for the lock of the posting it is rooted in. */
  lemma RootIsLocked(view: seq<Event>, company: nat, currencies: set<string>, c: Content)
    requires WellFormed(view) && ValidContent(c)
    requires forall x | x in view :: x.Id() != EventRef(company, c.sourceSystem, c.key)
    requires Admit(view, company, currencies, c).Ok?
    ensures var e := Admit(view, company, currencies, c).value;
      CreditKind(e) && e.root.Some? ==> ReversalLockKey(view, company, c) == e.root
  {
    var e := Admit(view, company, currencies, c).value;
    AdmittedExtends(view, company, currencies, c);
    AdmittedShape(view, company, currencies, c);
    if CreditKind(e) && e.reverses.Some? {
      var o :| o in view && Edge(e, o);
      hide Admit, WellFormed;
      FindMember(view, o);
      if e.Type().CreditNotePosted? {
        WellFormedAppend(view, e);
        CreditRoot(view + [e], e);
      } else {
        CreditRoot(view, o);
      }
    }
  }

  lemma InsertedExtends(db: Database, a: Action)
    requires Good(db) && Inserts(db, a)
    ensures var e, x := Inserted(db, a), db.open[a.t];
      && Extends(x.View(), e) && Extends(Whole(db, a.t), e)
      && (CreditKind(e) && e.root.Some? ==> ReversalLock(e.root.value) in LocksOf(x.View(), a.company, a.content))
  {
    var x := db.open[a.t];
    assert TxnGood(db.committed, x);
    hide Admit, Edge;
    AdmittedExtends(x.View(), a.company, db.currencies, a.content);
    RootIsLocked(x.View(), a.company, db.currencies, a.content);
    var e := Inserted(db, a);
    ExtendsAccepts(x.View(), e);
    hide Extends, IndexesAccept, WellFormed;
    AcceptsBoth(x.snapshot, x.added, e);
    AcceptsBoth(db.committed, x.added, e);
    ExtendsWider(x.View(), Whole(db, a.t), e);
  }

  lemma InsertKeepsGood(db: Database, a: Action)
    requires Good(db) && Inserts(db, a)
    ensures Good(Act(db, a))
  {
    InsertedExtends(db, a);
    hide Good, Admit, Extends, IndexesAccept, LocksOf, Inserted, CreditKind;
    AppendKeepsGood(db, a.t, Inserted(db, a), LocksOf(db.open[a.t].View(), a.company, a.content));
  }

  lemma TxnGrows(committed: seq<Event>, x: Txn, e: Event, locks: set<Lock>)
    requires TxnGood(committed, x) && Extends(x.View(), e) && Extends(committed + x.added, e)
    requires CreditKind(e) && e.root.Some? ==> ReversalLock(e.root.value) in locks
    ensures TxnGood(committed, x.(added := x.added + [e], locks := x.locks + locks))
  {
    var x' := x.(added := x.added + [e], locks := x.locks + locks);
    hide Extends, WellFormed, CreditKind;
    WellFormedAppend(x.View(), e);
    WellFormedAppend(committed + x.added, e);
    assert x'.View() == x.View() + [e] && committed + x'.added == committed + x.added + [e];
  }

  lemma AppendKeepsGood(db: Database, t: nat, e: Event, locks: set<Lock>)
    requires Good(db) && t in db.open && Extends(db.open[t].View(), e) && Extends(Whole(db, t), e)
    requires CreditKind(e) && e.root.Some? ==> ReversalLock(e.root.value) in locks
    requires forall u | u in db.open && u != t :: locks !! db.open[u].locks && IndexesAccept(db.open[u].added, e)
    ensures var x := db.open[t];
      Good(db.(open := db.open[t := x.(added := x.added + [e], locks := x.locks + locks)]))
  {
    hide Extends, WellFormed, IndexesAccept, TxnGood, Apart, CreditKind;
    var x := db.open[t];
    TxnGrows(db.committed, x, e, locks);
    forall u | u in db.open && u != t
      ensures Apart(x.added + [e], db.open[u].added) && Apart(db.open[u].added, x.added + [e])
    {
      ApartFrom(x.added, db.open[u].added, e);
    }
  }

  /** Acceptance by the indexes is mutual. */
  lemma ApartFrom(a: seq<Event>, b: seq<Event>, e: Event)
    requires Apart(a, b) && Apart(b, a) && IndexesAccept(b, e)
    ensures Apart(a + [e], b) && Apart(b, a + [e])
  {}

  lemma CommitKeepsGood(db: Database, t: nat)
    requires Good(db) && t in db.open
    ensures Good(Act(db, Commit(t)))
  {
    var db', x := Act(db, Commit(t)), db.open[t];
    assert TxnGood(db.committed, x);
    hide WellFormed, Apart;
    forall u | u in db'.open ensures TxnGood(db'.committed, db'.open[u]) {
      assert TxnGood(db.committed, db.open[u]);
      WellFormedBoth(db.committed, x.added, db.open[u].added);
    }
  }

  lemma ActKeepsGood(db: Database, a: Action)
    requires Good(db)
    ensures Good(Act(db, a))
  {
    hide WellFormed, Apart, Inserts, LocksHeld;
    match a {
      case Begin(t) =>
        if t !in db.open { BeginKeepsGood(db, t); }
      case Deliver(_, _, _) => if Inserts(db, a) { InsertKeepsGood(db, a); }
      case Commit(t) => if t in db.open { CommitKeepsGood(db, t); }
      case Abort(t) =>
        forall u | u in Act(db, a).open ensures TxnGood(Act(db, a).committed, db.open[u]) {
          assert TxnGood(db.committed, db.open[u]);
        }
    }
  }

  lemma BeginKeepsGood(db: Database, t: nat)
    requires Good(db) && t !in db.open
    ensures Good(Act(db, Begin(t)))
  {
    hide WellFormed;
    var db' := Act(db, Begin(t));
    assert db.committed + [] == db.committed;
    forall u | u in db'.open ensures TxnGood(db'.committed, db'.open[u]) {
      if u != t { assert TxnGood(db.committed, db.open[u]); }
    }
  }

  // ---------- What a row adds to the credit of a posting ----------

  predicate Charges(e: Event, target: Ref) {
    CreditKind(e) && e.root == Some(target)
  }

  function Flow(l: seq<Event>, target: Ref): int {
    SumIf(l, e => Charges(e, target))
  }

  lemma FlowIsCredit(l: seq<Event>, o: Event)
    requires WellFormed(l) && o in l && o.Type().InvoicePosted?
    ensures ActiveCredit(l, o.Id()) == Flow(l, o.Id())
  {
    ActiveCreditIsFlow(l, o);
    var sel := (e: Event) => e.root == Some(o.Id());
    forall e: Event ensures RequiredReversed(e.Type()) == Some(CreditNotePosted) <==>
      e.Type().CreditNotePostingReversed? {}
    SumCongruent(l,
      e => sel(e) && (e.Type() == CreditNotePosted || RequiredReversed(e.Type()) == Some(CreditNotePosted)),
      e => Charges(e, o.Id()));
  }

  lemma {:induction false} FlowConcat(l: seq<Event>, d: seq<Event>, target: Ref)
    ensures Flow(l + d, target) == Flow(l, target) + Flow(d, target)
  {
    if |d| == 0 {
      assert l + d == l;
    } else {
      FlowConcat(l, d[..|d| - 1], target);
      assert (l + d)[..|l + d| - 1] == l + d[..|d| - 1];
    }
  }

  lemma {:induction false} NoFlow(l: seq<Event>, target: Ref)
    requires forall e | e in l :: !Charges(e, target)
    ensures Flow(l, target) == 0
  {
    if |l| > 0 { NoFlow(l[..|l| - 1], target); }
  }

  /** A row charges only postings that are stored with it. */
  lemma ChargedMember(l: seq<Event>, x: Event, o: Event)
    requires WellFormed(l) && x in l && Charges(x, o.Id())
    ensures exists y :: y in l && y.Id() == o.Id()
  {
    Members(l, x);
    if x.Type().CreditNotePosted? {
      CreditRoot(l, x);
      var y :| y in l && Edge(x, y);
    } else {
      var credit :| credit in l && Edge(x, credit);
      CreditRoot(l, credit);
      Members(l, credit);
      if credit.reverses.Some? {
        var y :| y in l && Edge(credit, y);
      }
    }
  }

  // ---------- When budgets are kept ----------

  /** The credit fits beside the rows l: the guard on the amount, read on these rows. */
  predicate CreditFits(l: seq<Event>, company: nat, c: Content) {
    c.eventType.CreditNotePosted? && c.reversesKey.Some? ==>
      forall o | o in l && o.Id() == EventRef(company, c.sourceSystem, c.reversesKey.value) ::
        Abs(ActiveCredit(l, o.Id()) + c.Micros()) <= Abs(o.Micros())
  }

  lemma CounterIsPositive(e: Event)
    requires ValidContent(e.content)
    ensures e.Type().CreditNotePostingReversed? || e.Type().InvoicePosted? ==> e.Micros() >= 0
    ensures e.Type().CreditNotePosted? ==> e.Micros() <= 0
  {}

  /** Inserting a row keeps the budgets exactly if it is no credit that does not fit. */
  lemma WithinIffFits(l: seq<Event>, e: Event)
    requires WellFormed(l) && WithinBudget(l) && Extends(l, e)
    requires e.reverses.Some? <==> e.content.reversesKey.Some?
    requires e.reverses.Some? ==>
      e.reverses == Some(EventRef(e.company, e.content.sourceSystem, e.content.reversesKey.value))
    ensures WithinBudget(l + [e]) <==> CreditFits(l, e.company, e.content)
  {
    WellFormedAppend(l, e);
    CounterIsPositive(e);
    var target: Option<Event> := None;
    if e.reverses.Some? {
      var o :| o in l && Edge(e, o);
      target := Some(o);
      Members(l, o);
    }
    hide Extends, WellFormed, ActiveCredit, ValidContent;
    if e.Type().CreditNotePosted? && target.Some? {
      var o := target.value;
      assert o.Type().InvoicePosted?;
      CreditRoot(l + [e], e);
      CreditStep(l, e, o);
      forall y | y in l && y.Id() == o.Id() ensures y == o { IdsUnique(l, y, o); }
      assert o in l + [e];
    }
    if CreditFits(l, e.company, e.content) {
      forall o | o in l + [e] && o.Type().InvoicePosted? ensures Abs(ActiveCredit(l + [e], o.Id())) <= Abs(o.Micros()) {
        if o in l { FittedKept(l, e, o); } else { NoCreditYet(l, e); }
      }
    }
  }

  lemma FittedKept(l: seq<Event>, e: Event, o: Event)
    requires WellFormed(l) && WithinBudget(l) && Extends(l, e) && o in l && o.Type().InvoicePosted?
    requires e.reverses.Some? <==> e.content.reversesKey.Some?
    requires e.reverses.Some? ==>
      e.reverses == Some(EventRef(e.company, e.content.sourceSystem, e.content.reversesKey.value))
    requires CreditFits(l, e.company, e.content)
    ensures Abs(ActiveCredit(l + [e], o.Id())) <= Abs(o.Micros())
  {
    WellFormedAppend(l, e);
    CounterIsPositive(e);
    hide Extends, WellFormed, ActiveCredit, ValidContent;
    CreditStep(l, e, o);
    ActiveCreditNonPositive(l + [e], o.Id());
    if e.Type().CreditNotePosted? && e.root == Some(o.Id()) { CreditRoot(l + [e], e); }
  }

  /** Rows that charge different postings keep the budgets together if they do apart. */
  lemma BothWithin(l: seq<Event>, a: seq<Event>, b: seq<Event>)
    requires WellFormed(l + a) && WellFormed(l + b) && Apart(a, b) && WithinBudget(l + a) && WithinBudget(l + b)
    requires forall x, y | x in a && y in b && CreditKind(x) && CreditKind(y) && x.root.Some? :: x.root != y.root
    ensures WithinBudget(l + a + b)
  {
    WellFormedBoth(l, a, b);
    hide WellFormed, Apart, ActiveCredit, CreditKind;
    forall o | o in l + a + b && o.Type().InvoicePosted?
      ensures Abs(ActiveCredit(l + a + b, o.Id())) <= Abs(o.Micros()) {
      assert forall x | x in l + a :: x in l + a + b;
      assert forall x | x in l + b :: x in l + a + b;
      FlowIsCredit(l + a + b, o);
      FlowConcat(l + a, b, o.Id());
      FlowConcat(l, a, o.Id());
      FlowConcat(l, b, o.Id());
      if x :| x in b && Charges(x, o.Id()) {
        NoFlow(a, o.Id());
        ChargedMember(l + b, x, o);
        var y :| y in l + b && y.Id() == o.Id();
        IdsUnique(l + a + b, y, o);
        FlowIsCredit(l + b, o);
      } else {
        NoFlow(b, o.Id());
        if o in l + a {
          FlowIsCredit(l + a, o);
        } else {
          forall x | x in l + a ensures !Charges(x, o.Id()) {
            if Charges(x, o.Id()) {
              ChargedMember(l + a, x, o);
              var y :| y in l + a && y.Id() == o.Id();
              IdsUnique(l + a + b, y, o);
            }
          }
          NoFlow(l + a, o.Id());
        }
      }
    }
  }

  /** Budgets hold for what is committed, and would hold if any open transaction committed now. */
  ghost predicate AllWithin(db: Database) {
    WithinBudget(db.committed) && forall t | t in db.open :: WithinBudget(Whole(db, t))
  }

  /** A delivery of a credit that fits what is committed now, beside the transaction's own rows. */
  predicate Fits(db: Database, a: Action)
    requires a.Deliver? && a.t in db.open
  {
    CreditFits(Whole(db, a.t), a.company, a.content)
  }

  lemma InsertedShape(db: Database, a: Action)
    requires Inserts(db, a)
    ensures var e := Inserted(db, a);
      && e.content == a.content && e.company == a.company
      && (e.reverses.Some? <==> e.content.reversesKey.Some?)
      && (e.reverses.Some? ==>
            e.reverses == Some(EventRef(e.company, e.content.sourceSystem, e.content.reversesKey.value)))
  {
    AdmittedShape(db.open[a.t].View(), a.company, db.currencies, a.content);
    hide Admit, IndexesAccept, LocksOf;
  }

  lemma InsertedWhole(db: Database, a: Action)
    requires Inserts(db, a)
    ensures Whole(Act(db, a), a.t) == Whole(db, a.t) + [Inserted(db, a)]
    ensures Act(db, a).committed == db.committed && Act(db, a).open.Keys == db.open.Keys
    ensures forall u | u in db.open && u != a.t :: Whole(Act(db, a), u) == Whole(db, u)
  {
    hide Admit, IndexesAccept, LocksOf;
  }

  lemma InsertWithin(db: Database, a: Action)
    requires Good(db) && AllWithin(db) && Inserts(db, a)
    ensures AllWithin(Act(db, a)) <==> Fits(db, a)
  {
    InsertedExtends(db, a);
    InsertedShape(db, a);
    InsertedWhole(db, a);
    assert TxnGood(db.committed, db.open[a.t]);
    hide Inserted, Extends, WellFormed, WithinBudget, CreditFits, LocksOf, Good, Act;
    WithinIffFits(Whole(db, a.t), Inserted(db, a));
  }

  lemma CommitWithin(db: Database, t: nat)
    requires Good(db) && AllWithin(db) && t in db.open
    ensures AllWithin(Act(db, Commit(t)))
  {
    var db', x := Act(db, Commit(t)), db.open[t];
    hide WellFormed, WithinBudget, Apart, CreditKind;
    forall u | u in db'.open ensures WithinBudget(Whole(db', u)) {
      var y := db.open[u];
      assert TxnGood(db.committed, x) && TxnGood(db.committed, y) && x.locks !! y.locks;
      BothWithin(db.committed, x.added, y.added);
    }
  }

  lemma BeginWithin(db: Database, t: nat)
    requires AllWithin(db) && t !in db.open
    ensures AllWithin(Act(db, Begin(t)))
  {
    hide WithinBudget;
    var db' := Act(db, Begin(t));
    forall u | u in db'.open ensures WithinBudget(Whole(db', u)) {
      if u == t { assert Whole(db', u) == db.committed; } else { assert Whole(db', u) == Whole(db, u); }
    }
  }

  lemma ActWithin(db: Database, a: Action)
    requires Good(db) && AllWithin(db)
    ensures AllWithin(Act(db, a)) <==> (Inserts(db, a) ==> Fits(db, a))
  {
    hide Good, WithinBudget, Inserts, CreditFits;
    match a {
      case Begin(t) => NotDelivered(db, a); if t !in db.open { BeginWithin(db, t); }
      case Deliver(t, company, content) => if Inserts(db, a) { InsertWithin(db, a); }
      case Commit(t) => NotDelivered(db, a); if t in db.open { CommitWithin(db, t); }
      case Abort(t) =>
        NotDelivered(db, a);
        forall u | u in Act(db, a).open ensures WithinBudget(Whole(Act(db, a), u)) {
          assert Whole(Act(db, a), u) == Whole(db, u);
        }
    }
  }

  lemma NotDelivered(db: Database, a: Action)
    requires !a.Deliver?
    ensures !Inserts(db, a)
  {}

  lemma {:induction false} AlwaysGood(db: Database, actions: seq<Action>)
    requires Good(db)
    ensures Good(ActAll(db, actions))
  {
    if |actions| > 0 {
      AlwaysGood(db, actions[..|actions| - 1]);
      hide Good, Act;
      ActKeepsGood(ActAll(db, actions[..|actions| - 1]), actions[|actions| - 1]);
    }
  }

  predicate FittingInsert(db: Database, a: Action) {
    Inserts(db, a) ==> Fits(db, a)
  }

  lemma StepWithin(db: Database, a: Action)
    requires Good(db) && AllWithin(db)
    ensures AllWithin(Act(db, a)) <==> FittingInsert(db, a)
  {
    hide Good, AllWithin, Act, Inserts, Fits;
    ActWithin(db, a);
  }

  lemma NoActs(db: Database, actions: seq<Action>)
    requires |actions| == 0
    ensures ActAll(db, actions) == db
  {}

  lemma ActStep(db: Database, actions: seq<Action>, n: nat)
    requires n < |actions|
    ensures ActAll(db, actions[..n + 1]) == Act(ActAll(db, actions[..n]), actions[n])
  {
    hide Act;
    assert actions[..n + 1][..n] == actions[..n];
  }

  /** Under advisory locks alone, budgets hold throughout a schedule exactly if every credit also
   *  fits what is committed when it is delivered; the guard itself only reads the snapshot. */
  lemma {:induction false} BudgetsHoldIffFitting(db: Database, actions: seq<Action>)
    requires Good(db) && AllWithin(db)
    ensures (forall n | 0 <= n <= |actions| :: AllWithin(ActAll(db, actions[..n]))) <==>
      (forall n | 0 <= n < |actions| :: FittingInsert(ActAll(db, actions[..n]), actions[n]))
  {
    hide Good, AllWithin, Act, Inserts, Fits, FittingInsert, ActAll;
    if |actions| == 0 {
      assert ActAll(db, actions[..0]) == db by { NoActs(db, actions[..0]); }
    } else {
      var m := |actions| - 1;
      var prefix, last := actions[..m], actions[m];
      BudgetsHoldIffFitting(db, prefix);
      AlwaysGood(db, prefix);
      assert forall n | 0 <= n <= m :: prefix[..n] == actions[..n];
      assert forall n | 0 <= n < m :: prefix[n] == actions[n];
      if AllWithin(ActAll(db, prefix)) { StepWithin(ActAll(db, prefix), last); }
      ActStep(db, actions, m);
      assert AllWithin(ActAll(db, actions[..m + 1])) <==> AllWithin(Act(ActAll(db, prefix), last));
    }
  }

  // ---------- Fresh snapshots ----------

  /** Nothing that charges the delivery's target was committed since its transaction began. */
  predicate SeesCredit(db: Database, a: Action)
    requires a.Deliver? && a.t in db.open
  {
    a.content.reversesKey.Some? && |db.open[a.t].snapshot| <= |db.committed| ==>
      forall e | e in db.committed[|db.open[a.t].snapshot|..] ::
        !Charges(e, EventRef(a.company, a.content.sourceSystem, a.content.reversesKey.value))
  }

  /** What the guard found on the view it read. */
  lemma AdmittedOnView(view: seq<Event>, company: nat, currencies: set<string>, c: Content, o: Event)
    requires WellFormed(view) && Admit(view, company, currencies, c).Ok? && c.eventType.CreditNotePosted?
    requires c.reversesKey.Some? && o.Id() == EventRef(company, c.sourceSystem, c.reversesKey.value)
    ensures Find(view, o.Id()).Some?
    ensures var target := Find(view, o.Id()).value;
      target.Type().InvoicePosted? && Abs(ActiveCredit(view, o.Id()) + c.Micros()) <= Abs(target.Micros())
  {
    AdmittedShape(view, company, currencies, c);
    var target := Find(view, o.Id()).value;
    AdmittedFits(view, company, currencies, c, target);
    hide ActiveCredit, WellFormed;
  }

  /** Rows that do not charge a posting leave its credit as it was. */
  lemma SameCredit(snapshot: seq<Event>, later: seq<Event>, added: seq<Event>, o: Event)
    requires WellFormed(snapshot + added) && WellFormed(snapshot + later + added)
    requires o in snapshot + added && o.Type().InvoicePosted? && forall e | e in later :: !Charges(e, o.Id())
    ensures ActiveCredit(snapshot + later + added, o.Id()) == ActiveCredit(snapshot + added, o.Id())
  {
    hide WellFormed, ActiveCredit;
    assert o in snapshot + later + added;
    FlowIsCredit(snapshot + added, o);
    FlowIsCredit(snapshot + later + added, o);
    FlowConcat(snapshot, added, o.Id());
    FlowConcat(snapshot + later, added, o.Id());
    FlowConcat(snapshot, later, o.Id());
    NoFlow(later, o.Id());
  }

  lemma FreshFits(db: Database, a: Action)
    requires Good(db) && Inserts(db, a) && SeesCredit(db, a)
    ensures Fits(db, a)
  {
    var x, c := db.open[a.t], a.content;
    assert TxnGood(db.committed, x);
    var whole, later := Whole(db, a.t), db.committed[|x.snapshot|..];
    assert db.committed == x.snapshot + later;
    hide Good, Admit, WellFormed, ActiveCredit, IndexesAccept, LocksOf, LocksHeld, Charges;
    if c.eventType.CreditNotePosted? && c.reversesKey.Some? {
      forall o | o in whole && o.Id() == EventRef(a.company, c.sourceSystem, c.reversesKey.value)
        ensures Abs(ActiveCredit(whole, o.Id()) + c.Micros()) <= Abs(o.Micros())
      {
        AdmittedOnView(x.View(), a.company, db.currencies, c, o);
        var target := Find(x.View(), o.Id()).value;
        assert target in whole;
        IdsUnique(whole, target, o);
        SameCredit(x.snapshot, later, x.added, o);
      }
    }
  }

  predicate FreshInsert(db: Database, a: Action) {
    Inserts(db, a) && a.content.eventType.CreditNotePosted? ==> SeesCredit(db, a)
  }

  lemma FreshIsFitting(db: Database, a: Action)
    requires Good(db) && FreshInsert(db, a)
    ensures FittingInsert(db, a)
  {
    hide Good, Inserts, SeesCredit;
    if Inserts(db, a) {
      DeliverOnly(db, a);
      if a.content.eventType.CreditNotePosted? { FreshFits(db, a); }
    }
  }

  lemma DeliverOnly(db: Database, a: Action)
    requires Inserts(db, a)
    ensures a.Deliver? && a.t in db.open
  {}

  /** Credits whose transactions saw every committed change to their posting's credit never
   *  overdraw it, whatever else is interleaved. */
  lemma FreshDeliveriesKeepBudgets(db: Database, actions: seq<Action>)
    requires Good(db) && AllWithin(db)
    requires forall n | 0 <= n < |actions| :: FreshInsert(ActAll(db, actions[..n]), actions[n])
    ensures WellFormed(ActAll(db, actions).committed) && WithinBudget(ActAll(db, actions).committed)
  {
    AlwaysGood(db, actions);
    hide FreshInsert, FittingInsert;
    forall n | 0 <= n < |actions| ensures FittingInsert(ActAll(db, actions[..n]), actions[n]) {
      AlwaysGood(db, actions[..n]);
      FreshIsFitting(ActAll(db, actions[..n]), actions[n]);
    }
    BudgetsHoldIffFitting(db, actions);
    assert actions[..|actions|] == actions;
    assert AllWithin(ActAll(db, actions));
  }

  // ---------- Stale snapshots ----------

  function Start(l: seq<Event>, currencies: set<string>): Database {
    Database(l, currencies, map[])
  }

  lemma StartGood(l: seq<Event>, currencies: set<string>)
    requires WellFormed(l) && WithinBudget(l)
    ensures Good(Start(l, currencies)) && AllWithin(Start(l, currencies))
  {}

  /** Two transactions begin; the first delivers and commits before the second delivers. */
  function OneAfterTheOther(company: nat, first: Content, second: Content): seq<Action> {
    [Begin(1), Begin(2), Deliver(1, company, first), Commit(1), Deliver(2, company, second), Commit(2)]
  }

  /** A credit of the posting o that the ledger l would admit. */
  ghost predicate Creditable(l: seq<Event>, currencies: set<string>, o: Event, c: Content) {
    && ValidContent(c) && c.eventType.CreditNotePosted?
    && c.sourceSystem == o.content.sourceSystem && c.reversesKey == Some(o.content.key)
    && Find(l, EventRef(o.company, c.sourceSystem, c.key)).None?
    && Admit(l, o.company, currencies, c).Ok?
  }

  lemma CreditableShape(l: seq<Event>, currencies: set<string>, o: Event, c: Content)
    requires WellFormed(l) && o in l && o.Type().InvoicePosted? && Creditable(l, currencies, o, c)
    ensures var e := Admit(l, o.company, currencies, c).value;
      && Extends(l, e) && e.content == c && e.company == o.company && e.reverses == Some(o.Id())
      && e.root == Some(o.Id())
  {
    AdmittedExtends(l, o.company, currencies, c);
    AdmittedShape(l, o.company, currencies, c);
    var e := Admit(l, o.company, currencies, c).value;
    hide Admit;
    WellFormedAppend(l, e);
    CreditRoot(l + [e], e);
  }

  lemma SixActs(db: Database, actions: seq<Action>)
    requires |actions| == 6
    ensures ActAll(db, actions)
      == Act(Act(Act(Act(Act(Act(db, actions[0]), actions[1]), actions[2]), actions[3]), actions[4]), actions[5])
  {
    hide Act;
    assert actions[..6] == actions && ActAll(db, actions[..0]) == db;
    hide ActAll;
    ActStep(db, actions, 0);
    ActStep(db, actions, 1);
    ActStep(db, actions, 2);
    ActStep(db, actions, 3);
    ActStep(db, actions, 4);
    ActStep(db, actions, 5);
  }

  /** A transaction that has written nothing delivers one credit on its snapshot and commits. */
  lemma DeliverAndCommit(db: Database, t: nat, company: nat, c: Content)
    requires t in db.open && db.open[t].added == [] && db.open[t].locks == {} && db.open[t].snapshot <= db.committed
    requires ValidContent(c) && Find(db.open[t].snapshot, EventRef(company, c.sourceSystem, c.key)).None?
    requires Admit(db.open[t].snapshot, company, db.currencies, c).Ok?
    requires IndexesAccept(db.committed, Admit(db.open[t].snapshot, company, db.currencies, c).value)
    requires forall u | u in db.open && u != t :: db.open[u].added == [] && db.open[u].locks == {}
    ensures Act(Act(db, Deliver(t, company, c)), Commit(t))
      == db.(committed := db.committed + [Admit(db.open[t].snapshot, company, db.currencies, c).value],
        open := db.open - {t})
  {
    assert db.open[t].View() == db.open[t].snapshot;
    hide Admit, Find, LocksOf, ValidContent;
  }

  /** Two events that do not refer to each other can follow the same ledger. */
  lemma BothExtend(l: seq<Event>, e1: Event, e2: Event)
    requires Extends(l, e1) && Extends(l, e2) && e1.Id() != e2.Id() && !IsRequiredReversal(e2.Type())
    ensures IndexesAccept(l, e1) && IndexesAccept(l + [e1], e2) && Extends(l + [e1], e2)
  {
    ExtendsAccepts(l, e1);
    ExtendsAccepts(l, e2);
    AcceptsBoth(l, [e1], e2);
    ExtendsWider(l, l + [e1], e2);
  }

  lemma BothCommitted(l: seq<Event>, currencies: set<string>, company: nat, first: Content, second: Content)
    requires ValidContent(first) && Find(l, EventRef(company, first.sourceSystem, first.key)).None?
    requires ValidContent(second) && Find(l, EventRef(company, second.sourceSystem, second.key)).None?
    requires Admit(l, company, currencies, first).Ok? && Admit(l, company, currencies, second).Ok?
    requires var e1, e2 := Admit(l, company, currencies, first).value, Admit(l, company, currencies, second).value;
      IndexesAccept(l, e1) && IndexesAccept(l + [e1], e2)
    ensures ActAll(Start(l, currencies), OneAfterTheOther(company, first, second)).committed
      == l + [Admit(l, company, currencies, first).value] + [Admit(l, company, currencies, second).value]
  {
    var db := Start(l, currencies);
    hide Admit, ActAll, Find, ValidContent, IndexesAccept;
    SixActs(db, OneAfterTheOther(company, first, second));
    var begun := db.(open := map[1 := Txn(l, [], {}), 2 := Txn(l, [], {})]);
    assert Act(Act(db, Begin(1)), Begin(2)) == begun;
    var later := db.(committed := l + [Admit(l, company, currencies, first).value], open := map[2 := Txn(l, [], {})]);
    assert begun.open - {1} == later.open;
    hide Act;
    DeliverAndCommit(begun, 1, company, first);
    DeliverAndCommit(later, 2, company, second);
  }

  /** Advisory locks alone do not keep the budget: two credits that each fit are both committed,
   *  one after the other, from snapshots taken before either. */
  lemma StaleCreditsOverdraw(l: seq<Event>, currencies: set<string>, o: Event, first: Content, second: Content)
    requires WellFormed(l) && o in l && o.Type().InvoicePosted?
    requires Creditable(l, currencies, o, first) && Creditable(l, currencies, o, second) && first.key != second.key
    requires Abs(ActiveCredit(l, o.Id()) + first.Micros() + second.Micros()) > Abs(o.Micros())
    ensures !WithinBudget(ActAll(Start(l, currencies), OneAfterTheOther(o.company, first, second)).committed)
  {
    var e1, e2 := Admit(l, o.company, currencies, first).value, Admit(l, o.company, currencies, second).value;
    CreditableShape(l, currencies, o, first);
    CreditableShape(l, currencies, o, second);
    hide Admit, WellFormed, ActiveCredit, ActAll, Extends, IndexesAccept, OneAfterTheOther;
    assert e1.Id() != e2.Id();
    BothExtend(l, e1, e2);
    BothCommitted(l, currencies, o.company, first, second);
    WellFormedAppend(l, e1);
    CreditStep(l, e1, o);
    CreditStep(l + [e1], e2, o);
    assert o in l + [e1] + [e2];
  }

  /** An invoice of a hundred that a shop recorded, and credits of sixty each. */
  const INVOICE: Event := Event(7, Shop(InvoicePosted, 1, External("invoice"), 100_000_000, None), None, None)

  function Shop(t: EventType, id: nat, key: EventKey, micros: int, reverses: Option<EventKey>): Content {
    Content(Revenue, t, "shop", "order", id, key, 0, "first_party", Some(micros), "USD", reverses, Opaque(""))
  }

  function Refund(name: string): Content {
    Shop(CreditNotePosted, 2, External(name), -60_000_000, Some(External("invoice")))
  }

  lemma RefundCreditable(name: string)
    requires name != "invoice"
    ensures WellFormed([INVOICE]) && ActiveCredit([INVOICE], INVOICE.Id()) == 0
    ensures Creditable([INVOICE], {"USD"}, INVOICE, Refund(name))
  {
    assert ValidCurrency("USD");
    assert Extends([], INVOICE);
    WellFormedAppend([], INVOICE);
    NoCreditYet([], INVOICE);
    assert [] + [INVOICE] == [INVOICE];
    assert Find([INVOICE], INVOICE.Id()) == Some(INVOICE);
    assert ReversalRejection([INVOICE], INVOICE, Refund(name)) == None;
  }

  lemma ShopInvoiceOverdrawn()
    ensures !WithinBudget(ActAll(Start([INVOICE], {"USD"}), OneAfterTheOther(7, Refund("a"), Refund("b"))).committed)
  {
    assert "a"[0] == 'a' && "b"[0] == 'b' && "invoice"[0] == 'i';
    RefundCreditable("a");
    RefundCreditable("b");
    hide Creditable, ActiveCredit, WellFormed;
    StaleCreditsOverdraw([INVOICE], {"USD"}, INVOICE, Refund("a"), Refund("b"));
  }
}
