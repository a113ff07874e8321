/** When a delivery under advisory locks inserts its event, and what a lone delivery commits. */
module AdvisoryOutcomes {
  import opened Common
  import opened BusinessEventDto
  import opened Ledger
  import opened LedgerTheorems
  import opened LedgerOutcomes
  import opened AdvisoryLocks

  /** What the ledger makes of the payload on the rows that the transaction sees. */
  function Delivered(db: Database, x: Txn, company: nat, c: Content): Result<(State, Disposition), Rejection> {
    Ingest(State(x.snapshot + x.added, []), company, db.currencies, Payload(c, 0, ""))
  }

  /** The postings and targets whose lock the delivery wants: those of the event that it names, or of
   *  the one that an undone credit is charged to. */
  predicate Wants(l: seq<Event>, company: nat, c: Content, target: Ref) {
    c.reversesKey.Some? &&
    var named := EventRef(company, c.sourceSystem, c.reversesKey.value);
    if c.eventType == CreditNotePostingReversed && exists o | o in l :: IdOf(o) == named
    then exists o | o in l :: IdOf(o) == named && target == if o.reverses.Some? then o.reverses.value else named
    else target == named
  }

  /** Somebody else holds a lock that the delivery wants. */
  predicate Locked(db: Database, t: nat, company: nat, c: Content)
    requires t in db.open
  {
    exists u | u in db.open && u != t ::
      || EventLock(EventRef(company, c.sourceSystem, c.key)) in db.open[u].locks
      || exists k | k in db.open[u].locks && k.ReversalLock? ::
           Wants(db.open[t].snapshot + db.open[t].added, company, c, k.target)
  }

  /** A row with the event's key, or a counterevent of the same event. */
  predicate Clashes(x: Event, e: Event) {
    IdOf(x) == IdOf(e) || (Counterevent(e.content.eventType) && e.reverses.Some? && x.reverses == e.reverses
      && Counterevent(x.content.eventType))
  }

  lemma WantsIsLock(l: seq<Event>, company: nat, c: Content, target: Ref)
    requires WellFormed(l)
    ensures Wants(l, company, c, target) <==> ReversalLockKey(l, company, c) == Some(target)
  {
    if c.reversesKey.Some? {
      var named := EventRef(company, c.sourceSystem, c.reversesKey.value);
      forall o | o in l && IdOf(o) == named ensures Find(l, named) == Some(o) { FindMember(l, o); }
    }
    hide WellFormed;
  }

  lemma LockedIsDenied(db: Database, t: nat, company: nat, c: Content)
    requires t in db.open && WellFormed(db.open[t].View())
    ensures Locked(db, t, company, c)
      <==> exists u | u in db.open && u != t :: !(LocksOf(db.open[t].View(), company, c) !! db.open[u].locks)
  {
    var view := db.open[t].View();
    forall target ensures Wants(view, company, c, target) <==> ReversalLockKey(view, company, c) == Some(target) {
      WantsIsLock(view, company, c, target);
    }
    hide WellFormed, Wants, ReversalLockKey;
    forall u | u in db.open && u != t
      ensures !(LocksOf(view, company, c) !! db.open[u].locks) <==>
        || EventLock(EventRef(company, c.sourceSystem, c.key)) in db.open[u].locks
        || exists k | k in db.open[u].locks && k.ReversalLock? :: Wants(view, company, c, k.target)
    {
      LocksMeet(view, company, c, db.open[u].locks);
    }
    hide LocksOf;
  }

  lemma LocksMeet(view: seq<Event>, company: nat, c: Content, locks: set<Lock>)
    requires forall target :: Wants(view, company, c, target) <==> ReversalLockKey(view, company, c) == Some(target)
    ensures !(LocksOf(view, company, c) !! locks) <==>
      || EventLock(EventRef(company, c.sourceSystem, c.key)) in locks
      || exists k | k in locks && k.ReversalLock? :: Wants(view, company, c, k.target)
  {
    hide Wants, ReversalLockKey;
    if k :| k in locks && k.ReversalLock? && Wants(view, company, c, k.target) {
      assert k in LocksOf(view, company, c) && k in locks;
    }
    if EventLock(EventRef(company, c.sourceSystem, c.key)) in locks {
      assert EventLock(EventRef(company, c.sourceSystem, c.key)) in LocksOf(view, company, c);
    }
    if k :| k in LocksOf(view, company, c) && k in locks {
      assert k.ReversalLock? ==> Wants(view, company, c, k.target);
    }
  }

  lemma ClashIsRefused(x: Event, e: Event)
    ensures Clashes(x, e) <==>
      !(x.Id() != e.Id() && (IsRequiredReversal(e.Type()) && e.reverses.Some? ==> !Cancels(x, e.reverses.value)))
  {}

  /** A delivery inserts exactly when the ledger accepts it on what its transaction sees, nobody else
   *  holds a lock it wants, and no row, committed or not, clashes with it; then the transaction
   *  holds those locks. */
  lemma DeliverOutcome(db: Database, t: nat, company: nat, c: Content)
    requires t in db.open && WellFormed(db.open[t].View())
    ensures var x, db', r := db.open[t], Act(db, Deliver(t, company, c)), Delivered(db, db.open[t], company, c);
      if r.Ok? && r.value.1 == Accepted && |r.value.0.events| == |x.snapshot + x.added| + 1
         && !Locked(db, t, company, c)
         && var e := r.value.0.events[|x.snapshot + x.added|];
            && (forall y | y in db.committed :: !Clashes(y, e))
            && (forall u, y | u in db.open && u != t && y in db.open[u].added :: !Clashes(y, e))
      then
        && db'.committed == db.committed && db'.currencies == db.currencies && db'.open.Keys == db.open.Keys
        && (forall u | u in db.open && u != t :: db'.open[u] == db.open[u])
        && db'.open[t].snapshot == x.snapshot
        && db'.open[t].added == x.added + [r.value.0.events[|x.snapshot + x.added|]]
        && EventLock(EventRef(company, c.sourceSystem, c.key)) in db'.open[t].locks
        && (forall target | Wants(x.snapshot + x.added, company, c, target) ::
          ReversalLock(target) in db'.open[t].locks)
      else db' == db
  {
    var view := db.open[t].View();
    LockedIsDenied(db, t, company, c);
    forall target ensures Wants(view, company, c, target) <==> ReversalLockKey(view, company, c) == Some(target) {
      WantsIsLock(view, company, c, target);
    }
    forall y, e ensures Clashes(y, e) <==>
      !(y.Id() != e.Id() && (IsRequiredReversal(e.Type()) && e.reverses.Some? ==> !Cancels(y, e.reverses.value)))
    {
      ClashIsRefused(y, e);
    }
    hide WellFormed, Wants, ReversalLockKey, Locked, Clashes, Cancels, IsRequiredReversal, Admit, ValidContent, Observe;
  }

  /** A transaction sees what was committed when it began; a commit publishes its rows and frees its
   *  locks, and an abort only the locks. */
  lemma TransactionOutcome(db: Database, t: nat)
    ensures t in db.open ==> Act(db, Action.Begin(t)) == db
    ensures t !in db.open ==>
      Act(db, Action.Begin(t)) == Database(db.committed, db.currencies, db.open[t := Txn(db.committed, [], {})])
    ensures Act(db, Action.Commit(t)) ==
      Database(if t in db.open then db.committed + db.open[t].added else db.committed, db.currencies, db.open - {t})
    ensures Act(db, Action.Abort(t)) == Database(db.committed, db.currencies, db.open - {t})
  {
    assert t !in db.open ==> db.open - {t} == db.open;
  }
}
