/** Which rows an operation updates, when a transaction may go on, and that one nobody interferes
 *  with always commits. */
module ConcurrencyOutcomes {
  import opened Common
  import opened BusinessEventDto
  import opened Ledger
  import opened Accounting
  import opened AccountingInvariants
  import opened AccountingHistory
  import opened AccountingOperations
  import opened AccountingFrames
  import opened AccountingSerial
  import opened Concurrency

  /** The document reverses x. */
  predicate Reverses(b: Book, id: nat, x: nat) {
    id in b.moves && b.moves[id].terms.reversedEntry == Some(x)
  }

  predicate Outward(b: Book, id: nat) {
    id in b.moves && (b.moves[id].terms.moveType == OutInvoice || b.moves[id].terms.moveType == OutRefund)
  }

  /** The rows of an operation: its documents, and what those that may need an event reverse. */
  lemma RowsOutcome(b: Book, op: MoveOp, x: nat)
    requires Allowed(b, op)
    ensures x in Rows(b, op) <==>
      match op
      case PostBatch(ids, _, _) =>
        x in ids || exists id | id in ids :: Outward(b, id) && b.moves[id].state != Posted && Reverses(b, id, x)
      case Unpost(ids, _, _, _) =>
        x in ids || exists id | id in ids :: Outward(b, id) && b.moves[id].state == Posted && Reverses(b, id, x)
      case Backfill(id) => x == id || Reverses(b, id, x)
      case Edit(id, _) => x == id
      case Create(id, _, _) => x == id
  {}

  /** The committed versions of the rows are still those the transaction began with. */
  predicate Unchanged(db: Database, t: nat, rows: set<nat>)
    requires t in db.open
  {
    forall row | row in rows ::
      (if row in db.versions then db.versions[row] else 0)
        == (if row in db.open[t].stamps then db.open[t].stamps[row] else 0)
  }

  predicate Unheld(db: Database, t: nat, rows: set<nat>) {
    forall u, row | u in db.open && u != t && row in rows :: row !in db.open[u].rows
  }

  /** An operation goes ahead exactly when it would succeed on what the transaction sees and nobody
   *  has changed, or is about to change, a row of it; then the transaction holds its rows. */
  lemma ExecuteOutcome(db: Database, t: nat, op: MoveOp)
    requires t in db.open && Closed(db.open[t].view) && Allowed(db.open[t].view, op)
    ensures var x, db' := db.open[t], Act(db, Execute(t, op));
      var rows := Rows(x.view, op);
      && db'.committed == db.committed && db'.versions == db.versions && db'.history == db.history
      && db'.open.Keys == db.open.Keys && (forall u | u in db.open && u != t :: db'.open[u] == db.open[u])
      && if Apply(x.view, op).Ok? && Unchanged(db, t, rows) && Unheld(db, t, rows)
         then db'.open[t] == Txn(x.snapshot, x.stamps, Apply(x.view, op).value, x.ops + [op], x.rows + rows)
         else db' == db
  {
    hide Apply, Rows, Allowed, Closed;
  }

  /** A transaction begins on what is committed; beginning twice changes nothing. */
  lemma BeginOutcome(db: Database, t: nat)
    ensures var db' := Act(db, Begin(t));
      if t in db.open then db' == db
      else db' == Database(db.committed, db.versions,
             db.open[t := Txn(db.committed, db.versions, db.committed, [], {})], db.history)
  {}

  /** An aborted transaction leaves nothing behind. */
  lemma AbortOutcome(db: Database, t: nat)
    ensures Act(db, Abort(t)) == Database(db.committed, db.versions, db.open - {t}, db.history)
  {}

  /** A commit raises the version of each of its rows by one, and no other. */
  lemma CommitOutcome(db: Database, t: nat)
    requires t in db.open
    ensures var db' := Act(db, Commit(t));
      && db'.history == db.history + db.open[t].ops && db'.open == db.open - {t}
      && forall row: nat ::
           (if row in db'.versions then db'.versions[row] else 0)
             == (if row in db.versions then db.versions[row] else 0) + if row in db.open[t].rows then 1 else 0
  {
    hide Merge;
  }

  /** Once another transaction has committed a row, one that began before cannot update it. */
  lemma LostUpdateRefused(b: Book, actions: seq<Action>, t: nat, u: nat, op: MoveOp, row: nat)
    requires Consistent(b)
    requires var db := ActAll(Start(b), actions);
      && t in db.open && u in db.open && t != u && row in db.open[u].rows
      && Closed(db.open[t].view) && Allowed(db.open[t].view, op) && row in Rows(db.open[t].view, op)
    ensures var db' := Act(ActAll(Start(b), actions), Commit(u));
      Act(db', Execute(t, op)) == db'
  {
    hide *;
    var db := ActAll(Start(b), actions);
    StampsBelow(b, actions, t);
    CommitOutcome(db, u);
    var db' := Act(db, Commit(u));
    RowChanged(db, db', t, u, row);
    StillOpen(db, t, u);
    ExecuteOutcome(db', t, op);
    assert !Unchanged(db', t, Rows(db'.open[t].view, op)) by { NotUnchanged(db', t, Rows(db'.open[t].view, op), row); }
  }

  lemma StampsBelow(b: Book, actions: seq<Action>, t: nat)
    requires Consistent(b) && t in ActAll(Start(b), actions).open
    ensures var db := ActAll(Start(b), actions);
      forall row | row in db.open[t].stamps :: row in db.versions && db.open[t].stamps[row] <= db.versions[row]
  {
    EveryScheduleIsolated(b, actions);
    var db := ActAll(Start(b), actions);
    assert TxnOk(db, db.open[t]);
    hide Consistent, Serialized, ActAll, Moved, Fenced, Changed;
  }

  lemma StillOpen(db: Database, t: nat, u: nat)
    requires t in db.open && u in db.open && t != u
    ensures t in Act(db, Commit(u)).open && Act(db, Commit(u)).open[t] == db.open[t]
  {
    hide Merge, Bump;
  }

  lemma RowChanged(db: Database, db': Database, t: nat, u: nat, row: nat)
    requires t in db.open && u in db.open && t != u && row in db.open[u].rows
    requires forall r | r in db.open[t].stamps :: r in db.versions && db.open[t].stamps[r] <= db.versions[r]
    requires (if row in db'.versions then db'.versions[row] else 0)
      == (if row in db.versions then db.versions[row] else 0) + 1
    ensures (if row in db'.versions then db'.versions[row] else 0)
      != if row in db.open[t].stamps then db.open[t].stamps[row] else 0
  {}

  lemma NotUnchanged(db: Database, t: nat, rows: set<nat>, row: nat)
    requires t in db.open && row in rows
    requires (if row in db.versions then db.versions[row] else 0)
      != if row in db.open[t].stamps then db.open[t].stamps[row] else 0
    ensures !Unchanged(db, t, rows)
  {}

  // ---------- Progress ----------

  function Executions(t: nat, ops: seq<MoveOp>): seq<Action> {
    seq(|ops|, i requires 0 <= i < |ops| => Execute(t, ops[i]))
  }

  /** The transaction has run these operations on what was committed, alone. */
  ghost predicate RanAlone(db: Database, db': Database, t: nat, ops: seq<MoveOp>) {
    && db'.committed == db.committed && db'.versions == db.versions && db'.history == db.history
    && db'.open.Keys == {t} && db'.open[t].stamps == db.versions && db'.open[t].ops == ops
    && db'.open[t].snapshot == db.committed
    && Serial(db.committed, ops) == Some(db'.open[t].view)
  }

  lemma {:induction false} RunsAlone(db: Database, t: nat, ops: seq<MoveOp>)
    requires db.open == map[] && Serial(db.committed, ops).Some?
    ensures RanAlone(db, ActAll(Act(db, Begin(t)), Executions(t, ops)), t, ops)
  {
    hide Apply, Allowed, Closed, Rows;
    if |ops| > 0 {
      var n := |ops| - 1;
      RunsAlone(db, t, ops[..n]);
      assert Executions(t, ops)[..n] == Executions(t, ops[..n]);
      var before := ActAll(Act(db, Begin(t)), Executions(t, ops[..n]));
      ExecuteOutcome(before, t, ops[n]);
      assert ops[..n] + [ops[n]] == ops;
    }
  }

  /** Whenever no other transaction is open, a transaction whose operations succeed one after the
   *  other on what is committed commits all of them. */
  lemma AloneCommits(b: Book, actions: seq<Action>, t: nat, ops: seq<MoveOp>)
    requires Consistent(b)
    requires var db := ActAll(Start(b), actions); db.open == map[] && Serial(db.committed, ops).Some?
    ensures var db := ActAll(Start(b), actions);
      var db' := Act(ActAll(Act(db, Begin(t)), Executions(t, ops)), Commit(t));
      && db'.history == db.history + ops && db'.open == map[]
      && db'.committed.moves == Serial(db.committed, ops).value.moves
      && db'.committed.Events() == Serial(db.committed, ops).value.Events()
      && db'.committed.links == Serial(db.committed, ops).value.links
  {
    hide *;
    var db := ActAll(Start(b), actions);
    var db1 := ActAll(Act(db, Begin(t)), Executions(t, ops));
    RunsAlone(db, t, ops);
    AloneView(db, db1, t, ops);
    AloneSound(b, actions, t, ops);
    OwnMerge(db1, t);
    CommitMerges(db1, t);
  }

  lemma AloneView(db: Database, db': Database, t: nat, ops: seq<MoveOp>)
    requires RanAlone(db, db', t, ops)
    ensures t in db'.open && db'.open[t].snapshot == db'.committed == db.committed && db'.open[t].ops == ops
    ensures Serial(db.committed, ops) == Some(db'.open[t].view) && db'.open - {t} == map[] && db'.history == db.history
  {
    hide Serial;
  }

  lemma CommitMerges(db: Database, t: nat)
    requires t in db.open
    ensures var db' := Act(db, Commit(t));
      && db'.committed == Merge(db.committed, db.open[t]) && db'.history == db.history + db.open[t].ops
      && db'.open == db.open - {t}
  {
    hide Merge, Bump;
  }

  lemma AloneSound(b: Book, actions: seq<Action>, t: nat, ops: seq<MoveOp>)
    requires Consistent(b)
    requires var db1 := ActAll(Act(ActAll(Start(b), actions), Begin(t)), Executions(t, ops)); t in db1.open
    ensures var db1 := ActAll(Act(ActAll(Start(b), actions), Begin(t)), Executions(t, ops)); TxnOk(db1, db1.open[t])
  {
    var all := actions + [Begin(t)] + Executions(t, ops);
    assert (actions + [Begin(t)])[..|actions|] == actions;
    assert ActAll(Start(b), actions + [Begin(t)]) == Act(ActAll(Start(b), actions), Begin(t));
    ActAllConcat(Start(b), actions + [Begin(t)], Executions(t, ops));
    hide Consistent, Serialized, TxnOk, ActAll, Act;
    EveryScheduleIsolated(b, all);
  }

  lemma {:induction false} ActAllConcat(db: Database, first: seq<Action>, second: seq<Action>)
    ensures ActAll(db, first + second) == ActAll(ActAll(db, first), second)
  {
    hide Act;
    if |second| == 0 {
      assert first + second == first;
    } else {
      var n := |second| - 1;
      ActAllConcat(db, first, second[..n]);
      assert (first + second)[..|first + second| - 1] == first + second[..n];
    }
  }

  /** Published on its own snapshot, a transaction gives its own view. */
  lemma OwnMerge(db: Database, t: nat)
    requires t in db.open && TxnOk(db, db.open[t]) && db.open[t].snapshot == db.committed
    ensures var x := db.open[t];
      && Merge(db.committed, x).moves == x.view.moves
      && Merge(db.committed, x).Events() == x.view.Events()
      && Merge(db.committed, x).links == x.view.links
  {
    var x := db.open[t];
    var s := x.snapshot;
    hide Consistent, Moved, Changed, Merge, Serial, Fenced, Past, InStep, LinksTold;
    SameBook(s, x.rows);
    RunRepeats(s, s, x.rows, x.ops);
    ToldWhenConsistent(s);
    ToldWhenConsistent(x.view);
    MergeIsReplay(s, x, s, x.view);
  }

  lemma SameBook(b: Book, f: set<nat>)
    ensures Twin(b, b, f) && Newer(b, b) && SameFacts(b, b)
  {}
}
