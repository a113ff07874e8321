/** Concurrent transactions under snapshot isolation, where the first updater of a row wins.
 *
 *  A transaction works on the snapshot it began with, however old that is when it obtains its
 *  advisory locks; what orders it against others is the row update the adapter performs before
 *  it reads the ledger. */
module Concurrency {
  import opened Common
  import opened BusinessEventDto
  import opened Ledger
  import opened LedgerTheorems
  import opened Accounting
  import opened AccountingInvariants
  import opened AccountingPosting
  import opened AccountingTheorems
  import opened AccountingHistory
  import opened AccountingOperations
  import opened AccountingFrames
  import opened AccountingReplay
  import opened AccountingSerial

  datatype Txn = Txn(snapshot: Book, stamps: map<nat, nat>, view: Book, ops: seq<MoveOp>, rows: set<nat>)

  /** The committed book, the version of every row ever written, the open transactions, and the
   *  committed operations in the order of their commits. */
  datatype Database = Database(committed: Book, versions: map<nat, nat>, open: map<nat, Txn>, history: seq<MoveOp>)

  datatype Action = Begin(t: nat) | Execute(t: nat, op: MoveOp) | Commit(t: nat) | Abort(t: nat)

  function Version(versions: map<nat, nat>, row: nat): nat {
    if row in versions then versions[row] else 0
  }

  function Drop<T>(s: seq<T>, n: nat): seq<T> {
    if n <= |s| then s[n..] else []
  }

  /** Nobody has committed a newer version of these rows, and no other transaction holds them. */
  predicate Updatable(db: Database, t: nat, rows: set<nat>)
    requires t in db.open
  {
    forall row | row in rows ::
      && Version(db.versions, row) == Version(db.open[t].stamps, row)
      && forall u | u in db.open && u != t :: row !in db.open[u].rows
  }

  /** A committing transaction publishes the rows it updated and the records it inserted. */
  function Merge(c: Book, x: Txn): Book {
    Book(
      c.moves + (map id | id in x.rows && id in x.view.moves :: x.view.moves[id]),
      State(c.Events() + Drop(x.view.Events(), |x.snapshot.Events()|),
            c.ledger.observations + Drop(x.view.ledger.observations, |x.snapshot.ledger.observations|)),
      c.links + (x.view.links - x.snapshot.links),
      c.currencies)
  }

  function Bump(versions: map<nat, nat>, rows: set<nat>): map<nat, nat> {
    versions + map row | row in rows :: Version(versions, row) + 1
  }

  predicate CanExecute(db: Database, t: nat, op: MoveOp) {
    && t in db.open
    && Closed(db.open[t].view) && Allowed(db.open[t].view, op)
    && Updatable(db, t, Rows(db.open[t].view, op))
    && Apply(db.open[t].view, op).Ok?
  }

  /** One action; an action that is not possible now changes nothing. */
  function Act(db: Database, action: Action): Database {
    match action
    case Begin(t) =>
      if t in db.open then db
      else db.(open := db.open[t := Txn(db.committed, db.versions, db.committed, [], {})])
    case Execute(t, op) =>
      if CanExecute(db, t, op) then
        var x := db.open[t];
        db.(open := db.open[t := x.(view := Apply(x.view, op).value, ops := x.ops + [op],
          rows := x.rows + Rows(x.view, op))])
      else db
    case Commit(t) =>
      if t in db.open then
        var x := db.open[t];
        Database(Merge(db.committed, x), Bump(db.versions, x.rows), db.open - {t}, db.history + x.ops)
      else db
    case Abort(t) => db.(open := db.open - {t})
  }

  function ActAll(db: Database, actions: seq<Action>): Database {
    if |actions| == 0 then db else Act(ActAll(db, actions[..|actions| - 1]), actions[|actions| - 1])
  }

  function Start(b: Book): Database {
    Database(b, map[], map[], [])
  }

  // ---------- Serial runs ----------

  /** The book after these operations one after the other, if each of them succeeds. */
  function Serial(b: Book, ops: seq<MoveOp>): Option<Book> {
    if |ops| == 0 then Some(b)
    else
      match Serial(b, ops[..|ops| - 1])
      case None => None
      case Some(b') =>
        var op := ops[|ops| - 1];
        if Closed(b') && Allowed(b', op) && Apply(b', op).Ok? then Some(Apply(b', op).value) else None
  }

  /** The operations succeed on b and update only rows of f. */
  ghost predicate Fenced(b: Book, ops: seq<MoveOp>, f: set<nat>) {
    Serial(b, ops).Some? && (|ops| == 0 || (
      && Fenced(b, ops[..|ops| - 1], f)
      && var before, op := Serial(b, ops[..|ops| - 1]).value, ops[|ops| - 1];
         Allowed(before, op) && Rows(before, op) <= f))
  }

  lemma {:induction false} FencedMore(b: Book, ops: seq<MoveOp>, f: set<nat>, g: set<nat>)
    requires Fenced(b, ops, f) && f <= g
    ensures Fenced(b, ops, g)
  {
    if |ops| > 0 { FencedMore(b, ops[..|ops| - 1], f, g); }
  }

  lemma FencedAppend(b: Book, ops: seq<MoveOp>, f: set<nat>, op: MoveOp)
    requires Fenced(b, ops, f) && var v := Serial(b, ops).value;
      Closed(v) && Allowed(v, op) && Rows(v, op) <= f && Apply(v, op).Ok?
    ensures Fenced(b, ops + [op], f) && Serial(b, ops + [op]) == Some(Apply(Serial(b, ops).value, op).value)
  {
    assert (ops + [op])[..|ops|] == ops;
  }

  lemma {:induction false} SerialConcat(b: Book, first: seq<MoveOp>, second: seq<MoveOp>)
    requires Serial(b, first).Some?
    ensures Serial(b, first + second) == Serial(Serial(b, first).value, second)
  {
    if |second| == 0 {
      assert first + second == first;
    } else {
      var n := |second| - 1;
      SerialConcat(b, first, second[..n]);
      assert (first + second)[..|first + second| - 1] == first + second[..n];
    }
  }

  /** A successful run repeats itself on every consistent book that agrees on its rows. */
  lemma {:induction false} RunRepeats(a: Book, b: Book, f: set<nat>, ops: seq<MoveOp>)
    requires Consistent(a) && Consistent(b) && Twin(a, b, f) && Newer(a, b) && Fenced(a, ops, f)
    ensures Serial(b, ops).Some?
    ensures var a', b' := Serial(a, ops).value, Serial(b, ops).value;
      InStep(a, a', b, b', f) && Consistent(a') && Consistent(b') && Newer(a', b')
  {
    hide Consistent, Twin, InStep, Apply, Rows, Newer;
    if |ops| == 0 {
      StayInStep(a, b, f);
    } else {
      var prefix, op := ops[..|ops| - 1], ops[|ops| - 1];
      RunRepeats(a, b, f, prefix);
      var a1, b1 := Serial(a, prefix).value, Serial(b, prefix).value;
      InStepTwin(a, a1, b, b1, f);
      OperationRepeats(a1, b1, f, op);
      Keeps(a1, op);
      Keeps(b1, op);
      StepOn(a, a1, Apply(a1, op).value, b, b1, Apply(b1, op).value, f);
    }
  }

  lemma Keeps(b: Book, op: MoveOp)
    requires Consistent(b) && Closed(b) && Allowed(b, op) && Apply(b, op).Ok?
    ensures Consistent(Apply(b, op).value)
  {
    hide Consistent, Apply, CountedOnce, OneActive;
    OperationKeeps(b, op);
  }

  // ---------- What a snapshot misses ----------

  /** Rows with a newer committed version than the snapshot's. */
  function Changed(stamps: map<nat, nat>, versions: map<nat, nat>): set<nat> {
    set row | row in versions && Version(stamps, row) != versions[row]
  }

  /** Since the snapshot, only rows with a newer version and events about them were added. */
  ghost predicate Past(s: Book, stamps: map<nat, nat>, c: Book, versions: map<nat, nat>) {
    && Moved(s, c, Changed(stamps, versions))
    && (forall row | row in stamps :: row in versions && stamps[row] <= versions[row])
  }

  /** On rows without a newer version the snapshot is still current. */
  lemma CurrentOnOwnRows(s: Book, c: Book, f: set<nat>, changed: set<nat>)
    requires Moved(s, c, changed) && f !! changed
    ensures Twin(s, c, f) && Newer(s, c)
  {
    assert c.Events() == s.Events() + Tail(s, c);
    NearAppend(s.Events(), Tail(s, c), f);
    NearNothing(Tail(s, c), f);
  }

  lemma MovedOn(a: Book, b: Book, c: Book, f: set<nat>, g: set<nat>)
    requires Moved(a, b, f) && Moved(b, c, g)
    ensures Moved(a, c, f + g)
  {
    assert Tail(a, c) == Tail(a, b) + Tail(b, c);
  }

  lemma ChangedAfterBump(stamps: map<nat, nat>, versions: map<nat, nat>, rows: set<nat>)
    requires forall row | row in stamps :: row in versions && stamps[row] <= versions[row]
    ensures Changed(stamps, Bump(versions, rows)) == Changed(stamps, versions) + rows
  {
    forall row | row in rows ensures row in Changed(stamps, Bump(versions, rows)) {
      assert Bump(versions, rows)[row] == Version(versions, row) + 1;
    }
  }

  lemma BumpGrows(versions: map<nat, nat>, rows: set<nat>)
    ensures forall row | row in versions :: row in Bump(versions, rows) && versions[row] <= Bump(versions, rows)[row]
  {}

  // ---------- The invariant ----------

  /** Equal in everything but the record of observations. */
  predicate SameFacts(a: Book, b: Book) {
    a.moves == b.moves && a.Events() == b.Events() && a.links == b.links && a.currencies == b.currencies
  }

  ghost predicate TxnOk(db: Database, x: Txn) {
    && Consistent(x.snapshot)
    && Fenced(x.snapshot, x.ops, x.rows) && Serial(x.snapshot, x.ops) == Some(x.view)
    && Past(x.snapshot, x.stamps, db.committed, db.versions)
    && x.rows !! Changed(x.stamps, db.versions)
  }

  ghost predicate Serialized(start: Book, db: Database) {
    && Serial(start, db.history).Some?
    && SameFacts(db.committed, Serial(start, db.history).value)
    && Consistent(Serial(start, db.history).value)
  }

  ghost predicate Isolated(start: Book, db: Database) {
    && Serialized(start, db)
    && (forall t | t in db.open :: TxnOk(db, db.open[t]))
    && (forall t, u | t in db.open && u in db.open && t != u :: db.open[t].rows !! db.open[u].rows)
  }

  /** Publishing a transaction's rows and records gives exactly the book its operations give
   *  when they run on the committed book itself. */
  lemma MergeIsReplay(c: Book, x: Txn, s: Book, s': Book)
    requires SameFacts(c, s) && Serial(x.snapshot, x.ops) == Some(x.view)
    requires InStep(x.snapshot, x.view, s, s', x.rows)
    requires LinksTold(x.snapshot) && LinksTold(x.view) && LinksTold(s) && LinksTold(s')
    requires x.snapshot.Events() <= s.Events()
    ensures SameFacts(Merge(c, x), s') && Moved(c, Merge(c, x), x.rows)
  {
    var d := Tail(x.snapshot, x.view);
    MergeLinks(c, x, s, s', d);
    hide LinksFrom, LinksTold, Twin, Near, Serial;
    assert Drop(x.view.Events(), |x.snapshot.Events()|) == d == Tail(s, s');
    assert s'.Events() == s.Events() + d;
    MergeRows(c, x, s, s');
  }

  lemma MergeRows(c: Book, x: Txn, s: Book, s': Book)
    requires c.moves == s.moves && InStep(x.snapshot, x.view, s, s', x.rows)
    ensures Merge(c, x).moves == s'.moves
  {
    hide Within, Near, Tail;
  }

  lemma MergeLinks(c: Book, x: Txn, s: Book, s': Book, d: seq<Event>)
    requires c.links == s.links && x.snapshot.Events() <= s.Events()
    requires x.view.Events() == x.snapshot.Events() + d && s'.Events() == s.Events() + d
    requires LinksTold(x.snapshot) && LinksTold(x.view) && LinksTold(s) && LinksTold(s')
    ensures Merge(c, x).links == s'.links
  {
    LinksFromConcat(x.snapshot.Events(), d);
    LinksFromConcat(s.Events(), d);
    LinksFromMonotone(x.snapshot.Events(), s.Events());
    hide LinksFrom, Drop;
  }

  lemma LinksFromConcat(l: seq<Event>, d: seq<Event>)
    ensures LinksFrom(l + d) == LinksFrom(l) + LinksFrom(d)
  {
    assert forall e :: e in l + d <==> e in l || e in d;
  }

  lemma LinksFromMonotone(l: seq<Event>, m: seq<Event>)
    requires l <= m
    ensures LinksFrom(l) <= LinksFrom(m)
  {}

  lemma SameFactsConsistent(a: Book, b: Book)
    requires SameFacts(a, b) && Consistent(b)
    ensures Consistent(a)
  {
    SameEvents(b, a);
  }

  lemma CommitReplays(start: Book, db: Database, t: nat)
    requires Isolated(start, db) && t in db.open
    ensures Serialized(start, Act(db, Commit(t)))
    ensures Moved(db.committed, Act(db, Commit(t)).committed, db.open[t].rows)
  {
    hide Consistent, Fenced, Twin, InStep, Merge, Changed, Moved, Serial, LinksTold, SameFacts, Newer, Bump;
    var x, s := db.open[t], Serial(start, db.history).value;
    assert TxnOk(db, x);
    SameFactsConsistent(db.committed, s);
    var changed := Changed(x.stamps, db.versions);
    MovedSame(x.snapshot, db.committed, s, changed);
    CurrentOnOwnRows(x.snapshot, s, x.rows, changed);
    RunRepeats(x.snapshot, s, x.rows, x.ops);
    var s' := Serial(s, x.ops).value;
    ToldWhenConsistent(x.snapshot);
    ToldWhenConsistent(x.view);
    ToldWhenConsistent(s);
    ToldWhenConsistent(s');
    MergeIsReplay(db.committed, x, s, s');
    SerialConcat(start, db.history, x.ops);
  }

  lemma MovedSame(a: Book, b: Book, c: Book, f: set<nat>)
    requires Moved(a, b, f) && SameFacts(b, c)
    ensures Moved(a, c, f) && a.Events() <= c.Events()
  {}

  lemma ToldWhenConsistent(b: Book)
    requires Consistent(b)
    ensures LinksTold(b)
  {
    hide LinksTold;
  }

  lemma CommitKeeps(start: Book, db: Database, t: nat)
    requires Isolated(start, db) && t in db.open
    ensures Isolated(start, Act(db, Commit(t)))
  {
    hide Consistent, Fenced, Merge, Serialized, Moved, Serial, Changed, Bump, Version;
    CommitReplays(start, db, t);
    var db', x := Act(db, Commit(t)), db.open[t];
    forall u | u in db'.open ensures TxnOk(db', db'.open[u]) {
      var y := db.open[u];
      assert TxnOk(db, y);
      MovedOn(y.snapshot, db.committed, db'.committed, Changed(y.stamps, db.versions), x.rows);
      ChangedAfterBump(y.stamps, db.versions, x.rows);
      BumpGrows(db.versions, x.rows);
    }
  }

  lemma BeginKeeps(start: Book, db: Database, t: nat)
    requires Isolated(start, db)
    ensures Isolated(start, Act(db, Begin(t)))
  {
    hide Consistent;
    if t !in db.open {
      SameFactsConsistent(db.committed, Serial(start, db.history).value);
      var db' := Act(db, Begin(t));
      forall u | u in db'.open ensures TxnOk(db', db'.open[u]) {
        if u != t { assert TxnOk(db, db.open[u]); }
      }
    }
  }

  lemma UpdatableUnchanged(db: Database, t: nat, rows: set<nat>)
    requires t in db.open && Updatable(db, t, rows)
    ensures rows !! Changed(db.open[t].stamps, db.versions)
    ensures forall u | u in db.open && u != t :: rows !! db.open[u].rows
  {}

  /** What an executed operation makes of its transaction. */
  lemma ExecutedOk(db: Database, t: nat, op: MoveOp)
    requires CanExecute(db, t, op) && TxnOk(db, db.open[t])
    ensures TxnOk(Act(db, Execute(t, op)), Act(db, Execute(t, op)).open[t])
  {
    hide Consistent, Apply, Rows, Moved, Serial, Fenced, Allowed, Closed, Version, Changed, Past;
    var x := db.open[t];
    var rows := Rows(x.view, op);
    UpdatableUnchanged(db, t, rows);
    FencedMore(x.snapshot, x.ops, x.rows, x.rows + rows);
    FencedAppend(x.snapshot, x.ops, x.rows + rows, op);
  }

  lemma TxnOkElsewhere(db: Database, db': Database, x: Txn)
    requires TxnOk(db, x) && db'.committed == db.committed && db'.versions == db.versions
    ensures TxnOk(db', x)
  {
    hide Consistent, Fenced, Past, Changed;
  }

  lemma ExecuteKeeps(start: Book, db: Database, t: nat, op: MoveOp)
    requires Isolated(start, db)
    ensures Isolated(start, Act(db, Execute(t, op)))
  {
    if CanExecute(db, t, op) {
      ExecutedOk(db, t, op);
      UpdatableUnchanged(db, t, Rows(db.open[t].view, op));
      hide Consistent, Apply, Rows, Serialized, TxnOk, Serial, Allowed, Closed, Updatable;
      var db' := Act(db, Execute(t, op));
      SerializedSame(start, db, db');
      forall u | u in db'.open ensures TxnOk(db', db'.open[u]) {
        if u != t { TxnOkElsewhere(db, db', db.open[u]); }
      }
    }
  }

  lemma {:induction false} EveryScheduleIsolated(b: Book, actions: seq<Action>)
    requires Consistent(b)
    ensures Isolated(b, ActAll(Start(b), actions))
  {
    if |actions| > 0 {
      var before, last := ActAll(Start(b), actions[..|actions| - 1]), actions[|actions| - 1];
      EveryScheduleIsolated(b, actions[..|actions| - 1]);
      hide Consistent, Serialized, TxnOk;
      match last {
        case Begin(t) => BeginKeeps(b, before, t);
        case Execute(t, op) => ExecuteKeeps(b, before, t, op);
        case Commit(t) => if t in before.open { CommitKeeps(b, before, t); }
        case Abort(t) =>
          forall u | u in before.open - {t} ensures TxnOk(Act(before, last), before.open[u]) {
            AbortInert(before, t, before.open[u]);
          }
          assert Serialized(b, before);
          SerializedSame(b, before, Act(before, last));
      }
    }
  }

  lemma AbortInert(db: Database, t: nat, x: Txn)
    requires TxnOk(db, x)
    ensures TxnOk(Act(db, Abort(t)), x)
  {
    hide Consistent;
  }

  lemma SerializedSame(b: Book, db: Database, db': Database)
    requires Serialized(b, db) && db'.committed == db.committed && db'.history == db.history
    ensures Serialized(b, db')
  {
    hide Consistent;
  }

  /** Every interleaving of transactions that post, unpost, backfill, edit and create documents
   *  commits exactly what its committed operations give one after the other in commit order;
   *  so it keeps the ledger well formed, active credits within their invoice posting, no credit
   *  counted twice, links true and the next key of every document unused. */
  lemma InterleavingsSerialize(b: Book, actions: seq<Action>)
    requires Consistent(b)
    ensures var db := ActAll(Start(b), actions);
      && Serial(b, db.history).Some? && SameFacts(db.committed, Serial(b, db.history).value)
      && Consistent(db.committed) && WellFormed(db.committed.Events()) && WithinBudget(db.committed.Events())
      && LinksTold(db.committed) && KeysFresh(db.committed)
  {
    EveryScheduleIsolated(b, actions);
    var db := ActAll(Start(b), actions);
    SameFactsConsistent(db.committed, Serial(b, db.history).value);
    ConsistentKeysFresh(db.committed);
  }

  // ---------- Counting documents once ----------

  function NativeSteps(ops: seq<MoveOp>): seq<Step> {
    seq(|ops|, i requires 0 <= i < |ops| => Native(ops[i]))
  }

  lemma {:induction false} RunIsSerial(b: Book, ops: seq<MoveOp>)
    requires Serial(b, ops).Some?
    ensures Run(b, NativeSteps(ops)) == Serial(b, ops).value
  {
    if |ops| > 0 {
      RunIsSerial(b, ops[..|ops| - 1]);
      assert NativeSteps(ops)[..|ops| - 1] == NativeSteps(ops[..|ops| - 1]);
    }
  }

  /** Every batch among the operations is ordered when they run one after the other. */
  predicate OrderedOps(b: Book, ops: seq<MoveOp>) {
    OrderedRun(b, NativeSteps(ops))
  }

  lemma OrderedOpsAppend(b: Book, ops: seq<MoveOp>, op: MoveOp)
    requires Serial(b, ops).Some?
    ensures OrderedOps(b, ops + [op]) <==> OrderedOps(b, ops) && OrderedOp(Serial(b, ops).value, op)
  {
    RunIsSerial(b, ops);
    var steps := NativeSteps(ops + [op]);
    assert steps[..|steps| - 1] == NativeSteps(ops);
  }

  lemma {:induction false} OrderedOpsConcat(b: Book, first: seq<MoveOp>, second: seq<MoveOp>)
    requires Serial(b, first).Some? && Serial(Serial(b, first).value, second).Some?
    requires OrderedOps(b, first) && OrderedOps(Serial(b, first).value, second)
    ensures OrderedOps(b, first + second)
  {
    hide OrderedOps, OrderedOp;
    if |second| == 0 {
      assert first + second == first;
    } else {
      var n := |second| - 1;
      var mid := Serial(b, first).value;
      assert second == second[..n] + [second[n]];
      OrderedOpsAppend(mid, second[..n], second[n]);
      OrderedOpsConcat(b, first, second[..n]);
      SerialConcat(b, first, second[..n]);
      OrderedOpsAppend(b, first + second[..n], second[n]);
      assert first + second == first + second[..n] + [second[n]];
    }
  }

  lemma OrderAlike(a: Book, b: Book, f: set<nat>, op: MoveOp)
    requires Consistent(a) && Consistent(b) && Twin(a, b, f) && Newer(a, b) && Allowed(a, op) && Rows(a, op) <= f
    requires Succeeds(a, op) && OrderedOp(a, op)
    ensures OrderedOp(b, op)
  {
    hide Consistent, Apply, BatchOrdered, Twin, Rows;
    OperationRepeats(a, b, f, op);
    if op.PostBatch? { BatchOrderAlike(a, b, f, op); }
  }

  lemma BatchOrderAlike(a: Book, b: Book, f: set<nat>, op: MoveOp)
    requires op.PostBatch? && Twin(a, b, f) && Newer(a, b) && Allowed(a, op) && Rows(a, op) <= f
    requires BatchOrdered(a, op.ids, op.deferred)
    ensures BatchOrdered(b, op.ids, op.deferred)
  {
    var ids := op.ids;
    forall id | id in ids ensures a.moves[id] == b.moves[id] { assert id in Rows(a, op); }
    hide Twin, Rows, Allowed;
    forall x, y | x in ids && y in ids && Precedes(ids, x, y) ensures !CreditOfInvoice(b, ids, op.deferred, x, y) {
      assert !CreditOfInvoice(a, ids, op.deferred, x, y);
    }
  }

  lemma {:induction false} OrderRepeats(a: Book, b: Book, f: set<nat>, ops: seq<MoveOp>)
    requires Consistent(a) && Consistent(b) && Twin(a, b, f) && Newer(a, b) && Fenced(a, ops, f) && OrderedOps(a, ops)
    ensures Serial(b, ops).Some? && OrderedOps(b, ops)
  {
    hide Consistent, Twin, InStep, Apply, Rows, Newer, OrderedOps, OrderedOp, Allowed, Closed;
    RunRepeats(a, b, f, ops);
    if |ops| == 0 {
      assert OrderedOps(b, ops) by { NoneOrdered(b, ops); }
    } else {
      var prefix, op := ops[..|ops| - 1], ops[|ops| - 1];
      assert ops == prefix + [op];
      RunRepeats(a, b, f, prefix);
      var a1, b1 := Serial(a, prefix).value, Serial(b, prefix).value;
      OrderedOpsAppend(a, prefix, op);
      OrderRepeats(a, b, f, prefix);
      InStepTwin(a, a1, b, b1, f);
      OrderAlike(a1, b1, f, op);
      OrderedOpsAppend(b, prefix, op);
    }
  }

  lemma NoneOrdered(b: Book, ops: seq<MoveOp>)
    requires |ops| == 0
    ensures OrderedOps(b, ops)
  {}

  ghost predicate OrderedDatabase(start: Book, db: Database) {
    && OrderedOps(start, db.history)
    && forall t | t in db.open :: OrderedOps(db.open[t].snapshot, db.open[t].ops)
  }

  lemma CommitKeepsOrder(start: Book, db: Database, t: nat)
    requires Isolated(start, db) && OrderedDatabase(start, db) && t in db.open
    ensures OrderedDatabase(start, Act(db, Commit(t)))
  {
    hide Consistent, Fenced, Twin, Merge, Changed, Moved, Serial, SameFacts, Newer, Bump, OrderedOps;
    var x, s := db.open[t], Serial(start, db.history).value;
    assert TxnOk(db, x);
    var changed := Changed(x.stamps, db.versions);
    MovedSame(x.snapshot, db.committed, s, changed);
    CurrentOnOwnRows(x.snapshot, s, x.rows, changed);
    OrderRepeats(x.snapshot, s, x.rows, x.ops);
    OrderedOpsConcat(start, db.history, x.ops);
  }

  /** Every batch that the schedule executes is ordered in the view it is posted in. */
  predicate OrderedActions(db: Database, actions: seq<Action>) {
    |actions| == 0 || (
      && OrderedActions(db, actions[..|actions| - 1])
      && var before, last := ActAll(db, actions[..|actions| - 1]), actions[|actions| - 1];
         last.Execute? && CanExecute(before, last.t, last.op) ==> OrderedOp(before.open[last.t].view, last.op))
  }

  lemma {:induction false} OrderedScheduleStaysOrdered(b: Book, actions: seq<Action>)
    requires Consistent(b) && OrderedActions(Start(b), actions)
    ensures OrderedDatabase(b, ActAll(Start(b), actions))
  {
    hide Consistent, OrderedOps, OrderedOp, Isolated;
    if |actions| == 0 {
      NoneOrdered(b, []);
    } else {
      var before, last := ActAll(Start(b), actions[..|actions| - 1]), actions[|actions| - 1];
      EveryScheduleIsolated(b, actions[..|actions| - 1]);
      OrderedScheduleStaysOrdered(b, actions[..|actions| - 1]);
      match last {
        case Begin(t) => NoneOrdered(before.committed, []);
        case Execute(t, op) => if CanExecute(before, t, op) { ExecuteKeepsOrder(b, before, t, op); }
        case Commit(t) => if t in before.open { CommitKeepsOrder(b, before, t); }
        case Abort(t) =>
      }
    }
  }

  lemma ExecuteKeepsOrder(start: Book, db: Database, t: nat, op: MoveOp)
    requires Isolated(start, db) && OrderedDatabase(start, db) && CanExecute(db, t, op)
      && OrderedOp(db.open[t].view, op)
    ensures OrderedDatabase(start, Act(db, Execute(t, op)))
  {
    hide Consistent, OrderedOps, OrderedOp, Fenced, Past, Serialized;
    assert TxnOk(db, db.open[t]);
    OrderedOpsAppend(db.open[t].snapshot, db.open[t].ops, op);
  }

  /** A serial run never counts a document twice exactly when its batches are ordered. */
  lemma SerialNeverDoublesIffOrdered(b: Book, ops: seq<MoveOp>)
    requires Consistent(b) && CountedOnce(b) && Serial(b, ops).Some?
    ensures (forall n | 0 <= n <= |ops| :: OneActive(Run(b, NativeSteps(ops)[..n]))) <==> OrderedOps(b, ops)
    ensures OrderedOps(b, ops) ==> CountedOnce(Serial(b, ops).value)
  {
    hide Consistent, CountedOnce, OneActive;
    NeverDoubledIffOrdered(b, NativeSteps(ops));
    RunIsSerial(b, ops);
  }

  /** A schedule commits no document counted twice if every batch was ordered in the view it was
   *  posted in, and its committed operations never doubled one exactly if they were ordered. */
  lemma InterleavingsCountOnce(b: Book, actions: seq<Action>)
    requires Consistent(b) && CountedOnce(b)
    ensures var db := ActAll(Start(b), actions);
      && ((forall n | 0 <= n <= |db.history| :: OneActive(Run(b, NativeSteps(db.history)[..n]))) <==>
        OrderedOps(b, db.history))
      && (OrderedOps(b, db.history) ==> CountedOnce(db.committed))
      && (OrderedActions(Start(b), actions) ==> OrderedOps(b, db.history))
  {
    hide Consistent, CountedOnce, OneActive, OrderedOps, OrderedActions;
    var db := ActAll(Start(b), actions);
    EveryScheduleIsolated(b, actions);
    if OrderedActions(Start(b), actions) { OrderedScheduleStaysOrdered(b, actions); }
    SerialNeverDoublesIffOrdered(b, db.history);
    if OrderedOps(b, db.history) { SameFactsCounted(db.committed, Serial(b, db.history).value); }
  }

  lemma SameFactsCounted(a: Book, b: Book)
    requires SameFacts(a, b) && CountedOnce(b)
    ensures CountedOnce(a)
  {}
}
