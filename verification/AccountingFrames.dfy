/** What an operation reads and writes: books that agree on the rows an operation fences give it
 *  the same outcome. */
module AccountingFrames {
  import opened Common
  import opened BusinessEventDto
  import opened Ledger
  import opened LedgerTheorems
  import opened Accounting
  import opened AccountingInvariants
  import opened AccountingPosting
  import opened AccountingTheorems
  import opened AccountingUnposting
  import opened AccountingHistory
  import opened AccountingOperations

  // ---------- Rows ----------

  /** The rows the no-op update of the adapter covers: documents and what they reverse. */
  function Fence(b: Book, ids: seq<nat>): set<nat>
    requires forall id | id in ids :: id in b.moves
  {
    ToSet(ids) + set id | id in ids && b.moves[id].terms.reversedEntry.Some? :: b.moves[id].terms.reversedEntry.value
  }

  /** Every document row an operation updates. */
  function Rows(b: Book, op: MoveOp): set<nat>
    requires Allowed(b, op)
  {
    match op
    case PostBatch(ids, _, _) => Fence(b, Candidates(b, ids, false)) + ToSet(ids)
    case Unpost(ids, _, _, _) => Fence(b, Candidates(b, ids, true)) + ToSet(ids)
    case Backfill(id) => Fence(b, [id])
    case Edit(id, _) => {id}
    case Create(id, _, _) => {id}
  }

  // ---------- Events near a set of rows ----------

  predicate Touches(e: Event, f: set<nat>) {
    MoveEvent(e) && (e.content.sourceResId in f || (LinkedMove(e).Some? && LinkedMove(e).value in f))
  }

  predicate Within(e: Event, f: set<nat>) {
    MoveEvent(e) && e.content.sourceResId in f && (LinkedMove(e).Some? ==> LinkedMove(e).value in f)
  }

  function Near(l: seq<Event>, f: set<nat>): (r: seq<Event>)
    ensures forall e :: e in r <==> e in l && Touches(e, f)
  {
    if |l| == 0 then []
    else
      assert l == l[..|l| - 1] + [l[|l| - 1]];
      Near(l[..|l| - 1], f) + if Touches(l[|l| - 1], f) then [l[|l| - 1]] else []
  }

  lemma {:induction false} NearAppend(l: seq<Event>, d: seq<Event>, f: set<nat>)
    ensures Near(l + d, f) == Near(l, f) + Near(d, f)
  {
    if |d| == 0 {
      assert l + d == l;
    } else {
      NearAppend(l, d[..|d| - 1], f);
      assert (l + d)[..|l + d| - 1] == l + d[..|d| - 1];
    }
  }

  lemma {:induction false} NearNothing(d: seq<Event>, f: set<nat>)
    requires forall e | e in d :: !Touches(e, f)
    ensures Near(d, f) == []
  {
    if |d| > 0 {
      NearNothing(d[..|d| - 1], f);
    }
  }

  lemma {:induction false} NearSum(l: seq<Event>, f: set<nat>, p: Event -> bool)
    requires forall e | e in l && p(e) :: Touches(e, f)
    ensures SumIf(l, p) == SumIf(Near(l, f), p)
  {
    if |l| > 0 {
      var before, e := l[..|l| - 1], l[|l| - 1];
      assert l == before + [e];
      NearSum(before, f, p);
      if Touches(e, f) { SumAppend(Near(before, f), e, p); } else { assert Near(l, f) == Near(before, f); }
    }
  }

  lemma {:induction false} NearLatest(l: seq<Event>, f: set<nat>, p: Event -> bool)
    requires forall e | e in l && p(e) :: Touches(e, f)
    ensures Latest(l, p) == Latest(Near(l, f), p)
  {
    if |l| > 0 {
      var before, e := l[..|l| - 1], l[|l| - 1];
      assert l == before + [e];
      NearLatest(before, f, p);
      if Touches(e, f) {
        assert (Near(before, f) + [e])[..|Near(before, f)|] == Near(before, f);
      } else {
        assert Near(l, f) == Near(before, f);
      }
    }
  }

  lemma {:induction false} LatestCongruent(l: seq<Event>, p: Event -> bool, q: Event -> bool)
    requires forall e | e in l :: p(e) == q(e)
    ensures Latest(l, p) == Latest(l, q)
  {
    if |l| > 0 {
      LatestCongruent(l[..|l| - 1], p, q);
    }
  }

  // ---------- Books that agree on rows ----------

  ghost predicate Twin(a: Book, b: Book, f: set<nat>) {
    && (forall id | id in f :: (id in a.moves <==> id in b.moves) && (id in a.moves ==> a.moves[id] == b.moves[id]))
    && a.currencies == b.currencies
    && Near(a.Events(), f) == Near(b.Events(), f)
  }

  /** The part of soundness that ties events to one another. */
  ghost predicate Traced(b: Book) {
    && WellFormed(b.Events())
    && (forall e | e in b.Events() :: EventOk(b, e))
    && CountereventsCopyLinks(b)
    && LinksTold(b)
  }

  lemma CancellationTouches(b: Book, f: set<nat>, e: Event, x: Event)
    requires Traced(b) && e in b.Events() && x in b.Events() && Touches(e, f)
    requires x.reverses == Some(e.Id()) && IsPostingReversal(x.Type())
    ensures Touches(x, f)
  {
    Members(b.Events(), x);
    var o :| o in b.Events() && Edge(x, o);
    IdsUnique(b.Events(), o, e);
  }

  lemma CancelledInTwin(a: Book, b: Book, f: set<nat>, e: Event)
    requires Traced(a) && Twin(a, b, f) && e in a.Events() && Touches(e, f)
    ensures e in b.Events()
    ensures ActivePosting(b.Events(), e) ==> ActivePosting(a.Events(), e)
  {
    assert e in Near(a.Events(), f);
    forall x | x in a.Events() && x.reverses == Some(e.Id()) && IsPostingReversal(x.Type()) ensures x in b.Events() {
      CancellationTouches(a, f, e, x);
      assert x in Near(a.Events(), f);
    }
  }

  lemma ActivityAgrees(a: Book, b: Book, f: set<nat>, e: Event)
    requires Traced(a) && Traced(b) && Twin(a, b, f) && Touches(e, f)
    ensures e in a.Events() <==> e in b.Events()
    ensures e in a.Events() ==> ActivePosting(a.Events(), e) == ActivePosting(b.Events(), e)
  {
    if e in a.Events() { CancelledInTwin(a, b, f, e); }
    if e in b.Events() { CancelledInTwin(b, a, f, e); }
  }

  /** Selections near the rows, equal on what the books share, give equal sums and latest events. */
  lemma SelectionsAgree(a: Book, b: Book, f: set<nat>, p: Event -> bool, q: Event -> bool)
    requires Near(a.Events(), f) == Near(b.Events(), f)
    requires forall e | e in a.Events() && p(e) :: Touches(e, f)
    requires forall e | e in b.Events() && q(e) :: Touches(e, f)
    requires forall e | e in a.Events() && e in b.Events() && Touches(e, f) :: p(e) == q(e)
    ensures SumIf(a.Events(), p) == SumIf(b.Events(), q)
    ensures Latest(a.Events(), p) == Latest(b.Events(), q)
  {
    NearSum(a.Events(), f, p);
    NearSum(b.Events(), f, q);
    SumCongruent(Near(a.Events(), f), p, q);
    NearLatest(a.Events(), f, p);
    NearLatest(b.Events(), f, q);
    LatestCongruent(Near(a.Events(), f), p, q);
  }

  lemma FoundPostingAgrees(a: Book, b: Book, f: set<nat>, id: nat)
    requires Traced(a) && Traced(b) && Twin(a, b, f) && id in f && id in a.moves && a.moves[id].Outgoing()
    ensures ActivePostingOf(a, id) == ActivePostingOf(b, id)
  {
    var t := PostingType(a.moves[id].terms.moveType);
    var p := (e: Event) => ActiveFor(a.Events(), e, id, t);
    var q := (e: Event) => ActiveFor(b.Events(), e, id, t);
    forall e | e in a.Events() && e in b.Events() && Touches(e, f) ensures p(e) == q(e) { ActivityAgrees(a, b, f, e); }
    SelectionsAgree(a, b, f, p, q);
    LatestCongruent(a.Events(), p, e => ActiveFor(a.Events(), e, id, t));
    LatestCongruent(b.Events(), q, e => ActiveFor(b.Events(), e, id, t));
  }

  lemma LinkNames(b: Book, e: Event, invoice: nat)
    requires Traced(b) && e in b.Events()
    ensures MoveLink(e.Id(), invoice, ReversedInvoice) in b.links <==> MoveEvent(e) && LinkedMove(e) == Some(invoice)
  {
    LinkedIffTold(b.Events(), e, Target(invoice, ReversedInvoice));
  }

  lemma LinkedCreditAgrees(a: Book, b: Book, f: set<nat>, invoice: nat, company: nat, currency: string)
    requires Traced(a) && Traced(b) && Twin(a, b, f) && invoice in f
    ensures LinkedCredit(a, invoice, company, currency) == LinkedCredit(b, invoice, company, currency)
  {
    var p := (e: Event) => LinkedCreditEvent(a, e, invoice, company, currency) && ActivePosting(a.Events(), e);
    var q := (e: Event) => LinkedCreditEvent(b, e, invoice, company, currency) && ActivePosting(b.Events(), e);
    forall e | e in a.Events() && p(e) ensures Touches(e, f) { LinkNames(a, e, invoice); }
    forall e | e in b.Events() && q(e) ensures Touches(e, f) { LinkNames(b, e, invoice); }
    forall e | e in a.Events() && e in b.Events() && Touches(e, f) ensures p(e) == q(e) {
      LinkNames(a, e, invoice);
      LinkNames(b, e, invoice);
      ActivityAgrees(a, b, f, e);
    }
    hide LinkedCreditEvent, ActivePosting;
    SelectionsAgree(a, b, f, p, q);
    assert LinkedCredit(a, invoice, company, currency) == SumIf(a.Events(), p) by {
      SumCongruent(a.Events(),
        e => LinkedCreditEvent(a, e, invoice, company, currency) && ActivePosting(a.Events(), e), p);
    }
    assert LinkedCredit(b, invoice, company, currency) == SumIf(b.Events(), q) by {
      SumCongruent(b.Events(),
        e => LinkedCreditEvent(b, e, invoice, company, currency) && ActivePosting(b.Events(), e), q);
    }
  }

  // ---------- Steps in step ----------

  function Tail(b: Book, b': Book): seq<Event>
    requires |b.Events()| <= |b'.Events()|
  {
    b'.Events()[|b.Events()|..]
  }

  /** From b to b' only rows of f changed, and only events about rows of f were appended. */
  ghost predicate Moved(b: Book, b': Book, f: set<nat>) {
    && b.Events() <= b'.Events()
    && (forall e | e in Tail(b, b') :: Within(e, f))
    && b'.currencies == b.currencies
    && b.moves.Keys <= b'.moves.Keys <= b.moves.Keys + f
    && (forall id | id in b.moves && id !in f :: b'.moves[id] == b.moves[id])
  }

  /** Both books moved in the same way. */
  ghost predicate InStep(a: Book, a': Book, b: Book, b': Book, f: set<nat>) {
    && Moved(a, a', f) && Moved(b, b', f)
    && Tail(a, a') == Tail(b, b')
    && Twin(a', b', f)
  }

  lemma StepOn(a: Book, a1: Book, a2: Book, b: Book, b1: Book, b2: Book, f: set<nat>)
    requires InStep(a, a1, b, b1, f) && InStep(a1, a2, b1, b2, f)
    ensures InStep(a, a2, b, b2, f)
  {
    assert Tail(a, a2) == Tail(a, a1) + Tail(a1, a2);
    assert Tail(b, b2) == Tail(b, b1) + Tail(b1, b2);
  }

  /** Rows change alike while no event is appended. */
  lemma StepRows(a: Book, a': Book, b: Book, b': Book, f: set<nat>)
    requires Twin(a, b, f) && a'.Events() == a.Events() && b'.Events() == b.Events()
    requires a'.currencies == a.currencies && b'.currencies == b.currencies
    requires a.moves.Keys <= a'.moves.Keys <= a.moves.Keys + f && b.moves.Keys <= b'.moves.Keys <= b.moves.Keys + f
    requires forall id | id in a.moves && id !in f :: a'.moves[id] == a.moves[id]
    requires forall id | id in b.moves && id !in f :: b'.moves[id] == b.moves[id]
    requires forall id | id in f ::
      (id in a'.moves <==> id in b'.moves) && (id in a'.moves ==> a'.moves[id] == b'.moves[id])
    ensures InStep(a, a', b, b', f)
  {}

  lemma StayInStep(a: Book, b: Book, f: set<nat>)
    requires Twin(a, b, f)
    ensures InStep(a, a, b, b, f)
  {}

  /** Both books append the same event and keep their rows. */
  lemma StepEvent(a: Book, a': Book, b: Book, b': Book, f: set<nat>, e: Event)
    requires Twin(a, b, f) && Within(e, f)
    requires a'.Events() == a.Events() + [e] && a'.moves == a.moves && a'.currencies == a.currencies
    requires b'.Events() == b.Events() + [e] && b'.moves == b.moves && b'.currencies == b.currencies
    ensures InStep(a, a', b, b', f)
  {
    NearAppend(a.Events(), [e], f);
    NearAppend(b.Events(), [e], f);
  }

  lemma SoundIsTraced(b: Book, pending: set<nat>)
    requires Sound(b, pending)
    ensures Traced(b) && Closed(b)
  {}
}
