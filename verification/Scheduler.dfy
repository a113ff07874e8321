/** The fair scheduler: a stored cursor that walks the sorted ids of a lane in a circle. */
module Scheduler {
  import opened Common
  import opened Allocation

  /** The parameter that holds a cursor: absent, a number, or a text that is none. */
  datatype Stored = Missing | Number(n: int) | Garbage

  function CursorOf(stored: Stored): nat {
    if stored.Number? then Max(0, stored.n) else 0
  }

  predicate Increasing(ids: seq<nat>) {
    forall i, j | 0 <= i < j < |ids| :: ids[i] < ids[j]
  }

  /** The first ids, at most limit of them, that lie after the cursor or not. */
  function Search(ids: seq<nat>, after: bool, cursor: nat, limit: nat): seq<nat> {
    if |ids| == 0 || limit == 0 then []
    else if (ids[0] > cursor) == after then [ids[0]] + Search(ids[1..], after, cursor, limit - 1)
    else Search(ids[1..], after, cursor, limit)
  }

  function Batch(ids: seq<nat>, cursor: nat, limit: nat): seq<nat> {
    var selected := Search(ids, true, cursor, limit);
    selected + if |selected| < limit then Search(ids, false, cursor, limit - |selected|) else []
  }

  /** How many ids do not lie after the cursor. */
  function Passed(ids: seq<nat>, cursor: nat): (p: nat)
    ensures p <= |ids|
  {
    if |ids| == 0 then 0 else Passed(ids[1..], cursor) + if ids[0] <= cursor then 1 else 0
  }

  /** Turn t of the walk that starts behind the first p ids. */
  function Turn(ids: seq<nat>, p: nat, t: nat): nat
    requires |ids| > 0
  {
    ids[(p + t) % |ids|]
  }

  function Walk(ids: seq<nat>, p: nat, from: nat, count: nat): (w: seq<nat>)
    requires |ids| > 0
    ensures |w| == count
  {
    seq<nat>(count, k requires 0 <= k < count => Turn(ids, p, from + k))
  }

  // ---------- One batch ----------

  lemma {:induction false} PassedSplits(ids: seq<nat>, cursor: nat)
    requires Increasing(ids)
    ensures var p := Passed(ids, cursor);
      forall i | 0 <= i < |ids| :: ids[i] <= cursor <==> i < p
  {
    if |ids| > 0 {
      PassedSplits(ids[1..], cursor);
      assert forall i | 0 < i < |ids| :: ids[i] == ids[1..][i - 1];
      if ids[0] > cursor {
        assert forall i | 0 < i < |ids| :: ids[i] > cursor;
        assert |ids| > 1 ==> ids[1..][0] > cursor;
      }
    }
  }

  lemma {:induction false} SearchBefore(ids: seq<nat>, cursor: nat, limit: nat)
    requires Increasing(ids)
    ensures var p := Passed(ids, cursor);
      Search(ids, false, cursor, limit) == ids[..Min(p, limit)]
  {
    PassedSplits(ids, cursor);
    if |ids| > 0 && limit > 0 {
      PassedSplits(ids[1..], cursor);
      if ids[0] <= cursor {
        SearchBefore(ids[1..], cursor, limit - 1);
      } else {
        SearchBefore(ids[1..], cursor, limit);
        assert Passed(ids, cursor) == 0;
      }
    }
  }

  lemma {:induction false} SearchAfter(ids: seq<nat>, cursor: nat, limit: nat)
    requires Increasing(ids)
    ensures var p := Passed(ids, cursor);
      Search(ids, true, cursor, limit) == ids[p..Min(|ids|, p + limit)]
  {
    PassedSplits(ids, cursor);
    if |ids| > 0 && limit > 0 {
      PassedSplits(ids[1..], cursor);
      if ids[0] > cursor {
        assert Passed(ids, cursor) == 0 && Passed(ids[1..], cursor) == 0;
        SearchAfter(ids[1..], cursor, limit - 1);
      } else {
        SearchAfter(ids[1..], cursor, limit);
      }
    }
  }

  lemma Wrap(x: nat, n: nat)
    requires n > 0 && x < 2 * n
    ensures x % n == if x < n then x else x - n
  {
    if x < n { QuotientUnique(x, n, 0, x); } else { QuotientUnique(x, n, 1, x - n); }
  }

  /** A batch is the next stretch of the circle, as long as the limit and the lane allow. */
  lemma BatchIsWalk(ids: seq<nat>, cursor: nat, limit: nat)
    requires Increasing(ids) && |ids| > 0
    ensures Batch(ids, cursor, limit) == Walk(ids, Passed(ids, cursor), 0, Min(limit, |ids|))
  {
    var n, p := |ids|, Passed(ids, cursor);
    SearchAfter(ids, cursor, limit);
    SearchBefore(ids, cursor, Max(0, limit - (n - p)));
    var m := Min(limit, n);
    var b := Batch(ids, cursor, limit);
    assert |b| == m;
    forall k | 0 <= k < m ensures b[k] == Walk(ids, p, 0, m)[k] { Wrap(p + k, n); }
  }

  /** After a batch the cursor stands right behind its last id. */
  lemma CursorAdvances(ids: seq<nat>, p: nat, m: nat)
    requires Increasing(ids) && |ids| > 0 && 0 < m
    ensures Passed(ids, Walk(ids, p, 0, m)[m - 1]) % |ids| == (p + m) % |ids|
  {
    hide Increasing, Passed, Walk;
    var last := (p + (m - 1)) % |ids|;
    LastOfWalk(ids, p, m);
    PassedMember(ids, last);
    NextResidue(p + m - 1, |ids|);
  }

  lemma LastOfWalk(ids: seq<nat>, p: nat, m: nat)
    requires |ids| > 0 && 0 < m
    ensures Walk(ids, p, 0, m)[m - 1] == ids[(p + (m - 1)) % |ids|]
  {}

  lemma PassedMember(ids: seq<nat>, k: nat)
    requires Increasing(ids) && k < |ids|
    ensures Passed(ids, ids[k]) == k + 1
  {
    PassedIs(ids, ids[k], k + 1);
  }

  lemma NextResidue(x: nat, n: nat)
    requires n > 0
    ensures (x % n + 1) % n == (x + 1) % n
  {
    var r := x % n;
    assert x == x / n * n + r;
    if r + 1 < n {
      QuotientUnique(x + 1, n, x / n, r + 1);
      QuotientUnique(r + 1, n, 0, r + 1);
    } else {
      assert x + 1 == (x / n + 1) * n;
      QuotientUnique(x + 1, n, x / n + 1, 0);
      QuotientUnique(n, n, 1, 0);
    }
  }

  lemma PassedIs(ids: seq<nat>, cursor: nat, p: nat)
    requires Increasing(ids) && p <= |ids| && forall i | 0 <= i < |ids| :: ids[i] <= cursor <==> i < p
    ensures Passed(ids, cursor) == p
  {
    PassedSplits(ids, cursor);
    var q := Passed(ids, cursor);
    assert q < |ids| ==> !(ids[q] <= cursor);
    assert p < |ids| ==> !(ids[p] <= cursor);
  }

  lemma SameResidue(a: nat, b: nat, t: nat, n: nat)
    requires n > 0 && a % n == b % n
    ensures (a + t) % n == (b + t) % n
  {
    Residue(a, t, n);
    Residue(b, t, n);
  }

  lemma Residue(a: nat, t: nat, n: nat)
    requires n > 0
    ensures (a + t) % n == (a % n + t) % n
  {
    var x := a % n + t;
    var q, r := x / n, x % n;
    Distributes(a / n, q, n);
    assert a == a / n * n + a % n && x == q * n + r;
    QuotientUnique(a + t, n, a / n + q, r);
  }

  lemma Distributes(x: nat, y: nat, n: nat)
    ensures (x + y) * n == x * n + y * n
  {}

  lemma WalkOn(ids: seq<nat>, p: nat, q: nat, done: nat, m: nat)
    requires |ids| > 0 && q % |ids| == (p + done) % |ids|
    ensures Walk(ids, p, 0, done) + Walk(ids, q, 0, m) == Walk(ids, p, 0, done + m)
  {
    forall k | 0 <= k < m ensures Turn(ids, q, k) == Turn(ids, p, done + k) {
      SameResidue(q, p + done, k, |ids|);
    }
  }

  // ---------- Successive batches ----------

  /** The cursor after a number of calls, and everything they selected. */
  function Calls(ids: seq<nat>, cursor: nat, limit: nat, calls: nat): (nat, seq<nat>) {
    if calls == 0 then (cursor, [])
    else
      var (now, selected) := Calls(ids, cursor, limit, calls - 1);
      var batch := Batch(ids, now, limit);
      (if |batch| > 0 then batch[|batch| - 1] else now, selected + batch)
  }

  /** The cursor stands where done turns from behind the first p ids lead to. */
  predicate Stands(ids: seq<nat>, cursor: nat, p: nat, done: nat)
    requires |ids| > 0
  {
    Passed(ids, cursor) % |ids| == (p + done) % |ids|
  }

  /** One more call continues the walk. */
  lemma CallContinues(ids: seq<nat>, now: nat, limit: nat, p: nat, done: nat)
    requires Increasing(ids) && |ids| > 0 && limit > 0 && Stands(ids, now, p, done)
    ensures var batch, m := Batch(ids, now, limit), Min(limit, |ids|);
      && |batch| == m > 0 && Walk(ids, p, 0, done) + batch == Walk(ids, p, 0, done + m)
      && Stands(ids, batch[m - 1], p, done + m)
  {
    hide Batch, Walk, Increasing, Min;
    var q, m := Passed(ids, now), Min(limit, |ids|);
    MinPositive(limit, |ids|);
    BatchIsWalk(ids, now, limit);
    CursorAdvances(ids, q, m);
    WalkOn(ids, p, q, done, m);
    hide Passed;
    SameResidue(q, p + done, m, |ids|);
    assert p + done + m == p + (done + m);
  }

  /** Successive batches walk the sorted ids in a circle, from wherever the cursor stands. */
  lemma {:induction false} CallsWalk(ids: seq<nat>, cursor: nat, limit: nat, calls: nat)
    requires Increasing(ids) && |ids| > 0 && limit > 0
    ensures var (now, selected) := Calls(ids, cursor, limit, calls);
      var done, p := calls * Min(limit, |ids|), Passed(ids, cursor);
      selected == Walk(ids, p, 0, done) && Stands(ids, now, p, done)
  {
    hide Batch, Walk, Increasing, Min, Passed;
    var p, m := Passed(ids, cursor), Min(limit, |ids|);
    MinPositive(limit, |ids|);
    if calls > 0 {
      CallsWalk(ids, cursor, limit, calls - 1);
      hide Stands;
      OneMoreCall(calls, m);
      CallContinues(ids, Calls(ids, cursor, limit, calls - 1).0, limit, p, (calls - 1) * m);
    }
  }

  lemma MinPositive(a: nat, b: nat)
    requires a > 0 && b > 0
    ensures Min(a, b) > 0
  {}

  lemma OneMoreCall(calls: nat, m: nat)
    requires calls > 0
    ensures calls * m == (calls - 1) * m + m && (calls - 1) * m >= 0
  {}

  /** A batch repeats no id. */
  lemma BatchDistinct(ids: seq<nat>, cursor: nat, limit: nat, i: nat, j: nat)
    requires Increasing(ids) && i < j < |Batch(ids, cursor, limit)|
    ensures Batch(ids, cursor, limit)[i] != Batch(ids, cursor, limit)[j]
  {
    if |ids| > 0 {
      var p := Passed(ids, cursor);
      BatchIsWalk(ids, cursor, limit);
      Wrap(p + i, |ids|);
      Wrap(p + j, |ids|);
    }
  }

  function Count(s: seq<nat>, id: nat): nat {
    if |s| == 0 then 0 else Count(s[..|s| - 1], id) + if s[|s| - 1] == id then 1 else 0
  }

  /** Place k of the walk is taken as often as it comes round. */
  lemma {:induction false} WalkCounts(ids: seq<nat>, p: nat, done: nat, k: nat)
    requires Increasing(ids) && k < |ids|
    ensures Count(Walk(ids, p, 0, done), Turn(ids, p, k)) == Turns(done, |ids|, k)
  {
    var n := |ids|;
    if done == 0 {
      QuotientUnique(0, n, 0, 0);
    } else {
      WalkCounts(ids, p, done - 1, k);
      assert Walk(ids, p, 0, done)[..done - 1] == Walk(ids, p, 0, done - 1);
      NextTurn(done - 1, n, k);
      SameTurn(ids, p, done - 1, k);
    }
  }

  lemma SameTurn(ids: seq<nat>, p: nat, t: nat, k: nat)
    requires Increasing(ids) && k < |ids|
    ensures Turn(ids, p, t) == Turn(ids, p, k) <==> t % |ids| == k
  {
    var n := |ids|;
    var r := t % n;
    QuotientUnique(r, n, 0, r);
    SameResidue(t, r, p, n);
    if r != k { DistinctTurns(ids, p, r, k); }
  }

  lemma DistinctTurns(ids: seq<nat>, p: nat, a: nat, b: nat)
    requires Increasing(ids) && a < |ids| && b < |ids| && a != b
    ensures Turn(ids, p, a) != Turn(ids, p, b)
  {
    var n := |ids|;
    var s := p % n;
    QuotientUnique(s, n, 0, s);
    SameResidue(p, s, a, n);
    SameResidue(p, s, b, n);
    Wrap(s + a, n);
    Wrap(s + b, n);
  }

  /** Every id is some place of the walk. */
  lemma PlaceOf(ids: seq<nat>, p: nat, i: nat) returns (k: nat)
    requires Increasing(ids) && i < |ids|
    ensures k < |ids| && Turn(ids, p, k) == ids[i]
  {
    var n := |ids|;
    var s := p % n;
    QuotientUnique(s, n, 0, s);
    k := if i >= s then i - s else i + n - s;
    SameResidue(p, s, k, n);
    Wrap(s + k, n);
  }

  /** Over any number of calls two ids are selected equally often, up to one. */
  lemma FairCounts(ids: seq<nat>, cursor: nat, limit: nat, calls: nat, i: nat, j: nat)
    requires Increasing(ids) && limit > 0 && i < |ids| && j < |ids|
    ensures var selected := Calls(ids, cursor, limit, calls).1;
      Count(selected, ids[i]) <= Count(selected, ids[j]) + 1
  {
    var p, done := Passed(ids, cursor), calls * Min(limit, |ids|);
    CallsWalk(ids, cursor, limit, calls);
    var k := PlaceOf(ids, p, i);
    var l := PlaceOf(ids, p, j);
    WalkCounts(ids, p, done, k);
    WalkCounts(ids, p, done, l);
  }

  function CeilDiv(n: nat, d: nat): nat
    requires d > 0
  {
    (n + d - 1) / d
  }

  /** Every id is selected within any ceil(N / L) consecutive calls. */
  lemma EveryIdCovered(ids: seq<nat>, cursor: nat, limit: nat, i: nat)
    requires Increasing(ids) && limit > 0 && i < |ids|
    ensures Count(Calls(ids, cursor, limit, CeilDiv(|ids|, limit)).1, ids[i]) >= 1
  {
    var n, calls, p := |ids|, CeilDiv(|ids|, limit), Passed(ids, cursor);
    var done := calls * Min(limit, n);
    EnoughCalls(n, limit);
    CallsWalk(ids, cursor, limit, calls);
    var k := PlaceOf(ids, p, i);
    WalkCounts(ids, p, done, k);
    FullRound(done, n);
  }

  lemma EnoughCalls(n: nat, limit: nat)
    requires n > 0 && limit > 0
    ensures CeilDiv(n, limit) * Min(limit, n) >= n
  {
    var x := n + limit - 1;
    var q := x / limit;
    assert x == q * limit + x % limit;
    if limit > n {
      QuotientUnique(x, limit, 1, n - 1);
    }
  }

  lemma FullRound(done: nat, n: nat)
    requires n > 0 && done >= n
    ensures done / n >= 1
  {
    assert done == done / n * n + done % n;
  }

  // ---------- The circle of ids ----------

  /** The id that follows place c of the circle: the least one above c, or the least of all. */
  predicate Follows(ids: seq<nat>, c: nat, id: nat) {
    && id in ids
    && if exists x | x in ids :: x > c then id > c && forall x | x in ids && x > c :: id <= x
       else forall x | x in ids :: id <= x
  }

  /** Each selected id follows the one before it, and the first one follows c. */
  predicate Circular(ids: seq<nat>, c: nat, selected: seq<nat>) {
    && (|selected| > 0 ==> Follows(ids, c, selected[0]))
    && forall k | 0 < k < |selected| :: Follows(ids, selected[k - 1], selected[k])
  }

  lemma PlaceFollows(ids: seq<nat>, c: nat)
    requires Increasing(ids) && |ids| > 0
    ensures Follows(ids, c, ids[Passed(ids, c) % |ids|])
  {
    var n, p := |ids|, Passed(ids, c);
    PassedSplits(ids, c);
    Wrap(p, n);
    if p < n {
      assert ids[p] > c;
    } else {
      forall x | x in ids ensures x <= c {
        var i :| 0 <= i < n && ids[i] == x;
      }
    }
  }

  lemma WalkIsCircular(ids: seq<nat>, c: nat, count: nat)
    requires Increasing(ids) && |ids| > 0
    ensures Circular(ids, c, Walk(ids, Passed(ids, c), 0, count))
  {
    var p, n := Passed(ids, c), |ids|;
    var w := Walk(ids, p, 0, count);
    PlaceFollows(ids, c);
    forall k | 0 < k < count ensures Follows(ids, w[k - 1], w[k]) {
      PlaceFollows(ids, w[k - 1]);
      PassedMember(ids, (p + (k - 1)) % n);
      NextResidue(p + (k - 1), n);
    }
  }

  lemma FollowsOnly(ids: seq<nat>, c: nat, x: nat, y: nat)
    requires Follows(ids, c, x) && Follows(ids, c, y)
    ensures x == y
  {}

  /** A circular selection is determined by its start and its length. */
  lemma {:induction false} CircularOnly(ids: seq<nat>, c: nat, a: seq<nat>, b: seq<nat>)
    requires Circular(ids, c, a) && Circular(ids, c, b) && |a| == |b|
    ensures a == b
  {
    if |a| > 0 {
      var n := |a| - 1;
      assert Circular(ids, c, a[..n]) && Circular(ids, c, b[..n]);
      CircularOnly(ids, c, a[..n], b[..n]);
      FollowsOnly(ids, if n == 0 then c else a[n - 1], a[n], b[n]);
      assert a == a[..n] + [a[n]] && b == b[..n] + [b[n]];
    }
  }

  /** A batch is circular from the cursor, and as long as the limit and the lane allow. */
  lemma BatchIsCircular(ids: seq<nat>, cursor: nat, limit: nat)
    requires Increasing(ids)
    ensures |Batch(ids, cursor, limit)| == Min(limit, |ids|) && Circular(ids, cursor, Batch(ids, cursor, limit))
  {
    if |ids| > 0 {
      BatchIsWalk(ids, cursor, limit);
      WalkIsCircular(ids, cursor, Min(limit, |ids|));
    }
  }

  lemma CircularOn(ids: seq<nat>, c: nat, a: seq<nat>, b: seq<nat>)
    requires Circular(ids, c, a) && Circular(ids, if a == [] then c else a[|a| - 1], b)
    ensures Circular(ids, c, a + b)
  {}

  /** What a circular selection of the lane's ids gives each of them: any two are selected equally
   *  often, up to one, and all are selected once the selection is as long as the lane. */
  lemma CircularIsFair(ids: seq<nat>, c: nat, selected: seq<nat>, i: nat, j: nat)
    requires Increasing(ids) && Circular(ids, c, selected) && i < |ids| && j < |ids|
    ensures Count(selected, ids[i]) <= Count(selected, ids[j]) + 1
    ensures |selected| >= |ids| ==> Count(selected, ids[i]) >= 1
  {
    var p, done := Passed(ids, c), |selected|;
    WalkIsCircular(ids, c, done);
    CircularOnly(ids, c, selected, Walk(ids, p, 0, done));
    var k := PlaceOf(ids, p, i);
    var l := PlaceOf(ids, p, j);
    WalkCounts(ids, p, done, k);
    WalkCounts(ids, p, done, l);
    if done >= |ids| { FullRound(done, |ids|); }
  }

  lemma AllReached(calls: nat, limit: nat, n: nat)
    requires calls * limit >= n
    ensures calls * (if limit < n then limit else n) >= n
  {
    if n > 0 && limit >= n {
      SomeCall(calls, limit);
      ScaleUp(calls, n);
    }
  }

  lemma SomeCall(calls: nat, limit: nat)
    requires calls * limit > 0
    ensures calls >= 1
  {}

  lemma ScaleUp(calls: nat, n: nat)
    requires calls >= 1
    ensures calls * n >= n
  {}

  lemma {:induction false} CountedIsMember(selected: seq<nat>, id: nat)
    ensures Count(selected, id) >= 1 <==> id in selected
  {
    if |selected| > 0 {
      CountedIsMember(selected[..|selected| - 1], id);
      assert selected == selected[..|selected| - 1] + [selected[|selected| - 1]];
    }
  }

  // ---------- The lane ----------

  datatype Invalid = InvalidLimit

  class Lane {
    var stored: Stored

    constructor (stored: Stored)
      ensures this.stored == stored
    {
      this.stored := stored;
    }

    /** Selects the next batch of the lane's sorted ids and moves the cursor to its last one. */
    method FairBatch(ids: seq<nat>, limit: int) returns (r: Result<seq<nat>, Invalid>)
      modifies this
      ensures r.Err? <==> !(1 <= limit <= 1000)
      ensures r.Err? ==> stored == old(stored)
      ensures r.Ok? ==> r.value == Batch(ids, CursorOf(old(stored)), limit)
      ensures r.Ok? ==> stored == if r.value == [] then old(stored) else Number(r.value[|r.value| - 1])
      ensures r.Ok? && Increasing(ids) ==> |r.value| == if limit < |ids| then limit else |ids|
      ensures r.Ok? && Increasing(ids) && old(stored).Number? && old(stored).n >= 0 ==>
        Circular(ids, old(stored).n, r.value)
      ensures r.Ok? && Increasing(ids) && !(old(stored).Number? && old(stored).n >= 0) ==> Circular(ids, 0, r.value)
    {
      if !(1 <= limit <= 1000) { return Err(InvalidLimit); }
      var cursor := CursorOf(stored);
      var selected := Search(ids, true, cursor, limit);
      var remaining := limit - |selected|;
      if remaining > 0 {
        selected := selected + Search(ids, false, cursor, remaining);
      }
      if selected != [] { stored := Number(selected[|selected| - 1]); }
      if Increasing(ids) { BatchIsCircular(ids, cursor, limit); }
      r := Ok(selected);
    }

    /** Successive calls on one lane, from whatever its parameter holds: they walk the ids in a
     *  circle, give any two of them equally many turns up to one, and reach all of them within
     *  ceil(N / L) calls. */
    method FairBatches(ids: seq<nat>, limit: int, calls: nat) returns (selected: seq<nat>)
      requires 1 <= limit <= 1000 && Increasing(ids)
      modifies this
      ensures Circular(ids, if old(stored).Number? && old(stored).n >= 0 then old(stored).n else 0, selected)
      ensures |selected| == calls * if limit < |ids| then limit else |ids|
      ensures forall i, j | 0 <= i < |ids| && 0 <= j < |ids| :: Count(selected, ids[i]) <= Count(selected, ids[j]) + 1
      ensures calls * limit >= |ids| ==> forall id | id in ids :: id in selected
    {
      ghost var start := if stored.Number? && stored.n >= 0 then stored.n else 0;
      ghost var m := if limit < |ids| then limit else |ids|;
      selected := [];
      for k := 0 to calls
        invariant Circular(ids, start, selected) && |selected| == k * m
        invariant if selected == [] then stored == old(stored) else stored == Number(selected[|selected| - 1])
      {
        var batch := FairBatch(ids, limit);
        CircularOn(ids, start, selected, batch.value);
        OneMoreCall(k + 1, m);
        selected := selected + batch.value;
      }
      forall i, j | 0 <= i < |ids| && 0 <= j < |ids| ensures Count(selected, ids[i]) <= Count(selected, ids[j]) + 1 {
        CircularIsFair(ids, start, selected, i, j);
      }
      if calls * limit >= |ids| {
        AllReached(calls, limit, |ids|);
        forall i | 0 <= i < |ids| ensures ids[i] in selected {
          CircularIsFair(ids, start, selected, i, i);
          CountedIsMember(selected, ids[i]);
        }
      }
    }
  }
}
