/** Splitting a signed amount over weights in micros, the remainder going round from the front. */
module Allocation {
  import opened Common

  const MILLION := 1_000_000

  function Sum(s: seq<int>): int {
    if |s| == 0 then 0 else Sum(s[..|s| - 1]) + s[|s| - 1]
  }

  function Sign(amount: int): int {
    if amount < 0 then -1 else 1
  }

  /** The share of one weight before the remainder is distributed. */
  function Floor(amount: int, weight: nat): int {
    Sign(amount) * (Abs(amount) * weight / MILLION)
  }

  function Floors(amount: int, weights: seq<nat>): seq<int> {
    seq(|weights|, k requires 0 <= k < |weights| => Floor(amount, weights[k]))
  }

  /** How many of the first rounds turns, taken in a circle of n, fall on place k. */
  function Turns(rounds: nat, n: nat, k: nat): nat
    requires k < n
  {
    rounds / n + if k < rounds % n then 1 else 0
  }

  function Remainder(amount: int, weights: seq<nat>): int {
    amount - Sum(Floors(amount, weights))
  }

  /** The shares of an amount. */
  function Allocated(amount: int, weights: seq<nat>): (shares: seq<int>)
    ensures |shares| == |weights|
  {
    var r := Remainder(amount, weights);
    seq(|weights|, k requires 0 <= k < |weights| =>
      Floor(amount, weights[k]) + (if r > 0 then 1 else -1) * Turns(Abs(r), |weights|, k))
  }

  lemma NextTurn(rounds: nat, n: nat, k: nat)
    requires k < n
    ensures Turns(rounds + 1, n, k) == Turns(rounds, n, k) + if rounds % n == k then 1 else 0
  {
    var q, m := rounds / n, rounds % n;
    assert rounds == q * n + m && 0 <= m < n;
    if m == n - 1 {
      assert rounds + 1 == (q + 1) * n;
      QuotientUnique(rounds + 1, n, q + 1, 0);
    } else {
      QuotientUnique(rounds + 1, n, q, m + 1);
    }
  }

  lemma QuotientUnique(x: nat, n: nat, q: nat, m: nat)
    requires n > 0 && x == q * n + m && m < n
    ensures x / n == q && x % n == m
  {
    var d := x / n - q;
    assert x == (x / n) * n + x % n;
    assert d * n == m - x % n by { assert d * n == (x / n) * n - q * n; }
    MultipleIsLarge(d, n);
  }

  lemma MultipleIsLarge(d: int, n: nat)
    requires n > 0
    ensures d >= 1 ==> d * n >= n
    ensures d <= -1 ==> d * n <= -(n as int)
  {
    if d >= 1 {
      assert (d - 1) * n >= 0;
    } else if d <= -1 {
      assert (-1 - d) * n >= 0;
    }
  }

  lemma {:induction false} SumTurns(rounds: nat, n: nat, places: nat)
    requires places <= n && n > 0
    ensures Sum(seq(places, k requires 0 <= k < places => Turns(rounds, n, k))) == places * (rounds / n)
      + Min(places, rounds % n)
  {
    if places > 0 {
      SumTurns(rounds, n, places - 1);
      var s := seq(places, k requires 0 <= k < places => Turns(rounds, n, k));
      assert s[..places - 1] == seq(places - 1, k requires 0 <= k < places - 1 => Turns(rounds, n, k));
      assert places * (rounds / n) == (places - 1) * (rounds / n) + rounds / n;
    }
  }

  lemma {:induction false} SumAdds(s: seq<int>, t: seq<int>, c: int, u: seq<int>)
    requires |s| == |t| == |u| && forall k | 0 <= k < |s| :: u[k] == s[k] + c * t[k]
    ensures Sum(u) == Sum(s) + c * Sum(t)
  {
    var n := |s|;
    if n > 0 {
      SumAdds(s[..n - 1], t[..n - 1], c, u[..n - 1]);
      assert c * Sum(t) == c * Sum(t[..n - 1]) + c * t[n - 1];
    }
  }

  /** The shares add up to the amount exactly, whatever the weights are. */
  lemma SharesAddUp(amount: int, weights: seq<nat>)
    requires |weights| > 0
    ensures Sum(Allocated(amount, weights)) == amount
  {
    var n, r := |weights|, Remainder(amount, weights);
    var rounds := Abs(r);
    var turns: seq<int> := seq(n, k requires 0 <= k < n => Turns(rounds, n, k));
    SumTurns(rounds, n, n);
    assert seq(n, k requires 0 <= k < n => Turns(rounds, n, k)) == turns;
    assert Sum(turns) == n * (rounds / n) + rounds % n == rounds;
    SumAdds(Floors(amount, weights), turns, if r > 0 then 1 else -1, Allocated(amount, weights));
  }

  function Total(weights: seq<nat>): nat {
    if |weights| == 0 then 0 else Total(weights[..|weights| - 1]) + weights[|weights| - 1]
  }

  /** The shares before the remainder, without their sign. */
  function Base(absolute: nat, weights: seq<nat>): nat {
    if |weights| == 0 then 0 else Base(absolute, weights[..|weights| - 1]) + absolute * weights[|weights| - 1] / MILLION
  }

  lemma {:induction false} FloorsAreBase(amount: int, weights: seq<nat>)
    ensures Sum(Floors(amount, weights)) == Sign(amount) * Base(Abs(amount), weights)
  {
    var n := |weights|;
    if n > 0 {
      FloorsAreBase(amount, weights[..n - 1]);
      assert Floors(amount, weights)[..n - 1] == Floors(amount, weights[..n - 1]);
    }
  }

  lemma {:induction false} BaseBounds(absolute: nat, weights: seq<nat>)
    ensures Base(absolute, weights) * MILLION <= absolute * Total(weights)
    ensures |weights| > 0 ==> absolute * Total(weights) < Base(absolute, weights) * MILLION + |weights| * MILLION
  {
    var n := |weights|;
    if n > 0 {
      BaseBounds(absolute, weights[..n - 1]);
      var before, weight := Total(weights[..n - 1]), weights[n - 1];
      assert absolute * (before + weight) == absolute * before + absolute * weight;
    }
  }

  /** With weights that total a million micros the remainder is less than one turn round. */
  lemma RemainderSmall(amount: int, weights: seq<nat>)
    requires Total(weights) == MILLION
    ensures 0 <= Sign(amount) * Remainder(amount, weights) < |weights|
    ensures Abs(Remainder(amount, weights)) < |weights|
  {
    FloorsAreBase(amount, weights);
    BaseBounds(Abs(amount), weights);
  }

  /** With such weights only the first places get one micro more. */
  lemma PlainShare(amount: int, weights: seq<nat>, k: nat)
    requires Total(weights) == MILLION && k < |weights|
    ensures Allocated(amount, weights)[k] ==
      Floor(amount, weights[k]) + if k < Abs(Remainder(amount, weights)) then Sign(amount) else 0
  {
    RemainderSmall(amount, weights);
    var r := Remainder(amount, weights);
    hide Remainder, Floor;
    QuotientUnique(Abs(r), |weights|, 0, Abs(r));
    assert Turns(Abs(r), |weights|, k) == if k < Abs(r) then 1 else 0;
  }

  /** Each share is within one micro of its exact proportion and never of the opposite sign. */
  lemma SharesProportional(amount: int, weights: seq<nat>, k: nat)
    requires Total(weights) == MILLION && k < |weights|
    ensures var share := Allocated(amount, weights)[k];
      && Abs(share * MILLION - amount * weights[k]) <= MILLION
      && Sign(amount) * share >= 0
  {
    PlainShare(amount, weights, k);
    hide Remainder, Allocated, Floor, Sign, Abs, Total;
    NearExact(amount, weights[k], k < Abs(Remainder(amount, weights)));
  }

  lemma NearExact(amount: int, weight: nat, rounded: bool)
    ensures var share := Floor(amount, weight) + if rounded then Sign(amount) else 0;
      Abs(share * MILLION - amount * weight) <= MILLION && Sign(amount) * share >= 0
  {
    var exact := Abs(amount) * weight;
    SignedProduct(amount, weight);
    assert Floor(amount, weight) == Sign(amount) * (exact / MILLION);
    hide Floor;
    WithinOne(exact, Sign(amount), if rounded then 1 else 0);
  }

  lemma SignedProduct(amount: int, weight: nat)
    ensures Abs(amount) * weight >= 0 && amount * weight == Sign(amount) * (Abs(amount) * weight)
  {
    if amount < 0 { assert amount * weight == -((-amount) * weight); }
  }

  lemma WithinOne(exact: nat, sign: int, extra: nat)
    requires sign == 1 || sign == -1
    requires extra <= 1
    ensures Abs((sign * (exact / MILLION) + sign * extra) * MILLION - sign * exact) <= MILLION
    ensures sign * (sign * (exact / MILLION) + sign * extra) >= 0
  {}

  /** Negating the amount negates every share. */
  lemma NegationSymmetric(amount: int, weights: seq<nat>, k: nat)
    requires Total(weights) == MILLION && k < |weights|
    ensures Allocated(-amount, weights)[k] == -Allocated(amount, weights)[k]
  {
    FloorsNegated(amount, weights);
    assert Remainder(-amount, weights) == -Remainder(amount, weights);
    var w := weights[k];
    assert Floor(-amount, w) == -Floor(amount, w);
    hide Remainder, Floor, Allocated, Total, Turns, Floors;
    RemainderSmall(amount, weights);
    PlainShare(amount, weights, k);
    PlainShare(-amount, weights, k);
  }

  lemma {:induction false} FloorsNegated(amount: int, weights: seq<nat>)
    ensures Sum(Floors(-amount, weights)) == -Sum(Floors(amount, weights))
    ensures forall k | 0 <= k < |weights| :: Floor(-amount, weights[k]) == -Floor(amount, weights[k])
  {
    var n := |weights|;
    if n > 0 {
      FloorsNegated(amount, weights[..n - 1]);
      assert Floors(amount, weights)[..n - 1] == Floors(amount, weights[..n - 1]);
      assert Floors(-amount, weights)[..n - 1] == Floors(-amount, weights[..n - 1]);
      assert Floor(-amount, weights[n - 1]) == -Floor(amount, weights[n - 1]);
    }
  }

  /** Distributes an amount over weights, one micro of remainder at a time. */
  method AllocateAmounts(amount: int, weights: seq<nat>) returns (shares: seq<int>)
    ensures shares == Allocated(amount, weights)
  {
    if |weights| == 0 { return []; }
    var n := |weights|;
    shares := [];
    var total := 0;
    for k := 0 to n
      invariant shares == Floors(amount, weights)[..k]
      invariant total == Sum(shares)
    {
      var share := Sign(amount) * (Abs(amount) * weights[k] / MILLION);
      assert (shares + [share])[..k] == shares;
      shares := shares + [share];
      total := total + share;
    }
    assert shares == Floors(amount, weights);
    var remainder := amount - total;
    for position := 0 to Abs(remainder)
      invariant |shares| == n && remainder == Remainder(amount, weights)
      invariant forall k | 0 <= k < n ::
        shares[k] == Floor(amount, weights[k]) + (if remainder > 0 then 1 else -1) * Turns(position, n, k)
    {
      var place := position % n;
      forall k | 0 <= k < n ensures Turns(position + 1, n, k) == Turns(position, n, k) + if place == k then 1 else 0 {
        NextTurn(position, n, k);
      }
      shares := shares[place := shares[place] + if remainder > 0 then 1 else -1];
    }
  }
}
