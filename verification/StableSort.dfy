/** Stable sorting by a total preorder. */
module StableSort {

  ghost predicate TotalPreorder<T(!new)>(le: (T, T) -> bool) {
    && (forall a, b :: le(a, b) || le(b, a))
    && (forall a, b, c :: le(a, b) && le(b, c) ==> le(a, c))
  }

  function Insert<T>(x: T, s: seq<T>, le: (T, T) -> bool): seq<T> {
    if |s| == 0 then [x]
    else if le(x, s[0]) then [x] + s
    else [s[0]] + Insert(x, s[1..], le)
  }

  function Sort<T>(s: seq<T>, le: (T, T) -> bool): seq<T> {
    if |s| == 0 then [] else Insert(s[0], Sort(s[1..], le), le)
  }

  predicate Sorted<T>(s: seq<T>, le: (T, T) -> bool) {
    forall i, j :: 0 <= i < j < |s| ==> le(s[i], s[j])
  }

  lemma {:induction false} InsertContents<T>(x: T, s: seq<T>, le: (T, T) -> bool)
    ensures multiset(Insert(x, s, le)) == multiset(s) + multiset{x}
  {
    if |s| > 0 {
      assert s == [s[0]] + s[1..];
      if !le(x, s[0]) { InsertContents(x, s[1..], le); }
    }
  }

  lemma {:induction false} InsertKeeps<T(!new)>(x: T, s: seq<T>, le: (T, T) -> bool)
    requires TotalPreorder(le) && Sorted(s, le)
    ensures Sorted(Insert(x, s, le), le)
  {
    if |s| > 0 {
      if !le(x, s[0]) {
        InsertKeeps(x, s[1..], le);
        InsertContents(x, s[1..], le);
        var t := Insert(x, s[1..], le);
        forall i | 0 <= i < |t| ensures le(s[0], t[i]) {
          assert t[i] in multiset(t);
          assert t[i] == x || t[i] in s[1..];
        }
        ConsSorted(s[0], t, le);
      } else {
        forall i | 0 <= i < |s| ensures le(x, s[i]) { assert i == 0 || le(s[0], s[i]); }
        ConsSorted(x, s, le);
      }
    }
  }

  lemma ConsSorted<T>(x: T, s: seq<T>, le: (T, T) -> bool)
    requires Sorted(s, le) && forall i | 0 <= i < |s| :: le(x, s[i])
    ensures Sorted([x] + s, le)
  {}

  lemma {:induction false} SortSorts<T(!new)>(s: seq<T>, le: (T, T) -> bool)
    requires TotalPreorder(le)
    ensures Sorted(Sort(s, le), le) && multiset(Sort(s, le)) == multiset(s) && |Sort(s, le)| == |s|
  {
    if |s| > 0 {
      assert s == [s[0]] + s[1..];
      SortSorts(s[1..], le);
      InsertKeeps(s[0], Sort(s[1..], le), le);
      InsertContents(s[0], Sort(s[1..], le), le);
    }
    assert |multiset(Sort(s, le))| == |multiset(s)|;
  }

  /** The elements that tie with x, in their order. */
  function Ties<T(!new)>(s: seq<T>, x: T, le: (T, T) -> bool): (r: seq<T>)
    ensures forall y :: y in r <==> y in s && le(x, y) && le(y, x)
  {
    if |s| == 0 then []
    else (if le(x, s[0]) && le(s[0], x) then [s[0]] else []) + Ties(s[1..], x, le)
  }

  lemma {:induction false} InsertTies<T(!new)>(x: T, s: seq<T>, k: T, le: (T, T) -> bool)
    requires TotalPreorder(le) && Sorted(s, le)
    ensures Ties(Insert(x, s, le), k, le) == (if le(k, x) && le(x, k) then [x] else []) + Ties(s, k, le)
  {
    hide TotalPreorder, Sorted, Ties;
    if |s| > 0 && !le(x, s[0]) {
      assert s == [s[0]] + s[1..];
      SortedTail(s, le);
      InsertTies(x, s[1..], k, le);
      NotBoth(x, s[0], k, le);
      TiesCons(s[0], s[1..], k, le);
      TiesCons(s[0], Insert(x, s[1..], le), k, le);
    } else {
      assert Insert(x, s, le) == [x] + s;
      TiesCons(x, s, k, le);
    }
  }

  lemma TiesCons<T(!new)>(y: T, t: seq<T>, k: T, le: (T, T) -> bool)
    ensures Ties([y] + t, k, le) == (if le(k, y) && le(y, k) then [y] else []) + Ties(t, k, le)
  {
    assert ([y] + t)[1..] == t;
  }

  lemma SortedTail<T>(s: seq<T>, le: (T, T) -> bool)
    requires Sorted(s, le) && |s| > 0
    ensures Sorted(s[1..], le)
  {}

  lemma NotBoth<T(!new)>(x: T, y: T, k: T, le: (T, T) -> bool)
    requires TotalPreorder(le) && !le(x, y)
    ensures !(le(k, x) && le(x, k) && le(k, y) && le(y, k))
  {}

  /** Sorting keeps the order of elements that tie. */
  lemma {:induction false} SortStable<T(!new)>(s: seq<T>, k: T, le: (T, T) -> bool)
    requires TotalPreorder(le)
    ensures Ties(Sort(s, le), k, le) == Ties(s, k, le)
  {
    if |s| > 0 {
      SortStable(s[1..], k, le);
      SortSorts(s[1..], le);
      InsertTies(s[0], Sort(s[1..], le), k, le);
    }
  }

  /** No two places hold elements that tie. */
  ghost predicate NoTies<T(!new)>(s: seq<T>, le: (T, T) -> bool) {
    forall i, j :: 0 <= i < j < |s| ==> !(le(s[i], s[j]) && le(s[j], s[i]))
  }

  lemma {:induction false} SortedUnique<T(!new)>(s: seq<T>, t: seq<T>, le: (T, T) -> bool)
    requires TotalPreorder(le) && Sorted(s, le) && Sorted(t, le) && multiset(s) == multiset(t) && NoTies(s, le)
    ensures s == t
  {
    assert |multiset(s)| == |multiset(t)|;
    if |s| > 0 {
      assert s == [s[0]] + s[1..] && t == [t[0]] + t[1..];
      SameFirst(s, t, le);
      assert multiset(s[1..]) == multiset(s) - multiset{s[0]};
      assert multiset(t[1..]) == multiset(t) - multiset{t[0]};
      assert Sorted(s[1..], le) && Sorted(t[1..], le) && NoTies(s[1..], le);
      hide TotalPreorder, Sorted, NoTies;
      SortedUnique(s[1..], t[1..], le);
    }
  }

  lemma SameFirst<T(!new)>(s: seq<T>, t: seq<T>, le: (T, T) -> bool)
    requires TotalPreorder(le) && Sorted(s, le) && Sorted(t, le) && multiset(s) == multiset(t) && NoTies(s, le)
      && |s| > 0 && |t| > 0
    ensures s[0] == t[0]
  {
    assert s[0] in multiset(t) && t[0] in multiset(s);
    var i :| 0 <= i < |s| && s[i] == t[0];
    var j :| 0 <= j < |t| && t[j] == s[0];
    assert le(t[0], t[0]);
    assert le(s[0], t[0]) && le(t[0], s[0]);
    assert i == 0;
  }

  lemma {:induction false} NoTiesByCount<T(!new)>(s: seq<T>, t: seq<T>, le: (T, T) -> bool)
    requires TotalPreorder(le) && multiset(s) == multiset(t) && NoTies(s, le)
    ensures NoTies(t, le)
  {
    if i, j :| 0 <= i < j < |t| && le(t[i], t[j]) && le(t[j], t[i]) {
      assert t[i] in multiset(s) && t[j] in multiset(s);
      var a :| 0 <= a < |s| && s[a] == t[i];
      var b :| 0 <= b < |s| && s[b] == t[j];
      assert a == b;
      assert t[i] == t[j];
      TwoPlaces(t, i, j);
      OnePlace(s, a, le);
    }
  }

  lemma TwoPlaces<T>(s: seq<T>, i: nat, j: nat)
    requires i < j < |s| && s[i] == s[j]
    ensures multiset(s)[s[i]] >= 2
  {
    assert s == s[..i] + [s[i]] + s[i + 1..j] + [s[j]] + s[j + 1..];
  }

  lemma OnePlace<T(!new)>(s: seq<T>, a: nat, le: (T, T) -> bool)
    requires a < |s| && TotalPreorder(le) && NoTies(s, le)
    ensures multiset(s)[s[a]] == 1
  {
    var x := s[a];
    assert le(x, x);
    assert s == s[..a] + [x] + s[a + 1..];
    assert x !in s[..a] && x !in s[a + 1..];
  }

  /** Without ties the order of the input does not matter. */
  lemma OrderIrrelevant<T(!new)>(s: seq<T>, t: seq<T>, le: (T, T) -> bool)
    requires TotalPreorder(le) && multiset(s) == multiset(t) && NoTies(s, le)
    ensures Sort(s, le) == Sort(t, le)
  {
    SortSorts(s, le);
    SortSorts(t, le);
    NoTiesByCount(s, Sort(s, le), le);
    SortedUnique(Sort(s, le), Sort(t, le), le);
  }

  function Reversed<T>(s: seq<T>): (r: seq<T>)
    ensures |r| == |s| && multiset(r) == multiset(s)
    ensures forall k | 0 <= k < |s| :: r[k] == s[|s| - 1 - k]
  {
    if |s| == 0 then []
    else
      assert s == [s[0]] + s[1..];
      Reversed(s[1..]) + [s[0]]
  }

  lemma {:induction false} TiesAppend<T(!new)>(s: seq<T>, y: T, x: T, le: (T, T) -> bool)
    ensures Ties(s + [y], x, le) == Ties(s, x, le) + if le(x, y) && le(y, x) then [y] else []
  {
    if |s| > 0 {
      TiesAppend(s[1..], y, x, le);
      assert (s + [y])[1..] == s[1..] + [y];
    } else {
      assert s + [y] == [y];
    }
  }

  lemma {:induction false} TiesReversed<T(!new)>(s: seq<T>, x: T, le: (T, T) -> bool)
    ensures Ties(Reversed(s), x, le) == Reversed(Ties(s, x, le))
  {
    if |s| > 0 {
      TiesReversed(s[1..], x, le);
      TiesAppend(Reversed(s[1..]), s[0], x, le);
      var rest := Ties(s[1..], x, le);
      if le(x, s[0]) && le(s[0], x) {
        assert Ties(s, x, le) == [s[0]] + rest;
        assert ([s[0]] + rest)[1..] == rest;
        assert Reversed([s[0]] + rest) == Reversed(rest) + [s[0]];
      } else {
        assert Ties(s, x, le) == [] + rest == rest;
      }
    }
  }

  predicate Unrepeated<T(==)>(s: seq<T>) {
    forall i, j :: 0 <= i < j < |s| ==> s[i] != s[j]
  }

  /** Without repetition every element occurs at most once, and the other way round. */
  lemma {:induction false} UnrepeatedCounts<T>(s: seq<T>)
    ensures Unrepeated(s) <==> forall x :: multiset(s)[x] <= 1
  {
    if |s| > 0 {
      var head, rest := s[0], s[1..];
      assert s == [head] + rest;
      UnrepeatedCounts(rest);
      assert multiset(s) == multiset{head} + multiset(rest);
      if Unrepeated(s) {
        assert Unrepeated(rest) && head !in rest;
      }
      if forall x :: multiset(s)[x] <= 1 {
        forall x ensures multiset(rest)[x] <= 1 { assert multiset(s)[x] <= 1; }
        assert multiset(s)[head] <= 1;
        assert head !in rest;
      }
    }
  }

  lemma UnrepeatedPermuted<T>(s: seq<T>, t: seq<T>)
    requires Unrepeated(s) && multiset(s) == multiset(t)
    ensures Unrepeated(t)
  {
    UnrepeatedCounts(s);
    UnrepeatedCounts(t);
  }

  lemma {:induction false} TiesUnrepeated<T(!new)>(s: seq<T>, x: T, le: (T, T) -> bool)
    requires Unrepeated(s)
    ensures Unrepeated(Ties(s, x, le))
  {
    if |s| > 0 {
      assert Unrepeated(s[1..]);
      TiesUnrepeated(s[1..], x, le);
      assert s[0] !in s[1..];
    }
  }

  lemma Differ<T>(s: seq<T>, i: int, j: int)
    requires Unrepeated(s) && 0 <= i < j < |s|
    ensures s[i] != s[j]
  {}

  lemma TwoMembers<T>(s: seq<T>, x: T, y: T)
    requires x in s && y in s && x != y
    ensures |s| >= 2
  {
    var i :| 0 <= i < |s| && s[i] == x;
    var j :| 0 <= j < |s| && s[j] == y;
    assert i != j;
  }

  /** With a tie between different elements, reversing the input changes the result. */
  lemma OrderRelevant<T(!new)>(s: seq<T>, i: nat, j: nat, le: (T, T) -> bool)
    requires TotalPreorder(le) && Unrepeated(s) && i < j < |s| && le(s[i], s[j]) && le(s[j], s[i])
    ensures multiset(Reversed(s)) == multiset(s) && Sort(Reversed(s), le) != Sort(s, le)
  {
    assert le(s[i], s[i]);
    hide TotalPreorder;
    var ties := Ties(s, s[i], le);
    SortStable(s, s[i], le);
    SortStable(Reversed(s), s[i], le);
    TiesReversed(s, s[i], le);
    TiesUnrepeated(s, s[i], le);
    hide Unrepeated;
    assert s[i] in ties && s[j] in ties && s[i] != s[j] by { Differ(s, i, j); }
    TwoMembers(ties, s[i], s[j]);
    Differ(ties, 0, |ties| - 1);
    assert Reversed(ties)[0] == ties[|ties| - 1] != ties[0];
  }
}
