/** The stable `toSorted` the scripts rely on, over an arbitrary comparison.
    `leq(a, b)` stands for "the comparison of a with b is not positive". */
module Sorting {

  ghost predicate TotalPreorder<T(!new)>(leq: (T, T) -> bool) {
    && (forall a, b :: leq(a, b) || leq(b, a))
    && (forall a, b, c :: leq(a, b) && leq(b, c) ==> leq(a, c))
  }

  /** Distinct values of the set never compare as equal. */
  ghost predicate AntisymmetricOn<T(!new)>(leq: (T, T) -> bool, xs: set<T>) {
    forall a, b :: a in xs && b in xs && leq(a, b) && leq(b, a) ==> a == b
  }

  ghost predicate Sorted<T(!new)>(leq: (T, T) -> bool, s: seq<T>) {
    forall i, j :: 0 <= i < j < |s| ==> leq(s[i], s[j])
  }

  ghost predicate Distinct<T(!new)>(s: seq<T>) {
    forall i, j :: 0 <= i < j < |s| ==> s[i] != s[j]
  }

  ghost function Elements<T>(s: seq<T>): set<T> {
    set x | x in s
  }

  lemma {:induction false} ElementsAppend<T(!new)>(s: seq<T>, x: T)
    ensures Elements(s + [x]) == Elements(s) + {x}
  {
    forall y ensures y in s + [x] <==> y in s || y == x {
      if y in s {
        var k :| 0 <= k < |s| && s[k] == y;
        assert (s + [x])[k] == y;
      }
      assert (s + [x])[|s|] == x;
    }
  }

  lemma {:induction false} TakeElements<T(!new)>(s: seq<T>, i: nat)
    requires i <= |s|
    ensures Elements(s[..i]) <= Elements(s)
    ensures i < |s| ==> Elements(s[..i + 1]) == Elements(s[..i]) + {s[i]} && s[i] in Elements(s)
    ensures i == |s| ==> Elements(s[..i]) == Elements(s)
  {
    if i < |s| {
      assert s[..i + 1] == s[..i] + [s[i]];
      ElementsAppend(s[..i], s[i]);
    } else {
      assert s[..i] == s;
    }
  }

  function Insert<T>(leq: (T, T) -> bool, x: T, s: seq<T>): (r: seq<T>)
    ensures multiset(r) == multiset{x} + multiset(s)
    ensures |r| == |s| + 1
  {
    if s == [] || leq(x, s[0]) then
      assert [x] + s == [x] + s[..];
      [x] + s
    else
      assert s == [s[0]] + s[1..];
      [s[0]] + Insert(leq, x, s[1..])
  }

  /** Stable insertion sort: equal elements keep their order. */
  function SortBy<T>(leq: (T, T) -> bool, s: seq<T>): (r: seq<T>)
    ensures multiset(r) == multiset(s)
    ensures |r| == |s|
  {
    if s == [] then []
    else
      assert s == [s[0]] + s[1..];
      Insert(leq, s[0], SortBy(leq, s[1..]))
  }

  lemma {:induction false} SameMultisetSameElements<T>(a: seq<T>, b: seq<T>)
    requires multiset(a) == multiset(b)
    ensures Elements(a) == Elements(b)
  {
    forall x ensures x in a <==> x in b {
      assert x in a <==> x in multiset(a);
      assert x in b <==> x in multiset(b);
    }
  }

  lemma {:induction false} SameMembers<T(!new)>(a: seq<T>, b: seq<T>)
    requires multiset(a) == multiset(b)
    ensures forall x :: x in a <==> x in b
  {
    forall x ensures x in a <==> x in b {
      assert x in a <==> x in multiset(a);
      assert x in b <==> x in multiset(b);
    }
  }

  lemma {:induction false} InsertSorted<T(!new)>(leq: (T, T) -> bool, x: T, s: seq<T>)
    requires TotalPreorder(leq) && Sorted(leq, s)
    ensures Sorted(leq, Insert(leq, x, s))
  {
    if s == [] {
    } else if leq(x, s[0]) {
      forall j | 0 <= j < |s| ensures leq(x, s[j]) {
        assert j == 0 || leq(s[0], s[j]);
      }
    } else {
      var t := Insert(leq, x, s[1..]);
      InsertSorted(leq, x, s[1..]);
      forall j | 0 <= j < |t| ensures leq(s[0], t[j]) {
        assert t[j] in multiset(t);
        assert t[j] == x || t[j] in s[1..];
      }
    }
  }

  lemma {:induction false} SortBySorted<T(!new)>(leq: (T, T) -> bool, s: seq<T>)
    requires TotalPreorder(leq)
    ensures Sorted(leq, SortBy(leq, s))
  {
    if s != [] {
      SortBySorted(leq, s[1..]);
      InsertSorted(leq, s[0], SortBy(leq, s[1..]));
    }
  }

  /** Stability in the form the round trips need: a sorted list is left alone, ties included. */
  lemma {:induction false} SortedIsFixed<T(!new)>(leq: (T, T) -> bool, s: seq<T>)
    requires Sorted(leq, s)
    ensures SortBy(leq, s) == s
  {
    if s != [] {
      SortedIsFixed(leq, s[1..]);
      assert s == [s[0]] + s[1..];
    }
  }

  lemma {:induction false} DistinctByMultiset<T(!new)>(s: seq<T>)
    ensures Distinct(s) <==> forall x :: multiset(s)[x] <= 1
  {
    if Distinct(s) {
      DistinctCounts(s);
    }
    if forall x :: multiset(s)[x] <= 1 {
      CountsDistinct(s);
    }
  }

  lemma {:induction false} DistinctCounts<T(!new)>(s: seq<T>)
    requires Distinct(s)
    ensures forall x :: multiset(s)[x] <= 1
  {
    if s != [] {
      assert s == [s[0]] + s[1..];
      DistinctCounts(s[1..]);
      assert s[0] !in s[1..];
    }
  }

  lemma {:induction false} CountsDistinct<T(!new)>(s: seq<T>)
    requires forall x :: multiset(s)[x] <= 1
    ensures Distinct(s)
  {
    if s != [] {
      assert s == [s[0]] + s[1..];
      forall x ensures multiset(s[1..])[x] <= 1 {
        assert multiset(s)[x] <= 1;
      }
      CountsDistinct(s[1..]);
      assert multiset(s)[s[0]] <= 1;
      forall j | 0 < j < |s| ensures s[j] != s[0] {
        assert s[j] == s[1..][j - 1] && s[j] in multiset(s[1..]);
      }
      assert forall j :: 0 < j < |s| ==> s[j] == s[1..][j - 1];
    }
  }

  lemma {:induction false} SortByKeepsDistinct<T(!new)>(leq: (T, T) -> bool, s: seq<T>)
    requires Distinct(s)
    ensures Distinct(SortBy(leq, s))
    ensures Elements(SortBy(leq, s)) == Elements(s)
  {
    DistinctByMultiset(s);
    DistinctByMultiset(SortBy(leq, s));
    SameMultisetSameElements(SortBy(leq, s), s);
  }

  lemma {:induction false} NoElements<T(!new)>(s: seq<T>)
    ensures s == [] <==> Elements(s) == {}
  {
    if s != [] {
      assert s[0] in Elements(s);
    }
  }

  /** Two sorted listings of one set agree, when the comparison separates its members. */
  lemma {:induction false} SortedListingUnique<T(!new)>(leq: (T, T) -> bool, a: seq<T>, b: seq<T>)
    requires Sorted(leq, a) && Distinct(a)
    requires Sorted(leq, b) && Distinct(b)
    requires Elements(a) == Elements(b)
    requires AntisymmetricOn(leq, Elements(a))
    ensures a == b
  {
    NoElements(a);
    NoElements(b);
    if a != [] {
      assert a[0] in Elements(a) && a[0] in Elements(b);
      assert b[0] in Elements(b) && b[0] in Elements(a);
      var i :| 0 <= i < |b| && b[i] == a[0];
      var j :| 0 <= j < |a| && a[j] == b[0];
      assert a[0] == b[0];
      assert Elements(a[1..]) == Elements(a) - {a[0]} by { TailElements(a); }
      assert Elements(b[1..]) == Elements(b) - {b[0]} by { TailElements(b); }
      SortedListingUnique(leq, a[1..], b[1..]);
      assert a == [a[0]] + a[1..] && b == [b[0]] + b[1..];
    }
  }

  lemma {:induction false} TailElements<T(!new)>(a: seq<T>)
    requires a != [] && Distinct(a)
    ensures Elements(a[1..]) == Elements(a) - {a[0]}
  {
    forall x ensures x in a[1..] <==> x in a && x != a[0] {
      if x in a && x != a[0] {
        var i :| 0 <= i < |a| && a[i] == x;
        assert a[1..][i - 1] == x;
      }
    }
  }

  /** A list as long as its set of elements repeats nothing. */
  lemma {:induction false} DistinctBySize<T(!new)>(s: seq<T>)
    ensures |Elements(s)| <= |s|
    ensures |Elements(s)| == |s| <==> Distinct(s)
  {
    if s == [] {
      assert Elements(s) == {};
    } else {
      var t := s[1..];
      DistinctBySize(t);
      assert Elements(s) == Elements(t) + {s[0]};
      if Distinct(s) {
        assert Distinct(t) && s[0] !in t;
      } else if |Elements(s)| == |s| {
        assert s[0] !in Elements(t);
        assert Distinct(t);
        forall i, j | 0 <= i < j < |s| ensures s[i] != s[j] {
          assert s[j] == t[j - 1] && (i > 0 ==> s[i] == t[i - 1]);
        }
      }
    }
  }
}
