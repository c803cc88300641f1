/** What a stable sort leaves to the order of its input: exactly the order of ties. */
module StableSorting {
  import opened Sorting

  /** `x` stands somewhere before `y`. */
  ghost predicate Before<T(!new)>(s: seq<T>, x: T, y: T) {
    exists i, j :: 0 <= i < j < |s| && s[i] == x && s[j] == y
  }

  ghost predicate Tied<T(!new)>(leq: (T, T) -> bool, x: T, y: T) {
    x != y && leq(x, y) && leq(y, x)
  }

  /** Values that tie come in the same order in both lists. */
  ghost predicate TiesAgree<T(!new)>(leq: (T, T) -> bool, a: seq<T>, b: seq<T>) {
    forall x, y {:trigger Before(a, x, y)} :: Tied(leq, x, y) && Before(a, x, y) ==> Before(b, x, y)
  }

  // ----- order in a list without repetitions

  lemma {:induction false} BeforeIn<T(!new)>(s: seq<T>, x: T, y: T)
    requires Before(s, x, y)
    ensures x in s && y in s
  {
  }

  lemma {:induction false} OneOrder<T(!new)>(s: seq<T>, x: T, y: T)
    requires Distinct(s) && x in s && y in s && x != y
    ensures Before(s, x, y) <==> !Before(s, y, x)
  {
    var i :| 0 <= i < |s| && s[i] == x;
    var j :| 0 <= j < |s| && s[j] == y;
    if i < j {
      assert Before(s, x, y);
    } else {
      assert Before(s, y, x);
    }
  }

  lemma {:induction false} BeforeMore<T(!new)>(s: seq<T>, t: seq<T>, x: T, y: T)
    ensures Before(s, x, y) ==> Before(s + t, x, y)
    ensures Before(t, x, y) ==> Before(s + t, x, y)
    ensures x in s && y in t ==> Before(s + t, x, y)
  {
    if i, j :| 0 <= i < j < |s| && s[i] == x && s[j] == y {
      assert (s + t)[i] == x && (s + t)[j] == y;
    }
    if i, j :| 0 <= i < j < |t| && t[i] == x && t[j] == y {
      assert (s + t)[|s| + i] == x && (s + t)[|s| + j] == y;
    }
    if x in s && y in t {
      var i :| 0 <= i < |s| && s[i] == x;
      var j :| 0 <= j < |t| && t[j] == y;
      assert (s + t)[i] == x && (s + t)[|s| + j] == y;
    }
  }

  // ----- stability

  /** Where an insertion puts its element: before everything it does not exceed. */
  lemma {:induction false} InsertedAt<T(!new)>(leq: (T, T) -> bool, x: T, s: seq<T>) returns (k: nat)
    ensures k <= |s| && Insert(leq, x, s) == s[..k] + [x] + s[k..]
    ensures forall y :: y in s[..k] ==> !leq(x, y)
  {
    if s == [] || leq(x, s[0]) {
      k := 0;
    } else {
      var l := InsertedAt(leq, x, s[1..]);
      k := l + 1;
      assert s[..k] == [s[0]] + s[1..][..l];
    }
  }

  /** An element of a list with one more put in stands where it stood. */
  lemma {:induction false} PutIn<T(!new)>(s: seq<T>, k: nat, x: T, u: T, v: T)
    requires k <= |s| && Before(s[..k] + [x] + s[k..], u, v)
    ensures Before(s, u, v) || (u == x && v in s) || (v == x && u in s[..k])
  {
    var r := s[..k] + [x] + s[k..];
    var i, j :| 0 <= i < j < |r| && r[i] == u && r[j] == v;
    var a, b := if i < k then i else i - 1, if j < k then j else j - 1;
    if i != k && j != k {
      assert s[a] == u && s[b] == v;
    } else if i == k {
      assert s[b] == v;
    } else {
      assert s[..k][i] == u;
    }
  }

  /** Sorting does not turn ties round. */
  lemma {:induction false} Stable<T(!new)>(leq: (T, T) -> bool, s: seq<T>, u: T, v: T)
    requires leq(v, u) && Before(SortBy(leq, s), u, v)
    ensures Before(s, u, v)
  {
    if s != [] {
      var x, rest := s[0], SortBy(leq, s[1..]);
      var k := InsertedAt(leq, x, rest);
      PutIn(rest, k, x, u, v);
      assert s == [x] + s[1..];
      BeforeMore([x], s[1..], u, v);
      if Before(rest, u, v) {
        Stable(leq, s[1..], u, v);
      } else {
        SameMembers(rest, s[1..]);
        assert u in [x];
      }
    }
  }

  /** By the comparison first, and ties as they come in `a`. */
  ghost function ThenAsIn<T(!new)>(leq: (T, T) -> bool, a: seq<T>): (T, T) -> bool {
    (x, y) => leq(x, y) && (Tied(leq, x, y) ==> Before(a, x, y))
  }

  lemma {:induction false} SortedThenAsIn<T(!new)>(leq: (T, T) -> bool, a: seq<T>, b: seq<T>)
    requires TotalPreorder(leq) && Distinct(b) && TiesAgree(leq, b, a)
    ensures Sorted(ThenAsIn(leq, a), SortBy(leq, b)) && Distinct(SortBy(leq, b))
  {
    var r := SortBy(leq, b);
    SortBySorted(leq, b);
    SortByKeepsDistinct(leq, b);
    forall i, j | 0 <= i < j < |r| ensures ThenAsIn(leq, a)(r[i], r[j]) {
      if Tied(leq, r[i], r[j]) {
        assert Before(r, r[i], r[j]);
        Stable(leq, b, r[i], r[j]);
      }
    }
  }

  lemma {:induction false} ThenAsInSeparates<T(!new)>(leq: (T, T) -> bool, a: seq<T>)
    requires Distinct(a)
    ensures AntisymmetricOn(ThenAsIn(leq, a), Elements(a))
  {
    var order := ThenAsIn(leq, a);
    forall x, y | x in Elements(a) && y in Elements(a) && order(x, y) && order(y, x) ensures x == y {
      assert x != y ==> Tied(leq, x, y) && Tied(leq, y, x);
      assert x != y ==> Before(a, x, y) && Before(a, y, x);
      if x != y {
        OneOrder(a, x, y);
      }
    }
  }

  lemma {:induction false} TiesAgreeBack<T(!new)>(leq: (T, T) -> bool, a: seq<T>, b: seq<T>)
    requires Distinct(a) && Distinct(b) && Elements(a) == Elements(b) && TiesAgree(leq, a, b)
    ensures TiesAgree(leq, b, a)
  {
    forall x, y {:trigger Before(b, x, y)} | Tied(leq, x, y) && Before(b, x, y) ensures Before(a, x, y) {
      BeforeIn(b, x, y);
      assert x in Elements(b) && y in Elements(b);
      TieBack(leq, a, b, x, y);
    }
  }

  lemma {:induction false} TieBack<T(!new)>(leq: (T, T) -> bool, a: seq<T>, b: seq<T>, x: T, y: T)
    requires Distinct(a) && Distinct(b) && TiesAgree(leq, a, b)
    requires Tied(leq, x, y) && Before(b, x, y) && x in Elements(a) && y in Elements(a)
    ensures Before(a, x, y)
  {
    BeforeIn(b, x, y);
    OneOrder(a, x, y);
    OneOrder(b, x, y);
    assert Tied(leq, y, x);
    assert Before(a, y, x) ==> Before(b, y, x);
  }

  /** Two lists of the same values sort to the same list exactly when ties come in the same
      order in both. */
  lemma {:induction false} SortSameIff<T(!new)>(leq: (T, T) -> bool, a: seq<T>, b: seq<T>)
    requires TotalPreorder(leq) && Distinct(a) && Distinct(b) && Elements(a) == Elements(b)
    ensures SortBy(leq, a) == SortBy(leq, b) <==> TiesAgree(leq, a, b)
  {
    if TiesAgree(leq, a, b) {
      SortSame(leq, a, b);
    }
    if SortBy(leq, a) == SortBy(leq, b) {
      forall x, y {:trigger Before(a, x, y)} | Tied(leq, x, y) && Before(a, x, y) ensures Before(b, x, y) {
        TiesOfSorted(leq, a, x, y);
        Stable(leq, b, x, y);
      }
    }
  }

  lemma {:induction false} SortSame<T(!new)>(leq: (T, T) -> bool, a: seq<T>, b: seq<T>)
    requires TotalPreorder(leq) && Distinct(a) && Distinct(b) && Elements(a) == Elements(b)
    requires TiesAgree(leq, a, b)
    ensures SortBy(leq, a) == SortBy(leq, b)
  {
    TiesAgreeBack(leq, a, b);
    assert TiesAgree(leq, a, a);
    SortedThenAsIn(leq, a, a);
    SortedThenAsIn(leq, a, b);
    SortByKeepsDistinct(leq, a);
    SortByKeepsDistinct(leq, b);
    ThenAsInSeparates(leq, a);
    SortedListingUnique(ThenAsIn(leq, a), SortBy(leq, a), SortBy(leq, b));
  }

  /** Ties keep their order. */
  lemma {:induction false} TiesOfSorted<T(!new)>(leq: (T, T) -> bool, a: seq<T>, x: T, y: T)
    requires Distinct(a) && Tied(leq, x, y) && Before(a, x, y)
    ensures Before(SortBy(leq, a), x, y)
  {
    BeforeIn(a, x, y);
    SortByKeepsDistinct(leq, a);
    SameMembers(SortBy(leq, a), a);
    OneOrder(a, x, y);
    OneOrder(SortBy(leq, a), x, y);
    if Before(SortBy(leq, a), y, x) {
      Stable(leq, a, y, x);
    }
  }
}
