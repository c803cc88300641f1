/** JavaScript's `Map`: keys in insertion order, each once. */
module JsMap {
  import opened Options

  type Map<K, V> = seq<(K, V)>

  function Get<K(==), V>(m: Map<K, V>, key: K): Option<V> {
    if m == [] then None else if m[0].0 == key then Some(m[0].1) else Get(m[1..], key)
  }

  /** A key that is already there keeps its place. */
  function Set<K(==), V>(m: Map<K, V>, key: K, value: V): Map<K, V> {
    if m == [] then [(key, value)]
    else if m[0].0 == key then [(key, value)] + m[1..]
    else [m[0]] + Set(m[1..], key, value)
  }

  ghost predicate UniqueKeys<K(!new), V(!new)>(m: Map<K, V>) {
    forall i, j :: 0 <= i < j < |m| ==> m[i].0 != m[j].0
  }

  lemma {:induction false} GetSet<K, V>(m: Map<K, V>, key: K, value: V, other: K)
    ensures Get(Set(m, key, value), other) == if other == key then Some(value) else Get(m, other)
  {
    if m != [] {
      GetSet(m[1..], key, value, other);
      var s := Set(m, key, value);
      assert s[1..] == if m[0].0 == key then m[1..] else Set(m[1..], key, value);
    }
  }

  lemma {:induction false} GetIsEntry<K(!new), V(!new)>(m: Map<K, V>, key: K)
    ensures Get(m, key).Some? ==> (key, Get(m, key).value) in m
    ensures Get(m, key).None? ==> forall v :: (key, v) !in m
  {
    if m != [] {
      GetIsEntry(m[1..], key);
      assert m == [m[0]] + m[1..];
    }
  }

  lemma {:induction false} EntryIsGot<K(!new), V(!new)>(m: Map<K, V>, i: nat)
    requires UniqueKeys(m) && i < |m|
    ensures Get(m, m[i].0) == Some(m[i].1)
  {
    if i > 0 {
      assert m[0].0 != m[i].0 && m[1..][i - 1] == m[i];
      EntryIsGot(m[1..], i - 1);
    }
  }

  lemma {:induction false} SetKeepsUnique<K(!new), V(!new)>(m: Map<K, V>, key: K, value: V)
    requires UniqueKeys(m)
    ensures UniqueKeys(Set(m, key, value))
    ensures forall e :: e in Set(m, key, value) ==> e.0 == key || e in m
  {
    if m != [] {
      SetKeepsUnique(m[1..], key, value);
      assert m == [m[0]] + m[1..];
      assert forall e :: e in m[1..] ==> e.0 != m[0].0;
    }
  }

  /** Writing a list of pairs in order. */
  function SetAll<K(==), V>(m: Map<K, V>, pairs: seq<(K, V)>): Map<K, V>
    decreases |pairs|
  {
    if pairs == [] then m else SetAll(Set(m, pairs[0].0, pairs[0].1), pairs[1..])
  }

  lemma {:induction false} SetAllConcat<K, V>(m: Map<K, V>, a: seq<(K, V)>, b: seq<(K, V)>)
    ensures SetAll(m, a + b) == SetAll(SetAll(m, a), b)
    decreases |a|
  {
    if a == [] {
      assert a + b == b;
    } else {
      assert (a + b)[1..] == a[1..] + b && (a + b)[0] == a[0];
      SetAllConcat(Set(m, a[0].0, a[0].1), a[1..], b);
    }
  }

  /** A key that the pairs give one value keeps it; a key they do not mention is left alone. */
  lemma {:induction false} GetSetAll<K(!new), V(!new)>(m: Map<K, V>, pairs: seq<(K, V)>, key: K, value: V)
    requires forall v :: (key, v) in pairs ==> v == value
    ensures Get(SetAll(m, pairs), key) == if (key, value) in pairs then Some(value) else Get(m, key)
    decreases |pairs|
  {
    if pairs != [] {
      assert pairs == [pairs[0]] + pairs[1..];
      GetSet(m, pairs[0].0, pairs[0].1, key);
      GetSetAll(Set(m, pairs[0].0, pairs[0].1), pairs[1..], key, value);
    }
  }

  lemma {:induction false} SetAllOnly<K(!new), V(!new)>(m: Map<K, V>, pairs: seq<(K, V)>, key: K)
    requires Get(SetAll(m, pairs), key).Some?
    ensures Get(m, key) == Get(SetAll(m, pairs), key) || (key, Get(SetAll(m, pairs), key).value) in pairs
    decreases |pairs|
  {
    if pairs != [] {
      GetSet(m, pairs[0].0, pairs[0].1, key);
      SetAllOnly(Set(m, pairs[0].0, pairs[0].1), pairs[1..], key);
      assert pairs == [pairs[0]] + pairs[1..];
    }
  }

  lemma {:induction false} SetNew<K(!new), V(!new)>(m: Map<K, V>, key: K, value: V)
    requires forall i :: 0 <= i < |m| ==> m[i].0 != key
    ensures Set(m, key, value) == m + [(key, value)]
  {
    if m != [] {
      SetNew(m[1..], key, value);
      assert m == [m[0]] + m[1..];
    }
  }

  /** A key that is there keeps its place, and so does everything else. */
  lemma {:induction false} SetInPlace<K(!new), V(!new)>(m: Map<K, V>, i: nat, value: V)
    requires UniqueKeys(m) && i < |m|
    ensures Set(m, m[i].0, value) == m[i := (m[i].0, value)]
  {
    if i > 0 {
      SetInPlace(m[1..], i - 1, value);
      assert m[0].0 != m[i].0 && m[1..][i - 1] == m[i];
      assert m[i := (m[i].0, value)] == [m[0]] + m[1..][i - 1 := (m[i].0, value)];
    } else {
      assert m[0 := (m[0].0, value)] == [(m[0].0, value)] + m[1..];
    }
  }

  /** Pairs with distinct keys are written as they stand. */
  lemma {:induction false} SetAllNew<K(!new), V(!new)>(m: Map<K, V>, pairs: seq<(K, V)>)
    requires UniqueKeys(m + pairs)
    ensures SetAll(m, pairs) == m + pairs
    decreases |pairs|
  {
    if pairs == [] {
      assert m + pairs == m;
    } else {
      var all := m + pairs;
      forall i | 0 <= i < |m| ensures m[i].0 != pairs[0].0 {
        assert all[i] == m[i] && all[|m|] == pairs[0];
      }
      SetNew(m, pairs[0].0, pairs[0].1);
      assert m + [pairs[0]] + pairs[1..] == all;
      SetAllNew(m + [pairs[0]], pairs[1..]);
    }
  }

  lemma {:induction false} SetAllKeepsUnique<K(!new), V(!new)>(m: Map<K, V>, pairs: seq<(K, V)>)
    requires UniqueKeys(m)
    ensures UniqueKeys(SetAll(m, pairs))
    decreases |pairs|
  {
    if pairs != [] {
      SetKeepsUnique(m, pairs[0].0, pairs[0].1);
      SetAllKeepsUnique(Set(m, pairs[0].0, pairs[0].1), pairs[1..]);
    }
  }
}
