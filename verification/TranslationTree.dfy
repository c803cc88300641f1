/** Nested translation maps: `flattenTranslations`, `setNestedValue`, and when writing the
    flattened entries back loses nothing. */
module TranslationTree {
  import opened Options

  /** An object is its properties in insertion order. */
  datatype Node = Leaf(text: string) | Sub(entries: seq<Entry>)
  datatype Entry = Entry(key: string, node: Node)

  /** Properties of one object have distinct names, at every level. */
  ghost predicate WellFormed(e: seq<Entry>) {
    e == [] || (
      && (forall i :: 0 <= i < |e[1..]| ==> e[1..][i].key != e[0].key)
      && (e[0].node.Sub? ==> WellFormed(e[0].node.entries))
      && WellFormed(e[1..]))
  }

  /** No sub-map without entries, at any level. */
  ghost predicate NoEmpty(e: seq<Entry>) {
    e == [] || (
      && (e[0].node.Sub? ==> e[0].node.entries != [] && NoEmpty(e[0].node.entries))
      && NoEmpty(e[1..]))
  }

  type Path = seq<string>

  // ----- one property

  function Find(e: seq<Entry>, key: string): Option<Node> {
    if e == [] then None else if e[0].key == key then Some(e[0].node) else Find(e[1..], key)
  }

  /** `cursor[key] = node`: a property that exists keeps its place. */
  function Assign(e: seq<Entry>, key: string, node: Node): seq<Entry> {
    if e == [] then [Entry(key, node)]
    else if e[0].key == key then [Entry(key, node)] + e[1..]
    else [e[0]] + Assign(e[1..], key, node)
  }

  lemma {:induction false} FindAssign(e: seq<Entry>, key: string, node: Node, other: string)
    ensures Find(Assign(e, key, node), other) == if other == key then Some(node) else Find(e, other)
  {
    if e != [] {
      FindAssign(e[1..], key, node, other);
      assert Assign(e, key, node)[1..] == if e[0].key == key then e[1..] else Assign(e[1..], key, node);
    }
  }

  lemma {:induction false} AssignShape(e: seq<Entry>, key: string, node: Node)
    requires WellFormed(e) && (node.Sub? ==> WellFormed(node.entries))
    ensures WellFormed(Assign(e, key, node))
    ensures forall x :: x in Assign(e, key, node) ==> x.key == key || x in e
    ensures NoEmpty(e) && (node.Sub? ==> node.entries != [] && NoEmpty(node.entries)) ==> NoEmpty(Assign(e, key, node))
  {
    if e != [] {
      AssignShape(e[1..], key, node);
      var a := Assign(e, key, node);
      assert e == [e[0]] + e[1..];
      assert a[1..] == if e[0].key == key then e[1..] else Assign(e[1..], key, node);
      assert forall x :: x in e[1..] ==> x.key != e[0].key;
    }
  }

  lemma {:induction false} FindShape(e: seq<Entry>, key: string)
    requires WellFormed(e)
    ensures Find(e, key).Some? && Find(e, key).value.Sub? ==>
      WellFormed(Find(e, key).value.entries) && (NoEmpty(e) ==> NoEmpty(Find(e, key).value.entries))
  {
    if e != [] {
      FindShape(e[1..], key);
    }
  }

  // ----- setNestedValue, and reading a path

  /** `setNestedValue` after `split`: walk the path, replacing whatever is not a sub-map. */
  function Put(e: seq<Entry>, path: Path, text: string): seq<Entry>
    requires path != []
    decreases |path|
  {
    if |path| == 1 then Assign(e, path[0], Leaf(text))
    else
      var next := Find(e, path[0]);
      var inner := if next.Some? && next.value.Sub? then next.value.entries else [];
      Assign(e, path[0], Sub(Put(inner, path[1..], text)))
  }

  function Get(e: seq<Entry>, path: Path): Option<string>
    decreases |path|
  {
    if path == [] then None
    else
      match Find(e, path[0])
      case None => None
      case Some(Leaf(text)) => if |path| == 1 then Some(text) else None
      case Some(Sub(inner)) => Get(inner, path[1..])
  }

  lemma {:induction false} GetPut(e: seq<Entry>, path: Path, text: string)
    requires path != []
    ensures Get(Put(e, path, text), path) == Some(text)
    decreases |path|
  {
    if |path| == 1 {
      FindAssign(e, path[0], Leaf(text), path[0]);
    } else {
      var next := Find(e, path[0]);
      var inner := if next.Some? && next.value.Sub? then next.value.entries else [];
      GetPut(inner, path[1..], text);
      FindAssign(e, path[0], Sub(Put(inner, path[1..], text)), path[0]);
    }
  }

  /** Neither path runs through the other. */
  predicate Apart(p: Path, q: Path) {
    !(p <= q) && !(q <= p)
  }

  lemma {:induction false} GetPutApart(e: seq<Entry>, path: Path, text: string, other: Path)
    requires path != [] && Apart(path, other)
    ensures Get(Put(e, path, text), other) == Get(e, other)
    decreases |path|
  {
    var next := Find(e, path[0]);
    var inner := if next.Some? && next.value.Sub? then next.value.entries else [];
    var node := if |path| == 1 then Leaf(text) else Sub(Put(inner, path[1..], text));
    FindAssign(e, path[0], node, other[0]);
    if other[0] == path[0] {
      assert |path| > 1 && |other| > 1 && path == [path[0]] + path[1..] && other == [other[0]] + other[1..];
      GetPutApart(inner, path[1..], text, other[1..]);
    }
  }

  /** A write adds one path and no other. */
  lemma {:induction false} GetPutOnly(e: seq<Entry>, path: Path, text: string, other: Path)
    requires path != [] && other != path && Get(Put(e, path, text), other).Some?
    ensures Get(e, other) == Get(Put(e, path, text), other)
    decreases |path|
  {
    var next := Find(e, path[0]);
    var inner := if next.Some? && next.value.Sub? then next.value.entries else [];
    var node := if |path| == 1 then Leaf(text) else Sub(Put(inner, path[1..], text));
    FindAssign(e, path[0], node, other[0]);
    assert path == [path[0]] + path[1..] && other == [other[0]] + other[1..];
    if other[0] == path[0] && |path| > 1 {
      GetPutOnly(inner, path[1..], text, other[1..]);
    }
  }

  lemma {:induction false} PutShape(e: seq<Entry>, path: Path, text: string)
    requires path != [] && WellFormed(e)
    ensures WellFormed(Put(e, path, text)) && Put(e, path, text) != []
    ensures NoEmpty(e) ==> NoEmpty(Put(e, path, text))
    decreases |path|
  {
    FindShape(e, path[0]);
    var next := Find(e, path[0]);
    var inner := if next.Some? && next.value.Sub? then next.value.entries else [];
    if |path| == 1 {
      AssignShape(e, path[0], Leaf(text));
    } else {
      PutShape(inner, path[1..], text);
      AssignShape(e, path[0], Sub(Put(inner, path[1..], text)));
    }
  }

  /** A tree never holds texts at a path and at one running through it. */
  lemma {:induction false} HeldApart(e: seq<Entry>, p: Path, q: Path)
    requires Get(e, p).Some? && Get(e, q).Some? && p != q
    ensures Apart(p, q)
    decreases |p|
  {
    assert p == [p[0]] + p[1..] && q == [q[0]] + q[1..];
    if p[0] == q[0] && Find(e, p[0]).value.Sub? {
      HeldApart(Find(e, p[0]).value.entries, p[1..], q[1..]);
    }
  }

  // ----- rebuilding

  /** The loop that writes every flattened entry back. */
  function PutAll(e: seq<Entry>, items: seq<(Path, string)>): seq<Entry>
    requires forall i :: 0 <= i < |items| ==> items[i].0 != []
    decreases |items|
  {
    if items == [] then e else PutAll(Put(e, items[0].0, items[0].1), items[1..])
  }

  /** No path twice and none through another. */
  ghost predicate PrefixFree(items: seq<(Path, string)>) {
    forall i, j :: 0 <= i < j < |items| ==> Apart(items[i].0, items[j].0)
  }

  ghost predicate NonEmptyPaths(items: seq<(Path, string)>) {
    forall i :: 0 <= i < |items| ==> items[i].0 != []
  }

  lemma {:induction false} PutAllKeeps(e: seq<Entry>, items: seq<(Path, string)>, path: Path)
    requires NonEmptyPaths(items) && forall i :: 0 <= i < |items| ==> Apart(items[i].0, path)
    ensures Get(PutAll(e, items), path) == Get(e, path)
    decreases |items|
  {
    if items != [] {
      GetPutApart(e, items[0].0, items[0].1, path);
      PutAllKeeps(Put(e, items[0].0, items[0].1), items[1..], path);
    }
  }

  /** No write clobbers another, in whatever order the entries come. */
  lemma {:induction false} PutAllHolds(e: seq<Entry>, items: seq<(Path, string)>, k: nat)
    requires NonEmptyPaths(items) && PrefixFree(items) && k < |items|
    ensures Get(PutAll(e, items), items[k].0) == Some(items[k].1)
    decreases |items|
  {
    var e' := Put(e, items[0].0, items[0].1);
    if k == 0 {
      GetPut(e, items[0].0, items[0].1);
      PutAllKeeps(e', items[1..], items[0].0);
    } else {
      PutAllHolds(e', items[1..], k - 1);
    }
  }

  lemma {:induction false} PutAllOnly(e: seq<Entry>, items: seq<(Path, string)>, path: Path)
    requires NonEmptyPaths(items) && Get(PutAll(e, items), path).Some?
    ensures Get(e, path) == Get(PutAll(e, items), path) || (path, Get(PutAll(e, items), path).value) in items
    decreases |items|
  {
    if items != [] {
      PutAllOnly(Put(e, items[0].0, items[0].1), items[1..], path);
      if path == items[0].0 {
        GetPut(e, path, items[0].1);
      } else if Get(Put(e, items[0].0, items[0].1), path).Some? {
        GetPutOnly(e, items[0].0, items[0].1, path);
      }
    }
  }

  lemma {:induction false} PutAllShape(e: seq<Entry>, items: seq<(Path, string)>)
    requires NonEmptyPaths(items) && WellFormed(e) && NoEmpty(e)
    ensures WellFormed(PutAll(e, items)) && NoEmpty(PutAll(e, items))
    decreases |items|
  {
    if items != [] {
      PutShape(e, items[0].0, items[0].1);
      PutAllShape(Put(e, items[0].0, items[0].1), items[1..]);
    }
  }

  lemma {:induction false} PutAllConcat(e: seq<Entry>, a: seq<(Path, string)>, b: seq<(Path, string)>)
    requires NonEmptyPaths(a) && NonEmptyPaths(b)
    ensures NonEmptyPaths(a + b) && PutAll(e, a + b) == PutAll(PutAll(e, a), b)
    decreases |a|
  {
    if a == [] {
      assert a + b == b;
    } else {
      assert (a + b)[1..] == a[1..] + b && (a + b)[0] == a[0];
      PutAllConcat(Put(e, a[0].0, a[0].1), a[1..], b);
    }
  }

  // ----- the texts of a tree

  function Under(key: string, items: seq<(Path, string)>): (r: seq<(Path, string)>)
    ensures |r| == |items|
    ensures forall i :: 0 <= i < |items| ==> r[i] == ([key] + items[i].0, items[i].1)
  {
    if items == [] then [] else [([key] + items[0].0, items[0].1)] + Under(key, items[1..])
  }

  /** Every text of the tree with its path, in order. */
  function Leaves(e: seq<Entry>): seq<(Path, string)> {
    if e == [] then []
    else
      (match e[0].node
       case Leaf(text) => [([e[0].key], text)]
       case Sub(inner) => Under(e[0].key, Leaves(inner))) + Leaves(e[1..])
  }

  lemma {:induction false} LeavesStart(e: seq<Entry>, i: nat)
    requires i < |Leaves(e)|
    ensures Leaves(e)[i].0 != [] && exists x :: x in e && x.key == Leaves(e)[i].0[0]
  {
    var first := |Leaves(e)| - |Leaves(e[1..])|;
    if i >= first {
      LeavesStart(e[1..], i - first);
      var x :| x in e[1..] && x.key == Leaves(e[1..])[i - first].0[0];
      assert x in e;
    } else {
      assert e[0] in e;
    }
  }

  lemma {:induction false} LeavesNonEmpty(e: seq<Entry>)
    ensures NonEmptyPaths(Leaves(e))
  {
    forall i | 0 <= i < |Leaves(e)| ensures Leaves(e)[i].0 != [] {
      LeavesStart(e, i);
    }
  }

  lemma {:induction false} UnderHas(key: string, items: seq<(Path, string)>, q: Path, w: string)
    ensures (q, w) in Under(key, items) <==> q != [] && q[0] == key && (q[1..], w) in items
  {
    if (q, w) in Under(key, items) {
      var i :| 0 <= i < |items| && Under(key, items)[i] == (q, w);
      assert items[i] == (q[1..], w);
    }
    if q != [] && q[0] == key && (q[1..], w) in items {
      var i :| 0 <= i < |items| && items[i] == (q[1..], w);
      assert q == [key] + q[1..] && Under(key, items)[i] == (q, w);
    }
  }

  lemma {:induction false} FindAbsent(e: seq<Entry>, key: string)
    requires forall i :: 0 <= i < |e| ==> e[i].key != key
    ensures Find(e, key) == None
  {
    if e != [] {
      FindAbsent(e[1..], key);
    }
  }

  /** The listing is exact: what it holds is what reading a path finds. */
  lemma {:induction false} LeavesGet(e: seq<Entry>, q: Path, w: string)
    requires WellFormed(e)
    ensures (q, w) in Leaves(e) <==> Get(e, q) == Some(w)
  {
    if e != [] {
      LeavesGet(e[1..], q, w);
      if q != [] {
        if q[0] == e[0].key {
          FindAbsent(e[1..], q[0]);
          assert Get(e[1..], q) == None;
          match e[0].node {
            case Leaf(text) =>
              assert |q| == 1 <==> q == [e[0].key];
              assert (q, w) in Leaves(e) <==> (q, w) == ([e[0].key], text);
            case Sub(inner) =>
              LeavesGet(inner, q[1..], w);
              UnderHas(e[0].key, Leaves(inner), q, w);
          }
        } else {
          assert Get(e, q) == Get(e[1..], q);
          if e[0].node.Sub? {
            UnderHas(e[0].key, Leaves(e[0].node.entries), q, w);
          }
        }
      } else if e[0].node.Sub? {
        UnderHas(e[0].key, Leaves(e[0].node.entries), q, w);
      }
    }
  }

  lemma {:induction false} LeavesPrefixFree(e: seq<Entry>)
    requires WellFormed(e)
    ensures PrefixFree(Leaves(e))
  {
    if e != [] {
      var rest := Leaves(e[1..]);
      LeavesPrefixFree(e[1..]);
      var first := match e[0].node
        case Leaf(text) => [([e[0].key], text)]
        case Sub(inner) => Under(e[0].key, Leaves(inner));
      if e[0].node.Sub? {
        LeavesPrefixFree(e[0].node.entries);
        var inner := Leaves(e[0].node.entries);
        forall i, j | 0 <= i < j < |first| ensures Apart(first[i].0, first[j].0) {
          UnderApart(e[0].key, inner[i].0, inner[j].0);
        }
      }
      forall i, j | 0 <= i < |first| && 0 <= j < |rest| ensures Apart(first[i].0, rest[j].0) {
        LeavesStart(e[1..], j);
        assert first[i].0[0] == e[0].key != rest[j].0[0];
      }
    }
  }

  lemma {:induction false} UnderApart(key: string, p: Path, q: Path)
    requires Apart(p, q)
    ensures Apart([key] + p, [key] + q)
  {
    UnderPrefix(key, p, q);
    UnderPrefix(key, q, p);
  }

  lemma {:induction false} UnderPrefix(key: string, p: Path, q: Path)
    ensures [key] + p <= [key] + q <==> p <= q
  {
    var kp, kq := [key] + p, [key] + q;
    assert kp[1..] == p && kq[1..] == q;
    if kp <= kq {
      assert forall i :: 0 <= i < |p| ==> p[i] == kp[i + 1] == kq[i + 1] == q[i];
    }
  }

  /** The tree without its empty sub-maps, at every level. */
  function Prune(e: seq<Entry>): seq<Entry> {
    if e == [] then []
    else
      var rest := Prune(e[1..]);
      match e[0].node
      case Leaf(_) => [e[0]] + rest
      case Sub(inner) => if Prune(inner) == [] then rest else [Entry(e[0].key, Sub(Prune(inner)))] + rest
  }

  // ----- writing the texts back in order

  lemma {:induction false} AssignLast(base: seq<Entry>, key: string, old': Node, node: Node)
    requires forall i :: 0 <= i < |base| ==> base[i].key != key
    ensures Find(base, key) == None && Assign(base, key, node) == base + [Entry(key, node)]
    ensures Find(base + [Entry(key, old')], key) == Some(old')
    ensures Assign(base + [Entry(key, old')], key, node) == base + [Entry(key, node)]
  {
    if base != [] {
      AssignLast(base[1..], key, old', node);
      assert (base + [Entry(key, old')])[1..] == base[1..] + [Entry(key, old')];
      assert base == [base[0]] + base[1..];
    }
  }

  lemma {:induction false} PutAllUnder(base: seq<Entry>, key: string, inner: seq<Entry>, items: seq<(Path, string)>)
    requires NonEmptyPaths(items) && forall i :: 0 <= i < |base| ==> base[i].key != key
    ensures PutAll(base + [Entry(key, Sub(inner))], Under(key, items)) == base + [Entry(key, Sub(PutAll(inner, items)))]
    decreases |items|
  {
    if items != [] {
      var inner' := Put(inner, items[0].0, items[0].1);
      AssignLast(base, key, Sub(inner), Sub(inner'));
      assert ([key] + items[0].0)[1..] == items[0].0;
      assert Under(key, items)[1..] == Under(key, items[1..]);
      PutAllUnder(base, key, inner', items[1..]);
    }
  }

  lemma {:induction false} PutAllUnderNew(base: seq<Entry>, key: string, items: seq<(Path, string)>)
    requires items != [] && NonEmptyPaths(items) && forall i :: 0 <= i < |base| ==> base[i].key != key
    ensures PutAll(base, Under(key, items)) == base + [Entry(key, Sub(PutAll([], items)))]
  {
    var inner := Put([], items[0].0, items[0].1);
    AssignLast(base, key, Sub(inner), Sub(inner));
    assert ([key] + items[0].0)[1..] == items[0].0;
    assert Under(key, items)[1..] == Under(key, items[1..]);
    PutAllUnder(base, key, inner, items[1..]);
  }

  lemma {:induction false} PruneNothing(e: seq<Entry>)
    ensures Prune(e) == [] <==> Leaves(e) == []
  {
    if e != [] {
      PruneNothing(e[1..]);
      if e[0].node.Sub? {
        PruneNothing(e[0].node.entries);
      }
    }
  }

  /** Writing the texts of a tree back in their own order gives the tree without its empty
      sub-maps, property order included. */
  lemma {:induction false} PutLeavesBack(base: seq<Entry>, e: seq<Entry>)
    requires WellFormed(e) && forall i, j :: 0 <= i < |base| && 0 <= j < |e| ==> base[i].key != e[j].key
    ensures NonEmptyPaths(Leaves(e)) && PutAll(base, Leaves(e)) == base + Prune(e)
    decreases e
  {
    LeavesNonEmpty(e);
    if e == [] {
      assert base + Prune(e) == base;
    } else {
      var key, rest := e[0].key, e[1..];
      LeavesNonEmpty(rest);
      match e[0].node {
        case Leaf(text) =>
          PutLeavesBack(base + [e[0]], rest);
          PutLeafBack(base, e);
        case Sub(inner) =>
          PutLeavesBack([], inner);
          PutSubBack(base, key, inner, rest);
          var pruned := Pruned(key, inner);
          PutLeavesBack(base + pruned, rest);
          ConcatAssoc(base, pruned, Prune(rest));
          PruneSub(e);
      }
    }
  }

  lemma {:induction false} PutLeafBack(base: seq<Entry>, e: seq<Entry>)
    requires e != [] && e[0].node.Leaf? && forall i :: 0 <= i < |base| ==> base[i].key != e[0].key
    requires NonEmptyPaths(Leaves(e[1..])) && NonEmptyPaths(Leaves(e))
    requires PutAll(base + [e[0]], Leaves(e[1..])) == base + [e[0]] + Prune(e[1..])
    ensures PutAll(base, Leaves(e)) == base + Prune(e)
  {
    AssignLast(base, e[0].key, e[0].node, e[0].node);
    assert Leaves(e)[1..] == Leaves(e[1..]);
    ConcatAssoc(base, [e[0]], Prune(e[1..]));
  }

  function Pruned(key: string, inner: seq<Entry>): seq<Entry> {
    if Prune(inner) == [] then [] else [Entry(key, Sub(Prune(inner)))]
  }

  lemma {:induction false} PruneSub(e: seq<Entry>)
    requires e != [] && e[0].node.Sub?
    ensures Prune(e) == Pruned(e[0].key, e[0].node.entries) + Prune(e[1..])
  {
  }

  lemma {:induction false} ConcatAssoc<T>(a: seq<T>, b: seq<T>, c: seq<T>)
    ensures a + b + c == a + (b + c)
  {
  }

  lemma {:induction false} PutSubBack(base: seq<Entry>, key: string, inner: seq<Entry>, rest: seq<Entry>)
    requires forall i :: 0 <= i < |base| ==> base[i].key != key
    requires NonEmptyPaths(Leaves(inner)) && PutAll([], Leaves(inner)) == [] + Prune(inner)
    requires NonEmptyPaths(Leaves(rest))
    ensures NonEmptyPaths(Under(key, Leaves(inner)) + Leaves(rest))
    ensures PutAll(base, Under(key, Leaves(inner)) + Leaves(rest))
         == PutAll(base + Pruned(key, inner), Leaves(rest))
  {
    PruneNothing(inner);
    PutAllConcat(base, Under(key, Leaves(inner)), Leaves(rest));
    if Leaves(inner) == [] {
      assert base + [] == base;
    } else {
      PutAllUnderNew(base, key, Leaves(inner));
      assert [] + Prune(inner) == Prune(inner);
    }
  }

  /** In any other order the same texts end up at the same paths, with no empty sub-map:
      the result differs from the pruned tree at most in the order of properties. */
  lemma {:induction false} WrittenInAnyOrder(e: seq<Entry>, items: seq<(Path, string)>, path: Path)
    requires WellFormed(e) && PrefixFree(items) && forall x :: x in items <==> x in Leaves(e)
    ensures NonEmptyPaths(items) && WellFormed(PutAll([], items)) && NoEmpty(PutAll([], items))
    ensures Get(PutAll([], items), path) == Get(e, path)
  {
    LeavesNonEmpty(e);
    assert forall i :: 0 <= i < |items| ==> items[i] in Leaves(e);
    PutAllShape([], items);
    if Get(e, path).Some? {
      var w := Get(e, path).value;
      LeavesGet(e, path, w);
      var k :| 0 <= k < |items| && items[k] == (path, w);
      PutAllHolds([], items, k);
    } else if Get(PutAll([], items), path).Some? {
      PutAllOnly([], items, path);
      LeavesGet(e, path, Get(PutAll([], items), path).value);
    }
  }
}
