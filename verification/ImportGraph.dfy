/** The runtime import graph of the cycle scripts, and what a cycle is. */
module ImportGraph {

  /** A `Map` of files to imports; `keys` is its insertion order. Files are of any type here:
      the scripts use paths, and only the reports look inside them. */
  datatype Graph<V(==)> = Graph(keys: seq<V>, imports: map<V, seq<V>>)

  /** A `Map` lists every key exactly once. */
  ghost predicate IsMap<V(!new)>(g: Graph<V>) {
    ListsKeys(g) && forall i, j :: 0 <= i < j < |g.keys| ==> g.keys[i] != g.keys[j]
  }

  ghost predicate ListsKeys<V(!new)>(g: Graph<V>) {
    forall k :: k in g.keys <==> k in g.imports
  }

  /** `graph.get(node) ?? []` */
  function Next<V>(g: Graph<V>, node: V): seq<V> {
    if node in g.imports then g.imports[node] else []
  }

  /** Every file that occurs, as a key or as an import. */
  ghost function Vertices<V(!new)>(g: Graph<V>): set<V> {
    (set k | k in g.keys) + (set k, t | k in g.imports && t in g.imports[k] :: t)
  }

  lemma {:induction false} NextIsVertex<V(!new)>(g: Graph<V>, a: V, b: V)
    requires b in Next(g, a)
    ensures b in Vertices(g)
  {
    assert a in g.imports && b in g.imports[a];
  }

  // ----- reachability

  ghost predicate IsPath<V(!new)>(g: Graph<V>, p: seq<V>) {
    |p| > 0 && forall i, j :: 0 <= i && j == i + 1 && j < |p| ==> p[j] in Next(g, p[i])
  }

  ghost predicate Reach<V(!new)>(g: Graph<V>, a: V, b: V) {
    exists p :: IsPath(g, p) && p[0] == a && p[|p| - 1] == b
  }

  /** Reachable through at least one import: `a` lies on a cycle when `b == a`. */
  ghost predicate ReachPlus<V(!new)>(g: Graph<V>, a: V, b: V) {
    exists c :: c in Next(g, a) && Reach(g, c, b)
  }

  ghost predicate Acyclic<V(!new)>(g: Graph<V>) {
    forall v :: !ReachPlus(g, v, v)
  }

  /** Reachability as a relation one can pass around. */
  ghost function Reachability<V(!new)>(g: Graph<V>): (V, V) -> bool {
    (a, b) => Reach(g, a, b)
  }

  ghost predicate Preorder<V(!new)>(r: (V, V) -> bool) {
    && (forall a :: r(a, a))
    && (forall a, b, c {:trigger r(a, b), r(b, c)} :: r(a, b) && r(b, c) ==> r(a, c))
  }

  /** A maximal strongly connected set of the relation. */
  ghost predicate IsScc<V(!new)>(reach: (V, V) -> bool, s: set<V>) {
    && s != {}
    && (forall a, b :: a in s && b in s ==> reach(a, b))
    && (forall a, b :: a in s && reach(a, b) && reach(b, a) ==> b in s)
  }

  /** A component of the import graph that carries a cycle. */
  ghost predicate IsCyclicScc<V(!new)>(g: Graph<V>, s: set<V>) {
    IsScc(Reachability(g), s) && exists v :: v in s && ReachPlus(g, v, v)
  }

  lemma {:induction false} ReachRefl<V(!new)>(g: Graph<V>, a: V)
    ensures Reach(g, a, a)
  {
    assert IsPath(g, [a]);
  }

  lemma {:induction false} ReachTrans<V(!new)>(g: Graph<V>, a: V, b: V, c: V)
    requires Reach(g, a, b) && Reach(g, b, c)
    ensures Reach(g, a, c)
  {
    var p :| IsPath(g, p) && p[0] == a && p[|p| - 1] == b;
    var q :| IsPath(g, q) && q[0] == b && q[|q| - 1] == c;
    var r := p + q[1..];
    forall i, j | 0 <= i && j == i + 1 && j < |r| ensures r[j] in Next(g, r[i]) {
      if j < |p| {
        assert r[i] == p[i] && r[j] == p[j];
      } else {
        assert r[i] == q[i - |p| + 1] && r[j] == q[j - |p| + 1];
      }
    }
    assert IsPath(g, r) && r[0] == a && r[|r| - 1] == c;
  }

  lemma {:induction false} ReachEdge<V(!new)>(g: Graph<V>, a: V, b: V)
    requires b in Next(g, a)
    ensures Reach(g, a, b) && ReachPlus(g, a, b)
  {
    var p := [a, b];
    assert IsPath(g, p) && p[0] == a && p[|p| - 1] == b;
    ReachRefl(g, b);
  }

  lemma {:induction false} PlusReach<V(!new)>(g: Graph<V>, a: V, b: V)
    requires ReachPlus(g, a, b)
    ensures Reach(g, a, b)
  {
    var c :| c in Next(g, a) && Reach(g, c, b);
    ReachEdge(g, a, c);
    ReachTrans(g, a, c, b);
  }

  /** Reachability is equality or a first import followed by reachability. */
  lemma {:induction false} ReachSplits<V(!new)>(g: Graph<V>, a: V, b: V)
    ensures Reach(g, a, b) <==> a == b || ReachPlus(g, a, b)
  {
    if Reach(g, a, b) && a != b {
      var p :| IsPath(g, p) && p[0] == a && p[|p| - 1] == b;
      var q := p[1..];
      assert IsPath(g, q) && q[0] == p[1] && q[|q| - 1] == b;
      assert p[1] in Next(g, p[0]) && Reach(g, p[1], b);
    }
    if a == b {
      ReachRefl(g, a);
    }
    if ReachPlus(g, a, b) {
      PlusReach(g, a, b);
    }
  }

  /** The import relation as one can pass it around. */
  ghost function Imports<V(!new)>(g: Graph<V>): (V, V) -> bool {
    (a, b) => b in Next(g, a)
  }

  ghost predicate ClosedUnder<V(!new)>(edge: (V, V) -> bool, s: set<V>) {
    forall a, b {:trigger edge(a, b)} :: a in s && edge(a, b) ==> b in s
  }

  lemma {:induction false} ClosedPath<V(!new)>(g: Graph<V>, s: set<V>, p: seq<V>, k: nat)
    requires ClosedUnder(Imports(g), s) && IsPath(g, p) && p[0] in s && k < |p|
    ensures p[k] in s
  {
    if k > 0 {
      ClosedPath(g, s, p, k - 1);
      assert Imports(g)(p[k - 1], p[k]);
    }
  }

  lemma {:induction false} ClosedReach<V(!new)>(g: Graph<V>, s: set<V>, a: V, b: V)
    requires ClosedUnder(Imports(g), s) && a in s && Reach(g, a, b)
    ensures b in s
  {
    var p :| IsPath(g, p) && p[0] == a && p[|p| - 1] == b;
    ClosedPath(g, s, p, |p| - 1);
  }

  lemma {:induction false} ReachabilityIsPreorder<V(!new)>(g: Graph<V>)
    ensures Preorder(Reachability(g))
    ensures forall a, b :: b in Next(g, a) ==> Reachability(g)(a, b)
  {
    forall a ensures Reach(g, a, a) {
      ReachRefl(g, a);
    }
    forall a, b, c | Reach(g, a, b) && Reach(g, b, c) ensures Reach(g, a, c) {
      ReachTrans(g, a, b, c);
    }
    forall a, b | b in Next(g, a) ensures Reach(g, a, b) {
      ReachEdge(g, a, b);
    }
  }

  /** What the scripts test after popping a component, more than one file or a self import,
      holds exactly when each of its files lies on a cycle, and otherwise none does. */
  lemma {:induction false} CyclicTest<V(!new)>(g: Graph<V>, s: set<V>, v: V)
    requires IsScc(Reachability(g), s) && v in s
    ensures ReachPlus(g, v, v) <==> s != {v} || v in Next(g, v)
  {
    if v in Next(g, v) {
      ReachEdge(g, v, v);
    }
    if s != {v} {
      var w :| w in s && w != v;
      assert Reachability(g)(v, w) && Reachability(g)(w, v);
      ReachSplits(g, v, w);
      var c :| c in Next(g, v) && Reach(g, c, w);
      ReachTrans(g, c, w, v);
    }
    if ReachPlus(g, v, v) && s == {v} {
      var c :| c in Next(g, v) && Reach(g, c, v);
      ReachEdge(g, v, c);
      assert Reachability(g)(v, c) && Reachability(g)(c, v);
    }
  }

  /** In a cyclic component every file lies on a cycle. */
  lemma {:induction false} EveryMemberCyclic<V(!new)>(g: Graph<V>, s: set<V>, v: V)
    requires IsCyclicScc(g, s) && v in s
    ensures ReachPlus(g, v, v)
  {
    var w :| w in s && ReachPlus(g, w, w);
    CyclicTest(g, s, v);
    CyclicTest(g, s, w);
  }

  /** Components that share a file are the same component. */
  lemma {:induction false} SccUnique<V(!new)>(reach: (V, V) -> bool, s: set<V>, t: set<V>, v: V)
    requires IsScc(reach, s) && IsScc(reach, t) && v in s && v in t
    ensures s == t
  {
    forall x ensures x in s <==> x in t {
      assert x in s ==> reach(v, x) && reach(x, v);
      assert x in t ==> reach(v, x) && reach(x, v);
    }
  }

  /** Two graphs with the same nodes and the same import relation; the order of keys,
      the order of imports and repeated imports may differ. */
  ghost predicate SameRelation<V(!new)>(g: Graph<V>, h: Graph<V>) {
    && (forall k :: k in g.keys <==> k in h.keys)
    && (forall a, b :: b in Next(g, a) <==> b in Next(h, a))
  }

  lemma {:induction false} SameReach<V(!new)>(g: Graph<V>, h: Graph<V>, a: V, b: V)
    requires SameRelation(g, h)
    ensures Reach(g, a, b) <==> Reach(h, a, b)
  {
    if Reach(g, a, b) {
      var p :| IsPath(g, p) && p[0] == a && p[|p| - 1] == b;
      assert IsPath(h, p);
    }
    if Reach(h, a, b) {
      var p :| IsPath(h, p) && p[0] == a && p[|p| - 1] == b;
      assert IsPath(g, p);
    }
  }

  lemma {:induction false} SameCyclicScc<V(!new)>(g: Graph<V>, h: Graph<V>, s: set<V>)
    requires SameRelation(g, h) && IsCyclicScc(g, s)
    ensures IsCyclicScc(h, s)
  {
    forall a, b ensures Reachability(g)(a, b) <==> Reachability(h)(a, b) {
      SameReach(g, h, a, b);
    }
    var v :| v in s && ReachPlus(g, v, v);
    var c :| c in Next(g, v) && Reach(g, c, v);
    SameReach(g, h, c, v);
    assert c in Next(h, v) && Reach(h, c, v);
  }
}
