/** `findCycleWitness`: a depth-first search inside one component that prints a cycle as evidence.
    Visited files are never unmarked on backtracking, yet for a reported component the search
    never fails, so the fallback of printing the component itself is dead. */
module CycleWitness {
  import opened Options
  import opened Sorting
  import opened ImportGraph

  /** A path that stays inside the component. */
  ghost predicate IsPathWithin<V(!new)>(g: Graph<V>, inside: set<V>, p: seq<V>) {
    IsPath(g, p) && forall v :: v in p ==> v in inside
  }

  /** A simple cycle: closed, made of imports, inside the component, repeating only its first file. */
  ghost predicate IsSimpleCycle<V(!new)>(g: Graph<V>, inside: set<V>, w: seq<V>) {
    && |w| >= 2
    && w[0] == w[|w| - 1]
    && IsPathWithin(g, inside, w)
    && Distinct(w[..|w| - 1])
  }

  ghost predicate ReachWithin<V(!new)>(g: Graph<V>, inside: set<V>, a: V, b: V) {
    exists p :: IsPathWithin(g, inside, p) && p[0] == a && p[|p| - 1] == b
  }

  /** A cycle the search may print: simple, and reached from its first file. */
  ghost predicate Evidence<V(!new)>(g: Graph<V>, inside: set<V>, start: V, w: seq<V>) {
    IsSimpleCycle(g, inside, w) && ReachWithin(g, inside, start, w[0])
  }

  /** The files the search has left, in the order it left them: each one's imports
      inside the component were left before it. */
  ghost predicate Exhausted<V(!new)>(g: Graph<V>, inside: set<V>, left: seq<V>) {
    forall i, b :: 0 <= i < |left| && b in Next(g, left[i]) && b in inside ==> b in left[..i]
  }

  /** Nothing left behind leads to a cycle. */
  lemma {:induction false} ExhaustedPath<V(!new)>(g: Graph<V>, inside: set<V>, left: seq<V>, k: nat, p: seq<V>, n: nat)
    requires Exhausted(g, inside, left) && IsPathWithin(g, inside, p)
    requires k <= |left| && p[0] in left[..k] && n < |p|
    ensures p[n] in left[..k]
  {
    if n > 0 {
      ExhaustedPath(g, inside, left, k, p, n - 1);
      var i :| 0 <= i < k && left[i] == p[n - 1];
      assert p[n] in Next(g, p[n - 1]) && p[n] in inside;
      assert p[n] in left[..i];
    }
  }

  lemma {:induction false} ExhaustedHasNoCycle<V(!new)>(g: Graph<V>, inside: set<V>, left: seq<V>, k: nat, w: seq<V>)
    requires Exhausted(g, inside, left) && IsSimpleCycle(g, inside, w) && k <= |left|
    ensures w[0] !in left[..k]
  {
    if w[0] in left[..k] {
      var i :| 0 <= i < k && left[i] == w[0];
      assert w[1] in Next(g, w[0]) && w[1] in inside;
      assert w[1] in left[..i];
      var p := w[1..];
      assert IsPathWithin(g, inside, p);
      ExhaustedPath(g, inside, left, i, p, |p| - 1);
      ExhaustedHasNoCycle(g, inside, left, i, w);
    }
  }

  lemma {:induction false} NothingReachesACycle<V(!new)>(g: Graph<V>, inside: set<V>, left: seq<V>, start: V, w: seq<V>)
    requires Exhausted(g, inside, left) && start in left
    ensures !Evidence(g, inside, start, w)
  {
    assert left[..|left|] == left;
    if Evidence(g, inside, start, w) {
      ExhaustedHasNoCycle(g, inside, left, |left|, w);
      var p :| IsPathWithin(g, inside, p) && p[0] == start && p[|p| - 1] == w[0];
      ExhaustedPath(g, inside, left, |left|, p, |p| - 1);
    }
  }

  /** A cyclic component cannot be exhausted: its first file left would need an import left earlier. */
  lemma {:induction false} CyclicNeverExhausted<V(!new)>(g: Graph<V>, inside: set<V>, left: seq<V>)
    requires IsCyclicScc(g, inside) && left != [] && left[0] in inside
    ensures !Exhausted(g, inside, left)
  {
    var v := left[0];
    EveryMemberCyclic(g, inside, v);
    var c :| c in Next(g, v) && Reach(g, c, v);
    ReachEdge(g, v, c);
    assert Reachability(g)(v, c) && Reachability(g)(c, v);
    assert c in inside && c !in left[..0];
  }

  /** `indexOf` */
  function IndexOf<V(==)>(s: seq<V>, x: V): (r: int)
    ensures r == -1 || 0 <= r < |s|
    ensures r == -1 <==> x !in s
    ensures r >= 0 ==> s[r] == x && x !in s[..r]
  {
    if s == [] then -1
    else if s[0] == x then 0
    else
      var r := IndexOf(s[1..], x);
      assert s == [s[0]] + s[1..];
      assert r >= 0 ==> s[..r + 1] == [s[0]] + s[1..][..r];
      if r == -1 then -1 else r + 1
  }

  /** The variables the recursive closure shares. */
  class WitnessSearch<V(==, !new)> {
    const graph: Graph<V>
    const componentSet: set<V>
    const start: V

    var activePath: seq<V>
    var visited: set<V>
    /** The visited files that are no longer on the path, in the order they left it. */
    ghost var left: seq<V>

    constructor (graph: Graph<V>, componentSet: set<V>, start: V)
      ensures this.graph == graph && this.componentSet == componentSet && this.start == start
      ensures activePath == [] && visited == {} && left == []
    {
      this.graph, this.componentSet, this.start := graph, componentSet, start;
      activePath, visited, left := [], {}, [];
    }

    ghost predicate Searching()
      reads this
    {
      && Distinct(activePath)
      && visited == Elements(activePath) + Elements(left)
      && visited <= componentSet
      && Exhausted(graph, componentSet, left)
      && (activePath == [] || (IsPathWithin(graph, componentSet, activePath) && activePath[0] == start))
    }

    /** `node` may be entered next. */
    ghost predicate Extends(node: V)
      reads this
    {
      && node in componentSet && node !in visited
      && if activePath == [] then node == start else node in Next(graph, activePath[|activePath| - 1])
    }

    /** One call of the recursive closure: a cycle, or every file reachable from here is left behind. */
    method Visit(node: V) returns (result: Option<seq<V>>)
      requires Searching() && Extends(node)
      modifies this
      ensures result.Some? ==> Evidence(graph, componentSet, start, result.value)
      ensures result.None? ==>
        Searching() && activePath == old(activePath) && old(left) <= left && node in left && old(visited) <= visited
      decreases componentSet - visited, 0
    {
      Push(node);
      var imports := Next(graph, node);
      for i := 0 to |imports|
        invariant Searching() && activePath == old(activePath) + [node]
        invariant old(left) <= left && old(visited) + {node} <= visited
        invariant forall j :: 0 <= j < i && imports[j] in componentSet ==> imports[j] in left
      {
        result := Follow(imports[i]);
        if result.Some? { return; }
      }
      Pop(node);
      assert activePath == old(activePath);
      result := None;
    }

    /** `activePath.push(node); visited.add(node);` */
    method Push(node: V)
      requires Searching() && Extends(node)
      modifies this`activePath, this`visited
      ensures Searching() && activePath == old(activePath) + [node] && visited == old(visited) + {node}
    {
      PathGrows(graph, componentSet, activePath, node);
      ElementsAppend(activePath, node);
      activePath := activePath + [node];
      visited := visited + {node};
    }

    /** One import of the last file on the path. */
    method Follow(next: V) returns (result: Option<seq<V>>)
      requires Searching() && activePath != [] && next in Next(graph, activePath[|activePath| - 1])
      modifies this
      ensures result.Some? ==> Evidence(graph, componentSet, start, result.value)
      ensures result.None? ==>
        && Searching() && activePath == old(activePath) && old(left) <= left && old(visited) <= visited
        && (next in componentSet ==> next in left)
      decreases componentSet - visited, 1
    {
      if next !in componentSet {
        return None;
      }
      var existingIndex := IndexOf(activePath, next);
      if existingIndex >= 0 {
        CycleClosed(graph, componentSet, activePath, existingIndex);
        return Some(activePath[existingIndex..] + [next]);
      }
      result := None;
      if next !in visited {
        result := Visit(next);
      }
    }

    /** `activePath.pop()`, with every import of the last file inside the component left behind. */
    method Pop(ghost node: V)
      requires Searching() && activePath != [] && activePath[|activePath| - 1] == node
      requires forall j :: 0 <= j < |Next(graph, node)| && Next(graph, node)[j] in componentSet ==>
        Next(graph, node)[j] in left
      modifies this`activePath, this`left
      ensures Searching() && activePath == old(activePath)[..|old(activePath)| - 1] && left == old(left) + [node]
    {
      LeavesExhausted(graph, componentSet, left, node);
      ElementsAppend(left, node);
      left := left + [node];
      activePath := activePath[..|activePath| - 1];
      assert activePath + [node] == old(activePath);
      ElementsAppend(activePath, node);
    }
  }

  lemma {:induction false} PathGrows<V(!new)>(g: Graph<V>, inside: set<V>, p: seq<V>, v: V)
    requires v in inside && v !in p && Distinct(p)
    requires p != [] ==> IsPathWithin(g, inside, p) && v in Next(g, p[|p| - 1])
    ensures IsPathWithin(g, inside, p + [v]) && Distinct(p + [v])
  {
  }

  lemma {:induction false} CycleClosed<V(!new)>(g: Graph<V>, inside: set<V>, p: seq<V>, k: nat)
    requires IsPathWithin(g, inside, p) && Distinct(p) && k < |p| && p[k] in Next(g, p[|p| - 1])
    ensures Evidence(g, inside, p[0], p[k..] + [p[k]])
  {
    var w := p[k..] + [p[k]];
    assert w[..|w| - 1] == p[k..];
    forall i, j | 0 <= i && j == i + 1 && j < |w| ensures w[j] in Next(g, w[i]) {
      if j < |w| - 1 {
        assert w[i] == p[k + i] && w[j] == p[k + j];
      }
    }
    var q := p[..k + 1];
    assert IsPathWithin(g, inside, q) && q[0] == p[0] && q[|q| - 1] == p[k];
  }

  lemma {:induction false} LeavesExhausted<V(!new)>(g: Graph<V>, inside: set<V>, left: seq<V>, node: V)
    requires Exhausted(g, inside, left)
    requires forall j :: 0 <= j < |Next(g, node)| && Next(g, node)[j] in inside ==> Next(g, node)[j] in left
    ensures Exhausted(g, inside, left + [node])
  {
    var more := left + [node];
    forall i, b | 0 <= i < |more| && b in Next(g, more[i]) && b in inside ensures b in more[..i] {
      if i < |left| {
        assert more[..i] == left[..i];
      } else {
        assert more[..i] == left;
      }
    }
  }

  /** The witness of a component. The fallback to the component itself is taken exactly when
      no cycle inside it can be reached from its first file; in particular never for a cyclic one. */
  method FindCycleWitness<V(==, !new)>(component: seq<V>, graph: Graph<V>, falsy: V -> bool) returns (w: seq<V>)
    ensures component == [] || falsy(component[0]) ==> w == []
    ensures component != [] && !falsy(component[0]) ==>
      var inside := Elements(component);
      && (Evidence(graph, inside, component[0], w)
          || (w == component && forall c :: !Evidence(graph, inside, component[0], c)))
      && (IsCyclicScc(graph, inside) ==> IsSimpleCycle(graph, inside, w))
  {
    if component == [] || falsy(component[0]) {
      return [];
    }
    var componentSet := set v | v in component;
    var search := new WitnessSearch(graph, componentSet, component[0]);
    var found := search.Visit(component[0]);
    match found {
      case Some(cycle) => w := cycle;
      case None =>
        w := component;
        forall c ensures !Evidence(graph, componentSet, component[0], c) {
          NothingReachesACycle(graph, componentSet, search.left, component[0], c);
        }
        if IsCyclicScc(graph, componentSet) {
          assert search.left[0] in Elements(search.left);
          CyclicNeverExhausted(graph, componentSet, search.left);
        }
    }
  }
}
