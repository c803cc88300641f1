/** The files a channel config module needs: its relative imports, and the directory they
    are all copied from. */
module ImportClosure {
  import opened ImportGraph
  import opened Options
  import opened Sorting

  // ----- the relative import graph

  /** For every file that can be read, its relative imports in order, with what each resolves
      to, if anything. */
  type Sources<V(==)> = map<V, seq<Option<V>>>

  function Resolved<V(!new)>(specifiers: seq<Option<V>>): (r: seq<V>)
    ensures forall v :: v in r <==> Some(v) in specifiers
  {
    if specifiers == [] then []
    else (match specifiers[0] case Some(v) => [v] case None => []) + Resolved(specifiers[1..])
  }

  ghost function ImportsOf<V(!new)>(sources: Sources<V>): Graph<V> {
    Graph([], map f | f in sources :: Resolved(sources[f]))
  }

  ghost predicate AllReachable<V(!new)>(g: Graph<V>, entry: V, files: seq<V>) {
    forall f :: f in files ==> Reach(g, entry, f)
  }

  /** Each import of a discovered file is discovered or still to come. */
  ghost predicate Frontier<V(!new)>(g: Graph<V>, discovered: seq<V>, queue: seq<V>) {
    forall a, b {:trigger Imports(g)(a, b)} :: a in discovered && Imports(g)(a, b) ==> b in discovered || b in queue
  }

  /** Exactly the files reachable from the entry, each once; or the first file found that
      cannot be read. */
  ghost predicate IsClosure<V(!new)>(g: Graph<V>, entry: V, r: Result<seq<V>, V>) {
    match r
    case Ok(files) => Distinct(files) && forall f :: f in files <==> Reach(g, entry, f)
    case Err(f) => Reach(g, entry, f) && f !in g.imports
  }

  /** The state of the worklist. */
  ghost predicate Exploring<V(!new)>(g: Graph<V>, entry: V, discovered: seq<V>, queue: seq<V>) {
    && Distinct(discovered) && Elements(discovered) <= g.imports.Keys
    && AllReachable(g, entry, discovered) && AllReachable(g, entry, queue)
    && (entry in discovered || entry in queue)
    && Frontier(g, discovered, queue)
  }

  lemma {:induction false} PassOver<V(!new)>(
      g: Graph<V>, entry: V, discovered: seq<V>, rest: seq<V>, current: V)
    requires Exploring(g, entry, discovered, rest + [current]) && current in discovered
    ensures Exploring(g, entry, discovered, rest)
  {
    assert forall f :: f in rest ==> f in rest + [current];
  }

  lemma {:induction false} Discover<V(!new)>(
      g: Graph<V>, entry: V, discovered: seq<V>, rest: seq<V>, current: V, imports: seq<V>)
    requires Exploring(g, entry, discovered, rest + [current])
    requires current !in discovered && current in g.imports && imports == Next(g, current)
    ensures Exploring(g, entry, discovered + [current], rest + imports)
  {
    ElementsAppend(discovered, current);
    assert current in rest + [current];
    forall b | b in imports ensures Reach(g, entry, b) {
      ReachEdge(g, current, b);
      ReachTrans(g, entry, current, b);
    }
    assert forall f :: f in rest ==> f in rest + [current];
  }

  lemma {:induction false} AllFound<V(!new)>(g: Graph<V>, entry: V, discovered: seq<V>)
    requires Exploring(g, entry, discovered, [])
    ensures Distinct(discovered) && forall f :: f in discovered <==> Reach(g, entry, f)
  {
    var s := Elements(discovered);
    assert ClosedUnder(Imports(g), s);
    forall f | Reach(g, entry, f) ensures f in discovered {
      ClosedReach(g, s, entry, f);
    }
  }

  method CollectRelativeImportGraph<V(==,!new)>(sources: Sources<V>, entry: V) returns (r: Result<seq<V>, V>)
    ensures IsClosure(ImportsOf(sources), entry, r)
    ensures r.Ok? <==> forall f :: Reach(ImportsOf(sources), entry, f) ==> f in sources
    ensures r.Ok? ==> r.value != [] && r.value[0] == entry
  {
    ghost var g := ImportsOf(sources);
    var discovered: seq<V> := [];
    var queue := [entry];
    ReachRefl(g, entry);
    while queue != []
      invariant Exploring(g, entry, discovered, queue)
      invariant if discovered == [] then queue == [entry] else discovered[0] == entry
      decreases |sources.Keys - Elements(discovered)|, |queue|
    {
      var currentPath := queue[|queue| - 1];
      var rest := queue[..|queue| - 1];
      assert queue == rest + [currentPath];
      if currentPath in discovered {
        PassOver(g, entry, discovered, rest, currentPath);
        queue := rest;
        continue;
      }
      if currentPath !in sources {
        assert currentPath in queue;
        return Err(currentPath);
      }
      Discover(g, entry, discovered, rest, currentPath, Resolved(sources[currentPath]));
      ElementsAppend(discovered, currentPath);
      Fewer(sources.Keys, Elements(discovered), currentPath);
      discovered := discovered + [currentPath];
      queue := rest + Resolved(sources[currentPath]);
    }
    AllFound(g, entry, discovered);
    return Ok(discovered);
  }

  lemma {:induction false} Fewer<V(!new)>(all: set<V>, seen: set<V>, v: V)
    requires v in all && v !in seen
    ensures |all - (seen + {v})| < |all - seen|
  {
    assert all - seen == (all - (seen + {v})) + {v};
  }

  // ----- the common ancestor

  /** An absolute path by its segments, as `path.resolve` gives it; the root has none. */
  type Segments = p: seq<string> | ".." !in p

  /** How many leading segments two paths share. */
  function Common(a: seq<string>, b: seq<string>): (c: nat)
    ensures c <= |a| && c <= |b| && a[..c] == b[..c]
    ensures c < |a| && c < |b| ==> a[c] != b[c]
  {
    if a != [] && b != [] && a[0] == b[0] then 1 + Common(a[1..], b[1..]) else 0
  }

  function Ups(n: nat): (r: seq<string>)
    ensures |r| == n && forall i :: 0 <= i < n ==> r[i] == ".."
  {
    seq(n, _ => "..")
  }

  /** `path.relative(from, to)`, by segments */
  function Relative(from: Segments, to: Segments): seq<string> {
    var c := Common(from, to);
    Ups(|from| - c) + to[c..]
  }

  /** `relative.startsWith("../")`: a first segment `..` that is not all there is. */
  predicate LeadsUp(relative: seq<string>) {
    |relative| > 1 && relative[0] == ".."
  }

  /** How many segments of `first` a candidate leaves standing: those they share, and one
      more when the candidate is a directory above, whose relative path is `..` alone. */
  function Bar(first: Segments, candidate: Segments): nat {
    var c := Common(first, candidate);
    if c == |candidate| then c + 1 else c
  }

  function Least(a: nat, b: nat): nat {
    if a <= b then a else b
  }

  function Standing(first: Segments, rest: seq<Segments>): (m: nat)
    ensures m <= |first|
  {
    if rest == [] then |first|
    else Least(Standing(first, rest[..|rest| - 1]), Bar(first, rest[|rest| - 1]))
  }

  lemma {:induction false} CommonOfPrefix(first: Segments, m: nat, candidate: Segments)
    requires m <= |first|
    decreases m
    ensures Common(first[..m], candidate) == Least(m, Common(first, candidate))
  {
    if m > 0 && candidate != [] && first[0] == candidate[0] {
      assert first[..m][1..] == first[1..][..m - 1];
      CommonOfPrefix(first[1..], m - 1, candidate[1..]);
    }
  }

  method ResolveCommonAncestor(paths: seq<Segments>) returns (r: Option<Segments>)
    ensures r.None? <==> paths == []
    ensures r.Some? ==> r.value == paths[0][..Standing(paths[0], paths[1..])]
  {
    if paths == [] {
      return None;
    }
    var first, rest := paths[0], paths[1..];
    var ancestor := first;
    for i := 0 to |rest|
      invariant ancestor == first[..Standing(first, rest[..i])]
    {
      assert rest[..i + 1][..i] == rest[..i];
      ancestor := Ascend(first, Standing(first, rest[..i]), ancestor, rest[i]);
    }
    assert rest[..|rest|] == rest;
    return Some(ancestor);
  }

  /** The inner loop: up from `ancestor` until `candidate` no longer leads further up. At the
      root it always stops, so the function's early return there changes nothing. */
  method Ascend(first: Segments, ghost m: nat, ancestor: Segments, candidate: Segments) returns (r: Segments)
    requires m <= |first| && ancestor == first[..m]
    ensures r == first[..Least(m, Bar(first, candidate))]
  {
    r := ancestor;
    while LeadsUp(Relative(r, candidate))
      invariant |r| <= |first| && r == first[..|r|]
      invariant Least(|r|, Bar(first, candidate)) == Least(m, Bar(first, candidate))
      decreases |r|
    {
      CommonOfPrefix(first, |r|, candidate);
      var parent := if r == [] then [] else r[..|r| - 1];
      if parent == r {
        return;
      }
      r := parent;
    }
    CommonOfPrefix(first, |r|, candidate);
  }

  // ----- when every path lies under the ancestor

  /** The one family of path lists the walk gets wrong: some path lies strictly above the
      first, and every other path is that one or goes on below it as the first does. */
  ghost predicate StopsShort(first: Segments, rest: seq<Segments>) {
    exists p :: p in rest && p < first && forall q :: q in rest ==> q == p || first[..|p| + 1] <= q
  }

  lemma {:induction false} StandingBound(first: Segments, rest: seq<Segments>, n: nat)
    ensures n <= Standing(first, rest) <==> n <= |first| && forall q :: q in rest ==> n <= Bar(first, q)
  {
    if rest != [] {
      var k := |rest| - 1;
      StandingBound(first, rest[..k], n);
      assert rest == rest[..k] + [rest[k]];
    }
  }

  lemma {:induction false} CommonIsLongest(a: Segments, b: Segments, n: nat)
    requires n <= |a|
    ensures n <= Common(a, b) <==> a[..n] <= b
  {
    var c := Common(a, b);
    if n <= c {
      assert a[..n] == a[..c][..n] && b[..n] == b[..c][..n];
    }
    assert a[..n] <= b ==> forall i {:trigger a[i]} :: 0 <= i < n ==> a[..n][i] == a[i] && i < |b| && a[i] == b[i];
  }

  /** The ancestor is the longest common prefix, every path being under it, exactly when the
      list is not of that family; in particular when no path lies strictly above the first. */
  lemma {:induction false} AncestorCovers(first: Segments, rest: seq<Segments>)
    ensures (forall q :: q in rest ==> first[..Standing(first, rest)] <= q) <==> !StopsShort(first, rest)
    ensures forall n: nat :: n <= |first| && (forall q :: q in rest ==> first[..n] <= q) ==> n <= Standing(first, rest)
  {
    var m := Standing(first, rest);
    forall n: nat | n <= |first| && forall q :: q in rest ==> first[..n] <= q ensures n <= m {
      forall q | q in rest ensures n <= Bar(first, q) {
        CommonIsLongest(first, q, n);
      }
      StandingBound(first, rest, n);
    }
    if p :| p in rest && !(first[..m] <= p) {
      StandingBound(first, rest, m);
      CommonIsLongest(first, p, m);
      Uncovered(first, rest, p);
    }
    if p :| p in rest && p < first && forall q :: q in rest ==> q == p || first[..|p| + 1] <= q {
      forall q | q in rest ensures |p| + 1 <= Bar(first, q) {
        CommonIsLongest(first, q, |p| + 1);
        CommonIsLongest(first, p, |p|);
      }
      StandingBound(first, rest, |p| + 1);
    }
  }

  /** In that family the ancestor is the path above the first and one segment more of the first. */
  lemma {:induction false} ShortByOne(first: Segments, rest: seq<Segments>, p: Segments)
    requires p in rest && p < first && forall q :: q in rest ==> q == p || first[..|p| + 1] <= q
    ensures Standing(first, rest) == |p| + 1
  {
    CommonIsLongest(first, p, |p|);
    forall q | q in rest ensures |p| + 1 <= Bar(first, q) {
      CommonIsLongest(first, q, |p| + 1);
    }
    StandingBound(first, rest, |p| + 1);
    StandingBound(first, rest, |p| + 2);
  }

  lemma {:induction false} Uncovered(first: Segments, rest: seq<Segments>, p: Segments)
    requires p in rest && Standing(first, rest) > Common(first, p)
    ensures StopsShort(first, rest)
  {
    var m := Standing(first, rest);
    StandingBound(first, rest, m);
    assert m <= Bar(first, p) && m == |p| + 1;
    assert p == p[..|p|] && p == first[..|p|];
    forall q | q in rest ensures q == p || first[..|p| + 1] <= q {
      assert m <= Bar(first, q);
      CommonIsLongest(first, q, |p| + 1);
      assert q[..|q|] == q;
    }
  }
}
