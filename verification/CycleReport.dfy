/** What the cycle scripts report: the sorted components and the exit code. */
module CycleReport {
  import opened Options
  import opened JsText
  import opened Sorting
  import opened ImportGraph
  import opened PoppedLog
  import opened TarjanScc
  import CycleWitness

  function CycleSignature(leq: (string, string) -> bool, files: seq<string>): string {
    Join(SortBy(leq, files), '\n')
  }

  /** Larger components first, then by signature. */
  function BySizeThenName(leq: (string, string) -> bool): (seq<string>, seq<string>) -> bool {
    (a, b) => |a| > |b| || (|a| == |b| && leq(CycleSignature(leq, a), CycleSignature(leq, b)))
  }

  /** What the function returns: every cyclic component once, in the order of the report. */
  ghost predicate IsReport(g: Graph<string>, leq: (string, string) -> bool, r: seq<seq<string>>) {
    ListsCycles(g, leq, r) && Sorted(BySizeThenName(leq), r)
  }

  /** What the function returns, the order among ties included: what the search finds, sorted stably. */
  ghost predicate ScriptReport(g: Graph<string>, leq: (string, string) -> bool, r: seq<seq<string>>) {
    exists found :: FoundIn(g, leq, found) && r == SortBy(BySizeThenName(leq), found)
  }

  lemma {:induction false} SortedReport(
    g: Graph<string>, leq: (string, string) -> bool, r: seq<seq<string>>)
    requires TotalPreorder(leq) && ScriptReport(g, leq, r)
    ensures IsReport(g, leq, r)
  {
    var found :| FoundIn(g, leq, found) && r == SortBy(BySizeThenName(leq), found);
    OrderIsPreorder(leq);
    SortBySorted(BySizeThenName(leq), found);
    ListsPermuted(Listing(g, leq), OnCycle(g), found, r, Vertices(g));
  }

  /** Larger components come first, and those of one size by their names, a newline between any two. */
  ghost predicate LargestFirst(leq: (string, string) -> bool, r: seq<seq<string>>) {
    forall i, j :: 0 <= i < j < |r| ==> NotSmaller(leq, r[i], r[j])
  }

  predicate NotSmaller(leq: (string, string) -> bool, a: seq<string>, b: seq<string>) {
    |a| >= |b| && (|a| == |b| ==> leq(Join(a, '\n'), Join(b, '\n')))
  }

  lemma {:induction false} ReportOrder(g: Graph<string>, leq: (string, string) -> bool, r: seq<seq<string>>)
    requires IsReport(g, leq, r)
    ensures LargestFirst(leq, r)
  {
    forall i, j | 0 <= i < j < |r| ensures NotSmaller(leq, r[i], r[j]) {
      assert Listing(g, leq)(r[i]) && Listing(g, leq)(r[j]) && BySizeThenName(leq)(r[i], r[j]);
      ListedInOrder(leq, r[i], r[j]);
    }
  }

  lemma {:induction false} ListedInOrder(leq: (string, string) -> bool, a: seq<string>, b: seq<string>)
    requires Sorted(leq, a) && Sorted(leq, b) && BySizeThenName(leq)(a, b)
    ensures NotSmaller(leq, a, b)
  {
    SortedIsFixed(leq, a);
    SortedIsFixed(leq, b);
    assert |a| == |b| ==> leq(CycleSignature(leq, a), CycleSignature(leq, b));
  }

  function IsEmptyName(name: string): bool {
    name == ""
  }

  method CollectStronglyConnectedComponents(graph: Graph<string>, leq: (string, string) -> bool)
    returns (r: Result<seq<seq<string>>, string>)
    requires TotalPreorder(leq) && IsMap(graph)
    ensures r.Ok? <==> "" !in Vertices(graph)
    ensures r.Ok? ==> ScriptReport(graph, leq, r.value) && IsReport(graph, leq, r.value)
    ensures r.Ok? ==> LargestFirst(leq, r.value)
  {
    var found := CollectComponents(graph, leq, IsEmptyName);
    if found.Err? {
      return found;
    }
    SortedReport(graph, leq, SortBy(BySizeThenName(leq), found.value));
    ReportOrder(graph, leq, SortBy(BySizeThenName(leq), found.value));
    return Ok(SortBy(BySizeThenName(leq), found.value));
  }

  /** What `main` ends with: an exit code, and a printed cycle for each component. */
  datatype Verdict = Verdict(code: nat, components: seq<seq<string>>, evidence: seq<seq<string>>)

  /** The check itself. It passes exactly on acyclic graphs; otherwise it fails with one simple
      cycle of imports for every cyclic component, and never falls back to a bare component. */
  method Check(graph: Graph<string>, leq: (string, string) -> bool) returns (r: Result<Verdict, string>)
    requires TotalPreorder(leq) && IsMap(graph)
    ensures r.Ok? <==> "" !in Vertices(graph)
    ensures r.Ok? ==>
      && ScriptReport(graph, leq, r.value.components) && IsReport(graph, leq, r.value.components)
      && LargestFirst(leq, r.value.components)
      && r.value.code == (if Acyclic(graph) then 0 else 1)
      && Witnessed(graph, r.value.components, r.value.evidence)
  {
    var found := CollectStronglyConnectedComponents(graph, leq);
    if found.Err? {
      return Err(found.error);
    }
    var components := found.value;
    NothingListedIffAcyclic(graph, leq, components);
    if |components| == 0 {
      return Ok(Verdict(0, components, []));
    }
    forall i | 0 <= i < |components| ensures Named(graph, components[i]) {
      ReportedIsNamed(graph, leq, components, components[i]);
    }
    var evidence := FormatCycles(graph, components);
    return Ok(Verdict(1, components, evidence));
  }

  ghost predicate Witnessed(g: Graph<string>, components: seq<seq<string>>, evidence: seq<seq<string>>) {
    && |evidence| == |components|
    && forall i :: 0 <= i < |evidence| ==> CycleWitness.IsSimpleCycle(g, Elements(components[i]), evidence[i])
  }

  ghost predicate Named(g: Graph<string>, c: seq<string>) {
    c != [] && c[0] != "" && IsCyclicScc(g, Elements(c))
  }

  lemma {:induction false} WitnessedMore(
    g: Graph<string>, components: seq<seq<string>>, i: nat, evidence: seq<seq<string>>, cycle: seq<string>)
    requires i < |components| && Witnessed(g, components[..i], evidence)
    requires CycleWitness.IsSimpleCycle(g, Elements(components[i]), cycle)
    ensures Witnessed(g, components[..i + 1], evidence + [cycle])
  {
    assert components[..i + 1] == components[..i] + [components[i]];
  }

  /** The loop that prints a cycle for each component. */
  method FormatCycles(graph: Graph<string>, components: seq<seq<string>>) returns (evidence: seq<seq<string>>)
    requires forall i :: 0 <= i < |components| ==> Named(graph, components[i])
    ensures Witnessed(graph, components, evidence)
  {
    evidence := [];
    for i := 0 to |components|
      invariant Witnessed(graph, components[..i], evidence)
    {
      assert Named(graph, components[i]);
      var cycle := CycleWitness.FindCycleWitness(components[i], graph, IsEmptyName);
      WitnessedMore(graph, components, i, evidence, cycle);
      evidence := evidence + [cycle];
    }
    assert components[..|components|] == components;
  }

  lemma {:induction false} ReportedIsNamed(
    g: Graph<string>, leq: (string, string) -> bool, r: seq<seq<string>>, c: seq<string>)
    requires IsReport(g, leq, r) && "" !in Vertices(g) && c in r
    ensures Named(g, c)
  {
    assert IsListing(g, leq, c);
    var i :| 0 <= i < |r| && r[i] == c;
    assert Elements(r[i]) <= Vertices(g);
    assert c[0] in Elements(c);
  }

  lemma {:induction false} OrderIsPreorder(leq: (string, string) -> bool)
    requires TotalPreorder(leq)
    ensures TotalPreorder(BySizeThenName(leq))
  {
    var order := BySizeThenName(leq);
    forall a, b ensures order(a, b) || order(b, a) {
      assert leq(CycleSignature(leq, a), CycleSignature(leq, b)) || leq(CycleSignature(leq, b), CycleSignature(leq, a));
    }
    forall a, b, c | order(a, b) && order(b, c) ensures order(a, c) {
      var x, y, z := CycleSignature(leq, a), CycleSignature(leq, b), CycleSignature(leq, c);
      assert leq(x, y) && leq(y, z) ==> leq(x, z);
    }
  }

  /** Reordering a listing keeps it one. */
  lemma {:induction false} ListsPermuted<V(!new)>(
    listing: seq<V> -> bool, onCycle: V -> bool, a: seq<seq<V>>, b: seq<seq<V>>, area: set<V>)
    requires Lists(listing, onCycle, a, area) && multiset(a) == multiset(b)
    requires forall c :: listing(c) ==> c != []
    ensures Lists(listing, onCycle, b, area)
  {
    SameMembers(a, b);
    forall i, j | 0 <= i < j < |a| ensures a[i] != a[j] {
      assert a[i] != [] && a[i][0] in Elements(a[i]);
    }
    DistinctByMultiset(a);
    DistinctByMultiset(b);
    forall i | 0 <= i < |b| ensures listing(b[i]) && Elements(b[i]) <= area {
      assert b[i] in a;
    }
    forall i, j | 0 <= i < j < |b| ensures Elements(b[i]) !! Elements(b[j]) {
      assert b[i] in a && b[j] in a;
      var k :| 0 <= k < |a| && a[k] == b[i];
      var l :| 0 <= l < |a| && a[l] == b[j];
    }
    forall v {:trigger Listed(b, v)} | v in area && onCycle(v) ensures Listed(b, v) {
      assert Listed(a, v);
      var i :| 0 <= i < |a| && v in a[i];
      assert a[i] in b;
    }
  }

  lemma {:induction false} NothingListedIffAcyclic(
    g: Graph<string>, leq: (string, string) -> bool, cs: seq<seq<string>>)
    requires IsMap(g) && ListsCycles(g, leq, cs)
    ensures cs == [] <==> Acyclic(g)
  {
    if cs == [] {
      forall v ensures !ReachPlus(g, v, v) {
        assert !Listed(cs, v) && OnCycle(g)(v) == ReachPlus(g, v, v);
        if ReachPlus(g, v, v) {
          OnCycleIsVertex(g, v);
        }
      }
    } else {
      assert IsListing(g, leq, cs[0]);
    }
  }

  lemma {:induction false} OnCycleIsVertex(g: Graph<string>, v: string)
    requires IsMap(g) && ReachPlus(g, v, v)
    ensures v in Vertices(g)
  {
    var c :| c in Next(g, v) && Reach(g, c, v);
    assert v in g.imports && v in g.keys;
  }
}
