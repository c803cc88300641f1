/** `collectStronglyConnectedComponents`, shared by both cycle scripts: Tarjan's algorithm
    over mutable maps, a stack and a set, proved to find exactly the cyclic components. */
module TarjanScc {
  import opened Options
  import opened Sorting
  import opened ImportGraph
  import opened LowLinks
  import opened PoppedLog

  /** The stack lists the stacked files, each once. */
  ghost predicate Stacked<V(!new)>(stack: seq<V>, onStack: set<V>) {
    Elements(stack) == onStack && |stack| == |onStack|
  }

  lemma {:induction false} StackedMore<V(!new)>(stack: seq<V>, onStack: set<V>, node: V)
    requires Stacked(stack, onStack)
    requires node !in onStack
    ensures Stacked(stack + [node], onStack + {node})
  {
    ElementsAppend(stack, node);
  }

  lemma {:induction false} ClosedMore<V(!new)>(s: Marks<V>, t: Marks<V>, popped: set<V>)
    requires t.index == s.index && t.onStack == s.onStack - popped && popped <= s.onStack <= s.index.Keys
    ensures Closed(t) == Closed(s) + popped
  {
  }

  lemma {:induction false} StackAbove<V(!new)>(base: seq<V>, stack: seq<V>)
    requires Stacked(stack, Elements(stack)) && base <= stack
    ensures Elements(stack[|base|..]) == Elements(stack) - Elements(base)
    ensures Distinct(stack)
  {
    DistinctBySize(stack);
    forall v ensures v in stack[|base|..] <==> v in stack && v !in base {
      if v in stack[|base|..] {
        var k :| 0 <= k < |stack| - |base| && stack[|base|..][k] == v;
        assert forall l :: 0 <= l < |base| ==> base[l] == stack[l] != stack[|base| + k];
      }
      if v in stack && v !in base {
        var k :| 0 <= k < |stack| && stack[k] == v;
        assert stack[|base|..][k - |base|] == v;
      }
    }
  }

  /** Popping lists the upper part of the stack, reversed. */
  lemma {:induction false} Reversal<V(!new)>(stack: seq<V>, base: seq<V>, popped: seq<V>)
    requires Distinct(stack) && base <= stack && |popped| == |stack| - |base|
    requires forall j :: 0 <= j < |popped| ==> popped[j] == stack[|stack| - 1 - j]
    ensures Distinct(popped) && Elements(popped) == Elements(stack[|base|..])
  {
    forall v ensures v in popped <==> v in stack[|base|..] {
      if v in popped {
        var j :| 0 <= j < |popped| && popped[j] == v;
        assert stack[|base|..][|popped| - 1 - j] == v;
      }
      if v in stack[|base|..] {
        var k :| 0 <= k < |popped| && stack[|base|..][k] == v;
        assert popped[|popped| - 1 - k] == v;
      }
    }
  }

  lemma {:induction false} ClosedSettles<V(!new)>(edge: (V, V) -> bool, reach: (V, V) -> bool, s: set<V>)
    requires Respects(edge, reach) && ClosedUnder(edge, s)
    ensures Settled(reach, s)
  {
  }

  /** A key of the outer loop leaves what it reaches popped, and nothing else new. */
  lemma {:induction false} KeyVisited<V(!new)>(
    universe: set<V>, edge: (V, V) -> bool, reach: (V, V) -> bool, s: Marks<V>, t: Marks<V>, node: V)
    requires Respects(edge, reach)
    requires Inv(universe, edge, reach, s, {}) && Inv(universe, edge, reach, t, {})
    requires s.index.Keys <= t.index.Keys && node in t.index && Below(reach, s, t, node)
    ensures Closed(t) == Closed(s) + FromKeys(universe, reach, [node])
  {
    NothingStacked(universe, edge, reach, s);
    NothingStacked(universe, edge, reach, t);
    ClosedSettles(edge, reach, Closed(t));
    forall v | v in t.index.Keys - s.index.Keys ensures Reached(reach, [node], v) {
      assert node in [node] && reach(node, v);
    }
    forall v | v in universe && Reached(reach, [node], v) ensures v in Closed(t) {
      assert reach(node, v);
    }
  }

  lemma {:induction false} ReachabilityRespects<V(!new)>(g: Graph<V>)
    ensures Respects(Imports(g), Reachability(g))
  {
    ReachabilityIsPreorder(g);
    forall s, a, b {:trigger ClosedUnder(Imports(g), s), Reachability(g)(a, b)}
      | ClosedUnder(Imports(g), s) && a in s && Reachability(g)(a, b) ensures b in s
    {
      ClosedReach(g, s, a, b);
    }
  }

  /** The variables the recursive closure shares. */
  class SccSearch<V(==, !new)> {
    const graph: Graph<V>
    /** "localeCompare is not positive" */
    const leq: (V, V) -> bool
    /** JavaScript falsiness: the empty string. */
    const falsy: V -> bool

    // The notions the proof speaks of, fixed by `Fits`.
    ghost const universe: set<V>
    ghost const edge: (V, V) -> bool
    ghost const reach: (V, V) -> bool

    /** `nextIndex`, `indexByNode`, `lowLinkByNode` and `onStack`. */
    var marks: Marks<V>
    var stack: seq<V>
    var components: seq<seq<V>>
    ghost var log: seq<Popped<V>>

    constructor (graph: Graph<V>, leq: (V, V) -> bool, falsy: V -> bool)
      ensures this.graph == graph && this.leq == leq && this.falsy == falsy
      ensures universe == Vertices(graph) && edge == Imports(graph) && reach == Reachability(graph)
      ensures marks == Marks(0, map[], map[], {}) && stack == [] && components == [] && log == []
    {
      this.graph, this.leq, this.falsy := graph, leq, falsy;
      universe, edge, reach := Vertices(graph), Imports(graph), Reachability(graph);
      marks, stack, components, log := Marks(0, map[], map[], {}), [], [], [];
    }

    /** These notions are those of the graph, as far as the search uses them. */
    ghost predicate Fits() {
      && Respects(edge, reach)
      && (forall a :: Successors(a, Next(graph, a)))
    }

    ghost predicate Successors(node: V, imports: seq<V>) {
      && Elements(imports) <= universe
      && (forall z :: edge(node, z) <==> z in Elements(imports))
    }

    /** The list built so far reports the popped components, and they are those of `s`. */
    ghost predicate Reported(s: Marks<V>)
      reads this
    {
      components == Report(graph, leq, log) && Logged(reach, falsy, log) && Files(log) == Closed(s)
    }

    ghost predicate SomeFalsy() {
      exists v :: v in universe && falsy(v)
    }

    /** One call of the recursive closure. It fails only by popping a falsy name. */
    method Visit(node: V, ghost gray: set<V>) returns (ok: bool)
      requires Fits()
      requires Inv(universe, edge, reach, marks, gray)
      requires Stacked(stack, marks.onStack) && Reported(marks)
      requires node in universe && node !in marks.index
      requires forall x :: x in gray ==> reach(x, node)
      modifies this
      ensures !ok ==> SomeFalsy()
      ensures ok ==> Inv(universe, edge, reach, marks, gray)
      ensures ok ==> Stacked(stack, marks.onStack) && Reported(marks)
      ensures ok ==> old(stack) <= stack && old(log) <= log && (node in marks.onStack || Rooted(log, node))
      ensures ok ==> Extends(old(marks), marks) && Visited(edge, reach, old(marks), marks, node)
      decreases universe - marks.index.Keys, 2
    {
      ghost var s0, base := marks, stack;
      Enter(node, gray);
      assert Successors(node, Next(graph, node));
      ok := Scan(node, Next(graph, node), s0, base, gray);
      if !ok { return; }
      ok := Leave(node, s0, base, gray);
    }

    /** The loop over the keys. */
    method VisitKeys() returns (ok: bool)
      requires Fits() && Elements(graph.keys) <= universe && log == [] && marks.index == map[]
      requires Inv(universe, edge, reach, marks, {})
      requires Stacked(stack, marks.onStack) && Reported(marks)
      modifies this
      ensures !ok ==> SomeFalsy()
      ensures ok ==> Inv(universe, edge, reach, marks, {})
      ensures ok ==> Reported(marks) && Elements(graph.keys) <= marks.index.Keys
      ensures ok ==> KeyByKey(universe, reach, graph.keys, |graph.keys|, log)
      ensures ok ==> graph.keys == [] || Rooted(log, graph.keys[0])
    {
      ok := true;
      var keys := graph.keys;
      NoKeyYet(universe, reach, keys);
      for i := 0 to |keys|
        invariant Inv(universe, edge, reach, marks, {})
        invariant Stacked(stack, marks.onStack) && Reported(marks)
        invariant Elements(keys[..i]) <= marks.index.Keys
        invariant Files(log) == FromKeys(universe, reach, keys[..i]) && KeyByKey(universe, reach, keys, i, log)
        invariant if i == 0 then marks.index == map[] else Rooted(log, keys[0])
      {
        TakeElements(keys, i);
        ghost var before := log;
        ok := VisitKey(keys[i]);
        if !ok { return; }
        NextKey(universe, reach, keys, i, before, log);
        StaysRooted(before, log, keys[0]);
      }
      TakeElements(keys, |keys|);
    }

    method VisitKey(node: V) returns (ok: bool)
      requires Fits() && node in universe
      requires Inv(universe, edge, reach, marks, {})
      requires Stacked(stack, marks.onStack) && Reported(marks)
      modifies this
      ensures !ok ==> SomeFalsy()
      ensures ok ==> Inv(universe, edge, reach, marks, {})
      ensures ok ==> Stacked(stack, marks.onStack) && Reported(marks)
      ensures ok ==> node in marks.index && old(marks.index.Keys) <= marks.index.Keys
      ensures ok ==> old(log) <= log && Files(log) == old(Files(log)) + FromKeys(universe, reach, [node])
      ensures ok && node !in old(marks.index) ==> Rooted(log, node)
    {
      ok := true;
      ghost var s := marks;
      if node !in marks.index {
        ok := Visit(node, {});
        if !ok { return; }
        NothingStacked(universe, edge, reach, marks);
      }
      KeyVisited(universe, edge, reach, s, marks, node);
    }

    method VisitAll() returns (ok: bool)
      requires Fits() && ListsKeys(graph) && universe == Vertices(graph) && log == [] && marks.index == map[]
      requires Inv(universe, edge, reach, marks, {})
      requires Stacked(stack, marks.onStack) && Reported(marks)
      modifies this
      ensures !ok ==> SomeFalsy()
      ensures ok ==> components == Report(graph, leq, log) && Logged(reach, falsy, log) && Files(log) == universe
      ensures ok ==> KeyByKey(universe, reach, graph.keys, |graph.keys|, log)
      ensures ok ==> graph.keys == [] || Rooted(log, graph.keys[0])
    {
      ok := VisitKeys();
      if !ok { return; }
      AllClosed(marks);
    }

    /** With no visit in progress nothing is stacked, and once the keys are visited so is every file. */
    lemma {:induction false} AllClosed(m: Marks<V>)
      requires Fits() && ListsKeys(graph) && universe == Vertices(graph)
      requires Inv(universe, edge, reach, m, {})
      requires Elements(graph.keys) <= m.index.Keys
      ensures Closed(m) == universe
    {
      NothingStacked(universe, edge, reach, m);
      forall v | v in universe ensures v in m.index {
        assert v in graph.keys ==> v in Elements(graph.keys);
        if v !in graph.keys {
          var k :| k in graph.imports && v in graph.imports[k];
          assert k in Elements(graph.keys) && Successors(k, Next(graph, k)) && v in Elements(Next(graph, k));
          assert edge(k, v);
        }
      }
    }

    /** Number `node` and stack it. */
    method Enter(node: V, ghost gray: set<V>)
      requires Respects(edge, reach) && Inv(universe, edge, reach, marks, gray)
      requires Stacked(stack, marks.onStack) && Reported(marks)
      requires node in universe && node !in marks.index
      requires forall x :: x in gray ==> reach(x, node)
      modifies this`marks, this`stack
      ensures stack == old(stack) + [node]
      ensures Scanning(universe, edge, reach, old(marks), marks, node, {}, gray)
      ensures Stacked(stack, marks.onStack) && Reported(marks)
    {
      var entered := Marks(marks.next + 1, marks.index[node := marks.next], marks.low[node := marks.next],
                           marks.onStack + {node});
      EnterVisit(universe, edge, reach, marks, entered, node, gray);
      StackedMore(stack, marks.onStack, node);
      stack := stack + [node];
      marks := entered;
    }

    /** The end of a visit: unless its low link is its own number, the file stays stacked;
        else its component is popped, and reported when it has more than one file or imports itself. */
    method Leave(node: V, ghost s0: Marks<V>, ghost base: seq<V>, ghost gray: set<V>) returns (ok: bool)
      requires Fits()
      requires Inv(universe, edge, reach, s0, gray)
      requires Scanning(universe, edge, reach, s0, marks, node, Elements(Next(graph, node)), gray)
      requires Stacked(stack, marks.onStack) && Reported(marks)
      requires base + [node] <= stack && Stacked(base, s0.onStack)
      modifies this
      ensures !ok ==> SomeFalsy()
      ensures ok ==> Inv(universe, edge, reach, marks, gray)
      ensures ok ==> Stacked(stack, marks.onStack) && Reported(marks)
      ensures ok ==> base <= stack && old(log) <= log && (node in marks.onStack || Rooted(log, node))
      ensures ok ==> Extends(s0, marks) && Visited(edge, reach, s0, marks, node)
    {
      ok := true;
      ghost var done := Elements(Next(graph, node));
      assert Successors(node, Next(graph, node));
      if marks.low[node] != marks.index[node] {
        LeaveStacked(universe, edge, reach, s0, marks, node, done, gray);
        return;
      }
      TopIsScc(universe, edge, reach, s0, marks, node, done, gray);
      LeavePopped(universe, edge, reach, s0, marks, node, done, gray, marks.(onStack := s0.onStack));
      ClosedSettles(edge, reach, Closed(marks.(onStack := s0.onStack)));
      ok := Close(node, s0, base);
    }

    /** Popping the component of `node` and reporting it. */
    method Close(node: V, ghost s0: Marks<V>, ghost base: seq<V>) returns (ok: bool)
      requires Stacked(stack, marks.onStack) && Reported(marks)
      requires base + [node] <= stack && Stacked(base, s0.onStack)
      requires marks.onStack <= universe && marks.onStack <= marks.index.Keys
      requires s0.onStack <= marks.onStack && IsScc(reach, marks.onStack - s0.onStack)
      requires Settled(reach, Closed(marks.(onStack := s0.onStack)))
      modifies this
      ensures !ok ==> SomeFalsy()
      ensures ok ==> stack == base && marks == old(marks).(onStack := s0.onStack)
      ensures ok ==> Reported(marks) && old(log) <= log && Rooted(log, node)
    {
      ghost var s := marks;
      var component;
      ok, component := PopDown(node, base);
      if !ok { return; }
      Record(node, component, s);
    }

    /** A popped component joins the list if it carries a cycle. */
    method Record(node: V, component: seq<V>, ghost s: Marks<V>)
      requires Reported(s)
      requires Distinct(component) && EndsWith(component, node) && IsScc(reach, Elements(component))
      requires forall v :: v in component ==> !falsy(v)
      requires marks.index == s.index && marks.onStack == s.onStack - Elements(component)
      requires Elements(component) <= s.onStack <= s.index.Keys && Settled(reach, Closed(marks))
      modifies this`components, this`log
      ensures Reported(marks) && old(log) <= log && Rooted(log, node)
    {
      ClosedMore(s, marks, Elements(component));
      LogMore(reach, falsy, log, node, component);
      ReportMore(graph, leq, log, node, component);
      if |component| > 1 || node in Next(graph, node) {
        components := components + [SortBy(leq, component)];
      }
      log := log + [Popped(node, component)];
      assert log[|log| - 1].root == node;
    }

    /** The loop over the imports of `node`. */
    method Scan(node: V, imports: seq<V>, ghost s0: Marks<V>, ghost base: seq<V>, ghost gray: set<V>)
      returns (ok: bool)
      requires Fits() && Successors(node, imports)
      requires Scanning(universe, edge, reach, s0, marks, node, {}, gray)
      requires Stacked(stack, marks.onStack) && Reported(marks)
      requires base + [node] <= stack && node in universe
      requires forall x :: x in gray ==> reach(x, node)
      modifies this
      ensures !ok ==> SomeFalsy()
      ensures ok ==> Scanning(universe, edge, reach, s0, marks, node, Elements(imports), gray)
      ensures ok ==> Stacked(stack, marks.onStack) && Reported(marks)
      ensures ok ==> base + [node] <= stack && old(log) <= log
      decreases universe - s0.index.Keys, 1
    {
      ok := true;
      for i := 0 to |imports|
        invariant Stacked(stack, marks.onStack) && Reported(marks)
        invariant base + [node] <= stack && old(log) <= log
        invariant Scanning(universe, edge, reach, s0, marks, node, Elements(imports[..i]), gray)
      {
        TakeElements(imports, i);
        ok := ScanOne(node, imports[i], s0, base, Elements(imports[..i]), gray);
        if !ok { return; }
      }
      TakeElements(imports, |imports|);
    }

    /** The body of that loop: visit a new import, or lower the link by a stacked one. */
    method ScanOne(
      node: V, next: V, ghost s0: Marks<V>, ghost base: seq<V>, ghost done: set<V>, ghost gray: set<V>)
      returns (ok: bool)
      requires Fits()
      requires Scanning(universe, edge, reach, s0, marks, node, done, gray)
      requires Stacked(stack, marks.onStack) && Reported(marks)
      requires base + [node] <= stack && edge(node, next) && next in universe
      requires forall x :: x in gray ==> reach(x, node)
      modifies this
      ensures !ok ==> SomeFalsy()
      ensures ok ==> Scanning(universe, edge, reach, s0, marks, node, done + {next}, gray)
      ensures ok ==> Stacked(stack, marks.onStack) && Reported(marks)
      ensures ok ==> base + [node] <= stack && old(log) <= log
      decreases universe - s0.index.Keys, 0
    {
      ok := true;
      ghost var s := marks;
      if next !in marks.index {
        ok := Visit(next, gray + {node});
        if !ok { return; }
        var lowered := marks.(low := marks.low[node := Min(marks.low[node], marks.low[next])]);
        FoldVisited(universe, edge, reach, s0, s, marks, node, done, gray, next, lowered);
        marks := lowered;
      } else if next in marks.onStack {
        var lowered := marks.(low := marks.low[node := Min(marks.low[node], marks.index[next])]);
        FoldStacked(universe, edge, reach, s0, s, node, done, gray, next, lowered);
        marks := lowered;
      } else {
        FoldClosed(universe, edge, reach, s0, s, node, done, gray, next);
      }
    }

    /** `stack.pop()` */
    method Pop() returns (current: Option<V>)
      modifies this`stack
      ensures old(stack) == [] ==> current == None && stack == []
      ensures old(stack) != [] ==> current.Some? && old(stack) == stack + [current.value]
    {
      if stack == [] {
        return None;
      }
      current := Some(stack[|stack| - 1]);
      stack := stack[..|stack| - 1];
    }

    /** The do-while loop that pops down to `node`. The stack never runs out: failure
        means that a falsy name was popped. */
    method PopDown(node: V, ghost base: seq<V>) returns (ok: bool, component: seq<V>)
      requires base + [node] <= stack && Stacked(stack, marks.onStack) && marks.onStack <= universe
      modifies this`stack, this`marks
      ensures !ok ==> SomeFalsy()
      ensures ok ==> stack == base && marks == old(marks).(onStack := Elements(base))
      ensures ok ==> Distinct(component) && EndsWith(component, node)
      ensures ok ==> Elements(component) == old(marks.onStack) - Elements(base)
      ensures ok ==> forall v :: v in component ==> !falsy(v)
    {
      ghost var full := stack;
      StackAbove(base, full);
      component := [];
      while true
        invariant base + [node] <= stack <= full
        invariant |component| == |full| - |stack|
        invariant forall j :: 0 <= j < |component| ==> component[j] == full[|full| - 1 - j] && !falsy(component[j])
        invariant marks == old(marks).(onStack := Elements(stack))
        decreases |stack|
      {
        var current := Pop();
        if current == None || falsy(current.value) {
          assert full[|stack|] in Elements(full);
          return false, component;
        }
        ElementsAppend(stack, current.value);
        assert current.value == full[|stack|];
        assert forall i :: 0 <= i < |stack| ==> stack[i] == full[i] != full[|stack|];
        marks := marks.(onStack := marks.onStack - {current.value});
        component := component + [current.value];
        if current.value == node {
          break;
        }
      }
      assert full[|base|] == node == full[|stack|] && stack == base;
      Reversal(full, base, component);
      ok := true;
    }
  }

  /** The whole function up to its final sort: every unvisited key starts a visit. It throws
      exactly when some file has a falsy name, so never for lack of a stack. */
  method CollectComponents<V(==, !new)>(graph: Graph<V>, leq: (V, V) -> bool, falsy: V -> bool)
    returns (r: Result<seq<seq<V>>, string>)
    requires TotalPreorder(leq) && IsMap(graph)
    ensures r.Ok? <==> forall v :: v in Vertices(graph) ==> !falsy(v)
    ensures r.Ok? ==> FoundIn(graph, leq, r.value)
  {
    var search := new SccSearch(graph, leq, falsy);
    SearchFits(search);
    var ok := search.VisitAll();
    if !ok {
      return Err("Import cycle stack underflow");
    }
    Concluded(graph, leq, falsy, search.log);
    return Ok(search.components);
  }

  lemma {:induction false} SearchFits<V(!new)>(search: SccSearch<V>)
    requires search.universe == Vertices(search.graph)
    requires search.edge == Imports(search.graph) && search.reach == Reachability(search.graph)
    ensures search.Fits()
    ensures search.marks == Marks(0, map[], map[], {}) ==>
      Inv(search.universe, search.edge, search.reach, search.marks, {})
  {
    var g := search.graph;
    ReachabilityRespects(g);
    forall a ensures search.Successors(a, Next(g, a)) {
      forall b | b in Elements(Next(g, a)) ensures b in Vertices(g) {
        NextIsVertex(g, a, b);
      }
    }
  }
}
