/** The low-link argument behind Tarjan's algorithm, over the numbers a search hands out
    and the set of files on its stack. `edge` and `reach` are arbitrary relations that fit
    together, so nothing here looks inside a path. */
module LowLinks {
  import opened ImportGraph

  /** The numbering state of the search. */
  datatype Marks<V(==)> = Marks(next: nat, index: map<V, nat>, low: map<V, nat>, onStack: set<V>)

  /** Files whose component has been popped. */
  ghost function Closed<V>(m: Marks<V>): set<V> {
    m.index.Keys - m.onStack
  }

  /** What the argument needs to know about reachability. */
  ghost predicate Respects<V(!new)>(edge: (V, V) -> bool, reach: (V, V) -> bool) {
    && Preorder(reach)
    && (forall a, b {:trigger edge(a, b)} :: edge(a, b) ==> reach(a, b))
    && (forall s, a, b {:trigger ClosedUnder(edge, s), reach(a, b)} ::
          ClosedUnder(edge, s) && a in s && reach(a, b) ==> b in s)
  }

  ghost predicate Numbered<V(!new)>(universe: set<V>, m: Marks<V>) {
    && m.low.Keys == m.index.Keys
    && m.index.Keys <= universe
    && m.onStack <= m.index.Keys
    && (forall v {:trigger m.index[v]} :: v in m.index ==> m.index[v] < m.next)
  }

  /** A stacked file and the caller it reaches at or below itself. */
  ghost predicate Anchor<V(!new)>(reach: (V, V) -> bool, m: Marks<V>, gray: set<V>, y: V, x: V) {
    x in gray && y in m.index && x in m.index && m.index[x] <= m.index[y] && reach(y, x)
  }

  ghost predicate Anchored<V(!new)>(reach: (V, V) -> bool, m: Marks<V>, gray: set<V>, y: V) {
    exists x :: Anchor(reach, m, gray, y, x)
  }

  /** The invariant every visit keeps; `gray` is the set of visits in progress.
      Popped files import only popped files; finished files import only visited ones;
      the stack is ordered by reachability; and each stacked file reaches a caller. */
  ghost predicate Inv<V(!new)>(
    universe: set<V>, edge: (V, V) -> bool, reach: (V, V) -> bool, m: Marks<V>, gray: set<V>)
  {
    && Numbered(universe, m)
    && gray <= m.onStack
    && ClosedUnder(edge, Closed(m))
    && (forall x, y {:trigger edge(x, y)} :: x in m.index && x !in gray && edge(x, y) ==> y in m.index)
    && (forall x, y {:trigger reach(x, y)} ::
          x in m.onStack && y in m.onStack && m.index[x] <= m.index[y] ==> reach(x, y))
    && (forall y {:trigger Anchored(reach, m, gray, y)} :: y in m.onStack ==> Anchored(reach, m, gray, y))
  }

  /** What a visit leaves alone. */
  ghost predicate Extends<V(!new)>(s: Marks<V>, t: Marks<V>) {
    && s.next <= t.next
    && s.index.Keys <= t.index.Keys && s.low.Keys <= t.low.Keys
    && (forall v {:trigger t.index[v]} {:trigger s.index[v]} :: v in s.index ==> t.index[v] == s.index[v])
    && (forall v {:trigger t.low[v]} {:trigger s.low[v]} :: v in s.low ==> t.low[v] == s.low[v])
    && (forall v {:trigger t.index[v]} :: v in t.index && v !in s.index ==> s.next <= t.index[v])
    && s.onStack <= t.onStack
    && Closed(s) <= Closed(t)
  }

  /** A low link is the number of a stacked file that the visited file reaches. */
  ghost predicate LowWitness<V(!new)>(reach: (V, V) -> bool, m: Marks<V>, node: V, y: V) {
    node in m.low && y in m.onStack && y in m.index && m.low[node] == m.index[y] && reach(node, y)
  }

  /** `low` does not exceed the number of any file of `base` imported from `above`. */
  ghost predicate Bounds<V(!new)>(edge: (V, V) -> bool, m: Marks<V>, above: set<V>, base: set<V>, low: nat) {
    forall y, z {:trigger edge(y, z)} :: edge(y, z) && y in above && z in base && z in m.index ==> low <= m.index[z]
  }

  /** Every file numbered in between is one that `node` reaches. */
  ghost predicate Below<V(!new)>(reach: (V, V) -> bool, s: Marks<V>, t: Marks<V>, node: V) {
    forall v {:trigger reach(node, v)} :: v in t.index.Keys - s.index.Keys ==> reach(node, v)
  }

  /** What a completed visit of `node` promises its caller. */
  ghost predicate Visited<V(!new)>(
    edge: (V, V) -> bool, reach: (V, V) -> bool, s: Marks<V>, t: Marks<V>, node: V)
  {
    && node in t.index && node in t.low && Below(reach, s, t, node)
    && (node in t.onStack ==> exists y :: LowWitness(reach, t, node, y))
    && (node !in t.onStack ==> t.low[node] == t.index[node])
    && Bounds(edge, t, t.onStack - s.onStack, s.onStack, t.low[node])
  }

  /** The loop over the imports of `node` with `done` behind it; `s0` is the state at the call. */
  ghost predicate Scanning<V(!new)>(
    universe: set<V>, edge: (V, V) -> bool, reach: (V, V) -> bool,
    s0: Marks<V>, s: Marks<V>, node: V, done: set<V>, gray: set<V>)
  {
    && Numbered(universe, s0) && node !in s0.index && gray <= s0.onStack
    && Inv(universe, edge, reach, s, gray + {node})
    && Extends(s0, s) && Below(reach, s0, s, node)
    && node in s.onStack && s.index[node] == s0.next
    && s.low[node] <= s.index[node]
    && (exists y :: LowWitness(reach, s, node, y))
    && done <= s.index.Keys
    && (forall z :: z in done && z in s0.onStack ==> s.low[node] <= s.index[z])
    && Bounds(edge, s, s.onStack - s0.onStack - {node}, s0.onStack, s.low[node])
  }

  function Min(a: nat, b: nat): nat {
    if a < b then a else b
  }

  // ----- one lemma for each step of a visit

  lemma {:induction false} AnchorOf<V(!new)>(
    universe: set<V>, edge: (V, V) -> bool, reach: (V, V) -> bool, m: Marks<V>, gray: set<V>, y: V)
    returns (x: V)
    requires Inv(universe, edge, reach, m, gray) && y in m.onStack
    ensures Anchor(reach, m, gray, y, x)
  {
    assert Anchored(reach, m, gray, y);
    x :| Anchor(reach, m, gray, y, x);
  }

  /** Numbering a new file and stacking it. */
  lemma {:induction false} EnterVisit<V(!new)>(
    universe: set<V>, edge: (V, V) -> bool, reach: (V, V) -> bool,
    s: Marks<V>, t: Marks<V>, node: V, gray: set<V>)
    requires Respects(edge, reach) && Inv(universe, edge, reach, s, gray)
    requires node in universe && node !in s.index
    requires forall x :: x in gray ==> reach(x, node)
    requires t == Marks(s.next + 1, s.index[node := s.next], s.low[node := s.next], s.onStack + {node})
    ensures Scanning(universe, edge, reach, s, t, node, {}, gray) && Closed(t) == Closed(s)
  {
    assert Closed(t) == Closed(s);
    forall y | y in s.onStack ensures reach(y, node) {
      var x := AnchorOf(universe, edge, reach, s, gray, y);
    }
    forall y {:trigger Anchored(reach, t, gray + {node}, y)} | y in t.onStack
      ensures Anchored(reach, t, gray + {node}, y)
    {
      if y == node {
        assert Anchor(reach, t, gray + {node}, y, node);
      } else {
        var x := AnchorOf(universe, edge, reach, s, gray, y);
        assert Anchor(reach, t, gray + {node}, y, x);
      }
    }
    assert LowWitness(reach, t, node, node);
  }

  lemma {:induction false} BelowMore<V(!new)>(
    reach: (V, V) -> bool, s0: Marks<V>, s: Marks<V>, t: Marks<V>, node: V, child: V)
    requires Preorder(reach) && reach(node, child)
    requires Below(reach, s0, s, node) && Below(reach, s, t, child)
    ensures Below(reach, s0, t, node)
  {
    forall v {:trigger reach(node, v)} | v in t.index.Keys - s0.index.Keys ensures reach(node, v) {
      assert v !in s.index.Keys ==> reach(child, v);
    }
  }

  /** Returning from the visit of a new import. */
  lemma {:induction false} FoldVisited<V(!new)>(
    universe: set<V>, edge: (V, V) -> bool, reach: (V, V) -> bool,
    s0: Marks<V>, s: Marks<V>, t: Marks<V>, node: V, done: set<V>, gray: set<V>, child: V, u: Marks<V>)
    requires Respects(edge, reach)
    requires Scanning(universe, edge, reach, s0, s, node, done, gray)
    requires edge(node, child) && child !in s.index
    requires Inv(universe, edge, reach, t, gray + {node}) && Extends(s, t) && Visited(edge, reach, s, t, child)
    requires u == t.(low := t.low[node := Min(t.low[node], t.low[child])])
    ensures Scanning(universe, edge, reach, s0, u, node, done + {child}, gray) && Closed(u) == Closed(t)
  {
    assert t.low[node] == s.low[node] && Closed(u) == Closed(t);
    BelowMore(reach, s0, s, t, node, child);
    KeepsInv(universe, edge, reach, t, u, gray + {node});
    var y0 :| LowWitness(reach, s, node, y0);
    if child in t.onStack {
      var y :| LowWitness(reach, t, child, y);
      assert reach(node, child);
      assert LowWitness(reach, u, node, if t.low[node] < t.low[child] then y0 else y);
    } else {
      assert LowWitness(reach, u, node, y0);
    }
  }

  /** Only low links differ, so the invariant carries over. */
  lemma {:induction false} KeepsInv<V(!new)>(
    universe: set<V>, edge: (V, V) -> bool, reach: (V, V) -> bool, s: Marks<V>, t: Marks<V>, gray: set<V>)
    requires Inv(universe, edge, reach, s, gray)
    requires t == s.(low := t.low) && t.low.Keys == s.low.Keys
    ensures Inv(universe, edge, reach, t, gray)
  {
    assert Closed(t) == Closed(s);
    forall y {:trigger Anchored(reach, t, gray, y)} | y in t.onStack
      ensures Anchored(reach, t, gray, y)
    {
      var x := AnchorOf(universe, edge, reach, s, gray, y);
      assert Anchor(reach, t, gray, y, x);
    }
  }

  /** An import that is still on the stack. */
  lemma {:induction false} FoldStacked<V(!new)>(
    universe: set<V>, edge: (V, V) -> bool, reach: (V, V) -> bool,
    s0: Marks<V>, s: Marks<V>, node: V, done: set<V>, gray: set<V>, next: V, u: Marks<V>)
    requires Respects(edge, reach)
    requires Scanning(universe, edge, reach, s0, s, node, done, gray)
    requires edge(node, next) && next in s.onStack
    requires u == s.(low := s.low[node := Min(s.low[node], s.index[next])])
    ensures Scanning(universe, edge, reach, s0, u, node, done + {next}, gray) && Closed(u) == Closed(s)
  {
    KeepsInv(universe, edge, reach, s, u, gray + {node});
    var y0 :| LowWitness(reach, s, node, y0);
    assert LowWitness(reach, u, node, if s.low[node] < s.index[next] then y0 else next);
  }

  /** An import whose component has been popped. */
  lemma {:induction false} FoldClosed<V(!new)>(
    universe: set<V>, edge: (V, V) -> bool, reach: (V, V) -> bool,
    s0: Marks<V>, s: Marks<V>, node: V, done: set<V>, gray: set<V>, next: V)
    requires Scanning(universe, edge, reach, s0, s, node, done, gray)
    requires next in s.index && next !in s.onStack
    ensures Scanning(universe, edge, reach, s0, s, node, done + {next}, gray)
  {
  }

  /** Every import from the new part of the stack into the old one is bounded by the low link. */
  lemma {:induction false} ScannedBounds<V(!new)>(
    universe: set<V>, edge: (V, V) -> bool, reach: (V, V) -> bool,
    s0: Marks<V>, s: Marks<V>, node: V, done: set<V>, gray: set<V>)
    requires Scanning(universe, edge, reach, s0, s, node, done, gray)
    requires forall z :: edge(node, z) ==> z in done
    ensures Bounds(edge, s, s.onStack - s0.onStack, s0.onStack, s.low[node])
  {
  }

  /** A visit that ends below its own number leaves its files stacked, anchored at an older caller. */
  lemma {:induction false} LeaveStacked<V(!new)>(
    universe: set<V>, edge: (V, V) -> bool, reach: (V, V) -> bool,
    s0: Marks<V>, s: Marks<V>, node: V, done: set<V>, gray: set<V>)
    requires Respects(edge, reach)
    requires Scanning(universe, edge, reach, s0, s, node, done, gray)
    requires forall z :: edge(node, z) ==> z in done
    requires s.low[node] != s.index[node]
    ensures Inv(universe, edge, reach, s, gray) && Visited(edge, reach, s0, s, node)
  {
    ScannedBounds(universe, edge, reach, s0, s, node, done, gray);
    var y0 :| LowWitness(reach, s, node, y0);
    var x0 := AnchorOf(universe, edge, reach, s, gray + {node}, y0);
    forall y {:trigger Anchored(reach, s, gray, y)} | y in s.onStack
      ensures Anchored(reach, s, gray, y)
    {
      var x := AnchorOf(universe, edge, reach, s, gray + {node}, y);
      assert Anchor(reach, s, gray, y, if x == node then x0 else x);
    }
  }

  /** The new part of the stack, when the low link is the file's own number, is a component. */
  lemma {:induction false} TopIsScc<V(!new)>(
    universe: set<V>, edge: (V, V) -> bool, reach: (V, V) -> bool,
    s0: Marks<V>, s: Marks<V>, node: V, done: set<V>, gray: set<V>)
    requires Respects(edge, reach)
    requires Scanning(universe, edge, reach, s0, s, node, done, gray)
    requires forall z :: edge(node, z) ==> z in done
    requires s.low[node] == s.index[node]
    ensures IsScc(reach, s.onStack - s0.onStack)
    ensures ClosedUnder(edge, s.index.Keys - s0.onStack)
  {
    var top := s.onStack - s0.onStack;
    ScannedBounds(universe, edge, reach, s0, s, node, done, gray);
    forall a | a in top ensures reach(a, node) && reach(node, a) {
      var x := AnchorOf(universe, edge, reach, s, gray + {node}, a);
      assert reach(x, node);
      assert a !in s0.index && reach(node, a);
    }
    var all := s.index.Keys - s0.onStack;
    assert ClosedUnder(edge, all) by {
      forall a, b | a in all && edge(a, b) ensures b in all {
        if a !in top {
          assert a in Closed(s) && b in Closed(s);
        }
      }
    }
    forall a, b | a in top && reach(a, b) && reach(b, a) ensures b in top {
      assert b in all;
      assert b in Closed(s) ==> a in Closed(s);
    }
    assert node in top;
  }

  /** Popping it restores the caller's stack. */
  lemma {:induction false} LeavePopped<V(!new)>(
    universe: set<V>, edge: (V, V) -> bool, reach: (V, V) -> bool,
    s0: Marks<V>, s: Marks<V>, node: V, done: set<V>, gray: set<V>, t: Marks<V>)
    requires Respects(edge, reach)
    requires Inv(universe, edge, reach, s0, gray)
    requires Scanning(universe, edge, reach, s0, s, node, done, gray)
    requires forall z :: edge(node, z) ==> z in done
    requires s.low[node] == s.index[node]
    requires t == s.(onStack := s0.onStack)
    ensures Inv(universe, edge, reach, t, gray) && Extends(s0, t) && Visited(edge, reach, s0, t, node)
    ensures Closed(t) == Closed(s) + (s.onStack - s0.onStack)
  {
    TopIsScc(universe, edge, reach, s0, s, node, done, gray);
    assert Closed(t) == s.index.Keys - s0.onStack;
    forall y {:trigger Anchored(reach, t, gray, y)} | y in t.onStack
      ensures Anchored(reach, t, gray, y)
    {
      var x := AnchorOf(universe, edge, reach, s0, gray, y);
      assert Anchor(reach, t, gray, y, x);
    }
  }

  /** With no visit in progress there is no caller to reach, so nothing is stacked. */
  lemma {:induction false} NothingStacked<V(!new)>(
    universe: set<V>, edge: (V, V) -> bool, reach: (V, V) -> bool, m: Marks<V>)
    requires Inv(universe, edge, reach, m, {})
    ensures m.onStack == {}
  {
    if m.onStack != {} {
      var y :| y in m.onStack;
      var x := AnchorOf(universe, edge, reach, m, {}, y);
    }
  }
}
