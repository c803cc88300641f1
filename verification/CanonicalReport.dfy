/** When the report of the cycle scripts is canonical: the same files with the same imports give the
    identical report, whatever the order of keys, the order of imports and repeated imports. */
module CanonicalReport {
  import opened JsText
  import opened Sorting
  import opened StableSorting
  import opened ImportGraph
  import opened PoppedLog
  import opened CycleReport

  /** Two files on one cycle whose names the comparison ties. */
  ghost predicate TiedNames(g: Graph<string>, leq: (string, string) -> bool) {
    exists u, v :: Tied(leq, u, v) && Reach(g, u, v) && Reach(g, v, u)
  }

  ghost predicate Leads(g: Graph<string>, c: seq<string>, d: seq<string>) {
    exists a, b :: a in c && b in d && Reach(g, a, b)
  }

  /** Two cyclic components that the final sort ties, neither importing the other. */
  ghost predicate Apart(g: Graph<string>, leq: (string, string) -> bool, c: seq<string>, d: seq<string>) {
    && IsListing(g, leq, c) && IsListing(g, leq, d)
    && Tied(BySizeThenName(leq), c, d)
    && !Leads(g, c, d) && !Leads(g, d, c)
  }

  ghost predicate TiedComponents(g: Graph<string>, leq: (string, string) -> bool) {
    exists c, d :: Apart(g, leq, c, d)
  }

  /** Every graph with the same files and imports has this report. */
  ghost predicate Canonical(g: Graph<string>, leq: (string, string) -> bool, r: seq<seq<string>>) {
    forall h, s :: SameRelation(g, h) && IsMap(h) && ScriptReport(h, leq, s) ==> s == r
  }

  /** Some graph with the same files and imports has a report, and never this one. */
  ghost predicate Depends(g: Graph<string>, leq: (string, string) -> bool, r: seq<seq<string>>) {
    exists h :: SameRelation(g, h) && IsMap(h) && OtherReport(h, leq, r)
  }

  ghost predicate OtherReport(h: Graph<string>, leq: (string, string) -> bool, r: seq<seq<string>>) {
    && (exists s :: ScriptReport(h, leq, s))
    && (forall s :: ScriptReport(h, leq, s) ==> s != r)
  }

  // ----- listings of the same relation

  lemma {:induction false} NoTiesInside(g: Graph<string>, leq: (string, string) -> bool, c: seq<string>)
    requires !TiedNames(g, leq) && IsListing(g, leq, c)
    ensures AntisymmetricOn(leq, Elements(c))
  {
    forall a, b | a in Elements(c) && b in Elements(c) && leq(a, b) && leq(b, a) ensures a == b {
      assert Reachability(g)(a, b) && Reachability(g)(b, a);
      assert a != b ==> Tied(leq, a, b);
    }
  }

  lemma {:induction false} ListedIn(
    g: Graph<string>, leq: (string, string) -> bool, c: seq<string>, s: seq<seq<string>>)
    requires IsMap(g) && !TiedNames(g, leq)
    requires IsListing(g, leq, c) && ListsCycles(g, leq, s)
    ensures c in s
  {
    var v :| v in Elements(c) && ReachPlus(g, v, v);
    OnCycleIsVertex(g, v);
    assert Listed(s, v) by { assert OnCycle(g)(v); }
    var i :| 0 <= i < |s| && v in s[i];
    assert IsListing(g, leq, s[i]);
    SccUnique(Reachability(g), Elements(c), Elements(s[i]), v);
    NoTiesInside(g, leq, c);
    SortedListingUnique(leq, c, s[i]);
  }

  lemma {:induction false} SameVertices(g: Graph<string>, h: Graph<string>)
    requires SameRelation(g, h) && IsMap(g) && IsMap(h)
    ensures Vertices(g) == Vertices(h)
  {
    forall v ensures v in Vertices(g) <==> v in Vertices(h) {
      if v in Vertices(g) && v !in g.keys {
        var k :| k in g.imports && v in g.imports[k];
        assert v in Next(g, k) && v in Next(h, k);
        NextIsVertex(h, k, v);
      }
      if v in Vertices(h) && v !in h.keys {
        var k :| k in h.imports && v in h.imports[k];
        assert v in Next(h, k) && v in Next(g, k);
        NextIsVertex(g, k, v);
      }
    }
  }

  lemma {:induction false} SameListing(
    g: Graph<string>, h: Graph<string>, leq: (string, string) -> bool, c: seq<string>)
    requires SameRelation(g, h) && IsListing(g, leq, c)
    ensures IsListing(h, leq, c)
  {
    SameCyclicScc(g, h, Elements(c));
  }

  lemma {:induction false} SameOnCycle(g: Graph<string>, h: Graph<string>, v: string)
    requires SameRelation(g, h) && ReachPlus(g, v, v)
    ensures ReachPlus(h, v, v)
  {
    var c :| c in Next(g, v) && Reach(g, c, v);
    SameReach(g, h, c, v);
    assert c in Next(h, v) && Reach(h, c, v);
  }

  lemma {:induction false} SameTiedNames(g: Graph<string>, h: Graph<string>, leq: (string, string) -> bool)
    requires SameRelation(g, h) && TiedNames(h, leq)
    ensures TiedNames(g, leq)
  {
    var u, v :| Tied(leq, u, v) && Reach(h, u, v) && Reach(h, v, u);
    SameReach(g, h, u, v);
    SameReach(g, h, v, u);
  }

  /** A list of components for one graph is one for the other. */
  lemma {:induction false} SameLists(
    g: Graph<string>, h: Graph<string>, leq: (string, string) -> bool, f: seq<seq<string>>)
    requires SameRelation(g, h) && IsMap(g) && IsMap(h)
    requires ListsCycles(g, leq, f) && ImportsFirst(Reachability(g), f)
    ensures ListsCycles(h, leq, f) && ImportsFirst(Reachability(h), f)
  {
    SameVertices(g, h);
    forall i | 0 <= i < |f| ensures IsListing(h, leq, f[i]) {
      assert Listing(g, leq)(f[i]);
      SameListing(g, h, leq, f[i]);
    }
    forall v {:trigger Listed(f, v)} | v in Vertices(h) && OnCycle(h)(v) ensures Listed(f, v) {
      SameOnCycle(h, g, v);
      assert OnCycle(g)(v);
    }
    var reach := Reachability(h);
    forall i, j, a, b {:trigger reach(a, b), f[i], f[j]}
      | 0 <= i < j < |f| && a in f[i] && b in f[j] ensures !reach(a, b)
    {
      SameReach(g, h, a, b);
      assert !Reachability(g)(a, b);
    }
  }

  // ----- without ties the report is canonical

  lemma {:induction false} ListingsDistinct(g: Graph<string>, leq: (string, string) -> bool, r: seq<seq<string>>)
    requires ListsCycles(g, leq, r)
    ensures Distinct(r)
  {
    forall i, j | 0 <= i < j < |r| ensures r[i] != r[j] {
      assert IsListing(g, leq, r[i]);
      var v :| v in Elements(r[i]);
    }
  }

  lemma {:induction false} SameComponents(
    g: Graph<string>, leq: (string, string) -> bool, f: seq<seq<string>>, s: seq<seq<string>>)
    requires IsMap(g) && !TiedNames(g, leq)
    requires ListsCycles(g, leq, f) && ListsCycles(g, leq, s)
    ensures Elements(f) == Elements(s)
  {
    forall c ensures c in f <==> c in s {
      if c in f {
        assert Listing(g, leq)(c);
        ListedIn(g, leq, c, s);
      }
      if c in s {
        assert Listing(g, leq)(c);
        ListedIn(g, leq, c, f);
      }
    }
  }

  lemma {:induction false} LeadsBack(g: Graph<string>, cs: seq<seq<string>>, c: seq<string>, d: seq<string>)
    requires ImportsFirst(Reachability(g), cs) && Before(cs, c, d)
    ensures !Leads(g, c, d)
  {
    var i, j :| 0 <= i < j < |cs| && cs[i] == c && cs[j] == d;
    forall a, b | a in c && b in d ensures !Reach(g, a, b) {
      assert Reachability(g)(a, b) == Reach(g, a, b);
    }
  }

  /** Imports fix the order of two components that tie. */
  lemma {:induction false} OrderedByImports(
    g: Graph<string>, leq: (string, string) -> bool, f: seq<seq<string>>, s: seq<seq<string>>,
    c: seq<string>, d: seq<string>)
    requires !TiedComponents(g, leq) && Tied(BySizeThenName(leq), c, d)
    requires ListsCycles(g, leq, f) && ImportsFirst(Reachability(g), f) && Before(f, c, d)
    requires Distinct(s) && ImportsFirst(Reachability(g), s) && c in s && d in s
    ensures Before(s, c, d)
  {
    BeforeIn(f, c, d);
    assert Listing(g, leq)(c) && Listing(g, leq)(d);
    LeadsBack(g, f, c, d);
    assert !Apart(g, leq, c, d);
    OneOrder(s, c, d);
    if Before(s, d, c) {
      LeadsBack(g, s, d, c);
    }
  }

  lemma {:induction false} SameReport(
    g: Graph<string>, h: Graph<string>, leq: (string, string) -> bool, f: seq<seq<string>>, s: seq<seq<string>>)
    requires TotalPreorder(leq) && SameRelation(g, h) && IsMap(g) && IsMap(h)
    requires !TiedNames(g, leq) && !TiedComponents(g, leq)
    requires FoundIn(g, leq, f) && FoundIn(h, leq, s)
    ensures SortBy(BySizeThenName(leq), f) == SortBy(BySizeThenName(leq), s)
  {
    SameLists(h, g, leq, s);
    SameComponents(g, leq, f, s);
    ListingsDistinct(g, leq, f);
    ListingsDistinct(g, leq, s);
    forall c, d {:trigger Before(f, c, d)} | Tied(BySizeThenName(leq), c, d) && Before(f, c, d)
      ensures Before(s, c, d)
    {
      BeforeIn(f, c, d);
      assert c in Elements(s) && d in Elements(s);
      OrderedByImports(g, leq, f, s, c, d);
    }
    OrderIsPreorder(leq);
    SortSame(BySizeThenName(leq), f, s);
  }

  // ----- any list of the components with imports first can be put into the order of given keys

  ghost function FirstMet(reach: (string, string) -> bool, keys: seq<string>): (seq<string>, seq<string>) -> bool {
    (c, d) => forall n {:trigger keys[..n]} ::
      0 <= n <= |keys| && Meets(reach, keys[..n], d) ==> Meets(reach, keys[..n], c)
  }

  lemma {:induction false} MeetsMore(reach: (string, string) -> bool, keys: seq<string>, m: nat, n: nat, c: seq<string>)
    requires m <= n <= |keys| && Meets(reach, keys[..m], c)
    ensures Meets(reach, keys[..n], c)
  {
    var v :| v in c && Reached(reach, keys[..m], v);
    var k :| k in keys[..m] && reach(k, v);
    assert k in keys[..n];
  }

  lemma {:induction false} MetLater(
    reach: (string, string) -> bool, keys: seq<string>, n: nat, m: nat, c: seq<string>, d: seq<string>)
    requires n <= |keys| && m <= |keys| && Meets(reach, keys[..n], d) && !Meets(reach, keys[..n], c)
    requires Meets(reach, keys[..m], c)
    ensures Meets(reach, keys[..m], d)
  {
    if n <= m {
      MeetsMore(reach, keys, n, m, d);
    } else {
      MeetsMore(reach, keys, m, n, c);
    }
  }

  lemma {:induction false} FirstMetIsPreorder(reach: (string, string) -> bool, keys: seq<string>)
    ensures TotalPreorder(FirstMet(reach, keys))
  {
    var order := FirstMet(reach, keys);
    forall c, d ensures order(c, d) || order(d, c) {
      if n :| 0 <= n <= |keys| && Meets(reach, keys[..n], d) && !Meets(reach, keys[..n], c) {
        forall m {:trigger keys[..m]} | 0 <= m <= |keys| && Meets(reach, keys[..m], c)
          ensures Meets(reach, keys[..m], d)
        {
          MetLater(reach, keys, n, m, c, d);
        }
      }
    }
  }

  /** Whatever meets a component meets all that the component leads to. */
  lemma {:induction false} MeetsFurther(
    g: Graph<string>, leq: (string, string) -> bool, keys: seq<string>, c: seq<string>, d: seq<string>,
    a: string, b: string)
    requires IsListing(g, leq, c) && a in c && b in d && Reach(g, a, b)
    ensures FirstMet(Reachability(g), keys)(d, c)
  {
    var reach := Reachability(g);
    forall n {:trigger keys[..n]} | 0 <= n <= |keys| && Meets(reach, keys[..n], c) ensures Meets(reach, keys[..n], d) {
      var v :| v in c && Reached(reach, keys[..n], v);
      var k :| k in keys[..n] && reach(k, v);
      assert v in Elements(c) && a in Elements(c) && reach(v, a);
      ReachTrans(g, k, v, a);
      ReachTrans(g, k, a, b);
      assert reach(k, b);
      assert Reached(reach, keys[..n], b);
    }
  }

  lemma {:induction false} Refound(h: Graph<string>, leq: (string, string) -> bool, f: seq<seq<string>>)
    returns (s: seq<seq<string>>)
    requires ListsCycles(h, leq, f) && ImportsFirst(Reachability(h), f) && StartLast(leq, h.keys, f)
    ensures FoundIn(h, leq, s)
  {
    var reach := Reachability(h);
    var order := FirstMet(reach, h.keys);
    s := SortBy(order, f);
    FirstMetIsPreorder(reach, h.keys);
    SortBySorted(order, f);
    ListsPermuted(Listing(h, leq), OnCycle(h), f, s, Vertices(h));
    SameMembers(s, f);
    forall i, j, a, b {:trigger reach(a, b), s[i], s[j]}
      | 0 <= i < j < |s| && a in s[i] && b in s[j] ensures !reach(a, b)
    {
      assert Before(s, s[i], s[j]) && Listing(h, leq)(s[i]);
      SortedBack(h, leq, f, s[i], s[j], a, b);
    }
  }

  lemma {:induction false} SortedBack(
    h: Graph<string>, leq: (string, string) -> bool, f: seq<seq<string>>,
    c: seq<string>, d: seq<string>, a: string, b: string)
    requires ImportsFirst(Reachability(h), f) && IsListing(h, leq, c) && a in c && b in d
    requires Before(SortBy(FirstMet(Reachability(h), h.keys), f), c, d)
    ensures !Reach(h, a, b)
  {
    if Reach(h, a, b) {
      MeetsFurther(h, leq, h.keys, c, d, a, b);
      Stable(FirstMet(Reachability(h), h.keys), f, c, d);
      LeadsBack(h, f, c, d);
    }
  }

  // ----- starting from another file

  /** The same graph with one key moved to the front. */
  function StartingAt(g: Graph<string>, p: nat): (h: Graph<string>)
    requires p < |g.keys|
  {
    Graph([g.keys[p]] + g.keys[..p] + g.keys[p + 1..], g.imports)
  }

  lemma {:induction false} PickedOut(s: seq<string>, p: nat)
    requires p < |s|
    ensures multiset(s[..p]) + multiset(s[p + 1..]) + multiset{s[p]} == multiset(s)
  {
    assert s == s[..p] + [s[p]] + s[p + 1..];
  }

  lemma {:induction false} StartingAtSame(g: Graph<string>, p: nat)
    requires IsMap(g) && p < |g.keys|
    ensures SameRelation(g, StartingAt(g, p)) && IsMap(StartingAt(g, p))
  {
    var keys := StartingAt(g, p).keys;
    PickedOut(g.keys, p);
    assert multiset(keys) == multiset(g.keys);
    SameMembers(keys, g.keys);
    assert Distinct(g.keys);
    DistinctByMultiset(g.keys);
    DistinctByMultiset(keys);
  }

  /** A file on a cycle has imports, so it is a key. */
  lemma {:induction false} KeyOf(g: Graph<string>, leq: (string, string) -> bool, c: seq<string>, v: string)
    returns (p: nat)
    requires IsMap(g) && IsListing(g, leq, c) && v in c
    ensures p < |g.keys| && g.keys[p] == v
  {
    assert v in Elements(c);
    EveryMemberCyclic(g, Elements(c), v);
    var w :| w in Next(g, v) && Reach(g, w, v);
    assert v in g.keys;
    p :| 0 <= p < |g.keys| && g.keys[p] == v;
  }

  // ----- tied names

  /** The component `f[k]` listed as a search that starts from its file `u` lists it. */
  lemma {:induction false} Relisted(
    g: Graph<string>, leq: (string, string) -> bool, f: seq<seq<string>>, k: nat, u: string)
    returns (s: seq<seq<string>>)
    requires TotalPreorder(leq) && ListsCycles(g, leq, f) && ImportsFirst(Reachability(g), f)
    requires k < |f| && u in f[k]
    ensures ListsCycles(g, leq, s) && ImportsFirst(Reachability(g), s)
    ensures StartLast(leq, [u], s)
  {
    assert Listing(g, leq)(f[k]);
    var c := ListedWithLast(leq, f[k], u);
    s := f[k := c];
    assert forall i :: 0 <= i < |f| ==> Elements(s[i]) == Elements(f[i]);
    SameElementsList(g, leq, f, s);
    assert u in Elements(c);
    OnlyListWith(s, k, u);
  }

  lemma {:induction false} OnlyListWith(s: seq<seq<string>>, k: nat, u: string)
    requires forall i, j :: 0 <= i < j < |s| ==> Elements(s[i]) !! Elements(s[j])
    requires k < |s| && u in s[k]
    ensures forall d :: d in s && u in d ==> d == s[k]
  {
    forall d | d in s && u in d ensures d == s[k] {
      var i :| 0 <= i < |s| && s[i] == d;
      assert u in Elements(s[i]) && u in Elements(s[k]);
    }
  }

  lemma {:induction false} ListedWithLast(leq: (string, string) -> bool, c: seq<string>, u: string)
    returns (d: seq<string>)
    requires TotalPreorder(leq) && Distinct(c) && u in c
    ensures Distinct(d) && Sorted(leq, d) && Elements(d) == Elements(c)
    ensures forall y :: y in d && Tied(leq, y, u) ==> Before(d, y, u)
  {
    var e := MovedLast(c, u);
    d := SortBy(leq, e);
    SortBySorted(leq, e);
    SortByKeepsDistinct(leq, e);
    SameMembers(d, e);
    forall y | y in d && Tied(leq, y, u) ensures Before(d, y, u) {
      LastInComponent(leq, e, u, y);
    }
  }

  lemma {:induction false} MovedLast(c: seq<string>, u: string) returns (e: seq<string>)
    requires Distinct(c) && u in c
    ensures Distinct(e) && EndsWith(e, u) && Elements(e) == Elements(c)
  {
    var p :| 0 <= p < |c| && c[p] == u;
    e := c[..p] + c[p + 1..] + [u];
    PickedOut(c, p);
    assert multiset(e) == multiset(c);
    DistinctByMultiset(c);
    DistinctByMultiset(e);
    SameMultisetSameElements(e, c);
  }

  lemma {:induction false} SameElementsList(
    g: Graph<string>, leq: (string, string) -> bool, f: seq<seq<string>>, s: seq<seq<string>>)
    requires ListsCycles(g, leq, f) && ImportsFirst(Reachability(g), f)
    requires |s| == |f| && forall i :: 0 <= i < |f| ==> Elements(s[i]) == Elements(f[i])
    requires forall i :: 0 <= i < |s| ==> Distinct(s[i]) && Sorted(leq, s[i])
    ensures ListsCycles(g, leq, s) && ImportsFirst(Reachability(g), s)
  {
    var reach := Reachability(g);
    forall i | 0 <= i < |s| ensures IsListing(g, leq, s[i]) {
      assert Listing(g, leq)(f[i]);
    }
    forall v {:trigger Listed(s, v)} | v in Vertices(g) && OnCycle(g)(v) ensures Listed(s, v) {
      assert Listed(f, v);
      var i :| 0 <= i < |f| && v in f[i];
      assert v in Elements(f[i]) && v in Elements(s[i]);
    }
    forall i, j, a, b {:trigger reach(a, b), s[i], s[j]}
      | 0 <= i < j < |s| && a in s[i] && b in s[j] ensures !reach(a, b)
    {
      assert a in Elements(f[i]) && b in Elements(f[j]);
    }
  }

  lemma {:induction false} ComponentOf(
    g: Graph<string>, leq: (string, string) -> bool, f: seq<seq<string>>, u: string, v: string) returns (k: nat)
    requires IsMap(g) && ListsCycles(g, leq, f)
    requires u != v && Reach(g, u, v) && Reach(g, v, u)
    ensures k < |f| && u in f[k] && v in f[k]
  {
    ReachSplits(g, u, v);
    var w :| w in Next(g, u) && Reach(g, w, v);
    ReachTrans(g, w, v, u);
    assert ReachPlus(g, u, u);
    OnCycleIsVertex(g, u);
    assert Listed(f, u) by { assert OnCycle(g)(u); }
    k :| 0 <= k < |f| && u in f[k];
    assert Listing(g, leq)(f[k]);
    assert u in Elements(f[k]) && Reachability(g)(u, v) && Reachability(g)(v, u);
    assert v in Elements(f[k]);
  }

  /** Started from the earlier of two tied names, the search lists it after the other. */
  lemma {:induction false} OtherListing(
    g: Graph<string>, leq: (string, string) -> bool, f: seq<seq<string>>, k: nat, u: string, v: string)
    requires TotalPreorder(leq) && IsMap(g) && FoundIn(g, leq, f)
    requires k < |f| && Tied(leq, u, v) && Before(f[k], u, v)
    ensures Depends(g, leq, SortBy(BySizeThenName(leq), f))
  {
    var c, order := f[k], BySizeThenName(leq);
    BeforeIn(c, u, v);
    assert Listing(g, leq)(c);
    var p := KeyOf(g, leq, c, u);
    var h := StartingAt(g, p);
    StartingAtSame(g, p);
    var again := Relisted(g, leq, f, k, u);
    SameLists(g, h, leq, again);
    StartsFrom(leq, h.keys, again, u);
    var found := Refound(h, leq, again);
    assert ScriptReport(h, leq, SortBy(order, found));
    OneOrder(c, u, v);
    SameMembers(SortBy(order, f), f);
    forall s | ScriptReport(h, leq, s) ensures c !in s {
      NotReported(h, leq, s, c, v, u);
    }
  }

  /** No report of a search that starts from `u` lists `u` before a file it ties with. */
  lemma {:induction false} NotReported(
    h: Graph<string>, leq: (string, string) -> bool, s: seq<seq<string>>, c: seq<string>, v: string, u: string)
    requires ScriptReport(h, leq, s) && h.keys != [] && h.keys[0] == u
    requires u in c && v in c && Tied(leq, v, u) && !Before(c, v, u)
    ensures c !in s
  {
    var found :| FoundIn(h, leq, found) && s == SortBy(BySizeThenName(leq), found);
    SameMembers(s, found);
  }

  lemma {:induction false} StartsFrom(leq: (string, string) -> bool, keys: seq<string>, cs: seq<seq<string>>, u: string)
    requires StartLast(leq, [u], cs) && keys != [] && keys[0] == u
    ensures StartLast(leq, keys, cs)
  {
    assert [u][0] == u;
  }

  lemma {:induction false} TiedNamesTell(
    g: Graph<string>, leq: (string, string) -> bool, f: seq<seq<string>>)
    requires TotalPreorder(leq) && IsMap(g) && FoundIn(g, leq, f) && TiedNames(g, leq)
    ensures Depends(g, leq, SortBy(BySizeThenName(leq), f))
  {
    var u, v :| Tied(leq, u, v) && Reach(g, u, v) && Reach(g, v, u);
    var k := ComponentOf(g, leq, f, u, v);
    assert Listing(g, leq)(f[k]);
    OneOrder(f[k], u, v);
    if Before(f[k], u, v) {
      OtherListing(g, leq, f, k, u, v);
    } else {
      OtherListing(g, leq, f, k, v, u);
    }
  }

  // ----- tied components

  /** Started from a file of `c`, the search finds `c` before a component it does not lead to. */
  lemma {:induction false} FoundBefore(
    h: Graph<string>, leq: (string, string) -> bool, f: seq<seq<string>>, c: seq<string>, d: seq<string>)
    requires FoundIn(h, leq, f) && c in f && d in f && c != d
    requires h.keys != [] && h.keys[0] in c && !Leads(h, c, d)
    ensures Before(f, c, d)
  {
    ListingsDistinct(h, leq, f);
    OneOrder(f, c, d);
    if Before(f, d, c) {
      MetFirst(h, f, c, d);
    }
  }

  lemma {:induction false} MetFirst(h: Graph<string>, f: seq<seq<string>>, c: seq<string>, d: seq<string>)
    requires InKeyOrder(Reachability(h), h.keys, f) && Before(f, d, c)
    requires h.keys != [] && h.keys[0] in c
    ensures Leads(h, c, d)
  {
    var reach, start := Reachability(h), h.keys[0];
    var i, j :| 0 <= i < j < |f| && f[i] == d && f[j] == c;
    assert h.keys[..1] == [start];
    ReachRefl(h, start);
    assert start in [start] && reach(start, start);
    assert Reached(reach, h.keys[..1], start);
    assert Meets(reach, h.keys[..1], f[j]);
    assert Meets(reach, h.keys[..1], f[i]);
    var v :| v in d && Reached(reach, [start], v);
    assert reach(start, v);
  }

  lemma {:induction false} OtherOrder(
    g: Graph<string>, leq: (string, string) -> bool, f: seq<seq<string>>, r: seq<seq<string>>,
    c: seq<string>, d: seq<string>)
    requires IsMap(g) && FoundIn(g, leq, f) && !TiedNames(g, leq)
    requires Apart(g, leq, c, d) && Before(r, d, c)
    ensures Depends(g, leq, r)
  {
    var h, own := FromComponent(g, leq, f, c);
    forall s | ScriptReport(h, leq, s) ensures s != r {
      InOneOrder(g, h, leq, s, c, d);
    }
    assert OtherReport(h, leq, r);
  }

  /** The same files and imports, searched from the component `c`, and a report of that search. */
  lemma {:induction false} FromComponent(
    g: Graph<string>, leq: (string, string) -> bool, f: seq<seq<string>>, c: seq<string>)
    returns (h: Graph<string>, s: seq<seq<string>>)
    requires IsMap(g) && FoundIn(g, leq, f) && !TiedNames(g, leq) && IsListing(g, leq, c)
    ensures SameRelation(g, h) && IsMap(h) && h.keys != [] && h.keys[0] in c && ScriptReport(h, leq, s)
  {
    assert c[0] in c by { NoElements(c); }
    var p := KeyOf(g, leq, c, c[0]);
    h := StartingAt(g, p);
    StartingAtSame(g, p);
    SameLists(g, h, leq, f);
    UntiedStart(g, h, leq, f);
    var found := Refound(h, leq, f);
    s := SortBy(BySizeThenName(leq), found);
  }

  lemma {:induction false} InOneOrder(
    g: Graph<string>, h: Graph<string>, leq: (string, string) -> bool, s: seq<seq<string>>,
    c: seq<string>, d: seq<string>)
    requires SameRelation(g, h) && IsMap(h) && !TiedNames(g, leq) && Apart(g, leq, c, d)
    requires ScriptReport(h, leq, s) && h.keys != [] && h.keys[0] in c
    ensures !Before(s, d, c)
  {
    var found :| FoundIn(h, leq, found) && s == SortBy(BySizeThenName(leq), found);
    InOrderOf(g, h, leq, found, c, d);
    ListingsDistinct(h, leq, found);
    SortByKeepsDistinct(BySizeThenName(leq), found);
    BeforeIn(s, c, d);
    OneOrder(s, c, d);
  }

  lemma {:induction false} UntiedStart(
    g: Graph<string>, h: Graph<string>, leq: (string, string) -> bool, f: seq<seq<string>>)
    requires SameRelation(g, h) && !TiedNames(g, leq) && ListsCycles(h, leq, f)
    ensures StartLast(leq, h.keys, f)
  {
    assert !TiedNames(h, leq) by {
      if TiedNames(h, leq) { SameTiedNames(g, h, leq); }
    }
    forall c, y {:trigger c in f, y in c} | h.keys != [] && c in f && h.keys[0] in c && y in c
      ensures !Tied(leq, y, h.keys[0])
    {
      assert Listing(h, leq)(c);
      NoTiesInside(h, leq, c);
      assert y in Elements(c) && h.keys[0] in Elements(c);
    }
  }

  lemma {:induction false} InOrderOf(
    g: Graph<string>, h: Graph<string>, leq: (string, string) -> bool, found: seq<seq<string>>,
    c: seq<string>, d: seq<string>)
    requires SameRelation(g, h) && IsMap(h) && !TiedNames(g, leq) && Apart(g, leq, c, d)
    requires FoundIn(h, leq, found) && h.keys != [] && h.keys[0] in c
    ensures Before(SortBy(BySizeThenName(leq), found), c, d)
  {
    assert !TiedNames(h, leq) by {
      if TiedNames(h, leq) { SameTiedNames(g, h, leq); }
    }
    SameListing(g, h, leq, c);
    SameListing(g, h, leq, d);
    ListedIn(h, leq, c, found);
    ListedIn(h, leq, d, found);
    assert !Leads(h, c, d) by {
      if a, b :| a in c && b in d && Reach(h, a, b) { SameReach(g, h, a, b); }
    }
    FoundBefore(h, leq, found, c, d);
    ListingsDistinct(h, leq, found);
    TiesOfSorted(BySizeThenName(leq), found, c, d);
  }

  lemma {:induction false} TiedComponentsTell(
    g: Graph<string>, leq: (string, string) -> bool, f: seq<seq<string>>)
    requires TotalPreorder(leq) && IsMap(g) && FoundIn(g, leq, f)
    requires !TiedNames(g, leq) && TiedComponents(g, leq)
    ensures Depends(g, leq, SortBy(BySizeThenName(leq), f))
  {
    var r := SortBy(BySizeThenName(leq), f);
    var c, d :| Apart(g, leq, c, d);
    ListedIn(g, leq, c, f);
    ListedIn(g, leq, d, f);
    ListingsDistinct(g, leq, f);
    SortByKeepsDistinct(BySizeThenName(leq), f);
    SameMembers(r, f);
    OneOrder(r, c, d);
    if Before(r, d, c) {
      OtherOrder(g, leq, f, r, c, d);
    } else {
      assert Apart(g, leq, d, c);
      OtherOrder(g, leq, f, r, d, c);
    }
  }

  /** The report does not depend on the order of keys and imports exactly when no two files on one
      cycle have tied names, and no two cyclic components that the final sort ties are apart. */
  lemma {:induction false} CanonicalExactly(g: Graph<string>, leq: (string, string) -> bool, r: seq<seq<string>>)
    requires TotalPreorder(leq) && IsMap(g) && ScriptReport(g, leq, r)
    ensures Canonical(g, leq, r) <==> !TiedNames(g, leq) && !TiedComponents(g, leq)
    ensures Depends(g, leq, r) <==> TiedNames(g, leq) || TiedComponents(g, leq)
  {
    var f :| FoundIn(g, leq, f) && r == SortBy(BySizeThenName(leq), f);
    if TiedNames(g, leq) {
      TiedNamesTell(g, leq, f);
    } else if TiedComponents(g, leq) {
      TiedComponentsTell(g, leq, f);
    } else {
      forall h, s | SameRelation(g, h) && IsMap(h) && ScriptReport(h, leq, s) ensures s == r {
        var found :| FoundIn(h, leq, found) && s == SortBy(BySizeThenName(leq), found);
        SameReport(g, h, leq, f, found);
      }
    }
  }

  // ----- names without newlines

  /** Different signatures never compare as equal. */
  ghost predicate SignaturesApart(g: Graph<string>, leq: (string, string) -> bool) {
    forall c, d {:trigger IsListing(g, leq, c), IsListing(g, leq, d)} ::
      IsListing(g, leq, c) && IsListing(g, leq, d)
      ==> Separates(leq, CycleSignature(leq, c), CycleSignature(leq, d))
  }

  ghost predicate Separates(leq: (string, string) -> bool, x: string, y: string) {
    leq(x, y) && leq(y, x) ==> x == y
  }

  /** The signature of a component determines it, so such names leave nothing tied. */
  lemma {:induction false} CanonicalWithoutNewlines(
    g: Graph<string>, leq: (string, string) -> bool, r: seq<seq<string>>)
    requires TotalPreorder(leq) && IsMap(g) && ScriptReport(g, leq, r)
    requires !TiedNames(g, leq) && SignaturesApart(g, leq)
    requires forall v :: v in g.keys ==> '\n' !in v
    ensures Canonical(g, leq, r)
  {
    forall c, d | IsListing(g, leq, c) && IsListing(g, leq, d) ensures !Tied(BySizeThenName(leq), c, d) {
      assert Separates(leq, CycleSignature(leq, c), CycleSignature(leq, d));
      SignatureSpells(g, leq, c);
      SignatureSpells(g, leq, d);
    }
    assert !TiedComponents(g, leq);
    CanonicalExactly(g, leq, r);
  }

  lemma {:induction false} SignatureSpells(g: Graph<string>, leq: (string, string) -> bool, c: seq<string>)
    requires IsMap(g) && IsListing(g, leq, c)
    requires forall v :: v in g.keys ==> '\n' !in v
    ensures SplitOn(CycleSignature(leq, c), '\n') == c
  {
    forall k | 0 <= k < |c| ensures '\n' !in c[k] {
      var p := KeyOf(g, leq, c, c[k]);
    }
    NoElements(c);
    SortedIsFixed(leq, c);
    SplitJoin(c, '\n');
  }

  // ----- names with newlines

  /** Two pairs of files that import each other. */
  function TwoCycles(p: seq<string>, q: seq<string>): Graph<string>
    requires |p| == |q| == 2
  {
    Graph(p + q, map[p[0] := [p[1]], p[1] := [p[0]], q[0] := [q[1]], q[1] := [q[0]]])
  }

  /** Four different names, those of each pair in their strict order. */
  ghost predicate TwoPairs(leq: (string, string) -> bool, p: seq<string>, q: seq<string>) {
    && |p| == |q| == 2 && Distinct(p + q)
    && leq(p[0], p[1]) && !leq(p[1], p[0])
    && leq(q[0], q[1]) && !leq(q[1], q[0])
  }

  lemma {:induction false} PairsApart(leq: (string, string) -> bool, p: seq<string>, q: seq<string>)
    requires TwoPairs(leq, p, q)
    ensures p[0] != p[1] && q[0] != q[1] && Elements(p) !! Elements(q)
    ensures Elements(p) == {p[0], p[1]} && Elements(q) == {q[0], q[1]}
  {
    var s := p + q;
    assert s[0] == p[0] && s[1] == p[1] && s[2] == q[0] && s[3] == q[1];
    assert p == [p[0], p[1]] && q == [q[0], q[1]];
  }

  lemma {:induction false} TwoCyclesFit(leq: (string, string) -> bool, p: seq<string>, q: seq<string>)
    requires TwoPairs(leq, p, q)
    ensures IsMap(TwoCycles(p, q)) && Vertices(TwoCycles(p, q)) == Elements(p) + Elements(q)
    ensures TwoPairs(leq, q, p) && SameRelation(TwoCycles(p, q), TwoCycles(q, p))
    ensures ClosedUnder(Imports(TwoCycles(p, q)), Elements(p)) && ClosedUnder(Imports(TwoCycles(p, q)), Elements(q))
  {
    PairsApart(leq, p, q);
    var g := TwoCycles(p, q);
    assert g.imports == TwoCycles(q, p).imports;
    assert g.keys == [p[0], p[1], q[0], q[1]];
    TwoCyclesVertices(leq, p, q);
    OrderSwapped(p, q);
  }

  lemma {:induction false} OrderSwapped(p: seq<string>, q: seq<string>)
    requires |p| == |q| == 2 && Distinct(p + q)
    ensures Distinct(q + p) && forall v :: v in p + q <==> v in q + p
  {
    assert multiset(p + q) == multiset(q + p);
    DistinctByMultiset(p + q);
    DistinctByMultiset(q + p);
    SameMembers(p + q, q + p);
  }

  lemma {:induction false} TwoCyclesVertices(leq: (string, string) -> bool, p: seq<string>, q: seq<string>)
    requires TwoPairs(leq, p, q)
    ensures Vertices(TwoCycles(p, q)) == Elements(p) + Elements(q)
  {
    PairsApart(leq, p, q);
    assert TwoCycles(p, q).keys == [p[0], p[1], q[0], q[1]];
  }

  lemma {:induction false} PairIsListed(leq: (string, string) -> bool, g: Graph<string>, p: seq<string>)
    requires |p| == 2 && leq(p[0], p[1]) && p[0] != p[1]
    requires Next(g, p[0]) == [p[1]] && Next(g, p[1]) == [p[0]]
    ensures IsListing(g, leq, p)
  {
    assert p == [p[0], p[1]];
    ReachEdge(g, p[0], p[1]);
    ReachEdge(g, p[1], p[0]);
    ReachRefl(g, p[0]);
    ReachRefl(g, p[1]);
    ReachTrans(g, p[0], p[1], p[0]);
    assert ClosedUnder(Imports(g), Elements(p));
    forall a, b | a in Elements(p) && Reachability(g)(a, b) && Reachability(g)(b, a) ensures b in Elements(p) {
      ClosedReach(g, Elements(p), a, b);
    }
    assert p[0] in Elements(p) && p[1] in Next(g, p[0]) && Reach(g, p[1], p[0]);
    assert forall a, b :: a in Elements(p) && b in Elements(p) ==> Reachability(g)(a, b);
  }

  lemma {:induction false} PairsListed(leq: (string, string) -> bool, p: seq<string>, q: seq<string>)
    requires TwoPairs(leq, p, q)
    ensures ListsCycles(TwoCycles(p, q), leq, [p, q])
  {
    var g := TwoCycles(p, q);
    PairsApart(leq, p, q);
    TwoCyclesFit(leq, p, q);
    PairIsListed(leq, g, p);
    PairIsListed(leq, g, q);
    TwoLists(Listing(g, leq), OnCycle(g), p, q);
  }

  lemma {:induction false} TwoLists(
    listing: seq<string> -> bool, onCycle: string -> bool, p: seq<string>, q: seq<string>)
    requires listing(p) && listing(q) && Elements(p) !! Elements(q)
    ensures Lists(listing, onCycle, [p, q], Elements(p) + Elements(q))
  {
    var f := [p, q];
    forall v {:trigger Listed(f, v)} | v in Elements(p) + Elements(q) ensures Listed(f, v) {
      assert v in f[0] || v in f[1];
    }
  }

  lemma {:induction false} NamesUntied(leq: (string, string) -> bool, p: seq<string>, q: seq<string>)
    requires TwoPairs(leq, p, q)
    ensures !TiedNames(TwoCycles(p, q), leq)
  {
    var g := TwoCycles(p, q);
    PairsApart(leq, p, q);
    TwoCyclesFit(leq, p, q);
    forall u, v | u != v && Reach(g, u, v) ensures !Tied(leq, u, v) {
      ReachSplits(g, u, v);
      var w :| w in Next(g, u) && Reach(g, w, v);
      ClosedReach(g, if u in p then Elements(p) else Elements(q), u, v);
    }
  }

  /** The search finds the pair of the first key first, and nothing else about the list is open. */
  lemma {:induction false} FoundPairs(
    leq: (string, string) -> bool, p: seq<string>, q: seq<string>, f: seq<seq<string>>)
    requires TwoPairs(leq, p, q)
    ensures FoundIn(TwoCycles(p, q), leq, f) <==> f == [p, q]
  {
    var g := TwoCycles(p, q);
    if FoundIn(g, leq, f) {
      PairsOnly(leq, p, q, f);
    }
    if f == [p, q] {
      PairsFound(leq, p, q);
    }
  }

  lemma {:induction false} NoWayAcross(leq: (string, string) -> bool, p: seq<string>, q: seq<string>)
    requires TwoPairs(leq, p, q)
    ensures !Leads(TwoCycles(p, q), p, q)
  {
    var g := TwoCycles(p, q);
    PairsApart(leq, p, q);
    TwoCyclesFit(leq, p, q);
    if a, b :| a in p && b in q && Reach(g, a, b) {
      assert a in Elements(p) && b in Elements(q);
      ClosedReach(g, Elements(p), a, b);
    }
  }

  lemma {:induction false} PairsOnly(leq: (string, string) -> bool, p: seq<string>, q: seq<string>, f: seq<seq<string>>)
    requires TwoPairs(leq, p, q) && FoundIn(TwoCycles(p, q), leq, f)
    ensures f == [p, q]
  {
    var g := TwoCycles(p, q);
    TwoCyclesFit(leq, p, q);
    PairsApart(leq, p, q);
    PairsBoth(leq, p, q, f);
    NoWayAcross(leq, p, q);
    assert g.keys[0] == p[0] && p != q by { assert p[0] in Elements(p); }
    FoundBefore(g, leq, f, p, q);
    ListingsDistinct(g, leq, f);
    OnlyTwo(f, p, q);
  }

  lemma {:induction false} PairsBoth(leq: (string, string) -> bool, p: seq<string>, q: seq<string>, f: seq<seq<string>>)
    requires TwoPairs(leq, p, q) && IsMap(TwoCycles(p, q)) && ListsCycles(TwoCycles(p, q), leq, f)
    ensures p in f && q in f && Elements(f) == Elements([p, q])
  {
    NamesUntied(leq, p, q);
    PairsListed(leq, p, q);
    SameComponents(TwoCycles(p, q), leq, f, [p, q]);
    assert p in Elements([p, q]) && q in Elements([p, q]);
  }

  lemma {:induction false} OnlyTwo(f: seq<seq<string>>, p: seq<string>, q: seq<string>)
    requires Distinct(f) && Elements(f) == Elements([p, q]) && Before(f, p, q)
    ensures f == [p, q]
  {
    var i, j :| 0 <= i < j < |f| && f[i] == p && f[j] == q;
    forall k | 0 <= k < |f| ensures f[k] == p || f[k] == q {
      assert f[k] in Elements(f) && f[k] in Elements([p, q]);
    }
    var first, second, last := f[0], f[1], f[|f| - 1];
    assert first == p || first == q;
    assert second == p || second == q;
    assert last == p || last == q;
  }

  lemma {:induction false} PairsFound(leq: (string, string) -> bool, p: seq<string>, q: seq<string>)
    requires TwoPairs(leq, p, q)
    ensures FoundIn(TwoCycles(p, q), leq, [p, q])
  {
    var g, f := TwoCycles(p, q), [p, q];
    var reach := Reachability(g);
    PairsListed(leq, p, q);
    NoWayAcross(leq, p, q);
    forall i, j, a, b {:trigger reach(a, b), f[i], f[j]} | 0 <= i < j < |f| && a in f[i] && b in f[j]
      ensures !reach(a, b)
    {
      assert i == 0 && j == 1;
    }
    forall i, j, n {:trigger f[i], f[j], g.keys[..n]}
      | 0 <= i < j < |f| && 0 <= n <= |g.keys| && Meets(reach, g.keys[..n], f[j])
      ensures Meets(reach, g.keys[..n], f[i])
    {
      assert i == 0 && n > 0;
      ReachRefl(g, p[0]);
      assert p[0] == g.keys[..n][0] && reach(p[0], p[0]);
      assert Reached(reach, g.keys[..n], p[0]);
    }
    TwoCyclesFit(leq, p, q);
    NamesUntied(leq, p, q);
    UntiedStart(g, g, leq, f);
  }

  lemma {:induction false} ReportOfPairs(leq: (string, string) -> bool, p: seq<string>, q: seq<string>)
    requires TotalPreorder(leq) && TwoPairs(leq, p, q) && CycleSignature(leq, p) == CycleSignature(leq, q)
    ensures forall s :: ScriptReport(TwoCycles(p, q), leq, s) <==> s == [p, q]
  {
    TiesKeepOrder(leq, p, q);
    forall s ensures ScriptReport(TwoCycles(p, q), leq, s) <==> s == [p, q] {
      if f :| FoundIn(TwoCycles(p, q), leq, f) && s == SortBy(BySizeThenName(leq), f) {
        FoundPairs(leq, p, q, f);
      }
      FoundPairs(leq, p, q, [p, q]);
    }
  }

  /** Names with newlines can tie: two graphs with the same files and imports, in another order of
      keys, have exactly one report each, and these differ. */
  lemma {:induction false} NewlinesTie(
    leq: (string, string) -> bool, x: string, y: string, z: string, p: seq<string>, q: seq<string>)
    requires TotalPreorder(leq) && TwoPairs(leq, p, q)
    requires p == [x + "\n" + y, z] && q == [x, y + "\n" + z]
    ensures SameRelation(TwoCycles(p, q), TwoCycles(q, p)) && IsMap(TwoCycles(p, q)) && IsMap(TwoCycles(q, p))
    ensures forall s :: ScriptReport(TwoCycles(p, q), leq, s) <==> s == [p, q]
    ensures forall s :: ScriptReport(TwoCycles(q, p), leq, s) <==> s == [q, p]
    ensures [p, q] != [q, p]
  {
    TwoCyclesFit(leq, p, q);
    TwoCyclesFit(leq, q, p);
    SameSignature(leq, x, y, z, p, q);
    ReportOfPairs(leq, p, q);
    ReportOfPairs(leq, q, p);
    PairsApart(leq, p, q);
    assert [p, q][0] == p && [q, p][0] == q && p[0] in Elements(p);
  }

  lemma {:induction false} SameSignature(
    leq: (string, string) -> bool, x: string, y: string, z: string, p: seq<string>, q: seq<string>)
    requires p == [x + "\n" + y, z] && q == [x, y + "\n" + z] && Sorted(leq, p) && Sorted(leq, q)
    ensures CycleSignature(leq, p) == CycleSignature(leq, q)
  {
    SortedIsFixed(leq, p);
    SortedIsFixed(leq, q);
    JoinTwo(x + "\n" + y, z);
    JoinTwo(x, y + "\n" + z);
    assert x + "\n" + y + "\n" + z == x + "\n" + (y + "\n" + z);
  }

  lemma {:induction false} JoinTwo(x: string, y: string)
    ensures Join([x, y], '\n') == x + "\n" + y
  {
    assert [x, y][1..] == [y];
  }

  lemma {:induction false} TiesKeepOrder(leq: (string, string) -> bool, p: seq<string>, q: seq<string>)
    requires TotalPreorder(leq) && |p| == |q| && CycleSignature(leq, p) == CycleSignature(leq, q)
    ensures SortBy(BySizeThenName(leq), [p, q]) == [p, q]
  {
    assert leq(CycleSignature(leq, p), CycleSignature(leq, q));
    SortedIsFixed(BySizeThenName(leq), [p, q]);
  }
}
