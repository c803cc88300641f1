/** The log of the components the search pops, and what the list built from it is worth:
    its components, and the order in which they are found. */
module PoppedLog {
  import opened Sorting
  import opened StableSorting
  import opened ImportGraph

  /** `c` lists a cyclic component, each file once, in name order. */
  ghost predicate IsListing<V(!new)>(g: Graph<V>, leq: (V, V) -> bool, c: seq<V>) {
    Distinct(c) && Sorted(leq, c) && IsCyclicScc(g, Elements(c))
  }

  ghost function Listing<V(!new)>(g: Graph<V>, leq: (V, V) -> bool): seq<V> -> bool {
    c => IsListing(g, leq, c)
  }

  ghost function OnCycle<V(!new)>(g: Graph<V>): V -> bool {
    v => ReachPlus(g, v, v)
  }

  /** `cs` lists the interesting values of `area`, each in one entry. */
  ghost predicate Lists<V(!new)>(
    listing: seq<V> -> bool, interesting: V -> bool, cs: seq<seq<V>>, area: set<V>)
  {
    && (forall i :: 0 <= i < |cs| ==> listing(cs[i]) && Elements(cs[i]) <= area)
    && (forall i, j :: 0 <= i < j < |cs| ==> Elements(cs[i]) !! Elements(cs[j]))
    && (forall v {:trigger Listed(cs, v)} :: v in area && interesting(v) ==> Listed(cs, v))
  }

  ghost predicate Listed<V(!new)>(cs: seq<seq<V>>, v: V) {
    exists i :: 0 <= i < |cs| && v in cs[i]
  }

  /** The report of a whole graph: its cyclic components, each listed once. */
  ghost predicate ListsCycles<V(!new)>(g: Graph<V>, leq: (V, V) -> bool, cs: seq<seq<V>>) {
    Lists(Listing(g, leq), OnCycle(g), cs, Vertices(g))
  }

  lemma {:induction false} ListMore<V(!new)>(
    listing: seq<V> -> bool, interesting: V -> bool, cs: seq<seq<V>>, area: set<V>, c: seq<V>)
    requires Lists(listing, interesting, cs, area)
    requires listing(c) && Elements(c) !! area
    ensures Lists(listing, interesting, cs + [c], area + Elements(c))
  {
    var cs' := cs + [c];
    forall v {:trigger Listed(cs', v)} | v in area + Elements(c) && interesting(v) ensures Listed(cs', v) {
      if v in area {
        assert Listed(cs, v);
        var i :| 0 <= i < |cs| && v in cs[i];
        assert v in cs'[i];
      } else {
        assert v in cs'[|cs|];
      }
    }
  }

  lemma {:induction false} ListNone<V(!new)>(
    listing: seq<V> -> bool, interesting: V -> bool, cs: seq<seq<V>>, area: set<V>, more: set<V>)
    requires Lists(listing, interesting, cs, area)
    requires forall v :: v in more ==> !interesting(v)
    ensures Lists(listing, interesting, cs, area + more)
  {
  }

  // ----- the log of popped components

  /** One component popped by the search: the file that closed it, and the files in pop order. */
  datatype Popped<V> = Popped(root: V, files: seq<V>)

  /** The list the scripts build: a popped component counts when it has more than one file
      or imports itself, and is sorted by name. */
  function Report<V(==)>(g: Graph<V>, leq: (V, V) -> bool, log: seq<Popped<V>>): seq<seq<V>> {
    if log == [] then []
    else
      var last := log[|log| - 1];
      var before := Report(g, leq, log[..|log| - 1]);
      if |last.files| > 1 || last.root in Next(g, last.root) then before + [SortBy(leq, last.files)] else before
  }

  lemma {:induction false} ReportMore<V(!new)>(
    g: Graph<V>, leq: (V, V) -> bool, log: seq<Popped<V>>, root: V, files: seq<V>)
    ensures Report(g, leq, log + [Popped(root, files)]) ==
      if |files| > 1 || root in Next(g, root) then Report(g, leq, log) + [SortBy(leq, files)] else Report(g, leq, log)
  {
    assert (log + [Popped(root, files)])[..|log|] == log;
  }

  /** The component is closed by its root, which is popped last. */
  ghost predicate EndsWith<V(!new)>(files: seq<V>, root: V) {
    files != [] && files[|files| - 1] == root
  }

  /** Some component was closed by the visit of `v`. */
  ghost predicate Rooted<V(!new)>(log: seq<Popped<V>>, v: V) {
    exists k :: 0 <= k < |log| && log[k].root == v
  }

  ghost function Files<V>(log: seq<Popped<V>>): set<V> {
    if log == [] then {} else Files(log[..|log| - 1]) + Elements(log[|log| - 1].files)
  }

  /** Nothing outside the set is reached from it. */
  ghost predicate Settled<V(!new)>(reach: (V, V) -> bool, s: set<V>) {
    forall a, b {:trigger reach(a, b)} :: a in s && reach(a, b) ==> b in s
  }

  /** The log holds disjoint components, none with a falsy name, and none logged before one it reaches. */
  ghost predicate Logged<V(!new)>(reach: (V, V) -> bool, falsy: V -> bool, log: seq<Popped<V>>) {
    log == [] ||
    var last, rest := log[|log| - 1], log[..|log| - 1];
    && Distinct(last.files) && EndsWith(last.files, last.root)
    && IsScc(reach, Elements(last.files)) && Elements(last.files) !! Files(rest)
    && (forall v :: v in last.files ==> !falsy(v))
    && Settled(reach, Files(log))
    && Logged(reach, falsy, rest)
  }

  lemma {:induction false} LogMore<V(!new)>(
    reach: (V, V) -> bool, falsy: V -> bool, log: seq<Popped<V>>, root: V, files: seq<V>)
    requires Logged(reach, falsy, log)
    requires Distinct(files) && EndsWith(files, root) && IsScc(reach, Elements(files)) && Elements(files) !! Files(log)
    requires forall v :: v in files ==> !falsy(v)
    requires Settled(reach, Files(log) + Elements(files))
    ensures Logged(reach, falsy, log + [Popped(root, files)])
    ensures Files(log + [Popped(root, files)]) == Files(log) + Elements(files)
  {
    var log' := log + [Popped(root, files)];
    assert log'[..|log' | - 1] == log;
  }

  lemma {:induction false} LoggedNotFalsy<V(!new)>(
    reach: (V, V) -> bool, falsy: V -> bool, log: seq<Popped<V>>, v: V)
    requires Logged(reach, falsy, log) && v in Files(log)
    ensures !falsy(v)
  {
    if v !in log[|log| - 1].files {
      LoggedNotFalsy(reach, falsy, log[..|log| - 1], v);
    }
  }

  // ----- the report lists the cyclic components

  /** The report lists exactly the components of the log that carry a cycle. */
  lemma {:induction false} ReportListsCycles<V(!new)>(
    g: Graph<V>, leq: (V, V) -> bool, falsy: V -> bool, log: seq<Popped<V>>)
    requires TotalPreorder(leq)
    requires Logged(Reachability(g), falsy, log)
    ensures Lists(Listing(g, leq), OnCycle(g), Report(g, leq, log), Files(log))
  {
    if log != [] {
      var last, rest := log[|log| - 1], log[..|log| - 1];
      ReportListsCycles(g, leq, falsy, rest);
      CyclicListing(g, leq, last.files, last.root);
      ListPopped(Listing(g, leq), OnCycle(g), Report(g, leq, rest), Files(rest), last.files,
                 SortBy(leq, last.files), |last.files| > 1 || last.root in Next(g, last.root));
    }
  }

  /** The test after popping decides whether the component is a cycle listing. */
  lemma {:induction false} CyclicListing<V(!new)>(g: Graph<V>, leq: (V, V) -> bool, files: seq<V>, root: V)
    requires TotalPreorder(leq)
    requires Distinct(files) && IsScc(Reachability(g), Elements(files)) && root in files
    ensures Elements(SortBy(leq, files)) == Elements(files)
    ensures |files| > 1 || root in Next(g, root) ==> IsListing(g, leq, SortBy(leq, files))
    ensures |files| > 1 || root in Next(g, root) || forall v :: v in files ==> !ReachPlus(g, v, v)
  {
    MoreThanOne(files, root);
    CyclicTest(g, Elements(files), root);
    SortByKeepsDistinct(leq, files);
    SortBySorted(leq, files);
    assert root in Elements(files);
    assert |files| <= 1 ==> forall v :: v in Elements(files) ==> v == root;
  }

  lemma {:induction false} ListPopped<V(!new)>(
    listing: seq<V> -> bool, onCycle: V -> bool, cs: seq<seq<V>>, area: set<V>, files: seq<V>, sorted: seq<V>,
    counts: bool)
    requires Lists(listing, onCycle, cs, area) && Elements(files) !! area
    requires Elements(sorted) == Elements(files) && (counts ==> listing(sorted))
    requires counts || forall v :: v in files ==> !onCycle(v)
    ensures Lists(listing, onCycle, if counts then cs + [sorted] else cs, area + Elements(files))
  {
    if counts {
      ListMore(listing, onCycle, cs, area, sorted);
    } else {
      ListNone(listing, onCycle, cs, area, Elements(files));
    }
  }

  lemma {:induction false} MoreThanOne<V(!new)>(files: seq<V>, root: V)
    requires Distinct(files) && root in files
    ensures (|files| > 1) == (Elements(files) != {root})
  {
    if |files| > 1 {
      assert files[0] in Elements(files) && files[1] in Elements(files) && files[0] != files[1];
    } else {
      assert files == [root];
    }
  }

  // ----- the order of the log

  /** A file that one of the keys reaches. */
  ghost predicate Reached<V(!new)>(reach: (V, V) -> bool, keys: seq<V>, v: V) {
    exists k :: k in keys && reach(k, v)
  }

  ghost function FromKeys<V(!new)>(universe: set<V>, reach: (V, V) -> bool, keys: seq<V>): set<V> {
    set v | v in universe && Reached(reach, keys, v)
  }

  /** The log passes through a state in which exactly the files of `area` are popped. */
  ghost predicate PassesThrough<V(!new)>(log: seq<Popped<V>>, area: set<V>) {
    exists m :: 0 <= m <= |log| && Files(log[..m]) == area
  }

  /** Each of the first `i` keys in turn has all that it reaches popped before the next one starts. */
  ghost predicate KeyByKey<V(!new)>(
    universe: set<V>, reach: (V, V) -> bool, keys: seq<V>, i: nat, log: seq<Popped<V>>)
    requires i <= |keys|
  {
    forall n :: 0 <= n <= i ==> PassesThrough(log, FromKeys(universe, reach, keys[..n]))
  }

  lemma {:induction false} StillPasses<V(!new)>(log: seq<Popped<V>>, more: seq<Popped<V>>, area: set<V>)
    requires PassesThrough(log, area) && log <= more
    ensures PassesThrough(more, area)
  {
    var m :| 0 <= m <= |log| && Files(log[..m]) == area;
    assert more[..m] == log[..m];
  }

  lemma {:induction false} StaysRooted<V(!new)>(log: seq<Popped<V>>, more: seq<Popped<V>>, v: V)
    requires log <= more
    ensures Rooted(log, v) ==> Rooted(more, v)
  {
    if k :| 0 <= k < |log| && log[k].root == v {
      assert more[k].root == v;
    }
  }

  lemma {:induction false} NoKeyYet<V(!new)>(universe: set<V>, reach: (V, V) -> bool, keys: seq<V>)
    ensures Files<V>([]) == FromKeys(universe, reach, keys[..0]) && KeyByKey(universe, reach, keys, 0, [])
  {
    var none: seq<Popped<V>> := [];
    assert none[..0] == none && Files(none) == FromKeys(universe, reach, keys[..0]);
    assert PassesThrough(none, FromKeys(universe, reach, keys[..0]));
  }

  lemma {:induction false} NextKey<V(!new)>(
    universe: set<V>, reach: (V, V) -> bool, keys: seq<V>, i: nat, log: seq<Popped<V>>, more: seq<Popped<V>>)
    requires i < |keys| && KeyByKey(universe, reach, keys, i, log) && log <= more
    requires Files(log) == FromKeys(universe, reach, keys[..i])
    requires Files(more) == Files(log) + FromKeys(universe, reach, [keys[i]])
    ensures Files(more) == FromKeys(universe, reach, keys[..i + 1])
    ensures KeyByKey(universe, reach, keys, i + 1, more)
  {
    assert keys[..i + 1] == keys[..i] + [keys[i]];
    forall v
      ensures Reached(reach, keys[..i + 1], v) <==> Reached(reach, keys[..i], v) || Reached(reach, [keys[i]], v)
    {
      ReachedMore(reach, keys[..i], keys[i], v);
    }
    forall n | 0 <= n <= i + 1 ensures PassesThrough(more, FromKeys(universe, reach, keys[..n])) {
      if n <= i {
        StillPasses(log, more, FromKeys(universe, reach, keys[..n]));
      } else {
        assert more[..|more|] == more;
      }
    }
  }

  lemma {:induction false} ReachedMore<V(!new)>(reach: (V, V) -> bool, keys: seq<V>, key: V, v: V)
    ensures Reached(reach, keys + [key], v) <==> Reached(reach, keys, v) || Reached(reach, [key], v)
  {
    if Reached(reach, keys, v) {
      var k :| k in keys && reach(k, v);
      assert k in keys + [key];
    }
    if Reached(reach, [key], v) {
      assert key in keys + [key];
    }
  }

  // ----- what the order of the log means for the report

  /** No listed component reaches one listed after it. */
  ghost predicate ImportsFirst<V(!new)>(reach: (V, V) -> bool, cs: seq<seq<V>>) {
    forall i, j, a, b {:trigger reach(a, b), cs[i], cs[j]} ::
      0 <= i < j < |cs| && a in cs[i] && b in cs[j] ==> !reach(a, b)
  }

  ghost predicate Meets<V(!new)>(reach: (V, V) -> bool, keys: seq<V>, c: seq<V>) {
    exists v :: v in c && Reached(reach, keys, v)
  }

  /** A component stands before every other that later keys are needed to reach. */
  ghost predicate InKeyOrder<V(!new)>(reach: (V, V) -> bool, keys: seq<V>, cs: seq<seq<V>>) {
    forall i, j, n {:trigger cs[i], cs[j], keys[..n]} ::
      0 <= i < j < |cs| && 0 <= n <= |keys| && Meets(reach, keys[..n], cs[j]) ==> Meets(reach, keys[..n], cs[i])
  }

  /** The file the search starts from stands after the files of its component that tie with it. */
  ghost predicate StartLast<V(!new)>(leq: (V, V) -> bool, keys: seq<V>, cs: seq<seq<V>>) {
    forall c, y {:trigger c in cs, y in c} ::
      keys != [] && c in cs && keys[0] in c && y in c && Tied(leq, y, keys[0]) ==> Before(c, y, keys[0])
  }

  /** The list as the search finds it: the cyclic components, imports first and key by key. */
  ghost predicate FoundIn<V(!new)>(g: Graph<V>, leq: (V, V) -> bool, cs: seq<seq<V>>) {
    && ListsCycles(g, leq, cs)
    && ImportsFirst(Reachability(g), cs)
    && InKeyOrder(Reachability(g), g.keys, cs)
    && StartLast(leq, g.keys, cs)
  }

  lemma {:induction false} LoggedInOrder<V(!new)>(
    g: Graph<V>, leq: (V, V) -> bool, falsy: V -> bool, log: seq<Popped<V>>)
    requires TotalPreorder(leq) && Logged(Reachability(g), falsy, log)
    ensures ImportsFirst(Reachability(g), Report(g, leq, log))
  {
    if log != [] {
      var last, rest := log[|log| - 1], log[..|log| - 1];
      LoggedInOrder(g, leq, falsy, rest);
      ReportListsCycles(g, leq, falsy, rest);
      CyclicListing(g, leq, last.files, last.root);
      if rest != [] && (|last.files| > 1 || last.root in Next(g, last.root)) {
        LastStaysOut(g, leq, falsy, rest, Report(g, leq, rest), SortBy(leq, last.files));
      }
    }
  }

  lemma {:induction false} LastStaysOut<V(!new)>(
    g: Graph<V>, leq: (V, V) -> bool, falsy: V -> bool, rest: seq<Popped<V>>, cs: seq<seq<V>>, c: seq<V>)
    requires ImportsFirst(Reachability(g), cs) && Lists(Listing(g, leq), OnCycle(g), cs, Files(rest))
    requires Settled(Reachability(g), Files(rest)) && Elements(c) !! Files(rest)
    ensures ImportsFirst(Reachability(g), cs + [c])
  {
    var reach := Reachability(g);
    forall i, j, a, b | 0 <= i < j < |cs + [c]| && a in (cs + [c])[i] && b in (cs + [c])[j] ensures !reach(a, b) {
      if j == |cs| {
        assert a in Elements(cs[i]) && b in Elements(c);
      } else {
        assert cs[i] == (cs + [c])[i] && cs[j] == (cs + [c])[j];
      }
    }
  }

  lemma {:induction false} LoggedKeyByKey<V(!new)>(
    g: Graph<V>, leq: (V, V) -> bool, falsy: V -> bool, log: seq<Popped<V>>)
    requires TotalPreorder(leq) && Logged(Reachability(g), falsy, log) && Files(log) == Vertices(g)
    requires KeyByKey(Vertices(g), Reachability(g), g.keys, |g.keys|, log)
    ensures InKeyOrder(Reachability(g), g.keys, Report(g, leq, log))
  {
    var reach, cs := Reachability(g), Report(g, leq, log);
    ReportListsCycles(g, leq, falsy, log);
    forall i, j, n {:trigger cs[i], cs[j], g.keys[..n]}
      | 0 <= i < j < |cs| && 0 <= n <= |g.keys| && Meets(reach, g.keys[..n], cs[j])
      ensures Meets(reach, g.keys[..n], cs[i])
    {
      var v :| v in cs[j] && Reached(reach, g.keys[..n], v);
      assert v in Elements(cs[j]);
      LoggedByArea(g, leq, falsy, log, FromKeys(Vertices(g), reach, g.keys[..n]), i, j, v);
      assert IsListing(g, leq, cs[i]);
      var w :| w in Elements(cs[i]);
      assert w in FromKeys(Vertices(g), reach, g.keys[..n]);
    }
  }

  /** Where the log has popped `area` and nothing more, a prefix of the report has been found. */
  lemma {:induction false} LoggedByArea<V(!new)>(
    g: Graph<V>, leq: (V, V) -> bool, falsy: V -> bool, log: seq<Popped<V>>, area: set<V>, i: nat, j: nat, v: V)
    requires TotalPreorder(leq) && Logged(Reachability(g), falsy, log) && PassesThrough(log, area)
    requires i < j < |Report(g, leq, log)| && v in Report(g, leq, log)[j] && v in area
    ensures Elements(Report(g, leq, log)[i]) <= area
  {
    var m :| 0 <= m <= |log| && Files(log[..m]) == area;
    if m == |log| {
      assert log[..m] == log;
      ReportListsCycles(g, leq, falsy, log);
    } else {
      var rest := log[..|log| - 1];
      assert log[..m] == rest[..m];
      assert PassesThrough(rest, area);
      FilesWithin(rest, m);
      AreaBeforeLast(g, leq, falsy, log, area, j, v);
      LoggedByArea(g, leq, falsy, rest, area, i, j, v);
    }
  }

  lemma {:induction false} AreaBeforeLast<V(!new)>(
    g: Graph<V>, leq: (V, V) -> bool, falsy: V -> bool, log: seq<Popped<V>>, area: set<V>, j: nat, v: V)
    requires TotalPreorder(leq) && Logged(Reachability(g), falsy, log)
    requires log != [] && area <= Files(log[..|log| - 1])
    requires j < |Report(g, leq, log)| && v in Report(g, leq, log)[j] && v in area
    ensures j < |Report(g, leq, log[..|log| - 1])|
  {
    var last := log[|log| - 1];
    SameMembers(SortBy(leq, last.files), last.files);
    assert v in last.files ==> v in Elements(last.files);
  }

  lemma {:induction false} FilesWithin<V(!new)>(log: seq<Popped<V>>, m: nat)
    requires m <= |log|
    ensures Files(log[..m]) <= Files(log)
  {
    if m < |log| {
      assert log[..m] == log[..|log| - 1][..m];
      FilesWithin(log[..|log| - 1], m);
    } else {
      assert log[..m] == log;
    }
  }

  lemma {:induction false} LoggedStart<V(!new)>(
    g: Graph<V>, leq: (V, V) -> bool, falsy: V -> bool, log: seq<Popped<V>>)
    requires TotalPreorder(leq) && Logged(Reachability(g), falsy, log)
    requires g.keys == [] || Rooted(log, g.keys[0])
    ensures StartLast(leq, g.keys, Report(g, leq, log))
  {
    var cs := Report(g, leq, log);
    forall c, y {:trigger c in cs, y in c}
      | g.keys != [] && c in cs && g.keys[0] in c && y in c && Tied(leq, y, g.keys[0])
      ensures Before(c, y, g.keys[0])
    {
      var j :| 0 <= j < |cs| && cs[j] == c;
      RootAfterTies(g, leq, falsy, log, g.keys[0], j, y);
    }
  }

  /** The root of a component comes after what ties with it. */
  lemma {:induction false} RootAfterTies<V(!new)>(
    g: Graph<V>, leq: (V, V) -> bool, falsy: V -> bool, log: seq<Popped<V>>, root: V, j: nat, y: V)
    requires TotalPreorder(leq) && Logged(Reachability(g), falsy, log) && Rooted(log, root)
    requires j < |Report(g, leq, log)| && root in Report(g, leq, log)[j] && y in Report(g, leq, log)[j]
    requires Tied(leq, y, root)
    ensures Before(Report(g, leq, log)[j], y, root)
  {
    var last, rest := log[|log| - 1], log[..|log| - 1];
    if j == |Report(g, leq, rest)| {
      SameMembers(SortBy(leq, last.files), last.files);
      RootOfLast(Reachability(g), falsy, log, root);
      LastInComponent(leq, last.files, root, y);
    } else {
      RootOfRest(g, leq, falsy, log, root, j);
      RootAfterTies(g, leq, falsy, rest, root, j, y);
    }
  }

  lemma {:induction false} RootOfRest<V(!new)>(
    g: Graph<V>, leq: (V, V) -> bool, falsy: V -> bool, log: seq<Popped<V>>, root: V, j: nat)
    requires TotalPreorder(leq) && Logged(Reachability(g), falsy, log) && log != [] && Rooted(log, root)
    requires j < |Report(g, leq, log[..|log| - 1])| && root in Report(g, leq, log[..|log| - 1])[j]
    ensures Rooted(log[..|log| - 1], root)
  {
    ReportedIsPopped(g, leq, falsy, log[..|log| - 1], root, j);
    RootAmong(Reachability(g), falsy, log, root);
  }

  lemma {:induction false} ReportedIsPopped<V(!new)>(
    g: Graph<V>, leq: (V, V) -> bool, falsy: V -> bool, log: seq<Popped<V>>, v: V, j: nat)
    requires TotalPreorder(leq) && Logged(Reachability(g), falsy, log)
    requires j < |Report(g, leq, log)| && v in Report(g, leq, log)[j]
    ensures v in Files(log)
  {
    ReportListsCycles(g, leq, falsy, log);
    assert v in Elements(Report(g, leq, log)[j]);
  }

  lemma {:induction false} RootAmong<V(!new)>(
    reach: (V, V) -> bool, falsy: V -> bool, log: seq<Popped<V>>, root: V)
    requires Logged(reach, falsy, log) && log != [] && Rooted(log, root) && root in Files(log[..|log| - 1])
    ensures Rooted(log[..|log| - 1], root)
  {
    var k :| 0 <= k < |log| && log[k].root == root;
    assert root !in Elements(log[|log| - 1].files) && log[..|log| - 1][k] == log[k];
  }

  lemma {:induction false} RootOfLast<V(!new)>(
    reach: (V, V) -> bool, falsy: V -> bool, log: seq<Popped<V>>, root: V)
    requires Logged(reach, falsy, log) && Rooted(log, root)
    requires log != [] && root in log[|log| - 1].files
    ensures log[|log| - 1].root == root
  {
    var k :| 0 <= k < |log| && log[k].root == root;
    if k < |log| - 1 {
      assert log[..|log| - 1][k] == log[k] && root in Elements(log[|log| - 1].files);
      RootIsFile(reach, falsy, log[..|log| - 1], k);
    }
  }

  lemma {:induction false} RootIsFile<V(!new)>(
    reach: (V, V) -> bool, falsy: V -> bool, log: seq<Popped<V>>, k: nat)
    requires Logged(reach, falsy, log) && k < |log|
    ensures log[k].root in Files(log)
  {
    if k < |log| - 1 {
      assert log[..|log| - 1][k] == log[k];
      RootIsFile(reach, falsy, log[..|log| - 1], k);
    } else {
      assert log[k].root in Elements(log[k].files);
    }
  }

  lemma {:induction false} LastInComponent<V(!new)>(leq: (V, V) -> bool, files: seq<V>, root: V, y: V)
    requires Distinct(files) && EndsWith(files, root) && y in files && Tied(leq, y, root)
    ensures Before(SortBy(leq, files), y, root)
  {
    var i :| 0 <= i < |files| && files[i] == y;
    assert Before(files, y, root);
    TiesOfSorted(leq, files, y, root);
  }

  lemma {:induction false} Concluded<V(!new)>(g: Graph<V>, leq: (V, V) -> bool, falsy: V -> bool, log: seq<Popped<V>>)
    requires TotalPreorder(leq)
    requires Logged(Reachability(g), falsy, log) && Files(log) == Vertices(g)
    requires KeyByKey(Vertices(g), Reachability(g), g.keys, |g.keys|, log)
    requires g.keys == [] || Rooted(log, g.keys[0])
    ensures FoundIn(g, leq, Report(g, leq, log))
    ensures forall v :: v in Vertices(g) ==> !falsy(v)
  {
    ReportListsCycles(g, leq, falsy, log);
    LoggedInOrder(g, leq, falsy, log);
    LoggedKeyByKey(g, leq, falsy, log);
    LoggedStart(g, leq, falsy, log);
    forall v | v in Vertices(g) ensures !falsy(v) {
      LoggedNotFalsy(Reachability(g), falsy, log, v);
    }
  }
}
