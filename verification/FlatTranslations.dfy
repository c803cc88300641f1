/** Dotted keys: flattening a translation map, splitting keys again, and exactly which flat maps
    survive being written back and flattened once more. */
module FlatTranslations {
  import opened Options
  import JsMap
  import opened JsText
  import Sorting
  import opened TranslationTree

  type Flat = JsMap.Map<string, string>

  // ----- flattenTranslations

  /** ``prefix ? `${prefix}.${key}` : key`` */
  function FullKey(prefix: string, key: string): string {
    if prefix == "" then key else prefix + "." + key
  }

  function FlattenInto(e: seq<Entry>, prefix: string, out: Flat): Flat
    decreases e
  {
    if e == [] then out
    else
      var fullKey := FullKey(prefix, e[0].key);
      FlattenInto(e[1..], prefix,
                  match e[0].node
                  case Leaf(text) => JsMap.Set(out, fullKey, text)
                  case Sub(inner) => FlattenInto(inner, fullKey, out))
  }

  function Flatten(e: seq<Entry>): Flat {
    FlattenInto(e, "", [])
  }

  method FlattenTranslations(value: seq<Entry>, prefix: string, out: Flat) returns (result: Flat)
    ensures result == FlattenInto(value, prefix, out)
    decreases value
  {
    result := out;
    for i := 0 to |value|
      invariant FlattenInto(value, prefix, out) == FlattenInto(value[i..], prefix, result)
    {
      var fullKey := FullKey(prefix, value[i].key);
      assert value[i..][0] == value[i] && value[i..][1..] == value[i + 1..];
      match value[i].node {
        case Leaf(text) =>
          result := JsMap.Set(result, fullKey, text);
        case Sub(inner) =>
          assert value[i] in value;
          result := FlattenTranslations(inner, fullKey, result);
      }
    }
  }

  function FullPath(prefix: string, path: Path): string
    decreases |path|
  {
    if path == [] then prefix else FullPath(FullKey(prefix, path[0]), path[1..])
  }

  function Keyed(prefix: string, items: seq<(Path, string)>): (r: seq<(string, string)>)
    ensures |r| == |items|
    ensures forall i :: 0 <= i < |items| ==> r[i] == (FullPath(prefix, items[i].0), items[i].1)
  {
    if items == [] then [] else [(FullPath(prefix, items[0].0), items[0].1)] + Keyed(prefix, items[1..])
  }

  /** Flattening writes every text of the tree, in order, under its full key. */
  lemma {:induction false} FlattenWritesLeaves(e: seq<Entry>, prefix: string, out: Flat)
    ensures FlattenInto(e, prefix, out) == JsMap.SetAll(out, Keyed(prefix, Leaves(e)))
    decreases e
  {
    if e != [] {
      var fullKey := FullKey(prefix, e[0].key);
      var rest := Keyed(prefix, Leaves(e[1..]));
      match e[0].node {
        case Leaf(text) =>
          FlattenWritesLeaves(e[1..], prefix, JsMap.Set(out, fullKey, text));
          assert Leaves(e)[1..] == Leaves(e[1..]) && Leaves(e)[0].0[1..] == [];
          assert FullPath(prefix, Leaves(e)[0].0) == fullKey;
          var all := Keyed(prefix, Leaves(e));
          assert all[0] == (fullKey, text) && all[1..] == rest;
        case Sub(inner) =>
          FlattenWritesLeaves(inner, fullKey, out);
          FlattenWritesLeaves(e[1..], prefix, FlattenInto(inner, fullKey, out));
          var first := Keyed(fullKey, Leaves(inner));
          KeyedUnder(prefix, e[0].key, Leaves(inner));
          KeyedConcat(prefix, Under(e[0].key, Leaves(inner)), Leaves(e[1..]));
          JsMap.SetAllConcat(out, first, rest);
      }
    }
  }

  lemma {:induction false} KeyedConcat(prefix: string, a: seq<(Path, string)>, b: seq<(Path, string)>)
    ensures Keyed(prefix, a + b) == Keyed(prefix, a) + Keyed(prefix, b)
  {
  }

  lemma {:induction false} KeyedUnder(prefix: string, key: string, items: seq<(Path, string)>)
    ensures Keyed(prefix, Under(key, items)) == Keyed(FullKey(prefix, key), items)
  {
    forall i | 0 <= i < |items|
      ensures FullPath(prefix, Under(key, items)[i].0) == FullPath(FullKey(prefix, key), items[i].0)
    {
      assert ([key] + items[i].0)[1..] == items[i].0;
    }
  }

  lemma {:induction false} FlattenUnique(e: seq<Entry>)
    ensures JsMap.UniqueKeys(Flatten(e))
  {
    FlattenWritesLeaves(e, "", []);
    JsMap.SetAllKeepsUnique([], Keyed("", Leaves(e)));
  }

  // ----- split

  /** `dottedKey.split(".")` */
  function Split(s: string): (parts: Path)
    ensures parts != []
  {
    SplitOn(s, '.')
  }

  lemma {:induction false} FullPathJoins(prefix: string, path: Path)
    requires path != [] && prefix != ""
    ensures FullPath(prefix, path) == prefix + "." + Join(path, '.')
    decreases |path|
  {
    if |path| == 1 {
      assert path[1..] == [];
    } else {
      FullPathJoins(FullKey(prefix, path[0]), path[1..]);
      assert prefix + "." + path[0] + "." + Join(path[1..], '.') == prefix + "." + (path[0] + "." + Join(path[1..], '.'));
    }
  }

  /** Without an empty first part the full key is the parts joined. */
  lemma {:induction false} FullPathOfRoot(path: Path)
    requires path != [] && (path[0] != "" || |path| == 1)
    ensures FullPath("", path) == Join(path, '.')
  {
    if |path| == 1 {
      assert path[1..] == [];
    } else {
      FullPathJoins(path[0], path[1..]);
    }
  }

  // ----- which flat maps survive the rebuild

  function Paths(flat: Flat): (r: seq<(Path, string)>)
    ensures |r| == |flat|
    ensures forall i :: 0 <= i < |flat| ==> r[i] == (Split(flat[i].0), flat[i].1)
  {
    if flat == [] then [] else [(Split(flat[0].0), flat[0].1)] + Paths(flat[1..])
  }

  /** The map written back: `setNestedValue` for every entry, in order. */
  function Rebuild(flat: Flat): seq<Entry> {
    PutAll([], Paths(flat))
  }

  predicate LeadingDot(key: string) {
    key != "" && key[0] == '.'
  }

  /** What a caller can check: no key starts with a dot, and no key's parts begin another's. */
  ghost predicate Rebuildable(flat: Flat) {
    (forall i :: 0 <= i < |flat| ==> !LeadingDot(flat[i].0)) && PrefixFree(Paths(flat))
  }

  ghost predicate SurvivesRebuild(flat: Flat) {
    forall i :: 0 <= i < |flat| ==> JsMap.Get(Flatten(Rebuild(flat)), flat[i].0) == Some(flat[i].1)
  }

  lemma {:induction false} PathsNonEmpty(flat: Flat)
    ensures NonEmptyPaths(Paths(flat))
  {
  }

  /** The rebuilt tree holds nothing that was not written. */
  lemma {:induction false} RebuiltTexts(flat: Flat, p: Path, w: string)
    requires (p, w) in Leaves(Rebuild(flat))
    ensures exists i :: 0 <= i < |flat| && p == Split(flat[i].0) && w == flat[i].1
  {
    PathsNonEmpty(flat);
    PutAllShape([], Paths(flat));
    LeavesGet(Rebuild(flat), p, w);
    PutAllOnly([], Paths(flat), p);
    var i :| 0 <= i < |Paths(flat)| && Paths(flat)[i] == (p, w);
    assert p == Split(flat[i].0) && w == flat[i].1;
  }

  lemma {:induction false} KeyedHas(items: seq<(Path, string)>, key: string, w: string)
    ensures (key, w) in Keyed("", items) <==> exists p :: (p, w) in items && FullPath("", p) == key
  {
    if (key, w) in Keyed("", items) {
      var i :| 0 <= i < |items| && Keyed("", items)[i] == (key, w);
      assert (items[i].0, w) in items;
    }
    if exists p :: (p, w) in items && FullPath("", p) == key {
      var p :| (p, w) in items && FullPath("", p) == key;
      var i :| 0 <= i < |items| && items[i] == (p, w);
      assert Keyed("", items)[i] == (key, w);
    }
  }

  lemma {:induction false} SplitFullPath(key: string)
    requires !LeadingDot(key)
    ensures FullPath("", Split(key)) == key
  {
    SplitShape(key, '.');
    FullPathOfRoot(Split(key));
  }

  /** Keys that are Rebuildable come back with their texts, and no others come back. */
  lemma {:induction false} RoundTrip(flat: Flat, key: string)
    requires JsMap.UniqueKeys(flat) && Rebuildable(flat)
    ensures JsMap.Get(Flatten(Rebuild(flat)), key) == JsMap.Get(flat, key)
  {
    var tree := Rebuild(flat);
    var pairs := Keyed("", Leaves(tree));
    PathsNonEmpty(flat);
    PutAllShape([], Paths(flat));
    FlattenWritesLeaves(tree, "", []);
    forall w | (key, w) in pairs ensures JsMap.Get(flat, key) == Some(w) {
      KeyedHas(Leaves(tree), key, w);
      var p :| (p, w) in Leaves(tree) && FullPath("", p) == key;
      RebuiltTexts(flat, p, w);
      var i :| 0 <= i < |flat| && p == Split(flat[i].0) && w == flat[i].1;
      SplitFullPath(flat[i].0);
      JsMap.EntryIsGot(flat, i);
    }
    var value := if JsMap.Get(flat, key).Some? then JsMap.Get(flat, key).value else "";
    JsMap.GetSetAll([], pairs, key, value);
    if JsMap.Get(flat, key).Some? {
      JsMap.GetIsEntry(flat, key);
      var i :| 0 <= i < |flat| && flat[i] == (key, value);
      PutAllHolds([], Paths(flat), i);
      LeavesGet(tree, Split(key), value);
      SplitFullPath(key);
      KeyedHas(Leaves(tree), key, value);
    }
  }

  /** Exactly the Rebuildable maps survive: one dotted key that starts with a dot, or that runs
      through another, and some entry is lost. */
  lemma {:induction false} SurvivesIffRebuildable(flat: Flat)
    requires JsMap.UniqueKeys(flat)
    ensures SurvivesRebuild(flat) <==> Rebuildable(flat)
  {
    if Rebuildable(flat) {
      forall i | 0 <= i < |flat| ensures JsMap.Get(Flatten(Rebuild(flat)), flat[i].0) == Some(flat[i].1) {
        RoundTrip(flat, flat[i].0);
        JsMap.EntryIsGot(flat, i);
      }
    }
    if SurvivesRebuild(flat) {
      forall i | 0 <= i < |flat| ensures !LeadingDot(flat[i].0) {
        var p := SurvivorPath(flat, i);
      }
      forall i, j | 0 <= i < j < |flat| ensures Apart(Paths(flat)[i].0, Paths(flat)[j].0) {
        var p := SurvivorPath(flat, i);
        var q := SurvivorPath(flat, j);
        SurvivorSplit(flat, i, p);
        SurvivorSplit(flat, j, q);
        assert flat[i].0 != flat[j].0;
        HeldApart(Rebuild(flat), p, q);
      }
    }
  }

  /** A surviving entry sits at some path that was split off a key and spells its own key. */
  lemma {:induction false} SurvivorPath(flat: Flat, i: nat) returns (p: Path)
    requires SurvivesRebuild(flat) && i < |flat|
    ensures Get(Rebuild(flat), p).Some? && FullPath("", p) == flat[i].0
    ensures exists k :: 0 <= k < |flat| && p == Split(flat[k].0)
    ensures !LeadingDot(flat[i].0)
  {
    var tree, key, w := Rebuild(flat), flat[i].0, flat[i].1;
    var pairs := Keyed("", Leaves(tree));
    PathsNonEmpty(flat);
    PutAllShape([], Paths(flat));
    FlattenWritesLeaves(tree, "", []);
    JsMap.SetAllOnly([], pairs, key);
    KeyedHas(Leaves(tree), key, w);
    p :| (p, w) in Leaves(tree) && FullPath("", p) == key;
    LeavesGet(tree, p, w);
    RebuiltTexts(flat, p, w);
    var k :| 0 <= k < |flat| && p == Split(flat[k].0) && w == flat[k].1;
    SplitShape(flat[k].0, '.');
    NoLeadingDot(p);
  }

  lemma {:induction false} NoLeadingDot(p: Path)
    requires p != [] && FreeOf(p, '.')
    ensures !LeadingDot(FullPath("", p))
    decreases |p|
  {
    if p[0] != "" {
      FullPathOfRoot(p);
      assert p[0][0] in p[0];
    } else if |p| > 1 {
      NoLeadingDot(p[1..]);
    } else {
      assert p[1..] == [];
    }
  }

  lemma {:induction false} SurvivorSplit(flat: Flat, i: nat, p: Path)
    requires i < |flat| && FullPath("", p) == flat[i].0
    requires forall k :: 0 <= k < |flat| ==> !LeadingDot(flat[k].0)
    requires exists k :: 0 <= k < |flat| && p == Split(flat[k].0)
    ensures p == Split(flat[i].0)
  {
    var k :| 0 <= k < |flat| && p == Split(flat[k].0);
    SplitFullPath(flat[k].0);
  }

  // ----- ordinary translation maps

  /** Keys are non-empty and hold no dot, at every level. */
  ghost predicate Plain(e: seq<Entry>) {
    e == [] || (
      && e[0].key != "" && '.' !in e[0].key
      && (e[0].node.Sub? ==> Plain(e[0].node.entries))
      && Plain(e[1..]))
  }

  ghost predicate PlainPath(p: Path) {
    p != [] && FreeOf(p, '.') && p[0] != ""
  }

  lemma {:induction false} LeavesPlain(e: seq<Entry>, i: nat)
    requires Plain(e) && i < |Leaves(e)|
    ensures PlainPath(Leaves(e)[i].0)
    decreases e
  {
    var first := |Leaves(e)| - |Leaves(e[1..])|;
    if i >= first {
      LeavesPlain(e[1..], i - first);
    } else if e[0].node.Sub? {
      LeavesPlain(e[0].node.entries, i);
    }
  }

  lemma {:induction false} PlainPathSplits(p: Path)
    requires PlainPath(p)
    ensures Split(FullPath("", p)) == p && !LeadingDot(FullPath("", p))
  {
    FullPathOfRoot(p);
    SplitJoin(p, '.');
    SplitShape(Join(p, '.'), '.');
  }

  /** Flattening an ordinary map lists its texts under keys that split into their paths again. */
  lemma {:induction false} FlattenPlain(e: seq<Entry>)
    requires WellFormed(e) && Plain(e)
    ensures JsMap.UniqueKeys(Flatten(e)) && Rebuildable(Flatten(e)) && Paths(Flatten(e)) == Leaves(e)
  {
    var leaves := Leaves(e);
    var pairs := Keyed("", leaves);
    LeavesPrefixFree(e);
    forall i | 0 <= i < |leaves| ensures Split(pairs[i].0) == leaves[i].0 && !LeadingDot(pairs[i].0) {
      LeavesPlain(e, i);
      PlainPathSplits(leaves[i].0);
    }
    forall i, j | 0 <= i < j < |pairs| ensures pairs[i].0 != pairs[j].0 {
      assert Apart(leaves[i].0, leaves[j].0);
    }
    FlattenWritesLeaves(e, "", []);
    assert [] + pairs == pairs;
    JsMap.SetAllNew([], pairs);
    assert Paths(pairs) == leaves;
  }

  /** Writing an ordinary map's flattened entries back gives the map without its empty sub-maps. */
  lemma {:induction false} RebuildPlain(e: seq<Entry>)
    requires WellFormed(e) && Plain(e)
    ensures Rebuild(Flatten(e)) == Prune(e)
    ensures Flatten(Rebuild(Flatten(e))) == Flatten(e)
  {
    FlattenPlain(e);
    PutLeavesBack([], e);
    assert [] + Prune(e) == Prune(e);
    LeavesPrune(e);
    FlattenWritesLeaves(e, "", []);
    FlattenWritesLeaves(Prune(e), "", []);
  }

  lemma {:induction false} LeavesPrune(e: seq<Entry>)
    ensures Leaves(Prune(e)) == Leaves(e)
    decreases e
  {
    if e != [] {
      LeavesPrune(e[1..]);
      if e[0].node.Sub? {
        var inner := e[0].node.entries;
        LeavesPrune(inner);
        PruneNothing(inner);
        if Prune(inner) == [] {
          assert [] + Prune(e[1..]) == Prune(e[1..]) && [] + Leaves(e[1..]) == Leaves(e[1..]);
        } else {
          assert Prune(e)[1..] == Prune(e[1..]);
        }
      } else {
        assert Prune(e)[1..] == Prune(e[1..]);
      }
    }
  }

  /** In any order the same texts end up at the same paths, and no sub-map is empty. */
  lemma {:induction false} RebuildPlainInAnyOrder(e: seq<Entry>, flat: Flat, path: Path)
    requires WellFormed(e) && Plain(e) && multiset(flat) == multiset(Flatten(e))
    ensures WellFormed(Rebuild(flat)) && NoEmpty(Rebuild(flat))
    ensures Get(Rebuild(flat), path) == Get(e, path)
  {
    FlattenPlain(e);
    PathsPermuted(flat, Flatten(e));
    WrittenInAnyOrder(e, Paths(flat), path);
  }

  lemma {:induction false} PathsPermuted(a: Flat, b: Flat)
    requires multiset(a) == multiset(b) && PrefixFree(Paths(b))
    ensures PrefixFree(Paths(a)) && forall x :: x in Paths(a) <==> x in Paths(b)
  {
    PathsWithin(a, b);
    PathsWithin(b, a);
    forall i, j | 0 <= i < j < |b| ensures b[i] != b[j] {
      assert Apart(Paths(b)[i].0, Paths(b)[j].0);
    }
    Sorting.DistinctByMultiset(b);
    Sorting.DistinctByMultiset(a);
    forall i, j | 0 <= i < j < |a| ensures Apart(Paths(a)[i].0, Paths(a)[j].0) {
      assert a[i] in multiset(b) && a[j] in multiset(b);
      EntriesApart(b, a[i], a[j]);
    }
  }

  lemma {:induction false} EntriesApart(b: Flat, x: (string, string), y: (string, string))
    requires PrefixFree(Paths(b)) && x in b && y in b && x != y
    ensures Apart(Split(x.0), Split(y.0))
  {
    var k :| 0 <= k < |b| && b[k] == x;
    var l :| 0 <= l < |b| && b[l] == y;
    if k < l {
      assert Apart(Paths(b)[k].0, Paths(b)[l].0);
    } else {
      assert Apart(Paths(b)[l].0, Paths(b)[k].0);
    }
  }

  lemma {:induction false} PathsWithin(a: Flat, b: Flat)
    requires multiset(a) == multiset(b)
    ensures forall x :: x in Paths(a) ==> x in Paths(b)
  {
    forall i | 0 <= i < |a| ensures Paths(a)[i] in Paths(b) {
      assert a[i] in multiset(b);
      var k :| 0 <= k < |b| && b[k] == a[i];
      assert Paths(b)[k] == Paths(a)[i];
    }
  }
}
