/** What a run of `syncLocale` finds after a completed write: everything as it was left, except
    that without a provider the list of fallback keys may come in another order. */
module SyncFixpoint {
  import opened Options
  import opened Sorting
  import opened StableSorting
  import JsMap
  import opened TranslationTree
  import opened FlatTranslations
  import opened TranslationBatches
  import opened SyncLocale

  // ----- the keys of a map that meet a test

  /** In source order. */
  function KeysWhere(src: Flat, p: (string, string) -> bool): seq<string> {
    if src == [] then []
    else
      var (key, text) := src[|src| - 1];
      var before := KeysWhere(src[..|src| - 1], p);
      if p(key, text) then before + [key] else before
  }

  lemma {:induction false} WhereHas(src: Flat, p: (string, string) -> bool, key: string)
    ensures key in KeysWhere(src, p) <==> exists i :: 0 <= i < |src| && src[i].0 == key && p(src[i].0, src[i].1)
  {
    if src != [] {
      var n := |src| - 1;
      WhereHas(src[..n], p, key);
      if i :| 0 <= i < n && src[..n][i].0 == key && p(src[..n][i].0, src[..n][i].1) {
        assert src[i] == src[..n][i];
      }
      if i :| 0 <= i < |src| && src[i].0 == key && p(src[i].0, src[i].1) {
        assert i < n ==> src[..n][i] == src[i];
      }
    }
  }

  lemma {:induction false} WhereOrder(src: Flat, p: (string, string) -> bool, i: nat, j: nat)
    requires i < j < |src| && p(src[i].0, src[i].1) && p(src[j].0, src[j].1)
    ensures Before(KeysWhere(src, p), src[i].0, src[j].0)
  {
    var n := |src| - 1;
    var front := KeysWhere(src[..n], p);
    if j < n {
      WhereOrder(src[..n], p, i, j);
      BeforeMore(front, [src[n].0], src[i].0, src[j].0);
    } else {
      WhereHas(src[..n], p, src[i].0);
      assert src[..n][i] == src[i];
      BeforeMore(front, [src[n].0], src[i].0, src[n].0);
    }
  }

  lemma {:induction false} WhereDistinct(src: Flat, p: (string, string) -> bool)
    requires JsMap.UniqueKeys(src)
    ensures Distinct(KeysWhere(src, p))
  {
    if src != [] {
      var n := |src| - 1;
      WhereDistinct(src[..n], p);
      WhereHas(src[..n], p, src[n].0);
    }
  }

  lemma {:induction false} WhereSame(src: Flat, p: (string, string) -> bool, q: (string, string) -> bool)
    requires forall i :: 0 <= i < |src| ==> (p(src[i].0, src[i].1) <==> q(src[i].0, src[i].1))
    ensures KeysWhere(src, p) == KeysWhere(src, q)
  {
    if src != [] {
      WhereSame(src[..|src| - 1], p, q);
    }
  }

  // ----- when two orders of them sort alike

  ghost function Either(p: (string, string) -> bool, q: (string, string) -> bool): (string, string) -> bool {
    (key, text) => p(key, text) || q(key, text)
  }

  ghost predicate NotBoth(src: Flat, p: (string, string) -> bool, q: (string, string) -> bool) {
    forall i :: 0 <= i < |src| ==> !(p(src[i].0, src[i].1) && q(src[i].0, src[i].1))
  }

  /** A key that meets `q` stands before a tied one that meets `p`. */
  ghost predicate Crossed(
    leq: (string, string) -> bool, src: Flat, p: (string, string) -> bool, q: (string, string) -> bool)
  {
    exists i, j :: 0 <= i < j < |src| && q(src[i].0, src[i].1) && p(src[j].0, src[j].1)
      && Tied(leq, src[i].0, src[j].0)
  }

  lemma {:induction false} PartsAndWhole(src: Flat, p: (string, string) -> bool, q: (string, string) -> bool)
    requires JsMap.UniqueKeys(src) && NotBoth(src, p, q)
    ensures Distinct(KeysWhere(src, p) + KeysWhere(src, q))
    ensures Elements(KeysWhere(src, p) + KeysWhere(src, q)) == Elements(KeysWhere(src, Either(p, q)))
  {
    var ps, qs, whole := KeysWhere(src, p), KeysWhere(src, q), KeysWhere(src, Either(p, q));
    WhereDistinct(src, p);
    WhereDistinct(src, q);
    forall key ensures !(key in ps && key in qs) {
      WhereHas(src, p, key);
      WhereHas(src, q, key);
    }
    assert forall i, j :: 0 <= i < |ps| && 0 <= j < |qs| ==> ps[i] in ps && qs[j] in qs;
    forall key ensures key in ps + qs <==> key in whole {
      WhereHas(src, p, key);
      WhereHas(src, q, key);
      WhereHas(src, Either(p, q), key);
    }
  }

  /** Two keys in source order keep it in the two parts, unless the second part's comes first. */
  lemma {:induction false} PartsOrder(
    src: Flat, p: (string, string) -> bool, q: (string, string) -> bool, i: nat, j: nat)
    requires i < j < |src|
    requires Either(p, q)(src[i].0, src[i].1) && Either(p, q)(src[j].0, src[j].1)
    ensures Before(KeysWhere(src, p) + KeysWhere(src, q), src[i].0, src[j].0)
      || (q(src[i].0, src[i].1) && p(src[j].0, src[j].1))
    ensures q(src[i].0, src[i].1) && p(src[j].0, src[j].1) ==>
      Before(KeysWhere(src, p) + KeysWhere(src, q), src[j].0, src[i].0)
  {
    var ps, qs := KeysWhere(src, p), KeysWhere(src, q);
    var x, y := src[i].0, src[j].0;
    BeforeMore(ps, qs, x, y);
    BeforeMore(ps, qs, y, x);
    if p(src[i].0, src[i].1) && p(src[j].0, src[j].1) {
      WhereOrder(src, p, i, j);
    }
    if q(src[i].0, src[i].1) && q(src[j].0, src[j].1) {
      WhereOrder(src, q, i, j);
    }
    WhereHas(src, p, x);
    WhereHas(src, p, y);
    WhereHas(src, q, x);
    WhereHas(src, q, y);
  }

  lemma {:induction false} WholeOrder(
    src: Flat, r: (string, string) -> bool, x: string, y: string) returns (i: nat, j: nat)
    requires JsMap.UniqueKeys(src) && Before(KeysWhere(src, r), x, y)
    ensures i < j < |src| && src[i].0 == x && src[j].0 == y
    ensures r(src[i].0, src[i].1) && r(src[j].0, src[j].1)
  {
    BeforeIn(KeysWhere(src, r), x, y);
    WhereHas(src, r, x);
    WhereHas(src, r, y);
    i :| 0 <= i < |src| && src[i].0 == x && r(src[i].0, src[i].1);
    j :| 0 <= j < |src| && src[j].0 == y && r(src[j].0, src[j].1);
    WhereDistinct(src, r);
    BeforeApart(KeysWhere(src, r), x, y);
    OneOrder(KeysWhere(src, r), x, y);
    if j < i {
      WhereOrder(src, r, j, i);
    }
  }

  lemma {:induction false} BeforeApart(s: seq<string>, x: string, y: string)
    requires Distinct(s) && Before(s, x, y)
    ensures x != y
  {
  }

  lemma {:induction false} PartsSortAlike(
    leq: (string, string) -> bool, src: Flat, p: (string, string) -> bool, q: (string, string) -> bool)
    requires TotalPreorder(leq) && JsMap.UniqueKeys(src) && NotBoth(src, p, q)
    ensures SortBy(leq, KeysWhere(src, Either(p, q))) == SortBy(leq, KeysWhere(src, p) + KeysWhere(src, q))
      <==> !Crossed(leq, src, p, q)
  {
    var parts, whole := KeysWhere(src, p) + KeysWhere(src, q), KeysWhere(src, Either(p, q));
    PartsAndWhole(src, p, q);
    WhereDistinct(src, Either(p, q));
    SortSameIff(leq, whole, parts);
    if Crossed(leq, src, p, q) {
      CrossedDisagrees(leq, src, p, q);
    } else {
      forall x, y {:trigger Before(whole, x, y)} | Tied(leq, x, y) && Before(whole, x, y) ensures Before(parts, x, y) {
        var i, j := WholeOrder(src, Either(p, q), x, y);
        PartsOrder(src, p, q, i, j);
      }
    }
  }

  lemma {:induction false} CrossedDisagrees(
    leq: (string, string) -> bool, src: Flat, p: (string, string) -> bool, q: (string, string) -> bool)
    requires JsMap.UniqueKeys(src) && NotBoth(src, p, q) && Crossed(leq, src, p, q)
    ensures !TiesAgree(leq, KeysWhere(src, Either(p, q)), KeysWhere(src, p) + KeysWhere(src, q))
  {
    var parts, whole := KeysWhere(src, p) + KeysWhere(src, q), KeysWhere(src, Either(p, q));
    var i, j :| 0 <= i < j < |src| && q(src[i].0, src[i].1) && p(src[j].0, src[j].1)
      && Tied(leq, src[i].0, src[j].0);
    PartsAndWhole(src, p, q);
    WhereOrder(src, Either(p, q), i, j);
    PartsOrder(src, p, q, i, j);
    BeforeIn(parts, src[j].0, src[i].0);
    OneOrder(parts, src[i].0, src[j].0);
  }

  // ----- the fallback list of the next run

  ghost function Kept(cfg: Config, ld: Loaded): (string, string) -> bool {
    (key, text) => IsKept(cfg, ld, key, text)
  }

  ghost function Pends(cfg: Config, ld: Loaded): (string, string) -> bool {
    (key, text) => Decide(cfg, ld, key, text) == Pend
  }

  lemma {:induction false} KeptWhere(cfg: Config, ld: Loaded, src: Flat)
    ensures KeptFallbacks(cfg, ld, src) == KeysWhere(src, Kept(cfg, ld))
  {
    if src != [] {
      var n := |src| - 1;
      KeptWhere(cfg, ld, src[..n]);
      var front := KeptFallbacks(cfg, ld, src[..n]);
      assert front + [] == front;
      assert KeptFallbacks(cfg, ld, src) == if IsKept(cfg, ld, src[n].0, src[n].1) then front + [src[n].0] else front;
    }
  }

  lemma {:induction false} PendingWhere(cfg: Config, ld: Loaded, src: Flat)
    ensures ItemKeys(Pending(cfg, ld, src)) == KeysWhere(src, Pends(cfg, ld))
  {
    if src != [] {
      var n := |src| - 1;
      PendingWhere(cfg, ld, src[..n]);
      var front := Pending(cfg, ld, src[..n]);
      var item := Item(cfg, src[n].0, src[n].1);
      KeysAppend(front, item);
      PendingLast(cfg, ld, src);
    }
  }

  lemma {:induction false} PendingLast(cfg: Config, ld: Loaded, src: Flat)
    requires src != []
    ensures var n := |src| - 1;
      Pending(cfg, ld, src) == if Decide(cfg, ld, src[n].0, src[n].1) == Pend
        then Pending(cfg, ld, src[..n]) + [Item(cfg, src[n].0, src[n].1)] else Pending(cfg, ld, src[..n])
  {
  }

  lemma {:induction false} KeysAppend(items: seq<BatchItem>, item: BatchItem)
    ensures ItemKeys(items + [item]) == ItemKeys(items) + [item.key]
  {
  }

  lemma {:induction false} DedupeNothing(keys: seq<string>)
    requires Distinct(keys)
    ensures Dedupe(keys) == keys
  {
    if keys != [] {
      var n := |keys| - 1;
      DedupeNothing(keys[..n]);
      assert keys == keys[..n] + [keys[n]];
    }
  }

  /** The sources of drift: a new key that stands before a kept fallback with which the
      comparison ties it. The run lists kept fallbacks before new ones, the next run all of them
      in source order. */
  ghost predicate Drifts(cfg: Config, ld: Loaded) {
    Crossed(cfg.leq, Flatten(cfg.source), Kept(cfg, ld), Pends(cfg, ld))
  }

  /** With a provider there are no kept fallbacks, so nothing drifts. */
  lemma {:induction false} ProviderNeverDrifts(cfg: Config, ld: Loaded)
    requires cfg.allowTranslate
    ensures !Drifts(cfg, ld)
  {
  }

  /** Without one, the next run lists the same fallbacks, and in the same order exactly if
      nothing drifts. */
  lemma {:induction false} FallbacksAgain(cfg: Config, ld: Loaded, t: map<string, string>, ld': Loaded)
    requires ConfigOk(cfg) && !cfg.allowTranslate
    requires ReusesAll(cfg, ld, t, ld', Flatten(cfg.source))
    ensures var src := Flatten(cfg.source);
      && (SortedFallbacks(cfg, ld', src) == SortedFallbacks(cfg, ld, src) <==> !Drifts(cfg, ld))
      && |SortedFallbacks(cfg, ld', src)| == |SortedFallbacks(cfg, ld, src)|
  {
    var src := Flatten(cfg.source);
    var p, q := Kept(cfg, ld), Pends(cfg, ld);
    FlattenUnique(cfg.source);
    NextFallbacks(cfg, ld, t, ld');
    KeptWhere(cfg, ld, src);
    PendingWhere(cfg, ld, src);
    PartsAndWhole(src, p, q);
    WhereDistinct(src, Either(p, q));
    DedupeNothing(KeysWhere(src, p) + KeysWhere(src, q));
    DedupeNothing(KeysWhere(src, Either(p, q)));
    PartsSortAlike(cfg.leq, src, p, q);
    SameSize(KeysWhere(src, p) + KeysWhere(src, q), KeysWhere(src, Either(p, q)));
  }

  lemma {:induction false} SameSize(a: seq<string>, b: seq<string>)
    requires Distinct(a) && Distinct(b) && Elements(a) == Elements(b)
    ensures |a| == |b|
  {
    DistinctBySize(a);
    DistinctBySize(b);
  }

  /** The next run keeps all fallbacks of this one, in source order. */
  lemma {:induction false} NextFallbacks(cfg: Config, ld: Loaded, t: map<string, string>, ld': Loaded)
    requires ConfigOk(cfg) && !cfg.allowTranslate
    requires ReusesAll(cfg, ld, t, ld', Flatten(cfg.source))
    ensures FallbackKeys(cfg, ld', Flatten(cfg.source))
      == KeysWhere(Flatten(cfg.source), Either(Kept(cfg, ld), Pends(cfg, ld)))
  {
    var src := Flatten(cfg.source);
    NothingPending(cfg, ld, t, ld', src);
    KeptWhere(cfg, ld', src);
    forall i | 0 <= i < |src|
      ensures Kept(cfg, ld')(src[i].0, src[i].1) <==> Either(Kept(cfg, ld), Pends(cfg, ld))(src[i].0, src[i].1)
    {
      FallbackIff(cfg, ld, i);
    }
    WhereSame(src, Kept(cfg, ld'), Either(Kept(cfg, ld), Pends(cfg, ld)));
  }

  // ----- the next run

  lemma {:induction false} HeldIsCurrent(files: Files, e: Expected, f: Expected)
    requires Holds(files, e)
    ensures Current(files, f) <==> f == e
  {
  }

  /** The next run expects the texts, the glossary and the memory that are there. */
  lemma {:induction false} ContentAgain(
    cfg: Config, codec: Codec, files: Files, clock: Clock, t: map<string, string>, after: Files,
    clock': Clock, t': map<string, string>)
    requires ConfigOk(cfg) && CodecOk(codec)
    requires cfg.allowTranslate ==> Answers(Pending(cfg, LoadAll(codec, files), Flatten(cfg.source)), t)
    requires Holds(after, Expect(cfg, codec, LoadAll(codec, files), clock, t))
    requires Pending(cfg, LoadAll(codec, after), Flatten(cfg.source)) == []
    requires ReusesAll(cfg, LoadAll(codec, files), t, LoadAll(codec, after), Flatten(cfg.source))
    ensures var e, f := Expect(cfg, codec, LoadAll(codec, files), clock, t),
                        Expect(cfg, codec, LoadAll(codec, after), clock', t');
      f == e.(meta := f.meta)
  {
    var ld, ld', src := LoadAll(codec, files), LoadAll(codec, after), Flatten(cfg.source);
    assert Valued(cfg, ld', t', src) == Valued(cfg, ld, t, src);
    MemoryWell(cfg, codec, files, clock, t);
    RenderedMemory(cfg, codec, after, NextMemory(cfg, ld, clock, Pending(cfg, ld, src), t), "");
    assert NewEntries(cfg, clock', [], t') == [];
    assert NextMemory(cfg, ld', clock', Pending(cfg, ld', src), t') == ld'.tm;
  }

  /** The metadata is what it was, time stamp included, exactly if the fallback list is. */
  lemma {:induction false} MetaAgain(cfg: Config, ld: Loaded, ld': Loaded, src: Flat, clock: Clock, clock': Clock)
    requires ld'.previousMeta == Some(NextMeta(cfg, ld, src, clock))
    ensures NextMeta(cfg, ld', src, clock') == NextMeta(cfg, ld, src, clock)
      <==> SortedFallbacks(cfg, ld', src) == SortedFallbacks(cfg, ld, src)
  {
  }

  lemma {:induction false} MetaTextAgain(codec: Codec, m: Meta, n: Meta)
    requires CodecOk(codec)
    ensures codec.renderMeta(m) == codec.renderMeta(n) <==> m == n
  {
    assert codec.parseMeta(codec.renderMeta(m)) == m && codec.parseMeta(codec.renderMeta(n)) == n;
  }

  /** After a completed write nothing is pending, and the next run expects what is there exactly
      if nothing drifts. */
  lemma {:induction false} StableAfter(
    cfg: Config, codec: Codec, files: Files, clock: Clock, t: map<string, string>, after: Files,
    clock': Clock, t': map<string, string>)
    requires ConfigOk(cfg) && CodecOk(codec)
    requires cfg.allowTranslate ==> Answers(Pending(cfg, LoadAll(codec, files), Flatten(cfg.source)), t)
    requires Holds(after, Expect(cfg, codec, LoadAll(codec, files), clock, t))
    ensures var ld, ld', src := LoadAll(codec, files), LoadAll(codec, after), Flatten(cfg.source);
      && Pending(cfg, ld', src) == []
      && |SortedFallbacks(cfg, ld', src)| == |SortedFallbacks(cfg, ld, src)|
      && (Expect(cfg, codec, ld', clock', t') == Expect(cfg, codec, ld, clock, t) <==> !Drifts(cfg, ld))
  {
    var ld, ld', src := LoadAll(codec, files), LoadAll(codec, after), Flatten(cfg.source);
    DecidedAllAgain(cfg, codec, files, clock, t, after);
    NothingPending(cfg, ld, t, ld', src);
    ListAgain(cfg, ld, t, ld');
    ContentAgain(cfg, codec, files, clock, t, after, clock', t');
    MetaLoadedAgain(cfg, codec, files, clock, t, after);
    MetaAgain(cfg, ld, ld', src, clock, clock');
    MetaTextAgain(codec, NextMeta(cfg, ld', src, clock'), NextMeta(cfg, ld, src, clock));
  }

  lemma {:induction false} ListAgain(cfg: Config, ld: Loaded, t: map<string, string>, ld': Loaded)
    requires ConfigOk(cfg) && ReusesAll(cfg, ld, t, ld', Flatten(cfg.source))
    ensures var src := Flatten(cfg.source);
      && (SortedFallbacks(cfg, ld', src) == SortedFallbacks(cfg, ld, src) <==> !Drifts(cfg, ld))
      && |SortedFallbacks(cfg, ld', src)| == |SortedFallbacks(cfg, ld, src)|
  {
    if cfg.allowTranslate {
      ProviderLeavesNoFallback(cfg, ld, Flatten(cfg.source));
      ProviderLeavesNoFallback(cfg, ld', Flatten(cfg.source));
      ProviderNeverDrifts(cfg, ld);
    } else {
      FallbacksAgain(cfg, ld, t, ld');
    }
  }

  /** After a completed `sync --write`, whatever the translator answered, the next run of the same
      configuration has nothing pending, so it asks the translator nothing. It reports a change
      exactly if the first run had a new key before a kept fallback that ties with it; else `check`
      is clean, time stamp included, and the files stay as they are. */
  lemma {:induction false} CleanAfterWrite(
    cfg: Config, codec: Codec, files: Files, force: bool, clock: Clock, t: map<string, string>,
    options: SyncOptions, clock': Clock, t': map<string, string>)
    requires ConfigOk(cfg) && CodecOk(codec)
    requires cfg.allowTranslate ==> Answers(Pending(cfg, LoadAll(codec, files), Flatten(cfg.source)), t)
    ensures var first := Synced(cfg, codec, files, SyncOptions(false, force, true), clock, t);
      && Pending(cfg, LoadAll(codec, first.files), Flatten(cfg.source)) == []
      && var second := Synced(cfg, codec, first.files, options, clock', t');
      (second.changed <==> Drifts(cfg, LoadAll(codec, files)))
      && (second.files == first.files || second.changed) && second.fallbackCount == first.fallbackCount
  {
    var after := Synced(cfg, codec, files, SyncOptions(false, force, true), clock, t).files;
    WriteHolds(cfg, codec, files, force, clock, t);
    StableAfter(cfg, codec, files, clock, t, after, clock', t');
    HeldIsCurrent(after, Expect(cfg, codec, LoadAll(codec, files), clock, t),
                  Expect(cfg, codec, LoadAll(codec, after), clock', t'));
  }

  /** A second write settles it: from then on every check is clean. */
  lemma {:induction false} CleanAfterTwoWrites(
    cfg: Config, codec: Codec, files: Files, force: bool, clock: Clock, t: map<string, string>,
    force': bool, clock': Clock, t': map<string, string>, options: SyncOptions,
    clock'': Clock, t'': map<string, string>)
    requires ConfigOk(cfg) && CodecOk(codec)
    requires cfg.allowTranslate ==> Answers(Pending(cfg, LoadAll(codec, files), Flatten(cfg.source)), t)
    ensures var first := Synced(cfg, codec, files, SyncOptions(false, force, true), clock, t);
      var second := Synced(cfg, codec, first.files, SyncOptions(false, force', true), clock', t');
      !Synced(cfg, codec, second.files, options, clock'', t'').changed
  {
    var first := Synced(cfg, codec, files, SyncOptions(false, force, true), clock, t);
    CleanAfterWrite(cfg, codec, files, force, clock, t, options, clock', t');
    NothingPendingNeverDrifts(cfg, LoadAll(codec, first.files));
    CleanAfterWrite(cfg, codec, first.files, force', clock', t', options, clock'', t'');
  }

  lemma {:induction false} NothingPendingNeverDrifts(cfg: Config, ld: Loaded)
    requires Pending(cfg, ld, Flatten(cfg.source)) == []
    ensures !Drifts(cfg, ld)
  {
    var src := Flatten(cfg.source);
    forall i | 0 <= i < |src| ensures !Pends(cfg, ld)(src[i].0, src[i].1) {
      if Decide(cfg, ld, src[i].0, src[i].1) == Pend {
        PendingHas(cfg, ld, src, i);
      }
    }
  }

  // ----- a run that drifts

  /** A source of two keys. */
  function TwoKeys(a: string, ta: string, b: string, tb: string): seq<Entry> {
    [Entry(a, Leaf(ta)), Entry(b, Leaf(tb))]
  }

  lemma {:induction false} FlatTwoKeys(a: string, ta: string, b: string, tb: string)
    requires a != b
    ensures Flatten(TwoKeys(a, ta, b, tb)) == [(a, ta), (b, tb)] && Flatten([Entry(b, Leaf(tb))]) == [(b, tb)]
  {
    var e := TwoKeys(a, ta, b, tb);
    assert e[1..] == [e[1]] && [e[1]][1..] == [];
    assert JsMap.Set([(a, ta)], b, tb) == [(a, ta), (b, tb)] by { assert [(a, ta)][1..] == []; }
    assert FlattenInto([e[1]], "", [(a, ta)]) == FlattenInto([], "", JsMap.Set([(a, ta)], b, tb));
    assert FlattenInto([e[1]], "", []) == FlattenInto([], "", [(b, tb)]);
  }

  /** The files a run without a provider leaves when `b` is the only key. */
  function FilesOfOneKey(codec: Codec, b: string, text: string, meta: Meta): Files {
    Files(Some(codec.renderLocale([Entry(b, Leaf(text))])), Some(codec.renderMeta(meta)), None, None)
  }

  lemma {:induction false} LoadOneKey(codec: Codec, b: string, text: string, meta: Meta)
    requires CodecOk(codec)
    ensures LoadAll(codec, FilesOfOneKey(codec, b, text, meta)) == Loaded([(b, text)], Some(meta), [], [])
  {
    var e := [Entry(b, Leaf(text))];
    assert e[1..] == [] && WellFormed(e);
    assert codec.parseLocale(codec.renderLocale(e)) == Some(e);
    assert codec.parseMeta(codec.renderMeta(meta)) == meta;
    assert FlattenInto(e, "", []) == FlattenInto([], "", [(b, text)]);
  }

  /** A locale with the one fallback `b`; then a key `a` that the comparison ties with `b` is put
      before it in the source. The write that follows is not clean: its check reports a change. */
  lemma {:induction false} NewKeyBeforeTiedFallback(
    cfg: Config, codec: Codec, a: string, ta: string, b: string, tb: string, text: string, meta: Meta,
    force: bool, clock: Clock, t: map<string, string>, clock': Clock, t': map<string, string>)
    requires CodecOk(codec) && ConfigOk(cfg) && !cfg.allowTranslate
    requires cfg.source == TwoKeys(a, ta, b, tb) && Tied(cfg.leq, a, b) && meta.fallbackKeys == [b]
    ensures var files := FilesOfOneKey(codec, b, text, meta);
      var first := Synced(cfg, codec, files, SyncOptions(false, force, true), clock, t);
      Synced(cfg, codec, first.files, SyncOptions(true, false, false), clock', t').changed
  {
    var files := FilesOfOneKey(codec, b, text, meta);
    var ld, src := LoadAll(codec, files), Flatten(cfg.source);
    FlatTwoKeys(a, ta, b, tb);
    LoadOneKey(codec, b, text, meta);
    NewBeforeKept(cfg, ld, a, ta, b, tb, text, meta);
    CleanAfterWrite(cfg, codec, files, force, clock, t, SyncOptions(true, false, false), clock', t');
  }

  lemma {:induction false} GetOfOne(key: string, value: string, other: string)
    ensures JsMap.Get([(key, value)], other) == if other == key then Some(value) else None
  {
    var m := [(key, value)];
    assert m[0] == (key, value) && m[1..] == [];
    assert JsMap.Get(m[1..], other) == None;
  }

  lemma {:induction false} NewBeforeKept(
    cfg: Config, ld: Loaded, a: string, ta: string, b: string, tb: string, text: string, meta: Meta)
    requires !cfg.allowTranslate && Flatten(cfg.source) == [(a, ta), (b, tb)] && Tied(cfg.leq, a, b)
    requires ld == Loaded([(b, text)], Some(meta), [], []) && meta.fallbackKeys == [b]
    ensures Drifts(cfg, ld)
  {
    var src := Flatten(cfg.source);
    GetOfOne(b, text, a);
    GetOfOne(b, text, b);
    assert JsMap.Get(ld.tm, SegmentCacheKey(cfg, a, ta)) == None;
    assert JsMap.Get(ld.tm, SegmentCacheKey(cfg, b, tb)) == None;
    assert b in meta.fallbackKeys && WasFallback(ld, b);
    assert Decide(cfg, ld, a, ta) == Pend && Decide(cfg, ld, b, tb) == Reuse(text, true);
    assert Pends(cfg, ld)(src[0].0, src[0].1) && Kept(cfg, ld)(src[1].0, src[1].1);
  }

  /** Such configurations exist for every pair of different keys without dots. */
  lemma {:induction false} TwoKeysAreFine(cfg: Config, a: string, ta: string, b: string, tb: string)
    requires cfg.source == TwoKeys(a, ta, b, tb) && TotalPreorder(cfg.leq)
    requires a != "" && b != "" && a != b && '.' !in a && '.' !in b
    requires SegmentCacheKey(cfg, a, ta) != "" && SegmentCacheKey(cfg, b, tb) != ""
    requires SegmentCacheKey(cfg, a, ta) != SegmentCacheKey(cfg, b, tb)
    ensures ConfigOk(cfg)
  {
    var e := cfg.source;
    assert e[1..] == [e[1]] && [e[1]][1..] == [];
    assert Plain([]) && WellFormed([]) && Plain([e[1]]) && WellFormed([e[1]]);
    FlattenPlain(e);
    FlatTwoKeys(a, ta, b, tb);
  }
}
