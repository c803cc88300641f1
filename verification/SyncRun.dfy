/** `syncLocale` as it runs: the loops that classify the keys, drive the translator batch by batch
    and fill in fallbacks, proved to compute the run that SyncLocale reasons about. */
module SyncRun {
  import opened Options
  import opened JsText
  import opened Sorting
  import JsMap
  import opened TranslationTree
  import opened FlatTranslations
  import opened TranslationMemory
  import opened TranslationBatches
  import opened TranslateBatch
  import opened SyncLocale

  lemma {:induction false} PendingDistinct(cfg: Config, ld: Loaded, src: Flat)
    requires JsMap.UniqueKeys(src)
    ensures Distinct(ItemKeys(Pending(cfg, ld, src)))
  {
    if src != [] {
      var n := |src| - 1;
      PendingDistinct(cfg, ld, src[..n]);
      var before := Pending(cfg, ld, src[..n]);
      forall k | 0 <= k < |before| ensures before[k].key != src[n].0 {
        PendingOnly(cfg, ld, src[..n], k);
      }
    }
  }

  // ----- classification

  function Reused(cfg: Config, ld: Loaded, key: string, text: string): Option<string> {
    match Decide(cfg, ld, key, text) case Reuse(reused, _) => Some(reused) case Pend => None
  }

  /** The first `n` source keys have their reused texts, the others nothing yet. */
  ghost predicate Classified(cfg: Config, ld: Loaded, src: Flat, n: nat, nextFlat: Flat) {
    forall j :: 0 <= j < |src| ==>
      JsMap.Get(nextFlat, src[j].0) == if j < n then Reused(cfg, ld, src[j].0, src[j].1) else None
  }

  lemma {:induction false} ClassifyOne(cfg: Config, ld: Loaded, src: Flat, n: nat, nextFlat: Flat)
    requires JsMap.UniqueKeys(src) && n < |src| && Classified(cfg, ld, src, n, nextFlat)
    ensures var reused := Reused(cfg, ld, src[n].0, src[n].1);
      Classified(cfg, ld, src, n + 1, if reused.Some? then JsMap.Set(nextFlat, src[n].0, reused.value) else nextFlat)
  {
    var reused := Reused(cfg, ld, src[n].0, src[n].1);
    if reused.Some? {
      forall j | 0 <= j < |src|
        ensures JsMap.Get(JsMap.Set(nextFlat, src[n].0, reused.value), src[j].0)
             == if j < n + 1 then Reused(cfg, ld, src[j].0, src[j].1) else None
      {
        JsMap.GetSet(nextFlat, src[n].0, reused.value, src[j].0);
        assert j != n ==> src[j].0 != src[n].0;
      }
    }
  }

  /** The loop over the source keys. */
  method Classify(cfg: Config, ld: Loaded, src: Flat)
    returns (nextFlat: Flat, pending: seq<BatchItem>, fallbackKeys: seq<string>)
    requires JsMap.UniqueKeys(src)
    ensures Classified(cfg, ld, src, |src|, nextFlat)
    ensures pending == Pending(cfg, ld, src) && fallbackKeys == KeptFallbacks(cfg, ld, src)
  {
    nextFlat, pending, fallbackKeys := [], [], [];
    for i := 0 to |src|
      invariant Classified(cfg, ld, src, i, nextFlat)
      invariant pending == Pending(cfg, ld, src[..i]) && fallbackKeys == KeptFallbacks(cfg, ld, src[..i])
    {
      var (key, text) := src[i];
      var textHash := cfg.hashText(text);
      var segmentCacheKey := cfg.cacheKey(key, textHash);
      var cached := JsMap.Get(ld.tm, segmentCacheKey);
      var existing := JsMap.Get(ld.existing, key);
      var shouldRefreshFallback := ld.previousMeta.Some? && key in ld.previousMeta.value.fallbackKeys;
      ClassifyOne(cfg, ld, src, i, nextFlat);
      assert src[..i + 1][..i] == src[..i];
      if cached.Some? && !(cfg.allowTranslate && shouldRefreshFallback) {
        nextFlat := JsMap.Set(nextFlat, key, cached.value.translated);
        if shouldRefreshFallback {
          fallbackKeys := fallbackKeys + [key];
        }
      } else if existing.Some? && !(cfg.allowTranslate && shouldRefreshFallback) {
        nextFlat := JsMap.Set(nextFlat, key, existing.value);
        if shouldRefreshFallback {
          fallbackKeys := fallbackKeys + [key];
        }
      } else {
        pending := pending + [BatchItem(segmentCacheKey, key, text, textHash)];
      }
    }
    assert src[..|src|] == src;
  }

  // ----- translation

  function Texts(items: seq<BatchItem>, t: map<string, string>): (r: Flat)
    ensures |r| == |items| && forall i :: 0 <= i < |items| ==> r[i] == (items[i].key, TextFor(t, items[i].key))
  {
    if items == [] then [] else [(items[0].key, TextFor(t, items[0].key))] + Texts(items[1..], t)
  }

  /** The maps after `items` were translated as `t` says. */
  ghost predicate Stored(
    cfg: Config, clock: Clock, items: seq<BatchItem>, t: map<string, string>,
    flat0: Flat, tm0: Memory, nextFlat: Flat, tm: Memory)
  {
    && Answers(items, t)
    && nextFlat == JsMap.SetAll(flat0, Texts(items, t))
    && tm == JsMap.SetAll(tm0, NewEntries(cfg, clock, items, t))
  }

  lemma {:induction false} StoreOne(
    cfg: Config, clock: Clock, items: seq<BatchItem>, t: map<string, string>,
    flat0: Flat, tm0: Memory, nextFlat: Flat, tm: Memory, item: BatchItem)
    requires Stored(cfg, clock, items, t, flat0, tm0, nextFlat, tm)
    requires item.key in t && !IsBlank(t[item.key])
    ensures Stored(cfg, clock, items + [item], t, flat0, tm0, JsMap.Set(nextFlat, item.key, t[item.key]),
                   JsMap.Set(tm, item.cacheKey, NewEntry(cfg, clock, item, t[item.key])))
  {
    var more := items + [item];
    assert Texts(more, t) == Texts(items, t) + [(item.key, t[item.key])];
    var entry := (item.cacheKey, NewEntry(cfg, clock, item, t[item.key]));
    assert NewEntries(cfg, clock, more, t) == NewEntries(cfg, clock, items, t) + [entry];
    JsMap.SetAllConcat(flat0, Texts(items, t), [(item.key, t[item.key])]);
    JsMap.SetAllConcat(tm0, NewEntries(cfg, clock, items, t), [entry]);
    SetAllOne(nextFlat, (item.key, t[item.key]));
    SetAllOne(tm, entry);
  }

  lemma {:induction false} SetAllOne<K, V>(m: JsMap.Map<K, V>, pair: (K, V))
    ensures JsMap.SetAll(m, [pair]) == JsMap.Set(m, pair.0, pair.1)
  {
    assert [pair][1..] == [];
  }

  /** Later batches bring other keys, so what is stored stays stored. */
  lemma {:induction false} StoredStill(
    cfg: Config, clock: Clock, items: seq<BatchItem>, t: map<string, string>, more: map<string, string>,
    flat0: Flat, tm0: Memory, nextFlat: Flat, tm: Memory)
    requires Stored(cfg, clock, items, t, flat0, tm0, nextFlat, tm)
    requires forall i :: 0 <= i < |items| ==> items[i].key !in more
    ensures Stored(cfg, clock, items, t + more, flat0, tm0, nextFlat, tm)
  {
    assert Texts(items, t + more) == Texts(items, t);
    assert NewEntries(cfg, clock, items, t + more) == NewEntries(cfg, clock, items, t);
  }

  /** The inner loop: what one translated batch adds to both maps. */
  method StoreBatch(cfg: Config, clock: Clock, batch: seq<BatchItem>, translated: map<string, string>,
                    flat: Flat, memory: Memory, ghost items: seq<BatchItem>, ghost t: map<string, string>,
                    ghost flat0: Flat, ghost tm0: Memory)
    returns (nextFlat: Flat, tm: Memory)
    requires Stored(cfg, clock, items, t, flat0, tm0, flat, memory)
    requires forall k :: k in translated ==> k in t && t[k] == translated[k] && !IsBlank(translated[k])
    requires forall i :: 0 <= i < |batch| ==> batch[i].key in translated
    ensures Stored(cfg, clock, items + batch, t, flat0, tm0, nextFlat, tm)
  {
    nextFlat, tm := flat, memory;
    assert items + [] == items;
    for i := 0 to |batch|
      invariant Stored(cfg, clock, items + batch[..i], t, flat0, tm0, nextFlat, tm)
    {
      var item := batch[i];
      assert items + batch[..i + 1] == items + batch[..i] + [item];
      var value := translated[item.key];
      StoreOne(cfg, clock, items + batch[..i], t, flat0, tm0, nextFlat, tm, item);
      if value == "" {
        continue;
      }
      nextFlat := JsMap.Set(nextFlat, item.key, value);
      tm := JsMap.Set(tm, item.cacheKey, NewEntry(cfg, clock, item, value));
    }
    assert batch[..|batch|] == batch;
  }

  /** The texts of the first `n` batches, or the error of the first that fails, and the number
      of prompts made. */
  function TranslateAll(world: World, batches: seq<seq<BatchItem>>, n: nat): (Result<Translations, string>, nat)
    requires n <= |batches|
  {
    if n == 0 then (Ok(map[]), 0)
    else
      var (before, at) := TranslateAll(world, batches, n - 1);
      if before.Err? then (before, at)
      else
        var (r, next) := Translate(world, at, batches[n - 1], 0);
        if r.Err? then (r, next) else (Ok(before.value + r.value), next)
  }

  lemma {:induction false} ErrorStays(world: World, batches: seq<seq<BatchItem>>, b: nat, n: nat)
    requires b <= n <= |batches| && TranslateAll(world, batches, b).0.Err?
    ensures TranslateAll(world, batches, n).0 == TranslateAll(world, batches, b).0
  {
    if b < n {
      ErrorStays(world, batches, b, n - 1);
    }
  }

  /** What translating the pending items comes to: the outcome for their greedy batches. There
      is only one such split, so this determines it. */
  ghost predicate Translated(
    world: World, pending: seq<BatchItem>, budget: real, outcome: Result<Translations, string>)
  {
    exists batches :: IsGreedy(batches, pending, budget) && TranslateAll(world, batches, |batches|).0 == outcome
  }

  ghost predicate IsGreedy(batches: seq<seq<BatchItem>>, pending: seq<BatchItem>, budget: real) {
    Concat(batches) == pending && AllAllowed(batches, budget) && Maximal(batches, budget)
  }

  lemma {:induction false} OneOutcome(
    world: World, pending: seq<BatchItem>, budget: real,
    a: Result<Translations, string>, b: Result<Translations, string>)
    requires Translated(world, pending, budget, a) && Translated(world, pending, budget, b)
    ensures a == b
  {
    var x :| IsGreedy(x, pending, budget) && TranslateAll(world, x, |x|).0 == a;
    var y :| IsGreedy(y, pending, budget) && TranslateAll(world, y, |y|).0 == b;
    GreedyUnique(x, y, budget);
  }

  method GreedyBatches(pending: seq<BatchItem>, budget: real) returns (batches: seq<seq<BatchItem>>)
    ensures IsGreedy(batches, pending, budget)
  {
    batches := BuildTranslationBatches(pending, budget);
  }

  /** The loop over the batches. It ends with every pending key translated, or throws the error
      of the first batch that fails. */
  method TranslatePending(cfg: Config, clock: Clock, world: World, pending: seq<BatchItem>, flat: Flat, memory: Memory)
    returns (r: Result<(Flat, Memory), string>, ghost t: map<string, string>)
    requires Distinct(ItemKeys(pending))
    ensures r.Ok? ==> Stored(cfg, clock, pending, t, flat, memory, r.value.0, r.value.1)
    ensures Translated(world, pending, cfg.budget, if r.Ok? then Ok(t) else Err(r.error))
  {
    var batches := GreedyBatches(pending, cfg.budget);
    var nextFlat, tm := flat, memory;
    var at := 0;
    t := map[];
    for b := 0 to |batches|
      invariant Stored(cfg, clock, Concat(batches[..b]), t, flat, memory, nextFlat, tm)
      invariant TranslateAll(world, batches, b) == (Ok(t), at)
    {
      ghost var done := Concat(batches[..b]);
      BatchSplitsPending(batches, b, pending);
      var translated, next := TranslateItems(world, at, batches[b]);
      AllOrNothing(world, at, batches[b], 0);
      at := next;
      if translated.Err? {
        ErrorStays(world, batches, b + 1, |batches|);
        return Err(translated.error), t;
      }
      assert forall i :: 0 <= i < |batches[b]| ==> batches[b][i].key in Keys(batches[b]);
      StoredStill(cfg, clock, done, t, translated.value, flat, memory, nextFlat, tm);
      t := t + translated.value;
      nextFlat, tm := StoreBatch(cfg, clock, batches[b], translated.value, nextFlat, tm, done, t, flat, memory);
    }
    assert batches[..|batches|] == batches;
    return Ok((nextFlat, tm)), t;
  }

  lemma {:induction false} BatchSplitsPending(batches: seq<seq<BatchItem>>, b: nat, pending: seq<BatchItem>)
    requires b < |batches| && Concat(batches) == pending && Distinct(ItemKeys(pending))
    ensures Concat(batches[..b + 1]) == Concat(batches[..b]) + batches[b]
    ensures forall i :: 0 <= i < |Concat(batches[..b])| ==> Concat(batches[..b])[i].key !in Keys(batches[b])
  {
    assert batches[..b + 1] == batches[..b] + [batches[b]];
    ConcatAppend(batches[..b], batches[b]);
    ConcatPrefix(batches, b + 1);
    var done, keys := Concat(batches[..b]), ItemKeys(pending);
    forall i, j | 0 <= i < |done| && 0 <= j < |batches[b]| ensures done[i].key != batches[b][j].key {
      assert keys[i] == done[i].key && keys[|done| + j] == batches[b][j].key;
    }
  }

  lemma {:induction false} ConcatPrefix(batches: seq<seq<BatchItem>>, n: nat)
    requires n <= |batches|
    ensures Concat(batches[..n]) <= Concat(batches)
  {
    if n > 0 {
      assert batches[..n][1..] == batches[1..][..n - 1];
      ConcatPrefix(batches[1..], n - 1);
    }
  }

  // ----- fallbacks

  /** The state before the fallback loop: reused and translated keys have their texts. */
  ghost predicate Merged(cfg: Config, ld: Loaded, t: map<string, string>, src: Flat, nextFlat: Flat) {
    forall j :: 0 <= j < |src| ==>
      JsMap.Get(nextFlat, src[j].0)
        == if Decide(cfg, ld, src[j].0, src[j].1) == Pend && !cfg.allowTranslate then None
           else Some(Value(cfg, ld, t, src[j].0, src[j].1))
  }

  lemma {:induction false} StoredIsMerged(
    cfg: Config, ld: Loaded, clock: Clock, t: map<string, string>, src: Flat, flat0: Flat, nextFlat: Flat, tm: Memory)
    requires JsMap.UniqueKeys(src) && Classified(cfg, ld, src, |src|, flat0) && cfg.allowTranslate
    requires Stored(cfg, clock, Pending(cfg, ld, src), t, flat0, ld.tm, nextFlat, tm)
    ensures Merged(cfg, ld, t, src, nextFlat)
  {
    forall j | 0 <= j < |src|
      ensures JsMap.Get(nextFlat, src[j].0) == Some(Value(cfg, ld, t, src[j].0, src[j].1))
    {
      TextOfPending(cfg, ld, t, src, j);
      JsMap.GetSetAll(flat0, Texts(Pending(cfg, ld, src), t), src[j].0, TextFor(t, src[j].0));
    }
  }

  /** A source key is among the translated texts, once, exactly when it was pending. */
  lemma {:induction false} TextOfPending(cfg: Config, ld: Loaded, t: map<string, string>, src: Flat, j: nat)
    requires JsMap.UniqueKeys(src) && j < |src|
    ensures var (key, text) := src[j];
      var texts := Texts(Pending(cfg, ld, src), t);
      && (Decide(cfg, ld, key, text) == Pend ==> (key, TextFor(t, key)) in texts)
      && forall w :: (key, w) in texts ==> w == TextFor(t, key) && Decide(cfg, ld, key, text) == Pend
  {
    var items := Pending(cfg, ld, src);
    var texts := Texts(items, t);
    var key := src[j].0;
    forall k | 0 <= k < |texts| && texts[k].0 == key
      ensures texts[k].1 == TextFor(t, key) && Decide(cfg, ld, key, src[j].1) == Pend
    {
      PendingOnly(cfg, ld, src, k);
      var i :| 0 <= i < |src| && IsPending(cfg, ld, src, items[k], i);
      assert i == j;
    }
    if Decide(cfg, ld, key, src[j].1) == Pend {
      PendingHas(cfg, ld, src, j);
      var k :| 0 <= k < |items| && items[k] == Item(cfg, key, src[j].1);
      assert texts[k] == (key, TextFor(t, key));
    }
  }

  /** A key waits for its English text while it is among the pending keys from `n` on. */
  ghost predicate Waits(cfg: Config, ld: Loaded, src: Flat, n: nat, key: string, text: string) {
    && Decide(cfg, ld, key, text) == Pend && !cfg.allowTranslate
    && exists k :: n <= k < |Pending(cfg, ld, src)| && Pending(cfg, ld, src)[k].key == key
  }

  /** The first `n` pending keys have been given their English text. */
  ghost predicate Filled(cfg: Config, ld: Loaded, t: map<string, string>, src: Flat, n: nat, nextFlat: Flat) {
    forall j :: 0 <= j < |src| ==>
      JsMap.Get(nextFlat, src[j].0)
        == if Waits(cfg, ld, src, n, src[j].0, src[j].1) then None else Some(Value(cfg, ld, t, src[j].0, src[j].1))
  }

  lemma {:induction false} FillOne(
    cfg: Config, ld: Loaded, t: map<string, string>, src: Flat, n: nat, nextFlat: Flat, j: nat)
    requires JsMap.UniqueKeys(src) && n < |Pending(cfg, ld, src)| && Filled(cfg, ld, t, src, n, nextFlat)
    requires j < |src| && IsPending(cfg, ld, src, Pending(cfg, ld, src)[n], j)
    ensures JsMap.Get(nextFlat, src[j].0).Some? <==> cfg.allowTranslate
    ensures cfg.allowTranslate ==> Filled(cfg, ld, t, src, n + 1, nextFlat)
    ensures !cfg.allowTranslate ==> Filled(cfg, ld, t, src, n + 1, JsMap.Set(nextFlat, src[j].0, src[j].1))
  {
    var pending := Pending(cfg, ld, src);
    PendingDistinct(cfg, ld, src);
    assert forall k :: 0 <= k < |pending| && k != n ==> ItemKeys(pending)[k] != ItemKeys(pending)[n];
    assert cfg.allowTranslate || Waits(cfg, ld, src, n, src[j].0, src[j].1);
    forall i | 0 <= i < |src|
      ensures Waits(cfg, ld, src, n + 1, src[i].0, src[i].1) <==> i != j && Waits(cfg, ld, src, n, src[i].0, src[i].1)
    {
      assert i != j ==> src[i].0 != src[j].0;
      assert !Waits(cfg, ld, src, n + 1, src[j].0, src[j].1);
    }
    if !cfg.allowTranslate {
      forall i | 0 <= i < |src|
        ensures JsMap.Get(JsMap.Set(nextFlat, src[j].0, src[j].1), src[i].0)
             == if i == j then Some(src[j].1) else JsMap.Get(nextFlat, src[i].0)
      {
        JsMap.GetSet(nextFlat, src[j].0, src[j].1, src[i].0);
        assert i != j ==> src[i].0 != src[j].0;
      }
    }
  }

  /** What a round of the loop finds, and what it has to do. */
  lemma {:induction false} FillRound(
    cfg: Config, ld: Loaded, t: map<string, string>, src: Flat, n: nat, nextFlat: Flat)
    requires JsMap.UniqueKeys(src) && n < |Pending(cfg, ld, src)| && Filled(cfg, ld, t, src, n, nextFlat)
    ensures var item := Pending(cfg, ld, src)[n];
      && (JsMap.Get(nextFlat, item.key).Some? <==> cfg.allowTranslate)
      && (!cfg.allowTranslate ==> JsMap.Get(ld.existing, item.key).None?)
      && Filled(cfg, ld, t, src, n + 1,
                if cfg.allowTranslate then nextFlat else JsMap.Set(nextFlat, item.key, item.text))
  {
    PendingOnly(cfg, ld, src, n);
    var j :| 0 <= j < |src| && IsPending(cfg, ld, src, Pending(cfg, ld, src)[n], j);
    FillOne(cfg, ld, t, src, n, nextFlat, j);
  }

  lemma {:induction false} MergedIsFilled(cfg: Config, ld: Loaded, t: map<string, string>, src: Flat, flat: Flat)
    requires Merged(cfg, ld, t, src, flat)
    ensures Filled(cfg, ld, t, src, 0, flat)
  {
    var pending := Pending(cfg, ld, src);
    forall j | 0 <= j < |src| && Decide(cfg, ld, src[j].0, src[j].1) == Pend && !cfg.allowTranslate
      ensures Waits(cfg, ld, src, 0, src[j].0, src[j].1)
    {
      PendingHas(cfg, ld, src, j);
      var k :| 0 <= k < |pending| && pending[k] == Item(cfg, src[j].0, src[j].1);
      assert pending[k].key == src[j].0;
    }
  }

  /** The loop over the pending keys that the translator left without a text. Keeping an existing
      text there is dead code: a key is pending without one, or was translated. */
  method FillFallbacks(cfg: Config, ld: Loaded, force: bool, pending: seq<BatchItem>, flat: Flat, kept: seq<string>,
                       ghost t: map<string, string>, ghost src: Flat)
    returns (nextFlat: Flat, fallbackKeys: seq<string>)
    requires JsMap.UniqueKeys(src) && pending == Pending(cfg, ld, src) && kept == KeptFallbacks(cfg, ld, src)
    requires Merged(cfg, ld, t, src, flat)
    ensures forall j :: 0 <= j < |src| ==> JsMap.Get(nextFlat, src[j].0) == Some(Value(cfg, ld, t, src[j].0, src[j].1))
    ensures fallbackKeys == FallbackKeys(cfg, ld, src)
  {
    nextFlat, fallbackKeys := flat, kept;
    ghost var keys := ItemKeys(pending);
    MergedIsFilled(cfg, ld, t, src, flat);
    for n := 0 to |pending|
      invariant Filled(cfg, ld, t, src, n, nextFlat)
      invariant fallbackKeys == kept + if cfg.allowTranslate then [] else keys[..n]
    {
      var item := pending[n];
      FillRound(cfg, ld, t, src, n, nextFlat);
      assert keys[..n + 1] == keys[..n] + [item.key];
      if JsMap.Get(nextFlat, item.key).Some? {
        continue;
      }
      var existing := JsMap.Get(ld.existing, item.key);
      if existing.Some? && !force {
        assert false;
      }
      nextFlat := JsMap.Set(nextFlat, item.key, item.text);
      fallbackKeys := fallbackKeys + [item.key];
    }
    assert keys[..|pending|] == keys;
  }

  /** The loop that writes the merged texts into a fresh map. */
  method BuildNextMap(src: Flat, nextFlat: Flat, ghost valued: Flat) returns (nextMap: seq<Entry>)
    requires |valued| == |src|
    requires forall j :: 0 <= j < |src| ==>
      valued[j].0 == src[j].0 && JsMap.Get(nextFlat, src[j].0) == Some(valued[j].1)
    ensures nextMap == Rebuild(valued)
  {
    nextMap := [];
    for i := 0 to |src|
      invariant Rebuild(valued) == PutAll(nextMap, Paths(valued)[i..])
    {
      var (key, value) := src[i];
      var found := JsMap.Get(nextFlat, key);
      assert Paths(valued)[i..][0] == (Split(key), valued[i].1) && Paths(valued)[i..][1..] == Paths(valued)[i + 1..];
      nextMap := Put(nextMap, Split(key), if found.Some? then found.value else value);
    }
  }

  // ----- the whole run

  /** A run of `syncLocale`. It throws exactly when translating the pending items does, with that
      error, and the translator is asked nothing when nothing is pending; otherwise the run is the
      one that `t` describes. */
  method SyncOneLocale(cfg: Config, codec: Codec, files: Files, options: SyncOptions, clock: Clock, world: World)
    returns (r: Result<Report, string>, ghost t: map<string, string>)
    ensures var pending := Pending(cfg, LoadAll(codec, files), Flatten(cfg.source));
      if cfg.allowTranslate && pending != []
      then Translated(world, pending, cfg.budget, if r.Ok? then Ok(t) else Err(r.error))
      else r.Ok?
    ensures r.Ok? ==> r.value == Synced(cfg, codec, files, options, clock, t)
    ensures r.Ok? && cfg.allowTranslate ==> Answers(Pending(cfg, LoadAll(codec, files), Flatten(cfg.source)), t)
  {
    var ld := LoadAll(codec, files);
    var src := FlattenTranslations(cfg.source, "", []);
    FlattenUnique(cfg.source);
    var nextFlat, pending, kept := Classify(cfg, ld, src);
    PendingDistinct(cfg, ld, src);
    var tm := ld.tm;
    t := map[];
    if cfg.allowTranslate && |pending| > 0 {
      var translated;
      ghost var reused := nextFlat;
      translated, t := TranslatePending(cfg, clock, world, pending, nextFlat, tm);
      if translated.Err? {
        return Err(translated.error), t;
      }
      nextFlat, tm := translated.value.0, translated.value.1;
      StoredIsMerged(cfg, ld, clock, t, src, reused, nextFlat, tm);
    } else {
      ClassifiedIsMerged(cfg, ld, t, src, nextFlat);
    }
    assert tm == NextMemory(cfg, ld, clock, pending, t);
    var fallbackKeys;
    nextFlat, fallbackKeys := FillFallbacks(cfg, ld, options.force, pending, nextFlat, kept, t, src);
    var nextMap := BuildNextMap(src, nextFlat, Valued(cfg, ld, t, src));
    var nextMeta := BuildMeta(cfg, ld, src, clock, fallbackKeys);
    var report := Finish(cfg, codec, files, options, clock, ld, nextMap, nextMeta, tm, t, src);
    return Ok(report), t;
  }

  lemma {:induction false} ClassifiedIsMerged(
    cfg: Config, ld: Loaded, t: map<string, string>, src: Flat, nextFlat: Flat)
    requires Classified(cfg, ld, src, |src|, nextFlat)
    requires cfg.allowTranslate ==> Pending(cfg, ld, src) == []
    ensures Merged(cfg, ld, t, src, nextFlat)
  {
    forall j | 0 <= j < |src| && Decide(cfg, ld, src[j].0, src[j].1) == Pend ensures !cfg.allowTranslate {
      PendingHas(cfg, ld, src, j);
    }
  }

  /** The metadata of the run; the old time stamp is kept when nothing else changed. */
  method BuildMeta(cfg: Config, ld: Loaded, src: Flat, clock: Clock, fallbackKeys: seq<string>) returns (nextMeta: Meta)
    requires fallbackKeys == FallbackKeys(cfg, ld, src)
    ensures nextMeta == NextMeta(cfg, ld, src, clock)
  {
    var previous := ld.previousMeta;
    var nextProvider := if cfg.allowTranslate then cfg.provider else if previous.Some? then previous.value.provider else "";
    var nextModel := if cfg.allowTranslate then cfg.model else if previous.Some? then previous.value.model else "";
    var sortedFallbackKeys := SortBy(cfg.leq, Dedupe(fallbackKeys));
    var translatedKeys := |src| - |sortedFallbackKeys|;
    var semanticMetaChanged :=
      previous.None?
      || previous.value.locale != cfg.locale
      || previous.value.sourceHash != cfg.sourceHash
      || previous.value.provider != nextProvider
      || previous.value.model != nextModel
      || previous.value.totalKeys != |src|
      || previous.value.translatedKeys != translatedKeys
      || previous.value.workflow != CONTROL_UI_I18N_WORKFLOW
      || previous.value.fallbackKeys != sortedFallbackKeys;
    nextMeta := Meta(
      sortedFallbackKeys, if semanticMetaChanged then clock.now else previous.value.generatedAt, cfg.locale,
      nextModel, nextProvider, cfg.sourceHash, |src|, translatedKeys, CONTROL_UI_I18N_WORKFLOW);
  }

  /** Comparing the expected texts with the files, and writing them when asked to. */
  method Finish(cfg: Config, codec: Codec, files: Files, options: SyncOptions, ghost clock: Clock, ld: Loaded,
                nextMap: seq<Entry>, nextMeta: Meta, tm: Memory, ghost t: map<string, string>, src: Flat)
    returns (report: Report)
    requires ld == LoadAll(codec, files) && src == Flatten(cfg.source)
    requires nextMap == Rebuild(Valued(cfg, ld, t, src)) && nextMeta == NextMeta(cfg, ld, src, clock)
    requires tm == NextMemory(cfg, ld, clock, Pending(cfg, ld, src), t)
    ensures report == Synced(cfg, codec, files, options, clock, t)
  {
    var expectedLocale := codec.renderLocale(nextMap);
    var expectedMeta := codec.renderMeta(nextMeta);
    var expectedGlossary := codec.renderGlossary(if |ld.glossary| == 0 then DEFAULT_GLOSSARY else ld.glossary);
    var expectedTm := Render(codec.tmLine, cfg.leq, tm);
    var changed :=
      TextOf(files.locale) != expectedLocale || TextOf(files.meta) != expectedMeta
      || TextOf(files.glossary) != expectedGlossary || TextOf(files.tm) != expectedTm;
    if !changed
       || (ld.previousMeta.Some? && ld.previousMeta.value.sourceHash == cfg.sourceHash
           && !options.force && !options.checkOnly && !options.write) {
      return Report(files, changed, |nextMeta.fallbackKeys|, false);
    }
    var after := files;
    if !options.checkOnly && options.write {
      after := after.(locale := Some(expectedLocale), meta := Some(expectedMeta), glossary := Some(expectedGlossary));
      if expectedTm != "" {
        after := after.(tm := Some(expectedTm));
      } else if after.tm.Some? {
        after := after.(tm := Some(""));
      }
    }
    return Report(after, changed, |nextMeta.fallbackKeys|, !options.checkOnly && options.write && changed);
  }
}
