/** The next run on another machine: the same source and files, but no translation provider, or
    another one than the first run had. */
module SyncProviders {
  import opened Options
  import opened Sorting
  import JsMap
  import opened FlatTranslations
  import opened SyncLocale
  import opened SyncFixpoint

  /** The two configurations differ at most in what the environment says about translating. */
  ghost predicate SameSource(cfg: Config, cfg': Config) {
    cfg' == cfg.(allowTranslate := cfg'.allowTranslate, provider := cfg'.provider, model := cfg'.model,
                 budget := cfg'.budget)
  }

  /** Whether the first run left the key on its English fallback. */
  ghost predicate LeftOver(cfg: Config, ld: Loaded, key: string) {
    key in SortedFallbacks(cfg, ld, Flatten(cfg.source))
  }

  /** The next run reuses every key, except that a provider translates what was left over. */
  ghost predicate Continues(cfg: Config, ld: Loaded, t: map<string, string>, cfg': Config, ld': Loaded) {
    var src := Flatten(cfg.source);
    forall i :: 0 <= i < |src| ==>
      Decide(cfg', ld', src[i].0, src[i].1) ==
        if cfg'.allowTranslate && LeftOver(cfg, ld, src[i].0) then Pend
        else Reuse(SyncLocale.Value(cfg, ld, t, src[i].0, src[i].1), LeftOver(cfg, ld, src[i].0))
  }

  lemma {:induction false} DecidedElsewhere(
    cfg: Config, codec: Codec, files: Files, clock: Clock, t: map<string, string>, after: Files, cfg': Config)
    requires ConfigOk(cfg) && CodecOk(codec) && SameSource(cfg, cfg')
    requires cfg.allowTranslate ==> Answers(Pending(cfg, LoadAll(codec, files), Flatten(cfg.source)), t)
    requires Holds(after, Expect(cfg, codec, LoadAll(codec, files), clock, t))
    ensures Continues(cfg, LoadAll(codec, files), t, cfg', LoadAll(codec, after))
  {
    var ld, ld', src := LoadAll(codec, files), LoadAll(codec, after), Flatten(cfg.source);
    MetaLoadedAgain(cfg, codec, files, clock, t, after);
    forall i | 0 <= i < |src|
      ensures Decide(cfg', ld', src[i].0, src[i].1) ==
        if cfg'.allowTranslate && LeftOver(cfg, ld, src[i].0) then Pend
        else Reuse(SyncLocale.Value(cfg, ld, t, src[i].0, src[i].1), LeftOver(cfg, ld, src[i].0))
    {
      LoadedAgain(cfg, codec, files, clock, t, after, i);
      MemoryAgrees(cfg, ld, clock, t, i);
      DecidedOne(cfg', ld', src[i].0, src[i].1, SyncLocale.Value(cfg, ld, t, src[i].0, src[i].1),
                 LeftOver(cfg, ld, src[i].0));
    }
  }

  lemma {:induction false} DecidedOne(cfg: Config, ld: Loaded, key: string, text: string, value: string, left: bool)
    requires JsMap.Get(ld.existing, key) == Some(value)
    requires var cached := JsMap.Get(ld.tm, SegmentCacheKey(cfg, key, text));
      cached.Some? ==> cached.value.translated == value
    requires WasFallback(ld, key) <==> left
    ensures Decide(cfg, ld, key, text) == if cfg.allowTranslate && left then Pend else Reuse(value, left)
  {
  }

  /** What is left for the translator: with a provider the keys left over, without one nothing. */
  lemma {:induction false} PendingElsewhere(
    cfg: Config, ld: Loaded, t: map<string, string>, cfg': Config, ld': Loaded, key: string)
    requires SameSource(cfg, cfg') && Continues(cfg, ld, t, cfg', ld')
    ensures key in ItemKeys(Pending(cfg', ld', Flatten(cfg.source))) <==>
      cfg'.allowTranslate && LeftOver(cfg, ld, key)
  {
    var src := Flatten(cfg.source);
    var items := Pending(cfg', ld', src);
    if key in ItemKeys(items) {
      var k :| 0 <= k < |items| && ItemKeys(items)[k] == key;
      PendingOnly(cfg', ld', src, k);
      var i :| 0 <= i < |src| && IsPending(cfg', ld', src, items[k], i);
      assert src[i].0 == key;
    }
    if cfg'.allowTranslate && LeftOver(cfg, ld, key) {
      FallbackIsSource(cfg, ld, src, key);
      var i :| 0 <= i < |src| && src[i].0 == key;
      PendingKey(cfg', ld', src, i);
    }
  }

  lemma {:induction false} PendingKey(cfg: Config, ld: Loaded, src: Flat, i: nat)
    requires i < |src| && Decide(cfg, ld, src[i].0, src[i].1) == Pend
    ensures src[i].0 in ItemKeys(Pending(cfg, ld, src))
  {
    var items := Pending(cfg, ld, src);
    PendingHas(cfg, ld, src, i);
    var k :| 0 <= k < |items| && items[k] == Item(cfg, src[i].0, src[i].1);
    assert ItemKeys(items)[k] == src[i].0;
  }

  lemma {:induction false} NothingLeft(
    cfg: Config, ld: Loaded, t: map<string, string>, cfg': Config, ld': Loaded)
    requires SameSource(cfg, cfg') && Continues(cfg, ld, t, cfg', ld')
    requires !cfg'.allowTranslate || SortedFallbacks(cfg, ld, Flatten(cfg.source)) == []
    ensures Pending(cfg', ld', Flatten(cfg.source)) == []
  {
    var items := Pending(cfg', ld', Flatten(cfg.source));
    if items != [] {
      assert ItemKeys(items)[0] in ItemKeys(items);
      PendingElsewhere(cfg, ld, t, cfg', ld', ItemKeys(items)[0]);
    }
  }

  /** The names the first run wrote into the metadata: its own, or those it found there. */
  function NamesLeft(cfg: Config, ld: Loaded): (string, string) {
    if cfg.allowTranslate then (cfg.provider, cfg.model)
    else match ld.previousMeta
      case Some(m) => (m.provider, m.model)
      case None => ("", "")
  }

  /** With nothing pending the next run expects the texts, the glossary and the memory that are there. */
  lemma {:induction false} ContentElsewhere(
    cfg: Config, codec: Codec, files: Files, clock: Clock, t: map<string, string>, after: Files,
    cfg': Config, clock': Clock, t': map<string, string>)
    requires ConfigOk(cfg) && CodecOk(codec) && SameSource(cfg, cfg')
    requires cfg.allowTranslate ==> Answers(Pending(cfg, LoadAll(codec, files), Flatten(cfg.source)), t)
    requires Holds(after, Expect(cfg, codec, LoadAll(codec, files), clock, t))
    requires Continues(cfg, LoadAll(codec, files), t, cfg', LoadAll(codec, after))
    requires !cfg'.allowTranslate || SortedFallbacks(cfg, LoadAll(codec, files), Flatten(cfg.source)) == []
    ensures var e, f := Expect(cfg, codec, LoadAll(codec, files), clock, t),
                        Expect(cfg', codec, LoadAll(codec, after), clock', t');
      f == e.(meta := f.meta)
  {
    var ld, ld', src := LoadAll(codec, files), LoadAll(codec, after), Flatten(cfg.source);
    NothingLeft(cfg, ld, t, cfg', ld');
    TextsStay(cfg, ld, t, cfg', ld', t');
    MemoryWell(cfg, codec, files, clock, t);
    RenderedMemory(cfg, codec, after, NextMemory(cfg, ld, clock, Pending(cfg, ld, src), t), "");
    NoNewEntries(cfg', ld', clock', t');
  }

  lemma {:induction false} NoNewEntries(cfg: Config, ld: Loaded, clock: Clock, t: map<string, string>)
    ensures NextMemory(cfg, ld, clock, [], t) == ld.tm
  {
    assert NewEntries(cfg, clock, [], t) == [];
  }

  lemma {:induction false} TextsStay(
    cfg: Config, ld: Loaded, t: map<string, string>, cfg': Config, ld': Loaded, t': map<string, string>)
    requires SameSource(cfg, cfg') && Continues(cfg, ld, t, cfg', ld')
    requires !cfg'.allowTranslate || SortedFallbacks(cfg, ld, Flatten(cfg.source)) == []
    ensures Valued(cfg', ld', t', Flatten(cfg.source)) == Valued(cfg, ld, t, Flatten(cfg.source))
  {
    var src := Flatten(cfg.source);
    forall i | 0 <= i < |src|
      ensures SyncLocale.Value(cfg', ld', t', src[i].0, src[i].1) == SyncLocale.Value(cfg, ld, t, src[i].0, src[i].1)
    {
      assert !(cfg'.allowTranslate && LeftOver(cfg, ld, src[i].0));
    }
  }

  /** The metadata stay, time stamp included, exactly if the fallbacks do and, with a provider, it is named there. */
  lemma {:induction false} MetaElsewhere(
    cfg: Config, ld: Loaded, ld': Loaded, clock: Clock, cfg': Config, clock': Clock)
    requires SameSource(cfg, cfg') && ld'.previousMeta == Some(NextMeta(cfg, ld, Flatten(cfg.source), clock))
    ensures var src := Flatten(cfg.source);
      NextMeta(cfg', ld', src, clock') == NextMeta(cfg, ld, src, clock) <==>
        && SortedFallbacks(cfg', ld', src) == SortedFallbacks(cfg, ld, src)
        && (cfg'.allowTranslate ==> (cfg'.provider, cfg'.model) == NamesLeft(cfg, ld))
  {
  }

  /** Without a provider the environment's names play no part. */
  lemma {:induction false} NamesIdle(cfg: Config, cfg': Config, ld: Loaded, src: Flat)
    requires SameSource(cfg, cfg') && cfg'.allowTranslate == cfg.allowTranslate
    ensures Pending(cfg', ld, src) == Pending(cfg, ld, src)
    ensures KeptFallbacks(cfg', ld, src) == KeptFallbacks(cfg, ld, src)
    ensures SortedFallbacks(cfg', ld, src) == SortedFallbacks(cfg, ld, src)
  {
    if src != [] {
      NamesIdle(cfg, cfg', ld, src[..|src| - 1]);
    }
  }

  /** The fallbacks of the next run without a provider. */
  lemma {:induction false} FallbacksElsewhere(
    cfg: Config, ld: Loaded, t: map<string, string>, cfg': Config, ld': Loaded)
    requires ConfigOk(cfg) && SameSource(cfg, cfg') && Continues(cfg, ld, t, cfg', ld') && !cfg'.allowTranslate
    ensures var src := Flatten(cfg.source);
      && (SortedFallbacks(cfg', ld', src) == SortedFallbacks(cfg, ld, src) <==> !Drifts(cfg, ld))
      && |SortedFallbacks(cfg', ld', src)| == |SortedFallbacks(cfg, ld, src)|
  {
    var src := Flatten(cfg.source);
    if cfg.allowTranslate {
      ProviderLeavesNoFallback(cfg, ld, src);
      ProviderNeverDrifts(cfg, ld);
      NothingLeft(cfg, ld, t, cfg', ld');
      NoneKept(cfg', ld', src);
    } else {
      ReusedLikewise(cfg, ld, t, cfg', ld');
      FallbacksAgain(cfg, ld, t, ld');
      NamesIdle(cfg, cfg', ld', src);
    }
  }

  lemma {:induction false} ReusedLikewise(
    cfg: Config, ld: Loaded, t: map<string, string>, cfg': Config, ld': Loaded)
    requires SameSource(cfg, cfg') && Continues(cfg, ld, t, cfg', ld') && !cfg.allowTranslate && !cfg'.allowTranslate
    ensures ReusesAll(cfg, ld, t, ld', Flatten(cfg.source))
  {
    var src := Flatten(cfg.source);
    forall i | 0 <= i < |src|
      ensures Decide(cfg, ld', src[i].0, src[i].1)
        == Reuse(SyncLocale.Value(cfg, ld, t, src[i].0, src[i].1), src[i].0 in SortedFallbacks(cfg, ld, src))
    {
      SameDecision(cfg, cfg', ld', src[i].0, src[i].1);
    }
  }

  lemma {:induction false} SameDecision(cfg: Config, cfg': Config, ld: Loaded, key: string, text: string)
    requires SameSource(cfg, cfg') && cfg'.allowTranslate == cfg.allowTranslate
    ensures Decide(cfg', ld, key, text) == Decide(cfg, ld, key, text)
  {
  }

  lemma {:induction false} NoneKept(cfg: Config, ld: Loaded, src: Flat)
    requires Pending(cfg, ld, src) == []
    requires forall i :: 0 <= i < |src| ==> !IsKept(cfg, ld, src[i].0, src[i].1)
    ensures SortedFallbacks(cfg, ld, src) == []
  {
    var keys := FallbackKeys(cfg, ld, src);
    if keys != [] {
      KeptFallbacksHave(cfg, ld, src, keys[0]);
      assert false;
    }
    assert Dedupe([]) == [] && SortBy(cfg.leq, []) == [];
  }

  /** After a completed `sync --write`, a run of the same source without a provider has nothing to translate and
      reports a change exactly if the write drifted; after a write with a provider the check is always clean. */
  lemma {:induction false} CleanWithoutProvider(
    cfg: Config, codec: Codec, files: Files, force: bool, clock: Clock, t: map<string, string>,
    cfg': Config, options: SyncOptions, clock': Clock, t': map<string, string>)
    requires ConfigOk(cfg) && CodecOk(codec) && SameSource(cfg, cfg') && !cfg'.allowTranslate
    requires cfg.allowTranslate ==> Answers(Pending(cfg, LoadAll(codec, files), Flatten(cfg.source)), t)
    ensures var first := Synced(cfg, codec, files, SyncOptions(false, force, true), clock, t);
      var second := Synced(cfg', codec, first.files, options, clock', t');
      && Pending(cfg', LoadAll(codec, first.files), Flatten(cfg.source)) == []
      && (second.changed <==> !cfg.allowTranslate && Drifts(cfg, LoadAll(codec, files)))
      && second.fallbackCount == first.fallbackCount && (cfg.allowTranslate ==> second.fallbackCount == 0)
      && (second.files == first.files || second.changed)
  {
    var ld := LoadAll(codec, files);
    var after := Synced(cfg, codec, files, SyncOptions(false, force, true), clock, t).files;
    var ld' := LoadAll(codec, after);
    WriteHolds(cfg, codec, files, force, clock, t);
    DecidedElsewhere(cfg, codec, files, clock, t, after, cfg');
    NothingLeft(cfg, ld, t, cfg', ld');
    FallbacksElsewhere(cfg, ld, t, cfg', ld');
    ComparedElsewhere(cfg, codec, files, clock, t, after, cfg', clock', t');
    if cfg.allowTranslate {
      ProviderLeavesNoFallback(cfg, ld, Flatten(cfg.source));
      ProviderNeverDrifts(cfg, ld);
    }
  }

  /** With nothing pending, the files are current exactly if the metadata stay. */
  lemma {:induction false} ComparedElsewhere(
    cfg: Config, codec: Codec, files: Files, clock: Clock, t: map<string, string>, after: Files,
    cfg': Config, clock': Clock, t': map<string, string>)
    requires ConfigOk(cfg) && CodecOk(codec) && SameSource(cfg, cfg')
    requires cfg.allowTranslate ==> Answers(Pending(cfg, LoadAll(codec, files), Flatten(cfg.source)), t)
    requires Holds(after, Expect(cfg, codec, LoadAll(codec, files), clock, t))
    requires Continues(cfg, LoadAll(codec, files), t, cfg', LoadAll(codec, after))
    requires !cfg'.allowTranslate || SortedFallbacks(cfg, LoadAll(codec, files), Flatten(cfg.source)) == []
    ensures var ld, ld', src := LoadAll(codec, files), LoadAll(codec, after), Flatten(cfg.source);
      Current(after, Expect(cfg', codec, ld', clock', t')) <==>
        && SortedFallbacks(cfg', ld', src) == SortedFallbacks(cfg, ld, src)
        && (cfg'.allowTranslate ==> (cfg'.provider, cfg'.model) == NamesLeft(cfg, ld))
  {
    var ld, ld', src := LoadAll(codec, files), LoadAll(codec, after), Flatten(cfg.source);
    ContentElsewhere(cfg, codec, files, clock, t, after, cfg', clock', t');
    MetaLoadedAgain(cfg, codec, files, clock, t, after);
    MetaElsewhere(cfg, ld, ld', clock, cfg', clock');
    MetaTextAgain(codec, NextMeta(cfg', ld', src, clock'), NextMeta(cfg, ld, src, clock));
    HeldIsCurrent(after, Expect(cfg, codec, ld, clock, t), Expect(cfg', codec, ld', clock', t'));
  }

  /** With a provider the next run translates exactly what the first left on English. It reports a change exactly
      if there is any, or if the metadata name another provider or model. */
  lemma {:induction false} NextWithProvider(
    cfg: Config, codec: Codec, files: Files, force: bool, clock: Clock, t: map<string, string>,
    cfg': Config, options: SyncOptions, clock': Clock, t': map<string, string>)
    requires ConfigOk(cfg) && CodecOk(codec) && SameSource(cfg, cfg') && cfg'.allowTranslate
    requires cfg.allowTranslate ==> Answers(Pending(cfg, LoadAll(codec, files), Flatten(cfg.source)), t)
    ensures var ld, src := LoadAll(codec, files), Flatten(cfg.source);
      var first := Synced(cfg, codec, files, SyncOptions(false, force, true), clock, t);
      var second := Synced(cfg', codec, first.files, options, clock', t');
      && (forall key :: key in ItemKeys(Pending(cfg', LoadAll(codec, first.files), src)) <==> LeftOver(cfg, ld, key))
      && (second.changed <==> first.fallbackCount > 0 || (cfg'.provider, cfg'.model) != NamesLeft(cfg, ld))
      && second.fallbackCount == 0
  {
    var ld, src := LoadAll(codec, files), Flatten(cfg.source);
    var after := Synced(cfg, codec, files, SyncOptions(false, force, true), clock, t).files;
    var ld' := LoadAll(codec, after);
    WriteHolds(cfg, codec, files, force, clock, t);
    DecidedElsewhere(cfg, codec, files, clock, t, after, cfg');
    forall key ensures key in ItemKeys(Pending(cfg', ld', src)) <==> LeftOver(cfg, ld, key) {
      PendingElsewhere(cfg, ld, t, cfg', ld', key);
    }
    ProviderLeavesNoFallback(cfg', ld', src);
    if SortedFallbacks(cfg, ld, src) == [] {
      ComparedElsewhere(cfg, codec, files, clock, t, after, cfg', clock', t');
    } else {
      FallbacksGone(cfg, codec, files, clock, t, after, cfg', clock', t');
    }
  }

  lemma {:induction false} FallbacksGone(
    cfg: Config, codec: Codec, files: Files, clock: Clock, t: map<string, string>, after: Files,
    cfg': Config, clock': Clock, t': map<string, string>)
    requires CodecOk(codec) && SameSource(cfg, cfg') && cfg'.allowTranslate
    requires Holds(after, Expect(cfg, codec, LoadAll(codec, files), clock, t))
    requires SortedFallbacks(cfg, LoadAll(codec, files), Flatten(cfg.source)) != []
    ensures !Current(after, Expect(cfg', codec, LoadAll(codec, after), clock', t'))
  {
    var ld, ld', src := LoadAll(codec, files), LoadAll(codec, after), Flatten(cfg.source);
    ProviderLeavesNoFallback(cfg', ld', src);
    MetaTextAgain(codec, NextMeta(cfg', ld', src, clock'), NextMeta(cfg, ld, src, clock));
    HeldIsCurrent(after, Expect(cfg, codec, ld, clock, t), Expect(cfg', codec, ld', clock', t'));
  }
}
