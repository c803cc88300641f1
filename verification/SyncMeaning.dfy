/** What a completed write leaves in the four files, told from the files and the configuration it
    started from. */
module SyncMeaning {
  import opened Options
  import opened Sorting
  import JsMap
  import opened TranslationTree
  import opened FlatTranslations
  import opened TranslationMemory
  import opened TranslationBatches
  import opened SyncLocale
  import opened SyncProviders
  import opened SyncRun
  import opened TranslateBatch
  import opened TranslateOutcomes

  /** The key was on its English fallback, and is to be translated anew. */
  predicate Redone(cfg: Config, ld: Loaded, key: string) {
    cfg.allowTranslate && ld.previousMeta.Some? && key in ld.previousMeta.value.fallbackKeys
  }

  /** Each source key is written with the text of its memory entry, else of the old file, else with the fresh
      translation or, without a provider, in English; a fallback to be redone skips the first two. */
  lemma {:induction false} TextWritten(
    cfg: Config, codec: Codec, files: Files, clock: Clock, t: map<string, string>, after: Files, i: nat)
    requires ConfigOk(cfg) && CodecOk(codec) && i < |Flatten(cfg.source)|
    requires cfg.allowTranslate ==> Answers(Pending(cfg, LoadAll(codec, files), Flatten(cfg.source)), t)
    requires Holds(after, Expect(cfg, codec, LoadAll(codec, files), clock, t))
    ensures var ld := LoadAll(codec, files);
      var (key, text) := Flatten(cfg.source)[i];
      var entry := JsMap.Get(ld.tm, cfg.cacheKey(key, cfg.hashText(text)));
      var old' := JsMap.Get(ld.existing, key);
      JsMap.Get(LoadAll(codec, after).existing, key) == Some(
        if entry.Some? && !Redone(cfg, ld, key) then entry.value.translated
        else if old'.Some? && !Redone(cfg, ld, key) then old'.value
        else if cfg.allowTranslate then TextFor(t, key)
        else text)
  {
    LoadedAgain(cfg, codec, files, clock, t, after, i);
    ValueTells(cfg, LoadAll(codec, files), t, Flatten(cfg.source)[i].0, Flatten(cfg.source)[i].1);
  }

  lemma {:induction false} ValueTells(cfg: Config, ld: Loaded, t: map<string, string>, key: string, text: string)
    ensures var entry := JsMap.Get(ld.tm, cfg.cacheKey(key, cfg.hashText(text)));
      var old' := JsMap.Get(ld.existing, key);
      SyncLocale.Value(cfg, ld, t, key, text) ==
        if entry.Some? && !Redone(cfg, ld, key) then entry.value.translated
        else if old'.Some? && !Redone(cfg, ld, key) then old'.value
        else if cfg.allowTranslate then TextFor(t, key)
        else text
  {
  }

  /** Each fresh translation is written to the memory under its cache key, with everything the script knows. */
  lemma {:induction false} EntryWritten(
    cfg: Config, codec: Codec, files: Files, clock: Clock, t: map<string, string>, after: Files, i: nat)
    requires ConfigOk(cfg) && CodecOk(codec) && cfg.allowTranslate && i < |Flatten(cfg.source)|
    requires Answers(Pending(cfg, LoadAll(codec, files), Flatten(cfg.source)), t)
    requires Holds(after, Expect(cfg, codec, LoadAll(codec, files), clock, t))
    requires Decide(cfg, LoadAll(codec, files), Flatten(cfg.source)[i].0, Flatten(cfg.source)[i].1) == Pend
    ensures var (key, text) := Flatten(cfg.source)[i];
      var entry := JsMap.Get(LoadAll(codec, after).tm, cfg.cacheKey(key, cfg.hashText(text)));
      && entry.Some? && var e := entry.value;
      && e.cacheKey == cfg.cacheKey(key, cfg.hashText(text)) && e.segmentId == key
      && e.text == text && e.textHash == cfg.hashText(text) && e.srcLang == "en"
      && key in t && e.translated == t[key] && e.tgtLang == cfg.locale
      && e.provider == cfg.provider && e.model == cfg.model
      && e.sourcePath == cfg.sourcePath && e.updatedAt == clock.stamps(key)
  {
    var ld, src := LoadAll(codec, files), Flatten(cfg.source);
    LoadedAgain(cfg, codec, files, clock, t, after, i);
    MemoryAfter(cfg, ld, clock, t, i);
    PendingHas(cfg, ld, src, i);
    var k :| 0 <= k < |Pending(cfg, ld, src)| && Pending(cfg, ld, src)[k] == Item(cfg, src[i].0, src[i].1);
    EntryTells(cfg, clock, src[i].0, src[i].1, TextFor(t, src[i].0));
  }

  lemma {:induction false} EntryTells(cfg: Config, clock: Clock, key: string, text: string, translated: string)
    ensures NewEntry(cfg, clock, Item(cfg, key, text), translated) == TmEntry(
      cacheKey := cfg.cacheKey(key, cfg.hashText(text)), model := cfg.model, provider := cfg.provider,
      segmentId := key, sourcePath := cfg.sourcePath, srcLang := "en", text := text, textHash := cfg.hashText(text),
      tgtLang := cfg.locale, translated := translated, updatedAt := clock.stamps(key))
  {
  }

  /** A glossary is left as it is; where there is none, the default one is written. */
  lemma {:induction false} GlossaryWritten(
    cfg: Config, codec: Codec, files: Files, clock: Clock, t: map<string, string>, after: Files)
    requires CodecOk(codec) && Holds(after, Expect(cfg, codec, LoadAll(codec, files), clock, t))
    ensures var old' := if files.glossary.None? then [] else codec.parseGlossary(files.glossary.value);
      LoadAll(codec, after).glossary == if old' == [] then DEFAULT_GLOSSARY else old'
  {
    GlossaryTells(cfg, codec, LoadAll(codec, files), clock, t);
  }

  lemma {:induction false} GlossaryTells(
    cfg: Config, codec: Codec, ld: Loaded, clock: Clock, t: map<string, string>)
    ensures Expect(cfg, codec, ld, clock, t).glossary ==
      codec.renderGlossary(if ld.glossary == [] then DEFAULT_GLOSSARY else ld.glossary)
  {
  }

  ghost function SourceKeys(cfg: Config): set<string> {
    set i | 0 <= i < |Flatten(cfg.source)| :: Flatten(cfg.source)[i].0
  }

  /** The metadata name the fallbacks in order, each once, and count the source keys and those that are none. */
  lemma {:induction false} MetaWritten(
    cfg: Config, codec: Codec, files: Files, clock: Clock, t: map<string, string>, after: Files)
    requires ConfigOk(cfg) && CodecOk(codec)
    requires Holds(after, Expect(cfg, codec, LoadAll(codec, files), clock, t))
    ensures LoadAll(codec, after).previousMeta.Some?
    ensures var ld, m := LoadAll(codec, files), LoadAll(codec, after).previousMeta.value;
      && Sorted(cfg.leq, m.fallbackKeys) && Distinct(m.fallbackKeys) && Elements(m.fallbackKeys) <= SourceKeys(cfg)
      && m.totalKeys == |SourceKeys(cfg)| && m.translatedKeys == |SourceKeys(cfg) - Elements(m.fallbackKeys)|
      && m.locale == cfg.locale && m.sourceHash == cfg.sourceHash && m.workflow == 1
      && (m.provider, m.model) == NamesLeft(cfg, ld)
  {
    MetaLoadedAgain(cfg, codec, files, clock, t, after);
    MetaTells(cfg, LoadAll(codec, files), clock);
    FallbacksListed(cfg, LoadAll(codec, files));
  }

  lemma {:induction false} MetaTells(cfg: Config, ld: Loaded, clock: Clock)
    ensures var src := Flatten(cfg.source);
      var m := NextMeta(cfg, ld, src, clock);
      && m.fallbackKeys == SortedFallbacks(cfg, ld, src)
      && m.totalKeys == |src| && m.translatedKeys == |src| - |m.fallbackKeys|
      && m.locale == cfg.locale && m.sourceHash == cfg.sourceHash && m.workflow == 1
      && (m.provider, m.model) == NamesLeft(cfg, ld)
  {
  }

  lemma {:induction false} FallbacksListed(cfg: Config, ld: Loaded)
    requires TotalPreorder(cfg.leq)
    ensures var src, listed := Flatten(cfg.source), SortedFallbacks(cfg, ld, Flatten(cfg.source));
      && Sorted(cfg.leq, listed) && Distinct(listed) && Elements(listed) <= SourceKeys(cfg)
      && |src| == |SourceKeys(cfg)| && |src| - |listed| == |SourceKeys(cfg) - Elements(listed)|
  {
    var src, keys := Flatten(cfg.source), Dedupe(FallbackKeys(cfg, ld, Flatten(cfg.source)));
    SortBySorted(cfg.leq, keys);
    SortByKeepsDistinct(cfg.leq, keys);
    var listed := SortedFallbacks(cfg, ld, src);
    forall key | key in Elements(listed) ensures key in SourceKeys(cfg) {
      FallbackIsSource(cfg, ld, src, key);
    }
    FlattenUnique(cfg.source);
    CountKeys(src);
    DistinctBySize(listed);
    assert SourceKeys(cfg) == (SourceKeys(cfg) - Elements(listed)) + Elements(listed);
  }

  lemma {:induction false} CountKeys(src: Flat)
    requires JsMap.UniqueKeys(src)
    ensures |set i | 0 <= i < |src| :: src[i].0| == |src|
  {
    if src != [] {
      var n := |src| - 1;
      CountKeys(src[..n]);
      var before := set i | 0 <= i < n :: src[..n][i].0;
      assert (set i | 0 <= i < |src| :: src[i].0) == before + {src[n].0};
    }
  }

  // ----- all batches of a run

  function JobsOf(batches: seq<seq<BatchItem>>): seq<Job> {
    if batches == [] then [] else [Job(batches[0], false)] + JobsOf(batches[1..])
  }

  /** The batches of a run, with all their retries and splits, are one list of jobs, worked off prompt by prompt. */
  lemma {:induction false} RunIsJobs(world: World, batches: seq<seq<BatchItem>>)
    ensures TranslateAll(world, batches, |batches|) == Work(world, 0, JobsOf(batches), map[])
  {
    JobsFrom(world, batches, |batches|);
    assert batches[|batches|..] == [];
  }

  lemma {:induction false} JobsFrom(world: World, batches: seq<seq<BatchItem>>, n: nat)
    requires n <= |batches|
    ensures Work(world, 0, JobsOf(batches), map[]) ==
      var (r, at) := TranslateAll(world, batches, n);
      if r.Err? then (r, at) else Work(world, at, JobsOf(batches[n..]), r.value)
  {
    if n == 0 {
      assert batches[0..] == batches;
    } else {
      JobsFrom(world, batches, n - 1);
      var rest := batches[n - 1..];
      assert rest[0] == batches[n - 1] && rest[1..] == batches[n..];
      var (before, at) := TranslateAll(world, batches, n - 1);
      if before.Ok? {
        CallIsJob(world, at, batches[n - 1], 0, JobsOf(batches[n..]), before.value);
      }
    }
  }

  /** What a run reports: a change if some file's text is not what is expected, and the number of fallbacks. It
      writes, and then leaves all four files as expected, only on a change, when asked to and not only checking. */
  lemma {:induction false} ReportTells(
    cfg: Config, codec: Codec, files: Files, options: SyncOptions, clock: Clock, t: map<string, string>)
    requires CodecOk(codec)
    ensures var r := Synced(cfg, codec, files, options, clock, t);
      var e := Expect(cfg, codec, LoadAll(codec, files), clock, t);
      && (!r.changed <==>
            TextOf(files.locale) == e.locale && TextOf(files.meta) == e.meta
            && TextOf(files.glossary) == e.glossary && TextOf(files.tm) == e.tm)
      && (r.wrote <==> r.changed && options.write && !options.checkOnly)
      && (if r.wrote then Holds(r.files, e) else r.files == files)
      && r.fallbackCount == |codec.parseMeta(e.meta).fallbackKeys|
  {
  }
}
