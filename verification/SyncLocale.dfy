/** `syncLocale`: the merge of translation memory, existing locale file, fresh translations and
    English fallback, the metadata beside it, and why one completed write is a fixpoint. */
module SyncLocale {
  import opened Options
  import opened JsText
  import opened Sorting
  import JsMap
  import opened TranslationTree
  import opened FlatTranslations
  import opened TranslationMemory
  import opened TranslationBatches

  const CONTROL_UI_I18N_WORKFLOW: int := 1

  datatype GlossaryEntry = GlossaryEntry(source: string, target: string)

  const DEFAULT_GLOSSARY: seq<GlossaryEntry> := [
    GlossaryEntry("SkillSet", "SkillSet"), GlossaryEntry("Gateway", "Gateway"),
    GlossaryEntry("Control UI", "Control UI"), GlossaryEntry("Skills", "Skills"),
    GlossaryEntry("Tailscale", "Tailscale"), GlossaryEntry("WhatsApp", "WhatsApp"),
    GlossaryEntry("Telegram", "Telegram"), GlossaryEntry("Discord", "Discord"),
    GlossaryEntry("Signal", "Signal"), GlossaryEntry("iMessage", "iMessage")]

  datatype Meta = Meta(
    fallbackKeys: seq<string>, generatedAt: string, locale: string, model: string, provider: string,
    sourceHash: string, totalKeys: int, translatedKeys: int, workflow: int)

  /** What a run is given: the English source, the environment's provider setting and the pure
      functions of the script. `leq` is "localeCompare is not positive". */
  datatype Config = Config(
    locale: string, source: seq<Entry>, sourceHash: string,
    allowTranslate: bool, provider: string, model: string, sourcePath: string, budget: real,
    hashText: string -> string, cacheKey: (string, string) -> string, leq: (string, string) -> bool)

  /** How files are written and read back: the formatter, the module loader and JSON. */
  datatype Codec = Codec(
    renderLocale: seq<Entry> -> string, parseLocale: string -> Option<seq<Entry>>,
    renderMeta: Meta -> string, parseMeta: string -> Meta,
    renderGlossary: seq<GlossaryEntry> -> string, parseGlossary: string -> seq<GlossaryEntry>,
    tmLine: LineCodec)

  ghost predicate CodecOk(codec: Codec) {
    && (forall t {:trigger codec.renderLocale(t)} ::
          WellFormed(t) ==> codec.renderLocale(t) != "" && codec.parseLocale(codec.renderLocale(t)) == Some(t))
    && (forall m :: codec.renderMeta(m) != "" && codec.parseMeta(codec.renderMeta(m)) == m)
    && (forall g :: codec.renderGlossary(g) != "" && codec.parseGlossary(codec.renderGlossary(g)) == g)
    && Faithful(codec.tmLine)
  }

  /** The four files of a locale. */
  datatype Files = Files(locale: Option<string>, meta: Option<string>, glossary: Option<string>, tm: Option<string>)

  datatype SyncOptions = SyncOptions(checkOnly: bool, force: bool, write: bool)

  /** The time stamps of a run: one for the metadata, one for each new memory entry. */
  datatype Clock = Clock(now: string, stamps: string -> string)

  datatype Report = Report(files: Files, changed: bool, fallbackCount: nat, wrote: bool)

  // ----- what a run loads

  datatype Loaded = Loaded(existing: Flat, previousMeta: Option<Meta>, glossary: seq<GlossaryEntry>, tm: Memory)

  function LoadLocale(codec: Codec, file: Option<string>): Flat {
    if file.None? then []
    else match codec.parseLocale(file.value) case None => [] case Some(tree) => Flatten(tree)
  }

  function LoadAll(codec: Codec, files: Files): Loaded {
    Loaded(
      LoadLocale(codec, files.locale),
      if files.meta.None? then None else Some(codec.parseMeta(files.meta.value)),
      if files.glossary.None? then [] else codec.parseGlossary(files.glossary.value),
      Load(codec.tmLine, files.tm))
  }

  // ----- the decision for one key

  datatype Decision = Reuse(text: string, fallback: bool) | Pend

  function SegmentCacheKey(cfg: Config, key: string, text: string): string {
    cfg.cacheKey(key, cfg.hashText(text))
  }

  predicate WasFallback(ld: Loaded, key: string) {
    ld.previousMeta.Some? && key in ld.previousMeta.value.fallbackKeys
  }

  /** Cache before existing text, and neither for a fallback that can be translated now. */
  function Decide(cfg: Config, ld: Loaded, key: string, text: string): Decision {
    var refresh := WasFallback(ld, key);
    var cached := JsMap.Get(ld.tm, SegmentCacheKey(cfg, key, text));
    var existing := JsMap.Get(ld.existing, key);
    if cached.Some? && !(cfg.allowTranslate && refresh) then Reuse(cached.value.translated, refresh)
    else if existing.Some? && !(cfg.allowTranslate && refresh) then Reuse(existing.value, refresh)
    else Pend
  }

  function Item(cfg: Config, key: string, text: string): BatchItem {
    BatchItem(SegmentCacheKey(cfg, key, text), key, text, cfg.hashText(text))
  }

  /** The keys left for the translator, in source order. */
  function Pending(cfg: Config, ld: Loaded, src: Flat): seq<BatchItem> {
    if src == [] then []
    else
      var (key, text) := src[|src| - 1];
      Pending(cfg, ld, src[..|src| - 1]) + if Decide(cfg, ld, key, text) == Pend then [Item(cfg, key, text)] else []
  }

  /** The reused keys that were fallbacks before and stay so. */
  function KeptFallbacks(cfg: Config, ld: Loaded, src: Flat): seq<string> {
    if src == [] then []
    else
      var (key, text) := src[|src| - 1];
      var d := Decide(cfg, ld, key, text);
      KeptFallbacks(cfg, ld, src[..|src| - 1]) + if d.Reuse? && d.fallback then [key] else []
  }

  function ItemKeys(items: seq<BatchItem>): (r: seq<string>)
    ensures |r| == |items| && forall i :: 0 <= i < |items| ==> r[i] == items[i].key
  {
    if items == [] then [] else [items[0].key] + ItemKeys(items[1..])
  }

  // ----- the result of a run, given the translator's texts `t`

  function TextFor(t: map<string, string>, key: string): string {
    if key in t then t[key] else ""
  }

  /** The translator answered every pending key with a text that is not blank. */
  ghost predicate Answers(items: seq<BatchItem>, t: map<string, string>) {
    forall i :: 0 <= i < |items| ==> items[i].key in t && !IsBlank(t[items[i].key])
  }

  function NewEntry(cfg: Config, clock: Clock, item: BatchItem, text: string): TmEntry {
    TmEntry(item.cacheKey, cfg.model, cfg.provider, item.key, cfg.sourcePath, "en", item.text, item.textHash,
            cfg.locale, text, clock.stamps(item.key))
  }

  function NewEntries(cfg: Config, clock: Clock, items: seq<BatchItem>, t: map<string, string>): (r: Memory)
    ensures |r| == |items|
    ensures forall i :: 0 <= i < |items| ==>
      r[i] == (items[i].cacheKey, NewEntry(cfg, clock, items[i], TextFor(t, items[i].key)))
  {
    if items == [] then []
    else [(items[0].cacheKey, NewEntry(cfg, clock, items[0], TextFor(t, items[0].key)))]
         + NewEntries(cfg, clock, items[1..], t)
  }

  function NextMemory(cfg: Config, ld: Loaded, clock: Clock, items: seq<BatchItem>, t: map<string, string>): Memory {
    if cfg.allowTranslate then JsMap.SetAll(ld.tm, NewEntries(cfg, clock, items, t)) else ld.tm
  }

  /** The text a key ends up with. */
  function Value(cfg: Config, ld: Loaded, t: map<string, string>, key: string, text: string): string {
    match Decide(cfg, ld, key, text)
    case Reuse(reused, _) => reused
    case Pend => if cfg.allowTranslate then TextFor(t, key) else text
  }

  function Valued(cfg: Config, ld: Loaded, t: map<string, string>, src: Flat): (r: Flat)
    ensures |r| == |src|
    ensures forall i :: 0 <= i < |src| ==> r[i] == (src[i].0, Value(cfg, ld, t, src[i].0, src[i].1))
  {
    if src == [] then []
    else [(src[0].0, Value(cfg, ld, t, src[0].0, src[0].1))] + Valued(cfg, ld, t, src[1..])
  }

  function FallbackKeys(cfg: Config, ld: Loaded, src: Flat): seq<string> {
    KeptFallbacks(cfg, ld, src) + if cfg.allowTranslate then [] else ItemKeys(Pending(cfg, ld, src))
  }

  /** `[...new Set(keys)]` */
  function Dedupe(keys: seq<string>): (r: seq<string>)
    ensures Distinct(r) && Elements(r) == Elements(keys)
  {
    if keys == [] then []
    else
      var n := |keys| - 1;
      var before := Dedupe(keys[..n]);
      assert keys == keys[..n] + [keys[n]];
      assert Elements(keys) == Elements(keys[..n]) + {keys[n]} by { ElementsAppend(keys[..n], keys[n]); }
      assert keys[n] in before <==> keys[n] in Elements(before);
      if keys[n] in before then before
      else
        assert Elements(before + [keys[n]]) == Elements(before) + {keys[n]} by { ElementsAppend(before, keys[n]); }
        before + [keys[n]]
  }

  function SortedFallbacks(cfg: Config, ld: Loaded, src: Flat): seq<string> {
    SortBy(cfg.leq, Dedupe(FallbackKeys(cfg, ld, src)))
  }

  function NextProvider(cfg: Config, ld: Loaded): string {
    if cfg.allowTranslate then cfg.provider else if ld.previousMeta.Some? then ld.previousMeta.value.provider else ""
  }

  function NextModel(cfg: Config, ld: Loaded): string {
    if cfg.allowTranslate then cfg.model else if ld.previousMeta.Some? then ld.previousMeta.value.model else ""
  }

  function NextMeta(cfg: Config, ld: Loaded, src: Flat, clock: Clock): Meta {
    var fallbacks := SortedFallbacks(cfg, ld, src);
    var translated := |src| - |fallbacks|;
    var same := ld.previousMeta.Some?
      && ld.previousMeta.value.locale == cfg.locale
      && ld.previousMeta.value.sourceHash == cfg.sourceHash
      && ld.previousMeta.value.provider == NextProvider(cfg, ld)
      && ld.previousMeta.value.model == NextModel(cfg, ld)
      && ld.previousMeta.value.totalKeys == |src|
      && ld.previousMeta.value.translatedKeys == translated
      && ld.previousMeta.value.workflow == CONTROL_UI_I18N_WORKFLOW
      && ld.previousMeta.value.fallbackKeys == fallbacks;
    Meta(fallbacks, if same then ld.previousMeta.value.generatedAt else clock.now, cfg.locale,
         NextModel(cfg, ld), NextProvider(cfg, ld), cfg.sourceHash, |src|, translated, CONTROL_UI_I18N_WORKFLOW)
  }

  /** The metadata differ at most in the time stamp. */
  predicate SameButStamp(m: Meta, n: Meta) {
    m.(generatedAt := n.generatedAt) == n
  }

  /** The old time stamp stays, whatever the clock says, exactly when no other field changes; else the
      stamp is the clock's. */
  lemma {:induction false} StampKept(cfg: Config, ld: Loaded, src: Flat, clock: Clock)
    requires ld.previousMeta.Some?
    ensures (forall c :: NextMeta(cfg, ld, src, c).generatedAt == ld.previousMeta.value.generatedAt)
      <==> SameButStamp(ld.previousMeta.value, NextMeta(cfg, ld, src, clock))
    ensures SameButStamp(ld.previousMeta.value, NextMeta(cfg, ld, src, clock))
      || NextMeta(cfg, ld, src, clock).generatedAt == clock.now
  {
    var was := ld.previousMeta.value.generatedAt;
    var later := clock.(now := was + "'");
    assert later.now != was && NextMeta(cfg, ld, src, later).locale == cfg.locale;
  }

  /** The texts the four files should have. */
  datatype Expected = Expected(locale: string, meta: string, glossary: string, tm: string)

  function Expect(cfg: Config, codec: Codec, ld: Loaded, clock: Clock, t: map<string, string>): Expected {
    var src := Flatten(cfg.source);
    Expected(
      codec.renderLocale(Rebuild(Valued(cfg, ld, t, src))),
      codec.renderMeta(NextMeta(cfg, ld, src, clock)),
      codec.renderGlossary(if |ld.glossary| == 0 then DEFAULT_GLOSSARY else ld.glossary),
      Render(codec.tmLine, cfg.leq, NextMemory(cfg, ld, clock, Pending(cfg, ld, src), t)))
  }

  function TextOf(file: Option<string>): string {
    if file.None? then "" else file.value
  }

  predicate Current(files: Files, e: Expected) {
    && TextOf(files.locale) == e.locale && TextOf(files.meta) == e.meta
    && TextOf(files.glossary) == e.glossary && TextOf(files.tm) == e.tm
  }

  function WriteAll(files: Files, e: Expected): Files {
    Files(Some(e.locale), Some(e.meta), Some(e.glossary),
          if e.tm != "" then Some(e.tm) else if files.tm.Some? then Some("") else None)
  }

  /** A run that completes: the report, and the files it leaves. */
  function Synced(
    cfg: Config, codec: Codec, files: Files, options: SyncOptions, clock: Clock, t: map<string, string>): Report {
    var ld := LoadAll(codec, files);
    var e := Expect(cfg, codec, ld, clock, t);
    var changed := !Current(files, e);
    var writes := changed && !options.checkOnly && options.write;
    Report(if writes then WriteAll(files, e) else files, changed,
           |SortedFallbacks(cfg, ld, Flatten(cfg.source))|, writes)
  }

  // ----- what the lists hold

  lemma {:induction false} PendingHas(cfg: Config, ld: Loaded, src: Flat, i: nat)
    requires i < |src| && Decide(cfg, ld, src[i].0, src[i].1) == Pend
    ensures Item(cfg, src[i].0, src[i].1) in Pending(cfg, ld, src)
  {
    if i < |src| - 1 {
      PendingHas(cfg, ld, src[..|src| - 1], i);
    }
  }

  lemma {:induction false} PendingOnly(cfg: Config, ld: Loaded, src: Flat, k: nat)
    requires k < |Pending(cfg, ld, src)|
    ensures exists i :: 0 <= i < |src| && IsPending(cfg, ld, src, Pending(cfg, ld, src)[k], i)
  {
    var n := |src| - 1;
    if k < |Pending(cfg, ld, src[..n])| {
      PendingOnly(cfg, ld, src[..n], k);
      var i :| 0 <= i < n && IsPending(cfg, ld, src[..n], Pending(cfg, ld, src[..n])[k], i);
      assert IsPending(cfg, ld, src, Pending(cfg, ld, src)[k], i);
    } else {
      assert IsPending(cfg, ld, src, Pending(cfg, ld, src)[k], n);
    }
  }

  predicate IsPending(cfg: Config, ld: Loaded, src: Flat, item: BatchItem, i: nat)
    requires i < |src|
  {
    item == Item(cfg, src[i].0, src[i].1) && Decide(cfg, ld, src[i].0, src[i].1) == Pend
  }

  lemma {:induction false} KeptFallbacksHave(cfg: Config, ld: Loaded, src: Flat, key: string)
    ensures key in KeptFallbacks(cfg, ld, src) <==>
      exists i :: 0 <= i < |src| && src[i].0 == key && IsKept(cfg, ld, key, src[i].1)
  {
    if src != [] {
      var n := |src| - 1;
      KeptFallbacksHave(cfg, ld, src[..n], key);
      if exists i :: 0 <= i < n && src[..n][i].0 == key && IsKept(cfg, ld, key, src[..n][i].1) {
        var i :| 0 <= i < n && src[..n][i].0 == key && IsKept(cfg, ld, key, src[..n][i].1);
        assert src[i] == src[..n][i];
      }
    }
  }

  predicate IsKept(cfg: Config, ld: Loaded, key: string, text: string) {
    Decide(cfg, ld, key, text).Reuse? && Decide(cfg, ld, key, text).fallback
  }

  // ----- one completed write is a fixpoint

  /** What the script needs of its configuration: dotted keys that can be written back, and cache
      keys that exist and tell the source keys apart. */
  ghost predicate ConfigOk(cfg: Config) {
    var src := Flatten(cfg.source);
    && Rebuildable(src)
    && TotalPreorder(cfg.leq)
    && (forall i :: 0 <= i < |src| ==> SegmentCacheKey(cfg, src[i].0, src[i].1) != "")
    && (forall i, j :: 0 <= i < j < |src| ==>
          SegmentCacheKey(cfg, src[i].0, src[i].1) != SegmentCacheKey(cfg, src[j].0, src[j].1))
  }

  /** The files of a completed write run. */
  ghost predicate Holds(files: Files, e: Expected) {
    && files.locale == Some(e.locale) && files.meta == Some(e.meta) && files.glossary == Some(e.glossary)
    && (files.tm == Some(e.tm) || (files.tm == None && e.tm == ""))
  }

  lemma {:induction false} ValuedOk(cfg: Config, ld: Loaded, t: map<string, string>)
    requires ConfigOk(cfg)
    ensures var next := Valued(cfg, ld, t, Flatten(cfg.source));
      JsMap.UniqueKeys(next) && Rebuildable(next) && WellFormed(Rebuild(next))
  {
    var src := Flatten(cfg.source);
    var next := Valued(cfg, ld, t, src);
    FlattenUnique(cfg.source);
    forall i, j | 0 <= i < j < |next| ensures Apart(Paths(next)[i].0, Paths(next)[j].0) {
      assert Apart(Paths(src)[i].0, Paths(src)[j].0);
    }
    PutAllShape([], Paths(next));
  }

  lemma {:induction false} WriteHolds(
    cfg: Config, codec: Codec, files: Files, force: bool, clock: Clock, t: map<string, string>)
    requires ConfigOk(cfg) && CodecOk(codec)
    ensures Holds(Synced(cfg, codec, files, SyncOptions(false, force, true), clock, t).files,
                  Expect(cfg, codec, LoadAll(codec, files), clock, t))
  {
    ValuedOk(cfg, LoadAll(codec, files), t);
  }

  lemma {:induction false} MemoryAfter(cfg: Config, ld: Loaded, clock: Clock, t: map<string, string>, i: nat)
    requires ConfigOk(cfg) && cfg.allowTranslate && i < |Flatten(cfg.source)|
    ensures var src := Flatten(cfg.source);
      var (key, text) := src[i];
      JsMap.Get(NextMemory(cfg, ld, clock, Pending(cfg, ld, src), t), SegmentCacheKey(cfg, key, text))
        == if Decide(cfg, ld, key, text) == Pend then Some(NewEntry(cfg, clock, Item(cfg, key, text), TextFor(t, key)))
           else JsMap.Get(ld.tm, SegmentCacheKey(cfg, key, text))
  {
    var src := Flatten(cfg.source);
    var (key, text) := src[i];
    var items := Pending(cfg, ld, src);
    var new' := NewEntries(cfg, clock, items, t);
    var mine := NewEntry(cfg, clock, Item(cfg, key, text), TextFor(t, key));
    var ck := SegmentCacheKey(cfg, key, text);
    forall k | 0 <= k < |new'| && new'[k].0 == ck ensures new'[k].1 == mine && Decide(cfg, ld, key, text) == Pend {
      PendingOnly(cfg, ld, src, k);
      var j :| 0 <= j < |src| && IsPending(cfg, ld, src, items[k], j);
      assert j == i;
    }
    if Decide(cfg, ld, key, text) == Pend {
      PendingHas(cfg, ld, src, i);
      var k :| 0 <= k < |items| && items[k] == Item(cfg, key, text);
      assert new'[k] == (ck, mine);
    }
    assert forall e :: (ck, e) in new' ==> e == mine && Decide(cfg, ld, key, text) == Pend;
    JsMap.GetSetAll(ld.tm, new', ck, mine);
  }

  lemma {:induction false} MemoryWell(cfg: Config, codec: Codec, files: Files, clock: Clock, t: map<string, string>)
    requires ConfigOk(cfg)
    requires cfg.allowTranslate ==> Answers(Pending(cfg, LoadAll(codec, files), Flatten(cfg.source)), t)
    ensures var ld := LoadAll(codec, files);
      WellKept(NextMemory(cfg, ld, clock, Pending(cfg, ld, Flatten(cfg.source)), t), Loadable)
  {
    var ld, src := LoadAll(codec, files), Flatten(cfg.source);
    LoadedWell(codec.tmLine, files.tm);
    if cfg.allowTranslate {
      var items := Pending(cfg, ld, src);
      var new' := NewEntries(cfg, clock, items, t);
      forall k | 0 <= k < |new'| ensures new'[k].0 == new'[k].1.cacheKey && Loadable(new'[k].1) {
        PendingOnly(cfg, ld, src, k);
        BlankTrimsToNothing(new'[k].1.translated);
      }
      SetAllKeepsWell(ld.tm, new', Loadable);
    }
  }

  /** With a provider no key is left on its English fallback. */
  lemma {:induction false} ProviderLeavesNoFallback(cfg: Config, ld: Loaded, src: Flat)
    requires cfg.allowTranslate
    ensures SortedFallbacks(cfg, ld, src) == []
  {
    var keys := FallbackKeys(cfg, ld, src);
    if keys != [] {
      KeptFallbacksHave(cfg, ld, src, keys[0]);
      assert false;
    }
    assert Dedupe([]) == [] && SortBy(cfg.leq, []) == [];
  }

  /** Without one, the fallbacks are the kept ones and the keys with neither cache nor text. */
  lemma {:induction false} FallbackIff(cfg: Config, ld: Loaded, i: nat)
    requires ConfigOk(cfg) && !cfg.allowTranslate && i < |Flatten(cfg.source)|
    ensures var src := Flatten(cfg.source);
      var (key, text) := src[i];
      key in SortedFallbacks(cfg, ld, src) <==> IsKept(cfg, ld, key, text) || Decide(cfg, ld, key, text) == Pend
  {
    var src := Flatten(cfg.source);
    var (key, text) := src[i];
    FlattenUnique(cfg.source);
    FallbackListed(cfg, ld, src, key);
    KeptFallbacksHave(cfg, ld, src, key);
    if key in ItemKeys(Pending(cfg, ld, src)) {
      var k :| 0 <= k < |Pending(cfg, ld, src)| && ItemKeys(Pending(cfg, ld, src))[k] == key;
      PendingOnly(cfg, ld, src, k);
      var j :| 0 <= j < |src| && IsPending(cfg, ld, src, Pending(cfg, ld, src)[k], j);
      assert j == i;
    }
    if Decide(cfg, ld, key, text) == Pend {
      PendingHas(cfg, ld, src, i);
      var k :| 0 <= k < |Pending(cfg, ld, src)| && Pending(cfg, ld, src)[k] == Item(cfg, key, text);
      assert ItemKeys(Pending(cfg, ld, src))[k] == key;
    }
  }

  lemma {:induction false} FallbackListed(cfg: Config, ld: Loaded, src: Flat, key: string)
    ensures key in SortedFallbacks(cfg, ld, src) <==> key in FallbackKeys(cfg, ld, src)
  {
    var keys := FallbackKeys(cfg, ld, src);
    SameMultisetSameElements(SortBy(cfg.leq, Dedupe(keys)), Dedupe(keys));
    assert key in SortedFallbacks(cfg, ld, src) <==> key in Elements(SortedFallbacks(cfg, ld, src));
    assert key in keys <==> key in Elements(keys);
  }

  lemma {:induction false} FallbackIsSource(cfg: Config, ld: Loaded, src: Flat, key: string)
    requires key in SortedFallbacks(cfg, ld, src)
    ensures exists i :: 0 <= i < |src| && src[i].0 == key
  {
    FallbackListed(cfg, ld, src, key);
    KeptFallbacksHave(cfg, ld, src, key);
    if key in ItemKeys(Pending(cfg, ld, src)) {
      var k :| 0 <= k < |Pending(cfg, ld, src)| && ItemKeys(Pending(cfg, ld, src))[k] == key;
      PendingOnly(cfg, ld, src, k);
      var j :| 0 <= j < |src| && IsPending(cfg, ld, src, Pending(cfg, ld, src)[k], j);
      assert src[j].0 == key;
    }
  }

  // ----- the second run

  /** Loading what a completed write left: every source key has its text, the metadata is back,
      and every source key's memory entry too. */
  lemma {:induction false} LoadedAgain(
    cfg: Config, codec: Codec, files: Files, clock: Clock, t: map<string, string>, after: Files, i: nat)
    requires ConfigOk(cfg) && CodecOk(codec)
    requires cfg.allowTranslate ==> Answers(Pending(cfg, LoadAll(codec, files), Flatten(cfg.source)), t)
    requires Holds(after, Expect(cfg, codec, LoadAll(codec, files), clock, t))
    requires i < |Flatten(cfg.source)|
    ensures var src := Flatten(cfg.source);
      var ld, ld' := LoadAll(codec, files), LoadAll(codec, after);
      var (key, text) := src[i];
      && JsMap.Get(ld'.existing, key) == Some(Value(cfg, ld, t, key, text))
      && JsMap.Get(ld'.tm, SegmentCacheKey(cfg, key, text))
           == JsMap.Get(NextMemory(cfg, ld, clock, Pending(cfg, ld, src), t), SegmentCacheKey(cfg, key, text))
  {
    var ld, src := LoadAll(codec, files), Flatten(cfg.source);
    TextLoadedAgain(cfg, codec, ld, t, after.locale, i);
    MemoryWell(cfg, codec, files, clock, t);
    RenderedMemory(cfg, codec, after, NextMemory(cfg, ld, clock, Pending(cfg, ld, src), t),
                   SegmentCacheKey(cfg, src[i].0, src[i].1));
  }

  lemma {:induction false} TextLoadedAgain(
    cfg: Config, codec: Codec, ld: Loaded, t: map<string, string>, locale: Option<string>, i: nat)
    requires ConfigOk(cfg) && CodecOk(codec) && i < |Flatten(cfg.source)|
    requires locale == Some(codec.renderLocale(Rebuild(Valued(cfg, ld, t, Flatten(cfg.source)))))
    ensures var (key, text) := Flatten(cfg.source)[i];
      JsMap.Get(LoadLocale(codec, locale), key) == Some(Value(cfg, ld, t, key, text))
  {
    var src := Flatten(cfg.source);
    var next := Valued(cfg, ld, t, src);
    ValuedOk(cfg, ld, t);
    RoundTrip(next, src[i].0);
    JsMap.EntryIsGot(next, i);
  }

  lemma {:induction false} RenderedMemory(cfg: Config, codec: Codec, after: Files, m: Memory, key: string)
    requires Faithful(codec.tmLine) && TotalPreorder(cfg.leq) && WellKept(m, Loadable)
    requires var text := Render(codec.tmLine, cfg.leq, m); after.tm == Some(text) || (after.tm == None && text == "")
    ensures var again := Load(codec.tmLine, after.tm);
      JsMap.Get(again, key) == JsMap.Get(m, key)
      && Render(codec.tmLine, cfg.leq, again) == Render(codec.tmLine, cfg.leq, m)
  {
    MemoryRoundTrip(codec.tmLine, cfg.leq, m, key);
    if after.tm == None {
      LoadRendered(codec.tmLine, []);
    }
  }

  /** The second run reuses every key, with the text it had, and it is a fallback if it was one. */
  lemma {:induction false} DecidedAgain(
    cfg: Config, codec: Codec, files: Files, clock: Clock, t: map<string, string>, after: Files, i: nat)
    requires ConfigOk(cfg) && CodecOk(codec)
    requires cfg.allowTranslate ==> Answers(Pending(cfg, LoadAll(codec, files), Flatten(cfg.source)), t)
    requires Holds(after, Expect(cfg, codec, LoadAll(codec, files), clock, t))
    requires i < |Flatten(cfg.source)|
    ensures var src := Flatten(cfg.source);
      var ld, ld' := LoadAll(codec, files), LoadAll(codec, after);
      var (key, text) := src[i];
      Decide(cfg, ld', key, text) == Reuse(Value(cfg, ld, t, key, text), key in SortedFallbacks(cfg, ld, src))
  {
    var ld, ld', src := LoadAll(codec, files), LoadAll(codec, after), Flatten(cfg.source);
    var (key, text) := src[i];
    LoadedAgain(cfg, codec, files, clock, t, after, i);
    MetaLoadedAgain(cfg, codec, files, clock, t, after);
    if cfg.allowTranslate {
      ProviderLeavesNoFallback(cfg, ld, src);
    }
    MemoryAgrees(cfg, ld, clock, t, i);
    ReusedAgain(cfg, ld', key, text, Value(cfg, ld, t, key, text), key in SortedFallbacks(cfg, ld, src));
  }

  lemma {:induction false} MetaLoadedAgain(
    cfg: Config, codec: Codec, files: Files, clock: Clock, t: map<string, string>, after: Files)
    requires CodecOk(codec) && Holds(after, Expect(cfg, codec, LoadAll(codec, files), clock, t))
    ensures LoadAll(codec, after).previousMeta
      == Some(NextMeta(cfg, LoadAll(codec, files), Flatten(cfg.source), clock))
    ensures forall key :: WasFallback(LoadAll(codec, after), key) <==>
      key in SortedFallbacks(cfg, LoadAll(codec, files), Flatten(cfg.source))
  {
  }

  /** Where the memory has an entry after a run, it is the text the run gave the key. */
  lemma {:induction false} MemoryAgrees(cfg: Config, ld: Loaded, clock: Clock, t: map<string, string>, i: nat)
    requires ConfigOk(cfg) && i < |Flatten(cfg.source)|
    ensures var src := Flatten(cfg.source);
      var (key, text) := src[i];
      var entry := JsMap.Get(NextMemory(cfg, ld, clock, Pending(cfg, ld, src), t), SegmentCacheKey(cfg, key, text));
      entry.Some? ==> entry.value.translated == Value(cfg, ld, t, key, text)
  {
    if cfg.allowTranslate {
      MemoryAfter(cfg, ld, clock, t, i);
    }
  }

  lemma {:induction false} ReusedAgain(
    cfg: Config, ld: Loaded, key: string, text: string, value: string, fallback: bool)
    requires JsMap.Get(ld.existing, key) == Some(value)
    requires var cached := JsMap.Get(ld.tm, SegmentCacheKey(cfg, key, text));
      cached.Some? ==> cached.value.translated == value
    requires WasFallback(ld, key) <==> fallback
    requires !(cfg.allowTranslate && fallback)
    ensures Decide(cfg, ld, key, text) == Reuse(value, fallback)
  {
  }

  /** Every key is reused with the text `ld` and `t` gave it, as a fallback exactly if it was one. */
  ghost predicate ReusesAll(cfg: Config, ld: Loaded, t: map<string, string>, ld': Loaded, src: Flat) {
    forall i :: 0 <= i < |src| ==>
      Decide(cfg, ld', src[i].0, src[i].1)
        == Reuse(Value(cfg, ld, t, src[i].0, src[i].1), src[i].0 in SortedFallbacks(cfg, ld, src))
  }

  lemma {:induction false} DecidedAllAgain(
    cfg: Config, codec: Codec, files: Files, clock: Clock, t: map<string, string>, after: Files)
    requires ConfigOk(cfg) && CodecOk(codec)
    requires cfg.allowTranslate ==> Answers(Pending(cfg, LoadAll(codec, files), Flatten(cfg.source)), t)
    requires Holds(after, Expect(cfg, codec, LoadAll(codec, files), clock, t))
    ensures ReusesAll(cfg, LoadAll(codec, files), t, LoadAll(codec, after), Flatten(cfg.source))
  {
    forall i | 0 <= i < |Flatten(cfg.source)|
      ensures var (key, text) := Flatten(cfg.source)[i];
        Decide(cfg, LoadAll(codec, after), key, text)
          == Reuse(Value(cfg, LoadAll(codec, files), t, key, text),
                   key in SortedFallbacks(cfg, LoadAll(codec, files), Flatten(cfg.source)))
    {
      DecidedAgain(cfg, codec, files, clock, t, after, i);
    }
  }

  lemma {:induction false} NothingPending(cfg: Config, ld0: Loaded, t: map<string, string>, ld: Loaded, src: Flat)
    requires ReusesAll(cfg, ld0, t, ld, src)
    ensures Pending(cfg, ld, src) == []
  {
    if Pending(cfg, ld, src) != [] {
      PendingOnly(cfg, ld, src, 0);
    }
  }
}
