/** The translation memory as a file: what loading keeps of any lines, and what rendering writes. */
module MemoryFile {
  import opened Options
  import opened JsText
  import opened Sorting
  import JsMap
  import opened TranslationMemory

  /** What an entry needs to be loaded. */
  predicate Worthy(e: TmEntry) {
    e.cacheKey != "" && !IsBlank(e.translated)
  }

  /** The last entry of a list for a key, among those that can be loaded. */
  function LastFor(entries: seq<TmEntry>, key: string): Option<TmEntry> {
    if entries == [] then None
    else
      var e := entries[|entries| - 1];
      if e.cacheKey == key && Worthy(e) then Some(e) else LastFor(entries[..|entries| - 1], key)
  }

  lemma {:induction false} WorthyIsLoadable(e: TmEntry)
    ensures Loadable(e) <==> Worthy(e)
  {
    BlankTrimsToNothing(e.translated);
  }

  lemma {:induction false} KeptIsLast(parsed: seq<Option<TmEntry>>, entries: seq<TmEntry>, key: string)
    requires |parsed| == |entries|
    requires forall i :: 0 <= i < |parsed| ==> parsed[i] == if Worthy(entries[i]) then Some(entries[i]) else None
    ensures JsMap.Get(KeepAll(parsed), key) == LastFor(entries, key)
  {
    if entries != [] {
      var n := |entries| - 1;
      KeptIsLast(parsed[..n], entries[..n], key);
      JsMap.GetSet(KeepAll(parsed[..n]), entries[n].cacheKey, entries[n], key);
    }
  }

  /** From a file with a line for each of some entries, whatever they are, loading takes for each key the last
      entry that has it and a translation; entries without a key or with a blank translation are passed over. */
  lemma {:induction false} LastLineCounts(codec: LineCodec, entries: seq<TmEntry>, key: string)
    requires Faithful(codec)
    ensures JsMap.Get(Load(codec, Some(RenderSorted(codec, entries))), key) == LastFor(entries, key)
  {
    if entries == [] {
      LoadRendered(codec, []);
    } else {
      var lines := RenderLines(codec, entries);
      forall i | 0 <= i < |lines|
        ensures '\n' !in lines[i]
        ensures ParseLine(codec, lines[i]) == if Worthy(entries[i]) then Some(entries[i]) else None
      {
        LineRead(codec, entries[i]);
      }
      LoadTrailingNewline(codec, lines);
      KeptIsLast(ParseLines(codec, lines), entries, key);
    }
  }

  lemma {:induction false} LineRead(codec: LineCodec, e: TmEntry)
    requires Faithful(codec)
    ensures '\n' !in codec.render(e)
    ensures ParseLine(codec, codec.render(e)) == if Worthy(e) then Some(e) else None
  {
    WorthyIsLoadable(e);
    assert codec.parse(codec.render(e)) == e;
  }

  // ----- what is written

  function Lines(codec: LineCodec, entries: seq<TmEntry>): string {
    if entries == [] then "" else codec.render(entries[0]) + "\n" + Lines(codec, entries[1..])
  }

  lemma {:induction false} RenderedLines(codec: LineCodec, entries: seq<TmEntry>)
    ensures RenderSorted(codec, entries) == Lines(codec, entries)
  {
    if entries != [] {
      RenderedLines(codec, entries[1..]);
      assert RenderLines(codec, entries)[1..] == RenderLines(codec, entries[1..]);
      if |entries| == 1 {
        assert codec.render(entries[0]) + "\n" + "" == codec.render(entries[0]) + "\n";
      } else {
        var rest := Join(RenderLines(codec, entries[1..]), '\n');
        assert (codec.render(entries[0]) + ['\n'] + rest) + "\n" == codec.render(entries[0]) + "\n" + (rest + "\n");
      }
    }
  }

  /** The file has every entry of the memory on a line of its own, ordered by cache key. */
  lemma {:induction false} WrittenInKeyOrder(codec: LineCodec, leq: (string, string) -> bool, m: Memory)
    returns (entries: seq<TmEntry>)
    requires TotalPreorder(leq)
    ensures Render(codec, leq, m) == Lines(codec, entries)
    ensures multiset(entries) == multiset(Values(m))
    ensures forall i, j :: 0 <= i < j < |entries| ==> leq(entries[i].cacheKey, entries[j].cacheKey)
  {
    entries := SortBy(ByCacheKey(leq), Values(m));
    RenderedLines(codec, entries);
    ByCacheKeyIsPreorder(leq);
    SortBySorted(ByCacheKey(leq), Values(m));
    forall i, j | 0 <= i < j < |entries| ensures leq(entries[i].cacheKey, entries[j].cacheKey) {
      assert ByCacheKey(leq)(entries[i], entries[j]);
    }
  }
}
