/** The translation memory file: one JSON line per entry, sorted by cache key, and why loading
    what was rendered loses nothing and rendering it again changes nothing. */
module TranslationMemory {
  import opened Options
  import opened JsText
  import opened Sorting
  import JsMap

  datatype TmEntry = TmEntry(
    cacheKey: string, model: string, provider: string, segmentId: string, sourcePath: string, srcLang: string,
    text: string, textHash: string, tgtLang: string, translated: string, updatedAt: string)

  type Memory = JsMap.Map<string, TmEntry>

  /** `JSON.stringify` and `JSON.parse` on one entry. */
  datatype LineCodec = LineCodec(render: TmEntry -> string, parse: string -> TmEntry)

  /** A rendered entry is one line with nothing to trim, and parsing gives the entry back. */
  ghost predicate Faithful(codec: LineCodec) {
    forall e :: '\n' !in codec.render(e) && codec.render(e) != "" && Trim(codec.render(e)) == codec.render(e)
      && codec.parse(codec.render(e)) == e
  }

  /** Entries without a key or a translation are skipped. */
  predicate Loadable(e: TmEntry) {
    e.cacheKey != "" && Trim(e.translated) != ""
  }

  /** What one line of the file contributes. */
  function ParseLine(codec: LineCodec, line: string): Option<TmEntry> {
    var trimmed := Trim(line);
    if trimmed == "" || !Loadable(codec.parse(trimmed)) then None else Some(codec.parse(trimmed))
  }

  function Keep(m: Memory, entry: Option<TmEntry>): Memory {
    if entry.None? then m else JsMap.Set(m, entry.value.cacheKey, entry.value)
  }

  function KeepAll(parsed: seq<Option<TmEntry>>): Memory {
    if parsed == [] then [] else Keep(KeepAll(parsed[..|parsed| - 1]), parsed[|parsed| - 1])
  }

  function ParseLines(codec: LineCodec, lines: seq<string>): (r: seq<Option<TmEntry>>)
    ensures |r| == |lines| && forall i :: 0 <= i < |lines| ==> r[i] == ParseLine(codec, lines[i])
  {
    if lines == [] then [] else [ParseLine(codec, lines[0])] + ParseLines(codec, lines[1..])
  }

  function LoadLines(codec: LineCodec, lines: seq<string>): Memory {
    KeepAll(ParseLines(codec, lines))
  }

  /** A missing file is an empty memory. */
  function Load(codec: LineCodec, file: Option<string>): Memory {
    if file.None? then [] else LoadLines(codec, SplitOn(file.value, '\n'))
  }

  method LoadTranslationMemory(codec: LineCodec, file: Option<string>) returns (entries: Memory)
    ensures entries == Load(codec, file)
  {
    entries := [];
    if file == None {
      return;
    }
    var lines := SplitOn(file.value, '\n');
    ghost var all := ParseLines(codec, lines);
    for i := 0 to |lines|
      invariant entries == KeepAll(all[..i])
    {
      assert all[..i + 1][..i] == all[..i];
      var parsed := ParseLine(codec, lines[i]);
      if parsed.Some? {
        entries := JsMap.Set(entries, parsed.value.cacheKey, parsed.value);
      }
    }
    assert all[..|lines|] == all;
  }

  function ByCacheKey(leq: (string, string) -> bool): (TmEntry, TmEntry) -> bool {
    (a: TmEntry, b: TmEntry) => leq(a.cacheKey, b.cacheKey)
  }

  function Values(m: Memory): (r: seq<TmEntry>)
    ensures |r| == |m| && forall i :: 0 <= i < |m| ==> r[i] == m[i].1
  {
    if m == [] then [] else [m[0].1] + Values(m[1..])
  }

  function RenderLines(codec: LineCodec, entries: seq<TmEntry>): (r: seq<string>)
    ensures |r| == |entries| && forall i :: 0 <= i < |entries| ==> r[i] == codec.render(entries[i])
  {
    if entries == [] then [] else [codec.render(entries[0])] + RenderLines(codec, entries[1..])
  }

  function RenderSorted(codec: LineCodec, ordered: seq<TmEntry>): string {
    if ordered == [] then "" else Join(RenderLines(codec, ordered), '\n') + "\n"
  }

  function Render(codec: LineCodec, leq: (string, string) -> bool, m: Memory): string {
    RenderSorted(codec, SortBy(ByCacheKey(leq), Values(m)))
  }

  /** What a loaded memory looks like, and what every later entry keeps. */
  ghost predicate WellKept(m: Memory, ok: TmEntry -> bool) {
    && JsMap.UniqueKeys(m)
    && forall i :: 0 <= i < |m| ==> m[i].0 == m[i].1.cacheKey && ok(m[i].1)
  }

  lemma {:induction false} SetKeepsWell(m: Memory, e: TmEntry, ok: TmEntry -> bool)
    requires WellKept(m, ok) && ok(e)
    ensures WellKept(JsMap.Set(m, e.cacheKey, e), ok)
  {
    JsMap.SetKeepsUnique(m, e.cacheKey, e);
    var n := JsMap.Set(m, e.cacheKey, e);
    forall i | 0 <= i < |n| ensures n[i].0 == n[i].1.cacheKey && ok(n[i].1) {
      assert n[i] in n;
      if n[i].0 == e.cacheKey {
        JsMap.GetSet(m, e.cacheKey, e, e.cacheKey);
        JsMap.EntryIsGot(n, i);
      }
    }
  }

  lemma {:induction false} SetAllKeepsWell(m: Memory, pairs: Memory, ok: TmEntry -> bool)
    requires WellKept(m, ok)
    requires forall i :: 0 <= i < |pairs| ==> pairs[i].0 == pairs[i].1.cacheKey && ok(pairs[i].1)
    ensures WellKept(JsMap.SetAll(m, pairs), ok)
    decreases |pairs|
  {
    if pairs != [] {
      SetKeepsWell(m, pairs[0].1, ok);
      SetAllKeepsWell(JsMap.Set(m, pairs[0].0, pairs[0].1), pairs[1..], ok);
    }
  }

  lemma {:induction false} KeptWell(parsed: seq<Option<TmEntry>>, ok: TmEntry -> bool)
    requires forall i :: 0 <= i < |parsed| && parsed[i].Some? ==> ok(parsed[i].value)
    ensures WellKept(KeepAll(parsed), ok)
  {
    if parsed != [] {
      var n := |parsed| - 1;
      KeptWell(parsed[..n], ok);
      if parsed[n].Some? {
        SetKeepsWell(KeepAll(parsed[..n]), parsed[n].value, ok);
      }
    }
  }

  lemma {:induction false} LoadedWell(codec: LineCodec, file: Option<string>)
    ensures WellKept(Load(codec, file), Loadable)
  {
    if file.Some? {
      var lines := SplitOn(file.value, '\n');
      forall i | 0 <= i < |lines| && ParseLine(codec, lines[i]).Some?
        ensures Loadable(ParseLine(codec, lines[i]).value)
      {
      }
      KeptWell(ParseLines(codec, lines), Loadable);
    }
  }

  /** The entries as `Map` pairs under their own cache keys. */
  function Pairs(entries: seq<TmEntry>): (r: Memory)
    ensures |r| == |entries| && forall i :: 0 <= i < |entries| ==> r[i] == (entries[i].cacheKey, entries[i])
  {
    seq(|entries|, i requires 0 <= i < |entries| => (entries[i].cacheKey, entries[i]))
  }

  lemma {:induction false} KeepDistinct(parsed: seq<Option<TmEntry>>, entries: seq<TmEntry>)
    requires |parsed| == |entries| && JsMap.UniqueKeys(Pairs(entries))
    requires forall i :: 0 <= i < |parsed| ==> parsed[i] == Some(entries[i])
    ensures KeepAll(parsed) == Pairs(entries)
  {
    if entries != [] {
      var n := |entries| - 1;
      PairsLast(entries);
      KeepDistinct(parsed[..n], entries[..n]);
      JsMap.SetNew(Pairs(entries[..n]), entries[n].cacheKey, entries[n]);
    }
  }

  lemma {:induction false} PairsLast(entries: seq<TmEntry>)
    requires entries != [] && JsMap.UniqueKeys(Pairs(entries))
    ensures var n := |entries| - 1;
      && Pairs(entries) == Pairs(entries[..n]) + [(entries[n].cacheKey, entries[n])]
      && JsMap.UniqueKeys(Pairs(entries[..n]))
      && forall i :: 0 <= i < n ==> Pairs(entries[..n])[i].0 != entries[n].cacheKey
  {
    var n := |entries| - 1;
    var all, before := Pairs(entries), Pairs(entries[..n]);
    assert forall i :: 0 <= i < n ==> before[i] == all[i];
    forall i | 0 <= i < n ensures before[i].0 != entries[n].cacheKey {
      assert all[i].0 != all[n].0;
    }
  }

  lemma {:induction false} RenderedLineIsKept(codec: LineCodec, e: TmEntry)
    requires Faithful(codec) && Loadable(e)
    ensures ParseLine(codec, codec.render(e)) == Some(e)
  {
    assert codec.parse(codec.render(e)) == e;
  }

  lemma {:induction false} LoadTrailingNewline(codec: LineCodec, lines: seq<string>)
    requires lines != [] && FreeOf(lines, '\n')
    ensures LoadLines(codec, SplitOn(Join(lines, '\n') + "\n", '\n')) == LoadLines(codec, lines)
  {
    JoinTrailing(lines, '\n');
    SplitJoin(lines + [""], '\n');
    BlankLine(codec);
    var more := ParseLines(codec, lines + [""]);
    assert more[..|lines|] == ParseLines(codec, lines) && more[|lines|] == None;
  }

  lemma {:induction false} BlankLine(codec: LineCodec)
    ensures ParseLine(codec, "") == None
  {
    assert Trim("") == "";
  }

  lemma {:induction false} JoinTrailing(lines: seq<string>, sep: char)
    requires lines != []
    ensures Join(lines + [""], sep) == Join(lines, sep) + [sep]
  {
    if |lines| == 1 {
      assert (lines + [""])[1..] == [""];
    } else {
      assert (lines + [""])[1..] == lines[1..] + [""];
      JoinTrailing(lines[1..], sep);
    }
  }

  /** Same entries, each key once: the same memory but for the order of keys. */
  lemma {:induction false} PairsGet(m: Memory, entries: seq<TmEntry>, key: string, ok: TmEntry -> bool)
    requires WellKept(m, ok) && multiset(entries) == multiset(Values(m))
    ensures JsMap.UniqueKeys(Pairs(entries)) && forall i :: 0 <= i < |entries| ==> ok(entries[i])
    ensures JsMap.Get(Pairs(entries), key) == JsMap.Get(m, key)
  {
    forall e ensures e in entries <==> (e.cacheKey, e) in m {
      ValuesHave(m, e, ok);
      assert e in multiset(entries) <==> e in multiset(Values(m));
    }
    KeysStayUnique(m, entries, ok);
    assert forall i :: 0 <= i < |entries| ==> (entries[i].cacheKey, entries[i]) in m;
    JsMap.GetIsEntry(Pairs(entries), key);
    JsMap.GetIsEntry(m, key);
    if JsMap.Get(m, key).Some? {
      var e := JsMap.Get(m, key).value;
      assert e.cacheKey == key && e in entries;
      var i :| 0 <= i < |entries| && entries[i] == e;
      JsMap.EntryIsGot(Pairs(entries), i);
    } else {
      assert forall i :: 0 <= i < |entries| ==> Pairs(entries)[i] in m;
    }
  }

  lemma {:induction false} ValuesHave(m: Memory, e: TmEntry, ok: TmEntry -> bool)
    requires WellKept(m, ok)
    ensures e in Values(m) <==> (e.cacheKey, e) in m
  {
    if e in Values(m) {
      var i :| 0 <= i < |m| && Values(m)[i] == e;
      assert m[i] == (e.cacheKey, e);
    }
    if (e.cacheKey, e) in m {
      var i :| 0 <= i < |m| && m[i] == (e.cacheKey, e);
      assert Values(m)[i] == e;
    }
  }

  lemma {:induction false} KeysStayUnique(m: Memory, entries: seq<TmEntry>, ok: TmEntry -> bool)
    requires WellKept(m, ok) && multiset(entries) == multiset(Values(m))
    ensures JsMap.UniqueKeys(Pairs(entries))
  {
    ValuesPermuted(m, entries, ok);
    forall i, j | 0 <= i < j < |entries| ensures entries[i].cacheKey != entries[j].cacheKey {
      assert (entries[i].cacheKey, entries[i]) in m && (entries[j].cacheKey, entries[j]) in m;
      var k :| 0 <= k < |m| && m[k] == (entries[i].cacheKey, entries[i]);
      var l :| 0 <= l < |m| && m[l] == (entries[j].cacheKey, entries[j]);
      assert k != l;
    }
  }

  lemma {:induction false} ValuesPermuted(m: Memory, entries: seq<TmEntry>, ok: TmEntry -> bool)
    requires WellKept(m, ok) && multiset(entries) == multiset(Values(m))
    ensures Distinct(entries)
    ensures forall e :: e in entries ==> (e.cacheKey, e) in m
  {
    var values := Values(m);
    forall i, j | 0 <= i < j < |values| ensures values[i] != values[j] {
      assert m[i].0 != m[j].0;
    }
    DistinctByMultiset(values);
    DistinctByMultiset(entries);
    forall e | e in entries ensures (e.cacheKey, e) in m {
      assert e in multiset(values);
      ValuesHave(m, e, ok);
    }
  }

  /** Loading a rendered memory gives every key its entry again, and rendering that gives the same
      text, even when the comparison ties different cache keys. */
  lemma {:induction false} MemoryRoundTrip(codec: LineCodec, leq: (string, string) -> bool, m: Memory, key: string)
    requires Faithful(codec) && TotalPreorder(leq) && WellKept(m, Loadable)
    ensures var again := Load(codec, Some(Render(codec, leq, m)));
      JsMap.Get(again, key) == JsMap.Get(m, key) && Render(codec, leq, again) == Render(codec, leq, m)
  {
    var ordered := SortBy(ByCacheKey(leq), Values(m));
    PairsGet(m, ordered, key, Loadable);
    LoadRendered(codec, ordered);
    RenderPairs(codec, leq, m);
  }

  lemma {:induction false} LoadRendered(codec: LineCodec, ordered: seq<TmEntry>)
    requires Faithful(codec) && JsMap.UniqueKeys(Pairs(ordered))
    requires forall i :: 0 <= i < |ordered| ==> Loadable(ordered[i])
    ensures Load(codec, Some(RenderSorted(codec, ordered))) == Pairs(ordered)
  {
    if ordered == [] {
      BlankLine(codec);
      var parsed := ParseLines(codec, [""]);
      assert SplitOn("", '\n') == [""] && parsed[0] == None && parsed[..0] == [];
      assert KeepAll(parsed) == KeepAll(parsed[..0]);
      assert |Pairs(ordered)| == 0;
    } else {
      var lines := RenderLines(codec, ordered);
      forall i | 0 <= i < |lines| ensures ParseLine(codec, lines[i]) == Some(ordered[i]) && '\n' !in lines[i] {
        RenderedLineIsKept(codec, ordered[i]);
      }
      LoadTrailingNewline(codec, lines);
      KeepDistinct(ParseLines(codec, lines), ordered);
    }
  }

  lemma {:induction false} RenderPairs(codec: LineCodec, leq: (string, string) -> bool, m: Memory)
    requires TotalPreorder(leq)
    ensures Render(codec, leq, Pairs(SortBy(ByCacheKey(leq), Values(m)))) == Render(codec, leq, m)
  {
    var order := ByCacheKey(leq);
    var ordered := SortBy(order, Values(m));
    ByCacheKeyIsPreorder(leq);
    SortBySorted(order, Values(m));
    SortedIsFixed(order, ordered);
    assert Values(Pairs(ordered)) == ordered;
  }

  lemma {:induction false} ByCacheKeyIsPreorder(leq: (string, string) -> bool)
    requires TotalPreorder(leq)
    ensures TotalPreorder(ByCacheKey(leq))
  {
    var order := ByCacheKey(leq);
    forall a, b ensures order(a, b) || order(b, a) {
      assert leq(a.cacheKey, b.cacheKey) || leq(b.cacheKey, a.cacheKey);
    }
    forall a, b, c | order(a, b) && order(b, c) ensures order(a, c) {
      assert leq(a.cacheKey, b.cacheKey) && leq(b.cacheKey, c.cacheKey);
    }
  }
}
