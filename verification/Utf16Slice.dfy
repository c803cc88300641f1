/** Slicing strings of UTF-16 code units without cutting a surrogate pair in two
    (section 2 of RFC 2781). Strings need not be well formed. */
module Utf16Slice {
  import opened Options

  type unit = i: int | 0 <= i < 0x1_0000

  predicate IsHighSurrogate(c: unit) {
    0xd800 <= c <= 0xdbff
  }

  predicate IsLowSurrogate(c: unit) {
    0xdc00 <= c <= 0xdfff
  }

  /** The two units of a character above 0xffff (section 2.1 of RFC 2781). */
  function Pair(codePoint: int): (unit, unit)
    requires 0x1_0000 <= codePoint < 0x11_0000
  {
    (0xd800 + (codePoint - 0x1_0000) / 0x400, 0xdc00 + (codePoint - 0x1_0000) % 0x400)
  }

  /** A high surrogate and a low one are the two units of exactly one such character. */
  lemma {:induction false} PairsAreCharacters(hi: unit, lo: unit)
    ensures IsHighSurrogate(hi) && IsLowSurrogate(lo) <==>
      exists c {:trigger Pair(c)} :: 0x1_0000 <= c < 0x11_0000 && Pair(c) == (hi, lo)
    ensures forall c, d {:trigger Pair(c), Pair(d)} ::
      0x1_0000 <= c < 0x11_0000 && 0x1_0000 <= d < 0x11_0000 && Pair(c) == Pair(d) ==> c == d
  {
    if IsHighSurrogate(hi) && IsLowSurrogate(lo) {
      var c := 0x1_0000 + 0x400 * (hi - 0xd800) + (lo - 0xdc00);
      assert Pair(c) == (hi, lo);
    }
  }

  /** The character at `at`: a high surrogate with the low one after it, or whatever single
      unit stands there. */
  function Token(s: seq<unit>, at: nat): (t: seq<unit>)
    requires at < |s|
    ensures |t| > 0 && at + |t| <= |s|
  {
    if at + 1 < |s| && IsHighSurrogate(s[at]) && IsLowSurrogate(s[at + 1]) then [s[at], s[at + 1]] else [s[at]]
  }

  /** The characters from `at` on that lie wholly inside `[lo, hi)`, in order. */
  function Within(s: seq<unit>, at: nat, lo: int, hi: int): seq<unit>
    requires at <= |s|
    decreases |s| - at
  {
    if at == |s| then []
    else
      var t := Token(s, at);
      var rest := Within(s, at + |t|, lo, hi);
      if lo <= at && at + |t| <= hi then t + rest else rest
  }

  /** An index as `slice` takes it: from the end when negative, and never outside. */
  function Normal(length: nat, index: int): (i: nat)
    ensures i <= length
    ensures 0 <= index <= length ==> i == index
    ensures 0 <= length + index < length ==> i == length + index
    ensures index > length ==> i == length
    ensures length + index < 0 ==> i == 0
  {
    if index < 0 then (if length + index > 0 then length + index else 0)
    else if index < length then index else length
  }

  /** The boundary before unit `i` falls between the two halves of a pair. */
  predicate SplitsPair(s: seq<unit>, i: int) {
    0 < i < |s| && IsHighSurrogate(s[i - 1]) && IsLowSurrogate(s[i])
  }

  /** `s.slice(from, to)` for indices that are not negative */
  function Slice(s: seq<unit>, from: nat, to: nat): seq<unit>
    requires to <= |s|
  {
    if from <= to then s[from..to] else []
  }

  function After(s: seq<unit>, i: nat): nat {
    if SplitsPair(s, i) then i + 1 else i
  }

  function Before(s: seq<unit>, i: nat): nat {
    if SplitsPair(s, i) then i - 1 else i
  }

  /** The units of a range, one by one. */
  function Units(s: seq<unit>, from: nat, to: nat): seq<unit>
    requires to <= |s|
    decreases if to > from then to - from else 0
  {
    if from >= to then [] else [s[from]] + Units(s, from + 1, to)
  }

  lemma {:induction false} UnitsAreSlice(s: seq<unit>, from: nat, to: nat)
    requires to <= |s|
    ensures Units(s, from, to) == Slice(s, from, to)
    decreases if to > from then to - from else 0
  {
    if from < to {
      UnitsAreSlice(s, from + 1, to);
      assert s[from..to] == [s[from]] + s[from + 1..to];
    }
  }

  /** A character wholly inside the range lies between the moved bounds, any other outside. */
  lemma {:induction false} MovedBounds(s: seq<unit>, at: nat, lo: nat, hi: nat)
    requires at < |s| && lo <= hi <= |s| && !SplitsPair(s, at)
    ensures var next := at + |Token(s, at)|;
      && !SplitsPair(s, next)
      && if lo <= at && next <= hi then After(s, lo) <= at && next <= Before(s, hi)
         else Before(s, hi) <= at || next <= After(s, lo)
  {
  }

  lemma {:induction false} WithinIsUnits(s: seq<unit>, at: nat, lo: nat, hi: nat, from: nat, to: nat)
    requires at <= |s| && lo <= hi <= |s| && !SplitsPair(s, at)
    requires from == After(s, lo) && to == Before(s, hi)
    ensures Within(s, at, lo, hi) == Units(s, if from < at then at else from, to)
    decreases |s| - at
  {
    if at < |s| {
      var next := at + |Token(s, at)|;
      MovedBounds(s, at, lo, hi);
      WithinIsUnits(s, next, lo, hi, from, to);
      if lo <= at && next <= hi {
        TokenThen(s, at, to, Within(s, next, lo, hi));
      } else {
        NothingBetween(s, at, next, from, to);
      }
    }
  }

  lemma {:induction false} NothingBetween(s: seq<unit>, at: nat, next: nat, from: nat, to: nat)
    requires at < next && to <= |s| && (to <= at || next <= from)
    ensures Units(s, if from < next then next else from, to) == Units(s, if from < at then at else from, to)
  {
  }

  lemma {:induction false} TokenThen(s: seq<unit>, at: nat, to: nat, rest: seq<unit>)
    requires at < |s| && at + |Token(s, at)| <= to <= |s|
    requires rest == Units(s, at + |Token(s, at)|, to)
    ensures Token(s, at) + rest == Units(s, at, to)
  {
    if |Token(s, at)| == 2 {
      assert [s[at], s[at + 1]] + rest == [s[at]] + ([s[at + 1]] + rest);
    }
  }

  /** Moving each bound that splits a pair inwards selects the characters wholly inside. */
  lemma {:induction false} WithinIsSlice(s: seq<unit>, lo: nat, hi: nat)
    requires lo <= hi <= |s|
    ensures Within(s, 0, lo, hi) == Slice(s, After(s, lo), Before(s, hi))
  {
    WithinIsUnits(s, 0, lo, hi, After(s, lo), Before(s, hi));
    UnitsAreSlice(s, After(s, lo), Before(s, hi));
  }

  method SliceUtf16Safe(input: seq<unit>, start: int, end: Option<int>) returns (r: seq<unit>)
    ensures var a := Normal(|input|, start);
      var b := if end.None? then |input| else Normal(|input|, end.value);
      r == if a <= b then Within(input, 0, a, b) else Within(input, 0, b, a)
  {
    var len := |input|;
    var from := if start < 0 then Max(len + start, 0) else Min(start, len);
    var to := if end.None? then len else if end.value < 0 then Max(len + end.value, 0) else Min(end.value, len);
    if to < from {
      var tmp := from;
      from := to;
      to := tmp;
    }
    r := SliceRange(input, from, to);
  }

  /** The second half of the function: a bound that splits a pair moves inwards. */
  method SliceRange(input: seq<unit>, lo: nat, hi: nat) returns (r: seq<unit>)
    requires lo <= hi <= |input|
    ensures r == Within(input, 0, lo, hi)
  {
    var from, to := lo, hi;
    if from > 0 && from < |input| {
      var codeUnit := input[from];
      if IsLowSurrogate(codeUnit) && IsHighSurrogate(input[from - 1]) {
        from := from + 1;
      }
    }
    if to > 0 && to < |input| {
      var codeUnit := input[to - 1];
      if IsHighSurrogate(codeUnit) && IsLowSurrogate(input[to]) {
        to := to - 1;
      }
    }
    assert from == After(input, lo) && to == Before(input, hi);
    WithinIsSlice(input, lo, hi);
    return Slice(input, from, to);
  }

  /** The longest prefix of at most `limit` units that splits no pair. */
  ghost predicate LongestSafePrefix(r: seq<unit>, s: seq<unit>, limit: int) {
    && |r| <= |s| && r == s[..|r|] && |r| <= limit && !SplitsPair(s, |r|)
    && forall k {:trigger SplitsPair(s, k)} :: |r| < k <= |s| && k <= limit ==> SplitsPair(s, k)
  }

  method TruncateUtf16Safe(input: seq<unit>, maxLen: real) returns (r: seq<unit>)
    ensures LongestSafePrefix(r, input, Max(0, maxLen.Floor))
    ensures |input| <= Max(0, maxLen.Floor) ==> r == input
  {
    var limit := Max(0, maxLen.Floor);
    if |input| <= limit {
      return input;
    }
    r := SliceUtf16Safe(input, 0, Some(limit));
    WithinIsSlice(input, 0, limit);
  }

  function Min(a: int, b: int): int {
    if a <= b then a else b
  }

  function Max(a: int, b: int): int {
    if a >= b then a else b
  }

  // ----- what the slice keeps

  /** Surrogates come in pairs only. */
  ghost predicate WellFormed(s: seq<unit>) {
    forall i :: 0 <= i < |s| ==>
      && (IsHighSurrogate(s[i]) ==> SplitsPair(s, i + 1))
      && (IsLowSurrogate(s[i]) ==> SplitsPair(s, i))
  }

  /** A slice of a well-formed string is well formed. */
  lemma {:induction false} SliceStaysWellFormed(s: seq<unit>, lo: nat, hi: nat)
    requires WellFormed(s) && lo <= hi <= |s|
    ensures WellFormed(Within(s, 0, lo, hi))
  {
    WithinIsSlice(s, lo, hi);
    var from, to := After(s, lo), Before(s, hi);
    if from <= to {
      var r := s[from..to];
      forall i | 0 <= i < |r|
        ensures IsHighSurrogate(r[i]) ==> SplitsPair(r, i + 1)
        ensures IsLowSurrogate(r[i]) ==> SplitsPair(r, i)
      {
        assert r[i] == s[from + i] && (i > 0 ==> r[i - 1] == s[from + i - 1]);
        assert i + 1 < |r| ==> r[i + 1] == s[from + i + 1];
        assert !SplitsPair(s, from) && !SplitsPair(s, to);
        assert IsHighSurrogate(r[i]) ==> SplitsPair(s, from + i + 1) && from + i + 1 != to;
      }
    }
  }

  /** Cut at any index, a string is the two slices with at most the pair at the cut lost. */
  lemma {:induction false} CutLosesAtMostThePair(s: seq<unit>, k: nat)
    requires k <= |s|
    ensures Within(s, 0, 0, k) == s[..Before(s, k)] && Within(s, 0, k, |s|) == s[After(s, k)..]
    ensures After(s, k) - Before(s, k) == if SplitsPair(s, k) then 2 else 0
  {
    WithinIsSlice(s, 0, k);
    WithinIsSlice(s, k, |s|);
  }
}
