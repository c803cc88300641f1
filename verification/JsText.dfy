/** The pieces of JavaScript's string library the scripts lean on. */
module JsText {

  /** White space and line terminators, as `trim` removes them. */
  predicate IsSpace(c: char) {
    || '\t' <= c <= '\r' || c == ' ' || c == '\U{00A0}' || c == '\U{FEFF}' || c == '\U{1680}'
    || '\U{2000}' <= c <= '\U{200A}'
    || c == '\U{2028}' || c == '\U{2029}' || c == '\U{202F}' || c == '\U{205F}' || c == '\U{3000}'
  }

  /** The 25 characters of ECMA-262, sections 12.2 and 12.3: the white space and the line terminators. */
  lemma {:induction false} SpaceTable(c: char)
    ensures IsSpace(c) <==> c in {
      '\U{0009}', '\U{000A}', '\U{000B}', '\U{000C}', '\U{000D}', '\U{0020}', '\U{00A0}', '\U{1680}',
      '\U{2000}', '\U{2001}', '\U{2002}', '\U{2003}', '\U{2004}', '\U{2005}', '\U{2006}', '\U{2007}',
      '\U{2008}', '\U{2009}', '\U{200A}', '\U{2028}', '\U{2029}', '\U{202F}', '\U{205F}', '\U{3000}',
      '\U{FEFF}'}
  {
  }

  function TrimStart(s: string): string {
    if s != [] && IsSpace(s[0]) then TrimStart(s[1..]) else s
  }

  function TrimEnd(s: string): string {
    if s != [] && IsSpace(s[|s| - 1]) then TrimEnd(s[..|s| - 1]) else s
  }

  function Trim(s: string): string {
    TrimEnd(TrimStart(s))
  }

  /** What `trim` removes is white space at either end, and all of it. */
  lemma {:induction false} TrimMeans(s: string) returns (before: string, after: string)
    ensures s == before + Trim(s) + after && IsBlank(before) && IsBlank(after)
    ensures Trim(s) != "" ==> !IsSpace(Trim(s)[0]) && !IsSpace(Trim(s)[|Trim(s)| - 1])
  {
    before := StartMeans(s);
    after := EndMeans(TrimStart(s));
    if Trim(s) != "" {
      assert TrimStart(s)[0] == Trim(s)[0];
    }
  }

  lemma {:induction false} StartMeans(s: string) returns (before: string)
    ensures s == before + TrimStart(s) && IsBlank(before)
    ensures TrimStart(s) != "" ==> !IsSpace(TrimStart(s)[0])
  {
    before := "";
    if s != "" && IsSpace(s[0]) {
      before := StartMeans(s[1..]);
      assert s == [s[0]] + s[1..];
      before := [s[0]] + before;
    }
  }

  lemma {:induction false} EndMeans(s: string) returns (after: string)
    ensures s == TrimEnd(s) + after && IsBlank(after)
    ensures TrimEnd(s) != "" ==> !IsSpace(TrimEnd(s)[|TrimEnd(s)| - 1])
  {
    after := "";
    if s != "" && IsSpace(s[|s| - 1]) {
      var n := |s| - 1;
      after := EndMeans(s[..n]);
      assert s == s[..n] + [s[n]];
      after := after + [s[n]];
    }
  }

  predicate IsBlank(s: string) {
    forall c :: c in s ==> IsSpace(c)
  }

  /** `!value.trim()` */
  lemma {:induction false} BlankTrimsToNothing(s: string)
    ensures IsBlank(s) <==> Trim(s) == ""
  {
    BlankStart(s);
    var t := TrimStart(s);
    if t != "" {
      SolidEnd(t);
    }
  }

  lemma {:induction false} BlankStart(s: string)
    ensures IsBlank(s) <==> TrimStart(s) == ""
    ensures TrimStart(s) == "" || !IsSpace(TrimStart(s)[0])
  {
    if s != "" {
      BlankStart(s[1..]);
      assert s == [s[0]] + s[1..] && s[0] in s;
      assert forall c :: c in s[1..] ==> c in s;
    }
  }

  lemma {:induction false} SolidEnd(s: string)
    requires s != "" && !IsSpace(s[0])
    ensures TrimEnd(s) != ""
  {
    if IsSpace(s[|s| - 1]) {
      SolidEnd(s[..|s| - 1]);
    }
  }

  // ----- split and join

  /** `s.split(sep)` */
  function SplitOn(s: string, sep: char): (parts: seq<string>)
    ensures parts != []
  {
    if s == "" then [""]
    else
      var rest := SplitOn(s[1..], sep);
      if s[0] == sep then [""] + rest else [[s[0]] + rest[0]] + rest[1..]
  }

  /** `parts.join(sep)` */
  function Join(parts: seq<string>, sep: char): string {
    if parts == [] then ""
    else if |parts| == 1 then parts[0]
    else parts[0] + [sep] + Join(parts[1..], sep)
  }

  /** No part holds the separator. */
  ghost predicate FreeOf(parts: seq<string>, sep: char) {
    forall i :: 0 <= i < |parts| ==> sep !in parts[i]
  }

  lemma {:induction false} SplitShape(s: string, sep: char)
    ensures FreeOf(SplitOn(s, sep), sep) && Join(SplitOn(s, sep), sep) == s
    ensures SplitOn(s, sep)[0] == "" <==> s == "" || s[0] == sep
  {
    if s != "" {
      SplitShape(s[1..], sep);
      var rest := SplitOn(s[1..], sep);
      assert s == [s[0]] + s[1..];
      if s[0] == sep {
        assert ([""] + rest)[1..] == rest;
      } else {
        JoinGrows(s[0], rest, sep);
      }
    }
  }

  lemma {:induction false} JoinGrows(c: char, parts: seq<string>, sep: char)
    requires parts != []
    ensures Join([[c] + parts[0]] + parts[1..], sep) == [c] + Join(parts, sep)
  {
    var grown := [[c] + parts[0]] + parts[1..];
    assert grown[1..] == parts[1..];
    if |parts| > 1 {
      assert ([c] + parts[0]) + [sep] + Join(parts[1..], sep) == [c] + (parts[0] + [sep] + Join(parts[1..], sep));
    }
  }

  lemma {:induction false} SplitPart(p: string, rest: string, sep: char)
    requires sep !in p
    ensures SplitOn(p, sep) == [p]
    ensures SplitOn(p + [sep] + rest, sep) == [p] + SplitOn(rest, sep)
  {
    var s := p + [sep] + rest;
    if p == "" {
      assert s[0] == sep && s[1..] == rest;
    } else {
      assert p == [p[0]] + p[1..] && p[0] in p;
      SplitPart(p[1..], rest, sep);
      assert s[0] == p[0] && s[1..] == p[1..] + [sep] + rest;
    }
  }

  lemma {:induction false} SplitJoin(parts: seq<string>, sep: char)
    requires parts != [] && FreeOf(parts, sep)
    ensures SplitOn(Join(parts, sep), sep) == parts
  {
    assert parts == [parts[0]] + parts[1..];
    if |parts| == 1 {
      SplitPart(parts[0], "", sep);
    } else {
      SplitJoin(parts[1..], sep);
      SplitPart(parts[0], Join(parts[1..], sep), sep);
    }
  }
}
