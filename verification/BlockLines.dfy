/** Replacing the lines between two markers of a document. */
module BlockLines {
  import opened JsText
  import opened Options

  datatype Missing = MissingStart | MissingEnd

  // ----- searching

  predicate At(s: string, p: string, i: int) {
    0 <= i && i + |p| <= |s| && s[i..i + |p|] == p
  }

  /** `s.indexOf(p, from)`, or -1 */
  function IndexOf(s: string, p: string, from: nat): (i: int)
    requires from <= |s|
    ensures i == -1 || (from <= i && At(s, p, i))
    ensures forall j {:trigger At(s, p, j)} :: from <= j && (i == -1 || j < i) ==> !At(s, p, j)
    decreases |s| - from
  {
    if At(s, p, from) then from
    else if from == |s| then -1
    else IndexOf(s, p, from + 1)
  }

  ghost predicate Contains(s: string, p: string) {
    exists i :: At(s, p, i)
  }

  /** `s.lastIndexOf("\n", from)`, or -1 */
  function LastNewline(s: string, from: int): (i: int)
    requires -1 <= from
    ensures -1 <= i <= from && (i >= 0 ==> i < |s| && s[i] == '\n')
    ensures forall j :: i < j <= from && j < |s| ==> s[j] != '\n'
  {
    if from == -1 || (from < |s| && s[from] == '\n') then from else LastNewline(s, from - 1)
  }

  // ----- the replacement

  /** The text before the marked lines, what precedes the start marker on its line, and the
      text after the marked lines. */
  datatype Place = Place(before: string, indent: string, after: string)

  function Locate(text: string, startMarker: string, endMarker: string): Result<Place, Missing> {
    var startIndex := IndexOf(text, startMarker, 0);
    if startIndex == -1 then Err(MissingStart)
    else
      var endIndex := IndexOf(text, endMarker, startIndex);
      if endIndex == -1 then Err(MissingEnd)
      else
        var lineStart := LastNewline(text, startIndex) + 1;
        var indent := if lineStart <= startIndex then text[lineStart..startIndex] else "";
        var before := text[..if lineStart <= |text| then lineStart else |text|];
        Ok(Place(before, indent, text[AfterIndex(text, endIndex)..]))
  }

  /** Just after the end of the line, or of the text. */
  function AfterIndex(text: string, endIndex: nat): (i: nat)
    requires endIndex <= |text|
    ensures endIndex <= i <= |text|
  {
    var endLineEnd := IndexOf(text, "\n", endIndex);
    if endLineEnd == -1 then |text| else endLineEnd + 1
  }

  function Indented(indent: string, lines: seq<string>): (r: seq<string>)
    ensures |r| == |lines| && forall i :: 0 <= i < |r| ==> r[i] == indent + lines[i]
  {
    seq(|lines|, i requires 0 <= i < |lines| => indent + lines[i])
  }

  function Render(place: Place, startMarker: string, endMarker: string, lines: seq<string>): string {
    var replacementLines :=
      [place.indent + startMarker] + Indented(place.indent, lines) + [place.indent + endMarker];
    var replacement := Join(replacementLines, '\n');
    if place.after == "" then place.before + replacement
    else place.before + replacement + "\n" + place.after
  }

  function ReplaceBlockLines(text: string, startMarker: string, endMarker: string, lines: seq<string>)
    : Result<string, Missing>
  {
    match Locate(text, startMarker, endMarker)
    case Err(e) => Err(e)
    case Ok(place) => Ok(Render(place, startMarker, endMarker, lines))
  }

  // ----- the shape of the result

  predicate OneLine(s: string) {
    '\n' !in s
  }

  /** Lines, each ended by a newline. */
  function Ended(lines: seq<string>): string {
    if lines == [] then "" else lines[0] + "\n" + Ended(lines[1..])
  }

  /** All of the block before its last line. */
  function Upper(indent: string, startMarker: string, lines: seq<string>): string {
    startMarker + "\n" + Ended(Indented(indent, lines))
  }

  lemma {:induction false} JoinEnded(lines: seq<string>, last: string)
    ensures Join(lines + [last], '\n') == Ended(lines) + last
  {
    if lines != [] {
      JoinEnded(lines[1..], last);
      assert (lines + [last])[1..] == lines[1..] + [last];
    }
  }

  lemma {:induction false} RenderShape(place: Place, startMarker: string, endMarker: string, lines: seq<string>)
    ensures Render(place, startMarker, endMarker, lines) ==
      place.before + (place.indent + Upper(place.indent, startMarker, lines)) + (place.indent + endMarker)
      + Tail(place.after)
  {
    var first := [place.indent + startMarker];
    var inner := Indented(place.indent, lines);
    assert first + inner + [place.indent + endMarker] == (first + inner) + [place.indent + endMarker];
    JoinEnded(first + inner, place.indent + endMarker);
    assert (first + inner)[1..] == inner;
  }

  function Tail(after: string): string {
    if after == "" then "" else "\n" + after
  }

  predicate WholeLines(s: string) {
    s == "" || s[|s| - 1] == '\n'
  }

  predicate Markers(startMarker: string, endMarker: string) {
    startMarker != "" && OneLine(startMarker) && endMarker != "" && OneLine(endMarker)
  }

  lemma {:induction false} Located(text: string, startMarker: string, endMarker: string)
    requires Markers(startMarker, endMarker) && Locate(text, startMarker, endMarker).Ok?
    ensures var place := Locate(text, startMarker, endMarker).value;
      var s := IndexOf(text, startMarker, 0);
      && s == |place.before| + |place.indent|
      && s + |startMarker| <= |text| && text[..s] == place.before + place.indent
      && WholeLines(place.before) && OneLine(place.indent)
  {
    var s := IndexOf(text, startMarker, 0);
    assert text[s] == startMarker[0] && startMarker[0] in startMarker;
    Joined(text, LastNewline(text, s) + 1, s);
  }

  lemma {:induction false} Joined(text: string, l: nat, s: nat)
    requires l <= s <= |text|
    ensures text[..s] == text[..l] + text[l..s]
  {
  }

  /** A newline does not lie inside an occurrence of a one-line string. */
  lemma {:induction false} NewlineOutside(s: string, p: string, i: int, n: int)
    requires At(s, p, i) && OneLine(p) && 0 <= n < |s| && s[n] == '\n'
    ensures n < i || i + |p| <= n
  {
    forall m | i <= m < i + |p| ensures s[m] != '\n' {
      assert s[i..i + |p|][m - i] == s[m] && p[m - i] in p;
    }
  }

  /** The marked lines, from the start of the start marker's to the end of the end marker's. */
  function Marked(text: string, place: Place): string
    requires |place.before| + |place.after| <= |text|
  {
    text[|place.before|..|text| - |place.after|]
  }

  /** The document is cut at line ends into what precedes the marked lines, the marked lines,
      which hold both markers, and what follows. */
  lemma {:induction false} MarkedLines(text: string, startMarker: string, endMarker: string)
    requires Markers(startMarker, endMarker) && Locate(text, startMarker, endMarker).Ok?
    ensures var place := Locate(text, startMarker, endMarker).value;
      && |place.before| + |place.after| <= |text|
      && text == place.before + Marked(text, place) + place.after
      && WholeLines(place.before) && (place.after == "" || WholeLines(Marked(text, place)))
      && Contains(Marked(text, place), startMarker) && Contains(Marked(text, place), endMarker)
  {
    var place := Locate(text, startMarker, endMarker).value;
    Located(text, startMarker, endMarker);
    var s := IndexOf(text, startMarker, 0);
    var e := IndexOf(text, endMarker, s);
    var n := IndexOf(text, "\n", e);
    var from, to := |place.before|, |text| - |place.after|;
    if n != -1 {
      assert text[n..n + 1][0] == '\n';
      NewlineOutside(text, endMarker, e, n);
      NewlineOutside(text, startMarker, s, n);
    }
    Cut(text, from, to);
    AtSlice(text, startMarker, s, from, to);
    AtSlice(text, endMarker, e, from, to);
  }

  /** Where the marked lines are: the first start marker stands after `before` and the indent, and `after` is
      what follows the line with the first end marker from there on. */
  ghost predicate Marks(text: string, startMarker: string, endMarker: string, place: Place, s: nat, e: nat) {
    && s == |place.before| + |place.indent| && FirstAt(text, startMarker, 0, s) && FirstAt(text, endMarker, s, e)
    && (forall j :: e <= j < |text| - |place.after| - 1 ==> text[j] != '\n')
    && e <= |text| - |place.after|
  }

  ghost predicate FirstAt(text: string, p: string, from: nat, i: nat) {
    from <= i && At(text, p, i) && forall j {:trigger At(text, p, j)} :: from <= j < i ==> !At(text, p, j)
  }

  ghost predicate NoneFrom(text: string, p: string, from: nat) {
    forall j {:trigger At(text, p, j)} :: from <= j ==> !At(text, p, j)
  }

  /** The block is found exactly if there is a start marker and an end marker from the first one on. */
  lemma {:induction false} FirstMarkers(text: string, startMarker: string, endMarker: string)
    requires Markers(startMarker, endMarker)
    ensures match Locate(text, startMarker, endMarker)
      case Err(MissingStart) => !Contains(text, startMarker)
      case Err(MissingEnd) => exists s :: FirstAt(text, startMarker, 0, s) && NoneFrom(text, endMarker, s)
      case Ok(place) => exists s, e :: Marks(text, startMarker, endMarker, place, s, e)
  {
    var s := IndexOf(text, startMarker, 0);
    if s != -1 {
      var e := IndexOf(text, endMarker, s);
      if e != -1 {
        var place := Locate(text, startMarker, endMarker).value;
        Located(text, startMarker, endMarker);
        forall j | e <= j < |text| - |place.after| - 1 ensures text[j] != '\n' {
          assert !At(text, "\n", j);
          assert text[j..j + 1] == [text[j]];
        }
        assert Marks(text, startMarker, endMarker, place, s, e);
      } else {
        assert FirstAt(text, startMarker, 0, s) && NoneFrom(text, endMarker, s);
      }
    }
  }

  lemma {:induction false} Cut(s: string, from: nat, to: nat)
    requires from <= to <= |s|
    ensures s == s[..from] + s[from..to] + s[to..]
  {
  }

  lemma {:induction false} AtSlice(s: string, p: string, i: int, from: nat, to: nat)
    requires At(s, p, i) && from <= i && i + |p| <= to <= |s|
    ensures At(s[from..to], p, i - from) && Contains(s[from..to], p)
  {
    var t, k := s[from..to], i - from;
    forall m | 0 <= m < |p| ensures t[k..k + |p|][m] == p[m] {
      assert s[i..i + |p|][m] == s[i + m] == t[k + m];
    }
    assert t[k..k + |p|] == p && At(t, p, k);
  }

  /** Only the marked lines are replaced; all others are kept, but for a newline right after
      the last marked line when nothing follows it. */
  lemma {:induction false} OutsideKept(text: string, startMarker: string, endMarker: string, lines: seq<string>)
    requires Markers(startMarker, endMarker) && Locate(text, startMarker, endMarker).Ok?
    ensures var place := Locate(text, startMarker, endMarker).value;
      && |place.before| + |place.after| <= |text|
      && text == place.before + Marked(text, place) + place.after
      && ReplaceBlockLines(text, startMarker, endMarker, lines) ==
         Ok(place.before + (place.indent + Upper(place.indent, startMarker, lines)) + (place.indent + endMarker)
            + Tail(place.after))
  {
    MarkedLines(text, startMarker, endMarker);
    RenderShape(Locate(text, startMarker, endMarker).value, startMarker, endMarker, lines);
  }

  // ----- running it again

  /** The first occurrence depends only on the text up to its end. */
  lemma {:induction false} SameFirst(s: string, t: string, p: string, i: nat)
    requires i + |p| <= |s| && i + |p| <= |t| && s[..i + |p|] == t[..i + |p|]
    requires IndexOf(s, p, 0) == i
    ensures IndexOf(t, p, 0) == i
  {
    forall j | 0 <= j <= i ensures At(s, p, j) <==> At(t, p, j) {
      SliceOfTake(s, j, j + |p|, i + |p|);
      SliceOfTake(t, j, j + |p|, i + |p|);
    }
  }

  lemma {:induction false} SliceOfTake(s: string, a: nat, b: nat, n: nat)
    requires a <= b <= n <= |s|
    ensures s[a..b] == s[..n][a..b]
  {
  }

  lemma {:induction false} EndedEnds(lines: seq<string>)
    ensures WholeLines(Ended(lines))
  {
    if lines != [] {
      EndedEnds(lines[1..]);
    }
  }

  /** The upper lines without their last newline. */
  function Head(indent: string, startMarker: string, lines: seq<string>): string {
    var u := Upper(indent, startMarker, lines);
    u[..|u| - 1]
  }

  lemma {:induction false} UpperEnds(indent: string, startMarker: string, lines: seq<string>)
    ensures Upper(indent, startMarker, lines) == Head(indent, startMarker, lines) + "\n"
  {
    EndedEnds(Indented(indent, lines));
    var u := Upper(indent, startMarker, lines);
    assert u[|u| - 1] == '\n';
  }

  /** Where the parts of a result stand: the block's first line has the start marker at `s`,
      and its last line begins at `p`. */
  ghost predicate Stand(t: string, place: Place, head: string, endMarker: string, s: nat, p: nat) {
    var q := p + |place.indent| + |endMarker|;
    && s == |place.before| + |place.indent| && s < p && q <= |t|
    && t[..|place.before|] == place.before && t[|place.before|..s] == place.indent
    && t[s..p - 1] == head && t[p - 1] == '\n'
    && t[p..q] == place.indent + endMarker && t[q..] == Tail(place.after)
    && |t| - p == |place.indent| + |endMarker| + |Tail(place.after)|
  }

  lemma {:induction false} Parts(t: string, place: Place, startMarker: string, endMarker: string, lines: seq<string>)
    requires t == place.before + (place.indent + Upper(place.indent, startMarker, lines))
                  + (place.indent + endMarker) + Tail(place.after)
    ensures var s := |place.before| + |place.indent|;
      Stand(t, place, Head(place.indent, startMarker, lines), endMarker, s,
            s + |Upper(place.indent, startMarker, lines)|)
  {
    UpperEnds(place.indent, startMarker, lines);
    var u := Upper(place.indent, startMarker, lines);
    var s := |place.before| + |place.indent|;
    assert t[s..s + |u|] == u;
    assert t[s..s + |u|][..|u| - 1] == t[s..s + |u| - 1];
    assert t[s..s + |u|][|u| - 1] == t[s + |u| - 1];
  }

  lemma {:induction false} HeadStarts(indent: string, startMarker: string, lines: seq<string>)
    ensures At(Head(indent, startMarker, lines), startMarker, 0)
  {
    var u := Upper(indent, startMarker, lines);
    assert u[..|u| - 1][0..|startMarker|] == u[..|startMarker|] == startMarker;
  }

  lemma {:induction false} AtPart(t: string, from: nat, to: nat, p: string, j: int)
    requires from <= to <= |t| && At(t[from..to], p, j)
    ensures At(t, p, from + j)
  {
    var i := from + j;
    forall m | 0 <= m < |p| ensures t[i..i + |p|][m] == p[m] {
      assert t[from..to][j..j + |p|][m] == t[from..to][j + m] == t[i + m];
    }
    assert t[i..i + |p|] == p;
  }

  /** The second run finds the start marker, and with it the block's first line, where the
      first run put them. */
  lemma {:induction false} SameStart(
      text: string, t: string, place: Place, startMarker: string, endMarker: string, head: string, s: nat, p: nat)
    requires Markers(startMarker, endMarker) && Locate(text, startMarker, endMarker) == Ok(place)
    requires Stand(t, place, head, endMarker, s, p) && At(head, startMarker, 0)
    ensures IndexOf(t, startMarker, 0) == s && LastNewline(t, s) + 1 == |place.before|
  {
    Located(text, startMarker, endMarker);
    AtPart(t, s, p - 1, startMarker, 0);
    SamePrefix(text, t, place, startMarker, s);
    SameFirst(text, t, startMarker, s);
    SameLine(t, place, startMarker, s);
  }

  lemma {:induction false} SameLine(t: string, place: Place, startMarker: string, s: nat)
    requires startMarker != "" && OneLine(startMarker) && At(t, startMarker, s)
    requires s == |place.before| + |place.indent|
    requires t[..|place.before|] == place.before && t[|place.before|..s] == place.indent
    requires WholeLines(place.before) && OneLine(place.indent)
    ensures LastNewline(t, s) + 1 == |place.before|
  {
    var b := |place.before|;
    assert t[s] == t[s..s + |startMarker|][0] && startMarker[0] in startMarker;
    forall j | b <= j < s ensures t[j] != '\n' {
      assert t[b..s][j - b] == t[j] && t[j] in place.indent;
    }
    assert b > 0 ==> t[..b][b - 1] == t[b - 1];
  }

  lemma {:induction false} SamePrefix(text: string, t: string, place: Place, startMarker: string, s: nat)
    requires s == |place.before| + |place.indent|
    requires At(text, startMarker, s) && At(t, startMarker, s)
    requires text[..s] == place.before + place.indent
    requires t[..|place.before|] == place.before && t[|place.before|..s] == place.indent
    ensures text[..s + |startMarker|] == t[..s + |startMarker|]
  {
    assert text[..s + |startMarker|] == text[..s] + text[s..s + |startMarker|];
    assert t[..s + |startMarker|] == t[..|place.before|] + t[|place.before|..s] + t[s..s + |startMarker|];
  }

  /** The end marker is found on the last line when the upper lines do not hold it, and among
      the upper lines when they do. */
  lemma {:induction false} EndFound(t: string, s: nat, p: nat, indent: string, endMarker: string)
    requires endMarker != "" && OneLine(endMarker)
    requires s < p && p + |indent| + |endMarker| <= |t| && t[p - 1] == '\n'
    requires t[p..p + |indent| + |endMarker|] == indent + endMarker
    ensures var e := IndexOf(t, endMarker, s);
      if Contains(t[s..p - 1], endMarker) then s <= e < p - 1 else p <= e <= p + |indent|
  {
    var e := IndexOf(t, endMarker, s);
    var q := p + |indent| + |endMarker|;
    assert (indent + endMarker)[|indent|..|indent| + |endMarker|] == endMarker;
    AtPart(t, p, q, endMarker, |indent|);
    if Contains(t[s..p - 1], endMarker) {
      var j :| At(t[s..p - 1], endMarker, j);
      AtPart(t, s, p - 1, endMarker, j);
    } else if e < p {
      NewlineOutside(t, endMarker, e, p - 1);
      AtSlice(t, endMarker, e, s, p - 1);
    }
  }

  lemma {:induction false} NewlineAt(s: string, i: int)
    requires 0 <= i < |s|
    ensures At(s, "\n", i) <==> s[i] == '\n'
  {
    assert s[i..i + 1] == [s[i]];
  }

  /** The first newline after the end marker, when it is found on the last line. */
  lemma {:induction false} LastLineEnds(t: string, p: nat, q: nat, e: nat)
    requires p <= e <= q <= |t| && OneLine(t[p..q])
    requires q < |t| ==> t[q] == '\n'
    ensures IndexOf(t, "\n", e) == if q < |t| then q else -1
  {
    forall j | e <= j < q ensures !At(t, "\n", j) {
      NewlineAt(t, j);
      assert t[p..q][j - p] == t[j];
    }
    if q < |t| {
      NewlineAt(t, q);
    }
  }

  /** What the second run takes for the text after the block. */
  lemma {:induction false} RerunPlace(
      t: string, place: Place, startMarker: string, endMarker: string, head: string, s: nat, p: nat)
    requires endMarker != "" && OneLine(endMarker) && OneLine(place.indent)
    requires IndexOf(t, startMarker, 0) == s && LastNewline(t, s) + 1 == |place.before|
    requires Stand(t, place, head, endMarker, s, p)
    ensures var r := Locate(t, startMarker, endMarker);
      && r.Ok? && r.value.before == place.before && r.value.indent == place.indent
      && if Contains(head, endMarker) then |r.value.after| >= |t| - p
         else r.value.after == place.after
  {
    AfterBlock(t, s, p, place.indent, endMarker, place.after);
    LocateAt(t, startMarker, endMarker, |place.before|, s);
  }

  lemma {:induction false} LocateAt(t: string, startMarker: string, endMarker: string, b: nat, s: nat)
    requires IndexOf(t, startMarker, 0) == s && LastNewline(t, s) + 1 == b <= s
    requires IndexOf(t, endMarker, s) != -1
    ensures Locate(t, startMarker, endMarker) ==
      Ok(Place(t[..b], t[b..s], t[AfterIndex(t, IndexOf(t, endMarker, s))..]))
  {
  }

  lemma {:induction false} AfterBlock(t: string, s: nat, p: nat, indent: string, endMarker: string, after: string)
    requires endMarker != "" && OneLine(endMarker) && OneLine(indent)
    requires s < p && p + |indent| + |endMarker| <= |t| && t[p - 1] == '\n'
    requires t[p..p + |indent| + |endMarker|] == indent + endMarker
    requires t[p + |indent| + |endMarker|..] == Tail(after)
    ensures var e := IndexOf(t, endMarker, s);
      && e != -1
      && if Contains(t[s..p - 1], endMarker)
         then AfterIndex(t, e) <= p
         else t[AfterIndex(t, e)..] == after
  {
    EndFound(t, s, p, indent, endMarker);
    var q := p + |indent| + |endMarker|;
    var e := IndexOf(t, endMarker, s);
    if Contains(t[s..p - 1], endMarker) {
      NewlineAt(t, p - 1);
    } else {
      assert q < |t| ==> t[q] == t[q..][0];
      LastLineEnds(t, p, q, e);
      assert after != "" ==> t[q + 1..] == t[q..][1..] == after;
    }
  }

  lemma {:induction false} SecondPlace(
      text: string, t: string, place: Place, startMarker: string, endMarker: string, lines: seq<string>)
    requires Markers(startMarker, endMarker) && Locate(text, startMarker, endMarker) == Ok(place)
    requires OneLine(place.indent) && WholeLines(place.before)
    requires t == place.before + (place.indent + Upper(place.indent, startMarker, lines))
                  + (place.indent + endMarker) + Tail(place.after)
    ensures var r := Locate(t, startMarker, endMarker);
      && r.Ok? && r.value.before == place.before && r.value.indent == place.indent
      && if Contains(Head(place.indent, startMarker, lines), endMarker)
         then |r.value.after| >= |place.indent| + |endMarker| + |Tail(place.after)|
         else r.value.after == place.after
  {
    var head := Head(place.indent, startMarker, lines);
    var s := |place.before| + |place.indent|;
    var p := s + |Upper(place.indent, startMarker, lines)|;
    Parts(t, place, startMarker, endMarker, lines);
    HeadStarts(place.indent, startMarker, lines);
    Rerun(text, t, place, startMarker, endMarker, head, s, p);
  }

  lemma {:induction false} Rerun(
      text: string, t: string, place: Place, startMarker: string, endMarker: string, head: string, s: nat, p: nat)
    requires Markers(startMarker, endMarker) && Locate(text, startMarker, endMarker) == Ok(place)
    requires OneLine(place.indent)
    requires Stand(t, place, head, endMarker, s, p) && At(head, startMarker, 0)
    ensures var r := Locate(t, startMarker, endMarker);
      && r.Ok? && r.value.before == place.before && r.value.indent == place.indent
      && if Contains(head, endMarker) then |r.value.after| >= |t| - p else r.value.after == place.after
  {
    SameStart(text, t, place, startMarker, endMarker, head, s, p);
    RerunPlace(t, place, startMarker, endMarker, head, s, p);
  }

  /** A second run changes nothing exactly when the end marker does not already occur in the
      start marker or in the new lines as they are indented; otherwise the document grows. */
  lemma {:induction false} SecondRun(text: string, startMarker: string, endMarker: string, lines: seq<string>)
    requires Markers(startMarker, endMarker)
    requires ReplaceBlockLines(text, startMarker, endMarker, lines).Ok?
    ensures var t := ReplaceBlockLines(text, startMarker, endMarker, lines).value;
      var indent := Locate(text, startMarker, endMarker).value.indent;
      && ReplaceBlockLines(t, startMarker, endMarker, lines).Ok?
      && if Contains(Head(indent, startMarker, lines), endMarker)
         then |ReplaceBlockLines(t, startMarker, endMarker, lines).value| > |t|
         else ReplaceBlockLines(t, startMarker, endMarker, lines).value == t
  {
    var place := Locate(text, startMarker, endMarker).value;
    var t := Render(place, startMarker, endMarker, lines);
    Located(text, startMarker, endMarker);
    RenderShape(place, startMarker, endMarker, lines);
    SecondPlace(text, t, place, startMarker, endMarker, lines);
    RenderShape(Locate(t, startMarker, endMarker).value, startMarker, endMarker, lines);
  }

  /** For one-line lines: the end marker occurs in the block's upper lines exactly when it
      occurs in one of them. */
  lemma {:induction false} HeadByLines(indent: string, startMarker: string, endMarker: string, lines: seq<string>)
    requires endMarker != "" && OneLine(endMarker)
    ensures Contains(Head(indent, startMarker, lines), endMarker) <==>
      Contains(startMarker, endMarker) || exists i :: 0 <= i < |lines| && Contains(indent + lines[i], endMarker)
  {
    var inner := Indented(indent, lines);
    UpperEnds(indent, startMarker, lines);
    var u := Upper(indent, startMarker, lines);
    EndedHolds([startMarker] + inner, endMarker);
    assert ([startMarker] + inner)[1..] == inner;
    assert u == Ended([startMarker] + inner);
    LastNewlineIdle(Head(indent, startMarker, lines), endMarker);
    if i :| 0 <= i < |lines| && Contains(indent + lines[i], endMarker) {
      assert ([startMarker] + inner)[i + 1] == indent + lines[i];
    }
    if Contains(startMarker, endMarker) {
      assert ([startMarker] + inner)[0] == startMarker;
    }
  }

  lemma {:induction false} LastNewlineIdle(s: string, p: string)
    requires p != "" && OneLine(p)
    ensures Contains(s + "\n", p) <==> Contains(s, p)
  {
    assert s + "\n" == s + "\n" + "";
    HoldsInPart(s, "", p);
  }

  lemma {:induction false} EndedHolds(lines: seq<string>, p: string)
    requires p != "" && OneLine(p)
    ensures Contains(Ended(lines), p) <==> exists i :: 0 <= i < |lines| && Contains(lines[i], p)
  {
    if lines == [] {
    } else {
      EndedHolds(lines[1..], p);
      HoldsInPart(lines[0], Ended(lines[1..]), p);
      if i :| 0 <= i < |lines| && Contains(lines[i], p) {
        assert i > 0 ==> lines[1..][i - 1] == lines[i];
      }
      if i :| 0 <= i < |lines[1..]| && Contains(lines[1..][i], p) {
        assert lines[i + 1] == lines[1..][i];
      }
    }
  }

  lemma {:induction false} HoldsInPart(a: string, b: string, p: string)
    requires p != "" && OneLine(p)
    ensures Contains(a + "\n" + b, p) <==> Contains(a, p) || Contains(b, p)
  {
    var t := a + "\n" + b;
    assert t[0..|a|] == a && t[|a| + 1..|t|] == b && t[|a|] == '\n';
    SplitsAtNewline(t, |a|, p);
  }

  lemma {:induction false} SplitsAtNewline(t: string, n: nat, p: string)
    requires p != "" && OneLine(p) && n < |t| && t[n] == '\n'
    ensures Contains(t, p) <==> Contains(t[0..n], p) || Contains(t[n + 1..|t|], p)
  {
    if i :| At(t, p, i) {
      NewlineOutside(t, p, i, n);
      if i < n {
        AtSlice(t, p, i, 0, n);
      } else {
        AtSlice(t, p, i, n + 1, |t|);
      }
    }
    var a, b := t[0..n], t[n + 1..|t|];
    if i :| At(a, p, i) {
      AtPart(t, 0, n, p, i);
      assert At(t, p, 0 + i);
    }
    if i :| At(b, p, i) {
      AtPart(t, n + 1, |t|, p, i);
      assert At(t, p, n + 1 + i);
    }
  }
}
