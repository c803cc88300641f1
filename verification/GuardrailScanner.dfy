/** The quote-aware scanners with which the temp-path guardrail reads the arguments of a call
    out of source text. */
module GuardrailScanner {
  import opened JsText
  import opened Options

  // ----- what a scan from left to right knows

  /** The quote a scan is inside, and whether the last character escapes the next. */
  datatype Quote = Quote(mark: Option<char>, escaped: bool)

  /** The quote, the balance of unquoted parentheses, and the three nesting depths, which
      stay at zero when a closing bracket has no opening one. */
  datatype Scan = Scan(quote: Quote, balance: int, paren: nat, bracket: nat, brace: nat)

  const START := Scan(Quote(None, false), 0, 0, 0, 0)

  predicate IsQuote(ch: char) {
    ch == '\'' || ch == '"' || ch == '`'
  }

  function InQuote(q: Quote, ch: char): Quote
    requires q.mark.Some?
  {
    if q.escaped then q.(escaped := false)
    else if ch == '\\' then q.(escaped := true)
    else if ch == q.mark.value then q.(mark := None)
    else q
  }

  function Less(depth: nat): nat {
    if depth > 0 then depth - 1 else 0
  }

  function Step(s: Scan, ch: char): Scan {
    if s.quote.mark.Some? then s.(quote := InQuote(s.quote, ch))
    else if IsQuote(ch) then s.(quote := s.quote.(mark := Some(ch)))
    else match ch
      case '(' => s.(balance := s.balance + 1, paren := s.paren + 1)
      case ')' => s.(balance := s.balance - 1, paren := Less(s.paren))
      case '[' => s.(bracket := s.bracket + 1)
      case ']' => s.(bracket := Less(s.bracket))
      case '{' => s.(brace := s.brace + 1)
      case '}' => s.(brace := Less(s.brace))
      case _ => s
  }

  function Run(s: Scan, t: string): Scan
    decreases t
  {
    if t == "" then s else Run(Step(s, t[0]), t[1..])
  }

  lemma {:induction false} RunAppend(s: Scan, a: string, b: string)
    ensures Run(s, a + b) == Run(Run(s, a), b)
    decreases a
  {
    if a == "" {
      assert a + b == b;
    } else {
      assert (a + b)[0] == a[0] && (a + b)[1..] == a[1..] + b;
      RunAppend(Step(s, a[0]), a[1..], b);
    }
  }

  lemma {:induction false} RunMore(s: Scan, t: string, k: nat)
    requires k < |t|
    ensures Run(s, t[..k + 1]) == Step(Run(s, t[..k]), t[k])
  {
    assert t[..k + 1] == t[..k] + [t[k]];
    RunAppend(s, t[..k], [t[k]]);
  }

  predicate Unquoted(s: Scan) {
    s.quote.mark.None?
  }

  /** Read next, `ch` is the unquoted `)` that brings the depth below where the scan began. */
  predicate Ends(s: Scan, ch: char) {
    ch == ')' && Unquoted(s) && s.balance == 0
  }

  /** Read next, `ch` is an unquoted comma outside every bracket. */
  predicate Cuts(s: Scan, ch: char) {
    ch == ',' && Unquoted(s) && s.paren == 0 && s.bracket == 0 && s.brace == 0
  }

  predicate EndsAt(t: string, k: nat) {
    k < |t| && Ends(Run(START, t[..k]), t[k])
  }

  predicate CutsAt(t: string, k: nat) {
    k < |t| && Cuts(Run(START, t[..k]), t[k])
  }

  // ----- the quote automaton

  class QuoteScanState {
    var quote: Option<char>
    var escaped: bool

    constructor ()
      ensures View() == START.quote
    {
      quote, escaped := None, false;
    }

    function View(): Quote
      reads this
    {
      Quote(quote, escaped)
    }

    method BeginQuotedSection(ch: char) returns (began: bool)
      modifies this
      ensures began <==> IsQuote(ch)
      ensures View() == if began then old(View()).(mark := Some(ch)) else old(View())
    {
      if ch != '\'' && ch != '"' && ch != '`' {
        return false;
      }
      quote := Some(ch);
      return true;
    }

    method ConsumeQuotedChar(ch: char) returns (consumed: bool)
      modifies this
      ensures consumed <==> old(quote).Some?
      ensures View() == if old(quote).Some? then InQuote(old(View()), ch) else old(View())
    {
      if quote.None? {
        return false;
      }
      if escaped {
        escaped := false;
        return true;
      }
      if ch == '\\' {
        escaped := true;
        return true;
      }
      if ch == quote.value {
        quote := None;
      }
      return true;
    }
  }

  // ----- the matching parenthesis

  ghost predicate NoneEnds(t: string, n: nat) {
    forall k: nat :: k < n ==> !EndsAt(t, k)
  }

  /** The first parenthesis that closes the one at `open`, or -1 when none does. */
  ghost predicate IsMatch(source: string, open: nat, r: int) {
    if r == -1 then
      open < |source| ==> NoneEnds(source[open + 1..], |source|)
    else
      && open < r < |source|
      && EndsAt(source[open + 1..], r - open - 1)
      && NoneEnds(source[open + 1..], r - open - 1)
  }

  method FindMatchingParen(source: string, openIndex: nat) returns (r: int)
    ensures IsMatch(source, openIndex, r)
  {
    var depth := 1;
    var quoteState := new QuoteScanState();
    var i := openIndex + 1;
    ghost var t := if openIndex < |source| then source[openIndex + 1..] else "";
    while i < |source|
      invariant openIndex < i
      invariant openIndex < |source| ==> i <= |source|
      invariant i <= |source| ==> quoteState.View() == Run(START, t[..i - openIndex - 1]).quote
      invariant i <= |source| ==> depth == 1 + Run(START, t[..i - openIndex - 1]).balance
      invariant i <= |source| ==> NoneEnds(t, i - openIndex - 1)
      invariant fresh(quoteState)
    {
      var ch := source[i];
      ghost var k := i - openIndex - 1;
      assert t[k] == ch;
      RunMore(START, t, k);
      i := i + 1;
      var consumed := quoteState.ConsumeQuotedChar(ch);
      if consumed {
        continue;
      }
      var began := quoteState.BeginQuotedSection(ch);
      if began {
        continue;
      }
      if ch == '(' {
        depth := depth + 1;
        continue;
      }
      if ch == ')' {
        depth := depth - 1;
        if depth == 0 {
          return i - 1;
        }
      }
    }
    return -1;
  }

  // ----- the arguments

  /** The text between the top-level commas, scanning on from `s`. */
  function Pieces(s: Scan, t: string): (pieces: seq<string>)
    ensures pieces != []
    decreases t
  {
    if t == "" then [""]
    else
      var rest := Pieces(Step(s, t[0]), t[1..]);
      if Cuts(s, t[0]) then [""] + rest else [[t[0]] + rest[0]] + rest[1..]
  }

  function TrimEach(pieces: seq<string>): (r: seq<string>)
    ensures |r| == |pieces| && forall i :: 0 <= i < |r| ==> r[i] == Trim(pieces[i])
  {
    seq(|pieces|, i requires 0 <= i < |pieces| => Trim(pieces[i]))
  }

  /** Every piece trimmed; a blank last one is dropped. */
  function Kept(pieces: seq<string>): seq<string>
    requires pieces != []
  {
    var n := |pieces| - 1;
    TrimEach(pieces[..n]) + (if Trim(pieces[n]) == "" then [] else [Trim(pieces[n])])
  }

  lemma {:induction false} KeptCons(a: string, rest: seq<string>)
    requires rest != []
    ensures Kept([a] + rest) == [Trim(a)] + Kept(rest)
  {
    var n := |rest|;
    assert ([a] + rest)[..n] == [a] + rest[..n - 1];
    assert TrimEach([a] + rest[..n - 1]) == [Trim(a)] + TrimEach(rest[..n - 1]);
  }

  lemma {:induction false} KeptOne(a: string)
    ensures Kept([a]) == if Trim(a) == "" then [] else [Trim(a)]
  {
    assert [a][..0] == [] && TrimEach([a][..0]) == [];
  }

  function Arguments(source: string): seq<string> {
    Kept(Pieces(START, source))
  }

  function Prefixed(current: string, pieces: seq<string>): (r: seq<string>)
    requires pieces != []
    ensures r != []
  {
    [current + pieces[0]] + pieces[1..]
  }

  lemma {:induction false} PrefixedMore(current: string, ch: char, rest: seq<string>)
    requires rest != []
    ensures Prefixed(current, [[ch] + rest[0]] + rest[1..]) == Prefixed(current + [ch], rest)
  {
    assert current + ([ch] + rest[0]) == (current + [ch]) + rest[0];
  }

  lemma {:induction false} PrefixedNothing(pieces: seq<string>)
    requires pieces != []
    ensures Prefixed("", pieces) == pieces
  {
    assert "" + pieces[0] == pieces[0];
  }

  /** What is left to split, with `current` already read. */
  function Pending(current: string, s: Scan, rest: string): seq<string>
    decreases rest
  {
    if rest == "" then (if Trim(current) == "" then [] else [Trim(current)])
    else if Cuts(s, rest[0]) then [Trim(current)] + Pending("", Step(s, rest[0]), rest[1..])
    else Pending(current + [rest[0]], Step(s, rest[0]), rest[1..])
  }

  /** Splitting on the fly keeps exactly the trimmed pieces. */
  lemma {:induction false} PendingPieces(current: string, s: Scan, rest: string)
    ensures Pending(current, s, rest) == Kept(Prefixed(current, Pieces(s, rest)))
    decreases rest
  {
    if rest == "" {
      assert current + "" == current && Prefixed(current, [""]) == [current];
      KeptOne(current);
    } else {
      var more := Pieces(Step(s, rest[0]), rest[1..]);
      if Cuts(s, rest[0]) {
        PendingPieces("", Step(s, rest[0]), rest[1..]);
        assert current + "" == current;
        assert Prefixed(current, [""] + more) == [current] + more;
        PrefixedNothing(more);
        KeptCons(current, more);
      } else {
        PendingPieces(current + [rest[0]], Step(s, rest[0]), rest[1..]);
        PrefixedMore(current, rest[0], more);
      }
    }
  }

  method SplitTopLevelArguments(source: string) returns (out: seq<string>)
    ensures out == Arguments(source)
  {
    out := [];
    var current := "";
    var parenDepth, bracketDepth, braceDepth := 0, 0, 0;
    var quoteState := new QuoteScanState();
    assert source[0..] == source;
    PrefixedNothing(Pieces(START, source));
    PendingPieces("", START, source);
    ghost var total := Pending("", START, source);
    var i := 0;
    ghost var s := START;
    while i < |source|
      invariant 0 <= i <= |source|
      invariant quoteState.View() == s.quote
      invariant parenDepth == s.paren && bracketDepth == s.bracket && braceDepth == s.brace
      invariant out + Pending(current, s, source[i..]) == total
      invariant fresh(quoteState)
    {
      var ch := source[i];
      assert source[i..][0] == ch && source[i..][1..] == source[i + 1..];
      s := Step(s, ch);
      i := i + 1;
      if quoteState.quote.Some? {
        current := current + [ch];
        var _ := quoteState.ConsumeQuotedChar(ch);
        continue;
      }
      var began := quoteState.BeginQuotedSection(ch);
      if began {
        current := current + [ch];
        continue;
      }
      if ch == '(' {
        parenDepth := parenDepth + 1;
        current := current + [ch];
        continue;
      }
      if ch == ')' {
        if parenDepth > 0 {
          parenDepth := parenDepth - 1;
        }
        current := current + [ch];
        continue;
      }
      if ch == '[' {
        bracketDepth := bracketDepth + 1;
        current := current + [ch];
        continue;
      }
      if ch == ']' {
        if bracketDepth > 0 {
          bracketDepth := bracketDepth - 1;
        }
        current := current + [ch];
        continue;
      }
      if ch == '{' {
        braceDepth := braceDepth + 1;
        current := current + [ch];
        continue;
      }
      if ch == '}' {
        if braceDepth > 0 {
          braceDepth := braceDepth - 1;
        }
        current := current + [ch];
        continue;
      }
      if ch == ',' && parenDepth == 0 && bracketDepth == 0 && braceDepth == 0 {
        out := out + [Trim(current)];
        current := "";
        continue;
      }
      current := current + [ch];
    }
    assert source[i..] == "";
    if Trim(current) != "" {
      out := out + [Trim(current)];
    }
  }

  // ----- what the split means

  /** The positions of the separators when `pieces` are joined from position `at` on. */
  ghost function Joints(pieces: seq<string>, at: nat): set<nat> {
    if |pieces| <= 1 then {}
    else {at + |pieces[0]|} + Joints(pieces[1..], at + |pieces[0]| + 1)
  }

  lemma {:induction false} JointsShift(pieces: seq<string>, ch: char, at: nat)
    requires pieces != []
    ensures Joints([[ch] + pieces[0]] + pieces[1..], at) == Joints(pieces, at + 1)
  {
    assert ([[ch] + pieces[0]] + pieces[1..])[1..] == pieces[1..];
  }

  lemma {:induction false} PiecesJoin(s: Scan, t: string)
    ensures Join(Pieces(s, t), ',') == t
    decreases t
  {
    if t != "" {
      PiecesJoin(Step(s, t[0]), t[1..]);
      var rest := Pieces(Step(s, t[0]), t[1..]);
      assert t == [t[0]] + t[1..];
      if Cuts(s, t[0]) {
        assert ([""] + rest)[1..] == rest;
      } else {
        var all := [[t[0]] + rest[0]] + rest[1..];
        assert all[1..] == rest[1..];
        if |rest| > 1 {
          assert Join(all, ',') == ([t[0]] + rest[0]) + [','] + Join(rest[1..], ',');
          assert Join(rest, ',') == rest[0] + [','] + Join(rest[1..], ',');
        }
      }
    }
  }

  lemma {:induction false} PiecesJoints(t: string, k: nat)
    requires k <= |t|
    ensures Joints(Pieces(Run(START, t[..k]), t[k..]), k) == set i: nat | k <= i < |t| && CutsAt(t, i)
    decreases |t| - k
  {
    if k < |t| {
      PiecesJoints(t, k + 1);
      RunMore(START, t, k);
      var s := Run(START, t[..k]);
      var rest := Pieces(Step(s, t[k]), t[k + 1..]);
      assert t[k..][0] == t[k] && t[k..][1..] == t[k + 1..];
      if Cuts(s, t[k]) {
        assert ([""] + rest)[1..] == rest;
      } else {
        JointsShift(rest, t[k], k);
      }
    }
  }

  /** The pieces are the source, cut at exactly its unquoted top-level commas. */
  lemma {:induction false} CutAtTopLevelCommas(source: string)
    ensures Join(Pieces(START, source), ',') == source
    ensures Joints(Pieces(START, source), 0) == set k: nat | k < |source| && CutsAt(source, k)
  {
    PiecesJoin(START, source);
    PiecesJoints(source, 0);
    assert source[0..] == source && source[..0] == "";
  }

  // ----- printing a call and reading it back

  /** Quotes closed, brackets balanced, and neither a comma nor a closing parenthesis at
      top level; trimmed and non-empty. */
  ghost predicate WellFormed(a: string) {
    && a != "" && Trim(a) == a
    && Run(START, a) == START
    && forall k: nat :: !CutsAt(a, k) && !EndsAt(a, k)
  }

  ghost predicate AllWellFormed(args: seq<string>) {
    forall a :: a in args ==> WellFormed(a)
  }

  function Printed(args: seq<string>): string {
    if args == [] then ""
    else if |args| == 1 then args[0]
    else args[0] + ", " + Printed(args[1..])
  }

  lemma {:induction false} PrintedIsBalanced(args: seq<string>)
    requires AllWellFormed(args)
    ensures Run(START, Printed(args)) == START
    ensures forall k: nat :: !EndsAt(Printed(args), k)
  {
    if |args| > 1 {
      assert AllWellFormed(args[1..]);
      PrintedIsBalanced(args[1..]);
      var a, b := args[0] + ", ", Printed(args[1..]);
      assert WellFormed(args[0]);
      CommaIsBalanced(args[0]);
      RunAppend(START, a, b);
      forall k: nat ensures !EndsAt(a + b, k) {
        EndsInPart(a, b, k);
      }
    } else if |args| == 1 {
      assert WellFormed(args[0]);
    }
  }

  lemma {:induction false} CommaIsBalanced(a: string)
    requires WellFormed(a)
    ensures Run(START, a + ", ") == START
    ensures forall k: nat :: !EndsAt(a + ", ", k)
  {
    RunAppend(START, a, ", ");
    var t := ", ";
    assert Run(START, t) == Run(Step(START, ','), t[1..]);
    assert t[1..][1..] == "" && Run(START, t) == START;
    forall k: nat ensures !EndsAt(a + ", ", k) {
      EndsInPart(a, ", ", k);
    }
  }

  lemma {:induction false} EndsInPart(a: string, b: string, k: nat)
    requires Run(START, a) == START
    ensures EndsAt(a + b, k) <==> if k < |a| then EndsAt(a, k) else EndsAt(b, k - |a|)
  {
    if k < |a| {
      assert (a + b)[..k] == a[..k];
    } else if k < |a + b| {
      assert (a + b)[..k] == a + b[..k - |a|];
      RunAppend(START, a, b[..k - |a|]);
    }
  }

  lemma {:induction false} PiecesSkip(s: Scan, a: string, b: string)
    requires forall k: nat :: k < |a| ==> !Cuts(Run(s, a[..k]), a[k])
    ensures Pieces(s, a + b) == Prefixed(a, Pieces(Run(s, a), b))
    decreases a
  {
    var rest := Pieces(Run(s, a), b);
    if a == "" {
      assert a + b == b;
      PrefixedNothing(rest);
    } else {
      assert a[..0] == "" && !Cuts(s, a[0]);
      assert (a + b)[0] == a[0] && (a + b)[1..] == a[1..] + b;
      forall k: nat | k < |a[1..]| ensures !Cuts(Run(Step(s, a[0]), a[1..][..k]), a[1..][k]) {
        assert a[..k + 1][0] == a[0] && a[..k + 1][1..] == a[1..][..k];
        assert !Cuts(Run(s, a[..k + 1]), a[k + 1]);
      }
      PiecesSkip(Step(s, a[0]), a[1..], b);
      var more := Prefixed(a[1..], rest);
      assert [a[0]] + (a[1..] + rest[0]) == a + rest[0];
      assert more[1..] == rest[1..];
    }
  }

  /** The pieces of printed arguments: the arguments, each but the first after a blank. */
  function Spaced(args: seq<string>): seq<string>
    requires args != []
  {
    if |args| == 1 then [args[0]]
    else [args[0]] + Prefixed(" ", Spaced(args[1..]))
  }

  lemma {:induction false} PiecesAfterComma(rest: string)
    ensures Pieces(START, ", " + rest) == [""] + Prefixed(" ", Pieces(START, rest))
  {
    var b, c := ", " + rest, " " + rest;
    assert b[0] == ',' && b[1..] == c && c[0] == ' ' && c[1..] == rest;
    assert Pieces(START, c) == Prefixed(" ", Pieces(START, rest));
  }

  lemma {:induction false} PiecesOfPrinted(args: seq<string>)
    requires args != [] && AllWellFormed(args)
    ensures Pieces(START, Printed(args)) == Spaced(args)
  {
    var a := args[0];
    assert WellFormed(a);
    forall k: nat | k < |a| ensures !Cuts(Run(START, a[..k]), a[k]) {
      assert !CutsAt(a, k);
    }
    if |args| == 1 {
      assert a + "" == a;
      PiecesSkip(START, a, "");
    } else {
      assert AllWellFormed(args[1..]);
      PiecesOfPrinted(args[1..]);
      var rest := Printed(args[1..]);
      var b := ", " + rest;
      assert Printed(args) == a + b;
      PiecesSkip(START, a, b);
      PiecesAfterComma(rest);
      var more := Prefixed(" ", Pieces(START, rest));
      assert a + "" == a && Prefixed(a, [""] + more) == [a] + more;
    }
  }

  lemma {:induction false} TrimAfterBlank(a: string)
    requires a != "" && Trim(a) == a
    ensures Trim(" " + a) == a
  {
    assert (" " + a)[1..] == a;
  }

  lemma {:induction false} KeptSpaced(args: seq<string>)
    requires args != [] && AllWellFormed(args)
    ensures |Spaced(args)| == |args|
    ensures Kept(Spaced(args)) == args && Kept(Prefixed(" ", Spaced(args))) == args
  {
    var a := args[0];
    assert WellFormed(a);
    TrimAfterBlank(a);
    if |args| == 1 {
      KeptOne(a);
      KeptOne(" " + a);
      assert args == [a] && Prefixed(" ", [a]) == [" " + a];
    } else {
      assert AllWellFormed(args[1..]);
      KeptSpaced(args[1..]);
      var rest := Prefixed(" ", Spaced(args[1..]));
      KeptCons(a, rest);
      KeptCons(" " + a, rest);
      assert Prefixed(" ", [a] + rest) == [" " + a] + rest;
    }
  }

  /** Printed as `(a, b, ...)` anywhere in a source, well-formed arguments are read back: the
      matching parenthesis is the printed one, and splitting what lies between gives the list. */
  lemma {:induction false} CallRoundTrip(before: string, args: seq<string>, after: string)
    requires AllWellFormed(args)
    ensures IsMatch(before + "(" + Printed(args) + ")" + after, |before|, |before| + 1 + |Printed(args)|)
    ensures Arguments(Printed(args)) == args
  {
    var text := Printed(args);
    var source := before + "(" + text + ")" + after;
    var t := text + (")" + after);
    assert source[|before| + 1..] == t;
    PrintedIsBalanced(args);
    forall k: nat | k < |text| ensures !EndsAt(t, k) {
      EndsInPart(text, ")" + after, k);
    }
    assert t[..|text|] == text && t[|text|] == ')';
    if args == [] {
      KeptOne("");
    } else {
      PiecesOfPrinted(args);
      KeptSpaced(args);
    }
  }

  /** The guardrail's use of both: the arguments of the call whose parenthesis opens at
      `openIndex`. */
  method CallArguments(source: string, openIndex: nat) returns (r: Option<seq<string>>)
    ensures r.None? <==> IsMatch(source, openIndex, -1)
    ensures r.Some? ==> exists close: nat {:trigger IsMatch(source, openIndex, close)} ::
      openIndex < close < |source| && IsMatch(source, openIndex, close)
      && r.value == Arguments(source[openIndex + 1..close])
  {
    var closeIndex := FindMatchingParen(source, openIndex);
    if closeIndex == -1 {
      return None;
    }
    var args := SplitTopLevelArguments(source[openIndex + 1..closeIndex]);
    return Some(args);
  }
}
