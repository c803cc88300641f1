/** Which arguments the guardrail's scanners read back: anything nested properly, with string
    literals of all three kinds. */
module GuardrailArguments {
  import opened JsText
  import opened Options
  import opened GuardrailScanner

  /** Source text in pieces: a single character, a string literal with the given contents, or
      something in brackets. */
  datatype Token = Plain(ch: char) | Literal(mark: char, text: string) | Nested(open: char, inner: seq<Token>)

  /** Each mark and each bracket is in its place. */
  predicate Proper(tokens: seq<Token>)
    decreases tokens
  {
    tokens == [] || (
      && (match tokens[0]
          case Plain(ch) => ch !in "'\"`()[]{}"
          case Literal(mark, _) => mark in "'\"`"
          case Nested(open, inner) => open in "([{" && Proper(inner))
      && Proper(tokens[1..]))
  }

  function Closing(open: char): char {
    if open == '(' then ')' else if open == '[' then ']' else '}'
  }

  /** The contents of a literal, its mark and the backslash escaped. */
  function Escaped(mark: char, text: string): string {
    if text == "" then ""
    else (if text[0] == mark || text[0] == '\\' then ['\\', text[0]] else [text[0]]) + Escaped(mark, text[1..])
  }

  function Written(tokens: seq<Token>): string
    decreases tokens
  {
    if tokens == [] then ""
    else
      (match tokens[0]
       case Plain(ch) => [ch]
       case Literal(mark, text) => [mark] + Escaped(mark, text) + [mark]
       case Nested(open, inner) => [open] + Written(inner) + [Closing(open)]) + Written(tokens[1..])
  }

  // ----- text a scan passes over

  /** The text leaves the scan where it was, and nothing in it ends a call or cuts the arguments. */
  ghost predicate Passes(s: Scan, t: string) {
    Run(s, t) == s && forall k: nat :: k < |t| ==> Idle(Run(s, t[..k]), t[k])
  }

  predicate Idle(s: Scan, ch: char) {
    !Ends(s, ch) && !Cuts(s, ch)
  }

  lemma {:induction false} PassesNothing(s: Scan)
    ensures Passes(s, "")
  {
  }

  lemma {:induction false} PassesBoth(s: Scan, a: string, b: string)
    requires Passes(s, a) && Passes(s, b)
    ensures Passes(s, a + b)
  {
    RunAppend(s, a, b);
    forall k: nat | k < |a + b| ensures Idle(Run(s, (a + b)[..k]), (a + b)[k]) {
      if k < |a| {
        assert (a + b)[..k] == a[..k];
      } else {
        assert (a + b)[..k] == a + b[..k - |a|];
        RunAppend(s, a, b[..k - |a|]);
      }
    }
  }

  lemma {:induction false} PassesOne(s: Scan, ch: char)
    requires Step(s, ch) == s && Idle(s, ch)
    ensures Passes(s, [ch])
  {
    assert [ch][1..] == [] && [ch][..0] == [];
  }

  /** Between two characters that undo each other. */
  lemma {:induction false} PassesWithin(s: Scan, open: char, inner: string, close: char)
    requires Idle(s, open) && Passes(Step(s, open), inner)
    requires Idle(Step(s, open), close) && Step(Step(s, open), close) == s
    ensures Passes(s, [open] + inner + [close])
  {
    var t, text := Step(s, open), [open] + inner + [close];
    assert text[0] == open && text[1..] == inner + [close];
    RunAppend(t, inner, [close]);
    assert [close][1..] == [];
    forall k: nat | k < |text| ensures Idle(Run(s, text[..k]), text[k]) {
      if k == 0 {
        assert text[..0] == "";
      } else {
        assert text[..k][0] == open && text[..k][1..] == inner[..k - 1];
        assert k - 1 == |inner| ==> inner[..k - 1] == inner;
      }
    }
  }

  // ----- what proper tokens do to a scan

  lemma {:induction false} EscapedPasses(s: Scan, mark: char, text: string)
    requires s.quote == Quote(Some(mark), false)
    ensures Passes(s, Escaped(mark, text))
  {
    if text == "" {
      PassesNothing(s);
    } else {
      EscapedPasses(s, mark, text[1..]);
      var ch := text[0];
      if ch == mark || ch == '\\' {
        PassesWithin(s, '\\', "", ch);
        assert ['\\'] + "" + [ch] == ['\\', ch];
        PassesBoth(s, ['\\', ch], Escaped(mark, text[1..]));
      } else {
        PassesOne(s, ch);
        PassesBoth(s, [ch], Escaped(mark, text[1..]));
      }
    }
  }

  /** Unquoted, and not below where a call began. */
  predicate Open(s: Scan) {
    s.quote == Quote(None, false) && s.balance >= 0
  }

  predicate Deep(s: Scan) {
    s.paren > 0 || s.bracket > 0 || s.brace > 0
  }

  /** Proper tokens are passed over, unless one of them is a comma outside all brackets. */
  lemma {:induction false} ProperPasses(s: Scan, tokens: seq<Token>)
    requires Proper(tokens) && Open(s) && (Deep(s) || Plain(',') !in tokens)
    ensures Passes(s, Written(tokens))
    decreases tokens
  {
    if tokens == [] {
      PassesNothing(s);
    } else {
      assert tokens[0] in tokens && forall t :: t in tokens[1..] ==> t in tokens;
      ProperPasses(s, tokens[1..]);
      var rest := Written(tokens[1..]);
      match tokens[0] {
        case Plain(ch) =>
          PlainPasses(s, ch);
          PassesBoth(s, [ch], rest);
        case Literal(mark, text) =>
          LiteralPasses(s, mark, text);
          PassesBoth(s, [mark] + Escaped(mark, text) + [mark], rest);
        case Nested(open, inner) =>
          Bracketed(s, open);
          ProperPasses(Step(s, open), inner);
          PassesWithin(s, open, Written(inner), Closing(open));
          PassesBoth(s, [open] + Written(inner) + [Closing(open)], rest);
      }
    }
  }

  lemma {:induction false} PlainPasses(s: Scan, ch: char)
    requires Open(s) && ch !in "'\"`()[]{}" && (Deep(s) || ch != ',')
    ensures Passes(s, [ch])
  {
    var marks := "'\"`()[]{}";
    assert marks[0] == '\'' && marks[1] == '"' && marks[2] == '`' && marks[3] == '(' && marks[4] == ')';
    assert marks[5] == '[' && marks[6] == ']' && marks[7] == '{' && marks[8] == '}';
    PassesOne(s, ch);
  }

  lemma {:induction false} LiteralPasses(s: Scan, mark: char, text: string)
    requires Open(s) && mark in "'\"`"
    ensures Passes(s, [mark] + Escaped(mark, text) + [mark])
  {
    EscapedPasses(Step(s, mark), mark, text);
    PassesWithin(s, mark, Escaped(mark, text), mark);
  }

  lemma {:induction false} Bracketed(s: Scan, open: char)
    requires Open(s) && open in "([{"
    ensures var t := Step(s, open);
      Open(t) && Deep(t) && Idle(s, open) && Idle(t, Closing(open)) && Step(t, Closing(open)) == s
  {
  }

  // ----- the pieces of any source

  /** Splitting gives the pieces one by one, trimmed, blank ones among them too; only a blank last one is left out. */
  lemma {:induction false} ArgumentsAre(source: string)
    ensures var pieces, args := Pieces(START, source), Arguments(source);
      var last := pieces[|pieces| - 1];
      && |args| == (if IsBlank(last) then |pieces| - 1 else |pieces|)
      && forall i :: 0 <= i < |args| ==> args[i] == Trim(pieces[i])
  {
    var pieces := Pieces(START, source);
    BlankTrimsToNothing(pieces[|pieces| - 1]);
  }

  // ----- the arguments that are read back

  /** An argument: proper tokens without a comma between them, and no blank at either end. */
  ghost predicate Argument(tokens: seq<Token>) {
    Proper(tokens) && Plain(',') !in tokens && Written(tokens) != "" && Trim(Written(tokens)) == Written(tokens)
  }

  /** Every such argument is well formed, so it is read back. */
  lemma {:induction false} ArgumentWellFormed(tokens: seq<Token>)
    requires Argument(tokens)
    ensures WellFormed(Written(tokens))
  {
    ProperPasses(START, tokens);
    var t := Written(tokens);
    assert forall k: nat :: k < |t| ==> Idle(Run(START, t[..k]), t[k]);
  }

  function WrittenEach(args: seq<seq<Token>>): (r: seq<string>)
    ensures |r| == |args| && forall i :: 0 <= i < |r| ==> r[i] == Written(args[i])
  {
    seq(|args|, i requires 0 <= i < |args| => Written(args[i]))
  }

  /** A call with such arguments, anywhere in a source: its closing parenthesis is found, and the arguments are
      read back one by one, whatever brackets, commas, quotes and backslashes they have inside. */
  lemma {:induction false} NestedCallRoundTrip(before: string, args: seq<seq<Token>>, after: string)
    requires forall i :: 0 <= i < |args| ==> Argument(args[i])
    ensures var text := Printed(WrittenEach(args));
      && IsMatch(before + "(" + text + ")" + after, |before|, |before| + 1 + |text|)
      && Arguments(text) == WrittenEach(args)
  {
    forall a | a in WrittenEach(args) ensures WellFormed(a) {
      var i :| 0 <= i < |args| && WrittenEach(args)[i] == a;
      ArgumentWellFormed(args[i]);
    }
    CallRoundTrip(before, WrittenEach(args), after);
  }
}
