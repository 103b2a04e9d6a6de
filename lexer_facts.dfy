/** What the tokenizer promises, stated about the reference definition
    `Lexed`: what is skipped, what each kind of token looks like, and a round
    trip through a renderer that writes any sequence of well-formed tokens
    back as text. */
module LexerFacts {
  import opened Common
  import opened Lexer

  /** Blanks (space, tab, LF, CR) produce no tokens. */
  lemma {:induction false} BlanksSkipped(w: string, s: string)
    requires forall i :: 0 <= i < |w| ==> IsSpace(w[i])
    ensures Lexed(w + s) == Lexed(s)
    decreases |w|
  {
    if w == [] {
      assert w + s == s;
    } else {
      assert (w + s)[1..] == w[1..] + s;
      BlanksSkipped(w[1..], s);
    }
  }

  /** A `--` comment runs to the end of its line and produces no tokens. */
  lemma CommentSkipped(body: string, s: string)
    requires forall i :: 0 <= i < |body| ==> body[i] != '\n'
    requires s == [] || s[0] == '\n'
    ensures Lexed("--" + body + s) == Lexed(s)
  {
    var c := "--" + body;
    assert "--" + body + s == c + s;
    LineLengthOfLine(c, s);
    assert (c + s)[|c|..] == s;
  }

  /** A byte that starts nothing (not a blank, a structural byte, a quote,
      a digit, a letter or a minus sign). */
  predicate Ignored(c: char)
  {
    !IsSpace(c) && Punct(c).None? && c != '"' && !IsDecimalDigit(c) && !IsAlpha(c) && c != '-'
  }

  /** Any other byte is skipped silently. */
  lemma UnknownSkipped(c: char, s: string)
    requires Ignored(c)
    ensures Lexed([c] + s) == Lexed(s)
  {
    assert ([c] + s)[1..] == s;
  }

  /** So is a minus sign that starts neither a comment nor a number. */
  lemma LoneMinusSkipped(s: string)
    requires s == [] || (s[0] != '-' && !IsDecimalDigit(s[0]))
    ensures Lexed("-" + s) == Lexed(s)
  {
    var t := "-" + s;
    assert t[0] == '-' && t[1..] == s;
    assert !IsSpace(t[0]) && !StartsComment(t) && Punct(t[0]).None? && t[0] != '"' && !StartsNumber(t);
    assert LexStep(t) == Step(None, s);
  }

  /** A string body the scan reads to its end without stopping: every quote
      in it is escaped, and it does not end in a lone backslash. */
  predicate ClosedBody(b: string)
    decreases |b|
  {
    b == []
    || (b[0] == '\\' && |b| >= 2 && ClosedBody(b[2..]))
    || (b[0] != '\\' && b[0] != '"' && ClosedBody(b[1..]))
  }

  lemma {:induction false} ScanClosedBody(b: string, s: string)
    requires ClosedBody(b)
    requires s == [] || s[0] == '"'
    ensures StringScan(b + s) == |b|
    decreases |b|
  {
    if b == [] {
      assert b + s == s;
    } else if b[0] == '\\' && |b| >= 2 && ClosedBody(b[2..]) {
      assert (b + s)[2..] == b[2..] + s;
      ScanClosedBody(b[2..], s);
    } else {
      assert (b + s)[1..] == b[1..] + s;
      ScanClosedBody(b[1..], s);
    }
  }

  /** A quoted string lexes to one token whose value is exactly the bytes
      between the quotes, backslashes and escaped bytes included. */
  lemma StringLexed(b: string, s: string)
    requires ClosedBody(b)
    ensures Lexed("\"" + b + "\"" + s) == [Token(StringTok, b)] + Lexed(s)
  {
    var t := "\"" + b + "\"" + s;
    assert t[0] == '"' && t[1..] == b + ("\"" + s);
    ScanClosedBody(b, "\"" + s);
    assert StringValue(t) == b by {
      assert t[1..][..|b|] == b;
    }
    assert AfterString(t) == s by {
      assert t[|b| + 2..] == s;
    }
    assert !IsSpace(t[0]) && !StartsComment(t) && Punct(t[0]).None?;
    assert LexStep(t) == Step(Some(Token(StringTok, b)), s);
    assert Lexed(t) == Emitted(LexStep(t)) + Lexed(s);
  }

  /** A string left open runs to the end of the input. */
  lemma UnterminatedString(b: string)
    requires ClosedBody(b)
    ensures Lexed("\"" + b) == [Token(StringTok, b), EofToken]
  {
    var t := "\"" + b;
    OpenStringStep(b);
    LexedUnfold(t);
  }

  /** The step on an open string: its token is the rest of the input. */
  lemma OpenStringStep(b: string)
    requires ClosedBody(b)
    ensures LexStep("\"" + b) == Step(Some(Token(StringTok, b)), [])
  {
    var t := "\"" + b;
    assert t[1..] == b + [];
    ScanClosedBody(b, []);
    assert t[1..][..|b|] == b;
  }

  /** A backslash keeps itself and the quote after it: `"a\"b"` is one token. */
  lemma EscapedQuoteKept()
    ensures Lexed("\"a\\\"b\"") == [Token(StringTok, "a\\\"b"), EofToken]
  {
    assert ClosedBody("b") by { assert ClosedBody("b"[1..]); }
    assert ClosedBody("\\\"b") by { assert "\\\"b"[2..] == "b"; }
    assert ClosedBody("a\\\"b") by { assert "a\\\"b"[1..] == "\\\"b"; }
    StringLexed("a\\\"b", "");
    EscapedQuoteText();
  }

  lemma EscapedQuoteText()
    ensures "\"" + "a\\\"b" + "\"" + "" == "\"a\\\"b\""
  {
  }

  /** A word: a letter followed by letters, digits and underscores. */
  predicate Word(w: string)
  {
    w != [] && IsAlpha(w[0]) && forall i :: 0 <= i < |w| ==> IsIdentChar(w[i])
  }

  lemma {:induction false} IdentRunOf(w: string, s: string)
    requires forall i :: 0 <= i < |w| ==> IsIdentChar(w[i])
    requires s == [] || !IsIdentChar(s[0])
    ensures IdentRun(w + s) == |w|
    decreases |w|
  {
    if w == [] {
      assert w + s == s;
    } else {
      assert (w + s)[1..] == w[1..] + s;
      IdentRunOf(w[1..], s);
    }
  }

  /** A maximal word lexes to one token: Bool for `true` and `false`, Nil for
      `nil` (see KeywordToken), and otherwise an identifier with its text. */
  lemma WordLexed(w: string, s: string)
    requires Word(w)
    requires s == [] || !IsIdentChar(s[0])
    ensures Lexed(w + s) == [KeywordToken(w)] + Lexed(s)
  {
    var t := w + s;
    IdentRunOf(w, s);
    assert t[0] == w[0] && IsAlpha(t[0]);
    assert !IsSpace(t[0]) && !StartsComment(t) && Punct(t[0]).None? && t[0] != '"' && !StartsNumber(t);
    assert t[..|w|] == w;
    assert t[|w|..] == s;
    assert LexStep(t) == Step(Some(KeywordToken(w)), s);
    assert Lexed(t) == Emitted(LexStep(t)) + Lexed(s);
  }

  /** A number literal as the lexer reads it: an optional minus sign, then
      one or more digits. */
  predicate Numeral(v: string)
  {
    v != [] && var d := if v[0] == '-' then v[1..] else v;
    d != [] && forall i :: 0 <= i < |d| ==> IsDecimalDigit(d[i])
  }

  lemma {:induction false} DigitRunOf(d: string, s: string)
    requires forall i :: 0 <= i < |d| ==> IsDecimalDigit(d[i])
    requires s == [] || !IsDecimalDigit(s[0])
    ensures DigitRun(d + s) == |d|
    decreases |d|
  {
    if d == [] {
      assert d + s == s;
    } else {
      assert (d + s)[1..] == d[1..] + s;
      DigitRunOf(d[1..], s);
    }
  }

  /** A maximal numeral lexes to one number token carrying its text. */
  lemma NumberLexed(v: string, s: string)
    requires Numeral(v)
    requires s == [] || !IsDecimalDigit(s[0])
    ensures Lexed(v + s) == [Token(NumberTok, v)] + Lexed(s)
  {
    NumberStepOf(v, s);
    LexedUnfold(v + s);
  }

  /** The step on a numeral followed by a non-digit reads exactly the numeral. */
  lemma NumberStepOf(v: string, s: string)
    requires Numeral(v)
    requires s == [] || !IsDecimalDigit(s[0])
    ensures LexStep(v + s) == Step(Some(Token(NumberTok, v)), s)
  {
    var t := v + s;
    var sign := if v[0] == '-' then 1 else 0;
    var d := v[sign..];
    assert IsDecimalDigit(d[0]) && d[0] == v[sign];
    assert t[0] == v[0] && (sign == 1 ==> t[1] == v[1]);
    assert !IsSpace(t[0]) && !StartsComment(t) && Punct(t[0]).None? && t[0] != '"';
    assert StartsNumber(t);
    ConcatSlices(v, s, sign);
    DigitRunOf(v[sign..], s);
    assert NumberLength(t) == |v|;
  }

  /** Slicing a concatenation at or inside its first part. */
  lemma ConcatSlices(a: string, b: string, k: nat)
    requires k <= |a|
    ensures (a + b)[k..] == a[k..] + b
    ensures (a + b)[..|a|] == a && (a + b)[|a|..] == b
  {
  }

  /** Lexing a non-empty text is its first step and the lexing of the rest. */
  lemma LexedUnfold(t: string)
    requires t != []
    ensures Lexed(t) == Emitted(LexStep(t)) + Lexed(LexStep(t).rest)
  {
  }

  /** A token the renderer below can write so that it lexes back. */
  predicate Renderable(t: Token)
  {
    match t.kind
    case EOF => false
    case LBrace => t.value == "{"
    case RBrace => t.value == "}"
    case LBracket => t.value == "["
    case RBracket => t.value == "]"
    case Comma => t.value == ","
    case Equals => t.value == "="
    case StringTok => ClosedBody(t.value)
    case NumberTok => Numeral(t.value)
    case BoolTok => t.value == "true" || t.value == "false"
    case NilTok => t.value == "nil"
    case IdentTok => Word(t.value) && t.value != "true" && t.value != "false" && t.value != "nil"
  }

  function RenderToken(t: Token): string
  {
    if t.kind == StringTok then "\"" + t.value + "\"" else t.value
  }

  /** The text of a token sequence, each token followed by one space. */
  function Render(ts: seq<Token>): string
  {
    if ts == [] then [] else RenderToken(ts[0]) + " " + Render(ts[1..])
  }

  /** One rendered token followed by a space lexes back to that token. */
  lemma RenderTokenLexed(t: Token, rest: string)
    requires Renderable(t)
    ensures Lexed(RenderToken(t) + " " + rest) == [t] + Lexed(rest)
  {
    var u, s := RenderToken(t), " " + rest;
    assert u + " " + rest == u + s;
    assert s[0] == ' ';
    TokenThenBlank(t, s);
    BlanksSkipped(" ", rest);
  }

  /** A rendered token followed by a blank (or nothing) lexes to itself. */
  lemma TokenThenBlank(t: Token, s: string)
    requires Renderable(t)
    requires s == [] || IsSpace(s[0])
    ensures Lexed(RenderToken(t) + s) == [t] + Lexed(s)
  {
    match t.kind {
      case StringTok => StringRendered(t, s);
      case NumberTok => NumberLexed(t.value, s);
      case BoolTok => WordRendered(t, s);
      case NilTok => WordRendered(t, s);
      case IdentTok => WordRendered(t, s);
      case _ => PunctRendered(t, s);
    }
  }

  lemma StringRendered(t: Token, s: string)
    requires t.kind == StringTok && ClosedBody(t.value)
    ensures Lexed(RenderToken(t) + s) == [t] + Lexed(s)
  {
    assert RenderToken(t) + s == "\"" + t.value + "\"" + s;
    StringLexed(t.value, s);
  }

  lemma WordRendered(t: Token, s: string)
    requires t.kind in {BoolTok, NilTok, IdentTok} && Renderable(t)
    requires s == [] || !IsIdentChar(s[0])
    ensures Lexed(RenderToken(t) + s) == [t] + Lexed(s)
  {
    WordLexed(t.value, s);
  }

  lemma PunctRendered(t: Token, s: string)
    requires t.kind in {LBrace, RBrace, LBracket, RBracket, Comma, Equals} && Renderable(t)
    ensures Lexed(RenderToken(t) + s) == [t] + Lexed(s)
  {
    var u := RenderToken(t) + s;
    assert u[0] == t.value[0] && u[1..] == s;
    assert LexStep(u) == Step(Some(t), s);
  }

  lemma ConsAppend<T>(ts: seq<T>, e: T)
    requires ts != []
    ensures [ts[0]] + (ts[1..] + [e]) == ts + [e]
  {
    assert ts == [ts[0]] + ts[1..];
  }

  /** Rendering well-formed tokens and lexing the text gives the tokens back,
      followed by the end-of-input token. */
  lemma {:induction false} RenderLexed(ts: seq<Token>)
    requires forall i :: 0 <= i < |ts| ==> Renderable(ts[i])
    ensures Lexed(Render(ts)) == ts + [EofToken]
    decreases |ts|
  {
    if ts != [] {
      var rest := Render(ts[1..]);
      RenderTokenLexed(ts[0], rest);
      RenderLexed(ts[1..]);
      assert Render(ts) == RenderToken(ts[0]) + " " + rest;
      ConsAppend(ts, EofToken);
    }
  }

  /** lexString as written: Go's slice input[start:pos] panics when pos is
      past the end, which happens when the input ends inside a string with a
      lone backslash. None stands for that panic. */
  function StringValueAsWritten(s: string): (r: Option<string>)
    requires s != [] && s[0] == '"'
    ensures r.None? <==> StringScan(s[1..]) == |s|
    ensures r.Some? ==> r.value == StringValue(s)
  {
    var e := StringScan(s[1..]);
    if 1 + e <= |s| then Some(s[1..1 + e]) else None
  }

  /** The input `"\` (a quote, then a backslash) makes the lexer panic. */
  lemma TrailingBackslashPanics()
    ensures StringValueAsWritten("\"\\") == None
  {
    assert "\"\\"[1..] == "\\";
  }

  /** The corrected token value is always a prefix of the bytes after the
      opening quote: up to the closing quote when there is one, and the rest
      of the input otherwise. */
  lemma StringValueWithinInput(s: string)
    requires s != [] && s[0] == '"'
    ensures StringValue(s) <= s[1..]
    ensures StringScan(s[1..]) < |s| - 1 ==> s[1 + |StringValue(s)|] == '"'
    ensures StringScan(s[1..]) >= |s| - 1 ==> StringValue(s) == s[1..]
  {
  }
}
