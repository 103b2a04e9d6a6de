/** The tokenizer of the SavedVariables reader (pkg/lua/simple_parser.go).

    `Lexed` is the reference definition: the token sequence of a text, read
    from its first byte. The `Lexer` class is the source's lexer struct, whose
    methods advance `pos` and append to `tokens`; each is proved to do what
    `Lexed` says. The lemmas below state what the tokenizer promises. */
module Lexer {
  import opened Common

  datatype Kind =
    | EOF | LBrace | RBrace | LBracket | RBracket | Comma | Equals
    | StringTok | NumberTok | BoolTok | NilTok | IdentTok

  datatype Token = Token(kind: Kind, value: string)

  const EofToken := Token(EOF, "")

  predicate IsAlpha(c: char) { ('a' <= c <= 'z') || ('A' <= c <= 'Z') }

  predicate IsSpace(c: char) { c == ' ' || c == '\t' || c == '\n' || c == '\r' }

  predicate IsIdentChar(c: char) { IsAlpha(c) || IsDecimalDigit(c) || c == '_' }

  /** The kind of a one-byte structural token. */
  function Punct(c: char): Option<Kind>
  {
    match c
    case '{' => Some(LBrace)
    case '}' => Some(RBrace)
    case '[' => Some(LBracket)
    case ']' => Some(RBracket)
    case ',' => Some(Comma)
    case '=' => Some(Equals)
    case _ => None
  }

  predicate StartsComment(s: string) { |s| > 1 && s[0] == '-' && s[1] == '-' }

  predicate StartsNumber(s: string)
  {
    s != [] && (IsDecimalDigit(s[0]) || (s[0] == '-' && |s| > 1 && IsDecimalDigit(s[1])))
  }

  /** Length of the longest prefix of digits. */
  function DigitRun(s: string): (n: nat)
    ensures n <= |s|
    ensures forall j :: 0 <= j < n ==> IsDecimalDigit(s[j])
    ensures n < |s| ==> !IsDecimalDigit(s[n])
    decreases |s|
  {
    if s == [] || !IsDecimalDigit(s[0]) then 0 else 1 + DigitRun(s[1..])
  }

  /** Length of the longest prefix of letters, digits and underscores. */
  function IdentRun(s: string): (n: nat)
    ensures n <= |s|
    ensures forall j :: 0 <= j < n ==> IsIdentChar(s[j])
    ensures n < |s| ==> !IsIdentChar(s[n])
    decreases |s|
  {
    if s == [] || !IsIdentChar(s[0]) then 0 else 1 + IdentRun(s[1..])
  }

  /** Where the string-scanning loop stops, counted from the byte after the
      opening quote: at the closing quote, or past the end. A backslash moves
      the scan two bytes on, so a backslash as the very last byte leaves it at
      |b| + 1, one past the end. */
  function StringScan(b: string): (e: nat)
    ensures e <= |b| + 1
    ensures e == |b| + 1 ==> b != [] && b[|b| - 1] == '\\'
    ensures e < |b| ==> b[e] == '"'
    decreases |b|
  {
    if b == [] || b[0] == '"' then 0
    else if b[0] == '\\' then (if |b| == 1 then 2 else 2 + StringScan(b[2..]))
    else 1 + StringScan(b[1..])
  }


  /** The value of the string token that starts s: the bytes between the
      quotes, cut at the end of the input. */
  function StringValue(s: string): string
    requires s != [] && s[0] == '"'
  {
    var b := s[1..];
    b[..Min(StringScan(b), |b|)]
  }

  /** What is left after the string token that starts s (its closing quote skipped). */
  function AfterString(s: string): (r: string)
    requires s != [] && s[0] == '"'
    ensures |r| < |s|
  {
    var e := StringScan(s[1..]);
    if e + 2 <= |s| then s[e + 2..] else []
  }

  /** Length of the number token that starts s: an optional '-' and its digits. */
  function NumberLength(s: string): (n: nat)
    requires StartsNumber(s)
    ensures 0 < n <= |s|
  {
    var sign := if s[0] == '-' then 1 else 0;
    sign + DigitRun(s[sign..])
  }

  /** The token for an identifier-like word: the three reserved words are
      classified, anything else is an identifier carrying its text. */
  function KeywordToken(v: string): (t: Token)
    ensures t.kind != EOF
    ensures t.kind == BoolTok <==> v == "true" || v == "false"
    ensures t.kind == NilTok <==> v == "nil"
    ensures t.kind == IdentTok <==> v != "true" && v != "false" && v != "nil"
    ensures t.value == v
  {
    if v == "true" then Token(BoolTok, "true")
    else if v == "false" then Token(BoolTok, "false")
    else if v == "nil" then Token(NilTok, "nil")
    else Token(IdentTok, v)
  }

  /** One step of the tokenizer on a non-empty text: the token the step
      produces, if any, and the text left after it. */
  datatype Step = Step(token: Option<Token>, rest: string)

  function LexStep(s: string): (r: Step)
    requires s != []
    ensures |r.rest| < |s|
    ensures r.token.Some? ==> r.token.value.kind != EOF
  {
    if IsSpace(s[0]) then Step(None, s[1..])
    else if StartsComment(s) then Step(None, s[LineLength(s)..])
    else if Punct(s[0]).Some? then Step(Some(Token(Punct(s[0]).value, [s[0]])), s[1..])
    else if s[0] == '"' then Step(Some(Token(StringTok, StringValue(s))), AfterString(s))
    else if StartsNumber(s) then
      var n := NumberLength(s);
      Step(Some(Token(NumberTok, s[..n])), s[n..])
    else if IsAlpha(s[0]) then
      var n := IdentRun(s);
      Step(Some(KeywordToken(s[..n])), s[n..])
    else Step(None, s[1..])
  }

  function Emitted(st: Step): seq<Token>
  {
    if st.token.Some? then [st.token.value] else []
  }

  /** The token sequence of the text s. It never fails, and it ends with the
      one and only end-of-input token. */
  function Lexed(s: string): (ts: seq<Token>)
    ensures |ts| >= 1 && ts[|ts| - 1] == EofToken
    ensures forall i :: 0 <= i < |ts| - 1 ==> ts[i].kind != EOF
    decreases |s|
  {
    if s == [] then [EofToken]
    else
      var st := LexStep(s);
      Emitted(st) + Lexed(st.rest)
  }

  // Facts about one step of each scanning loop, stated on the whole input
  // and an index into it, which is how the Lexer class reads its input.

  lemma SpaceStep(s: string, i: nat)
    requires i < |s| && IsSpace(s[i])
    ensures LexStep(s[i..]) == Step(None, s[i + 1..])
  {
  }

  lemma LineLengthStep(s: string, i: nat)
    requires i < |s| && s[i] != '\n'
    ensures LineLength(s[i..]) == 1 + LineLength(s[i + 1..])
  {
    assert s[i..][1..] == s[i + 1..];
  }

  lemma CommentStep(s: string, i: nat, e: nat)
    requires i + 1 < |s| && s[i] == '-' && s[i + 1] == '-'
    requires i <= e <= |s| && LineLength(s[i..]) == (e - i) + LineLength(s[e..])
    requires e < |s| ==> s[e] == '\n'
    ensures LexStep(s[i..]) == Step(None, s[e..])
  {
    assert s[i..][e - i..] == s[e..];
  }

  lemma PunctStep(s: string, i: nat)
    requires i < |s| && Punct(s[i]).Some?
    ensures LexStep(s[i..]) == Step(Some(Token(Punct(s[i]).value, [s[i]])), s[i + 1..])
  {
    assert [s[i..][0]] == [s[i]];
  }

  lemma StringStep(s: string, i: nat)
    requires i < |s| && s[i] == '"'
    ensures LexStep(s[i..]) == Step(Some(Token(StringTok, StringValue(s[i..]))), AfterString(s[i..]))
  {
  }

  lemma NumberStep(s: string, i: nat)
    requires i < |s| && !IsSpace(s[i]) && Punct(s[i]).None? && s[i] != '"' && StartsNumber(s[i..])
    requires !StartsComment(s[i..])
    ensures var n := NumberLength(s[i..]);
      LexStep(s[i..]) == Step(Some(Token(NumberTok, s[i..][..n])), s[i..][n..])
  {
  }

  lemma IdentStep(s: string, i: nat)
    requires i < |s| && IsAlpha(s[i])
    ensures var n := IdentRun(s[i..]);
      LexStep(s[i..]) == Step(Some(KeywordToken(s[i..][..n])), s[i..][n..])
  {
  }

  lemma SkipStep(s: string, i: nat)
    requires i < |s| && !IsSpace(s[i]) && !StartsComment(s[i..]) && Punct(s[i]).None?
    requires s[i] != '"' && !StartsNumber(s[i..]) && !IsAlpha(s[i])
    ensures LexStep(s[i..]) == Step(None, s[i + 1..])
  {
  }

  lemma StringScanStep(s: string, i: nat)
    requires i < |s| && s[i] != '"'
    ensures s[i] == '\\' && i + 1 == |s| ==> StringScan(s[i..]) == 2
    ensures s[i] == '\\' && i + 1 < |s| ==> StringScan(s[i..]) == 2 + StringScan(s[i + 2..])
    ensures s[i] != '\\' ==> StringScan(s[i..]) == 1 + StringScan(s[i + 1..])
  {
    assert s[i..][1..] == s[i + 1..];
    if i + 1 < |s| { assert s[i..][2..] == s[i + 2..]; }
  }

  /** The string loop's invariant: the scan from start has covered
      i - start bytes, and what is left is the scan from i (nothing once
      the loop has jumped past the end of the input). */
  predicate StringScanned(s: string, start: nat, i: nat)
    requires start <= |s|
  {
    start <= i <= |s| + 1
    && (i <= |s| ==> StringScan(s[start..]) == (i - start) + StringScan(s[i..]))
    && (i == |s| + 1 ==> StringScan(s[start..]) == i - start)
  }

  lemma StringLoopStart(s: string, start: nat)
    requires start <= |s|
    ensures StringScanned(s, start, start)
  {
  }

  /** One iteration of the string loop keeps its invariant. */
  lemma StringLoopStep(s: string, start: nat, i: nat, j: nat)
    requires start <= i < |s| && s[i] != '"' && StringScanned(s, start, i)
    requires j == if s[i] == '\\' then i + 2 else i + 1
    ensures StringScanned(s, start, j)
  {
    StringScanStep(s, i);
  }

  /** After the string loop stops at e: the token value and what remains. */
  lemma StringEnd(s: string, p: nat, start: nat, e: nat)
    requires p < |s| && s[p] == '"' && start == p + 1 && StringScanned(s, start, e)
    requires e < |s| ==> s[e] == '"'
    ensures StringValue(s[p..]) == s[start..Min(e, |s|)]
    ensures AfterString(s[p..]) == if e + 1 <= |s| then s[e + 1..] else []
  {
    assert s[p..][1..] == s[start..];
    if e + 1 <= |s| { assert s[p..][e - p + 1..] == s[e + 1..]; }
  }

  /** The digit loop's invariant: the run from d has covered i - d bytes. */
  predicate DigitsScanned(s: string, d: nat, i: nat)
  {
    d <= i <= |s| && DigitRun(s[d..]) == (i - d) + DigitRun(s[i..])
  }

  lemma DigitRunStep(s: string, d: nat, i: nat)
    requires DigitsScanned(s, d, i) && i < |s| && IsDecimalDigit(s[i])
    ensures DigitsScanned(s, d, i + 1)
  {
    assert s[i..][1..] == s[i + 1..];
  }

  lemma NumberEnd(s: string, start: nat, d: nat, e: nat)
    requires start < |s| && StartsNumber(s[start..])
    requires d == start + (if s[start] == '-' then 1 else 0)
    requires DigitsScanned(s, d, e)
    requires e < |s| ==> !IsDecimalDigit(s[e])
    ensures NumberLength(s[start..]) == e - start
    ensures s[start..][..e - start] == s[start..e]
    ensures s[start..][e - start..] == s[e..]
  {
    var t := s[start..];
    assert t[0] == s[start];
    assert t[d - start..] == s[d..];
    assert e < |s| ==> s[e..][0] == s[e];
    assert DigitRun(s[e..]) == 0;
    assert NumberLength(t) == (d - start) + DigitRun(s[d..]);
  }

  /** The identifier scan has moved from d to i over identifier bytes. */
  predicate IdentScanned(s: string, d: nat, i: nat)
  {
    d <= i <= |s| && IdentRun(s[d..]) == (i - d) + IdentRun(s[i..])
  }

  lemma IdentRunStep(s: string, d: nat, i: nat)
    requires IdentScanned(s, d, i) && i < |s| && IsIdentChar(s[i])
    ensures IdentScanned(s, d, i + 1)
  {
    assert s[i..][1..] == s[i + 1..];
  }

  lemma IdentEnd(s: string, start: nat, e: nat)
    requires start < |s| && IsAlpha(s[start])
    requires IdentScanned(s, start, e)
    requires e < |s| ==> !IsIdentChar(s[e])
    ensures start < e
    ensures IdentRun(s[start..]) == e - start
    ensures s[start..][..e - start] == s[start..e]
    ensures s[start..][e - start..] == s[e..]
  {
    assert s[start..][0] == s[start];
  }

  /** Lexing a non-empty text is taking one step and lexing what is left. */
  lemma LexedStep(done: seq<Token>, s: string)
    requires s != []
    ensures done + Lexed(s) == (done + Emitted(LexStep(s))) + Lexed(LexStep(s).rest)
  {
    var st := LexStep(s);
    var e, r := Emitted(st), Lexed(st.rest);
    assert Lexed(s) == e + r;
    ConcatAssoc(done, e, r);
  }

  lemma ConcatAssoc(a: seq<Token>, b: seq<Token>, c: seq<Token>)
    ensures a + (b + c) == (a + b) + c
  {
  }

  class Lexer {
    const input: string
    var pos: int
    var tokens: seq<Token>

    constructor (input: string)
      ensures this.input == input && pos == 0 && tokens == []
    {
      this.input := input;
      pos := 0;
      tokens := [];
    }

    /** The part of the input not read yet. */
    function Rest(): string
      reads this
    {
      if 0 <= pos <= |input| then input[pos..] else []
    }

    /** lex: tokenizes the rest of the input and appends the end-of-input token. */
    method Lex() returns (r: seq<Token>)
      requires 0 <= pos
      modifies this
      ensures r == tokens == old(tokens) + Lexed(old(Rest()))
    {
      while pos < |input|
        invariant 0 <= pos
        invariant tokens + Lexed(Rest()) == old(tokens) + Lexed(old(Rest()))
        decreases |input| - pos
      {
        LexedStep(tokens, Rest());
        LexOne();
      }
      assert Rest() == [];
      tokens := tokens + [EofToken];
      r := tokens;
    }

    /** One iteration of lex's loop: skip a blank or a comment, or read one
        token, starting at a byte that is not past the end. */
    method LexOne()
      requires 0 <= pos < |input|
      modifies this
      ensures pos > old(pos)
      ensures tokens == old(tokens) + Emitted(LexStep(old(Rest())))
      ensures Rest() == LexStep(old(Rest())).rest
    {
      var ch := input[pos];
      if IsSpace(ch) {
        SpaceStep(input, pos);
        pos := pos + 1;
      } else if ch == '-' && pos + 1 < |input| && input[pos + 1] == '-' {
        ghost var start := pos;
        SkipComment();
        CommentStep(input, start, pos);
      } else if Punct(ch).Some? {
        PunctStep(input, pos);
        match ch {
          case '{' => tokens := tokens + [Token(LBrace, "{")];
          case '}' => tokens := tokens + [Token(RBrace, "}")];
          case '[' => tokens := tokens + [Token(LBracket, "[")];
          case ']' => tokens := tokens + [Token(RBracket, "]")];
          case ',' => tokens := tokens + [Token(Comma, ",")];
          case '=' => tokens := tokens + [Token(Equals, "=")];
        }
        pos := pos + 1;
      } else if ch == '"' {
        StringStep(input, pos);
        LexString();
      } else if IsDecimalDigit(ch) || (ch == '-' && pos + 1 < |input| && IsDecimalDigit(input[pos + 1])) {
        NumberStep(input, pos);
        LexNumber();
      } else if IsAlpha(ch) {
        IdentStep(input, pos);
        LexIdent();
      } else {
        SkipStep(input, pos);
        pos := pos + 1;
      }
    }

    /** The comment branch of lex's loop: skips to the end of the line. */
    method SkipComment()
      requires 0 <= pos && pos + 1 < |input| && input[pos] == '-' && input[pos + 1] == '-'
      modifies this
      ensures old(pos) < pos <= |input| && tokens == old(tokens)
      ensures LineLength(input[old(pos)..]) == (pos - old(pos)) + LineLength(input[pos..])
      ensures pos < |input| ==> input[pos] == '\n'
    {
      ghost var start := pos;
      while pos < |input| && input[pos] != '\n'
        invariant start <= pos <= |input|
        invariant tokens == old(tokens)
        invariant LineLength(input[start..]) == (pos - start) + LineLength(input[pos..])
        decreases |input| - pos
      {
        LineLengthStep(input, pos);
        pos := pos + 1;
      }
    }

    /** lexString, with the end of the value cut at the end of the input (see
        StringScan for what the source does instead). */
    method LexString()
      requires 0 <= pos < |input| && input[pos] == '"'
      modifies this
      ensures pos > old(pos)
      ensures tokens == old(tokens) + [Token(StringTok, StringValue(old(Rest())))]
      ensures Rest() == AfterString(old(Rest()))
    {
      ghost var p := pos;
      var start := pos + 1;
      var i := start;
      StringLoopStart(input, start);
      while i < |input| && input[i] != '"'
        invariant start <= i <= |input| + 1
        invariant pos == p && tokens == old(tokens)
        invariant StringScanned(input, start, i)
        decreases |input| + 1 - i
      {
        ghost var i0 := i;
        if input[i] == '\\' {
          i := i + 1;
        }
        i := i + 1;
        StringLoopStep(input, start, i0, i);
      }
      StringEnd(input, p, start, i);
      var stop := if i <= |input| then i else |input|;
      assert input[start..stop] == StringValue(input[p..]);
      pos := i + 1;
      tokens := tokens + [Token(StringTok, input[start..stop])];
    }

    /** lexNumber: an optional '-' followed by the longest run of digits. */
    method LexNumber()
      requires 0 <= pos < |input| && StartsNumber(input[pos..])
      modifies this
      ensures pos > old(pos)
      ensures tokens == old(tokens) + [Token(NumberTok, old(Rest())[..NumberLength(old(Rest()))])]
      ensures Rest() == old(Rest())[NumberLength(old(Rest()))..]
    {
      var start := pos;
      assert Rest() == input[start..];
      if input[pos] == '-' {
        pos := pos + 1;
      }
      ghost var digitsStart := pos;
      SkipDigits();
      NumberEnd(input, start, digitsStart, pos);
      tokens := tokens + [Token(NumberTok, input[start..pos])];
      assert Rest() == input[pos..];
    }

    /** The digit loop of lexNumber: moves past the run of digits. */
    method SkipDigits()
      requires 0 <= pos <= |input|
      modifies this
      ensures old(pos) <= pos <= |input| && tokens == old(tokens)
      ensures DigitsScanned(input, old(pos), pos)
      ensures pos < |input| ==> !IsDecimalDigit(input[pos])
    {
      ghost var digitsStart := pos;
      while pos < |input| && IsDecimalDigit(input[pos])
        invariant tokens == old(tokens)
        invariant DigitsScanned(input, digitsStart, pos)
        decreases |input| - pos
      {
        DigitRunStep(input, digitsStart, pos);
        pos := pos + 1;
      }
    }

    /** The loop of lexIdent: moves past the run of identifier bytes. */
    method SkipIdent()
      requires 0 <= pos <= |input|
      modifies this
      ensures old(pos) <= pos <= |input| && tokens == old(tokens)
      ensures IdentScanned(input, old(pos), pos)
      ensures pos < |input| ==> !IsIdentChar(input[pos])
    {
      ghost var identStart := pos;
      while pos < |input| && (IsAlpha(input[pos]) || IsDecimalDigit(input[pos]) || input[pos] == '_')
        invariant tokens == old(tokens)
        invariant IdentScanned(input, identStart, pos)
        decreases |input| - pos
      {
        IdentRunStep(input, identStart, pos);
        pos := pos + 1;
      }
    }

    /** lexIdent: the longest run of letters, digits and underscores, with the
        reserved words classified. */
    method LexIdent()
      requires 0 <= pos < |input| && IsAlpha(input[pos])
      modifies this
      ensures pos > old(pos)
      ensures tokens == old(tokens) + [KeywordToken(old(Rest())[..IdentRun(old(Rest()))])]
      ensures Rest() == old(Rest())[IdentRun(old(Rest()))..]
    {
      var start := pos;
      assert Rest() == input[start..];
      SkipIdent();
      IdentEnd(input, start, pos);
      var value := input[start..pos];
      var t;
      if value == "true" {
        t := Token(BoolTok, "true");
      } else if value == "false" {
        t := Token(BoolTok, "false");
      } else if value == "nil" {
        t := Token(NilTok, "nil");
      } else {
        t := Token(IdentTok, value);
      }
      assert t == KeywordToken(value);
      tokens := tokens + [t];
      assert Rest() == input[pos..];
    }
  }

  /** newLexer(input).lex(). */
  method Tokenize(input: string) returns (ts: seq<Token>)
    ensures ts == Lexed(input)
  {
    var l := new Lexer(input);
    ts := l.Lex();
  }
}
