/** The recursive-descent parser of the SavedVariables reader
    (pkg/lua/simple_parser.go): a cursor over the token sequence that builds
    nested string-keyed tables.

    `ValueAt`, `TableAt` and `EntriesAt` are the reference definitions: what
    parsing from token position p yields and where it stops. The `Parser`
    class is the source's parser struct, whose methods advance `pos`; its
    `ParseTable` and `ParseValue` are proved to compute the reference
    definitions.

    The table loop of the source makes no progress when the next token is
    neither `[`, `,`, `}` nor the end (as in `{ "a" }` or `{ x }`), and then
    runs forever. The model does not hide this: such a parse ends in the
    outcome `Diverges(p)`, naming the position where the source would spin. */
module TableParser {
  import opened Common
  import opened Lexer

  /** The values a parsed table holds (the source's interface{} values). */
  datatype Value =
    | Str(s: string)
    | Int(n: int64)
    | Bool(b: bool)
    | Nil
    | Table(t: map<string, Value>)

  /** Why a parse did not produce a value. */
  datatype Failure =
    | Expected(want: Kind, got: Kind)  // expect: "expected %v, got %v"
    | Unexpected(got: Kind)            // parseValue: "unexpected token: %v"
    | Diverges(at: nat)                // parseTable's loop would not terminate

  /** A parse from some position: a value and the position after it. */
  datatype Parsed<T> = Done(value: T, next: nat) | Failed(failure: Failure)

  datatype Result<T> = Ok(value: T) | Err(failure: Failure)

  function Outcome<T>(r: Parsed<T>): Result<T>
  {
    match r
    case Done(v, _) => Ok(v)
    case Failed(f) => Err(f)
  }

  /** peek: the token at p, or the end-of-input token past the end. */
  function PeekAt(ts: seq<Token>, p: nat): (t: Token)
    ensures p >= |ts| ==> t == EofToken
  {
    if p < |ts| then ts[p] else EofToken
  }

  /** Tokens left from p on, the measure of the recursion. */
  function Left(ts: seq<Token>, p: nat): nat
  {
    if p <= |ts| then |ts| - p else 0
  }

  /** number values: strconv.ParseInt with its error ignored, so an
      out-of-range numeral yields the nearest int64 bound. */
  function NumberValue(text: string): int64
  {
    ParseInt(text).value
  }

  /** parseValue from position p. */
  function ValueAt(ts: seq<Token>, p: nat): (r: Parsed<Value>)
    ensures r.Done? ==> p < r.next <= |ts|
    decreases Left(ts, p), 2
  {
    var t := PeekAt(ts, p);
    match t.kind
    case LBrace =>
      (match TableAt(ts, p)
       case Done(m, q) => Done(Table(m), q)
       case Failed(f) => Failed(f))
    case StringTok => Done(Str(t.value), p + 1)
    case NumberTok => Done(Int(NumberValue(t.value)), p + 1)
    case BoolTok => Done(Bool(t.value == "true"), p + 1)
    case NilTok => Done(Nil, p + 1)
    case _ => Failed(Unexpected(t.kind))
  }

  /** parseTable from position p: a `{`, then the entries. */
  function TableAt(ts: seq<Token>, p: nat): (r: Parsed<map<string, Value>>)
    ensures r.Done? ==> p < r.next <= |ts|
    decreases Left(ts, p), 1
  {
    var t := PeekAt(ts, p);
    if t.kind != LBrace then Failed(Expected(LBrace, t.kind))
    else EntriesAt(ts, p + 1, map[])
  }

  /** The loop of parseTable at position p, with the entries read so far in
      acc: `["k"] = value` entries, each optionally followed by a comma, and
      stray commas, up to the closing `}`. A later key overwrites an earlier
      one. */
  function EntriesAt(ts: seq<Token>, p: nat, acc: map<string, Value>): (r: Parsed<map<string, Value>>)
    ensures r.Done? ==> p < r.next <= |ts|
    decreases Left(ts, p), 0
  {
    var t := PeekAt(ts, p);
    if t.kind == RBrace then Done(acc, p + 1)
    else if t.kind == EOF then Failed(Expected(RBrace, EOF))
    else if t.kind == LBracket then
      var key := PeekAt(ts, p + 1);
      if key.kind != StringTok then Failed(Expected(StringTok, key.kind))
      else if PeekAt(ts, p + 2).kind != RBracket then Failed(Expected(RBracket, PeekAt(ts, p + 2).kind))
      else if PeekAt(ts, p + 3).kind != Equals then Failed(Expected(Equals, PeekAt(ts, p + 3).kind))
      else
        match ValueAt(ts, p + 4)
        case Failed(f) => Failed(f)
        case Done(v, q) =>
          var q' := if PeekAt(ts, q).kind == Comma then q + 1 else q;
          EntriesAt(ts, q', acc[key.value := v])
    else if t.kind == Comma then EntriesAt(ts, p + 1, acc)
    else Failed(Diverges(p))
  }

  /** The entry case of EntriesAt, one check at a time. */
  lemma EntryCases(ts: seq<Token>, p: nat, acc: map<string, Value>)
    requires PeekAt(ts, p).kind == LBracket
    ensures PeekAt(ts, p + 1).kind != StringTok ==>
      EntriesAt(ts, p, acc) == Failed(Expected(StringTok, PeekAt(ts, p + 1).kind))
    ensures PeekAt(ts, p + 1).kind == StringTok && PeekAt(ts, p + 2).kind != RBracket ==>
      EntriesAt(ts, p, acc) == Failed(Expected(RBracket, PeekAt(ts, p + 2).kind))
    ensures (PeekAt(ts, p + 1).kind == StringTok && PeekAt(ts, p + 2).kind == RBracket
             && PeekAt(ts, p + 3).kind != Equals) ==>
      EntriesAt(ts, p, acc) == Failed(Expected(Equals, PeekAt(ts, p + 3).kind))
    ensures (PeekAt(ts, p + 1).kind == StringTok && PeekAt(ts, p + 2).kind == RBracket
             && PeekAt(ts, p + 3).kind == Equals && ValueAt(ts, p + 4).Failed?) ==>
      EntriesAt(ts, p, acc) == Failed(ValueAt(ts, p + 4).failure)
    ensures (PeekAt(ts, p + 1).kind == StringTok && PeekAt(ts, p + 2).kind == RBracket
             && PeekAt(ts, p + 3).kind == Equals && ValueAt(ts, p + 4).Done?) ==>
      var q := ValueAt(ts, p + 4).next;
      EntriesAt(ts, p, acc)
        == EntriesAt(ts, if PeekAt(ts, q).kind == Comma then q + 1 else q, acc[PeekAt(ts, p + 1).value := ValueAt(ts, p + 4).value])
  {
  }

  /** Where the loop of parseTable goes on after an entry: past the comma
      that follows it, if any. */
  function AfterComma(ts: seq<Token>, p: nat): nat
  {
    if PeekAt(ts, p).kind == Comma then p + 1 else p
  }

  /** A comma where an entry could start is skipped. */
  lemma StrayComma(ts: seq<Token>, p: nat, acc: map<string, Value>)
    requires PeekAt(ts, p).kind == Comma
    ensures EntriesAt(ts, p, acc) == EntriesAt(ts, p + 1, acc)
  {
  }

  class Parser {
    const tokens: seq<Token>
    var pos: nat

    constructor (tokens: seq<Token>)
      ensures this.tokens == tokens && pos == 0
    {
      this.tokens := tokens;
      pos := 0;
    }

    /** peek */
    function Peek(): Token
      reads this
    {
      PeekAt(tokens, pos)
    }

    /** next: the current token; the cursor moves on even past the end. */
    method Next() returns (t: Token)
      modifies this
      ensures t == PeekAt(tokens, old(pos)) && pos == old(pos) + 1
    {
      t := Peek();
      pos := pos + 1;
    }

    /** expect: consumes one token whatever it is, and reports whether it
        was of kind k. */
    method Expect(k: Kind) returns (t: Token, ok: bool)
      modifies this
      ensures t == PeekAt(tokens, old(pos)) && pos == old(pos) + 1
      ensures ok <==> t.kind == k
    {
      t := Next();
      ok := t.kind == k;
    }

    /** parseTable */
    method ParseTable() returns (r: Result<map<string, Value>>)
      modifies this
      ensures r == Outcome(TableAt(tokens, old(pos)))
      ensures r.Ok? ==> pos == TableAt(tokens, old(pos)).next
      decreases Left(tokens, pos), 1
    {
      ghost var p0 := pos;
      var result: map<string, Value> := map[];
      var open, ok := Expect(LBrace);
      if !ok {
        return Err(Expected(LBrace, open.kind));
      }
      while Peek().kind != RBrace && Peek().kind != EOF
        invariant p0 < pos <= |tokens|
        invariant EntriesAt(tokens, pos, result) == TableAt(tokens, p0)
        decreases Left(tokens, pos)
      {
        if Peek().kind == LBracket {
          var key, v := ParseEntry(result);
          if v.Err? {
            return Err(v.failure);
          }
          result := result[key := v.value];
        } else if Peek().kind != Comma {
          // The source's loop would run forever from here.
          return Err(Diverges(pos));
        } else {
          StrayComma(tokens, pos, result);
          assert AfterComma(tokens, pos) == pos + 1;
        }
        ghost var next := AfterComma(tokens, pos);
        if Peek().kind == Comma {
          var _ := Next();
        }
        assert pos == next;
      }
      var close, okClose := Expect(RBrace);
      if !okClose {
        return Err(Expected(RBrace, close.kind));
      }
      r := Ok(result);
    }

    /** The entry branch of parseTable's loop: `[`, the key, `]`, `=` and the
        value; what the loop then goes on with is the table's spec from there. */
    method ParseEntry(ghost acc: map<string, Value>) returns (key: string, r: Result<Value>)
      requires Peek().kind == LBracket
      modifies this
      ensures r.Err? ==> EntriesAt(tokens, old(pos), acc) == Failed(r.failure)
      ensures r.Ok? ==> old(pos) < pos <= |tokens|
      ensures r.Ok? ==> EntriesAt(tokens, old(pos), acc) == EntriesAt(tokens, AfterComma(tokens, pos), acc[key := r.value])
      decreases Left(tokens, pos), 0
    {
      ghost var p := pos;
      EntryCases(tokens, p, acc);
      var _ := Next();
      var k, okKey := Expect(StringTok);
      if !okKey {
        return "", Err(Expected(StringTok, k.kind));
      }
      var close, okClose := Expect(RBracket);
      if !okClose {
        return "", Err(Expected(RBracket, close.kind));
      }
      var eq, okEq := Expect(Equals);
      if !okEq {
        return "", Err(Expected(Equals, eq.kind));
      }
      var v := ParseValue();
      if v.Err? {
        return "", Err(v.failure);
      }
      return k.value, Ok(v.value);
    }

    /** parseValue */
    method ParseValue() returns (r: Result<Value>)
      modifies this
      ensures r == Outcome(ValueAt(tokens, old(pos)))
      ensures r.Ok? ==> pos == ValueAt(tokens, old(pos)).next
      decreases Left(tokens, pos), 2
    {
      var t := Peek();
      match t.kind {
        case LBrace =>
          var m := ParseTable();
          r := if m.Ok? then Ok(Table(m.value)) else Err(m.failure);
        case StringTok =>
          var _ := Next();
          r := Ok(Str(t.value));
        case NumberTok =>
          var _ := Next();
          r := Ok(Int(ParseInt(t.value).value));
        case BoolTok =>
          var _ := Next();
          r := Ok(Bool(t.value == "true"));
        case NilTok =>
          var _ := Next();
          r := Ok(Nil);
        case _ =>
          r := Err(Unexpected(t.kind));
      }
    }
  }
}
