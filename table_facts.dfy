/** What the table parser promises. A table literal is written down as a
    `Lit` tree; `Tokens` is its token text and `Eval` the value it denotes,
    with a later entry for a key overwriting an earlier one. The parser reads
    every literal's tokens back as its value (`ValueAtLit`), and everything
    it accepts is the token text of some literal (`ValueAtIsLit`), so the
    keys of a parsed table are exactly the keys written in it. */
module TableFacts {
  import opened Common
  import opened Lexer
  import opened TableParser

  /** A value as written in a SavedVariables file. */
  datatype Lit =
    | LStr(s: string)
    | LNum(text: string)
    | LBool(b: bool)
    | LNil
    | LTable(items: seq<Item>)

  /** Inside a table: a `["key"] = value` entry, or a comma. */
  datatype Item = Pair(key: string, value: Lit) | Sep

  const LBraceToken := Token(LBrace, "{")
  const RBraceToken := Token(RBrace, "}")

  function Tokens(l: Lit): seq<Token>
    decreases l, 2
  {
    match l
    case LStr(s) => [Token(StringTok, s)]
    case LNum(text) => [Token(NumberTok, text)]
    case LBool(b) => [Token(BoolTok, if b then "true" else "false")]
    case LNil => [Token(NilTok, "nil")]
    case LTable(items) => [LBraceToken] + ItemsTokens(items) + [RBraceToken]
  }

  function ItemsTokens(items: seq<Item>): seq<Token>
    decreases items, 1
  {
    if items == [] then [] else ItemTokens(items[0]) + ItemsTokens(items[1..])
  }

  function ItemTokens(it: Item): seq<Token>
    decreases it, 0
  {
    match it
    case Sep => [Token(Comma, ",")]
    case Pair(k, v) => KeyTokens(k) + Tokens(v)
  }

  /** `[ "k" ] =` */
  function KeyTokens(k: string): seq<Token>
  {
    [Token(LBracket, "["), Token(StringTok, k), Token(RBracket, "]"), Token(Equals, "=")]
  }

  /** The value a literal denotes. */
  function Eval(l: Lit): Value
  {
    match l
    case LStr(s) => Str(s)
    case LNum(text) => Int(NumberValue(text))
    case LBool(b) => Bool(b)
    case LNil => Nil
    case LTable(items) => Table(EvalItems(items, map[]))
  }

  /** The table the entries denote, entered in order into acc. */
  function EvalItems(items: seq<Item>, acc: map<string, Value>): map<string, Value>
  {
    if items == [] then acc
    else
      match items[0]
      case Sep => EvalItems(items[1..], acc)
      case Pair(k, v) => EvalItems(items[1..], acc[k := Eval(v)])
  }

  /** The tokens from position p on start with x. */
  predicate Holds(ts: seq<Token>, p: nat, x: seq<Token>)
  {
    p + |x| <= |ts| && ts[p..p + |x|] == x
  }

  lemma HoldsSplit(ts: seq<Token>, p: nat, a: seq<Token>, b: seq<Token>)
    requires Holds(ts, p, a + b)
    ensures Holds(ts, p, a) && Holds(ts, p + |a|, b)
  {
    assert ts[p..p + |a|] == (a + b)[..|a|];
    assert ts[p + |a|..p + |a| + |b|] == (a + b)[|a|..];
  }

  /** The three-part form of HoldsSplit; m is where the third part starts. */
  lemma HoldsSplit3(ts: seq<Token>, p: nat, m: nat, a: seq<Token>, b: seq<Token>, c: seq<Token>)
    requires Holds(ts, p, a + (b + c)) && m == |a| + |b|
    ensures Holds(ts, p, a) && Holds(ts, p + |a|, b) && Holds(ts, p + m, c)
  {
    HoldsSplit(ts, p, a, b + c);
    HoldsSplit(ts, p + |a|, b, c);
  }

  lemma HoldsJoin(ts: seq<Token>, p: nat, a: seq<Token>, b: seq<Token>)
    requires Holds(ts, p, a) && Holds(ts, p + |a|, b)
    ensures Holds(ts, p, a + b)
  {
    assert ts[p..p + |a| + |b|] == ts[p..p + |a|] + ts[p + |a|..p + |a| + |b|];
  }

  lemma HoldsOne(ts: seq<Token>, p: nat)
    requires p < |ts|
    ensures Holds(ts, p, [ts[p]])
  {
    assert ts[p..p + 1][0] == ts[p];
  }

  lemma HoldsComma(ts: seq<Token>, q: nat)
    requires q < |ts| && ts[q] == Token(Comma, ",")
    ensures Holds(ts, q, [Token(Comma, ",")])
  {
    assert ts[q..q + 1] == [ts[q]];
  }

  lemma HoldsAt(ts: seq<Token>, p: nat, x: seq<Token>, i: nat)
    requires Holds(ts, p, x) && i < |x|
    ensures PeekAt(ts, p + i) == x[i]
  {
    assert ts[p..p + |x|][i] == ts[p + i];
  }

  lemma Regroup(a: seq<Token>, b: seq<Token>, c: seq<Token>, d: seq<Token>)
    ensures (a + b) + c + d == a + (b + (c + d))
  {
  }

  /** One entry of parseTable's loop, unfolded. */
  lemma EntriesAtEntry(ts: seq<Token>, p: nat, acc: map<string, Value>, key: string, v: Value, q: nat)
    requires PeekAt(ts, p).kind == LBracket && PeekAt(ts, p + 1) == Token(StringTok, key)
    requires PeekAt(ts, p + 2).kind == RBracket && PeekAt(ts, p + 3).kind == Equals
    requires ValueAt(ts, p + 4) == Done(v, q)
    ensures EntriesAt(ts, p, acc) == EntriesAt(ts, if PeekAt(ts, q).kind == Comma then q + 1 else q, acc[key := v])
  {
  }

  /** Soundness: the parser reads a literal's tokens back as its value, and
      stops right after them. */
  lemma {:induction false} ValueAtLit(ts: seq<Token>, p: nat, l: Lit)
    requires Holds(ts, p, Tokens(l))
    ensures ValueAt(ts, p) == Done(Eval(l), p + |Tokens(l)|)
    decreases l, 2
  {
    if l.LTable? {
      TableLitAt(ts, p, l);
    } else {
      HoldsAt(ts, p, Tokens(l), 0);
    }
  }

  /** The table case of ValueAtLit. */
  lemma {:induction false} TableLitAt(ts: seq<Token>, p: nat, l: Lit)
    requires l.LTable? && Holds(ts, p, Tokens(l))
    ensures ValueAt(ts, p) == Done(Eval(l), p + |Tokens(l)|)
    decreases l, 1
  {
    var body := ItemsTokens(l.items);
    TableTokens(l);
    HoldsAt(ts, p, [LBraceToken] + (body + [RBraceToken]), 0);
    HoldsSplit(ts, p, [LBraceToken], body + [RBraceToken]);
    EntriesAtItems(ts, p + 1, l.items, map[]);
  }

  lemma TableTokens(l: Lit)
    requires l.LTable?
    ensures Tokens(l) == [LBraceToken] + (ItemsTokens(l.items) + [RBraceToken])
    ensures |Tokens(l)| == |ItemsTokens(l.items)| + 2
  {
  }

  lemma {:induction false} EntriesAtItems(ts: seq<Token>, p: nat, items: seq<Item>, acc: map<string, Value>)
    requires Holds(ts, p, ItemsTokens(items) + [RBraceToken])
    ensures EntriesAt(ts, p, acc) == Done(EvalItems(items, acc), p + |ItemsTokens(items)| + 1)
    decreases items, 1
  {
    if items == [] {
      HoldsAt(ts, p, ItemsTokens(items) + [RBraceToken], 0);
      assert EntriesAt(ts, p, acc) == Done(acc, p + 1);
    } else if items[0].Sep? {
      SepAtItems(ts, p, items, acc);
    } else {
      PairAtItems(ts, p, items, acc);
    }
  }

  /** The case of EntriesAtItems where the entries start with a comma. */
  lemma {:induction false} SepAtItems(ts: seq<Token>, p: nat, items: seq<Item>, acc: map<string, Value>)
    requires items != [] && items[0].Sep?
    requires Holds(ts, p, ItemsTokens(items) + [RBraceToken])
    ensures EntriesAt(ts, p, acc) == Done(EvalItems(items, acc), p + |ItemsTokens(items)| + 1)
    decreases items, 0, 1
  {
    LeadingSepTokens(items);
    HoldsAt(ts, p, [Token(Comma, ",")] + (ItemsTokens(items[1..]) + [RBraceToken]), 0);
    HoldsSplit(ts, p, [Token(Comma, ",")], ItemsTokens(items[1..]) + [RBraceToken]);
    StrayComma(ts, p, acc);
    assert EvalItems(items, acc) == EvalItems(items[1..], acc);
    EntriesAtItems(ts, p + 1, items[1..], acc);
  }

  /** The case of EntriesAtItems where the entries start with a pair. */
  lemma {:induction false} PairAtItems(ts: seq<Token>, p: nat, items: seq<Item>, acc: map<string, Value>)
    requires items != [] && items[0].Pair?
    requires Holds(ts, p, ItemsTokens(items) + [RBraceToken])
    ensures EntriesAt(ts, p, acc) == Done(EvalItems(items, acc), p + |ItemsTokens(items)| + 1)
    decreases items, 0, 2
  {
    var k, v := items[0].key, items[0].value;
    PairParts(ts, p, items);
    PairHead(ts, p, k, v, acc, items);
    PairAtParts(ts, p, k, v, items[1..], acc);
    EvalItemsPair(items, acc);
  }

  /** PairAtItems once the leading pair (k, v) is read: the loop goes on with
      the remaining items. */
  lemma {:induction false} PairAtParts(ts: seq<Token>, p: nat, k: string, v: Lit, rest: seq<Item>, acc: map<string, Value>)
    requires Holds(ts, p + 4 + |Tokens(v)|, ItemsTokens(rest) + [RBraceToken])
    requires EntriesAt(ts, p, acc) == EntriesAt(ts, AfterComma(ts, p + 4 + |Tokens(v)|), acc[k := Eval(v)])
    ensures EntriesAt(ts, p, acc)
      == Done(EvalItems(rest, acc[k := Eval(v)]), p + 4 + |Tokens(v)| + |ItemsTokens(rest)| + 1)
    decreases rest, 3
  {
    PairThenItems(ts, p + 4 + |Tokens(v)|, rest, acc[k := Eval(v)]);
  }

  /** The leading pair itself: the loop then goes on past it and the comma
      after it, with the pair added. */
  lemma {:induction false} PairHead(ts: seq<Token>, p: nat, k: string, v: Lit, acc: map<string, Value>, items: seq<Item>)
    requires items != [] && items[0] == Pair(k, v)
    requires Holds(ts, p, KeyTokens(k)) && Holds(ts, p + 4, Tokens(v))
    ensures EntriesAt(ts, p, acc) == EntriesAt(ts, AfterComma(ts, p + 4 + |Tokens(v)|), acc[k := Eval(v)])
    decreases items, 0, 0
  {
    KeyAt(ts, p, k);
    ValueAtLit(ts, p + 4, v);
    EntriesAtEntry(ts, p, acc, k, Eval(v), p + 4 + |Tokens(v)|);
  }

  lemma EvalItemsPair(items: seq<Item>, acc: map<string, Value>)
    requires items != [] && items[0].Pair?
    ensures EvalItems(items, acc) == EvalItems(items[1..], acc[items[0].key := Eval(items[0].value)])
  {
  }

  /** Where the parts of a leading pair sit in the tokens. */
  lemma PairParts(ts: seq<Token>, p: nat, items: seq<Item>)
    requires items != [] && items[0].Pair?
    requires Holds(ts, p, ItemsTokens(items) + [RBraceToken])
    ensures Holds(ts, p, KeyTokens(items[0].key)) && Holds(ts, p + 4, Tokens(items[0].value))
    ensures Holds(ts, p + 4 + |Tokens(items[0].value)|, ItemsTokens(items[1..]) + [RBraceToken])
    ensures |ItemsTokens(items)| == 4 + |Tokens(items[0].value)| + |ItemsTokens(items[1..])|
    ensures |KeyTokens(items[0].key)| == 4
  {
    LeadingPairTokens(items);
    PairPartsOf(ts, p, items[0].key, Tokens(items[0].value), ItemsTokens(items[1..]) + [RBraceToken]);
  }

  lemma PairPartsOf(ts: seq<Token>, p: nat, k: string, vt: seq<Token>, rest: seq<Token>)
    requires Holds(ts, p, KeyTokens(k) + (vt + rest))
    ensures Holds(ts, p, KeyTokens(k)) && Holds(ts, p + 4, vt) && Holds(ts, p + 4 + |vt|, rest)
  {
    HoldsSplit3(ts, p, 4 + |vt|, KeyTokens(k), vt, rest);
  }

  lemma LeadingPairTokens(items: seq<Item>)
    requires items != [] && items[0].Pair?
    ensures ItemsTokens(items) + [RBraceToken]
      == KeyTokens(items[0].key) + (Tokens(items[0].value) + (ItemsTokens(items[1..]) + [RBraceToken]))
    ensures |ItemsTokens(items)| == 4 + |Tokens(items[0].value)| + |ItemsTokens(items[1..])|
    ensures |KeyTokens(items[0].key)| == 4
  {
    var k, v := items[0].key, items[0].value;
    var tail := ItemsTokens(items[1..]);
    assert ItemsTokens(items) == ItemTokens(items[0]) + tail;
    assert ItemTokens(items[0]) == KeyTokens(k) + Tokens(v);
    Regroup(KeyTokens(k), Tokens(v), tail, [RBraceToken]);
  }

  /** The four tokens of a key, one by one. */
  lemma KeyAt(ts: seq<Token>, p: nat, k: string)
    requires Holds(ts, p, KeyTokens(k))
    ensures PeekAt(ts, p).kind == LBracket && PeekAt(ts, p + 1) == Token(StringTok, k)
    ensures PeekAt(ts, p + 2).kind == RBracket && PeekAt(ts, p + 3).kind == Equals
  {
    HoldsAt(ts, p, KeyTokens(k), 0);
    HoldsAt(ts, p, KeyTokens(k), 1);
    HoldsAt(ts, p, KeyTokens(k), 2);
    HoldsAt(ts, p, KeyTokens(k), 3);
  }

  lemma LeadingSepTokens(items: seq<Item>)
    requires items != [] && items[0].Sep?
    ensures ItemsTokens(items) + [RBraceToken] == [Token(Comma, ",")] + (ItemsTokens(items[1..]) + [RBraceToken])
    ensures |ItemsTokens(items)| == 1 + |ItemsTokens(items[1..])|
  {
    assert ItemsTokens(items) == [Token(Comma, ",")] + ItemsTokens(items[1..]);
  }

  /** After an entry: the loop consumes the optional comma and goes on. */
  lemma {:induction false} PairThenItems(ts: seq<Token>, q: nat, rest: seq<Item>, acc: map<string, Value>)
    requires Holds(ts, q, ItemsTokens(rest) + [RBraceToken])
    ensures EntriesAt(ts, AfterComma(ts, q), acc) == Done(EvalItems(rest, acc), q + |ItemsTokens(rest)| + 1)
    decreases rest, 2
  {
    HoldsAt(ts, q, ItemsTokens(rest) + [RBraceToken], 0);
    FirstTokenKind(rest);
    if rest != [] && rest[0].Sep? {
      LeadingSepTokens(rest);
      HoldsSplit(ts, q, [Token(Comma, ",")], ItemsTokens(rest[1..]) + [RBraceToken]);
      assert EvalItems(rest, acc) == EvalItems(rest[1..], acc);
      EntriesAtItems(ts, q + 1, rest[1..], acc);
    } else {
      EntriesAtItems(ts, q, rest, acc);
    }
  }

  /** The entries open with a comma exactly when the first item is one. */
  lemma FirstTokenKind(items: seq<Item>)
    ensures ((ItemsTokens(items) + [RBraceToken])[0].kind == Comma) == (items != [] && items[0].Sep?)
  {
    if items != [] {
      assert ItemsTokens(items) == ItemTokens(items[0]) + ItemsTokens(items[1..]);
      if items[0].Pair? {
        assert ItemTokens(items[0])[0] == Token(LBracket, "[");
      }
    }
  }

  /** Completeness: whatever the parser accepts from p is the token text of
      some literal; the lemma names it. */
  lemma {:induction false} ValueAtIsLit(ts: seq<Token>, p: nat) returns (l: Lit)
    requires forall i {:trigger Canonical(ts[i])} :: 0 <= i < |ts| ==> Canonical(ts[i])
    requires ValueAt(ts, p).Done?
    ensures Holds(ts, p, Tokens(l)) && ValueAt(ts, p).next == p + |Tokens(l)|
    decreases Left(ts, p), 3
  {
    var t := PeekAt(ts, p);
    assert t == ts[p];
    if t.kind == LBrace {
      var items := TableAtIsLit(ts, p);
      l := LTable(items);
    } else {
      l := ScalarLit(t);
      assert Canonical(ts[p]);
      assert Tokens(l) == [t];
      HoldsOne(ts, p);
    }
  }

  /** The literal a scalar value token was written as. */
  function ScalarLit(t: Token): (l: Lit)
    requires t.kind in {StringTok, NumberTok, BoolTok, NilTok} && Canonical(t)
    ensures Tokens(l) == [t]
  {
    match t.kind
    case StringTok => LStr(t.value)
    case NumberTok => LNum(t.value)
    case BoolTok => LBool(t.value == "true")
    case _ => LNil
  }

  lemma {:induction false} TableAtIsLit(ts: seq<Token>, p: nat) returns (items: seq<Item>)
    requires forall i {:trigger Canonical(ts[i])} :: 0 <= i < |ts| ==> Canonical(ts[i])
    requires TableAt(ts, p).Done?
    ensures Holds(ts, p, Tokens(LTable(items))) && TableAt(ts, p).next == p + |Tokens(LTable(items))|
    decreases Left(ts, p), 2
  {
    assert PeekAt(ts, p) == ts[p] && Canonical(ts[p]);
    assert ts[p] == LBraceToken;
    items := EntriesAtIsItems(ts, p + 1, map[]);
    HoldsOne(ts, p);
    HoldsJoin(ts, p, [LBraceToken], ItemsTokens(items) + [RBraceToken]);
    assert [LBraceToken] + (ItemsTokens(items) + [RBraceToken]) == Tokens(LTable(items));
  }

  lemma {:induction false} EntriesAtIsItems(ts: seq<Token>, p: nat, acc: map<string, Value>) returns (items: seq<Item>)
    requires forall i {:trigger Canonical(ts[i])} :: 0 <= i < |ts| ==> Canonical(ts[i])
    requires EntriesAt(ts, p, acc).Done?
    ensures Holds(ts, p, ItemsTokens(items) + [RBraceToken])
    ensures EntriesAt(ts, p, acc).next == p + |ItemsTokens(items)| + 1
    decreases Left(ts, p), 1
  {
    var t := PeekAt(ts, p);
    assert t == ts[p] && Canonical(ts[p]);
    if t.kind == RBrace {
      items := [];
      HoldsOne(ts, p);
      assert ItemsTokens([]) + [RBraceToken] == [RBraceToken];
    } else if t.kind == Comma {
      var rest := EntriesAtIsItems(ts, p + 1, acc);
      HoldsOne(ts, p);
      assert ItemTokens(Sep) == [ts[p]];
      ItemsCons(ts, p, Sep, rest);
      items := [Sep] + rest;
    } else {
      items := EntryIsItems(ts, p, acc);
    }
  }

  /** The case of EntriesAtIsItems where an entry starts at p. */
  lemma {:induction false} EntryIsItems(ts: seq<Token>, p: nat, acc: map<string, Value>) returns (items: seq<Item>)
    requires forall i {:trigger Canonical(ts[i])} :: 0 <= i < |ts| ==> Canonical(ts[i])
    requires EntriesAt(ts, p, acc).Done? && PeekAt(ts, p).kind == LBracket
    ensures Holds(ts, p, ItemsTokens(items) + [RBraceToken])
    ensures EntriesAt(ts, p, acc).next == p + |ItemsTokens(items)| + 1
    decreases Left(ts, p), 0, 1
  {
    var key := ts[p + 1].value;
    EntryKey(ts, p, acc);
    var v := ValueAtIsLit(ts, p + 4);
    var q := p + 4 + |Tokens(v)|;
    var comma := PeekAt(ts, q).kind == Comma;
    var q' := if comma then q + 1 else q;
    EntryStep(ts, p, acc, key, v, q, q');
    assert q' <= |ts|;
    items := EntryRest(ts, p, acc, key, v, q, q');
  }

  /** The rest of EntryIsItems, once the key and the value are read. */
  lemma {:induction false} EntryRest(ts: seq<Token>, p: nat, acc: map<string, Value>, key: string, v: Lit, q: nat, q': nat)
    returns (items: seq<Item>)
    requires forall i {:trigger Canonical(ts[i])} :: 0 <= i < |ts| ==> Canonical(ts[i])
    requires Holds(ts, p, KeyTokens(key)) && Holds(ts, p + 4, Tokens(v))
    requires q == p + 4 + |Tokens(v)| && q' == (if PeekAt(ts, q).kind == Comma then q + 1 else q) && q' <= |ts|
    requires ValueAt(ts, p + 4).Done?
    requires EntriesAt(ts, p, acc) == EntriesAt(ts, q', acc[key := ValueAt(ts, p + 4).value])
    requires EntriesAt(ts, q', acc[key := ValueAt(ts, p + 4).value]).Done?
    ensures Holds(ts, p, ItemsTokens(items) + [RBraceToken])
    ensures EntriesAt(ts, p, acc).next == p + |ItemsTokens(items)| + 1
    decreases Left(ts, p), 0, 0
  {
    var accNext := acc[key := ValueAt(ts, p + 4).value];
    var rest := EntriesAtIsItems(ts, q', accNext);
    if q' == q + 1 {
      assert q < |ts| && PeekAt(ts, q) == ts[q];
      assert Canonical(ts[q]);
      HoldsComma(ts, q);
      EntryJoin(ts, p, acc, key, v, [Token(Comma, ",")], [Sep], rest, accNext, q');
      items := [Pair(key, v)] + [Sep] + rest;
    } else {
      EntryJoin(ts, p, acc, key, v, [], [], rest, accNext, q');
      items := [Pair(key, v)] + [] + rest;
    }
  }

  /** An entry whose key and value have been read: parseTable goes on at
      q', after the optional comma, with the key entered. */
  lemma EntryStep(ts: seq<Token>, p: nat, acc: map<string, Value>, key: string, v: Lit, q: nat, q': nat)
    requires Holds(ts, p, KeyTokens(key)) && Holds(ts, p + 4, Tokens(v))
    requires q == p + 4 + |Tokens(v)| && ValueAt(ts, p + 4).Done? && ValueAt(ts, p + 4).next == q
    requires q' == if PeekAt(ts, q).kind == Comma then q + 1 else q
    requires EntriesAt(ts, p, acc).Done?
    ensures EntriesAt(ts, p, acc) == EntriesAt(ts, q', acc[key := ValueAt(ts, p + 4).value])
    ensures EntriesAt(ts, q', acc[key := ValueAt(ts, p + 4).value]).Done?
  {
    HoldsAt(ts, p, KeyTokens(key), 0);
    HoldsAt(ts, p, KeyTokens(key), 1);
    HoldsAt(ts, p, KeyTokens(key), 2);
    HoldsAt(ts, p, KeyTokens(key), 3);
    EntriesAtEntry(ts, p, acc, key, ValueAt(ts, p + 4).value, q);
  }

  /** The entries read from q' on, after an entry, put together with it. */
  lemma EntryJoin(ts: seq<Token>, p: nat, acc: map<string, Value>, key: string, v: Lit,
                  sep: seq<Token>, sepItems: seq<Item>, rest: seq<Item>, accNext: map<string, Value>, q': nat)
    requires Holds(ts, p, KeyTokens(key)) && Holds(ts, p + 4, Tokens(v))
    requires (sep == [] && sepItems == []) || (sep == [Token(Comma, ",")] && sepItems == [Sep])
    requires Holds(ts, p + 4 + |Tokens(v)|, sep) && q' == p + 4 + |Tokens(v)| + |sep|
    requires Holds(ts, q', ItemsTokens(rest) + [RBraceToken])
    requires EntriesAt(ts, p, acc) == EntriesAt(ts, q', accNext)
    requires EntriesAt(ts, q', accNext).Done? && EntriesAt(ts, q', accNext).next == q' + |ItemsTokens(rest)| + 1
    ensures var items := [Pair(key, v)] + sepItems + rest;
      Holds(ts, p, ItemsTokens(items) + [RBraceToken])
      && EntriesAt(ts, p, acc).next == p + |ItemsTokens(items)| + 1
  {
    PairJoin(ts, p, key, v, sep, sepItems, rest);
  }

  /** A successful entry starts with `[`, a string key, `]` and `=`. */
  lemma EntryKey(ts: seq<Token>, p: nat, acc: map<string, Value>)
    requires forall i {:trigger Canonical(ts[i])} :: 0 <= i < |ts| ==> Canonical(ts[i])
    requires EntriesAt(ts, p, acc).Done? && PeekAt(ts, p).kind == LBracket
    ensures p + 4 <= |ts| && ts[p + 1].kind == StringTok
    ensures Holds(ts, p, KeyTokens(ts[p + 1].value))
    ensures ValueAt(ts, p + 4).Done?
  {
    assert PeekAt(ts, p + 1).kind == StringTok;
    assert PeekAt(ts, p + 2).kind == RBracket && PeekAt(ts, p + 3).kind == Equals;
    assert Canonical(ts[p]) && Canonical(ts[p + 2]) && Canonical(ts[p + 3]);
    assert ts[p] == Token(LBracket, "[") && ts[p + 2] == Token(RBracket, "]") && ts[p + 3] == Token(Equals, "=");
    assert ts[p..p + 4] == [ts[p], ts[p + 1], ts[p + 2], ts[p + 3]];
  }

  /** A pair, then a comma or nothing, then the rest of the entries. */
  lemma PairJoin(ts: seq<Token>, p: nat, key: string, v: Lit, sep: seq<Token>, sepItems: seq<Item>, rest: seq<Item>)
    requires Holds(ts, p, KeyTokens(key)) && Holds(ts, p + 4, Tokens(v))
    requires (sep == [] && sepItems == []) || (sep == [Token(Comma, ",")] && sepItems == [Sep])
    requires Holds(ts, p + 4 + |Tokens(v)|, sep)
    requires Holds(ts, p + 4 + |Tokens(v)| + |sep|, ItemsTokens(rest) + [RBraceToken])
    ensures Holds(ts, p, ItemsTokens([Pair(key, v)] + sepItems + rest) + [RBraceToken])
    ensures |ItemsTokens([Pair(key, v)] + sepItems + rest)| == 4 + |Tokens(v)| + |sep| + |ItemsTokens(rest)|
  {
    HoldsChain(ts, p, KeyTokens(key), Tokens(v), sep, ItemsTokens(rest) + [RBraceToken]);
    PairTokens(key, v, sep, sepItems, rest);
  }

  /** Four runs of tokens, each right after the one before. */
  lemma HoldsChain(ts: seq<Token>, p: nat, a: seq<Token>, b: seq<Token>, c: seq<Token>, d: seq<Token>)
    requires |a| == 4 && Holds(ts, p, a) && Holds(ts, p + 4, b)
    requires Holds(ts, p + 4 + |b|, c) && Holds(ts, p + 4 + |b| + |c|, d)
    ensures Holds(ts, p, a + (b + (c + d)))
  {
    HoldsJoin(ts, p + 4 + |b|, c, d);
    HoldsJoin(ts, p + 4, b, c + d);
    HoldsJoin(ts, p, a, b + (c + d));
  }

  lemma PairTokens(key: string, v: Lit, sep: seq<Token>, sepItems: seq<Item>, rest: seq<Item>)
    requires (sep == [] && sepItems == []) || (sep == [Token(Comma, ",")] && sepItems == [Sep])
    ensures KeyTokens(key) + (Tokens(v) + (sep + (ItemsTokens(rest) + [RBraceToken])))
      == ItemsTokens([Pair(key, v)] + sepItems + rest) + [RBraceToken]
    ensures |ItemsTokens([Pair(key, v)] + sepItems + rest)| == 4 + |Tokens(v)| + |sep| + |ItemsTokens(rest)|
  {
    var x := sepItems + rest;
    assert [Pair(key, v)] + sepItems + rest == [Pair(key, v)] + x;
    PairFirst(Pair(key, v), x);
    SepTokens(sep, sepItems, rest);
    TokensAssoc(KeyTokens(key), Tokens(v), sep, ItemsTokens(rest));
  }

  lemma SepTokens(sep: seq<Token>, sepItems: seq<Item>, rest: seq<Item>)
    requires (sep == [] && sepItems == []) || (sep == [Token(Comma, ",")] && sepItems == [Sep])
    ensures ItemsTokens(sepItems + rest) == sep + ItemsTokens(rest)
  {
    if sepItems == [Sep] {
      PairFirst(Sep, rest);
    } else {
      assert sepItems + rest == rest;
    }
  }

  lemma PairFirst(it: Item, items: seq<Item>)
    ensures ItemsTokens([it] + items) == ItemTokens(it) + ItemsTokens(items)
  {
    assert ([it] + items)[0] == it && ([it] + items)[1..] == items;
  }

  lemma TokensAssoc(a: seq<Token>, b: seq<Token>, c: seq<Token>, d: seq<Token>)
    ensures a + (b + (c + (d + [RBraceToken]))) == (a + b) + (c + d) + [RBraceToken]
    ensures |(a + b) + (c + d)| == |a| + |b| + |c| + |d|
  {
  }

  lemma ItemsCons(ts: seq<Token>, p: nat, it: Item, items: seq<Item>)
    requires Holds(ts, p, ItemTokens(it))
    requires Holds(ts, p + |ItemTokens(it)|, ItemsTokens(items) + [RBraceToken])
    ensures ItemsTokens([it] + items) == ItemTokens(it) + ItemsTokens(items)
    ensures Holds(ts, p, ItemsTokens([it] + items) + [RBraceToken])
  {
    assert ([it] + items)[1..] == items;
    HoldsJoin(ts, p, ItemTokens(it), ItemsTokens(items) + [RBraceToken]);
    assert ItemTokens(it) + (ItemsTokens(items) + [RBraceToken]) == ItemsTokens([it] + items) + [RBraceToken];
  }

  /** Tokens as the lexer makes them: each structural token carries its own
      byte, a Bool token `true` or `false`, a Nil token `nil`. */
  predicate Canonical(t: Token)
  {
    match t.kind
    case LBrace => t.value == "{"
    case RBrace => t.value == "}"
    case LBracket => t.value == "["
    case RBracket => t.value == "]"
    case Comma => t.value == ","
    case Equals => t.value == "="
    case BoolTok => t.value == "true" || t.value == "false"
    case NilTok => t.value == "nil"
    case EOF => t.value == ""
    case _ => true
  }

  /** Every token the lexer emits is canonical. */
  lemma {:induction false} LexedCanonical(s: string)
    ensures forall i :: 0 <= i < |Lexed(s)| ==> Canonical(Lexed(s)[i])
    decreases |s|
  {
    if s != [] {
      LexedCanonical(LexStep(s).rest);
    }
  }

  /** The item is an entry for key k. */
  predicate Writes(it: Item, k: string)
  {
    it.Pair? && it.key == k
  }

  /** The keys of the table the entries denote are the keys of acc and the
      keys written in the entries. */
  lemma {:induction false} EvalItemsKeys(items: seq<Item>, acc: map<string, Value>, k: string)
    ensures k in EvalItems(items, acc) <==>
      k in acc || exists i :: 0 <= i < |items| && Writes(items[i], k)
    decreases items
  {
    if items != [] {
      var acc' := if items[0].Pair? then acc[items[0].key := Eval(items[0].value)] else acc;
      EvalItemsKeys(items[1..], acc', k);
      if exists i :: 0 <= i < |items[1..]| && Writes(items[1..][i], k) {
        var i :| 0 <= i < |items[1..]| && Writes(items[1..][i], k);
        assert Writes(items[i + 1], k);
      }
      if exists i :: 0 <= i < |items| && Writes(items[i], k) {
        var i :| 0 <= i < |items| && Writes(items[i], k);
        if i > 0 {
          assert Writes(items[1..][i - 1], k);
        }
      }
    }
  }

  /** The value stored for a key is that of its last entry. */
  lemma {:induction false} EvalItemsLastWins(items: seq<Item>, acc: map<string, Value>, i: nat)
    requires i < |items| && items[i].Pair?
    requires forall j :: i < j < |items| && items[j].Pair? ==> items[j].key != items[i].key
    ensures items[i].key in EvalItems(items, acc)
    ensures EvalItems(items, acc)[items[i].key] == Eval(items[i].value)
    decreases items
  {
    var acc' := if items[0].Pair? then acc[items[0].key := Eval(items[0].value)] else acc;
    if i == 0 {
      EvalItemsUntouched(items[1..], acc', items[0].key);
    } else {
      EvalItemsLastWins(items[1..], acc', i - 1);
    }
  }

  /** A key no entry writes keeps its value from acc. */
  lemma {:induction false} EvalItemsUntouched(items: seq<Item>, acc: map<string, Value>, k: string)
    requires forall j :: 0 <= j < |items| && items[j].Pair? ==> items[j].key != k
    ensures k in acc ==> k in EvalItems(items, acc) && EvalItems(items, acc)[k] == acc[k]
    decreases items
  {
    if items != [] {
      var acc' := if items[0].Pair? then acc[items[0].key := Eval(items[0].value)] else acc;
      EvalItemsUntouched(items[1..], acc', k);
    }
  }

  /** On success, parseTable's map has exactly the keys written as
      `["k"] =` in the table, and each key holds the value of its last
      entry: the table read is the literal `LTable(items)` for some items. */
  lemma ParsedTable(ts: seq<Token>, p: nat) returns (items: seq<Item>)
    requires forall i {:trigger Canonical(ts[i])} :: 0 <= i < |ts| ==> Canonical(ts[i])
    requires TableAt(ts, p).Done?
    ensures Holds(ts, p, Tokens(LTable(items)))
    ensures TableAt(ts, p) == Done(EvalItems(items, map[]), p + |Tokens(LTable(items))|)
  {
    items := TableAtIsLit(ts, p);
    ValueAtLit(ts, p, LTable(items));
  }

  /** A number token denotes its integer, clamped to int64 when it does not
      fit. */
  lemma NumberParsed(ts: seq<Token>, p: nat, neg: bool, d: string)
    requires d != [] && AllDigits(d)
    requires PeekAt(ts, p) == Token(NumberTok, if neg then "-" + d else d)
    ensures var x: int := if neg then -(DigitsValue(d) as int) else DigitsValue(d);
      ValueAt(ts, p) == Done(Int(Clamp(x)), p + 1)
  {
    ParseIntDigits(d, neg);
  }

  /** `{ "a" }`: the loop stops making progress at the bare string. */
  lemma BareValueDiverges()
    ensures TableAt([LBraceToken, Token(StringTok, "a"), RBraceToken, EofToken], 0) == Failed(Diverges(1))
  {
  }

  /** `{ x }`: likewise at a bare identifier. */
  lemma BareIdentDiverges()
    ensures TableAt([LBraceToken, Token(IdentTok, "x"), RBraceToken, EofToken], 0) == Failed(Diverges(1))
  {
  }
}
