/** Shared vocabulary for the model: optional values, Go's int64, and the few
    standard-library string routines the core relies on (strconv.ParseInt,
    strings.Contains, strings.Count, sort.Strings' order and the line splitting
    of bufio.Scanner).

    A Go string is a sequence of bytes; here each `char` of a `string` stands
    for one byte. */
module Common {

  datatype Option<T> = None | Some(value: T)

  const Int64Min: int := -0x8000_0000_0000_0000
  const Int64Max: int := 0x7FFF_FFFF_FFFF_FFFF
  const Uint64Max: int := 0xFFFF_FFFF_FFFF_FFFF

  newtype int64 = x: int | -0x8000_0000_0000_0000 <= x < 0x8000_0000_0000_0000

  predicate IsDecimalDigit(c: char) { '0' <= c <= '9' }

  function Min(a: int, b: int): int { if a <= b then a else b }

  /** No element occurs twice. */
  predicate Distinct<T(==)>(s: seq<T>)
  {
    forall i, j :: 0 <= i < j < |s| ==> s[i] != s[j]
  }

  /** Appending an element not yet present keeps a sequence distinct. */
  lemma DistinctSnoc<T>(s: seq<T>, x: T)
    requires Distinct(s) && x !in s
    ensures Distinct(s + [x])
  {
    var r := s + [x];
    forall i, j | 0 <= i < j < |r| ensures r[i] != r[j] {
      assert r[i] == s[i];
      if j < |s| {
        assert r[j] == s[j];
      }
    }
  }

  predicate AllDigits(s: string) { forall i :: 0 <= i < |s| ==> IsDecimalDigit(s[i]) }

  /** The number a non-empty run of decimal digits denotes. */
  function DigitsValue(s: string): nat
    requires AllDigits(s)
    decreases |s|
  {
    if s == [] then 0 else DigitsValue(s[..|s| - 1]) * 10 + (s[|s| - 1] as int - '0' as int)
  }

  /** The three outcomes of strconv.ParseUint's digit loop. */
  datatype UintScan = UintOk(n: nat) | SyntaxError | RangeError

  /** strconv.ParseUint(s, 10, 64) after its empty-string check: digits are
      accumulated left to right, a non-digit is a syntax error and the first
      digit that takes the value past 2^64-1 is a range error (the rest of the
      input is then not looked at). */
  function ScanUint(s: string, acc: nat): (r: UintScan)
    requires acc <= Uint64Max
    ensures r.UintOk? ==> r.n <= Uint64Max
    decreases |s|
  {
    if s == [] then UintOk(acc)
    else if !IsDecimalDigit(s[0]) then SyntaxError
    else if acc * 10 + (s[0] as int - '0' as int) > Uint64Max then RangeError
    else ScanUint(s[1..], acc * 10 + (s[0] as int - '0' as int))
  }

  /** What strconv.ParseInt(s, 10, 64) returns: the value, and whether the
      error result is nil. */
  datatype IntParse = IntParse(value: int64, ok: bool)

  /** strconv.ParseInt(s, 10, 64): an optional '+' or '-' sign, then ParseUint
      on the rest. On a syntax error the value is 0; on a range error it is the
      int64 bound of the input's sign. Underscores are not accepted in base 10. */
  function ParseInt(s: string): IntParse
  {
    if s == [] then IntParse(0, false)
    else
      var neg := s[0] == '-';
      var digits := if s[0] == '-' || s[0] == '+' then s[1..] else s;
      if digits == [] then IntParse(0, false)
      else match ScanUint(digits, 0)
        case SyntaxError => IntParse(0, false)
        case RangeError => IntParse(if neg then Int64Min as int64 else Int64Max as int64, false)
        case UintOk(n) =>
          if !neg && n > Int64Max then IntParse(Int64Max as int64, false)
          else if neg && n > -Int64Min then IntParse(Int64Min as int64, false)
          else IntParse((if neg then -(n as int) else n as int) as int64, true)
  }

  /** Running the digit loop over a + b is running it over a, then over b. */
  lemma {:induction false} ScanUintAppend(a: string, b: string, acc: nat)
    requires acc <= Uint64Max
    ensures ScanUint(a + b, acc) ==
      match ScanUint(a, acc)
      case UintOk(m) => ScanUint(b, m)
      case SyntaxError => SyntaxError
      case RangeError => RangeError
    decreases |a|
  {
    if a != [] {
      assert (a + b)[0] == a[0];
      assert (a + b)[1..] == a[1..] + b;
      if IsDecimalDigit(a[0]) && acc * 10 + (a[0] as int - '0' as int) <= Uint64Max {
        ScanUintAppend(a[1..], b, acc * 10 + (a[0] as int - '0' as int));
      }
    } else {
      assert a + b == b;
    }
  }

  /** On a run of digits the loop yields the number they denote, or a range
      error when that number does not fit in 64 bits. */
  lemma {:induction false} ScanUintDigits(s: string)
    requires AllDigits(s)
    ensures ScanUint(s, 0) == if DigitsValue(s) <= Uint64Max then UintOk(DigitsValue(s)) else RangeError
    decreases |s|
  {
    if s != [] {
      var a, d := s[..|s| - 1], s[|s| - 1];
      assert s == a + [d];
      ScanUintDigits(a);
      ScanUintAppend(a, [d], 0);
      assert [d][1..] == [];
      assert DigitsValue(s) >= DigitsValue(a);
    }
  }

  /** ParseInt on an optionally negative run of decimal digits: the value
      denoted, clamped to int64, with a nil error exactly when it fits. */
  lemma ParseIntDigits(s: string, neg: bool)
    requires s != [] && AllDigits(s)
    ensures var x: int := if neg then -(DigitsValue(s) as int) else DigitsValue(s);
      ParseInt(if neg then "-" + s else s) == IntParse(Clamp(x), Int64Min <= x <= Int64Max)
  {
    ScanUintDigits(s);
    var t := if neg then "-" + s else s;
    assert t[0] != '+';
    if neg { assert t[1..] == s; }
  }

  /** Clamping to the int64 range, as ParseInt does on overflow. */
  function Clamp(x: int): (r: int64)
    ensures Int64Min <= x <= Int64Max ==> r as int == x
    ensures x > Int64Max ==> r as int == Int64Max
    ensures x < Int64Min ==> r as int == Int64Min
  {
    if x > Int64Max then Int64Max as int64 else if x < Int64Min then Int64Min as int64 else x as int64
  }

  /** strings.Contains. */
  function Contains(s: string, sub: string): (r: bool)
    decreases |s|
  {
    if sub <= s then true else if |s| <= |sub| then false else Contains(s[1..], sub)
  }

  predicate OccursAt(s: string, sub: string, i: int)
  {
    0 <= i <= |s| - |sub| && s[i..i + |sub|] == sub
  }

  /** Contains means: sub occurs somewhere in s. */
  lemma {:induction false} ContainsIff(s: string, sub: string)
    ensures Contains(s, sub) <==> exists i :: OccursAt(s, sub, i)
    decreases |s|
  {
    if sub <= s {
      assert s[0..|sub|] == sub;
      assert OccursAt(s, sub, 0);
    } else if |s| <= |sub| {
      forall i | OccursAt(s, sub, i) ensures false {
      }
    } else {
      ContainsIff(s[1..], sub);
      if exists i :: OccursAt(s, sub, i) {
        var i :| OccursAt(s, sub, i);
        assert s[1..][i - 1..i - 1 + |sub|] == s[i..i + |sub|];
        assert OccursAt(s[1..], sub, i - 1);
      }
      if Contains(s[1..], sub) {
        var j :| OccursAt(s[1..], sub, j);
        assert s[j + 1..j + 1 + |sub|] == s[1..][j..j + |sub|];
        assert OccursAt(s, sub, j + 1);
      }
    }
  }

  /** strings.Count with a one-byte separator. */
  function Count(s: string, c: char): (n: nat)
    ensures n <= |s|
    decreases |s|
  {
    if s == [] then 0 else (if s[0] == c then 1 else 0) + Count(s[1..], c)
  }

  /** The byte-wise lexicographic order of Go's string comparison (sort.Strings). */
  predicate Below(a: string, b: string)
    decreases |a|
  {
    if a == [] then b != []
    else if b == [] then false
    else a[0] < b[0] || (a[0] == b[0] && Below(a[1..], b[1..]))
  }

  lemma {:induction false} BelowIrreflexive(a: string)
    ensures !Below(a, a)
    decreases |a|
  {
    if a != [] { BelowIrreflexive(a[1..]); }
  }

  lemma {:induction false} BelowTransitive(a: string, b: string, c: string)
    requires Below(a, b) && Below(b, c)
    ensures Below(a, c)
    decreases |a|
  {
    if a != [] && b != [] && c != [] && a[0] == b[0] == c[0] {
      BelowTransitive(a[1..], b[1..], c[1..]);
    }
  }

  lemma {:induction false} BelowTotal(a: string, b: string)
    requires a != b
    ensures Below(a, b) || Below(b, a)
    decreases |a|
  {
    if a != [] && b != [] && a[0] == b[0] {
      assert a == [a[0]] + a[1..] && b == [b[0]] + b[1..];
      BelowTotal(a[1..], b[1..]);
    }
  }

  /** Ascending without repetition. */
  predicate StrictlySorted(s: seq<string>)
  {
    forall i, j :: 0 <= i < j < |s| ==> Below(s[i], s[j])
  }

  /** Index of the first '\n' in s, or |s|. */
  function LineLength(s: string): (n: nat)
    ensures n <= |s|
    ensures n < |s| ==> s[n] == '\n'
    ensures forall j :: 0 <= j < n ==> s[j] != '\n'
    decreases |s|
  {
    if s == [] || s[0] == '\n' then 0 else 1 + LineLength(s[1..])
  }

  /** bufio.ScanLines drops one trailing '\r' from each line. */
  function DropCR(line: string): string
  {
    if line != [] && line[|line| - 1] == '\r' then line[..|line| - 1] else line
  }

  /** The lines bufio.Scanner yields with its default split function: the text
      is cut at every '\n', a final line without '\n' is yielded when
      non-empty, and each line loses one trailing '\r'. */
  function ScanLines(s: string): seq<string>
    decreases |s|
  {
    if s == [] then []
    else
      var n := LineLength(s);
      [DropCR(s[..n])] + (if n < |s| then ScanLines(s[n + 1..]) else [])
  }

  /** The text a writer produces when it emits each line followed by '\n'. */
  function JoinLines(lines: seq<string>): string
  {
    if lines == [] then [] else lines[0] + "\n" + JoinLines(lines[1..])
  }

  predicate PlainLine(line: string)
  {
    (forall j :: 0 <= j < |line| ==> line[j] != '\n') && (line == [] || line[|line| - 1] != '\r')
  }

  /** Reading back what was written line by line gives the same lines, as
      long as no line holds a '\n' or ends with '\r'. */
  lemma {:induction false} ScanJoinLines(lines: seq<string>)
    requires forall i :: 0 <= i < |lines| ==> PlainLine(lines[i])
    ensures ScanLines(JoinLines(lines)) == lines
    decreases |lines|
  {
    if lines != [] {
      var s := JoinLines(lines);
      var l := lines[0];
      assert s == l + ("\n" + JoinLines(lines[1..]));
      LineLengthOfLine(l, "\n" + JoinLines(lines[1..]));
      assert s[..|l|] == l;
      assert s[|l| + 1..] == JoinLines(lines[1..]);
      ScanJoinLines(lines[1..]);
    }
  }

  lemma {:induction false} LineLengthOfLine(l: string, rest: string)
    requires forall j :: 0 <= j < |l| ==> l[j] != '\n'
    requires rest == [] || rest[0] == '\n'
    ensures LineLength(l + rest) == |l|
    decreases |l|
  {
    if l != [] {
      assert (l + rest)[1..] == l[1..] + rest;
      LineLengthOfLine(l[1..], rest);
    } else {
      assert l + rest == rest;
    }
  }
}
