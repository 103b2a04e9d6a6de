/** The AddOns.txt manifest (parseAddOnsFile and writeAddOnsFile in
    pkg/wow/manager.go), over the text of the file: one addon per line,
    `Name: 1` when enabled and `# Name: 0` when disabled.

    `Entries` is the reference reading of a sequence of lines and
    `ManifestText` the reference writing of a map; the `ParseAddOns` and
    `WriteAddOns` methods follow the source's loops and are proved to compute
    them. */
module Manifest {
  import opened Common

  /** The white space strings.TrimSpace strips, for single bytes. */
  predicate IsWhiteSpace(c: char)
  {
    c == ' ' || c == '\t' || c == '\n' || c == 11 as char || c == 12 as char || c == '\r'
  }

  predicate AllWhite(s: string)
  {
    forall j :: 0 <= j < |s| ==> IsWhiteSpace(s[j])
  }

  /** No white space at either end. */
  predicate Trimmed(s: string)
  {
    s == [] || (!IsWhiteSpace(s[0]) && !IsWhiteSpace(s[|s| - 1]))
  }

  /** The number of white-space bytes s starts with. */
  function LeadingWhite(s: string): (n: nat)
    ensures n <= |s|
    ensures forall j :: 0 <= j < n ==> IsWhiteSpace(s[j])
    ensures n < |s| ==> !IsWhiteSpace(s[n])
    decreases |s|
  {
    if s != [] && IsWhiteSpace(s[0]) then
      var n := 1 + LeadingWhite(s[1..]);
      assert forall j :: 1 <= j < n ==> s[j] == s[1..][j - 1];
      n
    else 0
  }

  /** The number of white-space bytes s ends with. */
  function TrailingWhite(s: string): (n: nat)
    ensures n <= |s|
    ensures forall j :: |s| - n <= j < |s| ==> IsWhiteSpace(s[j])
    ensures n < |s| ==> !IsWhiteSpace(s[|s| - n - 1])
    decreases |s|
  {
    if s != [] && IsWhiteSpace(s[|s| - 1]) then
      var n := 1 + TrailingWhite(s[..|s| - 1]);
      assert forall j :: |s| - n <= j < |s| - 1 ==> s[j] == s[..|s| - 1][j];
      n
    else 0
  }

  /** strings.TrimSpace. */
  function TrimSpace(s: string): string
  {
    var t := s[LeadingWhite(s)..];
    t[..|t| - TrailingWhite(t)]
  }

  /** TrimSpace yields the infix of s left once the white space at both ends
      is removed, and leaves a string without such white space as it is. */
  lemma TrimSpaceSpec(s: string)
    ensures var i, r := LeadingWhite(s), TrimSpace(s);
      Trimmed(r) && i + |r| <= |s| && r == s[i..i + |r|]
      && (forall j :: 0 <= j < i ==> IsWhiteSpace(s[j]))
      && (forall j :: i + |r| <= j < |s| ==> IsWhiteSpace(s[j]))
    ensures Trimmed(s) ==> TrimSpace(s) == s
  {
    TrimSpaceInfix(s);
    if Trimmed(s) {
      TrimSpaceKeeps(s);
    }
  }

  lemma TrimSpaceInfix(s: string)
    ensures var i, r := LeadingWhite(s), TrimSpace(s);
      Trimmed(r) && i + |r| <= |s| && r == s[i..i + |r|]
      && (forall j :: i + |r| <= j < |s| ==> IsWhiteSpace(s[j]))
  {
    var i := LeadingWhite(s);
    var t := s[i..];
    assert t == [] || t[0] == s[i];
    TrailCut(t);
    var r := TrimSpace(s);
    SliceOfSuffix(s, i, |r|);
    SuffixWhite(s, i, i + |r|);
  }

  lemma SliceOfSuffix(s: string, i: nat, k: nat)
    requires i + k <= |s|
    ensures s[i..][..k] == s[i..i + k]
  {
  }

  lemma SuffixWhite(s: string, i: nat, m: nat)
    requires i <= m <= |s|
    requires forall j :: m - i <= j < |s| - i ==> IsWhiteSpace(s[i..][j])
    ensures forall j :: m <= j < |s| ==> IsWhiteSpace(s[j])
  {
    forall j | m <= j < |s| ensures IsWhiteSpace(s[j]) {
      assert s[j] == s[i..][j - i];
    }
  }

  /** Cutting the trailing white space off t leaves, when t does not
      start with white space, no white space at either end. */
  lemma TrailCut(t: string)
    requires t == [] || !IsWhiteSpace(t[0])
    ensures Trimmed(t[..|t| - TrailingWhite(t)])
  {
    var n := TrailingWhite(t);
    var r := t[..|t| - n];
    if n == |t| {
      assert r == [];
    } else {
      assert r[0] == t[0] && !IsWhiteSpace(r[0]);
      assert r[|r| - 1] == t[|t| - n - 1] && !IsWhiteSpace(r[|r| - 1]);
    }
  }

  lemma TrimSpaceKeeps(s: string)
    requires Trimmed(s)
    ensures TrimSpace(s) == s
  {
    if s != [] {
      assert LeadingWhite(s) == 0;
      assert s[0..] == s;
      assert TrailingWhite(s) == 0;
    }
  }

  /** Index of the first occurrence of c in s, or |s|. */
  function IndexOf(s: string, c: char): (k: nat)
    ensures k <= |s| && c !in s[..k]
    ensures k < |s| ==> s[k] == c
    ensures k == |s| <==> c !in s
    decreases |s|
  {
    if s == [] then 0
    else if s[0] == c then 0
    else
      var k := 1 + IndexOf(s[1..], c);
      assert s[..k] == [s[0]] + s[1..][..k - 1];
      k
  }

  /** strings.SplitN(s, sep, 2) with a one-byte separator: s itself when sep
      does not occur, else the text before and after its first occurrence. */
  function SplitN2(s: string, sep: char): (parts: seq<string>)
    ensures |parts| == 1 || |parts| == 2
    ensures |parts| == 2 <==> sep in s
    ensures |parts| == 1 ==> parts[0] == s
    ensures |parts| == 2 ==> s == parts[0] + [sep] + parts[1] && sep !in parts[0]
  {
    var k := IndexOf(s, sep);
    if k == |s| then [s]
    else
      assert s == s[..k] + [sep] + s[k + 1..];
      [s[..k], s[k + 1..]]
  }

  /** One line of the manifest, read: the addon it names and whether that
      addon is enabled. */
  datatype Entry = Entry(name: string, enabled: bool)

  /** The body of parseAddOnsFile's loop for one scanned line. */
  function LineEntry(line: string): Option<Entry>
  {
    var t := TrimSpace(line);
    if t == [] then None
    else
      var parts := SplitN2(t, ':');
      if |parts| != 2 then None
      else Some(FieldsEntry(parts[0], parts[1]))
  }

  /** The addon named by the text before the first ':' and its state read
      from the text after it: a leading '#' marks it disabled and is removed
      from the name together with the white space after it. */
  function FieldsEntry(field: string, value: string): Entry
  {
    var name := TrimSpace(field);
    if "#" <= name then Entry(TrimSpace(name[1..]), false)
    else Entry(name, TrimSpace(value) == "1")
  }

  /** A line is skipped exactly when it holds no ':', which takes in every
      line that is blank once trimmed. */
  lemma LineSkipped(line: string)
    ensures LineEntry(line).None? <==> ':' !in line
    ensures TrimSpace(line) == [] ==> LineEntry(line).None?
  {
    ColonKept(line);
  }

  /** A line holding a ':' names the addon before its first ':', trimmed and
      without a '#' marker; the addon is enabled exactly when the text after
      the ':' trims to "1" and there is no marker. */
  lemma LineRead(line: string)
    requires ':' in line
    ensures LineEntry(line).Some?
    ensures var e := LineEntry(line).value;
      var parts := SplitN2(TrimSpace(line), ':');
      ':' !in e.name && Trimmed(e.name)
      && (e.enabled <==> TrimSpace(parts[1]) == "1" && !("#" <= TrimSpace(parts[0])))
  {
    ColonKept(line);
    var t := TrimSpace(line);
    assert t != [];
    var parts := SplitN2(t, ':');
    assert |parts| == 2;
    assert LineEntry(line) == Some(FieldsEntry(parts[0], parts[1]));
    FieldsRead(parts[0], parts[1]);
  }

  /** The fields of a line read as an entry: the name is the trimmed field,
      or, when that starts with '#', what follows the '#' trimmed again; it
      is trimmed and colon-free either way. */
  lemma FieldsRead(field: string, value: string)
    requires ':' !in field
    ensures var e := FieldsEntry(field, value);
      ':' !in e.name && Trimmed(e.name)
      && (e.enabled <==> TrimSpace(value) == "1" && !("#" <= TrimSpace(field)))
    ensures "#" <= TrimSpace(field) ==> FieldsEntry(field, value).name == TrimSpace(TrimSpace(field)[1..])
    ensures !("#" <= TrimSpace(field)) ==> FieldsEntry(field, value).name == TrimSpace(field)
  {
    var name := TrimSpace(field);
    InfixWithout(field, ':');
    TrimSpaceSpec(name);
    if "#" <= name {
      assert ':' !in name[1..] by {
        forall j | 0 <= j < |name| - 1 ensures name[1..][j] != ':' {
          assert name[1..][j] == name[j + 1];
        }
      }
      InfixWithout(name[1..], ':');
      TrimSpaceSpec(name[1..]);
    }
  }

  /** Trimming never removes a ':'. */
  lemma ColonKept(line: string)
    ensures ':' in line <==> ':' in TrimSpace(line)
  {
    var t := TrimSpace(line);
    var i := LeadingWhite(line);
    TrimSpaceSpec(line);
    forall j | 0 <= j < |line| && !(i <= j < i + |t|) ensures IsWhiteSpace(line[j]) {
      if j < i {
        assert line[j] == line[..i][j];
      } else {
        assert line[j] == line[i + |t|..][j - i - |t|];
      }
    }
    if ':' in line {
      var j :| 0 <= j < |line| && line[j] == ':';
      assert t[j - i] == ':';
    }
    if ':' in t {
      var j :| 0 <= j < |t| && t[j] == ':';
      assert line[i + j] == ':';
    }
  }

  /** A trimmed string holds no byte its source did not. */
  lemma InfixWithout(s: string, c: char)
    requires c !in s
    ensures c !in TrimSpace(s)
  {
    TrimSpaceSpec(s);
    NotInSlice(s, c, LeadingWhite(s), LeadingWhite(s) + |TrimSpace(s)|);
  }

  lemma NotInSlice(s: string, c: char, a: nat, b: nat)
    requires c !in s && a <= b <= |s|
    ensures c !in s[a..b]
  {
    forall j | 0 <= j < b - a ensures s[a..b][j] != c {
      assert s[a..b][j] == s[a + j];
    }
  }

  /** What each scanned line reads as, in order. */
  function Readings(lines: seq<string>): (r: seq<Option<Entry>>)
  {
    seq(|lines|, i requires 0 <= i < |lines| => LineEntry(lines[i]))
  }

  /** The map built from a sequence of readings: every reading that names an
      addon sets it, a later one overriding an earlier one. */
  function Collect(rs: seq<Option<Entry>>): map<string, bool>
    decreases |rs|
  {
    if rs == [] then map[]
    else
      var prior := Collect(rs[..|rs| - 1]);
      match rs[|rs| - 1]
      case None => prior
      case Some(e) => prior[e.name := e.enabled]
  }

  /** parseAddOnsFile over the lines the scanner yields. */
  function Entries(lines: seq<string>): map<string, bool>
  {
    Collect(Readings(lines))
  }

  predicate Names(line: string, name: string)
  {
    LineEntry(line).Some? && LineEntry(line).value.name == name
  }

  predicate NamesIn(read: Option<Entry>, name: string)
  {
    read.Some? && read.value.name == name
  }

  lemma {:induction false} CollectAbsent(rs: seq<Option<Entry>>, name: string)
    requires forall i :: 0 <= i < |rs| ==> !NamesIn(rs[i], name)
    ensures name !in Collect(rs)
    decreases |rs|
  {
    if rs != [] {
      var prefix := rs[..|rs| - 1];
      assert forall i :: 0 <= i < |prefix| ==> prefix[i] == rs[i];
      CollectAbsent(prefix, name);
      assert !NamesIn(rs[|rs| - 1], name);
    }
  }

  lemma {:induction false} CollectLastWins(rs: seq<Option<Entry>>, i: nat, name: string)
    requires i < |rs| && NamesIn(rs[i], name)
    requires forall j :: i < j < |rs| ==> !NamesIn(rs[j], name)
    ensures name in Collect(rs) && Collect(rs)[name] == rs[i].value.enabled
    decreases |rs|
  {
    var prefix := rs[..|rs| - 1];
    if i < |rs| - 1 {
      assert forall j :: 0 <= j < |prefix| ==> prefix[j] == rs[j];
      CollectLastWins(prefix, i, name);
      assert !NamesIn(rs[|rs| - 1], name);
    }
  }

  /** An addon no line names is not in the result. */
  lemma EntriesAbsent(lines: seq<string>, name: string)
    requires forall i :: 0 <= i < |lines| ==> !Names(lines[i], name)
    ensures name !in Entries(lines)
  {
    var rs := Readings(lines);
    CollectAbsent(rs, name);
  }

  /** The last line naming an addon decides whether it is enabled. */
  lemma EntriesLastWins(lines: seq<string>, i: nat, name: string)
    requires i < |lines| && Names(lines[i], name)
    requires forall j :: i < j < |lines| ==> !Names(lines[j], name)
    ensures name in Entries(lines) && Entries(lines)[name] == LineEntry(lines[i]).value.enabled
  {
    var rs := Readings(lines);
    CollectLastWins(rs, i, name);
  }

  /** parseAddOnsFile's loop over the scanned lines. */
  method ParseAddOns(lines: seq<string>) returns (addons: map<string, bool>)
    ensures addons == Entries(lines)
  {
    addons := map[];
    for i := 0 to |lines|
      invariant addons == Collect(Readings(lines[..i]))
    {
      var e := LineEntry(lines[i]);
      ReadingsSnoc(lines, i);
      CollectSnoc(Readings(lines[..i]), e);
      if e.Some? {
        addons := addons[e.value.name := e.value.enabled];
      }
    }
    assert lines[..|lines|] == lines;
  }

  lemma ReadingsSnoc(lines: seq<string>, i: nat)
    requires i < |lines|
    ensures Readings(lines[..i + 1]) == Readings(lines[..i]) + [LineEntry(lines[i])]
  {
    var a, b := Readings(lines[..i + 1]), Readings(lines[..i]) + [LineEntry(lines[i])];
    assert |a| == |b| == i + 1;
    forall k | 0 <= k <= i ensures a[k] == b[k] {
      assert lines[..i + 1][k] == lines[k];
      if k < i {
        assert lines[..i][k] == lines[k];
      }
    }
  }

  lemma CollectSnoc(rs: seq<Option<Entry>>, e: Option<Entry>)
    ensures Collect(rs + [e]) == if e.Some? then Collect(rs)[e.value.name := e.value.enabled] else Collect(rs)
  {
    assert (rs + [e])[..|rs|] == rs;
  }

  /** sort.Strings, as insertion into an ascending sequence. */
  function Insert(x: string, s: seq<string>): (r: seq<string>)
    ensures multiset(r) == multiset(s) + multiset{x}
    decreases |s|
  {
    if s == [] then [x]
    else if Below(s[0], x) then
      assert s == [s[0]] + s[1..];
      [s[0]] + Insert(x, s[1..])
    else [x] + s
  }

  function SortStrings(s: seq<string>): (r: seq<string>)
    ensures multiset(r) == multiset(s)
    decreases |s|
  {
    if s == [] then []
    else
      assert s == [s[0]] + s[1..];
      Insert(s[0], SortStrings(s[1..]))
  }

  lemma {:induction false} InsertSorted(x: string, s: seq<string>)
    requires StrictlySorted(s) && x !in s
    ensures StrictlySorted(Insert(x, s))
    decreases |s|
  {
    if s != [] {
      if Below(s[0], x) {
        InsertSorted(x, s[1..]);
        var r := Insert(x, s[1..]);
        forall y | y in r ensures Below(s[0], y) {
          assert y in multiset(r);
          if y != x {
            assert y in s[1..];
            var j :| 0 <= j < |s[1..]| && s[1..][j] == y;
            assert s[j + 1] == y;
          }
        }
        ConsSorted(s[0], r);
      } else {
        BelowTotal(s[0], x);
        forall y | y in s ensures Below(x, y) {
          var j :| 0 <= j < |s| && s[j] == y;
          if j > 0 { BelowTransitive(x, s[0], s[j]); }
        }
        ConsSorted(x, s);
      }
    }
  }

  /** A name below every name of a sorted sequence can go in front of it. */
  lemma ConsSorted(a: string, r: seq<string>)
    requires StrictlySorted(r) && forall y :: y in r ==> Below(a, y)
    ensures StrictlySorted([a] + r)
  {
    var r' := [a] + r;
    forall i, j | 0 <= i < j < |r'| ensures Below(r'[i], r'[j]) {
      assert r'[j] == r[j - 1];
      if i == 0 {
        assert r[j - 1] in r;
      } else {
        assert r'[i] == r[i - 1];
      }
    }
  }

  /** sort.Strings leaves the names in strictly ascending order. */
  lemma {:induction false} SortStringsSorted(s: seq<string>)
    requires Distinct(s)
    ensures StrictlySorted(SortStrings(s))
    decreases |s|
  {
    if s != [] {
      var tail := s[1..];
      assert Distinct(tail) by {
        forall i, j | 0 <= i < j < |tail| ensures tail[i] != tail[j] {
          assert tail[i] == s[i + 1] && tail[j] == s[j + 1];
        }
      }
      SortStringsSorted(tail);
      assert s[0] !in tail by {
        forall j | 0 <= j < |tail| ensures tail[j] != s[0] {
          assert tail[j] == s[j + 1];
        }
      }
      assert s[0] !in multiset(SortStrings(tail));
      InsertSorted(s[0], SortStrings(tail));
    }
  }

  /** Two strictly ascending sequences with the same elements are equal:
      the sorted order of a set of names is unique. */
  lemma {:induction false} SortedUnique(a: seq<string>, b: seq<string>)
    requires StrictlySorted(a) && StrictlySorted(b) && |a| == |b|
    requires forall x :: x in a <==> x in b
    ensures a == b
    decreases |a|
  {
    if a != [] {
      assert a[0] in b;
      assert b != [] && b[0] in a;
      if a[0] != b[0] {
        var i :| 0 <= i < |a| && a[i] == b[0];
        var j :| 0 <= j < |b| && b[j] == a[0];
        assert Below(b[0], a[0]);
        assert Below(a[0], b[0]);
        BelowTransitive(a[0], b[0], a[0]);
        BelowIrreflexive(a[0]);
      }
      forall x ensures x in a[1..] <==> x in b[1..] {
        if x in a[1..] {
          var i :| 0 <= i < |a[1..]| && a[1..][i] == x;
          assert Below(a[0], a[i + 1]);
          BelowIrreflexive(x);
          assert x in b;
          var j :| 0 <= j < |b| && b[j] == x;
          assert j != 0;
          assert b[1..][j - 1] == x;
        }
        if x in b[1..] {
          var j :| 0 <= j < |b[1..]| && b[1..][j] == x;
          assert Below(b[0], b[j + 1]);
          BelowIrreflexive(x);
          assert x in a;
          var i :| 0 <= i < |a| && a[i] == x;
          assert i != 0;
          assert a[1..][i - 1] == x;
        }
      }
      assert StrictlySorted(a[1..]) by {
        forall i, j | 0 <= i < j < |a| - 1 ensures Below(a[1..][i], a[1..][j]) {
          assert a[1..][i] == a[i + 1] && a[1..][j] == a[j + 1];
        }
      }
      assert StrictlySorted(b[1..]) by {
        forall i, j | 0 <= i < j < |b| - 1 ensures Below(b[1..][i], b[1..][j]) {
          assert b[1..][i] == b[i + 1] && b[1..][j] == b[j + 1];
        }
      }
      SortedUnique(a[1..], b[1..]);
      assert a == [a[0]] + a[1..] && b == [b[0]] + b[1..];
    }
  }

  /** Some enumeration of a set of names, without repetition: the order
      ranging over a Go map yields is not specified. */
  ghost function Enumerate(s: set<string>): (r: seq<string>)
    ensures Distinct(r) && forall x :: x in r <==> x in s
    decreases |s|
  {
    if s == {} then []
    else
      var x :| x in s;
      var rest := Enumerate(s - {x});
      var r := [x] + rest;
      assert forall i :: 1 <= i < |r| ==> r[i] == rest[i - 1];
      r
  }

  /** The keys of the map in the order writeAddOnsFile emits them. */
  ghost function SortedNames(s: set<string>): (r: seq<string>)
    ensures StrictlySorted(r) && forall x :: x in r <==> x in s
  {
    var e := Enumerate(s);
    SortStringsSorted(e);
    var r := SortStrings(e);
    assert forall x :: x in r <==> x in multiset(e);
    r
  }

  /** The line writeAddOnsFile emits for one addon, before its '\n'. */
  function LineFor(name: string, enabled: bool): string
  {
    if enabled then name + ": 1" else "# " + name + ": 0"
  }

  /** The lines for the given names, in their order. */
  function LinesFor(names: seq<string>, addons: map<string, bool>): (lines: seq<string>)
    requires forall i :: 0 <= i < |names| ==> names[i] in addons
    ensures |lines| == |names|
    ensures forall i :: 0 <= i < |names| ==> lines[i] == LineFor(names[i], addons[names[i]])
    decreases |names|
  {
    if names == [] then []
    else LinesFor(names[..|names| - 1], addons) + [LineFor(names[|names| - 1], addons[names[|names| - 1]])]
  }

  /** What writeAddOnsFile writes for a map: one line per addon, in
      ascending name order, each followed by '\n'. */
  ghost function ManifestLines(addons: map<string, bool>): (lines: seq<string>)
    ensures |lines| == |addons|
  {
    var names := SortedNames(addons.Keys);
    assert |names| == |addons| by { DistinctCard(names, addons.Keys); }
    LinesFor(names, addons)
  }

  ghost function ManifestText(addons: map<string, bool>): string
  {
    JoinLines(ManifestLines(addons))
  }

  lemma {:induction false} DistinctCard(names: seq<string>, s: set<string>)
    requires StrictlySorted(names) && forall x :: x in names <==> x in s
    ensures |names| == |s|
    decreases |names|
  {
    if names != [] {
      var x := names[0];
      forall y ensures y in names[1..] <==> y in s - {x} {
        if y in names[1..] {
          var j :| 0 <= j < |names[1..]| && names[1..][j] == y;
          assert Below(x, names[j + 1]);
          BelowIrreflexive(x);
        }
        if y in s - {x} {
          var j :| 0 <= j < |names| && names[j] == y;
          assert names[1..][j - 1] == y;
        }
      }
      assert StrictlySorted(names[1..]) by {
        forall i, j | 0 <= i < j < |names| - 1 ensures Below(names[1..][i], names[1..][j]) {
          assert names[1..][i] == names[i + 1] && names[1..][j] == names[j + 1];
        }
      }
      DistinctCard(names[1..], s - {x});
    } else {
      assert forall y :: y !in s;
      assert s == {};
    }
  }

  lemma {:induction false} JoinLinesSnoc(lines: seq<string>, line: string)
    ensures JoinLines(lines + [line]) == JoinLines(lines) + line + "\n"
    decreases |lines|
  {
    if lines == [] {
      assert [] + [line] == [line];
      assert [line][1..] == [];
    } else {
      assert (lines + [line])[0] == lines[0];
      assert (lines + [line])[1..] == lines[1..] + [line];
      JoinLinesSnoc(lines[1..], line);
    }
  }

  /** writeAddOnsFile's formatting: gather the names, sort them, emit a line
      for each. */
  method WriteAddOns(addons: map<string, bool>) returns (text: string)
    ensures text == ManifestText(addons)
  {
    var names := MapNames(addons);
    var sorted := SortStrings(names);
    SortedIsCanonical(names, addons.Keys);
    text := EmitLines(sorted, addons);
  }

  /** The keys of a map, in the order ranging over it yields them. */
  method MapNames(addons: map<string, bool>) returns (names: seq<string>)
    ensures Distinct(names) && forall x :: x in names <==> x in addons
  {
    names := [];
    var todo := addons.Keys;
    while todo != {}
      invariant todo <= addons.Keys
      invariant forall x :: x in names <==> x in addons.Keys - todo
      invariant Distinct(names)
      decreases |todo|
    {
      var name :| name in todo;
      DistinctSnoc(names, name);
      names := names + [name];
      todo := todo - {name};
    }
  }

  /** Whatever order the names were gathered in, sorting them gives the
      order SortedNames fixes. */
  lemma SortedIsCanonical(names: seq<string>, keys: set<string>)
    requires Distinct(names) && forall x :: x in names <==> x in keys
    ensures SortStrings(names) == SortedNames(keys)
  {
    var sorted := SortStrings(names);
    SortStringsSorted(names);
    assert forall x :: x in sorted <==> x in multiset(names);
    DistinctCard(sorted, keys);
    DistinctCard(SortedNames(keys), keys);
    SortedUnique(sorted, SortedNames(keys));
  }

  /** The loop emitting one line per name, each followed by '\n'. */
  method EmitLines(names: seq<string>, addons: map<string, bool>) returns (text: string)
    requires forall i :: 0 <= i < |names| ==> names[i] in addons
    ensures text == JoinLines(LinesFor(names, addons))
  {
    text := "";
    for i := 0 to |names|
      invariant Emitted(names, i, addons, text)
    {
      var name := names[i];
      var enabled := addons[name];
      var line;
      if enabled {
        line := name + ": 1";
      } else {
        line := "# " + name + ": 0";
      }
      EmitStep(names, i, addons, text, line);
      text := text + line + "\n";
    }
    assert names[..|names|] == names;
  }

  /** The text holds the lines for the first i names. */
  predicate Emitted(names: seq<string>, i: nat, addons: map<string, bool>, text: string)
    requires forall j :: 0 <= j < |names| ==> names[j] in addons
  {
    i <= |names| && text == JoinLines(LinesFor(names[..i], addons))
  }

  lemma EmitStep(names: seq<string>, i: nat, addons: map<string, bool>, text: string, line: string)
    requires forall j :: 0 <= j < |names| ==> names[j] in addons
    requires i < |names| && Emitted(names, i, addons, text)
    requires line == LineFor(names[i], addons[names[i]])
    ensures Emitted(names, i + 1, addons, text + line + "\n")
  {
    LinesForSnoc(names, i, addons);
    JoinLinesSnoc(LinesFor(names[..i], addons), line);
  }

  lemma LinesForSnoc(names: seq<string>, i: nat, addons: map<string, bool>)
    requires i < |names| && forall j :: 0 <= j < |names| ==> names[j] in addons
    ensures LinesFor(names[..i + 1], addons) == LinesFor(names[..i], addons) + [LineFor(names[i], addons[names[i]])]
  {
    assert names[..i + 1][..i] == names[..i];
  }


  /** A name writeAddOnsFile can write and parseAddOnsFile read back: no ':'
      or line break, no white space at either end, no leading '#'. */
  predicate GoodName(name: string)
  {
    ':' !in name && '\n' !in name && Trimmed(name) && !("#" <= name)
  }

  lemma {:induction false} LeadingWhiteAppend(a: string, s: string)
    requires AllWhite(a) && (s == [] || !IsWhiteSpace(s[0]))
    ensures LeadingWhite(a + s) == |a|
    decreases |a|
  {
    if a == [] {
      assert a + s == s;
    } else {
      assert (a + s)[1..] == a[1..] + s;
      LeadingWhiteAppend(a[1..], s);
    }
  }

  /** Trimming white space off the front of a trimmed string. */
  lemma TrimPadded(a: string, s: string)
    requires AllWhite(a) && Trimmed(s)
    ensures TrimSpace(a + s) == s
  {
    LeadingWhiteAppend(a, s);
    assert (a + s)[|a|..] == s;
    assert TrailingWhite(s) == 0;
  }

  lemma ColonSplit(name: string, rest: string)
    requires ':' !in name
    ensures SplitN2(name + ":" + rest, ':') == [name, rest]
  {
    var s := name + ":" + rest;
    IndexOfAppend(name, ":" + rest, ':');
    assert s == name + (":" + rest);
    assert s[..|name|] == name && s[|name| + 1..] == rest;
  }

  lemma {:induction false} IndexOfAppend(name: string, rest: string, c: char)
    requires c !in name && rest != [] && rest[0] == c
    ensures IndexOf(name + rest, c) == |name|
    decreases |name|
  {
    if name == [] {
      assert name + rest == rest;
    } else {
      assert (name + rest)[0] == name[0];
      assert (name + rest)[1..] == name[1..] + rest;
      IndexOfAppend(name[1..], rest, c);
    }
  }

  /** An enabled addon's line reads back as that addon, enabled. */
  lemma EnabledLineRead(name: string)
    requires GoodName(name)
    ensures LineEntry(LineFor(name, true)) == Some(Entry(name, true))
  {
    var line := name + ":" + " 1";
    assert LineFor(name, true) == line;
    assert line[|line| - 1] == '1';
    if name != [] {
      assert line[0] == name[0];
    } else {
      assert line[0] == ':';
    }
    LineOfFields(name, " 1");
    TrimSpaceSpec(name);
    OneValue();
  }

  lemma OneValue()
    ensures TrimSpace(" 1") == "1"
  {
    TrimPadded(" ", "1");
    assert " " + "1" == " 1";
  }

  /** A disabled addon's line reads back as that addon, disabled. */
  lemma DisabledLineRead(name: string)
    requires GoodName(name)
    ensures LineEntry(LineFor(name, false)) == Some(Entry(name, false))
  {
    var field := "# " + name;
    var line := field + ":" + " 0";
    assert LineFor(name, false) == line;
    assert line[0] == '#' && line[|line| - 1] == '0';
    assert ':' !in field by {
      assert field == "# " + name;
    }
    LineOfFields(field, " 0");
    MarkedField(name);
  }

  /** A line without white space at its ends and with no ':' before the
      one after `field` reads as the entry of its two fields. */
  lemma LineOfFields(field: string, value: string)
    requires ':' !in field && Trimmed(field + ":" + value)
    ensures LineEntry(field + ":" + value) == Some(FieldsEntry(field, value))
  {
    var line := field + ":" + value;
    TrimSpaceSpec(line);
    ColonSplit(field, value);
  }

  /** The name field `# name` trims to a marker followed by the name. */
  lemma MarkedField(name: string)
    requires GoodName(name)
    ensures "#" <= TrimSpace("# " + name)
    ensures TrimSpace(TrimSpace("# " + name)[1..]) == name
  {
    var field := "# " + name;
    if name == [] {
      assert field == "# ";
      assert LeadingWhite(field) == 0;
      assert TrailingWhite("#") == 0;
      assert TrailingWhite(field) == 1;
      assert TrimSpace(field) == "#";
      assert TrimSpace(field)[1..] == [];
      assert TrimSpace([]) == [];
    } else {
      assert field[0] == '#' && field[|field| - 1] == name[|name| - 1];
      TrimSpaceSpec(field);
      assert TrimSpace(field) == field;
      assert field[1..] == " " + name;
      TrimPadded(" ", name);
    }
  }

  /** Every line writeAddOnsFile emits reads back as the addon it was
      written for. */
  lemma LineForRead(name: string, enabled: bool)
    requires GoodName(name)
    ensures LineEntry(LineFor(name, enabled)) == Some(Entry(name, enabled))
  {
    if enabled { EnabledLineRead(name); } else { DisabledLineRead(name); }
  }

  /** The readings of the lines written for the given names. */
  function Written(names: seq<string>, addons: map<string, bool>): (r: seq<Option<Entry>>)
    requires forall i :: 0 <= i < |names| ==> names[i] in addons
  {
    seq(|names|, i requires 0 <= i < |names| && names[i] in addons => Some(Entry(names[i], addons[names[i]])))
  }

  lemma ReadingsOfLines(names: seq<string>, addons: map<string, bool>)
    requires forall i :: 0 <= i < |names| ==> names[i] in addons && GoodName(names[i])
    ensures Readings(LinesFor(names, addons)) == Written(names, addons)
  {
    var lines := LinesFor(names, addons);
    forall i | 0 <= i < |names| ensures Readings(lines)[i] == Written(names, addons)[i] {
      LineForRead(names[i], addons[names[i]]);
    }
  }

  lemma {:induction false} CollectWritten(names: seq<string>, addons: map<string, bool>)
    requires forall i :: 0 <= i < |names| ==> names[i] in addons
    ensures Collect(Written(names, addons)) == map x | x in names :: addons[x]
    decreases |names|
  {
    if names != [] {
      var k := |names| - 1;
      var prefix, last := names[..k], names[k];
      assert forall i :: 0 <= i < k ==> prefix[i] == names[i];
      CollectWritten(prefix, addons);
      var w := Written(names, addons);
      assert w[..k] == Written(prefix, addons);
      assert names == prefix + [last];
      RestrictSnoc(prefix, last, addons);
    }
  }

  lemma RestrictSnoc(names: seq<string>, last: string, addons: map<string, bool>)
    requires forall i :: 0 <= i < |names| ==> names[i] in addons
    requires last in addons
    ensures (map x | x in names :: addons[x])[last := addons[last]] == map x | x in names + [last] :: addons[x]
  {
  }

  /** The manifest round trip: reading back what writeAddOnsFile writes gives
      the same map, for names the format can carry. */
  lemma ManifestRoundTrip(addons: map<string, bool>)
    requires forall name :: name in addons ==> GoodName(name)
    ensures Entries(ScanLines(ManifestText(addons))) == addons
  {
    var names := SortedNames(addons.Keys);
    GoodSortedNames(addons, names);
    assert ManifestText(addons) == JoinLines(LinesFor(names, addons));
    LinesRoundTrip(names, addons);
    AllNamed(names, addons);
  }

  lemma GoodSortedNames(addons: map<string, bool>, names: seq<string>)
    requires forall name :: name in addons ==> GoodName(name)
    requires forall x :: x in names <==> x in addons.Keys
    ensures forall i :: 0 <= i < |names| ==> names[i] in addons && GoodName(names[i])
    ensures forall x :: x in names <==> x in addons
  {
  }

  lemma AllNamed(names: seq<string>, addons: map<string, bool>)
    requires forall x :: x in names <==> x in addons
    ensures (map x | x in names :: addons[x]) == addons
  {
  }

  /** Reading back the lines written for some names gives each of them with
      its state. */
  lemma LinesRoundTrip(names: seq<string>, addons: map<string, bool>)
    requires forall i :: 0 <= i < |names| ==> names[i] in addons && GoodName(names[i])
    ensures Entries(ScanLines(JoinLines(LinesFor(names, addons)))) == map x | x in names :: addons[x]
  {
    var lines := LinesFor(names, addons);
    forall i | 0 <= i < |lines| ensures PlainLine(lines[i]) {
      LineForPlain(names[i], addons[names[i]]);
    }
    ScanJoinLines(lines);
    ReadingsOfLines(names, addons);
    CollectWritten(names, addons);
  }

  /** No emitted line holds a line break or ends with '\r'. */
  lemma LineForPlain(name: string, enabled: bool)
    requires GoodName(name)
    ensures PlainLine(LineFor(name, enabled))
  {
    var l := LineFor(name, enabled);
    forall j | 0 <= j < |l| ensures l[j] != '\n' {
      if enabled {
        assert l == name + ": 1";
        if j < |name| { assert l[j] == name[j]; }
      } else {
        assert l == "# " + name + ": 0";
        if 2 <= j < 2 + |name| { assert l[j] == name[j - 2]; }
      }
    }
  }
}
