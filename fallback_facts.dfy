/** What the fallback reader promises: how extractCharSection cuts the
    character table into sections, that Parse only ever fails where the
    source would not return, and that every database it yields keeps each
    profile under its own name and in its own scope. */
module RegexFallbackFacts {
  import opened Common
  import opened Lexer
  import opened TableParser
  import opened Profiles
  import opened SimpleParser
  import opened SimpleParserFacts
  import opened RegexFallback

  predicate NoKeyLines(lines: seq<string>, ex: Extractors)
  {
    forall i :: 0 <= i < |lines| ==> ex.charKey(lines[i]).None?
  }

  /** Starting at depth d, the depth stays away from 0 until the last line,
      where it reaches 0. */
  predicate ClosesAtEnd(d: int, lines: seq<string>)
    decreases |lines|
  {
    lines != [] &&
    var d' := d + Delta(lines[0]);
    if |lines| == 1 then d' == 0 else d' != 0 && ClosesAtEnd(d', lines[1..])
  }

  /** Starting at depth d, the depth never reaches 0. */
  predicate StaysOpen(d: int, lines: seq<string>)
    decreases |lines|
  {
    lines == [] || (d + Delta(lines[0]) != 0 && StaysOpen(d + Delta(lines[0]), lines[1..]))
  }

  /** The depth after the lines, starting at d. */
  function DepthAfter(d: int, lines: seq<string>): int
    decreases |lines|
  {
    if lines == [] then d else DepthAfter(d + Delta(lines[0]), lines[1..])
  }

  lemma ScanAllCons(st: Scan, lines: seq<string>, ex: Extractors)
    requires lines != []
    ensures ScanAll(st, lines, ex) == ScanAll(ScanLine(st, lines[0], ex), lines[1..], ex)
  {
  }

  /** Lines that are not key lines, seen while no section is open, are
      ignored. */
  lemma {:induction false} IgnoredOutside(st: Scan, lines: seq<string>, ex: Extractors)
    requires st.current == "" && NoKeyLines(lines, ex)
    ensures ScanAll(st, lines, ex) == st
    decreases |lines|
  {
    if lines != [] {
      assert ex.charKey(lines[0]).None?;
      assert NoKeyLines(lines[1..], ex) by {
        forall i | 0 <= i < |lines| - 1 ensures ex.charKey(lines[1..][i]).None? {
          assert lines[1..][i] == lines[i + 1];
        }
      }
      IgnoredOutside(st, lines[1..], ex);
    }
  }

  /** Inside a section, the lines up to the one where the depth reaches 0 are
      collected, each followed by a newline, and the section is stored under
      its key at that line. */
  lemma {:induction false} SectionCloses(k: string, text: string, d: int, result: map<string, string>,
                                         block: seq<string>, rest: seq<string>, ex: Extractors)
    requires k != "" && NoKeyLines(block, ex) && ClosesAtEnd(d, block)
    ensures ScanAll(Scan(k, text, d, result), block + rest, ex)
      == ScanAll(Scan("", "", 0, result[k := text + JoinLines(block)]), rest, ex)
    decreases |block|
  {
    var line := block[0];
    NoKeyLinesTail(block, ex);
    ConsSlices(block, rest);
    ScanAllCons(Scan(k, text, d, result), block + rest, ex);
    InnerLine(k, text, d, result, line, ex);
    JoinLinesCons(text, block);
    if |block| > 1 {
      SectionCloses(k, text + line + "\n", d + Delta(line), result, block[1..], rest, ex);
    }
  }

  /** Inside a section whose depth never reaches 0, every line is collected
      and the section stays open. */
  lemma {:induction false} SectionStaysOpen(k: string, text: string, d: int, result: map<string, string>,
                                            block: seq<string>, ex: Extractors)
    requires k != "" && NoKeyLines(block, ex) && StaysOpen(d, block)
    ensures ScanAll(Scan(k, text, d, result), block, ex)
      == Scan(k, text + JoinLines(block), DepthAfter(d, block), result)
    decreases |block|
  {
    if block == [] {
      assert text + JoinLines(block) == text;
    } else {
      var line := block[0];
      NoKeyLinesTail(block, ex);
      InnerLine(k, text, d, result, line, ex);
      JoinLinesCons(text, block);
      SectionStaysOpen(k, text + line + "\n", d + Delta(line), result, block[1..], ex);
    }
  }

  lemma NoKeyLinesTail(block: seq<string>, ex: Extractors)
    requires block != [] && NoKeyLines(block, ex)
    ensures ex.charKey(block[0]).None? && NoKeyLines(block[1..], ex)
  {
    forall i | 0 <= i < |block| - 1 ensures ex.charKey(block[1..][i]).None? {
      assert block[1..][i] == block[i + 1];
    }
  }

  lemma ConsSlices(block: seq<string>, rest: seq<string>)
    requires block != []
    ensures (block + rest)[0] == block[0] && (block + rest)[1..] == block[1..] + rest
    ensures |block| == 1 ==> block[1..] + rest == rest
  {
  }

  lemma JoinLinesCons(text: string, block: seq<string>)
    requires block != []
    ensures text + block[0] + "\n" + JoinLines(block[1..]) == text + JoinLines(block)
    ensures |block| == 1 ==> text + block[0] + "\n" == text + JoinLines(block)
  {
    var a, j := block[0], JoinLines(block[1..]);
    assert JoinLines(block) == a + "\n" + j;
    StringAssoc(text, a, "\n");
    StringAssoc(text, a + "\n", j);
    if |block| == 1 {
      assert j == [];
      assert a + "\n" + j == a + "\n";
    }
  }

  lemma StringAssoc(x: string, y: string, z: string)
    ensures (x + y) + z == x + (y + z)
  {
  }

  /** A line that is not a key line, inside the section k. */
  lemma InnerLine(k: string, text: string, d: int, result: map<string, string>, line: string, ex: Extractors)
    requires k != "" && ex.charKey(line).None?
    ensures ScanLine(Scan(k, text, d, result), line, ex)
      == if d + Delta(line) == 0 then Scan("", "", 0, result[k := text + line + "\n"])
         else Scan(k, text + line + "\n", d + Delta(line), result)
  {
  }

  /** A key line ends an open section: the section is stored if it has
      text, and the new one starts at depth 1. */
  lemma NewKeyFlushes(k: string, text: string, d: int, result: map<string, string>,
                      block: seq<string>, keyLine: string, k2: string, rest: seq<string>, ex: Extractors)
    requires k != "" && NoKeyLines(block, ex) && StaysOpen(d, block)
    requires ex.charKey(keyLine) == Some(k2)
    requires text + JoinLines(block) != []
    ensures ScanAll(Scan(k, text, d, result), block + [keyLine] + rest, ex)
      == ScanAll(Scan(k2, "", 1, result[k := text + JoinLines(block)]), rest, ex)
  {
    ScanAllAppend(Scan(k, text, d, result), block, [keyLine] + rest, ex);
    assert block + [keyLine] + rest == block + ([keyLine] + rest);
    SectionStaysOpen(k, text, d, result, block, ex);
    ScanAllCons(Scan(k, text + JoinLines(block), DepthAfter(d, block), result), [keyLine] + rest, ex);
    assert ([keyLine] + rest)[1..] == rest;
  }

  lemma {:induction false} ScanAllAppend(st: Scan, a: seq<string>, b: seq<string>, ex: Extractors)
    ensures ScanAll(st, a + b, ex) == ScanAll(ScanAll(st, a, ex), b, ex)
    decreases |a|
  {
    if a == [] {
      assert a + b == b;
    } else {
      assert (a + b)[0] == a[0] && (a + b)[1..] == a[1..] + b;
      ScanAllAppend(ScanLine(st, a[0], ex), a[1..], b, ex);
    }
  }

  /** A character table holding one section, closed by its braces: the
      section's text is every line after the key line. */
  lemma OneClosedSection(content: string, body: string, keyLine: string, k: string, block: seq<string>, ex: Extractors)
    requires ex.charBody(content) == Some(body)
    requires ScanLines(body) == [keyLine] + block
    requires ex.charKey(keyLine) == Some(k) && k != ""
    requires NoKeyLines(block, ex) && ClosesAtEnd(1, block)
    ensures CharSections(content, ex) == map[k := JoinLines(block)]
  {
    var lines := [keyLine] + block;
    ScanAllCons(StartScan, lines, ex);
    assert lines[1..] == block;
    assert Flushed(StartScan) == map[];
    SectionCloses(k, "", 1, map[], block, [], ex);
    assert block + [] == block;
    assert "" + JoinLines(block) == JoinLines(block);
    assert map[][k := JoinLines(block)] == map[k := JoinLines(block)];
  }

  /** A section still open at the end of the text is stored all the same,
      as long as it has text. */
  lemma OpenSectionFlushed(content: string, body: string, keyLine: string, k: string, block: seq<string>, ex: Extractors)
    requires ex.charBody(content) == Some(body)
    requires ScanLines(body) == [keyLine] + block
    requires ex.charKey(keyLine) == Some(k) && k != ""
    requires NoKeyLines(block, ex) && StaysOpen(1, block) && block != []
    ensures CharSections(content, ex) == map[k := JoinLines(block)]
  {
    var lines := [keyLine] + block;
    ScanAllCons(StartScan, lines, ex);
    assert lines[1..] == block;
    assert Flushed(StartScan) == map[];
    SectionStaysOpen(k, "", 1, map[], block, ex);
    assert "" + JoinLines(block) == JoinLines(block);
    assert JoinLines(block) != [] by {
      assert JoinLines(block) == block[0] + "\n" + JoinLines(block[1..]);
    }
  }

  /** Without a character table there are no character sections. */
  lemma NoCharTable(content: string, ex: Extractors)
    requires ex.charBody(content).None?
    ensures CharSections(content, ex) == map[]
  {
  }

  /** The fallback keeps each profile under its own name, in its own scope. */
  lemma RegexWellFormed(content: string, ex: Extractors)
    ensures WellFormed(RegexDatabase(content, ex))
  {
    var db := RegexDatabase(content, ex);
    forall n | n in db.global.profiles
      ensures db.global.profiles[n].name == n && db.global.profiles[n].scope == AccountScope
    {
    }
    forall c | c in db.chars
      ensures SectionWellFormed(db.chars[c], CharacterScope)
    {
    }
  }

  /** So does every database Parse yields, whichever reader produced it. */
  lemma ParseWellFormed(content: string, ex: Extractors)
    requires ParseSpec(content, ex).Ok?
    ensures WellFormed(ParseSpec(content, ex).value)
  {
    var simple := ParseSimpleSpec(content);
    if simple.Ok? {
      var ts := Lexed(content);
      DatabaseOfWellFormed(TableAt(ts, SkipTarget(ts, 0)).value);
    } else {
      RegexWellFormed(content, ex);
    }
  }

  /** A text without the AddonProfilesDB identifier is read by the fallback. */
  lemma NoTargetFallsBack(content: string, ex: Extractors)
    requires forall i :: 0 <= i < |Lexed(content)| ==> !IsTarget(Lexed(content)[i])
    ensures ParseSpec(content, ex) == Ok(RegexDatabase(content, ex))
  {
    NoTargetFails(content);
  }
}
