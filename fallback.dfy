/** The older regex-based reader kept as a fallback (pkg/lua/parser.go), and
    the dispatch that tries the table parser first.

    The regular-expression extractors depend on Go's RE2 engine and are not
    modelled: an `Extractors` value supplies them, and every result here holds
    for every choice of extractors. What is modelled is what the source builds
    from their answers: the defaulting and filtering of parseProfile, the
    assembly of parseRegex, the line scanner of extractCharSection and the
    try-then-fall-back policy of Parse. */
module RegexFallback {
  import opened Common
  import opened TableParser
  import opened Profiles
  import SimpleParser

  /** The regex helpers of parser.go, uninterpreted. */
  datatype Extractors = Extractors(
    table: (string, seq<string>) -> Option<map<string, string>>,  // extractTable(content, keys...)
    tableIn: (string, string) -> Option<map<string, string>>,     // extractTableFromContent(content, key)
    str: (string, seq<string>) -> string,                         // extractString(content, keys...)
    strIn: (string, string) -> string,                            // extractStringFromContent(content, key)
    charBody: string -> Option<string>,                           // the `["char"] = {...}` pattern's group
    charKey: string -> Option<string>)                            // the character key-line pattern's group

  /** parseProfile: a profile read from its table text. */
  function TextProfile(name: string, scope: string, content: string, ex: Extractors): (p: Profile)
    ensures p.name == name && p.scope == scope
    ensures forall a :: a in p.addons ==> p.addons[a]
    ensures forall a :: a in p.addons <==>
      ex.tableIn(content, "addons").Some? && a in ex.tableIn(content, "addons").value
      && Contains(ex.tableIn(content, "addons").value[a], "true")
    ensures !Contains(content, "autoDeps") ==> p.autoDeps
    ensures Contains(content, "autoDeps") ==> (p.autoDeps <==> ex.strIn(content, "autoDeps") == "true")
    ensures p.created != 0 ==> ParseInt(ex.strIn(content, "created")).ok
    ensures ParseInt(ex.strIn(content, "created")).ok ==> p.created == ParseInt(ex.strIn(content, "created")).value
  {
    var addons := if ex.tableIn(content, "addons").Some? then ex.tableIn(content, "addons").value else map[];
    var createdStr := ex.strIn(content, "created");
    Profile(
      name, scope,
      EnabledIn(addons, addons.Keys),
      if Contains(content, "autoDeps") then ex.strIn(content, "autoDeps") == "true" else true,
      if createdStr != "" && ParseInt(createdStr).ok then ParseInt(createdStr).value else 0)
  }

  /** The addons among the given keys whose value text contains "true". */
  function EnabledIn(t: map<string, string>, keys: set<string>): map<string, bool>
  {
    map a | a in keys && a in t && Contains(t[a], "true") :: true
  }

  /** The profiles read from a profiles table text, among the given keys. */
  function TextProfiles(scope: string, t: map<string, string>, keys: set<string>, ex: Extractors): map<string, Profile>
  {
    map n | n in keys && n in t :: TextProfile(n, scope, t[n], ex)
  }

  /** A character's section read from its text. */
  function TextSection(charContent: string, ex: Extractors): Section
  {
    var t := if ex.tableIn(charContent, "profiles").Some? then ex.tableIn(charContent, "profiles").value else map[];
    Section(ex.strIn(charContent, "activeProfile"), TextProfiles(CharacterScope, t, t.Keys, ex))
  }

  function TextSections(cs: map<string, string>, keys: set<string>, ex: Extractors): map<string, Section>
  {
    map c | c in keys && c in cs :: TextSection(cs[c], ex)
  }

  const GlobalProfilesKeys := ["AddonProfilesDB", "global", "profiles"]
  const GlobalActiveKeys := ["AddonProfilesDB", "global", "activeProfile"]

  /** parseRegex: the database it builds. */
  function RegexDatabase(content: string, ex: Extractors): (db: Database)
    ensures forall n :: n in db.global.profiles <==>
      ex.table(content, GlobalProfilesKeys).Some? && n in ex.table(content, GlobalProfilesKeys).value
    ensures forall c :: c in db.chars <==> c in CharSections(content, ex)
  {
    var t := if ex.table(content, GlobalProfilesKeys).Some? then ex.table(content, GlobalProfilesKeys).value else map[];
    var cs := CharSections(content, ex);
    Database(
      Section(ex.str(content, GlobalActiveKeys), TextProfiles(AccountScope, t, t.Keys, ex)),
      TextSections(cs, cs.Keys, ex))
  }

  // extractCharSection

  /** The scanner's variables: currentChar, the text collected for it,
      bracketDepth, and the sections stored so far. */
  datatype Scan = Scan(current: string, text: string, depth: int, result: map<string, string>)

  const StartScan := Scan("", "", 0, map[])

  /** The sections with the pending one stored, if it is named and has text. */
  function Flushed(st: Scan): map<string, string>
  {
    if st.current != "" && |st.text| > 0 then st.result[st.current := st.text] else st.result
  }

  /** strings.Count(line, "{") - strings.Count(line, "}") */
  function Delta(line: string): int
  {
    Count(line, '{') - Count(line, '}')
  }

  /** One line: a key line flushes and starts a section at depth 1; inside a
      section a line is collected and moves the depth, and the section is
      stored when the depth reaches 0; any other line is ignored. */
  function ScanLine(st: Scan, line: string, ex: Extractors): Scan
  {
    match ex.charKey(line)
    case Some(k) => Scan(k, "", 1, Flushed(st))
    case None =>
      if st.current == "" then st
      else
        var text := st.text + line + "\n";
        var depth := st.depth + Delta(line);
        if depth == 0 then Scan("", "", depth, st.result[st.current := text])
        else Scan(st.current, text, depth, st.result)
  }

  function ScanAll(st: Scan, lines: seq<string>, ex: Extractors): Scan
    decreases |lines|
  {
    if lines == [] then st else ScanAll(ScanLine(st, lines[0], ex), lines[1..], ex)
  }

  /** extractCharSection: the character sections of the text. */
  function CharSections(content: string, ex: Extractors): map<string, string>
  {
    match ex.charBody(content)
    case None => map[]
    case Some(body) => Flushed(ScanAll(StartScan, ScanLines(body), ex))
  }

  /** Parse: the table parser's database when it succeeds, else the
      fallback's. A table the parser would loop on forever (Diverges) is
      passed on: the source never returns from it. */
  function ParseSpec(content: string, ex: Extractors): (r: Result<Database>)
    ensures r.Err? ==> r.failure.Diverges? && r == SimpleParser.ParseSimpleSpec(content)
    ensures SimpleParser.ParseSimpleSpec(content).Ok? ==> r == SimpleParser.ParseSimpleSpec(content)
    ensures SimpleParser.ParseSimpleSpec(content).Err? && !SimpleParser.ParseSimpleSpec(content).failure.Diverges?
      ==> r == Ok(RegexDatabase(content, ex))
  {
    var simple := SimpleParser.ParseSimpleSpec(content);
    if simple.Ok? || simple.failure.Diverges? then simple else Ok(RegexDatabase(content, ex))
  }

  lemma EnabledInStep(t: map<string, string>, todo: set<string>, a: string)
    requires a in todo && todo <= t.Keys
    ensures EnabledIn(t, t.Keys - (todo - {a}))
      == if Contains(t[a], "true") then EnabledIn(t, t.Keys - todo)[a := true] else EnabledIn(t, t.Keys - todo)
  {
  }

  lemma TextProfilesStep(scope: string, t: map<string, string>, todo: set<string>, n: string, ex: Extractors)
    requires n in todo && todo <= t.Keys
    ensures TextProfiles(scope, t, t.Keys - (todo - {n}), ex)
      == TextProfiles(scope, t, t.Keys - todo, ex)[n := TextProfile(n, scope, t[n], ex)]
  {
  }

  lemma TextSectionsStep(cs: map<string, string>, todo: set<string>, c: string, ex: Extractors)
    requires c in todo && todo <= cs.Keys
    ensures TextSections(cs, cs.Keys - (todo - {c}), ex)
      == TextSections(cs, cs.Keys - todo, ex)[c := TextSection(cs[c], ex)]
  {
  }

  /** parseProfile */
  method ParseProfile(name: string, scope: string, content: string, ex: Extractors) returns (profile: Profile)
    ensures profile == TextProfile(name, scope, content, ex)
  {
    profile := Profile(name, scope, map[], false, 0);
    var addonsTable := ex.tableIn(content, "addons");
    if addonsTable.Some? {
      var t := addonsTable.value;
      var todo := t.Keys;
      while todo != {}
        invariant todo <= t.Keys
        invariant profile == Profile(name, scope, EnabledIn(t, t.Keys - todo), false, 0)
        decreases |todo|
      {
        var addonName :| addonName in todo;
        if Contains(t[addonName], "true") {
          profile := profile.(addons := profile.addons[addonName := true]);
        }
        EnabledInStep(t, todo, addonName);
        todo := todo - {addonName};
      }
    }
    if Contains(content, "autoDeps") {
      var autoDepsStr := ex.strIn(content, "autoDeps");
      profile := profile.(autoDeps := autoDepsStr == "true");
    } else {
      profile := profile.(autoDeps := true);
    }
    var createdStr := ex.strIn(content, "created");
    if createdStr != "" {
      var created := ParseInt(createdStr);
      if created.ok {
        profile := profile.(created := created.value);
      }
    }
  }

  /** The profiles loop of parseRegex, used for the global table and for
      each character. */
  method ParseProfiles(scope: string, t: map<string, string>, ex: Extractors) returns (profiles: map<string, Profile>)
    ensures profiles == TextProfiles(scope, t, t.Keys, ex)
  {
    profiles := map[];
    var todo := t.Keys;
    while todo != {}
      invariant todo <= t.Keys
      invariant profiles == TextProfiles(scope, t, t.Keys - todo, ex)
      decreases |todo|
    {
      var profileName :| profileName in todo;
      var profile := ParseProfile(profileName, scope, t[profileName], ex);
      profiles := profiles[profileName := profile];
      TextProfilesStep(scope, t, todo, profileName, ex);
      todo := todo - {profileName};
    }
  }

  /** parseRegex */
  method ParseRegex(content: string, ex: Extractors) returns (db: Database)
    ensures db == RegexDatabase(content, ex)
  {
    db := EmptyDatabase;
    var globalProfiles := ex.table(content, GlobalProfilesKeys);
    if globalProfiles.Some? {
      var profiles := ParseProfiles(AccountScope, globalProfiles.value, ex);
      db := db.(global := db.global.(profiles := profiles));
    }
    var activeProfile := ex.str(content, GlobalActiveKeys);
    if activeProfile != "" {
      db := db.(global := db.global.(activeProfile := activeProfile));
    }
    var charSection := ExtractCharSection(content, ex);
    var chars := ParseChars(charSection, ex);
    db := db.(chars := chars);
  }

  /** The character loop of parseRegex. */
  method ParseChars(charSection: map<string, string>, ex: Extractors) returns (chars: map<string, Section>)
    ensures chars == TextSections(charSection, charSection.Keys, ex)
  {
    chars := map[];
    var todo := charSection.Keys;
    while todo != {}
      invariant todo <= charSection.Keys
      invariant chars == TextSections(charSection, charSection.Keys - todo, ex)
      decreases |todo|
    {
      var charKey :| charKey in todo;
      var charData := ParseCharSection(charSection[charKey], ex);
      chars := chars[charKey := charData];
      TextSectionsStep(charSection, todo, charKey, ex);
      todo := todo - {charKey};
    }
  }

  /** The body of parseRegex's character loop: one character's section. */
  method ParseCharSection(charContent: string, ex: Extractors) returns (charData: Section)
    ensures charData == TextSection(charContent, ex)
  {
    charData := Section("", map[]);
    var charProfiles := ex.tableIn(charContent, "profiles");
    if charProfiles.Some? {
      var profiles := ParseProfiles(CharacterScope, charProfiles.value, ex);
      charData := charData.(profiles := profiles);
    }
    var charActive := ex.strIn(charContent, "activeProfile");
    if charActive != "" {
      charData := charData.(activeProfile := charActive);
    }
  }

  /** extractCharSection */
  method ExtractCharSection(content: string, ex: Extractors) returns (result: map<string, string>)
    ensures result == CharSections(content, ex)
  {
    result := map[];
    var charMatch := ex.charBody(content);
    if charMatch.None? {
      return;
    }
    var lines := ScanLines(charMatch.value);
    var currentChar := "";
    var currentContent := "";
    var bracketDepth := 0;
    var i := 0;
    while i < |lines|
      invariant i <= |lines|
      invariant ScanAll(Scan(currentChar, currentContent, bracketDepth, result), lines[i..], ex)
        == ScanAll(StartScan, lines, ex)
      decreases |lines| - i
    {
      var line := lines[i];
      ghost var st := Scan(currentChar, currentContent, bracketDepth, result);
      ScanAllStep(st, lines, i, ex);
      var key := ex.charKey(line);
      if key.Some? {
        if currentChar != "" && |currentContent| > 0 {
          result := result[currentChar := currentContent];
        }
        assert result == Flushed(st);
        currentChar := key.value;
        currentContent := "";
        bracketDepth := 1;
      } else if currentChar != "" {
        currentContent := currentContent + line + "\n";
        bracketDepth := bracketDepth + Count(line, '{') - Count(line, '}');
        assert bracketDepth == st.depth + Delta(line);
        if bracketDepth == 0 {
          result := result[currentChar := currentContent];
          currentChar := "";
          currentContent := "";
        }
      }
      assert Scan(currentChar, currentContent, bracketDepth, result) == ScanLine(st, line, ex);
      i := i + 1;
    }
    if currentChar != "" && |currentContent| > 0 {
      result := result[currentChar := currentContent];
    }
  }

  lemma ScanAllStep(st: Scan, lines: seq<string>, i: nat, ex: Extractors)
    requires i < |lines|
    ensures ScanAll(st, lines[i..], ex) == ScanAll(ScanLine(st, lines[i], ex), lines[i + 1..], ex)
  {
    assert lines[i..][1..] == lines[i + 1..];
  }

  /** Parse */
  method Parse(content: string, ex: Extractors) returns (r: Result<Database>)
    ensures r == ParseSpec(content, ex)
  {
    var simple := SimpleParser.ParseSimple(content);
    if simple.Ok? || simple.failure.Diverges? {
      return simple;
    }
    var db := ParseRegex(content, ex);
    r := Ok(db);
  }
}
