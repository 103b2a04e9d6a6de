/** ParseSimple and convertToProfile (pkg/lua/simple_parser.go): tokenize
    the SavedVariables text, skip to `AddonProfilesDB =`, parse the table
    there, and map it onto the Database records.

    `ParseSimpleSpec` is the reference definition; the `ParseSimple` method
    follows the source's loops and is proved to compute it. */
module SimpleParser {
  import opened Common
  import opened Lexer
  import opened TableParser
  import opened Profiles

  const TargetName := "AddonProfilesDB"

  /** Where the skip loop of ParseSimple leaves the cursor, starting from p:
      at the end-of-input token, or two tokens past the first
      `AddonProfilesDB` identifier (expect consumes the token after it,
      whether or not it is `=`). */
  function SkipTarget(ts: seq<Token>, p: nat): (q: nat)
    ensures q >= p
    decreases Left(ts, p)
  {
    var t := PeekAt(ts, p);
    if t.kind == EOF then p
    else if t.kind == IdentTok && t.value == TargetName then p + 2
    else SkipTarget(ts, p + 1)
  }

  /** The table held under key k, or the empty table when there is none:
      the source's two-step `ok` checks. */
  function TableField(m: map<string, Value>, k: string): map<string, Value>
  {
    if k in m && m[k].Table? then m[k].t else map[]
  }

  /** The bool-valued entries among the given keys of a table. */
  function BoolEntries(m: map<string, Value>, keys: set<string>): map<string, bool>
  {
    map a | a in keys && a in m && m[a].Bool? :: m[a].b
  }

  /** convertToProfile: the fields of a profile, with the defaults
      AutoDeps = true and Created = 0. */
  function ProfileOf(name: string, scope: string, m: map<string, Value>): (r: Profile)
    ensures r.name == name && r.scope == scope
    ensures forall a :: a in r.addons <==>
      "addons" in m && m["addons"].Table? && a in m["addons"].t && m["addons"].t[a].Bool?
    ensures forall a :: a in r.addons ==> r.addons[a] == m["addons"].t[a].b
    ensures r.autoDeps == if "autoDeps" in m && m["autoDeps"].Bool? then m["autoDeps"].b else true
    ensures r.created == if "created" in m && m["created"].Int? then m["created"].n else 0
  {
    var addons := TableField(m, "addons");
    Profile(
      name, scope,
      BoolEntries(addons, addons.Keys),
      if "autoDeps" in m && m["autoDeps"].Bool? then m["autoDeps"].b else true,
      if "created" in m && m["created"].Int? then m["created"].n else 0)
  }

  /** The profiles among the given keys of a profiles table: its table-valued
      entries, each converted under its own key. */
  function ProfilesOver(scope: string, pm: map<string, Value>, keys: set<string>): map<string, Profile>
  {
    map n | n in keys && n in pm && pm[n].Table? :: ProfileOf(n, scope, pm[n].t)
  }

  /** One section: the active profile when it is a string, and the profiles. */
  function SectionOf(scope: string, m: map<string, Value>): (r: Section)
    ensures forall n :: n in r.profiles <==> n in TableField(m, "profiles") && TableField(m, "profiles")[n].Table?
    ensures forall n :: n in r.profiles ==> r.profiles[n].name == n && r.profiles[n].scope == scope
  {
    var pm := TableField(m, "profiles");
    Section(
      if "activeProfile" in m && m["activeProfile"].Str? then m["activeProfile"].s else "",
      ProfilesOver(scope, pm, pm.Keys))
  }

  /** The character sections among the given keys of the char table. */
  function CharsOver(cm: map<string, Value>, keys: set<string>): map<string, Section>
  {
    map c | c in keys && c in cm && cm[c].Table? :: SectionOf(CharacterScope, cm[c].t)
  }

  /** The database read from the main table: account-wide profiles under
      `global`, one section per table-valued entry of `char`. */
  function DatabaseOf(main: map<string, Value>): (db: Database)
    ensures forall n :: n in db.global.profiles ==>
      db.global.profiles[n].name == n && db.global.profiles[n].scope == AccountScope
    ensures forall c :: c in db.chars <==> c in TableField(main, "char") && TableField(main, "char")[c].Table?
    ensures forall c, n :: c in db.chars && n in db.chars[c].profiles ==>
      db.chars[c].profiles[n].name == n && db.chars[c].profiles[n].scope == CharacterScope
  {
    var cm := TableField(main, "char");
    Database(GlobalOf(main), CharsOver(cm, cm.Keys))
  }

  /** The account-wide section: from `global` when it is a table. */
  function GlobalOf(main: map<string, Value>): Section
  {
    if "global" in main && main["global"].Table? then SectionOf(AccountScope, main["global"].t) else EmptySection
  }

  /** ParseSimple: the database, or the parse failure at the main table. */
  function ParseSimpleSpec(content: string): Result<Database>
  {
    var ts := Lexed(content);
    match TableAt(ts, SkipTarget(ts, 0))
    case Done(m, _) => Ok(DatabaseOf(m))
    case Failed(f) => Err(f)
  }

  /** One more key of a table visited by a conversion loop. */
  lemma BoolEntriesStep(m: map<string, Value>, todo: set<string>, a: string)
    requires a in todo && todo <= m.Keys
    ensures BoolEntries(m, m.Keys - (todo - {a}))
      == if m[a].Bool? then BoolEntries(m, m.Keys - todo)[a := m[a].b] else BoolEntries(m, m.Keys - todo)
  {
  }

  lemma ProfilesOverStep(scope: string, pm: map<string, Value>, todo: set<string>, n: string)
    requires n in todo && todo <= pm.Keys
    ensures ProfilesOver(scope, pm, pm.Keys - (todo - {n}))
      == if pm[n].Table? then ProfilesOver(scope, pm, pm.Keys - todo)[n := ProfileOf(n, scope, pm[n].t)]
         else ProfilesOver(scope, pm, pm.Keys - todo)
  {
  }

  lemma CharsOverStep(cm: map<string, Value>, todo: set<string>, c: string)
    requires c in todo && todo <= cm.Keys
    ensures CharsOver(cm, cm.Keys - (todo - {c}))
      == if cm[c].Table? then CharsOver(cm, cm.Keys - todo)[c := SectionOf(CharacterScope, cm[c].t)]
         else CharsOver(cm, cm.Keys - todo)
  {
  }

  /** convertToProfile */
  method ConvertToProfile(name: string, scope: string, profileMap: map<string, Value>) returns (profile: Profile)
    ensures profile == ProfileOf(name, scope, profileMap)
  {
    profile := Profile(name, scope, map[], true, 0);
    if "addons" in profileMap && profileMap["addons"].Table? {
      var addonsMap := profileMap["addons"].t;
      var todo := addonsMap.Keys;
      while todo != {}
        invariant todo <= addonsMap.Keys
        invariant profile == Profile(name, scope, BoolEntries(addonsMap, addonsMap.Keys - todo), true, 0)
        decreases |todo|
      {
        var addonName :| addonName in todo;
        if addonsMap[addonName].Bool? {
          profile := profile.(addons := profile.addons[addonName := addonsMap[addonName].b]);
        }
        BoolEntriesStep(addonsMap, todo, addonName);
        todo := todo - {addonName};
      }
    }
    if "autoDeps" in profileMap && profileMap["autoDeps"].Bool? {
      profile := profile.(autoDeps := profileMap["autoDeps"].b);
    }
    if "created" in profileMap && profileMap["created"].Int? {
      profile := profile.(created := profileMap["created"].n);
    }
  }

  /** The active-profile and profiles part of ParseSimple, done the same way
      for the global section and for each character. */
  method ConvertSection(scope: string, sectionMap: map<string, Value>) returns (section: Section)
    ensures section == SectionOf(scope, sectionMap)
  {
    section := EmptySection;
    if "activeProfile" in sectionMap && sectionMap["activeProfile"].Str? {
      section := section.(activeProfile := sectionMap["activeProfile"].s);
    }
    if "profiles" in sectionMap && sectionMap["profiles"].Table? {
      var profiles := ConvertProfiles(scope, sectionMap["profiles"].t);
      section := section.(profiles := profiles);
    } else {
      assert ProfilesOver(scope, map[], {}) == map[];
    }
  }

  /** The loop over a profiles table: every entry that is a table becomes a
      profile under its key. */
  method ConvertProfiles(scope: string, profilesMap: map<string, Value>) returns (profiles: map<string, Profile>)
    ensures profiles == ProfilesOver(scope, profilesMap, profilesMap.Keys)
  {
    profiles := map[];
    var todo := profilesMap.Keys;
    while todo != {}
      invariant todo <= profilesMap.Keys
      invariant profiles == ProfilesOver(scope, profilesMap, profilesMap.Keys - todo)
      decreases |todo|
    {
      var profileName :| profileName in todo;
      if profilesMap[profileName].Table? {
        var profile := ConvertToProfile(profileName, scope, profilesMap[profileName].t);
        profiles := profiles[profileName := profile];
      }
      ProfilesOverStep(scope, profilesMap, todo, profileName);
      todo := todo - {profileName};
    }
  }

  /** ParseSimple */
  method ParseSimple(content: string) returns (r: Result<Database>)
    ensures r == ParseSimpleSpec(content)
  {
    var tokens := Tokenize(content);
    var parser := new Parser(tokens);
    while parser.Peek().kind != EOF
      invariant parser.tokens == tokens
      invariant SkipTarget(tokens, parser.pos) == SkipTarget(tokens, 0)
      decreases Left(tokens, parser.pos)
    {
      if parser.Peek().kind == IdentTok && parser.Peek().value == TargetName {
        var _ := parser.Next();
        var _, _ := parser.Expect(Equals);
        break;
      }
      var _ := parser.Next();
    }
    assert parser.pos == SkipTarget(tokens, 0);
    var main := parser.ParseTable();
    if main.Err? {
      return Err(main.failure);
    }
    assert TableAt(tokens, SkipTarget(tokens, 0)) == Done(main.value, TableAt(tokens, SkipTarget(tokens, 0)).next);
    var db := ConvertDatabase(main.value);
    r := Ok(db);
  }

  /** The mapping half of ParseSimple: the global section, then each
      character's section. */
  method ConvertDatabase(mainTable: map<string, Value>) returns (db: Database)
    ensures db == DatabaseOf(mainTable)
  {
    db := EmptyDatabase;
    if "global" in mainTable && mainTable["global"].Table? {
      var global := ConvertSection(AccountScope, mainTable["global"].t);
      db := db.(global := global);
    }
    assert db == Database(GlobalOf(mainTable), map[]);
    if "char" in mainTable && mainTable["char"].Table? {
      var charMap := mainTable["char"].t;
      var todo := charMap.Keys;
      while todo != {}
        invariant todo <= charMap.Keys
        invariant db.global == GlobalOf(mainTable)
        invariant db.chars == CharsOver(charMap, charMap.Keys - todo)
        decreases |todo|
      {
        var charKey :| charKey in todo;
        if charMap[charKey].Table? {
          var charData := ConvertSection(CharacterScope, charMap[charKey].t);
          db := db.(chars := db.chars[charKey := charData]);
        }
        CharsOverStep(charMap, todo, charKey);
        todo := todo - {charKey};
      }
      assert charMap.Keys - todo == TableField(mainTable, "char").Keys;
    } else {
      NoCharField(mainTable);
    }
  }

  lemma NoCharField(main: map<string, Value>)
    requires !("char" in main && main["char"].Table?)
    ensures CharsOver(TableField(main, "char"), TableField(main, "char").Keys) == map[]
  {
  }
}
