/** What ParseSimple promises: where the skip loop stops, that a parse
    succeeds exactly on the text of a table literal and yields the database
    read from that literal, and that the mapper loses nothing of a
    well-formed database written out as a table. */
module SimpleParserFacts {
  import opened Common
  import opened Lexer
  import opened LexerFacts
  import opened TableParser
  import opened TableFacts
  import opened Profiles
  import opened SimpleParser

  predicate IsTarget(t: Token)
  {
    t.kind == IdentTok && t.value == TargetName
  }

  /** With no AddonProfilesDB identifier from p on, the skip loop runs to
      the end-of-input token. */
  lemma {:induction false} SkipToEnd(ts: seq<Token>, p: nat)
    requires |ts| >= 1 && ts[|ts| - 1] == EofToken
    requires forall i :: 0 <= i < |ts| - 1 ==> ts[i].kind != EOF
    requires p < |ts|
    requires forall i :: p <= i < |ts| ==> !IsTarget(ts[i])
    ensures SkipTarget(ts, p) == |ts| - 1
    decreases |ts| - p
  {
    if p < |ts| - 1 {
      assert !IsTarget(ts[p]);
      SkipToEnd(ts, p + 1);
    }
  }

  /** The skip loop stops two tokens past the first AddonProfilesDB
      identifier. */
  lemma {:induction false} SkipToTarget(ts: seq<Token>, p: nat, i: nat)
    requires p <= i < |ts| && IsTarget(ts[i])
    requires forall j :: p <= j < i ==> !IsTarget(ts[j]) && ts[j].kind != EOF
    ensures SkipTarget(ts, p) == i + 2
    decreases i - p
  {
    if p < i {
      assert !IsTarget(ts[p]) && ts[p].kind != EOF;
      SkipToTarget(ts, p + 1, i);
    }
  }

  /** A text without the AddonProfilesDB identifier is rejected: the parser
      has consumed every token and finds the end where a `{` belongs. */
  lemma NoTargetFails(content: string)
    requires forall i :: 0 <= i < |Lexed(content)| ==> !IsTarget(Lexed(content)[i])
    ensures ParseSimpleSpec(content) == Err(Expected(LBrace, EOF))
  {
    var ts := Lexed(content);
    SkipToEnd(ts, 0);
  }

  /** After the first AddonProfilesDB identifier the result is whatever the
      table parser makes of the text two tokens on. */
  lemma TargetThenTable(content: string, i: nat)
    requires i < |Lexed(content)| && IsTarget(Lexed(content)[i])
    requires forall j :: 0 <= j < i ==> !IsTarget(Lexed(content)[j])
    ensures ParseSimpleSpec(content) ==
      match TableAt(Lexed(content), i + 2)
      case Done(m, _) => Ok(DatabaseOf(m))
      case Failed(f) => Err(f)
  {
    var ts := Lexed(content);
    SkipToTarget(ts, 0, i);
  }

  /** A table literal where the main table belongs parses to the database
      read from the literal's value. */
  lemma ParseSimpleOfLiteral(content: string, items: seq<Item>)
    requires Holds(Lexed(content), SkipTarget(Lexed(content), 0), Tokens(LTable(items)))
    ensures ParseSimpleSpec(content) == Ok(DatabaseOf(EvalItems(items, map[])))
  {
    var ts := Lexed(content);
    var p := SkipTarget(ts, 0);
    ValueAtLit(ts, p, LTable(items));
    HoldsAt(ts, p, Tokens(LTable(items)), 0);
  }

  /** Conversely, every successful parse read a table literal there. */
  lemma ParseSimpleOkIsLiteral(content: string) returns (items: seq<Item>)
    requires ParseSimpleSpec(content).Ok?
    ensures Holds(Lexed(content), SkipTarget(Lexed(content), 0), Tokens(LTable(items)))
    ensures ParseSimpleSpec(content) == Ok(DatabaseOf(EvalItems(items, map[])))
  {
    var ts := Lexed(content);
    LexedCanonical(content);
    items := ParsedTable(ts, SkipTarget(ts, 0));
  }

  lemma RenderCons(t: Token, ts: seq<Token>)
    ensures Render([t] + ts) == RenderToken(t) + " " + Render(ts)
  {
    assert ([t] + ts)[1..] == ts;
  }

  lemma TargetWord()
    ensures Word(TargetName)
  {
    assert forall i :: 0 <= i < |TargetName| ==> IsIdentChar(TargetName[i]);
  }

  /** The tokens of `AddonProfilesDB = { }`. */
  const EmptyTableTokens := [Token(IdentTok, TargetName), Token(Equals, "="), LBraceToken, RBraceToken]

  /** The tokens of `AddonProfilesDB { }`, where the `=` is missing. */
  const MissingEqualsTokens := [Token(IdentTok, TargetName), LBraceToken, RBraceToken]

  lemma EmptyTableText()
    ensures Render(EmptyTableTokens) == "AddonProfilesDB = { } "
  {
    var ts := EmptyTableTokens;
    BracesText();
    RenderCons(Token(Equals, "="), [LBraceToken, RBraceToken]);
    assert Render(ts[1..]) == "= { } ";
    RenderCons(Token(IdentTok, TargetName), ts[1..]);
    assert [Token(IdentTok, TargetName)] + ts[1..] == ts;
  }

  lemma MissingEqualsText()
    ensures Render(MissingEqualsTokens) == "AddonProfilesDB { } "
  {
    var ts := MissingEqualsTokens;
    BracesText();
    RenderCons(Token(IdentTok, TargetName), ts[1..]);
    assert [Token(IdentTok, TargetName)] + ts[1..] == ts;
  }

  lemma BracesText()
    ensures Render([LBraceToken, RBraceToken]) == "{ } "
  {
    RenderCons(RBraceToken, []);
    assert Render([RBraceToken]) == "} ";
    RenderCons(LBraceToken, [RBraceToken]);
    assert [LBraceToken] + [RBraceToken] == [LBraceToken, RBraceToken];
  }

  /** `AddonProfilesDB = { }` (see EmptyTableText) is the empty database. */
  lemma EmptyTableParsed()
    ensures ParseSimpleSpec(Render(EmptyTableTokens)) == Ok(EmptyDatabase)
  {
    var lexed := EmptyTableTokens + [EofToken];
    TargetWord();
    RenderLexed(EmptyTableTokens);
    SkipToTarget(lexed, 0, 0);
    assert TableAt(lexed, 2) == Done(map[], 4);
    assert DatabaseOf(map[]) == EmptyDatabase;
  }

  /** Whatever follows the identifier is consumed as if it were `=`: in
      `AddonProfilesDB { }` (see MissingEqualsText) the brace is skipped and
      the table parser starts at the `}`. */
  lemma MissingEqualsSkipsBrace()
    ensures ParseSimpleSpec(Render(MissingEqualsTokens)) == Err(Expected(LBrace, RBrace))
  {
    var lexed := MissingEqualsTokens + [EofToken];
    TargetWord();
    RenderLexed(MissingEqualsTokens);
    SkipToTarget(lexed, 0, 0);
    assert TableAt(lexed, 2) == Failed(Expected(LBrace, RBrace));
  }

  /** Writing records back as the tables the mapper reads. */
  function AddonsTable(a: map<string, bool>): map<string, Value>
  {
    map n | n in a :: Bool(a[n])
  }

  function ProfileTable(p: Profile): map<string, Value>
  {
    map["addons" := Table(AddonsTable(p.addons)), "autoDeps" := Bool(p.autoDeps), "created" := Int(p.created)]
  }

  function ProfilesTable(ps: map<string, Profile>): map<string, Value>
  {
    map n | n in ps :: Table(ProfileTable(ps[n]))
  }

  function SectionTable(s: Section): map<string, Value>
  {
    map["activeProfile" := Str(s.activeProfile), "profiles" := Table(ProfilesTable(s.profiles))]
  }

  function CharsTable(cs: map<string, Section>): map<string, Value>
  {
    map c | c in cs :: Table(SectionTable(cs[c]))
  }

  function DatabaseTable(db: Database): map<string, Value>
  {
    map["global" := Table(SectionTable(db.global)), "char" := Table(CharsTable(db.chars))]
  }

  /** Every profile of a section sits under its own name, in the section's
      scope: what the mapper guarantees (DatabaseOf's contract). */
  predicate SectionWellFormed(s: Section, scope: string)
  {
    forall n :: n in s.profiles ==> s.profiles[n].name == n && s.profiles[n].scope == scope
  }

  predicate WellFormed(db: Database)
  {
    SectionWellFormed(db.global, AccountScope)
    && forall c :: c in db.chars ==> SectionWellFormed(db.chars[c], CharacterScope)
  }

  lemma ProfileRoundTrip(p: Profile)
    ensures ProfileOf(p.name, p.scope, ProfileTable(p)) == p
  {
    var r := ProfileOf(p.name, p.scope, ProfileTable(p));
    assert r.addons == p.addons;
  }

  lemma SectionRoundTrip(s: Section, scope: string)
    requires SectionWellFormed(s, scope)
    ensures SectionOf(scope, SectionTable(s)) == s
  {
    var pm := ProfilesTable(s.profiles);
    forall n | n in s.profiles
      ensures ProfileOf(n, scope, pm[n].t) == s.profiles[n]
    {
      ProfileRoundTrip(s.profiles[n]);
    }
    assert ProfilesOver(scope, pm, pm.Keys) == s.profiles;
  }

  /** The mapper is a left inverse of writing a well-formed database out as a
      table: nothing of the database is lost or altered. */
  lemma DatabaseRoundTrip(db: Database)
    requires WellFormed(db)
    ensures DatabaseOf(DatabaseTable(db)) == db
  {
    var m := DatabaseTable(db);
    SectionRoundTrip(db.global, AccountScope);
    assert GlobalOf(m) == db.global;
    CharsRoundTrip(db.chars);
    assert TableField(m, "char") == CharsTable(db.chars);
  }

  /** The character sections survive being written out as a table. */
  lemma CharsRoundTrip(chars: map<string, Section>)
    requires forall c :: c in chars ==> SectionWellFormed(chars[c], CharacterScope)
    ensures CharsOver(CharsTable(chars), CharsTable(chars).Keys) == chars
  {
    var cm := CharsTable(chars);
    forall c | c in chars
      ensures SectionOf(CharacterScope, cm[c].t) == chars[c]
    {
      SectionRoundTrip(chars[c], CharacterScope);
    }
  }

  /** And every database the mapper produces is well formed. */
  lemma DatabaseOfWellFormed(m: map<string, Value>)
    ensures WellFormed(DatabaseOf(m))
  {
  }
}
