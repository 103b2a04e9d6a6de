# AddonProfiles save-data reader and manifest manager, in Dafny

This project models the core of AddonProfiles-GUI, a desktop helper for
World of Warcraft add-on profiles, and proves properties of that model. The
core has three parts.

- **The SavedVariables reader** (`pkg/lua/simple_parser.go`). A lexer turns
  the text of `AddonProfilesDB.lua` into tokens. A recursive-descent parser
  turns the table after `AddonProfilesDB =` into a nested map of strings,
  int64 numbers, booleans, nil and tables. A mapper turns that map into
  `Profile` and `Database` records.
  - The lexer struct is the class `Lexer.Lexer` and the parser struct is
    `TableParser.Parser`. Each is proved to compute a reference function:
    `Lexed` for the lexer, and `TableAt`/`ValueAt`/`EntriesAt` for the parser.
  - The map-filling loops of `ParseSimple` and `convertToProfile` are
    methods proved equal to `DatabaseOf`, `SectionOf` and `ProfileOf`.
- **Parse dispatch and the regex fallback** (`pkg/lua/parser.go`). `Parse`
  tries the simple parser and falls back to `parseRegex` when it fails.
  `parseRegex` and `parseProfile` build the database from text that regular
  expressions extract. `extractCharSection` cuts the per-character table
  into sections line by line, tracking bracket depth.
  - The regular-expression extractors are given as function-valued
    parameters (`RegexFallback.Extractors`).
  - The loops are methods proved equal to `RegexDatabase`, `TextProfile` and
    `CharSections`.
- **The manager** (`pkg/wow/manager.go`), over a modelled disk.
  - It reads and writes the `AddOns.txt` manifest: `Name: 1` for an enabled
    add-on, `# Name: 0` for a disabled one.
  - It backs the manifest up and deletes all but the newest `backupCount`
    backups.
  - It loads the profiles of the selected account and validates an install
    directory.
  - The disk (`FileSystem.Disk`) is a map from paths to files (bytes and
    modification time) and directories. The os calls that can fail for
    reasons outside the tree fail on the paths listed in `Faults`.

Modules:

| module | contents |
|---|---|
| `Common` | options, int64 and `strconv.ParseInt`, `strings.Contains`, byte-wise string order, bufio line scanning |
| `Profiles` | the `Profile` and `Database` records |
| `Lexer`, `LexerFacts` | the lexer, and facts about it (including the inverse direction: the rendering of a token sequence lexes back to it) |
| `TableParser`, `TableFacts` | the parser, and facts about it (including a literal syntax `Lit` whose tokens parse back to its value) |
| `SimpleParser`, `SimpleParserFacts` | `ParseSimple` and the mapper, and a round trip from database to table and back |
| `RegexFallback`, `RegexFallbackFacts` | `Parse`, `parseRegex`, `parseProfile` and `extractCharSection` |
| `FileSystem` | the disk |
| `Manifest` | AddOns.txt reading and writing |
| `Backups` | the retention policy of `cleanupBackups` |
| `WowManager` | the `Manager` class and the package functions of `manager.go` |

Go strings are byte strings. Here a `string` stands for them, one `char`
per byte.

## Model

| member | source | states |
|---|---|---|
| Common.ScanUint | pkg/lua/simple_parser.go:249 | base-10 digit accumulation as `strconv.ParseInt` does it: a successful scan never exceeds 2^64-1 |
| Common.ParseIntDigits | pkg/lua/simple_parser.go:249 | an optional minus sign followed by digits parses to the number it denotes, flagged ok when that fits in int64, and clamped to the int64 bound of its sign otherwise |
| Common.Clamp | pkg/lua/simple_parser.go:249 | the int64 that `strconv.ParseInt` returns on a range error: the value itself when it fits, else the nearer bound |
| Common.ScanUintAppend | pkg/lua/simple_parser.go:249 | scanning a concatenation is scanning the first part and continuing with the second from the value reached |
| Common.ScanUintDigits | pkg/lua/simple_parser.go:249 | digits scan to their value exactly when it is at most 2^64-1, and to a range error otherwise |
| Common.ContainsIff | pkg/lua/parser.go:137 | `Contains(s, sub)` holds exactly when `sub` occurs in `s` at some position |
| Common.BelowIrreflexive | pkg/wow/manager.go:243 | the byte-wise order that `sort.Strings` uses is irreflexive |
| Common.BelowTransitive | pkg/wow/manager.go:243 | that order is transitive |
| Common.BelowTotal | pkg/wow/manager.go:243 | that order is total on distinct strings |
| Common.LineLength | pkg/lua/simple_parser.go:58-60 | the length of the first line: no newline before it, a newline or the end of the text at it |
| Common.ScanJoinLines | pkg/wow/manager.go:189-191 | lines without newlines, written one per line, are scanned back as the same lines |
| Lexer.DigitRun | pkg/lua/simple_parser.go:123-125 | the maximal run of digits a text starts with |
| Lexer.IdentRun | pkg/lua/simple_parser.go:134-136 | the maximal run of letters, digits and `_` a text starts with |
| Lexer.StringScan | pkg/lua/simple_parser.go:104-109 | where the string loop stops: at a closing quote, at the end, or one past the end when the last byte is a backslash |
| Lexer.NumberLength | pkg/lua/simple_parser.go:116-127 | a number token takes at least one byte and no more than the text |
| Lexer.KeywordToken | pkg/lua/simple_parser.go:138-150 | a word is a Bool token exactly when it is `true` or `false`, a Nil token exactly when it is `nil`, and an Ident token otherwise; its text is kept |
| Lexer.LexStep | pkg/lua/simple_parser.go:47-93 | one loop iteration consumes at least one byte and never emits an EOF token |
| Lexer.Lexed | pkg/lua/simple_parser.go:46-98 | lexing never fails, and its tokens end with exactly one EOF token, which occurs nowhere before |
| Lexer.Lexer.constructor | pkg/lua/simple_parser.go:39-44 | a new lexer is at position 0 with no tokens |
| Lexer.Lexer.Lex | pkg/lua/simple_parser.go:46-98 | appends exactly `Lexed` of the unread input to the tokens and returns them |
| Lexer.Lexer.LexOne | pkg/lua/simple_parser.go:48-93 | one iteration of the loop advances and appends exactly what `LexStep` emits |
| Lexer.Lexer.SkipComment | pkg/lua/simple_parser.go:56-61 | a comment is skipped up to, but not past, the next newline, and no token is added |
| Lexer.Lexer.LexString | pkg/lua/simple_parser.go:100-114 | appends one string token holding `StringValue` and continues after the closing quote |
| Lexer.Lexer.LexNumber | pkg/lua/simple_parser.go:116-129 | appends one number token holding the optional minus sign and its maximal run of digits, and continues after it |
| Lexer.Lexer.SkipDigits | pkg/lua/simple_parser.go:123-125 | stops at the first byte that is not a digit, having passed only digits |
| Lexer.Lexer.SkipIdent | pkg/lua/simple_parser.go:134-136 | stops at the first byte that is not a letter, digit or `_`, having passed only those |
| Lexer.Lexer.LexIdent | pkg/lua/simple_parser.go:131-151 | appends the keyword or identifier token of the maximal word and continues after it |
| Lexer.Tokenize | pkg/lua/simple_parser.go:265-266 | the tokens of a text are `Lexed` of it |
| LexerFacts.BlanksSkipped | pkg/lua/simple_parser.go:51-54 | spaces, tabs, newlines and carriage returns yield no tokens |
| LexerFacts.CommentSkipped | pkg/lua/simple_parser.go:56-62 | a `--` comment up to the end of its line yields no tokens |
| LexerFacts.UnknownSkipped | pkg/lua/simple_parser.go:90-92 | any byte that starts nothing is skipped silently |
| LexerFacts.LoneMinusSkipped | pkg/lua/simple_parser.go:86-92 | a minus sign followed neither by a digit nor by another minus is skipped |
| LexerFacts.ScanClosedBody | pkg/lua/simple_parser.go:104-109 | the string loop stops exactly at the first unescaped quote |
| LexerFacts.StringLexed | pkg/lua/simple_parser.go:100-114 | a quoted string lexes to one string token holding exactly the bytes between the quotes |
| LexerFacts.UnterminatedString | pkg/lua/simple_parser.go:100-114 | an unclosed string takes the rest of the input as its value, followed only by EOF |
| LexerFacts.EscapedQuoteKept | pkg/lua/simple_parser.go:105-107 | a backslash and the quote after it stay in the value, uninterpreted, and do not end the string |
| LexerFacts.WordLexed | pkg/lua/simple_parser.go:131-151 | a letter-initial word ending at a non-word byte lexes to its keyword or identifier token |
| LexerFacts.NumberLexed | pkg/lua/simple_parser.go:86-87 | an optional minus sign and digits, ending at a non-digit, lex to one number token with that text |
| LexerFacts.RenderTokenLexed | pkg/lua/simple_parser.go:46-98 | a token written out and followed by a blank lexes back to that token |
| LexerFacts.RenderLexed | pkg/lua/simple_parser.go:46-98 | tokens written out separated by blanks lex back to the same tokens followed by EOF |
| LexerFacts.StringValueAsWritten | pkg/lua/simple_parser.go:104-111 | the slice as written fails exactly when the scan ends one past the input; otherwise it agrees with the corrected value |
| LexerFacts.TrailingBackslashPanics | pkg/lua/simple_parser.go:104-111 | the input `"\` makes the slice as written fail |
| LexerFacts.StringValueWithinInput | pkg/lua/simple_parser.go:100-114 | the corrected value is a prefix of the bytes after the opening quote: it ends at the closing quote when there is one, and is the whole rest otherwise |
| TableParser.PeekAt | pkg/lua/simple_parser.go:173-178 | peeking past the end of the tokens gives an EOF token |
| TableParser.ValueAt | pkg/lua/simple_parser.go:238-260 | a parsed value consumes at least one token and stays within the tokens |
| TableParser.TableAt | pkg/lua/simple_parser.go:194-236 | a parsed table consumes at least one token and stays within the tokens |
| TableParser.EntriesAt | pkg/lua/simple_parser.go:201-233 | the entry loop, on success, consumes at least its closing brace |
| TableParser.EntryCases | pkg/lua/simple_parser.go:203-228 | after a `[`, a non-string key, a missing `]`, a missing `=` or a bad value each fail the table with that error; otherwise the entry is stored under its key, an optional comma is skipped and the loop goes on |
| TableParser.StrayComma | pkg/lua/simple_parser.go:225-228 | a comma where an entry could start is skipped |
| TableParser.Parser.constructor | pkg/lua/simple_parser.go:166-171 | a new parser is at position 0 |
| TableParser.Parser.Next | pkg/lua/simple_parser.go:180-184 | returns the token `peek` gives and advances by one |
| TableParser.Parser.Expect | pkg/lua/simple_parser.go:186-192 | consumes one token and succeeds exactly when it has the wanted kind |
| TableParser.Parser.ParseTable | pkg/lua/simple_parser.go:194-236 | returns what `TableAt` gives at the starting position and, on success, ends where it ends |
| TableParser.Parser.ParseEntry | pkg/lua/simple_parser.go:203-222 | one `["k"] = v` entry: a failure is the failure of the whole loop, and a success stores `v` under `k` and lets the loop go on after the optional comma |
| TableParser.Parser.ParseValue | pkg/lua/simple_parser.go:238-260 | returns what `ValueAt` gives at the starting position and, on success, ends where it ends |
| TableFacts.ValueAtLit | pkg/lua/simple_parser.go:238-260 | the tokens of any literal parse to the literal's value and are consumed exactly |
| TableFacts.EntriesAtItems | pkg/lua/simple_parser.go:201-233 | the tokens of any list of entries and commas, then `}`, parse to the map those entries build, later keys overwriting earlier ones |
| TableFacts.ValueAtIsLit | pkg/lua/simple_parser.go:238-260 | conversely, every value that parses from lexer output is the tokens of some literal |
| TableFacts.TableAtIsLit | pkg/lua/simple_parser.go:194-236 | every table that parses from lexer output is the tokens of some table literal |
| TableFacts.EntriesAtIsItems | pkg/lua/simple_parser.go:201-233 | every entry loop that succeeds on lexer output has read the tokens of a list of entries and commas, then `}` |
| TableFacts.ParsedTable | pkg/lua/simple_parser.go:194-236 | a table that parses from lexer output is a table literal, and its value is the map its entries build |
| TableFacts.LexedCanonical | pkg/lua/simple_parser.go:64-150 | every token the lexer emits has the canonical text of its kind |
| TableFacts.EvalItemsKeys | pkg/lua/simple_parser.go:222 | the keys of a parsed table are exactly the `["k"] =` keys of its entries |
| TableFacts.EvalItemsLastWins | pkg/lua/simple_parser.go:222 | a key that occurs several times holds the value of its last entry |
| TableFacts.EvalItemsUntouched | pkg/lua/simple_parser.go:222 | a key no entry names keeps what it had |
| TableFacts.ScalarLit | pkg/lua/simple_parser.go:244-256 | every scalar token is the one-token literal of itself |
| TableFacts.NumberParsed | pkg/lua/simple_parser.go:247-250 | a number token parses to the int64 its text denotes, clamped on overflow |
| TableFacts.BareValueDiverges | pkg/lua/simple_parser.go:201-229 | `{ "a" }` makes the loop stop making progress |
| TableFacts.BareIdentDiverges | pkg/lua/simple_parser.go:201-229 | `{ x }` makes the loop stop making progress |
| SimpleParser.SkipTarget | pkg/lua/simple_parser.go:272-279 | the skip loop never moves the cursor back |
| SimpleParser.ProfileOf | pkg/lua/simple_parser.go:359-393 | a profile keeps its name and scope; its add-ons are exactly the boolean entries of `addons`; `autoDeps` defaults to true unless a boolean is stored; `created` defaults to 0 unless an int is stored |
| SimpleParser.SectionOf | pkg/lua/simple_parser.go:299-315 | a section's profiles are exactly the table-valued entries of `profiles`, each under its own name and in the given scope |
| SimpleParser.DatabaseOf | pkg/lua/simple_parser.go:295-356 | global profiles are in the account scope; the characters are exactly the table-valued entries of `char`, and their profiles are in the character scope |
| SimpleParser.ConvertToProfile | pkg/lua/simple_parser.go:359-393 | the map-filling code computes `ProfileOf` |
| SimpleParser.ConvertSection | pkg/lua/simple_parser.go:299-315 | the section code computes `SectionOf` |
| SimpleParser.ConvertProfiles | pkg/lua/simple_parser.go:306-315 | the profile loop keeps exactly the table-valued entries, converted |
| SimpleParser.ConvertDatabase | pkg/lua/simple_parser.go:287-356 | the conversion code computes `DatabaseOf` |
| SimpleParser.ParseSimple | pkg/lua/simple_parser.go:263-357 | lex, skip to the target, parse the main table and convert it: the result is the reference reading of the text |
| SimpleParser.NoCharField | pkg/lua/simple_parser.go:320-321 | without a table under `char` there are no characters |
| SimpleParserFacts.SkipToEnd | pkg/lua/simple_parser.go:272-279 | without the `AddonProfilesDB` identifier the skip loop consumes everything up to EOF |
| SimpleParserFacts.SkipToTarget | pkg/lua/simple_parser.go:272-277 | at the first `AddonProfilesDB` identifier the loop stops two tokens on, whether or not the second is `=` |
| SimpleParserFacts.NoTargetFails | pkg/lua/simple_parser.go:272-285 | a text without the identifier fails with "expected `{`, got EOF" |
| SimpleParserFacts.TargetThenTable | pkg/lua/simple_parser.go:271-285 | with the identifier, the result is the table two tokens after its first occurrence, converted, or that table's error |
| SimpleParserFacts.ParseSimpleOfLiteral | pkg/lua/simple_parser.go:263-357 | a text whose target is followed by the tokens of a table literal reads as the database of that literal's map |
| SimpleParserFacts.ParseSimpleOkIsLiteral | pkg/lua/simple_parser.go:263-357 | conversely, every text that reads successfully has the tokens of a table literal after its target |
| SimpleParserFacts.EmptyTableParsed | pkg/lua/simple_parser.go:263-357 | `AddonProfilesDB = { }` reads as the empty database |
| SimpleParserFacts.MissingEqualsSkipsBrace | pkg/lua/simple_parser.go:273-276 | without the `=`, the ignored `expect` swallows the `{` and the read fails on the `}` |
| SimpleParserFacts.ProfileRoundTrip | pkg/lua/simple_parser.go:359-393 | every profile, written as a table, converts back to itself |
| SimpleParserFacts.SectionRoundTrip | pkg/lua/simple_parser.go:299-315 | every section whose profiles sit under their own names in its scope, written as a table, converts back to itself |
| SimpleParserFacts.CharsRoundTrip | pkg/lua/simple_parser.go:320-353 | every well-formed character map, written as a table, converts back to itself |
| SimpleParserFacts.DatabaseRoundTrip | pkg/lua/simple_parser.go:295-356 | every well-formed database, written as a table, converts back to itself |
| SimpleParserFacts.DatabaseOfWellFormed | pkg/lua/simple_parser.go:310-311 | every database the mapper builds keeps each profile under its own name and in its own scope |
| RegexFallback.TextProfile | pkg/lua/parser.go:126-159 | a fallback profile keeps its name and scope; its add-ons are exactly the extracted entries whose text contains `true`, all enabled; `autoDeps` is true without the word `autoDeps`, else true exactly when the extracted value is `true`; `created` is set only when the extracted text parses as an int64 |
| RegexFallback.RegexDatabase | pkg/lua/parser.go:71-123 | the global profiles are exactly the extracted global profile entries, and the characters exactly the sections `extractCharSection` finds |
| RegexFallback.ParseSpec | pkg/lua/parser.go:58-68 | the simple reader's database when it succeeds, the fallback's when it fails, and no result only when the simple reader never returns |
| RegexFallback.ParseProfile | pkg/lua/parser.go:126-159 | the profile code computes `TextProfile` |
| RegexFallback.ParseProfiles | pkg/lua/parser.go:82-87 | the profile loop converts every extracted entry |
| RegexFallback.ParseRegex | pkg/lua/parser.go:71-123 | the fallback code computes `RegexDatabase` and never fails |
| RegexFallback.ParseChars | pkg/lua/parser.go:97-120 | the character loop converts every section |
| RegexFallback.ParseCharSection | pkg/lua/parser.go:98-119 | one character's profiles and active profile, from its section text |
| RegexFallback.ExtractCharSection | pkg/lua/parser.go:244-298 | the line scanner computes `CharSections` |
| RegexFallback.Parse | pkg/lua/parser.go:58-68 | the dispatch code computes `ParseSpec` |
| RegexFallbackFacts.IgnoredOutside | pkg/lua/parser.go:278 | while no section is open, lines that are not key lines are ignored |
| RegexFallbackFacts.InnerLine | pkg/lua/parser.go:278-290 | inside a section a line is collected with its newline and moves the depth by its `{` minus `}` count; at depth 0 the section is stored and closed |
| RegexFallbackFacts.SectionCloses | pkg/lua/parser.go:278-290 | the lines up to the one where the depth reaches 0 are stored as the section, each followed by a newline |
| RegexFallbackFacts.SectionStaysOpen | pkg/lua/parser.go:278-290 | while the depth stays off 0, every line is collected and the section stays open |
| RegexFallbackFacts.NewKeyFlushes | pkg/lua/parser.go:267-276 | a key line stores the open section when it has text and starts the new one at depth 1 |
| RegexFallbackFacts.OneClosedSection | pkg/lua/parser.go:244-298 | a character table holding one braced section yields exactly that section |
| RegexFallbackFacts.OpenSectionFlushed | pkg/lua/parser.go:293-295 | a section still open at the end is stored when it has text |
| RegexFallbackFacts.NoCharTable | pkg/lua/parser.go:248-253 | without a character table there are no character sections |
| RegexFallbackFacts.RegexWellFormed | pkg/lua/parser.go:82-87 | the fallback keeps every profile under its own name, in the account scope globally and the character scope per character |
| RegexFallbackFacts.ParseWellFormed | pkg/lua/parser.go:58-68 | so does every database `Parse` yields, whichever reader produced it |
| RegexFallbackFacts.NoTargetFallsBack | pkg/lua/parser.go:59-67 | a text without the `AddonProfilesDB` identifier is read by the fallback |
| FileSystem.Children | pkg/wow/manager.go:149 | the entries of a directory are exactly the names of the nodes directly under it |
| FileSystem.ReadAfterWrite | pkg/wow/manager.go:137 | a file that was written reads back as the bytes written |
| FileSystem.Disk.WriteFile | pkg/wow/manager.go:137 | succeeds exactly when the parent is a directory and the path is not one; then the file holds the data, stamped with the clock, and nothing else changes |
| FileSystem.Disk.Remove | pkg/wow/manager.go:173 | removes a file or an empty directory, never the root; nothing else changes |
| FileSystem.Disk.Mkdir | pkg/wow/manager.go:226 | one step of MkdirAll: an existing directory is fine, a file fails, else the directory is created unless mkdir fails there |
| FileSystem.Disk.MkdirAll | pkg/wow/manager.go:226 | succeeds exactly when every prefix of the path can be a directory; then the path is a directory and the tree is `Mkdirs` of the old one; either way at most directories along it were added |
| Backups.BackupPath | pkg/wow/manager.go:129-130 | a backup sits next to the manifest |
| Backups.SortByAge | pkg/wow/manager.go:164-168 | the sort is a permutation of the backups |
| Backups.SortByAgeSorted | pkg/wow/manager.go:164-168 | the sort orders the backups newest first |
| Backups.Retention | pkg/wow/manager.go:155-175 | everything but backups is untouched; the `min(k, n)` newest backups remain, and each is no older than any backup removed; with no removal faults, exactly they remain |
| Backups.RemovedBackups | pkg/wow/manager.go:171-175 | only backups are removed, and what remains is the backups minus the removed ones |
| Backups.NewestKept | pkg/wow/manager.go:172 | the `k` newest are never among the removed |
| Backups.NewestNewer | pkg/wow/manager.go:164-172 | every kept backup is no older than any removed one |
| Backups.NoFaultsKeepsNewest | pkg/wow/manager.go:171-175 | when no removal fails, only the `k` newest remain |
| Backups.NewestCard | pkg/wow/manager.go:171-172 | `min(k, n)` backups are kept |
| Backups.BackupCounted | pkg/wow/manager.go:130 | a backup just written is one of the backups that cleanup considers |
| Backups.ManifestNotBackup | pkg/wow/manager.go:156-158 | the manifest itself is never one of its backups |
| Manifest.LeadingWhite | pkg/wow/manager.go:192 | the white space that `strings.TrimSpace` strips at the front |
| Manifest.TrailingWhite | pkg/wow/manager.go:192 | the white space that `strings.TrimSpace` strips at the back |
| Manifest.TrimSpaceSpec | pkg/wow/manager.go:192 | trimming gives the infix with no white space at either end, strips only white space, and keeps an already trimmed string |
| Manifest.IndexOf | pkg/wow/manager.go:198 | the first occurrence of a byte, or the length when it does not occur |
| Manifest.SplitN2 | pkg/wow/manager.go:198 | two parts exactly when the separator occurs, split at its first occurrence and rejoinable into the line |
| Manifest.ColonKept | pkg/wow/manager.go:192-198 | trimming neither adds nor removes a colon |
| Manifest.LineSkipped | pkg/wow/manager.go:192-201 | a line is ignored exactly when it has no colon, so every blank line is ignored |
| Manifest.LineRead | pkg/wow/manager.go:198-210 | a line with a colon yields a trimmed name without a colon, enabled exactly when its trimmed value is `1` and its trimmed name does not start with `#` |
| Manifest.FieldsRead | pkg/wow/manager.go:203-210 | the name is the trimmed field, or, when that starts with `#`, the rest after the `#` trimmed again; it holds no `:` and no surrounding white space; the entry is enabled exactly when the value trims to `1` and there is no `#` |
| Manifest.EntriesAbsent | pkg/wow/manager.go:212 | a name no line gives is not in the result |
| Manifest.EntriesLastWins | pkg/wow/manager.go:212 | a name given by several lines takes the state of the last one |
| Manifest.ParseAddOns | pkg/wow/manager.go:188-213 | the line loop computes `Entries` |
| Manifest.SortStrings | pkg/wow/manager.go:243 | the sort is a permutation |
| Manifest.SortStringsSorted | pkg/wow/manager.go:243 | the sort orders distinct names strictly ascending |
| Manifest.SortedUnique | pkg/wow/manager.go:243 | two strictly ascending sequences of the same names are equal, so the output order is determined |
| Manifest.SortedNames | pkg/wow/manager.go:239-243 | the names of a map, strictly ascending |
| Manifest.MapNames | pkg/wow/manager.go:239-242 | collects every key of the map once |
| Manifest.SortedIsCanonical | pkg/wow/manager.go:239-243 | sorting the collected keys gives the ascending names, whatever order the map yields them in |
| Manifest.LinesFor | pkg/wow/manager.go:246-253 | one line per name, in order, `Name: 1` or `# Name: 0` by its state |
| Manifest.ManifestLines | pkg/wow/manager.go:246-253 | the manifest has one line per add-on |
| Manifest.EmitLines | pkg/wow/manager.go:246-253 | the emit loop writes the lines of `LinesFor`, each ended by a newline |
| Manifest.WriteAddOns | pkg/wow/manager.go:236-255 | the text written is `ManifestText` of the map |
| Manifest.LineForRead | pkg/wow/manager.go:248-251 | a written line reads back as its name and state, for names without a colon or newline, not starting with `#` and with no surrounding white space |
| Manifest.EnabledLineRead | pkg/wow/manager.go:249 | `Name: 1` reads back as enabled |
| Manifest.DisabledLineRead | pkg/wow/manager.go:251 | `# Name: 0` reads back as disabled, without the marker |
| Manifest.LinesRoundTrip | pkg/wow/manager.go:246-253 | the lines for some names read back as the map restricted to those names |
| Manifest.ManifestRoundTrip | pkg/wow/manager.go:181-256 | for such names, reading what `writeAddOnsFile` writes gives the map back |
| WowManager.ParseAddOnsFile | pkg/wow/manager.go:181-220 | a failed open or read is an error; otherwise the result is `Entries` of the file's scanned lines |
| WowManager.WriteAddOnsFile | pkg/wow/manager.go:223-256 | succeeds exactly when the directories can be made and the file written; then the disk is `ManifestWritten`: the manifest holds `ManifestText`, the only nodes added besides it are directories that are prefixes of its directory, and nothing else changed; on failure every old node is kept and only such directories were added |
| WowManager.ValidateWowDirectoryAsWritten | pkg/wow/manager.go:259-283 | as written: succeeds exactly when the path is a directory and neither `WTF` nor `WTF/Account` is reported as not existing |
| WowManager.ValidateWowDirectory | pkg/wow/manager.go:259-283 | as meant: succeeds exactly when the path, `WTF` and `WTF/Account` are all directories |
| WowManager.ValidateStricter | pkg/wow/manager.go:270-280 | the corrected check accepts no path the written one rejects |
| WowManager.ValidateMeansAccountDir | pkg/wow/manager.go:259-283 | on a disk where Stat fails on nothing, the corrected check accepts exactly the paths with a `WTF/Account` directory |
| WowManager.WtfFileAccepted | pkg/wow/manager.go:270-280 | a regular file named `WTF` passes the written check, although there is no `WTF/Account` |
| WowManager.BackupKeepsOthers | pkg/wow/manager.go:123-142 | the backup touches only the set of backups |
| WowManager.ManifestReadBack | pkg/wow/manager.go:109 | the manifest written by ApplyProfile reads back as the profile's add-ons |
| WowManager.ApplyKeepsOthers | pkg/wow/manager.go:96-120 | across backup, write and cleanup, everything but the manifest and its backups is untouched |
| WowManager.CollectStep | pkg/wow/manager.go:157-161 | the filter keeps exactly the non-directory entries with the backup prefix, each once |
| WowManager.SortedBackups | pkg/wow/manager.go:164-168 | sorting the collected backups keeps them all, once each, newest first |
| WowManager.Manager.constructor | pkg/wow/manager.go:23-29 | NewManager stores the install path, the account and the backup count |
| WowManager.Manager.AddOnsPath | pkg/wow/manager.go:86 | the manifest is `AddOns.txt` in the account directory |
| WowManager.Manager.LoadProfiles | pkg/wow/manager.go:51-78 | no account is an error; a missing save file gives the empty database; otherwise the result is what `Parse` makes of the text; every database returned is well formed |
| WowManager.Manager.GetActiveAddons | pkg/wow/manager.go:81-93 | no account is an error; a missing manifest gives the empty map; otherwise the result is what `parseAddOnsFile` reads |
| WowManager.Manager.ApplyProfile | pkg/wow/manager.go:96-120 | no account, a failed backup and a failed write are the only errors, and the first two leave the disk as it was; with an account it fails with `BackupFailed` exactly when createBackup would, and succeeds exactly when the backup succeeds and the manifest can then be written, so a failed cleanup never fails it; after a failed manifest write every node of the backed-up tree (`AfterBackup`, holding the exact copy) is still there unchanged, and the only nodes added are directories on the way to the account directory; on success the disk is the backed-up tree (`AfterBackup`, holding the exact copy) with the manifest written, minus the doomed backups of a newest-first order of all backups when the directory lists, and unchanged by the cleanup otherwise; the manifest reads back as the profile's add-ons, and nothing but the manifest and its backups has changed |
| WowManager.AfterBackup | pkg/wow/manager.go:123-142 | when the manifest exists and the backup succeeds, the tree gains an exact copy of the manifest's bytes at `<manifest>.backup.<timestamp>`; every other node is kept and nothing else is added |
| WowManager.ManifestWritten | pkg/wow/manager.go:223-256 | the manifest holds the text for the add-ons and every other existing node is kept |
| WowManager.Manager.CreateBackup | pkg/wow/manager.go:123-142 | a missing manifest needs no backup; otherwise the backup is an exact copy at `<manifest>.backup.<timestamp>`, and a failure leaves the disk as it was; it succeeds exactly when `BackupOk` holds, and leaves `AfterBackup` of the tree |
| WowManager.Manager.BackupsIn | pkg/wow/manager.go:155-161 | collects every backup of the manifest in the directory, each once |
| WowManager.Manager.RemoveOld | pkg/wow/manager.go:171-175 | removes every backup after the first `k` whose removal does not fail, and nothing else |
| WowManager.Manager.CleanupBackups | pkg/wow/manager.go:145-178 | fails exactly when the directory cannot be listed, and then changes nothing; otherwise removes the backups `Retention` describes |

## Left out

- The regular expressions of `pkg/lua/parser.go` (`extractTable`,
  `extractTableFromContent`, `parseTableContent`, `extractString`,
  `extractStringFromContent`, `buildTablePattern`, `buildStringPattern`, and
  the two patterns of `extractCharSection`) are parameters
  (`RegexFallback.Extractors`). Their RE2 semantics is not modelled.
- The disk is a model. Permissions, a full disk and other failures outside
  the tree are the `Faults` sets. Concurrent changes by other processes are
  not modelled.
  - `os.Create` plus the buffered writer of `writeAddOnsFile` is one atomic
    write. A write that fails half-way is not modelled.
  - `filepath.Join` cleaning (`..`, repeated separators) is not modelled: a
    path is its list of components.
  - `MkdirAll`'s retry with Lstat is not modelled.
- The clock is a parameter. `timestamp` is what `time.Now().Format` would
  give at manager.go:129, and `now` is the modification time stamped on
  what is written.
- The warning `fmt.Printf` at manager.go:116 is not modelled. A cleanup
  failure is ignored, as in the source.
- `GetAccounts`, `NewParser`, `ParseFile`'s own read error message, and
  the unused `Settings` field of `Database` are not modelled.
- `bufio.Scanner`'s 64 KiB line limit and its read errors are not modelled:
  a file is always read whole.
- `strings.TrimSpace` strips ASCII white space only. Unicode spaces are not
  modelled.
- Strings are sequences of bytes. There is no UTF-8 decoding.
- Go map iteration order is not modelled. Every loop over a map is proved
  to give the same result whatever order it visits the keys in.
- TableParser.EntriesAt: the loop at simple_parser.go:201-229 never ends
  when the next token is none of `[`, `,`, `}` and EOF. The model reports
  that outcome as the failure `Diverges` instead of looping.
  - `Parse` and `LoadProfiles` pass that outcome on (`ParseDiverges`). The
    source, by contrast, never returns.
  - `RegexFallback.ParseSpec` therefore has no result exactly where the
    source would hang.
- Lexer.StringValue: the reader uses the corrected string slice, which ends
  an unclosed string at the end of the input. On a save file that ends
  inside an unclosed string with a trailing backslash, the source panics at
  simple_parser.go:111, and nothing in the source recovers from that panic.
  The model instead returns a result there from `Lexed`, `Tokenize`,
  `ParseSimple`, `Parse`, `ParseSpec` and `LoadProfiles`; the panic itself
  is modelled only by `LexerFacts.StringValueAsWritten` (see Findings).
- Backups.Retention: `sort.Slice` is not stable, so backups with equal
  modification times may be kept in any order. The model fixes one
  newest-first order and states the property for every such order.
  - If `os.Stat` fails inside the sort, the source dereferences a nil
    `FileInfo` and panics. This is not modelled: the backups were just
    listed.
- WowManager.Manager.CleanupBackups: requires `backupCount >= 0`, because
  `backups[m.backupCount:]` at manager.go:172 panics on a negative count.
- WowManager.Manager.ApplyProfile: the read-back promise needs add-on names
  without a colon or newline, not starting with `#` and with no surrounding
  white space. Other names do not survive the manifest format.
- Manifest.ManifestRoundTrip: is stated for the same names, and for the
  same reason.

## Findings

| source | as written | input that shows it | evidently intended | confidence | as-written member | corrected member |
|---|---|---|---|---|---|---|
| pkg/lua/simple_parser.go:104-111 | a backslash skips the next byte even when it is the last byte, so `pos` ends at `len(input)+1` and `input[start:pos]` is out of range | the file text `"\` (a quote, then a backslash) | an unclosed string takes the rest of the input as its value | not executed | LexerFacts.StringValueAsWritten, LexerFacts.TrailingBackslashPanics | LexerFacts.StringValueWithinInput |
| pkg/wow/manager.go:270-280 | only `os.IsNotExist` counts as missing, so an error such as ENOTDIR lets the check pass | an install directory whose `WTF` is a regular file | `WTF` and `WTF/Account` must be directories | not executed | WowManager.ValidateWowDirectoryAsWritten, WowManager.WtfFileAccepted | WowManager.ValidateWowDirectory, WowManager.ValidateMeansAccountDir |
