# Padrino generator actions and ActiveRecord tasks, modelled in Dafny

This project models two parts of the Padrino framework's generator gem.

The first is the **component actions** that the generators mix in:

- the model migration writer and the standalone migration writer, with their
  `:` field parsing, the datetime fix and the `Add…To…`/`Remove…From…` name
  scan;
- the `!MARKER!` substitutions and the three-digit migration numbering;
- the Gemfile edits of `insert_into_gemfile` and `require_dependencies`;
- the test helper text of `insert_test_suite_setup`;
- the mock library include of `insert_mocking_include`, and `indent_spaces`;
- the controller action and route text.

The second is the **decision rules of the ActiveRecord rake tasks**:

- which configured databases `create:all` and `drop:all` touch;
- how `VERSION`, `VERBOSE` and `STEP` are read from the environment;
- how `migrate:redo` picks its sub-tasks;
- the MySQL charset and collation fallbacks and the PostgreSQL encoding;
- the `--schema=` flags of the PostgreSQL structure dump.

The modules:

- `RubyText` holds the pieces of Ruby's string library the code relies on. It
  encodes them explicitly:
  - `split` drops its trailing empty pieces;
  - `gsub` replaces leftmost, non-overlapping matches;
  - `to_i` reads a leading decimal numeral, after an optional sign and `0d`
    prefix, so `to_s` followed by `to_i` is the identity;
  - `strip`, and the regular-expression class `\s`.
- `MigrationNumbering` reads the version of an existing migration from its
  leading digits. It also computes the next version and writes the `%03d`
  file name.
- `FieldSpecs` turns `name:kind` tokens into field tuples and applies the
  case-insensitive datetime fix. The fix comes both as a function and as the
  in-place `collect!` over an array.
- `MigrationNamer` is the name scan
  `(Add|Remove)(?:.*?)(?:To|From)(.*?)$`, written out as a search, with a
  reference reading of "leftmost match, nearest `To`/`From`".
- `MigrationWriter` holds the two migration writers and the marker patterns.
  It includes lemmas saying what each substitution does to a template.
- `GeneratorText` holds `indent_spaces`, the controller text, the test helper
  heredoc, `insert_test_suite_setup` and `insert_mocking_include`.
- `GemfileEdits` models the Gemfile as a mutable object holding its lines.
  `insert_into_gemfile` updates it and its options object in place, and
  `require_dependencies` loops over the names in reverse.
- `ArTasks` holds the rake task decisions.

Inflections are parameters of the model: `camelize`, `underscore` and
`pluralize`. So are the templates a component passes in and the existing file
names of `db/migrate`. The file-system actions (`create_file`,
`inject_into_file`, `File.exist?`) become returned values or parameters.

A few points where the code differs from what its documentation suggests:

- `output_model_migration` builds its columns from `fields`, not from its
  `columns` argument. The model takes `fields` as its own parameter.
- The model writer's `!DOWN!` pattern has no four-space indent. The standalone
  writer's has one.
- `output_migration_file` never uses its `name` argument.
- The table of a standalone migration is the scanned text downcased and then
  pluralized. It is not underscored: `AddEmailToUserAccounts` gives the table
  `pluralize("useraccounts")`. The model follows the code.

## Model

| member | source | states |
|---|---|---|
| RubyText.DropTrailingEmpty | padrino-gen/lib/padrino-gen/generators/components/actions.rb:36 | `split` keeps a prefix of the pieces, ends on a non-empty piece, and drops only empty ones |
| RubyText.Split | padrino-gen/lib/padrino-gen/generators/components/actions.rb:36 | every piece is free of the separator, the last piece is never empty, and an empty string splits into no pieces; `JoinFields` and `FieldsOfJoin` state the round trip |
| RubyText.JoinFields | padrino-gen/lib/padrino-gen/generators/components/actions.rb:36 | joining the pieces of `s` between the occurrences of `c` with `c` gives `s` back |
| RubyText.FieldsOfJoin | padrino-gen/lib/padrino-gen/generators/components/actions.rb:36 | splitting a join of separator-free pieces gives those pieces back |
| RubyText.Downcase | padrino-gen/lib/padrino-gen/generators/components/actions.rb:57 | same length, every ASCII capital lowered, everything else kept |
| RubyText.NatToDecimal | padrino-gen/lib/padrino-gen/generators/components/actions.rb:44 | `to_s` of a natural: digits only, value `n`, no leading zero |
| RubyText.IntToSRoundTrip | padrino-gen/lib/padrino-gen/generators/components/actions.rb:42-44 | `to_i` reads back every integer written with `to_s` |
| RubyText.ToIOfDecimalPrefix | padrino-gen/lib/padrino-gen/padrino-tasks/activerecord.rb:132 | `to_i` skips a `0d`/`0D` radix prefix: `0d12` reads as 12 |
| RubyText.DigitRunOfDigits | padrino-gen/lib/padrino-gen/generators/components/actions.rb:43 | `to_i` of a pure numeral is its decimal value |
| RubyText.ToI | padrino-gen/lib/padrino-gen/padrino-tasks/activerecord.rb:132 | only a leading minus, after the leading whitespace, gives a negative value; `IntToSRoundTrip`, `ToIOfDecimalPrefix` and `ToIWithoutDigits` state what it reads |
| RubyText.ToIWithoutDigits | padrino-gen/lib/padrino-gen/padrino-tasks/activerecord.rb:132 | a text without a digit reads as 0, whatever sign or letters it holds |
| RubyText.TrimStart | padrino-gen/lib/padrino-gen/padrino-tasks/activerecord.rb:270 | the result is a suffix of the text and starts with no whitespace |
| RubyText.TrimEnd | padrino-gen/lib/padrino-gen/padrino-tasks/activerecord.rb:270 | the result is a prefix of the text and ends with no whitespace or NUL |
| RubyText.StripStripped | padrino-gen/lib/padrino-gen/padrino-tasks/activerecord.rb:270 | `strip` leaves text without surrounding whitespace as it is |
| RubyText.Strip | padrino-gen/lib/padrino-gen/padrino-tasks/activerecord.rb:270 | the result is no longer than the text and has no surrounding whitespace, so `StripStripped` makes `strip` idempotent |
| RubyText.GsubWithoutMatch | padrino-gen/lib/padrino-gen/generators/components/actions.rb:39-44 | `gsub` leaves a text where the pattern never matches unchanged |
| RubyText.GsubSplice | padrino-gen/lib/padrino-gen/generators/components/actions.rb:39-44 | the first match is replaced and the scan resumes right after it |
| RubyText.GsubConcat | padrino-gen/lib/padrino-gen/generators/components/actions.rb:39-44 | `gsub` distributes over a concatenation that no match straddles |
| RubyText.Gsub | padrino-gen/lib/padrino-gen/generators/components/actions.rb:39-44 | leftmost non-overlapping literal replacement; what is replaced is stated by `GsubWithoutMatch`, `GsubSplice`, `GsubConcat` and `GsubJoin`, the length by `GsubLength` |
| RubyText.GsubLength | padrino-gen/lib/padrino-gen/generators/components/actions.rb:39-44 | a replacement as long as the pattern keeps the length of the text, an empty one never lengthens it |
| RubyText.GsubJoin | padrino-gen/lib/padrino-gen/generators/components/actions.rb:80 | replacing a literal marker, whose first character does not recur in it, in a join of pieces where it does not occur gives the join with the replacement as separator |
| RubyText.NoMatchBeforeMarker | padrino-gen/lib/padrino-gen/generators/components/actions.rb:80 | no occurrence of such a marker starts in a piece before it, neither wholly inside the piece nor straddling into the marker |
| MigrationNumbering.LeadingDigits | padrino-gen/lib/padrino-gen/generators/components/actions.rb:42-43 | `/^(\d+)/` captures the longest run of digits at the head of the name |
| MigrationNumbering.MaxVersion | padrino-gen/lib/padrino-gen/generators/components/actions.rb:42-43 | `max.to_i`: bounds every version, is one of them, and is 0 without files |
| MigrationNumbering.NextVersion | padrino-gen/lib/padrino-gen/generators/components/actions.rb:42-44 | exceeds every existing version and is the largest plus one, or 1 for an empty directory |
| MigrationNumbering.Pad3 | padrino-gen/lib/padrino-gen/generators/components/actions.rb:45 | `%03d`: digits of value `n`, at least three wide, ending with the plain numeral |
| MigrationNumbering.LeadingDigitsOfNumeral | padrino-gen/lib/padrino-gen/generators/components/actions.rb:42-43 | a numeral followed by a non-digit is exactly what the capture takes |
| MigrationNumbering.FileNameCarriesVersion | padrino-gen/lib/padrino-gen/generators/components/actions.rb:42-45 | the file name written for a version is read back as that version |
| MigrationNumbering.NextVersionAfterWrite | padrino-gen/lib/padrino-gen/generators/components/actions.rb:42-45 | after writing a migration, the next one gets the following number |
| MigrationNumbering.VersionOfThreeDigits | padrino-gen/lib/padrino-gen/generators/components/actions.rb:42-43 | `004_x.rb` reads as version 4 |
| MigrationNumbering.NextVersionSkipsGaps | padrino-gen/lib/padrino-gen/generators/components/actions.rb:42-44 | with `001` and `003` present the next is 4, not a refilled gap, and `add_email` is written to `004_add_email.rb` |
| FieldSpecs.ParseTokens | padrino-gen/lib/padrino-gen/generators/components/actions.rb:36 | one tuple per token, in order |
| FieldSpecs.ParseNameAndKind | padrino-gen/lib/padrino-gen/generators/components/actions.rb:36 | `name:kind` destructures to the name and the kind |
| FieldSpecs.ParseBareToken | padrino-gen/lib/padrino-gen/generators/components/actions.rb:36 | a token without `:` has a nil kind |
| FieldSpecs.MatchesDatetimeAt | padrino-gen/lib/padrino-gen/generators/components/actions.rb:37 | `/datetime/i` matches at `i` iff the eight characters there downcase to `datetime` |
| FieldSpecs.MentionsDatetimeIff | padrino-gen/lib/padrino-gen/generators/components/actions.rb:37 | `kind =~ /datetime/i` holds iff some stretch of the kind downcases to `datetime` |
| FieldSpecs.FixDatetime | padrino-gen/lib/padrino-gen/generators/components/actions.rb:37 | the field is kept; a kind mentioning datetime in any case becomes `DateTime`, any other kind (nil included) is kept |
| FieldSpecs.FixDatetimeIdempotent | padrino-gen/lib/padrino-gen/generators/components/actions.rb:37 | fixing twice is fixing once |
| FieldSpecs.FixAll | padrino-gen/lib/padrino-gen/generators/components/actions.rb:59 | every tuple fixed, order and count kept |
| FieldSpecs.FixDatetimeInPlace | padrino-gen/lib/padrino-gen/generators/components/actions.rb:59 | `collect!` leaves the array holding the fixed tuples of its old contents |
| FieldSpecs.Render | padrino-gen/lib/padrino-gen/generators/components/actions.rb:60-61 | `collect(&format)`: one rendered statement per tuple, in order |
| FieldSpecs.NormalizedToken | padrino-gen/lib/padrino-gen/generators/components/actions.rb:36-37 | a `name:kind` token becomes its name with its kind, or `DateTime` when the kind mentions datetime |
| FieldSpecs.StringIsNoDatetime | padrino-gen/lib/padrino-gen/generators/components/actions.rb:37 | a `string` column is not touched by the fix |
| FieldSpecs.DatetimeIsDatetime | padrino-gen/lib/padrino-gen/generators/components/actions.rb:37 | `datetime` is caught by the fix |
| FieldSpecs.ScenarioTitle | padrino-gen/lib/padrino-gen/generators/components/actions.rb:36-37 | `title:string` stays a string column |
| FieldSpecs.ScenarioPublishedAt | padrino-gen/lib/padrino-gen/generators/components/actions.rb:36-37 | `published_at:datetime` becomes a `DateTime` column |
| MigrationNamer.DirectionNameIsDowncasedKeyword | padrino-gen/lib/padrino-gen/generators/components/actions.rb:57 | the direction is the matched keyword, downcased |
| MigrationNamer.LineEndIsFirstLineFeed | padrino-gen/lib/padrino-gen/generators/components/actions.rb:56 | the lazy `(.*?)$` stops at the first line feed or at the end |
| MigrationNamer.FindToFromIsNearest | padrino-gen/lib/padrino-gen/generators/components/actions.rb:56 | the lazy middle stops at the first `To`/`From` on the line, and finds none only when the line has none |
| MigrationNamer.FirstMatchStartIsMatch | padrino-gen/lib/padrino-gen/generators/components/actions.rb:56 | the start the scan settles on holds a match |
| MigrationNamer.FirstMatchStartIsFirst | padrino-gen/lib/padrino-gen/generators/components/actions.rb:56 | no match starts before it, and with none found no match starts anywhere |
| MigrationNamer.ScanAtSound | padrino-gen/lib/padrino-gen/generators/components/actions.rb:56 | the search at one start agrees with the reference reading, both ways, and picks the nearest link |
| MigrationNamer.ScanNoneIff | padrino-gen/lib/padrino-gen/generators/components/actions.rb:56-57 | the scan is empty exactly when no match exists anywhere |
| MigrationNamer.MigrationScan | padrino-gen/lib/padrino-gen/generators/components/actions.rb:56-57 | the scan is empty exactly when no match starts anywhere, and otherwise is the match at some start; `ScanIsLeftmostShortest` says which |
| MigrationNamer.ScanIsLeftmostShortest | padrino-gen/lib/padrino-gen/generators/components/actions.rb:56 | a found scan is the captures of the leftmost match with the nearest `To`/`From` |
| MigrationNamer.ScanOfConventionalName | padrino-gen/lib/padrino-gen/generators/components/actions.rb:56 | `<Keyword><middle>To<table>` scans to that direction and that table |
| MigrationNamer.ScanWithoutKeyword | padrino-gen/lib/padrino-gen/generators/components/actions.rb:56 | a name with no `A` and no `R` has no match |
| MigrationNamer.ScenarioAddEmailToUsers | padrino-gen/lib/padrino-gen/generators/components/actions.rb:56 | `AddEmailToUsers` scans to `Add` and `Users` |
| MigrationNamer.DirectionAndTable | padrino-gen/lib/padrino-gen/generators/components/actions.rb:57 | the direction and the table are both set or both nil |
| MigrationNamer.DirectionAndTableOfName | padrino-gen/lib/padrino-gen/generators/components/actions.rb:56-57 | a conventional name gives the downcased keyword and the pluralized, downcased table |
| MigrationWriter.PatternShape | padrino-gen/lib/padrino-gen/generators/components/actions.rb:39-44 | a marker pattern is the indent of `\s`, then `!WORD!`, then the line feed when present |
| MigrationWriter.SubstituteAllAppend | padrino-gen/lib/padrino-gen/generators/components/actions.rb:39-44 | a chain of `gsub` calls splits at any point |
| MigrationWriter.ModelSubstitutionsInOrder | padrino-gen/lib/padrino-gen/generators/components/actions.rb:39-44 | the model writer's substitutions are the eight `gsub` calls, in the order of the code |
| MigrationWriter.FixedTuples | padrino-gen/lib/padrino-gen/generators/components/actions.rb:59 | the tuples after `collect!` are the fixed tuples |
| MigrationWriter.ColumnDeclarationsOf | padrino-gen/lib/padrino-gen/generators/components/actions.rb:36-38 | the column declarations are the rendered, fixed tuples joined by a line feed and six spaces |
| MigrationWriter.OutputModelMigration | padrino-gen/lib/padrino-gen/generators/components/actions.rb:34-47 | the file is named after the next version and holds the template after all eight substitutions |
| MigrationWriter.ChangeSubstitutionsInOrder | padrino-gen/lib/padrino-gen/generators/components/actions.rb:64-69 | the standalone writer's substitutions are the five `gsub` calls, in order |
| MigrationWriter.UpAndDownTexts | padrino-gen/lib/padrino-gen/generators/components/actions.rb:55-65 | the texts for `!UP!` and `!DOWN!` are the change blocks placed by direction |
| MigrationWriter.OutputMigrationFile | padrino-gen/lib/padrino-gen/generators/components/actions.rb:54-73 | the file is named after the next version and holds the template with the change blocks, names and version filled in |
| MigrationWriter.MatchHasMarker | padrino-gen/lib/padrino-gen/generators/components/actions.rb:39-44 | every match of a marker pattern has `!WORD!` after its indent |
| MigrationWriter.PlainKept | padrino-gen/lib/padrino-gen/generators/components/actions.rb:39-44 | text without `!` is never changed by a marker substitution |
| MigrationWriter.MarkerKept | padrino-gen/lib/padrino-gen/generators/components/actions.rb:39-44 | a substitution leaves a different marker alone |
| MigrationWriter.MarkerFilled | padrino-gen/lib/padrino-gen/generators/components/actions.rb:39-44 | a substitution puts its text where its marker stood |
| MigrationWriter.MarkerKeptByAll | padrino-gen/lib/padrino-gen/generators/components/actions.rb:39-44 | a marker that no substitution names survives them all |
| MigrationWriter.LastMarkerFilled | padrino-gen/lib/padrino-gen/generators/components/actions.rb:39-44 | a marker named only by the last substitution ends up replaced by its text |
| MigrationWriter.StandaloneKeepsOtherMarkers | padrino-gen/lib/padrino-gen/generators/components/actions.rb:64-69 | markers the standalone writer does not know, such as `!NAME!`, stay in its output |
| MigrationWriter.StandaloneVersionMatchesFileName | padrino-gen/lib/padrino-gen/generators/components/actions.rb:67-70 | `!VERSION!` becomes the number the file name carries |
| MigrationWriter.ModelVersionMatchesFileName | padrino-gen/lib/padrino-gen/generators/components/actions.rb:42-45 | in a model migration too, `!VERSION!` becomes the file name's number |
| MigrationWriter.TableFilled | padrino-gen/lib/padrino-gen/generators/components/actions.rb:62-63 | the `!TABLE!` substitution fills the table and keeps `!COLUMNS!` |
| MigrationWriter.ColumnsFilled | padrino-gen/lib/padrino-gen/generators/components/actions.rb:62-63 | the `!COLUMNS!` substitution fills the statements |
| MigrationWriter.ChangeBlockFilled | padrino-gen/lib/padrino-gen/generators/components/actions.rb:60-63 | a change block is the format with the table and the statements, four-space indented, in place of its markers |
| MigrationWriter.ModelFillsUpFragment | padrino-gen/lib/padrino-gen/generators/components/actions.rb:39 | an indented `!UP!` line is replaced first, so the later substitutions reach the markers in the up fragment |
| MigrationWriter.ChangeTextsPlacement | padrino-gen/lib/padrino-gen/generators/components/actions.rb:56-65 | no scan or no columns gives two empty texts; otherwise add then remove for `add`, swapped for `remove`, on the pluralized table |
| MigrationWriter.ChangeTexts | padrino-gen/lib/padrino-gen/generators/components/actions.rb:56-65 | no columns give two empty texts; the full placement is stated by `ChangeTextsPlacement` |
| GeneratorText.IndentSpaces | padrino-gen/lib/padrino-gen/generators/components/actions.rb:98-100 | `' ' * count`: exactly `count` spaces, or the `negative argument` error |
| GeneratorText.IndentAdds | padrino-gen/lib/padrino-gen/generators/components/actions.rb:98-100 | indents concatenate additively |
| GeneratorText.ControllerActionsOfTokens | padrino-gen/lib/padrino-gen/generators/components/actions.rb:104-109 | each `verb:name` becomes `verb :name do` and its `end`, in order, joined by a line feed and two spaces |
| GeneratorText.ControllerActions | padrino-gen/lib/padrino-gen/generators/components/actions.rb:104-109 | the text is empty exactly when there are no tokens; its contents are stated by `ControllerActionsOfTokens` |
| GeneratorText.ActionWithoutName | padrino-gen/lib/padrino-gen/generators/components/actions.rb:104-109 | a token without a name gives an empty action name |
| GeneratorText.ControllerRoutesLines | padrino-gen/lib/padrino-gen/generators/components/actions.rb:114-119 | the routes text is an empty line, one `map(:route).to("/name/route")` line per token, and a final line feed |
| GeneratorText.ControllerRoutes | padrino-gen/lib/padrino-gen/generators/components/actions.rb:114-119 | the text starts and ends with a line feed, and is two line feeds without tokens; its lines are stated by `ControllerRoutesLines` |
| GeneratorText.JoinWrapped | padrino-gen/lib/padrino-gen/generators/components/actions.rb:116-118 | wrapping the lines in empty ones puts the separator around their join |
| GeneratorText.MockingInclude | padrino-gen/lib/padrino-gen/generators/components/actions.rb:89-94 | nothing without the file; an error for a negative indent; otherwise the indented `include` line for the given or default path, after the given anchor or the first `class` line |
| GeneratorText.MockingIncludeDefault | padrino-gen/lib/padrino-gen/generators/components/actions.rb:89-94 | with the defaults the line is `  include <library>` in `test/test_config.rb`, after the first `class` line |
| GeneratorText.Dedent8Line | padrino-gen/lib/padrino-gen/generators/components/actions.rb:5 | `gsub(/^ {8}/, '')` on a line: eight leading spaces removed, other lines kept |
| GeneratorText.DedentHeredoc | padrino-gen/lib/padrino-gen/generators/components/actions.rb:5-9 | dedenting an eight-space heredoc gives its lines back, each ended by a line feed |
| GeneratorText.BaseTestHelperText | padrino-gen/lib/padrino-gen/generators/components/actions.rb:5-9 | `BASE_TEST_HELPER` is its three lines, each ended by a line feed |
| GeneratorText.TestSuiteSetup | padrino-gen/lib/padrino-gen/generators/components/actions.rb:79-83 | the file goes to the given path or `test/test_config.rb` |
| GeneratorText.TestSuiteSetupText | padrino-gen/lib/padrino-gen/generators/components/actions.rb:79-83 | the contents are the helper, a line feed, and the suite with every `CLASS_NAME` replaced |
| GemfileEdits.Escape | padrino-gen/lib/padrino-gen/generators/components/actions.rb:24 | escaping never shortens the text |
| GemfileEdits.EscapeRoundTrip | padrino-gen/lib/padrino-gen/generators/components/actions.rb:24 | unescaping the escaped text gives it back |
| GemfileEdits.Inspect | padrino-gen/lib/padrino-gen/generators/components/actions.rb:24 | a string inspects to a quoted literal that reads back as it; a symbol to `:name` |
| GemfileEdits.Capitalize | padrino-gen/lib/padrino-gen/generators/components/actions.rb:23 | first character upcased, the rest downcased, length kept |
| GemfileEdits.GemOptionPairs | padrino-gen/lib/padrino-gen/generators/components/actions.rb:24 | one pair per given key among `:only` and `:require_as` |
| GemfileEdits.GemOptionsPresent | padrino-gen/lib/padrino-gen/generators/components/actions.rb:24-25 | the options are written exactly when `:only` or `:require_as` is given |
| GemfileEdits.GemLineOnlySymbol | padrino-gen/lib/padrino-gen/generators/components/actions.rb:23-25 | `:only => :sym` gives `gem 'name', :only => :sym` under `<Sym> requirements` |
| GemfileEdits.CapitalizeTesting | padrino-gen/lib/padrino-gen/generators/components/actions.rb:23 | the testing group's anchor is `Testing requirements` |
| GemfileEdits.GemLineWithoutOptions | padrino-gen/lib/padrino-gen/generators/components/actions.rb:23-25 | no options give `gem 'name'` under `Component requirements` |
| GemfileEdits.InsertWithoutAnchor | padrino-gen/lib/padrino-gen/generators/components/actions.rb:27 | without the anchor the Gemfile is unchanged |
| GemfileEdits.InsertAfterOneAnchor | padrino-gen/lib/padrino-gen/generators/components/actions.rb:27 | with one anchor line the gem line goes right after it |
| GemfileEdits.InsertAfterAnchor | padrino-gen/lib/padrino-gen/generators/components/actions.rb:27 | the gem line after every line ending in the anchor; `InsertAfterAnchorKeepsEnds`, `InsertWithoutAnchor` and `InsertAfterOneAnchor` state what moves and where the gem line goes |
| GemfileEdits.InsertAfterAnchorKeepsEnds | padrino-gen/lib/padrino-gen/generators/components/actions.rb:27 | lines are only added, and the first and the last line stay in place |
| GemfileEdits.InsertIntoGemfile | padrino-gen/lib/padrino-gen/generators/components/actions.rb:22-28 | options get `:content` and `:after`, the rest is kept, and the gem line is inserted after the anchor |
| GemfileEdits.Reverse | padrino-gen/lib/padrino-gen/generators/components/actions.rb:16 | the names back to front |
| GemfileEdits.RequireDependencies | padrino-gen/lib/padrino-gen/generators/components/actions.rb:14-17 | the names are inserted last first; the options end with the first name's content and the group's anchor |
| GemfileEdits.GemLines | padrino-gen/lib/padrino-gen/generators/components/actions.rb:14-17 | one gem line per name, in order |
| GemfileEdits.RequireDependenciesKeepOrder | padrino-gen/lib/padrino-gen/generators/components/actions.rb:14-17 | inserting in reverse after one anchor leaves the gems in the order given |
| ArTasks.PlanAll | padrino-gen/lib/padrino-gen/padrino-tasks/activerecord.rb:97-126 | each configuration is skipped iff it has no database, acted on iff local, refused with the remote notice otherwise |
| ArTasks.HasDatabase | padrino-gen/lib/padrino-gen/padrino-tasks/activerecord.rb:18 | the `database` key test; `PlanAll` states that an entry without it is skipped |
| ArTasks.MissingHostIsLocal | padrino-gen/lib/padrino-gen/padrino-tasks/activerecord.rb:121 | a missing or empty host counts as local |
| ArTasks.OtherHostIsRemote | padrino-gen/lib/padrino-gen/padrino-tasks/activerecord.rb:120-125 | any other host is remote, and the notice names the database |
| ArTasks.LocalDatabase | padrino-gen/lib/padrino-gen/padrino-tasks/activerecord.rb:120-126 | the host test of `local_database?`; its meaning is stated by `PlanAll`, `MissingHostIsLocal` and `OtherHostIsRemote` |
| ArTasks.Verbose | padrino-gen/lib/padrino-gen/padrino-tasks/activerecord.rb:131 | output stays on when `VERBOSE` is unset; once set, only the exact text `true` keeps it on |
| ArTasks.VerboseIsCaseSensitive | padrino-gen/lib/padrino-gen/padrino-tasks/activerecord.rb:131 | `VERBOSE=TRUE` turns the output off |
| ArTasks.MigrateTarget | padrino-gen/lib/padrino-gen/padrino-tasks/activerecord.rb:132 | nil exactly when `VERSION` is unset, otherwise its `to_i` |
| ArTasks.RequiredVersion | padrino-gen/lib/padrino-gen/padrino-tasks/activerecord.rb:153-154 | an error `VERSION is required` exactly when unset, otherwise the migrate target |
| ArTasks.VersionRoundTrip | padrino-gen/lib/padrino-gen/padrino-tasks/activerecord.rb:153-155 | a version given as its decimal text is the version used |
| ArTasks.NonNumericVersionIsZero | padrino-gen/lib/padrino-gen/padrino-tasks/activerecord.rb:153-154 | `VERSION=abc` is not rejected but read as 0 |
| ArTasks.Steps | padrino-gen/lib/padrino-gen/padrino-tasks/activerecord.rb:170 | one step unless `STEP` is set, then its `to_i` |
| ArTasks.StepsRoundTrip | padrino-gen/lib/padrino-gen/padrino-tasks/activerecord.rb:177 | a step count given as its decimal text is the count used |
| ArTasks.RedoTasks | padrino-gen/lib/padrino-gen/padrino-tasks/activerecord.rb:138-146 | down and up are invoked exactly when they would not raise for a missing `VERSION`, rollback and migrate otherwise |
| ArTasks.OrElse | padrino-gen/lib/padrino-gen/padrino-tasks/activerecord.rb:55 | `a \|\| b`: the value unless nil or false |
| ArTasks.EnvOr | padrino-gen/lib/padrino-gen/padrino-tasks/activerecord.rb:53-54 | a set variable wins, even when empty |
| ArTasks.MysqlCreationOptions | padrino-gen/lib/padrino-gen/padrino-tasks/activerecord.rb:53-55 | charset: configured, else `CHARSET`, else `utf8`; collation likewise with `COLLATION` and `utf8_unicode_ci` |
| ArTasks.MysqlCharsetIndependent | padrino-gen/lib/padrino-gen/padrino-tasks/activerecord.rb:53-55 | the charset is the same for any two settings that agree on the configured `charset` and on `CHARSET` |
| ArTasks.MysqlCollationIndependent | padrino-gen/lib/padrino-gen/padrino-tasks/activerecord.rb:53-55 | the collation is the same for any two settings that agree on the configured `collation` and on `COLLATION` |
| ArTasks.CharsetDoesNotPickCollation | padrino-gen/lib/padrino-gen/padrino-tasks/activerecord.rb:53-55 | a configured charset leaves the collation at its default |
| ArTasks.PostgresEncodingAsWritten | padrino-gen/lib/padrino-gen/padrino-tasks/activerecord.rb:79 | the value under the symbol key `:encoding`, else `CHARSET`, else `utf8` |
| ArTasks.PostgresEncoding | padrino-gen/lib/padrino-gen/padrino-tasks/activerecord.rb:79 | the configured `encoding`, else `CHARSET`, else `utf8` |
| ArTasks.ConfiguredEncodingIgnored | padrino-gen/lib/padrino-gen/padrino-tasks/activerecord.rb:79 | on any configuration read from YAML the encoding depends on the environment alone |
| ArTasks.Latin1BecomesUtf8 | padrino-gen/lib/padrino-gen/padrino-tasks/activerecord.rb:79-82 | `encoding: latin1` still yields `utf8` as written, `latin1` as intended |
| ArTasks.SchemaSearchArgument | padrino-gen/lib/padrino-gen/padrino-tasks/activerecord.rb:268-271 | a blank search path is passed as it is; a non-blank non-string raises |
| ArTasks.SchemaFlagsOfNames | padrino-gen/lib/padrino-gen/padrino-tasks/activerecord.rb:268-271 | `a, b,c` gives `--schema=a --schema=b --schema=c`: one stripped flag per comma-separated name |

## Left out

- The file-system and Thor actions are not modelled as effects:
  - `create_file` becomes the returned `MigrationFile` or `CreatedFile`;
  - `inject_into_file` becomes the line model of `GemfileEdits`, or the returned `Injection` of `MockingInclude`, which records the anchor but does not insert the text into the file;
  - `Dir[...]` and `File.exist?` become parameters.
- Inflections are parameters: `camelize`, `underscore`, `pluralize` and the `to_s` of the model name. Their rules belong to another library.
- `gsub` replacement escapes (`\1`, `\\`) are not interpreted. Every replacement is taken literally.
- MigrationNumbering.NextVersion: requires every migration file name to start with a digit. In Ruby, a name without leading digits makes `match(...)[0]` raise on nil, and the model does not carry that raise. The `^` of Ruby 1.8 can also match after a line feed inside a name; the model only reads the head of the name.
- GemfileEdits.Inspect: escapes only `"` and `\`, the characters a gem name or option could plausibly hold. Symbols that `inspect` would quote are not modelled.
- `options.slice` iterates a hash. The model puts `:only` before `:require_as`, the insertion order of Ruby 1.9. Ruby 1.8's unordered hash could swap them.
- GemfileEdits.InsertAfterAnchor: the Gemfile is a sequence of lines. Gem names or anchor texts containing line feeds are not modelled.
- MigrationNamer.ScanOfConventionalName: covers names whose middle has no `T`, `F` or line feed. Other names are covered by the general `ScanIsLeftmostShortest`.
- ArTasks.SchemaSearchArgument: states the string case through `SchemaFlagsOfNames` only, for comma-separated names without an empty last piece and whose first piece holds a character other than whitespace. A search path with an empty first name, such as `,a`, is not covered by a lemma.
- `create_database` and `drop_database` are left out: connections, `Migrator` calls, schema and structure dumps, the shell commands they run, and the `charset`, `collation`, `version` and `abort_if_pending_migrations` tasks. They are I/O against a database server or the shell.
- The MySQL access-denied retry is left out: it reads a root password from standard input and issues a grant statement. Only the creation options that retry uses are modelled.
- The exceptions that `drop:all` rescues around each configuration are left out. A failing drop is outside the decision modelled by `PlanAll`.
- ArTasks.RedoTasks: returns the task names as written (`db:migrate:down` and the others). These tasks are defined in the `ar` namespace, and whether they resolve depends on rake setup outside this file.
- GeneratorText.TestSuiteSetup: states only where the file goes. The contents are stated by `TestSuiteSetupText`, for a suite made of pieces in which `CLASS_NAME` does not occur, joined by `CLASS_NAME`.
- MigrationNamer.DirectionAndTable: states only that both values are present together. Their values are stated by `DirectionAndTableOfName` for conventional names.
- Concurrency is left out: the generator and the tasks are single-threaded.

## Findings

| source | as written | input that shows it | evidently intended | confidence | as-written member | corrected member |
|---|---|---|---|---|---|---|
| padrino-gen/lib/padrino-gen/padrino-tasks/activerecord.rb:79 | the encoding is read as `config[:encoding]`, a symbol key, from a configuration whose keys are strings | a PostgreSQL configuration with `encoding: latin1` and no `CHARSET` in the environment: the database is created with `utf8`, since line 82 overwrites `encoding` | `config['encoding'] \|\| ENV['CHARSET'] \|\| 'utf8'` | not executed | ArTasks.PostgresEncodingAsWritten | ArTasks.PostgresEncoding |
