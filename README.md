# Chef cookbook metadata linter, modelled in Dafny

This project models the core of a GitHub Action that lints the
`metadata.rb` file of a Chef cookbook. The core has two parts.

- **The line parser `metadata` and its format validators** (`src/metadata.ts`).
  - The parser drops blank lines, `#` comments and `%w(`-style loop headers.
  - It skips lines with fewer than two white-space separated tokens.
  - It gathers every `supports` line, with its quotes, into an ordered list.
  - For the nine allow-listed scalar keys it stores the third capture of the leftmost match of `(\w+)\s+('|")(.*?)('|")` on the line, or `""` when nothing matches.
  - That capture ends at the first quote of either kind: `maintainer "O'Brien"` stores `O`, and `name :foo, 'bar'` stores `""`: the only white space in front of a quote there follows `,`, which is not a word character, so no `(\w+)\s+` run ends at that quote.
  - The validators are regular-expression predicates: `isValidSemVer`, `isValidVersionConstraint` and `isValidSupport`.
- **The orchestrator `checkMetadata`** (`src/checkMetadata.ts`).
  - It first rejects a malformed `maintainer_email` input.
  - Four stages then run without stopping early: field equality, URL reachability, mandatory fields, formats.
  - Each failed check appends one error and one summary line to a `Message` and sets its conclusion to failure.
  - A failed message finally loses its "Metadata validated" line and gets failure wording.

Modules:

- **`Strings`** (`strings.dfy`): the JavaScript string operations the core uses.
  - `trim`, `split` on one character, `split(/\s+/)` and `join`.
  - The ECMAScript white-space set behind `trim` and `\s`.
- **`MetadataFile`** (`metadata.dfy`): the parser.
  - `Metadata` is a method with the source's loop and its mutated map and list.
  - It is proved equal to `MetadataSpec`: the filter, then a fold of `Step` over the kept lines.
  - Lemmas say what one line contributes, stated on the line's own characters.
  - The extraction regex `(\w+)\s+('|")(.*?)('|")` is a recognizer (`MatchAt`, `FirstMatch`). It is proved against a declarative statement of what a match is: greedy `\w+` and `\s+`, a lazy body, and the leftmost start.
- **`SemVer`**, **`VersionConstraint`** and **`Support`** (`semver.dfy`, `version_constraint.dfy`, `support.dfy`): one validator each.
  - Each has a datatype for the accepted texts, a `Render`, and a `Parse` that reads the text left to right.
  - Both round trips are proved, so each `IsValid…` predicate accepts exactly the texts of valid values.
- **`Email`** (`email.dfy`): `isValidEmail`.
  - A left-to-right recognizer, proved equivalent to the pattern `^[^\s@]+@[^\s@]+\.[^\s@]+$` stated over positions.
- **`CheckMetadata`** (`check_metadata.dfy`): the orchestrator.
  - `Findings` lists the failed checks of the four stages in order; `Result` is the message they produce.
  - The class `Message` has the source's fields. Its methods `Fail`, `CheckField` and `Finish` update them.
  - One method per stage (`CheckFields`, `CheckReachability`, `CheckMandatory`, `CheckFormats`, `CheckEntries`) runs the source's loops.
  - `CheckMetadata` is proved to throw exactly on a malformed e-mail input and otherwise to return a fresh message equal to `Result`.
  - Lemmas state what a run promises.

Ambient inputs are parameters of `CheckMetadata`, collected in the datatype `Inputs`:

- the action inputs `maintainer`, `maintainer_email`, `license` and `mandatory_fields`;
- the repository owner and name;
- URL reachability, a function from URL to boolean;
- the `depends` entry check `isValidDepends`, an uninterpreted predicate (its code is not part of this model).

The metadata map and its line map are also parameters. `checkMetadata` reads them as `{data, lines}`, while the `metadata` function modelled here returns a single map and no line numbers (src/metadata.ts:8,65 against src/checkMetadata.ts:79). So the model does not attribute line numbers to the parser. `ParsedMetadataIsWellTyped` shows that the parser's map meets the orchestrator's typing precondition.

Behaviour of the code that a reader might not expect:

- The parser records no line numbers, never collects `depends`, and stores `""` for a symbol value such as `:java`. It does not strip the colon.
- `isValidSupport` accepts only quoted platform names, not `:symbol` ones. It allows any white space around the comma.
- The license is always compared with the `license` input, even when that input is empty. When the `license` key is absent, the comparison fails and reports `license: expected '<input>', got 'MISSING'`, also for an empty input (an absent value is never equal to a string). A declared `license ''`, or `license :mit` (stored as `""`), matches an empty input and reports nothing.

## Model

| member | source | states |
|---|---|---|
| Strings.Trim | src/metadata.ts:37 | `trim()` leaves no white space at either end, and gives the empty string exactly when the text is all white space |
| Strings.TrimStartIsSuffix | src/metadata.ts:37 | removing leading white space leaves a suffix of the text |
| Strings.TrimEndIsPrefix | src/metadata.ts:37 | removing trailing white space leaves a prefix of the text |
| Strings.TrimPadded | src/metadata.ts:42 | trimming removes exactly the white space around a text that neither starts nor ends with white space |
| Strings.SplitOnSpaces | src/metadata.ts:43 | `split(/\s+/)`: the first piece is the leading run of non-space characters; there are at least two pieces exactly when the text contains white space; no piece contains white space |
| Strings.FirstToken | src/metadata.ts:43-46 | the first token is `key` (with a second token present) exactly when the text starts with `key` followed by white space |
| Strings.JoinSplit | src/checkMetadata.ts:213-214 | joining the pieces of `split(c)` with `c` gives back the text |
| Strings.SplitJoin | src/checkMetadata.ts:213-214 | splitting a join of pieces that do not contain `c` gives back the pieces |
| MetadataFile.Kept | src/metadata.ts:35-39 | the filter's test on one line: trimmed, not empty, not starting with `#`, not `%` followed by a word character (its properties: `KeptLines`, `KindsNeedKept`) |
| MetadataFile.KeptLinesAppend | src/metadata.ts:35-39 | the filter keeps the lines' order: one more line at the end adds that line at the end exactly when it passes |
| MetadataFile.KeptLines | src/metadata.ts:35-39 | the filter keeps exactly the lines that are not blank, `#` comments or `%`+word-character headers after trimming, and no more lines than it is given |
| MetadataFile.Step | src/metadata.ts:41-62 | one pass of the loop over a kept line (stated on the line's characters by `StepByLine`) |
| MetadataFile.Run | src/metadata.ts:41-62 | the loop over the kept lines, in order, as a fold of `Step` |
| MetadataFile.MetadataSpec | src/metadata.ts:32-64 | the map `metadata` returns: the filter, the loop, then `supports` bound to the collected list (its properties: the `MetadataFile` lemmas below) |
| MetadataFile.Metadata | src/metadata.ts:8-66 | the loop's map, with `supports` set last, equals the specification `MetadataSpec`: the filter followed by the per-line fold |
| MetadataFile.StepByLine | src/metadata.ts:41-62 | a kept `supports` line appends its entry; a kept scalar line sets its key to the extracted value; every other line changes nothing |
| MetadataFile.MatchAt | src/metadata.ts:53-55 | the third capture of the expression when a match starts at one position (its meaning: `MatchAtSound`, `ChosenMatchYields`) |
| MetadataFile.ScalarValue | src/metadata.ts:53-57 | `item ? item[3] : ''` over the leftmost match (its properties: `QuotedValueAfterKey`, `UnquotedValueIsEmpty`, `ApostropheEndsValue`) |
| MetadataFile.MatchAtSound | src/metadata.ts:53-55 | at a start position `MatchAt` returns the lazy body of the match there, and nothing exactly when no match of `(\w+)\s+('|")(.*?)('|")` starts there |
| MetadataFile.MatchIsAnchored | src/metadata.ts:53 | in any match, `\w+` and `\s+` run as far as they can and the lazy body ends at the first quote after the opening one |
| MetadataFile.ChosenMatchYields | src/metadata.ts:53-57 | the match with the shortest body gives that body as the value |
| MetadataFile.FirstMatchIsLeftmost | src/metadata.ts:55 | `match` finds the leftmost start that matches, and fails exactly when no start matches |
| MetadataFile.ApostropheEndsValue | src/metadata.ts:53-57 | `maintainer "O'Brien"` stores `O`: the value ends at the first quote of either kind |
| MetadataFile.UnquotedValueIsEmpty | src/metadata.ts:53-57 | a line in which no quote follows a word character and white space, such as `name :java` or `name :foo, 'bar'`, stores `""` |
| MetadataFile.MatchNeedsSpacedQuote | src/metadata.ts:53 | every match of the expression has a quote right after white space that follows a word character |
| MetadataFile.QuotedValueAfterKey | src/metadata.ts:53-57 | a line `key`, white space, a quote, a text without quotes or line breaks, a quote, gives that text as the value (test/metadata.test.ts:11-14,44-47) |
| MetadataFile.KeysAreWords | src/metadata.ts:12-22 | the allow-listed keys and `supports` are single non-space tokens, and `supports` is not allow-listed |
| MetadataFile.KindsNeedKept | src/metadata.ts:35-39 | `supports` lines and scalar lines always pass the filter |
| MetadataFile.LineKindsExclusive | src/metadata.ts:48-51 | a line is at most one of a `supports` line and a scalar line for a single key |
| MetadataFile.SupportsLineAppends | src/metadata.ts:48-50 | appending a `supports` line appends exactly its trimmed text after the keyword, quotes kept, to the end of the list (test/metadata.test.ts:20-25) |
| MetadataFile.ScalarLineSets | src/metadata.ts:51-60 | appending a scalar line sets its key to the extracted value, overriding earlier lines for that key |
| MetadataFile.OtherLineInert | src/metadata.ts:44-51 | a line that is neither a `supports` line nor an allow-listed scalar line, such as `depends` or `gem`, changes nothing |
| MetadataFile.IgnoredLineIsInert | src/metadata.ts:35-44 | a blank, comment, `%`-header or single-token line is neither a `supports` line nor a scalar line |
| MetadataFile.IgnoredLineContributesNothing | src/metadata.ts:35-44 | removing such a line from anywhere in the file does not change the result (test/fixtures/aws.metadata.rb:25-28) |
| MetadataFile.ResultKeys | src/metadata.ts:12-64 | the result always binds `supports` to a list; every other key is allow-listed and bound to a string |
| MetadataFile.KeyAfterLine | src/metadata.ts:51-60 | after one more line a scalar key is present exactly when it was before or the line declares it |
| MetadataFile.ScalarKeyPresent | src/metadata.ts:51-60 | an allow-listed key is in the result exactly when some line declares it |
| MetadataFile.NoSupportsLines | src/metadata.ts:11-64 | without `supports` lines the `supports` list is empty |
| SemVer.IsValidSemVer | src/metadata.ts:73-77 | `isValidSemVer`: the text reads as a version (its meaning: `IsValidSemVerIff`) |
| SemVer.ParseRender | src/metadata.ts:73-77 | every valid version reads back from its text |
| SemVer.RenderParse | src/metadata.ts:73-77 | whatever is read as a version is valid and is exactly that version's text |
| SemVer.IsValidSemVerIff | src/metadata.ts:73-77 | `isValidSemVer` accepts exactly the texts of versions with numeric core parts without leading zeros, pre-release identifiers whose numeric ones have no leading zeros, and non-empty build identifiers |
| SemVer.AcceptsCore | test/metadata.test.ts:68 | `1.2.3` is accepted |
| SemVer.AcceptsZeroMajor | test/metadata.test.ts:69 | `0.1.0` is accepted |
| SemVer.AcceptsTwoDigits | test/metadata.test.ts:70 | `10.20.30` is accepted |
| SemVer.TextOfPrerelease | test/metadata.test.ts:71 | the version `Prerelease` is written `1.2.3-alpha.1` |
| SemVer.AcceptsPrerelease | test/metadata.test.ts:71 | the text of `Prerelease`, `1.2.3-alpha.1`, is accepted |
| SemVer.TextOfWithBuild | test/metadata.test.ts:72 | the version `WithBuild` is written `1.2.3+build.1` |
| SemVer.AcceptsBuild | test/metadata.test.ts:72 | the text of `WithBuild`, `1.2.3+build.1`, is accepted |
| SemVer.RejectsTwoParts | test/metadata.test.ts:76 | `1.2` is rejected |
| SemVer.RejectsVPrefix | test/metadata.test.ts:77 | `v1.2.3` is rejected |
| SemVer.RejectsFourParts | test/metadata.test.ts:78 | `1.2.3.4` is rejected |
| SemVer.RejectsWord | test/metadata.test.ts:79 | `abc` is rejected |
| SemVer.RejectsEmpty | test/metadata.test.ts:80 | the empty string is rejected |
| SemVer.RejectsLeadingNonDigit | src/metadata.ts:73-77 | a text whose first character is not a digit is rejected |
| VersionConstraint.IsValidVersionConstraint | src/metadata.ts:84-88 | `isValidVersionConstraint`: the text reads as a constraint and is not empty (its meaning: `IsValidVersionConstraintIff`) |
| VersionConstraint.OperatorPrefix | src/metadata.ts:86 | the operator read is empty or one of the six, and is a prefix of the text |
| VersionConstraint.OperatorPrefixOf | src/metadata.ts:86 | before white space or a digit, the operator read is exactly the one written |
| VersionConstraint.ParseRender | src/metadata.ts:84-88 | every valid constraint reads back from its text |
| VersionConstraint.RenderParse | src/metadata.ts:84-88 | whatever is read as a constraint is valid and is exactly that constraint's text |
| VersionConstraint.IsValidVersionConstraintIff | src/metadata.ts:84-88 | `isValidVersionConstraint` accepts exactly the texts of an optional operator, white space, dot-separated digit runs and an optional `-[A-Za-z0-9.]+` qualifier |
| VersionConstraint.LengthCheckRedundant | src/metadata.ts:87 | the pattern never matches the empty string, so the length test adds nothing |
| VersionConstraint.FirstCharacter | src/metadata.ts:86 | an accepted constraint starts with `>`, `<`, `=`, `~`, white space or a digit |
| VersionConstraint.RejectsLeadingLetter | src/metadata.ts:86 | a text starting with a letter is rejected |
| VersionConstraint.BodyStartsWithDigit | src/metadata.ts:86 | the version after the operator and white space starts with a digit |
| VersionConstraint.AcceptsAtLeast | test/metadata.test.ts:86 | `>= 15.3` is accepted |
| VersionConstraint.AcceptsPessimistic | test/metadata.test.ts:90 | `~> 15.3` is accepted |
| VersionConstraint.AcceptsBareVersion | test/metadata.test.ts:92 | `15.3` is accepted |
| VersionConstraint.AcceptsThreeNumbers | test/metadata.test.ts:93 | `>= 15.3.1` is accepted |
| VersionConstraint.RejectsDoubledOperator | test/metadata.test.ts:97 | `>> 15.3` is rejected |
| VersionConstraint.RejectsWord | test/metadata.test.ts:98 | `abc` is rejected |
| VersionConstraint.RejectsEmpty | test/metadata.test.ts:99 | the empty string is rejected |
| Support.IsValidSupport | src/metadata.ts:95-109 | `isValidSupport`: the text reads as an entry whose constraint, if any, is valid (its meaning: `IsValidSupportIff`) |
| Support.ClauseReadsBack | src/metadata.ts:97 | every valid `, 'constraint'` clause reads back from its text |
| Support.ClauseFromText | src/metadata.ts:97 | whatever is read as a clause is exactly the text it was read from, with white space around the comma, quotes, and no quote inside |
| Support.ParseRender | src/metadata.ts:95-99 | every valid entry reads back from its text |
| Support.RenderParse | src/metadata.ts:95-99 | whatever is read as an entry is valid and is exactly that entry's text |
| Support.IsValidSupportIff | src/metadata.ts:95-109 | `isValidSupport` accepts exactly the texts of a quoted `[a-z0-9_-]+` platform with an optional quoted clause whose text is a valid version constraint |
| Support.AcceptedEntry | src/metadata.ts:95-99 | the text of a valid entry is accepted exactly when its constraint, if any, is a valid version constraint |
| Support.TextOfPlatformOnly | test/metadata.test.ts:105 | the entry `PlatformOnly` is written `'ubuntu'` |
| Support.AcceptsPlatform | test/metadata.test.ts:105 | the text of `PlatformOnly`, `'ubuntu'`, is accepted |
| Support.TextOfPlatformAndConstraint | test/metadata.test.ts:106 | the entry `PlatformAndConstraint` is written `'ubuntu', '>= 18.04'` |
| Support.AcceptsPlatformAndConstraint | test/metadata.test.ts:106 | the text of `PlatformAndConstraint`, `'ubuntu', '>= 18.04'`, is accepted |
| Support.TextOfDoubleQuoted | test/metadata.test.ts:107 | the entry `DoubleQuoted` is written `"ubuntu", ">= 18.04"` |
| Support.AcceptsDoubleQuotes | test/metadata.test.ts:107 | the text of `DoubleQuoted`, `"ubuntu", ">= 18.04"`, is accepted |
| Support.ConstraintOfExamples | test/metadata.test.ts:106-107 | `>= 18.04` is a valid version constraint |
| Support.RejectsEmpty | test/metadata.test.ts:112 | the empty string is rejected |
| Support.TextOfBadConstraint | test/metadata.test.ts:113 | the entry `BadConstraint` is written `'ubuntu', 'invalid'` |
| Support.RejectsBadConstraint | test/metadata.test.ts:113 | the text of `BadConstraint`, `'ubuntu', 'invalid'`, is rejected because its constraint is |
| Email.IsValidEmail | src/checkMetadata.ts:24-27 | `isValidEmail` as a left-to-right recognizer (its meaning: `IsValidEmailIff`) |
| Email.IsValidEmailIff | src/checkMetadata.ts:24-27 | the recognizer accepts exactly the texts with a non-first `@`, a dot after the character that follows it and before the last character, and otherwise neither white space nor `@` |
| Email.NeedsAtAndDot | src/checkMetadata.ts:25 | a text without `@` or without a dot is rejected |
| Email.AcceptsPlainAddress | test/checkMetadata.test.ts:7 | `help@sous-chefs.org` is accepted |
| Email.RejectsNoAt | src/checkMetadata.ts:25 | `invalid-email` is rejected |
| Email.RejectsNoDot | src/checkMetadata.ts:25 | `help@sous-chefs` is rejected |
| Email.RejectsSpace | src/checkMetadata.ts:25 | `jane doe@example.com` is rejected |
| CheckMetadata.GetLine | src/checkMetadata.ts:111-117 | a line it gives is one the line map holds for the field; a scalar key's line is its recorded line; for a list key it is the entry at `index` (the first by default), and none when that is out of range; an unknown key has none |
| CheckMetadata.EntryLine | src/checkMetadata.ts:288-322 | a line it gives is one the line map holds for the field |
| CheckMetadata.EntryLineOfCovered | src/checkMetadata.ts:288-322 | where the line list covers the entries, the line of entry `i` is the `i`-th line |
| CheckMetadata.Without | src/checkMetadata.ts:343 | the filtered summary holds exactly the lines of the summary other than the removed one, and is no longer than before |
| CheckMetadata.WithoutAbsent | src/checkMetadata.ts:343 | filtering out a line that is not there changes nothing |
| CheckMetadata.FieldFinding | src/checkMetadata.ts:119-147 | a field check fails exactly when the declared value is not the expected one; then it is one failure at the field's line whose actual value is the declared value when that is non-empty and `MISSING` when it is empty or absent, with the summary `<field>: expected '<expected>', got '<actual>'` |
| CheckMetadata.ReachFinding | src/checkMetadata.ts:161-207 | a URL check fails exactly when the URL is declared, non-empty and unreachable; then it is one warning at the field's line with expected `HTTP 200`, actual `UNREACHABLE` and the summary `<field>: '<url>' is not accessible` |
| CheckMetadata.TrimmedNames | src/checkMetadata.ts:213-216 | the mandatory names are no more than the comma-separated pieces (order and contents: `TrimmedNamesAppend`, `TrimmedNamesExact`) |
| CheckMetadata.TrimmedNamesAppend | src/checkMetadata.ts:213-216 | the names keep the pieces' order and multiplicity: the names of two runs of pieces are those of the first run followed by those of the second, and one piece gives its trimmed text unless that is empty |
| CheckMetadata.MandatoryNames | src/checkMetadata.ts:210-216 | the `mandatory_fields` input, or `version,chef_version,supports` when it is empty, split on `,`, trimmed, without empty names (its properties: `DefaultMandatoryNames`, `MandatoryNamesAreTrimmed`, `TrimmedNamesExact`) |
| CheckMetadata.TrimmedNamesAreNames | src/checkMetadata.ts:213-216 | every mandatory name is non-empty and has no white space at either end |
| CheckMetadata.TrimmedNamesExact | src/checkMetadata.ts:213-216 | every mandatory name is a trimmed piece of the comma split, and every piece that is not blank gives a name |
| CheckMetadata.MandatoryNamesAreTrimmed | src/checkMetadata.ts:210-216 | trimming a mandatory name again changes nothing |
| CheckMetadata.DefaultMandatoryNames | src/checkMetadata.ts:210-212 | an empty `mandatory_fields` input gives `version`, `chef_version`, `supports` |
| CheckMetadata.MissingStage | src/checkMetadata.ts:218-237 | stage 3 reports at most one failure per mandatory name |
| CheckMetadata.MissingStageExact | src/checkMetadata.ts:218-237 | stage 3 reports exactly the mandatory names whose value is absent, `""` or the empty list, each as a `MISSING` failure without a line |
| CheckMetadata.EntryFindings | src/checkMetadata.ts:288-340 | the entry checks report nothing exactly when every entry is valid, and at most one failure per entry |
| CheckMetadata.EntryStep | src/checkMetadata.ts:288-340 | one entry's check reports nothing exactly when the entry is valid |
| CheckMetadata.EntryFindingsExact | src/checkMetadata.ts:288-340 | the entry checks report exactly the invalid entries, each with the entry as actual value and the entry's own line |
| CheckMetadata.EntryOfFinding | src/checkMetadata.ts:288-340 | each finding of the entry checks is the finding of an invalid entry before the bound |
| CheckMetadata.FindingOfEntry | src/checkMetadata.ts:288-340 | each invalid entry before the bound has its finding among the entry checks' findings |
| CheckMetadata.Message.constructor | src/checkMetadata.ts:101-109 | a new message is the success message: `success`, `Metadata matches`, summary `[Metadata validated]`, no errors |
| CheckMetadata.Message.Fail | src/checkMetadata.ts:165-176 | recording a failed check sets the conclusion to failure and appends its error and its summary line |
| CheckMetadata.Message.CheckField | src/checkMetadata.ts:119-147 | `checkField` records exactly the field finding: nothing when the values agree |
| CheckMetadata.Message.Finish | src/checkMetadata.ts:342-346 | a failed message loses its success line and gets the failure message and title; a passing one is unchanged |
| CheckMetadata.CheckFields | src/checkMetadata.ts:150-158 | stage 1 records the five field checks in the order `maintainer_email`, `maintainer`, `license`, `source_url`, `issues_url`, with the expected URLs built from owner and repository |
| CheckMetadata.CheckReachability | src/checkMetadata.ts:161-207 | stage 2 records the URL checks of `source_url` and then `issues_url` |
| CheckMetadata.CheckMandatory | src/checkMetadata.ts:218-237 | stage 3's loop records the missing-field findings in the order of the names |
| CheckMetadata.CheckFormats | src/checkMetadata.ts:239-340 | stage 4 records the `version`, `chef_version`, `supports` and `depends` checks in that order |
| CheckMetadata.CheckVersion | src/checkMetadata.ts:241-261 | the message records exactly `VersionFinding`: nothing for a valid, empty or absent `version`, else one failure |
| CheckMetadata.CheckChefVersion | src/checkMetadata.ts:263-286 | the message records exactly `ChefVersionFinding`: nothing for a valid, empty or absent `chef_version`, else one failure |
| CheckMetadata.VersionFinding | src/checkMetadata.ts:241-261 | the `version` check fails exactly when the declared value is non-empty and rejected by `isValidSemVer`; then it is one failure with expected `SemVer string`, the value as actual, the key's line, and the summary `version: '<v>' is not a valid Semantic Version` |
| CheckMetadata.ChefVersionFinding | src/checkMetadata.ts:263-286 | the `chef_version` check fails exactly when the declared value is non-empty and rejected by `isValidVersionConstraint`; then it is one failure with expected `Version constraint`, the value as actual, the key's line, and the summary `chef_version: '<v>' is not a valid version constraint` |
| CheckMetadata.VersionFindingIff | src/checkMetadata.ts:241-261 | the `version` check fails exactly when the declared, non-empty value is the text of no valid semantic version |
| CheckMetadata.ChefVersionFindingIff | src/checkMetadata.ts:263-286 | the `chef_version` check fails exactly when the declared, non-empty value is the text of no valid version constraint |
| CheckMetadata.Findings | src/checkMetadata.ts:149-340 | the failed checks of the four stages in order: fields, reachability, mandatory names, formats (its properties: `FindingsWellFormed`, `ResultOfFindings`) |
| CheckMetadata.Result | src/checkMetadata.ts:101-346 | the message `checkMetadata` returns: the initial message with every finding recorded, then finished (its properties: `ResultOfFindings`, `ResultErrors`) |
| CheckMetadata.CheckEntries | src/checkMetadata.ts:288-340 | a `supports` or `depends` list records the findings of its invalid entries in order; an absent list records nothing |
| CheckMetadata.CheckEntryList | src/checkMetadata.ts:288-340 | the entry loop records the finding of each invalid entry in order |
| CheckMetadata.CheckEntry | src/checkMetadata.ts:288-340 | one pass of the entry loop adds the next entry's finding, if it is malformed, after those of the entries before it |
| CheckMetadata.CheckMetadata | src/checkMetadata.ts:58-349 | it throws `Invalid email format for maintainer_email: …` exactly when a non-empty e-mail input is malformed, and otherwise returns a new message equal to `Result` |
| CheckMetadata.RecordedAppend | src/checkMetadata.ts:124-139 | recording findings in two steps is recording them at once, so stages compose |
| CheckMetadata.FindingsWellFormed | src/checkMetadata.ts:119-340 | every finding carries the file, has a summary line starting with its field, is a warning only for an unreachable URL, and reports only lines the line map holds for its field |
| CheckMetadata.NotValidated | src/checkMetadata.ts:343 | no summary line of a finding is the success line |
| CheckMetadata.MessageOf | src/checkMetadata.ts:342-346 | well-formed findings give the success message when there are none, and otherwise a failure whose summary lines are exactly the findings' lines in order |
| CheckMetadata.ResultOfFindings | src/checkMetadata.ts:58-349 | the conclusion is success exactly when no check failed; the message is then the initial one (test/checkMetadata.test.ts:25-38), and otherwise `Metadata doesn't match` / `Metadata validation failed` with one summary line per error, in stage order |
| CheckMetadata.ErrorsOfWellFormed | src/checkMetadata.ts:119-340 | the errors of well-formed findings carry the file, only unreachable URLs are warnings, lines are the field's own, and each summary line starts with its error's field |
| CheckMetadata.MessageErrors | src/checkMetadata.ts:342-346 | a message assembled from well-formed findings fails exactly when it has errors, with one summary line per error starting with its field |
| CheckMetadata.ResultErrors | src/checkMetadata.ts:119-346 | in the returned message the conclusion is failure exactly when there are errors; then the summary lines match the errors one to one; every warning is an unreachable `source_url` or `issues_url` (test/checkMetadata.test.ts:120-131) |
| CheckMetadata.ParsedMetadataIsWellTyped | src/metadata.ts:64 | the parser's map binds `supports` to a list and every string-read key to a string |
| CheckMetadata.EmailRejectedIff | src/checkMetadata.ts:85-89 | the run throws exactly when a non-empty e-mail input lacks the address shape |
| CheckMetadata.MaintainerMismatch | test/checkMetadata.test.ts:62-75 | expecting `Sous Chefs` where `Bob` is declared gives one error with actual `Bob` and the summary `maintainer: expected 'Sous Chefs', got 'Bob'` |

## Left out

- Reading the file (`fs.readFileSync`, its error, `fs.accessSync`) and splitting it on `\n`: the parser is modelled over the list of lines, because file I/O is outside the model.
- `core.getInput`, `github.context`, `core.info`, `core.error` and `core.warning`: the inputs are parameters, and the annotation calls only log.
- `capitalize`: it only builds annotation titles.
- `isValidSPDXLicense` and the `COMMON_SPDX_LICENSES` list: they only decide whether a log warning is written, and never change the message.
- `isUrlAccessible`, with its timeout, retries and HTTP: reachability is a parameter `reachable: string -> bool`. The model asks it once per declared URL, and it gives one fixed answer per URL, as a network would not always do.
- `isValidDepends`: its code is not part of this model, so it is an uninterpreted predicate.
- The `async`/`await` structure of `checkMetadata`: the stages run in sequence and nothing else touches the message, so the model is sequential.
- CheckMetadata.CheckMetadata: requires `supports` and `depends` to hold lists and the other string-read keys to hold strings. The source casts with `as string` and `as string[]` and does not define the other cases.
- CheckMetadata.CheckMetadata: requires a line list at least as long as the entries for a non-empty `supports` or `depends` list. The source throws a `TypeError` when that list is missing and an entry is invalid, and the model does not capture that throw.
- `rawMetadata` is the map itself, not the result of `Object.fromEntries`.
- Characters are Unicode scalar values, not the UTF-16 code units JavaScript uses. A string containing characters outside the Basic Multilingual Plane may therefore be measured and indexed differently.
- `src/concurrency.ts`, `src/reportPR.ts`, `src/reportChecks.ts` and `src/main.ts`: concurrency, GitHub API calls and the entry point are not part of this model.
- MetadataFile.FirstMatch: its contract is stated by the lemma `FirstMatchIsLeftmost`, not on the function itself.
