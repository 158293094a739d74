# A verified model of the command core of a contact book

The modelled system is a desktop contact book driven by typed commands. The Dafny modules here
model the part of it that takes a line of input and does something with it.

`LogicManager.execute` is the entry point. It either:

- reads the line as the yes/no answer to a command that waits for confirmation, or
- parses it into a command, runs it, and then saves the contacts and the input history.

The model covers:

- **Commands.** `delete` (several indices, confirmed before it runs), `edit`, `clear` (also
  confirmed), `undo`, `redo` and `find`, with the similarity fallback of `find`.
- **`CommandTracker`.** Its undo and redo stacks.
- **`CommandResult`.** The value a command returns.
- **`CommandHistory`.** The bounded input history and its JSON form.
- **Parsers.** The delete parser and the `ParserUtil` functions it and `edit` rely on.
- **`StringUtil`.** Word matching, index checking and the string similarity score.
- **The person record and its small value types.** `Nickname`, `Notes`, `Tag` and `ImagePath`.

## How the model is built

Each module follows one source file. A class whose methods update fields stays a Dafny `class`:

- `CommandTracker`
- `CommandHistory`
- `EditPersonDescriptor`
- `DeleteCommand` and `EditCommand`, which remember what they did so it can be undone
- `LogicManager`
- the store (`Model.Model`)

Each such class exposes its state as a value (`Current()`, `Value()`). Its methods are proved
against pure functions on that value: `Pushed`, `PoppedUndo`, `Recent`, `Replaced`,
`RemovedAll`, `RestoredAll` and others. The properties of those functions are proved as lemmas.

Value classes in the source (`Person`, `Tag`, `Nickname`, `Notes`, `ImagePath`,
`CommandResult`, `JsonSerializableCommandHistory`) become datatypes. The pure utilities
(`StringUtil`, `ParserUtil`) become functions. Their loops (the Levenshtein table, the overlap
score, `formatName`, `parseTags`, the delete parser's scan, `findSimilarWordsAboveThreshold`)
are methods with loop invariants, proved equal to those functions.

Thrown exceptions become `Result` values. `LogicManager` reports a `ParseFailure`, a
`CommandFailure` or a `StorageFailure`.

Some things become parameters of `LogicManager.Execute`:

- the outcome of the two saves;
- what `AddressBookParser` makes of the text;
- what `parseConfirmation` makes of the text.

The address book store (`ModelManager`, `AddressBook`, `UniquePersonList`) is not part of this
model. `Model.Model` stands in for it:

- a list of persons whose names are unique;
- a filter that decides which of them are shown;
- the input history.

Its operations act on the first person `equals` to the target. A missing target or a duplicate
name leaves the list unchanged, where the store would throw. `addPersonAt` with an index past
the end of the list inserts at the end (`InsertedAt`), where `List.add` would throw. These are
assumptions about code outside this model.

`NameContainsKeywordsPredicate` is not part of this model either. Its meaning is assumed: a
whole-word, case-insensitive match of some keyword.

### Where the code and its comments disagree (the code is followed)

- `CommandTracker.java:28-29`: the comment says a push clears the redo stack only if the last
  action was an undo. The code does the opposite: a push right after an undo keeps the redo stack,
  and any other push clears it. `PushAfterUndoKeepsRedoOnce`
  states this.
- `CommandTracker` is a process-wide singleton in the source. Here it is an object handed to the
  commands, and it has no `clear()`, because the source has none.
- `NameSimilarPredicate` is documented with a 0.7 threshold. The code uses 0.6, and so does the model.
- `Nickname` and `Tag` messages say "less than" 50 and 30 characters. The code accepts exactly
  50 and 30 (`NicknameBoundaries`).
- `formatName` only upper-cases the first letter of each word. It does not lower-case the rest
  (`FormatWord`).

### Behaviour worth knowing, proved or exhibited

- `DeleteCommand.executeConfirmed` recomputes its targets from the list shown *now*, not the list
  shown when the question was asked. `Commands.DeleteCommand.ExecuteConfirmed` states this.
- The confirmation branch of `LogicManager.execute` saves nothing and records no history.
- Undoing a multi-index delete re-inserts each person at its shown-list index into the full list.
  It gives back the original order only when the indices were ascending
  (`UndoRestoresAscendingDelete`). For descending indices the order changes
  (`UndoReordersDescendingDelete`).
- `EditCommand.execute` records the person and the edited person before the duplicate check. An
  edit refused as a duplicate still carries them, but it is never pushed.
- `EditCommand.equals` compares the index and the descriptor only, not the removed fields.

## Model

| member | source | states |
|---|---|---|
| Text.Trim | src/main/java/seedu/address/logic/parser/ParserUtil.java:41 | `String.trim`: the result has no blank at either end, and it is empty exactly when every character is at most U+0020 |
| Text.SplitPiecesAreFields | src/main/java/seedu/address/commons/util/StringUtil.java:37 | the pieces of `split("\\s+")` are the maximal non-whitespace runs, plus possibly one empty string |
| Text.FieldsOfJoin | src/main/java/seedu/address/logic/parser/ParserUtil.java:74-75 | joining words with single spaces and splitting again gives back the words |
| Text.TrimPadded | src/main/java/seedu/address/logic/parser/ParserUtil.java:241 | blanks added around a string disappear when it is trimmed |
| Text.ToLower | src/main/java/seedu/address/model/person/ImagePath.java:62 | `toLowerCase` restricted to ASCII: the length is kept, each character is mapped on its own, and only 'A'..'Z' change |
| Text.NatToString | src/main/java/seedu/address/logic/Messages.java:19 | `%d` rendering: non-empty digits whose value is the number, and no leading zero |
| StringUtil.ParseInt | src/main/java/seedu/address/commons/util/StringUtil.java:64 | `Integer.parseInt` yields only values in the 32-bit range |
| StringUtil.ParseIntOfDigits | src/main/java/seedu/address/commons/util/StringUtil.java:64 | a digit string within range parses to its decimal value |
| StringUtil.NonZeroUnsignedIntegerIff | src/main/java/seedu/address/commons/util/StringUtil.java:60-69 | accepted exactly when the string is all digits with a value in 1..Integer.MAX_VALUE |
| StringUtil.NonZeroUnsignedIntegerAccepts | src/main/java/seedu/address/commons/util/StringUtil.java:53-58 | "1", "10" and "01" are accepted |
| StringUtil.NonZeroUnsignedIntegerRejects | src/main/java/seedu/address/commons/util/StringUtil.java:53-69 | "", blanks, letters, "0", "-1", "+1", " 10 " and "1 0" are rejected |
| StringUtil.OverflowingNumeralRejected | src/main/java/seedu/address/commons/util/StringUtil.java:63-67 | a numeral above Integer.MAX_VALUE is rejected |
| StringUtil.PrintedNumberIsAccepted | src/main/java/seedu/address/commons/util/StringUtil.java:60-69 | every printed number in 1..Integer.MAX_VALUE is accepted |
| StringUtil.SplitOfTrimmedIsSingle | src/main/java/seedu/address/commons/util/StringUtil.java:32-34 | a non-empty trimmed word splits into one piece exactly when it has no whitespace |
| StringUtil.ContainsWordIgnoreCaseAccepts | src/main/java/seedu/address/commons/util/StringUtil.java:28-35 | the argument checks pass exactly for a non-empty single word; otherwise the error names the failed check |
| StringUtil.PiecesMatchIffFieldsMatch | src/main/java/seedu/address/commons/util/StringUtil.java:37-40 | some split piece matches a non-empty word exactly when some whitespace-free run matches it |
| StringUtil.ContainsWordIgnoreCaseMeaning | src/main/java/seedu/address/commons/util/StringUtil.java:28-41 | for a valid word, true exactly when some word of the sentence equals it ignoring case |
| StringUtil.LevenshteinDistance | src/main/java/seedu/address/commons/util/StringUtil.java:104-120 | the table-filling loop returns the recursive edit distance |
| StringUtil.LevAtMostLonger | src/main/java/seedu/address/commons/util/StringUtil.java:104-120 | the edit distance of two prefixes is at most the longer length |
| StringUtil.LevAtLeastLengthGap | src/main/java/seedu/address/commons/util/StringUtil.java:104-120 | the edit distance is at least the length difference |
| StringUtil.LevSelf | src/main/java/seedu/address/commons/util/StringUtil.java:104-120 | a string is at distance 0 from itself |
| StringUtil.LevAtMostMismatches | src/main/java/seedu/address/commons/util/StringUtil.java:104-120 | for equal lengths the distance is at most the number of differing positions |
| StringUtil.EditDistanceBounds | src/main/java/seedu/address/commons/util/StringUtil.java:84-87 | the distance is at most the longer length, so the normalised score lies in [0, 1]; a distance of 0 means equal lengths |
| StringUtil.LengthRatioInUnitRange | src/main/java/seedu/address/commons/util/StringUtil.java:150-154 | the shorter-over-longer length ratio of two strings, not both empty, lies in [0, 1] |
| StringUtil.IntersectionWithinUnion | src/main/java/seedu/address/commons/util/StringUtil.java:136-144 | the intersection is no larger than the union |
| StringUtil.OverlapScoreInUnitRange | src/main/java/seedu/address/commons/util/StringUtil.java:125-145 | the overlap score lies in [0, 1] |
| StringUtil.CharSetOf | src/main/java/seedu/address/commons/util/StringUtil.java:126-134 | the loop collects exactly the characters of the string |
| StringUtil.ComputeOverlapScore | src/main/java/seedu/address/commons/util/StringUtil.java:125-145 | the loops compute intersection over union of the two character sets, in [0, 1] |
| StringUtil.SimilarityInUnitRange | src/main/java/seedu/address/commons/util/StringUtil.java:71-98 | the weighted similarity lies between 0.0 and 1.0, as documented |
| StringUtil.SimilarityOfSelf | src/main/java/seedu/address/commons/util/StringUtil.java:77 | a non-empty string has similarity 1.0 with itself |
| StringUtil.CalculateSimilarity | src/main/java/seedu/address/commons/util/StringUtil.java:79-98 | 0 for an empty input, else 0.6 edit + 0.3 overlap + 0.1 length ratio, always within [0, 1] |
| ParserUtil.ParseIndex | src/main/java/seedu/address/logic/parser/ParserUtil.java:40-46 | succeeds exactly when the trimmed text is a non-zero unsigned integer; the zero-based result is its value minus one; otherwise MESSAGE_INVALID_INDEX |
| ParserUtil.ParseIndexOfPrinted | src/main/java/seedu/address/logic/parser/ParserUtil.java:40-46 | parsing the printed one-based number of an index gives back the index |
| ParserUtil.FormatWord | src/main/java/seedu/address/logic/parser/ParserUtil.java:78-86 | only the first character may change: upper-cased when it is an ASCII letter and the word has no '/' |
| ParserUtil.FormatWords | src/main/java/seedu/address/logic/parser/ParserUtil.java:77-87 | every word is formatted on its own, in order |
| ParserUtil.FormatName | src/main/java/seedu/address/logic/parser/ParserUtil.java:74-90 | the loop's result is the trimmed words, each formatted, joined by single spaces |
| ParserUtil.AppendFormattedWords | src/main/java/seedu/address/logic/parser/ParserUtil.java:77-88 | the builder holds each formatted word followed by a space |
| ParserUtil.FormatNameResult | src/main/java/seedu/address/logic/parser/ParserUtil.java:75-89 | trimming the built text gives the single-space join of the formatted words |
| ParserUtil.FormattedWordsAreSolid | src/main/java/seedu/address/logic/parser/ParserUtil.java:74-90 | a non-blank name gives a non-empty trimmed result made of whole words |
| ParserUtil.FormattedShape | src/main/java/seedu/address/logic/parser/ParserUtil.java:74-90 | the result is trimmed, its words are the formatted input words, and it is their single-space join |
| ParserUtil.FormatWordIdempotent | src/main/java/seedu/address/logic/parser/ParserUtil.java:78-86 | formatting a word twice is formatting it once |
| ParserUtil.FormattedIdempotent | src/main/java/seedu/address/logic/parser/ParserUtil.java:74-90 | formatting a name twice is formatting it once |
| ParserUtil.EscapeRemover | src/main/java/seedu/address/logic/parser/ParserUtil.java:323-325 | the result has no backslash, and text without backslashes is unchanged |
| ParserUtil.EscapeRemoverAppend | src/main/java/seedu/address/logic/parser/ParserUtil.java:323-325 | removal distributes over concatenation |
| ParserUtil.SlashEscapeRemover | src/main/java/seedu/address/logic/parser/ParserUtil.java:333-335 | never lengthens, and text without backslashes is unchanged |
| ParserUtil.SlashThenEscapeRemover | src/main/java/seedu/address/logic/parser/ParserUtil.java:323-335 | removing escaped slashes first does not change what removing every backslash gives |
| ParserUtil.SlashEscapeRemoverExample | src/main/java/seedu/address/logic/parser/ParserUtil.java:333-335 | "a\\/b" becomes "a/b"; the replacement works left to right without overlap |
| ParserUtil.ParseTagMeaning | src/main/java/seedu/address/logic/parser/ParserUtil.java:240-248 | a tag parses exactly when its trimmed text is an alphanumeric word of at most 30 characters, keeps that text, and ignores surrounding blanks |
| ParserUtil.SuccessesMembers | src/main/java/seedu/address/logic/parser/ParserUtil.java:263-266 | the set holds exactly the successful values, and has no more members than results |
| ParserUtil.ParseEach | src/main/java/seedu/address/logic/parser/ParserUtil.java:263-266 | one `parseTag` outcome per name, in order |
| ParserUtil.FirstErrorMeaning | src/main/java/seedu/address/logic/parser/ParserUtil.java:263-266 | no error exactly when all succeed; a reported error is the first failure |
| ParserUtil.FirstErrorStep | src/main/java/seedu/address/logic/parser/ParserUtil.java:263-266 | one more loop step keeps "no error yet" or finds the first error |
| ParserUtil.ParseTags | src/main/java/seedu/address/logic/parser/ParserUtil.java:256-267 | more than MAX_NUM names is an error; otherwise the first bad tag's error, or the set of parsed tags |
| ParserUtil.ParseTagsOutcome | src/main/java/seedu/address/logic/parser/ParserUtil.java:256-267 | success exactly when every name parses; the error comes from the first bad name; the set holds exactly the parsed tags, at most MAX_NUM |
| ParserUtil.ParsedTagsMembers | src/main/java/seedu/address/logic/parser/ParserUtil.java:263-266 | the tag set holds exactly the parsed tags, no more than the names |
| ParserUtil.ParsedTagSetBounded | src/main/java/seedu/address/logic/parser/ParserUtil.java:259-266 | an accepted tag list gives at most MAX_NUM tags |
| ParserUtil.ParseOptional | src/main/java/seedu/address/logic/parser/ParserUtil.java:98-109 | an absent value parses to empty; a present one succeeds or fails as the validator does on its trimmed text |
| ParserUtil.ParseNickname | src/main/java/seedu/address/logic/parser/ParserUtil.java:160-172 | absent gives empty; present text is trimmed and slash-unescaped, then accepted exactly when printable ASCII of at most 50 characters, else the validator's message |
| ParserUtil.ParseNotes | src/main/java/seedu/address/logic/parser/ParserUtil.java:182-194 | absent gives empty; present text is trimmed and slash-unescaped, then accepted exactly when printable ASCII of at most 300 characters, else the validator's message |
| DeleteCommandParser.Parsed | src/main/java/seedu/address/logic/parser/DeleteCommandParser.java:31-32 | one `parseIndex` outcome per token |
| DeleteCommandParser.Parse | src/main/java/seedu/address/logic/parser/DeleteCommandParser.java:25-50 | succeeds exactly when every token is an index and none repeats, giving the indices in order; otherwise the error of the first bad or repeated token |
| DeleteCommandParser.ScanStep | src/main/java/seedu/address/logic/parser/DeleteCommandParser.java:31-39 | a seen index is the first problem; a new one extends the clean prefix |
| DeleteCommandParser.TokensNonEmpty | src/main/java/seedu/address/logic/parser/DeleteCommandParser.java:29 | the split always yields a token; blank input yields one empty token |
| DeleteCommandParser.SuccessShape | src/main/java/seedu/address/logic/parser/DeleteCommandParser.java:25-40 | a successful parse gives a non-empty list of distinct in-range indices, each read from its token |
| DeleteCommandParser.BlankIsInvalid | src/main/java/seedu/address/logic/parser/DeleteCommandParser.java:29-32 | blank input fails at the first token with an index error |
| DeleteCommandParser.Numerals | src/main/java/seedu/address/logic/parser/DeleteCommandParser.java:29-32 | the one-based numerals of a list of indices, in order |
| DeleteCommandParser.PrintedTokens | src/main/java/seedu/address/logic/parser/DeleteCommandParser.java:29-38 | printed indices split back into their numerals, each parsing to its index |
| DeleteCommandParser.NumeralsAreTokens | src/main/java/seedu/address/logic/parser/DeleteCommandParser.java:29 | the space-joined numerals split back into the numerals |
| DeleteCommandParser.NumeralsParse | src/main/java/seedu/address/logic/parser/DeleteCommandParser.java:32 | each numeral parses to its index |
| DeleteCommandParser.PrintedIndicesParse | src/main/java/seedu/address/logic/parser/DeleteCommandParser.java:25-40 | distinct printed indices parse back to themselves |
| DeleteCommandParser.DigitsHaveNoSpace | src/main/java/seedu/address/logic/parser/DeleteCommandParser.java:29 | a digit string contains no whitespace |
| DeleteCommandParser.PrintedExamples | src/main/java/seedu/address/logic/parser/DeleteCommandParser.java:29 | indices print as "1", "1 2", "1 1" and "1 2 1" |
| DeleteCommandParser.CarriedDistinctIsClean | src/main/java/seedu/address/logic/parser/DeleteCommandParser.java:31-39 | distinct parsed indices give a clean prefix |
| DeleteCommandParser.PrintedRepeatIsDuplicate | src/main/java/seedu/address/logic/parser/DeleteCommandParser.java:33-37 | the first repeated index is the first problem and is itself a valid index |
| DeleteCommandParser.DuplicateAdjacentExample | src/main/java/seedu/address/logic/parser/DeleteCommandParser.java:33-37 | "1 1" fails at its second token |
| DeleteCommandParser.DuplicateApartExample | src/main/java/seedu/address/logic/parser/DeleteCommandParser.java:33-37 | "1 2 1" fails at its third token |
| CommandHistory.RecentIsBoundedSuffix | src/main/java/seedu/address/model/CommandHistory.java:56-60 | trimming keeps the last min(n, 100) entries and changes nothing for a short list |
| CommandHistory.AddAllIsRecent | src/main/java/seedu/address/model/CommandHistory.java:48-51 | adding commands one at a time equals trimming the whole list once |
| CommandHistory.RecentOfAppend | src/main/java/seedu/address/model/CommandHistory.java:48-60 | trimming before appending more changes nothing |
| CommandHistory.LongRunsAreTrimmed | src/main/java/seedu/address/model/CommandHistory.java:13 | a run longer than 100 keeps exactly its last 100 entries |
| CommandHistory.CommandHistory.constructor | src/main/java/seedu/address/model/CommandHistory.java:16-18 | starts empty |
| CommandHistory.CommandHistory.Copy | src/main/java/seedu/address/model/CommandHistory.java:23-26 | copies the trimmed list of the source |
| CommandHistory.CommandHistory.SetCommands | src/main/java/seedu/address/model/CommandHistory.java:31-35 | replaces the list with the trimmed new list |
| CommandHistory.CommandHistory.ResetData | src/main/java/seedu/address/model/CommandHistory.java:40-43 | replaces the list with the other history's trimmed list |
| CommandHistory.CommandHistory.AddCommand | src/main/java/seedu/address/model/CommandHistory.java:48-51 | appends and trims: the command is last, and the length grows by one up to 100 |
| CommandHistory.CommandHistory.TrimToSize | src/main/java/seedu/address/model/CommandHistory.java:56-60 | keeps the newest 100 entries |
| JsonSerializableCommandHistory.FromJson | src/main/java/seedu/address/storage/JsonSerializableCommandHistory.java:26-28 | a missing list loads as empty, a present one as itself |
| JsonSerializableCommandHistory.ToModelType | src/main/java/seedu/address/storage/JsonSerializableCommandHistory.java:44-48 | a fresh history holding the stored list, trimmed |
| JsonSerializableCommandHistory.StoredHistoryRoundTrips | src/main/java/seedu/address/storage/JsonSerializableCommandHistory.java:35-48 | the stored form of a well-formed history, trimmed again on loading, is the history's own list |
| JsonSerializableCommandHistory.RoundTrip | src/main/java/seedu/address/storage/JsonSerializableCommandHistory.java:35-48 | `toModelType` of the stored form of a history is a new history equal to it |
| JsonSerializableCommandHistory.MissingListLoadsEmpty | src/main/java/seedu/address/storage/JsonSerializableCommandHistory.java:26-28 | a file without the list loads as an empty history |
| Nickname.IsValidNickname | src/main/java/seedu/address/model/person/Nickname.java:35-46 | valid exactly when printable ASCII of at most 50 characters; the character error is reported before the length error |
| Nickname.Create | src/main/java/seedu/address/model/person/Nickname.java:26-30 | construction succeeds exactly for valid text and keeps it |
| Nickname.NicknameBoundaries | src/main/java/seedu/address/model/person/Nickname.java:11-17 | 50 characters are accepted, 51 give the length error, a tab gives the character error |
| Notes.IsValidNotes | src/main/java/seedu/address/model/person/Notes.java:37-48 | valid exactly when printable ASCII of at most 300 characters; the length error is reported before the character error |
| Notes.Create | src/main/java/seedu/address/model/person/Notes.java:26-30 | construction succeeds exactly for valid text and keeps it |
| Notes.LengthReportedBeforeCharacters | src/main/java/seedu/address/model/person/Notes.java:41-46 | text both too long and non-printable gets the length message |
| Tag.IsValidTagName | src/main/java/seedu/address/model/tag/Tag.java:34-42 | valid exactly when a non-empty alphanumeric word of at most 30 characters; characters are checked first |
| Tag.Create | src/main/java/seedu/address/model/tag/Tag.java:25-29 | construction succeeds exactly for a valid name and keeps it |
| Tag.ToString | src/main/java/seedu/address/model/tag/Tag.java:67-69 | the name in square brackets |
| Tag.ToStringInjective | src/main/java/seedu/address/model/tag/Tag.java:44-69 | equal renderings mean equal tags |
| Tag.CharactersReportedBeforeLength | src/main/java/seedu/address/model/tag/Tag.java:34-42 | a name both too long and non-alphanumeric gets the character message |
| ImagePath.ValidImagePathIff | src/main/java/seedu/address/model/person/ImagePath.java:61-64 | valid exactly when the last four characters are ".png" in any letter case |
| ImagePath.Create | src/main/java/seedu/address/model/person/ImagePath.java:21-27 | succeeds exactly for a valid path and keeps it; otherwise MESSAGE_CONSTRAINTS |
| ImagePath.ImagePathExamples | src/main/java/seedu/address/model/person/ImagePath.java:61-64 | "photo.PNG" and "photo.png" are valid, "photo.jpg" and "png" are not, and the default picture is valid |
| ImagePath.ToString | src/main/java/seedu/address/model/person/ImagePath.java:66-69 | the rendering of a valid path constructs the same path again |
| Person.Create | src/main/java/seedu/address/model/person/Person.java:37-51 | keeps every field; a missing picture becomes the default picture |
| Person.FieldValue | src/main/java/seedu/address/model/person/Person.java:72-101 | the field's text, or "" when it is absent |
| Person.Equals | src/main/java/seedu/address/model/person/Person.java:136-157 | equal exactly when every field but the picture agrees |
| Person.EqualsProperties | src/main/java/seedu/address/model/person/Person.java:123-157 | `equals` is an equivalence that ignores the picture and implies `isSamePerson` |
| Person.CommandSummary | src/main/java/seedu/address/model/person/Person.java:171-173 | the summary is the name |
| Person.SummaryIdentifies | src/main/java/seedu/address/model/person/Person.java:123-173 | two summaries agree exactly when the persons are the same person |
| NameSimilarPredicate.AboveThresholdIsIntegral | src/main/java/seedu/address/model/person/namepredicate/NameSimilarPredicate.java:55-64 | at threshold 0.6 a word qualifies exactly when 5 × distance ≤ 2 × the longer length |
| NameSimilarPredicate.ScoreThreshold | src/main/java/seedu/address/model/person/namepredicate/NameSimilarPredicate.java:59-62 | the real score test equals that integer test |
| NameSimilarPredicate.SimilarWords | src/main/java/seedu/address/model/person/namepredicate/NameSimilarPredicate.java:47-70 | the similar words form a sub-list of the words |
| NameSimilarPredicate.SimilarWordsMembers | src/main/java/seedu/address/model/person/namepredicate/NameSimilarPredicate.java:47-70 | a word is listed exactly when it is one of the words and scores at or above the threshold |
| NameSimilarPredicate.FindSimilarWordsAboveThreshold | src/main/java/seedu/address/model/person/namepredicate/NameSimilarPredicate.java:47-70 | the loop returns exactly the qualifying words in order |
| NameSimilarPredicate.Test | src/main/java/seedu/address/model/person/namepredicate/NameSimilarPredicate.java:31-45 | true exactly when some lower-cased keyword is similar enough to some lower-cased name word |
| NameSimilarPredicate.NoKeywordsMatchesNobody | src/main/java/seedu/address/model/person/namepredicate/NameSimilarPredicate.java:31-45 | with no keywords nobody matches |
| NameSimilarPredicate.ExactWordMatches | src/main/java/seedu/address/model/person/namepredicate/NameSimilarPredicate.java:31-45 | a keyword equal to a name word ignoring case matches |
| NameSimilarPredicate.OneSlipMatches | src/main/java/seedu/address/model/person/namepredicate/NameSimilarPredicate.java:47-70 | a single typo in a word of three or more letters still matches |
| NameSimilarPredicate.LengthGapRejects | src/main/java/seedu/address/model/person/namepredicate/NameSimilarPredicate.java:47-70 | a word less than a third as long as the keyword never matches |
| CommandResult.WithFlags | src/main/java/seedu/address/logic/commands/CommandResult.java:26-31 | keeps feedback and flags, and no command waits |
| CommandResult.Feedback | src/main/java/seedu/address/logic/commands/CommandResult.java:47-49 | feedback only: no help, no exit, nothing waits |
| CommandResult.Confirming | src/main/java/seedu/address/logic/commands/CommandResult.java:51-53 | feedback with a command waiting for confirmation |
| CommandResult.EqualsIsEquivalence | src/main/java/seedu/address/logic/commands/CommandResult.java:75-91 | result equality is an equivalence whenever command equality is |
| CommandResult.QuestionsDifferFromFeedback | src/main/java/seedu/address/logic/commands/CommandResult.java:59-91 | a question never equals plain feedback; two questions are equal exactly when their commands are |
| CommandTracker.Pushed | src/main/java/seedu/address/logic/CommandTracker.java:33-41 | the command goes on top of the undo stack; the redo stack is kept only right after an undo; the flag resets |
| CommandTracker.PoppedUndo | src/main/java/seedu/address/logic/CommandTracker.java:67-75 | nothing when empty; otherwise the top moves to the redo stack and the flag is set |
| CommandTracker.PoppedRedo | src/main/java/seedu/address/logic/CommandTracker.java:83-91 | nothing when empty; otherwise the top moves back to the undo stack and the flag resets |
| CommandTracker.CommandTracker.CanUndo | src/main/java/seedu/address/logic/CommandTracker.java:48-50 | `canUndo` holds exactly when `popUndo` would return a command |
| CommandTracker.CommandTracker.CanRedo | src/main/java/seedu/address/logic/CommandTracker.java:57-59 | `canRedo` holds exactly when `popRedo` would return a command |
| CommandTracker.PopsPreserveSize | src/main/java/seedu/address/logic/CommandTracker.java:67-91 | a pop moves a command between the stacks and loses none |
| CommandTracker.UndoThenRedoRestoresStacks | src/main/java/seedu/address/logic/CommandTracker.java:67-91 | undo then redo gives back both stacks and the same command |
| CommandTracker.RedoThenUndoRestoresStacks | src/main/java/seedu/address/logic/CommandTracker.java:67-91 | redo then undo gives back both stacks and the same command |
| CommandTracker.PushAfterUndoKeepsRedoOnce | src/main/java/seedu/address/logic/CommandTracker.java:33-41 | the first push after an undo keeps the redo stack; the second clears it |
| CommandTracker.PushWithoutUndoClearsRedo | src/main/java/seedu/address/logic/CommandTracker.java:33-41 | a push not right after an undo leaves nothing to redo |
| CommandTracker.CommandTracker.constructor | src/main/java/seedu/address/logic/CommandTracker.java:12-16 | both stacks empty, no undo called |
| CommandTracker.CommandTracker.Push | src/main/java/seedu/address/logic/CommandTracker.java:33-41 | the new state is `Pushed` of the old |
| CommandTracker.CommandTracker.PopUndo | src/main/java/seedu/address/logic/CommandTracker.java:67-75 | the new state and the result are `PoppedUndo` of the old |
| CommandTracker.CommandTracker.PopRedo | src/main/java/seedu/address/logic/CommandTracker.java:83-91 | the new state and the result are `PoppedRedo` of the old |
| Model.FilteredMembers | src/main/java/seedu/address/logic/commands/FindCommand.java:37-48 | the shown list holds exactly the persons the filter shows |
| Model.ShowAllShowsEveryone | src/main/java/seedu/address/logic/commands/EditCommand.java:121-130 | the show-all filter shows the whole list |
| Model.IndexOfEqual | src/main/java/seedu/address/logic/commands/EditCommand.java:121-130 | finds the first person `equals` to the target, or reports none |
| Model.ReplacedKeepsNamesUnique | src/main/java/seedu/address/logic/commands/EditCommand.java:111-115 | replacing under the duplicate check keeps names unique |
| Model.RemovedKeepsNamesUnique | src/main/java/seedu/address/logic/commands/DeleteCommand.java:138-165 | removing keeps names unique |
| Model.InsertedKeepsNamesUnique | src/main/java/seedu/address/logic/commands/DeleteCommand.java:77-88 | re-inserting an absent name keeps names unique |
| Model.IndexOfListed | src/main/java/seedu/address/logic/commands/EditCommand.java:121-130 | with unique names a listed person is found at its own position |
| Model.RemoveThenInsertRestores | src/main/java/seedu/address/logic/commands/DeleteCommand.java:77-88 | removing one person and inserting it back at its position restores the list |
| Model.ReplaceThenReplaceBack | src/main/java/seedu/address/logic/commands/EditCommand.java:121-130 | an edit followed by its undo restores the list |
| Model.ReplaceRefusesDuplicate | src/main/java/seedu/address/logic/commands/EditCommand.java:111-113 | an edit to another person's name changes nothing in the store |
| Model.RestoredAllHasTargets | src/main/java/seedu/address/logic/commands/DeleteCommand.java:77-88 | after undoing a deletion every deleted person is present, and nobody present is lost |
| Model.InsertedAtKeeps | src/main/java/seedu/address/logic/commands/DeleteCommand.java:77-88 | insertion adds the person and loses nobody |
| Model.RestoredAllIdle | src/main/java/seedu/address/logic/commands/DeleteCommand.java:77-88 | restoring persons that are all present changes nothing |
| Model.RestoreTwiceIsRestoreOnce | src/main/java/seedu/address/logic/commands/DeleteCommand.java:77-88 | undoing the same deletion twice is undoing it once |
| Model.Without | src/main/java/seedu/address/logic/commands/DeleteCommand.java:157-159 | the list minus a set of persons, order kept |
| Model.WithoutMembers | src/main/java/seedu/address/logic/commands/DeleteCommand.java:157-159 | exactly the persons not removed remain |
| Model.WithoutTwice | src/main/java/seedu/address/logic/commands/DeleteCommand.java:157-159 | removing two sets in turn removes their union |
| Model.WithoutKeepsNamesUnique | src/main/java/seedu/address/logic/commands/DeleteCommand.java:157-159 | removing any set keeps names unique |
| Model.RemovedAllIsWithout | src/main/java/seedu/address/logic/commands/DeleteCommand.java:157-159 | deleting the targets one by one removes exactly the set of targets |
| Model.UndoRestoresAscendingDelete | src/main/java/seedu/address/logic/commands/DeleteCommand.java:77-98 | a deletion at ascending positions, undone, gives back the list exactly |
| Model.RemovedAllDropsTargets | src/main/java/seedu/address/logic/commands/DeleteCommand.java:157-159 | after deleting, none of the targets' names is left |
| Model.UndoReordersDescendingDelete | src/main/java/seedu/address/logic/commands/DeleteCommand.java:77-88 | deleting positions 3 and 1 of [a, b, c, d], then undoing, gives [a, b, d, c] |
| Model.DescendingDeleteLeaves | src/main/java/seedu/address/logic/commands/DeleteCommand.java:157-159 | deleting c and a from [a, b, c, d] leaves [b, d] |
| Model.DescendingUndoOrder | src/main/java/seedu/address/logic/commands/DeleteCommand.java:77-88 | re-inserting c at 2 and then a at 0 into [b, d] gives [a, b, d, c] |
| Model.Model.constructor | src/main/java/seedu/address/logic/LogicManager.java:46-50 | a store with the given persons, everyone shown, and the given history |
| Model.Model.SetPerson | src/main/java/seedu/address/logic/commands/EditCommand.java:115 | the list becomes `Replaced`, names stay unique, and the filter is kept |
| Model.Model.DeletePerson | src/main/java/seedu/address/logic/commands/DeleteCommand.java:157-159 | the list becomes `Removed`, names stay unique, and the filter is kept |
| Model.Model.AddPersonAt | src/main/java/seedu/address/logic/commands/DeleteCommand.java:77-88 | the list becomes `InsertedAt` (an index past the end inserts at the end), names stay unique, and the filter is kept |
| Model.Model.UpdateFilteredPersonList | src/main/java/seedu/address/logic/commands/FindCommand.java:39 | only the filter changes |
| Model.Model.ClearAddressBook | src/main/java/seedu/address/logic/commands/ClearCommand.java:31-35 | the list becomes empty and the filter is kept |
| Model.Model.AddToCommandHistory | src/main/java/seedu/address/logic/LogicManager.java:92 | the history becomes the trimmed list with the text appended |
| LogicManager.LogicManager.Record | src/main/java/seedu/address/logic/LogicManager.java:92 | recording the text changes only the input history, which becomes the trimmed list with the text appended, and the dispatcher stays consistent |
| EditPerson.Flatten | src/main/java/seedu/address/logic/commands/EditCommand.java:339-341 | an optional optional value has a value exactly when both layers do |
| EditPerson.CreateEditedPerson | src/main/java/seedu/address/logic/commands/EditCommand.java:146-198 | name, tags and picture come from the patch when it has them, else from the original; the phone is the supplied one, else absent when removed, else the original's |
| EditPerson.ProcessOptionalField | src/main/java/seedu/address/logic/commands/EditCommand.java:200-214 | a supplied value wins; failing that, a removal empties the field; failing that, the old value stays |
| EditPerson.EditedOptionalField | src/main/java/seedu/address/logic/commands/EditCommand.java:146-198 | each optional field is the supplied value, or absent when removed, or the original's |
| EditPerson.EditedRequiredFields | src/main/java/seedu/address/logic/commands/EditCommand.java:146-198 | name, tags and picture come from the patch when given, else from the original; the result is the same person exactly when the name is kept |
| EditPerson.EmptyPatchKeepsPerson | src/main/java/seedu/address/logic/commands/EditCommand.java:146-198 | a patch that sets and removes nothing gives back the original |
| EditPerson.EmptyOptionalIsEditButKeeps | src/main/java/seedu/address/logic/commands/EditCommand.java:280-284 | setting a field to empty counts as an edit yet keeps the field |
| EditPerson.PictureOnlyEditIsEqual | src/main/java/seedu/address/logic/commands/EditCommand.java:146-198 | changing only the picture gives a person `equals` to the original |
| EditPerson.EditPersonDescriptor.constructor | src/main/java/seedu/address/logic/commands/EditCommand.java:256-258 | nothing is set |
| EditPerson.EditPersonDescriptor.Copy | src/main/java/seedu/address/logic/commands/EditCommand.java:264-275 | the copy has the same contents |
| EditPerson.EditPersonDescriptor.SetName | src/main/java/seedu/address/logic/commands/EditCommand.java:286-288 | changes the name and nothing else |
| EditPerson.EditPersonDescriptor.SetPhone | src/main/java/seedu/address/logic/commands/EditCommand.java:294-296 | changes the phone and nothing else |
| EditPerson.EditPersonDescriptor.SetEmail | src/main/java/seedu/address/logic/commands/EditCommand.java:302-304 | changes the e-mail and nothing else |
| EditPerson.EditPersonDescriptor.SetAddress | src/main/java/seedu/address/logic/commands/EditCommand.java:309-311 | changes the address and nothing else |
| EditPerson.EditPersonDescriptor.SetBirthday | src/main/java/seedu/address/logic/commands/EditCommand.java:315-317 | changes the birthday and nothing else |
| EditPerson.EditPersonDescriptor.SetRelationship | src/main/java/seedu/address/logic/commands/EditCommand.java:321-323 | changes the relationship and nothing else |
| EditPerson.EditPersonDescriptor.SetNickname | src/main/java/seedu/address/logic/commands/EditCommand.java:327-329 | changes the nickname and nothing else |
| EditPerson.EditPersonDescriptor.SetNotes | src/main/java/seedu/address/logic/commands/EditCommand.java:333-335 | changes the notes and nothing else |
| EditPerson.EditPersonDescriptor.SetImagePath | src/main/java/seedu/address/logic/commands/EditCommand.java:339-341 | changes the picture and nothing else; null and empty both mean no picture |
| EditPerson.EditPersonDescriptor.SetTags | src/main/java/seedu/address/logic/commands/EditCommand.java:349-351 | changes the tags and nothing else |
| Messages.FieldPart | src/main/java/seedu/address/logic/Messages.java:62-69 | an empty value adds nothing; any other adds exactly "; ", the field name, ": " and the value |
| Messages.Format | src/main/java/seedu/address/logic/Messages.java:40-60 | the display text starts with the person's name |
| Messages.FormatShowsPhone | src/main/java/seedu/address/logic/Messages.java:42-44 | a person with a phone shows "; Phone: " and its value right after the name |
| Messages.FormatOfNameAndImage | src/main/java/seedu/address/logic/Messages.java:40-60 | a person with only a name and a picture shows as exactly the name, "; Image: " and the path |
| Commands.At | src/main/java/seedu/address/logic/commands/DeleteCommand.java:62-64 | the persons at the given shown positions, in the given order |
| Commands.Names | src/main/java/seedu/address/logic/commands/DeleteCommand.java:101-110 | each person's command summary, in order |
| Commands.CheckIndices | src/main/java/seedu/address/logic/commands/DeleteCommand.java:56-60 | true exactly when every index is within the shown list |
| Commands.DeleteEach | src/main/java/seedu/address/logic/commands/DeleteCommand.java:157-159 | the loop deletes the targets in turn, keeping the filter |
| Commands.DeleteCommand.constructor | src/main/java/seedu/address/logic/commands/DeleteCommand.java:45-47 | keeps the indices; nothing captured yet |
| Commands.DeleteCommand.Execute | src/main/java/seedu/address/logic/commands/DeleteCommand.java:50-74 | an index outside the shown list is an error and changes nothing; otherwise it captures the shown persons and asks for confirmation |
| Commands.DeleteCommand.ExecuteConfirmed | src/main/java/seedu/address/logic/commands/DeleteCommand.java:138-165 | re-checks the indices against the list shown now, deletes those persons, and reports their names |
| Commands.DeleteCommand.ExecuteAborted | src/main/java/seedu/address/logic/commands/DeleteCommand.java:170-173 | reports the abort and asks nothing |
| Commands.DeleteCommand.Undo | src/main/java/seedu/address/logic/commands/DeleteCommand.java:77-88 | re-inserts the captured persons at their indices, in order; without a capture, nothing changes |
| Commands.DeleteCommand.Redo | src/main/java/seedu/address/logic/commands/DeleteCommand.java:91-98 | deletes the captured persons again |
| Commands.DeleteCommand.CommandString | src/main/java/seedu/address/logic/commands/DeleteCommand.java:101-110 | "delete <unknown person(s)>" when nothing was captured, else "delete " and the captured names joined by ", " |
| Commands.DeleteCommandStringNamesPerson | src/main/java/seedu/address/logic/commands/DeleteCommand.java:101-110 | a deletion of one person is described by that person's name |
| Commands.DeleteCommandStringListsNames | src/main/java/seedu/address/logic/commands/DeleteCommand.java:106-109 | for two or more captured persons: the first name, ", ", then the rest listed the same way |
| Commands.DeleteCommandStringOfTwo | src/main/java/seedu/address/logic/commands/DeleteCommand.java:106-109 | two captured persons A and B are described as "delete A, B" |
| Commands.DeleteThenUndoRestores | src/main/java/seedu/address/logic/commands/DeleteCommand.java:77-98 | deleting at ascending positions of the full list and undoing gives the list back exactly |
| Commands.DeleteThenUndoNames | src/main/java/seedu/address/logic/commands/DeleteCommand.java:77-165 | after a confirmed deletion none of the deleted names is left; after its undo every one is back |
| Commands.EditCommand.constructor | src/main/java/seedu/address/logic/commands/EditCommand.java:83-90 | keeps the index, a copy of the descriptor, and the fields to remove |
| Commands.EditCommand.Execute | src/main/java/seedu/address/logic/commands/EditCommand.java:100-118 | a bad index is an error; a duplicate name is an error after recording both persons; otherwise the person is replaced, the edit is pushed, and the message names the result |
| Commands.EditCommand.Undo | src/main/java/seedu/address/logic/commands/EditCommand.java:121-124 | puts the original back in place of the edited person and shows everyone |
| Commands.EditCommand.Redo | src/main/java/seedu/address/logic/commands/EditCommand.java:127-130 | puts the edited person back in place of the original and shows everyone |
| Commands.EditCommand.CommandString | src/main/java/seedu/address/logic/commands/EditCommand.java:133-139 | "edit", the one-based index, and the old and new names |
| Commands.TwoEditsUndoneInReverse | src/main/java/seedu/address/logic/commands/EditCommand.java:100-130 | two successful edits undone in reverse order give back the list |
| Commands.EmptyEditChangesNothing | src/main/java/seedu/address/logic/commands/EditCommand.java:100-118 | an edit that sets and removes nothing is no duplicate and leaves the list as it was |
| Commands.ClearCommand.Execute | src/main/java/seedu/address/logic/commands/ClearCommand.java:19-22 | asks for confirmation of this clear |
| Commands.ClearCommand.ExecuteConfirmed | src/main/java/seedu/address/logic/commands/ClearCommand.java:31-35 | empties the list and reports success |
| Commands.ClearCommand.ExecuteAborted | src/main/java/seedu/address/logic/commands/ClearCommand.java:37-39 | reports the abort and asks nothing |
| Commands.Undoable.Undo | src/main/java/seedu/address/logic/commands/UndoableCommand.java:12 | the store becomes what the command's undo specifies |
| Commands.Undoable.Redo | src/main/java/seedu/address/logic/commands/UndoableCommand.java:17 | the store becomes what the command's redo specifies |
| Commands.Confirmable.ExecuteConfirmed | src/main/java/seedu/address/logic/commands/ConfirmableCommand.java:12 | a confirmed delete removes the persons its positions point at in the list shown now, and reports "Deleted Person: " with their names joined by ",", or fails with the invalid-index message and changes nothing; a confirmed clear leaves no contacts and reports the clear's success message; the filter is kept and the result never asks again |
| Commands.Confirmable.ExecuteAborted | src/main/java/seedu/address/logic/commands/ConfirmableCommand.java:14 | an abort never asks again |
| Commands.Confirmable.AsUndoable | src/main/java/seedu/address/logic/LogicManager.java:63-66 | a confirmed delete is undoable; a confirmed clear is not |
| Commands.SameIsEquivalence | src/main/java/seedu/address/logic/commands/DeleteCommand.java:113-125 | command equality is an equivalence and never equates a delete with a clear |
| Commands.ConfirmingSamePositionsEqual | src/main/java/seedu/address/logic/commands/CommandResult.java:76-91 | two questions about deletions at the same positions are equal results |
| Commands.ExecuteUndo | src/main/java/seedu/address/logic/commands/UndoCommand.java:27-43 | nothing to undo is an error that changes nothing; otherwise the top command is popped and undone, and the message names it |
| Commands.ExecuteRedo | src/main/java/seedu/address/logic/commands/RedoCommand.java:22-32 | nothing to redo is an error that changes nothing; otherwise the redo top is popped and redone, and the message names it |
| Commands.ExecuteFind | src/main/java/seedu/address/logic/commands/FindCommand.java:37-48 | shows the exact matches when there are any, else the similar names, with the matching count message; the list is untouched |
| Commands.Run | src/main/java/seedu/address/logic/LogicManager.java:78-81 | success, contacts, filter and tracker are those of `RunOutcome`: delete and clear only ask (a delete fails on a bad position), edit replaces and pushes or fails unchanged, undo/redo pop and reverse or replay the top command or fail unchanged, find only sets the filter; a successful delete or clear is the command left waiting |
| Commands.RunEdit | src/main/java/seedu/address/logic/commands/EditCommand.java:100-118 | an edit's success, contacts, filter and tracker are those of `EditOutcome` |
| Commands.RunEditTracked | src/main/java/seedu/address/logic/commands/EditCommand.java:100-118 | as `RunEdit`, and every command the tracker holds stays ready to be undone and redone |
| Commands.RunDelete | src/main/java/seedu/address/logic/commands/DeleteCommand.java:50-74 | a delete's success is `RunOutcome`'s (the positions fit the shown list); contacts, filter and tracker are untouched, and a success leaves the deletion waiting |
| Commands.RunFind | src/main/java/seedu/address/logic/commands/FindCommand.java:37-48 | find always succeeds, sets the filter `RunOutcome` gives, and leaves contacts and tracker alone |
| Commands.RunUndo | src/main/java/seedu/address/logic/commands/UndoCommand.java:27-43 | undo's success, contacts, filter and tracker are those of `RunOutcome`, and nothing is left waiting |
| Commands.RunRedo | src/main/java/seedu/address/logic/commands/RedoCommand.java:22-32 | redo's success, contacts, filter and tracker are those of `RunOutcome`, and nothing is left waiting |
| Commands.EditUndoRedoThroughTracker | src/main/java/seedu/address/logic/commands/EditCommand.java:100-130 | a successful edit followed by `undo` gives back the contacts, and a `redo` after that gives back the edited contacts |
| Commands.UndoOutcomeOfEdit | src/main/java/seedu/address/logic/commands/UndoCommand.java:34-40 | `undo` with an edit on top pops it and swaps the edited person back, showing everyone |
| Commands.RedoOutcomeOfEdit | src/main/java/seedu/address/logic/commands/RedoCommand.java:22-29 | `redo` with an edit on top of the redo stack pops it and swaps the edit in again, showing everyone |
| Commands.Command.AsConfirmable | src/main/java/seedu/address/logic/LogicManager.java:84-88 | the command left waiting after success is the delete or the clear itself, and no other command waits |
| LogicManager.SaveFailureMessage | src/main/java/seedu/address/logic/LogicManager.java:30-33 | a denied save gets the permission message around the path; any other I/O failure gets the error prefix |
| LogicManager.AfterConfirmed | src/main/java/seedu/address/logic/LogicManager.java:63-66 | a confirmed delete is pushed onto the tracker; a confirmed clear is not |
| LogicManager.ConfirmedClearIsNotUndoable | src/main/java/seedu/address/logic/LogicManager.java:63-66 | after a confirmed clear, undo finds what was tracked before it |
| LogicManager.ConfirmedDeleteIsUndoneFirst | src/main/java/seedu/address/logic/LogicManager.java:63-66 | after a confirmed delete, undo finds that delete first |
| LogicManager.LogicManager.constructor | src/main/java/seedu/address/logic/LogicManager.java:46-50 | nothing waits |
| LogicManager.LogicManager.Execute | src/main/java/seedu/address/logic/LogicManager.java:53-104 | while waiting, the text is only an answer: a parse error keeps the command waiting and changes neither contacts, filter nor tracker, "no" aborts with the contacts untouched, "yes" gives the contacts of `ConfirmedPersons` and pushes the command if undoable, and no history is recorded; when idle, parse errors change nothing, the contacts, filter and tracker become those of `RunOutcome` whatever the saves report, a delete or clear is kept waiting even when a save fails, and a failed book save skips the history while a failed history save comes after it |
| LogicManager.LogicManager.Dispatch | src/main/java/seedu/address/logic/LogicManager.java:76-104 | the idle branch: the command's `RunOutcome` stands, a command error records no history, a question is kept before the saves, and a failed save is reported without undoing the change |
| LogicManager.PushConfirmed | src/main/java/seedu/address/logic/LogicManager.java:63-66 | after a confirmed command the tracker is `AfterConfirmed`: pushed if undoable |
| LogicManager.RunConfirmed | src/main/java/seedu/address/logic/LogicManager.java:61-66 | a "yes" runs the waiting command: the contacts become its `ConfirmedPersons` and it is pushed if it can be undone, or on failure the contacts and tracker are unchanged; the filter is kept |
| LogicManager.LogicManager.Answer | src/main/java/seedu/address/logic/LogicManager.java:56-74 | the confirmation branch on its own: a parse error keeps the command waiting and changes neither contacts, filter nor tracker, "no" aborts unchanged, "yes" gives the contacts of `ConfirmedPersons`, and no history changes |

## Left out

- I/O: the JSON files, the disk, the UI windows and logging are left out. Save outcomes are
  parameters, and the two JSON readers are modelled only for the command history.
- `AddressBookParser`, `parseConfirmation`, `ListCommand` and the command parsers other than
  delete are left out. They are parameters or outside the listed core.
- The validators of `Name`, `Phone`, `Email`, `Address`, `Birthday` and `Relationship` are not
  part of this model. Those fields are plain text, and `ParseOptional` takes the validator as a
  parameter.
- Text.ToLower: case mapping covers ASCII letters only. Java's `toLowerCase` also maps letters
  such as 'É' to 'é', so a non-ASCII name or keyword is compared with its case kept.
- Text.EqualsIgnoreCase: ignores the case of ASCII letters only, for the same reason, so
  `equalsIgnoreCase("ÉLISE", "élise")` holds in Java and not here.
- StringUtil.ContainsWordIgnoreCaseMeaning: matches words ignoring ASCII case only, since it
  rests on `Text.EqualsIgnoreCase`.
- NameSimilarPredicate.Test: lower-cases with `Text.ToLower`, so "ÉLISE" against "élise" has
  distance 0 in Java and not here.
- ParserUtil.FormatWord: only an ASCII first letter is upper-cased. Java's `Character.isLetter`
  and `Character.toUpperCase` also turn "élise" into "Élise".
- StringUtil.ParseInt: accepts ASCII digits only. `Integer.parseInt` also accepts other Unicode
  decimal digits, for example "١" as 1.
- StringUtil.NonZeroUnsignedIntegerIff: rests on `StringUtil.ParseInt`, so a numeral in
  non-ASCII digits, which Java accepts, is rejected here. `delete ١` parses in Java and fails here.
- String lengths count Unicode scalar values, where Java counts UTF-16 units. A character outside
  the Basic Multilingual Plane counts once here and twice in Java. That affects the length limits
  of `Notes` (checked before its characters) and the edit distance of `StringUtil.LevenshteinDistance`.
- Model.Model.AddPersonAt (through `Model.InsertedAt`): an index past the end of the list inserts
  at the end, where `List.add` throws `IndexOutOfBoundsException`. The undo of "delete 3 1" over three shown persons reaches this
  path: it inserts the third person at index 2 into a one-person list.
- StringUtil.SimilarityOfSelf: the documented 1.0 holds on exact reals. With Java doubles,
  `0.6 * 1.0 + 0.3 * 1.0 + 0.1 * 1.0` is 0.9999999999999999, so the program itself misses it.
- The Java `double` arithmetic of the similarity score is modelled with exact reals, so
  rounding is not captured.
- `parseImagePath` checks the file system for the image. It is not modelled.
- `Messages.Format`: the trailing tag list is left out. It is printed in `HashSet` iteration
  order, which is unspecified.
- `StringUtil.ComputeOverlapScore` requires a non-empty input. The only caller,
  `calculateSimilarity`, has already returned 0 for empty inputs, and Java would divide 0 by 0.
- `Commands.EditCommand.Undo` and `Commands.EditCommand.Redo` require an executed edit. An edit
  that never ran is never on the tracker, and Java would throw a `NullPointerException`.
- `UndoCommand`'s null check after `canUndo` cannot fire, so it is not modelled. Neither is
  `DeleteCommand`'s assertion that the captured list is non-empty.
- `CommandTracker`'s singleton and the `equals` of the `undo`, `redo` and `find` commands are
  left out. The tracker is passed in, and those commands carry no state worth comparing.
- `JsonSerializableCommandHistory.ToModelType`: it never throws `IllegalValueException`,
  because the Java body performs no validation of the stored list; whatever the list holds, it
  is copied and trimmed. A test that expects a throw on an invalid commands file therefore has
  no counterpart here.
