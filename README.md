# js-powered-search, modelled in Dafny

JS Powered Search is a VS Code extension. It runs a search that the user writes in
code. The active editor holds a TypeScript module that exports `getSettings`,
`searchByFile` and `searchByLine`. The extension transpiles and loads that module
and checks its shape. It then asks the workspace for the candidate files, runs the
file predicate and the line predicate over every admitted file, and keeps the
files that matched. A separate command picks a fresh name for a new definition
file. The results tree view keeps the results in a list that the user can clear,
append to and dismiss from.

The model has five modules:

- `Js` (js.dfy): the JavaScript built-ins the code relies on, over Dafny strings.
  These are `indexOf`, `lastIndexOf`, `slice`, `split`, `join`, `replace` with a
  string pattern, `Number(...)` on integer text, and `toString()` of an integer.
  It also holds the round-trip lemmas `join(split(s)) == s` and `Number(n.toString()) == n`.
- `SearchDefinition` (search_definition.dfy): `validateAndGetSearchDefinition`.
  The loaded module is an input. Each export is described by what `typeof` says
  about it and by what calling it does.
- `Search` (search.dfy): `executeSearch`. This covers the include and exclude
  globs, the size and cancellation gate, and the whole-file end-of-line choice.
  It also covers the file predicate, the line loop, the shared progress counter
  (a class) and the final filter. Files are evaluated one after another in the
  order `findFiles` returns them.
- `Scaffold` (scaffold.dfy): `determineFilename`, as functions over the list of
  existing paths.
- `Results` (results.dfy): the `results` list of `JSPSResultsProvider` as a class
  changed in place. This covers `showResult`, `initializeResultsView`, the
  `dismissResult` command and `getChildren`.

Inputs stand in for the editor, the file system and the user:

- the loaded module, or the reason it could not be loaded;
- the number of open workspace folders;
- a `findFiles` function from glob arguments to files, each with its size and UTF-8 content;
- the answer to the confirmation prompt;
- whether cancellation had been requested when each file reached the gate.

Facts about the code that the model keeps:

- The confirmation prompt appears above 200 files (`search.ts:103`).
- A definition with neither predicate matches no file: `matchesByFile` stays
  false and no lines are recorded (`search.ts:167-187`).
- `search.ts` records `matchesByLine` as a list of line indices (`search.ts:26`,
  `search.ts:180-186`). The line predicate receives the line, `filePath` and
  `fileName` (`search.ts:162-165`, `search.ts:183`).
- `search.ts` catches no exception thrown by a predicate, `stat` or `readFile`
  (`search.ts:142-195`).
- When no file matched the patterns, the error message is shown and the run goes
  on with an empty list (`search.ts:97-101`).
- The results tree reads `matchesByLine` as a map from line index to line text
  (`results.ts:79-81`). `results.ts` imports `SearchResult` from `search.ts`,
  which declares only `FileResult` (`search.ts:23-27`). The model's
  `SearchResult` has the fields `results.ts` reads: `file`, `fileName`,
  `filePath` and `matchesByLine`.
- The repository's test suite imports `runPreliminaryTest`, `testFiles` and
  `splitByLine` from `search.ts` (`search.test.ts:7-13`), which does not define
  them.

## Model

| member | source | states |
|---|---|---|
| Js.IndexOfFrom | src/commands/scaffold.ts:116-118 | `indexOf` returns the first occurrence at or after the start, or -1 exactly when there is none |
| Js.LastIndexOf | src/commands/search.ts:165 | `lastIndexOf` of a character is -1 exactly when the character is absent; otherwise that position holds it and no later position does |
| Js.Slice | src/commands/scaffold.ts:114-118 | `slice` with start and end inside the string is that substring; an end past the length stops at the length; an end at or before the start gives "" |
| Js.Basename | src/commands/search.ts:163-166 | the file name is the suffix after the last `/`; it holds no `/`; it is the whole path when there is no `/` |
| Js.Split | src/commands/search.ts:159-161 | `split` always yields at least one piece |
| Js.JoinSplit | src/commands/search.ts:159-161 | joining the pieces of a split with the separator gives back the string |
| Js.SplitPiecesFree | src/commands/search.ts:159-161 | no piece of a split contains the separator |
| Js.SplitJoin | src/commands/search.ts:89-90 | splitting a join gives back the parts when no part holds the separator's first character |
| Js.ReplaceFirst | src/commands/scaffold.ts:110-122 | `replace` with a string pattern changes nothing when the pattern is absent; otherwise only its first occurrence is replaced |
| Js.NatToString | src/commands/scaffold.ts:122 | `toString()` of a natural number is a non-empty string of digits with no leading zero |
| Js.ParseNumber | src/commands/scaffold.ts:119-120 | `Number` of blank text is 0 and of decimal digits (optionally after `-`) is their value; text that starts with anything but white space, a digit, a sign or `.` is not a finite number. `NumberForms` shows the `0x`/`0b` forms and non-ASCII white space. |
| Js.NumberForms | src/commands/scaffold.ts:119-120 | `Number("0x10")` is 16, `Number("0b11")` is 3, and no-break space and vertical tab around digits are ignored |
| Js.ParseIntToString | src/commands/scaffold.ts:119-122 | `Number(n.toString())` is `n` for every integer `n` |
| Js.IntToStringChars | src/commands/scaffold.ts:118-122 | an integer's text holds no `.`, `/` or `*`, so it cannot end the number part early |
| SearchDefinition.Validate | src/commands/search.ts:235-300 | a module is accepted iff each of the three exports is a function that returns an object. Exports are checked and then called in a fixed order. No export is called unless all three are functions. A refusal names the first export that failed, and later exports are not called. |
| SearchDefinition.ValidateAsWritten | src/commands/search.ts:235-300 | the check as written, with `typeof ... === "object"`, accepts only after calling all three exports |
| SearchDefinition.NullSettingsAcceptedAsWritten | src/commands/search.ts:268-271 | a `getSettings` that returns `null` passes the check as written, but the corrected check refuses it |
| SearchDefinition.NullOptionsAcceptedAsWritten | src/commands/search.ts:281-297 | a `searchByFile` or `searchByLine` that returns `null` passes the check as written, but the corrected check refuses it with "... must return an object." |
| SearchDefinition.AsWrittenAgreesWithoutNull | src/commands/search.ts:259-299 | both checks give the same verdict and call the same exports for every module whose exports never return `null` |
| Search.IncludeGlobs | src/commands/search.ts:69-72 | the include patterns are the given ones; `**/*` is used alone when none are given |
| Search.ExcludeGlobs | src/commands/search.ts:74-79 | the exclude patterns are the given ones in order. `**/node_modules/**` is appended exactly when `includeNodeModules` is not set. |
| Search.ExcludeArgument | src/commands/search.ts:90 | the exclude argument is `null` exactly when there is no exclude pattern; otherwise it is the brace glob |
| Search.BraceGlobLists | src/commands/search.ts:89 | the brace glob is `{...}` around a text that splits back on `,` into exactly the patterns, when no pattern holds a comma |
| Search.ExcludeArgumentNull | src/commands/search.ts:74-90 | nothing is excluded exactly when node_modules are searched and no exclude pattern is given |
| Search.ConfigOf | src/commands/search.ts:114-121 | the size cap is the configured number, or 1000 when none is given |
| Search.ExceedsMaxSize | src/commands/search.ts:145-146 | the multiplied-out size test is the source's `size / 1000 > cap` test, and a cap of 0 disables it |
| Search.Skipped | src/commands/search.ts:145-147 | cancellation skips every file; otherwise a file is skipped iff it is larger than a non-zero cap |
| Search.LineDelimiter | src/commands/search.ts:159-161 | the separator is CRLF iff the content holds a CRLF anywhere, and LF otherwise |
| Search.SplitByLine | src/commands/search.ts:159-161 | a file always has at least one line |
| Search.SplitByLineRoundTrip | src/commands/search.ts:159-161 | the separator is CRLF exactly when the content holds a CRLF. The lines join back into the content, and no line holds the separator. |
| Search.SplitByLineSamples | src/test/suite/search.test.ts:42-78 | the test suite's sample lines, joined by CRLF and by LF, split back into the same eleven lines under the separator each file calls for |
| Search.MatchingIndicesSpec | src/commands/search.ts:180-186 | the recorded indices are exactly the indices whose element satisfies the predicate, strictly ascending |
| Search.LineMatches | src/commands/search.ts:176-187 | the line matches are strictly ascending indices. An index is recorded iff its line satisfies the line predicate. |
| Search.CollectLineMatches | src/commands/search.ts:180-186 | the line loop records exactly the matching line indices, in ascending order |
| Search.FileOutcome | src/commands/search.ts:143-192 | a skipped file matches nothing. An admitted file's `matchesByFile` is the file predicate on its content, name and lines. Lines are tested iff there is a line predicate and, when `onlyTestLinesInMatchingFiles` is set, the file matched. The recorded lines are the matching ones. |
| Search.SkippedIgnoresContent | src/commands/search.ts:145-157 | a file stopped at the gate gives the same result whatever its content |
| Search.ProgressStep | src/commands/search.ts:130 | the step is `n / 25` from 25 files on, and 1 below that |
| Search.ProgressReports | src/commands/search.ts:132-138 | after `n` completions there are at most `n` reports, each at a count from 1 to `n` that is a multiple of the step |
| Search.ProgressReportsSpec | src/commands/search.ts:132-138 | progress is reported exactly at the completion counts that are multiples of the step, once each, in order |
| Search.ProgressReportCount | src/commands/search.ts:130-138 | after `n` completions there have been `n / step` reports |
| Search.ProgressAboutTwentyFiveTimes | src/commands/search.ts:130-138 | below 25 files every completion is reported; from 25 files on there are 25 to 49 reports |
| Search.ProgressTracker.Increment | src/commands/search.ts:132-138 | the counter goes up by one and a report is added exactly when the new count is a multiple of the step |
| Search.EvaluateFile | src/commands/search.ts:142-194 | one file's evaluation gives `FileOutcome`. The content is read iff the file passes the gate. The counter goes up by one on both paths. |
| Search.RunMatches | src/commands/search.ts:129-200 | every file gets its `FileOutcome`, in file order; the counter ends at the number of files with the reports `ProgressReportsSpec` describes |
| Search.FilterMatches | src/commands/search.ts:207-209 | the filter keeps only results whose file matched or that have a line match, and never more than it was given |
| Search.FilterMatchesSpec | src/commands/search.ts:207-209 | the filter keeps exactly the results whose file matched or that have at least one line match, in their original order |
| Search.ExecuteSearch | src/commands/search.ts:29-211 | each load failure stops the run with its own reason, and a refused module stops it with the validation error. No workspace folder stops it. More than 200 files without confirmation stops it. Otherwise the run reports the filtered outcomes of the files found with the assembled globs and shows the "no files" message iff none were found. |
| Scaffold.KeptSpec | src/commands/scaffold.ts:120 | the `filter` keeps every finite number and nothing that was not a finite number |
| Scaffold.FileNumbersSpec | src/commands/scaffold.ts:113-120 | the kept numbers are exactly those that some existing file's number part parses to |
| Scaffold.Max | src/commands/scaffold.ts:121 | `Math.max` is `-Infinity` iff there are no numbers; otherwise it is one of them and no smaller than any |
| Scaffold.NextNumber | src/commands/scaffold.ts:121-122 | the next number exceeds every kept number. It is the largest plus one, or 1 when no number was kept. |
| Scaffold.DetermineFilenameAsWritten | src/commands/scaffold.ts:109-122 | as written: with no files the name uses 1; with files but no parsed number it uses `-Infinity`; otherwise it is the corrected name |
| Scaffold.DetermineFilename | src/commands/scaffold.ts:109-122 | the template's `*` is replaced by a number above every parsed number, and by 1 when no number was parsed |
| Scaffold.TemplateParts | src/commands/scaffold.ts:116-122 | the prefix is the text before the first `*`, and only that `*` is replaced |
| Scaffold.CandidateOf | src/commands/scaffold.ts:118 | the number part of a name is the text between the prefix and the first `.` |
| Scaffold.LastSlashBefore | src/commands/scaffold.ts:113-115 | the file name of `dir/name` is `name` when `name` holds no `/` |
| Scaffold.PathNumberOf | src/commands/scaffold.ts:113-120 | a file contributes what the middle part of its name parses to |
| Scaffold.NumberRoundTrip | src/commands/scaffold.ts:113-122 | a name built from a number gives that number back as its parsed number part |
| Scaffold.DetermineFilenameShape | src/commands/scaffold.ts:116-122 | the chosen name is the template with its `*` replaced by the next number |
| Scaffold.DetermineFilenameNumbering | src/commands/scaffold.ts:109-122 | with no files the name uses 1; otherwise it uses the next number after every parsed one |
| Scaffold.DetermineFilenameIsFresh | src/commands/scaffold.ts:102-123 | no existing file has the chosen name |
| Scaffold.AsWrittenAgreesWithNumbers | src/commands/scaffold.ts:109-122 | the code as written and the corrected version agree whenever there are no files or some file yields a number |
| Scaffold.FirstFilenameExample | src/test/suite/scaffold.test.ts:12-22 | with no files the name is `_SearchDefinition1.jsps.ts` |
| Scaffold.TwoFileNumbers | src/test/suite/scaffold.test.ts:24-36 | files numbered 1 and 2 yield the numbers 1 and 2 |
| Scaffold.NextFilenameExample | src/test/suite/scaffold.test.ts:24-45 | with files numbered 1 and 2 in any folder, the name is `_SearchDefinition3.jsps.ts` |
| Scaffold.InfinityIsNotANumber | src/commands/scaffold.ts:119-120 | `"-Infinity"` is dropped as not a finite number |
| Scaffold.InfinityFileNumbers | src/commands/scaffold.ts:117-120 | a file named `_SearchDefinition-Infinity.jsps.ts` yields no number |
| Scaffold.AsWrittenRepeatsName | src/commands/scaffold.ts:121-122 | as written, with only `_SearchDefinition-Infinity.jsps.ts` present, that same name is chosen again |
| Scaffold.CorrectedAfterInfinity | src/commands/scaffold.ts:109-122 | the corrected version chooses `_SearchDefinition1.jsps.ts` for the same files |
| Results.MinExists | src/commands/results.ts:79 | every non-empty set of line indices has a least element |
| Results.FileNode | src/commands/results.ts:59-69 | a root item shows the file name, has the path as tooltip, and is collapsible iff its result has at least one line entry |
| Results.LineNode | src/commands/results.ts:82-90 | a line item for index `k` keeps `k` as its line number and the text as tooltip. Its caption is the number `k + 1`, then `": "`, then the text. |
| Results.FirstIndex | src/commands/results.ts:106 | `indexOf` is -1 iff the result is absent; otherwise that position holds it and no earlier one does |
| Results.RemoveFirst | src/commands/results.ts:105-112 | a present result is removed once, at its first position; the rest keep their order and multiplicity; an absent one leaves the list unchanged |
| Results.DismissUndoesShow | src/commands/results.ts:105-112 | dismissing a result just shown, and not shown before, gives back the earlier list |
| Results.DeleteLine | src/commands/results.ts:114-127 | dismissing a line removes only that index from the line map. Other entries keep their text. Nothing changes without a map. |
| Results.DeleteLineIdempotent | src/commands/results.ts:120-126 | dismissing the same line twice is the same as dismissing it once |
| Results.DeleteLineCommutes | src/commands/results.ts:126 | dismissing two lines gives the same map in either order |
| Results.ResultsProvider.constructor | src/commands/results.ts:35 | the results list starts empty |
| Results.ResultsProvider.InitializeResultsView | src/commands/results.ts:132-136 | the results list is emptied |
| Results.ResultsProvider.ShowResult | src/commands/results.ts:141-148 | exactly one result is appended at the end, and earlier ones are unchanged |
| Results.ResultsProvider.DismissResult | src/commands/results.ts:102-130 | a file node removes its result's first occurrence from the list, and leaves the list unchanged when absent. A line node deletes only its index from its result's line map. |
| Results.ResultsProvider.GetChildren | src/commands/results.ts:53-94 | the roots are one file node per result, in list order, collapsible iff the result has at least one line. Line nodes and file nodes without a map have no children. |
| Results.LineChildren | src/commands/results.ts:78-93 | a file node has one child per line-map entry, by ascending index. Each child is labelled `"(k+1): text"` with line number `k`. |
| Results.ListNext | src/commands/results.ts:79-92 | listing the least remaining index keeps the children ascending, below the remaining indices, and complete for the indices already visited |

## Left out

- Transpiling the editor's text and loading it with `require` are inputs, described only by their outcome.
- The editor UI is left out: error messages, quick picks, progress notifications, the tree's "N files found" message and focus commands.
- Reading files, `stat` and UTF-8 decoding are left out. Each candidate file carries its size and decoded content.
- Concurrency is left out. The per-file promises run one after another in file order. The order in which real promises resolve, and any cancellation between files, is given by the `cancelled` input per file.
- The model does not compute the number passed to `progress.report`. It is a floating-point percentage, and the source passes the cumulative share as an increment. The model records the completion counts at which a report happens.
- Exceptions inside a file's evaluation are not modelled: predicates are total and `stat` and `readFile` succeed. In the source, each file's promise is built with an `async` executor (`search.ts:142`). A throw from a predicate, `stat` or `readFile` rejects only the executor's own promise, so that file's promise never settles. Its completion is never counted, `Promise.all` (`search.ts:199`) never settles, and the search waits forever with its notification open.
- The preliminary probe, its timeout (`matchTestingTimeoutInSeconds`), `runPreliminaryTest`, `testFiles`, `splitByLine` as an export, and `getFriendlyTime` are imported by the repository's test suites but defined in neither `search.ts` nor `results.ts`. They are not part of this model.
- `Js.ParseNumber`: exponent forms are not modelled and read as not a number. The source keeps them: `Number("1e3")` is 1000, so a lone file `_SearchDefinition1e3.jsps.ts` leads the source to `_SearchDefinition1001.jsps.ts` and the model to `_SearchDefinition1.jsps.ts`. A negative exponent can yield a fraction (`"1e-3"`), which the integer model cannot hold. Fractions cannot otherwise occur, because the number part stops at the first `.`.
- The model uses unbounded integers. Doubles above 2^53 lose precision in the source; the model does not.
- `Scaffold.DetermineFilenameIsFresh`: freshness holds in the source only for numbers below 2^53. `Number("9007199254740992") + 1` is again 9007199254740992, so with the single file `_SearchDefinition9007199254740992.jsps.ts` the source, as written and corrected alike, chooses that same name. The model's unbounded integers do not show this.
- `Search.ExecuteSearch`: it runs the corrected `SearchDefinition.Validate`, so an export that returns `null` stops the run with `InvalidDefinition`. The source accepts such a module. With a `null` from `getSettings` it then shows the no-workspace-folder message when no folder is open (`search.ts:61-66`) and otherwise throws a TypeError at `search.ts:69`. With a `null` from `searchByFile` or `searchByLine` it first calls `findFiles`, may show the "no files" message and the confirmation prompt, and then throws at `search.ts:118` or `search.ts:119`.
- `Search.ConfigOf`: `maxFileSizeInKB` is an integer here. A fractional or `NaN` cap (falsy, so no limit) is not modelled.
- The source pushes the default include and the node_modules exclude onto the arrays that the user's `getSettings` returned. The model builds new sequences, so that aliasing is not captured.
- `Results.ResultsProvider.DismissResult`: the `typeof ... !== "string"` test reads as "no entry", because every entry in the model is a string.
- `chooseWorkspaceFolder` and the quick-pick switch of `scaffoldSearchDefinition` are UI and are left out.

## Findings

| source | as written | input that shows it | evidently intended | confidence | as-written member | corrected member |
|---|---|---|---|---|---|---|
| src/commands/search.ts:268 | `typeof settings !== "object"` is false for `null`, so a `null` result passes. The same holds at lines 281 and 294 (`SearchDefinition.NullOptionsAcceptedAsWritten`). With a folder open, the search then reads `includeFilePatterns` from `null` (line 69); a `null` from the other two is read at line 118 or 119. | a module whose `getSettings` returns `null`, and whose other exports return objects | refuse it with "getSettings must return an object." | not executed | SearchDefinition.NullSettingsAcceptedAsWritten | SearchDefinition.Validate |
| src/commands/scaffold.ts:121-122 | `Math.max()` of no numbers is `-Infinity`, so the name becomes `_SearchDefinition-Infinity.jsps.ts`. Once that file exists, the same name is chosen again. | existing files `["/root/folder/_SearchDefinition-Infinity.jsps.ts"]` | start numbering at 1 when no existing name yields a number | not executed | Scaffold.AsWrittenRepeatsName | Scaffold.DetermineFilenameIsFresh |
