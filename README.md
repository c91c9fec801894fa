# GitWho2Blame: a Dafny model of change collection

GitWho2Blame answers "who last changed these lines, and how" for a window
`[startLine, endLine]` of one file. This project models the part of it that
turns repository data into answers:

- the unified-diff parser (`GitDiffParser`) and the hunk-header regular
  expression it uses (`HunkHeaderRegex`);
- the GitHub provider (`GitHubProvider`). It walks the commits that touched the
  file, finds the file in each commit and keeps the changed lines its patch
  has in the window;
- the Azure DevOps provider, in four modules:
  - `AzureDiffBlocks`: the diff blocks and their expansion into line numbers,
    per change kind;
  - `AzureContent`: reading a file snapshot inside the window;
  - `AzureMerge`: the run-by-run merge of the parent side's deleted lines with
    the current side's added lines;
  - `AzureProvider`: the per-commit aggregation;
- the local git service (`GitService`): blame entries for the window, and the
  GitHub owner named by the first remote's URL;
- the cache-key generator (`CacheKey`);
- the `CodeLine` factories (`Models`);
- the `Response<T>` envelope (`Responses`).

What each network or library call returned is an input to the model. This
covers the repository list, the commit list, commit details, file contents,
file diffs, blame hunks and remote URLs. A missing result is `None`. The
providers' loops are imperative methods with loop invariants, and each is
proved equal to a functional specification. Then the properties the code
promises are proved about those specifications. `GitDiffParserExamples`
proves that the parser gives the expected lines for every patch in the
GitHub provider's unit tests, reading the headers with the real hunk-header
recogniser.

Where the model follows the code rather than the documented intent:

- A hunk is skipped only when `newEnd < startLine && newStart > endLine`.
  Both tests must hold, so the skip can only fire when the window itself is
  empty (the ensures of `Skipped`). Hunks outside a non-empty window are still
  walked, and their lines are then filtered one by one.
- The Azure merge is not sorted by line number. A run of consecutively
  numbered lines is copied whole before the heads are compared again
  (`MergeKeepsRunsAheadOfOrder`). What is proved is that the merge is an
  interleaving of the two sides, and therefore a permutation.
- The Azure provider skips a commit without parents. It does not read such a
  commit as all additions (`ParentlessCommitSkipped`).
- Block selection in the Azure provider looks at the window's first line
  only. `relevantChanges` never consults `endLine`.
- The GitHub provider drops a commit whose patch gives no line in the
  window. So for the unit-test patches "Context lines only" and "Zero-length
  hunk" it returns no summary at all, while the test reads `result[0]`
  (`ContextLinesOnly`, `ZeroLengthHunk`).

## Model

| member | source | states |
|---|---|---|
| Wrappers.FilterMap | src/GitWho2Blame.GitHub/GitHubContextProvider.cs:67-117 | a loop that appends one result or `continue`s yields at most one output per input |
| Wrappers.FilterMapAppend | src/GitWho2Blame.GitHub/GitHubContextProvider.cs:67-117 | such a loop over two runs of inputs gives the outputs of the first run followed by those of the second: input order is kept |
| Wrappers.FilterMapMembership | src/GitWho2Blame.GitHub/GitHubContextProvider.cs:67-117 | a value is output exactly when some input produces it |
| Text.ParseNat | src/GitWho2Blame.Common/Helpers/GitDiffParser.cs:23-25 | `int.Parse` of a run of digits is a natural number below ten to the run's length |
| Text.PadDigits | src/GitWho2Blame.Cache/Helpers/CacheKeyGenerator.cs:5 | a fixed-width field of the date format has exactly its width and only digits |
| Text.ParsePadDigits | src/GitWho2Blame.Cache/Helpers/CacheKeyGenerator.cs:5 | reading a zero-padded field back gives the number whenever it fits the width |
| Text.ToUpperAscii | src/GitWho2Blame.GitHub/GitHubContextProvider.cs:88 | the case folding of `OrdinalIgnoreCase`: lower-case letters move to upper case, everything else is unchanged |
| Text.EqualsIgnoreCase | src/GitWho2Blame.GitHub/GitHubContextProvider.cs:87-88 | the `OrdinalIgnoreCase` comparison (also at src/GitWho2Blame.Azure/AzureGitContextProvider.cs:55): equal texts compare equal, and texts that compare equal have the same length |
| Text.IgnoreCaseFoldsOnlyLetters | src/GitWho2Blame.GitHub/GitHubContextProvider.cs:87-88 | only letters are folded: where one text has a character that is not a letter, the other has that same character |
| Text.Split | src/GitWho2Blame.Common/Helpers/GitDiffParser.cs:12 | `string.Split` gives at least one piece and no piece holds the separator |
| Text.Join | src/GitWho2Blame.Cache/Helpers/CacheKeyGenerator.cs:8 | `string.Join` of n pieces is at least n-1 characters long (one separator between neighbours); no pieces join to the empty text |
| Text.JoinSplit | src/GitWho2Blame.Common/Helpers/GitDiffParser.cs:12 | joining the pieces of a split with the same separator gives back the text: splitting loses nothing |
| Text.SplitJoin | src/GitWho2Blame.Cache/Helpers/CacheKeyGenerator.cs:8 | splitting a join gives back the pieces when no piece holds the separator |
| Models.CodeLine.Add | src/GitWho2Blame.Models/CodeLine.cs:10-15 | an added line keeps its number, and its content is `+` followed by the given text |
| Models.CodeLine.Delete | src/GitWho2Blame.Models/CodeLine.cs:17-22 | a deleted line keeps its number, and its content is `-` followed by the given text |
| Models.AddDeleteDifferInSignOnly | src/GitWho2Blame.Models/CodeLine.cs:10-22 | the two factories agree on number and text and differ only in the sign, so they never give the same line |
| Responses.Response.Success | src/GitWho2Blame.Models/Responses/Response.cs:21-22 | a success holds its value, no error message, and reports success |
| Responses.Response.Failure | src/GitWho2Blame.Models/Responses/Response.cs:24-25 | a failure holds no value; it reports failure exactly when a message is given (a null message reports success) |
| Responses.Response.IsSuccess | src/GitWho2Blame.Models/Responses/Response.cs:19 | a response succeeds exactly when it holds no error message |
| Responses.IsSuccessIgnoresValue | src/GitWho2Blame.Models/Responses/Response.cs:19 | success depends on the error message alone |
| HunkHeaderRegex.DigitRun | src/GitWho2Blame.GitHub/Helpers/RegexHelpers.cs:7 | a greedy `\d` run: digits up to a non-digit or the end |
| HunkHeaderRegex.DigitRunUnique | src/GitWho2Blame.GitHub/Helpers/RegexHelpers.cs:7 | a maximal run of digits ends in one place only, so the greedy run is the only one that can be followed by a non-digit |
| HunkHeaderRegex.OptionalComma | src/GitWho2Blame.GitHub/Helpers/RegexHelpers.cs:7 | `,?` consumes one comma when one is there, else nothing |
| HunkHeaderRegex.MatchAt | src/GitWho2Blame.GitHub/Helpers/RegexHelpers.cs:7 | a match anchored at a position starts with `@` there and has well-formed groups: non-empty starts, digit-only counts |
| HunkHeaderRegex.Leftmost | src/GitWho2Blame.GitHub/Helpers/RegexHelpers.cs:7 | the leftmost search returns a position in the range it searched where the pattern matches |
| HunkHeaderRegex.LeftmostSkipsOnlyMisses | src/GitWho2Blame.GitHub/Helpers/RegexHelpers.cs:7 | every position the search passed over without stopping is one where the pattern does not match |
| HunkHeaderRegex.Search | src/GitWho2Blame.GitHub/Helpers/RegexHelpers.cs:7 | the position reported is one where the pattern matches |
| HunkHeaderRegex.SearchSkipsOnlyMisses | src/GitWho2Blame.GitHub/Helpers/RegexHelpers.cs:7 | no match starts before the reported position, and none anywhere when nothing is reported |
| HunkHeaderRegex.Match | src/GitWho2Blame.GitHub/Helpers/RegexHelpers.cs:7 | `Regex.Match` reports well-formed groups |
| HunkHeaderRegex.MatchLeftmost | src/GitWho2Blame.GitHub/Helpers/RegexHelpers.cs:7 | a line matches exactly when the pattern matches somewhere in it, and the match reported is the leftmost one |
| HunkHeaderRegex.NoAtNoHeader | src/GitWho2Blame.GitHub/Helpers/RegexHelpers.cs:7 | a line without `@` never matches |
| HunkHeaderRegex.MatchAtShape | src/GitWho2Blame.GitHub/Helpers/RegexHelpers.cs:7 | a match is cut by the greedy runs into the pattern's literals and its four groups |
| HunkHeaderRegex.MatchAtFromCuts | src/GitWho2Blame.GitHub/Helpers/RegexHelpers.cs:7 | conversely, cuts that pass every check give a match with those groups |
| HunkHeaderRegex.MatchAtSound | src/GitWho2Blame.GitHub/Helpers/RegexHelpers.cs:7 | soundness: a reported match is text of the pattern `@@ -(\d+),?(\d*) \+(\d+),?(\d*) @@` with the reported groups |
| HunkHeaderRegex.MatchAtComplete | src/GitWho2Blame.GitHub/Helpers/RegexHelpers.cs:7 | completeness: wherever text of the pattern stands, it matches, and the groups read back as written; without a comma the two digit runs read as one start and an empty count |
| HunkHeaderRegex.HeaderTextIsPattern | src/GitWho2Blame.GitHub/Helpers/RegexHelpers.cs:7 | a header written out from digit groups, followed by any text, is text of the pattern |
| HunkHeaderRegex.MatchAtExtend | src/GitWho2Blame.GitHub/Helpers/RegexHelpers.cs:7 | text appended after a match does not change it |
| HunkHeaderRegex.HeaderWithTrailingText | src/GitWho2Blame.GitHub/Helpers/RegexHelpers.cs:7 | the pattern is unanchored at the end: a header line followed by a section heading still matches with the same groups |
| GitDiffParser.HunkOf | src/GitWho2Blame.Common/Helpers/GitDiffParser.cs:23-25 | a hunk takes its original and new starts from groups 1 and 3, and its new count from group 4, which is 1 when that group is empty |
| GitDiffParser.HeaderOf | src/GitWho2Blame.Common/Helpers/GitDiffParser.cs:17-26 | a line opens a hunk exactly when the header pattern matches it |
| GitDiffParser.HeaderOfCommaForm | src/GitWho2Blame.Common/Helpers/GitDiffParser.cs:17-26 | a line starting `@@ -a,b +c,d @@` opens the hunk from `a` and `c`, `d` lines long (one line when `d` is empty) |
| GitDiffParser.HeaderOfShortForm | src/GitWho2Blame.Common/Helpers/GitDiffParser.cs:17-26 | a line starting `@@ -a +c @@` opens a one-line hunk from `a` and `c` |
| GitDiffParser.HeaderOfHeaderText | src/GitWho2Blame.Common/Helpers/GitDiffParser.cs:17-26 | writing a header out and reading it back gives the hunk of its numbers, whatever follows on its line |
| GitDiffParser.HeaderOfNoAt | src/GitWho2Blame.Common/Helpers/GitDiffParser.cs:17-21 | a line without `@` never opens a hunk |
| GitDiffParser.Scan | src/GitWho2Blame.Common/Helpers/GitDiffParser.cs:14-81 | the reading of a patch, hunk by hunk, that the two loops are proved equal to: it reports at most one changed line per patch line |
| GitDiffParser.Body | src/GitWho2Blame.Common/Helpers/GitDiffParser.cs:38-80 | the reading of a hunk body up to the next header, and of the rest after it: at most one changed line per line read |
| GitDiffParser.Next | src/GitWho2Blame.Common/Helpers/GitDiffParser.cs:47-77 | empty lines and the end-of-file marker change no counter; a `+` line counts as added, a `-` line as deleted, any other line as context |
| GitDiffParser.LineOut | src/GitWho2Blame.Common/Helpers/GitDiffParser.cs:59-72 | a body line is reported exactly when it is a `+` or `-` line whose number lies in the window, and it is reported with that number and its own text |
| GitDiffParser.BodyStep | src/GitWho2Blame.Common/Helpers/GitDiffParser.cs:38-80 | a body line that is not a header contributes its own output, and the walk goes on with the counters moved |
| GitDiffParser.ScanAtHunk | src/GitWho2Blame.Common/Helpers/GitDiffParser.cs:17-38 | a header line that does not skip its hunk starts that hunk's body with all three counters at zero |
| GitDiffParser.BodyLoopStep | src/GitWho2Blame.Common/Helpers/GitDiffParser.cs:38-80 | while the inner loop walks a body, what is collected so far plus what the rest of the body reports stays the whole result, one line at a time |
| GitDiffParser.BodyLoopExit | src/GitWho2Blame.Common/Helpers/GitDiffParser.cs:41-45 | when the inner loop meets a header, what it has collected plus the scan from that header is the whole result |
| GitDiffParser.BodyAtHeader | src/GitWho2Blame.Common/Helpers/GitDiffParser.cs:41-45 | a header inside a body ends it, and the scan restarts at that header |
| GitDiffParser.ReadBodyLine | src/GitWho2Blame.Common/Helpers/GitDiffParser.cs:47-77 | one pass of the inner loop appends what the reading of that body line reports and moves the counters exactly as that reading does |
| GitDiffParser.AddLineIfInRange | src/GitWho2Blame.Common/Helpers/GitDiffParser.cs:85-100 | a line is appended exactly when its number lies in the window |
| GitDiffParser.ReadHunkBody | src/GitWho2Blame.Common/Helpers/GitDiffParser.cs:33-80 | the inner loop walks the hunk body. It stops one line before the next header (the `i--`) or at the end, and has collected the body's lines, so the outer scan can go on from there |
| GitDiffParser.ParsePatchLines | src/GitWho2Blame.Common/Helpers/GitDiffParser.cs:14-81 | the two nested loops collect, in patch order, exactly the lines the hunk-by-hunk reading of the patch reports |
| GitDiffParser.ParsePatch | src/GitWho2Blame.Common/Helpers/GitDiffParser.cs:9-83 | `ParsePatch` returns the changed lines of the patch split at the newline |
| GitDiffParser.ScanReported | src/GitWho2Blame.Common/Helpers/GitDiffParser.cs:9-83 | every reported line lies in the window and is a `+` or `-` line of the patch that is not a header |
| GitDiffParser.BodyReported | src/GitWho2Blame.Common/Helpers/GitDiffParser.cs:38-80 | the same for the lines reported from a hunk body onwards |
| GitDiffParser.ReportedLinesAreChangesInWindow | src/GitWho2Blame.Common/Helpers/GitDiffParser.cs:59-72 | a reported line is numbered inside the window, and its content is a non-empty added or deleted line of the patch, kept with its sign |
| GitDiffParser.NothingToReport | src/GitWho2Blame.Common/Helpers/GitDiffParser.cs:59-77 | an empty window, or a patch without `+` or `-` lines, reports nothing |
| GitDiffParser.Skipped | src/GitWho2Blame.Common/Helpers/GitDiffParser.cs:26-31 | the skip test can only pass when `endLine < startLine`, so no hunk is skipped for a non-empty window |
| GitDiffParser.ScanAppend | src/GitWho2Blame.Common/Helpers/GitDiffParser.cs:38-45 | hunks are independent: the lines of a patch are those of its part before a header followed by those of the part from that header on |
| GitDiffParser.BodyAppend | src/GitWho2Blame.Common/Helpers/GitDiffParser.cs:38-45 | the same split for a body cut at the next header |
| GitDiffParser.PreambleIgnored | src/GitWho2Blame.Common/Helpers/GitDiffParser.cs:17-21 | lines before the first header contribute nothing |
| GitDiffParser.CountsStep | src/GitWho2Blame.Common/Helpers/GitDiffParser.cs:35-76 | after any prefix of a body, the three running counters equal the numbers of added, deleted and context lines in that prefix |
| GitDiffParser.BodyMatchesReference | src/GitWho2Blame.Common/Helpers/GitDiffParser.cs:61-76 | the counter-based numbering equals a counter-free reference. An added line is the new start plus the added and context lines above it; a deleted line is the original start plus the deleted and context lines above it |
| GitDiffParser.OneHunkReported | src/GitWho2Blame.Common/Helpers/GitDiffParser.cs:23-80 | a one-hunk patch reports exactly the change lines of its body that the reference numbering puts in the window |
| GitDiffParser.WorkedHunkAnyWindow | src/GitWho2Blame.Common/Helpers/GitDiffParser.cs:38-80 | in `@@ -10,2 +20,3 @@` over ` a`, `-b`, `+c`, an empty line, `+d` and the marker, the lines are numbered 11, 21 and 22 in any window, and each is kept when the window holds it |
| GitDiffParser.WorkedHunk | src/GitWho2Blame.Common/Helpers/GitDiffParser.cs:38-80 | the same hunk gives all three lines in the window 0..100, and only `+c` in the window 21..21 |
| GitDiffParserExamples.OnlyAdditionsHeader | tests/GitWho2Blame.GitHub.Unit.Tests/GitHubContextProviderTests.cs:15 | `@@ -0,0 +1,2 @@` opens the hunk from 0 and 1, two lines long |
| GitDiffParserExamples.OnlyDeletionsHeader | tests/GitWho2Blame.GitHub.Unit.Tests/GitHubContextProviderTests.cs:25 | `@@ -1,2 +0,0 @@` opens the hunk from 1 and 0, zero lines long |
| GitDiffParserExamples.TwoLineHeader | tests/GitWho2Blame.GitHub.Unit.Tests/GitHubContextProviderTests.cs:52 | `@@ -1,2 +1,2 @@` opens the hunk from 1 and 1, two lines long |
| GitDiffParserExamples.FirstEditHeader | tests/GitWho2Blame.GitHub.Unit.Tests/GitHubContextProviderTests.cs:35 | `@@ -1,2 +1,3 @@` opens the hunk from 1 and 1, three lines long |
| GitDiffParserExamples.SecondEditHeader | tests/GitWho2Blame.GitHub.Unit.Tests/GitHubContextProviderTests.cs:40 | `@@ -5,2 +6,3 @@` opens the hunk from 5 and 6, three lines long |
| GitDiffParserExamples.InterleavedHeader | tests/GitWho2Blame.GitHub.Unit.Tests/GitHubContextProviderTests.cs:74 | `@@ -3,7 +3,7 @@` opens the hunk from 3 and 3, seven lines long |
| GitDiffParserExamples.ZeroLengthHeader | tests/GitWho2Blame.GitHub.Unit.Tests/GitHubContextProviderTests.cs:91 | `@@ -10,0 +11,0 @@` opens the hunk from 10 and 11, zero lines long |
| GitDiffParserExamples.OnlyAdditionsBody | tests/GitWho2Blame.GitHub.Unit.Tests/GitHubContextProviderTests.cs:16-17 | the case's body lines are not headers |
| GitDiffParserExamples.OnlyDeletionsBody | tests/GitWho2Blame.GitHub.Unit.Tests/GitHubContextProviderTests.cs:26-27 | the case's body lines are not headers |
| GitDiffParserExamples.RenameBody | tests/GitWho2Blame.GitHub.Unit.Tests/GitHubContextProviderTests.cs:100-101 | the case's body lines are not headers |
| GitDiffParserExamples.FirstEditBody | tests/GitWho2Blame.GitHub.Unit.Tests/GitHubContextProviderTests.cs:36-39 | the case's body lines are not headers |
| GitDiffParserExamples.SecondEditBody | tests/GitWho2Blame.GitHub.Unit.Tests/GitHubContextProviderTests.cs:41-44 | the case's body lines are not headers |
| GitDiffParserExamples.EndOfFileBody | tests/GitWho2Blame.GitHub.Unit.Tests/GitHubContextProviderTests.cs:63-66 | the case's body lines, the end-of-file marker included, are not headers |
| GitDiffParserExamples.InterleavedBody | tests/GitWho2Blame.GitHub.Unit.Tests/GitHubContextProviderTests.cs:75-83 | the case's body lines are not headers |
| GitDiffParserExamples.OnlyAdditionsWith | tests/GitWho2Blame.GitHub.Unit.Tests/GitHubContextProviderTests.cs:12-21 | for any recogniser that reads the header and the body lines as the real one does, the case gives new lines 1 and 2 |
| GitDiffParserExamples.OnlyAdditions | tests/GitWho2Blame.GitHub.Unit.Tests/GitHubContextProviderTests.cs:12-21 | "Only additions" in the window 1..10 gives `(1, +line1)` and `(2, +line2)` |
| GitDiffParserExamples.OnlyDeletionsWith | tests/GitWho2Blame.GitHub.Unit.Tests/GitHubContextProviderTests.cs:22-31 | for any recogniser that reads the case as the real one does, it gives original lines 1 and 2 |
| GitDiffParserExamples.OnlyDeletions | tests/GitWho2Blame.GitHub.Unit.Tests/GitHubContextProviderTests.cs:22-31 | "Only deletions" gives `(1, -line1)` and `(2, -line2)`, even though the new count is 0 |
| GitDiffParserExamples.RenameWith | tests/GitWho2Blame.GitHub.Unit.Tests/GitHubContextProviderTests.cs:96-105 | for any recogniser that reads the case as the real one does, both lines are numbered 1, each on its side |
| GitDiffParserExamples.Rename | tests/GitWho2Blame.GitHub.Unit.Tests/GitHubContextProviderTests.cs:96-105 | "Rename with patch" gives `(1, -oldline)` and `(1, +newline)` |
| GitDiffParserExamples.EditHunkWith | tests/GitWho2Blame.GitHub.Unit.Tests/GitHubContextProviderTests.cs:35-44 | a hunk of one context, one deleted and two added lines numbers the deleted line original start + 1 and the added lines new start + 1 and + 2, for any starts whose lines fall in the test window 1..10 |
| GitDiffParserExamples.MultipleHunksWith | tests/GitWho2Blame.GitHub.Unit.Tests/GitHubContextProviderTests.cs:32-48 | two hunks are numbered each from its own header, for any recogniser that reads the case as the real one does |
| GitDiffParserExamples.MultipleHunks | tests/GitWho2Blame.GitHub.Unit.Tests/GitHubContextProviderTests.cs:32-48 | "Multiple hunks" gives lines 2, 2, 3 from the first hunk and 6, 7, 8 from the second, with their texts |
| GitDiffParserExamples.ContextLinesOnly | tests/GitWho2Blame.GitHub.Unit.Tests/GitHubContextProviderTests.cs:49-58 | "Context lines only" gives no line |
| GitDiffParserExamples.EndOfFileWith | tests/GitWho2Blame.GitHub.Unit.Tests/GitHubContextProviderTests.cs:59-70 | for any recogniser that reads the case as the real one does, the marker is passed over and both changes are numbered 2 |
| GitDiffParserExamples.EndOfFileMarkerCase | tests/GitWho2Blame.GitHub.Unit.Tests/GitHubContextProviderTests.cs:59-70 | "End-of-file marker" gives `(2, -line2)` and `(2, +line2_modified)` |
| GitDiffParserExamples.ContextStep | src/GitWho2Blame.Common/Helpers/GitDiffParser.cs:74-76 | in the test window 1..10, a context line reports nothing and moves the context count on |
| GitDiffParserExamples.DeletedStep | src/GitWho2Blame.Common/Helpers/GitDiffParser.cs:67-72 | in the test window 1..10, a deleted line is reported with number original start + deleted + context lines so far, and the deleted count moves on |
| GitDiffParserExamples.AddedStep | src/GitWho2Blame.Common/Helpers/GitDiffParser.cs:61-66 | in the test window 1..10, an added line is reported with number new start + added + context lines so far, and the added count moves on |
| GitDiffParserExamples.InterleavedWith | tests/GitWho2Blame.GitHub.Unit.Tests/GitHubContextProviderTests.cs:71-87 | for any recogniser that reads the case as the real one does, the pairs are numbered 5, 5 and 7, 7 |
| GitDiffParserExamples.Interleaved | tests/GitWho2Blame.GitHub.Unit.Tests/GitHubContextProviderTests.cs:71-87 | "Interleaved additions and deletions" gives `(5, -line5)`, `(5, +line5_changed)`, `(7, -line7)`, `(7, +line7_changed)` |
| GitDiffParserExamples.ZeroLengthWith | tests/GitWho2Blame.GitHub.Unit.Tests/GitHubContextProviderTests.cs:88-95 | a header with no body reports nothing |
| GitDiffParserExamples.ZeroLengthHunk | tests/GitWho2Blame.GitHub.Unit.Tests/GitHubContextProviderTests.cs:88-95 | "Zero-length hunk" gives no line |
| GitHubProvider.FirstMatchingFile | src/GitWho2Blame.GitHub/GitHubContextProvider.cs:87-88 | the index found is that of the first file whose name equals the path ignoring case; none is found when no file's name does |
| GitHubProvider.FindFile | src/GitWho2Blame.GitHub/GitHubContextProvider.cs:87-96 | a file is found exactly when some file of the commit has the path as its name, ignoring case, and it is one of them |
| GitHubProvider.CommitOutcome | src/GitWho2Blame.GitHub/GitHubContextProvider.cs:69-116 | a missing commit or file gives nothing. Otherwise the commit gives a summary exactly when its patch has a line in the window. The summary carries the listed commit's sha, author, message and date, and the patch's lines |
| GitHubProvider.GetCodeChanges | src/GitWho2Blame.GitHub/GitHubContextProvider.cs:29-120 | the loop over the listed commits returns, in order, the summary of every commit that gives one, and nothing for a missing or empty list |
| GitHubProvider.NoCommitsNoSummaries | src/GitWho2Blame.GitHub/GitHubContextProvider.cs:49-57 | a missing or empty commit list gives no summaries |
| GitHubProvider.SummariesComeFromCommits | src/GitWho2Blame.GitHub/GitHubContextProvider.cs:109-116 | every summary carries the identity of one listed commit and at least one line |
| GitHubProvider.ChangedCommitIsReported | src/GitWho2Blame.GitHub/GitHubContextProvider.cs:98-116 | every commit that gives a summary has it in the result |
| GitHubProvider.SummariesKeepCommitOrder | src/GitWho2Blame.GitHub/GitHubContextProvider.cs:65-117 | summaries follow commit order, at most one per commit |
| GitService.HunkEntries | src/GitWho2Blame.Git/GitService.cs:23-35 | every entry of a blame hunk lies in the window, is one of the hunk's lines, and carries the hunk's author, email, commit and date |
| GitService.GetBlameForLines | src/GitWho2Blame.Git/GitService.cs:12-41 | the nested loops return the entries of all hunks, hunk by hunk |
| GitService.HunkEntriesCount | src/GitWho2Blame.Git/GitService.cs:23-35 | a hunk gives one entry per line it shares with the window, in ascending line order |
| GitService.HunkEntriesMembership | src/GitWho2Blame.Git/GitService.cs:23-35 | an entry is produced exactly for each line of the hunk inside the window, with the hunk's signature |
| GitService.BlameEntriesInWindow | src/GitWho2Blame.Git/GitService.cs:21-38 | the blame gives as many entries as the hunks have lines in the window, and all of them are in the window |
| GitService.SegmentEnd | src/GitWho2Blame.Git/Helpers/RegexHelpers.cs:7 | `[^/]+` is greedy: the run of non-`/` characters ends at a `/` or at the end |
| GitService.OwnerAt | src/GitWho2Blame.Git/Helpers/RegexHelpers.cs:7 | a match at a position has `github.com/` there (any case), then a non-empty owner without `/`, then a `/` |
| GitService.OwnerAtExactly | src/GitWho2Blame.Git/Helpers/RegexHelpers.cs:7 | the converse as well: an owner is captured at a position exactly when that text stands there |
| GitService.OwnerFrom | src/GitWho2Blame.Git/Helpers/RegexHelpers.cs:7 | a captured owner is non-empty and holds no `/` |
| GitService.OwnerFromUrl | src/GitWho2Blame.Git/GitService.cs:54 | the same for the match on a whole URL |
| GitService.OwnerFromLeftmost | src/GitWho2Blame.Git/Helpers/RegexHelpers.cs:7 | the capture comes from the leftmost position where the pattern matches |
| GitService.OwnerFromNone | src/GitWho2Blame.Git/Helpers/RegexHelpers.cs:7 | no capture means the pattern matches nowhere |
| GitService.OwnerFromSkips | src/GitWho2Blame.Git/Helpers/RegexHelpers.cs:7 | positions where the pattern does not match do not change what is found |
| GitService.RepositoryOwner | src/GitWho2Blame.Git/GitService.cs:43-59 | no remote URL gives null; a URL the pattern does not match gives `Unknown`; otherwise the captured owner |
| CacheKey.FormatPart | src/GitWho2Blame.Cache/Helpers/CacheKeyGenerator.cs:10-17 | a date is formatted as fourteen digits; any other part as its text, or `""` when that text is null |
| CacheKey.IsWhiteSpace | src/GitWho2Blame.Cache/Helpers/CacheKeyGenerator.cs:8 | the characters `Trim` removes include space, tab, newline and carriage return, and never a digit, an ASCII letter or the separator `:` |
| CacheKey.DateStampFields | src/GitWho2Blame.Cache/Helpers/CacheKeyGenerator.cs:5 | the digit groups of `yyyyMMddHHmmss` read back as the date's year, month, day, hour, minute and second |
| CacheKey.Trim | src/GitWho2Blame.Cache/Helpers/CacheKeyGenerator.cs:8 | trimming never lengthens a part |
| CacheKey.TrimCutsOnlyWhiteSpace | src/GitWho2Blame.Cache/Helpers/CacheKeyGenerator.cs:8 | trimming removes white space at the two ends only, and what is left neither starts nor ends with white space |
| CacheKey.TrimKeepsTrimmed | src/GitWho2Blame.Cache/Helpers/CacheKeyGenerator.cs:8 | text without white space at its ends is unchanged |
| CacheKey.TrimIdempotent | src/GitWho2Blame.Cache/Helpers/CacheKeyGenerator.cs:8 | trimming twice trims nothing more |
| CacheKey.KeyParts | src/GitWho2Blame.Cache/Helpers/CacheKeyGenerator.cs:8 | one trimmed piece per part |
| CacheKey.GenerateKey | src/GitWho2Blame.Cache/Helpers/CacheKeyGenerator.cs:7-8 | no parts give the empty key, and a single part gives its own formatted, trimmed text with no separator |
| CacheKey.SplitKey | src/GitWho2Blame.Cache/Helpers/CacheKeyGenerator.cs:7-8 | for at least one part, when no part's text holds `:`, splitting the key at `:` gives back the trimmed parts, so distinct non-empty lists of trimmed part texts, none holding `:`, give distinct keys (no parts and one empty part both give the key `""`) |
| CacheKey.DatePartInKey | src/GitWho2Blame.Cache/Helpers/CacheKeyGenerator.cs:14 | a date's stamp is not changed by trimming |
| CacheKey.TaggedKey | src/GitWho2Blame.Cache/Helpers/CacheKeyGenerator.cs:7-8 | a key of a tag, a kind and further parts is `tag:kind:` followed by the join of the rest |
| CacheKey.KeyStartsWithTags | src/GitWho2Blame.Cache/Helpers/CacheKeyGenerator.cs:7-8 | such a key starts with `tag:kind:` |
| CacheKey.GitHubCommitKeys | src/GitWho2Blame.GitHub/GitHubContextProvider.cs:41 | the commit-list key starts with `github:commits:`, the prefix the unit test's cache mock expects (test line 193) |
| AzureDiffBlocks.SelectBlocks | src/GitWho2Blame.Azure/AzureGitContextProvider.cs:179-181 | a block is kept exactly when it changes something and one of its spans starts at or after `startLine` |
| AzureDiffBlocks.SelectBlocksAppend | src/GitWho2Blame.Azure/AzureGitContextProvider.cs:177-181 | the `Where` keeps the blocks' order: selecting from one list after another gives the two selections one after the other |
| AzureDiffBlocks.Selected | src/GitWho2Blame.Azure/AzureGitContextProvider.cs:177-181 | a block is kept exactly when it changes something and its span on at least one side starts at or after the window's first line |
| AzureDiffBlocks.StraddlingBlockDropped | src/GitWho2Blame.Azure/AzureGitContextProvider.cs:179-181 | a changed block that covers the window's first line on both sides but starts before it is dropped, although it overlaps the window |
| AzureDiffBlocks.RelevantChanges | src/GitWho2Blame.Azure/AzureGitContextProvider.cs:178-182 | every relevant block is selected |
| AzureDiffBlocks.RelevantChangesMembership | src/GitWho2Blame.Azure/AzureGitContextProvider.cs:178-182 | a block is relevant exactly when some file diff holds it and it is selected |
| AzureDiffBlocks.Range | src/GitWho2Blame.Azure/AzureGitContextProvider.cs:189 | `Enumerable.Range(start, count)` holds `count` numbers, exactly those from `start` below `start + count` |
| AzureDiffBlocks.Distinct | src/GitWho2Blame.Azure/AzureGitContextProvider.cs:190 | `Distinct` keeps exactly the same elements, each once |
| AzureDiffBlocks.DistinctKeepsDistinct | src/GitWho2Blame.Azure/AzureGitContextProvider.cs:190 | a sequence without repeats is unchanged |
| AzureDiffBlocks.Kinds | src/GitWho2Blame.Azure/AzureGitContextProvider.cs:185 | the `GroupBy` keys are the blocks' change kinds, each once |
| AzureDiffBlocks.ExpandedMembership | src/GitWho2Blame.Azure/AzureGitContextProvider.cs:188-189 | a line is in a kind's expansion exactly when a block of that kind covers it on that side |
| AzureDiffBlocks.LinesByType | src/GitWho2Blame.Azure/AzureGitContextProvider.cs:184-202 | one entry per kind |
| AzureDiffBlocks.LinesByTypeKeys | src/GitWho2Blame.Azure/AzureGitContextProvider.cs:184-202 | both maps have the same keys, in the same order, each once, and a kind is a key exactly when some block has it |
| AzureDiffBlocks.LinesByTypeContents | src/GitWho2Blame.Azure/AzureGitContextProvider.cs:184-202 | each entry holds, without repeats, exactly the lines that its kind's blocks cover on its side |
| AzureDiffBlocks.KindOf | src/GitWho2Blame.Azure/AzureGitContextProvider.cs:310-313 | a lookup answer other than `None` is the key of an entry that holds the line |
| AzureDiffBlocks.KindOfFirstMatch | src/GitWho2Blame.Azure/AzureGitContextProvider.cs:312-313 | the lookup answers with the key of the first entry that holds the line |
| AzureDiffBlocks.KindOfNoMatch | src/GitWho2Blame.Azure/AzureGitContextProvider.cs:312-313 | with no entry holding the line, the lookup falls back to `None`; otherwise it gives the key of an entry that holds it |
| AzureDiffBlocks.KindOfRelevant | src/GitWho2Blame.Azure/AzureGitContextProvider.cs:178-202 | a line's kind is `None` exactly when no relevant block covers it on that side; otherwise it is the kind of a relevant block that covers it |
| AzureContent.Handle | src/GitWho2Blame.Azure/AzureGitContextProvider.cs:268-289 | the parent side keeps exactly the deleted and edited lines, as `-` lines; the current side keeps exactly the added and edited lines, as `+` lines. The line number is kept |
| AzureContent.ReadUpTo | src/GitWho2Blame.Azure/AzureGitContextProvider.cs:306-328 | every collected line is numbered from 1 within the lines read and lies in the window |
| AzureContent.ReadPastWindow | src/GitWho2Blame.Azure/AzureGitContextProvider.cs:322-325 | lines after `endLine` add nothing, so stopping there loses nothing |
| AzureContent.ParseContent | src/GitWho2Blame.Azure/AzureGitContextProvider.cs:295-331 | the reading loop, with its early `break`, collects what reading the whole snapshot collects |
| AzureContent.ReadUpToMembership | src/GitWho2Blame.Azure/AzureGitContextProvider.cs:306-320 | a line is collected exactly when it is a line of the snapshot in the window and the handler keeps it under the kind the lookup gives |
| AzureContent.ContentMembership | src/GitWho2Blame.Azure/AzureGitContextProvider.cs:295-331 | the same for the whole snapshot |
| AzureContent.ReadUpToAscending | src/GitWho2Blame.Azure/AzureGitContextProvider.cs:306-327 | the collected lines come in strictly ascending order |
| AzureContent.ContentAscending | src/GitWho2Blame.Azure/AzureGitContextProvider.cs:306-327 | the same for the whole snapshot |
| AzureMerge.RunEnd | src/GitWho2Blame.Azure/AzureGitContextProvider.cs:366 | a run ends at the first line not numbered one past its predecessor, or at the end |
| AzureMerge.MergeFrom | src/GitWho2Blame.Azure/AzureGitContextProvider.cs:338-351 | the merge holds as many lines as both sides have left |
| AzureMerge.AddConsecutiveLines | src/GitWho2Blame.Azure/AzureGitContextProvider.cs:356-370 | copies the whole run that starts at the line index into the result and advances both indices past it; the rest of the array is untouched |
| AzureMerge.MergeChanges | src/GitWho2Blame.Azure/AzureGitContextProvider.cs:333-354 | filling the array side by side and run by run gives the merge of the two sides |
| AzureMerge.MergeFromInterleaves | src/GitWho2Blame.Azure/AzureGitContextProvider.cs:338-351 | what is left to merge is an interleaving of what both sides have left |
| AzureMerge.MergeInterleaves | src/GitWho2Blame.Azure/AzureGitContextProvider.cs:333-354 | the merge returns every line of both sides, each side in its own order (its length is stated by `AzureMerge.MergeFrom`) |
| AzureMerge.InterleavingIsPermutation | src/GitWho2Blame.Azure/AzureGitContextProvider.cs:333-354 | an interleaving drops and duplicates nothing |
| AzureMerge.MergeIsPermutation | src/GitWho2Blame.Azure/AzureGitContextProvider.cs:333-354 | the merged lines are exactly those of both sides, with multiplicity |
| AzureMerge.MergeStartsWithChosenRun | src/GitWho2Blame.Azure/AzureGitContextProvider.cs:340-350 | the first run comes from the parent side when the current side is empty or its head is not smaller, and from the current side otherwise |
| AzureMerge.MergeWithEmptySide | src/GitWho2Blame.Azure/AzureGitContextProvider.cs:338-351 | with one side empty, the merge is the other side unchanged |
| AzureMerge.MergeKeepsRunsAheadOfOrder | src/GitWho2Blame.Azure/AzureGitContextProvider.cs:343-346 | the merge is not sorted: a parent run 1, 2, 3 goes whole ahead of the current side's line 2 |
| AzureProvider.FindRepository | src/GitWho2Blame.Azure/AzureGitContextProvider.cs:55 | a repository is found exactly when one has the requested name ignoring case; the one found has that name and no repository before it does |
| AzureProvider.FirstMatchingRepository | src/GitWho2Blame.Azure/AzureGitContextProvider.cs:55 | the index `FirstOrDefault` stops at: its name matches ignoring case and no earlier one does; no index when none matches |
| AzureProvider.GetChangedLines | src/GitWho2Blame.Azure/AzureGitContextProvider.cs:255-293 | the parent snapshot read with the deletion handler, merged with the current snapshot read with the addition handler |
| AzureProvider.ChangedLinesMembership | src/GitWho2Blame.Azure/AzureGitContextProvider.cs:255-293 | a line is reported exactly when it is a deletion read from the parent snapshot or an addition read from the current one, inside the window |
| AzureProvider.ChangedLinesCount | src/GitWho2Blame.Azure/AzureGitContextProvider.cs:291 | the number of reported lines is the number of lines both sides keep; this follows from the length postcondition of `AzureMerge.MergeFrom` |
| AzureProvider.CommitOutcome | src/GitWho2Blame.Azure/AzureGitContextProvider.cs:98-226 | a missing commit, no parent, missing or empty content on either side, or no diff give nothing. Otherwise the commit gives a summary exactly when some line changed in the window. The summary carries the commit's id, author, comment and date, and the merged lines |
| AzureProvider.SummarizeCommit | src/GitWho2Blame.Azure/AzureGitContextProvider.cs:98-226 | one pass of the loop, with its `continue`s, computes that outcome |
| AzureProvider.GetCodeChanges | src/GitWho2Blame.Azure/AzureGitContextProvider.cs:35-230 | no repositories or no commits give no summaries; an unknown repository fails; otherwise the summaries of the commits in order |
| AzureProvider.FailsOnlyForUnknownRepository | src/GitWho2Blame.Azure/AzureGitContextProvider.cs:49-59 | the request fails exactly when there are repositories and none has the requested name |
| AzureProvider.SummariesComeFromCommits | src/GitWho2Blame.Azure/AzureGitContextProvider.cs:219-226 | every summary carries the id and detail of one listed commit that has a parent, and at least one line |
| AzureProvider.SummariesKeepCommitOrder | src/GitWho2Blame.Azure/AzureGitContextProvider.cs:95-227 | summaries follow commit order |
| AzureProvider.ParentlessCommitSkipped | src/GitWho2Blame.Azure/AzureGitContextProvider.cs:114-121 | a commit without parents gives no summary |

## Left out

- All I/O is outside the model: the GitHub and Azure DevOps clients, LibGit2Sharp, the memory cache, logging, cancellation and `async`. Their results are inputs. `CacheKey` models the keys, but the caching itself (`GetOrAddAsync`, the cache durations) is not part of this model.
- The commit query (`since`, the item path, `GetAll` and `GetCommitsAsync` criteria) is not modelled. The commit list is an input.
- Decoding file bytes (`GetItemContentBytesAsync`, `StreamReader`, byte-order marks, `\r\n` endings) is not modelled. A snapshot is a sequence of lines.
- `Environment.NewLine` is a single character parameter of `ParsePatch`. A two-character newline is not modelled.
- `\d` and `OrdinalIgnoreCase` cover ASCII only. Other Unicode digits and case mappings are not modelled.
- Numbers are unbounded. The `OverflowException` of `int.Parse` on very long digit runs, and 32-bit overflow of the line counters, are not modelled.
- A null `Patch` (binary files) is not modelled. It would make the source throw in `Split`.
- `Enumerable.Range` with a negative count throws in the source. Block counts are `nat` here.
- Dates are field tuples with field ranges. Calendar validity (30 February) and sub-second parts are not modelled.
- CacheKey.FormatPart: always writes the Gregorian year, month and day. `DateTime.ToString` formats with the current culture's calendar, so under a culture such as th-TH the year 2024 is written 2567; the model does not capture this.
- AzureProvider.CommitOutcome: treats a snapshot as empty when it has no lines, while the source tests for zero bytes. A snapshot holding only a UTF-8 byte-order mark has 3 bytes and no lines. The source keeps such a commit and still reports the other side's lines; the model drops the whole commit. Bytes and their decoding are not modelled.
- A null part passed to `GenerateKey` makes the source throw. It is not modelled; a part whose `ToString()` is null is.
- The Azure "repository not found" exception is the `Failure(RepositoryNotFound)` result.
- Dictionaries are association lists in first-appearance order, the order `GroupBy` creates them in. The lookup's `FirstOrDefault` relies on that enumeration order.
- `ParseContent`'s line handler is chosen by the `Side` value instead of being passed as a delegate.
- The parser's specification and loops take the header recogniser as a function parameter. `ParsePatch` passes the real one, `HeaderOf`.
- The inner hunk loop is a separate method, `ReadHunkBody`. The `i--` / `i++` step between the two loops is kept.
- `LocalGitContextProvider` is not part of this model.
- There is no worked URL example for the owner pattern. The general match lemmas stand in for one.
- Text.Join: states only the length bound; what a join is made of is stated by `SplitJoin`, `JoinSplit` and `TaggedKey`.
- CacheKey.Trim: states only that trimming does not lengthen; what it removes is stated by `TrimCutsOnlyWhiteSpace`.
