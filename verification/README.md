# CheckstyleInterface, modelled in Dafny

CheckstyleInterface runs Checkstyle on the Java files of a project. It can
limit the run to the lines a git diff changed. Then it either gives an exit
code (batch mode) or opens a Tk window. In the window the user reviews each
finding, marks findings as ignored, refreshes, and continues or cancels. The
exit code of the window is what the git hook sees.

This project models the in-memory logic of that pipeline and proves what it
promises.

- `Wrappers.dfy`: `Option` and `Result`.
- `Seqs.dfy`: the stable filter used by every list comprehension of the
  source, with its lemmas.
- `Text.dfy`: the Python string built-ins the code relies on: `lower` and
  `title` (on ASCII letters), `strip` (on Python's whitespace characters),
  `int()` and `%d`.
- `Diagnostics.dfy`: a finding (`CheckstyleError`), its content identity
  (`__eq__`), and the four cells it shows (`getItemValuesFromError`).
- `DiffScan.dfy`: the scan of `git diff --unified=0` output in
  `getChangedLines`. It is a two-state machine, written as a step function
  and as the loop that runs it.
- `Analysis.dfy`:
  - the mapping from report attributes to findings (`checkstyleErrorsFromXml`);
  - the changed-line filter of `runCheckstyle`;
  - the batch-mode exit code;
  - the assembly of the files to analyse (`getFilesList`).
- `Review.dfy`: the pure logic behind the review window:
  - which findings are listed and which are hidden;
  - the label counts;
  - the confirmation on "Continue";
  - the "Ignore all"/"Unignore all" button states;
  - the flag changes of the four ignore buttons;
  - the carrying of flags over a refresh.
- `Application.dfy`: the window itself (`Application`), as a class.
  - Its fields are the findings held in `dCheckstyleErrors` (split into
    listed and hidden), the drawn rows, the selection, the "Show ignored"
    box, `bUnignore`, the button states, the label counts, the exit code and
    whether the window is open.
  - Each event handler is a method.
  - Every handler keeps the invariant `Valid()`: the rows, buttons and labels
    agree with the findings.
- `Util.dfy`:
  - `findAll`;
  - the change detector `CallbackWrapper`;
  - the Tk variable `tkVar` wires to it.

The opaque parts of the platform are parameters of the model:
- `os.path.abspath`, `os.path.join` and `os.path.normcase`;
- `html.unescape`;
- `isfile`, `isdir`, `os.walk` and `isJavaFile`.

The model also takes as inputs the answer of the confirmation dialog, the
diff's lines, and the findings Checkstyle reports.

Behaviour of the code that the model keeps:
- A finding in a file that is not a key of `dFiles` makes `dFiles[...]`
  raise `KeyError` (main.py:158). The loop stops there, and the model
  returns `Failure(OutOfScopeFile(path))` (`Analysis.ScanReport`).
- `runCheckstyle` draws the findings from a generator one at a time
  (main.py:157-160). An `<error>` element after the first out-of-scope
  finding is never read, and a finding the filter drops is never asked for
  its severity. The model reads them in that order
  (`Analysis.OutOfScopeBeforeMalformed`,
  `Analysis.DroppedFindingNeedsNoSeverity`).
- On refresh, `list.index` makes the *first* content-equal old finding give
  its flag (application.py:230). `Review.RefreshMergesDuplicateFlags` shows
  what this does to duplicates.
- A new finding with no content-equal old finding keeps its own flag
  (application.py:229-233).
- The scan of the diff has two states, a current file or none
  (main.py:260-266).
- Only hunk headers add lines (`DiffScan.NonHunkLineKeepsMap`), but any line
  starting with `+++ b/` moves the current file, even an added line of a
  hunk body whose text starts with `++ b/` (main.py:262-264).
- The severity is free text, compared after `lower()` (main.py:49,
  application.py:269). It is not an enumeration.

## Model

| member | source | states |
|---|---|---|
| Text.LowerTitle | checkstyleinterface/application.py:61 | title-casing a severity and lower-casing it again gives the lower-cased severity, so the severity cell still identifies the severity |
| Text.TrimStart | checkstyleinterface/main.py:264 | the left half of `strip()` removes only whitespace, from the front, and leaves a text that does not start with whitespace |
| Text.TrimEnd | checkstyleinterface/main.py:264 | the right half of `strip()` removes only whitespace, from the back, and leaves a text that does not end with whitespace |
| Text.Strip | checkstyleinterface/main.py:264 | `strip()` gives the slice of its input left once the whitespace before and after it is removed: a text that neither starts nor ends with whitespace |
| Text.StripUnchanged | checkstyleinterface/main.py:264 | a path without surrounding whitespace is left as it is |
| Text.IntRoundTrip | checkstyleinterface/main.py:171-172 | `int()` reads back every number written with `%d`, negative ones included |
| Diagnostics.SameContentIsEquivalence | checkstyleinterface/application.py:49-57 | content identity (`SameContent`, the `__eq__` test) is reflexive, symmetric and transitive, and two findings that differ only in their ignored flag are equal |
| Diagnostics.SameContentUpToSpelling | checkstyleinterface/application.py:49-57 | identity ignores the flag, the spelling of a path with the same normal form, and the case of the severity |
| Diagnostics.ItemValuesShowRecord | checkstyleinterface/application.py:60-63 | the cells `ItemValues` gives show the severity, wrapped in "Ignored (...)" when ignored, then the category, then "file at line:column" with numbers that read back, then the message |
| Diagnostics.SeverityCell | checkstyleinterface/application.py:61-62 | lower-cased, the severity cell is the lower-cased severity, or "ignored (severity)" for an ignored finding |
| DiffScan.UpToNewline | checkstyleinterface/main.py:245 | what `(.*)` captures is the longest prefix of the line without a line feed |
| DiffScan.MatchNewFile | checkstyleinterface/main.py:245 | the file pattern matches iff the line starts with `+++ b/`, and captures the text after it up to the end of the line |
| DiffScan.MatchHunk | checkstyleinterface/main.py:247 | the hunk pattern matches only lines starting with `@@ -`; what it reads from a header is stated by `HunkHeaderRoundTrip` |
| DiffScan.HunkHeaderRoundTrip | checkstyleinterface/main.py:247 | on any header `@@ -a[,b] +c[,d] @@` the hunk pattern gives the new-side start c and count d, with d defaulting to 1, whatever follows the header |
| DiffScan.NumberOf | checkstyleinterface/main.py:247 | each `\d+` of the hunk pattern reads back a numeral written by `%d`, when what follows is not a digit, and leaves exactly what follows |
| DiffScan.CountOf | checkstyleinterface/main.py:247 | each optional `,\d+` group, with the literal after it, reads back a count as diff writes it, or its absence, and leaves what follows |
| DiffScan.OldSideOf | checkstyleinterface/main.py:247 | the old side `-a[,b] +` of a header is consumed whatever its numbers, so they never reach the result |
| DiffScan.NewSideOf | checkstyleinterface/main.py:247 | the new side `c[,d] @@` gives start c and count d, and 1 when d is omitted |
| DiffScan.HunkIsNotFileHeader | checkstyleinterface/main.py:262-268 | a hunk header matches neither the new-file nor the /dev/null pattern, so the order of the tests does not matter for it |
| DiffScan.Range | checkstyleinterface/main.py:274 | `range(c, c + d)` is the d consecutive line numbers starting at c |
| DiffScan.Step | checkstyleinterface/main.py:262-274 | one line of the scan never removes a file or shortens a list, changes no list but the current file's, and adds a file only with at least one line |
| DiffScan.HunkAppendsRange | checkstyleinterface/main.py:267-274 | in a tracked file, a hunk of count d > 0 appends exactly c, ..., c+d-1 to that file's list, creating the key if needed, and changes no other file |
| DiffScan.HunkHeaderStep | checkstyleinterface/main.py:267-274 | the step on a rendered hunk header, with d defaulting to 1: it extends the current file's list when d > 0 and leaves the state alone otherwise |
| DiffScan.ZeroCountHunkIgnored | checkstyleinterface/main.py:271-274 | a hunk with new-side count 0 changes nothing, not even the set of keys |
| DiffScan.DevNullDetaches | checkstyleinterface/main.py:265-266 | `+++ /dev/null` (`MatchDevNull`) clears the current file and keeps the map |
| DiffScan.NewFileTracks | checkstyleinterface/main.py:262-264 | `+++ b/<path>` makes the resolved, stripped path the current file and keeps the map |
| DiffScan.FileHeaderStep | checkstyleinterface/main.py:262-264 | for a plain path, the header line makes that path, resolved against the folder, the current file |
| DiffScan.OtherLineIgnored | checkstyleinterface/main.py:261-269 | a line starting with neither '+' nor '@' (`---` headers, removed lines, context lines) changes nothing |
| DiffScan.NonHunkLineKeepsMap | checkstyleinterface/main.py:260-269 | any line that is not a hunk header, added and removed lines of a hunk body included, leaves the map as it is |
| DiffScan.NonHunkLinesKeepMap | checkstyleinterface/main.py:260-274 | a run of lines none of which is a hunk header leaves the map as it is |
| DiffScan.UnattributedLinesIgnored | checkstyleinterface/main.py:260-269 | before any `+++ b/` line, hunk headers and all other lines leave the map unchanged |
| DiffScan.ScanSplit | checkstyleinterface/main.py:261 | `Scan`, the loop over the lines, on two pieces of output one after the other is the scan of their concatenation |
| DiffScan.ScanOnlyAppends | checkstyleinterface/main.py:273-274 | the scan never removes a file or shortens a list: each earlier list is a prefix of the later one |
| DiffScan.ScanNewKeysNonEmpty | checkstyleinterface/main.py:272-274 | every file the scan adds to the map has at least one changed line, because `setdefault` sits inside the count test |
| DiffScan.HunksAppend | checkstyleinterface/main.py:270-274 | in a tracked file, a run of hunk headers appends their ranges, in diff order, to that file's list, with no sorting and no removal of duplicates |
| DiffScan.FilePartScan | checkstyleinterface/main.py:261-274 | one file's part of a diff, its `---`/`+++ b/` pair and its hunk headers, makes that file current and appends the lines its hunks add, in order |
| DiffScan.ScanUnrolled | checkstyleinterface/main.py:261-274 | a run of steps from one state to the next is what the scan computes |
| DiffScan.FixtureDiff | checkstyleinterface/tests/test_misc.py:37-43 | a commit-mode diff built to give the three lists the test expects (a one-line change, a new 16-line file with `@@ -0,0 +1,16 @@`, a deleted file, and a file with four hunks; the hunks of the commit the test reads are not in the repository) gives [1], 1 to 16, and [1, 3, 5, 6], and no other key |
| DiffScan.ScanFolderDiff | checkstyleinterface/main.py:260-274 | the loop over one folder's output gives the scan of those lines from "no current file" |
| DiffScan.GetChangedLines | checkstyleinterface/main.py:244-276 | the loop over the folders runs each folder's scan on the map the previous folders built, and every list in the result is non-empty |
| DiffScan.ChangedListsNonEmpty | checkstyleinterface/main.py:244-276 | over several folders (`ChangedLinesFrom`) a file keeps its key once it has one, and no list is ever empty |
| Analysis.LastSegment | checkstyleinterface/main.py:174 | `split(".")[-1]` is the suffix of the source after its last dot, or all of it when it has none, and it has no dot |
| Analysis.LastSegmentOfQualified | checkstyleinterface/main.py:174 | the category of a qualified check name `package.Name` is `Name` |
| Analysis.ReadInt | checkstyleinterface/main.py:171-172 | reading a number succeeds exactly when the attribute is present and `int()` accepts it, and gives that number |
| Analysis.ReadError | checkstyleinterface/main.py:169-175 | the generator yields for an `<error>` element iff it is readable: a file name, a line `int()` accepts, a column it accepts when present, a source and a message. The path is the absolute file name, the line the parsed number, and a missing severity is kept as none |
| Analysis.Complete | checkstyleinterface/main.py:49 | reading a yielded finding's severity fails iff it has none, with the missing-severity fault; otherwise the finding keeps its file and line and is not ignored |
| Analysis.ErrorFromAttributes | checkstyleinterface/main.py:169-175 | an `<error>` element gives a complete finding iff it is well formed: readable, with a severity |
| Analysis.ErrorFromAttributesSpec | checkstyleinterface/main.py:165-175 | a complete finding is made exactly when the attributes are well formed. It is not ignored; its path is the absolute file name; its line and column are the parsed numbers, with column 0 when absent; the severity is copied; the category has no dot; the message is unescaped |
| Analysis.ErrorFromAttributesExact | checkstyleinterface/main.py:169-175 | any finding whose fields agree with the attributes is the one the mapping gives |
| Analysis.AttributesRoundTrip | checkstyleinterface/main.py:169-175 | the attributes Checkstyle writes for a finding map back to that finding, except that the column becomes 0 when the attribute is left out |
| Analysis.MapAllSpec | checkstyleinterface/main.py:168-176 | the loop over `<error>` nodes succeeds iff every node maps. It then has one finding per node, in order. Otherwise it fails with the first failing node's fault |
| Analysis.ConcatAllFrom | checkstyleinterface/main.py:166-176 | every finding of the report comes from one of its `<file>` nodes |
| Analysis.ConcatAllAppend | checkstyleinterface/main.py:166-176 | the findings of consecutive parts of the report are concatenated in document order |
| Analysis.ErrorsFromFileSpec | checkstyleinterface/main.py:166-176 | the `<error>` children of a `<file>` node (`ErrorsFromFile`) give findings iff every one is well formed, which needs a file name only when there is one. It then gives one finding per `<error>` node, none of them ignored |
| Analysis.ErrorsFromReportAppend | checkstyleinterface/main.py:166-176 | the findings of a whole report (`ErrorsFromReport`) are those of each `<file>` node in document order |
| Analysis.ErrorsFromReportNotIgnored | checkstyleinterface/main.py:169-176 | no finding read from a report is ignored |
| Analysis.FirstUnknownFile | checkstyleinterface/main.py:157-158 | over findings already read, the first whose file is not a key of the scope, where `dFiles[...]` raises, or none when every file is a key |
| Analysis.KeepInScope | checkstyleinterface/main.py:156-160 | over findings already read, the filter fails iff some finding's file is not in scope, with a `KeyError`-like fault naming a path not in scope; otherwise it keeps only findings in scope (`InScope`) |
| Analysis.ScanReport | checkstyleinterface/main.py:157-160 | the loop over the draws succeeds iff every draw yields a finding whose file is a key of `dFiles`, and then keeps only findings whose line is covered |
| Analysis.ScanReportFirstFault | checkstyleinterface/main.py:157-160 | the loop fails with the fault of the first draw it cannot get past: the generator's own fault, or `KeyError` for the file |
| Analysis.FilterToScope | checkstyleinterface/main.py:156-162 | the loop that draws from the generator and appends kept findings computes `ScanReport` |
| Analysis.FilterToScopeExact | checkstyleinterface/main.py:158-160 | a finding is kept (`InScope`) iff its file maps to "all lines" or its line is in the file's list |
| Analysis.WholeFilesKeepEverything | checkstyleinterface/main.py:158-159 | when every finding's file is analysed whole, the filter keeps all findings in their order |
| Analysis.RunCheckstyleInScope | checkstyleinterface/main.py:125-162 | whatever `RunCheckstyle` returns is in scope and not ignored |
| Analysis.ScanAgrees | checkstyleinterface/main.py:157-160 | on draws that all yield complete findings, the lazy loop fails exactly as the filter over the findings read first does, and otherwise keeps the same findings |
| Analysis.GeneratedWellFormed | checkstyleinterface/main.py:165-176 | when every element of the report is well formed, the generator yields, one by one, the findings the report holds |
| Analysis.RunCheckstyleEager | checkstyleinterface/main.py:125-162 | for a report with no malformed element, `runCheckstyle` gives what filtering the findings read first would give |
| Analysis.OutOfScopeBeforeMalformed | checkstyleinterface/main.py:157-172 | a finding in a file not in scope, followed by an element whose line is not a number, ends `runCheckstyle` with `KeyError`; reading the whole report first would fail on the line instead |
| Analysis.DroppedFindingNeedsNoSeverity | checkstyleinterface/main.py:157-173 | a finding without a severity on a line out of scope is dropped, and `runCheckstyle` succeeds with nothing; reading the whole report first would fail on the severity |
| Analysis.BatchExitCode | checkstyleinterface/main.py:49-50 | the batch exit code is 0 or 1 |
| Analysis.BatchExitCodeSpec | checkstyleinterface/main.py:49-50 | batch mode exits with 1 iff some finding has severity "error" in any case |
| Analysis.WarningsDoNotFail | checkstyleinterface/main.py:49-50 | findings that are all warnings give exit code 0 |
| Analysis.AddWholeSpec | checkstyleinterface/main.py:191-196 | after `AddWhole`, a path is in the scope iff it was before or it is given and accepted. A given, accepted path maps to "all lines", and others keep their entry |
| Analysis.AddWalkedSpec | checkstyleinterface/main.py:198-209 | the walk (`AddWalked`) adds exactly the Java files found under readable folders (recursively or not), each as "all lines", and keeps other entries |
| Analysis.FilesListSpec | checkstyleinterface/main.py:187-221 | a path is in `dFiles` (`FilesList`) iff it is a readable given file, a walked Java file, or a Java file from git. It maps to its changed lines when it came from git in lines-only mode (`AddChangedLines`), and to "all lines" otherwise |
| Analysis.ChangedLinesOverride | checkstyleinterface/main.py:211-214 | in lines-only mode a changed Java file maps to its changed lines even when `-f` or `-d` already added it whole |
| Analysis.GetFilesList | checkstyleinterface/main.py:187-221 | the loops that fill `dFiles` compute `FilesList` |
| Analysis.AddExplicitFiles | checkstyleinterface/main.py:191-196 | the loop over the explicit files computes `AddWhole` over their absolute paths, so exactly the existing files enter, as "all lines" |
| Analysis.AddFolders | checkstyleinterface/main.py:198-209 | the loop over the folders computes `AddWalked`: the Java files of each existing folder's walk enter, as "all lines" |
| Analysis.AddChanged | checkstyleinterface/main.py:211-214 | the loop over git's changed lines computes `AddChangedLines`: each changed Java file gets its lines, replacing any earlier entry |
| Analysis.AddJavaFiles | checkstyleinterface/main.py:216-218 | the loop over the changed files adds the Java ones as "all lines" |
| Review.ListedHiddenPartition | checkstyleinterface/application.py:156-161 | a finding is listed (`Listed`) iff the box is ticked or it is not ignored. It is hidden (`Hidden`) iff neither holds. Together the two lists hold exactly the input, as a multiset |
| Review.ShowIgnoredListsAll | checkstyleinterface/application.py:155-159 | with the box ticked every finding is listed, in order, and none is hidden |
| Review.RepopulateIsStable | checkstyleinterface/application.py:164-165 | repopulating from the held findings lists and hides the same findings again |
| Review.ListingOfPartition | checkstyleinterface/application.py:156-161 | findings already split by the rule, listed first and hidden after, are split back into the same two lists |
| Review.SeverityCountsSpec | checkstyleinterface/application.py:268-276 | the label numbers (`SeverityCounts`) count the findings of that severity that are not ignored and those that are, and the two add up to all findings of that severity |
| Review.SeverityCounts | checkstyleinterface/application.py:268-276 | the two numbers of a label together never exceed the number of findings held |
| Review.LabelTextReadsBack | checkstyleinterface/application.py:271-276 | the label reads "Title: n (and m ignored)", and both numbers read back |
| Review.NeedsConfirmationSpec | checkstyleinterface/application.py:177-178 | "Continue" asks for confirmation (`NeedsConfirmation`) iff some finding is an error and not ignored |
| Review.NeedsConfirmationMatchesLabel | checkstyleinterface/application.py:177-178 | it asks iff the errors label shows a non-zero first number |
| Review.ByFlagSpec | checkstyleinterface/application.py:264 | the dictionary keyed by the flag (`ByFlag`) has a key iff some finding has that flag, and maps it to such a finding |
| Review.AllButtonsSpec | checkstyleinterface/application.py:264-266 | "Ignore all" is enabled iff some finding is not ignored, and "Unignore all" iff some finding is ignored |
| Review.SetEvery | checkstyleinterface/application.py:215-223 | "Ignore all" and "Unignore all" give every finding the flag and change nothing else |
| Review.SetAt | checkstyleinterface/application.py:203-206 | "Ignore" sets the flag of the selected positions only and changes nothing else |
| Review.SetInCategories | checkstyleinterface/application.py:208-213 | "Ignore category" sets the flag of exactly the findings in the chosen categories and changes nothing else |
| Review.IgnoreAllEffects | checkstyleinterface/application.py:215-218 | after "Ignore all", "Continue" needs no confirmation and "Ignore all" is disabled |
| Review.IgnoreAllCounts | checkstyleinterface/application.py:215-218 | after "Ignore all" each label shows 0, with every finding of its severity counted as ignored |
| Review.UnignoreAllEffects | checkstyleinterface/application.py:220-223 | after "Unignore all", "Unignore all" is disabled, and "Continue" asks iff some finding is an error |
| Review.SameFindingsSeverity | checkstyleinterface/application.py:203-223 | changing flags never changes how many findings have a given severity |
| Review.CategoryCoversSelection | checkstyleinterface/application.py:208-213 | "Ignore category" does to each selected finding what "Ignore" does |
| Review.UnignoreUndoesIgnore | checkstyleinterface/application.py:203-206 | unignoring a selection of non-ignored findings after ignoring it restores the findings |
| Review.SetEveryFlag | checkstyleinterface/application.py:215-223 | the loop over the held findings computes `SetEvery` |
| Review.SetCategoryFlags | checkstyleinterface/application.py:209-212 | the loop over the held findings computes `SetInCategories` |
| Review.FirstMatch | checkstyleinterface/application.py:229-232 | `list.index`: the lowest position of an old finding equal in content, or none when there is none |
| Review.CarryOver | checkstyleinterface/application.py:228-233 | a new finding keeps its content; it takes the flag of the first old finding equal to it, and stays as it is when none is |
| Review.Reconciled | checkstyleinterface/application.py:225-234 | the refreshed findings are the new ones in their order, each with its content |
| Review.IndexOf | checkstyleinterface/application.py:230 | the search loop finds what `FirstMatch` specifies |
| Review.ReconciledSpec | checkstyleinterface/application.py:225-234 | a refresh keeps the new findings in their order and their content. Each takes the flag of the first old finding equal to it, and one with no equal is unchanged |
| Review.RefreshDropsVanished | checkstyleinterface/application.py:226-234 | an old finding with no equal among the new ones does not reappear |
| Review.ReconciledIdempotent | checkstyleinterface/application.py:228-234 | carrying the flags over twice is carrying them over once |
| Review.FirstMatchIgnoresFlag | checkstyleinterface/application.py:230 | which old finding matches does not depend on the flag of the new one |
| Review.Unflagged | checkstyleinterface/tests/util.py:57-65 | the findings as a fresh run reports them: the same content, none ignored |
| Review.RefreshUnchangedKeepsFlags | checkstyleinterface/application.py:225-234 | refreshing with an unchanged report restores every flag, provided equal findings had equal flags |
| Review.RefreshMergesDuplicateFlags | checkstyleinterface/application.py:228-233 | with two equal old findings, one ignored and one not, both new copies take the first one's flag |
| Review.CarryOverFlags | checkstyleinterface/application.py:228-233 | the refresh loop computes `Reconciled` |
| App.SetSelectedFlags | checkstyleinterface/application.py:204-205 | the loop over the selected items sets the flag of exactly the selected rows |
| App.Application.constructor | checkstyleinterface/application.py:82-95 | the exit code is the batch-mode code. The window opens iff some finding is an error, and then lists and hides them as the unticked box says. The view invariant holds |
| App.Application.PopulateView | checkstyleinterface/application.py:154-162 | the findings are listed or hidden as the box says, the selection is empty, and rows, buttons and labels show them |
| App.Application.Repopulate | checkstyleinterface/application.py:164-165 | the held findings are split again by the box, and the view is redrawn |
| App.Application.DoUpdateView | checkstyleinterface/application.py:236-244 | after the redraw, rows, buttons and labels agree with the findings and the selection, and `bUnignore` changes only when one row is selected |
| App.Application.UpdateControls | checkstyleinterface/application.py:243-244 | after the buttons and the labels are redone they agree with the findings and the selection |
| App.Application.DrawRows | checkstyleinterface/application.py:237-242 | every listed row shows its finding's cells and its tag (`RowsOf`, `Tag`), the lower-cased severity plus ".ignored" when ignored |
| App.Application.ConfigureIgnoreButtons | checkstyleinterface/application.py:246-266 | "Ignore" is enabled iff something is selected, and a single selection sets `bUnignore` to its flag. The two "all" buttons follow the findings |
| App.Application.UpdateLabels | checkstyleinterface/application.py:268-276 | the labels hold the non-ignored and ignored counts of errors and of warnings |
| App.Application.UpdateView | checkstyleinterface/application.py:167-171 | the view invariant is restored. With the box unticked the findings are split again and the selection cleared; with it ticked only the view is redrawn and the selection kept. `bUnignore` changes only when one row is selected |
| App.Application.OnViewClicked | checkstyleinterface/application.py:189-190 | the chosen rows become the selection, the view invariant holds, and `bUnignore` changes only when exactly one row is chosen |
| App.Application.OnIgnore | checkstyleinterface/application.py:203-206 | the selected findings get the flag `not bUnignore`. Then listed and hidden findings are those of the changed collection; the selection is kept iff the box is ticked, and `bUnignore` changes only when one row stays selected |
| App.Application.OnIgnoreCategory | checkstyleinterface/application.py:208-213 | every held finding, hidden ones included, in a selected finding's category gets the flag `not bUnignore`; the selection is kept iff the box is ticked, and `bUnignore` changes only when one row stays selected |
| App.Application.OnIgnoreAll | checkstyleinterface/application.py:215-218 | every held finding becomes ignored, and the view is updated; the selection is kept iff the box is ticked, and `bUnignore` changes only when one row stays selected |
| App.Application.Reflag | checkstyleinterface/application.py:210-223 | the held findings replaced by copies with changed flags, then `updateView`: the view invariant holds, listed and hidden findings are those of the new copies, the selection is kept iff the box is ticked, and `bUnignore` changes only when one row stays selected |
| App.Application.OnUnignoreAll | checkstyleinterface/application.py:220-223 | every held finding becomes unignored, and the view is updated; the selection is kept iff the box is ticked, and `bUnignore` changes only when one row stays selected |
| App.Application.OnRefresh | checkstyleinterface/application.py:225-234 | the new findings replace the held ones, hidden ones included, with their flags carried over; the selection is cleared and `bUnignore` is unchanged. A provider that raised leaves the window as it was |
| App.Application.SetShowIgnored | checkstyleinterface/application.py:129-132 | ticking or unticking the box repopulates only when its value changes; `bUnignore` is unchanged |
| App.Application.OnOk | checkstyleinterface/application.py:176-184 | with a non-ignored error left and no confirmation nothing changes. Otherwise the window closes with exit code 0 |
| App.Application.OnCancel | checkstyleinterface/application.py:186-187 | the window closes and the exit code stays |
| Util.Find | checkstyleinterface/util.py:197 | `str.find` answers -1 or the start of an occurrence at or after the start |
| Util.FindIsLowest | checkstyleinterface/util.py:197 | `str.find` misses nothing: when an occurrence starts at or after the start, it answers a position no later than that occurrence, so it answers the lowest one, and -1 only when there is none |
| Util.MatchesAreOccurrences | checkstyleinterface/util.py:196-201 | every index `Matches` yields starts an occurrence, and consecutive ones are at least the needle's length apart, so matches never overlap |
| Util.MatchesIncrease | checkstyleinterface/util.py:196-201 | the yielded indices strictly increase |
| Util.MatchesAreLeftmost | checkstyleinterface/util.py:197-199 | every occurrence overlaps a yielded match, so none starts in a gap between matches or after the last one |
| Util.EmptyPatternStalls | checkstyleinterface/util.py:194-201 | with an empty needle `find` answers the start itself, so the loop never advances |
| Util.FindAll | checkstyleinterface/util.py:193-201 | the generator, run to its end, yields the leftmost non-overlapping occurrences |
| Util.FireStep | checkstyleinterface/util.py:67-70 | `fireIfNew(v)` calls back at most once, with v, iff v differs from the stored value, and stores v |
| Util.FiresAtMostOnce | checkstyleinterface/util.py:67-70 | two calls in a row with the same value call back at most once |
| Util.FiresOnlyChanges | checkstyleinterface/util.py:67-70 | each value passed to the callback differs from the one before it |
| Util.SameValueNeverFires | checkstyleinterface/util.py:67-70 | calls with the stored value never call back |
| Util.CallbackWrapper.constructor | checkstyleinterface/util.py:63-65 | the wrapper stores the initial value and has not called back |
| Util.CallbackWrapper.FireIfNew | checkstyleinterface/util.py:67-70 | the wrapper stores v and has called back once more, with v, iff v differs from what it stored |
| Util.TkVar.constructor | checkstyleinterface/util.py:41-47 | the seed, when given, is set before the wrapper is made from the variable's value, so the seed never calls back |
| Util.TkVar.Set | checkstyleinterface/util.py:46 | setting the variable calls back, with the new value, iff it changed, and the wrapper keeps tracking the value |

## Left out

- Subprocesses are not modelled: git, java, IntelliJ and the file opener. Their outputs are inputs of the model (the diff's lines, the report, the changed files).
- DiffScan.ScanFolderDiff: the folder's output is given already split into lines, as `DiffScan.GetChangedLines` passes it on; `splitlines()` (main.py:261) is not modelled. Python also breaks lines at `\r`, `\x0b`, `\x0c`, `\x1c` to `\x1e`, `\x85`, `\u2028` and `\u2029`, so text inside an added line can become a `+++ b/` or `@@` line of its own; the model does not capture that.
- DiffScan.GetChangedLines: each folder's output (`DiffScan.FolderDiff`) is a sequence of lines, so the splitting described for `DiffScan.ScanFolderDiff` is not modelled here either.
- Hook installation and argument parsing (main.py:58-122, 279-318) are I/O and plumbing.
- The Tk widgets are not modelled: layout, fonts, `MultiColumnListbox`, column sorting (`sortByColumn`) and the double-click that opens a file.
- XML parsing is not modelled: a report is given as already parsed attribute maps.
- `os.path.abspath`, `normcase`, `join` and `html.unescape` are opaque parameters.
- The file-system queries (`isfile`, `isdir`, `os.walk`, `isJavaFile`) are opaque parameters.
- Text functions: `lower` and `title` change ASCII letters only. `int()` is modelled with surrounding whitespace and a sign, but not with underscores between digits or non-ASCII digits.
- DiffScan.MatchHunk: the `\d` of the hunk pattern (main.py:247) matches ASCII digits only, where Python's `re` also matches other Unicode decimal digits.
- Analysis.RunCheckstyle: a kept finding without a `severity` fails when `runCheckstyle` returns, as the caller's first `.lower()` does in batch mode (main.py:49) and at start-up (application.py:83). On refresh the source fails later, in the handler's comparisons or in `populateView`, possibly with the list already partly redrawn; the model reports the fault before the handler runs.
- Analysis.RunCheckstyle: the generator is modelled as the sequence of what each `<error>` element yields or raises (`Analysis.Generated`), built from the whole parsed report. The loop takes its elements in order and stops at the first fault, so elements after that point have no effect, as in the source.
- Analysis.ErrorFromAttributes: it reads the severity with the rest of the element, so a missing one fails there. It is used only by the reading of a whole report (`Analysis.ErrorsFromReport`), the reference that `Analysis.RunCheckstyleEager` compares `runCheckstyle` with.
- Diagnostics.SameContent: the branches of `__eq__` for a file or severity of `None` are not modelled, because findings read from a report always have both.
- Analysis.GetFilesList: the order of the keys of `dFiles` is not modelled; a `map` has none. It decides only the order of the arguments passed to Checkstyle.
- Analysis.RunCheckstyle: an exception escaping `runCheckstyle` in batch mode or at start-up ends the program with Python's own exit status; during a refresh (application.py:227) Tk reports it and the window keeps its findings. The model returns it as a `Failure`, and `App.Application.OnRefresh` leaves the window as it was on one.
- Record aliasing is not modelled: the source keeps each finding as one object shared between its lists. The model treats findings as values and moves them explicitly, which is equivalent because no finding is held twice.
- App.Application.PopulateView: `setData` first draws rows without a tag, then `doUpdateView` redraws them. Only the final rows are modelled.
- App.Application.UpdateLabels: the labels are modelled as their two numbers. `Review.LabelText` gives the text they show.
- App.Application.OnViewClicked: the Tk selection is modelled as a set of item ids; the order in which Tk returns it does not change the result.
- App.Application.SetShowIgnored: the "Show ignored" box's `tkVar` and `CallbackWrapper` are folded into this method; `Util.TkVar` models them on their own.
- Util.TkVar: `tkVar` without a callback returns the variable without a wrapper, which is just the seeded value and is not modelled separately.
- Util.FindAll: requires a non-empty needle, because with an empty one the loop never ends (`Util.EmptyPatternStalls`).
- `scripts/checkinter.py` is an older copy of the pipeline and is not part of this model.
