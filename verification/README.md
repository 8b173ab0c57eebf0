# TG-Gifts-Parser, modelled in Dafny

TG-Gifts-Parser collects the catalogue of Telegram collectible gifts. For every gift
kind (a "key", such as `PlushPepe`) it reads the announced quantity off the first
item's page. It then fetches items `1..N` one page at a time and stores each item's
Model, Backdrop and Symbol in a per-gift SQLite file. A resumable updater later
fetches only the items after the stored count. Two refreshers replace local
database files with newer published copies:
- one compares row counts;
- one compares published content hashes.

Two terminal browsers (an older one and a newer one with search and paging) let a
user pick a gift, a model, a backdrop and a symbol, and list the matching item links.

The model follows the repository's files, one Dafny module per file:

| module | file | what it holds |
|---|---|---|
| `Text` | — | the parts of Go's `strings`, `strconv` and `unicode` the core uses |
| `GiftParser` | internal/parser/gift_parser.go | quantity parsing, page-fetch retries |
| `GiftStore` | (SQLite, as the parser and updater see it) | a per-gift database as a class |
| `ParsOut` | internal/parser/pars_out.go | file-name slug, fallback quantity, per-gift writer |
| `Updater` | external/updater.go | schema upgrade, resume from the stored count, commit scheduler |
| `CountRefresh` | internal/utils.go | replace databases whose published copy has more rows |
| `HashRefresh` | internal/misc/db_updater.go | replace databases whose published hash changed |
| `EntryQuery` | internal/tui/utils/database.go, internal/tui/model_state.go | the item queries of both browsers |
| `TuiStrings` | internal/tui/utils/string.go, internal/tui/utils.go | the `%` tag remover and the gift-name slug |
| `Browser` | internal/tui/state.go | the newer browser: key handling, search, paging |
| `LegacyBrowser` | internal/tui/model_state.go | the older browser |

`removePercentage` and `sanitizeGiftName` exist twice, in internal/tui/utils.go and
internal/tui/utils/string.go. The two copies are identical, so each is modelled once.

### How effects are modelled
- **HTTP, HTML and the clock.** These become parameters. Each page fetch is an
  `Attempt`, and the remote catalogue is a `Remote` value: the first page, an item
  oracle, and the item numbers whose insert fails.
- **SQLite.** A database file is a `GiftDatabase` object. Its fields are whether the
  file, the table and the index exist, the column set, and the rows in insertion
  order. Every statement that can fail gets a fault bit in `SqlFaults`.
- **Goroutines.** Worker pools, wait groups and mutexes become sequential loops in
  key order. Totals are proved independent of the order the workers finish in
  (`GatheredPermutation`).
- **The browsers.** bubbletea's `Update` takes the model by value and returns a new
  one. Each transition is therefore a function from state to state, and a session is
  a fold over the messages.

### Where the code and the project's documentation differ (the model follows the code)
- **Comma-grouped quantities.** The documentation says `"1,234/5000"` parses to 1234.
  The code only removes spaces before `strconv.Atoi`, so the comma makes `Atoi` fail,
  and the result is 0 (`CleanQuantityRejectsComma`). Space-grouped and no-break-space
  grouped forms do parse to 1234.
- **Contiguous indices.** The documentation says a key's stored indices are always a
  contiguous prefix `1..N`. They are only when no fetch or insert fails.
  - A failed item leaves a gap (`FetchedRowsGapShorter`).
  - The updater resumes from the row count. After a gap it therefore fetches and
    stores again an item number that is already stored (`ResumeAfterGapDuplicates`).

### Cursor after Start
`handleEnter` resets the cursor and the window at its end (internal/tui/state.go:280).
On the newer browser's Start item, the query command returns at
internal/tui/state.go:234, before that reset, so the cursor stays on 3
(`Browser.EnterResetsCursor`). Every other Enter reaches the reset.

## Model

| member | source | states |
|---|---|---|
| GiftParser.RemoveSpaces | internal/parser/gift_parser.go:81 | the result contains neither a space nor a no-break space |
| GiftParser.RemoveSpacesKeepsOthers | internal/parser/gift_parser.go:81 | a string without spaces is returned unchanged |
| GiftParser.CleanQuantityWithoutSlash | internal/parser/gift_parser.go:80-81 | without a `/`, the quantity is `Atoi` of the despaced text, or 0 when that is no integer |
| GiftParser.CleanQuantityNumerator | internal/parser/gift_parser.go:80-81 | only the part before the first `/` matters: `n/total` parses as `n` |
| GiftParser.CleanQuantityOfDigits | internal/parser/gift_parser.go:79-83 | a digit string, alone or followed by `/total`, parses to its decimal value |
| GiftParser.CleanQuantityGrouped | internal/parser/gift_parser.go:81 | digits grouped by a space or a no-break space parse to the value of the joined digits |
| GiftParser.CleanQuantityThousandsSpaces | internal/parser/gift_parser.go:81 | `"1 234/5000"`, with a space or with a no-break space between the groups, parses to 1234 |
| GiftParser.CleanQuantityOfNonInteger | internal/parser/gift_parser.go:81 | a numerator that starts with a digit followed by a non-digit (a comma, a dot) parses to 0 |
| GiftParser.CleanQuantityRejectsComma | internal/parser/gift_parser.go:81 | `"1,234/5000"` parses to 0, because the comma is not removed |
| GiftParser.CleanQuantityRejectsWords | internal/parser/gift_parser.go:81 | `"Unknown"` and the empty string parse to 0 |
| GiftParser.CleanQuantityNegative | internal/parser/gift_parser.go:81 | a signed numerator such as `-5` is kept as a negative quantity |
| GiftParser.FirstParsed | internal/parser/gift_parser.go:16-23 | the first successful attempt within the budget, if any, and only a successful one |
| GiftParser.FirstParsedExtend | internal/parser/gift_parser.go:16-23 | one more failed attempt after failures still finds no document |
| GiftParser.FirstParsedAfterFailures | internal/parser/gift_parser.go:16-23 | after failed attempts, the first success is the document returned |
| GiftParser.FetchHTML | internal/parser/gift_parser.go:14-30 | as written: returns the first parsed page and never an error; requests and sleeps are counted |
| GiftParser.FetchHTMLReportingFailure | internal/parser/gift_parser.go:14-30 | corrected: the error is reported exactly when no attempt produced a document |
| GiftParser.ExhaustedRetriesReportNoError | internal/parser/gift_parser.go:15-29 | when every attempt fails, the fetcher returns no document and no error |
| ParsOut.SanitizeKey | internal/parser/pars_out.go:47-55 | the slug is no longer than the key and holds only letters and digits |
| ParsOut.SanitizeKeyAppend | internal/parser/pars_out.go:47-55 | the slug of a concatenation is the concatenation of the slugs |
| ParsOut.SanitizeKeySubsequence | internal/parser/pars_out.go:47-55 | the slug is a subsequence of the key |
| ParsOut.SanitizeKeyKeepsAlphanumeric | internal/parser/pars_out.go:47-55 | an alphanumeric key is its own slug |
| ParsOut.SanitizeKeyIdempotent | internal/parser/pars_out.go:47-55 | slugging twice gives the same slug |
| ParsOut.SanitizeKeyDropsSeparator | internal/parser/pars_out.go:47-55 | a separator between two alphanumeric parts disappears |
| ParsOut.SanitizeKeyCollision | internal/parser/pars_out.go:109-110 | "Desk Calendar" and "Desk-Calendar" map to the same database file |
| ParsOut.ScanFields | internal/parser/pars_out.go:36-41 | a field found is a positive integer |
| ParsOut.ScanLines | internal/parser/pars_out.go:33-44 | the fallback yields "Unknown" or a positive integer |
| ParsOut.ExtractQuantityFallback | internal/parser/pars_out.go:30-45 | the fallback yields "Unknown" or a positive integer |
| ParsOut.FallbackQuantity | internal/parser/pars_out.go:30-45 | the fallback's answer, passed through the quantity parser, is 0 for "Unknown" and its positive `Atoi` value otherwise |
| ParsOut.CleanQuantityOfInteger | internal/parser/gift_parser.go:79-83 | a string `Atoi` accepts goes through the quantity parser unchanged in value |
| ParsOut.PositiveDigitsField | internal/parser/pars_out.go:37-38 | a positive digit field survives the trim and is accepted |
| ParsOut.ScanFieldsSkipsLabel | internal/parser/pars_out.go:35-41 | on a line "Quantity: d …" the label is skipped and `d` is taken |
| ParsOut.FallbackTakesFirstGroup | internal/parser/pars_out.go:33-41 | for a page whose text is "Quantity: d …", the fallback returns `d` |
| ParsOut.PageQuantityWithoutCell | internal/parser/pars_out.go:128-132 | without a Quantity cell, the quantity is positive exactly when the fallback finds one |
| ParsOut.FetchedRowsShape | internal/parser/pars_out.go:140-158 | stored rows carry the key, numbers in range, strictly increasing, at most one per item |
| ParsOut.FetchedRowsComplete | internal/parser/pars_out.go:140-158 | when every fetch and insert succeeds, the stored numbers are exactly `lo..hi` |
| ParsOut.FetchedRowsHoldItem | internal/parser/pars_out.go:148-150 | a fetched and inserted item is stored with its page's model, backdrop and symbol |
| ParsOut.FetchedRowsSkipItem | internal/parser/pars_out.go:142-153 | an item whose fetch or insert fails is not stored |
| ParsOut.CreateDB | internal/parser/pars_out.go:75-96 | fails iff opening or a CREATE fails; otherwise the file, table and index exist and the rows are kept |
| ParsOut.InsertGift | internal/parser/pars_out.go:98-104 | appends exactly the one row, or changes nothing on failure |
| ParsOut.ParseAndSaveGift | internal/parser/pars_out.go:106-162 | the exit reason, and the rows appended: items `1..quantity` that fetched and inserted |
| ParsOut.SaveItems | internal/parser/pars_out.go:140-158 | appends the fetched rows of `lo..hi` and returns how many were inserted |
| Updater.ColumnOrderCoversRequired | external/updater.go:41-47 | the ALTER order names exactly the required columns |
| Updater.AlterPlanAdds | external/updater.go:68-78 | only missing, non-failing columns are added; on success every column then exists |
| Updater.AlterPlanOk | external/updater.go:68-78 | the upgrade succeeds iff no missing column's ALTER fails |
| Updater.AlterPlanNothingMissing | external/updater.go:68-78 | with every column present, nothing is altered |
| Updater.AlterPlanTwice | external/updater.go:40-79 | a second upgrade after a successful one adds nothing |
| Updater.EnsureGiftsTable | external/updater.go:23-38 | fails iff the CREATE fails; otherwise the table exists, and rows and index are kept |
| Updater.EnsureColumns | external/updater.go:40-79 | the columns added follow `AlterPlan`; a failing PRAGMA changes nothing |
| Updater.GetExistingCount | external/updater.go:81-103 | the count is the stored row count, or 0 with an error exactly when some step fails |
| Updater.PrepareSchema | external/updater.go:115-131 | succeeds iff every SQL step succeeds, and then returns the row count of an insertable database |
| Updater.ParseFromStart | external/updater.go:109-113 | a missing file is parsed from item 1, with count 0 and no error |
| Updater.UpdateGiftIfNeeded | external/updater.go:105-177 | appends exactly the rows of the items after the stored count; the count returned is their number |
| Updater.ResumeCountBounds | external/updater.go:153-176 | an update adds at most `quantity − existing` rows, and none when up to date |
| Updater.SecondRunAddsNothing | external/updater.go:149-151 | after a complete first run, a second one adds nothing |
| Updater.FetchedRowsGapShorter | external/updater.go:156-167 | one failed item leaves fewer rows than the range has items |
| Updater.ResumeCompletes | external/updater.go:153-173 | stopping after `m` items and resuming gives what one run over `1..quantity` gives |
| Updater.ResumeAfterGapDuplicates | external/updater.go:128-156 | after a gap, the resume fetches an item number that is already stored |
| Updater.GatheredPermutation | external/updater.go:190-206 | the total does not depend on the order results arrive |
| Updater.GatheredNonNegative | external/updater.go:196-203 | the total of non-negative counts is non-negative |
| Updater.RunUpdater | external/updater.go:179-210 | errors iff the gift list cannot be loaded; otherwise the total is that of the successful keys |
| Updater.Step | external/updater.go:243-256 | an updater error leaves the ledger unchanged; otherwise the pending total plus the new items is committed whole and reset to 0 when it reaches 10000 and the commit succeeds, and kept whole otherwise |
| Updater.ReplayPendingSinceLastCommit | external/updater.go:239-256 | the pending total is exactly the items reported since the last commit, failed commits included |
| Updater.ReplayCommitIsSinceLastCommit | external/updater.go:247-254 | each commit carries exactly the items reported since the previous commit |
| Updater.ReplayConserves | external/updater.go:238-262 | committed plus pending items equal the items reported, so none is lost |
| Updater.ReplayCommitsReachThreshold | external/updater.go:248-256 | every commit holds at least 10000 new items |
| Updater.ReplayPendingBelowThreshold | external/updater.go:247-256 | with commits succeeding, fewer than 10000 items are ever left pending |
| Updater.ThresholdScenario | external/updater.go:246-256 | 4000, 3000 and 4000 new items give one commit of 11000 |
| Updater.FailedCommitCarriesOver | external/updater.go:250-255 | a failed commit keeps its items pending for the next round |
| Updater.Scheduler.Iterate | external/updater.go:241-261 | one scheduler round moves the counter and commit log as `Step` does |
| Updater.Scheduler.RunRounds | external/updater.go:241-261 | a run of rounds leaves the state `Replay` describes |
| CountRefresh.DbExtension | internal/utils.go:61 | a name's extension is ".db" iff the name ends in ".db" |
| CountRefresh.DbFiles | internal/utils.go:59-64 | the selection holds no more entries than the listing |
| CountRefresh.SelectDbFiles | internal/utils.go:59-64 | the loop keeps exactly the ".db" files, in listing order |
| CountRefresh.DbFilesSelects | internal/utils.go:59-64 | an entry is selected iff it is a file named "*.db" |
| CountRefresh.ReplacedIffStrictlyMore | internal/utils.go:90-130 | a file is replaced iff its download succeeds and the copy has strictly more entries |
| CountRefresh.DatabaseDir.RefreshFile | internal/utils.go:84-131 | one file's outcome, and its replacement exactly when the outcome is Updated |
| CountRefresh.DatabaseDir.UpdateAllDatabases | internal/utils.go:37-146 | listing errors abort; otherwise every ".db" file is refreshed in order |
| CountRefresh.PlanChecks | internal/utils.go:44-72 | a fetch, status, decode, empty-selection or mkdir failure aborts with its own error |
| CountRefresh.RefreshAll | internal/utils.go:82-139 | one outcome per selected file |
| CountRefresh.RefreshAllOnlyGrows | internal/utils.go:117-130 | no local entry count goes down, and unnamed files are untouched |
| CountRefresh.SecondRefreshIsUpToDate | internal/utils.go:117-121 | right after a replacement, the same copy is up to date |
| HashRefresh.SortedKeys | internal/misc/db_updater.go:173-180 | the names come out strictly ascending, each map key exactly once |
| HashRefresh.AscendingUnique | internal/misc/db_updater.go:173-180 | two ascending lists of the same names are equal, so the order is determined |
| HashRefresh.LoadLocalHashes | internal/misc/db_updater.go:17-28 | a missing file gives an empty map, a stored file its decoded map; an unreadable or malformed one is an error |
| HashRefresh.WorkerRules | internal/misc/db_updater.go:103-143 | a download happens iff the hashes differ; the record is updated iff the replacement succeeds |
| HashRefresh.EmptyPublishedHashNeverDownloads | internal/misc/db_updater.go:103-112 | a file with no local record and an empty published hash is up to date |
| HashRefresh.UpdatedIsThenUpToDate | internal/misc/db_updater.go:107-142 | after an update, the same published hash is up to date |
| HashRefresh.RefreshAll | internal/misc/db_updater.go:95-145 | one outcome per published name |
| HashRefresh.UnvisitedSurvive | internal/misc/db_updater.go:93-95 | local records of names not published are kept |
| HashRefresh.VisitedFollowOutcome | internal/misc/db_updater.go:103-143 | each published name's record is the new hash iff its outcome is Updated |
| HashRefresh.HashStore.RefreshFile | internal/misc/db_updater.go:99-144 | one file's outcome, file replacement and record, following `Decide` |
| HashRefresh.HashStore.UpdateDB | internal/misc/db_updater.go:56-171 | fetch and load errors abort with nothing changed; otherwise all names are visited in sorted order, the database files are exactly those the `Updated` workers replaced (`Replaced`), and the records are saved unless saving fails |
| HashRefresh.ReplacedFollowsOutcome | internal/misc/db_updater.go:124-142 | a visited file holds the published copy iff its worker reports `Updated` and is otherwise untouched; an unvisited file is untouched |
| HashRefresh.SavedHashes | internal/misc/db_updater.go:93-170 | the saved records are the old ones, updated exactly for the replaced files |
| EntryQuery.MatchingNumbersCount | internal/tui/utils/database.go:35-41 | every matching row contributes its number once: a number occurs as often as there are matching rows carrying it |
| EntryQuery.QueryEntries | internal/tui/utils/database.go:9-45 | the numbers of the matching rows, or an error exactly when open, select or scan fails |
| EntryQuery.MatchingNumbersMembership | internal/tui/utils/database.go:30-41 | a number is returned iff some row with it matches every non-empty filter |
| EntryQuery.ClearingFiltersWidens | internal/tui/utils/database.go:35-41 | clearing a filter never loses a result |
| EntryQuery.EmptyModelIsNoWildcard | internal/tui/utils/database.go:31-35 | the model filter is always applied: an empty model only finds rows whose cleaned model is empty |
| EntryQuery.TaggedRowIsFound | internal/tui/utils/database.go:31-35 | a row whose stored model carries a "(1.2%)" tag is found by its bare name |
| EntryQuery.LegacyMatchingNumbersCount | internal/tui/model_state.go:173-187 | every row the older query matches contributes its number once |
| EntryQuery.LegacyMatchingNumbersMembership | internal/tui/model_state.go:182-184 | a number is returned iff some row with it has cleaned model and cleaned backdrop equal to the selection, an empty backdrop included |
| EntryQuery.LegacyQueryEntries | internal/tui/model_state.go:160-188 | the older query's numbers, or an error when open, select or scan fails |
| EntryQuery.LegacyAgreesWithBackdrop | internal/tui/model_state.go:182 | with a backdrop chosen, the older query returns what the newer one returns without a symbol |
| EntryQuery.LegacyEmptyBackdrop | internal/tui/model_state.go:182 | with no backdrop, every number the older query returns the newer query returns too, and comes from a row whose backdrop cleans to the empty string |
| EntryQuery.LegacyEmptyBackdropSubsumed | internal/tui/model_state.go:182 | with no backdrop, each number the older query returns comes from a row the newer query matches |
| TuiStrings.MatchAt | internal/tui/utils/string.go:6 | a match is at least two runes long, lies inside the string, and exists only in a string holding `%` |
| TuiStrings.RemovePercentWithoutPercent | internal/tui/utils/string.go:5-8 | a name without `%` is unchanged |
| TuiStrings.RemovePercentSubsequence | internal/tui/utils/string.go:5-8 | the cleaned name is a subsequence of the original |
| TuiStrings.RemovePercentStripsTag | internal/tui/utils.go:74-77 | "Name (1.2%)" becomes "Name" |
| TuiStrings.RemovePercentStripsBarePercent | internal/tui/utils/string.go:6-7 | a bare "12%" is removed |
| TuiStrings.RemovePercentNotIdempotent | internal/tui/utils/string.go:6-7 | one pass can leave a match for a second pass: "5(3%)%" gives "5%" |
| TuiStrings.SanitizeGiftName | internal/tui/utils/string.go:10-13 | the slug is no longer than the name and holds only word characters |
| TuiStrings.SanitizeGiftNameSubsequence | internal/tui/utils/string.go:10-13 | the slug is a subsequence of the name |
| TuiStrings.SanitizeGiftNameKeepsWords | internal/tui/utils/string.go:10-13 | a name of word characters is its own slug |
| TuiStrings.SanitizeGiftNameIdempotent | internal/tui/utils.go:79-82 | slugging twice gives the same slug |
| TuiStrings.SlugsAgreeOnAscii | internal/tui/utils/string.go:10-13 | on ASCII names without `_`, the browser's slug equals the parser's file slug |
| TuiStrings.SlugsDiffer | internal/tui/utils/string.go:10-13 | an underscore or a non-ASCII letter makes the two slugs differ |
| Browser.ListLength | internal/tui/state.go:179-193 | the current screen's list length: 4 on the main menu, 2 on the results, 0 while loading |
| Browser.TotalPagesIsCeiling | internal/tui/state.go:142 | the page count is the least number of 10-row pages covering the results |
| Browser.FilterByQueryCount | internal/tui/state.go:309-338 | every kept item stays as often as it occurs in the source list, and a dropped one never appears |
| Browser.FilterByQueryMembership | internal/tui/state.go:309-338 | an item is kept iff its lower-cased text contains the lower-cased query |
| Browser.FilterByQuerySublist | internal/tui/state.go:309-338 | the filtered list keeps the original order |
| Browser.FilterItems | internal/tui/state.go:309-338 | the filtering loop computes `FilterByQuery` |
| Browser.Initial | internal/tui/state.go:15-26 | the start state is the main menu with the cursor on its first item |
| Browser.InitialIsValid | internal/tui/state.go:15-26 | the start state satisfies the invariant |
| Browser.ValidSelectionInRange | internal/tui/state.go:248-277 | in a valid state the cursor indexes inside every non-empty list Enter reads |
| Browser.ResetListsKeepsSublists | internal/tui/state.go:342-347 | the shown lists stay sublists of the full lists |
| Browser.ResetListsKeepsValid | internal/tui/state.go:342-347 | clearing the search keeps the invariant |
| Browser.FilterLists | internal/tui/state.go:303-340 | filtering changes only the four shown lists |
| Browser.FilterListsKeepsSublists | internal/tui/state.go:303-340 | filtering keeps every shown list a sublist of its full list |
| Browser.EditQueryKeepsValid | internal/tui/state.go:52-69 | editing the query keeps the invariant |
| Browser.CursorUpKeepsValid | internal/tui/state.go:152-176 | moving up keeps the invariant; from Start it goes to Symbols when Start is enabled |
| Browser.CursorDownKeepsValid | internal/tui/state.go:178-212 | moving down keeps the invariant |
| Browser.DownReachesStartOnlyWhenEnabled | internal/tui/state.go:195-205 | Down reaches Start iff it moves from Symbols with a gift and a model chosen, and a backdrop or a symbol |
| Browser.EnterKeepsValid | internal/tui/state.go:214-282 | Enter keeps the invariant |
| Browser.EnterResetsCursor | internal/tui/state.go:214-282 | Start moves to the loading screen and issues a query that captures the current selection, keeping the cursor; every other Enter resets cursor and window and selects the item under the cursor |
| Browser.BackspaceKeepsValid | internal/tui/state.go:284-301 | Backspace keeps the invariant |
| Browser.BackspaceGoesBack | internal/tui/state.go:284-301 | Backspace goes one screen back and clears the search |
| Browser.NavigationKeyKeepsValid | internal/tui/state.go:73-122 | every navigation key keeps the invariant |
| Browser.KeyPressKeepsValid | internal/tui/state.go:44-122 | every key press keeps the invariant |
| Browser.ReceiveResultsKeepsValid | internal/tui/state.go:134-146 | receiving query results keeps the invariant |
| Browser.ReceiveResultsShowsFirstPage | internal/tui/state.go:134-146 | results open on page 1 with the ceiling page count |
| Browser.PageStartsInsideResults | internal/tui/state.go:134-146 | every page start indexes inside the result list |
| Browser.TypingExtendsQuery | internal/tui/state.go:63-69 | a printable key in search mode appends itself to the query |
| Browser.SearchBackspace | internal/tui/state.go:52-60 | Backspace in search mode drops the query's last character |
| Browser.PagingStaysInRange | internal/tui/state.go:89-99 | left and right stay within the result pages |
| Browser.Update | internal/tui/state.go:39-150 | from a valid state every message leads to a valid state |
| Browser.Run | internal/tui/state.go:39-150 | a session from a valid state ends valid and issues one command per message |
| Browser.SessionsStayValid | internal/tui/state.go:39-150 | every session from a valid state ends in a valid state |
| LegacyBrowser.Initial | internal/tui/program.go:46-60 | the start state is the main menu with nothing chosen, and it is valid |
| LegacyBrowser.Run | internal/tui/model_state.go:26-50 | a session without a panic issues one command per message |
| LegacyBrowser.MovesKeepValid | internal/tui/model_state.go:52-96 | moves keep the invariant, skip the Symbols item, and reach Start iff it is enabled |
| LegacyBrowser.EnterPanicsIffEmptyList | internal/tui/model_state.go:134-144 | in a reachable state, Enter panics iff the current list is empty |
| LegacyBrowser.EnterKeepsValid | internal/tui/model_state.go:98-148 | Enter keeps the invariant; Start runs the query, everything else resets the cursor |
| LegacyBrowser.BackspaceKeepsValid | internal/tui/model_state.go:150-158 | Backspace keeps the invariant and goes one screen back |
| LegacyBrowser.UpdateKeepsValid | internal/tui/model_state.go:26-50 | every message that does not panic keeps the invariant |
| LegacyBrowser.RunKeepsValid | internal/tui/model_state.go:26-50 | every session without a panic ends in a valid state |
| LegacyBrowser.EmptyModelListPanics | internal/tui/model_state.go:134-139 | a gift with no models reaches an empty model list, and Enter on it panics |

## Left out

- **HTML extraction** (`ExtractGiftField`, `ParseGiftInfo`, `InnerText`, XPath
  queries): left out because it is XML and HTML library code. Their results are the
  fields of `Page`.
- **HTTP transport, status handling of item pages and `time.Sleep`.** An attempt's
  outcome is a parameter. Sleeps are only counted.
- **JSON decoding** (`LoadGiftsJSON`, `LoadData`, the listing and hash responses):
  the decoded value, or a decode failure, is a parameter.
  - `saveLocalHashes` is modelled as a success bit and the saved map.
  - A hashes file holding `null` decodes to a nil map in Go; this is folded into the
    decode outcome.
- **`ParseAllGifts`** (the driver that walks every key) is not modelled beyond the
  per-key operation. The same goes for `main.go` and the command wiring.
- **SQLite itself.** It is in-memory rows with failure bits.
  - `sql.Open` on a missing path creates an empty file. In `QueryEntries` and in the
    count of a downloaded copy, that case is folded into a failure outcome.
  - NULL columns in scans are not modelled.
- **Concurrency.** Worker pools, wait groups, mutexes and semaphores become
  sequential loops.
  - The semaphore slot kept on an early return at internal/parser/pars_out.go:161 is
    not modelled.
  - The nil wait group and semaphore passed at external/updater.go:111 are not
    modelled.
  - The read of the shared hash map outside the lock at
    internal/misc/db_updater.go:103 is not modelled.
- **`gitCommitAll`** is a success bit of each scheduler round. The ticker is the
  sequence of rounds.
- **Rendering, spinners, window-size and loading messages, and `ClearScreen`** are
  left out. Messages other than keys and results are `Other` and change no modelled
  state.
- **Query printing.** In the older browser, Start prints the links and quits. It is
  the `QueryThenQuit` command, and a session is not cut off after a Quit command.
- **Temporary file names.** They are one fixed parameter; uniqueness of
  `os.CreateTemp` is assumed.
- Updater.UpdateGiftIfNeeded: a first page or item page that failed every attempt is
  modelled as the fetch error the fetcher would report once it returns one
  (`GiftParser.FetchHTMLReportingFailure`): the first page gives `FirstPageFailed`,
  an item is skipped. As written, `FetchHTML` returns no document and no error
  (`GiftParser.ExhaustedRetriesReportNoError`), so the checks at
  external/updater.go:135 and :157 never fire and the nil document goes on to
  `ExtractGiftField` (:139) and `ParseGiftInfo` (:162); what the HTML library does
  with a nil node (most likely a nil dereference) is not modelled.
- ParsOut.ParseAndSaveGift: a failed first page is modelled as the early return of
  internal/parser/pars_out.go:123-126, as the reporting fetcher would make it. As
  written, that check never fires and the nil document reaches `ExtractGiftField`
  (:128); that path is not modelled.
- ParsOut.SaveItems: an item page that failed every attempt is skipped, as the
  `continue` at internal/parser/pars_out.go:143-146 would with the reporting
  fetcher. As written, the nil document reaches `ParseGiftInfo` (:148); that path is
  not modelled.
- ParsOut.FetchedRowsSkipItem: its "failed fetch" case is the reporting fetcher's;
  with the fetcher as written, a failed fetch is not skipped but reaches
  `ParseGiftInfo` on a nil document, which is not modelled.
- CountRefresh.DatabaseDir.RefreshFile: `countEntriesInDB` on a missing local path
  (internal/utils.go:25-34, called at :90) opens it with `sql.Open`, which leaves an
  empty file behind. The model reads the missing file's count as 0 (`LocalCount`) and
  does not record the empty file created; when the copy is not taken, that empty file
  stays in the directory.
- HashRefresh.HashStore.RefreshFile: records the published hash rather than a hash
  of the downloaded bytes, as the code does, so a corrupt download is not detected
  (the content of files is not modelled).
- **Text primitives.**
  - `strconv.Atoi` is over unbounded integers, so 64-bit overflow is not modelled.
  - `unicode.IsLetter` and `unicode.IsDigit` cover the Latin, Greek, Cyrillic and
    CJK blocks, not all of Unicode.
  - `strings.ToLower` maps ASCII letters only.
  - `math.Ceil` over floats is integer division.
- **The browsers are values, not objects.** Update takes the model by value. The
  constructor of the newer browser's model is not part of this model. Its start
  state (`Browser.Initial`) is inferred: the main menu with Go's zero values for the
  cursor, the pages, the search and the selection, as the older browser's
  `InitialModel` (internal/tui/program.go:46-60) builds its own. Every filtered list
  is taken equal to its source, as `resetFilteredLists` leaves them; this is an
  assumption, and it does not matter for what the browser shows, because Enter on a
  main-menu item sets the list it opens to its source (internal/tui/state.go:217-226).
- Browser.EnterResetsCursor: states the reset for every item but Start. On Start, the
  code returns the query command before the reset at internal/tui/state.go:280.

## Findings

| source | as written | input that shows it | evidently intended | confidence | as-written member | corrected member |
|---|---|---|---|---|---|---|
| internal/parser/gift_parser.go:15-29 | the retry loop declares a new `err` inside the loop, so the outer `err` stays nil; when every attempt fails the fetcher returns no document and no error | attempts = 3, every request failing | return an error when no attempt produced a document | not executed | GiftParser.ExhaustedRetriesReportNoError | GiftParser.FetchHTMLReportingFailure |
| internal/tui/model_state.go:134-142 | Enter reads `values[cursor]` (and the other lists) without a length check, so an empty list panics | data `{"G": []}`, keys `["G"]`, Enter three times | check the list is non-empty first, as internal/tui/state.go:248-277 does | not executed | LegacyBrowser.EmptyModelListPanics | Browser.EnterKeepsValid |
