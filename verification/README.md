# Balance-sheet workspace and quiz screens, modelled in Dafny

This project models the logic of a React application with two halves.

**The balance-sheet workspace.** A user keeps up to five companies, each with up to ten yearly balance sheets.
- A sheet holds six categories of named amounts: current and non-current assets, current and long-term liabilities, common and comprehensive equity. It also holds a handful of flat income metrics.
- The main page lets the user edit sheets, add a sheet for the next or previous year, delete one and add a company.
- Before adding a company or leaving for the comparison charts, every sheet of the current company is scanned for fields whose value is exactly 0. If any are found, a confirmation prompt lists them, grouped by sheet year under friendly category names.
- Confirming runs the blocked action. Cancelling marks the offending fields so that the sheet form's drop-downs open and highlight them.

**The quiz.** Several small screens share one pattern:
- a question is answered, the answer is recorded, and "Next" advances or ends the game;
- a result screen tallies the recorded answers;
- two Redux slices hold the fetched problems and the current day;
- a day picker lets only the current day be played.

Around these the model also covers a few integer-valued helpers of the charts page and the letter-by-letter colour gradient of the about page.

Everything is modelled with immutable datatypes and pure functions:
- a category is an ordered association list `seq<(string, int)>`: JavaScript objects keep the insertion order of non-numeric keys, which are the only keys the model gives them;
- every amount is an integer, and an absent flat metric (`undefined`) is `Option.None`: `Number(undefined)` is NaN, so an absent metric is never flagged;
- the workspace state is one record: companies, `currentCompanyId`, validation markers, prompt flag, pending action and stashed errors.

Every event of the main page is a transition of that record, and `Workspace.ReachableValid` proves the page's invariant holds in every reachable state.

Modules, one per source file or concern:

| module | file | models |
|---|---|---|
| `Common` | common.dfy | `Option`, and the order-preserving de-duplication that `[...new Set(xs)]` performs |
| `Text` | text.dfy | ASCII `toLowerCase`, `trim`, `String(n)` for integers, JavaScript string order |
| `Sheets` | sheets.dfy | the sheet record, `defaultBalanceSheet`, `sumValues`, object key update |
| `YearSort` | year_sort.dfy | the stable year sort, `Math.max(...)+1` ids, filtering and replacing sheets |
| `Validation` | validation.dfy | `findZeroFields` |
| `Workspace` | workspace.dfy | the main page's state machine and its invariant |
| `ErrorGroups` | error_groups.dfy | the confirmation prompt's grouping and friendly names |
| `Dropdown` | dropdown.dfy | field ids, auto-open and totals of one category, and the highlighting discrepancy |
| `SheetForm` | sheet_form.dfy | field, name and income edits, totals and the accounting equation |
| `SheetHelpers` | sheet_helpers.dfy | `getAllBalanceSheets` |
| `SheetsPage` | sheets_page.dfy | the stand-alone sheets page |
| `ProblemStore`, `DateStore` | stores.dfy | the two Redux slices |
| `GameProgress` | game_progress.dfy | the day picker |
| `Quiz`, `GameEnd` | game_end.dfy | result entries and the result screen |
| `OptionQuiz`, `PracticeLoop`, `NumericQuiz`, `TrueFalseQuiz` | gameplay.dfy | the four quiz screens |
| `DefinitionCard`, `TrueFalseCard` | question_cards.dfy | the two single-question cards |
| `Charts` | charts.dfy | `formatLabel`, EBITDA, chart datasets |
| `Gradient` | gradient.dfy | `interpolateColor` and `GradientText` |

Two things that are not part of the program become parameters:
- the current calendar year (`new Date().getFullYear()`) is a `thisYear` argument;
- a fraction `factor` is an exact ratio `num / den`.

## Model

| member | source | states |
|---|---|---|
| Common.Dedup | src/App.jsx:40 | `[...new Set(xs)]` keeps each element once, loses none and adds none |
| Common.DedupOfDistinct | src/components/ValidationModal.jsx:53 | a list without repetitions comes out of a `Set` unchanged |
| Common.DedupSnoc | src/components/ValidationModal.jsx:35 | adding to a `Set` appends the element only when it is new |
| Text.ToLower | src/App.jsx:178 | lower-casing keeps the length and lower-cases each character in place |
| Text.ToLowerAppend | src/App.jsx:178 | lower-casing distributes over concatenation |
| Text.ToLowerOfLower | src/components/ValidationModal.jsx:14-26 | text without capitals is its own lower-case form |
| Text.ToLowerOneCapital | src/App.jsx:178 | lower-casing text with one capital lower-cases only that capital |
| Text.TrimStart | src/components/ValidationModal.jsx:11 | the trimmed text is a suffix, starts with no white space, and only white space was dropped |
| Text.TrimEnd | src/components/ValidationModal.jsx:11 | the trimmed text is a prefix, ends with no white space, and only white space was dropped |
| Text.TrimOfTrimmed | src/components/ValidationModal.jsx:11 | trimming text with no white space at either end changes nothing |
| Text.NatToString | src/App.jsx:168 | a number is written as decimal digits with no leading zero, one digit exactly below 10 |
| Text.NatToStringRoundTrip | src/App.jsx:168 | reading back the decimal digits of `n` gives `n` |
| Text.NatToStringInjective | src/App.jsx:168 | distinct numbers are written differently |
| Text.IntToString | src/App.jsx:168 | `String(n)` is never empty |
| Text.IntToStringAvoids | src/App.jsx:168 | a written integer contains only digits and the sign |
| Text.SplitAtFirst | src/components/ValidationModal.jsx:11 | a string joined at a separator absent from its head splits back into the same head and tail |
| Text.IntToStringRoundTrip | src/App.jsx:168 | parsing `String(n)` gives back `n`, for negative numbers too |
| Text.IntToStringInjective | src/components/ValidationModal.jsx:8-35 | two years have the same object key exactly when they are equal |
| Text.LexLessIrreflexive | src/components/ValidationModal.jsx:47 | no key sorts before itself |
| Text.LexLessTotal | src/components/ValidationModal.jsx:47 | of two distinct keys one sorts first |
| Text.LexLessAsymmetric | src/components/ValidationModal.jsx:47 | two keys never each sort before the other |
| Text.LexLessTransitive | src/components/ValidationModal.jsx:47 | the string order of the keys is transitive |
| Text.LexLessSnoc | src/components/ValidationModal.jsx:47 | equally long strings compare by their heads, then by their last characters |
| Text.LexOrderIsNumericForEqualWidth | src/components/ValidationModal.jsx:46-47 | for numbers written with the same number of digits, string order is numeric order, both ways |
| Text.InsertString | src/components/ValidationModal.jsx:47 | inserting a key adds exactly that key to the multiset of keys |
| Text.InsertStringSorted | src/components/ValidationModal.jsx:47 | inserting a new key into a strictly ascending list keeps it strictly ascending |
| Text.SortStrings | src/components/ValidationModal.jsx:46-47 | `.sort()` of distinct keys is a permutation of them in strictly ascending string order |
| Sheets.WithCat | src/components/BalanceSheetForm.jsx:88-92 | replacing one category leaves the other five and every other property of the sheet unchanged |
| Sheets.Lookup | src/components/DropDown.jsx:59 | a key's value is absent exactly when the key is not among the object's keys, and is otherwise one of its entries |
| Sheets.SumValuesCons | src/utils/balanceSheetUtils.js:47-48 | the sum of a category is its first value plus the sum of the rest |
| Sheets.SetKeyEffect | src/components/BalanceSheetForm.jsx:89-92 | `{...obj, [key]: v}` makes `key` read `v`, leaves every other key's value alone, keeps the key order, and appends a new key last |
| Sheets.SetKeyLookup | src/components/BalanceSheetForm.jsx:89-92 | after the update the key reads the new value and every other key reads its old value |
| Sheets.SetKeyKeys | src/components/BalanceSheetForm.jsx:89-92 | the update keeps the key order, and a new key goes last |
| Sheets.SetKeyKeepsKeysUnique | src/components/BalanceSheetForm.jsx:89-92 | an object with unique keys keeps them unique after a key is set |
| Sheets.SetKeySum | src/utils/balanceSheetUtils.js:47-48 | changing one key's value by `d` changes `sumValues` by exactly `d`, and adding a new key adds its value |
| Sheets.Zeroed | src/utils/balanceSheetUtils.js:5-40 | a zeroed category has exactly the given keys in order, each with value 0 |
| Sheets.DefaultBalanceSheet | src/utils/balanceSheetUtils.js:2-45 | a fresh sheet carries the given id and year, `income`, `revenue` and `profit` at 0, and no name, identifier or owner |
| Sheets.DefaultSheetCategories | src/utils/balanceSheetUtils.js:5-40 | each category of a fresh sheet holds its declared line items in declared order, all 0, with sizes 4, 3, 3, 3, 3, 2 |
| Sheets.DefaultCat | src/utils/balanceSheetUtils.js:5-40 | each category of a fresh sheet is the zeroed list of its declared keys |
| Sheets.DefaultSheetMetrics | src/utils/balanceSheetUtils.js:41-44 | only `income`, `revenue` and `profit` are present on a fresh sheet, each 0 |
| Sheets.ZeroedSum | src/utils/balanceSheetUtils.js:47-48 | a category of zeros sums to 0 |
| Sheets.DefaultSheetSumsToZero | src/utils/balanceSheetUtils.js:5-48 | every category of a fresh sheet sums to 0 |
| YearSort.InsertByYear | src/App.jsx:58 | one insertion step of the sort adds exactly that sheet |
| YearSort.InsertByYearSorted | src/App.jsx:58 | inserting into a year-ordered list keeps it year-ordered |
| YearSort.SortByYear | src/App.jsx:58 | `sort((a, b) => a.year - b.year)` is a permutation in ascending year order |
| YearSort.SortOfSorted | src/App.jsx:58 | a list already in year order comes back unchanged |
| YearSort.SortedPrefix | src/App.jsx:58 | dropping the last sheet of a year-ordered list keeps it ordered |
| YearSort.SortByYearSnoc | src/App.jsx:58 | sorting a list is sorting its front and inserting its last sheet |
| YearSort.InsertAfterLast | src/App.jsx:82 | a sheet whose year is no earlier than the last goes at the end |
| YearSort.InsertByYearUnique | src/App.jsx:82 | inserting a sheet with a fresh id or year keeps ids or years unique |
| YearSort.SortByYearUnique | src/App.jsx:58 | sorting keeps ids and years unique |
| YearSort.SortByYearFresh | src/App.jsx:58 | an id or year absent from a list is absent from its sorted form |
| YearSort.MaxKey | src/App.jsx:75 | `Math.max(...)` over a non-empty list is an upper bound that some sheet attains |
| YearSort.NextSheetId | src/App.jsx:74-76 | the new sheet id is one past the largest id of the list, hence used by no sheet, and is 1 for an empty list |
| YearSort.WithoutSheet | src/App.jsx:122 | filtering keeps exactly the sheets whose id differs |
| YearSort.WithoutSheetKeepsOrder | src/App.jsx:119-126 | deleting a sheet keeps year order and unique ids and years |
| YearSort.WithoutSheetSorted | src/App.jsx:122 | the filter keeps year order |
| YearSort.WithoutSheetUnique | src/App.jsx:122 | the filter keeps ids and years unique |
| YearSort.ReplaceSheetUnique | src/App.jsx:32-56 | replacing by id keeps ids unique, and keeps years unique when no other sheet has the new year |
| Validation.ErrorFor | src/App.jsx:164-178 | an error record carries the sheet's id and year |
| Validation.CategoryFields | src/App.jsx:184-189 | every field listed for the six categories exists on the sheet |
| Validation.AllFields | src/App.jsx:161-262 | every field the scan visits exists on the sheet |
| Validation.LeafInCategoryFields | src/App.jsx:184-189 | every line item of a scanned category is visited |
| Validation.LeafInAllFields | src/App.jsx:171-189 | every line item of every category is visited |
| Validation.ZeroFields | src/App.jsx:173 | the zero filter keeps only fields of the sheet |
| Validation.ZeroFieldsMembers | src/App.jsx:161-264 | a field is kept exactly when it is visited and its value is exactly 0 |
| Validation.ZeroFieldsAppend | src/App.jsx:184-189 | filtering two field lists one after the other is filtering their concatenation |
| Validation.ZeroFieldsSnoc | src/App.jsx:172-173 | the filter of a list with one more field gains that field exactly when its value is 0 |
| Validation.ErrorsForAppend | src/App.jsx:184-189 | the error records of a concatenation are the concatenated records |
| Validation.ScanCategoryIsFilter | src/App.jsx:171-182 | `checkNested` over one category emits the records of its zero line items, in key order |
| Validation.SingleFieldFilter | src/App.jsx:191-198 | a single check emits its record exactly when the value is 0 |
| Validation.ScanMetricsIsFilter | src/App.jsx:191-262 | the flat checks emit the records of the present zero metrics, in the listed order |
| Validation.ScanCategoriesIsFilter | src/App.jsx:184-189 | the six `checkNested` calls emit the records of the zero line items, category by category |
| Validation.ScanIsZeroFilterOfAllFields | src/App.jsx:161-264 | the scan is total and ordered: year, six categories, flat metrics, one record per zero field, without short-circuit |
| Validation.FindZeroFieldsReportsExactlyZeroFields | src/App.jsx:161-264 | a field is flagged if and only if its value is exactly 0; an absent metric is never flagged; every record names its sheet |
| Validation.AsWrittenDiffersOnlyInPathCase | src/App.jsx:178 | the lower-cased and the original-case scans flag the same fields at the same positions with the same locations, and differ only in the category part of nested ids |
| Validation.ScanCategoryAllZero | src/App.jsx:171-182 | a category of zeros yields one record per line item |
| Validation.ScanCategoriesAllZero | src/App.jsx:184-189 | categories of zeros yield one record per line item over all of them |
| Validation.ScanMetricsAppend | src/App.jsx:191-262 | the flat checks over two metric lists are the checks of each in turn |
| Validation.ScanMetricsAbsent | src/App.jsx:215-262 | absent metrics yield no records |
| Validation.TotalLeavesOfSubOrder | src/App.jsx:184-189 | the line items of the six categories add up to the sizes of the six categories |
| Validation.DefaultSheetLeafErrors | src/App.jsx:184-189 | a fresh sheet's categories yield exactly 18 records |
| Validation.ZeroLeavesCount | src/utils/balanceSheetUtils.js:5-40 | a sheet with a fresh sheet's category sizes and all line items 0 yields 18 category records |
| Validation.DefaultSheetMetricErrors | src/App.jsx:191-262 | a fresh sheet's flat checks yield exactly 3 records: income, revenue and profit |
| Validation.ThreeZeroMetrics | src/utils/balanceSheetUtils.js:41-44 | a sheet with exactly `income`, `revenue` and `profit` at 0 yields 3 flat records |
| Validation.ThreePresentMetrics | src/App.jsx:191-214 | three metrics at 0 yield three records |
| Validation.OneZeroMetric | src/App.jsx:191-198 | one metric at 0 yields one record |
| Validation.DefaultSheetErrorCount | src/App.jsx:161-264 | a fresh sheet yields exactly 21 records, or 22 when its year is 0 |
| Workspace.FindCompany | src/App.jsx:25 | `find` by id returns a company with that id, and nothing exactly when no company has it |
| Workspace.InitValid | src/App.jsx:10-18 | the start state — one company "Company A" with one fresh sheet, current — satisfies the invariant |
| Workspace.MapCompanyValid | src/App.jsx:51-62 | changing only the current company's sheets into a valid list keeps the invariant |
| Workspace.RemoveMarker | src/App.jsx:47 | filtering the markers removes exactly that marker |
| Workspace.UpdateSheetEffect | src/App.jsx:32-64 | a year used by another sheet is refused: companies stay and the year marker is added once; otherwise the marker is removed, the sheet with that id is replaced, the list is re-sorted by year, and other companies are untouched |
| Workspace.RefusedMarkers | src/App.jsx:40 | adding the year marker keeps every marker, adds that one, and repeats none |
| Workspace.AcceptedCompanies | src/App.jsx:51-62 | the update touches only the current company |
| Workspace.UpdateSheetValid | src/App.jsx:32-64 | `updateSheet` keeps the invariant |
| Workspace.NextYear | src/App.jsx:77-79 | the next year is one past the largest year of the list, hence used by no sheet, and is the current year for an empty list |
| Workspace.WithNextSheetEffect | src/App.jsx:67-87 | at ten sheets nothing changes; below, one zeroed sheet with a fresh id and a fresh year is added (id 1 and the current year for an empty list), and the list stays valid |
| Workspace.AppendFreshValid | src/App.jsx:80-83 | appending a sheet with a fresh id and year below the cap and sorting gives a valid list |
| Workspace.AppendFreshUnique | src/App.jsx:81 | appending a sheet with a fresh id or year keeps ids or years unique |
| Workspace.AddNextSheetValid | src/App.jsx:67-87 | `addNextSheet` keeps the invariant |
| Workspace.AddNextSheetEffect | src/App.jsx:67-87 | `addNextSheet` changes only the current company, whose sheets become those of the per-company step; markers, prompt and recorded actions stay |
| Workspace.AddAdjacentEffect | src/App.jsx:90-154 | at ten sheets, or when the year exists, nothing changes; otherwise exactly one zeroed sheet for that year with a fresh id is added, the list stays in year order, and no other company changes |
| Workspace.AddAdjacentValid | src/App.jsx:90-154 | `addNextSheetFor` and `addPreviousSheet` keep the invariant |
| Workspace.DeleteSheetEffect | src/App.jsx:119-126 | exactly the current company's sheets with that id disappear; other companies are untouched |
| Workspace.DeleteSheetValid | src/App.jsx:119-126 | `deleteSheet` keeps the invariant |
| Workspace.NextCompanyId | src/App.jsx:293 | the new company id is one past the largest existing id, whatever its sign, and 1 when there is no company |
| Workspace.MaxCompanyId | src/App.jsx:293 | `Math.max(...)` over the company ids is an upper bound that some company attains |
| Workspace.RunAddCompanyEffect | src/App.jsx:287-303 | `handleAddCompany`: below five companies, "Company " followed by the next letter is appended with a fresh id and a single fresh sheet of id 1, and becomes current; at five nothing changes |
| Workspace.RunValid | src/App.jsx:287-310 | running either action keeps the invariant |
| Workspace.SingleSheetValid | src/App.jsx:298 | a company's single starting sheet is a valid list |
| Workspace.AppendCompanyValid | src/App.jsx:293-301 | appending a company with a fresh id, the next name and valid sheets below the cap keeps the invariant, with it current |
| Workspace.AllErrorsEmpty | src/App.jsx:269-273 | with either scan, the scan of the current company finds nothing exactly when no sheet has a zero field |
| Workspace.AllErrorsSameLength | src/App.jsx:269-273 | the scan as written and the corrected scan report equally many errors on every sheet list |
| Workspace.ValidateAndProceedEffect | src/App.jsx:267-280 | for either scan behind the gate: without zero fields the action runs at once; otherwise it does not run, becomes pending, the errors are stashed and the prompt opens, with the companies unchanged |
| Workspace.GatesDifferOnlyInStash | src/App.jsx:267-280 | the gate as written and the corrected gate run, block and open the prompt on the same states, and differ only in the stashed error records |
| Workspace.RunRecords | src/App.jsx:287-310 | running an action records it once and leaves the prompt state alone |
| Workspace.ConfirmRunsPendingOnce | src/App.jsx:322-328 | confirming a blocked action runs it exactly once, clears it and closes the prompt |
| Workspace.ModalConfirmEffect | src/App.jsx:322-328 | confirming always closes the prompt and clears the pending action, runs that action if there is one exactly once, and keeps the markers |
| Workspace.CancelNeverRuns | src/App.jsx:316-320 | cancelling never runs the pending action, closes the prompt, and replaces the markers with exactly the stashed errors' field ids |
| Workspace.PromptButtonsOnlyWhenOpen | src/App.jsx:453-459 | the prompt's Confirm and Cancel act only while it is open, so after a cancel a confirm changes nothing and the cancelled action never runs |
| Workspace.StepValid | src/App.jsx:32-328 | every event of the page keeps the invariant: at most five companies with unique ids named in order, the current one present, and per company at most ten sheets in ascending year order with unique ids and years |
| Workspace.SheetStepValid | src/App.jsx:32-154 | every sheet event keeps the invariant |
| Workspace.UpdateStepValid | src/App.jsx:32-64 | the update event keeps the invariant |
| Workspace.AddNextStepValid | src/App.jsx:67-87 | the add-next event keeps the invariant |
| Workspace.AdjacentStepValid | src/App.jsx:90-154 | the adjacent-year events keep the invariant |
| Workspace.DeleteStepValid | src/App.jsx:119-126 | the delete event keeps the invariant |
| Workspace.GateStepValid | src/App.jsx:267-328 | every prompt and company-button event keeps the invariant |
| Workspace.CancelValid | src/App.jsx:316-320 | cancelling keeps the invariant |
| Workspace.SelectValid | src/App.jsx:411 | clicking a company button keeps the invariant |
| Workspace.SelectCompanyEffect | src/App.jsx:411 | the `i`-th company button makes exactly that company the one the page edits, and changes no company |
| Workspace.ProceedValid | src/App.jsx:267-280 | `validateAndProceed` keeps the invariant |
| Workspace.ConfirmValid | src/App.jsx:322-328 | confirming keeps the invariant |
| Workspace.ReachableValid | src/App.jsx:10-328 | with either scan behind the gate, every state reachable from the start by any sequence of events satisfies the invariant |
| ErrorGroups.BeforeGt | src/components/ValidationModal.jsx:11-12 | the first part of a location contains no `>` |
| ErrorGroups.SplitAtFirstGt | src/components/ValidationModal.jsx:11-12 | a location splits at its first `>` into the parts it was built from |
| ErrorGroups.MixedCaseComparisonsAreDead | src/components/ValidationModal.jsx:14-21 | lower-cased text never equals `nonCurrent` or `longTerm`, so those comparisons never succeed |
| ErrorGroups.TrimPadded | src/components/ValidationModal.jsx:11 | trimming removes the spaces around `>` |
| ErrorGroups.SubheadingOfPath | src/components/ValidationModal.jsx:11-28 | a location `section > name > key` is shown as the friendly name of its section and name, whatever the key |
| ErrorGroups.PathPartsArePlain | src/App.jsx:184-189 | the section and category names of the scan have no surrounding space and no `>` |
| ErrorGroups.SectionIsPlain | src/App.jsx:184-189 | section names have no surrounding space and no `>` |
| ErrorGroups.SubNameIsPlain | src/App.jsx:184-189 | category names have no surrounding space and no `>` |
| ErrorGroups.NestedErrorMessage | src/components/ValidationModal.jsx:10-28 | every nested error is shown as its category's friendly title, so several zero items of one category give the same line |
| ErrorGroups.LeafLocation | src/App.jsx:177 | a nested error's location is `section > category > key` |
| ErrorGroups.GtInPath | src/components/ValidationModal.jsx:10 | a nested location contains `>` |
| ErrorGroups.PlainLocationShownAsIs | src/components/ValidationModal.jsx:29-31 | a location without `>` is shown verbatim |
| ErrorGroups.FlatLocationsArePlain | src/App.jsx:163-262 | the year and flat-metric locations contain no `>`, so they are shown under their own labels |
| ErrorGroups.MetricLabelIsPlain | src/App.jsx:195-259 | no flat-metric label contains `>` |
| ErrorGroups.UnknownSubcategoryKept | src/components/ValidationModal.jsx:12-28 | a subcategory outside the table keeps its own text |
| ErrorGroups.FriendlyOfScanPath | src/components/ValidationModal.jsx:14-27 | the six scanned categories map to their six friendly titles, the mixed-case keys through the lower-cased comparison |
| ErrorGroups.FriendlyIsTitleOrSub | src/components/ValidationModal.jsx:12-28 | the subheading is the subcategory text itself or the friendly title of a category of the same section |
| ErrorGroups.FriendlyOfLower | src/components/ValidationModal.jsx:14-27 | for a lower-case section the mapping depends only on the lower-cased subcategory |
| ErrorGroups.FindAddMessage | src/components/ValidationModal.jsx:32-35 | one iteration creates the year's group when missing and adds the message when new, touching no other year |
| ErrorGroups.FindIffPresent | src/components/ValidationModal.jsx:32 | a year has a group exactly when it is among the keys |
| ErrorGroups.MessagesUnderAbsentKey | src/components/ValidationModal.jsx:32-35 | a year with no entry has no messages |
| ErrorGroups.AccumulateIsGrouping | src/components/ValidationModal.jsx:7-36 | after the loop there is exactly one group per year present among the errors, holding that year's distinct messages in first-occurrence order, and no group for an absent year |
| ErrorGroups.FindStep | src/components/ValidationModal.jsx:32-35 | one more iteration keeps the grouping property |
| ErrorGroups.YearsStep | src/components/ValidationModal.jsx:32-33 | one more iteration keeps the keys in first-occurrence order without repetition |
| ErrorGroups.Arrange | src/components/ValidationModal.jsx:46-53 | the listed groups are the loop's keys in ascending string order, each with its own messages |
| ErrorGroups.AccumulateYearsDistinct | src/components/ValidationModal.jsx:32-33 | no year key appears twice |
| ErrorGroups.ArrangeIsGrouping | src/components/ValidationModal.jsx:7-53 | the groups shown are exactly the years present, strictly ascending, each with its distinct messages in first-occurrence order |
| ErrorGroups.ArrangeKeys | src/components/ValidationModal.jsx:46-48 | a year is shown exactly when it is present |
| ErrorGroups.ArrangeMessages | src/components/ValidationModal.jsx:53 | each shown group lists its year's distinct messages in first-occurrence order |
| ErrorGroups.EntryListed | src/components/ValidationModal.jsx:35 | every entry's message is among its year's messages |
| ErrorGroups.EntryShown | src/components/ValidationModal.jsx:7-53 | every entry is shown under its year |
| ErrorGroups.NoErrorDropped | src/components/ValidationModal.jsx:7-53 | no error is dropped: its message appears in its year's group |
| ErrorGroups.GroupsAreDistinct | src/components/ValidationModal.jsx:32-53 | messages within a group are distinct, and no two groups share a year |
| ErrorGroups.FourDigits | src/components/ValidationModal.jsx:46-47 | a year from 1000 to 9999 is written with four digits |
| ErrorGroups.FourDigitYearsInNumericOrder | src/components/ValidationModal.jsx:46-48 | for four-digit years the groups appear in numeric year order |
| Dropdown.AutoOpenFacts | src/components/DropDown.jsx:17-23 | the effect never closes the category, opens it exactly when a line item is marked, and running it twice is running it once |
| Dropdown.Toggle | src/components/DropDown.jsx:25 | toggling flips `open` |
| Dropdown.TotalAfterEdit | src/components/DropDown.jsx:26-60 | editing one line item moves the header total by exactly the change in its value |
| Dropdown.CorrectedIdIsFieldId | src/components/DropDown.jsx:19-46 | an id of the corrected scan is exactly the id the drop-down looks for |
| Dropdown.ZeroLeafReported | src/App.jsx:171-189 | a zero line item's error is in the scan's output |
| Dropdown.ZeroLeafHighlighted | src/components/DropDown.jsx:17-47 | with the corrected scan, cancelling the prompt marks every zero line item and opens its category |
| Dropdown.AsWrittenIdMatchesLowerCaseCategory | src/App.jsx:178 | for a category whose name is already lower-case, the scan's id equals the drop-down's id |
| Dropdown.DifferAt | src/components/DropDown.jsx:19 | strings that differ at a shared position differ whatever follows |
| Dropdown.SameTail | src/components/DropDown.jsx:19 | two ids with the same `sheet-{id}.` shape agree on what follows |
| Dropdown.DistinctTails | src/components/DropDown.jsx:19 | ids with different tails differ |
| Dropdown.LowerPlainPath | src/App.jsx:178 | lower-casing leaves the paths of `current`, `common` and `comprehensive` unchanged |
| Dropdown.LowerNonCurrent | src/App.jsx:178 | `assets.nonCurrent` becomes `assets.noncurrent` |
| Dropdown.LowerLongTerm | src/App.jsx:178 | `liabilities.longTerm` becomes `liabilities.longterm` |
| Dropdown.PathDiffAt | src/App.jsx:178 | every lower-cased category path differs from `assets.nonCurrent` and `liabilities.longTerm` at a position both have |
| Dropdown.LeafTailDiffers | src/App.jsx:178 | no nested id of the scan has the tail of a non-current or long-term line item |
| Dropdown.FlatTailDiffers | src/App.jsx:163-262 | neither the year id nor a flat id has such a tail |
| Dropdown.AsWrittenNeverMarks | src/App.jsx:178 | no id the scan produces equals the drop-down id of a non-current asset or long-term liability |
| Dropdown.LeafNeverMarks | src/App.jsx:178 | no nested id the scan produces equals such a drop-down id |
| Dropdown.OtherNeverMarks | src/App.jsx:163-262 | no year or flat id equals such a drop-down id |
| Dropdown.IdShape | src/components/DropDown.jsx:19 | a drop-down id is `sheet-{id}.` followed by section, category and key |
| Dropdown.NonCurrentZeroNotHighlighted | src/App.jsx:178 | a zero non-current asset or long-term liability is reported, yet after cancelling it is not marked and its category does not open |
| Dropdown.AsWrittenIdsNeverMark | src/App.jsx:178 | none of the scan's ids is the id of such a line item |
| Dropdown.FreshSheetGoodwillNotHighlighted | src/components/DropDown.jsx:19 | on a fresh sheet, "Goodwill" is 0 and reported, but never highlighted |
| SheetForm.UpdateFieldEffect | src/components/BalanceSheetForm.jsx:87-94 | the edited item reads back the new value; every other item keeps its value and the key order; the other categories and all other properties are unchanged |
| SheetForm.Rename | src/components/BalanceSheetForm.jsx:120-128 | the name edit sets the name and an identifier and changes nothing else |
| SheetForm.RecomputeIdentifier | src/components/BalanceSheetForm.jsx:77 | recomputing the identifier after an upload changes nothing else |
| SheetForm.RenameAgreesWithRecompute | src/components/BalanceSheetForm.jsx:77-128 | after a rename the identifier is already the recomputed one, and renaming twice is renaming once |
| SheetForm.IdentifierDeterminesYear | src/components/BalanceSheetForm.jsx:124 | under one name, the identifier tells the years apart |
| SheetForm.TitleAfterRename | src/components/BalanceSheetForm.jsx:120-135 | after a rename the title is `newName-year` |
| SheetForm.EditIncome | src/components/BalanceSheetForm.jsx:284 | the income edit sets `income` and changes nothing else |
| SheetForm.EquationIffBalanced | src/components/BalanceSheetForm.jsx:105-108 | over integers the accounting equation holds exactly when the overall balance is 0 |
| SheetForm.BalanceIsSignedSum | src/components/BalanceSheetForm.jsx:99-105 | the balance is the asset sums minus the liability and equity sums, category by category |
| SheetForm.UpdateFieldBalance | src/components/BalanceSheetForm.jsx:87-105 | editing an item moves the balance by the change in value, with the sign of its section |
| SheetForm.DefaultSheetBalances | src/components/BalanceSheetForm.jsx:99-108 | a fresh sheet balances and satisfies the equation |
| SheetForm.ZeroCategoriesBalance | src/components/BalanceSheetForm.jsx:99-108 | a sheet whose six categories each sum to 0 balances |
| SheetForm.FlatInAllFields | src/App.jsx:191-262 | every flat metric is visited by the scan |
| SheetForm.FlatZeroHighlighted | src/components/BalanceSheetForm.jsx:110-111 | a flat field at 0 is highlighted after the prompt is cancelled |
| SheetHelpers.TotalSheetsSnoc | src/utils/sheetHelpers.js:5-11 | one more company adds its number of sheets |
| SheetHelpers.FlattenLength | src/utils/sheetHelpers.js:5-11 | the output holds as many records as there are sheets |
| SheetHelpers.FlattenAt | src/utils/sheetHelpers.js:5-11 | records come company-major, sheet-minor: company `k`'s sheet `j` is at its company's offset plus `j` |
| SheetHelpers.StampKeepsSheet | src/utils/sheetHelpers.js:7-9 | stamping sets the owner's id and name and copies every other field unchanged |
| SheetHelpers.FlattenFrom | src/utils/sheetHelpers.js:5-11 | every record comes from some company's sheet |
| SheetHelpers.FlattenEmpty | src/utils/sheetHelpers.js:3-12 | no companies, or companies without sheets, give no records |
| SheetHelpers.ZeroSheets | src/utils/sheetHelpers.js:5-11 | companies without sheets count no sheets |
| SheetsPage.HandleUpdateSheet | src/components/BalanceSheetsPage.jsx:19-31 | only the given company changes, and in it only the sheets with the edited id, in place |
| SheetsPage.HandleDeleteSheet | src/components/BalanceSheetsPage.jsx:34-42 | exactly that company's sheets with that id disappear; other companies are untouched |
| SheetsPage.Render | src/components/BalanceSheetsPage.jsx:13-84 | with the NEXT button wired to `onNext`: missing or empty companies render only the fallback text, anything else the cards, and nothing throws |
| SheetsPage.RenderAsWritten | src/components/BalanceSheetsPage.jsx:14-78 | as written: missing or empty companies render the fallback, and every other render throws at the undeclared `handleNext` |
| SheetsPage.HandleAsWritten | src/components/BalanceSheetsPage.jsx:55-78 | dispatching an event through what the written page renders never reaches `onUpdateCompanies`, since every render is the fallback or a throw; on the fallback it agrees with the intended page |
| SheetsPage.NonEmptyPageThrows | src/components/BalanceSheetsPage.jsx:13-78 | the page as written and the intended page agree exactly on the fallback; with companies the first throws and the second shows them |
| SheetsPage.Handle | src/components/BalanceSheetsPage.jsx:14-53 | on the intended page, the fallback fires no callback, and `handleAddPreviousSheet` and `handleAddNextSheet` never change the companies |
| SheetsPage.HandleKeepsCompanies | src/components/BalanceSheetsPage.jsx:19-42 | whatever the event, the companies' number, ids and names are unchanged |
| SheetsPage.DeleteKeepsSheetsValid | src/components/BalanceSheetsPage.jsx:34-42 | deleting keeps every company's sheet list valid |
| SheetsPage.UpdateCanBreakOrder | src/components/BalanceSheetsPage.jsx:20-28 | unlike the main page, this update can break year order and year uniqueness |
| ProblemStore.Reduce | src/store/problemSlice.js:14-30 | start sets loading and clears the error; success stores the problems, clears the answers and stops loading; failure stores the error and stops loading; an answer is recorded under its id with every other answer unchanged |
| ProblemStore.StartThenSuccess | src/store/problemSlice.js:14-22 | start then success leaves no error and not loading |
| ProblemStore.UpdateAnswerIdempotent | src/store/problemSlice.js:27-30 | recording the same answer twice is recording it once |
| ProblemStore.UpdateAnswersCommute | src/store/problemSlice.js:27-30 | answers for different problems commute |
| ProblemStore.ReplayAnswers | src/store/problemSlice.js:3-30 | from the start, the recorded answers are exactly those given since the last successful fetch, and loading holds exactly when the last fetch event was a start |
| DateStore.ResetIdempotent | src/store/dateSlice.js:13-15 | resetting twice is resetting once, and gives 1 |
| DateStore.ReplayValue | src/store/dateSlice.js:3-16 | from the start, the day is one plus the increments since the last reset, hence at least 1 |
| GameProgress.DaysFacts | src/components/GameProgress.jsx:12-47 | the days ascend and are exactly 1..currentDate; no day is both disabled and latest; all but the last are disabled; the last is latest |
| GameProgress.Click | src/components/GameProgress.jsx:47-66 | a click starts a fetch, for that day, exactly when the day is the latest |
| GameProgress.Clickable | src/components/GameProgress.jsx:45-66 | a day is clickable exactly when it is shown and clicking it starts a fetch, so the clickable days are among the shown days |
| GameProgress.ClickableOf | src/components/GameProgress.jsx:66 | a day is clickable exactly when it is shown and latest |
| GameProgress.ClickableOfDistinct | src/components/GameProgress.jsx:66 | among distinct days, only the current day can be clicked |
| GameProgress.ClickableIsCurrentDay | src/components/GameProgress.jsx:12-66 | exactly the current day is clickable when there is one, and none otherwise |
| Quiz.OptionAt | src/components/GamePlay1.jsx:139-140 | `options[k]` is the option text in range and `undefined` out of range |
| Quiz.Advance | src/components/GamePlay1.jsx:146-150 | "Next" goes to the following question exactly when one remains, else the game ends |
| Quiz.Wrap | src/components/GamePlay.jsx:174-179 | "Next" advances by one below the last question and wraps to 0 after it, staying in range |
| GameEnd.FormatAnswerFacts | src/components/GameEnd.jsx:6-11 | formatting twice is formatting once, and distinct booleans stay distinct |
| GameEnd.WrongIndices | src/components/GameEnd.jsx:19 | there is one wrong position per wrong entry, each a position of the results |
| GameEnd.CountsAddUp | src/components/GameEnd.jsx:17-19 | the correct count plus the number of wrong entries is the number of entries |
| GameEnd.WrongInOrder | src/components/GameEnd.jsx:19 | the wrong list is exactly the entries with `isCorrect` false, in their original order |
| GameEnd.WrongPicks | src/components/GameEnd.jsx:19 | entry `k` of the wrong list is the results entry at the `k`-th wrong position |
| GameEnd.WrongAscending | src/components/GameEnd.jsx:19 | the wrong positions ascend |
| GameEnd.WrongExactly | src/components/GameEnd.jsx:19 | the wrong positions are exactly those of the entries with `isCorrect` false |
| GameEnd.AllCorrectIff | src/components/GameEnd.jsx:122-124 | "All answers are correct" is shown exactly when every entry is correct, that is when the count equals the number of entries |
| GameEnd.ReviewInRange | src/components/GameEnd.jsx:22-105 | the review index only ever points into the wrong list, and "Close Review" clears it |
| GameEnd.ReviewPanel | src/components/GameEnd.jsx:67-93 | a panel is shown exactly when a review index `k` is set; it describes the results entry at `WrongIndices(rs)[k]`, a wrong one: its id, question, both answers formatted, and its explanation exactly when that is a non-empty string |
| OptionQuiz.EntryFor | src/components/GamePlay1.jsx:136-142 | the entry names the question, the picked and the right option texts, and is correct exactly when the pick is the right option |
| OptionQuiz.SelectionLocks | src/components/GamePlay1.jsx:129-132 | a second pick never changes the first |
| OptionQuiz.NextEffect | src/components/GamePlay1.jsx:135-151 | "Next" records exactly one entry for the current question, clears the pick, and advances or ends the game at the last question |
| OptionQuiz.NextValid | src/components/GamePlay1.jsx:135-151 | while playing there is one entry per question passed; at game over one per question |
| OptionQuiz.Replay | src/components/GamePlay1.jsx:129-159 | after any clicks the state is valid, and at game over the result screen gets one entry per question |
| OptionQuiz.OptionStyleFacts | src/components/GamePlay1.jsx:113-125 | nothing picked: all neutral; a right pick: only it is blue; a wrong pick: it is red and the right option blue |
| PracticeLoop.Step | src/components/GamePlay.jsx:130-199 | the index stays in 0..9; a click after a pick changes nothing; "Next" clears the pick; the settings button opens the modal and its close and end-session buttons close it, changing nothing else, while picks and "Next" leave the modal flag alone |
| PracticeLoop.Replay | src/components/GamePlay.jsx:129-199 | after any events the index is in 0..9 |
| PracticeLoop.NextWraps | src/components/GamePlay.jsx:174-179 | "Next" on the picked last question starts over at the first, with no pick |
| NumericQuiz.StepFacts | src/components/GamePlay2.jsx:124-153 | every step keeps the state valid; `handleSubmit` ignores an empty answer and sets `isSubmitted` for a non-empty one; "Next" after submitting clears the answer and `isSubmitted`; help toggles; the modal opens, closes, and `handleEndSession` closes it |
| NumericQuiz.Replay | src/components/GamePlay2.jsx:105-153 | after any events the index stays in range and a submitted answer is never empty |
| TrueFalseQuiz.EntryFor | src/components/GamePlay3.jsx:96-111 | the entry holds the answer given, the question's answer and explanation, and is correct exactly when they agree |
| TrueFalseQuiz.AnswerLocks | src/components/GamePlay3.jsx:98-101 | the first answer to a question sets the pick; a second press, whose buttons are gone after submitting, changes nothing |
| TrueFalseQuiz.NextValid | src/components/GamePlay3.jsx:103-121 | "Next" after answering records the answer given, clears the pick and the submission, and keeps one entry per question passed |
| TrueFalseQuiz.Replay | src/components/GamePlay3.jsx:98-128 | after any events the state is valid, and at game over there is one entry per question |
| DefinitionCard.FirstClickWins | src/components/GamePlayDefinition.jsx:9-13 | after any clicks the pick is the first click |
| DefinitionCard.Render | src/components/GamePlayDefinition.jsx:4-44 | a missing problem shows only the loading text; a verdict is shown exactly after a pick |
| DefinitionCard.VerdictFacts | src/components/GamePlayDefinition.jsx:41-42 | the success line is shown exactly for the right pick; otherwise the line names the right option's text |
| TrueFalseCard.Encode | src/components/GamePlayTrueFalse.jsx:21-36 | the buttons pass 0 or 1 |
| TrueFalseCard.EncodeFacts | src/components/GamePlayTrueFalse.jsx:21-48 | "True" is 0 and "False" is 1, and distinct buttons pass distinct numbers |
| TrueFalseCard.LastAnswerCounts | src/components/GamePlayTrueFalse.jsx:9-14 | after any answers only the last counts, and an out-of-range right answer is never matched |
| TrueFalseCard.WrongLineNamesTrueIffZero | src/components/GamePlayTrueFalse.jsx:54 | the wrong-answer line names "True" exactly when the right answer is 0 |
| Charts.SpaceCaps | src/components/VisualizationPage.jsx:154 | inserting spaces never shortens the text |
| Charts.CapitalizeFirst | src/components/VisualizationPage.jsx:156 | capitalising keeps the length |
| Charts.SpaceCapsAppend | src/components/VisualizationPage.jsx:154 | the replacement works character by character |
| Charts.SpaceCapsOfLower | src/components/VisualizationPage.jsx:154 | text without capitals is unchanged |
| Charts.SpaceCapsLast | src/components/VisualizationPage.jsx:154 | the last character stays last |
| Charts.DropSpaceCaps | src/components/VisualizationPage.jsx:154 | removing the inserted spaces gives back the word |
| Charts.DropSpacesAppend | src/components/VisualizationPage.jsx:154 | removing spaces works piece by piece |
| Charts.TrimSpaceCaps | src/components/VisualizationPage.jsx:154-155 | the trim removes only the space put before a leading capital |
| Charts.SpaceCapsCons | src/components/VisualizationPage.jsx:154 | a capital gets one space before it |
| Charts.TrimSpaced | src/components/VisualizationPage.jsx:155 | trimming removes one leading space and nothing else |
| Charts.SpacedEnds | src/components/VisualizationPage.jsx:154-155 | a spaced word starts and ends with a non-space |
| Charts.TrimStartSkipsSpace | src/components/VisualizationPage.jsx:155 | a leading space is skipped |
| Charts.FormatLabelOnlyAddsSpaces | src/components/VisualizationPage.jsx:152-157 | for a word without spaces, `formatLabel` only inserts spaces and capitalises the first letter |
| Charts.LettersHaveNoSpace | src/components/VisualizationPage.jsx:152-157 | a word of letters has no white space |
| Charts.FormatTwoWords | src/components/VisualizationPage.jsx:152-157 | a camel-case pair such as `currentRatio` becomes `Current Ratio` |
| Charts.FormatOneWord | src/components/VisualizationPage.jsx:152-157 | a lower-case word such as `roa` becomes `Roa` |
| Charts.EbitdaSeries | src/components/VisualizationPage.jsx:140-146 | the series exists exactly when the lookups cannot throw, has the Revenue series' length, and holds each year's sum |
| Charts.CalculateEbitda | src/components/VisualizationPage.jsx:133-149 | fails exactly when some company's lookup would throw; otherwise one entry per company, in order, with the company's name and its series |
| Charts.EbitdaIsTermSum | src/components/VisualizationPage.jsx:140-146 | where every series covers the year, the entry is Net Income + Interest Expenses + Income Taxes + Depreciation + Amortization |
| Charts.ColorAtEq | src/components/VisualizationPage.jsx:5-8 | the seven colours are pairwise distinct, so two datasets share a colour exactly when their positions agree modulo seven |
| Charts.CompDatasets | src/components/VisualizationPage.jsx:72-81 | one dataset per company in order, labelled `<name> - <category>`, holding the company's series for the category exactly when it has one, coloured by position modulo seven |
| Charts.FinDatasets | src/components/VisualizationPage.jsx:83-92 | one dataset per category of the statement in order, labelled with the category, holding its series exactly when it has one, coloured by position modulo seven |
| Charts.FinDatasetsReadBack | src/components/VisualizationPage.jsx:83-92 | the labels read back the category list, data is present exactly for the categories with a series, and two datasets share a colour exactly when they are a multiple of seven apart |
| Charts.CompDatasetsDistinguishCompanies | src/components/VisualizationPage.jsx:72-81 | two datasets have the same label exactly when their companies have the same name, and share a colour exactly when they are a multiple of seven apart |
| Gradient.HexDigitValue | src/components/AboutPage.jsx:8 | a hexadecimal digit denotes a value below 16 |
| Gradient.HexChar | src/components/AboutPage.jsx:25 | `toString(16)` writes a lower-case hexadecimal digit |
| Gradient.HexCharRoundTrip | src/components/AboutPage.jsx:8-25 | reading a written digit gives back its value |
| Gradient.HexDigitRoundTrip | src/components/AboutPage.jsx:8-25 | writing back a digit that was read gives it in lower case |
| Gradient.HexPrefix | src/components/AboutPage.jsx:8 | `parseInt` reads the longest run of hexadecimal digits |
| Gradient.ParseInt16 | src/components/AboutPage.jsx:8-15 | the result is NaN exactly when no digit is read |
| Gradient.ParseDigits | src/components/AboutPage.jsx:8-15 | only hexadecimal digits are read |
| Gradient.ParseTwoDigits | src/components/AboutPage.jsx:8-15 | two hexadecimal digits are read as their value |
| Gradient.TrimStartOfWord | src/components/AboutPage.jsx:8 | text starting with a non-space is not trimmed |
| Gradient.AllHexPrefix | src/components/AboutPage.jsx:8 | a run of digits is read in full |
| Gradient.PairValue | src/components/AboutPage.jsx:8 | two digits denote sixteen times the first plus the second |
| Gradient.ParseNaN | src/components/AboutPage.jsx:8-15 | text starting with neither space, sign nor digit reads as NaN |
| Gradient.HexString | src/components/AboutPage.jsx:25 | a number is written with lower-case hexadecimal digits, one digit exactly below 16 |
| Gradient.ToHexTwoDigits | src/components/AboutPage.jsx:24-27 | a channel 0..255 is written as exactly two lower-case digits, zero-padded, denoting it |
| Gradient.ParseToHex | src/components/AboutPage.jsx:7-27 | reading back what `toHex` writes for 0..255 gives the number |
| Gradient.ToHexOfParse | src/components/AboutPage.jsx:7-27 | writing back two digits that were read gives them in lower case |
| Gradient.Slice | src/components/AboutPage.jsx:8-15 | `slice` returns the requested characters when they exist, and never more |
| Gradient.Blend | src/components/AboutPage.jsx:19-21 | `Math.round` of the blend is the nearest integer, halves rounded up, and NaN when either channel is NaN |
| Gradient.BlendBetween | src/components/AboutPage.jsx:19-21 | a blend with a factor between 0 and 1 stays between its two ends |
| Gradient.RoundedAtLeast | src/components/AboutPage.jsx:19-21 | rounding a value of at least `v` gives at least `v` |
| Gradient.RoundedAtMost | src/components/AboutPage.jsx:19-21 | rounding a value of at most `v` gives at most `v` |
| Gradient.BlendEnds | src/components/AboutPage.jsx:19-21 | factor 0 gives the first channel and factor 1 the second |
| Gradient.Byte | src/components/AboutPage.jsx:8-15 | two digits denote a value 0..255 |
| Gradient.SliceOfPair | src/components/AboutPage.jsx:8-15 | a two-character slice is those two characters |
| Gradient.ColorChannels | src/components/AboutPage.jsx:7-16 | the three channels of a `#rrggbb` colour are its three digit pairs |
| Gradient.ChannelAt | src/components/AboutPage.jsx:8-15 | a digit pair is read as its value |
| Gradient.RenderOfColor | src/components/AboutPage.jsx:7-29 | rendering the channels read from a colour gives the colour back in lower case |
| Gradient.ToHexOfByte | src/components/AboutPage.jsx:24-27 | writing back the value of a digit pair gives the pair in lower case |
| Gradient.ColorParts | src/components/AboutPage.jsx:29 | a colour in lower case is `#` and its three lower-cased pairs |
| Gradient.InterpolateEnds | src/components/AboutPage.jsx:5-30 | for `#rrggbb` inputs, factor 0 gives the first colour and factor 1 the second, both in lower case |
| Gradient.InterpolateIsColor | src/components/AboutPage.jsx:5-30 | between the ends, two `#rrggbb` colours blend into a lower-case `#rrggbb` colour |
| Gradient.BlendByte | src/components/AboutPage.jsx:19-21 | blending two channels 0..255 gives a channel 0..255 |
| Gradient.RenderIsColor | src/components/AboutPage.jsx:24-29 | three channels 0..255 render as a lower-case `#rrggbb` colour |
| Gradient.InterpolateNaN | src/components/AboutPage.jsx:5-30 | an unreadable red channel in either colour prints as `NaN` |
| Gradient.RenderNaN | src/components/AboutPage.jsx:25-29 | a NaN red channel prints as `NaN` after the `#` |
| Gradient.Factor | src/components/AboutPage.jsx:42 | a character's factor is a fraction between 0 and 1 |
| Gradient.GradientText | src/components/AboutPage.jsx:37-49 | one glyph per character, bare exactly for a space |
| Gradient.GradientTextShape | src/components/AboutPage.jsx:37-49 | spaces stay bare; every other character keeps itself and takes the colour at its factor |
| Gradient.GradientTextEnds | src/components/AboutPage.jsx:33-52 | with `#rrggbb` colours the first letter takes the start colour, the last the end colour, and every letter a `#rrggbb` colour |
| Gradient.FirstGlyph | src/components/AboutPage.jsx:42-43 | the first letter takes the start colour |
| Gradient.LastGlyph | src/components/AboutPage.jsx:42-43 | the last letter of a longer text takes the end colour |
| Gradient.GlyphColors | src/components/AboutPage.jsx:42-43 | every letter takes a `#rrggbb` colour |
| Gradient.GlyphAt | src/components/AboutPage.jsx:42-47 | a letter's glyph is the letter with the colour at its factor |

## Left out

- `handleFileUpload`, drag and drop, the upload and analysis requests, and the `lodash.merge` deep merge (src/components/BalanceSheetForm.jsx:20-84): these are network I/O and a foreign library. Only the identifier recomputation of line 77 is modelled, as `SheetForm.RecomputeIdentifier`.
- The async fetch in the day picker's `handleDayClick`, the API clients, the login pages, the auth provider, the store wiring and the entry point: these are network and session glue. The click gate that decides whether the fetch starts is modelled.
- Floating point: the ratio charts, the 0.01-tolerance answer checks of the numeric quiz, `progressPercentage`, and `toLocaleString` formatting. Factors in the gradient are exact fractions `num / den`, and `Math.round` is modelled exactly on them.
- `Number(...)` and `parseInt(...)` coercion of typed text in the editable field (src/components/EditableField.jsx:15): amounts and years are integers, and an absent flat metric is `None`, never flagged because `Number(undefined)` is NaN. A `null` or empty-string value is not represented: `Number` turns it into 0, so the scan would flag it (the prompt printing `null`). Fractional and non-numeric values are not represented either.
- Sheets.SetKeyEffect: JavaScript places a new key that is a canonical array index (`"0"`, `"42"`) before every non-numeric key, in ascending numeric order. The model appends every new key last, which agrees with JavaScript for the non-numeric line-item names the app creates.
- Sheets.SetKeyKeys: the same restriction on array-index keys as `Sheets.SetKeyEffect`.
- SheetForm.Rename: the sheet name's field is a number input whose change handler passes `Number(localValue)` (src/components/EditableField.jsx:15-23), so as written a name can only become a number (0 for an empty box). The model takes the name as the typed text, which the name field evidently means to carry; the identifier is then `name-year` either way.
- GameEnd.ReviewPanel: the panel's `calculation` and `formula` lines (src/components/GameEnd.jsx:94-103) are not modelled. Neither quiz screen that reaches the result screen records those fields (src/components/GamePlay1.jsx:136-142, src/components/GamePlay3.jsx:104-111), so they never render.
- `alert`, `window.location`, the settings modals' styling, and every chart, style and layout effect: these are display side effects. Where an alert accompanies a refusal, the refusal itself is modelled.
- The current calendar year is a parameter, `thisYear`.
- `updateField` writes into the section object it shares with the previous sheet (src/components/BalanceSheetForm.jsx:88-92). The model is functional: the old sheet is left as it was.
- `setPendingAction(() => action)` keeps a closure over the companies as they were when the action was blocked. The model records which action is pending and runs it on the state at the time of confirmation. The prompt's two buttons act only while it is open (src/App.jsx:453-459), so a cancelled action cannot be confirmed later. The model does not block the page's other events while the prompt is open, since the overlay's styling is not part of this model: it accepts sheet edits, the gated buttons and company clicks at any time. That over-approximation only adds reachable states, so `Workspace.ReachableValid` covers every state the page can reach; a confirm after such an edit runs the action on the edited companies, where the closure would use the companies it captured.
- Case conversion and trimming follow ASCII and the ECMAScript white-space set; `split('')` is taken to split into characters, not UTF-16 code units.
- A missing `validationErrors` prop on the sheet form is treated as an empty list of markers; the form otherwise checks membership exactly as `validationErrors.includes(id)` does.
- `Gradient.Blend`: the blend is stated as the nearest-integer bounds, with no claim about the floating-point value `factor` would have in JavaScript.

## Findings

| source | as written | input that shows it | evidently intended | confidence | as-written member | corrected member |
|---|---|---|---|---|---|---|
| src/App.jsx:178 | the scan builds a nested field id from the lower-cased category path, `sheet-1.assets.noncurrent.Goodwill`, while the drop-down looks for `sheet-1.assets.nonCurrent.Goodwill` (src/components/DropDown.jsx:19) | a fresh sheet with id 1: "Goodwill" is 0, is reported, and after Cancel is neither highlighted nor auto-opened; the same for every long-term liability | build the id with the category path in its original case, so that every reported line item is highlighted | not executed; proved on the model | Dropdown.NonCurrentZeroNotHighlighted, Dropdown.FreshSheetGoodwillNotHighlighted, Dropdown.AsWrittenNeverMarks | Validation.FindZeroFields, Dropdown.ZeroLeafHighlighted |
| src/components/BalanceSheetsPage.jsx:78 | the NEXT button's `onClick={handleNext}` names an identifier declared nowhere in the file, so evaluating it throws a `ReferenceError` | any non-empty `companies`: the page throws instead of rendering its cards, so none of its handlers can ever fire | `onClick={onNext}`, the callback the component receives at line 13 and documents at line 11 | not executed; follows from JavaScript's name resolution | SheetsPage.RenderAsWritten, SheetsPage.NonEmptyPageThrows | SheetsPage.Render, SheetsPage.HandleKeepsCompanies |
