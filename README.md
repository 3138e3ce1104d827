# Defect tracer record pipeline, modelled in Dafny

This project models the record pipeline of the CFM Infratrade defect tracer.
The tracer is a small Streamlit application over two Google worksheets:

- worksheet 1 holds one row per defect case;
- worksheet 2 holds the product catalogue.

The model covers the three pages' logic:

- **Submit Defects** (`pages/Submit_Defects.py`):
  - the form checks of `validate_inputs` and the numbered error box;
  - the case number (`DDMMYYYY-NN`, counting today's cached rows);
  - the same-day duplicate check;
  - `submit_defect`, which appends to the worksheet and to the session cache;
  - catalogue growth for a new product.
- **View Submissions** (`pages/View_Submissions.py`):
  - the account's records and the "years with data" list;
  - the tab-1 filter loop, the newest-first stable sort, the totals, the submission dates and the result label;
  - the tab-2 case lookup and case view;
  - "Mark as Closed", which updates the cache and up to four worksheet cells;
  - the tab-3 monthly roll-ups of quantity, cost and submissions.
- **Login** (`Login.py`):
  - the e-mail regular expression;
  - the "Add Account" checks;
  - the "Login" check.

## Modules

| file | module | what it holds |
|---|---|---|
| `wrappers.dfy` | `Wrappers` | `Option` |
| `text.dfy` | `Text` | character classes; the two "has a letter or number" regular expressions; decimal and money text; `strip()` and the `int()` and `float()` readers of text; line splitting |
| `datetimes.dfy` | `DateTimes` | calendar dates; the `%d/%m/%Y %H:%M:%S` layout and its strict parser |
| `records.dfy` | `Records` | the sheet columns; cells (`str`, `int`, `float` in cents); rows as dicts; Python `==` between cells |
| `defect_form.dfy` | `DefectForm` | `validate_inputs` and the error box |
| `submissions.dfy` | `Submissions` | the case number; the submitted cache row; the duplicate check |
| `session.dfy` | `SessionCache` | the session cache and worksheets as one `Session` class; reading back; `update_cell` |
| `submit_page.dfy` | `SubmitPage` | one press of "Submit" |
| `view_filter.dfy` | `ViewFilter` | tab 1 |
| `view_case.dfy` | `ViewCase` | tab 2 |
| `monthly.dfy` | `MonthlyChart` | tab 3 |
| `login.dfy` | `Login` | the login page checks |

### Representation choices

- **Values and rows.**
  - A cell is `Str`, `Int` or `Float`; a float is held as a whole number of cents. Python's `==` between cells is `PyEq`.
  - A record is a `map<Column, Cell>`, so a missing key (a Python `KeyError`) is a missing map entry.
  - Every point where the source raises (`KeyError`, `ValueError`, `IndexError`) becomes a `None` or an error outcome, not a precondition.
- **State.** The session cache (`sheet1_records`, `existing_categories`) and the two worksheets are the fields of `SessionCache.Session`. The worksheets are ghost fields: the page never reads them back within a session.
- **Parameters instead of I/O.**
  - The clock is a `now`/`today` parameter, one instant per button press.
  - The signed-in account is an `email` parameter.
  - What `sheet1.find` returns is a `found: Option<nat>` parameter.

### Behaviour of the code as written

The model follows the code and proves these consequences of it:

- **A submission hides the account's records.** `submit_defect` caches a dict of ten keys, with no "Account" key. The next `row["Account"]` on the View page then raises `KeyError` (`SubmissionHidesRecords`).
- **A reloaded submission is shifted by one column.** The appended worksheet row has no "Customer" value, so every value after the case number lands one column early when the sheet is read again. The reloaded row has an empty Timestamp, Status and Account (`ReloadedSubmission`).
- **The stored cost differs by product choice.**
  - A new product's cost is stored as two-decimal text.
  - An existing product's cost is stored as a float.
  - So the record of a new-product submission never makes a later resubmission of the same form, once the product exists, a duplicate: the scan answers as it would without that record (`NewProductResubmissionNotFlagged`).
  - The same existing-product form, submitted again the same day after the first press got through, is flagged (`SameExistingProductFlagged`).
- **A new product is catalogued before the duplicate check.** The catalogue grows even when the submission is then rejected as a duplicate (`SubmitPage.HandleSubmit`).
- **Closing a case changes the cache unconditionally.** "Mark as Closed" updates the cache whether or not `sheet1.find` locates the row, and nothing is reported when it does not (`ViewCase.MarkAsClosed`, `SessionCache.Session.CloseCase`). An empty comment is stored as the empty text (`CloseCheckOrder`).
- **The result label.**
  - `filter_display` never returns "Invalid", so the "Showing the latest records" branch cannot be reached.
  - Its label is empty unless a product, type or status filter is set, even when a date filter is set (`FilterLabel`, `LabelAndButtonDisagree`).
  - In every state the widgets can reach, a button saying "All" lists every row whose timestamp parses (`AllButtonKeepsEveryRow`): returning the year to "None" recreates the month and day widgets at "None".
- **Tab 3 parses without a guard.** Tab 3 parses every timestamp with no `try`, so one empty or malformed timestamp stops the page (`ChartYears`, `ChartRecords`). The page-level year list, built before any tab, skips empty timestamps but raises on a malformed one. So the tab-1 loop's `continue` on a parse failure only ever skips rows with an empty timestamp (`ShowSubmissions`, `SkippedStampsAreEmpty`).

### Where the code and the documented intent differ

The model follows the code in each case:

- The duplicate test compares nine values, and the customer is not among them: the form has no customer field.
- No "N/A" default is stored for a blank closing comment.
- A failed row lookup in the worksheet is not surfaced.
- The label never says that the latest records are shown.

## Model

| member | source | states |
|---|---|---|
| Text.AlnumLineMatchesRegex | pages/Submit_Defects.py:90 | the executable "has a letter or number" line test holds exactly when `^(?=.*[A-Za-z0-9]).*$` matches under Python's semantics (`.` stops at a newline, `$` also matches before a final newline) |
| Text.AlnumLineNotBlank | pages/Submit_Defects.py:88-91 | a text the pattern accepts is never blank after `strip()`, so the "required" test always fires before the pattern test can |
| Text.AlnumLineHasAlnum | pages/Submit_Defects.py:84-85 | a text accepted by the line pattern also passes the `re.search` test used for new product names |
| Text.DigitRoundTrip | pages/Submit_Defects.py:57 | a digit written as a character reads back as itself |
| Text.NatToString | pages/Submit_Defects.py:57 | the decimal text of a number is non-empty, all digits, and has at least two digits from 10 up |
| Text.ParseNatToString | pages/Submit_Defects.py:57 | reading back the decimal text of a number gives the number |
| Text.Pad2 | pages/Submit_Defects.py:57 | `{n:02d}` is all digits, reads back as `n`, and has exactly two characters below 100 |
| Text.Pad2OfTwoDigits | pages/Submit_Defects.py:57 | padding the value of any two-digit text gives that text back |
| Text.Year4 | pages/Submit_Defects.py:52 | a year below 10000 is four digits that read back as the year |
| Text.Year4OfFourDigits | pages/Submit_Defects.py:52 | any four-digit text is the `%Y` text of its value |
| Text.ParseUnsignedCents | pages/View_Submissions.py:150 | `float()` of unsigned money text is never negative |
| Text.ParseUnsignedParts | pages/Submit_Defects.py:185 | text of whole units, a point and two decimals reads back as that many cents |
| Text.ParseUnsignedFormat | pages/Submit_Defects.py:185 | the unsigned two-decimal text of an amount reads back as the amount |
| Text.ParsePlainMoney | pages/View_Submissions.py:150 | `float(f"{x:.2f}")` gives back `x` for amounts of zero or more |
| Text.ParseNegativeMoney | pages/View_Submissions.py:150 | the same for negative amounts, through the leading minus sign |
| Text.ParseFormatCents | pages/View_Submissions.py:150 | `float(f"{x:.2f}")` is `x` for every whole number of cents: the two-decimal text loses nothing |
| Text.LeadingSpace | pages/View_Submissions.py:150 | the white space `strip()` removes at the front: all of it is white space, and the next character is not |
| Text.TrailingSpace | pages/View_Submissions.py:150 | the same at the end |
| Text.Strip | pages/View_Submissions.py:150 | `strip()` is empty exactly when the text is blank, and otherwise starts and ends with a non-space |
| Text.StripPadded | pages/View_Submissions.py:150 | `strip()` gives back any text without surrounding white space from that text with white space around it |
| Text.IntegerText | pages/View_Submissions.py:286 | `str(n)` is non-empty with no surrounding white space |
| Text.SignedDigitsOfIntegerText | pages/View_Submissions.py:286 | an optional sign and digits read back `str(n)` as `n` |
| Text.ParseIntegerText | pages/View_Submissions.py:286 | `int()` of `str(n)`, with or without white space around it, is `n` |
| Text.FracCents | pages/View_Submissions.py:150 | the decimals after the point are under one unit |
| Text.DecimalOfDigits | pages/View_Submissions.py:150 | `float()` of digit text is that many whole units |
| Text.FloatOfIntegerText | pages/View_Submissions.py:296 | `float()` of `str(n)`, with or without white space around it, is `n` units |
| Text.DecimalOfMoney | pages/View_Submissions.py:150 | on unsigned two-decimal text the general decimal reader agrees with the money reader |
| Text.SignedDecimalOfMoney | pages/View_Submissions.py:150 | the same for signed two-decimal text |
| Text.FloatOfMoney | pages/View_Submissions.py:150 | `float()` of the forms' money text, with or without white space around it, is the amount the money reader gives |
| Text.SplitLines | pages/Submit_Defects.py:179 | `split("\n")` always gives at least one line |
| Text.SplitJoinLines | pages/Submit_Defects.py:179 | splitting the `"\n".join` of lines without newlines gives those lines back |
| DateTimes.DaysInMonth | pages/Submit_Defects.py:124 | the day-of-month limit `strptime` checks: every month has 28 to 31 days |
| DateTimes.DateText | pages/Submit_Defects.py:52 | `%d/%m/%Y` is ten characters with slashes at positions 2 and 5 |
| DateTimes.DateTextFields | pages/Submit_Defects.py:57 | the day, month and year of `%d/%m/%Y` sit at `[0:2]`, `[3:5]` and `[6:10]`, the slices the case number takes |
| DateTimes.DateTimeText | pages/Submit_Defects.py:185 | `%d/%m/%Y %H:%M:%S` is nineteen characters |
| DateTimes.TimeText | pages/Submit_Defects.py:185 | `%H:%M:%S` is eight characters with colons at positions 2 and 5 |
| DateTimes.TimeTextFields | pages/Submit_Defects.py:185 | the hour, minute and second sit at `[0:2]`, `[3:5]` and `[6:8]` |
| DateTimes.ParseDateTime | pages/Submit_Defects.py:124 | `strptime(..., "%d/%m/%Y %H:%M:%S")` yields only valid calendar instants |
| DateTimes.DateTimeTextFields | pages/Submit_Defects.py:185 | every field and separator of the timestamp layout is at its place, and its first ten characters are the `%d/%m/%Y` date |
| DateTimes.ParseFormattedDateTime | pages/Submit_Defects.py:124 | parsing a timestamp the page wrote gives back the same instant |
| DateTimes.FormatParsedDateTime | pages/Submit_Defects.py:124 | any text the parser accepts is exactly the page's text for the parsed instant |
| DateTimes.ParsedDatePrefix | pages/Submit_Defects.py:124-126 | for a parsed timestamp, `strftime("%d/%m/%Y")` of the instant equals the timestamp's first ten characters |
| DateTimes.DateTextInjective | pages/Submit_Defects.py:55 | two dates with the same `%d/%m/%Y` text are the same date |
| DateTimes.LaterIsStrictTotalOrder | pages/View_Submissions.py:158 | the comparison the sort uses is irreflexive, asymmetric, transitive and total, and "not later" is transitive |
| DateTimes.Position | pages/View_Submissions.py:89 | `list.index` gives a position exactly when the value is in the list, and it is the first position holding the value |
| DateTimes.MonthNumberOfName | pages/View_Submissions.py:89 | converting a month's name back through `list(calendar.month_name).index` gives that month's number |
| DateTimes.MonthNamesDistinct | pages/View_Submissions.py:89 | no two entries of `calendar.month_name` are equal |
| Records.ReadBackCells | pages/View_Submissions.py:286-296 | `int()` and `float()` of a text cell holding `str(n)` give `n`, and `float()` of the forms' money text gives its amount, with or without white space around the text |
| Records.PyEqIsEquivalence | pages/Submit_Defects.py:126-135 | Python `==` between cells is an equivalence, and equals a text exactly when the cell is that text |
| Records.CloseRow | pages/View_Submissions.py:244-249 | closing a dict sets Status to "Closed" and the comment, closer and date keys, and leaves every other key as it was |
| DefectForm.NewProductRule | pages/Submit_Defects.py:78-85 | the new-name checks yield at most one message, all of the product group |
| DefectForm.ProductRule | pages/Submit_Defects.py:75-87 | the product checks yield only product-group messages |
| DefectForm.DoNumberRule | pages/Submit_Defects.py:88-91 | the DO number checks yield at most one message |
| DefectForm.QuantityCostRule | pages/Submit_Defects.py:92-97 | the quantity and cost checks yield at most one message |
| DefectForm.DescriptionActionRule | pages/Submit_Defects.py:98-110 | the description and action checks yield at most two messages |
| DefectForm.SubmitterRule | pages/Submit_Defects.py:111-114 | the submitter checks yield at most one message |
| DefectForm.CheckboxRule | pages/Submit_Defects.py:115-116 | the checkbox check yields at most one message |
| DefectForm.ValidateInputs | pages/Submit_Defects.py:71-117 | the list `validate_inputs` builds is the messages of the form's violations, in order |
| DefectForm.CheckProduct | pages/Submit_Defects.py:75-87 | appends exactly the product group's messages |
| DefectForm.CheckDoNumber | pages/Submit_Defects.py:88-91 | appends exactly the DO number group's messages |
| DefectForm.CheckQuantityCost | pages/Submit_Defects.py:92-97 | appends exactly the quantity and cost group's messages |
| DefectForm.CheckDescriptionAction | pages/Submit_Defects.py:98-110 | appends exactly the description and action group's messages |
| DefectForm.CheckSubmitter | pages/Submit_Defects.py:111-114 | appends exactly the submitter group's messages |
| DefectForm.NoViolationsIffAcceptable | pages/Submit_Defects.py:71-117 | the form passes exactly when every field meets its stated requirement (an independent statement of an acceptable form) |
| DefectForm.ViolationsByRule | pages/Submit_Defects.py:71-117 | the messages of each field group are exactly that group's own checks: the groups do not interfere |
| DefectForm.ViolationsInRuleOrder | pages/Submit_Defects.py:71-117 | the messages come in the order product, DO number, quantity and cost, descriptions, submitter, checkbox |
| DefectForm.QuantityCostMessages | pages/Submit_Defects.py:92-97 | at most one quantity-or-cost message, and the combined one when both are zero |
| DefectForm.FromRuleMembership | pages/Submit_Defects.py:71-117 | a group's messages are those of the whole list that belong to the group |
| DefectForm.NewProductMessages | pages/Submit_Defects.py:77-85 | with "Add New Product", at most one product message, and "already exists" for a catalogued name |
| DefectForm.DescriptionActionMessages | pages/Submit_Defects.py:98-110 | two blank texts give only the joint "required" message; otherwise the joint "no letter or number" message is the whole report exactly when neither text passes the line pattern, and else each failing field gets one message, "required" exactly when it is blank and "no letter or number" exactly when it is not blank but fails the pattern |
| DefectForm.DescriptionActionRuleShape | pages/Submit_Defects.py:98-110 | the same shape, for the group's checks on their own |
| DefectForm.ErrorMessageLines | pages/Submit_Defects.py:177-181 | one error is shown bare; several are shown one per line, numbered from 1 |
| Submissions.TodayCount | pages/Submit_Defects.py:55 | today's count never exceeds the number of cached rows |
| Submissions.TodayCountIsCardinality | pages/Submit_Defects.py:55 | the count is the number of cached rows whose timestamp starts with today's date |
| Submissions.TodayCountIsCountTrue | pages/Submit_Defects.py:55 | the count is the number of true per-row flags |
| Submissions.CountTrueIsCardinality | pages/Submit_Defects.py:55 | the number of true flags is the size of the set of their positions |
| Submissions.TodayCountAppend | pages/Submit_Defects.py:55 | appending a row adds one to the count exactly when the row is stamped today |
| Submissions.CaseNumberLayout | pages/Submit_Defects.py:57 | the case number is `DDMMYYYY`, a dash, and the count plus one in at least two digits |
| Submissions.CaseNumberInjective | pages/Submit_Defects.py:57 | different dates or counts give different case numbers |
| Submissions.Candidate | pages/Submit_Defects.py:185-189 | the values checked and appended are nine, ending with the timestamp |
| Submissions.SubmittedRow | pages/Submit_Defects.py:67 | the cached dict has the case number and the nine values under the ten submission keys, and no Account, Customer, Status, Comments, Closed By or Date Closed key |
| Submissions.CaseNumberSuccessor | pages/Submit_Defects.py:57 | one more row today keeps the date part and increases the number by one |
| Submissions.ConsecutiveCaseNumbers | pages/Submit_Defects.py:51-67 | after a submission stamped today, the next case number is today's with the next count |
| Submissions.Verdicts | pages/Submit_Defects.py:123-135 | each cached row gets its own verdict: bad timestamp, duplicate, or not |
| Submissions.DuplicateScanIsVerdictScan | pages/Submit_Defects.py:121-137 | the duplicate loop is the scan of the rows' verdicts in order |
| Submissions.ScanStopsAtFirstDecision | pages/Submit_Defects.py:121-137 | the check answers "duplicate" (or raises) exactly when the first row that is not a plain mismatch is a duplicate (or has a bad timestamp) |
| Submissions.ScanFindsNothing | pages/Submit_Defects.py:137 | the check answers "not a duplicate" exactly when every row parses and none matches |
| Submissions.DuplicateOfStamped | pages/Submit_Defects.py:126-135 | a row is a duplicate exactly when it was stamped today, the candidate's timestamp is today's, and the eight values are equal under Python `==` |
| Submissions.CacheRowsAppend | pages/Submit_Defects.py:67 | appending a submitted dict keeps the cache one of cache rows |
| Submissions.ScanAppend | pages/Submit_Defects.py:121-137 | the scan of a cache with one more row reaches that row only when the old cache answers "no duplicate", and otherwise answers as before |
| Submissions.ScanAppendDecided | pages/Submit_Defects.py:121-137 | appending a parsing non-duplicate row keeps the scan's answer, and appending a duplicate turns "no duplicate" into "duplicate" |
| Submissions.ScanSameDay | pages/Submit_Defects.py:121-137 | two candidates with the same eight values and the same stamp date get the same scan answer |
| Submissions.SameExistingProductFlagged | pages/Submit_Defects.py:189-191 | the same form for an existing product, submitted twice on one day: the first press's record is a duplicate of the second candidate, and when the first press's scan answered "no duplicate", the second press's scan over the cache with that record answers "duplicate" |
| Submissions.NewProductRecordDiffers | pages/Submit_Defects.py:185-191 | the new-product record, with its text total, is never a duplicate of the resubmission, with its float total |
| Submissions.NewProductResubmissionNotFlagged | pages/Submit_Defects.py:185-191 | a new-product record is never a duplicate of the same form resubmitted once the product is catalogued (text cost against float cost), so appending it leaves the resubmission's scan answer unchanged |
| SessionCache.SheetValues | pages/Submit_Defects.py:43 | a full worksheet row lists one value per header column, in header order |
| SessionCache.ColumnIndex | pages/Submit_Defects.py:43 | every column has its position in the header |
| SessionCache.ReadBack | pages/Submit_Defects.py:43 | `get_all_records` keys each value by its header column, padding missing values with empty text |
| SessionCache.HeaderPositions | pages/Submit_Defects.py:43 | the header's columns are distinct |
| SessionCache.ReadBackSheetValues | pages/Submit_Defects.py:43 | reading back a full row's values gives the row |
| SessionCache.ReloadedSubmission | pages/Submit_Defects.py:64-65 | an appended submission reads back one column early: Customer holds the product, the timestamp is empty and so are Status and Account |
| SessionCache.UpdateCell | pages/View_Submissions.py:255-258 | `update_cell` sets the one cell (1-based) and keeps the others, padding a short row |
| SessionCache.WriteClosureCells | pages/View_Submissions.py:255-258 | the four writes set columns 12 to 15 to the closure and leave every other cell as it was |
| SessionCache.CloseMatching | pages/View_Submissions.py:244-249 | closing in the cache keeps the number of rows |
| SessionCache.CloseRowKeepsSessionRow | pages/View_Submissions.py:244-249 | a closed row is still a valid cached row |
| SessionCache.SessionRowsAreCacheRows | pages/Submit_Defects.py:55 | every row of the session cache has the keys the case number and duplicate check read |
| SessionCache.CloseRows | pages/View_Submissions.py:244-249 | the closing loop closes exactly the account's rows with the case number and keeps the cache valid |
| SessionCache.Session.constructor | pages/Submit_Defects.py:42-47 | the first load caches the worksheet records and the catalogue column |
| SessionCache.Session.SubmitDefect | pages/Submit_Defects.py:62-67 | appends the case number and values to the worksheet and the submitted dict to the cache, and returns the case number |
| SessionCache.Session.AddCategory | pages/Submit_Defects.py:186-187 | appends the new product to worksheet 2 and the cached catalogue |
| SessionCache.Session.CloseCase | pages/View_Submissions.py:244-258 | closes the matching cached rows, and writes the closure to the found worksheet row only when there is one |
| SubmitPage.HandleSubmit | pages/Submit_Defects.py:175-195 | shows the numbered errors exactly when the form has violations; otherwise catalogues a new product, then rejects a duplicate, raises on a bad cached timestamp, or submits under the next case number |
| SubmitPage.SubmitValid | pages/Submit_Defects.py:184-195 | the steps after a clean validation, with the same outcomes |
| ViewFilter.OwnedRecords | pages/View_Submissions.py:38 | the page has records only when every cached row has an Account, and they are exactly the rows of the signed-in account |
| ViewFilter.OwnedFlags | pages/View_Submissions.py:38 | flags exactly the rows with an Account equal to the signed-in e-mail |
| ViewFilter.OwnedRecordsSelect | pages/View_Submissions.py:38 | the owned records are the selection of the cache by those flags |
| ViewFilter.OwnedRecordsInOrder | pages/View_Submissions.py:38 | the owned records are the rows at the owned positions, in increasing position order, each owned position taken once |
| ViewFilter.Select | pages/View_Submissions.py:38 | a comprehension with a filter keeps the elements at the true positions, in order: the `k`-th kept element is the one at the `k`-th true position |
| ViewFilter.SubmissionHidesRecords | pages/View_Submissions.py:38 | once the cache holds a submission of this session, the View page raises `KeyError` |
| ViewFilter.OwnedArePageRows | pages/View_Submissions.py:38 | the account's rows carry every column the page reads |
| ViewFilter.EntryFor | pages/View_Submissions.py:144-156 | an entry exists exactly when `float(cost)` succeeds on the decimal forms modelled; it carries the parsed timestamp and a cost text that reads back as the cost |
| ViewFilter.FilterResultFailureSticks | pages/View_Submissions.py:109-156 | once the loop raises, the whole filter raises |
| ViewFilter.FilterRecords | pages/View_Submissions.py:106-156 | the loop builds the filter's result |
| ViewFilter.TrueIndices | pages/View_Submissions.py:143 | the positions of the true flags, each once, in increasing order |
| ViewFilter.Kept | pages/View_Submissions.py:124-143 | one keep flag per row, true exactly when the timestamp parses and every filter accepts the row |
| ViewFilter.SelectedIndices | pages/View_Submissions.py:124-143 | the positions of the kept rows, all of them, in increasing order |
| ViewFilter.Steps | pages/View_Submissions.py:124-156 | one step per row |
| ViewFilter.FilterResultIsRunSteps | pages/View_Submissions.py:109-156 | the filter loop is the run of the rows' steps (skip, raise, keep) |
| ViewFilter.RunStepsFails | pages/View_Submissions.py:150 | the run succeeds exactly when no step raises |
| ViewFilter.RunStepsMeaning | pages/View_Submissions.py:143-156 | a successful run lists the entries of the steps that keep, in order |
| ViewFilter.FilterResultMeaning | pages/View_Submissions.py:106-156 | the filter succeeds exactly when every kept row's cost converts, and then lists the entries of exactly the kept rows, in cache order |
| ViewFilter.Insert | pages/View_Submissions.py:158 | inserting keeps every entry and adds the new one |
| ViewFilter.SortNewestFirst | pages/View_Submissions.py:158 | the sort is a permutation |
| ViewFilter.InsertNewestFirst | pages/View_Submissions.py:158 | inserting into a newest-first list keeps it newest first |
| ViewFilter.SortIsNewestFirst | pages/View_Submissions.py:158 | the sorted list is newest first |
| ViewFilter.InsertStampedAt | pages/View_Submissions.py:158 | inserting keeps the order of entries with equal timestamps |
| ViewFilter.SortIsStable | pages/View_Submissions.py:158 | entries with the same timestamp stay in cache order (the sort is stable) |
| ViewFilter.TotalsAppend | pages/View_Submissions.py:160-161 | the total cost and open count grow by one entry's cost and status |
| ViewFilter.TotalsInsert | pages/View_Submissions.py:160-161 | the same for an insertion |
| ViewFilter.SortKeepsTotals | pages/View_Submissions.py:158-161 | the totals of the sorted list equal those of the filtered list |
| ViewFilter.SummaryTotals | pages/View_Submissions.py:160-161 | the total cost is the sum of the kept rows' costs, and the open count is the number of kept rows whose status is "Open" |
| ViewFilter.DisplayedSubmissionDate | pages/View_Submissions.py:163-164 | the submission date shown is the timestamp's first ten characters |
| ViewFilter.ListedEntriesUsable | pages/View_Submissions.py:158-164 | the listed entries can be totalled and dated, before and after the sort |
| ViewFilter.EntriesDated | pages/View_Submissions.py:144-156 | every listed entry carries a valid calendar date |
| ViewFilter.SortKeepsDated | pages/View_Submissions.py:158 | the sort keeps every entry's date valid |
| ViewFilter.ShowSubmissions | pages/View_Submissions.py:62-183 | the table and totals are shown exactly when neither the page-level year list nor the filter loop raises |
| ViewFilter.SkippedStampsAreEmpty | pages/View_Submissions.py:62-127 | when the table is shown, a row's timestamp fails to parse exactly when it is empty: the loop's `continue` never skips a malformed stamp |
| ViewFilter.ShownSummary | pages/View_Submissions.py:158-183 | the table has one row per kept record, and the totals are those of the kept records |
| ViewFilter.DateScope | pages/View_Submissions.py:47-52 | the date scope is empty exactly when no year is chosen, or a day is chosen without a month; otherwise it starts with " in " |
| ViewFilter.FilterLabel | pages/View_Submissions.py:44-59 | the label is empty exactly when no product, type or status filter is set; otherwise it ends with " that matched your filters"; it is never "Invalid" |
| ViewFilter.LabelAndButtonDisagree | pages/View_Submissions.py:99-102 | with only a year chosen, the button says "Filtered" while the label is empty |
| ViewFilter.AllButtonKeepsEveryRow | pages/View_Submissions.py:84-102 | with the month set only under a year and the day only under a month, an "All" button keeps exactly the rows whose timestamp parses |
| ViewFilter.InsertDescending | pages/View_Submissions.py:63 | inserting a year keeps the list strictly descending and holds the old years and the new one |
| ViewFilter.YearsFrom | pages/View_Submissions.py:62-63 | the years list exists exactly when no timestamp is malformed; it is strictly descending and holds exactly the parsed years |
| ViewFilter.YearsWithData | pages/View_Submissions.py:62-63 | the same for the account's records: empty timestamps are skipped, a malformed one raises |
| ViewCase.CaseChoices | pages/View_Submissions.py:190-191 | the choices are the account's case numbers in reverse order |
| ViewCase.FindCase | pages/View_Submissions.py:201-202 | the lookup returns the first row whose case number equals the choice, and nothing when none does |
| ViewCase.ChoicesAreFound | pages/View_Submissions.py:190-202 | every offered case number is found, so `case_records[0]` does not raise |
| ViewCase.CaseDetails | pages/View_Submissions.py:210-221 | the case view exists exactly when `float(cost)` succeeds on the decimal forms modelled, with a cost text that reads back as the cost |
| ViewCase.CaseDateMatchesListing | pages/View_Submissions.py:220 | the case view's date is the date tab 1 shows for the same record |
| ViewCase.CloseCheckPasses | pages/View_Submissions.py:234-241 | the close goes ahead exactly when the comment is blank or has a letter or digit, the closer's name has one, and the box is ticked |
| ViewCase.CloseCheckOrder | pages/View_Submissions.py:234-235 | a comment without letters or digits is reported first; an empty comment always passes |
| ViewCase.MarkAsClosed | pages/View_Submissions.py:200-258 | the page raises, shows no form, rejects, or closes as the decision function says; only a close changes the cache, and the worksheet only when `find` located the row |
| ViewCase.ClosedOwned | pages/View_Submissions.py:244-249 | closing keeps the number of the account's rows |
| ViewCase.OwnedAfterClose | pages/View_Submissions.py:244-249 | the account's rows after closing are its rows before, with the chosen case closed |
| ViewCase.ClosedOwnedKeeps | pages/View_Submissions.py:244-249 | closing keeps every row's year and case number |
| ViewCase.YearsFollowStamps | pages/View_Submissions.py:62 | the years list raises for one list exactly when it does for another with the same years |
| ViewCase.FindCaseByCaseNumbers | pages/View_Submissions.py:201 | the lookup reads only the case numbers |
| ViewCase.ClosedOwnedLookup | pages/View_Submissions.py:201-227 | after closing, the same case is found at the same place, with the same cost, and it is no longer open |
| ViewCase.CloseMatchingKeepsSessionRows | pages/View_Submissions.py:244-249 | closing the matching dicts keeps every cached row a valid session row |
| ViewCase.ClosedCaseNotReoffered | pages/View_Submissions.py:227-265 | once a case is closed, a second press on it finds it closed and offers no form: closing is final |
| Login.WithoutFinalNewline | Login.py:62 | `$` may leave one final newline unmatched, and nothing else |
| Login.DomainThenSuffixSplit | Login.py:62 | the check after the "@" is exactly the pattern `[a-zA-Z0-9-]+\.[a-zA-Z0-9-.]+` |
| Login.LocalThenRestSplit | Login.py:62 | the check up to the "@" is exactly `[a-zA-Z0-9_.+-]+@` followed by the rest |
| Login.ValidEmailMatches | Login.py:61-63 | every address the check accepts matches the regular expression |
| Login.MatchIsValidEmail | Login.py:61-63 | every address matching the regular expression is accepted |
| Login.ValidEmailIsPattern | Login.py:61-63 | `is_valid_email` holds exactly when the regular expression matches |
| Login.ValidEmailShape | Login.py:61-63 | an accepted address has exactly one "@", with a "." after it |
| Login.SignupReachedIff | Login.py:90-104 | `signup` is called exactly when the address is valid and the password has six or more characters and is confirmed |
| Login.LoginCheck | Login.py:114-118 | `login` is called exactly when both fields are filled; otherwise the one message is shown |
| MonthlyChart.ChartYears | pages/View_Submissions.py:271 | tab 3's years exist exactly when every timestamp parses; they are strictly descending and are exactly the records' years |
| MonthlyChart.ParsedRowYear | pages/View_Submissions.py:271 | for a parsed timestamp, tab 3 and the page-level list read the same year |
| MonthlyChart.ChartYearsAgree | pages/View_Submissions.py:271 | when tab 3 does not raise, its years are the page-level years |
| MonthlyChart.ChartRecords | pages/View_Submissions.py:278 | the chart records exist exactly when every timestamp parses, and are exactly the records of the selected year |
| MonthlyChart.YearFlags | pages/View_Submissions.py:278 | flags exactly the rows of the selected year |
| MonthlyChart.ChartRecordsSelect | pages/View_Submissions.py:278 | the chart records are the selection of the owned rows by those flags |
| MonthlyChart.ChartRecordsInOrder | pages/View_Submissions.py:278 | the chart records are the rows at the positions of the selected year, in increasing position order, each such position taken once |
| MonthlyChart.SampleOf | pages/View_Submissions.py:283-296 | a record's month, quantity and cost exist exactly when all three conversions succeed on the forms modelled, with the month from 1 to 12 |
| MonthlyChart.Samples | pages/View_Submissions.py:283-296 | the samples exist exactly when every record converts, one per record |
| MonthlyChart.SamplesInCalendar | pages/View_Submissions.py:283 | every sample's month is a calendar month |
| MonthlyChart.Months | pages/View_Submissions.py:287-290 | twelve totals, each the sum over that month's samples |
| MonthlyChart.Accumulate | pages/View_Submissions.py:287-290 | the `defaultdict` loop and the fill-in with zeros give the twelve monthly totals |
| MonthlyChart.MonthlyCharts | pages/View_Submissions.py:276-307 | the three roll-ups exist exactly when no conversion raises; they are the monthly totals of quantity, cost and submissions, and add up to the year's totals and record count |
| MonthlyChart.MonthsAddUp | pages/View_Submissions.py:287-300 | the twelve monthly totals add up to the total over all samples |
| MonthlyChart.SubmissionsCount | pages/View_Submissions.py:306-307 | counting submissions totals the number of samples |
| MonthlyChart.EmptyMonthIsZero | pages/View_Submissions.py:290 | a month without samples totals zero |
| MonthlyChart.MonthIsItsSamples | pages/View_Submissions.py:287-290 | a month's total is the total of exactly that month's samples |
| MonthlyChart.OfMonth | pages/View_Submissions.py:283-290 | the samples of a month are exactly those with that month |

## Left out

- **Python `strptime`.** Python's `strptime` also accepts one-digit fields and surrounding spaces. The model parses only the canonical `DD/MM/YYYY HH:MM:SS` layout that the pages write.
- **Non-ASCII text.**
  - `str.lower()` and `str.title()` are modelled only for ASCII letters.
  - `title()` is applied to the new product name before the form model receives it.
- **Floating point.**
  - Costs are exact cents, with no IEEE rounding and no float `repr`.
  - Totals and monthly cost sums are exact sums of cents.
- **gspread.** gspread turns numeric-looking text into numbers when it reads a sheet. The model keeps each cell as written.
- **The Firebase calls.** The model covers the checks before `signup` and `login`, not those calls themselves, their error messages, or the session sign-in they cause.
- **Streamlit rendering and navigation.** Widgets, charts, pandas frames, `sleep`, page switches and logout are not modelled; the chart's data preparation is.
- **The clock.** One instant stands for every `datetime.now()` call of one button press.
- **The day-filter options.** The list of days is built from the current year's calendar and includes an empty-text choice. The model takes the chosen day as a number.
- **Text rendering of numbers.** `str()` of the DO number and quantity in tab-1 entries is kept as the raw cell.
- **Month names.** `strftime("%b")` month names and the `month_order` keys are represented by the month numbers 1 to 12.
- **The tab-3 year.** The year chosen in tab 3 is a parameter.
- **Tab-2 and closed-case display.** The tab-2 table rendering and the closed-case text are left out.
- **gspread failures.** `append_row`, `update_cell` and `find` raising an API or network error are not modelled: `Session.SubmitDefect`, `Session.AddCategory` and `Session.CloseCase` always succeed.
- **Widget state.** `Filters` admits a month without a year and a day without a month, which the widgets never hold; `WidgetState` names the reachable states, and only `AllButtonKeepsEveryRow` assumes it.
- **The worksheets.** They are ghost state: the model states what is written to them, but no page reads them back within a session.
- QuantityCostMessages: states only that the group gives at most one message and the combined message when both are zero; the full case split is the body of `QuantityCostRule`, whose messages `ViolationsByRule` ties to the form.
- CentsOf: `float()` of text reads an optional sign and decimal digits with at most one point, with white space around them; text with more than two non-zero decimals, an exponent, underscores, or `inf`/`nan` reads as `None` (a raise), because a whole number of cents cannot hold its value.
- IntOf: `int()` of text reads an optional sign and ASCII digits with white space around them; underscores between digits and non-ASCII digits read as `None`.
- EntryFor: inherits the text forms of `CentsOf`, so a cost text outside those forms gives no entry where Python would give one.
- CaseDetails: inherits the text forms of `CentsOf` in the same way.
- SampleOf: inherits the text forms of `CentsOf` and `IntOf` in the same way.
