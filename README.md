# AI Impact Tracker — a Dafny model

The AI Impact Tracker records HR process improvements. Each one is an *entry*:
a pillar (one of six HR areas), a task, a description, the hours saved per
month, the money saved and an implementation date. The project covers two
parts of the tracker.

**The tracker page** (`tracker-script.js`):
- the dashboard: all-time totals, distinct pillars, and this month against the month before;
- the per-pillar and per-month chart bars;
- the pillar key ↔ display-name table and its fallback;
- the history filters;
- the in-memory entry list, which is prepended on create, replaced by id on update and filtered on delete, and the history sort, newest first.

**The API server** (`server.js`):
- the `MYSQL_DSN` parser;
- the create validation;
- the partial-update field selection;
- the `entries` table, seen as an abstract store with insert, partial update, delete, clear, a filtered and ordered list, and a summary.

Modules, one per file:

- `Wrappers`: `Option` and `Result`.
- `Text`: decimal formatting, `parseInt`, `indexOf`, ASCII lower-casing and the `\s` class.
- `Calendar`: dates, months, the previous month, `YYYY-MM` keys and `YYYY-MM-DD` text.
- `Entries`: the entry record, totals and distinct pillars.
- `Pillars`: the pillar table, `getPillarDisplayName` and `getPillarKey`.
- `Dashboard`: `updateDashboard`.
- `Charts`: the two pillar charts and the two monthly timelines.
- `EntryList`: the client's list edits (class `TrackerData`), the filters and the in-place sort.
- `Dsn`: `parseMysqlDsn`.
- `Store`: the server's request rules and the table (class `EntryStore`).

Amounts are exact reals. Dates are (year, month, day) triples with months
numbered 1–12, so JavaScript's 0-based `getMonth()` is shifted by one. The
current month ("now") and today's date are parameters instead of clock reads.

## Model

| member | source | states |
|---|---|---|
| Entries.TotalAppend | tracker-script.js:60-61 | the total of two lists joined is the sum of their totals |
| Entries.TotalPermutation | tracker-script.js:60-61 | the total does not depend on the order of the entries |
| Entries.TotalNonNegative | tracker-script.js:60-61 | non-negative amounts give a non-negative total; a missing moneySaved counts as 0 |
| Entries.DistinctPillarsBounds | tracker-script.js:62 | the count of distinct pillars is at most the number of entries, and 0 exactly when the list is empty |
| Dashboard.EntriesIn | tracker-script.js:73-82 | an entry is in a month's partition exactly when its year and month are that month's |
| Dashboard.EntriesInCount | tracker-script.js:73-82 | the partition holds each entry of its month as many times as the list does, and no other entry |
| Dashboard.EntriesInAppend | tracker-script.js:73-82 | partitioning a joined list partitions each part and joins the results, so the entries keep their order |
| Dashboard.PartitionsDisjoint | tracker-script.js:66-82 | the current month and the month before share no entry |
| Calendar.MonthsBackStep | tracker-script.js:69-70 | the previous month equals the month JavaScript's Date gives for month − 1, December of the year before for January |
| Calendar.MonthsBackZero | tracker-script.js:409 | going back zero months gives the month itself |
| Dashboard.Round | tracker-script.js:93-94 | Math.round gives the integer within half of x, halves rounded up |
| Dashboard.PercentChangeWithoutPrevious | tracker-script.js:93-94 | a previous value that is not positive reports 0 |
| Dashboard.PercentChangeWithPrevious | tracker-script.js:93-94 | with a positive previous value, the change is the exact percentage rounded, its sign is the sign of the difference, and doubling gives 100 |
| Dashboard.FiguresOfNoEntries | tracker-script.js:59-95 | an empty list shows zero on every card |
| Dashboard.ComputeFigures | tracker-script.js:59-95 | the all-time cards are the totals and distinct-pillar count of all entries, the month cards those of the month's entries; the process change is the signed difference of this month's and last month's pillar counts; each trend is the percent change from the previous month's total; the process count is at most the number of entries and 0 exactly when there are none; with non-negative amounts each month card lies between 0 and its all-time card |
| Dashboard.MonthTotalAtMost | tracker-script.js:60-82 | with non-negative amounts, a month's total lies between 0 and the all-time total |
| Dashboard.ProcessChangeBounded | tracker-script.js:89-95 | the month's pillar count is at most the all-time count, and the process change lies within plus or minus that count |
| Pillars.PillarOfKey | tracker-script.js:463-470 | a key found in the table is that pillar's key |
| Pillars.PillarOfName | tracker-script.js:475-482 | a name found in the table is that pillar's name |
| Pillars.LookupsFindThePillar | tracker-script.js:462-484 | each pillar's own key and own name find that pillar |
| Pillars.KeyOfDisplayName | tracker-script.js:462-484 | getPillarKey(getPillarDisplayName(k)) == k for the six keys, and the name round trip holds too |
| Pillars.UnknownKeyRoundTrip | tracker-script.js:471 | an unknown key is displayed unchanged and comes back unchanged when it is a slug |
| Pillars.TableShapes | tracker-script.js:462-484 | every key is lower case with no whitespace, and every name starts with a capital |
| Pillars.SlugFormIsNotAName | tracker-script.js:475-482 | text in slug form is never one of the six names |
| Pillars.SlugIsSlugForm | tracker-script.js:483 | the fallback leaves no upper-case letter and no whitespace |
| Pillars.HyphenateRun | tracker-script.js:483 | a run of whitespace becomes exactly one hyphen |
| Pillars.SlugIdempotent | tracker-script.js:483 | the fallback applied twice equals the fallback applied once |
| Pillars.PillarKeyIsSlugForm | tracker-script.js:474-484 | every key the charts and filter compare is in slug form |
| Pillars.PillarKeyIdempotent | tracker-script.js:474-484 | getPillarKey applied to its own result changes nothing |
| Pillars.AsWrittenInheritedName | tracker-script.js:475-483 | as written, the name "toString" yields an inherited function and not the slug "tostring" |
| Pillars.AsWrittenAgreesElsewhere | tracker-script.js:474-484 | the corrected lookup agrees with the written one on every name that is not an inherited property |
| Charts.GroupTotals | tracker-script.js:348-352 | the map's keys are exactly the group keys of the entries, and each value is the sum over the entries with that key |
| Charts.AddToTotals | tracker-script.js:350-351 | adding one entry to its key's running total keeps the map equal to the group sums |
| Charts.GroupSumAbsent | tracker-script.js:360 | a key that no entry has sums to 0 |
| Charts.GroupSumNonNegative | tracker-script.js:351 | non-negative amounts give non-negative group sums |
| Charts.MaxOfValues | tracker-script.js:356 | no maximum for an empty map; otherwise a value of the map that no value exceeds |
| Charts.BarPercentWithoutPositiveMax | tracker-script.js:360-361 | with no entries, or a maximum that is not positive, a bar is 0 |
| Charts.PercentOfPositive | tracker-script.js:361 | a value between 0 and a positive maximum gives a width in [0,100], and the maximum itself gives 100 |
| Charts.LargestGroup | tracker-script.js:356 | the largest value in the map is some entry's group sum and no group sums to more; there is none exactly when there are no entries |
| Charts.BarWidth | tracker-script.js:358-362 | a bar's width is its group's share of the maximum, lies in [0,100] when no pillar total is negative, and is 100 for the largest group |
| Charts.PillarBars | tracker-script.js:346-371 | the maximum is attained by some pillar and no pillar exceeds it; each bar is its pillar's share of the maximum; every bar is 0 with no positive maximum; when no pillar total is negative the bars lie in [0,100]; the largest group's bar is 100 |
| Charts.MonthWindow | tracker-script.js:407-415 | exactly three months, oldest first, ending with the current one, with year rollover |
| Calendar.MonthKeyShape | tracker-script.js:412 | for a four-digit year, a month key is seven characters: four digits, a hyphen and two digits |
| Calendar.MonthKeyInjective | tracker-script.js:423 | two months with the same key are the same month |
| Charts.MonthlyBars | tracker-script.js:418-453 | the divisor is at least 1, at least every month's total, and equal to 1 or to some month's total; each value is its month's total; heights are value / divisor × 100 and lie in [0,100] when no month total is negative |
| Charts.MonthGroupIsMonthTotal | tracker-script.js:421-426 | a month's key total is the total of that month's partition |
| Charts.EmptyMonthShowsZero | tracker-script.js:436 | a month with no entries shows 0 |
| EntryList.FindIndex | tracker-script.js:307 | −1 exactly when no entry has the id, otherwise the first entry with it |
| EntryList.ReplaceById | tracker-script.js:307-308 | same length; only the first entry with the id is replaced; no match leaves the list as it was |
| EntryList.ReplaceByIdMultiset | tracker-script.js:307-308 | replacing swaps exactly one old entry for the new one |
| EntryList.ReplaceByIdTotal | tracker-script.js:307-308 | replacing moves the totals by the difference between the old and new entry |
| EntryList.WithoutId | tracker-script.js:610 | an entry stays exactly when it was there and its id differs |
| EntryList.WithoutIdAppend | tracker-script.js:610 | deleting from joined lists deletes from each part, so the rest keep their order |
| EntryList.WithoutAbsentId | tracker-script.js:610 | deleting an id that no entry has leaves the list unchanged |
| EntryList.DeleteUndoesCreate | tracker-script.js:323 | deleting an entry just prepended with a fresh id gives back the list from before |
| EntryList.TrackerData.Create | tracker-script.js:323 | the new entry is at index 0, followed by the old list in order |
| EntryList.TrackerData.Update | tracker-script.js:307-308 | the list is the old list with the id's entry replaced |
| EntryList.TrackerData.Delete | tracker-script.js:610 | the list is the old list without the id, and no entry has the id |
| EntryList.EditingSession | tracker-script.js:298-324 | a create under a fresh id, an edit of that entry and its delete (as at tracker-script.js:610) leave the list as it was |
| EntryList.SortNewestFirst | tracker-script.js:247 | the array ends up newest first and is a permutation of what it held |
| EntryList.InsertInPlace | tracker-script.js:247 | one insertion step extends the sorted prefix by one and keeps the contents |
| EntryList.TrackerData.ShowHistory | tracker-script.js:242-247 | the list is sorted newest first, is a permutation of the old one, and keeps its totals |
| Calendar.OrdinalOrdersChronologically | tracker-script.js:247 | the sort key orders dates chronologically |
| EntryList.AsWrittenFilterThrows | tracker-script.js:210-216 | the pillar filter "hr-operations" on one "HR Operations" entry throws as written; the corrected filter keeps the entry |
| EntryList.ApplyFilters | tracker-script.js:205-239 | an entry is shown exactly when both filters keep it; with no filters the whole list is shown |
| EntryList.UnnamedDateChoiceKeepsAll | tracker-script.js:220-235 | a date choice the switch does not name, with no pillar filter, shows the whole list in its order |
| EntryList.ApplyFiltersTwice | tracker-script.js:213-236 | filtering the filtered list again with the same choices changes nothing |
| EntryList.FiltersAgreeWhenEmpty | tracker-script.js:210 | with both filters empty, the as-written and corrected versions agree |
| EntryList.FormEntryPassesItsFilter | tracker-script.js:214-216 | an entry saved from the form for a key passes the pillar filter for that key |
| Text.IndexOf | server.js:12 | −1 exactly when the character is absent, otherwise its first position |
| Dsn.StripProtocol | server.js:11 | the prefix is removed only at the start of the text |
| Dsn.ProtocolOnlyAtStart | server.js:11 | the prefix written after any non-empty text that does not itself start with it stays in the text |
| Dsn.ParseMysqlDsn | server.js:10-34 | an error, "Invalid MYSQL_DSN", exactly when no `@` remains after the prefix; the pool constants are true, 10 and 0 |
| Dsn.ProtocolTextWithoutAt | server.js:11-13 | every `mysql://` DSN with no `@` after the protocol is rejected with "Invalid MYSQL_DSN" |
| Dsn.SplitFirst | server.js:14-21 | the text before the first separator and the text after it, which rejoin to the input |
| Dsn.ConfigCredentials | server.js:16-18 | the user holds no `:`; without a colon the user is the whole userinfo and the password ""; with one, userinfo is user ":" password |
| Dsn.ConfigHost | server.js:19-22 | the host starts the text after the `@` and runs up to its first `:` or `/`, or to the end; it holds neither |
| Dsn.ConfigDatabase | server.js:19-21 | the database is everything after the first `/` of the text after the `@`, or "" when it has no `/` |
| Dsn.ParsedParts | server.js:14-21 | user and password hold no `@` and come before the first `@`; the database is everything after the first `/` that follows that `@`, or "" without one |
| Dsn.UserInfoParts | server.js:14-18 | the user and password are the start of the text, up to the first `@` |
| Dsn.SplitHostPort | server.js:22 | no port text exactly when there is no colon, and then the host is the whole text; the host holds no colon and starts the text |
| Dsn.PortTextBetweenColons | server.js:22 | for host ":" port followed by nothing or by another colon, the host and the port text come back, whatever follows |
| Dsn.PortDefaults | server.js:22-23 | a host with no colon, or nothing after it, connects on 3306 |
| Dsn.PortWithoutDigits | server.js:23 | port text that starts with something other than a digit, sign or whitespace gives NaN |
| Dsn.PortOfDecimal | server.js:23 | port text written in decimal reads back as that number |
| Dsn.FormatThenParse | server.js:10-34 | every part written into a DSN is parsed back out |
| Dsn.ConfigOfFormat | server.js:14-33 | the text after the protocol gives back the written host, port, user, password and database |
| Text.ParseIntOfNatToString | server.js:23 | parseInt reads back the decimal text of any natural number |
| Text.ParseIntStopsAtNonDigit | server.js:23 | parseInt keeps the leading digits and ignores what follows them |
| Text.ParseIntWithoutDigits | server.js:23 | text that starts with no whitespace, sign or digit is NaN |
| Calendar.ParseDateText | server.js:46 | date text that is accepted names a valid date |
| Calendar.DateTextRoundTrip | server.js:46 | a valid date written as YYYY-MM-DD is read back as itself |
| Store.DateColumnRoundTrip | server.js:46 | a valid date written as YYYY-MM-DD fits the DATE column and is stored as that date |
| Store.NewRow | server.js:117-131 | INVALID_BODY exactly when pillar, task or date is falsy or timeSaved is not a number; otherwise DB_WRITE_FAILED exactly when a value does not fit its column (pillar and task strings of at most 255, a YYYY-MM-DD date, a string description and a numeric moneySaved where given); the new row has the given id, the body's values, description defaulting to "" and moneySaved to 0 |
| Store.Present | server.js:137-145 | the recognised field names the body holds, in the order of the field list |
| Store.PresentEmpty | server.js:146 | no field is present exactly when the body holds none of the six names |
| Store.SelectFrom | server.js:141-146 | the columns are the names present in the body, in the order given, each as "name = ?", and the values are the body's values for them |
| Store.SelectFields | server.js:137-145 | the SET columns are the present fields in field order, and the values are the body's values for them |
| Store.FieldsDistinct | server.js:137 | the six field names differ |
| Store.PresentDistinct | server.js:137-145 | each present field appears once |
| Store.Assign | server.js:149 | setting a column keeps the id |
| Store.AssignWrites | server.js:149 | setting a column writes the converted value and leaves the other columns unchanged |
| Store.AssignFails | server.js:41-46 | one assignment fails exactly when the value does not fit its column |
| Store.ApplySet | server.js:149 | applying a SET clause keeps the id |
| Store.ApplySetFields | server.js:149 | each named column gets its value and every other column is unchanged |
| Store.ApplySetSucceeds | server.js:149 | a SET clause goes through exactly when every value fits its column, whatever the row held |
| Store.PatchedFields | server.js:137-149 | after an update, the fields present hold the body's values, the others and the id are unchanged |
| Store.PatchedSucceeds | server.js:135-154 | a patch fails exactly when some field the body names holds a value its column does not take |
| Store.PatchedKeepsValid | server.js:41-46 | an updated row still has its id, a moneySaved value and a valid date |
| Store.InsertListed | server.js:108 | inserting into an ordered list keeps it ordered and adds exactly that row |
| Store.SortListed | server.js:108 | the list is ordered by date descending, then id descending, and holds the same rows |
| Store.ListedBeforeTotal | server.js:108 | any two rows are comparable |
| Store.ListedBeforeTransitive | server.js:108 | the order is transitive |
| Store.InsertDistinct | server.js:108 | inserting a row with a new id keeps the ids distinct |
| Store.SortDistinct | server.js:108 | sorting keeps the ids distinct |
| Store.FilterIncreasing | server.js:98-106 | filtering keeps the ids increasing |
| Store.ListOrderStrict | server.js:108 | with distinct ids, each later row is older, or the same date with a smaller id |
| Store.Filter | server.js:98-106 | a row is kept exactly when it matches the pillar (if set) and is on or after since (if set) |
| Store.FilterCount | server.js:98-106 | a matching row is kept as many times as the table holds it, and no other row is |
| Store.FilterAppend | server.js:98-106 | filtering a joined table filters each part and joins the results, so the kept rows keep their order |
| Store.ListRows | server.js:94-113 | DB_READ_FAILED exactly when since is set and not a YYYY-MM-DD date (a stand-in, see Left out); otherwise exactly the matching rows, each once, ordered by date desc then id desc |
| Store.FilterNothing | server.js:106 | with no conditions every row is kept |
| Store.Summary | server.js:85-86 | an empty table sums to (0, 0) |
| Store.UnfilteredListIsSummary | server.js:85-86 | the summary equals the totals of the unfiltered list |
| Store.SummaryAfterCreate | server.js:85-86 | an insert adds the new row's amounts to the summary |
| Store.SummaryAfterUpdate | server.js:85-86 | an update moves the summary by the row's old and new amounts |
| Store.WithoutIdIncreasing | server.js:161 | deleting keeps the remaining ids increasing |
| Store.WithoutIdRemovesOne | server.js:161-162 | with increasing ids, deleting the id of a row removes exactly one row |
| Store.ReplaceKeepsTable | server.js:39-46 | replacing a row by one with the same id and filled NOT NULL columns keeps ids increasing, positive and below the counter |
| Store.DeleteKeepsTable | server.js:39-46 | deleting rows keeps ids increasing, positive and below the counter, and the NOT NULL columns filled |
| Store.EntryStore.constructor | server.js:39-40 | the table starts empty with the counter at 1 |
| Store.EntryStore.Create | server.js:116-131 | the row from NewRow is appended with an id larger than every earlier id; an error leaves the table and counter unchanged |
| Store.EntryStore.Update | server.js:135-154 | NO_FIELDS exactly when no field is present; the only errors are NO_FIELDS and DB_UPDATE_FAILED; an unknown id gives no row and no change; for a known id the result is the patched row, or DB_UPDATE_FAILED when the patch fails, and only that row changes |
| Store.EntryStore.Delete | server.js:158-165 | `deleted` exactly when a row had the id; afterwards no row has it, and one row fewer when deleted |
| Store.EntryStore.Clear | server.js:169-172 | the table is empty and the counter is kept |
| Store.EntryStore.List | server.js:94-112 | the result of ListRows on the table, strictly ordered by date desc and then id desc |
| Store.EntryStore.GetSummary | server.js:83-90 | the summary of the table, zero when it is empty |
| Store.Session | server.js:83-166 | in a fresh table a valid create gets id 1 and the summary becomes its timeSaved and moneySaved (0 when falsy); the first delete of that id reports true, the second false, and the summary is back to (0, 0) |

## Left out

- DOM rendering, animation and text formatting are not modelled. This covers `animateValue`, `updateTrendIndicator`, `initializeCharts`, toasts, `toLocaleString`, `formatDate` and the bar and label texts.
- I/O of every kind is not modelled: `fetch`, `fetchSummary`, `BroadcastChannel`, `localStorage`, `confirm`, Express routing, static files, CORS, the health route, the mysql2 pool, `ensureSchema` and `process.exit`.
  - A server response reaches the list edits as a parameter (`created`, `updated`).
  - The clock reaches the model as the `now` and `today` parameters.
- HTTP status codes are not modelled; the results carry the error string only.
- All of `script.js` is left out. Its only arithmetic repeats the dashboard totals modelled in `Entries`.
- Floating point is not modelled. Amounts are exact reals, so rounding error, NaN from `parseFloat`, infinities and −0 are left out.
- JavaScript `Date` parsing and timezones are not modelled: an entry's `date` is taken to be the calendar day it names.
- EntryList.ApplyFilters: the `last-month` and `last-quarter` date filters give `None`, because they depend on `Date` month-overflow normalisation.
- `editEntry` and `cancelEdit` are not modelled. Besides copying an entry into the form and resetting it, they set and clear `window.editingEntryId`, which `handleFormSubmission` reads to choose between a PUT followed by a replace by id and a POST followed by an `unshift` (tracker-script.js:298-324). The model has no edit-mode flag: that choice is the caller's, calling EntryList.TrackerData.Update or EntryList.TrackerData.Create.
- `clearAllData` is not modelled. It redraws an empty page, fires a clear request and, in edit mode, calls `cancelEdit`; the in-memory list is left as it was.
- `createdAt` is not modelled, because it is set from the server clock.
- Concurrency is not modelled: the order of overlapping requests and responses, and last-write-wins updates to one row.
- Text.Lower: lower-cases ASCII letters only, where `toLowerCase` maps all of Unicode.
- Store: MySQL's implicit type conversions are not modelled. A JSON value of the wrong kind for its column (a number in a VARCHAR, a string in a DOUBLE) is a failed write, and a failed update of an existing row. An UPDATE whose id matches no row changes nothing and reports no row whatever its values are, as in MySQL.
- Store: MySQL's strict `sql_mode` is assumed. Without it MySQL stores a truncated VARCHAR, a zero for NULL in a NOT NULL column, or a zero DATE, and raises a warning; the model's failed writes and updates (Fits, NewRow, Store.EntryStore.Update) do not cover that mode.
- Store.EntryStore.Update, Store.NewRow: mysql2 writes array and object values into the statement text on the client (server.js:122-125, 149), and the model has a single `Other` value for both. So it does not capture the following. A one-element array is written as its element, so POST and PUT with it can succeed; the model fails them. An array of two or more elements makes the UPDATE a syntax error for every id, so the source answers DB_UPDATE_FAILED where the model answers "no row" for an unknown id before looking at the values. An object is written as `` `key` = 'value' `` pairs, whose outcome depends on the key and is not modelled.
- Store: MySQL's case-insensitive collation for `pillar = ?` is not modelled; the comparison is exact.
- Store: VARCHAR(255) length is counted in characters of the model's strings.
- Store.ListRows, Store.NewRow, Store.Assign: of the date texts MySQL accepts, only `YYYY-MM-DD` is modelled, so a write of a DATE text MySQL would store, such as "2024-1-5" or "20240105", is a failed write or update in the model (the page's date input always sends `YYYY-MM-DD`). MySQL compares `date >= ?` with text it cannot read as a date by raising a warning, not an error, so the read does not fail there; the model's DB_READ_FAILED for an unreadable `since` is a stand-in for that comparison, which is not modelled.
- Store: the `:id` route parameter is taken to be an integer. Repeated query parameters, which Express turns into arrays, are not modelled.
- Store.EntryStore.Create: an insert that fails does not advance the id counter. Whether MySQL consumes an AUTO_INCREMENT value then is left out.
- Store.EntryStore.Update: a request with no JSON body, where `hasOwnProperty` on `undefined` throws, is not modelled.
- Store.EntryStore.List: the result is the list of rows. The JSON envelope `{entries}` is left out.
- Pillars.GetPillarDisplayName: reads a plain object too, so an inherited property name used as a key would give a function. Its keys come from the form's fixed options, so only the lookup by name is modelled as written.
- Charts.GroupTotals: `pillarTotals` and `pillarMoneyTotals` are plain objects read with `(totals[k] || 0)`, so a slug equal to an inherited property name, such as "constructor", starts from `Object.prototype.constructor` and the sum becomes a string. The model's map has no inherited keys. This is the same root cause as the first row of Findings.
- Charts.PillarBars: for the same reason, such a pillar makes `Math.max` NaN and every width 0 in the source; the model's maximum and widths are those of the group sums.
- EntryList.SortNewestFirst: does not state that entries with the same date keep their order, which `Array.prototype.sort` guarantees.
- EntryList.TrackerData.ShowHistory: stability of the sort is not stated either. An invalid date, which makes the comparator NaN, is not modelled.
- Text.ParseInt: parses exact integers. Precision loss above 2^53 is left out.

## Findings

| source | as written | input that shows it | evidently intended | confidence | as-written member | corrected member |
|---|---|---|---|---|---|---|
| tracker-script.js:474-484 | `pillarKeys[pillarName] \|\| fallback` reads a plain object literal, so inherited properties are found | an entry whose pillar is "toString" gets the key `Object.prototype.toString` (a function), not "tostring" | only the six table names are looked up; every other name takes the slug fallback | medium, not executed | Pillars.AsWrittenInheritedName | Pillars.PillarKeyIsSlugForm |
| tracker-script.js:210-222 | `filteredEntries` is declared `const` and then reassigned when a filter is set | pillar filter "hr-operations" on a list with one "HR Operations" entry throws a TypeError, and the history is not redrawn | the history shows the entries that both filters keep | high, not executed | EntryList.AsWrittenFilterThrows | EntryList.ApplyFilters |
