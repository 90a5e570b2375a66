# Expense tracker: a Dafny model

This project models the core of a small expense tracker in Dafny: its two Express controllers over a
MongoDB collection, the schema that constrains new documents, and the page that filters and summarises
expenses on the client.

- **`ExpenseController`** (`expense_controller.dfy`) works over a store of `Expense` documents. It:
  - checks a new expense before the schema validates it;
  - lists expenses sorted by date descending and paged, optionally for one month;
  - gets, updates and deletes by id;
  - summarises a month by category;
  - exports a month.
- **`ExpenseModel`** (`expense_model.dfy`) is the schema: a required amount at least 0, a required
  category stored trimmed, a required date and an optional description stored trimmed.
- **`ExpenseQuery`** (`expense_query.dfy`) holds the controller's query logic as functions over the list
  of stored documents:
  - the `YYYY-MM` month range;
  - `find`, `sort({ date: -1 })`, `skip` and `limit`;
  - the page count;
  - the `$match`/`$group`/`$sort` summary pipeline;
  - the export selection.
- **`LegacyController`** (`legacy_controller.dfy`) is the older "Expence" controller that the server
  actually mounts. It works over records whose schema has no constraint. It answers 400 for a missing id
  on get, and its summary handler calls an undeclared name (see Findings).
- **`MyExpenses`** (`my_expenses.dfy`) is the client page. It covers:
  - the month and category filters;
  - the per-category totals behind the chart;
  - the category choices;
  - the total, highest and average block;
  - the edit form's date field and its category options.
- **Shared modules**, each holding one concept:
  - `Common`: Option, Field, Result, Reply;
  - `Seqs`: filter, subsequence, distinct, a stable sort by a key in descending order, sums;
  - `Text`: digits, zero padding, `parseInt`, JavaScript's `trim` whitespace set, ASCII lower case;
  - `Calendar`: UTC dates, instants in milliseconds, month boundaries, the month token, ISO text;
  - `Grouping`: group by category and sum;
  - `Collection`: a map of documents under counter ids, listed in id order.

How the model represents the system:
- **Documents.** Stored documents are a `map<Id, …>` inside a class (`ExpenseStore`, `LegacyStore`), and
  the handlers are methods that change it.
- **Natural order.** MongoDB leaves the order of a `find()` without a sort unspecified, and the order
  among documents that tie under a sort key too. The model fixes one order as a modelling choice: ids
  come from a counter, `find()` lists in ascending id (insertion) order, and the sorts are stable, so
  ties keep that order. Every "in order" and every page position below is relative to that choice.
- **Amounts** are integers (cents).
- **Dates** are UTC calendar values: year, month, day and milliseconds of the day. Their instant is the
  number of milliseconds since 1970-01-01T00:00:00Z in the proleptic Gregorian calendar, as in
  JavaScript's `Date`.

A request body is a tuple of fields. Each field is:
- `Absent`;
- `Given(v)` with a value the schema can cast;
- `Junk`: a value of the wrong type. On create this is a CastError when saving. On update it is a
  CastError before the id lookup. On the client's create path it is a date string that does not parse.

Where the code and the written design disagree, the model follows the code:
- **Stored records can break the schema.** The design says every stored record has an amount at least 0
  and a category that is not blank. Update runs `findByIdAndUpdate` without validators, so an update
  can store a negative amount or an empty category (`ExpenseController.UpdateCanBreakSchema`).
- **Validation failures are not always 400.** The design maps them to 400. In `addExpense`, a category
  made only of blanks passes the handler's `!category` check. The schema then trims it to nothing, and
  the ValidationError lands in the catch block as 500
  (`ExpenseController.BlankCategoryIsServerError`).
- **The month number is not range-checked.** The format check only requires `YYYY-MM`. Month 00 or
  13-99 makes an Invalid Date:
  - in the summary's `aggregate` (not cast), it matches nothing and answers 200 with an empty summary;
  - in the export's `find` (cast), it answers 500.

## Model

| member | source | states |
|---|---|---|
| ExpenseModel.Construct | Backend/model/ExpenseModel.js:4-24 | Saving succeeds exactly when no schema validator fails. The validators themselves are stated by ConstructAcceptsIff, and the error message by ConstructReportsViolations. |
| ExpenseModel.ConstructReportsViolations | Backend/model/ExpenseModel.js:4-24 | When some validator fails, saving fails with a message that starts with "Expense validation failed: " and names every failed validator as `path: reason`. |
| ExpenseModel.JoinNamesEach | Backend/model/ExpenseModel.js:4-24 | The joined ValidationError text contains each failed validator's `path: reason`. |
| ExpenseModel.ConstructAcceptsIff | Backend/model/ExpenseModel.js:5-23 | A document passes validation iff: the amount is a number at least 0 (zero allowed); the category is a string that is not blank after trimming; the date is a date; the description is absent or a string. |
| ExpenseModel.ConstructStores | Backend/model/ExpenseModel.js:10-23 | What is saved is the given amount and date with the category and the description trimmed, and it meets the schema's stored-form predicate. |
| ExpenseModel.ResaveIsStable | Backend/model/ExpenseModel.js:4-24 | A saved category is not blank, and saving the fields of a saved document again gives back that same document: the validators pass and the trim setters change nothing. |
| Text.TrimIdempotent | Backend/model/ExpenseModel.js:13 | The trim setter is idempotent: trimming a trimmed value changes nothing. |
| Text.TrimEmptyIff | Backend/model/ExpenseModel.js:12-13 | A value trims to the empty string exactly when every character is trim whitespace. |
| ExpenseController.AddRejections | Backend/controller/ExpenseController.js:9-17 | Each 400 answer of addExpense, in check order: "Invalid amount" iff the amount is missing or a number at most 0; "Category is required" iff the amount passed and the category is missing or ""; "Invalid date" iff both passed and the date is missing or unparseable; and a 400 comes from these checks alone. |
| ExpenseController.AddAcceptsIff | Backend/controller/ExpenseController.js:9-21 | A body is saved (201) iff: the amount is a positive number; the category is a non-blank string; the date is a date; the description is absent or a string. The saved document carries those values trimmed and meets the schema. |
| ExpenseController.BlankCategoryIsServerError | Backend/controller/ExpenseController.js:12-23 | For any body with a positive amount, a date and a non-empty category made only of blanks: the handler's checks pass, the schema trims the category to nothing and rejects it, and the answer is the save's 500, whose message names "category: Category is required". |
| ExpenseController.ZeroAmountRejectedByHandlerOnly | Backend/controller/ExpenseController.js:9-10 | Any body with the amount 0 is rejected by the handler with 400 "Invalid amount", whatever its other fields hold. With a non-blank category, a date and a string or no description, the schema itself would save that document. |
| ExpenseController.ExpenseStore.AddExpense | Backend/controller/ExpenseController.js:5-25 | A rejected body answers with AddOutcome's 400 or 500 and stores nothing. An accepted body is stored under a fresh id and appended to the listing, answering 201 with the document. The whole store keeps meeting the schema. |
| ExpenseController.ExpenseStore.GetAllExpenses | Backend/controller/ExpenseController.js:28-53 | Builds the query step by step (the month range via `setUTCMonth`), then sorts, skips and limits. The result equals ListReply over the stored documents, with page and limit defaulting to 1 and 10. |
| ExpenseController.ExpenseStore.GetExpenseById | Backend/controller/ExpenseController.js:56-64 | The stored document for a present id; 404 "Expense not found" for an absent one. |
| ExpenseController.ApplyPatchProperties | Backend/controller/ExpenseController.js:69 | An update replaces exactly the fields the body has, with text fields trimmed, and keeps the others. Sending the same body again changes nothing more. |
| ExpenseController.UpdateCanBreakSchema | Backend/controller/ExpenseController.js:69 | Without validators, an update of a conforming document to amount -1 and category "" is accepted and leaves a document that no longer meets the schema. |
| ExpenseController.ExpenseStore.UpdateExpense | Backend/controller/ExpenseController.js:67-75 | A mistyped body answers 500 and an absent id 404 "Expense not updated", both changing nothing. Otherwise the patched document replaces the old one under the same id, in the same listing position, and all other documents are unchanged. |
| ExpenseController.ExpenseStore.DeleteExpense | Backend/controller/ExpenseController.js:78-86 | An absent id answers 404 "Expense not deleted" and changes nothing. A present id is removed, and the listing loses that document and only that one. |
| ExpenseController.DeleteThenGet | Backend/controller/ExpenseController.js:58-81 | Deleting a present id succeeds, and looking the id up afterwards answers 404. |
| ExpenseController.ExpenseStore.GetExpenseSummary | Backend/controller/ExpenseController.js:89-110 | Computes the range as the handler does and runs group-and-sum over the matches; equals SummaryReply over the stored documents. |
| ExpenseController.ExpenseStore.ExportExpenses | Backend/controller/ExpenseController.js:113-136 | Checks the format, runs the cast `find` on the month range, and answers 404 on no match; equals ExportReply over the stored documents. |
| Calendar.AddMonth | Backend/controller/ExpenseController.js:37 | `setUTCMonth(getUTCMonth() + 1)` on the first of a month gives the next month of the same year, and December rolls over to January of the next year. |
| Calendar.MonthLength | Backend/controller/ExpenseController.js:36-37 | The end of a month is its start plus its number of days (29 for a leap February) in milliseconds. |
| Calendar.YearLength | Backend/controller/ExpenseController.js:37 | A leap year has 366 days and any other year 365, which is what rolling December into the next year relies on. |
| Calendar.EndBeforeLaterStart | Backend/controller/ExpenseController.js:96-98 | Month ranges are laid out in order: a month ends no later than any later month starts. |
| Calendar.InMonthIff | Backend/controller/ExpenseController.js:35-38 | An instant lies in [start of month, start of next month) exactly when its date is in that calendar month. |
| ExpenseQuery.MonthQueryIsCalendarMonth | Backend/controller/ExpenseController.js:35-41 | `find` with the month's `$gte`/`$lt` range keeps exactly the documents dated in that calendar month, in stored order. |
| Calendar.FormatMonthRoundTrip | Backend/controller/ExpenseController.js:92 | Every year 0-9999 with a two-digit month prints as a string the `^\d{4}-\d{2}$` check accepts, and reads back as the same year and month. |
| Calendar.TokenRoundTrip | Backend/controller/ExpenseController.js:92 | Every string the format check accepts is the printed form of its own year and month. |
| Seqs.SortDesc | Backend/controller/ExpenseController.js:41 | `sort({ date: -1 })` gives a permutation of its input (same length, same multiset) ordered by non-increasing key. |
| ExpenseQuery.Slice | Backend/controller/ExpenseController.js:41 | `.skip(k).limit(n)` holds min(n, length - k) elements (none past the end), element i being the input's element k + i. |
| ExpenseQuery.TotalPagesIsCeiling | Backend/controller/ExpenseController.js:47 | totalPages is the least number of pages of `limit` documents that hold all of them, and it is 0 exactly when nothing matched. |
| ExpenseQuery.PageNonEmptyIff | Backend/controller/ExpenseController.js:31-47 | A page is non-empty exactly when its number is at most totalPages. |
| ExpenseQuery.PagesUpToPrefix | Backend/controller/ExpenseController.js:31-41 | Pages 1 to k, read in turn, are the first k times limit documents. |
| ExpenseQuery.PagesCoverAll | Backend/controller/ExpenseController.js:31-47 | Reading pages 1 to totalPages yields every matching document exactly once, in order. |
| ExpenseQuery.ListingOfCorrect | Backend/controller/ExpenseController.js:41-48 | A listing: holds at most limit documents, all from the matches; is sorted newest first; holds the sorted matches from position (page - 1) * limit on; has totalPages the ceiling of matches over limit and currentPage the requested page; is empty exactly when page > totalPages. |
| ExpenseQuery.FindListingMatches | Backend/controller/ExpenseController.js:32-41 | Every document on a page is a stored document that matches the query. |
| ExpenseQuery.ListReplyByMonth | Backend/controller/ExpenseController.js:30-52 | With no month, getAllExpenses answers 200 with the listing of every stored document. A `YYYY-MM` with month 01-12 lists the documents dated in that calendar month, and a bare year lists that year's January. A `YYYY-MM` with month 00 or 13-99, or any other text, answers 500 with the date cast error. |
| Grouping.SummarizeCorrect | Backend/controller/ExpenseController.js:100-104 | The `$group`/`$sum`/`$sort` pipeline: one entry per distinct category with that category's sum, no category twice, non-increasing totals, as many entries as categories, and totals adding up to the overall sum. |
| ExpenseQuery.SummaryReplyCorrect | Backend/controller/ExpenseController.js:89-106 | Anything but `YYYY-MM` answers 400. Month 00 or 13-99 gives 200 with an empty summary. For month 01-12 the summary is grouped as SummarizeCorrect states, over exactly the documents dated in that calendar month. |
| ExpenseQuery.ExportReplyCorrect | Backend/controller/ExpenseController.js:113-132 | Anything but `YYYY-MM` answers 400 and month 00 or 13-99 answers 500. For month 01-12 it answers 404 "No expenses found for this month." exactly when no document is dated in the month; otherwise 200 with all of them and nothing else, in the model's natural order (ascending id). |
| Collection.InIdOrderSpec | Backend/controller/ExpenceController.js:7 | The natural-order listing of the store holds every stored document, each under its own id, in increasing id order. |
| LegacyController.BuildAcceptsIff | Backend/controller/ExpenceController.js:28-32 | The unconstrained record saves iff every value casts to its field's type. An empty body, a negative amount and an untrimmed category are all accepted, each field stored as sent or missing. |
| LegacyController.BuildReportsCasts | Backend/controller/ExpenceController.js:28-33 | When some value does not cast, saving fails with a message that starts with "Expense validation failed: " and names every mistyped field as `path: reason`, not only the first. |
| LegacyController.BuildReportsBothCasts | Backend/controller/ExpenceController.js:28-33 | A body with both the amount and the date mistyped reports both, in schema order, and the message names the date. |
| LegacyController.PatchProperties | Backend/controller/ExpenceController.js:39-43 | Each field the body has is stored as sent, untrimmed. Fields the body leaves out are kept, and applying the same update twice is applying it once. |
| LegacyController.LegacyStore.GetAllExpence | Backend/controller/ExpenceController.js:5-12 | Answers 200 with every stored record (no filter, no paging), each under its id, and nothing else, in increasing id order. |
| LegacyController.LegacyStore.GetExpenceById | Backend/controller/ExpenceController.js:15-23 | The stored record for a present id, and 400 (not 404) "Expense not found" for an absent one. |
| LegacyController.LegacyStore.AddExpence | Backend/controller/ExpenceController.js:26-34 | A body whose values cast is stored as sent under a fresh id and appended to the listing (201). Any save failure answers 400 and stores nothing. |
| LegacyController.LegacyStore.UpdateExpence | Backend/controller/ExpenceController.js:37-49 | A cast failure answers 500 and an absent id 404 "Expense not updated", both changing nothing. Otherwise the patched record replaces the old one in place and is returned. |
| LegacyController.LegacyStore.DeleteExpence | Backend/controller/ExpenceController.js:52-60 | An absent id answers 404 and changes nothing. A present one is removed, and the listing loses only that record. |
| LegacyController.SummaryAsWrittenNeverSucceeds | Backend/controller/ExpenceController.js:63-98 | The summary as written never succeeds: 400 for a malformed month, and 500 "Internal server error. Please try again later." for every well-formed one. |
| LegacyController.SummaryDiscrepancy | Backend/controller/ExpenceController.js:81-97 | For every store and every well-formed month, the code as written answers 500 where the handler with the imported model answers 200. |
| LegacyController.LegacyMonthIsCalendarMonth | Backend/controller/ExpenceController.js:75-82 | The `$match` on the month's range keeps exactly the records that have a date in that calendar month. |
| LegacyController.SummaryIntendedCorrect | Backend/controller/ExpenceController.js:70-93 | With the imported model the summary: answers 400 exactly for a malformed month; gives one entry per category key of the month's records with its sum, no key twice, non-increasing totals, totals adding up to the month's amount; uses the "No expenses found for the given month." message exactly when the month has no record. |
| LegacyController.LegacyStore.GetExpenseSummary | Backend/controller/ExpenceController.js:63-99 | Computes the range as the handler does and groups the matches; equals SummaryIntended over the stored records. |
| MyExpenses.ApplyFilters | frontend/src/Pages/MyExpences.jsx:83-101 | The filtered list is a subsequence of the data in the original order. It keeps each row, with its multiplicity, exactly when the row passes every active filter. With no month and an empty or "all" category, it is the data itself. |
| MyExpenses.MonthFilterByNumber | frontend/src/Pages/MyExpences.jsx:86-91 | For each month choice "1"-"12" the month filter keeps exactly the rows dated in that month number, whatever the year. |
| MyExpenses.ChosenCategoryShowsRows | frontend/src/Pages/MyExpences.jsx:94-98 | Choosing any listed category keeps every row whose category is equal to it case-insensitively, so at least one row is shown. A stored category spelt "all" is listed too, and choosing it shows every row. |
| MyExpenses.UniqueCategories | frontend/src/Pages/MyExpences.jsx:153 | The category choices contain each category of the data, nothing else, and none twice. |
| MyExpenses.TotalsOfSpec | frontend/src/Pages/MyExpences.jsx:24-27 | The reduce's accumulator has exactly the categories seen as keys, and each key's value is that category's sum. |
| MyExpenses.CategoryTotals | frontend/src/Pages/MyExpences.jsx:24-29 | The loop over the rows yields a dictionary whose keys are exactly the rows' categories, each valued at its category's amount sum, and labels that list each category once in order of first appearance. |
| MyExpenses.ChartValuesAddUp | frontend/src/Pages/MyExpences.jsx:29-30 | Every label is a key, and the chart values read through the labels add up to the displayed total. |
| MyExpenses.Highest | frontend/src/Pages/MyExpences.jsx:288 | The highest amount is some row's amount and at least every row's amount. |
| MyExpenses.StatsOf | frontend/src/Pages/MyExpences.jsx:275-294 | The block is shown exactly when some row is shown. Its total is the amounts' sum and its highest is the maximum. |
| MyExpenses.AverageTimesCount | frontend/src/Pages/MyExpences.jsx:294 | The average times the number of rows is the total. |
| MyExpenses.AverageAtMostHighest | frontend/src/Pages/MyExpences.jsx:288-294 | The average never exceeds the highest amount. |
| MyExpenses.BeforeFirst | frontend/src/Pages/MyExpences.jsx:127 | `split(c)[0]` is the longest prefix without c, and it ends where the first c is. |
| MyExpenses.EditDateIsDay | frontend/src/Pages/MyExpences.jsx:127 | The edit form's date, cut from the stored date's ISO text at the first 'T', is that date's `YYYY-MM-DD`. |
| MyExpenses.EditOptionsAsWrittenRule | frontend/src/Pages/MyExpences.jsx:384-396 | The extra option appears exactly when the lower-cased category is not one of the nine fixed values, and then it is the category as stored. For every category, its own value is offered exactly when it is itself a fixed value or its lower-case form is not. |
| MyExpenses.EditOptionsAsWrittenMissesFood | frontend/src/Pages/MyExpences.jsx:385-396 | A category stored as "Food" gets no option whose value is "Food". |
| MyExpenses.EditOptionsAsWrittenMissesTravel | frontend/src/Pages/MyExpences.jsx:385-396 | A category stored as "Travel" gets no option whose value is "Travel", and the first enabled option is "food", another category. |
| MyExpenses.EditOptions | frontend/src/Pages/MyExpences.jsx:394-396 | With the corrected rule, the category always has an option, and there is an extra option exactly when the category is not a fixed value. |
| MyExpenses.EditOptionsCorrect | frontend/src/Pages/MyExpences.jsx:394-396 | With the corrected rule, the category has its option and no value is offered twice. |

## Left out

- HTTP and Express plumbing is not modelled: the servers, route tables, status and header calls, `JSON.stringify` pretty-printing and the attachment header of the export.
  - Route order: Backend/routes/AddExpencesRoute.js:12 registers `/:id` before `/summary` (line 24), so a request for `/summary` reaches get-by-id with the id "summary". This is Express matching, not code of the handlers.
- MongoDB itself is modelled by meaning only: `find` as a filter in id order, `countDocuments` as a length, `aggregate` over the stored list. Not modelled:
  - ObjectId generation (ids are a counter);
  - the CastError a malformed id string raises (ids are natural numbers, so every lookup is well-typed);
  - the order MongoDB actually returns, which it leaves unspecified (see the next three lines);
  - indexes.
- Collection.InIdOrder: a `find()` without a sort is taken to list in ascending id order. MongoDB leaves that order unspecified, and an index scan or a compacted collection may differ. The "stored order" of the export (ExpenseQuery.ExportReplyCorrect) and the legacy get-all hold only under this choice.
- Seqs.SortDesc: the sort is stable, so documents with the same `date` keep their id order. MongoDB's `sort({ date: -1 })` leaves the order of such ties unspecified, so across ties a real page may hold other documents. ExpenseQuery.PagesCoverAll and the page positions of ExpenseQuery.ListingOfCorrect hold only under this fixed order; sortedness, the page sizes and the page count hold for any order.
- Grouping.Summarize: categories with equal totals keep their order of first appearance. The `$sort: { total: -1 }` stage leaves the order of equal totals unspecified, so only the non-increasing order of totals is what MongoDB promises.
- ExpenseModel.UpdateCastError: an update body with several mistyped fields reports the first one in schema order (amount, category, date, description). Mongoose's `castUpdate` throws for the first one in the order of the body's own keys, which a body modelled as a tuple of fields does not have. The status, 500, is the same either way.
- Setting a field to `null` in an update body (which would unset it) is not modelled. A body field is absent, a castable value, or a value of the wrong type.
- ExpenseController.ExpenseStore.GetAllExpenses: takes page and limit as positive integers or absent. Not modelled: `parseInt` of non-numeric, zero or negative query values, and `Math.ceil(totalCount / limit)` on such a string.
- Calendar.MonthStartOf: parses `${month}-01T00:00:00.000Z` as ISO text with a four-digit year (a bare four-digit year reads as its January). Not modelled: the signed six-digit year form, and the looser strings V8's fallback date parser accepts; these count as an Invalid Date.
- String coercions are not modelled. The handler's `!amount || amount < 0` is modelled on numbers: a numeric string such as "5" counts as the number, another string as a value of the wrong type.
- ExpenseController.ZeroAmountRejectedByHandlerOnly: holds for the number 0, with any category, date and description. The client form posts the amount as a string, and the string "0" is truthy, so it passes `!amount`; `"0" < 0` is false, and the schema casts it to 0, which `min: 0` allows. So a posted "0" is saved with 201, which the model, working on numbers, does not show.
- Floating point is not modelled: `parseFloat`, `toFixed(2)`, and the colouring of amounts above 100. Amounts are integers (cents), and the average is a real number.
- The client's dates are read in UTC: `getMonth()` and `toLocaleDateString` in the local time zone are not modelled.
- Character handling is partly not modelled:
  - `toLowerCase` is ASCII only;
  - Unicode case mapping is not modelled;
  - `parseInt`'s `0x` prefix is not modelled.
- MyExpenses.CategoryTotals: keys are plain strings. Not modelled:
  - prototype-named keys such as `__proto__` on the `{}` accumulator;
  - `Object.keys` listing integer-like keys first (labels are in order of first appearance).
- The client's fetching and React rendering are not modelled:
  - reading `res.data.data` (the mounted legacy server answers a bare array);
  - the Chart.js doughnut, `window.confirm`, form state and axios calls;
  - which option a controlled select displays when none has its value (the model only states that the first enabled option is "food");
  - the pages Home.jsx, NavBar.jsx and App.jsx.
- Console logging in the legacy controller is not modelled.
- Backend/config/db.js (the connection) is not part of this model.

## Findings

| source | as written | input that shows it | evidently intended | confidence | as-written member | corrected member |
|---|---|---|---|---|---|---|
| Backend/controller/ExpenceController.js:81 | The summary calls `ExpenseModel.aggregate`, but line 1 imports the model as `ExpenseModal`. So, past the format check, the handler throws a ReferenceError and the catch answers 500 "Internal server error. Please try again later." | A direct call of the summary handler with `req.query.month = "2024-05"`, on any store (`LegacyController.SummaryDiscrepancy`). Over HTTP the route `/:id` is registered first and takes `/summary`, so the handler is reached only once the routes are reordered | Run the aggregation on the imported model and answer 200 with the grouped totals and the "fetched"/"No expenses found" message | high; not executed | LegacyController.SummaryAsWritten | LegacyController.LegacyStore.GetExpenseSummary |
| frontend/src/Pages/MyExpences.jsx:394 | The extra option is added only when the lower-cased category is not a fixed value, but the fixed option values are lower-case. A capitalised category whose lower case is a fixed value gets no option of its own, so the controlled select has no option with its value and falls back to its first enabled option, "food" (Food & Dining). For "Food" that looks right by chance. For "Travel" the form shows Food & Dining. | editing an expense whose category is "Travel" (`MyExpenses.EditOptionsAsWrittenMissesTravel`; "Food" in `MyExpenses.EditOptionsAsWrittenMissesFood`) | Add the category's own option unless that exact value is already offered | medium; not executed | MyExpenses.EditOptionsAsWritten | MyExpenses.EditOptions |
