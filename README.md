# DataTables-NetSS in Dafny

DataTables-NetSS is a small ASP.NET MVC adapter between a server-side controller and
the DataTables table widget. The widget sends one request per table draw: a draw counter,
a paging window (`start`, `length`), per-column search terms and sort rules. The server
answers with the draw counter, two record counts and one array of strings per row.

This project models three parts of it:

- **The request types** (`DataTablesObj.dfy`). `DataTablesIn`, `DTSearch`, `DTOrder`,
  `DTColumn` and `SortDirection` become datatypes. A nullable reference becomes an `Option`.
  The constructor's empty `columns` and `order` lists are modelled by `NewDataTablesIn`.
- **The response gate** (`DataTablesResult.dfy`). `DataTablesResult` is a class with
  nullable fields. `CheckValidFields` reports the first null field among draw,
  recordsTotal, recordsFiltered and data. `ExecuteResult` runs that check before it touches
  the response, then sets the content type, then writes the serializer's output. The HTTP
  response is a small class holding the content type and the text written so far. The
  repository holds a verbatim second copy of this class at
  DataTables-NetSS/DataTablesObj.cs:120-204 (gate at 149-163, serializer wrapping at
  183-186). It is modelled once, and every row below about `DataTablesResult` holds for
  both copies.
- **The example query pipeline** (`HomeController.dfy`, `Ordering.dfy`, `TestData.dfy`,
  `Text.dfy`). This is the `DataTable` action: per-column search, ordering by the first
  order rule, the filtered count, paging, and building the result.
  - `Query` states the whole pipeline as a function of the request and the record list.
  - `DataTable` is the action as a method. It runs the search loop
    (`ApplyColumnSearches`, a `for` loop over the column index), orders, counts, pages and
    fills a fresh `DataTablesResult`. Its contract ties the result to `Query`.
  - LINQ's `Where`, `Skip`, `Take` and `OrderBy`/`OrderByDescending` are pure functions.
    The ordering is a stable insertion sort over a key function, proved to be a permutation
    that is sorted and stable; each order column 0..5 supplies its own key.

Culture-dependent string operations use fixed rules:
- lower-casing maps ASCII letters only;
- strings compare ordinally, with null first;
- dates are formatted with the en-US pattern M/d/yyyy;
- a salary is a whole number printed in decimal digits.

`Text.dfy` proves the formats read back (round trips).

Where the documented contract and the code differ, the model follows the code:
- A negative `start` is accepted and skips nothing. It is not rejected.
- Any negative `length` other than -1 gives an empty page.
- A search term made only of white space is treated like an empty one. A null search value
  on a searchable column throws.
- The null-field check runs when the result is executed, not when it is constructed.
- On a serialization failure, the stream writers are disposed and so flushed. Text the
  serializer had already produced can therefore reach the response. The model lets the
  serializer's outcome carry that text, which `ExecuteResult` appends.

## Model

| member | source | states |
|---|---|---|
| `DataTablesObj.NewDataTablesIn` | DataTables-NetSS/DataTablesObj.cs:29-33 | a freshly constructed request has empty `columns` and `order` lists (and no global search) |
| `HomeController.DefaultRequestFails` | Example/Controllers/HomeController.cs:83 | the constructor's default request (no columns, no order) makes the action fail at `order.First()`, whatever the records |
| `DataTablesResult.DataTablesResult.constructor` | DataTables-NetSS/DataTablesResult.cs:34-37 | a new result has every field null |
| `DataTablesResult.DataTablesResult.CheckValidFields` | DataTables-NetSS/DataTablesResult.cs:41-47 | passes exactly when draw, recordsTotal, recordsFiltered and data are all non-null; otherwise fails with a null reference naming a null field before which, in the order draw, recordsTotal, recordsFiltered, data, no field is null; the error field plays no part and nothing is modified |
| `DataTablesResult.EmptyDataIsComplete` | DataTables-NetSS/DataTablesResult.cs:46 | a result whose data list is empty but set, with all counts set, passes the gate |
| `DataTablesResult.DataTablesResult.SerializeJson` | DataTables-NetSS/DataTablesResult.cs:63-79 | appends the serializer's text to the stream; a serializer failure surfaces as a serialization exception wrapping the cause, after what had been written; the content type is untouched |
| `DataTablesResult.DataTablesResult.ExecuteResult` | DataTables-NetSS/DataTablesResult.cs:48-55 | an incomplete result fails with the first null field and leaves the response unchanged (no content type, nothing written); a complete one sets content type application/json and then writes the serialization, or fails with the wrapped serializer exception |
| `Text.ToLowerChar` | Example/Controllers/HomeController.cs:43 | lower-casing a character leaves no upper-case ASCII letter, moves 'A'..'Z' by 32 and keeps every other character |
| `Text.ToLowerProperties` | Example/Controllers/HomeController.cs:43 | lower-casing keeps the length, leaves no upper-case letter and is idempotent |
| `Text.ToLowerKeepsBlank` | Example/Controllers/HomeController.cs:43-44 | a term is blank after lower-casing exactly when it was blank before |
| `Text.ContainsIff` | Example/Controllers/HomeController.cs:51 | ordinal `Contains(s, t)` holds exactly when t occurs in s at some position |
| `Text.NatToStringRoundTrip` | Example/Controllers/HomeController.cs:76 | the decimal digits of a number read back as that number |
| `Text.SalaryToStringRoundTrip` | Example/Controllers/HomeController.cs:76 | the salary text, sign included, reads back as the same salary |
| `Text.ShortDateRoundTrip` | Example/Controllers/HomeController.cs:70 | the short date text M/d/yyyy reads back as the same year, month and day |
| `TestData.Row` | Example/Controllers/HomeController.cs:131 | a row has exactly six cells |
| `TestData.RowReadsBack` | Example/Controllers/HomeController.cs:131 | the fifth and sixth cells of a row are set and read back as the record's start date and salary |
| `Ordering.LexLessIrreflexive` | Example/Controllers/HomeController.cs:89-111 | no sort key goes strictly before itself |
| `Ordering.LexLessTransitive` | Example/Controllers/HomeController.cs:89-111 | the key order is transitive |
| `Ordering.LexLessTotal` | Example/Controllers/HomeController.cs:89-111 | of two different keys, one goes strictly before the other |
| `Ordering.TextKeyOrder` | Example/Controllers/HomeController.cs:90 | a null text field sorts before every string, and different texts never tie |
| `Ordering.PrecedesTransitive` | Example/Controllers/HomeController.cs:89-111 | "goes before" on records is transitive in both directions |
| `Ordering.PrecedesTotal` | Example/Controllers/HomeController.cs:89-111 | of two records with different keys, one goes before the other in either direction |
| `Ordering.SortByPermutation` | Example/Controllers/HomeController.cs:89-111 | sorting is a permutation of its input |
| `Ordering.SortBySorted` | Example/Controllers/HomeController.cs:89-111 | after sorting, no record goes strictly before an earlier one in the chosen direction |
| `Ordering.SortByStable` | Example/Controllers/HomeController.cs:89-111 | records with equal keys keep their input order (stable ascending and descending sort) |
| `Ordering.OrderRecordsCorrect` | Example/Controllers/HomeController.cs:83-112 | the ordering step is a permutation; for a column in 0..5 it is sorted and stable; for any other column nothing moves |
| `Ordering.OrderRecordsLength` | Example/Controllers/HomeController.cs:83-114 | the ordering step neither adds nor drops records, so the filtered count can be taken before or after it |
| `HomeController.ActiveSearchesSpec` | Example/Controllers/HomeController.cs:38-44 | the search loop fails exactly when some searchable column has a null search or search value, naming the first; otherwise its searches are exactly the searchable columns with a non-blank lower-cased term |
| `HomeController.ErrorPersists` | Example/Controllers/HomeController.cs:43 | once a column has thrown, later columns do not change the outcome |
| `HomeController.MatchesShownText` | Example/Controllers/HomeController.cs:45-78 | a search on column c in 0..5 matches exactly when the text shown in cell c of the row contains the term: lower-cased and non-null for columns 0..3, as formatted for the date and salary |
| `HomeController.KeepAllNoSearches` | Example/Controllers/HomeController.cs:37 | with no active search every record is kept, in order |
| `HomeController.WhereKeepAll` | Example/Controllers/HomeController.cs:38-80 | narrowing the kept records with one more `Where` keeps exactly the records satisfying the extended list of searches |
| `HomeController.WhereUnconstrained` | Example/Controllers/HomeController.cs:45-78 | a search on a column index of 6 or more (no switch case) keeps every record |
| `HomeController.KeepAllLength` | Example/Controllers/HomeController.cs:114 | filtering never adds records |
| `HomeController.KeepAllExact` | Example/Controllers/HomeController.cs:38-80 | the kept records are an order-preserving subsequence of the input, and each record occurs in them as often as in the input if it satisfies every search, and never otherwise |
| `HomeController.ApplyColumnSearches` | Example/Controllers/HomeController.cs:38-80 | the search loop returns the records that satisfy every active column search in their original order, or throws for the first searchable column with a null search value |
| `HomeController.SatisfiesAllShows` | Example/Controllers/HomeController.cs:38-80 | for the searches the loop collects, a record satisfies them all exactly when every searchable column c in 0..5 with a non-blank term shows that term in cell c of its row |
| `HomeController.FilterKeepsExactlyMatching` | Example/Controllers/HomeController.cs:38-80 | a record survives the search exactly when it is in the list and, for every searchable column c in 0..5 with non-blank lower-cased term t, the text in cell c of its row is non-null and contains t (lower-cased for columns 0..3); other columns add no constraint |
| `HomeController.SkipIsSuffix` | Example/Controllers/HomeController.cs:117 | `Skip(n)` is the suffix after the first n records, none dropped for n <= 0 |
| `HomeController.TakeIsPrefix` | Example/Controllers/HomeController.cs:121 | `Take(n)` is the prefix of n records, empty for n <= 0 |
| `HomeController.PageWindow` | Example/Controllers/HomeController.cs:117-122 | the page is the window starting at the clamped `start`: everything after it when length is -1, else exactly `length` records unless fewer remain, none when length <= 0; with start >= 0 the page's i-th record is record start + i |
| `HomeController.Rows` | Example/Controllers/HomeController.cs:131 | one row per record of the page |
| `HomeController.PageRows` | Example/Controllers/HomeController.cs:117-131 | the rows of a page are the six-cell rows of the window at the clamped `start`: the rest when length is -1, otherwise exactly `length` rows unless fewer remain |
| `HomeController.QueryErrors` | Example/Controllers/HomeController.cs:38-83 | the action fails on the first searchable column with a null search value; failing that, exactly when the order list is empty |
| `HomeController.OrderedRecordsSpec` | Example/Controllers/HomeController.cs:83-112 | the ordered records are a permutation of the filtered ones, sorted and stable by the first rule's column and direction when it is in 0..5 and unchanged otherwise; if every rule names a column of the request and there are at most six columns, the first rule is in 0..5 |
| `HomeController.QueryCounts` | Example/Controllers/HomeController.cs:114-131 | draw is echoed; recordsTotal is the record count; recordsFiltered is the filtered count before paging and at most recordsTotal; the rows number at most recordsFiltered, exactly the rest after `start` when length is -1, otherwise exactly `length` of them unless fewer remain after `start` (then all that remain); each row is the six-cell row of the ordered record at offset start + i |
| `HomeController.DataTable` | Example/Controllers/HomeController.cs:29-133 | the action fails exactly when the pipeline does, with the same error; otherwise it returns a fresh result that passes the gate, carrying the pipeline's draw, counts and rows and no error |

## Left out

- JSON parsing (`ParseJSONString`) is a foreign library call. The model starts from the parsed request. A null request, a null `columns` or `order` list, a null entry in `columns` and a null first entry in `order` are not modelled. The action throws on each of these where it first dereferences the null. In Example/Controllers/HomeController.cs, a null request throws a null reference at line 35. A null `columns` list throws an `ArgumentNullException` from `Count()` at line 38, and a null column entry throws a null reference at line 41. A null `order` list throws an `ArgumentNullException` from `First()` at line 83, and a null first order rule throws a null reference at line 84. Order rules after the first are never read, so a null one there changes nothing.
- The record list from `GetTestData` is never null in the model, and it holds no null records. The source throws on these inputs, if at all, only where it first dereferences the null. `AsEnumerable()` passes a null list through unchecked, so `Where`, `OrderBy` or `Count()` throws later, unless `order.First()` has already failed. A null record is dereferenced only by an active search predicate on columns 0..5, by the `OrderBy` key selector for columns 0..5, or by the row `Select` if it lands on the page. Otherwise it is simply counted.
- JSON serialization and the stream writers are a foreign library. Their effect is a `Serialization` parameter: either the whole text or the text written before a failure, plus the cause. Nothing is claimed about the JSON's shape. In particular, nothing is claimed about omitting a null `error`, because no null handling is configured.
- HTTP plumbing (`ControllerContext`, `HttpContext.Response`, the output stream) is reduced to an object with a content type and the written text.
- Exception message texts are not modelled. A failure names the null field, or carries the serializer's cause.
- `DataTableTestData.GetTestData` reads a file and fills a static cache lazily. The record list is a parameter instead. The `Index` view action is UI.
- Culture rules are not reproduced. `ToLower` lowers ASCII only. The `OrderBy` string comparer is ordinal, with null first. `ToShortDateString` uses en-US M/d/yyyy. `DateTime` keeps only date and time of day, with no kind and no range check.
- Strings are sequences of Unicode scalar values, not UTF-16 code units. The ordinal comparison therefore orders supplementary characters and U+E000..U+FFFF differently from .NET, and lone surrogates cannot be represented.
- `decimal` salaries are whole numbers. A salary with fractional digits or a non-zero scale ("50000.00") is not modelled.
- C# `int` width is not modelled. Counts, `start` and `length` are unbounded integers. The action does no arithmetic that could overflow, apart from record lists longer than `int.MaxValue`.
- The global `search`, the `regex` flags and `orderable` are parsed but never read by the action. They appear in the datatypes only.
- Only `order.First()` is honoured. Later order rules are ignored, as in the action.
- LINQ runs lazily, so the filter predicates run once for `Count()` and again for `ToList()`. They are pure, so the model evaluates them once.
- The commented-out `SqlFunctions` lines are not executed and are not modelled.
