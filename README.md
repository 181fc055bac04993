# Banquet notation engine, modelled in Dafny

Banquet reads a table query out of a URL. Take
`data.sqlite;users;id,-age,email?limit=10`. The path names a dataset (`data.sqlite`), an
optional table (`users`) and a column path. The column path holds the selected columns, the
sort tokens (`+col`, `-col`), the inequality filters (`col!=val`), slice notation (`[start:end]`)
and a group-by expression (`(col)`). The query string may supply `where`, `limit`, `offset`,
`groupby`, `having` and `orderby`. The parser fills a `Banquet` record from these. The SQLite
composer then renders that record as one `SELECT` statement.

This project models that pipeline from the decoded path and raw query onwards. The pipeline:

* **Locator normaliser** (`Locator`, `CleanUrl`). Maps `/` to `.`, removes one leading `/` and
  repairs a first `:/` that is not already `://`.
* **Tier splitter** (`Tiers`, `parseDataSetColumnPath`). Uses explicit `;` tiers when the path has
  a `;`. Otherwise it splits after the first `/`-segment that ends in a known dataset extension.
* **Segment classifier** (`Classifier`, `getSegments`). Keeps the `/`-segments from the first one
  that shows a column, sort or condition indicator. With no indicator, it keeps the last segment
  alone.
* **Resolvers**:
  * column selection (`Selection`, `ParseSelect`);
  * path conditions (`Conditions`, `parsePathConditions`);
  * sort order (`Ordering`, `parseOrderBy`).
* **Auxiliary directives** (`Directives`):
  * slice notation and limit/offset precedence;
  * the tolerant `where` parameter, `having` and group-by;
  * the table heuristic `parseTable`.
* **Record builder** (`Notation`, `ParseBanquet`). Runs the table fallback, replaces
  Select-equals-Table with `*`, and combines the query and path WHERE texts.
* **SQLite composer** (`SqliteCompose`, `Compose`, `QuoteIdentifier`, `InferTable`). Emits the
  clauses in their fixed order.

Supporting modules model the library routines the code calls:

* `GoStrings`: Go's `strings` package, as used here.
* `FormEncoding`: `url.QueryUnescape` and `url.QueryEscape`.
* `Decimal`: `strconv.Atoi` and `strconv.Itoa`, on 64-bit integers.
* `QueryValues`: `url.ParseQuery(q).Get(key)`.
* `SqlQuoting`: SQL quoting and a reader that undoes it.
* `Wrappers`: `Option`, first-match search and concatenated maps.

Each routine the Go code writes with loops is a `method` here, with the same loops. Its `ensures`
ties the result to a specification function, and lemmas state the properties of that function.
An example is `ParseSelect` and `Select`. Expression-only routines are functions.

`Scenarios` and `PathScenarios` resolve whole locators from the composer's test table end to end.
They prove general lemmas over "plain" names and then instantiate them on the test inputs.

Strings are Dafny `string`s. Each character stands for one byte of the Go string.

Two details of the code are modelled as written:

* `CleanUrl` strips exactly one leading slash (banquet.go:74), though its doc comment says it
  trims leading slashes (banquet.go:68).
* Slice notation is read only when the whole path ends in `]` (banquet.go:515); brackets earlier
  in the path are not slice notation.

## Model

| member | source | states |
|---|---|---|
| Locator.CleanUrl | banquet.go:69-84 | `/` gives `.`; otherwise one leading `/` is removed; an incomplete first `:/` becomes `://` with nothing else changed, a complete one leaves the text alone; the result's first `:/` is at the same place and is always followed by `/` |
| Locator.RepairKeepsFirstSeparator | banquet.go:77-80 | replacing the first `:/` by `://` inserts one `/` at that place, and the repaired text's first `:/` is complete |
| Locator.CleanSchemeTypo | banquet.go:74-80 | `scheme:/rest` (with `rest` not starting with `/`) is cleaned to `scheme://rest` |
| Locator.CleanUrlExample | banquet_test.go:31-37 | the test's `/http:/…file.csv?col1,col2,col3` cleans to `http://…file.csv?col1,col2,col3` |
| Tiers.ParseDataSetColumnPath | banquet.go:228-262 | the loop returns exactly the tiers of the explicit or the heuristic split |
| Tiers.ExplicitTiers | banquet.go:230-240 | with a `;`, the dataset and table tiers hold no `;` and joining the tiers with `;` (the column tier only when present) gives back the path |
| Tiers.HeuristicTiers | banquet.go:243-261 | without a `;`, the table is empty; the dataset is the join of the segments up to the first dataset file and ends with it; `dataset/columns` rebuilds the path when there is a remainder; with no dataset file the result is `(path, "", "")` |
| Tiers.FirstDatasetFrom | banquet.go:244-252 | the first segment from a position that ends in `.zip`, `.csv`, `.sqlite`, `.db`, `.xlsx`, `.json`, `.txt` or `.html` other than `test.html`, or -1 when none does |
| Classifier.GetSegments | banquet.go:265-290 | the loop returns the classified segments |
| Classifier.FirstIndicatorFrom | banquet.go:272-282 | the first segment that contains `,` or `!=`, starts with `+` or `-`, or starts with `[` and contains `:`; no earlier segment does |
| Classifier.SegmentsShape | banquet.go:265-290 | the empty path has no segments and any other has some; no segment holds `/`; the segments run from the first indicator to the end, or are the last segment alone when none has an indicator |
| Classifier.CutAtBracket | banquet.go:321-323 | the token's text before its first `[`: a prefix of the token without `[`, and the token itself when it has no `[` |
| Selection.CollectColumns | banquet.go:307-330 | the inner loop collects exactly the columns of a segment's tokens |
| Selection.ParseSelect | banquet.go:292-338 | the loops return the selection of the column path, which is never empty |
| Selection.SelectIsClean | banquet.go:292-338 | the selection is never empty, and each element is `*` or non-empty, trimmed and free of `,`, `/` and `[` |
| Selection.TokenContribution | banquet.go:308-330 | a token with `!=` or a sort prefix contributes nothing; any other token contributes its cleaned name in its own place, so order and duplicates are kept |
| Selection.SelectInTokensConcat | banquet.go:308-330 | the columns of two token lists in a row are the columns of the first followed by those of the second |
| Selection.SelectInSegmentsConcat | banquet.go:299-331 | the same for segments |
| Selection.DefaultSelection | banquet.go:333-335 | when every token is a directive or cleans to nothing, the selection is `["*"]` |
| Selection.SingleSegmentSelect | banquet.go:292-338 | a column path of one segment selects its tokens' columns, or `*` when there are none |
| Conditions.CollectConditions | banquet.go:353-378 | the inner loop collects exactly the conditions of a segment's tokens |
| Conditions.ParsePathConditions | banquet.go:340-385 | the loops return the conditions of the classified segments joined by ` AND ` |
| Conditions.ConditionShape | banquet.go:355-375 | `col!=val` becomes `col != operand`, both sides trimmed and the value decoded and turned into an SQL operand |
| Conditions.SqlValueMeaning | banquet.go:362-373 | a numeric decoded value is left as it is; any other is a single-quoted literal that an SQL reader reads back as exactly the decoded value |
| Conditions.ConditionFreeToken | banquet.go:354-377 | deleting a token without `!=` leaves the conditions unchanged |
| Conditions.ConditionContribution | banquet.go:354-377 | each token contributes its own condition, if any, in its own place |
| Conditions.ConditionsForm | banquet.go:375 | every condition has the form `col != val` |
| Conditions.SingleSegmentConditions | banquet.go:340-385 | a one-segment column path states its tokens' conditions joined by ` AND ` |
| Ordering.ParseOrderBy | banquet.go:487-512 | the method returns the order: the query's `orderby` or the path's first sort token |
| Ordering.ScanPathOrder | banquet.go:494-511 | the nested loops return the first sort token, segment by segment and then token by token |
| Ordering.FindSortToken | banquet.go:496-509 | the inner loop returns a segment's first sort token |
| Ordering.OrderToken | banquet.go:498-508 | a token's sort, if any, is ASC or DESC on a name without `[` |
| Ordering.OrderTokenShape | banquet.go:498-508 | the trimmed token starts with the sign of its direction followed by the name |
| Ordering.SignedToken | banquet.go:503-508 | `+name` sorts ascending and `-name` descending on `name` |
| Ordering.OrderByShape | banquet.go:487-512 | a query `orderby` wins with an empty direction; otherwise the direction is empty, ASC or DESC, a directed name has no `[`, and an empty direction means no column |
| Ordering.PathOrderShape | banquet.go:494-511 | the path order is empty or a directed sort on a name without `[` |
| Ordering.FirstTokenWins | banquet.go:496-509 | within a segment, the first token with a sort prefix decides |
| Ordering.FirstSegmentWins | banquet.go:494-511 | the first segment with a sort token decides, whatever later segments hold |
| Ordering.NoSortToken | banquet.go:511 | without any sort token the order is `("", "")` |
| Directives.ParseSlice | banquet.go:514-564 | the method returns the slice text of the path |
| Directives.SliceOfContent | banquet.go:523-563 | the step-by-step parse of the bracket content returns its bounds |
| Directives.SliceArithmetic | banquet.go:514-564 | for `…[start:end]`: the offset is `start` (0 when omitted); the limit is `max(0, end - start)`, with 64-bit wrap-around, when `end` is given and empty otherwise; without overflow the limit is the plain difference |
| Directives.SliceRejectsNonInteger | banquet.go:535-550 | a non-empty bound that is not an integer gives `("", "")` |
| Directives.SliceNeedsOneColon | banquet.go:523-526 | bracket content that does not split into exactly two `:` parts gives `("", "")` |
| Directives.SliceNeedsClosingBracket | banquet.go:515-517 | a path not ending in `]` gives `("", "")` |
| Directives.SliceContentOf | banquet.go:518-522 | the slice content is the text between the last `[` and the final `]` |
| Directives.SliceBounds | banquet.go:523-563 | a limit is produced only together with an offset |
| Directives.BoundRoundTrip | banquet.go:536-548 | a printed 64-bit bound is already trimmed and reads back as the same integer |
| Directives.LimitOffsetPrecedence | banquet.go:461-480 | a query `limit`/`offset` wins over the slice; otherwise the slice's limit and offset are used |
| Directives.ParseWhere | banquet.go:387-405 | the loop returns the tolerant `where` value |
| Directives.FirstWhereWins | banquet.go:393-403 | the first `&`-piece starting with `where=` decides; its value is percent-decoded when that succeeds and raw otherwise |
| Directives.WherePlain | banquet.go:387-405 | `where=v` with nothing to decode gives `v` |
| Directives.HavingFirst | banquet.go:482-485 | the first `having=v` piece gives `v`, whether or not pieces follow it |
| Directives.HavingSkips | banquet.go:482-485 | a piece with another key before `having=` does not change the HAVING text |
| Directives.GroupByPath | banquet.go:407-423 | without a query `groupby`, the text between the first `(` and the first `)` when `(` comes first |
| Directives.GroupByUnbalanced | banquet.go:415-421 | a `)` before any `(` gives no group-by |
| Directives.Table | banquet.go:429-459 | a non-empty table is not a selector, has no `/`, and is the first segment of the slash-trimmed column path |
| Directives.TableOfPath | banquet.go:429-459 | a non-selector first segment is the table, alone or followed by more segments |
| Directives.SelectorSegment | banquet.go:443-452 | a first segment with `,`, `!=`, `=`, `>` or `<`, a sort prefix, or `[` and `:` is no table |
| Notation.ParseBanquet | banquet.go:107-166 | the method fills the record as the specification function does |
| Notation.CombineWhere | banquet.go:137-148 | empty exactly when both sides are; `q AND p` when both are present; otherwise the one that is present |
| Notation.BanquetInvariants | banquet.go:112-164 | the selection is never empty and is clean; a selection equal to `[table]` only remains when the table is `*`; a heuristic table is no selector; the direction is empty, ASC or DESC, and a direction implies a sort column without `[`; WHERE is empty exactly when both sources are |
| Notation.ExplicitTable | banquet.go:112-123 | with explicit tiers the dataset has no `;`; a non-empty table tier is used as it is; the heuristic runs only when the tier is empty |
| SqliteCompose.Compose | sqlite/compose.go:17-73 | the method returns the composed statement |
| SqliteCompose.ComposeSelect | sqlite/compose.go:21-28 | the loop fills the quoted columns and returns the select clause |
| SqliteCompose.QuoteIdentifier | sqlite/compose.go:76-81 | `""` and `*` stay as they are; anything else is wrapped in double quotes |
| SqliteCompose.QuoteIdentifierRoundTrip | sqlite/compose.go:76-81 | an SQL reader reads a quoted identifier back as exactly the original name, so every inner `"` was doubled |
| SqliteCompose.InferTable | sqlite/compose.go:85-97 | a set table is kept; otherwise `sqlite_master` exactly when the dataset, lowered by `strings.ToLower`, ends in `.sqlite` or `.db`, and `tb0` otherwise |
| SqliteCompose.DottedCapitalDatabase | sqlite/compose.go:90-92 | `data.SQLİTE`, spelt with the dotted capital U+0130, is an SQLite database, because `strings.ToLower` turns U+0130 into `i` |
| GoStrings.GoLowerAscii | sqlite/compose.go:90 | on ASCII text, `strings.ToLower` lowers the letters and changes nothing else |
| GoStrings.GoLowerAsciiPrefix | sqlite/compose.go:90 | an ASCII prefix lowers independently of the text that follows it |
| GoStrings.GoLowerDottedI | sqlite/compose.go:90 | the bytes C4 B0 (U+0130) lower to the single letter `i` |
| SqliteCompose.SelectClauseStar | sqlite/compose.go:21-29 | the clause is `*` exactly when the selection is empty or starts with `*`; otherwise it is the quoted columns joined by `, `, each reading back as its column |
| SqliteCompose.ComposeShape | sqlite/compose.go:29-36 | the statement begins with `SELECT <columns> FROM <quoted table>` |
| SqliteCompose.ClauseCount | sqlite/compose.go:38-72 | there are two clauses plus one for each non-empty optional field |
| SqliteCompose.WhereClause | sqlite/compose.go:38-41 | a WHERE clause is emitted exactly when the where text is non-empty |
| SqliteCompose.WhereEmitted | sqlite/compose.go:38-41 | a WHERE clause comes right after FROM, carrying the text verbatim |
| SqliteCompose.OrderClause | sqlite/compose.go:53-60 | a sort emits `ORDER BY` with the quoted column, followed by ` ASC`/` DESC` only when a direction is set |
| SqliteCompose.ComposeMinimal | sqlite/compose.go:17-73 | with no optional field the statement is exactly `SELECT … FROM …` |
| SqliteCompose.ComposeOrdered | sqlite/compose.go:17-73 | with only a sort set, the statement is `SELECT … FROM … ORDER BY …` |
| Scenarios.BareDatasetSql | sqlite/compose_test.go:16-24 | a bare dataset name selects `*` from `sqlite_master` for `.sqlite`/`.db` and from `tb0` otherwise |
| Scenarios.UsersCsv | sqlite/compose_test.go:16-19 | `users.csv` composes to `SELECT * FROM "tb0"` |
| Scenarios.DataSqlite | sqlite/compose_test.go:22-24 | `data.sqlite` composes to `SELECT * FROM "sqlite_master"` |
| PathScenarios.FileColumnsSql | sqlite/compose_test.go:149-150 | `ds/c1,c2` selects the two quoted columns from the inferred table |
| PathScenarios.FileCsvColumns | sqlite/compose_test.go:149-150 | `file.csv/col1,col2` composes to `SELECT "col1", "col2" FROM "tb0"` |
| PathScenarios.ExplicitSorted | sqlite/compose_test.go:71-73 | `ds;t;c1,-o,c2` gives table `t`, columns `[c1, c2]` and a descending sort on `o` |
| PathScenarios.ExplicitSortedSql | sqlite/compose_test.go:71-73 | `ds;t;c1,-o,c2` composes to `SELECT "c1", "c2" FROM "t" ORDER BY "o" DESC` |
| PathScenarios.DataSqliteUsersSorted | sqlite/compose_test.go:71-73 | `data.sqlite;users;id,-age,email` composes to `SELECT "id", "email" FROM "users" ORDER BY "age" DESC` |
| QueryValues.GetFirst | banquet.go:409-410 | the first `&`-piece with the key decides the looked-up value |
| QueryValues.GetSkip | banquet.go:409-410 | a piece with another key, or one that does not decode, is skipped |
| QueryValues.GetEscapedPair | banquet.go:409-410 | a form-escaped `key=value` pair is read back as the original value |
| FormEncoding.UnescapeSucceedsIff | banquet.go:363-366 | decoding succeeds exactly when every `%` starts a two-hex-digit escape |
| FormEncoding.UnescapeEscape | banquet.go:363-366 | decoding undoes form escaping of any byte string |
| FormEncoding.DecodedMeaning | banquet.go:363-366 | the tolerant decoding is the decoded text when decoding succeeds and the raw text otherwise |
| Decimal.AtoiItoa | banquet.go:536-560 | printing a 64-bit integer and reading it back gives the same integer |
| Decimal.Sub64 | banquet.go:556 | a 64-bit difference: the mathematical one when it fits, wrapped by 2^64 otherwise |
| SqlQuoting.DequoteQuoted | banquet.go:370-372 | doubling the quote character and wrapping the text in that quote can be undone exactly |
| GoStrings.JoinSplit | banquet.go:254-256 | joining the pieces of a split with its separator gives back the text |
| GoStrings.SplitJoin | banquet.go:254-256 | splitting a join of pieces free of the separator gives back the pieces |
| GoStrings.ReplaceAllIsJoinSplit | banquet.go:371 | replacing every occurrence is splitting and joining with the replacement |
| GoStrings.TrimSpaceIdempotent | banquet.go:326 | trimming white space twice is trimming it once |
| GoStrings.Index | banquet.go:321 | the first occurrence of a substring, or -1 when there is none |
| GoStrings.LastIndex | banquet.go:518 | the last occurrence of a substring, or -1 when there is none |

## Left out

- `url.Parse` (banquet.go:99) and URI decomposition. The model starts from the decoded path and
  the raw query, which `url.Parse` would have produced from the cleaned URL.
- Notation.ParseBanquet: does not model the error return of `url.Parse`. It also does not model
  the `*url.URL` and `rawurl` fields, because the parse itself is outside the model.
- `ParseNested` (banquet.go:188-224). It deals with `url.URL.EscapedPath` and prints to standard
  output.
- Verbose logging, `FmtPrintln` and `FmtSprintf`. They are diagnostic output only.
- `bridge/`, `cmd/` and the SQLite execution in `tests/sqlite_test.go`. They are JSON and C
  marshalling, a command line and database I/O.
- Conditions.SqlValue: `strconv.ParseFloat` is the parameter `isNumber` rather than a model of
  floating-point parsing.
- QueryValues.Get: models `url.ParseQuery(q).Get(key)` as Go's splitting on `&`, with pieces
  holding `;` skipped, a cut at the first `=`, and decoding of key and value. Pieces that fail
  to decode are skipped. The error that `ParseQuery` also returns is ignored by every caller, so
  it is not modelled.
- GoStrings.TrimSpace: trims only ASCII white space. Go also trims Unicode white space such as
  U+0085 and U+00A0 after UTF-8 decoding.
- SqliteCompose.InferTable: the lowering (`GoStrings.GoLower`) follows `strings.ToLower` for ASCII
  capitals and for the two capitals whose lower case is ASCII: U+0130 becomes `i` and U+212A
  becomes `k`. It keeps every other byte as it is. Go lowers other non-ASCII letters to other
  non-ASCII bytes and replaces invalid UTF-8 with U+FFFD, so there the model's lowered text
  differs from Go's. Neither case produces an ASCII byte, so the `.sqlite`/`.db` suffix test
  decides the same way in both. That agreement is argued here, not proved.
- GoStrings.Split: every separator the code uses is non-empty, so the empty-separator case of
  `strings.Split` is excluded by a precondition.
- Strings are sequences of characters, one per byte. Go's UTF-8 handling of invalid sequences is
  not modelled.
- Scenarios.UsersCsv: states the expected statement with `QuoteIdentifier` applied to the
  table name rather than as a fully evaluated literal. The function
  `SqliteCompose.QuoteIdentifier`'s `ensures` gives only the two enclosing quotes; the quoted
  form `"name"` follows from its body through `SqlQuoting.QuotedPlain` and
  `Scenarios.PlainNameFacts`.
- Scenarios.DataSqlite: the same, for `sqlite_master`.
- PathScenarios.FileCsvColumns: the same, for `col1`, `col2` and `tb0`.
- PathScenarios.DataSqliteUsersSorted: the same, for `id`, `email`, `users` and `age`.
- Stale test expectations that the code does not meet are not modelled:
  - `^` and `!^` sort prefixes;
  - a parser-assigned `tb0` table;
  - slice notation inside the first path segment.
