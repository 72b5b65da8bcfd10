# satplan TLE ingestion, modelled in Dafny

satplan keeps a catalog of tracked satellites and stores their orbital
elements as Two-Line Element records (TLEs): a name line, a line 1 that
starts with `"1 "` and a line 2 that starts with `"2 "`. Records arrive in
two ways:

- **Automatic update** (`AutoUpdateTLEs` in `handlers/tle.go`). The server
  reads the configured sources from the `tle_site` table and fetches each
  one over HTTP. `fetchTLEFromURL` parses the fetched text with a
  three-state line machine, and `extractNoradID` takes the catalog number
  from line 1 (regular expression `^1\s+(\d+)`, then `strconv.Atoi` and
  `strconv.Itoa`).
- **Bulk submit** (`static/admin.js`). The admin page parses pasted text
  with `parseTLEText`: non-blank lines are grouped in threes and the
  catalog number is `line1.substring(2, 7).trim()`. It refuses an empty
  result and posts the records to `UpdateTles`.

Both handlers end in the same write code, written out twice in the source
(`handlers/tle.go` lines 124-192 and 362-429); the model merges the two
identical copies into one batch writer, `Batch.WriteBatch`. It opens one
transaction, checks each record against the satellite table, and inserts
the records of known satellites. It rolls back when nothing was inserted
and commits otherwise.
The reply counts the inserted and skipped records and lists the catalog
numbers it did not find. The admin page's password-change form checks its
two entries before sending them.

Modules:

- `Wrappers`: Option and Result.
- `Text`: white space as Go's `unicode.IsSpace` and ECMAScript's `trim`
  define it, and trimming.
- `Decimal`: digit strings, `Atoi` with its 64-bit overflow error, and
  `Itoa`.
- `NoradId`: the regular expression's capture and `extractNoradID`.
- `Models`: the TLE row and the `tle_site` row.
- `TleStream`: the line machine of `fetchTLEFromURL`. It is stated as a
  function on lines and implemented by the loop.
- `Store`: the two tables as a `Database` object, and a `Transaction`
  class that buffers inserts until commit.
- `Batch`: the match/insert loop and the transactional writer.
- `Handlers`: the run-level flow of both handlers.
- `Admin`: `parseTLEText`, the bulk-submit check and the password check.

Database calls that can fail (begin, the existence query, an insert,
commit) fail as the caller decides. Each is a boolean argument, or a set
of record positions in `Batch.Faults`. An HTTP fetch is given by its
outcome: a transport error, or a status, the lines of the body, and
whether reading stopped with an error.

For the line machine the model follows the code. After a line that fails
the `"1 "` or `"2 "` test, `fetchTLEFromURL` sets `lineCount = 0`, so that
line is consumed. It is not read again as the name of a new block
(`TleStream.NoResynchronisation`).

The two parsers read the catalog number differently. The client keeps the
five characters of columns 3-7 as text. The server's stream parser drops
leading zeros. For a line 1 that starts with `1 00005` followed by a
non-digit (the classification letter, as in `1 00005U`), the client posts
`00005`, which `UpdateTles` stores unchanged when it matches, while the
stream parser yields `5` for the same line (`Admin.ClientServerDiverge`).
The satellite table's `noard_id` is whatever was entered when the satellite
was created, so which form matches it depends on how the satellite was
entered. Without leading zeros the two parsers agree
(`Admin.ClientServerAgree`).

`Decimal.Atoi` is `strconv.Atoi`'s documented contract, the value or a
range error beyond 2^63 - 1, used as a definition. `Decimal.ParseDigits`
is a digit loop of the same shape as the one in strconv, and it is proved
to meet that contract.

## Model

| member | source | states |
|---|---|---|
| Text.Trim | handlers/tle.go:480 | definition of `strings.TrimSpace` (Go white space) and, at static/admin.js:520, of `trim` (ECMAScript white space): white space removed at both ends; never longer than the input. TrimStartSpec, TrimEndSpec and TrimSpec characterise it |
| Text.TrimStartSpec | handlers/tle.go:480 | the result is a suffix of the input; what was removed is all white space; the result does not start with white space |
| Text.TrimEndSpec | handlers/tle.go:480 | the result is a prefix of the input; what was removed is all white space; the result does not end with white space |
| Text.TrimSpec | handlers/tle.go:480 | trimming gives a string with no white space at either end, and it is empty exactly when the input is all white space |
| Text.TrimOfTrimmed | static/admin.js:520 | trimming a string with no white space at either end returns it unchanged |
| Text.TrimIdempotent | handlers/tle.go:480 | trimming twice is the same as trimming once |
| Decimal.DigitChar | handlers/tle.go:538 | the digit character of d is a decimal digit whose value is d |
| Decimal.Itoa | handlers/tle.go:538 | strconv.Itoa gives a canonical digit string (no leading zero) that denotes its argument |
| Decimal.ParseDigits | handlers/tle.go:536 | the digit loop of strconv.Atoi (accumulate n * 10 + d, stop with a range error once past 2^63 - 1) returns the value exactly when it fits in a signed 64-bit int and fails otherwise; it agrees with `Atoi` |
| Decimal.PrefixValueBound | handlers/tle.go:536 | a prefix of a digit string denotes no more than the whole string, so overflow on a prefix means overflow of the whole |
| Decimal.ValueAfterZeros | handlers/tle.go:535-538 | leading zeros do not change the value of a digit string |
| Decimal.ValueBelowPower | handlers/tle.go:536 | n digits denote less than 10^n |
| Decimal.CanonicalUnique | handlers/tle.go:538 | two canonical digit strings with the same value are equal |
| Decimal.ItoaOfValue | handlers/tle.go:536-538 | Itoa of the value of a canonical string gives that string back |
| NoradId.SpaceRunEnd | handlers/tle.go:532 | `\s+` is greedy: the run from i is all `\s` and stops at a character outside `\s` or at the end |
| NoradId.DigitRunEnd | handlers/tle.go:532 | `(\d+)` is greedy: the run from i is all digits and stops at a non-digit or at the end |
| NoradId.CatalogToken | handlers/tle.go:532-534 | the capture, when there is one, is a non-empty string of digits |
| NoradId.TokenOfMatch | handlers/tle.go:532-534 | any split of the line into `1`, maximal `\s+`, maximal `\d+` and the rest gives that digit run as the capture |
| NoradId.TokenIffMatches | handlers/tle.go:532-534 | the capture is d exactly when the line splits as `1`, a maximal `\s+` run, the maximal digit run d, and the rest |
| NoradId.ExtractNoradId | handlers/tle.go:529-542 | the result is empty or canonical; it is non-empty exactly when the pattern matches and the digits fit in 64 bits; its value is the captured digits' value |
| NoradId.ExtractIdempotent | handlers/tle.go:529-542 | extracting from `"1 "` plus an extracted number gives that number again |
| NoradId.ExtractDropsLeadingZeros | handlers/tle.go:535-538 | a zero-padded field followed by a non-digit yields the number without its zeros |
| NoradId.ZerosFieldToken | handlers/tle.go:532-533 | the capture of a zero-padded field is the whole padded field |
| TleStream.Next | handlers/tle.go:480-518 | definition of one step of the loop: a line blank after TrimSpace leaves the state; in state 0 any line moves to 1; in state 1 a line starting "1 " is kept, trimmed, and moves to 2, any other resets to 0; in state 2 every line resets to 0 |
| TleStream.Emitted | handlers/tle.go:499-513 | definition of what one line appends: in state 2, a trimmed line starting "2 " appends the record (extractNoradID of line 1, now, line 1, the trimmed line) when the id is non-empty; otherwise nothing |
| TleStream.Run | handlers/tle.go:479-519 | definition of the records the loop collects over a body, from a given state; FetchTleFromUrl is proved equal to it from state 0 |
| TleStream.FetchResult | handlers/tle.go:460-526 | definition of fetchTLEFromURL: a failed GET, a status other than 200, or a read error is an error (records parsed before a read error are dropped); otherwise the records of Run from state 0 |
| TleStream.After | handlers/tle.go:479-519 | definition of the `lineCount`/`line1` pair the loop holds after scanning the lines from a given state |
| TleStream.FetchFailsExactly | handlers/tle.go:462-470 | a fetch fails exactly on a transport error, a status other than 200, or a read error |
| TleStream.FetchTleFromUrl | handlers/tle.go:460-526 | the loop returns what the line machine emits over the whole body, and fails exactly as FetchFails says |
| TleStream.AfterAppend | handlers/tle.go:479-519 | the state after a + b is the state after b, starting where a left off |
| TleStream.RunAppend | handlers/tle.go:479-519 | the records of a + b are those of a, then those of b scanned from the state after a |
| TleStream.RunSnoc | handlers/tle.go:479-519 | one more line adds exactly what that line emits in the current state |
| TleStream.RunCons | handlers/tle.go:479-519 | scanning x then the rest is x's records, then the rest scanned from x's next state |
| TleStream.NameStep | handlers/tle.go:487-489 | in state 0 any non-blank line is taken as the name and the machine moves to state 1 |
| TleStream.Line1Step | handlers/tle.go:490-494 | in state 1 a line starting with "1 " is kept, trimmed, as line 1 and the machine moves to state 2 |
| TleStream.Line2Step | handlers/tle.go:499-513 | in state 2 a line starting with "2 " emits one record when extractNoradID finds a number, and the machine returns to state 0 |
| TleStream.RejectStep | handlers/tle.go:495-517 | a non-blank line that fails the prefix test of state 1 or 2 sends the machine to state 0 and is consumed |
| TleStream.BlockEmitsOne | handlers/tle.go:487-513 | name, line 1 and line 2 with a catalog number emit exactly one record: the number, the fetch time, and both trimmed lines |
| TleStream.BlockInContext | handlers/tle.go:479-519 | such a block after a prefix that ended in state 0 adds its record between the prefix's records and the rest's |
| TleStream.BlockWithoutIdDropped | handlers/tle.go:503-513 | a complete block whose line 1 gives no catalog number emits nothing and returns to state 0 |
| TleStream.BadLine1Consumed | handlers/tle.go:495-498 | a name followed by a line without the prefix "1 " emits nothing, and both lines are consumed |
| TleStream.BadLine2Consumed | handlers/tle.go:514-517 | a name, a line 1 and a line without the prefix "2 " emit nothing, and all three are consumed |
| TleStream.NoResynchronisation | handlers/tle.go:495-498 | a rejected line 1 is not retried as a name, so the valid block right after it is lost |
| TleStream.NonBlank | handlers/tle.go:482-485 | the kept lines are non-blank after trimming, and there are no more of them than input lines |
| TleStream.BlankStep | handlers/tle.go:483-485 | a blank line changes neither the state nor the output |
| TleStream.BlankLinesIgnored | handlers/tle.go:482-485 | scanning only the non-blank lines gives the same records and final state as scanning all lines |
| TleStream.StepOnTrimmedLine | handlers/tle.go:480 | one line has the same effect whether or not it was trimmed first |
| TleStream.RunOnTrimmedLines | handlers/tle.go:480 | the machine sees lines only through TrimSpace: scanning the trimmed lines is the same as scanning the raw lines |
| TleStream.NextSound | handlers/tle.go:490-494 | every step keeps the invariant that the line 1 carried in state 2 starts with "1 " and has no white space at either end |
| TleStream.AllWellFormedAppend | handlers/tle.go:511 | appending two lists of well-formed records gives a list of well-formed records |
| TleStream.RunWellFormed | handlers/tle.go:499-513 | every emitted record has trimmed lines starting "1 " and "2 ", a canonical catalog number extracted from its line 1, and the fetch time |
| TleStream.RunCountBound | handlers/tle.go:479-519 | three times the records emitted, plus the lines held in the final state, is at most the lines held at the start plus the non-blank lines scanned |
| TleStream.RecordsAtMostThird | handlers/tle.go:479-519 | a source yields at most one record per three non-blank lines |
| TleStream.CompleteThenUnfinished | handlers/tle.go:479-525 | a block cut off at the end of the body yields nothing, and the machine ends waiting for line 2 |
| Store.Transaction.Begin | handlers/tle.go:124-135 | a new transaction on the database starts open, with nothing buffered |
| Store.Transaction.SatelliteExists | handlers/tle.go:145 | the existence query answers whether the catalog holds the number, or fails |
| Store.Transaction.Insert | handlers/tle.go:160-161 | an insert that succeeds buffers exactly that row; one that fails buffers nothing |
| Store.Transaction.Commit | handlers/tle.go:184 | commit appends the buffered rows to the tle table in order, or leaves it as it was on failure; the transaction ends |
| Store.Transaction.Rollback | handlers/tle.go:135 | rollback discards the buffered rows of an open transaction, and does nothing after a commit |
| Batch.Classify | handlers/tle.go:142-168 | definition of one pass of the loop: a failed existence query, an unknown catalog number, a failed insert, or an insert, tested in that order |
| Batch.Count | handlers/tle.go:146-167 | definition of the updates one record makes: `skipped++` for a failed query (:148) or a failed insert (:164), `notFound` append and `skipped++` for an unknown id (:154-155), `inserted++` and a buffered row for an insert (:167) |
| Batch.TallyOf | handlers/tle.go:142-168 | every record counts once, as inserted or skipped; the buffered rows are the inserted ones; notFound holds only skipped records |
| Batch.TallyWithoutFaults | handlers/tle.go:142-168 | with no database failure, the rows of known satellites are inserted, and the catalog numbers of all the others are reported not found, in input order |
| Batch.TallySound | handlers/tle.go:152-167 | every buffered row is an input record of a known satellite; every not-found number is absent from the catalog |
| Batch.TallyWithFaults | handlers/tle.go:142-168 | under any mix of database failures: notFound is, in input order, the unknown catalog numbers of the records whose query answered; the buffered rows are, in input order, the known records whose query and insert both succeeded; skipped is the rest |
| Batch.QueryFailuresNotReported | handlers/tle.go:145-150 | when every existence query fails, nothing is inserted, every record is skipped and notFound stays empty (the general case is TallyWithFaults) |
| Batch.MatchAndInsert | handlers/tle.go:142-168 | the loop returns the counters and list of TallyOf, and buffers exactly its rows in the transaction |
| Batch.BatchResult | handlers/tle.go:124-192 | definition of the writer's reply: a failed begin; zero inserts, with the skipped count and notFound; a failed commit; or the counts and notFound of the loop with the number of records as total |
| Batch.TableAfter | handlers/tle.go:124-192 | definition of the tle table after the writer: the old rows followed by the buffered rows when the commit at :184 succeeds, the old rows otherwise |
| Batch.WriteBatch | handlers/tle.go:124-192 | the reply and the new table are those of the batch specification; the catalog is unchanged |
| Batch.BatchSuccess | handlers/tle.go:170-203 | on success inserted is positive, inserted + skipped = total = number of records, and the table gains exactly the inserted rows, after the old ones, each a known satellite's record |
| Batch.BatchFailureChangesNothing | handlers/tle.go:170-192 | zero inserts is a failure; a batch fails exactly when the table is left as it was and begin failed, commit failed or nothing was inserted |
| Batch.RepeatedBatchDuplicates | handlers/tle.go:160-161 | there is no deduplication: the same batch run twice stores its known records twice |
| Handlers.StatusCode | handlers/tle.go:99-429 | every failure is a 400 or a 500, and it is a 500 exactly for a failed site query, a failed begin or a failed commit |
| Handlers.UpdateResult | handlers/tle.go:103-203 | definition of UpdateTles's reply: an undecodable body, then an empty list, then the batch writer's reply |
| Handlers.UpdateTable | handlers/tle.go:103-192 | definition of the tle table after UpdateTles: unchanged for an undecodable body or an empty list, otherwise TableAfter of the posted records |
| Handlers.UpdateTles | handlers/tle.go:99-216 | the reply and the new table are those of the UpdateTles specification; the catalog is unchanged |
| Handlers.UpdateRejectsEarly | handlers/tle.go:103-122 | an undecodable body or an empty list fails with its own error and leaves the table unchanged |
| Handlers.UpdateSuccess | handlers/tle.go:194-203 | a success counts every posted record as inserted or skipped and appends exactly the inserted records |
| Handlers.ScannedSites | handlers/tle.go:314-322 | the sites are exactly the rows that scanned; there are no more of them than rows |
| Handlers.ScanSites | handlers/tle.go:314-322 | the scan loop keeps the rows that scanned, in order |
| Handlers.FailedSites | handlers/tle.go:336-346 | there are no more failed sites than sites |
| Handlers.Fetched | handlers/tle.go:338-346 | definition of `allTLEs`: the records of every source whose fetch succeeded, appended in site order |
| Handlers.FetchAll | handlers/tle.go:334-346 | the fetch loop concatenates the records of the sources that answered and lists the others, in site order |
| Handlers.FailedSitesExact | handlers/tle.go:338-344 | the failed list is empty exactly when no fetch failed |
| Handlers.AllSourcesFail | handlers/tle.go:338-360 | when every fetch fails, nothing is fetched and every site is listed as failed, in site order |
| Handlers.FetchedWellFormed | handlers/tle.go:338-346 | every fetched record is well formed, whichever sources failed |
| Handlers.AutoResult | handlers/tle.go:301-441 | definition of AutoUpdateTLEs's reply: a failed site query, then no scanned site, then nothing fetched (with the failed sites), then the batch writer's reply with sites_count = sites - failed sites |
| Handlers.AutoTable | handlers/tle.go:301-429 | definition of the tle table after AutoUpdateTLEs: unchanged after a failed site query, no site or nothing fetched, otherwise TableAfter of the fetched records (commit at :421) |
| Handlers.AutoUpdateTles | handlers/tle.go:297-457 | the reply and the new table are those of the AutoUpdateTLEs specification; the catalog is unchanged |
| Handlers.AutoRejectsEarly | handlers/tle.go:301-360 | a failed site query, no usable site, or no fetched record each fail with their own error before any transaction, and the table is unchanged |
| Handlers.AutoSuccess | handlers/tle.go:431-441 | sites_count plus the failed sites equals the number of sites; total is the number of fetched records and equals inserted + skipped; only well-formed records of known satellites are appended |
| Admin.Split | static/admin.js:520 | split always gives at least one piece, and no piece contains the separator |
| Admin.JoinSplit | static/admin.js:520 | joining the pieces of a split gives the text back |
| Admin.SplitJoin | static/admin.js:520 | splitting a join of separator-free pieces gives the pieces back |
| Admin.CleanLines | static/admin.js:520 | the kept lines are non-empty and trimmed, and there are no more of them than pieces |
| Admin.Clamp | static/admin.js:538 | a substring bound is forced into [0, length] and left alone when already inside |
| Admin.Substring | static/admin.js:538 | substring is never longer than the string and is the plain slice for in-range ordered bounds |
| Admin.ClientNoradId | static/admin.js:538 | the client's catalog number has at most five characters |
| Admin.NormalizedLines | static/admin.js:520 | definition of `text.trim().split('\n').map(trim).filter(non-empty)` |
| Admin.Group | static/admin.js:528-549 | definition of one group: InvalidFormat naming line i + 1 unless lines i + 1 and i + 2 start with "1 " and "2 ", then MissingNoradId naming line i + 2 when the id is empty, else the record |
| Admin.ParseFrom | static/admin.js:523-550 | definition of the loop from index i: stops when fewer than three lines remain, and otherwise either throws the group's error or keeps its record and moves on by three |
| Admin.ParseResult | static/admin.js:519-553 | definition of parseTLEText as a function: ParseFrom from index 0 over the normalised lines, with ClientNoradId as the id extraction; records, or the error it throws |
| Admin.ParseTleText | static/admin.js:519-553 | the method's result is parseTLEText's, records or the error thrown, on the normalised lines |
| Admin.ParseLines | static/admin.js:523-550 | the stride-3 loop returns the records of all complete groups, or the first group's error |
| Admin.GroupVerdict | static/admin.js:528-549 | a group succeeds exactly when its lines 1 and 2 have the right prefixes and a catalog number is found, and then gives that record |
| Admin.ParseFromCollects | static/admin.js:523-550 | the parse is the in-order collection of the verdicts of each complete group |
| Admin.ParseRecords | static/admin.js:523-550 | a successful parse has exactly one record per complete group (lines / 3); record g is built from lines 3g+1 and 3g+2 |
| Admin.ParseFails | static/admin.js:533-542 | the parse fails exactly when some complete group is bad, and then with the error of the first bad group |
| Admin.NameLinesIgnored | static/admin.js:528 | name lines are never inspected: inputs that differ only in them parse alike |
| Admin.ClientKeepsDigits | static/admin.js:538 | when columns 3-7 are five digits, the client's number is those digits, leading zeros included |
| Admin.ClientIdMissingOnlyWhenBlank | static/admin.js:538-542 | a trimmed line 1 starting "1 " lacks a number only when it is longer than 7 and columns 3-7 are blank |
| Admin.ClientServerDiverge | static/admin.js:538 | for a zero-padded five-digit field the client keeps the zeros while extractNoradID drops them |
| Admin.ClientServerAgree | static/admin.js:538 | for an unpadded five-digit field both parsers give the same number |
| Admin.FiveDigitsInRange | static/admin.js:538 | at most five digits denote less than 100000 |
| Admin.BulkSubmit | static/admin.js:573-581 | definition of the submit handler before the request: a parse error, or an empty result refused as no valid data, or the records to post |
| Admin.BulkSubmitChecks | static/admin.js:573-581 | fewer than three non-blank lines are refused as no valid data; what is posted has one record per group and passes the server's empty-list check |
| Admin.ValidatePasswordChange | static/admin.js:805-815 | definition of the two checks in their order: mismatch first, then fewer than 6 characters |
| Admin.PasswordRules | static/admin.js:805-815 | the change goes out exactly when both entries agree and are at least 6 long; a mismatch is reported before the length |

## Left out

- HTTP, JSON encoding and decoding, and reply message text are not modelled. A request body is given as already decoded, or None when it did not decode.
- The HTTP status of a success and the `success`/`message` fields of the reply are not modelled. The reply data is modelled as counters and lists.
- Database driver behaviour is not modelled. Each call's failure is an argument, and the SQL text is not modelled.
- Logging (`log.Printf`) is not modelled.
- `time.Now().Unix()` is called once per record in the source. The model uses one `now` per run, so records parsed in different seconds are not distinguished.
- `Date.now()` in parseTLEText is likewise a `now` parameter, in whole seconds.
- JavaScript strings are UTF-16. The model counts characters, so `substring`, `trim` and `length` on text outside the Basic Multilingual Plane are not modelled.
- `bufio.Scanner` splits the body into lines. The model receives the lines. Its 64 KiB token limit appears only as the read error `readFailed`, which discards the whole source.
- The integer width of `strconv.Atoi` is fixed at 64 bits (amd64 and arm64).
- models.TLE's `ID` column is assigned by the database and is not modelled.
- The `tle_site` row type is not among the modelled source files. `Models.Site` keeps the four scanned columns.
- The deferred `rows.Close()` and `resp.Body.Close()` calls are not modelled.
- Store.Transaction.Commit: a commit that fails is modelled as leaving the table unchanged. The Go driver's partial-commit behaviour is not modelled.
- GetTLEs, GetTLEBySatellite, DeleteTLE and GetTLESites are not modelled. They are plain queries with no ingestion logic.
- The admin page's DOM handling, toasts, modals and the POST to the update endpoint are not modelled. BulkSubmit stops where the request would be sent.
- The current-password field of the password form is not modelled. The form sends it unchecked.
