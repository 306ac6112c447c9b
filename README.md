# sparkySuppress — a Dafny model of its record processing

`sparkySuppress.py` manages a SparkPost customer suppression list from a CSV
file. This project models the parts of it that make decisions:

- **`check`** (module `SuppressionCheck`, `check.dfy`): the scan over the
  records of an already tokenised CSV file. The first record is the header
  when one of its cells is exactly `recipient`. When it is a single cell
  holding an `@`, it is data under the header `["recipient"]`. Otherwise the
  run aborts. Each data record becomes a field map of its non-empty cells.
  A non-empty cell under an unknown name aborts the run, and so does a record
  shorter than the header. Recipients are counted. Bad addresses, bad `type`
  values and bad legacy `transactional`/`non_transactional` flags get one
  complaint each, with a line number. `Check` is the scan as a loop, proved
  equal to the function `CheckSpec`. The lemmas state what `CheckSpec`
  promises.
- **`getSuppressionList`** (module `SuppressionFetch`, `fetch.dfy`): the
  retry loop over the HTTP responses to one request. A 200 returns the body.
  A 429 tries again, pausing first only when the message is
  `Too many requests`. Any other status returns `None`.
- **`retrieve`** (module `Retrieve`, `retrieve.dfy`): the cursor-driven
  pagination. The first request uses cursor `initial` and `per_page` equal to
  the batch size, plus `from`/`to` when both are set. Each page's entries are
  written projected onto the output columns. The total is reported while the
  cursor is still `initial`. The run goes on iff a page has a `next` link. It
  ignores `first`, `last` and `previous` links, and stops on any other
  relation or on a failed fetch.
- **Output columns** (module `CsvOutput`, `csv_output.dfy`): the
  `Properties` setting with CR/LF removed and split on `,`, and the dict-writer
  projection of an entry onto those columns (`restval=''`,
  `extrasaction='ignore'`).
- **Time bounds** (module `Timestamps`, `timestamps.dfy`): a local time
  composed with a UTC offset, `t + ':00' + offset`.

External collaborators are parameters of the model:

- the e-mail validator is a `string -> bool`;
- the time-zone offset is a string;
- the remote service is a finite sequence of HTTP responses, consumed in
  order by the retry loop. When that sequence runs out, a run ends `Waiting`
  or `Pending`.

Line numbers in `check` complaints are record numbers: record `i` (from 0)
is line `i + 1`.

## Model

| member | source | states |
|---|---|---|
| `SuppressionCheck.DecideHeader` | sparkySuppress.py:130-138 | the first record is the header iff it holds a cell exactly "recipient"; it is data under `["recipient"]` iff, lacking that, it is one cell containing '@'; an empty record aborts on `r[0]`; anything else aborts as a bad header |
| `SuppressionCheck.BuildRow` | sparkySuppress.py:140-148 | the per-cell loop builds exactly the field map (or the abort) of `ParseRow` |
| `SuppressionCheck.ParsePrefixAborts` | sparkySuppress.py:142-148 | the parse stops iff some header position has no cell or files a non-empty cell under an unknown name, and then for the first such position's reason |
| `SuppressionCheck.ParseRowCharacterised` | sparkySuppress.py:141-148 | a record parses iff it is at least as long as the header and every non-empty cell is under a known name (an empty cell under an unknown name is harmless); the map's keys are exactly the names of non-empty cells, each holding its last non-empty cell verbatim |
| `SuppressionCheck.ParseIgnoresExtraCells` | sparkySuppress.py:142-143 | cells beyond the header's length never change the parse |
| `SuppressionCheck.FlagOkIgnoresCase` | sparkySuppress.py:165-175 | a legacy flag is accepted iff it spells "true" or "false" in any mix of letter case |
| `SuppressionCheck.RowDiagnosticsExact` | sparkySuppress.py:150-175 | a record draws a complaint of each kind iff the field is present and fails its check (validator for the recipient, exact "transactional"/"non_transactional" for `type`, boolean word for the flags) |
| `SuppressionCheck.RowDiagnosticLines` | sparkySuppress.py:150-175 | a record draws at most four complaints, all at its own line |
| `SuppressionCheck.CheckValues` | sparkySuppress.py:150-175 | the value checks count a recipient iff the map has one, and emit exactly the record's complaints in source order |
| `SuppressionCheck.CheckRecord` | sparkySuppress.py:140-175 | one data record either aborts the scan at its line, for its parse failure, keeping the complaints printed so far, or adds its recipient count and its complaints to what the scan has so far |
| `SuppressionCheck.Check` | sparkySuppress.py:128-175 | the record loop returns exactly `CheckSpec`: header choice on record 1, then parse, count and complain per data record, stopping at the first abort with the complaints printed before it |
| `SuppressionCheck.ScanAborts` | sparkySuppress.py:128-148 | the scan aborts iff some data record fails to parse, at the line of the first one, for its reason, carrying the complaints of the records before it |
| `SuppressionCheck.ScanAbortDiagnostics` | sparkySuppress.py:138-175 | an aborted scan has printed exactly the complaints about the records before the one it stops at, at their lines, in line order |
| `SuppressionCheck.ScanCounts` | sparkySuppress.py:150-156 | a completed scan's `addrsChecked` is the number of data records with a non-empty recipient cell, valid or not |
| `SuppressionCheck.ScanDiagnostics` | sparkySuppress.py:150-175 | a completed scan's complaints are exactly the union of its data records' complaints |
| `SuppressionCheck.ScanDiagnosticLines` | sparkySuppress.py:150-175 | a completed scan's complaints are at the lines of its data records, in line order |
| `SuppressionCheck.ScanIgnoresValidator` | sparkySuppress.py:150-156 | whether addresses validate never changes whether, where or why the scan aborts, or its count |
| `SuppressionCheck.CheckWithHeaderRow` | sparkySuppress.py:130-133 | with a header record, that record is never data: aborts and complaints (also those printed before an abort) are at line 2 or later and only later records are counted |
| `SuppressionCheck.CheckHeaderless` | sparkySuppress.py:134-135 | a bare-address first record is data: it is counted, and draws a line-1 complaint iff the validator rejects it, even when a later record aborts the scan |
| `SuppressionCheck.CheckIgnoresValidator` | sparkySuppress.py:150-156 | over the whole file, the validator decides only the complaints: abort, line, reason and count are the same for every validator |
| `SuppressionFetch.FetchSpec` | sparkySuppress.py:59-73 | when the loop returns, it has used at least one and at most all of the responses |
| `SuppressionFetch.GetSuppressionList` | sparkySuppress.py:54-73 | the retry loop returns exactly `FetchSpec` of the responses |
| `SuppressionFetch.FetchEndsAtFirstFinal` | sparkySuppress.py:59-73 | the loop returns at the first non-429 response: its body if 200, `None` otherwise, after that many attempts, pausing once per earlier 429 with the message "Too many requests" and for no other |
| `SuppressionFetch.FetchPendingIffAll429` | sparkySuppress.py:65-70 | a 429 never ends the loop whatever its message: the loop is still retrying iff every response so far was a 429 |
| `CsvOutput.RemoveLineBreaksKeepsClean` | sparkySuppress.py:96 | removing CR/LF leaves a string without them unchanged |
| `CsvOutput.JoinSplit` | sparkySuppress.py:97 | joining the pieces of `split(',')` with ',' gives back the string |
| `CsvOutput.SplitJoin` | sparkySuppress.py:97 | splitting a ','-join of comma-free pieces gives back the pieces |
| `CsvOutput.Columns` | sparkySuppress.py:95-97 | the column list is never empty, no column holds ',', CR or LF, and joined with ',' it is the setting without CR/LF |
| `CsvOutput.ProjectReadBack` | sparkySuppress.py:203 | reading a written row back gives exactly the entry's non-empty values under the output columns: extra keys dropped, missing keys empty |
| `CsvOutput.ProjectIgnoresExtraKeys` | sparkySuppress.py:203 | keys outside the columns never change the written row |
| `Timestamps.ComposeRoundTrip` | sparkySuppress.py:46-50 | a composed bound is the local time, ":00", then the offset, and splits back into the two |
| `Timestamps.ComposeInjective` | sparkySuppress.py:49 | different times or offsets give different bounds |
| `Retrieve.InitialParams` | sparkySuppress.py:208-216 | the first request has cursor "initial", `per_page` equal to the batch size, and a range iff both bounds are set (non-empty) |
| `Retrieve.ScanLinksMeaning` | sparkySuppress.py:231-241 | a page's links stop the run iff some link is bad (unknown relation, or "next" without a cursor), even after a "next" link, for the first bad one; otherwise the run goes on iff some link is "next", with the last "next" link's cursor, and every "next" link is counted |
| `Retrieve.NeutralLinkIgnored` | sparkySuppress.py:237-238 | a "first", "last" or "previous" link can be removed from anywhere without changing the outcome |
| `Retrieve.FollowLinks` | sparkySuppress.py:231-241 | the loop over a page's links returns exactly `ScanLinks` |
| `Retrieve.WriteResults` | sparkySuppress.py:222-223 | the write loop produces one projected row per entry, in order |
| `Retrieve.Request` | sparkySuppress.py:218-241 | one round of the loop logs its request, stops on a missing or empty body, else logs the page, its rows, its total (initial cursor only) and its progress line, and goes on exactly as the page's links say |
| `Retrieve.Retrieve` | sparkySuppress.py:203-241 | the pagination loop returns exactly `RetrieveSpec` |
| `Retrieve.PagesNoLaterTotals` | sparkySuppress.py:226-227 | once the cursor comes from a link, no total is reported again |
| `Retrieve.RetrieveRun` | sparkySuppress.py:203-223 | a run writes the header row `fList` then every page's rows, one cell per column; the first request has the initial parameters |
| `Retrieve.RetrieveTotals` | sparkySuppress.py:226-227 | a total is reported once, for the first page, iff there is one |
| `Retrieve.RetrieveProgress` | sparkySuppress.py:207-235 | one progress line per page, whose counter is 1 plus the "next" links on the earlier pages |
| `Retrieve.RetrieveFollowsLinks` | sparkySuppress.py:206-241 | each later request follows the previous page's last "next" link, keeping `per_page` and the range; a run that ends on a page ends because it has no "next" link, or at its first bad link |
| `Retrieve.RetrieveTerminates` | sparkySuppress.py:217-241 | against a service whose pages all have a "next" link but the last, which has only first/last/previous links, the run ends normally after exactly those pages, reporting the first page's total once |
| `Retrieve.RetrieveStopsOnFailedFetch` | sparkySuppress.py:219-221 | a status other than 200 or 429, or a 200 with an empty JSON object, after any 429s, ends the run on its first request with only the header row written |

## Left out

- HTTP and timing: the request, the timeout, `time.sleep`, the timing printouts and the `ConnectionError` handler. The service is a sequence of responses. Pauses are counted, not slept.
- `Waiting` (in `Retrieve`) and `Pending` (in `SuppressionFetch`) exist only because the modelled response sequence is finite. The program would keep sending requests instead.
- CSV tokenisation, the file-encoding probing and the file itself. `Check` takes records already split into cells, and rows are written as cell sequences, without quoting.
- `SuppressionCheck.Check`: line numbers are record numbers. The program uses the reader's physical line number, which is larger after a quoted cell that spans lines. This changes the printed line numbers. It also changes the header test at line 130: when the first record has a quoted cell spanning lines, that test is false, `hdr` is never set, and the program fails with a `NameError` at line 142. The model always decides the header from the first record and has no such error path.
- The internals of `validate_email` are not modelled. The validator is a parameter.
- `isExpectedEventDateTimeFormat` is not modelled: it is a single call to `datetime.strptime`.
- The `pytz` offset lookup is not modelled: the offset is a parameter of `Timestamps.ComposeWithOffset`.
- Command-line handling of the time bounds (lines 184-201) is not modelled. This includes the `IndexError` raised when `from_time` is given without `to_time`. `Retrieve` takes both bounds already composed.
- `.ini` parsing, argument dispatch and help text are not modelled. The `update` and `delete` commands are empty branches in this file and have no model.
- `SuppressionCheck.FlagOkIgnoresCase`: lower-casing is ASCII only. Python's `str.lower` also changes non-ASCII letters; the model leaves them as they are.
- Malformed JSON is not modelled: a body lacking `results`, `links` or `total_count`, or a 429 body without `errors`, raises `KeyError` in the program. Entry values are strings; the dict writer would turn numbers into text.
- A run that stops on a link does not report how far `suppPage` had counted. The program exits there, so the value is never printed.

## What the program does not do

- It checks header names only for cells that are non-empty.
- It copies cell values without trimming them.
- It does not lower-case addresses.
- It neither deduplicates nor batches anything.
- It aborts only on a record shorter than the header; extra cells are ignored.
