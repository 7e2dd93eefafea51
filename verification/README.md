# HackerRank leaderboard export — Dafny model

The repository is a small Flask front-end for the HackerRank REST API. A user
logs in with their HackerRank credentials, which are checked by listing
their contests. They then pick a contest, and the app fetches its whole
leaderboard page by page, writes it to a spreadsheet and shows the top three
entries with a download link. There are two near-identical applications:

- `app.py` exports `Rank, Username, Score, Time Taken`. It deletes a file
  once it has been downloaded, and a background sweep removes files older
  than an hour.
- `leader2.py` exports `Rank, Username, Score` and never deletes anything.

This project models the logic of both applications as pure functions, plus
three methods (two of them keep the source's loops):

| module | file | models |
|---|---|---|
| `Wrappers` | wrappers.dfy | `Option` / `Result` |
| `Api` | api.dfy | contests, leaderboard entries, the JSON envelope `{status, models}`, page requests |
| `Decimal` | decimal.dfy | unpadded decimal rendering of numbers and its inverse |
| `TimeFormat` | time_format.dfy | `format_time` and a parser for its output |
| `Client` | client.dfy | `get_contests`, the `get_full_leaderboard` loop |
| `Selection` | selection.dfy | slug lookup, the stable sort by rank, top three |
| `Report` | report.dfy | `save_to_excel` as header and rows, and reading a sheet back |
| `Downloads` | downloads.dfy | the downloads directory: write, sweep pass, download |
| `Handlers` | handlers.dfy | login, the export handler (`/top3`, `/download`), file download |

The remote API is a pure function from a page request `(offset, limit)` to
a response, with the credentials and the contest slug fixed inside it.
Because the source's `while True` loop has no guarantee of ending, the
fetch takes the index of a page at which the API answers with a non-200
status or an empty page. The result is proved not to depend on which such
page is named. The downloads directory is a finite map from file name to
(regular file?, modification time). The clock (`now`) and the outcome of
each `os.remove` are inputs.

`format_time(3661)` renders `1 : 1 : 1` (1 h 1 min 1 s, app.py:51-57), as
`TimeFormat.FormatTimeExamples` shows.

## Model

| member | source | states |
|---|---|---|
| `Decimal.NatToString` | app.py:57 | a number renders as a non-empty digit string that starts with `0` only for zero (no padding) |
| `Decimal.ParseNatToString` | app.py:61 | reading a rendered number back gives the number |
| `TimeFormat.TimeFields` | app.py:52-60 | the fields add back up to the input (`H*3600 + M*60 + S`); three fields exactly from 3600 s upwards, with `H >= 1`; minutes and seconds are below 60, in the two-field case too |
| `TimeFormat.TimeFieldsUnique` | app.py:53-56 | the decomposition is the only canonical field list with that value |
| `TimeFormat.FormatTimeRoundTrip` | app.py:51-61 | parsing the display string gives back its fields and the original number of seconds |
| `TimeFormat.FormatTimeInjective` | app.py:51-61 | distinct durations display differently |
| `TimeFormat.FormatTimeUnderAnHour` | app.py:58-61 | below an hour the display is exactly `s/60 : s%60`, two fields, and the minutes are below 60 |
| `TimeFormat.FormatTimeFromAnHour` | app.py:52-57 | from an hour upwards the display is `s/3600 : (s%3600)/60 : s%60`, three fields, with at least one hour |
| `TimeFormat.FormatTimeExamples` | app.py:57-61 | 0 → `0 : 0`, 59 → `0 : 59`, 3600 → `1 : 0 : 0`, 3661 → `1 : 1 : 1` |
| `Client.GetContests` | app.py:19-27 | no list exactly when the status code is not 200 or the `status` flag is false or absent; otherwise `models`, or the empty list when absent |
| `Client.ListContests` | app.py:19-27 | the listing makes one request, at offset 0 with limit 100, and yields its contests exactly when the response passes the check |
| `Client.GetContestsRecoversListing` | app.py:24-27 | a successful response's contests come back unchanged, and any non-200 status fails the check |
| `Client.FalseStatusIsNotEmptyListing` | leader2.py:22-25 | a 200 response whose flag is false or absent is a failed check, not an empty listing |
| `Client.FetchFromPages` | app.py:34-47 | from page `k`, the loop returns the entries of pages `k` up to the first halting page, whatever bound it was given |
| `Client.FirstHaltExists` | app.py:39-44 | if some page halts the loop, a first halting page exists |
| `Client.FullLeaderboardIsPagesBeforeHalt` | app.py:29-49 | the leaderboard is the in-order concatenation of every page before the first non-200 or empty page |
| `Client.GetFullLeaderboard` | leader2.py:27-47 | the loop returns the pages before the first halting page, concatenated; the `k`-th request is offset `100*k`, limit 100, so the offset advances by exactly 100 per kept page |
| `Client.TwoFullPagesThenEmpty` | app.py:42-46 | pages of 100, 100 and 0 entries give the 200 entries of the first two pages, in order |
| `Client.FailureTruncates` | app.py:39-40 | a non-200 second page truncates the result to the first page without an error |
| `Selection.FirstMatch` | app.py:104 | the position of a contest with exactly the chosen slug and no earlier match; none exactly when no slug matches |
| `Selection.FindContest` | leader2.py:74-76 | the contest found is in the listing with the chosen slug; none exactly when no contest has that slug |
| `Selection.FindContestTakesEarliest` | app.py:104-106 | with duplicate slugs, the earliest contest in the listing is chosen |
| `Selection.InsertSpec` | app.py:120 | inserting into a rank-sorted list keeps it sorted, adds exactly the entry, and places it before the entries of equal rank |
| `Selection.SortByRankSpec` | app.py:120 | the sort is rank-ordered, a permutation of its input, and keeps entries of equal rank in input order |
| `Selection.StableOrderUnique` | leader2.py:86 | two rank-sorted lists with the same entries per rank, in the same order, are equal |
| `Selection.SortByRankIsTheStableSort` | leader2.py:86 | any stable ordering by rank equals the sort |
| `Selection.TopThree` | app.py:120 | length `min(3, n)`, rank-ordered, drawn from the leaderboard, and every entry left out ranks no better than every entry kept |
| `Selection.TopThreeIsStablePrefix` | leader2.py:86 | the top three are the first `min(3, n)` entries of the stable sort by rank |
| `Selection.TopThreeExample` | app.py:120 | ranks 5, 1, 3, 2, 4 give the entries ranked 1, 2, 3 |
| `Report.RowsShape` | app.py:64-67 | one row per entry, in input order, each the entry's projection onto the layout's columns |
| `Report.BuildSheet` | leader2.py:49-53 | the header is the layout's titles, there is one row per entry, and each row is as wide as the header |
| `Report.SaveToExcelAsWritten` | app.py:64-66 | the export as written fails exactly on an empty leaderboard, and otherwise writes the corrected sheet |
| `Report.EmptyLeaderboardExportFails` | leader2.py:50-51 | on no entries, the as-written export fails while the corrected one writes the header only |
| `Report.ReadRowOf` | app.py:65 | a written row reads back as the entry's exported fields, the time through its display string |
| `Report.ReadRowsOf` | leader2.py:50-52 | the written rows read back as the entries in input order |
| `Report.ExportRoundTrip` | app.py:63-68 | reading the sheet back gives the entries with the fields their layout exports; with the time column, it gives the entries themselves |
| `Report.ExportRowCount` | app.py:67-68 | an export of N entries has N data rows plus one header row as wide as the titles |
| `Report.DefaultTime` | app.py:112 | the entry gets a time, 0 when it had none, and nothing else changes |
| `Report.DefaultTimes` | app.py:111-113 | every entry, in order, gets its time defaulted to 0, so the time column can be written |
| `Downloads.WriteReport` | app.py:115-118 | the report name holds a fresh regular file, replacing an older one; no other entry changes |
| `Downloads.Sweep` | app.py:73-82 | the pass removes exactly the regular files whose age strictly exceeds the limit and whose removal does not fail; everything else is unchanged |
| `Downloads.SweepPass` | app.py:72-82 | the file-by-file pass over the directory listing ends in the same state as the whole-directory sweep |
| `Downloads.SweepIdempotent` | app.py:76-79 | a second pass at the same instant, with no failures, removes nothing more |
| `Downloads.SweepLeavesOnlyFresh` | app.py:75-77 | after a pass with no failures, no regular file left is older than the limit |
| `Downloads.SweepAfterWrite` | app.py:76-77 | a written report survives a pass exactly while its age is at most the limit |
| `Downloads.ReportLivesOneHour` | app.py:70-79 | with the default `age_limit` of 3600 seconds, a written report survives every pass within its first hour and is removed by the first failure-free pass after it |
| `Downloads.DownloadFile` | app.py:124-139 | a missing name gives the "File not found." redirect and no change; an existing one is sent; only the requested name can disappear, and under app.py's policy it does exactly when it is a regular file whose removal succeeds; under leader2.py's policy nothing changes |
| `Downloads.DownloadAfterWrite` | app.py:129-135 | downloading a just-written report under the delete policy sends it and leaves the directory without it |
| `Handlers.Login` | app.py:85-95 | the login lists contests with the posted credentials (offset 0, limit 100) and redirects with the invalid-credentials notice exactly when that listing fails the check; otherwise it shows the listed contests |
| `Handlers.Export` | app.py:97-122 | redirect exactly when no listed contest has the slug, then with no page requested and the directory unchanged; otherwise the first matching contest's leaderboard (times defaulted in app.py) is exported under `secure_filename(name).xlsx` with the app's columns, using the corrected sheet of the Findings table, the top three of it are shown, and fetching starts at offset 0 with limit 100 |
| `Handlers.Leader2DownloadKeepsDirectory` | leader2.py:89-95 | a leader2.py download never changes the directory, and a missing file redirects with the notice |
| `Handlers.AppDownloadRemovesFile` | app.py:124-137 | an app.py download of a regular file sends it and removes exactly that file |
| `Handlers.MissingFileRedirects` | leader2.py:94-95 | a missing file gives a notice and a redirect in both applications |
| `Handlers.ExportThenDownload` | leader2.py:81-93 | a just-exported report is served; app.py then removes it and leader2.py keeps it |

## Findings

| source | as written | input that shows it | evidently intended | confidence | as-written member | corrected member |
|---|---|---|---|---|---|---|
| app.py:64-66, leader2.py:50-51 | `save_to_excel` builds `pd.DataFrame(leaderboard)` and then selects columns by name. A DataFrame built from an empty list has no columns, so the selection raises `KeyError` and the export request fails. | A contest whose first leaderboard page is empty or answers non-200, so the fetched leaderboard is `[]` | A sheet with the header row and no data rows | not executed; follows from pandas' documented behaviour for an empty DataFrame | `Report.SaveToExcelAsWritten` (with `Report.EmptyLeaderboardExportFails`) | `Report.BuildSheet` (with `Report.ExportRowCount`, `Report.ExportRoundTrip`), used by `Handlers.Export` |

## Left out

- HTTP calls, JSON decoding, Flask routing, templates and flash messages are not modelled. The API is an abstract function from a page request to a decoded response. A body that is not JSON, and a `models` key present with the value `null`, are not modelled.
- A JSON `status` value is modelled by its truthiness only.
- pandas and the `.xlsx` byte format are not modelled. A sheet is its header and its rows of cells.
- werkzeug's `secure_filename` is an opaque function parameter of `Handlers.Export`.
- The `cleanup_old_files` thread is modelled as one pass (`Downloads.SweepPass`). Its endless loop, the 600-second sleep and the thread start are concurrency and clock code. The same goes for races between the sweep and requests: a file listed but gone before its turn is skipped, because the model reads the current state.
- `send_file` streaming and the `after_this_request` hook are left out; only the resulting directory state is modelled. What `send_file` does with a name that is a directory is not modelled.
- `os.makedirs` of the downloads directory is not modelled. The directory is always present.
- `score` is an uninterpreted number (`real`). `time_taken` is a natural number of seconds; fractional times are not modelled.
- Client.GetFullLeaderboard: requires a page index at which the API halts. The source has no such guarantee and would loop forever against an API that never answers with an empty or failing page.
- Handlers.Export: requires the contest listing to pass the credential check. Both handlers iterate the listing without checking for `None`, which would raise a `TypeError`, and the model does not cover that case.
- Handlers.Export: app.py's handler also adds a `formatted_time` field to each entry for the template. The model does not add it; it equals `TimeFormat.FormatTime` of the defaulted time.
- Only the first 100 contests are listed: one request at offset 0, limit 100 (`Client.ListContests`, used by `Handlers.Login` and `Handlers.Export`). Further listing pages are never requested by the source either.
- Handlers.Export: models the corrected export; on an empty leaderboard the source raises `KeyError` in `save_to_excel` and writes nothing (see Findings), while the model shows an empty top three and writes a sheet with only the header row.
