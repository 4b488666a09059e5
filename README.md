# ActiveCampaign sync job: the rules inside `script.py`

`script.py` is a scheduled batch job. It reads welcome-series and segmentation
spreadsheets from SharePoint and turns each row into an ActiveCampaign contact
record. It sends those records to the bulk-import endpoint in batches sized to stay
near 90% of the 400,000-byte request limit. It then pages through the bounced
(`status=3`) and unsubscribed (`status=2`) contacts and keeps those dated inside
last week's window. It looks up each kept contact's constituent id (custom field
"2") and writes a run log.

This Dafny project models the rules inside that job. Everything around them is
treated as external: Key Vault, SharePoint, HTTP, joblib, pandas and the clock.

- `common.dfy` (`Common`): `Option`; `Concat`, Python's flattening comprehension;
  `IsSubsequence`.
- `text.dfy` (`Text`): the Python string operations the script uses, namely
  `str.split` with a one-character separator and its `[0]` / `[-1]` pieces,
  `sub in s`, and `str.endswith`.
- `batching.dfy` (`Batching`): `payload_parser` is a `while` loop over a growing
  list (`PayloadParser`). It is proved equal to the specification function
  `Boundaries`, which is built from `Grown`, the list as the loop leaves it. The
  slicing loop that produces the POST bodies is `BulkImport`. Each body it returns
  is one POST that is sent.
- `pagination.dfy` (`Pagination`): the page count `ceil(total/100)` and the
  offsets `100*index`. `FetchPage` is the per-page projection to a fixed field
  list. `ProcessContacts` holds the pages in index order. `Collect` is the
  flattened result.
- `window.dfy` (`Window`): `start_date` and `end_date` on day ordinals
  (`date.toordinal()`; 0001-01-01 is day 1, a Monday, so `weekday(d) = (d+6) % 7`).
  It also holds the strict `>` / `<` date filter (`FilterByDate`).
- `records.dfy` (`Records`): `np.select` as first-match (`Select`), the
  segmentation and welcome list-id rules, and the tags. The per-file row-mapping
  loop (`MapFiles`) is shared by both sources. Also here: the constituent-id lookup
  (`ConstituentId`) and its per-contact map (`ConstituentIds`).
- `reconcile.dfy` (`Reconcile`): the bounced and unsubscribed reports. The kept
  rows get the looked-up constituent ids as a new column, and the `id` column is
  dropped (`Report`).
- `runlog.dfy` (`RunLog`): the table uploaded as the run log, both as written and
  as intended (see Findings).

`PayloadParser` is specified by a function of `(n, size)`. So running it twice on
the same input gives the same boundaries. `BulkImport`, the slicing loop at
script.py:212-220, is the same code as the one at script.py:277-285.

The date filter is strict at both ends (`> start_date` and `< end_date`), so rows
dated `start_date` or `end_date` are dropped. Since `start_date` is always a Sunday
and `end_date` the Monday of the current week, the kept dates are last week's
Monday through Sunday. An existing run log is not appended to, and a stray file
that is not a spreadsheet re-imports the previous file's rows (see Findings).

Several references in the script are broken. The model takes the evident intent:
- `i` at script.py:169-173, 191 and 258 is a SharePoint file entry (a dict).
  `i.split(...)` stands for splitting its file name `i["Name"]`.
- `url` at script.py:217 and 282 and `headers` at script.py:99 and 112 are
  undefined. They stand for `url_bulk_import_contact` and
  `headers_get_bounced_unsubbed_contact`. Neither URL nor header appears in the
  model.
- The list of conditions at script.py:168-174 has no commas, so it is not valid
  Python. `WelcomeListId` reads it as first-match on the file stem, like the
  segmentation rule. No property is claimed about it.

## Model

| member | source | states |
|---|---|---|
| `Batching.Step` | script.py:90 | The step is at least 1 and is exactly `floor(360000*N/S) + 1`: `(k-1)*S <= 360000*N < k*S`. |
| `Batching.PayloadParser` | script.py:85-94 | The loop's result equals `Boundaries(N, S)`, a function of `(N, S)` alone, so it is deterministic. It terminates because each step is at least 1. |
| `Batching.GrownShape` | script.py:89-91 | Before the overwrite, the grown list starts at its first element and advances by exactly the step. It stays below N until its last element, which reaches N. The number of steps is the least one that covers N. |
| `Batching.BoundariesWellFormed` | script.py:85-94 | The boundaries start at 0, end at N and strictly increase. All lie in [0, N]. Every step but the last equals `Step(N, S)` and the last is at most that. N = 0 gives exactly `[0]`. The number of batches is `ceil(N / Step)`. |
| `Batching.BulkImport` | script.py:212-220 | Body k is exactly `contacts[b[k]..b[k+1]]` for the boundaries `b = payload_parser`'s result, one body per consecutive pair. The bodies concatenate to exactly the contact list, in order, with no gap or overlap. Each body is non-empty and holds at most `Step(N, S)` records. There are `ceil(N / Step)` of them, and none when N = 0. |
| `Batching.UniformBatchBound` | script.py:81-90 | If all records have the same size, then for any serialized size S at least the records' total (as `sys.getsizeof(json.dumps(...))` always is), a batch is at most 360,000 bytes plus one record. |
| `Batching.UniformBatchCanExceedApiLimit` | script.py:81-90 | Ten records whose JSON is 70,000 bytes each serialize to 700,020 bytes of JSON plus the string header, so S lies in [700,000, 720,000]. Every such S gives a step of 6. One batch of six is 420,000 bytes, over the 400,000-byte API limit. |
| `Common.ConcatLength` | script.py:292 | The flattened list's length is the sum of the page lengths. |
| `Pagination.PageCount` | script.py:290 | The page count is `ceil(total/100)`: `pages*100 >= total`, and one page fewer would not reach `total`. |
| `Pagination.PagesCover` | script.py:290 | Total 0 requests no pages. Every requested page's offset `100*index` is below the total. The last page's offset + 100 reaches the total. Every result index `r` lies on requested page `r / 100`. |
| `Pagination.Project` | script.py:101-104 | A page entry keeps exactly the listed fields the contact has, with their values, and no other field. |
| `Pagination.ProcessContacts` | script.py:123-136 | Exactly one result per requested page index. Their order is the index order, which `CollectPrefix` uses. |
| `Pagination.CollectPrefix` | script.py:290-292 | Flattening the first p pages gives the projected listing up to offset `100*p`, in listing order. |
| `Pagination.CollectIsProjectedListing` | script.py:287-292 | When the reported total is the listing's length, the flattened pages are every contact of the listing exactly once, projected, in listing order. Their length is the sum of the page lengths. |
| `Window.Weekday` | script.py:69 | `weekday()` is in 0..6. |
| `Window.WindowIsLastWeek` | script.py:65-73 | `start_date` is a Sunday. `end_date = start_date + 8` is the Monday of today's week, so never after today and less than a week before it. A date is strictly between them exactly when it is last week's Monday through Sunday. |
| `Window.FilterByDateKeepsWindow` | script.py:294-295 | A row survives the filter exactly when it is an input row whose date is present and strictly inside (start, end). Rows dated `start` or `end` are dropped. Survivors are an order-preserving subsequence of the input. Each surviving row occurs as many times as in the input, so duplicates are kept. |
| `Window.FilterForRun` | script.py:315-316 | For a run on a given day, the kept rows are exactly those dated from last week's Monday through last week's Sunday, each as many times as it occurs in the input. |
| `Records.Select` | script.py:230-249 | `np.select` for one row: the default exactly when no condition holds. Otherwise, the choice of the first condition that holds. A chosen id is always one of the listed ids. |
| `Records.SegmentSelect` | script.py:230-249 | Over the seven segmentation conditions, when the fourth implies the third: the first condition gives "199", the third without the first two gives "236", and "237" is never chosen. |
| `Records.SegmentListIdFirstMatch` | script.py:230-249 | An AU row whose Package contains "Active" gets "199". An AU row whose Package contains "Insight" but not "Active" or "Lapsed" gets "236". "NonInsight" contains "Insight", so no row ever gets "237". |
| `Records.SegmentTagShape` | script.py:258 | The segmentation tag is the file stem before the first '.', then "_", then the Package's part after its last '_' and before the next '-'. The stem has no '.'. The part has neither '_' nor '-' and only characters of the Package. |
| `Records.WelcomeTagShape` | script.py:191 | The welcome tag has neither '\' nor '.' and is a prefix of the name's last '\'-separated component. |
| `Records.MapFiles` | script.py:223-273 | The per-file, per-row append loops yield exactly `MappedFrom(files)`, one record per row, in file and row order. A non-spreadsheet file before any spreadsheet makes the run fail. |
| `Records.MappedSpreadsheets` | script.py:160-208 | When every file is `.xlsx`/`.xls`/`.csv` and has been read with all its columns, the loop never fails. It yields each file's mapped rows, files in order, and exactly as many records as rows. |
| `Records.StaleFrameRepeatsRows` | script.py:224-228 | As written, a non-spreadsheet file after a spreadsheet reuses the previous frame. It re-imports that file's rows under its own name (see Findings). |
| `Records.MappedSkippingCountsSheetRows` | script.py:160-208 | As intended, skipping non-spreadsheet files never fails and yields exactly one record per spreadsheet row. With only spreadsheets it agrees with the loop as written. |
| `Records.SkippingDropsStrayFile` | script.py:224-228 | As intended, a stray file after a spreadsheet adds no records. |
| `Records.ConstituentIdIsFirstMatch` | script.py:143-144 | The constituent id is missing exactly when no field value has field "2". Otherwise it is the value of the first one that does. |
| `Reconcile.ReportRowsAreKeptRows` | script.py:293-297 | Report row k is kept row k without its `id`, with every other field unchanged. Its constituent id is the lookup for that same row's `id`. Every kept row is an input row dated from last week's Monday through last week's Sunday. |
| `Text.JoinSplit` | script.py:258 | `sep.join(s.split(sep)) == s`: splitting loses nothing. |
| `Text.SplitPieces` | script.py:258 | No piece of `s.split(sep)` contains `sep`. Every character of a piece comes from `s`. |
| `Text.FirstIsPrefixBeforeSep` | script.py:258 | `s.split(sep)[0]` is the prefix of `s` up to the first `sep`, or all of `s` when there is none. |
| `Text.LastIsSuffixAfterSep` | script.py:258 | `s.split(sep)[-1]` is the suffix of `s` after the last `sep`, or all of `s` when there is none. |
| `Text.ContainsTail` | script.py:233-234 | Any tail of a string that occurs in `s` also occurs in `s`. This is why "NonInsight" rows match "Insight". |
| `RunLog.AsWrittenDropsNewRow` | script.py:340-346 | As written, an existing log is uploaded again unchanged. This run's row is lost. |
| `RunLog.UploadedLog` | script.py:339-352 | As intended: an existing log gains exactly this run's row at the end, with every earlier row unchanged. A missing log becomes this one row. |
| `RunLog.UploadedLogKeepsHistory` | script.py:339-352 | Over a series of runs, the intended log is the first table followed by one row per run, in run order. |

## Findings

| source | as written | input that shows it | evidently intended | confidence | as-written member | corrected member |
|---|---|---|---|---|---|---|
| script.py:161-165, 224-228 | A file that is neither `.xlsx`, `.xls` nor `.csv` leaves `df` holding the previous file's frame, and the row loop maps that frame again. | A folder holding `a.csv` and then `notes.txt` imports the rows of `a.csv` twice, the second time with the tag derived from `notes.txt`, and in the welcome loop the list id too | Skip files that are not spreadsheets | medium; not executed | `Records.StaleFrameRepeatsRows` (with `Records.MappedFrom`) | `Records.SkippingDropsStrayFile` (with `Records.MappedSkipping`, `Records.MappedSkippingCountsSheetRows`) |
| script.py:342 | `_df_logs.append(df_logs, ignore_index = True)` discards the frame it returns. The existing log is re-uploaded unchanged. Under pandas 2 the method no longer exists and the run stops with an error. | An existing 3-row `runtime_logs.csv` stays 3 rows after a run | Upload the existing rows followed by this run's row (the comment at line 339: "append newest log data & update") | high; not executed | `RunLog.AsWrittenDropsNewRow` (with `RunLog.UploadedLogAsWritten`) | `RunLog.UploadedLog` |

## Left out

- Key Vault secrets, SharePoint login, listing and file download/upload: external services and network I/O. Files enter the model as a name and already-parsed rows.
- All `requests` calls and the `time.sleep` pacing: HTTP and wall-clock concerns. A POST is modelled only as a body in `BulkImport`'s result. A page or contact request is modelled as a read of the server's listing, passed in as a parameter.
- joblib `Parallel` workers: concurrency. The model relies on joblib returning results in input order and maps in order.
- `sys.getsizeof(json.dumps(...))`: the serialized size is an abstract positive integer `size`.
- Batching.Step: `int(360000 / S * N)` is float arithmetic. The model takes the exact floor, which can differ by one when the product is within rounding of an integer.
- Batching.BulkImport: the 90% ceiling is not promised per batch. With equal record sizes a batch can exceed it by one record (`UniformBatchBound`), and even exceed the API limit (`UniformBatchCanExceedApiLimit`).
- Pagination.PageCount: `math.ceil(int(total) / 100)` uses float division. The model is exact, which matches for totals below 2^53.
- Pagination.CollectIsProjectedListing: assumes the `meta.total` reported by the first request equals the length of the listing the pages are read from. A listing that changes between requests is not modelled.
- Pagination.FetchPage: assumes the server returns `listing[offset : offset+limit]` for `limit`/`offset`. The API's own paging is not part of this model.
- Window: dates are taken as already-parsed ordinals. `pd.to_datetime`, `.dt.date` and `.str.split("T")` are library behaviour. A missing date is `None` (NaT) and is dropped. `pd.to_datetime` raises on an unparsable date and stops the run; the model has no such error path, since parsing is outside it. Dates before 0001-01-01, where Python raises `OverflowError`, are not excluded.
- An empty collected listing gives a frame with no `bounced_date`/`cdate` column, and the date parse at script.py:293 / 313 raises a `KeyError`. The model's filter returns the empty list instead.
- Reconciliation output: renaming columns and `to_csv` are pandas formatting and file output, not modelled.
- Records.ConstituentIds: `process_cons_id` runs the lookups in joblib workers. The model assumes joblib returns the results in the order of the ids, so the column lines up with the rows.
- Reconcile.IdOf: a frame with no `id` column at all raises a `KeyError`. The model formats a missing `id` as "nan" per row instead.
- Records.WelcomeListId: the source at script.py:168-174 is not valid Python. The model is the evident first-match reading, and no property is claimed about it.
- Records.ListChoice: `NoMatch` stands for `np.select`'s default `0`. How that value shows in the string column depends on the numpy version and is not modelled.
- Records.MapFiles: a spreadsheet missing any column read at script.py:166-202 / 229-267 raises a `KeyError` and stops the run. The model's rows always carry every column.
- Records.WelcomeRecord and Records.SegmentRecord: every spreadsheet cell is a string. The `astype("str")` conversions and numeric cells are not modelled. `to_dict()` is assumed to be indexed 0..len-1.
- Reading `.xlsx`/`.xls` through `BytesIO(... .decode("utf-8"))` at script.py:163 and 226 passes text where bytes are expected. The tabular reader is outside the model, so this is not modelled.
- Run log: timestamps, time zones and the rounded duration are clock reads and float formatting. They enter `LogRow` already formatted.
