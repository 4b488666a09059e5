/** The run log `runtime_logs.csv`: the table uploaded at the end of a run, given
    the table already in the log folder, if any, and this run's row. Reading and
    uploading the file are outside the model. */
module RunLog {
  import opened Common

  /** One row of the run log; the timestamp and duration arrive already formatted. */
  datatype LogRow = LogRow(
    executedAt: string,
    durationInMins: string,
    welcomeCount: nat,
    segmentCount: nat,
    startDate: int,
    endDate: int,
    bouncedCount: nat,
    unsubbedCount: nat)

  /** The table uploaded as the code is written: when a log exists, the frame
      `_df_logs.append(df_logs, ignore_index = True)` returns is discarded, so the
      existing table is uploaded again unchanged. */
  function UploadedLogAsWritten(existing: Option<seq<LogRow>>, row: LogRow): seq<LogRow>
  {
    match existing
    case Some(rows) => rows
    case None => [row]
  }

  /** As written, a run against an existing log leaves it with the same rows: this
      run's row is lost (a 3-row log stays a 3-row log). */
  lemma AsWrittenDropsNewRow(rows: seq<LogRow>, row: LogRow)
    requires row !in rows
    ensures UploadedLogAsWritten(Some(rows), row) == rows
    ensures row !in UploadedLogAsWritten(Some(rows), row)
  {
  }

  /** The table the comment at script.py:339 intends: the existing rows followed by
      this run's row, or this run's row alone when there is no log yet. */
  function UploadedLog(existing: Option<seq<LogRow>>, row: LogRow): (uploaded: seq<LogRow>)
    ensures existing.None? ==> uploaded == [row]
    ensures existing.Some? ==> |uploaded| == |existing.value| + 1
    ensures existing.Some? ==> uploaded[..|existing.value|] == existing.value
    ensures uploaded[|uploaded| - 1] == row
  {
    match existing
    case Some(rows) => rows + [row]
    case None => [row]
  }

  /** The log after a series of runs, each uploading `UploadedLog` of the previous one. */
  function AppendRuns(existing: seq<LogRow>, runs: seq<LogRow>): seq<LogRow>
    decreases |runs|
  {
    if runs == [] then existing else AppendRuns(UploadedLog(Some(existing), runs[0]), runs[1..])
  }

  /** Appending is append-only: running again keeps every earlier row, in order,
      and adds exactly one row per run. */
  lemma {:induction false} UploadedLogKeepsHistory(existing: seq<LogRow>, runs: seq<LogRow>)
    ensures AppendRuns(existing, runs) == existing + runs
    decreases |runs|
  {
    if runs != [] {
      UploadedLogKeepsHistory(existing + [runs[0]], runs[1..]);
      assert existing + [runs[0]] + runs[1..] == existing + runs;
    }
  }
}
