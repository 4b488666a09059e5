/** The reconciliation report for bounced or unsubscribed contacts: the collected
    contacts, after their date columns are parsed (script.py:293, 313-314), are
    filtered to last week's window, each kept contact's constituent
    id is looked up by its `id`, the list of ids is assigned as a new column, and
    the `id` column is dropped. Column renaming and the CSV file are outside the
    model. */
module Reconcile {
  import opened Common
  import opened Pagination
  import opened Window
  import Records

  /** One row of the report: the contact without its `id`, and its constituent id. */
  datatype ReportRow = ReportRow(contact: Contact, constituentId: Option<string>)

  /** The `id` cell of a row as the lookup URL spells it: a contact without an
      `id` has `NaN` in that column, which formats as "nan". */
  function IdOf(c: Contact): string
  {
    if "id" in c then c["id"] else "nan"
  }

  /** `df["id"]`: the id cells of the rows, in row order. */
  function IdColumn(rows: seq<Contact>): (ids: seq<string>)
    ensures |ids| == |rows|
  {
    seq(|rows|, k requires 0 <= k < |rows| => IdOf(rows[k]))
  }

  /** `df["RE - Constituent ID"] = column` followed by `df.drop(labels = "id", axis = 1)`:
      the list is assigned by position. */
  function WithColumn(rows: seq<Contact>, column: seq<Option<string>>): (out: seq<ReportRow>)
    requires |column| == |rows|
    ensures |out| == |rows|
  {
    seq(|rows|, k requires 0 <= k < |rows| => ReportRow(rows[k] - {"id"}, column[k]))
  }

  /** The report for a run on `today`: filter by date, look up the ids of the kept
      rows, then assign the looked-up list as a column. `rows` is the frame after
      its date columns are parsed (script.py:293, 313-314). */
  function Report(rows: seq<Contact>, dateOf: Contact -> Option<int>, today: int,
                  fieldValuesOf: string -> seq<Records.FieldValue>): seq<ReportRow>
  {
    var kept := FilterByDate(rows, dateOf, StartDate(today), EndDate(today));
    WithColumn(kept, Records.ConstituentIds(IdColumn(kept), fieldValuesOf))
  }

  /** Report row `k` is kept row `k` without its `id`, paired with the constituent
      id looked up for that same row's `id`; and every kept row is an input row
      dated from last week's Monday through last week's Sunday. */
  lemma {:induction false} ReportRowsAreKeptRows(rows: seq<Contact>, dateOf: Contact -> Option<int>, today: int,
                                               fieldValuesOf: string -> seq<Records.FieldValue>)
    ensures var kept := FilterByDate(rows, dateOf, StartDate(today), EndDate(today));
            var out := Report(rows, dateOf, today, fieldValuesOf);
            && |out| == |kept|
            && forall k :: 0 <= k < |out| ==>
                 && out[k].contact.Keys == kept[k].Keys - {"id"}
                 && (forall f :: f in out[k].contact ==> out[k].contact[f] == kept[k][f])
                 && out[k].constituentId == Records.ConstituentId(fieldValuesOf(IdOf(kept[k])))
                 && kept[k] in rows
                 && dateOf(kept[k]).Some?
                 && EndDate(today) - 7 <= dateOf(kept[k]).value < EndDate(today)
  {
    var kept := FilterByDate(rows, dateOf, StartDate(today), EndDate(today));
    FilterForRun(rows, dateOf, today);
    var ids := IdColumn(kept);
    var column := Records.ConstituentIds(ids, fieldValuesOf);
    assert forall k :: 0 <= k < |kept| ==> column[k] == Records.ConstituentId(fieldValuesOf(IdOf(kept[k])));
    assert forall k :: 0 <= k < |kept| ==> kept[k] in kept;
  }
}
