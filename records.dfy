/** Turning spreadsheet rows into bulk-import contact records: the `np.select`
    list-id rules, the tags, the per-file row-mapping loops, and the lookup of the
    constituent id in a contact's custom field values. */
module Records {
  import opened Common
  import opened Text

  /** The list a record subscribes to: the choice of the first condition that holds,
      or `np.select`'s default when none does. */
  datatype ListChoice = ListId(id: string) | NoMatch

  /** A bulk-import contact record. `fields` pairs a custom-field id with its value. */
  datatype ContactRecord = ContactRecord(
    email: string,
    firstName: string,
    lastName: string,
    phone: Option<string>,
    tags: seq<string>,
    fields: seq<(nat, string)>,
    listId: ListChoice)

  /** A row of a welcome-series spreadsheet (columns read at script.py:186-202). */
  datatype WelcomeRow = WelcomeRow(
    email: string, firstName: string, surname: string, mobile: string,
    serialNum: string, title: string, address: string, suburb: string,
    state: string, postcode: string, dob: string, firstDebitDate: string, amount: string)

  /** A row of a segmentation spreadsheet (columns read at script.py:254-267). */
  datatype SegmentRow = SegmentRow(
    email: string, firstName: string, lastName: string, constituentNumber: string,
    title: string, appeal: string, package: string, description: string,
    informalSalutation: string, fullname: string)

  /** A file of the SharePoint folder: its name and the rows the tabular reader gives. */
  datatype SourceFile<Row> = SourceFile(name: string, rows: seq<Row>)

  /** `np.select(conds, choices)` for one row: the first condition that holds wins. */
  function Select(conds: seq<bool>, choices: seq<string>): (c: ListChoice)
    requires |conds| == |choices|
    ensures c.NoMatch? <==> forall k :: 0 <= k < |conds| ==> !conds[k]
    ensures forall k :: 0 <= k < |conds| && conds[k] && (forall j :: 0 <= j < k ==> !conds[j]) ==>
              c == ListId(choices[k])
    ensures c.ListId? ==> c.id in choices
  {
    if conds == [] then NoMatch
    else if conds[0] then ListId(choices[0])
    else
      var c := Select(conds[1..], choices[1..]);
      assert forall k :: 1 <= k < |conds| ==> conds[k] == conds[1..][k - 1];
      c
  }

  /** The segmentation list ids, in the order of their conditions. */
  const SegmentIds: seq<string> := ["199", "200", "236", "237", "256", "254", "258"]

  /** The segmentation conditions on a row's Appeal and Package (script.py:231-238). */
  function SegmentConditions(appeal: string, package: string): seq<bool>
  {
    [ Contains(appeal, "AU") && Contains(package, "Active"),
      Contains(appeal, "AU") && Contains(package, "Lapsed"),
      Contains(appeal, "AU") && Contains(package, "Insight"),
      Contains(appeal, "AU") && Contains(package, "NonInsight"),
      Contains(appeal, "NZ") && Contains(package, "Active"),
      Contains(appeal, "NZ") && Contains(package, "Lapsed"),
      Contains(appeal, "NZ") && Contains(package, "Other") ]
  }

  /** The segmentation list id of a row. */
  function SegmentListId(appeal: string, package: string): ListChoice
  {
    Select(SegmentConditions(appeal, package), SegmentIds)
  }

  /** `np.select` over the seven segmentation conditions, given that the fourth
      condition implies the third. */
  lemma SegmentSelect(conds: seq<bool>)
    requires |conds| == 7
    requires conds[3] ==> conds[2]
    ensures conds[0] ==> Select(conds, SegmentIds) == ListId("199")
    ensures !conds[0] && !conds[1] && conds[2] ==> Select(conds, SegmentIds) == ListId("236")
    ensures Select(conds, SegmentIds) != ListId("237")
  {
    var c := Select(conds, SegmentIds);
    if conds[0] {
      assert c == ListId(SegmentIds[0]);
    } else if conds[1] {
      assert c == ListId(SegmentIds[1]);
    } else if conds[2] {
      assert c == ListId(SegmentIds[2]);
    } else if conds[4] {
      assert c == ListId(SegmentIds[4]);
    } else if conds[5] {
      assert c == ListId(SegmentIds[5]);
    } else if conds[6] {
      assert c == ListId(SegmentIds[6]);
    } else {
      assert c == NoMatch;
    }
  }

  /** First match wins: an AU row whose Package contains "Active" gets "199"; an AU
      row whose Package contains "Insight" (and neither "Active" nor "Lapsed") gets
      "236"; because "NonInsight" contains "Insight", such rows never reach the
      fourth condition, so "237" is never assigned. */
  lemma SegmentListIdFirstMatch(appeal: string, package: string)
    ensures Contains(appeal, "AU") && Contains(package, "Active") ==> SegmentListId(appeal, package) == ListId("199")
    ensures (Contains(appeal, "AU") && Contains(package, "Insight") && !Contains(package, "Active") && !Contains(package, "Lapsed"))
              ==> SegmentListId(appeal, package) == ListId("236")
    ensures SegmentListId(appeal, package) != ListId("237")
  {
    if Contains(package, "NonInsight") {
      ContainsTail(package, "NonInsight", 3);
      assert "NonInsight"[3..] == "Insight";
    }
    SegmentSelect(SegmentConditions(appeal, package));
  }

  /** The welcome-series list ids, in the order of their conditions. */
  const WelcomeIds: seq<string> := ["71", "26", "246", "241", "72"]

  /** The welcome-series list id of a file: the first of the markers that its name
      (before the first '.') contains. */
  function WelcomeListId(name: string): ListChoice
  {
    var stem := First(name, '.');
    Select([ Contains(stem, "Welcome"), Contains(stem, "1stWeekEmail"), Contains(stem, "2ndMonthEmail"),
             Contains(stem, "3rdMonthEmail"), Contains(stem, "2YearEmail") ],
           WelcomeIds)
  }

  /** The welcome tag: the file name's last `\`-separated component, up to its first '.'. */
  function WelcomeTag(name: string): string
  {
    First(Last(name, '\\'), '.')
  }

  /** The Package's tag part: after its last '_', up to the next '-'. */
  function PackagePart(package: string): string
  {
    First(Last(package, '_'), '-')
  }

  /** The segmentation tag: the file name up to its first '.', "_", the Package's part. */
  function SegmentTag(name: string, package: string): string
  {
    First(name, '.') + "_" + PackagePart(package)
  }

  /** The segmentation tag is the file stem, "_" and the Package's part; the stem
      holds no '.', the part holds neither '_' nor '-' and is a piece of the Package. */
  lemma SegmentTagShape(name: string, package: string)
    ensures var stem := First(name, '.');
            var part := PackagePart(package);
            && SegmentTag(name, package) == stem + "_" + part
            && stem <= name && '.' !in stem
            && '_' !in part && '-' !in part
            && forall ch :: ch in part ==> ch in package
  {
    FirstIsPrefixBeforeSep(name, '.');
    var tail := Last(package, '_');
    LastIsSuffixAfterSep(package, '_');
    SplitPieces(tail, '-');
    assert PackagePart(package) == Split(tail, '-')[0];
    forall ch | ch in PackagePart(package)
      ensures ch in package && ch != '_'
    {
      assert ch in tail;
      assert tail == package[|package| - |tail|..];
    }
  }

  /** The welcome tag holds neither a '\' nor a '.'. */
  lemma WelcomeTagShape(name: string)
    ensures '\\' !in WelcomeTag(name) && '.' !in WelcomeTag(name)
    ensures WelcomeTag(name) <= Last(name, '\\')
  {
    var tail := Last(name, '\\');
    LastIsSuffixAfterSep(name, '\\');
    FirstIsPrefixBeforeSep(tail, '.');
    SplitPieces(tail, '.');
    assert WelcomeTag(name) == Split(tail, '.')[0];
  }

  /** The record built for one row of a welcome-series file. */
  function WelcomeRecord(name: string, row: WelcomeRow): ContactRecord
  {
    ContactRecord(row.email, row.firstName, row.surname, Some(row.mobile), [WelcomeTag(name)],
      [(2, row.serialNum), (5, row.title), (24, row.address), (25, row.suburb), (26, row.state),
       (27, row.postcode), (28, row.dob), (29, row.firstDebitDate), (30, row.amount)],
      WelcomeListId(name))
  }

  /** The record built for one row of a segmentation file. */
  function SegmentRecord(name: string, row: SegmentRow): ContactRecord
  {
    ContactRecord(row.email, row.firstName, row.lastName, None, [SegmentTag(name, row.package)],
      [(2, row.constituentNumber), (5, row.title), (96, row.appeal), (97, row.package),
       (134, row.description), (113, row.informalSalutation), (46, row.fullname)],
      SegmentListId(row.appeal, row.package))
  }

  /** Whether the file is read at all: `.xlsx`, `.xls` or `.csv`. */
  predicate IsSpreadsheet(name: string)
  {
    EndsWith(name, ".xlsx") || EndsWith(name, ".xls") || EndsWith(name, ".csv")
  }

  /** The records of one file's rows, in row order. */
  function MapRows<Row>(name: string, rows: seq<Row>, mapRow: (string, Row) -> ContactRecord): (rs: seq<ContactRecord>)
    ensures |rs| == |rows|
  {
    seq(|rows|, j requires 0 <= j < |rows| => mapRow(name, rows[j]))
  }

  /** The records the per-file loop appends from `files` on, when the frame `df`
      was read last; a file that is not a spreadsheet leaves `df` as it was, and
      with no frame of this kind read yet the run fails (in the welcome loop `df`
      is unbound; in the segmentation loop it still holds the last welcome frame,
      which lacks the segmentation columns). */
  function MappedFrom<Row>(files: seq<SourceFile<Row>>, df: Option<seq<Row>>, mapRow: (string, Row) -> ContactRecord)
    : Option<seq<ContactRecord>>
  {
    if files == [] then Some([])
    else
      var df' := if IsSpreadsheet(files[0].name) then Some(files[0].rows) else df;
      if df'.None? then None
      else
        match MappedFrom(files[1..], df', mapRow)
        case None => None
        case Some(rest) => Some(MapRows(files[0].name, df'.value, mapRow) + rest)
  }

  /** `records` followed by the records of a successful remainder. */
  function Prepend(records: seq<ContactRecord>, rest: Option<seq<ContactRecord>>): Option<seq<ContactRecord>>
  {
    match rest
    case None => None
    case Some(r) => Some(records + r)
  }

  /** Prepending twice is prepending the concatenation. */
  lemma PrependTwice(a: seq<ContactRecord>, b: seq<ContactRecord>, rest: Option<seq<ContactRecord>>)
    ensures Prepend(a, Prepend(b, rest)) == Prepend(a + b, rest)
  {
    if rest.Some? {
      assert a + (b + rest.value) == (a + b) + rest.value;
    }
  }

  /** The loops at script.py:160-208 and 223-273: for each file, read its rows and
      append one record per row to `to_import_from_JO` / `to_import_from_NO`. */
  method MapFiles<Row>(files: seq<SourceFile<Row>>, mapRow: (string, Row) -> ContactRecord)
    returns (result: Option<seq<ContactRecord>>)
    ensures result == MappedFrom(files, None, mapRow)
  {
    var toImport: seq<ContactRecord> := [];
    var df: Option<seq<Row>> := None;
    var i := 0;
    assert files[0..] == files;
    assert Prepend([], MappedFrom(files, None, mapRow)) == MappedFrom(files, None, mapRow) by {
      var all := MappedFrom(files, None, mapRow);
      if all.Some? {
        assert [] + all.value == all.value;
      }
    }
    while i < |files|
      invariant 0 <= i <= |files|
      invariant MappedFrom(files, None, mapRow) == Prepend(toImport, MappedFrom(files[i..], df, mapRow))
    {
      var file := files[i];
      ghost var dfBefore := df;
      if IsSpreadsheet(file.name) {
        df := Some(file.rows);
      }
      if df.None? {
        assert MappedFrom(files[i..], dfBefore, mapRow) == None;
        return None;
      }
      var rows := df.value;
      ghost var before := toImport;
      var j := 0;
      while j < |rows|
        invariant 0 <= j <= |rows|
        invariant toImport == before + MapRows(file.name, rows[..j], mapRow)
      {
        assert rows[..j + 1] == rows[..j] + [rows[j]];
        toImport := toImport + [mapRow(file.name, rows[j])];
        j := j + 1;
      }
      assert rows[..|rows|] == rows;
      assert files[i..][1..] == files[i + 1..];
      assert MappedFrom(files[i..], dfBefore, mapRow)
          == Prepend(MapRows(file.name, rows, mapRow), MappedFrom(files[i + 1..], df, mapRow));
      PrependTwice(before, MapRows(file.name, rows, mapRow), MappedFrom(files[i + 1..], df, mapRow));
      i := i + 1;
    }
    assert MappedFrom(files[i..], df, mapRow) == Some([]);
    assert toImport + [] == toImport;
    result := Some(toImport);
  }

  /** The records of all files, when every file is a spreadsheet. */
  function MapAll<Row>(files: seq<SourceFile<Row>>, mapRow: (string, Row) -> ContactRecord): seq<ContactRecord>
  {
    if files == [] then [] else MapRows(files[0].name, files[0].rows, mapRow) + MapAll(files[1..], mapRow)
  }

  /** The number of rows in all files. */
  function RowCount<Row>(files: seq<SourceFile<Row>>): nat
  {
    if files == [] then 0 else |files[0].rows| + RowCount(files[1..])
  }

  /** When every file is a spreadsheet the loop never fails, whatever was read
      before, and yields one record per row: each file's rows in order, files in order. */
  lemma {:induction false} MappedSpreadsheets<Row>(files: seq<SourceFile<Row>>, df: Option<seq<Row>>, mapRow: (string, Row) -> ContactRecord)
    requires forall k :: 0 <= k < |files| ==> IsSpreadsheet(files[k].name)
    ensures MappedFrom(files, df, mapRow) == Some(MapAll(files, mapRow))
    ensures |MapAll(files, mapRow)| == RowCount(files)
  {
    if files != [] {
      MappedSpreadsheets(files[1..], Some(files[0].rows), mapRow);
    }
  }

  /** A file that is not a spreadsheet, after one that is, contributes the earlier
      file's rows a second time, tagged with its own name. */
  lemma StaleFrameRepeatsRows<Row>(sheet: SourceFile<Row>, other: SourceFile<Row>, mapRow: (string, Row) -> ContactRecord)
    requires IsSpreadsheet(sheet.name) && !IsSpreadsheet(other.name)
    ensures MappedFrom([sheet, other], None, mapRow)
              == Some(MapRows(sheet.name, sheet.rows, mapRow) + MapRows(other.name, sheet.rows, mapRow))
  {
    assert [sheet, other][1..] == [other];
    assert [other][1..] == [];
    var again := MapRows(other.name, sheet.rows, mapRow);
    assert MappedFrom([other], Some(sheet.rows), mapRow) == Some(again + []);
    assert again + [] == again;
  }

  /** The records of all files as evidently intended: a file that is not a
      spreadsheet is skipped instead of re-mapping the previous frame. */
  function MappedSkipping<Row>(files: seq<SourceFile<Row>>, mapRow: (string, Row) -> ContactRecord): seq<ContactRecord>
  {
    if files == [] then []
    else
      (if IsSpreadsheet(files[0].name) then MapRows(files[0].name, files[0].rows, mapRow) else [])
      + MappedSkipping(files[1..], mapRow)
  }

  /** The number of rows in the spreadsheet files only. */
  function SheetRowCount<Row>(files: seq<SourceFile<Row>>): nat
  {
    if files == [] then 0
    else (if IsSpreadsheet(files[0].name) then |files[0].rows| else 0) + SheetRowCount(files[1..])
  }

  /** Skipping never fails and yields exactly one record per spreadsheet row; a
      stray file contributes nothing. When every file is a spreadsheet it agrees
      with the loop as written. */
  lemma {:induction false} MappedSkippingCountsSheetRows<Row>(files: seq<SourceFile<Row>>, df: Option<seq<Row>>, mapRow: (string, Row) -> ContactRecord)
    ensures |MappedSkipping(files, mapRow)| == SheetRowCount(files)
    ensures (forall k :: 0 <= k < |files| ==> IsSpreadsheet(files[k].name)) ==>
              MappedFrom(files, df, mapRow) == Some(MappedSkipping(files, mapRow))
  {
    if files != [] {
      MappedSkippingCountsSheetRows(files[1..], Some(files[0].rows), mapRow);
      if forall k :: 0 <= k < |files| ==> IsSpreadsheet(files[k].name) {
        assert forall k :: 0 <= k < |files[1..]| ==> files[1..][k] == files[k + 1];
      }
    }
  }

  /** The two-file case of `StaleFrameRepeatsRows`, skipping: the stray file adds
      no records. */
  lemma SkippingDropsStrayFile<Row>(sheet: SourceFile<Row>, other: SourceFile<Row>, mapRow: (string, Row) -> ContactRecord)
    requires IsSpreadsheet(sheet.name) && !IsSpreadsheet(other.name)
    ensures MappedSkipping([sheet, other], mapRow) == MapRows(sheet.name, sheet.rows, mapRow)
  {
    assert [sheet, other][1..] == [other];
    assert [other][1..] == [];
    var once := MapRows(sheet.name, sheet.rows, mapRow);
    assert MappedSkipping([other], mapRow) == [] + MappedSkipping([], mapRow);
    assert MappedSkipping([sheet, other], mapRow) == once + MappedSkipping([other], mapRow);
    assert once + [] == once;
  }

  /** A field value of a contact as `GET /contacts/{id}` returns it. */
  datatype FieldValue = FieldValue(field: string, value: string)

  /** `get_contacts_cons_id`: the value of the first field value whose field is "2",
      or missing when there is none. */
  function ConstituentId(fieldValues: seq<FieldValue>): Option<string>
  {
    var matching := MatchingFields(fieldValues, "2");
    if |matching| == 0 then None else Some(matching[0].value)
  }

  /** `[i for i in fieldValues if i["field"] == field]`. */
  function MatchingFields(fieldValues: seq<FieldValue>, field: string): seq<FieldValue>
  {
    if fieldValues == [] then []
    else (if fieldValues[0].field == field then [fieldValues[0]] else []) + MatchingFields(fieldValues[1..], field)
  }

  /** The constituent id is missing exactly when no field value has field "2", and
      otherwise is the value of the first one that has. */
  lemma {:induction false} ConstituentIdIsFirstMatch(fieldValues: seq<FieldValue>)
    ensures ConstituentId(fieldValues).None? <==> forall k :: 0 <= k < |fieldValues| ==> fieldValues[k].field != "2"
    ensures forall k :: 0 <= k < |fieldValues| && fieldValues[k].field == "2" &&
              (forall j :: 0 <= j < k ==> fieldValues[j].field != "2")
              ==> ConstituentId(fieldValues) == Some(fieldValues[k].value)
  {
    if fieldValues != [] {
      ConstituentIdIsFirstMatch(fieldValues[1..]);
      var tail := fieldValues[1..];
      assert forall k :: 1 <= k < |fieldValues| ==> fieldValues[k] == tail[k - 1];
      if fieldValues[0].field != "2" {
        assert MatchingFields(fieldValues, "2") == MatchingFields(tail, "2");
      }
    }
  }

  /** `process_cons_id(ids)`: one lookup per id, results in the order of the ids
      (joblib's `Parallel` returns results in the order of its inputs). */
  function ConstituentIds(ids: seq<string>, fieldValuesOf: string -> seq<FieldValue>): (r: seq<Option<string>>)
    ensures |r| == |ids|
  {
    seq(|ids|, k requires 0 <= k < |ids| => ConstituentId(fieldValuesOf(ids[k])))
  }
}
