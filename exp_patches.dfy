/**
 * Validation and export of a patches table (toolbox/expPatchesFunctions.py). The attribute table
 * is read into a data frame: an ordered list of columns and one row per patch. It is then cleaned
 * (CSV) or cut down to the event rows (Google Earth Engine), and checked. It is written only when
 * no check fails. The change-type vocabulary, which the scripts read from the database lookup
 * table, is a parameter.
 */
module ExpPatches {
  import opened Wrappers
  import opened Values
  import opened FeatureClasses
  import opened Paths

  /**
   * A cell of the data frame: a Python object read from the feature class (None for a null), or
   * pandas' own missing marker pd.NA, which extract_data and clean_data write.
   */
  datatype FrameCell = Obj(c: Cell) | NA

  type Row = map<string, FrameCell>

  /** A row of the feature class's attribute table. */
  type Record = map<string, Cell>

  /** The value of a column as pandas' null tests and comparisons see it: pd.NA and None are both null. */
  function At(r: Row, f: string): Cell
  {
    if f in r && r[f].Obj? then r[f].c else None
  }

  /** The column holds pd.NA in this row. */
  predicate IsNA(r: Row, f: string)
  {
    f in r && r[f].NA?
  }

  /** A pandas data frame: its columns in order and its rows. */
  datatype Frame = Frame(columns: seq<string>, rows: seq<Row>)

  /** A feature class as a search cursor sees it: its field names and its rows. */
  datatype FcTable = FcTable(fields: seq<string>, records: seq<Record>)

  // ---------------------------------------------------------------------------
  // extract_data
  // ---------------------------------------------------------------------------

  /** The row of the data frame for one feature: the requested fields, pd.NA where the feature class lacks one. */
  function ExtractedRow(fcFields: seq<string>, fields: seq<string>, rec: Record): Row
  {
    map f | f in fields :: if f in fcFields then Obj(Get(rec, f)) else NA
  }

  /** The data frame extract_data returns. */
  function Extracted(t: FcTable, fields: seq<string>): Frame
  {
    Frame(fields, seq(|t.records|, i requires 0 <= i < |t.records| => ExtractedRow(t.fields, fields, t.records[i])))
  }

  /** The cursor row: the values of the fields the feature class has, in the requested order. */
  function CursorRow(exportable: seq<string>, rec: Record): Record
  {
    map f | f in exportable :: Get(rec, f)
  }

  /**
   * extract_data: reads the requested fields the feature class has, row by row, adds each missing
   * field as a pd.NA column, and orders the columns as requested.
   */
  method ExtractData(t: FcTable, fields: seq<string>) returns (df: Frame)
    ensures df == Extracted(t, fields)
  {
    var exportable := Filter(fields, f => f in t.fields);
    var data: seq<Record> := [];
    var i := 0;
    while i < |t.records|
      invariant 0 <= i <= |t.records|
      invariant |data| == i
      invariant forall k :: 0 <= k < i ==> data[k] == CursorRow(exportable, t.records[k])
    {
      data := data + [CursorRow(exportable, t.records[i])];
      i := i + 1;
    }
    var rows := seq(|data|, k requires 0 <= k < |data| =>
      map f | f in fields :: if f in data[k] then Obj(data[k][f]) else NA);
    forall k | 0 <= k < |rows| ensures rows[k] == ExtractedRow(t.fields, fields, t.records[k]) {
      forall f | f in fields
        ensures (if f in data[k] then Obj(data[k][f]) else NA) == if f in t.fields then Obj(Get(t.records[k], f)) else NA
      {
        if f in t.fields {
          var j :| 0 <= j < |fields| && fields[j] == f;
          assert fields[j] in Filter(fields, (f: string) => f in t.fields);
        }
      }
    }
    df := Frame(fields, rows);
  }

  /**
   * The extracted frame has the requested columns in the requested order and one row per feature;
   * each row holds every requested field: the feature's value where the feature class has the
   * field, pd.NA where it does not.
   */
  lemma ExtractedMeaning(t: FcTable, fields: seq<string>)
    ensures var df := Extracted(t, fields);
      && df.columns == fields
      && |df.rows| == |t.records|
      && (forall i :: 0 <= i < |df.rows| ==> df.rows[i].Keys == set f | f in fields)
      && (forall i, f :: 0 <= i < |df.rows| && f in fields && f in t.fields ==> df.rows[i][f] == Obj(Get(t.records[i], f)))
      && (forall i, f :: 0 <= i < |df.rows| && f in fields && f !in t.fields ==> IsNA(df.rows[i], f))
  {
  }

  // ---------------------------------------------------------------------------
  // clean_data
  // ---------------------------------------------------------------------------

  const ZeroIsNull: seq<string> := ["Confidence", "DistYear"]
  const BlankIsNull: seq<string> := ["EventType", "ChangeType", "AltType", "ChangeDesc", "DistName"]

  predicate IsLineBreak(c: char)
  {
    c == '\r' || c == '\n'
  }

  /** `re.sub(r'[\r\n]', ' ', s)`. */
  function NoLineBreaks(s: string): string
  {
    seq(|s|, k requires 0 <= k < |s| => if IsLineBreak(s[k]) then ' ' else s[k])
  }

  /** The cell is the 0 or " " a shapefile stores for a null in field f. */
  predicate Placeholder(f: string, c: Cell)
  {
    (f in ZeroIsNull && IsZero(c)) || (f in BlankIsNull && IsBlank(c))
  }

  /** One cell after clean_data: a shapefile placeholder becomes pd.NA, then line breaks become spaces. */
  function CleanCell(f: string, e: FrameCell): FrameCell
  {
    match e
    case NA => NA
    case Obj(c) =>
      if Placeholder(f, c) then NA
      else match c
        case Some(Text(s)) => Obj(Some(Text(NoLineBreaks(s))))
        case _ => e
  }

  function CleanData(df: Frame): Frame
  {
    Frame(df.columns, seq(|df.rows|, i requires 0 <= i < |df.rows| =>
      map f | f in df.rows[i] :: CleanCell(f, df.rows[i][f])))
  }

  /** Replacing line breaks keeps the length and every other character, and leaves no line break. */
  lemma NoLineBreaksMeaning(s: string)
    ensures |NoLineBreaks(s)| == |s|
    ensures forall k :: 0 <= k < |s| ==> !IsLineBreak(NoLineBreaks(s)[k])
    ensures forall k :: 0 <= k < |s| && !IsLineBreak(s[k]) ==> NoLineBreaks(s)[k] == s[k]
  {
  }

  /**
   * A cleaned cell: it is pd.NA exactly when it was pd.NA or a placeholder (a 0 in Confidence or
   * DistYear, a " " in the five text fields); any other text has its line breaks turned into
   * spaces, any other value is kept, and no cleaned text holds a line break.
   */
  lemma CleanCellMeaning(f: string, e: FrameCell)
    ensures CleanCell(f, e).NA? <==> e.NA? || Placeholder(f, e.c)
    ensures CleanCell(f, e).Obj? && CleanCell(f, e).c.Some? && CleanCell(f, e).c.value.Text? ==>
      forall k :: 0 <= k < |CleanCell(f, e).c.value.s| ==> !IsLineBreak(CleanCell(f, e).c.value.s[k])
    ensures e.Obj? && !Placeholder(f, e.c) && e.c.Some? && e.c.value.Text? ==>
      CleanCell(f, e) == Obj(Some(Text(NoLineBreaks(e.c.value.s))))
    ensures e.Obj? && !Placeholder(f, e.c) && !(e.c.Some? && e.c.value.Text?) ==> CleanCell(f, e) == e
  {
    if e.Obj? && e.c.Some? && e.c.value.Text? {
      NoLineBreaksMeaning(e.c.value.s);
    }
  }

  /**
   * clean_data keeps the columns, the rows and each row's fields and cleans every cell: afterwards
   * a cell is pd.NA exactly when it was pd.NA or a placeholder, no text holds a line break, and
   * other texts keep their length.
   */
  lemma CleanDataMeaning(df: Frame)
    ensures CleanData(df).columns == df.columns
    ensures |CleanData(df).rows| == |df.rows|
    ensures forall i :: 0 <= i < |df.rows| ==> CleanData(df).rows[i].Keys == df.rows[i].Keys
    ensures forall i, f :: 0 <= i < |df.rows| && f in df.rows[i] ==>
      (IsNA(CleanData(df).rows[i], f) <==> IsNA(df.rows[i], f) || Placeholder(f, At(df.rows[i], f)))
    ensures forall i, f :: 0 <= i < |df.rows| && f in df.rows[i] ==>
      var c := At(CleanData(df).rows[i], f);
      c.Some? && c.value.Text? ==> forall k :: 0 <= k < |c.value.s| ==> !IsLineBreak(c.value.s[k])
    ensures forall i, f :: 0 <= i < |df.rows| && f in df.rows[i] && At(df.rows[i], f).Some? && At(df.rows[i], f).value.Text? ==>
      At(CleanData(df).rows[i], f).Some? ==> |At(CleanData(df).rows[i], f).value.s| == |At(df.rows[i], f).value.s|
  {
    forall i, f | 0 <= i < |df.rows| && f in df.rows[i]
      ensures IsNA(CleanData(df).rows[i], f) <==> IsNA(df.rows[i], f) || Placeholder(f, At(df.rows[i], f))
      ensures var c := At(CleanData(df).rows[i], f);
        c.Some? && c.value.Text? ==> forall k :: 0 <= k < |c.value.s| ==> !IsLineBreak(c.value.s[k])
      ensures At(df.rows[i], f).Some? && At(df.rows[i], f).value.Text? ==>
        At(CleanData(df).rows[i], f).Some? ==> |At(CleanData(df).rows[i], f).value.s| == |At(df.rows[i], f).value.s|
    {
      var e := df.rows[i][f];
      assert CleanData(df).rows[i][f] == CleanCell(f, e);
      CleanCellMeaning(f, e);
      if e.Obj? && e.c.Some? && e.c.value.Text? {
        NoLineBreaksMeaning(e.c.value.s);
      }
    }
  }

  /**
   * The cells of the CSV frame that are pd.NA: exactly the fields the feature class lacks and the
   * shapefile placeholders. Every other requested text holds the feature's text with its line
   * breaks replaced.
   */
  lemma CsvFrameNA(t: FcTable, fields: seq<string>)
    ensures var df := CleanData(Extracted(t, fields));
      && |df.rows| == |t.records|
      && (forall i, f :: 0 <= i < |t.records| && f in fields ==>
            (IsNA(df.rows[i], f) <==> f !in t.fields || Placeholder(f, Get(t.records[i], f))))
      && (forall i, f ::
            (0 <= i < |t.records| && f in fields && f in t.fields && !Placeholder(f, Get(t.records[i], f)) &&
             Get(t.records[i], f).Some? && Get(t.records[i], f).value.Text?) ==>
            At(df.rows[i], f) == Some(Text(NoLineBreaks(Get(t.records[i], f).value.s))))
  {
    var ex := Extracted(t, fields);
    ExtractedMeaning(t, fields);
    forall i, f | 0 <= i < |t.records| && f in fields
      ensures IsNA(CleanData(ex).rows[i], f) <==> f !in t.fields || Placeholder(f, Get(t.records[i], f))
      ensures f in t.fields && !Placeholder(f, Get(t.records[i], f)) &&
              Get(t.records[i], f).Some? && Get(t.records[i], f).value.Text? ==>
              At(CleanData(ex).rows[i], f) == Some(Text(NoLineBreaks(Get(t.records[i], f).value.s)))
    {
      var e := ex.rows[i][f];
      assert CleanData(ex).rows[i][f] == CleanCell(f, e);
      CleanCellMeaning(f, e);
    }
  }

  // ---------------------------------------------------------------------------
  // check_mismatch, check_change_types
  // ---------------------------------------------------------------------------

  /** check_mismatch: the value of the checked column is not among the valid values (a number never is). */
  predicate NotValid(c: Cell, valid: seq<string>)
  {
    match c
    case Some(Text(s)) => s !in valid
    case _ => true
  }

  /** A row whose checked column holds a non-null value outside the valid values. */
  function MismatchIn(col: string, valid: seq<string>): Row -> bool
  {
    (r: Row) => At(r, col).Some? && NotValid(At(r, col), valid)
  }

  /** The (value, PatchName) pairs of the mismatches of one column, in row order; nulls are filtered out. */
  function Mismatches(df: Frame, col: string, valid: seq<string>): seq<(Cell, Cell)>
  {
    var bad := Filter(df.rows, MismatchIn(col, valid));
    seq(|bad|, k requires 0 <= k < |bad| => (At(bad[k], col), At(bad[k], "PatchName")))
  }

  predicate AllNull(df: Frame, col: string)
  {
    forall i :: 0 <= i < |df.rows| ==> At(df.rows[i], col).None?
  }

  /** The outcome of check_change_types: whether it fails and the mismatches it reports. */
  datatype ChangeTypeReport = ChangeTypeReport(failed: bool, mismatches: seq<(Cell, Cell)>)

  /** check_change_types, with the lookup table's change types as `vocab`. */
  function CheckChangeTypes(df: Frame, vocab: seq<string>): ChangeTypeReport
  {
    if AllNull(df, "ChangeType") then ChangeTypeReport(false, [])
    else
      var valid := vocab + [" "];
      var ms := Mismatches(df, "ChangeType", valid) + Mismatches(df, "AltType", valid);
      ChangeTypeReport(|ms| > 0, ms)
  }

  /** A row with a ChangeType or AltType that is not null, not " " and not in the vocabulary. */
  predicate BadChangeType(r: Row, vocab: seq<string>)
  {
    (At(r, "ChangeType").Some? && NotValid(At(r, "ChangeType"), vocab + [" "])) ||
    (At(r, "AltType").Some? && NotValid(At(r, "AltType"), vocab + [" "]))
  }

  /** check_change_types passes when every ChangeType is null, whatever AltType holds. */
  lemma CheckChangeTypesAllNull(df: Frame, vocab: seq<string>)
    requires AllNull(df, "ChangeType")
    ensures !CheckChangeTypes(df, vocab).failed && CheckChangeTypes(df, vocab).mismatches == []
  {
  }

  /**
   * When some ChangeType is set, check_change_types fails exactly when some row has a non-null
   * ChangeType or AltType outside the vocabulary and " ".
   */
  lemma CheckChangeTypesFails(df: Frame, vocab: seq<string>)
    requires !AllNull(df, "ChangeType")
    ensures CheckChangeTypes(df, vocab).failed <==> exists i :: 0 <= i < |df.rows| && BadChangeType(df.rows[i], vocab)
  {
    var valid := vocab + [" "];
    FilterEmpty(df.rows, MismatchIn("ChangeType", valid));
    FilterEmpty(df.rows, MismatchIn("AltType", valid));
    assert forall i :: 0 <= i < |df.rows| ==>
      (BadChangeType(df.rows[i], vocab) <==> MismatchIn("ChangeType", valid)(df.rows[i]) || MismatchIn("AltType", valid)(df.rows[i]));
  }

  /** Each mismatch of one column is a non-null value outside the valid values. */
  lemma MismatchesInvalid(df: Frame, col: string, valid: seq<string>)
    ensures forall m :: m in Mismatches(df, col, valid) ==> m.0.Some? && NotValid(m.0, valid)
  {
    var bad := Filter(df.rows, MismatchIn(col, valid));
    forall m | m in Mismatches(df, col, valid) ensures m.0.Some? && NotValid(m.0, valid) {
      var k :| 0 <= k < |bad| && Mismatches(df, col, valid)[k] == m;
      assert bad[k] in bad;
    }
  }

  /** Null values are never reported: every reported change type is set and outside the vocabulary and " ". */
  lemma CheckChangeTypesReportsInvalid(df: Frame, vocab: seq<string>)
    ensures forall m :: m in CheckChangeTypes(df, vocab).mismatches ==> m.0.Some? && NotValid(m.0, vocab + [" "])
  {
    MismatchesInvalid(df, "ChangeType", vocab + [" "]);
    MismatchesInvalid(df, "AltType", vocab + [" "]);
  }

  /** A row whose ChangeType or AltType pandas holds as pd.NA. */
  predicate NaChangeType(r: Row)
  {
    IsNA(r, "ChangeType") || IsNA(r, "AltType")
  }

  /**
   * check_change_types as the script runs it: past the all-null test, `df_row[col] not in
   * valid_values` compares a pd.NA cell with the list's texts, and turning that comparison into a
   * bool raises TypeError (None here). A Python None compares unequal and is filtered out later.
   */
  function CheckChangeTypesAsWritten(df: Frame, vocab: seq<string>): Option<ChangeTypeReport>
  {
    if AllNull(df, "ChangeType") then Some(ChangeTypeReport(false, []))
    else if exists i :: 0 <= i < |df.rows| && NaChangeType(df.rows[i]) then None
    else Some(CheckChangeTypes(df, vocab))
  }

  /**
   * The check as written raises exactly when some ChangeType is set and some ChangeType or
   * AltType is pd.NA; otherwise it agrees with CheckChangeTypes, which reads pd.NA as null.
   */
  lemma CheckChangeTypesRaises(df: Frame, vocab: seq<string>)
    ensures CheckChangeTypesAsWritten(df, vocab).None? <==>
      !AllNull(df, "ChangeType") && exists i :: 0 <= i < |df.rows| && NaChangeType(df.rows[i])
    ensures CheckChangeTypesAsWritten(df, vocab).Some? ==> CheckChangeTypesAsWritten(df, vocab).value == CheckChangeTypes(df, vocab)
  {
  }

  /**
   * On a cleaned frame (the CSV export's, whose fields include ChangeType and AltType) the check
   * as written raises exactly when some cleaned ChangeType is set and some patch has a " " in
   * ChangeType or AltType, or the feature class lacks one of them.
   */
  lemma CleanedChangeTypesRaise(t: FcTable, fields: seq<string>, vocab: seq<string>)
    requires "ChangeType" in fields && "AltType" in fields
    ensures var df := CleanData(Extracted(t, fields));
      CheckChangeTypesAsWritten(df, vocab).None? <==>
        !AllNull(df, "ChangeType") &&
        exists i :: 0 <= i < |t.records| &&
          (("ChangeType" !in t.fields || IsBlank(Get(t.records[i], "ChangeType"))) ||
           ("AltType" !in t.fields || IsBlank(Get(t.records[i], "AltType"))))
  {
    var df := CleanData(Extracted(t, fields));
    CsvFrameNA(t, fields);
    assert "ChangeType" in BlankIsNull && "AltType" in BlankIsNull && "ChangeType" !in ZeroIsNull && "AltType" !in ZeroIsNull;
    assert forall i :: 0 <= i < |df.rows| ==>
      (NaChangeType(df.rows[i]) <==>
         ("ChangeType" !in t.fields || IsBlank(Get(t.records[i], "ChangeType"))) ||
         ("AltType" !in t.fields || IsBlank(Get(t.records[i], "AltType"))));
  }

  /** A patch table imported from a shapefile: one "Fire" patch and one patch whose " " placeholders are cleaned. */
  function ShapefileExample(): FcTable
  {
    FcTable(["PatchName", "ChangeType", "AltType"], [
      map["PatchName" := Some(Text("A")), "ChangeType" := Some(Text("Fire")), "AltType" := Some(Text("Fire"))],
      map["PatchName" := Some(Text("B")), "ChangeType" := Some(Text(" ")), "AltType" := Some(Text(" "))]])
  }

  /**
   * On that table the check as written raises, while reading pd.NA as null (as for a None from the
   * geodatabase) finds every change type valid.
   */
  lemma ChangeTypesNaExample()
    ensures var df := CleanData(Extracted(ShapefileExample(), CsvFields));
      CheckChangeTypesAsWritten(df, ["Fire"]).None? && !CheckChangeTypes(df, ["Fire"]).failed
  {
    assert "ChangeType" in CsvFields && "AltType" in CsvFields;
    ShapefileChangeTypes(CsvFields);
  }

  /** The cleaned example rows: "Fire" twice in the first, pd.NA twice in the second. */
  lemma ShapefileFrame(fields: seq<string>)
    requires "ChangeType" in fields && "AltType" in fields
    ensures var df := CleanData(Extracted(ShapefileExample(), fields));
      && |df.rows| == 2
      && At(df.rows[0], "ChangeType") == Some(Text("Fire")) && At(df.rows[0], "AltType") == Some(Text("Fire"))
      && IsNA(df.rows[1], "ChangeType") && IsNA(df.rows[1], "AltType")
  {
    var t := ShapefileExample();
    CsvFrameNA(t, fields);
    assert "ChangeType" in t.fields && "AltType" in t.fields;
    assert NoLineBreaks("Fire") == "Fire";
    assert Get(t.records[0], "ChangeType") == Some(Text("Fire")) && Get(t.records[0], "AltType") == Some(Text("Fire"));
    assert IsBlank(Get(t.records[1], "ChangeType")) && IsBlank(Get(t.records[1], "AltType"));
  }

  /** The example for any requested field list holding ChangeType and AltType. */
  lemma ShapefileChangeTypes(fields: seq<string>)
    requires "ChangeType" in fields && "AltType" in fields
    ensures var df := CleanData(Extracted(ShapefileExample(), fields));
      CheckChangeTypesAsWritten(df, ["Fire"]).None? && !CheckChangeTypes(df, ["Fire"]).failed
  {
    var df := CleanData(Extracted(ShapefileExample(), fields));
    ShapefileFrame(fields);
    FrameChangeTypes(df);
  }

  /** A two-row frame whose first row holds "Fire" twice and whose second holds pd.NA twice. */
  lemma FrameChangeTypes(df: Frame)
    requires |df.rows| == 2
    requires At(df.rows[0], "ChangeType") == Some(Text("Fire")) && At(df.rows[0], "AltType") == Some(Text("Fire"))
    requires IsNA(df.rows[1], "ChangeType") && IsNA(df.rows[1], "AltType")
    ensures CheckChangeTypesAsWritten(df, ["Fire"]).None? && !CheckChangeTypes(df, ["Fire"]).failed
  {
    assert !AllNull(df, "ChangeType");
    assert NaChangeType(df.rows[1]);
    CheckChangeTypesFails(df, ["Fire"]);
    assert !BadChangeType(df.rows[0], ["Fire"]) && !BadChangeType(df.rows[1], ["Fire"]);
  }

  // ---------------------------------------------------------------------------
  // check_confidence
  // ---------------------------------------------------------------------------

  /** A row with an event: EventType neither null nor " ". */
  predicate HasEvent(r: Row)
  {
    At(r, "EventType").Some? && !IsBlank(At(r, "EventType"))
  }

  /** Confidence < 1 or > 3; a null never compares true. */
  predicate BadConfidence(r: Row)
  {
    NumOf(At(r, "Confidence")).Some? &&
    (NumOf(At(r, "Confidence")).value < 1.0 || NumOf(At(r, "Confidence")).value > 3.0)
  }

  /** Confidence below 3, an EventType other than "Mask" and a null AltType. */
  predicate MissingAltType(r: Row)
  {
    NumOf(At(r, "Confidence")).Some? && NumOf(At(r, "Confidence")).value < 3.0 &&
    At(r, "EventType") != Some(Text("Mask")) && At(r, "AltType").None?
  }

  function EventSel(): Row -> bool { (r: Row) => HasEvent(r) }
  function BadConfidenceSel(): Row -> bool { (r: Row) => BadConfidence(r) }
  function MissingAltTypeSel(): Row -> bool { (r: Row) => MissingAltType(r) }

  /** The rule check_confidence applies to each event row. */
  predicate ConfidenceFails(df: Frame, onlyValues: bool)
  {
    exists i :: 0 <= i < |df.rows| && HasEvent(df.rows[i]) &&
      (BadConfidence(df.rows[i]) || (!onlyValues && MissingAltType(df.rows[i])))
  }

  /**
   * check_confidence: among the event rows, an out-of-range Confidence fails; unless
   * `onlyValues`, so does an event below Confidence 3 without an AltType. No event rows, no
   * failure.
   */
  method CheckConfidence(df: Frame, onlyValues: bool) returns (noExport: bool)
    ensures noExport <==> ConfidenceFails(df, onlyValues)
  {
    var events := Filter(df.rows, EventSel());
    FilterEmpty(df.rows, EventSel());
    if |events| == 0 {
      return false;
    }
    var invalid := Filter(events, BadConfidenceSel());
    FilterEmpty(events, BadConfidenceSel());
    noExport := |invalid| > 0;
    if !onlyValues {
      var noAltType := Filter(events, MissingAltTypeSel());
      FilterEmpty(events, MissingAltTypeSel());
      noExport := noExport || |noAltType| > 0;
    }
    if ConfidenceFails(df, onlyValues) {
      var i :| 0 <= i < |df.rows| && HasEvent(df.rows[i]) &&
        (BadConfidence(df.rows[i]) || (!onlyValues && MissingAltType(df.rows[i])));
      assert df.rows[i] in events;
    }
  }

  // ---------------------------------------------------------------------------
  // check_duplicate_patch_names
  // ---------------------------------------------------------------------------

  function PatchNames(df: Frame): (names: seq<Cell>)
    ensures |names| == |df.rows|
  {
    seq(|df.rows|, i requires 0 <= i < |df.rows| => At(df.rows[i], "PatchName"))
  }

  function Repeated(names: seq<Cell>): Cell -> bool
  {
    (n: Cell) => Count(names, n) >= 2
  }

  /** The PatchName of every row whose name occurs more than once (`keep=False`), in row order. */
  function DuplicatePatchNames(df: Frame): seq<Cell>
  {
    Filter(PatchNames(df), Repeated(PatchNames(df)))
  }

  /** check_duplicate_patch_names fails when the duplicate list is not empty. */
  function CheckDuplicatePatchNames(df: Frame): bool
  {
    |DuplicatePatchNames(df)| > 0
  }

  /** An element occurs twice exactly when some other position holds it too. */
  lemma {:induction false} CountTwice<T>(s: seq<T>, i: nat)
    requires i < |s|
    ensures Count(s, s[i]) >= 2 <==> exists j :: 0 <= j < |s| && j != i && s[j] == s[i]
    decreases |s|
  {
    if i == 0 {
      if Count(s, s[0]) >= 2 {
        assert s[0] in s[1..];
        var j :| 0 <= j < |s[1..]| && s[1..][j] == s[0];
        assert s[j + 1] == s[0];
      }
      if exists j :: 0 <= j < |s| && j != 0 && s[j] == s[0] {
        var j :| 0 <= j < |s| && j != 0 && s[j] == s[0];
        assert s[1..][j - 1] == s[0];
      }
    } else {
      CountTwice(s[1..], i - 1);
      assert s[1..][i - 1] == s[i];
      if exists j :: 0 <= j < |s| && j != i && s[j] == s[i] {
        var j :| 0 <= j < |s| && j != i && s[j] == s[i];
        if j > 0 {
          assert s[1..][j - 1] == s[i];
        }
      }
      if exists j :: 0 <= j < |s[1..]| && j != i - 1 && s[1..][j] == s[i] {
        var j :| 0 <= j < |s[1..]| && j != i - 1 && s[1..][j] == s[i];
        assert s[j + 1] == s[i];
      }
    }
  }

  /**
   * check_duplicate_patch_names fails exactly when two different rows share a PatchName (two nulls
   * count as equal).
   */
  lemma CheckDuplicatePatchNamesFails(df: Frame)
    ensures CheckDuplicatePatchNames(df) <==>
      exists i, j :: 0 <= i < |df.rows| && 0 <= j < |df.rows| && i != j &&
        At(df.rows[i], "PatchName") == At(df.rows[j], "PatchName")
  {
    var names := PatchNames(df);
    FilterEmpty(names, Repeated(names));
    if CheckDuplicatePatchNames(df) {
      var i :| 0 <= i < |names| && Repeated(names)(names[i]);
      CountTwice(names, i);
    }
    if exists i, j :: 0 <= i < |df.rows| && 0 <= j < |df.rows| && i != j &&
         At(df.rows[i], "PatchName") == At(df.rows[j], "PatchName") {
      var i, j :| 0 <= i < |df.rows| && 0 <= j < |df.rows| && i != j &&
        At(df.rows[i], "PatchName") == At(df.rows[j], "PatchName");
      assert names[i] == names[j];
      CountTwice(names, i);
      assert !(forall k :: 0 <= k < |names| ==> !Repeated(names)(names[k]));
    }
  }

  /**
   * The duplicate list holds only names that occur twice or more, and the name of every row
   * whose name another row shares (`keep=False` keeps them all).
   */
  lemma DuplicatePatchNamesListed(df: Frame)
    ensures forall n :: n in DuplicatePatchNames(df) ==> Count(PatchNames(df), n) >= 2
    ensures forall i, j ::
      (0 <= i < |df.rows| && 0 <= j < |df.rows| && i != j && At(df.rows[i], "PatchName") == At(df.rows[j], "PatchName")) ==>
        At(df.rows[i], "PatchName") in DuplicatePatchNames(df)
  {
    var names := PatchNames(df);
    forall i, j | 0 <= i < |df.rows| && 0 <= j < |df.rows| && i != j &&
      At(df.rows[i], "PatchName") == At(df.rows[j], "PatchName")
      ensures At(df.rows[i], "PatchName") in DuplicatePatchNames(df)
    {
      assert names[i] == names[j];
      CountTwice(names, i);
      assert Repeated(names)(names[i]);
    }
  }

  // ---------------------------------------------------------------------------
  // check_fields_have_values
  // ---------------------------------------------------------------------------

  /** Some row has a null or " " in field f. */
  predicate HasMissing(df: Frame, f: string)
  {
    exists i :: 0 <= i < |df.rows| && (At(df.rows[i], f).None? || IsBlank(At(df.rows[i], f)))
  }

  function MissingSel(df: Frame): string -> bool
  {
    (f: string) => HasMissing(df, f)
  }

  /**
   * check_fields_have_values: the fields with a missing value, in the listed order; the check
   * fails exactly when some listed field has a null or " " in some row.
   */
  method CheckFieldsHaveValues(df: Frame, valueFields: seq<string>) returns (noExport: bool, missing: seq<string>)
    ensures missing == Filter(valueFields, MissingSel(df))
    ensures noExport <==> exists f, i :: f in valueFields && 0 <= i < |df.rows| &&
                            (At(df.rows[i], f).None? || IsBlank(At(df.rows[i], f)))
  {
    missing := [];
    var k := 0;
    while k < |valueFields|
      invariant 0 <= k <= |valueFields|
      invariant missing == Filter(valueFields[..k], MissingSel(df))
    {
      FilterSnoc(valueFields[..k], valueFields[k], MissingSel(df));
      assert valueFields[..k + 1] == valueFields[..k] + [valueFields[k]];
      if HasMissing(df, valueFields[k]) {
        missing := missing + [valueFields[k]];
      }
      k := k + 1;
    }
    assert valueFields[..k] == valueFields;
    FilterEmpty(valueFields, MissingSel(df));
    noExport := |missing| > 0;
  }

  // ---------------------------------------------------------------------------
  // primary_validation
  // ---------------------------------------------------------------------------

  /** An event row for Google Earth Engine: EventType set and neither "Mask" nor "Model". */
  predicate IsGeeEvent(r: Row)
  {
    At(r, "EventType").Some? && At(r, "EventType") != Some(Text("Mask")) && At(r, "EventType") != Some(Text("Model"))
  }

  function GeeEventSel(): Row -> bool { (r: Row) => IsGeeEvent(r) }

  /** The rows kept for Google Earth Engine. */
  function GeeRows(df: Frame): Frame
  {
    Frame(df.columns, Filter(df.rows, GeeEventSel()))
  }

  /**
   * The Earth Engine frame keeps exactly the event rows other than "Mask" and "Model", in their
   * original order (filtering `rows + [r]` filters `rows`, then keeps `r` if it is such a row).
   */
  lemma GeeRowsMeaning(df: Frame, r: Row)
    ensures forall x :: x in GeeRows(df).rows <==> x in df.rows && IsGeeEvent(x)
    ensures GeeRows(Frame(df.columns, df.rows + [r])).rows == GeeRows(df).rows + (if IsGeeEvent(r) then [r] else [])
  {
    FilterSnoc(df.rows, r, GeeEventSel());
  }

  /** The frame the checks see: cleaned for a CSV export, cut to the event rows otherwise. */
  function Prepared(t: FcTable, fields: seq<string>, csvExp: bool): Frame
  {
    if csvExp then CleanData(Extracted(t, fields)) else GeeRows(Extracted(t, fields))
  }

  /** The three checks of primary_validation; one failure is enough to refuse the export. */
  predicate ValidationFails(df: Frame, vocab: seq<string>, csvExp: bool)
  {
    CheckChangeTypes(df, vocab).failed || ConfidenceFails(df, csvExp) || CheckDuplicatePatchNames(df)
  }

  /**
   * primary_validation: extracts, cleans or filters, then runs all three checks whatever the
   * earlier ones found; the export is refused when any of them fails.
   */
  method PrimaryValidation(t: FcTable, fields: seq<string>, vocab: seq<string>, csvExp: bool)
    returns (noExport: bool, df: Frame)
    ensures df == Prepared(t, fields, csvExp)
    ensures noExport <==> ValidationFails(df, vocab, csvExp)
  {
    df := ExtractData(t, fields);
    if csvExp {
      df := CleanData(df);
    } else {
      df := GeeRows(df);
    }
    var noExportChangeType := CheckChangeTypes(df, vocab).failed;
    var noExportConf := CheckConfidence(df, csvExp);
    var noExportDupPatchNames := CheckDuplicatePatchNames(df);
    noExport := noExportConf || noExportChangeType || noExportDupPatchNames;
  }

  // ---------------------------------------------------------------------------
  // export_patches_csv, export_patches_shp, exp_shp_spec_fields
  // ---------------------------------------------------------------------------

  const CsvFields: seq<string> := [
    "Park", "PatchName", "yod", "annualID", "X_Coord_m", "Y_Coord_m", "Latitude", "Longitude", "UTMX", "UTMY",
    "CoordType", "idxMagMn", "durMn", "durSd", "area", "perim", "paratio", "Watershed", "WildName", "LandMgmt",
    "EastWest", "ElevMean", "SlopeMean", "Aspect", "Protected", "InBuffer", "InPark", "InMask", "VegCode",
    "DistYear", "DistName", "OverlapPrv", "Split", "EventType", "ChangeType", "Confidence", "AltType",
    "ChangeDesc", "EventDate", "LabeledBy", "PriorRun", "PostDist"]

  const GeeFields: seq<string> := [
    "AltType", "ChangeDesc", "ChangeType", "Confidence", "DistYear", "DistName", "EventType", "InBuffer",
    "InMask", "InPark", "MAJORAXIS", "MINORAXIS", "ORIENTATION", "Aspect", "PatchName", "Protected",
    "THICKNESS", "X_Coord_m", "Y_Coord_m", "Latitude", "Longitude", "paratio", "Park", "annualID", "area",
    "perim", "shape_1", "index", "uniqID", "yod", "durMn", "durSd", "idxMagMn", "idxMagSd", "tcbMagMn",
    "tcbMagSd", "tcbPreMn", "tcbPreSd", "tcbPst01Mn", "tcbPst01Sd", "tcbPst03Mn", "tcbPst03Sd", "tcbPst07Mn",
    "tcbPst07Sd", "tcbPst15Mn", "tcbPst15Sd", "tcbPstMn", "tcbPstSd", "tcgMagMn", "tcgMagSd", "tcgPreMn",
    "tcgPreSd", "tcgPst01Mn", "tcgPst01Sd", "tcgPst03Mn", "tcgPst03Sd", "tcgPst07Mn", "tcgPst07Sd",
    "tcgPst15Mn", "tcgPst15Sd", "tcgPstMn", "tcgPstSd", "tcwMagMn", "tcwMagSd", "tcwPreMn", "tcwPreSd",
    "tcwPst01Mn", "tcwPst01Sd", "tcwPst03Mn", "tcwPst03Sd", "tcwPst07Mn", "tcwPst07Sd", "tcwPst15Mn",
    "tcwPst15Sd", "tcwPstMn", "tcwPstSd", "Shape_Area", "Shape_Length"]

  /** Fields export_patches_shp does not require values in. */
  const NoCheckFields: seq<string> := ["AltType", "ChangeDesc", "DistYear", "DistName"]

  function NotNoCheck(): string -> bool { (f: string) => f !in NoCheckFields }

  /** The fields whose values export_patches_shp requires: the export fields but the four optional ones. */
  function ValueFields(fields: seq<string>): (vf: seq<string>)
    ensures forall f :: f in vf <==> f in fields && f !in NoCheckFields
  {
    Filter(fields, NotNoCheck())
  }

  /** Whether the CSV export of a feature class is refused. */
  predicate CsvFails(t: FcTable, vocab: seq<string>)
  {
    ValidationFails(Prepared(t, CsvFields, true), vocab, true)
  }

  /** Whether the Earth Engine export of a feature class is refused. */
  predicate GeeFails(t: FcTable, vocab: seq<string>)
  {
    var df := Prepared(t, GeeFields, false);
    ValidationFails(df, vocab, false) ||
    exists f, i :: f in ValueFields(GeeFields) && 0 <= i < |df.rows| &&
      (At(df.rows[i], f).None? || IsBlank(At(df.rows[i], f)))
  }

  /**
   * export_patches_csv: the cleaned frame is written to `outPath` exactly when validation passes;
   * the result is True when the export was refused.
   */
  method ExportPatchesCsv(t: FcTable, vocab: seq<string>, outPath: string)
    returns (noExport: bool, written: Option<(string, Frame)>)
    ensures noExport <==> CsvFails(t, vocab)
    ensures written.Some? <==> !noExport
    ensures written.Some? ==> written.value == (outPath, Prepared(t, CsvFields, true))
  {
    var df;
    noExport, df := PrimaryValidation(t, CsvFields, vocab, true);
    if noExport {
      written := None;
    } else {
      written := Some((outPath, df));
    }
  }

  /** The folder name after k collisions: the feature class name, "_GEE", then k copies of "_1". */
  function ShpFolderAt(outFolder: string, fcName: string, k: nat): string
  {
    Join(outFolder, fcName + "_GEE" + Ones(k))
  }

  /**
   * The folder loop of exp_shp_spec_fields: "_1" is appended to the name until the folder does not
   * exist. It stops because the existing paths are finitely many, and it returns the first free
   * name of the sequence.
   */
  method ShpFolder(outFolder: string, fcName: string, existing: set<string>) returns (folder: string, ghost k: nat)
    ensures folder == ShpFolderAt(outFolder, fcName, k)
    ensures folder !in existing
    ensures forall j :: 0 <= j < k ==> ShpFolderAt(outFolder, fcName, j) in existing
  {
    var tempFc := fcName + "_GEE";
    folder := Join(outFolder, tempFc);
    k := 0;
    while folder in existing
      invariant tempFc == fcName + "_GEE" + Ones(k)
      invariant folder == Join(outFolder, tempFc)
      invariant forall j :: 0 <= j < k ==> ShpFolderAt(outFolder, fcName, j) in existing
      decreases MaxLen(existing) - |folder|
    {
      tempFc := tempFc + "_1";
      folder := Join(outFolder, tempFc);
      k := k + 1;
    }
  }

  /** The result of export_patches_shp as written: False after an export, and nothing (None) when it is refused. */
  function ShpResultAsWritten(noExport: bool): Option<bool>
  {
    if noExport then None else Some(false)
  }

  /** export_patches_shp as written never returns True: a refused export returns None. */
  lemma ShpResultNeverTrue(noExport: bool)
    ensures ShpResultAsWritten(noExport) != Some(true)
    ensures noExport <==> ShpResultAsWritten(noExport).None?
  {
  }

  /**
   * export_patches_shp, returning the flag on both paths: the event rows are validated, every
   * export field but AltType, ChangeDesc, DistYear and DistName must have values, and the
   * shapefile folder is created only when nothing fails.
   */
  method ExportPatchesShp(t: FcTable, vocab: seq<string>, outFolder: string, fcName: string, existing: set<string>)
    returns (noExport: bool, folder: Option<string>)
    ensures noExport <==> GeeFails(t, vocab)
    ensures folder.Some? <==> !noExport
    ensures folder.Some? ==> folder.value !in existing
    ensures folder.Some? ==>
      exists k: nat :: folder.value == ShpFolderAt(outFolder, fcName, k) &&
        forall j :: 0 <= j < k ==> ShpFolderAt(outFolder, fcName, j) in existing
  {
    var df;
    noExport, df := PrimaryValidation(t, GeeFields, vocab, false);
    var noExportValues, _ := CheckFieldsHaveValues(df, ValueFields(GeeFields));
    noExport := noExport || noExportValues;
    if noExport {
      folder := None;
    } else {
      var f, k := ShpFolder(outFolder, fcName, existing);
      folder := Some(f);
    }
  }
}
