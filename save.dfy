/** Writing the kept records to a CSV file: a header, then one row per record. */
module Save {
  import opened Wrappers
  import opened Nurse
  import opened Files

  /** The column order of the output file. */
  const FIELDNAMES: seq<string> := [
    "card_type",
    "serial_number",
    "last_name",
    "first_name",
    "middle_name",
    "home_street",
    "home_city",
    "home_county",
    "home_state",
    "date_of_birth",
    "admission_corp_date",
    "admission_school_date",
    "termination_date",
    "termination_type",
    "school_name",
    "school_city",
    "school_state",
    "file"
  ]

  /** The value a dictionary writer puts in a column the row dictionary lacks. */
  const RESTVAL: string := ""

  /** How the CSV writer renders one value: `None` becomes the empty string. */
  function Cell(v: Option<string>): string
  {
    match v
    case None => ""
    case Some(s) => s
  }

  /**
   * A dictionary writer's `writerow(d)`: a dictionary with a key that is not
   * a column is refused with the set of such keys; otherwise column `j`
   * holds the value under `fieldnames[j]`, or `RESTVAL` when it is missing.
   * This is the writer's definition, used as is; `VarsFitColumns` and
   * `CsvCell` state what it does for a record.
   */
  function DictRow(fieldnames: seq<string>, d: map<string, Option<string>>): Result<seq<string>, set<string>>
  {
    var wrong := set k | k in d && k !in fieldnames;
    if wrong != {} then Failure(wrong)
    else
      assert forall k :: k in d && k !in fieldnames ==> k in wrong;
      Success(seq(|fieldnames|, j requires 0 <= j < |fieldnames| =>
        if fieldnames[j] in d then Cell(d[fieldnames[j]]) else RESTVAL))
  }

  /** The columns are the record's attribute names, in the order the record assigns them. */
  lemma FieldnamesAreAttributeNames()
    ensures FIELDNAMES == Names(ATTRIBUTES)
  {
  }

  /** The row a record should produce: column `j` holds attribute `j`, rendered as a cell. */
  function RecordRow(c: NurseCadet): (row: seq<string>)
    ensures |row| == |FIELDNAMES|
  {
    seq(|ATTRIBUTES|, j requires 0 <= j < |ATTRIBUTES| => Cell(c.Field(ATTRIBUTES[j])))
  }

  /** Writing `vars(cadet)` never meets a key that is not a column, and it produces the record's row. */
  lemma VarsFitColumns(c: NurseCadet)
    ensures DictRow(FIELDNAMES, Vars(c)) == Success(RecordRow(c))
  {
    FieldnamesAreAttributeNames();
    var d := Vars(c);
    assert forall k :: k in d ==> k in FIELDNAMES;
    var r := DictRow(FIELDNAMES, d);
    assert r.Success?;
    forall j | 0 <= j < |FIELDNAMES| ensures r.value[j] == RecordRow(c)[j] {
      var a := ATTRIBUTES[j];
      assert FIELDNAMES[j] == a.Name();
      assert a.Name() in d && d[a.Name()] == c.Field(a);
    }
    assert r.value == RecordRow(c);
  }

  /** The whole output file for `cadets`: the header, then each record's row in input order. */
  function CsvTable(cadets: seq<NurseCadet>): (t: seq<seq<string>>)
    ensures |t| == |cadets| + 1
    ensures t[0] == FIELDNAMES
    ensures forall i :: 1 <= i < |t| ==> t[i] == RecordRow(cadets[i - 1])
  {
    if cadets == [] then [FIELDNAMES]
    else
      var init := cadets[..|cadets| - 1];
      var t := CsvTable(init) + [RecordRow(cadets[|cadets| - 1])];
      assert forall i :: 0 <= i < |init| ==> init[i] == cadets[i];
      t
  }

  /** Cell `(i + 1, j)` of the output holds attribute `FIELDNAMES[j]` of record `i`. */
  lemma {:induction false} CsvCell(cadets: seq<NurseCadet>, i: nat, j: nat)
    requires i < |cadets| && j < |FIELDNAMES|
    ensures FIELDNAMES[j] in Vars(cadets[i])
    ensures CsvTable(cadets)[i + 1][j] == Cell(Vars(cadets[i])[FIELDNAMES[j]])
  {
    FieldnamesAreAttributeNames();
    var c, a := cadets[i], ATTRIBUTES[j];
    assert CsvTable(cadets)[i + 1] == RecordRow(c);
    assert RecordRow(c)[j] == Cell(c.Field(a));
    assert FIELDNAMES[j] == a.Name();
    assert Vars(c)[a.Name()] == c.Field(a);
  }

  /**
   * `save_to_csv(cadets, output_file)`: with no records nothing is touched;
   * otherwise the file is truncated and then holds exactly the header and
   * one row per record.
   */
  method SaveToCsv(cadets: seq<NurseCadet>, out: CsvFile)
    requires out.Valid()
    modifies out
    ensures out.Valid()
    ensures cadets == [] ==> out.isFile == old(out.isFile) && out.rows == old(out.rows)
    ensures cadets != [] ==> out.isFile && out.rows == CsvTable(cadets)
  {
    if cadets == [] {
      return;
    }
    out.OpenWrite();
    out.WriteRow(FIELDNAMES);
    for i := 0 to |cadets|
      invariant out.Valid() && out.isFile
      invariant out.rows == CsvTable(cadets[..i])
    {
      var row := DictRow(FIELDNAMES, Vars(cadets[i]));
      VarsFitColumns(cadets[i]);
      out.WriteRow(row.value);
      assert cadets[..i + 1][..i] == cadets[..i];
    }
    assert cadets[..|cadets|] == cadets;
  }
}
