/**
 * The backing table: a header row followed by one row per record, each
 * cell a string, as `save_data_to_excel` writes it and
 * `load_data_from_excel` reads it back.
 */
module Sheet {
  import opened Wrappers
  import opened DateText
  import opened Records

  /** One row of the sheet: the cell values, left to right. */
  type Row = seq<string>

  const Header: Row := ["Nama", "Tanggal", "Waktu", "Status"]

  /** The row `save_data_to_excel` writes for a record: name, date as `DD-MM-YYYY`, time, status. */
  function RecordRow(r: Record): (row: Row)
    ensures |row| == 4
  {
    [r.name, RenderDate(r.date), r.time, r.status]
  }

  /** The whole table `save_data_to_excel` writes for a list of records. */
  function TableOf(records: seq<Record>): (rows: seq<Row>)
    ensures |rows| == |records| + 1 && rows[0] == Header
    ensures forall i :: 0 <= i < |records| ==> rows[i + 1] == RecordRow(records[i])
  {
    [Header] + seq(|records|, i requires 0 <= i < |records| => RecordRow(records[i]))
  }

  /** The rows `iter_rows(min_row=2)` yields: all but the first. */
  function Body(rows: seq<Row>): (body: seq<Row>)
    ensures rows != [] ==> rows == [rows[0]] + body
    ensures rows == [] ==> body == []
  {
    if rows == [] then [] else rows[1..]
  }

  /**
   * The record `load_data_from_excel` builds from one row, or `None` where
   * building it raises: a row with fewer than four cells (`IndexError`) or
   * a second cell that is not a `DD-MM-YYYY` date (`ValueError`). The time
   * cell is taken as it is, without a check.
   */
  function ParseRow(row: Row): (r: Option<Record>)
    ensures r.Some? <==> |row| >= 4 && ParseDate(row[1]).Some?
    ensures r.Some? ==> r.value == Record(row[0], ParseDate(row[1]).value, row[2], row[3])
  {
    if |row| < 4 then None
    else
      match ParseDate(row[1])
      case None => None
      case Some(date) => Some(Record(row[0], date, row[2], row[3]))
  }

  /**
   * The records `load_data_from_excel` appends from the rows of the table
   * body: one per row, up to the first row that fails, where the exception
   * ends the loop and the records already appended stay.
   */
  function LoadPrefix(rows: seq<Row>): (records: seq<Record>)
    ensures |records| <= |rows|
    ensures forall i :: 0 <= i < |records| ==> ParseRow(rows[i]) == Some(records[i])
    ensures |records| < |rows| ==> ParseRow(rows[|records|]).None?
  {
    if rows == [] then []
    else
      match ParseRow(rows[0])
      case None => []
      case Some(r) => [r] + LoadPrefix(rows[1..])
  }

  /** Loading from row `i` on: the record of row `i`, if it reads, followed by the records of the rows after it. */
  lemma LoadPrefixAt(rows: seq<Row>, i: nat)
    requires i < |rows|
    ensures LoadPrefix(rows[i..]) == if ParseRow(rows[i]).None? then [] else [ParseRow(rows[i]).value] + LoadPrefix(rows[i + 1..])
  {
    assert rows[i..][1..] == rows[i + 1..];
  }

  /** The loop of `save_data_to_excel`: the header, then one row per record. */
  method BuildTable(records: seq<Record>) returns (rows: seq<Row>)
    ensures rows == TableOf(records)
  {
    rows := [Header];
    for i := 0 to |records|
      invariant |rows| == i + 1 && rows[0] == Header
      invariant forall j :: 0 <= j < i ==> rows[j + 1] == RecordRow(records[j])
    {
      rows := rows + [RecordRow(records[i])];
    }
  }

  /** One step of the load loop: a row that reads extends the records loaded so far, one that fails ends them. */
  lemma LoadStep(body: seq<Row>, i: nat, loaded: seq<Record>)
    requires i < |body| && loaded + LoadPrefix(body[i..]) == LoadPrefix(body)
    ensures ParseRow(body[i]).None? ==> loaded == LoadPrefix(body)
    ensures ParseRow(body[i]).Some? ==> (loaded + [ParseRow(body[i]).value]) + LoadPrefix(body[i + 1..]) == LoadPrefix(body)
  {
    LoadPrefixAt(body, i);
    var parsed := ParseRow(body[i]);
    if parsed.None? {
      assert loaded + [] == loaded;
    } else {
      var later := LoadPrefix(body[i + 1..]);
      assert LoadPrefix(body[i..]) == [parsed.value] + later;
      assert loaded + ([parsed.value] + later) == (loaded + [parsed.value]) + later;
    }
  }

  /** The loop of `load_data_from_excel` over the rows after the header. */
  method ReadRows(body: seq<Row>) returns (loaded: seq<Record>, complete: bool)
    ensures loaded == LoadPrefix(body)
    ensures complete <==> |loaded| == |body|
  {
    loaded := [];
    var i := 0;
    complete := true;
    while i < |body| && complete
      invariant 0 <= i <= |body| && |loaded| == i
      invariant complete ==> loaded + LoadPrefix(body[i..]) == LoadPrefix(body)
      invariant !complete ==> loaded == LoadPrefix(body) && i < |body|
      decreases |body| - i, complete
    {
      LoadStep(body, i, loaded);
      var parsed := ParseRow(body[i]);
      if parsed.None? {
        complete := false;
      } else {
        loaded := loaded + [parsed.value];
        i := i + 1;
      }
    }
    if complete {
      assert body[i..] == [];
      assert loaded + LoadPrefix(body[i..]) == loaded;
    }
  }

  /** Reading back the row written for a record gives that record. */
  lemma ParseRecordRow(r: Record)
    ensures ParseRow(RecordRow(r)) == Some(r)
  {
    ParseRenderDate(r.date);
  }

  /** Loading the table saved for `records` gives back exactly `records`. */
  lemma SaveLoadRoundTrip(records: seq<Record>)
    ensures LoadPrefix(Body(TableOf(records))) == records
  {
    var body := Body(TableOf(records));
    assert |body| == |records|;
    forall i | 0 <= i < |records|
      ensures ParseRow(body[i]) == Some(records[i])
    {
      ParseRecordRow(records[i]);
    }
  }
}
