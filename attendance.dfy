/**
 * The attendance store `Presensi`: the in-memory list of records and the
 * backing file it keeps in step with that list.
 */
module Attendance {
  import opened Wrappers
  import opened DateText
  import opened Records
  import opened Sheet

  /**
   * The backing file `presensi.xlsx`: missing, present but not readable as
   * a workbook, or a sheet of rows.
   */
  datatype Backing = Absent | Unreadable | Table(rows: seq<Row>)

  /** How a load ended: the whole sheet read, the file created, or an error reported. */
  datatype LoadOutcome = Loaded | Created | Failed

  class Presensi {
    /** `self.data`: the records, in insertion order or date order after a sort. */
    var data: seq<Record>
    /** The contents of the backing file. */
    var file: Backing

    /** The backing file holds exactly the header and one row per record, in list order. */
    predicate Synced()
      reads this
    {
      file == Table(TableOf(data))
    }

    /** `__init__`: an empty list, then a load from the file as it is found. */
    constructor (existing: Backing)
      ensures existing.Table? ==> data == LoadPrefix(Body(existing.rows)) && file == existing
      ensures existing.Absent? ==> data == [] && Synced()
      ensures existing.Unreadable? ==> data == [] && file == existing
    {
      data := [];
      file := existing;
      new;
      var _ := Load();
    }

    /**
     * `load_data_from_excel`: appends one record per row after the header,
     * stopping at the first row that cannot be read; a missing file is
     * created holding the current list.
     */
    method Load() returns (outcome: LoadOutcome)
      modifies this
      ensures old(file).Absent? ==> outcome == Created && data == old(data) && Synced()
      ensures old(file).Unreadable? ==> outcome == Failed && data == old(data) && file == old(file)
      ensures old(file).Table? ==>
        var body := Body(old(file).rows);
        && file == old(file)
        && data == old(data) + LoadPrefix(body)
        && (outcome == Loaded <==> |LoadPrefix(body)| == |body|)
        && outcome != Created
    {
      match file {
        case Absent =>
          Save();
          outcome := Created;
        case Unreadable =>
          outcome := Failed;
        case Table(rows) =>
          var loaded, complete := ReadRows(Body(rows));
          data := data + loaded;
          outcome := if complete then Loaded else Failed;
      }
    }

    /** `save_data_to_excel`: rewrites the whole file from the list. */
    method Save()
      modifies this`file
      ensures Synced()
    {
      var rows := BuildTable(data);
      file := Table(rows);
    }

    /**
     * `tambah_presensi`: when the date reads as `DD-MM-YYYY` and the time as
     * `HH:MM`, appends the record and rewrites the file; otherwise changes
     * nothing.
     */
    method Add(name: string, dateText: string, timeText: string, status: string) returns (added: bool)
      modifies this
      ensures added <==> ParseDate(dateText).Some? && ValidTime(timeText)
      ensures added ==> data == old(data) + [Record(name, ParseDate(dateText).value, timeText, status)] && Synced()
      ensures !added ==> data == old(data) && file == old(file)
    {
      var date := ParseDate(dateText);
      if date.None? || !ValidTime(timeText) {
        return false;
      }
      data := data + [Record(name, date.value, timeText, status)];
      Save();
      added := true;
    }

    /**
     * `cari_presensi`: the first record, in list order, whose name or
     * rendered date equals the query; `None` when there is none.
     */
    method Find(query: string) returns (found: Option<Record>)
      ensures found.Some? ==> exists i :: 0 <= i < |data| && data[i] == found.value && Matches(data[i], query) &&
                                          forall j :: 0 <= j < i ==> !Matches(data[j], query)
      ensures found.None? <==> forall i :: 0 <= i < |data| ==> !Matches(data[i], query)
    {
      for i := 0 to |data|
        invariant forall j :: 0 <= j < i ==> !Matches(data[j], query)
      {
        if data[i].name == query || RenderDate(data[i].date) == query {
          return Some(data[i]);
        }
      }
      return None;
    }

    /**
     * `urutkan_presensi`: reorders the list by date, keeping records of
     * equal dates in their order, and rewrites the file.
     */
    method Sort()
      modifies this
      ensures data == SortByDate(old(data))
      ensures SortedByDate(data) && multiset(data) == multiset(old(data))
      ensures forall d: Date :: OnDate(data, d) == OnDate(old(data), d)
      ensures Synced()
    {
      var sorted := SortRecords(data);
      SortByDateProperties(data);
      data := sorted;
      Save();
    }
  }

  /** A stable insertion sort by date, inserting each record after the records not later than it. */
  method SortRecords(records: seq<Record>) returns (sorted: seq<Record>)
    ensures sorted == SortByDate(records)
  {
    sorted := [];
    for i := 0 to |records|
      invariant sorted == SortByDate(records[..i])
    {
      var k := InsertionPoint(sorted, records[i]);
      assert records[..i + 1][..i] == records[..i];
      sorted := sorted[..k] + [records[i]] + sorted[k..];
    }
    assert records[..|records|] == records;
  }

  /** Scans back from the end for the place insertion sort puts `x`. */
  method InsertionPoint(sorted: seq<Record>, x: Record) returns (k: nat)
    ensures k == InsertPos(sorted, x)
  {
    k := |sorted|;
    while k > 0 && !DateLe(sorted[k - 1].date, x.date)
      invariant 0 <= k <= |sorted|
      invariant InsertPos(sorted[..k], x) == InsertPos(sorted, x)
    {
      assert sorted[..k][..k - 1] == sorted[..k - 1];
      k := k - 1;
    }
    assert k > 0 ==> sorted[..k][..k - 1] == sorted[..k - 1];
  }
}
