/**
 * Clients of the store: what a caller can conclude from the contracts of
 * `Presensi` alone, on a few typical sessions.
 */
module Scenarios {
  import opened Wrappers
  import opened DateText
  import opened Records
  import opened Sheet
  import opened Attendance

  /**
   * A session that starts without a file and adds `entries` one by one,
   * typing each date as the store writes it, leaves a file holding exactly
   * those records in that order.
   */
  method WriteSession(entries: seq<Record>) returns (file: Backing)
    requires forall i :: 0 <= i < |entries| ==> ValidTime(entries[i].time)
    ensures file == Table(TableOf(entries))
  {
    var writer := new Presensi(Absent);
    for i := 0 to |entries|
      invariant writer.data == entries[..i] && writer.Synced()
    {
      var e := entries[i];
      ParseRenderDate(e.date);
      var added := writer.Add(e.name, RenderDate(e.date), e.time, e.status);
      assert entries[..i + 1] == entries[..i] + [e];
    }
    assert entries[..|entries|] == entries;
    file := writer.file;
  }

  /** A fresh start on the file such a session left sees the same records. */
  method ReloadAfterAdds(entries: seq<Record>) returns (reloaded: seq<Record>)
    requires forall i :: 0 <= i < |entries| ==> ValidTime(entries[i].time)
    ensures reloaded == entries
  {
    var file := WriteSession(entries);
    SaveLoadRoundTrip(entries);
    var reader := new Presensi(file);
    reloaded := reader.data;
  }

  /** On an empty store, a date with month 13 is refused and changes nothing. */
  method AddRefusesMonthThirteen() returns (added: bool, data: seq<Record>, file: Backing)
    ensures !added && data == [] && file == Table([Header])
  {
    var store := new Presensi(Absent);
    MonthThirteenRefused();
    added := store.Add("X", "31-13-2024", "10:00", "Hadir");
    data, file := store.data, store.file;
  }

  function Ana(): Record {
    Record("Ana", Date(5, 3, 2024), "08:30", "Hadir")
  }

  /** On an empty store, a valid entry gives a one-record list and a file of the header and one row. */
  method AddOnEmptyStore() returns (data: seq<Record>, file: Backing)
    ensures data == [Ana()]
    ensures file == Table([Header, ["Ana", "05-03-2024", "08:30", "Hadir"]])
  {
    var store := new Presensi(Absent);
    var dateText := RenderDate(Ana().date);
    ParseRenderDate(Ana().date);
    AcceptedTimes();
    var added := store.Add("Ana", dateText, "08:30", "Hadir");
    PaddedRendering();
    assert TableOf(store.data) == [Header, RecordRow(Ana())];
    data, file := store.data, store.file;
  }

  /** A store opened on a file holding the one row `Budi, 01-01-2024, 09:00, Hadir`. */
  method OpenBudi() returns (store: Presensi)
    ensures fresh(store) && store.data == [Budi()]
  {
    SaveLoadRoundTrip([Budi()]);
    store := new Presensi(Table(TableOf([Budi()])));
  }

  function Budi(): Record {
    Record("Budi", Date(1, 1, 2024), "09:00", "Hadir")
  }

  /** The record is found by its name. */
  method FindByName() returns (found: Option<Record>)
    ensures found == Some(Budi())
  {
    var store := OpenBudi();
    assert Matches(store.data[0], "Budi");
    found := store.Find("Budi");
  }

  /** The record is found by the text `01-01-2024`. */
  method FindByDate() returns (found: Option<Record>)
    ensures found == Some(Budi())
  {
    var store := OpenBudi();
    NewYearRendering();
    assert Matches(store.data[0], "01-01-2024");
    found := store.Find("01-01-2024");
  }

  /** Another name finds nothing. */
  method FindOtherName() returns (found: Option<Record>)
    ensures found == None
  {
    var store := OpenBudi();
    NewYearRendering();
    found := store.Find("Citra");
  }
}
