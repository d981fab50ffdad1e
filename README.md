# Attendance store (Presensi) — a Dafny model

The program keeps an attendance list. Each entry (*presensi*) has a name,
a date, a time and a status. The list lives in memory and is mirrored in a
spreadsheet `presensi.xlsx`. The sheet has a header row `Nama, Tanggal,
Waktu, Status` and then one row per entry, with the date written
`DD-MM-YYYY`.

- On start, the store loads the sheet. A missing sheet is created.
- Adding an entry needs a date that reads as `DD-MM-YYYY` and a time that reads as `HH:MM`.
- Searching returns the first entry whose name or written date equals the query.
- Sorting orders the list by date.
- Every change is written back to the sheet.
- A gate lets the program open only between 07:00 and 12:00.

The model has these modules:

- `Wrappers`: the `Option` type.
- `DateText`: what `datetime.strptime` accepts for the formats `%d-%m-%Y` and `%H:%M`, and what `strftime('%d-%m-%Y')` writes.
  - Each field follows the alternatives Python's `_strptime` tries, in the same order.
  - Days and months may be written without padding (`5-3-2024`). A day may also be padded with a space (` 5-3-2024`).
  - The year must be exactly four digits.
  - The date must exist (leap years included) and its year must be at least 1.
  - The whole text must be consumed.
- `Records`: an entry, the order on dates, the query test of `cari_presensi`, and `SortByDate`, the stable sort by date that `list.sort(key=...)` performs.
- `Sheet`: the rows `save_data_to_excel` writes and the rows `load_data_from_excel` reads back, with the two loops as methods.
- `Attendance`: the class `Presensi`.
  - It holds the list `data` and the contents of the backing file, `file`.
  - The file is `Absent`, `Unreadable`, or a `Table` of rows of string cells.
- `Gate`: `is_within_time_range`, with the current hour passed in.
- `Scenarios`: callers that use only the contracts of `Presensi`.
  - A session that adds entries, then a fresh start on the file it left.
  - A refused entry.
  - Searching by name and by date.

Three behaviours of the code are worth stating plainly:

- **A bad row ends the load early.** The code appends records row by row inside one `try`. So a bad row ends the load, and the records before it stay in the list. `LoadPrefix` models this.
- **The search test is per record.** `cari_presensi` checks each record for "name or date" in list order. An earlier record that matches by date wins over a later record that matches by name.
- **Dates are accepted without padding.** `strptime` accepts `5-3-2024` as well as `05-03-2024`. `ParseDateSpellings` states exactly which texts are accepted for each date. `RenderParsedDate` states when writing the date back gives the same text.

## Model

| member | source | states |
|---|---|---|
| `Attendance.Presensi.constructor` | APK_PRESENSI_Timer.PY:7-10 | The store starts empty and then loads. An existing sheet gives the records of its leading readable rows, and the file is unchanged. A missing file gives an empty list and a newly written file holding only the header. An unreadable file gives an empty list, and the file is unchanged. |
| `Attendance.Presensi.Load` | APK_PRESENSI_Timer.PY:12-26 | One record is appended per body row, up to the first row that fails. The file is not changed. The outcome is "loaded" exactly when every row was read. A missing file is written from the current list. An unreadable file changes nothing and reports failure. |
| `Attendance.Presensi.Save` | APK_PRESENSI_Timer.PY:28-34 | Afterwards the file holds the header and one row per record, in list order. |
| `Attendance.Presensi.Add` | APK_PRESENSI_Timer.PY:36-43 | The entry is accepted exactly when the date and the time both parse. On success the record is appended with the parsed date and the file is rewritten to match the list. On failure neither the list nor the file changes. |
| `Attendance.Presensi.Find` | APK_PRESENSI_Timer.PY:45-49 | A result is an element of the list that matches the query, and no earlier element matches. The result is `None` exactly when no element matches. The method has no `modifies` clause, so it changes nothing. |
| `Attendance.Presensi.Sort` | APK_PRESENSI_Timer.PY:51-53 | The new list is `SortByDate` of the old one. It is sorted by date and is a permutation of the old list. The records of each date keep their order. The file is rewritten to match the list. |
| `Attendance.Presensi.Synced` | APK_PRESENSI_Timer.PY:28-34 | Says the file matches the list: it holds the table `save_data_to_excel` writes for the current list. `Save`, `Add` and `Sort` establish it, and so does the constructor when the file is missing. |
| `Attendance.SortRecords` | APK_PRESENSI_Timer.PY:52 | The insertion-sort loop computes exactly `SortByDate` of its input. |
| `Attendance.InsertionPoint` | APK_PRESENSI_Timer.PY:52 | The backward scan finds the insertion point `InsertPos`: just after the last record whose date is not later than the new one. |
| `Records.InsertPos` | APK_PRESENSI_Timer.PY:52 | The point is within bounds. The record just before it is not later than the inserted record, and every record from the point on is later. |
| `Records.SortByDate` | APK_PRESENSI_Timer.PY:52 | The reference stable sort by date: each record in turn is inserted after the records not later than it. Its properties are stated by `SortByDateProperties` and `StableSortIsSortByDate`. |
| `Records.SortByDateProperties` | APK_PRESENSI_Timer.PY:52 | `SortByDate(s)` is sorted by date and is a permutation of `s`. For every date, the records on that date appear in the same order as in `s`. |
| `Records.StableSortIsSortByDate` | APK_PRESENSI_Timer.PY:52 | A sequence is a stable sort of `s` by date exactly when it equals `SortByDate(s)`. So the stable sort of Python's `list.sort` and the model's sort give the same list. |
| `Records.SortedStableUnique` | APK_PRESENSI_Timer.PY:52 | Two sorted sequences that have the same records, in the same order, on every date are equal. |
| `Records.SortByDateStable` | APK_PRESENSI_Timer.PY:52 | Sorting keeps the subsequence of records of each date unchanged. |
| `Records.SortByDatePermutation` | APK_PRESENSI_Timer.PY:52 | Sorting keeps the length and the multiset of records. |
| `Records.SortByDateSorted` | APK_PRESENSI_Timer.PY:52 | The result of sorting is ordered by date. |
| `Records.InsertOnDate` | APK_PRESENSI_Timer.PY:52 | Inserting a record adds it after the existing records of its date and leaves the other dates alone. |
| `Records.SortExample` | APK_PRESENSI_Timer.PY:52 | Entries A (3 Jan), B (1 Jan), C (1 Jan) sort to B, C, A. |
| `Records.DateLe` | APK_PRESENSI_Timer.PY:52 | The `<=` of `datetime.date` that the sort key compares: year first, then month, then day. |
| `Records.DateLeByKey` | APK_PRESENSI_Timer.PY:52 | On calendar dates, `DateLe` orders dates exactly as the numeric key `500 * year + 32 * month + day` does. |
| `Records.Matches` | APK_PRESENSI_Timer.PY:47 | A record matches a query exactly when the query is its name, or the query is a ten-character text that does not start with a space and that `strptime` reads as the record's date. |
| `Records.DateLeTotalOrder` | APK_PRESENSI_Timer.PY:52 | The date order used as the sort key is a total order. |
| `Sheet.RecordRow` | APK_PRESENSI_Timer.PY:33 | A record is written as a row of four cells. |
| `Sheet.TableOf` | APK_PRESENSI_Timer.PY:31-33 | The table has the header first and then row `i + 1` written from record `i`, one row per record. |
| `Sheet.BuildTable` | APK_PRESENSI_Timer.PY:29-33 | The save loop builds exactly `TableOf` of the records. |
| `Sheet.ParseRow` | APK_PRESENSI_Timer.PY:17-22 | A row gives a record exactly when it has at least four cells and its second cell parses as a date. The record takes the other cells as they are. |
| `Sheet.LoadPrefix` | APK_PRESENSI_Timer.PY:16-22 | At most one record is produced per row. The leading rows each give their record, and the first row after them fails to read. |
| `Sheet.ReadRows` | APK_PRESENSI_Timer.PY:16-22 | The load loop collects exactly `LoadPrefix` of the body. It reports that it completed exactly when every row was read. |
| `Sheet.Body` | APK_PRESENSI_Timer.PY:16 | `iter_rows(min_row=2)` returns the rows after the first. |
| `Sheet.ParseRecordRow` | APK_PRESENSI_Timer.PY:17-33 | Reading a written row gives back the record it was written from. |
| `Sheet.SaveLoadRoundTrip` | APK_PRESENSI_Timer.PY:16-33 | Loading the body of the table saved for a list gives back exactly that list. |
| `DateText.ParseDate` | APK_PRESENSI_Timer.PY:38 | `strptime(s, '%d-%m-%Y').date()`, or `None` where it raises `ValueError`. An accepted text is 6 to 10 characters long, has a `-` before its last four characters, and those four characters are digits that spell the year. |
| `DateText.RenderDate` | APK_PRESENSI_Timer.PY:33 | `strftime('%d-%m-%Y')` writes ten characters: `-` at positions 2 and 5, two digits for the day, two for the month and four for the year, each spelling its value. The same rendering is compared with the query at line 47. |
| `DateText.RenderedDateText` | APK_PRESENSI_Timer.PY:47 | A date is rendered as the text `q` exactly when `q` reads as that date, is ten characters long and does not start with a space. |
| `DateText.ParseDateSpellings` | APK_PRESENSI_Timer.PY:38 | `strptime(s, '%d-%m-%Y')` gives the date `d` exactly when `s` is one of the ways of writing `d`. Day and month may be two-digit or, under 10, one-digit, and the day may also be space-padded. The year has four digits. |
| `DateText.ParsedDateIsSpelling` | APK_PRESENSI_Timer.PY:38 | Every accepted text is a way of writing the date that was read from it. |
| `DateText.SpellingParsesAsDate` | APK_PRESENSI_Timer.PY:38 | Every way of writing a valid date is accepted as that date. |
| `DateText.FieldSpellingsParse` | APK_PRESENSI_Timer.PY:38 | A date written with any allowed spelling of its day and month reads as that date. |
| `DateText.ParseRenderDate` | APK_PRESENSI_Timer.PY:33 | Parsing the text `strftime('%d-%m-%Y')` writes for a date gives back that date. |
| `DateText.RenderParsedDate` | APK_PRESENSI_Timer.PY:33 | For a text that parses, writing its date back gives the same text exactly when the text is ten characters long and does not start with a space. |
| `DateText.ValidTime` | APK_PRESENSI_Timer.PY:39 | Whether `strptime(s, '%H:%M')` succeeds. An accepted text is 3 to 5 characters long and starts and ends with a digit. |
| `DateText.ValidTimeSpellings` | APK_PRESENSI_Timer.PY:39 | `strptime(s, '%H:%M')` succeeds exactly when `s` writes an hour below 24 and a minute below 60, each in one or two digits. |
| `DateText.ValidTimeIsSpelling` | APK_PRESENSI_Timer.PY:39 | Every accepted time text writes a valid hour and minute. |
| `DateText.SpellingIsValidTime` | APK_PRESENSI_Timer.PY:39 | Every way of writing a valid hour and minute is accepted. |
| `DateText.DaysInMonth` | APK_PRESENSI_Timer.PY:38 | A month has 28 to 31 days. It has 29 exactly for February of a leap year. |
| `DateText.Pad2` | APK_PRESENSI_Timer.PY:33 | `%d`/`%m` output is two digits whose value is the number. |
| `DateText.Pad4` | APK_PRESENSI_Timer.PY:33 | `%Y` output is four digits whose value is the year. |
| `DateText.Pad4OfDigits` | APK_PRESENSI_Timer.PY:33 | Four digits are written back as the same four digits. |
| `DateText.DayField` | APK_PRESENSI_Timer.PY:38 | `%d` takes one or two characters and yields a day from 1 to 31. |
| `DateText.MonthField` | APK_PRESENSI_Timer.PY:38 | `%m` takes one or two characters and yields a month from 1 to 12. |
| `DateText.HourField` | APK_PRESENSI_Timer.PY:39 | `%H` takes one or two characters and yields an hour below 24. |
| `DateText.MinuteField` | APK_PRESENSI_Timer.PY:39 | `%M` takes one or two characters and yields a minute below 60. |
| `DateText.MonthThirteenRefused` | APK_PRESENSI_Timer.PY:38 | `31-13-2024` is refused. |
| `DateText.LeapDayRefused` | APK_PRESENSI_Timer.PY:38 | `29-02-2023` is refused. |
| `DateText.LeapDayAccepted` | APK_PRESENSI_Timer.PY:38 | `29-02-2024` is accepted as 29 February 2024. |
| `DateText.YearZeroRefused` | APK_PRESENSI_Timer.PY:38 | `01-01-0000` is refused. |
| `DateText.UnpaddedDate` | APK_PRESENSI_Timer.PY:38 | `5-3-2024` is accepted as 5 March 2024. |
| `DateText.PaddedDate` | APK_PRESENSI_Timer.PY:38 | `05-03-2024` is accepted as 5 March 2024. |
| `DateText.PaddedRendering` | APK_PRESENSI_Timer.PY:33 | 5 March 2024 is written `05-03-2024`. |
| `DateText.NewYearRendering` | APK_PRESENSI_Timer.PY:33 | 1 January 2024 is written `01-01-2024`. |
| `DateText.AcceptedTimes` | APK_PRESENSI_Timer.PY:39 | `08:30`, `8:30` and `7:5` are accepted. |
| `DateText.RefusedTimes` | APK_PRESENSI_Timer.PY:39 | `24:00` and `10:60` are refused. |
| `Gate.WithinTimeRange` | APK_PRESENSI_Timer.PY:55-57 | `is_within_time_range` with the current hour passed in: the start is inclusive and the end exclusive, so a window whose end is not after its start lets no hour through. |
| `Gate.OpeningHours` | APK_PRESENSI_Timer.PY:55-60 | With the window (7, 12) that `main` uses, the gate passes exactly the hours 7 to 11. So hours 7 and 11 are let in, and hours 6 and 12 are not. |
| `Scenarios.WriteSession` | APK_PRESENSI_Timer.PY:7-43 | Starting without a file and adding valid entries, with each date typed as it is written, leaves a file holding exactly those entries in order. |
| `Scenarios.ReloadAfterAdds` | APK_PRESENSI_Timer.PY:7-43 | A fresh start on that file loads exactly the entries that were added. |
| `Scenarios.AddRefusesMonthThirteen` | APK_PRESENSI_Timer.PY:36-43 | On a new store, a date with month 13 is refused. The list stays empty and the file holds only the header. |
| `Scenarios.AddOnEmptyStore` | APK_PRESENSI_Timer.PY:36-43 | On a new store, one valid entry gives a one-record list. The file holds the header and the row `Ana, 05-03-2024, 08:30, Hadir`. |
| `Scenarios.OpenBudi` | APK_PRESENSI_Timer.PY:7-22 | A store opened on a one-row sheet holds that one record. |
| `Scenarios.FindByName` | APK_PRESENSI_Timer.PY:45-49 | Searching by the name finds the record. |
| `Scenarios.FindByDate` | APK_PRESENSI_Timer.PY:45-49 | Searching by the written date `01-01-2024` finds the record. |
| `Scenarios.FindOtherName` | APK_PRESENSI_Timer.PY:45-49 | Searching by another name finds nothing. |

## Left out

- **Spreadsheet format.** The file format and openpyxl itself are not modelled. The file is a value, `Backing`, and the name `presensi.xlsx` does not appear.
  - Cells are always strings. openpyxl can also return `None` for an empty cell, or a `datetime` for a date cell. Neither is modelled.
  - Only the date cell (`row[1]`) goes through `strptime`. An empty date cell would make it raise `TypeError`, which ends the load like a bad row.
  - An empty name, time or status cell (`row[0]`, `row[2]`, `row[3]`) is stored as `None` without an error, and that record loads. The model cannot represent such a record, because every field of `Record` is a string.
  - A failed write (permission denied, disk full) is not modelled. `Save` always succeeds.
- **The user interface.** The PySimpleGUI window, the popups and their messages, and the event loop of `main` are not modelled. A popup is the outcome `Failed` of `Load`, or `false` from `Add`.
- **The clock.** `datetime.now()` is not modelled. `Gate.WithinTimeRange` takes the current hour as an argument.
- **Digits.** Only ASCII digits are modelled. Python's `\d` in `_strptime` also matches other Unicode decimal digits.
- **Letter case.** `strptime` compiles its pattern case-insensitively. That has no effect on these all-digit formats, so it is not modelled.
- `Attendance.Presensi.Sort`: the source sorts with Python's Timsort. The model sorts by insertion. Both are stable, and `Records.StableSortIsSortByDate` proves that a stable sort by date has only one possible result. The order of comparisons and the cost of sorting are not modelled.
- `DateText.RenderDate`: years are always written with four digits. CPython on some platforms (glibc) writes years below 1000 without padding. On those platforms, a saved year below 1000 would not load back.
- **Concurrency.** Several processes sharing the file are out of scope.
