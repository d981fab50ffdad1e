/**
 * Attendance records, the order on their dates, and the stable sort by date
 * that `list.sort(key=lambda x: x["tanggal"])` performs.
 */
module Records {
  import opened Wrappers
  import opened DateText

  /**
   * One attendance entry, the dictionary `{"nama", "tanggal", "waktu",
   * "status"}`: the date is always one that parsed; the time and status are
   * kept as text.
   */
  datatype Record = Record(name: string, date: CalDate, time: string, status: string)

  /** A number that grows with the date: year, then month, then day, each in a place of its own. */
  function DateKey(d: CalDate): int {
    500 * d.year + 32 * d.month + d.day
  }

  /** `a <= b` on `datetime.date`: year, then month, then day. */
  predicate DateLe(a: CalDate, b: CalDate) {
    a.year < b.year || (a.year == b.year && (a.month < b.month || (a.month == b.month && a.day <= b.day)))
  }

  /** On calendar dates, `DateLe` is the order of the keys. */
  lemma DateLeByKey(a: CalDate, b: CalDate)
    ensures DateLe(a, b) <==> DateKey(a) <= DateKey(b)
  {
  }

  /** `DateLe` is a total order on dates. */
  lemma DateLeTotalOrder(a: CalDate, b: CalDate, c: CalDate)
    ensures DateLe(a, a)
    ensures DateLe(a, b) || DateLe(b, a)
    ensures DateLe(a, b) && DateLe(b, a) ==> a == b
    ensures DateLe(a, b) && DateLe(b, c) ==> DateLe(a, c)
  {
  }

  /** The test `cari_presensi` applies to each record: the name or the rendered date equals the query. */
  predicate Matches(r: Record, query: string): (m: bool)
    ensures m <==> r.name == query || (ParseDate(query) == Some(r.date) && |query| == 10 && query[0] != ' ')
  {
    RenderedDateText(query, r.date);
    r.name == query || RenderDate(r.date) == query
  }

  predicate SortedByDate(s: seq<Record>) {
    forall i, j :: 0 <= i < j < |s| ==> DateLe(s[i].date, s[j].date)
  }

  /** The records of `s` that fall on the date `d`, in the order of `s`. */
  function OnDate(s: seq<Record>, d: Date): (r: seq<Record>)
    ensures |r| <= |s|
  {
    if s == [] then []
    else OnDate(s[..|s| - 1], d) + (if s[|s| - 1].date == d then [s[|s| - 1]] else [])
  }

  /** A stable sort of `s` by date: sorted, and the records of each date in their original order. */
  ghost predicate IsStableSortOf(t: seq<Record>, s: seq<Record>) {
    SortedByDate(t) && forall d: Date :: OnDate(t, d) == OnDate(s, d)
  }

  /**
   * Where insertion sort puts `x` into `s`: scanning from the end, just
   * after the last record whose date is not later than that of `x`.
   */
  function InsertPos(s: seq<Record>, x: Record): (k: nat)
    ensures k <= |s|
    ensures k > 0 ==> DateLe(s[k - 1].date, x.date)
    ensures forall j :: k <= j < |s| ==> !DateLe(s[j].date, x.date)
  {
    if s == [] then 0
    else if DateLe(s[|s| - 1].date, x.date) then |s|
    else InsertPos(s[..|s| - 1], x)
  }

  function Insert(s: seq<Record>, x: Record): seq<Record> {
    var k := InsertPos(s, x);
    s[..k] + [x] + s[k..]
  }

  /** The stable sort by date: each record in turn inserted after the records not later than it. */
  function SortByDate(s: seq<Record>): seq<Record> {
    if s == [] then [] else Insert(SortByDate(s[..|s| - 1]), s[|s| - 1])
  }

  // ---------------------------------------------------------------------
  // Records of one date

  lemma {:induction false} OnDateConcat(a: seq<Record>, b: seq<Record>, d: Date)
    ensures OnDate(a + b, d) == OnDate(a, d) + OnDate(b, d)
    decreases |b|
  {
    if b != [] {
      var b' := b[..|b| - 1];
      assert (a + b)[..|a + b| - 1] == a + b';
      OnDateConcat(a, b', d);
    } else {
      assert a + b == a;
    }
  }

  lemma {:induction false} OnDateMember(s: seq<Record>, d: Date, i: nat)
    requires i < |OnDate(s, d)|
    ensures OnDate(s, d)[i].date == d && OnDate(s, d)[i] in s
  {
    var s' := s[..|s| - 1];
    if i < |OnDate(s', d)| {
      OnDateMember(s', d, i);
    }
  }

  lemma OnDateSingle(x: Record, d: Date)
    ensures OnDate([x], d) == if x.date == d then [x] else []
  {
    assert [x][..0] == [];
  }

  lemma {:induction false} OnDateAbsent(s: seq<Record>, d: Date)
    requires forall j :: 0 <= j < |s| ==> s[j].date != d
    ensures OnDate(s, d) == []
  {
    if s != [] {
      OnDateAbsent(s[..|s| - 1], d);
    }
  }

  // ---------------------------------------------------------------------
  // Insertion

  lemma InsertSorted(s: seq<Record>, x: Record)
    requires SortedByDate(s)
    ensures SortedByDate(Insert(s, x))
  {
    var k := InsertPos(s, x);
    var t := Insert(s, x);
    forall i, j | 0 <= i < j < |t|
      ensures DateLe(t[i].date, t[j].date)
    {
      if i < k && j == k {
        assert DateLe(s[i].date, s[k - 1].date);
      }
    }
  }

  /** No record after the insertion point falls on the inserted record's date. */
  lemma InsertPosAfter(s: seq<Record>, x: Record)
    ensures OnDate(s[InsertPos(s, x)..], x.date) == []
  {
    var k := InsertPos(s, x);
    var after := s[k..];
    forall j | 0 <= j < |after|
      ensures after[j].date != x.date
    {
      assert !DateLe(s[k + j].date, x.date);
    }
    OnDateAbsent(after, x.date);
  }

  lemma OnDateSplit(s: seq<Record>, k: nat, d: Date)
    requires k <= |s|
    ensures OnDate(s, d) == OnDate(s[..k], d) + OnDate(s[k..], d)
  {
    assert s == s[..k] + s[k..];
    OnDateConcat(s[..k], s[k..], d);
  }

  lemma OnDateInsertAt(s: seq<Record>, k: nat, x: Record, d: Date)
    requires k <= |s|
    ensures OnDate(s[..k] + [x] + s[k..], d) == OnDate(s[..k], d) + OnDate([x], d) + OnDate(s[k..], d)
  {
    OnDateConcat(s[..k] + [x], s[k..], d);
    OnDateConcat(s[..k], [x], d);
  }

  lemma InsertOnDate(s: seq<Record>, x: Record, d: Date)
    ensures OnDate(Insert(s, x), d) == OnDate(s, d) + OnDate([x], d)
  {
    var k := InsertPos(s, x);
    OnDateSplit(s, k, d);
    OnDateInsertAt(s, k, x, d);
    OnDateSingle(x, d);
    if d == x.date {
      InsertPosAfter(s, x);
    }
  }

  lemma InsertMultiset(s: seq<Record>, x: Record)
    ensures multiset(Insert(s, x)) == multiset(s) + multiset{x}
  {
    var k := InsertPos(s, x);
    assert s == s[..k] + s[k..];
  }

  // ---------------------------------------------------------------------
  // The sort

  lemma {:induction false} SortByDateSorted(s: seq<Record>)
    ensures SortedByDate(SortByDate(s))
  {
    if s != [] {
      SortByDateSorted(s[..|s| - 1]);
      InsertSorted(SortByDate(s[..|s| - 1]), s[|s| - 1]);
    }
  }

  lemma {:induction false} SortByDatePermutation(s: seq<Record>)
    ensures |SortByDate(s)| == |s|
    ensures multiset(SortByDate(s)) == multiset(s)
  {
    if s != [] {
      var s' := s[..|s| - 1];
      SortByDatePermutation(s');
      InsertMultiset(SortByDate(s'), s[|s| - 1]);
      assert s == s' + [s[|s| - 1]];
    }
  }

  /** Records with equal dates keep their relative order. */
  lemma {:induction false} SortByDateStable(s: seq<Record>, d: Date)
    ensures OnDate(SortByDate(s), d) == OnDate(s, d)
  {
    if s != [] {
      var s' := s[..|s| - 1];
      var x := s[|s| - 1];
      SortByDateStable(s', d);
      InsertOnDate(SortByDate(s'), x, d);
      assert [x][..0] == [];
    }
  }

  /** `SortByDate(s)` is sorted, a permutation of `s`, and keeps the order of records of equal dates. */
  lemma SortByDateProperties(s: seq<Record>)
    ensures SortedByDate(SortByDate(s))
    ensures multiset(SortByDate(s)) == multiset(s)
    ensures forall d: Date :: OnDate(SortByDate(s), d) == OnDate(s, d)
  {
    SortByDateSorted(s);
    SortByDatePermutation(s);
    forall d: Date
      ensures OnDate(SortByDate(s), d) == OnDate(s, d)
    {
      SortByDateStable(s, d);
    }
  }

  /** Two sorted sequences with the same records on every date, in the same order, are equal. */
  lemma {:induction false} SortedStableUnique(t: seq<Record>, u: seq<Record>)
    requires SortedByDate(t) && SortedByDate(u)
    requires forall d: Date :: OnDate(t, d) == OnDate(u, d)
    ensures t == u
    decreases |t| + |u|
  {
    if t == [] && u == [] {
    } else if t == [] || u == [] {
      var w := if t == [] then u else t;
      var y := w[|w| - 1];
      OnDateLast(w, y.date);
      assert false;
    } else {
      SameLast(t, u);
      DropLast(t, u, t[..|t| - 1], u[..|u| - 1]);
      SortedStableUnique(t[..|t| - 1], u[..|u| - 1]);
      assert t == t[..|t| - 1] + [t[|t| - 1]];
      assert u == u[..|u| - 1] + [u[|u| - 1]];
    }
  }

  lemma OnDateLast(s: seq<Record>, d: Date)
    requires s != []
    ensures OnDate(s, d) == OnDate(s[..|s| - 1], d) + (if s[|s| - 1].date == d then [s[|s| - 1]] else [])
  {
  }

  /** Two sorted sequences with the same records on every date end with the same record. */
  lemma SameLast(t: seq<Record>, u: seq<Record>)
    requires SortedByDate(t) && SortedByDate(u) && t != [] && u != []
    requires forall d: Date :: OnDate(t, d) == OnDate(u, d)
    ensures t[|t| - 1] == u[|u| - 1]
  {
    var x, y := t[|t| - 1], u[|u| - 1];
    assert OnDate(t, y.date) == OnDate(u, y.date);
    LastIsLatest(t, u, y);
    assert OnDate(u, x.date) == OnDate(t, x.date);
    LastIsLatest(u, t, x);
    assert x.date == y.date;
    OnDateLast(t, x.date);
    OnDateLast(u, x.date);
    var a, b := OnDate(t[..|t| - 1], x.date), OnDate(u[..|u| - 1], x.date);
    assert a + [x] == b + [y];
    assert x == (a + [x])[|a|] && y == (b + [y])[|b|];
  }

  /** Dropping a common last record keeps the records of every date equal. */
  lemma DropLast(t: seq<Record>, u: seq<Record>, t': seq<Record>, u': seq<Record>)
    requires t != [] && u != [] && t[|t| - 1] == u[|u| - 1]
    requires t' == t[..|t| - 1] && u' == u[..|u| - 1]
    requires forall d: Date :: OnDate(t, d) == OnDate(u, d)
    ensures forall d: Date :: OnDate(t', d) == OnDate(u', d)
  {
    var x := t[|t| - 1];
    forall d: Date
      ensures OnDate(t', d) == OnDate(u', d)
    {
      assert OnDate(t, d) == OnDate(u, d);
      OnDateLast(t, d);
      OnDateLast(u, d);
      var a, b := OnDate(t', d), OnDate(u', d);
      if x.date == d {
        assert a + [x] == b + [x];
        assert a == (a + [x])[..|a|];
        assert b == (b + [x])[..|b|];
      } else {
        assert a + [] == a && b + [] == b;
      }
    }
  }

  /** In a sorted sequence `t` that has the records of `u` on the date of `u`'s last element, the last element of `u` is not later than that of `t`. */
  lemma LastIsLatest(t: seq<Record>, u: seq<Record>, y: Record)
    requires SortedByDate(t) && t != [] && u != [] && y == u[|u| - 1]
    requires OnDate(t, y.date) == OnDate(u, y.date)
    ensures DateLe(y.date, t[|t| - 1].date)
  {
    var onY := OnDate(t, y.date);
    assert OnDate(u, y.date) == OnDate(u[..|u| - 1], y.date) + [y];
    OnDateMember(t, y.date, |onY| - 1);
    var j :| 0 <= j < |t| && t[j] == onY[|onY| - 1];
    assert t[j].date == y.date;
    if j < |t| - 1 {
      assert DateLe(t[j].date, t[|t| - 1].date);
    }
  }

  /** `SortByDate` is the one stable sort by date: a sequence is a stable sort of `s` exactly when it is `SortByDate(s)`. */
  lemma StableSortIsSortByDate(s: seq<Record>, t: seq<Record>)
    ensures IsStableSortOf(t, s) <==> t == SortByDate(s)
  {
    SortByDateProperties(s);
    if IsStableSortOf(t, s) {
      SortedStableUnique(t, SortByDate(s));
    }
  }

  /** Sorting records dated 3, 1 and 1 January puts the two of 1 January first, in their original order. */
  lemma SortExample()
    ensures var a, b, c := Record("A", Date(3, 1, 2024), "08:00", "Hadir"),
                          Record("B", Date(1, 1, 2024), "08:00", "Hadir"),
                          Record("C", Date(1, 1, 2024), "08:00", "Hadir");
            SortByDate([a, b, c]) == [b, c, a]
  {
    var a, b, c := Record("A", Date(3, 1, 2024), "08:00", "Hadir"),
                   Record("B", Date(1, 1, 2024), "08:00", "Hadir"),
                   Record("C", Date(1, 1, 2024), "08:00", "Hadir");
    assert [a, b, c][..2] == [a, b] && [a, b][..1] == [a] && [a][..0] == [];
    assert SortByDate([a]) == [a];
    assert InsertPos([a], b) == 0;
    assert SortByDate([a, b]) == [b, a];
    assert InsertPos([b, a], c) == 1;
  }
}
