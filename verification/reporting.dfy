/** `report`: the works are grouped under a key derived from their date,
    the groups are sorted by key as Python sorts strings, and one row is
    yielded per work, with its hours rounded to a whole number.

    `report` is a generator, but all grouping happens before the first row
    is yielded, so the rows are either all produced or the
    `RuntimeError('unsupported group_by', group_by)` is raised before any of
    them; `ReportRows` returns the list of rows or that error. */
module Reporting {
  import opened Wrappers
  import opened OrderedMaps
  import opened Text
  import opened Calendar
  import opened Collecting
  import opened Allocation
  import opened GroupKeys

  /** One yielded line: `(key, task, str(round(hours)))`. */
  datatype Row = Row(key: string, task: Task, hours: string)

  /** The `RuntimeError` raised for an unknown `group_by`. */
  datatype GroupError = UnsupportedGroupBy(groupBy: string)

  /** `grouped`: a default dictionary from keys to lists of works. */
  type Groups = Dict<string, seq<Work>>

  predicate ValidGroupBy(groupBy: string) {
    groupBy == "day" || groupBy == "week" || groupBy == "month"
  }

  /** The key of a work dated `d`, or the error for an unknown `group_by`. */
  function GroupKey(d: Date, groupBy: string): (r: Result<string, GroupError>)
    ensures r.Success? <==> ValidGroupBy(groupBy)
    ensures r.Failure? ==> r.error == UnsupportedGroupBy(groupBy)
  {
    if groupBy == "day" then Success(IsoFormat(d))
    else if groupBy == "week" then Success(WeekKey(d))
    else if groupBy == "month" then Success(MonthKey(d))
    else Failure(UnsupportedGroupBy(groupBy))
  }

  /** `grouped` after the first loop of `report`: every work appended to the
      list of its key, stopping at the first work whose key fails. */
  function Grouped(works: seq<Work>, groupBy: string): Result<Groups, GroupError> {
    if works == [] then Success([])
    else
      var w := works[|works| - 1];
      match Grouped(works[..|works| - 1], groupBy)
      case Failure(e) => Failure(e)
      case Success(g) =>
        match GroupKey(w.date, groupBy)
        case Failure(e) => Failure(e)
        case Success(key) => Success(Put(g, key, Get(g, key, []) + [w]))
  }

  /** Places an item among items sorted by key. */
  function Insert(p: (string, seq<Work>), m: Groups): Groups {
    if m == [] then [p]
    else if StrLess(p.0, m[0].0) then [p] + m
    else [m[0]] + Insert(p, m[1..])
  }

  /** `sorted(grouped.items())`. The keys of a dictionary are unique, so
      Python's tuple comparison never looks past the key. */
  function SortByKey(m: Groups): Groups {
    if m == [] then [] else Insert(m[0], SortByKey(m[1..]))
  }

  /** The row yielded for one work of the group `key`. */
  function RowOf(key: string, w: Work): Row {
    Row(key, w.task, IntToString(RoundHalfEven(w.hours)))
  }

  /** The rows of one group, in the order of its works. */
  function GroupRows(key: string, ws: seq<Work>): seq<Row> {
    seq(|ws|, i requires 0 <= i < |ws| => RowOf(key, ws[i]))
  }

  /** The rows of all groups, group after group. */
  function Rows(m: Groups): seq<Row> {
    if m == [] then []
    else Rows(m[..|m| - 1]) + GroupRows(m[|m| - 1].0, m[|m| - 1].1)
  }

  /** What `report` yields, or the error it raises. */
  function ReportRows(works: seq<Work>, groupBy: string): Result<seq<Row>, GroupError> {
    match Grouped(works, groupBy)
    case Failure(e) => Failure(e)
    case Success(g) => Success(Rows(SortByKey(g)))
  }

  /** The loops of `report`. */
  method Report(works: seq<Work>, groupBy: string) returns (r: Result<seq<Row>, GroupError>)
    ensures r == ReportRows(works, groupBy)
  {
    var grouped: Groups := [];
    for i := 0 to |works|
      invariant Grouped(works[..i], groupBy) == Success(grouped)
    {
      var work := works[i];
      var key: string;
      if groupBy == "day" {
        key := IsoFormat(work.date);
      } else if groupBy == "week" {
        key := WeekKey(work.date);
      } else if groupBy == "month" {
        key := MonthKey(work.date);
      } else {
        GroupedOutcome(works, groupBy);
        return Failure(UnsupportedGroupBy(groupBy));
      }
      assert works[..i + 1][..i] == works[..i];
      grouped := Put(grouped, key, Get(grouped, key, []) + [work]);
    }
    assert works[..|works|] == works;
    var sorted := SortByKey(grouped);
    var rows: seq<Row> := [];
    for i := 0 to |sorted|
      invariant rows == Rows(sorted[..i])
    {
      var key, subworks := sorted[i].0, sorted[i].1;
      for j := 0 to |subworks|
        invariant rows == Rows(sorted[..i]) + GroupRows(key, subworks[..j])
      {
        GroupRowsStep(key, subworks, j);
        rows := rows + [RowOf(key, subworks[j])];
      }
      RowsStep(sorted, i);
    }
    assert sorted[..|sorted|] == sorted;
    return Success(rows);
  }

  lemma GroupRowsStep(key: string, ws: seq<Work>, j: nat)
    requires j < |ws|
    ensures GroupRows(key, ws[..j + 1]) == GroupRows(key, ws[..j]) + [RowOf(key, ws[j])]
  {
  }

  lemma RowsStep(m: Groups, i: nat)
    requires i < |m|
    ensures Rows(m[..i + 1]) == Rows(m[..i]) + GroupRows(m[i].0, m[i].1[..|m[i].1|])
  {
    assert m[..i + 1][..i] == m[..i];
    assert m[i].1[..|m[i].1|] == m[i].1;
  }

  // The error path.

  /** `report` fails exactly when there is a work to key and `group_by` is
      not one of `day`, `week` and `month`. */
  lemma {:induction false} GroupedOutcome(works: seq<Work>, groupBy: string)
    ensures Grouped(works, groupBy).Failure? <==> works != [] && !ValidGroupBy(groupBy)
    ensures Grouped(works, groupBy).Failure? ==>
            Grouped(works, groupBy).error == UnsupportedGroupBy(groupBy)
  {
    if works != [] {
      GroupedOutcome(works[..|works| - 1], groupBy);
    }
  }

  lemma ReportFails(works: seq<Work>, groupBy: string)
    ensures ReportRows(works, groupBy).Failure? <==> works != [] && !ValidGroupBy(groupBy)
    ensures ReportRows(works, groupBy).Failure? ==>
            ReportRows(works, groupBy).error == UnsupportedGroupBy(groupBy)
  {
    GroupedOutcome(works, groupBy);
  }

  // Grouping.

  /** The works whose key is `key`, in order. */
  function WorksWithKey(works: seq<Work>, groupBy: string, key: string): seq<Work> {
    if works == [] then []
    else
      var w := works[|works| - 1];
      WorksWithKey(works[..|works| - 1], groupBy, key) +
        (if GroupKey(w.date, groupBy) == Success(key) then [w] else [])
  }

  /** The list of each key holds the works with that key, in order. */
  lemma {:induction false} GroupedContents(works: seq<Work>, groupBy: string, key: string)
    requires Grouped(works, groupBy).Success?
    ensures Get(Grouped(works, groupBy).value, key, []) == WorksWithKey(works, groupBy, key)
  {
    if works != [] {
      var w := works[|works| - 1];
      var g := Grouped(works[..|works| - 1], groupBy).value;
      GroupedContents(works[..|works| - 1], groupBy, key);
      var k := GroupKey(w.date, groupBy).value;
      PutGet(g, k, Get(g, k, []) + [w], key, []);
    }
  }

  lemma {:induction false} GroupedUnique(works: seq<Work>, groupBy: string)
    requires Grouped(works, groupBy).Success?
    ensures UniqueKeys(Grouped(works, groupBy).value)
  {
    if works != [] {
      var w := works[|works| - 1];
      var g := Grouped(works[..|works| - 1], groupBy).value;
      GroupedUnique(works[..|works| - 1], groupBy);
      var k := GroupKey(w.date, groupBy).value;
      PutUnique(g, k, Get(g, k, []) + [w]);
    }
  }

  /** Grouping files every work exactly once. */
  lemma {:induction false} GroupedSize(works: seq<Work>, groupBy: string)
    requires Grouped(works, groupBy).Success?
    ensures SumBy(Grouped(works, groupBy).value, Length) == |works|
  {
    if works != [] {
      var w := works[|works| - 1];
      var g := Grouped(works[..|works| - 1], groupBy).value;
      GroupedSize(works[..|works| - 1], groupBy);
      var k := GroupKey(w.date, groupBy).value;
      SumByPut(g, k, Get(g, k, []) + [w], [], Length);
    }
  }

  // Sorting.

  predicate SortedByKey(m: Groups) {
    forall i, j :: 0 <= i < j < |m| ==> StrLess(m[i].0, m[j].0)
  }

  lemma {:induction false} InsertPermutes(p: (string, seq<Work>), m: Groups)
    ensures multiset(Insert(p, m)) == multiset(m) + multiset{p}
  {
    if m != [] && !StrLess(p.0, m[0].0) {
      InsertPermutes(p, m[1..]);
      assert m == [m[0]] + m[1..];
    }
  }

  lemma {:induction false} InsertGet(p: (string, seq<Work>), m: Groups, k: string)
    requires p.0 !in Keys(m)
    ensures Get(Insert(p, m), k, []) == if k == p.0 then p.1 else Get(m, k, [])
  {
    if m != [] && !StrLess(p.0, m[0].0) {
      InsertGet(p, m[1..], k);
    }
  }

  lemma {:induction false} InsertKeys(p: (string, seq<Work>), m: Groups, k: string)
    ensures k in Keys(Insert(p, m)) <==> k == p.0 || k in Keys(m)
  {
    if m != [] && !StrLess(p.0, m[0].0) {
      InsertKeys(p, m[1..], k);
      assert Keys(Insert(p, m)) == [m[0].0] + Keys(Insert(p, m[1..]));
      assert Keys(m) == [m[0].0] + Keys(m[1..]);
    }
  }

  lemma {:induction false} InsertSorted(p: (string, seq<Work>), m: Groups)
    requires SortedByKey(m) && p.0 !in Keys(m)
    ensures SortedByKey(Insert(p, m))
  {
    if m == [] {
    } else if StrLess(p.0, m[0].0) {
      forall j | 0 < j < |m|
        ensures StrLess(p.0, m[j].0)
      {
        StrLessTransitive(p.0, m[0].0, m[j].0);
      }
    } else {
      assert p.0 != m[0].0;
      StrLessTotal(p.0, m[0].0);
      var rest := Insert(p, m[1..]);
      InsertSorted(p, m[1..]);
      InsertPermutes(p, m[1..]);
      forall q | q in rest
        ensures StrLess(m[0].0, q.0)
      {
        assert q in multiset(rest);
        if q != p {
          assert q in m[1..];
          var j :| 0 <= j < |m[1..]| && m[1..][j] == q;
          assert m[j + 1] == q;
        }
      }
    }
  }

  /** `sorted` returns the same items, strictly ordered by key, and every key
      still reads its own list. */
  lemma {:induction false} SortByKeyFacts(m: Groups)
    requires UniqueKeys(m)
    ensures multiset(SortByKey(m)) == multiset(m)
    ensures SortedByKey(SortByKey(m))
    ensures forall k :: k in Keys(SortByKey(m)) <==> k in Keys(m)
    ensures forall k :: Get(SortByKey(m), k, []) == Get(m, k, [])
  {
    if m != [] {
      var rest := SortByKey(m[1..]);
      SortByKeyFacts(m[1..]);
      assert m == [m[0]] + m[1..];
      assert Keys(m) == [m[0].0] + Keys(m[1..]);
      assert m[0].0 !in Keys(m[1..]);
      InsertPermutes(m[0], rest);
      InsertSorted(m[0], rest);
      forall k
        ensures k in Keys(SortByKey(m)) <==> k in Keys(m)
        ensures Get(SortByKey(m), k, []) == Get(m, k, [])
      {
        InsertKeys(m[0], rest, k);
        InsertGet(m[0], rest, k);
      }
    }
  }

  /** Sorting moves the lists around without changing their sizes. */
  lemma {:induction false} SortByKeySize(m: Groups)
    ensures SumBy(SortByKey(m), Length) == SumBy(m, Length)
  {
    if m != [] {
      SortByKeySize(m[1..]);
      InsertSize(m[0], SortByKey(m[1..]));
    }
  }

  lemma {:induction false} InsertSize(p: (string, seq<Work>), m: Groups)
    ensures SumBy(Insert(p, m), Length) == |p.1| + SumBy(m, Length)
  {
    if m != [] && !StrLess(p.0, m[0].0) {
      InsertSize(p, m[1..]);
    }
  }

  // Rows.

  lemma {:induction false} RowsSize(m: Groups)
    ensures |Rows(m)| == SumBy(m, Length)
  {
    if m != [] {
      var prefix := m[..|m| - 1];
      RowsSize(prefix);
      assert m == prefix + [m[|m| - 1]];
      SumByAppend(prefix, m[|m| - 1], Length);
    }
  }

  /** Every key of `m` sorts before `k`. */
  predicate KeysBelow(m: Groups, k: string) {
    forall a :: 0 <= a < |m| ==> StrLess(m[a].0, k)
  }

  lemma {:induction false} RowsBelow(m: Groups, k: string)
    requires KeysBelow(m, k)
    ensures forall i :: 0 <= i < |Rows(m)| ==> StrLess(Rows(m)[i].key, k)
  {
    if m != [] {
      RowsBelow(m[..|m| - 1], k);
    }
  }

  /** Rows of sorted groups come out with non-decreasing keys. */
  lemma {:induction false} RowsSorted(m: Groups)
    requires SortedByKey(m)
    ensures forall i, j :: 0 <= i < j < |Rows(m)| ==> StrLessEq(Rows(m)[i].key, Rows(m)[j].key)
  {
    if m != [] {
      var prefix, last := m[..|m| - 1], m[|m| - 1];
      RowsSorted(prefix);
      RowsBelow(prefix, last.0);
      var rows := Rows(m);
      var n := |Rows(prefix)|;
      forall i, j | 0 <= i < j < |rows|
        ensures StrLessEq(rows[i].key, rows[j].key)
      {
        if j >= n {
          assert rows[j].key == last.0;
          if i >= n {
            assert rows[i].key == last.0;
          } else {
            assert rows[i] == Rows(prefix)[i];
          }
        } else {
          assert rows[i] == Rows(prefix)[i] && rows[j] == Rows(prefix)[j];
        }
      }
    }
  }

  /** The rows with key `key`, in order. */
  function RowsWithKey(rows: seq<Row>, key: string): seq<Row> {
    if rows == [] then []
    else RowsWithKey(rows[..|rows| - 1], key) + (if rows[|rows| - 1].key == key then [rows[|rows| - 1]] else [])
  }

  lemma {:induction false} RowsWithKeyAppend(a: seq<Row>, b: seq<Row>, key: string)
    ensures RowsWithKey(a + b, key) == RowsWithKey(a, key) + RowsWithKey(b, key)
  {
    if b != [] {
      assert (a + b)[..|a + b| - 1] == a + b[..|b| - 1];
      RowsWithKeyAppend(a, b[..|b| - 1], key);
    } else {
      assert a + b == a;
    }
  }

  lemma {:induction false} GroupRowsWithKey(k: string, ws: seq<Work>, key: string)
    ensures RowsWithKey(GroupRows(k, ws), key) == if k == key then GroupRows(k, ws) else []
  {
    if ws != [] {
      var n := |ws| - 1;
      assert GroupRows(k, ws)[..n] == GroupRows(k, ws[..n]);
      GroupRowsWithKey(k, ws[..n], key);
    }
  }

  /** In the rows of a dictionary, the rows of a key are those of its list. */
  lemma {:induction false} RowsOfKey(m: Groups, key: string)
    requires UniqueKeys(m)
    ensures RowsWithKey(Rows(m), key) == GroupRows(key, Get(m, key, []))
  {
    if m != [] {
      var prefix, last := m[..|m| - 1], m[|m| - 1];
      assert m == prefix + [last];
      KeysAppend(prefix, last);
      assert last.0 !in Keys(prefix);
      assert UniqueKeys(prefix);
      RowsOfKey(prefix, key);
      assert Rows(m) == Rows(prefix) + GroupRows(last.0, last.1);
      RowsWithKeyAppend(Rows(prefix), GroupRows(last.0, last.1), key);
      GroupRowsWithKey(last.0, last.1, key);
      GetAppend(prefix, last, key, []);
      if key == last.0 {
        GetAbsent(prefix, key, []);
        assert GroupRows(key, []) == [];
        assert Get(m, key, []) == last.1;
        assert RowsWithKey(Rows(m), key) == [] + GroupRows(key, last.1);
      } else {
        if key !in Keys(prefix) {
          GetAbsent(prefix, key, []);
        }
        assert Get(m, key, []) == Get(prefix, key, []);
        assert RowsWithKey(Rows(m), key) == RowsWithKey(Rows(prefix), key) + [];
      }
    } else {
      assert GroupRows(key, []) == [];
    }
  }

  // What `report` promises.

  /** One row per work. */
  lemma ReportRowCount(works: seq<Work>, groupBy: string)
    requires ReportRows(works, groupBy).Success?
    ensures |ReportRows(works, groupBy).value| == |works|
  {
    var g := Grouped(works, groupBy).value;
    GroupedSize(works, groupBy);
    SortByKeySize(g);
    RowsSize(SortByKey(g));
  }

  /** The keys of the rows never decrease in Python's string order. */
  lemma ReportSorted(works: seq<Work>, groupBy: string)
    requires ReportRows(works, groupBy).Success?
    ensures var rows := ReportRows(works, groupBy).value;
            forall i, j :: 0 <= i < j < |rows| ==> StrLessEq(rows[i].key, rows[j].key)
  {
    var g := Grouped(works, groupBy).value;
    GroupedUnique(works, groupBy);
    SortByKeyFacts(g);
    RowsSorted(SortByKey(g));
  }

  /** The rows of each key are the rows of the works with that key, in the
      order of the works: grouping and sorting are stable. */
  lemma ReportGroups(works: seq<Work>, groupBy: string, key: string)
    requires ReportRows(works, groupBy).Success?
    ensures RowsWithKey(ReportRows(works, groupBy).value, key) ==
            GroupRows(key, WorksWithKey(works, groupBy, key))
  {
    var g := Grouped(works, groupBy).value;
    GroupedUnique(works, groupBy);
    GroupedContents(works, groupBy, key);
    SortByKeyFacts(g);
    var sorted := SortByKey(g);
    assert UniqueKeys(sorted) by {
      forall i, j | 0 <= i < j < |sorted|
        ensures sorted[i].0 != sorted[j].0
      {
        StrLessIrreflexive(sorted[i].0);
      }
    }
    RowsOfKey(sorted, key);
  }

  /** A row names its key and its work's task, and its hours read back as
      the work's hours rounded half to even. */
  lemma RowContents(key: string, w: Work)
    ensures var r := RowOf(key, w);
            r.key == key && r.task == w.task &&
            (r.hours[0] == '-' ==> AllDigits(r.hours[1..])) &&
            (r.hours[0] != '-' ==> AllDigits(r.hours)) &&
            -0.5 <= w.hours - ParseInt(r.hours) as real <= 0.5 &&
            (w.hours - ParseInt(r.hours) as real == 0.5 || ParseInt(r.hours) as real - w.hours == 0.5 ==>
               ParseInt(r.hours) % 2 == 0)
  {
    IntToStringRoundTrip(RoundHalfEven(w.hours));
  }
}
