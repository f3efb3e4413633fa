/** Small worked examples of the allocation and of one report row. */
module Scenarios {
  import opened Wrappers
  import opened OrderedMaps
  import opened Text
  import opened Calendar
  import opened Collecting
  import opened Allocation
  import opened Reporting

  const March7: Date := YearMonthDay(2024, 3, 7)

  /** Two commits in the same hour for the same task: one work with the
      whole day. */
  lemma SameHourSameTask()
    ensures Works([(March7, [(10, ["PROJ-1", "PROJ-1"])])], 8) == [Work("PROJ-1", March7, 8.0)]
  {
    var day: Day := [(10, ["PROJ-1", "PROJ-1"])];
    var shares := [("PROJ-1", 4.0), ("PROJ-1", 4.0)];
    assert Shares(day, 8.0) == shares;
    assert Accumulate(shares[..1]) == [("PROJ-1", 4.0)];
    assert DaySummary(day, 8) == [("PROJ-1", 8.0)];
  }

  /** Two commits in the same hour for different tasks: half a day each. */
  lemma SameHourTwoTasks()
    ensures Works([(March7, [(10, ["PROJ-1", "PROJ-2"])])], 8) ==
            [Work("PROJ-1", March7, 4.0), Work("PROJ-2", March7, 4.0)]
  {
    var day: Day := [(10, ["PROJ-1", "PROJ-2"])];
    var shares := [("PROJ-1", 4.0), ("PROJ-2", 4.0)];
    assert Shares(day, 8.0) == shares;
    assert Accumulate(shares[..1]) == [("PROJ-1", 4.0)];
    assert "PROJ-1" != "PROJ-2" by {
      assert "PROJ-1"[5] != "PROJ-2"[5];
    }
    assert Get([("PROJ-1", 4.0)], "PROJ-2", 0.0) == 0.0;
    assert Put([("PROJ-1", 4.0)], "PROJ-2", 4.0) == shares;
    assert Accumulate(shares) == shares;
  }

  /** Two hours with one commit each for the same task: the two half days
      add up to one work with the whole day. */
  lemma TwoHoursSameTask()
    ensures Works([(March7, [(10, ["PROJ-1"]), (15, ["PROJ-1"])])], 8) == [Work("PROJ-1", March7, 8.0)]
  {
    var day: Day := [(10, ["PROJ-1"]), (15, ["PROJ-1"])];
    assert day[..1] == [(10, ["PROJ-1"])];
    assert Shares(day[..1], 4.0) == [("PROJ-1", 4.0)];
    assert Shares(day, 4.0) == [("PROJ-1", 4.0), ("PROJ-1", 4.0)];
    assert Accumulate([("PROJ-1", 4.0)]) == [("PROJ-1", 4.0)];
  }

  /** `str(date(2024, 3, 7))`. */
  lemma March7Key()
    ensures IsoFormat(March7) == "2024-03-07"
  {
    assert Decimal(2024) == "2024" by {
      assert Decimal(20) == "20";
      assert Decimal(202) == "202";
    }
    assert ZeroPadded(3, 2) == "03";
    assert ZeroPadded(7, 2) == "07";
  }

  /** One work of a whole day, grouped by day: one row keyed by the date. */
  lemma OneDayRow()
    ensures ReportRows([Work("ABC-1", March7, 8.0)], "day") == Success([Row("2024-03-07", "ABC-1", "8")])
  {
    var w := Work("ABC-1", March7, 8.0);
    var key := "2024-03-07";
    March7Key();
    var g: Groups := [(key, [w])];
    assert [w][..0] == [];
    assert Grouped([], "day") == Success([]);
    assert GroupKey(March7, "day") == Success(key);
    assert Get([], key, []) + [w] == [w];
    assert Grouped([w], "day") == Success(g);
    assert SortByKey(g) == g;
    assert g[..0] == [];
    assert Rows(g) == [RowOf(key, w)];
    assert RoundHalfEven(8.0) == 8 by {
      RoundHalfEvenUnique(8.0, 8);
    }
    assert IntToString(8) == "8";
  }
}
