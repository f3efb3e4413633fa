/** The three keys `report` groups works under: `str(date)` for `day`,
    `'{}-{}-{}'.format(year, month, isoweek)` for `week` and
    `'{}-{}'.format(year, month)` for `month`. */
module GroupKeys {
  import opened Text
  import opened Calendar

  /** `'{}-{}'.format(year, month)`: no zero padding. */
  function MonthKey(d: Date): string {
    Decimal(d.year) + "-" + Decimal(d.month)
  }

  /** `'{}-{}-{}'.format(year, month, isocalendar()[1])`: the calendar year
      and month with the ISO week number, no zero padding. */
  function WeekKey(d: Date): string {
    IsoWeekPositive(d);
    Decimal(d.year) + "-" + Decimal(d.month) + "-" + Decimal(IsoWeek(d))
  }

  /** In a run of digits followed by a dash, the first dash is right after
      the digits. */
  lemma DashPosition(x: string, y: string)
    requires AllDigits(x)
    ensures (x + "-" + y)[|x|] == '-'
    ensures forall i :: 0 <= i < |x| ==> (x + "-" + y)[i] == x[i] && IsDigit(x[i])
  {
  }

  /** A dash after a run of digits marks where the run ends. */
  lemma SplitAtDash(x1: string, y1: string, x2: string, y2: string)
    requires AllDigits(x1) && AllDigits(x2)
    ensures x1 + "-" + y1 == x2 + "-" + y2 <==> x1 == x2 && y1 == y2
  {
    var s1, s2 := x1 + "-" + y1, x2 + "-" + y2;
    if s1 == s2 {
      DashPosition(x1, y1);
      DashPosition(x2, y2);
      if |x1| < |x2| {
        assert false;
      } else if |x2| < |x1| {
        assert false;
      }
      assert x1 == s1[..|x1|] && x2 == s2[..|x2|];
      assert y1 == s1[|x1| + 1..] && y2 == s2[|x2| + 1..];
    }
  }

  /** Month keys name the year and the month and nothing else. */
  lemma MonthKeyInjective(a: Date, b: Date)
    ensures MonthKey(a) == MonthKey(b) <==> a.year == b.year && a.month == b.month
  {
    SplitAtDash(Decimal(a.year), Decimal(a.month), Decimal(b.year), Decimal(b.month));
    DecimalInjective(a.year, b.year);
    DecimalInjective(a.month, b.month);
  }

  /** Week keys name the calendar year, the calendar month and the ISO week
      and nothing else. */
  lemma WeekKeyInjective(a: Date, b: Date)
    ensures WeekKey(a) == WeekKey(b) <==>
            a.year == b.year && a.month == b.month && IsoWeek(a) == IsoWeek(b)
  {
    IsoWeekPositive(a);
    IsoWeekPositive(b);
    var ya, ma, wa := Decimal(a.year), Decimal(a.month), Decimal(IsoWeek(a));
    var yb, mb, wb := Decimal(b.year), Decimal(b.month), Decimal(IsoWeek(b));
    assert WeekKey(a) == ya + "-" + (ma + "-" + wa);
    assert WeekKey(b) == yb + "-" + (mb + "-" + wb);
    SplitAtDash(ya, ma + "-" + wa, yb, mb + "-" + wb);
    SplitAtDash(ma, wa, mb, wb);
    DecimalInjective(a.year, b.year);
    DecimalInjective(a.month, b.month);
    DecimalInjective(IsoWeek(a), IsoWeek(b));
  }

  /** Two keys that start with zero-padded fields of the same width are
      ordered by the numbers when these differ, and by what follows
      otherwise. */
  lemma PaddedFieldOrder(x: nat, y: nat, width: nat, rx: string, ry: string)
    requires 0 < width && x < Pow10(width) && y < Pow10(width)
    ensures x != y ==> (StrLess(ZeroPadded(x, width) + rx, ZeroPadded(y, width) + ry) <==> x < y)
    ensures x == y ==> (StrLess(ZeroPadded(x, width) + rx, ZeroPadded(y, width) + ry) <==> StrLess(rx, ry))
  {
    var px, py := ZeroPadded(x, width), ZeroPadded(y, width);
    ZeroPaddedWidth(x, width);
    ZeroPaddedWidth(y, width);
    ZeroPaddedValue(x, width);
    ZeroPaddedValue(y, width);
    StrLessConcat(px, rx, py, ry);
    DigitOrder(px, py);
  }

  /** A dash in the same place on both sides does not decide the order. */
  lemma DashOrder(rx: string, ry: string)
    ensures StrLess("-" + rx, "-" + ry) <==> StrLess(rx, ry)
  {
    StrLessConcat("-", rx, "-", ry);
  }

  /** Zero-padded numbers of the same width sort as the numbers. */
  lemma PaddedOrder(x: nat, y: nat, width: nat)
    requires 0 < width && x < Pow10(width) && y < Pow10(width)
    ensures StrLess(ZeroPadded(x, width), ZeroPadded(y, width)) <==> x < y
  {
    ZeroPaddedWidth(x, width);
    ZeroPaddedWidth(y, width);
    ZeroPaddedValue(x, width);
    ZeroPaddedValue(y, width);
    DigitOrder(ZeroPadded(x, width), ZeroPadded(y, width));
  }

  /** `str(date)` as its three fields and the dashes between them. */
  lemma IsoFormatParts(d: Date)
    ensures IsoFormat(d) ==
            ZeroPadded(d.year, 4) + ("-" + (ZeroPadded(d.month, 2) + ("-" + ZeroPadded(d.day, 2))))
  {
  }

  /** Month and day part of a day key: ordered by month, then by day. */
  lemma MonthDayOrder(a: Date, b: Date)
    ensures var ra := ZeroPadded(a.month, 2) + ("-" + ZeroPadded(a.day, 2));
            var rb := ZeroPadded(b.month, 2) + ("-" + ZeroPadded(b.day, 2));
            StrLess(ra, rb) <==> a.month < b.month || (a.month == b.month && a.day < b.day)
  {
    assert Pow10(2) == 100;
    DayBound(a);
    DayBound(b);
    var da, db := ZeroPadded(a.day, 2), ZeroPadded(b.day, 2);
    PaddedFieldOrder(a.month, b.month, 2, "-" + da, "-" + db);
    DashOrder(da, db);
    PaddedOrder(a.day, b.day, 2);
  }

  /** Day keys sort in calendar order. */
  lemma DayKeyOrder(a: Date, b: Date)
    ensures StrLess(IsoFormat(a), IsoFormat(b)) <==> Before(a, b)
  {
    assert Pow10(4) == 10000;
    var ra := "-" + (ZeroPadded(a.month, 2) + ("-" + ZeroPadded(a.day, 2)));
    var rb := "-" + (ZeroPadded(b.month, 2) + ("-" + ZeroPadded(b.day, 2)));
    IsoFormatParts(a);
    IsoFormatParts(b);
    PaddedFieldOrder(a.year, b.year, 4, ra, rb);
    DashOrder(ra[1..], rb[1..]);
    assert ra == "-" + ra[1..] && rb == "-" + rb[1..];
    MonthDayOrder(a, b);
  }

  /** Different dates have different day keys. */
  lemma DayKeyInjective(a: Date, b: Date)
    ensures IsoFormat(a) == IsoFormat(b) <==> a == b
  {
    DayKeyOrder(a, b);
    DayKeyOrder(b, a);
    StrLessIrreflexive(IsoFormat(a));
  }

  /** Month keys sort as text, not as months: within a year, October to
      December sort before February to September. */
  lemma MonthKeyTextOrder(a: Date, b: Date)
    requires a.year == b.year && 10 <= a.month && 2 <= b.month <= 9
    ensures StrLess(MonthKey(a), MonthKey(b)) && Before(b, a)
  {
    var prefix := Decimal(a.year) + "-";
    StrLessConcat(prefix, Decimal(a.month), prefix, Decimal(b.month));
    assert Decimal(a.month)[0] == '1';
    assert Decimal(b.month) == [DigitChar(b.month)];
  }

  /** Week keys pair the calendar year and month with the ISO week, so the
      days of one ISO week can fall under two keys: 2019-12-31 and 2020-01-01
      are both in ISO week 1 of 2020, keyed `2019-12-1` and `2020-1-1`. */
  lemma WeekKeyYearEnd()
    ensures var a, b := YearMonthDay(2019, 12, 31), YearMonthDay(2020, 1, 1);
            IsoWeek(a) == IsoWeek(b) == 1 &&
            WeekKey(a) == "2019-12-1" && WeekKey(b) == "2020-1-1"
  {
    YearEndWeeks();
    assert Decimal(1) == "1";
    assert Decimal(12) == "12";
    assert Decimal(20) == "20";
    assert Decimal(201) == "201";
    assert Decimal(202) == "202";
    assert Decimal(2019) == "2019";
    assert Decimal(2020) == "2020";
  }

  lemma YearEndWeeks()
    ensures IsoWeek(YearMonthDay(2019, 12, 31)) == 1
    ensures IsoWeek(YearMonthDay(2020, 1, 1)) == 1
  {
    assert DaysBeforeYear(2019) == 737059;
    assert DaysBeforeYear(2020) == 737424;
    assert IsoWeek1Monday(2019) == 737059;
    assert IsoWeek1Monday(2020) == 737423;
    assert Ordinal(YearMonthDay(2019, 12, 31)) == 737424;
    assert Ordinal(YearMonthDay(2020, 1, 1)) == 737425;
  }
}
