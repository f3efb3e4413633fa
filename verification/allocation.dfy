/** `calculate_works`: the daily budget of hours is split evenly across the
    active hours of a date, each hour's share evenly across the commits
    recorded in that hour, and the shares are summed per task and date.
    Python computes with floats; here hours are exact reals. */
module Allocation {
  import opened OrderedMaps
  import opened Calendar
  import opened Collecting

  /** `Work(task, date, hours)`. */
  datatype Work = Work(task: Task, date: Date, hours: real)

  /** One hour's contributions: every entry of the bucket gets `share`. */
  function Spread(tasks: seq<Task>, share: real): seq<(Task, real)> {
    seq(|tasks|, i requires 0 <= i < |tasks| => (tasks[i], share))
  }

  /** The contributions of a date's hour buckets, in iteration order: each
      hour gets `hourRatio`, split evenly across its entries. */
  function Shares(day: Day, hourRatio: real): seq<(Task, real)>
    requires forall p :: p in day ==> p.1 != []
  {
    if day == [] then []
    else
      var tasks := day[|day| - 1].1;
      assert day[|day| - 1] in day;
      Shares(day[..|day| - 1], hourRatio) + Spread(tasks, hourRatio / |tasks| as real)
  }

  /** `day_summary[task] += task_ratio` on a default dictionary of numbers. */
  function AddShare(summary: Dict<Task, real>, share: (Task, real)): Dict<Task, real> {
    Put(summary, share.0, Get(summary, share.0, 0.0) + share.1)
  }

  /** The per-task totals of a run of contributions. */
  function Accumulate(shares: seq<(Task, real)>): Dict<Task, real> {
    if shares == [] then []
    else AddShare(Accumulate(shares[..|shares| - 1]), shares[|shares| - 1])
  }

  /** `day_summary` once all hours of the date are processed. */
  function DaySummary(day: Day, hours: int): Dict<Task, real>
    requires SlotsFilled(day)
  {
    Accumulate(Shares(day, hours as real / |day| as real))
  }

  /** The `Work` records emitted for one date. */
  function DayWorks(d: Date, summary: Dict<Task, real>): seq<Work> {
    seq(|summary|, i requires 0 <= i < |summary| => Work(summary[i].0, d, summary[i].1))
  }

  /** What `calculate_works` returns. */
  function Works(b: Buckets, hours: int): seq<Work>
    requires WellFormed(b)
  {
    if b == [] then []
    else
      var last := b[|b| - 1];
      assert last in b;
      Works(b[..|b| - 1], hours) + DayWorks(last.0, DaySummary(last.1, hours))
  }

  /** The loops of `calculate_works`. */
  method CalculateWorks(commits: Buckets, hours: int) returns (works: seq<Work>)
    requires WellFormed(commits)
    ensures works == Works(commits, hours)
  {
    works := [];
    for i := 0 to |commits|
      invariant works == Works(commits[..i], hours)
    {
      var cdate, day := commits[i].0, commits[i].1;
      WorksStep(commits, i, hours);
      var daySummary := SummarizeDay(day, hours);
      DayWorksStart(cdate, daySummary);
      for j := 0 to |daySummary|
        invariant works == Works(commits[..i], hours) + DayWorks(cdate, daySummary[..j])
      {
        var task, thours := daySummary[j].0, daySummary[j].1;
        DayWorksStep(cdate, daySummary, j);
        works := works + [Work(task, cdate, thours)];
      }
      assert daySummary[..|daySummary|] == daySummary;
    }
    assert commits[..|commits|] == commits;
  }

  /** The loops of `calculate_works` that fill `day_summary` for one date. */
  method SummarizeDay(day: Day, hours: int) returns (daySummary: Dict<Task, real>)
    requires SlotsFilled(day)
    ensures daySummary == DaySummary(day, hours)
  {
    var hourRatio := hours as real / |day| as real;
    daySummary := [];
    for j := 0 to |day|
      invariant daySummary == Accumulate(Shares(day[..j], hourRatio))
    {
      var tasks := day[j].1;
      SharesStep(day, j, hourRatio);
      ghost var done := Shares(day[..j], hourRatio);
      var taskRatio := hourRatio / |tasks| as real;
      SpreadStart(done, tasks, taskRatio);
      for k := 0 to |tasks|
        invariant daySummary == Accumulate(done + Spread(tasks[..k], taskRatio))
      {
        var task := tasks[k];
        SpreadStep(done, tasks, k, taskRatio);
        daySummary := Put(daySummary, task, Get(daySummary, task, 0.0) + taskRatio);
      }
    }
    assert day[..|day|] == day;
  }

  lemma SpreadStart(done: seq<(Task, real)>, tasks: seq<Task>, share: real)
    ensures done + Spread(tasks[..0], share) == done
  {
  }

  lemma DayWorksStart(d: Date, summary: Dict<Task, real>)
    ensures DayWorks(d, summary[..0]) == []
  {
  }

  /** One more entry of a bucket is one more contribution. */
  lemma SpreadStep(done: seq<(Task, real)>, tasks: seq<Task>, k: nat, share: real)
    requires k < |tasks|
    ensures var acc := Accumulate(done + Spread(tasks[..k], share));
            Accumulate(done + Spread(tasks[..k + 1], share)) == Put(acc, tasks[k], Get(acc, tasks[k], 0.0) + share)
  {
    var before := done + Spread(tasks[..k], share);
    assert done + Spread(tasks[..k + 1], share) == before + [(tasks[k], share)];
    assert (before + [(tasks[k], share)])[..|before|] == before;
  }

  /** One more hour of a date is one more bucket's contributions. */
  lemma SharesStep(day: Day, j: nat, hourRatio: real)
    requires forall p :: p in day ==> p.1 != []
    requires j < |day|
    ensures day[j].1 != []
    ensures Shares(day[..j + 1], hourRatio) ==
            Shares(day[..j], hourRatio) + Spread(day[j].1[..|day[j].1|], hourRatio / |day[j].1| as real)
  {
    assert day[j] in day;
    assert day[..j + 1][..j] == day[..j];
    assert day[j].1[..|day[j].1|] == day[j].1;
  }

  /** One more item of a summary is one more work. */
  lemma DayWorksStep(d: Date, summary: Dict<Task, real>, j: nat)
    requires j < |summary|
    ensures DayWorks(d, summary[..j + 1]) == DayWorks(d, summary[..j]) + [Work(summary[j].0, d, summary[j].1)]
  {
  }

  /** One more date is one more date's works. */
  lemma WorksStep(b: Buckets, i: nat, hours: int)
    requires WellFormed(b) && i < |b|
    ensures SlotsFilled(b[i].1)
    ensures Works(b[..i + 1], hours) == Works(b[..i], hours) + DayWorks(b[i].0, DaySummary(b[i].1, hours))
  {
    assert b[i] in b;
    assert b[..i + 1][..i] == b[..i];
  }

  // Conservation of the daily budget.

  /** Sum of the values of a dictionary of numbers. */
  function SumValues(m: Dict<Task, real>): real {
    if m == [] then 0.0 else m[0].1 + SumValues(m[1..])
  }

  lemma {:induction false} SumValuesPut(m: Dict<Task, real>, k: Task, v: real)
    ensures SumValues(Put(m, k, v)) == SumValues(m) - Get(m, k, 0.0) + v
  {
    if m != [] && m[0].0 != k {
      SumValuesPut(m[1..], k, v);
    }
  }

  /** Sum of the shares of a run of contributions. */
  function Total(shares: seq<(Task, real)>): real {
    if shares == [] then 0.0 else Total(shares[..|shares| - 1]) + shares[|shares| - 1].1
  }

  lemma {:induction false} TotalAppend(a: seq<(Task, real)>, b: seq<(Task, real)>)
    ensures Total(a + b) == Total(a) + Total(b)
  {
    if b != [] {
      assert (a + b)[..|a + b| - 1] == a + b[..|b| - 1];
      TotalAppend(a, b[..|b| - 1]);
    } else {
      assert a + b == a;
    }
  }

  /** `n` copies of `x` added up. */
  function Times(n: nat, x: real): real {
    if n == 0 then 0.0 else Times(n - 1, x) + x
  }

  lemma {:induction false} SpreadTotal(tasks: seq<Task>, share: real)
    ensures Total(Spread(tasks, share)) == Times(|tasks|, share)
  {
    if tasks != [] {
      assert Spread(tasks, share)[..|tasks| - 1] == Spread(tasks[..|tasks| - 1], share);
      SpreadTotal(tasks[..|tasks| - 1], share);
    }
  }

  /** Accumulating per task loses and invents nothing. */
  lemma {:induction false} AccumulateTotal(shares: seq<(Task, real)>)
    ensures SumValues(Accumulate(shares)) == Total(shares)
  {
    if shares != [] {
      var prefix := shares[..|shares| - 1];
      var s := shares[|shares| - 1];
      var acc := Accumulate(prefix);
      AccumulateTotal(prefix);
      var v := Get(acc, s.0, 0.0) + s.1;
      SumValuesPut(acc, s.0, v);
      assert SumValues(Put(acc, s.0, v)) == SumValues(acc) + s.1;
    }
  }

  /** Splitting a share `n` ways and adding the parts back gives the share. */
  lemma SplitEvenly(share: real, n: nat)
    requires n > 0
    ensures Times(n, share / n as real) == share
  {
    TimesIsProduct(n, share / n as real);
  }

  lemma {:induction false} TimesIsProduct(n: nat, x: real)
    ensures Times(n, x) == n as real * x
  {
    if n > 0 {
      TimesIsProduct(n - 1, x);
    }
  }

  /** Every active hour contributes exactly `hourRatio` in all. */
  lemma {:induction false} SharesTotal(day: Day, hourRatio: real)
    requires forall p :: p in day ==> p.1 != []
    ensures Total(Shares(day, hourRatio)) == Times(|day|, hourRatio)
  {
    if day != [] {
      var prefix := day[..|day| - 1];
      var tasks := day[|day| - 1].1;
      assert day[|day| - 1] in day;
      var share := hourRatio / |tasks| as real;
      SharesTotal(prefix, hourRatio);
      TotalAppend(Shares(prefix, hourRatio), Spread(tasks, share));
      SpreadTotal(tasks, share);
      SplitEvenly(hourRatio, |tasks|);
    }
  }

  /** A date's summary adds up to the daily budget. */
  lemma DaySummaryTotal(day: Day, hours: int)
    requires SlotsFilled(day)
    ensures SumValues(DaySummary(day, hours)) == hours as real
  {
    var ratio := hours as real / |day| as real;
    AccumulateTotal(Shares(day, ratio));
    SharesTotal(day, ratio);
    SplitEvenly(hours as real, |day|);
  }

  // What each task receives.

  /** The sum of the contributions to task `t`. */
  function TotalOf(shares: seq<(Task, real)>, t: Task): real {
    if shares == [] then 0.0
    else
      var s := shares[|shares| - 1];
      TotalOf(shares[..|shares| - 1], t) + (if s.0 == t then s.1 else 0.0)
  }

  lemma {:induction false} TotalOfAppend(a: seq<(Task, real)>, b: seq<(Task, real)>, t: Task)
    ensures TotalOf(a + b, t) == TotalOf(a, t) + TotalOf(b, t)
  {
    if b != [] {
      assert (a + b)[..|a + b| - 1] == a + b[..|b| - 1];
      TotalOfAppend(a, b[..|b| - 1], t);
    } else {
      assert a + b == a;
    }
  }

  /** `day_summary[t]` is the sum of the contributions to `t`, and an absent
      task reads as 0. */
  lemma {:induction false} AccumulateValue(shares: seq<(Task, real)>, t: Task)
    ensures Get(Accumulate(shares), t, 0.0) == TotalOf(shares, t)
  {
    if shares != [] {
      var prefix, s := shares[..|shares| - 1], shares[|shares| - 1];
      var acc := Accumulate(prefix);
      AccumulateValue(prefix, t);
      AccumulateValue(prefix, s.0);
      PutGet(acc, s.0, Get(acc, s.0, 0.0) + s.1, t, 0.0);
    }
  }

  /** How many entries of `tasks` are `t`. */
  function Count(tasks: seq<Task>, t: Task): nat {
    if tasks == [] then 0
    else Count(tasks[..|tasks| - 1], t) + (if tasks[|tasks| - 1] == t then 1 else 0)
  }

  /** Within one hour, `t` receives one share per entry naming it. */
  lemma {:induction false} SpreadValue(tasks: seq<Task>, share: real, t: Task)
    ensures TotalOf(Spread(tasks, share), t) == Times(Count(tasks, t), share)
  {
    if tasks != [] {
      assert Spread(tasks, share)[..|tasks| - 1] == Spread(tasks[..|tasks| - 1], share);
      SpreadValue(tasks[..|tasks| - 1], share, t);
    }
  }

  /** The fair share of task `t` on a date: every hour gives `hourRatio`
      divided by its number of entries, once for each of its entries that
      names `t`. */
  function FairShare(day: Day, hourRatio: real, t: Task): real
    requires forall p :: p in day ==> p.1 != []
  {
    if day == [] then 0.0
    else
      var tasks := day[|day| - 1].1;
      assert day[|day| - 1] in day;
      FairShare(day[..|day| - 1], hourRatio, t) + HourPart(tasks, hourRatio, t)
  }

  /** What one hour gives `t`: `hourRatio / len(tasks)` for each entry `t`. */
  function HourPart(tasks: seq<Task>, hourRatio: real, t: Task): real
    requires tasks != []
  {
    Count(tasks, t) as real * (hourRatio / |tasks| as real)
  }

  lemma {:induction false} SharesValue(day: Day, hourRatio: real, t: Task)
    requires forall p :: p in day ==> p.1 != []
    ensures TotalOf(Shares(day, hourRatio), t) == FairShare(day, hourRatio, t)
  {
    if day != [] {
      var prefix, tasks := day[..|day| - 1], day[|day| - 1].1;
      assert day[|day| - 1] in day;
      var share := hourRatio / |tasks| as real;
      SharesValue(prefix, hourRatio, t);
      TotalOfAppend(Shares(prefix, hourRatio), Spread(tasks, share), t);
      HourValue(tasks, hourRatio, t);
    }
  }

  /** Within one hour, `t` receives its share of the hour once per entry. */
  lemma HourValue(tasks: seq<Task>, hourRatio: real, t: Task)
    requires tasks != []
    ensures TotalOf(Spread(tasks, hourRatio / |tasks| as real), t) == HourPart(tasks, hourRatio, t)
  {
    SpreadValue(tasks, hourRatio / |tasks| as real, t);
    TimesIsProduct(Count(tasks, t), hourRatio / |tasks| as real);
  }

  /** `day_summary[t]` once a date is processed is the fair share of `t`. */
  lemma DaySummaryValue(day: Day, hours: int, t: Task)
    requires SlotsFilled(day)
    ensures Get(DaySummary(day, hours), t, 0.0) == FairShare(day, hours as real / |day| as real, t)
  {
    var ratio := hours as real / |day| as real;
    AccumulateValue(Shares(day, ratio), t);
    SharesValue(day, ratio, t);
  }

  /** Every work carries the fair share of its task on its date. */
  lemma {:induction false} WorkHours(b: Buckets, hours: int, i: nat)
    requires WellFormed(b) && i < |Works(b, hours)|
    ensures var w := Works(b, hours)[i];
            var day := Get(b, w.date, []);
            SlotsFilled(day) && w.hours == FairShare(day, hours as real / |day| as real, w.task)
  {
    var prefix, last := b[..|b| - 1], b[|b| - 1];
    WorksLast(b, hours);
    assert b == prefix + [last];
    var early := Works(prefix, hours);
    var summary := DaySummary(last.1, hours);
    var w := Works(b, hours)[i];
    GetAppend(prefix, last, w.date, []);
    if i < |early| {
      WorkHours(prefix, hours, i);
      WorkDates(prefix, hours);
      assert w == early[i] && w in early;
    } else {
      DayWorkHours(last.0, last.1, hours, i - |early|);
    }
  }

  /** The works of one date carry the fair shares of their tasks. */
  lemma DayWorkHours(d: Date, day: Day, hours: int, k: nat)
    requires SlotsFilled(day) && k < |DayWorks(d, DaySummary(day, hours))|
    ensures var w := DayWorks(d, DaySummary(day, hours))[k];
            w.date == d && w.hours == FairShare(day, hours as real / |day| as real, w.task)
  {
    var summary := DaySummary(day, hours);
    AccumulateUnique(Shares(day, hours as real / |day| as real));
    GetAt(summary, k, 0.0);
    DaySummaryValue(day, hours, summary[k].0);
  }

  /** The hours of the works dated `d`. */
  function DateTotal(works: seq<Work>, d: Date): real {
    if works == [] then 0.0
    else
      var w := works[|works| - 1];
      DateTotal(works[..|works| - 1], d) + (if w.date == d then w.hours else 0.0)
  }

  lemma {:induction false} DateTotalAppend(a: seq<Work>, b: seq<Work>, d: Date)
    ensures DateTotal(a + b, d) == DateTotal(a, d) + DateTotal(b, d)
  {
    if b != [] {
      assert (a + b)[..|a + b| - 1] == a + b[..|b| - 1];
      DateTotalAppend(a, b[..|b| - 1], d);
    } else {
      assert a + b == a;
    }
  }

  lemma {:induction false} DayWorksTotal(cdate: Date, summary: Dict<Task, real>, d: Date)
    ensures DateTotal(DayWorks(cdate, summary), d) == if cdate == d then SumValues(summary) else 0.0
  {
    if summary != [] {
      var rest := summary[1..];
      assert DayWorks(cdate, summary) == [Work(summary[0].0, cdate, summary[0].1)] + DayWorks(cdate, rest);
      DateTotalAppend([Work(summary[0].0, cdate, summary[0].1)], DayWorks(cdate, rest), d);
      DayWorksTotal(cdate, rest, d);
      assert DateTotal([Work(summary[0].0, cdate, summary[0].1)], d) == if cdate == d then summary[0].1 else 0.0;
    }
  }

  /** Conservation: the works of a date that has buckets add up to the daily
      budget, and no work is dated on any other date. */
  lemma {:induction false} HoursConserved(b: Buckets, hours: int, d: Date)
    requires WellFormed(b)
    ensures DateTotal(Works(b, hours), d) == if d in Keys(b) then hours as real else 0.0
  {
    if b != [] {
      var prefix, last := b[..|b| - 1], b[|b| - 1];
      WorksLast(b, hours);
      HoursConserved(prefix, hours, d);
      var summary := DaySummary(last.1, hours);
      DateTotalAppend(Works(prefix, hours), DayWorks(last.0, summary), d);
      DayWorksTotal(last.0, summary, d);
      DaySummaryTotal(last.1, hours);
    }
  }

  // Every work has positive hours.

  lemma {:induction false} AccumulatePositive(shares: seq<(Task, real)>)
    requires forall s :: s in shares ==> s.1 > 0.0
    ensures forall p :: p in Accumulate(shares) ==> p.1 > 0.0
  {
    if shares != [] {
      var prefix, s := shares[..|shares| - 1], shares[|shares| - 1];
      var acc := Accumulate(prefix);
      assert s in shares;
      assert forall s' :: s' in prefix ==> s' in shares;
      AccumulatePositive(prefix);
      var old_ := Get(acc, s.0, 0.0);
      if s.0 in Keys(acc) {
        GetPresent(acc, s.0, 0.0);
        assert old_ > 0.0;
      } else {
        GetAbsent(acc, s.0, 0.0);
      }
      PutItems(acc, s.0, old_ + s.1);
      assert Accumulate(shares) == Put(acc, s.0, old_ + s.1);
    }
  }

  lemma {:induction false} SharesPositive(day: Day, hourRatio: real)
    requires forall p :: p in day ==> p.1 != []
    requires hourRatio > 0.0
    ensures forall s :: s in Shares(day, hourRatio) ==> s.1 > 0.0
  {
    if day != [] {
      assert day[|day| - 1] in day;
      SharesPositive(day[..|day| - 1], hourRatio);
    }
  }

  /** With a positive budget every work has positive hours. */
  lemma {:induction false} WorksPositive(b: Buckets, hours: int)
    requires WellFormed(b) && hours > 0
    ensures forall w :: w in Works(b, hours) ==> w.hours > 0.0
  {
    if b != [] {
      var last := b[|b| - 1];
      assert last in b;
      WorksPositive(b[..|b| - 1], hours);
      var ratio := hours as real / |last.1| as real;
      SharesPositive(last.1, ratio);
      AccumulatePositive(Shares(last.1, ratio));
      var summary := DaySummary(last.1, hours);
      forall w | w in DayWorks(last.0, summary)
        ensures w.hours > 0.0
      {
        var i :| 0 <= i < |summary| && DayWorks(last.0, summary)[i] == w;
        assert summary[i] in summary;
      }
    }
  }

  // One work per task and date, in first-seen order.

  /** The task names of a run of contributions. */
  function TaskNames(shares: seq<(Task, real)>): seq<Task> {
    seq(|shares|, i requires 0 <= i < |shares| => shares[i].0)
  }

  /** All entries of a date's hour buckets, in iteration order. */
  function DayTasks(day: Day): seq<Task> {
    if day == [] then [] else DayTasks(day[..|day| - 1]) + day[|day| - 1].1
  }

  /** The summary lists each task once, where it was first seen. */
  lemma {:induction false} AccumulateKeys(shares: seq<(Task, real)>)
    ensures Keys(Accumulate(shares)) == Dedup(TaskNames(shares))
  {
    if shares != [] {
      var prefix := shares[..|shares| - 1];
      var s := shares[|shares| - 1];
      var acc := Accumulate(prefix);
      AccumulateKeys(prefix);
      var names := TaskNames(shares);
      assert names[..|names| - 1] == TaskNames(prefix);
      var r := Dedup(TaskNames(prefix));
      assert Dedup(names) == if s.0 in r then r else r + [s.0];
      var v := Get(acc, s.0, 0.0) + s.1;
      PutKeys(acc, s.0, v);
      assert Accumulate(shares) == Put(acc, s.0, v);
    }
  }

  /** The summary is a dictionary: no task occurs twice. */
  lemma AccumulateUnique(shares: seq<(Task, real)>)
    ensures UniqueKeys(Accumulate(shares))
  {
    AccumulateKeys(shares);
    DedupItems(TaskNames(shares));
    DistinctKeys(Accumulate(shares));
  }

  lemma {:induction false} SharesTasks(day: Day, hourRatio: real)
    requires forall p :: p in day ==> p.1 != []
    ensures TaskNames(Shares(day, hourRatio)) == DayTasks(day)
  {
    if day != [] {
      assert day[|day| - 1] in day;
      SharesTasks(day[..|day| - 1], hourRatio);
    }
  }

  /** The tasks of the works dated `d`, in order. */
  function TasksOn(works: seq<Work>, d: Date): seq<Task> {
    if works == [] then []
    else
      var w := works[|works| - 1];
      TasksOn(works[..|works| - 1], d) + (if w.date == d then [w.task] else [])
  }

  lemma {:induction false} TasksOnAppend(a: seq<Work>, b: seq<Work>, d: Date)
    ensures TasksOn(a + b, d) == TasksOn(a, d) + TasksOn(b, d)
  {
    if b != [] {
      assert (a + b)[..|a + b| - 1] == a + b[..|b| - 1];
      TasksOnAppend(a, b[..|b| - 1], d);
    } else {
      assert a + b == a;
    }
  }

  lemma {:induction false} DayWorksTasks(cdate: Date, summary: Dict<Task, real>, d: Date)
    ensures TasksOn(DayWorks(cdate, summary), d) == if cdate == d then Keys(summary) else []
  {
    if summary != [] {
      var n := |summary| - 1;
      assert DayWorks(cdate, summary)[..n] == DayWorks(cdate, summary[..n]);
      DayWorksTasks(cdate, summary[..n], d);
      KeysAppend(summary[..n], summary[n]);
      assert summary[..n] + [summary[n]] == summary;
    }
  }

  /** The works of a date name each task of its buckets exactly once, in the
      order the tasks were first seen; a date without buckets has none. */
  lemma {:induction false} WorkTasksPerDate(b: Buckets, hours: int, d: Date)
    requires WellFormed(b)
    ensures TasksOn(Works(b, hours), d) == if d in Keys(b) then Dedup(DayTasks(Get(b, d, []))) else []
  {
    if b != [] {
      var prefix, last := b[..|b| - 1], b[|b| - 1];
      WorksLast(b, hours);
      assert b == prefix + [last];
      GetAppend(prefix, last, d, []);
      WorkTasksPerDate(prefix, hours, d);
      var summary := DaySummary(last.1, hours);
      var early, late := Works(prefix, hours), DayWorks(last.0, summary);
      TasksOnAppend(early, late, d);
      DayWorksTasks(last.0, summary, d);
      if last.0 == d {
        DaySummaryKeys(last.1, hours);
        assert TasksOn(early, d) == [];
        assert TasksOn(Works(b, hours), d) == [] + Keys(summary);
        assert d in Keys(b) && Get(b, d, []) == last.1;
      } else {
        assert TasksOn(Works(b, hours), d) == TasksOn(early, d) + [];
        assert d in Keys(b) <==> d in Keys(prefix);
      }
    } else {
      assert Keys(b) == [];
    }
  }

  /** The tasks of a date's summary, in the order first seen in its buckets. */
  lemma DaySummaryKeys(day: Day, hours: int)
    requires SlotsFilled(day)
    ensures Keys(DaySummary(day, hours)) == Dedup(DayTasks(day))
  {
    var ratio := hours as real / |day| as real;
    AccumulateKeys(Shares(day, ratio));
    SharesTasks(day, ratio);
  }

  /** `Works` of a non-empty dictionary of dates, split at its last date. */
  lemma WorksLast(b: Buckets, hours: int)
    requires WellFormed(b) && b != []
    ensures WellFormed(b[..|b| - 1]) && SlotsFilled(b[|b| - 1].1)
    ensures Works(b, hours) ==
            Works(b[..|b| - 1], hours) + DayWorks(b[|b| - 1].0, DaySummary(b[|b| - 1].1, hours))
    ensures Keys(b) == Keys(b[..|b| - 1]) + [b[|b| - 1].0]
    ensures b[|b| - 1].0 !in Keys(b[..|b| - 1])
  {
    var prefix, last := b[..|b| - 1], b[|b| - 1];
    assert last in b;
    assert b == prefix + [last];
    KeysAppend(prefix, last);
  }

  /** Every work is dated on a date that has buckets. */
  lemma {:induction false} WorkDates(b: Buckets, hours: int)
    requires WellFormed(b)
    ensures forall w :: w in Works(b, hours) ==> w.date in Keys(b)
  {
    if b != [] {
      WorksLast(b, hours);
      WorkDates(b[..|b| - 1], hours);
    }
  }

  /** The work at index `i` is listed among the tasks of its date right after
      those of the works before it. */
  lemma TasksOnAt(works: seq<Work>, d: Date, i: nat)
    requires i < |works| && works[i].date == d
    ensures |TasksOn(works[..i], d)| < |TasksOn(works, d)|
    ensures TasksOn(works, d)[|TasksOn(works[..i], d)|] == works[i].task
  {
    assert works == works[..i] + ([works[i]] + works[i + 1..]);
    TasksOnAppend(works[..i], [works[i]] + works[i + 1..], d);
    TasksOnAppend([works[i]], works[i + 1..], d);
    assert TasksOn([works[i]], d) == [works[i].task];
  }

  /** A later work of the same date is listed later. */
  lemma TasksOnLater(works: seq<Work>, d: Date, i: nat, j: nat)
    requires i < j < |works| && works[i].date == d
    ensures |TasksOn(works[..i], d)| < |TasksOn(works[..j], d)|
  {
    assert works[..j][..i] == works[..i];
    TasksOnAt(works[..j], d, i);
  }

  /** No two works share both task and date. */
  lemma OneWorkPerTaskAndDate(b: Buckets, hours: int)
    requires WellFormed(b)
    ensures var works := Works(b, hours);
            forall i, j :: 0 <= i < j < |works| ==>
              (works[i].task, works[i].date) != (works[j].task, works[j].date)
  {
    var works := Works(b, hours);
    forall i, j | 0 <= i < j < |works| && works[i].date == works[j].date
      ensures works[i].task != works[j].task
    {
      var d := works[i].date;
      var listed := TasksOn(works, d);
      WorkTasksPerDate(b, hours, d);
      DedupItems(DayTasks(Get(b, d, [])));
      assert Distinct(listed);
      TasksOnAt(works, d, i);
      TasksOnAt(works, d, j);
      TasksOnLater(works, d, i, j);
    }
  }

  /** The dates of a list of works, in order. */
  function WorkDateSeq(works: seq<Work>): seq<Date> {
    seq(|works|, i requires 0 <= i < |works| => works[i].date)
  }

  /** Works come out in the order their dates were first seen in the
      buckets, and every date with buckets has at least one work. */
  lemma {:induction false} WorkDateOrder(b: Buckets, hours: int)
    requires WellFormed(b)
    ensures Dedup(WorkDateSeq(Works(b, hours))) == Keys(b)
  {
    if b != [] {
      var prefix, last := b[..|b| - 1], b[|b| - 1];
      WorksLast(b, hours);
      WorkDateOrder(prefix, hours);
      var early := Works(prefix, hours);
      var late := DayWorks(last.0, DaySummary(last.1, hours));
      DayWorksNonEmpty(last.0, last.1, hours);
      DateAbsent(prefix, hours, last.0);
      RepeatItems(last.0, |late|);
      assert WorkDateSeq(early + late) == WorkDateSeq(early) + Repeat(last.0, |late|);
      DedupRun(WorkDateSeq(early), last.0, |late|);
    }
  }

  /** The works of a date are contiguous: works come out date by date. */
  lemma {:induction false} WorkDatesContiguous(b: Buckets, hours: int)
    requires WellFormed(b)
    ensures var ws := Works(b, hours);
            forall i, j, k :: 0 <= i < j < k < |ws| && ws[i].date == ws[k].date ==> ws[j].date == ws[i].date
  {
    if b != [] {
      var prefix, last := b[..|b| - 1], b[|b| - 1];
      WorksLast(b, hours);
      WorkDatesContiguous(prefix, hours);
      var early := Works(prefix, hours);
      var late := DayWorks(last.0, DaySummary(last.1, hours));
      var ws := Works(b, hours);
      DateAbsent(prefix, hours, last.0);
      assert forall m :: 0 <= m < |early| ==> ws[m] == early[m] && ws[m].date != last.0 by {
        forall m | 0 <= m < |early|
          ensures ws[m] == early[m] && ws[m].date != last.0
        {
          assert WorkDateSeq(early)[m] == early[m].date;
        }
      }
      assert forall m :: |early| <= m < |ws| ==> ws[m].date == last.0;
      forall i, j, k | 0 <= i < j < k < |ws| && ws[i].date == ws[k].date
        ensures ws[j].date == ws[i].date
      {
        if k >= |early| && i < |early| {
          assert false;
        }
      }
    }
  }

  /** A date without buckets dates no work. */
  lemma DateAbsent(b: Buckets, hours: int, d: Date)
    requires WellFormed(b) && d !in Keys(b)
    ensures d !in WorkDateSeq(Works(b, hours))
  {
    var works := Works(b, hours);
    WorkDates(b, hours);
    forall k | 0 <= k < |works|
      ensures WorkDateSeq(works)[k] != d
    {
      assert works[k] in works;
    }
  }

  /** A date with buckets gives at least one work. */
  lemma DayWorksNonEmpty(d: Date, day: Day, hours: int)
    requires SlotsFilled(day)
    ensures |DayWorks(d, DaySummary(day, hours))| >= 1
  {
    DaySummaryKeys(day, hours);
    DedupItems(DayTasks(day));
    assert day[0] in day;
    DayTasksHas(day, 0);
  }

  /** Each hour bucket's entries are among the date's tasks. */
  lemma {:induction false} DayTasksHas(day: Day, j: nat)
    requires j < |day| && day[j].1 != []
    ensures day[j].1[0] in DayTasks(day)
  {
    if j < |day| - 1 {
      DayTasksHas(day[..|day| - 1], j);
    }
  }
}
