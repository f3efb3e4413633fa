/** `collect_commits`: keep the commits of the accepted authors that are
    recent enough and name a task, and bucket each kept commit's task by the
    date and hour it was authored. */
module Collecting {
  import opened Wrappers
  import opened OrderedMaps
  import opened Calendar

  type Task = string

  /** A commit as the loop reads it: author email, authored date and hour of
      day, and message. */
  datatype Commit = Commit(email: string, date: Date, hour: int, message: string)

  /** One date's buckets: hour of day -> one task per kept commit. */
  type Day = Dict<int, seq<Task>>

  /** `CommitsType`: date -> hour of day -> tasks, in insertion order. */
  type Buckets = Dict<Date, Day>

  /** What a kept commit contributes: its date, hour and task. */
  datatype Entry = Entry(date: Date, hour: int, task: Task)

  /** `(today - date).days`. */
  function Age(today: Date, d: Date): int {
    Ordinal(today) - Ordinal(d)
  }

  /** The three filters of the loop body, in order; `None` is `continue`. */
  function Select(c: Commit, emails: seq<string>, rexTask: string -> Option<Task>, delta: int, today: Date): Option<Entry> {
    if c.email !in emails then None
    else if Age(today, c.date) > delta then None
    else match rexTask(c.message)
      case None => None
      case Some(task) => Some(Entry(c.date, c.hour, task))
  }

  /** The entries of the kept commits, in commit order. */
  function Selected(commits: seq<Commit>, emails: seq<string>, rexTask: string -> Option<Task>, delta: int, today: Date): seq<Entry> {
    if commits == [] then []
    else
      var kept := Selected(commits[..|commits| - 1], emails, rexTask, delta, today);
      match Select(commits[|commits| - 1], emails, rexTask, delta, today)
      case None => kept
      case Some(e) => kept + [e]
  }

  /** `commits[cdate][chour].append(task)` on nested default dictionaries. */
  function AppendTask(b: Buckets, e: Entry): Buckets {
    var day := Get(b, e.date, []);
    Put(b, e.date, Put(day, e.hour, Get(day, e.hour, []) + [e.task]))
  }

  /** `commits[date][hour]`, empty when never written. */
  function Tasks(b: Buckets, d: Date, hour: int): seq<Task> {
    Get(Get(b, d, []), hour, [])
  }

  /** Every date has an hour, every hour a task, and no key repeats. */
  predicate WellFormed(b: Buckets) {
    UniqueKeys(b) && forall p :: p in b ==> SlotsFilled(p.1)
  }

  predicate SlotsFilled(day: Day) {
    |day| > 0 && UniqueKeys(day) && forall p :: p in day ==> p.1 != []
  }

  /** The buckets built from entries one append at a time. */
  function Bucketize(entries: seq<Entry>): (b: Buckets)
    ensures WellFormed(b)
  {
    if entries == [] then []
    else
      var b := Bucketize(entries[..|entries| - 1]);
      AppendTaskWellFormed(b, entries[|entries| - 1]);
      AppendTask(b, entries[|entries| - 1])
  }

  /** What `collect_commits` returns. */
  function Collect(commits: seq<Commit>, emails: seq<string>, rexTask: string -> Option<Task>, delta: int, today: Date): Buckets {
    Bucketize(Selected(commits, emails, rexTask, delta, today))
  }

  /** The loop of `collect_commits`. */
  method CollectCommits(commits: seq<Commit>, emails: seq<string>, rexTask: string -> Option<Task>, delta: int, today: Date)
    returns (b: Buckets)
    ensures b == Collect(commits, emails, rexTask, delta, today)
    ensures WellFormed(b)
  {
    b := [];
    for i := 0 to |commits|
      invariant b == Bucketize(Selected(commits[..i], emails, rexTask, delta, today))
    {
      assert commits[..i + 1][..i] == commits[..i];
      var commit := commits[i];
      if commit.email !in emails {
        continue;
      }
      if Ordinal(today) - Ordinal(commit.date) > delta {
        continue;
      }
      var match_ := rexTask(commit.message);
      if match_.None? {
        continue;
      }
      var task := match_.value;
      var cdate, chour := commit.date, commit.hour;
      var day := Get(b, cdate, []);
      b := Put(b, cdate, Put(day, chour, Get(day, chour, []) + [task]));
    }
    assert commits[..|commits|] == commits;
  }

  /** Appending a task keeps the buckets well formed. */
  lemma AppendTaskWellFormed(b: Buckets, e: Entry)
    requires WellFormed(b)
    ensures WellFormed(AppendTask(b, e))
  {
    var day := Get(b, e.date, []);
    if e.date in Keys(b) {
      GetPresent(b, e.date, []);
    } else {
      GetAbsent(b, e.date, []);
    }
    assert UniqueKeys(day);
    var day' := Put(day, e.hour, Get(day, e.hour, []) + [e.task]);
    PutUnique(day, e.hour, Get(day, e.hour, []) + [e.task]);
    PutKeys(day, e.hour, Get(day, e.hour, []) + [e.task]);
    PutItems(day, e.hour, Get(day, e.hour, []) + [e.task]);
    assert SlotsFilled(day') by {
      assert e.hour in Keys(day');
    }
    PutUnique(b, e.date, day');
    PutItems(b, e.date, day');
  }

  /** The tasks a list of entries puts in one (date, hour) bucket, in order. */
  function TasksAt(entries: seq<Entry>, d: Date, hour: int): seq<Task> {
    if entries == [] then []
    else
      var e := entries[|entries| - 1];
      TasksAt(entries[..|entries| - 1], d, hour) + (if e.date == d && e.hour == hour then [e.task] else [])
  }

  /** Each bucket holds exactly the tasks of the entries for its date and
      hour, in entry order. */
  lemma {:induction false} BucketContents(entries: seq<Entry>, d: Date, hour: int)
    ensures Tasks(Bucketize(entries), d, hour) == TasksAt(entries, d, hour)
  {
    if entries != [] {
      var b := Bucketize(entries[..|entries| - 1]);
      var e := entries[|entries| - 1];
      BucketContents(entries[..|entries| - 1], d, hour);
      AppendedSlot(b, e, d, hour);
    }
  }

  /** One append adds its task to its own bucket and touches no other. */
  lemma AppendedSlot(b: Buckets, e: Entry, d: Date, hour: int)
    ensures Tasks(AppendTask(b, e), d, hour) ==
            Tasks(b, d, hour) + (if e.date == d && e.hour == hour then [e.task] else [])
  {
    var day := Get(b, e.date, []);
    var day' := Put(day, e.hour, Get(day, e.hour, []) + [e.task]);
    PutGet(b, e.date, day', d, []);
    PutGet(day, e.hour, Get(day, e.hour, []) + [e.task], hour, []);
  }

  /** The number of tasks in all buckets. */
  function TaskCount(b: Buckets): int {
    SumBy(b, DayTaskCount)
  }

  function DayTaskCount(day: Day): int {
    SumBy(day, Length)
  }

  /** Every entry adds exactly one task to the buckets. */
  lemma {:induction false} TaskCountIsEntryCount(entries: seq<Entry>)
    ensures TaskCount(Bucketize(entries)) == |entries|
  {
    if entries != [] {
      var b := Bucketize(entries[..|entries| - 1]);
      TaskCountIsEntryCount(entries[..|entries| - 1]);
      AppendedCount(b, entries[|entries| - 1]);
    }
  }

  lemma AppendedCount(b: Buckets, e: Entry)
    ensures TaskCount(AppendTask(b, e)) == TaskCount(b) + 1
  {
    var day := Get(b, e.date, []);
    var tasks := Get(day, e.hour, []);
    var day' := Put(day, e.hour, tasks + [e.task]);
    assert Length<Task>([]) == 0 && DayTaskCount([]) == 0;
    SumByPut(day, e.hour, tasks + [e.task], [], Length);
    SumByPut(b, e.date, day', [], DayTaskCount);
  }

  /** The dates of a list of entries, in order. */
  function Dates(entries: seq<Entry>): seq<Date> {
    seq(|entries|, i requires 0 <= i < |entries| => entries[i].date)
  }

  /** The hours of the entries dated `d`, in order. */
  function EntryHours(entries: seq<Entry>, d: Date): seq<int> {
    if entries == [] then []
    else
      var e := entries[|entries| - 1];
      EntryHours(entries[..|entries| - 1], d) + (if e.date == d then [e.hour] else [])
  }

  /** Dates iterate in the order they were first seen. */
  lemma {:induction false} DateOrder(entries: seq<Entry>)
    ensures Keys(Bucketize(entries)) == Dedup(Dates(entries))
  {
    if entries != [] {
      var prefix := entries[..|entries| - 1];
      assert Dates(entries)[..|entries| - 1] == Dates(prefix);
      DateOrder(prefix);
      var b := Bucketize(prefix);
      var e := entries[|entries| - 1];
      var day := Get(b, e.date, []);
      PutKeys(b, e.date, Put(day, e.hour, Get(day, e.hour, []) + [e.task]));
    }
  }

  /** Within a date, hours iterate in the order they were first seen. */
  lemma {:induction false} HourOrder(entries: seq<Entry>, d: Date)
    ensures Keys(Get(Bucketize(entries), d, [])) == Dedup(EntryHours(entries, d))
  {
    if entries != [] {
      var prefix := entries[..|entries| - 1];
      var e := entries[|entries| - 1];
      var b := Bucketize(prefix);
      HourOrder(prefix, d);
      var day := Get(b, e.date, []);
      var day' := Put(day, e.hour, Get(day, e.hour, []) + [e.task]);
      PutGet(b, e.date, day', d, []);
      PutKeys(day, e.hour, Get(day, e.hour, []) + [e.task]);
      var hs := EntryHours(entries, d);
      if e.date == d {
        assert hs[..|hs| - 1] == EntryHours(prefix, d);
      } else {
        assert hs == EntryHours(prefix, d);
      }
    }
  }

  /** A commit that is skipped leaves the buckets as they were. */
  lemma SkippedCommit(commits: seq<Commit>, c: Commit, emails: seq<string>, rexTask: string -> Option<Task>, delta: int, today: Date)
    requires c.email !in emails || Age(today, c.date) > delta || rexTask(c.message).None?
    ensures Collect(commits + [c], emails, rexTask, delta, today) == Collect(commits, emails, rexTask, delta, today)
  {
    assert (commits + [c])[..|commits|] == commits;
  }

  /** A commit that passes the filters appends its task to the bucket of its
      date and hour, and to no other bucket. */
  lemma KeptCommit(commits: seq<Commit>, c: Commit, emails: seq<string>, rexTask: string -> Option<Task>, delta: int, today: Date)
    requires c.email in emails && Age(today, c.date) <= delta && rexTask(c.message).Some?
    ensures var before := Collect(commits, emails, rexTask, delta, today);
            var after := Collect(commits + [c], emails, rexTask, delta, today);
            Tasks(after, c.date, c.hour) == Tasks(before, c.date, c.hour) + [rexTask(c.message).value] &&
            TaskCount(after) == TaskCount(before) + 1
    ensures forall d, hour :: (d, hour) != (c.date, c.hour) ==>
            Tasks(Collect(commits + [c], emails, rexTask, delta, today), d, hour) ==
            Tasks(Collect(commits, emails, rexTask, delta, today), d, hour)
  {
    assert (commits + [c])[..|commits|] == commits;
    var b := Collect(commits, emails, rexTask, delta, today);
    var e := Entry(c.date, c.hour, rexTask(c.message).value);
    assert Collect(commits + [c], emails, rexTask, delta, today) == AppendTask(b, e);
    AppendedSlot(b, e, c.date, c.hour);
    AppendedCount(b, e);
    forall d, hour | (d, hour) != (c.date, c.hour)
      ensures Tasks(AppendTask(b, e), d, hour) == Tasks(b, d, hour)
    {
      AppendedSlot(b, e, d, hour);
    }
  }

  /** The recency window is inclusive: a commit exactly `delta` days old is
      kept, one a day older is dropped, and, for a window that is not
      negative, commits dated after `today` are kept. */
  lemma RecencyBoundary(commits: seq<Commit>, c: Commit, emails: seq<string>, rexTask: string -> Option<Task>, delta: int, today: Date)
    requires c.email in emails && rexTask(c.message).Some?
    ensures Age(today, c.date) == delta ==>
            TaskCount(Collect(commits + [c], emails, rexTask, delta, today)) ==
            TaskCount(Collect(commits, emails, rexTask, delta, today)) + 1
    ensures Age(today, c.date) < 0 <= delta ==>
            TaskCount(Collect(commits + [c], emails, rexTask, delta, today)) ==
            TaskCount(Collect(commits, emails, rexTask, delta, today)) + 1
    ensures Age(today, c.date) == delta + 1 ==>
            Collect(commits + [c], emails, rexTask, delta, today) == Collect(commits, emails, rexTask, delta, today)
  {
    var before := Collect(commits, emails, rexTask, delta, today);
    var after := Collect(commits + [c], emails, rexTask, delta, today);
    if Age(today, c.date) <= delta {
      KeptCommit(commits, c, emails, rexTask, delta, today);
      assert TaskCount(after) == TaskCount(before) + 1;
    } else {
      SkippedCommit(commits, c, emails, rexTask, delta, today);
      assert after == before;
    }
  }

  /** There are as many tasks in the buckets as kept commits, and each
      bucket lists the tasks of its kept commits in commit order. */
  lemma CollectContents(commits: seq<Commit>, emails: seq<string>, rexTask: string -> Option<Task>, delta: int, today: Date, d: Date, hour: int)
    ensures var entries := Selected(commits, emails, rexTask, delta, today);
            var b := Collect(commits, emails, rexTask, delta, today);
            TaskCount(b) == |entries| &&
            Tasks(b, d, hour) == TasksAt(entries, d, hour) &&
            Keys(b) == Dedup(Dates(entries)) &&
            Keys(Get(b, d, [])) == Dedup(EntryHours(entries, d))
  {
    var entries := Selected(commits, emails, rexTask, delta, today);
    TaskCountIsEntryCount(entries);
    BucketContents(entries, d, hour);
    DateOrder(entries);
    HourOrder(entries, d);
  }
}
