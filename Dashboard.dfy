/**
 * The staff dashboard: how many bugs and fixes fall in a time window ending
 * now, and the bug list ordered newest first. Timestamps are integer seconds
 * and a calendar day is a day of UTC.
 */
module Dashboard {
  import opened Wrappers
  import opened Seqs
  import opened Models

  const SecondsPerDay: int := 86400

  /** The calendar day a timestamp falls on (division rounds down, also before 1970). */
  function Day(ts: int): int {
    ts / SecondsPerDay
  }

  /**
   * Whether a record stamped `ts` is counted under `filter`: the same calendar
   * day as now for "day", at most 7, 30 or 365 days back (inclusive) for
   * "week", "month" and "year", and always for no filter or any other value.
   */
  predicate InWindow(filter: Option<string>, now: int, ts: int) {
    if filter == Some("day") then Day(ts) == Day(now)
    else if filter == Some("week") then ts >= now - 7 * SecondsPerDay
    else if filter == Some("month") then ts >= now - 30 * SecondsPerDay
    else if filter == Some("year") then ts >= now - 365 * SecondsPerDay
    else true
  }

  predicate KnownFilter(filter: Option<string>) {
    filter in {Some("day"), Some("week"), Some("month"), Some("year")}
  }

  function BugInWindow(filter: Option<string>, now: int): Bug -> bool {
    (b: Bug) => InWindow(filter, now, b.createdAt)
  }

  function FixInWindow(filter: Option<string>, now: int): Fix -> bool {
    (f: Fix) => InWindow(filter, now, f.fixedAt)
  }

  /** What the dashboard shows. */
  datatype Counts = Counts(bugCount: nat, fixCount: nat, currentFilter: string)

  /** `dashboard`; `filter` is the `date_filter` query parameter, `None` when absent. */
  function DashboardCounts(bugs: seq<Bug>, fixes: seq<Fix>, filter: Option<string>, now: int): (r: Counts)
    ensures r.bugCount <= |bugs| && r.fixCount <= |fixes|
    ensures r.currentFilter == if filter.Some? then filter.value else ""
  {
    Counts(|Filter(bugs, BugInWindow(filter, now))|, |Filter(fixes, FixInWindow(filter, now))|, filter.GetOr(""))
  }

  /** Without a filter, or with a value other than day/week/month/year, everything is counted. */
  lemma UnfilteredCountsAll(bugs: seq<Bug>, fixes: seq<Fix>, filter: Option<string>, now: int)
    requires !KnownFilter(filter)
    ensures DashboardCounts(bugs, fixes, filter, now).bugCount == |bugs|
    ensures DashboardCounts(bugs, fixes, filter, now).fixCount == |fixes|
  {
    FilterKeepsAll(bugs, BugInWindow(filter, now));
    FilterKeepsAll(fixes, FixInWindow(filter, now));
  }

  /** A record stamped earlier today is less than a day old. */
  lemma SameDayIsRecent(ts: int, now: int)
    requires Day(ts) == Day(now)
    ensures now - SecondsPerDay < ts
  {
  }

  /** The windows nest: today, then the last week, month and year. */
  lemma WindowsNest(now: int, ts: int)
    ensures InWindow(Some("day"), now, ts) ==> InWindow(Some("week"), now, ts)
    ensures InWindow(Some("week"), now, ts) ==> InWindow(Some("month"), now, ts)
    ensures InWindow(Some("month"), now, ts) ==> InWindow(Some("year"), now, ts)
    ensures InWindow(Some("year"), now, ts) ==> InWindow(None, now, ts)
  {
    if Day(ts) == Day(now) {
      SameDayIsRecent(ts, now);
    }
  }

  /** So the counts grow with the window: day <= week <= month <= year <= all. */
  lemma CountsGrowWithWindow(bugs: seq<Bug>, fixes: seq<Fix>, now: int)
    ensures var d, w := DashboardCounts(bugs, fixes, Some("day"), now), DashboardCounts(bugs, fixes, Some("week"), now);
      var m, y := DashboardCounts(bugs, fixes, Some("month"), now), DashboardCounts(bugs, fixes, Some("year"), now);
      && d.bugCount <= w.bugCount <= m.bugCount <= y.bugCount <= |bugs|
      && d.fixCount <= w.fixCount <= m.fixCount <= y.fixCount <= |fixes|
  {
    forall ts: int ensures InWindow(Some("day"), now, ts) ==> InWindow(Some("week"), now, ts) {
      WindowsNest(now, ts);
    }
    FilterMonotone(bugs, BugInWindow(Some("day"), now), BugInWindow(Some("week"), now));
    FilterMonotone(bugs, BugInWindow(Some("week"), now), BugInWindow(Some("month"), now));
    FilterMonotone(bugs, BugInWindow(Some("month"), now), BugInWindow(Some("year"), now));
    FilterMonotone(fixes, FixInWindow(Some("day"), now), FixInWindow(Some("week"), now));
    FilterMonotone(fixes, FixInWindow(Some("week"), now), FixInWindow(Some("month"), now));
    FilterMonotone(fixes, FixInWindow(Some("month"), now), FixInWindow(Some("year"), now));
  }

  /** Under "day" a bug is counted exactly when it was created on today's date. */
  lemma DayCountsToday(bugs: seq<Bug>, now: int)
    ensures forall i :: 0 <= i < |bugs| ==>
      (bugs[i] in Filter(bugs, BugInWindow(Some("day"), now)) <==> Day(bugs[i].createdAt) == Day(now))
  {
  }

  /**
   * Under "week", "month" and "year" a bug or a fix is counted exactly when its
   * timestamp is at most 7, 30 or 365 days before now.
   */
  lemma RollingWindowsCount(bugs: seq<Bug>, fixes: seq<Fix>, now: int, filter: string, days: int)
    requires (filter, days) in {("week", 7), ("month", 30), ("year", 365)}
    ensures forall i :: 0 <= i < |bugs| ==>
      (bugs[i] in Filter(bugs, BugInWindow(Some(filter), now)) <==> bugs[i].createdAt >= now - days * SecondsPerDay)
    ensures forall i :: 0 <= i < |fixes| ==>
      (fixes[i] in Filter(fixes, FixInWindow(Some(filter), now)) <==> fixes[i].fixedAt >= now - days * SecondsPerDay)
  {
  }

  // ---------------------------------------------------------------- bug_list

  /** Each bug was created no earlier than every bug after it. */
  ghost predicate NewestFirst(s: seq<Bug>) {
    forall i, j :: 0 <= i < j < |s| ==> s[i].createdAt >= s[j].createdAt
  }

  /** Places `b` before the first bug of `s` created no later than it. */
  function InsertNewestFirst(b: Bug, s: seq<Bug>): (r: seq<Bug>)
    ensures |r| == |s| + 1
    decreases |s|
  {
    if s == [] || b.createdAt >= s[0].createdAt then [b] + s
    else [s[0]] + InsertNewestFirst(b, s[1..])
  }

  lemma {:induction false} InsertPermutes(b: Bug, s: seq<Bug>)
    ensures multiset(InsertNewestFirst(b, s)) == multiset(s) + multiset{b}
    decreases |s|
  {
    if s == [] || b.createdAt >= s[0].createdAt {
    } else {
      InsertPermutes(b, s[1..]);
      assert s == [s[0]] + s[1..];
    }
  }

  lemma {:induction false} InsertKeepsOrder(b: Bug, s: seq<Bug>)
    requires NewestFirst(s)
    ensures NewestFirst(InsertNewestFirst(b, s))
    decreases |s|
  {
    if s == [] || b.createdAt >= s[0].createdAt {
    } else {
      var rest := InsertNewestFirst(b, s[1..]);
      InsertKeepsOrder(b, s[1..]);
      InsertPermutes(b, s[1..]);
      forall k | 0 <= k < |rest| ensures s[0].createdAt >= rest[k].createdAt {
        assert rest[k] in multiset(rest);
        if rest[k] != b {
          assert rest[k] in multiset(s[1..]);
          var j :| 0 <= j < |s[1..]| && s[1..][j] == rest[k];
          assert s[j + 1] == rest[k];
        }
      }
    }
  }

  /** `Bug.objects.all().order_by('-created_at')`: the same bugs, newest first. */
  function BugList(bugs: seq<Bug>): (r: seq<Bug>)
    ensures NewestFirst(r)
    ensures multiset(r) == multiset(bugs)
    decreases |bugs|
  {
    if bugs == [] then []
    else
      assert bugs == [bugs[0]] + bugs[1..];
      InsertPermutes(bugs[0], BugList(bugs[1..]));
      InsertKeepsOrder(bugs[0], BugList(bugs[1..]));
      InsertNewestFirst(bugs[0], BugList(bugs[1..]))
  }
}
