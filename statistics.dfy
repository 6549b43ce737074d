/**
 * The statistics engine (RoofQuoter/ActivityStatistics.swift): totals and
 * averages of a tracking field, closed-interval date filters with their
 * today / this-week / this-month wrappers, grouping by activity-type name,
 * and the current day streak.
 *
 * Time is an integer number of seconds. The calendar is the fixed function
 * `DayOf` (whole days of `SecondsPerDay` seconds); "today" and the week and
 * month bounds, which the source reads from the clock and the current
 * calendar, are parameters.
 */
module Statistics {
  import opened Wrappers
  import opened TrackingFields
  import opened Records

  const SecondsPerDay: int := 86400

  /** The calendar day of a timestamp (`startOfDay`, as a day number). */
  function DayOf(t: int): int {
    t / SecondsPerDay
  }

  /** The first second of day `d`. */
  function DayStart(d: int): int {
    d * SecondsPerDay
  }

  /** A timestamp lies in day `d` exactly when it is in `[DayStart(d), DayStart(d + 1))`. */
  lemma DayOfBounds(t: int, d: int)
    ensures DayOf(t) == d <==> DayStart(d) <= t < DayStart(d + 1)
  {
    var q, r := t / SecondsPerDay, t % SecondsPerDay;
    assert t == q * SecondsPerDay + r && 0 <= r < SecondsPerDay;
    if q < d {
      assert q * SecondsPerDay <= (d - 1) * SecondsPerDay;
    } else if q > d {
      assert q * SecondsPerDay >= (d + 1) * SecondsPerDay;
    }
  }

  // ---------------------------------------------------------------------------
  // total and average
  // ---------------------------------------------------------------------------

  /**
   * `total(for:field:)`: the loop that adds each log's value of `field`
   * (0 when absent; nothing for notes).
   */
  method Total(logs: seq<ActivityLog>, field: TrackingField) returns (sum: int)
    ensures sum == FieldSum(logs, field)
  {
    sum := 0;
    for i := 0 to |logs|
      invariant sum == FieldSum(logs[..i], field)
    {
      assert logs[..i + 1][..i] == logs[..i];
      var log := logs[i];
      match field
      case Reps => sum := sum + log.reps.GetOr(0);
      case Minutes => sum := sum + log.minutes.GetOr(0);
      case Count => sum := sum + log.count.GetOr(0);
      case Notes =>
    }
    assert logs[..|logs|] == logs;
  }

  /** `average(for:field:)`, over the reals: 0 for no logs, else the total per log. */
  function Average(logs: seq<ActivityLog>, field: TrackingField): (r: real)
    reads logs
    ensures |logs| == 0 ==> r == 0.0
    ensures |logs| > 0 ==> r * (|logs| as real) == FieldSum(logs, field) as real
  {
    if |logs| == 0 then 0.0
    else FieldSum(logs, field) as real / |logs| as real
  }

  /** The average of the notes field is 0 whatever the logs hold. */
  lemma AverageOfNotesIsZero(logs: seq<ActivityLog>)
    ensures Average(logs, Notes) == 0.0
  {
    FieldSumNotesIsZero(logs);
  }

  // ---------------------------------------------------------------------------
  // Date-range filters
  // ---------------------------------------------------------------------------

  predicate InRange(log: ActivityLog, start: int, end: int)
    reads log
  {
    start <= log.timestamp <= end
  }

  /** `logs(_:between:and:)`: the logs whose timestamp lies in the closed interval `[start, end]`. */
  function LogsBetween(logs: seq<ActivityLog>, start: int, end: int): (r: seq<ActivityLog>)
    reads logs
    ensures |r| <= |logs|
    ensures forall l :: l in r ==> l in logs && InRange(l, start, end)
    ensures forall l :: l in logs && InRange(l, start, end) ==> l in r
  {
    if |logs| == 0 then []
    else (if InRange(logs[0], start, end) then [logs[0]] else []) + LogsBetween(logs[1..], start, end)
  }

  /** The filter distributes over concatenation, so it keeps the input order. */
  lemma {:induction false} LogsBetweenAppend(a: seq<ActivityLog>, b: seq<ActivityLog>, start: int, end: int)
    ensures LogsBetween(a + b, start, end) == LogsBetween(a, start, end) + LogsBetween(b, start, end)
  {
    if |a| == 0 {
      assert a + b == b;
    } else {
      assert (a + b)[0] == a[0];
      assert (a + b)[1..] == a[1..] + b;
      LogsBetweenAppend(a[1..], b, start, end);
    }
  }

  /** A single log is kept exactly when it lies in the interval; both ends count. */
  lemma LogsBetweenSingle(log: ActivityLog, start: int, end: int)
    ensures LogsBetween([log], start, end) == if start <= log.timestamp <= end then [log] else []
    ensures LogsBetween([log], start, start) == [log] <==> log.timestamp == start
  {
    assert [log][1..] == [];
  }

  /** The filter keeps every occurrence of an in-range log and none of an out-of-range one. */
  lemma {:induction false} LogsBetweenMultiplicity(logs: seq<ActivityLog>, start: int, end: int, x: ActivityLog)
    ensures multiset(LogsBetween(logs, start, end))[x]
         == if x in logs && InRange(x, start, end) then multiset(logs)[x] else 0
  {
    if |logs| > 0 {
      assert logs == [logs[0]] + logs[1..];
      LogsBetweenMultiplicity(logs[1..], start, end, x);
    }
  }

  /**
   * `logsToday`: the closed interval from the start of `today` to the start
   * of the next day, so a log stamped exactly at the next midnight is kept.
   */
  function LogsToday(logs: seq<ActivityLog>, today: int): (r: seq<ActivityLog>)
    reads logs
    ensures |r| <= |logs|
    ensures forall l :: l in r ==> l in logs && DayStart(today) <= l.timestamp <= DayStart(today + 1)
    ensures forall l :: l in logs && DayStart(today) <= l.timestamp <= DayStart(today + 1) ==> l in r
  {
    LogsBetween(logs, DayStart(today), DayStart(today + 1))
  }

  /**
   * `logsThisWeek` and `logsThisMonth`: the logs from the start of the current
   * week (or month) to the start of the next one, both included. The two
   * bounds are the calendar's answers; when either is missing nothing is
   * returned.
   */
  function LogsInPeriod(logs: seq<ActivityLog>, periodStart: Option<int>, nextPeriodStart: Option<int>): (r: seq<ActivityLog>)
    reads logs
    ensures periodStart.None? || nextPeriodStart.None? ==> r == []
  {
    if periodStart.Some? && nextPeriodStart.Some? then LogsBetween(logs, periodStart.value, nextPeriodStart.value)
    else []
  }

  /** Today's logs are those of calendar day `today` plus any stamped exactly at the next midnight. */
  lemma LogsTodayByDay(logs: seq<ActivityLog>, today: int, l: ActivityLog)
    requires l in logs
    ensures l in LogsToday(logs, today) <==> DayOf(l.timestamp) == today || l.timestamp == DayStart(today + 1)
  {
    DayOfBounds(l.timestamp, today);
  }

  /**
   * The week and month filters are closed at both ends: a log is kept exactly
   * when it lies from the period's start up to and including the next
   * period's start.
   */
  lemma PeriodFiltersIncludeNextBoundary(logs: seq<ActivityLog>, start: int, next: int, l: ActivityLog)
    requires l in logs
    ensures l in LogsInPeriod(logs, Some(start), Some(next)) <==> start <= l.timestamp <= next
  {
  }

  // ---------------------------------------------------------------------------
  // Grouping by activity type
  // ---------------------------------------------------------------------------

  /** The grouping key: the type's name, or "Unknown" for a log without a type. */
  function GroupKey(log: ActivityLog): string
    reads log, log.activityType
  {
    if log.activityType == null then "Unknown" else log.activityType.name
  }

  /** The activity types the logs refer to (what the grouping reads besides the logs). */
  function TypesOf(logs: seq<ActivityLog>): set<ActivityType?>
    reads logs
  {
    set l | l in logs :: l.activityType
  }

  /** The keys `GroupByActivityType` produces. */
  function GroupKeys(logs: seq<ActivityLog>): set<string>
    reads logs, TypesOf(logs)
  {
    set l | l in logs :: GroupKey(l)
  }

  /** The logs with key `key`, in input order. */
  function LogsWithKey(logs: seq<ActivityLog>, key: string): (r: seq<ActivityLog>)
    reads logs, TypesOf(logs)
    ensures |r| <= |logs|
  {
    if |logs| == 0 then []
    else
      var last := logs[|logs| - 1];
      assert TypesOf(logs[..|logs| - 1]) <= TypesOf(logs);
      LogsWithKey(logs[..|logs| - 1], key) + (if GroupKey(last) == key then [last] else [])
  }

  /**
   * `groupByActivityType`: the loop that appends each log to the bucket of
   * its key. Every key comes from some log, and each bucket holds exactly the
   * logs with that key, in input order.
   */
  method GroupByActivityType(logs: seq<ActivityLog>) returns (grouped: map<string, seq<ActivityLog>>)
    ensures grouped.Keys == GroupKeys(logs)
    ensures forall key :: key in grouped ==> grouped[key] == LogsWithKey(logs, key)
  {
    grouped := map[];
    for i := 0 to |logs|
      invariant grouped.Keys == GroupKeys(logs[..i])
      invariant forall key :: key in grouped ==> grouped[key] == LogsWithKey(logs[..i], key)
    {
      var log := logs[i];
      var typeName := if log.activityType == null then "Unknown" else log.activityType.name;
      var bucket := if typeName in grouped then grouped[typeName] else [];
      GroupInsert(grouped, logs, i, typeName, bucket);
      grouped := grouped[typeName := bucket + [log]];
    }
    assert logs[..|logs|] == logs;
  }

  /** One step of the grouping loop keeps its invariant. */
  lemma GroupInsert(grouped: map<string, seq<ActivityLog>>, logs: seq<ActivityLog>, i: nat,
                    typeName: string, bucket: seq<ActivityLog>)
    requires i < |logs| && typeName == GroupKey(logs[i])
    requires grouped.Keys == GroupKeys(logs[..i])
    requires forall key :: key in grouped ==> grouped[key] == LogsWithKey(logs[..i], key)
    requires bucket == if typeName in grouped then grouped[typeName] else []
    ensures var g := grouped[typeName := bucket + [logs[i]]];
            && g.Keys == GroupKeys(logs[..i + 1])
            && forall key :: key in g ==> g[key] == LogsWithKey(logs[..i + 1], key)
  {
    assert logs[..i + 1] == logs[..i] + [logs[i]];
    GroupAppend(grouped, logs[..i], logs[i], logs[..i + 1], typeName, bucket);
  }

  lemma GroupAppend(grouped: map<string, seq<ActivityLog>>, prefix: seq<ActivityLog>, x: ActivityLog,
                    next: seq<ActivityLog>, typeName: string, bucket: seq<ActivityLog>)
    requires next == prefix + [x] && typeName == GroupKey(x)
    requires grouped.Keys == GroupKeys(prefix)
    requires forall key :: key in grouped ==> grouped[key] == LogsWithKey(prefix, key)
    requires bucket == if typeName in grouped then grouped[typeName] else []
    ensures var g := grouped[typeName := bucket + [x]];
            && g.Keys == GroupKeys(next)
            && forall key :: key in g ==> g[key] == LogsWithKey(next, key)
  {
    GroupKeysStep(prefix, x);
    if typeName !in grouped {
      NoLogsWithAbsentKey(prefix, typeName);
    }
    assert bucket == LogsWithKey(prefix, typeName);
    GroupBuckets(grouped, prefix, x, typeName);
  }

  lemma GroupBuckets(grouped: map<string, seq<ActivityLog>>, prefix: seq<ActivityLog>, x: ActivityLog, typeName: string)
    requires typeName == GroupKey(x)
    requires forall key :: key in grouped ==> grouped[key] == LogsWithKey(prefix, key)
    ensures var g := grouped[typeName := LogsWithKey(prefix, typeName) + [x]];
            forall key :: key in g ==> g[key] == LogsWithKey(prefix + [x], key)
  {
    var g := grouped[typeName := LogsWithKey(prefix, typeName) + [x]];
    forall key | key in g
      ensures g[key] == LogsWithKey(prefix + [x], key)
    {
      LogsWithKeyStep(prefix, x, key);
    }
  }

  /** Appending one log adds its key. */
  lemma GroupKeysStep(init: seq<ActivityLog>, x: ActivityLog)
    ensures GroupKeys(init + [x]) == GroupKeys(init) + {GroupKey(x)}
  {
    var logs := init + [x];
    assert forall l :: l in logs <==> l in init || l == x;
  }

  /** Appending one log extends exactly the bucket of its own key. */
  lemma LogsWithKeyStep(init: seq<ActivityLog>, x: ActivityLog, key: string)
    ensures LogsWithKey(init + [x], key) == LogsWithKey(init, key) + (if GroupKey(x) == key then [x] else [])
  {
    var logs := init + [x];
    assert logs[..|logs| - 1] == init && logs[|logs| - 1] == x;
  }

  lemma {:induction false} NoLogsWithAbsentKey(logs: seq<ActivityLog>, key: string)
    requires key !in GroupKeys(logs)
    ensures LogsWithKey(logs, key) == []
  {
    if |logs| > 0 {
      var init := logs[..|logs| - 1];
      assert forall l :: l in init ==> l in logs;
      NoLogsWithAbsentKey(init, key);
    }
  }

  /** Each log lands in the group of its own key and in no other. */
  lemma {:induction false} LogsWithKeyMembership(logs: seq<ActivityLog>, key: string, x: ActivityLog)
    ensures x in LogsWithKey(logs, key) <==> x in logs && GroupKey(x) == key
  {
    if |logs| > 0 {
      var init := logs[..|logs| - 1];
      assert logs == init + [logs[|logs| - 1]];
      LogsWithKeyMembership(init, key, x);
    }
  }

  /** Grouping distributes over concatenation, so every group keeps input order. */
  lemma {:induction false} LogsWithKeyAppend(a: seq<ActivityLog>, b: seq<ActivityLog>, key: string)
    ensures LogsWithKey(a + b, key) == LogsWithKey(a, key) + LogsWithKey(b, key)
    decreases |b|
  {
    if |b| == 0 {
      assert a + b == a;
    } else {
      var b' := b[..|b| - 1];
      assert (a + b)[..|a + b| - 1] == a + b';
      assert (a + b)[|a + b| - 1] == b[|b| - 1];
      LogsWithKeyAppend(a, b', key);
    }
  }

  /** The total size of the groups named by `keys`. */
  function SizeSum(logs: seq<ActivityLog>, keys: seq<string>): nat
    reads logs, TypesOf(logs)
  {
    if |keys| == 0 then 0 else |LogsWithKey(logs, keys[0])| + SizeSum(logs, keys[1..])
  }

  function Occurrences(keys: seq<string>, key: string): nat {
    if |keys| == 0 then 0 else (if keys[0] == key then 1 else 0) + Occurrences(keys[1..], key)
  }

  predicate Distinct(keys: seq<string>) {
    forall i, j :: 0 <= i < j < |keys| ==> keys[i] != keys[j]
  }

  lemma {:induction false} OccurrencesOfDistinct(keys: seq<string>, key: string)
    requires Distinct(keys)
    ensures Occurrences(keys, key) == if key in keys then 1 else 0
  {
    if |keys| > 0 {
      assert forall k :: k in keys[1..] ==> k in keys;
      assert keys[0] !in keys[1..] by {
        forall i | 0 <= i < |keys[1..]| ensures keys[1..][i] != keys[0] {
          assert keys[1..][i] == keys[i + 1];
        }
      }
      OccurrencesOfDistinct(keys[1..], key);
    }
  }

  lemma {:induction false} SizeSumStep(init: seq<ActivityLog>, x: ActivityLog, keys: seq<string>)
    ensures SizeSum(init + [x], keys) == SizeSum(init, keys) + Occurrences(keys, GroupKey(x))
  {
    var logs := init + [x];
    if |keys| > 0 {
      assert logs[..|logs| - 1] == init && logs[|logs| - 1] == x;
      SizeSumStep(init, x, keys[1..]);
    }
  }

  /**
   * The group sizes add up to the number of logs: summing the sizes over any
   * duplicate-free list of keys that covers every log's key gives `|logs|`.
   */
  lemma {:induction false} GroupSizesSumToLength(logs: seq<ActivityLog>, keys: seq<string>)
    requires Distinct(keys)
    requires forall l :: l in logs ==> GroupKey(l) in keys
    ensures SizeSum(logs, keys) == |logs|
    decreases |logs|
  {
    if |logs| == 0 {
      ZeroSizes(logs, keys);
    } else {
      var init, x := logs[..|logs| - 1], logs[|logs| - 1];
      assert logs == init + [x];
      assert forall l :: l in init ==> l in logs;
      GroupSizesSumToLength(init, keys);
      SizeSumStep(init, x, keys);
      OccurrencesOfDistinct(keys, GroupKey(x));
    }
  }

  lemma {:induction false} ZeroSizes(logs: seq<ActivityLog>, keys: seq<string>)
    requires |logs| == 0
    ensures SizeSum(logs, keys) == 0
  {
    if |keys| > 0 {
      ZeroSizes(logs, keys[1..]);
    }
  }

  // ---------------------------------------------------------------------------
  // Current streak
  // ---------------------------------------------------------------------------

  /** The distinct calendar days that hold at least one log. */
  function DaysOf(logs: seq<ActivityLog>): set<int>
    reads logs
  {
    if |logs| == 0 then {}
    else DaysOf(logs[..|logs| - 1]) + {DayOf(logs[|logs| - 1].timestamp)}
  }

  lemma DaysStep(init: seq<ActivityLog>, x: ActivityLog)
    ensures DaysOf(init + [x]) == DaysOf(init) + {DayOf(x.timestamp)}
  {
    assert (init + [x])[..|init|] == init;
  }

  /** A day is in `DaysOf(logs)` exactly when some log is stamped on it. */
  lemma {:induction false} DaysOfMembership(logs: seq<ActivityLog>, d: int)
    ensures d in DaysOf(logs) <==> exists i :: 0 <= i < |logs| && DayOf(logs[i].timestamp) == d
  {
    if |logs| > 0 {
      var init := logs[..|logs| - 1];
      DaysOfMembership(init, d);
      if d in DaysOf(init) {
        var i :| 0 <= i < |init| && DayOf(init[i].timestamp) == d;
        assert logs[i] == init[i];
      }
      if exists i :: 0 <= i < |logs| && DayOf(logs[i].timestamp) == d {
        var i :| 0 <= i < |logs| && DayOf(logs[i].timestamp) == d;
        if i < |init| {
          assert init[i] == logs[i];
        }
      }
    }
  }

  predicate StrictlyDecreasing(s: seq<int>) {
    forall i, j :: 0 <= i < j < |s| ==> s[i] > s[j]
  }

  predicate IsMax(m: int, s: set<int>) {
    m in s && forall x :: x in s ==> x <= m
  }

  lemma {:induction false} MaxExists(s: set<int>)
    requires |s| > 0
    ensures exists m :: IsMax(m, s)
    decreases |s|
  {
    HasElement(s);
    var y :| y in s;
    var rest := s - {y};
    if |rest| == 0 {
      assert forall x :: x in s ==> x == y;
      assert IsMax(y, s);
    } else {
      MaxExists(rest);
      var m :| IsMax(m, rest);
      assert forall x :: x in s ==> x == y || x in rest;
      if y > m {
        assert IsMax(y, s);
      } else {
        assert IsMax(m, s);
      }
    }
  }

  lemma HasElement(s: set<int>)
    requires |s| > 0
    ensures exists x :: x in s
  {
    if forall x :: x !in s {
      assert false;
    }
  }

  /** `keys.sorted(by: >)`: the days, most recent first. */
  function SortedDescending(s: set<int>): (r: seq<int>)
    ensures |r| == |s|
    ensures forall x :: x in r <==> x in s
    ensures StrictlyDecreasing(r)
    decreases |s|
  {
    if |s| == 0 then []
    else
      MaxExists(s);
      var m :| IsMax(m, s);
      var rest := SortedDescending(s - {m});
      PrependMax(m, s, rest);
      [m] + rest
  }

  lemma PrependMax(m: int, s: set<int>, rest: seq<int>)
    requires IsMax(m, s)
    requires |rest| == |s - {m}| && StrictlyDecreasing(rest)
    requires forall x :: x in rest <==> x in s - {m}
    ensures |[m] + rest| == |s|
    ensures forall x :: x in [m] + rest <==> x in s
    ensures StrictlyDecreasing([m] + rest)
  {
    var r := [m] + rest;
    forall i, j | 0 <= i < j < |r| ensures r[i] > r[j] {
      assert r[j] == rest[j - 1] && rest[j - 1] in rest;
      if i > 0 {
        assert r[i] == rest[i - 1];
      }
    }
  }

  /**
   * The counting loop of `currentStreak` over the sorted days, from position
   * `k` with current day `cur`: a day counts when it is `cur` or the day
   * before `cur`, and every counted day moves `cur` back by one whichever of
   * the two it was.
   */
  function Walk(days: seq<int>, k: nat, cur: int): (r: nat)
    requires k <= |days|
    ensures r <= |days| - k
    decreases |days| - k
  {
    if k == |days| then 0
    else if cur - days[k] == 0 || cur - days[k] == 1 then 1 + Walk(days, k + 1, cur - 1)
    else 0
  }

  /** The streak as of day `today` over the set of days that hold logs; it never exceeds their number. */
  function Streak(days: set<int>, today: int): (r: nat)
    ensures r <= |days|
  {
    Walk(SortedDescending(days), 0, today)
  }

  /** The logs stamped on calendar day `day`, in input order. */
  function LogsOnDay(logs: seq<ActivityLog>, day: int): seq<ActivityLog>
    reads logs
  {
    if |logs| == 0 then []
    else
      var last := logs[|logs| - 1];
      LogsOnDay(logs[..|logs| - 1], day) + (if DayOf(last.timestamp) == day then [last] else [])
  }

  /**
   * The first loop of `currentStreak`: the dictionary from each day that
   * holds a log to that day's logs.
   */
  method LogsByDay(logs: seq<ActivityLog>) returns (logsByDay: map<int, seq<ActivityLog>>)
    ensures logsByDay.Keys == DaysOf(logs)
    ensures forall day {:trigger logsByDay[day]} :: day in logsByDay ==> logsByDay[day] == LogsOnDay(logs, day)
  {
    logsByDay := map[];
    for i := 0 to |logs|
      invariant logsByDay.Keys == DaysOf(logs[..i])
      invariant forall day :: day in logsByDay ==> logsByDay[day] == LogsOnDay(logs[..i], day)
    {
      var day := DayOf(logs[i].timestamp);
      var bucket := if day in logsByDay then logsByDay[day] else [];
      DayInsert(logsByDay, logs, i, bucket);
      logsByDay := logsByDay[day := bucket + [logs[i]]];
    }
    assert logs[..|logs|] == logs;
  }

  /** One step of the bucketing loop keeps its invariant. */
  lemma DayInsert(logsByDay: map<int, seq<ActivityLog>>, logs: seq<ActivityLog>, i: nat, bucket: seq<ActivityLog>)
    requires i < |logs|
    requires logsByDay.Keys == DaysOf(logs[..i])
    requires forall day :: day in logsByDay ==> logsByDay[day] == LogsOnDay(logs[..i], day)
    requires bucket == var day := DayOf(logs[i].timestamp); if day in logsByDay then logsByDay[day] else []
    ensures var day := DayOf(logs[i].timestamp);
            var m := logsByDay[day := bucket + [logs[i]]];
            && m.Keys == DaysOf(logs[..i + 1])
            && forall d :: d in m ==> m[d] == LogsOnDay(logs[..i + 1], d)
  {
    var day := DayOf(logs[i].timestamp);
    var m := logsByDay[day := bucket + [logs[i]]];
    var prefix, next := logs[..i], logs[..i + 1];
    assert next == prefix + [logs[i]];
    DaysStep(prefix, logs[i]);
    LogsOnDayStep(prefix, logs[i]);
    if day !in logsByDay {
      NoLogsOnAbsentDay(prefix, day);
    }
    assert m[day] == LogsOnDay(next, day);
    forall d | d in m
      ensures m[d] == LogsOnDay(next, d)
    {
      if d != day {
        assert m[d] == logsByDay[d] == LogsOnDay(prefix, d);
      }
    }
  }

  lemma LogsOnDayStep(init: seq<ActivityLog>, x: ActivityLog)
    ensures forall day :: LogsOnDay(init + [x], day)
                       == LogsOnDay(init, day) + (if DayOf(x.timestamp) == day then [x] else [])
  {
    assert (init + [x])[..|init|] == init;
  }

  lemma {:induction false} NoLogsOnAbsentDay(logs: seq<ActivityLog>, day: int)
    requires day !in DaysOf(logs)
    ensures LogsOnDay(logs, day) == []
  {
    if |logs| > 0 {
      NoLogsOnAbsentDay(logs[..|logs| - 1], day);
    }
  }

  /**
   * `currentStreak(for:)`: bucket the logs by day, sort the days, give up
   * when the most recent one is more than a day old, then count.
   */
  method CurrentStreak(logs: seq<ActivityLog>, today: int) returns (streak: nat)
    ensures streak == Streak(DaysOf(logs), today)
  {
    if |logs| == 0 {
      assert DaysOf(logs) == {};
      return 0;
    }

    var logsByDay := LogsByDay(logs);
    var sortedDays := SortedDescending(logsByDay.Keys);
    assert sortedDays == SortedDescending(DaysOf(logs));
    if |sortedDays| == 0 || today - sortedDays[0] > 1 {
      if |sortedDays| > 0 {
        WalkStep(sortedDays, 0, today);
      }
      return 0;
    }

    streak := CountStreak(sortedDays, today);
  }

  /**
   * The counting loop of `currentStreak(for:)` over the days sorted most
   * recent first: a day equal to the expected one or one before it extends
   * the streak and moves the expected day back by one; any other day stops.
   */
  method CountStreak(sortedDays: seq<int>, today: int) returns (streak: nat)
    ensures streak == Walk(sortedDays, 0, today)
  {
    streak := 0;
    var currentDay := today;
    var k := 0;
    while k < |sortedDays|
      invariant 0 <= k <= |sortedDays|
      invariant streak == k && currentDay == today - k
      invariant Walk(sortedDays, 0, today) == streak + Walk(sortedDays, k, currentDay)
    {
      var daysDiff := currentDay - sortedDays[k];
      WalkStep(sortedDays, k, currentDay);
      if daysDiff == 0 {
        streak := streak + 1;
        currentDay := currentDay - 1;
      } else if daysDiff == 1 {
        streak := streak + 1;
        currentDay := currentDay - 1;
      } else {
        break;
      }
      k := k + 1;
    }
  }

  /** One step of the walk: a day in its window adds one, any other day ends it. */
  lemma WalkStep(days: seq<int>, k: nat, cur: int)
    requires k < |days|
    ensures cur - days[k] == 0 || cur - days[k] == 1 ==> Walk(days, k, cur) == 1 + Walk(days, k + 1, cur - 1)
    ensures !(cur - days[k] == 0 || cur - days[k] == 1) ==> Walk(days, k, cur) == 0
  {
  }

  /** The window the k-th counted day must fall in: day `cur - k` or the one before. */
  predicate InWindow(day: int, cur: int, k: int) {
    cur - k - 1 <= day <= cur - k
  }

  lemma {:induction false} WalkFacts(days: seq<int>, k: nat, cur: int)
    requires k <= |days|
    ensures forall i :: k <= i < k + Walk(days, k, cur) ==> InWindow(days[i], cur, i - k)
    ensures k + Walk(days, k, cur) < |days| ==> !InWindow(days[k + Walk(days, k, cur)], cur, Walk(days, k, cur))
    decreases |days| - k
  {
    if k < |days| && (cur - days[k] == 0 || cur - days[k] == 1) {
      WalkFacts(days, k + 1, cur - 1);
    }
  }

  /**
   * The streak is the length of the longest run of sorted days whose k-th
   * day is `today - k` or `today - k - 1`; the walk stops at the first day
   * outside its window.
   */
  lemma StreakCharacterization(days: set<int>, today: int, n: nat)
    ensures var s := SortedDescending(days);
            Streak(days, today) == n <==>
              && n <= |s|
              && (forall k :: 0 <= k < n ==> InWindow(s[k], today, k))
              && (n < |s| ==> !InWindow(s[n], today, n))
  {
    var s := SortedDescending(days);
    WalkFacts(s, 0, today);
  }

  /** No logs, no streak. */
  lemma StreakOfNoDays(today: int)
    ensures Streak({}, today) == 0
  {
  }

  /** A most recent log day more than one day before today gives 0. */
  lemma StreakZeroWhenStale(days: set<int>, today: int)
    requires forall d :: d in days ==> d < today - 1
    ensures Streak(days, today) == 0
  {
    var s := SortedDescending(days);
    if |s| > 0 {
      assert s[0] in days;
    }
  }

  /** A log day after today makes the first difference negative, so the count is 0. */
  lemma StreakZeroWhenFuture(days: set<int>, today: int, d: int)
    requires d in days && d > today
    ensures Streak(days, today) == 0
  {
    var s := SortedDescending(days);
    assert d in s;
    var j :| 0 <= j < |s| && s[j] == d;
    assert s[0] >= d;
  }

  /** The recency guard of the source never changes the result: the walk already returns 0 there. */
  lemma RecencyGuardIsRedundant(days: set<int>, today: int)
    requires days != {}
    ensures var s := SortedDescending(days);
            today - s[0] > 1 ==> Streak(days, today) == 0
  {
  }

  lemma {:induction false} DecreasingGap(s: seq<int>, i: nat, j: nat)
    requires StrictlyDecreasing(s) && i <= j < |s|
    ensures s[i] - s[j] >= j - i
    decreases j - i
  {
    if i < j {
      DecreasingGap(s, i + 1, j);
    }
  }

  /**
   * Once a counted day uses the one-day slack (it is `today - k - 1`), every
   * later counted day is exactly consecutive: at most one calendar day is
   * missing among the counted days, and a missing today uses the slack up.
   */
  lemma StreakToleratesOneGap(days: set<int>, today: int, k: nat, j: nat)
    requires var s := SortedDescending(days);
             k <= j < Streak(days, today) && s[k] == today - k - 1
    ensures SortedDescending(days)[j] == today - j - 1
  {
    var s := SortedDescending(days);
    WalkFacts(s, 0, today);
    DecreasingGap(s, k, j);
    assert InWindow(s[j], today, j);
  }

  /** The first and last counted days are at most `streak` days apart. */
  lemma StreakSpan(days: set<int>, today: int)
    requires Streak(days, today) > 0
    ensures var s := SortedDescending(days);
            s[0] - s[Streak(days, today) - 1] <= Streak(days, today)
  {
    var s := SortedDescending(days);
    WalkFacts(s, 0, today);
  }

  /** The streak does not depend on the order of the logs. */
  lemma StreakIgnoresOrder(a: seq<ActivityLog>, b: seq<ActivityLog>, today: int)
    requires multiset(a) == multiset(b)
    ensures DaysOf(a) == DaysOf(b)
    ensures Streak(DaysOf(a), today) == Streak(DaysOf(b), today)
  {
    forall d ensures d in DaysOf(a) <==> d in DaysOf(b) {
      DaysOfMembership(a, d);
      DaysOfMembership(b, d);
      if i :| 0 <= i < |a| && DayOf(a[i].timestamp) == d {
        assert a[i] in multiset(b);
        var j :| 0 <= j < |b| && b[j] == a[i];
      }
      if j :| 0 <= j < |b| && DayOf(b[j].timestamp) == d {
        assert b[j] in multiset(a);
        var i :| 0 <= i < |a| && a[i] == b[j];
      }
    }
  }

  /** Another log on a day that already holds one does not change the streak. */
  lemma StreakIgnoresRepeatedDays(logs: seq<ActivityLog>, x: ActivityLog, today: int)
    requires DayOf(x.timestamp) in DaysOf(logs)
    ensures DaysOf(logs + [x]) == DaysOf(logs)
    ensures Streak(DaysOf(logs + [x]), today) == Streak(DaysOf(logs), today)
  {
    DaysStep(logs, x);
  }

  /** Three sorted distinct days are determined by the set. */
  lemma SortedThree(x: int, y: int, z: int)
    requires x > y > z
    ensures SortedDescending({x, y, z}) == [x, y, z]
  {
    var s := SortedDescending({x, y, z});
    assert |{x, y, z}| == 3;
    assert s[0] in {x, y, z} && s[1] in {x, y, z} && s[2] in {x, y, z};
    assert x in s && y in s && z in s;
  }

  /** Days 1, 2 and 4 as of day 4 give 3: the gap at day 3 is absorbed by the slack. */
  lemma StreakExampleWithGap()
    ensures Streak({4, 2, 1}, 4) == 3
  {
    SortedThree(4, 2, 1);
    assert [4, 2, 1][1..] == [2, 1] && [2, 1][1..] == [1];
  }

  /** Days 1 and 3 as of day 4 give 1: the missing today has used the slack, so day 1 ends the walk. */
  lemma StreakExampleMissingToday()
    ensures Streak({3, 1}, 4) == 1
  {
    var s := SortedDescending({3, 1});
    assert |{3, 1}| == 2;
    assert s[0] in {3, 1} && s[1] in {3, 1};
    assert 3 in s && 1 in s;
    assert s == [3, 1];
    assert s[1..] == [1];
  }

  // ---------------------------------------------------------------------------
  // The streak of exactly consecutive days
  // ---------------------------------------------------------------------------

  /** The number of days from position `k` on that each lie exactly one day before the previous one, `prev`. */
  function ConsecutiveFrom(days: seq<int>, k: nat, prev: int): (r: nat)
    requires k <= |days|
    ensures r <= |days| - k
    decreases |days| - k
  {
    if k < |days| && days[k] == prev - 1 then 1 + ConsecutiveFrom(days, k + 1, days[k]) else 0
  }

  /**
   * The streak the comments of `currentStreak` describe: the most recent log
   * day is today or yesterday, and every further counted day is exactly one
   * calendar day before the previous one, so any missing day ends the streak.
   */
  function ConsecutiveStreak(days: set<int>, today: int): (r: nat)
    ensures r <= |days|
  {
    var s := SortedDescending(days);
    if |s| == 0 || !(s[0] == today || s[0] == today - 1) then 0
    else 1 + ConsecutiveFrom(s, 1, s[0])
  }

  lemma {:induction false} ConsecutiveFacts(days: seq<int>, k: nat, prev: int)
    requires k <= |days|
    ensures forall i :: k <= i < k + ConsecutiveFrom(days, k, prev) ==> days[i] == prev - (i - k) - 1
    ensures k + ConsecutiveFrom(days, k, prev) < |days| ==>
              days[k + ConsecutiveFrom(days, k, prev)] != prev - ConsecutiveFrom(days, k, prev) - 1
    decreases |days| - k
  {
    if k < |days| && days[k] == prev - 1 {
      ConsecutiveFacts(days, k + 1, days[k]);
    }
  }

  /**
   * The counted days are `n` consecutive calendar days ending today or
   * yesterday, and the next logged day (if any) is not the day before them.
   */
  lemma ConsecutiveStreakCharacterization(days: set<int>, today: int)
    ensures var s := SortedDescending(days);
            var n := ConsecutiveStreak(days, today);
            && (n > 0 ==> s[0] == today || s[0] == today - 1)
            && (forall k :: 0 <= k < n ==> s[k] == s[0] - k)
            && (n == 0 && |s| > 0 ==> s[0] != today && s[0] != today - 1)
            && (0 < n < |s| ==> s[n] != s[0] - n)
  {
    var s := SortedDescending(days);
    if |s| > 0 && (s[0] == today || s[0] == today - 1) {
      ConsecutiveFacts(s, 1, s[0]);
    }
  }

  lemma {:induction false} ConsecutiveBelowWalk(days: seq<int>, k: nat, prev: int, cur: int)
    requires k <= |days|
    requires cur == prev || cur == prev - 1
    ensures ConsecutiveFrom(days, k, prev) <= Walk(days, k, cur)
    decreases |days| - k
  {
    if k < |days| && days[k] == prev - 1 {
      ConsecutiveBelowWalk(days, k + 1, days[k], cur - 1);
    }
  }

  /** The streak as written never undercounts the consecutive one; it can only overcount. */
  lemma ConsecutiveStreakAtMostStreak(days: set<int>, today: int)
    ensures ConsecutiveStreak(days, today) <= Streak(days, today)
  {
    var s := SortedDescending(days);
    if |s| > 0 && (s[0] == today || s[0] == today - 1) {
      ConsecutiveBelowWalk(s, 1, s[0], today - 1);
    }
  }

  /** Days 1, 2 and 4 as of day 4: the streak as written is 3, the consecutive streak is 1. */
  lemma StreakGapFinding()
    ensures Streak({4, 2, 1}, 4) == 3
    ensures ConsecutiveStreak({4, 2, 1}, 4) == 1
  {
    StreakExampleWithGap();
    SortedThree(4, 2, 1);
  }
}
