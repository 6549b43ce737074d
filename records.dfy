/**
 * The persistent records of the activity tracker: activity types
 * (RoofQuoter/ActivityType.swift), log entries (RoofQuoter/ActivityLog.swift)
 * and goals (RoofQuoter/ActivityGoal.swift). The three classes refer to one
 * another (log -> type, log -> goal, goal -> type and back), so they share one
 * module. Identifiers (`UUID()`) are left to object identity; the clock
 * reading `Date()` that the initialisers store is passed in by the caller.
 */
module Records {
  import opened Wrappers
  import opened TrackingFields

  /** A user-editable kind of activity and the fields its logs record. */
  class ActivityType {
    var name: string
    var category: string
    var iconName: Option<string>
    var color: Option<string>
    var trackingFields: seq<TrackingField>
    var createdDate: int
    /** Inverse relationships maintained by the store; `nil` until it links them. */
    var logs: Option<seq<ActivityLog>>
    var goals: Option<seq<ActivityGoal>>

    constructor (name: string, category: string, trackingFields: seq<TrackingField>, now: int,
                 iconName: Option<string> := None, color: Option<string> := None)
      ensures this.name == name && this.category == category
      ensures this.trackingFields == trackingFields
      ensures this.iconName == iconName && this.color == color
      ensures createdDate == now
      ensures logs == None && goals == None
    {
      this.name := name;
      this.category := category;
      this.trackingFields := trackingFields;
      this.iconName := iconName;
      this.color := color;
      this.createdDate := now;
      this.logs := None;
      this.goals := None;
    }

    /** `trackingFields.contains(field)`. */
    function Tracks(field: TrackingField): (r: bool)
      reads this
      ensures r <==> exists i :: 0 <= i < |trackingFields| && trackingFields[i] == field
    {
      field in trackingFields
    }
  }

  /** One logged occurrence of an activity; any mix of the optional values may be present. */
  class ActivityLog {
    var timestamp: int
    var reps: Option<int>
    var minutes: Option<int>
    var count: Option<int>
    var notes: Option<string>
    var tags: seq<string>
    var activityType: ActivityType?
    var goal: ActivityGoal?

    /**
     * Stores every argument unchanged and validates nothing: the values need
     * not match the type's tracking fields and may be negative. The goal link
     * is never set here.
     */
    constructor (timestamp: int, activityType: ActivityType? := null,
                 reps: Option<int> := None, minutes: Option<int> := None, count: Option<int> := None,
                 notes: Option<string> := None, tags: seq<string> := [])
      ensures this.timestamp == timestamp && this.activityType == activityType
      ensures this.reps == reps && this.minutes == minutes && this.count == count
      ensures this.notes == notes && this.tags == tags
      ensures goal == null
    {
      this.activityType := activityType;
      this.timestamp := timestamp;
      this.reps := reps;
      this.minutes := minutes;
      this.count := count;
      this.notes := notes;
      this.tags := tags;
      this.goal := null;
    }
  }

  /** What one log adds to the numeric total of `field`: the value, 0 when absent, and 0 for notes. */
  function FieldValue(log: ActivityLog, field: TrackingField): int
    reads log
  {
    match field
    case Reps => log.reps.GetOr(0)
    case Minutes => log.minutes.GetOr(0)
    case Count => log.count.GetOr(0)
    case Notes => 0
  }

  /** The sum of `FieldValue` over `logs`, accumulated front to back as the loops of the source do. */
  function FieldSum(logs: seq<ActivityLog>, field: TrackingField): int
    reads logs
  {
    if |logs| == 0 then 0
    else FieldSum(logs[..|logs| - 1], field) + FieldValue(logs[|logs| - 1], field)
  }

  /** The value of `field` stored in `log`, if it is a numeric field that is present. */
  function Present(log: ActivityLog, field: TrackingField): Option<int>
    reads log
  {
    match field
    case Reps => log.reps
    case Minutes => log.minutes
    case Count => log.count
    case Notes => None
  }

  /** The present values of `field` across `logs`, in order. */
  function PresentValues(logs: seq<ActivityLog>, field: TrackingField): (r: seq<int>)
    reads logs
    ensures |r| <= |logs|
  {
    if |logs| == 0 then []
    else
      var rest := PresentValues(logs[1..], field);
      match Present(logs[0], field)
      case Some(v) => [v] + rest
      case None => rest
  }

  function SumInts(xs: seq<int>): int {
    if |xs| == 0 then 0 else xs[0] + SumInts(xs[1..])
  }

  /** Totals are additive over concatenation. */
  lemma {:induction false} FieldSumAppend(a: seq<ActivityLog>, b: seq<ActivityLog>, field: TrackingField)
    ensures FieldSum(a + b, field) == FieldSum(a, field) + FieldSum(b, field)
    decreases |b|
  {
    if |b| > 0 {
      var b' := b[..|b| - 1];
      assert (a + b)[..|a + b| - 1] == a + b';
      FieldSumAppend(a, b', field);
    } else {
      assert a + b == a;
    }
  }

  /** The notes field never contributes to a numeric total. */
  lemma {:induction false} FieldSumNotesIsZero(logs: seq<ActivityLog>)
    ensures FieldSum(logs, Notes) == 0
  {
    if |logs| > 0 {
      FieldSumNotesIsZero(logs[..|logs| - 1]);
    }
  }

  /**
   * For a numeric field, the total is exactly the sum of the values that are
   * present; logs without the field add nothing.
   */
  lemma {:induction false} FieldSumIsSumOfPresent(logs: seq<ActivityLog>, field: TrackingField)
    ensures FieldSum(logs, field) == SumInts(PresentValues(logs, field))
  {
    if |logs| > 0 {
      var first, rest := logs[..1], logs[1..];
      assert logs == first + rest;
      FieldSumAppend(first, rest, field);
      FieldSumIsSumOfPresent(rest, field);
      assert first[..0] == [];
    }
  }

  /** A goal on a tracked field of an activity type. */
  class ActivityGoal {
    var targetValue: int
    var period: string
    var fieldType: TrackingField
    var isActive: bool
    var createdDate: int
    var activityType: ActivityType?
    /** Logs linked to this goal by the store; `nil` until it links them. */
    var logs: Option<seq<ActivityLog>>

    constructor (targetValue: int, fieldType: TrackingField, now: int,
                 activityType: ActivityType? := null, period: string := "daily", isActive: bool := true)
      ensures this.activityType == activityType && this.targetValue == targetValue
      ensures this.fieldType == fieldType && this.period == period && this.isActive == isActive
      ensures createdDate == now && logs == None
    {
      this.activityType := activityType;
      this.targetValue := targetValue;
      this.fieldType := fieldType;
      this.period := period;
      this.isActive := isActive;
      this.createdDate := now;
      this.logs := None;
    }

    /** `calculateProgress(from:)`: the goal's field summed over the given logs; no date filtering. */
    method CalculateProgress(entries: seq<ActivityLog>) returns (total: int)
      ensures total == FieldSum(entries, fieldType)
    {
      total := 0;
      for i := 0 to |entries|
        invariant total == FieldSum(entries[..i], fieldType)
      {
        assert entries[..i + 1][..i] == entries[..i];
        var log := entries[i];
        match fieldType
        case Reps => total := total + log.reps.GetOr(0);
        case Minutes => total := total + log.minutes.GetOr(0);
        case Count => total := total + log.count.GetOr(0);
        case Notes =>
      }
      assert entries[..|entries|] == entries;
    }

    /** `progressPercentage(from:)`, over the reals; 0 for a non-positive target, and it may exceed 100. */
    function ProgressPercentage(entries: seq<ActivityLog>): (r: real)
      reads this, entries
      ensures targetValue <= 0 ==> r == 0.0
    {
      if targetValue <= 0 then 0.0
      else (FieldSum(entries, fieldType) as real / targetValue as real) * 100.0
    }

    /** `isAchieved(from:)`: progress meets or exceeds the target. */
    function IsAchieved(entries: seq<ActivityLog>): bool
      reads this, entries
    {
      FieldSum(entries, fieldType) >= targetValue
    }
  }

  /** Progress over `a + b` is progress over `a` plus progress over `b`. */
  lemma ProgressIsAdditive(goal: ActivityGoal, a: seq<ActivityLog>, b: seq<ActivityLog>)
    ensures FieldSum(a + b, goal.fieldType) == FieldSum(a, goal.fieldType) + FieldSum(b, goal.fieldType)
  {
    FieldSumAppend(a, b, goal.fieldType);
  }

  /** A notes goal has progress 0, so it is achieved exactly when its target is at most 0. */
  lemma NotesGoalHasNoProgress(goal: ActivityGoal, entries: seq<ActivityLog>)
    requires goal.fieldType == Notes
    ensures FieldSum(entries, goal.fieldType) == 0
    ensures goal.IsAchieved(entries) <==> goal.targetValue <= 0
    ensures goal.ProgressPercentage(entries) == 0.0
  {
    FieldSumNotesIsZero(entries);
  }

  /** Reaching the target exactly counts as achieved; one short of it does not. */
  lemma AchievedAtBoundary(goal: ActivityGoal, entries: seq<ActivityLog>)
    ensures FieldSum(entries, goal.fieldType) == goal.targetValue ==> goal.IsAchieved(entries)
    ensures FieldSum(entries, goal.fieldType) == goal.targetValue - 1 ==> !goal.IsAchieved(entries)
  {
  }

  /** With a positive target, the percentage reaches 100 exactly when the goal is achieved. */
  lemma PercentageReachesHundredIffAchieved(goal: ActivityGoal, entries: seq<ActivityLog>)
    requires goal.targetValue > 0
    ensures goal.ProgressPercentage(entries) >= 100.0 <==> goal.IsAchieved(entries)
  {
    var p := FieldSum(entries, goal.fieldType) as real;
    var t := goal.targetValue as real;
    assert goal.ProgressPercentage(entries) == (p / t) * 100.0;
    assert (p / t) * t == p;
    if p >= t {
      assert p / t >= 1.0;
    } else {
      assert p / t < 1.0;
    }
  }
}
