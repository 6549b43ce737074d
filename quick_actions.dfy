/**
 * The logic of the activity list screen (RoofQuoter/ActivityListView.swift)
 * apart from the colour decoder: the quick-action buttons, which look
 * activity types up by name, the log a button inserts, and the swipe to
 * delete over the list as shown. The views themselves are not modelled.
 */
module QuickActions {
  import opened Wrappers
  import opened TrackingFields
  import opened Records
  import opened Store
  import Seeder

  /** `types.first(where: { $0.name == name })`, as a position. */
  function FirstNamed(types: seq<ActivityType>, name: string): (r: Option<nat>)
    reads types
    ensures r.Some? ==> r.value < |types| && types[r.value].name == name
    ensures r.Some? ==> forall j :: 0 <= j < r.value ==> types[j].name != name
    ensures r.None? ==> forall j :: 0 <= j < |types| ==> types[j].name != name
  {
    if |types| == 0 then None
    else if types[0].name == name then Some(0)
    else
      match FirstNamed(types[1..], name)
      case None => None
      case Some(k) => Some(k + 1)
  }

  /** A button: the type it logs for, the number of reps it adds, and its caption. */
  datatype QuickAction = QuickAction(activityType: ActivityType, value: int, caption: string)

  /** The button for the first type called `name`, if any. */
  function ButtonFor(types: seq<ActivityType>, name: string, value: int, caption: string): (r: seq<QuickAction>)
    reads types
    ensures |r| <= 1
  {
    match FirstNamed(types, name)
    case None => []
    case Some(i) => [QuickAction(types[i], value, caption)]
  }

  /** `QuickActionsView`: "+10 Push-ups" then "+20 Sit-ups", each shown only when its type exists. */
  function Buttons(types: seq<ActivityType>): (r: seq<QuickAction>)
    reads types
    ensures |r| <= 2
    ensures forall a :: a in r ==> a.activityType in types
  {
    ButtonFor(types, "Push-ups", 10, "+10 Push-ups") + ButtonFor(types, "Sit-ups", 20, "+20 Sit-ups")
  }

  /** A Push-ups button is shown exactly when some type is called "Push-ups", and it is for the first such type. */
  lemma PushUpsButton(types: seq<ActivityType>)
    ensures (exists i :: 0 <= i < |types| && types[i].name == "Push-ups") <==>
              |Buttons(types)| > 0 && Buttons(types)[0].caption == "+10 Push-ups"
    ensures |Buttons(types)| > 0 && Buttons(types)[0].caption == "+10 Push-ups" ==>
              var k := FirstNamed(types, "Push-ups").value;
              Buttons(types)[0] == QuickAction(types[k], 10, "+10 Push-ups")
  {
    var sit := ButtonFor(types, "Sit-ups", 20, "+20 Sit-ups");
    assert sit == [] || sit[0].caption == "+20 Sit-ups";
  }

  /** A Sit-ups button is shown last exactly when some type is called "Sit-ups", and it is for the first such type. */
  lemma SitUpsButton(types: seq<ActivityType>)
    ensures (exists i :: 0 <= i < |types| && types[i].name == "Sit-ups") <==>
              |Buttons(types)| > 0 && Buttons(types)[|Buttons(types)| - 1].caption == "+20 Sit-ups"
    ensures |Buttons(types)| > 0 && Buttons(types)[|Buttons(types)| - 1].caption == "+20 Sit-ups" ==>
              var k := FirstNamed(types, "Sit-ups").value;
              Buttons(types)[|Buttons(types)| - 1] == QuickAction(types[k], 20, "+20 Sit-ups")
  {
    var push := ButtonFor(types, "Push-ups", 10, "+10 Push-ups");
    assert push == [] || push[0].caption == "+10 Push-ups";
  }

  /** After seeding an empty store, the buttons are for the seeded Push-ups and Sit-ups types. */
  lemma ButtonsAfterSeeding(types: seq<ActivityType>, now: int)
    requires Seeder.SeededWith(types, now)
    ensures Buttons(types) == [QuickAction(types[0], 10, "+10 Push-ups"), QuickAction(types[1], 20, "+20 Sit-ups")]
  {
    assert types[0].name == "Push-ups";
    assert types[0].name != "Sit-ups";
    assert types[1].name == "Sit-ups";
  }

  /**
   * `QuickActionButton.logActivity()`: insert a log for the button's type
   * with `reps` set to the button's value, stamped `now`, and every other
   * field at its default. The reps total over the store grows by the value.
   */
  method LogActivity(context: ModelContext, action: QuickAction, now: int) returns (log: ActivityLog)
    modifies context
    ensures fresh(log)
    ensures context.logs == old(context.logs) + [log] && context.types == old(context.types)
    ensures log.activityType == action.activityType && log.timestamp == now
    ensures log.reps == Some(action.value)
    ensures log.minutes == None && log.count == None && log.notes == None && log.tags == []
    ensures log.goal == null
    ensures FieldSum(context.logs, Reps) == old(FieldSum(context.logs, Reps)) + action.value
  {
    log := new ActivityLog(now, action.activityType, Some(action.value));
    context.InsertLog(log);
    FieldSumAppend(old(context.logs), [log], Reps);
    assert [log][..0] == [];
  }

  /** The logs at the given positions of the list as shown. */
  function Picked(shown: seq<ActivityLog>, offsets: seq<nat>): (r: seq<ActivityLog>)
    requires forall k :: 0 <= k < |offsets| ==> offsets[k] < |shown|
    ensures |r| == |offsets|
    ensures forall k :: 0 <= k < |offsets| ==> r[k] == shown[offsets[k]]
  {
    if |offsets| == 0 then [] else Picked(shown, offsets[..|offsets| - 1]) + [shown[offsets[|offsets| - 1]]]
  }

  /**
   * `ActivityListView.deleteLogs(offsets:)`: delete the log at each offset of
   * the list as shown. The list is not refreshed during the loop, so the
   * result is the store without every picked log.
   */
  method DeleteLogs(context: ModelContext, shown: seq<ActivityLog>, offsets: seq<nat>)
    requires forall k :: 0 <= k < |offsets| ==> offsets[k] < |shown|
    modifies context
    ensures context.logs == Filter(old(context.logs), Picked(shown, offsets))
    ensures context.types == old(context.types)
  {
    FilterNothing(context.logs);
    for i := 0 to |offsets|
      invariant context.logs == Filter(old(context.logs), Picked(shown, offsets[..i]))
      invariant context.types == old(context.types)
    {
      context.DeleteLog(shown[offsets[i]]);
      FilterThenRemove(old(context.logs), Picked(shown, offsets[..i]), shown[offsets[i]]);
      assert offsets[..i + 1][..i] == offsets[..i];
    }
    assert offsets[..|offsets|] == offsets;
  }

  /** A log survives the deletion exactly when it was in the store and was not picked. */
  lemma DeletedLogs(logs: seq<ActivityLog>, shown: seq<ActivityLog>, offsets: seq<nat>, x: ActivityLog)
    requires forall k :: 0 <= k < |offsets| ==> offsets[k] < |shown|
    ensures x in Filter(logs, Picked(shown, offsets)) <==>
              x in logs && forall k :: 0 <= k < |offsets| ==> shown[offsets[k]] != x
  {
    var doomed := Picked(shown, offsets);
    if x in doomed {
      var k :| 0 <= k < |doomed| && doomed[k] == x;
      assert shown[offsets[k]] == x;
    }
  }
}
