/**
 * The part of SwiftData's `ModelContext` the activity tracker relies on: a
 * store of activity types and of logs that records can be inserted into,
 * deleted from and fetched from. Persistence (`save`), relationship
 * delete rules and change tracking are not part of this model.
 */
module Store {
  import opened Wrappers
  import opened Records

  /** The logs of `logs` that are not in `doomed`, in order. */
  function Filter(logs: seq<ActivityLog>, doomed: seq<ActivityLog>): (r: seq<ActivityLog>)
    ensures |r| <= |logs|
    ensures forall x :: x in r ==> x in logs && x !in doomed
    ensures forall x :: x in logs && x !in doomed ==> x in r
  {
    if |logs| == 0 then []
    else (if logs[0] in doomed then [] else [logs[0]]) + Filter(logs[1..], doomed)
  }

  /** Removing nothing keeps every log, in order. */
  lemma {:induction false} FilterNothing(logs: seq<ActivityLog>)
    ensures Filter(logs, []) == logs
  {
    if |logs| > 0 {
      FilterNothing(logs[1..]);
    }
  }

  /** Removing `x` after removing `doomed` is removing `doomed + [x]`. */
  lemma {:induction false} FilterThenRemove(logs: seq<ActivityLog>, doomed: seq<ActivityLog>, x: ActivityLog)
    ensures Filter(Filter(logs, doomed), [x]) == Filter(logs, doomed + [x])
  {
    if |logs| > 0 {
      var rest := Filter(logs[1..], doomed);
      var kept := if logs[0] in doomed then [] else [logs[0]];
      assert Filter(logs, doomed) == kept + rest;
      FilterAppend(kept, rest, [x]);
      FilterThenRemove(logs[1..], doomed, x);
      assert logs[0] in doomed + [x] <==> logs[0] in doomed || logs[0] == x;
    }
  }

  lemma {:induction false} FilterAppend(a: seq<ActivityLog>, b: seq<ActivityLog>, doomed: seq<ActivityLog>)
    ensures Filter(a + b, doomed) == Filter(a, doomed) + Filter(b, doomed)
  {
    if |a| == 0 {
      assert a + b == b;
    } else {
      assert (a + b)[0] == a[0];
      assert (a + b)[1..] == a[1..] + b;
      FilterAppend(a[1..], b, doomed);
    }
  }

  /** The store behind the list views and the seeder. */
  class ModelContext {
    var types: seq<ActivityType>
    var logs: seq<ActivityLog>

    constructor ()
      ensures types == [] && logs == []
    {
      types := [];
      logs := [];
    }

    /** `insert(_:)` of a type: registering an already registered record changes nothing. */
    method InsertType(t: ActivityType)
      modifies this
      ensures types == if t in old(types) then old(types) else old(types) + [t]
      ensures logs == old(logs)
    {
      if t !in types {
        types := types + [t];
      }
    }

    /** `insert(_:)` of a log. */
    method InsertLog(l: ActivityLog)
      modifies this
      ensures logs == if l in old(logs) then old(logs) else old(logs) + [l]
      ensures types == old(types)
    {
      if l !in logs {
        logs := logs + [l];
      }
    }

    /** `delete(_:)` of a log: every occurrence leaves the store. */
    method DeleteLog(l: ActivityLog)
      modifies this
      ensures logs == Filter(old(logs), [l])
      ensures types == old(types)
    {
      logs := Filter(logs, [l]);
    }

    /**
     * `fetch(FetchDescriptor<ActivityType>())`: every registered type, or
     * an error. Whether the fetch fails is decided outside the model and
     * passed in.
     */
    method FetchTypes(fails: bool) returns (r: Option<seq<ActivityType>>)
      ensures fails ==> r == None
      ensures !fails ==> r == Some(types)
    {
      if fails {
        return None;
      }
      return Some(types);
    }
  }
}
