/**
 * `ActivityDataSeeder.seedDefaultActivityTypes(in:)`
 * (RoofQuoter/ActivityDataSeeder.swift): on a store without activity
 * types, insert the four default ones; otherwise, or when the fetch fails,
 * leave the store alone. The console messages are not part of this model,
 * and neither is the final `save()`, whose failure would be swallowed by
 * the same `catch` and leaves the inserted records in the context.
 */
module Seeder {
  import opened Wrappers
  import opened TrackingFields
  import opened Records
  import opened Store

  /** What a seeded type holds. */
  datatype TypeSpec = TypeSpec(name: string, category: string, fields: seq<TrackingField>, icon: string, color: string)

  const PushUps := TypeSpec("Push-ups", "Fitness", [Reps], "figure.strengthtraining.traditional", "#FF5733")
  const SitUps := TypeSpec("Sit-ups", "Fitness", [Reps], "figure.core.training", "#E74C3C")
  const GuitarPractice := TypeSpec("Guitar Practice", "Music", [Minutes], "guitars", "#3498DB")
  const SalesCalls := TypeSpec("Sales Calls", "Work", [Minutes, Count, Notes], "phone.fill", "#2ECC71")

  /** The four default types, in insertion order. */
  const DefaultTypes: seq<TypeSpec> := [PushUps, SitUps, GuitarPractice, SalesCalls]

  /** A record built by `ActivityType(name:category:trackingFields:iconName:color:)` from `spec` at time `now`. */
  predicate Matches(t: ActivityType, spec: TypeSpec, now: int)
    reads t
  {
    && t.name == spec.name && t.category == spec.category && t.trackingFields == spec.fields
    && t.iconName == Some(spec.icon) && t.color == Some(spec.color)
    && t.createdDate == now && t.logs == None && t.goals == None
  }

  /** The store holds exactly the four defaults, newly made, in order. */
  predicate SeededWith(types: seq<ActivityType>, now: int)
    reads types
  {
    |types| == |DefaultTypes| && forall i :: 0 <= i < |types| ==> Matches(types[i], DefaultTypes[i], now)
  }

  method SeedDefaultActivityTypes(context: ModelContext, fetchFails: bool, now: int)
    modifies context
    ensures context.logs == old(context.logs)
    ensures fetchFails || |old(context.types)| > 0 ==> context.types == old(context.types)
    ensures !fetchFails && |old(context.types)| == 0 ==>
              && SeededWith(context.types, now)
              && forall i :: 0 <= i < |context.types| ==> fresh(context.types[i])
    ensures !fetchFails ==> |context.types| > 0
  {
    var existing := context.FetchTypes(fetchFails);
    if existing.None? {
      // The error is reported on the console and swallowed.
      return;
    }
    if |existing.value| > 0 {
      return;
    }
    InsertDefaults(context, now);
  }

  /** The four creations and insertions, on a store known to hold no types. */
  method InsertDefaults(context: ModelContext, now: int)
    requires context.types == []
    modifies context
    ensures context.logs == old(context.logs)
    ensures SeededWith(context.types, now)
    ensures forall i :: 0 <= i < |context.types| ==> fresh(context.types[i])
  {
    var pushUps := AddType(context, PushUps, now);
    var sitUps := AddType(context, SitUps, now);
    var guitarPractice := AddType(context, GuitarPractice, now);
    var salesCalls := AddType(context, SalesCalls, now);
    assert context.types == [pushUps, sitUps, guitarPractice, salesCalls];
    assert fresh(pushUps) && fresh(sitUps) && fresh(guitarPractice) && fresh(salesCalls);
    FourDefaults(pushUps, sitUps, guitarPractice, salesCalls, now);
  }

  lemma FourDefaults(a: ActivityType, b: ActivityType, c: ActivityType, d: ActivityType, now: int)
    requires Matches(a, PushUps, now) && Matches(b, SitUps, now)
    requires Matches(c, GuitarPractice, now) && Matches(d, SalesCalls, now)
    ensures SeededWith([a, b, c, d], now)
  {
  }

  /** `ActivityType(name:category:trackingFields:iconName:color:)` from `spec`, then `insert`. */
  method AddType(context: ModelContext, spec: TypeSpec, now: int) returns (t: ActivityType)
    modifies context
    ensures fresh(t) && Matches(t, spec, now)
    ensures context.types == old(context.types) + [t]
    ensures context.logs == old(context.logs)
  {
    t := new ActivityType(spec.name, spec.category, spec.fields, now, Some(spec.icon), Some(spec.color));
    context.InsertType(t);
  }

  /**
   * Seeding is idempotent: once a seeding run has fetched successfully, a
   * second run, at whatever time and whether or not its fetch fails, leaves
   * the store as the first run left it.
   */
  method SeedTwice(context: ModelContext, now: int, later: int, laterFetchFails: bool)
    modifies context
    ensures context.logs == old(context.logs)
    ensures |old(context.types)| > 0 ==> context.types == old(context.types)
    ensures |old(context.types)| == 0 ==> SeededWith(context.types, now)
  {
    SeedDefaultActivityTypes(context, false, now);
    ghost var once := context.types;
    SeedDefaultActivityTypes(context, laterFetchFails, later);
    assert context.types == once;
  }

  /** The seeded names are pairwise distinct, so a lookup by name finds the seeded type. */
  lemma DefaultNamesDistinct()
    ensures forall i, j :: 0 <= i < j < |DefaultTypes| ==> DefaultTypes[i].name != DefaultTypes[j].name
  {
  }

  /** Only the default Sales Calls type records more than one field, and every default records one. */
  lemma DefaultFields()
    ensures forall i :: 0 <= i < |DefaultTypes| ==> |DefaultTypes[i].fields| >= 1
    ensures forall i :: 0 <= i < |DefaultTypes| && |DefaultTypes[i].fields| > 1 ==> DefaultTypes[i].name == "Sales Calls"
  {
  }
}
