/**
 * The closed set of fields an activity type can track
 * (RoofQuoter/TrackingField.swift): a `String`-backed, `CaseIterable` enum
 * with a display name and an SF Symbol icon per case.
 */
module TrackingFields {
  import opened Wrappers

  datatype TrackingField = Reps | Minutes | Count | Notes

  /** `CaseIterable.allCases`, in declaration order. */
  const AllCases: seq<TrackingField> := [Reps, Minutes, Count, Notes]

  /** The ASCII lower-case form of a string. */
  function Lower(s: string): (r: string)
    ensures |r| == |s|
    ensures forall i :: 0 <= i < |s| ==> r[i] == LowerChar(s[i])
  {
    seq(|s|, i requires 0 <= i < |s| => LowerChar(s[i]))
  }

  function LowerChar(c: char): char {
    if 'A' <= c <= 'Z' then (c as int + 32) as char else c
  }

  /**
   * The enum's `rawValue`: each case is backed by its own case name, which
   * is its display name in lower case.
   */
  function RawValue(f: TrackingField): (r: string)
    ensures r == Lower(DisplayName(f))
  {
    match f
    case Reps => "reps"
    case Minutes => "minutes"
    case Count => "count"
    case Notes => "notes"
  }

  /** `TrackingField(rawValue:)`, the failable decoding used by `Codable`. */
  function FromRawValue(s: string): (r: Option<TrackingField>)
    ensures r.Some? ==> RawValue(r.value) == s
    ensures r.None? ==> forall f :: RawValue(f) != s
  {
    if s == "reps" then Some(Reps)
    else if s == "minutes" then Some(Minutes)
    else if s == "count" then Some(Count)
    else if s == "notes" then Some(Notes)
    else None
  }

  function DisplayName(f: TrackingField): string {
    match f
    case Reps => "Reps"
    case Minutes => "Minutes"
    case Count => "Count"
    case Notes => "Notes"
  }

  function IconName(f: TrackingField): string {
    match f
    case Reps => "number.circle"
    case Minutes => "clock"
    case Count => "number.square"
    case Notes => "note.text"
  }

  /** `allCases` lists every case exactly once, and there are four. */
  lemma AllCasesComplete(f: TrackingField)
    ensures |AllCases| == 4
    ensures f in AllCases
    ensures forall i, j :: 0 <= i < j < |AllCases| ==> AllCases[i] != AllCases[j]
  {
  }

  /** Decoding a raw value gives back the case it came from. */
  lemma RawValueRoundTrip(f: TrackingField)
    ensures FromRawValue(RawValue(f)) == Some(f)
  {
  }

  /** Raw values, display names and icon names each tell the cases apart. */
  lemma NamesAreDistinct(f: TrackingField, g: TrackingField)
    requires f != g
    ensures RawValue(f) != RawValue(g)
    ensures DisplayName(f) != DisplayName(g)
    ensures IconName(f) != IconName(g)
  {
  }
}
