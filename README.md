# RoofQuoter activity tracker — a verified model

RoofQuoter is an iOS app. Part of it is a personal activity tracker: the user defines
*activity types* (Push-ups, Guitar Practice, …), each recording some of four *tracking fields* (reps,
minutes, count, notes). The user logs occurrences of those activities and sets goals on a field.
This project models the logic behind that tracker:

- the tracking-field enumeration;
- the three persistent records, as Dafny classes:
  - `ActivityType`;
  - `ActivityLog`;
  - `ActivityGoal`, with its progress, percentage and achievement;
- the statistics engine:
  - totals and averages;
  - closed-interval date filters and the today / week / month wrappers;
  - grouping by the name of the activity type;
  - the current day streak;
- the record store the app talks to, with insert, delete and fetch;
- the seeder that installs the four default activity types on first launch;
- the list screen's logic:
  - the quick-action buttons that look types up by name and insert a log;
  - deleting the logs at a set of positions;
  - the integer part of the `Color(hex:)` decoder.

Modules, one per file:
- `TrackingFields` (`tracking_field.dfy`);
- `Records` (`records.dfy`);
- `Statistics` (`statistics.dfy`);
- `Store` (`store.dfy`);
- `Seeder` (`seeder.dfy`);
- `QuickActions` (`quick_actions.dfy`);
- `HexColor` (`hex_color.dfy`);
- a small `Wrappers` module with `Option`.

Faithful to the code:
- Loops become methods with loop invariants. Each method is proved equal to a specification
  function, and the lemmas are stated about those functions.
- Objects whose fields the app updates are classes. The store's lists are `seq` fields that its
  methods reassign.

Time is an integer number of seconds. The calendar is fixed: day `d` is the seconds
`[d * 86400, (d + 1) * 86400)`. "Now", "today" and the week and month bounds are parameters.

Where the documentation and the code disagree, the model follows the code:
- The doc comment of `currentStreak` says it counts "consecutive days". The loop, at lines 75-94 of
  `ActivityStatistics.swift`, counts the k-th most recent log day when it is today−k or today−k−1.
  So when today holds a log and the counted days so far are exactly consecutive, one missing day
  further back is skipped over instead of ending the streak. After a skip (or when today has no
  log) every later counted day must be exactly consecutive. Days 1, 2 and 4 as of day 4 give 3, not
  1; days 1 and 3 as of day 4 give 1.
  - `Statistics.Streak` and `Statistics.CurrentStreak` model the loop as written.
  - The consecutive reading is `Statistics.ConsecutiveStreak`; see Findings.
- `logsToday`, `logsThisWeek` and `logsThisMonth` call the closed-interval filter with the start of
  the *next* period as the upper bound. A log stamped exactly at the next midnight (or at the next
  week or month start) is therefore kept: the filters are not half-open.

## Model

| member | source | states |
|---|---|---|
| TrackingFields.FromRawValue | RoofQuoter/TrackingField.swift:11-15 | Decoding a raw value yields a case whose raw value is that string, and fails exactly when no case has that raw value |
| TrackingFields.RawValue | RoofQuoter/TrackingField.swift:11-15 | Each case's raw value is its own case name, which is the display name in lower case |
| TrackingFields.RawValueRoundTrip | RoofQuoter/TrackingField.swift:11-15 | Decoding the raw value of any case gives back that case |
| TrackingFields.AllCasesComplete | RoofQuoter/TrackingField.swift:11-15 | `allCases` has four entries, contains every case, and has no case twice |
| TrackingFields.NamesAreDistinct | RoofQuoter/TrackingField.swift:17-43 | Two different cases have different raw values, different display names and different icon names |
| Records.ActivityType.constructor | RoofQuoter/ActivityType.swift:50-64 | The new type stores name, category, fields, icon and colour as given, and the creation time is the supplied clock reading. Icon and colour default to nil; the relationship lists start as nil |
| Records.ActivityType.Tracks | RoofQuoter/ActivityType.swift:69-71 | A type tracks a field exactly when the field occurs at some position of its tracking-field list |
| Records.ActivityLog.constructor | RoofQuoter/ActivityLog.swift:50-67 | Every argument is stored unchanged, with no validation. The optional values default to nil, the tags default to empty, and the goal link is nil |
| Records.FieldSumAppend | RoofQuoter/ActivityStatistics.swift:17-35 | Field totals are additive over concatenation of log lists |
| Records.FieldSumNotesIsZero | RoofQuoter/ActivityStatistics.swift:28-30 | The notes field contributes 0 to every total, whatever the logs hold |
| Records.FieldSumIsSumOfPresent | RoofQuoter/ActivityStatistics.swift:20-32 | The total of a field equals the sum of the values present in the logs; a missing value adds nothing |
| Records.ActivityGoal.constructor | RoofQuoter/ActivityGoal.swift:46-60 | The goal stores type, target and field as given. Period defaults to "daily" and isActive to true; the creation time is the supplied clock reading |
| Records.ActivityGoal.CalculateProgress | RoofQuoter/ActivityGoal.swift:65-83 | The loop's result equals the goal field's total over the given logs (absent counts 0, notes count nothing), with no date filtering |
| Records.ActivityGoal.ProgressPercentage | RoofQuoter/ActivityGoal.swift:88-92 | A target of 0 or less gives 0 whatever the progress |
| Records.ProgressIsAdditive | RoofQuoter/ActivityGoal.swift:65-83 | Progress over two concatenated log lists equals the sum of the progress over each |
| Records.NotesGoalHasNoProgress | RoofQuoter/ActivityGoal.swift:76-78 | A notes goal has progress 0 and percentage 0, and is achieved exactly when its target is at most 0 |
| Records.AchievedAtBoundary | RoofQuoter/ActivityGoal.swift:97-99 | Progress equal to the target counts as achieved; progress one below the target does not |
| Records.PercentageReachesHundredIffAchieved | RoofQuoter/ActivityGoal.swift:88-99 | With a positive target, the percentage is at least 100 exactly when the goal is achieved |
| Statistics.DayOfBounds | RoofQuoter/ActivityStatistics.swift:56-63 | A timestamp falls in calendar day `d` exactly when it lies in the half-open interval from that day's start to the next day's start |
| Statistics.Total | RoofQuoter/ActivityStatistics.swift:17-35 | The loop's sum equals the field's total over the logs |
| Statistics.Average | RoofQuoter/ActivityStatistics.swift:42-47 | No logs give 0.0; otherwise the average times the number of logs equals the total |
| Statistics.AverageOfNotesIsZero | RoofQuoter/ActivityStatistics.swift:28-30 | The average of the notes field is 0 for every input |
| Statistics.LogsBetween | RoofQuoter/ActivityStatistics.swift:105-109 | The result is no longer than the input. A log is in it exactly when it is in the input and its timestamp lies in the closed interval |
| Statistics.LogsBetweenAppend | RoofQuoter/ActivityStatistics.swift:105-109 | Filtering distributes over concatenation, so input order is kept |
| Statistics.LogsBetweenSingle | RoofQuoter/ActivityStatistics.swift:106-108 | A single log is kept exactly when it is in range. Both ends are inclusive: a log at `start` passes the one-instant interval `[start, start]` |
| Statistics.LogsBetweenMultiplicity | RoofQuoter/ActivityStatistics.swift:105-109 | Every occurrence of an in-range log is kept and every occurrence of an out-of-range log is dropped |
| Statistics.LogsToday | RoofQuoter/ActivityStatistics.swift:114-120 | The result is no longer than the input. A log is in it exactly when it is in the input and its timestamp lies from the start of today up to and including the start of tomorrow |
| Statistics.LogsTodayByDay | RoofQuoter/ActivityStatistics.swift:114-120 | A log is among today's logs exactly when it falls on calendar day `today` or is stamped at the very next midnight |
| Statistics.LogsInPeriod | RoofQuoter/ActivityStatistics.swift:125-150 | The week and month filters give an empty result when the calendar supplies no period start or no next-period start |
| Statistics.PeriodFiltersIncludeNextBoundary | RoofQuoter/ActivityStatistics.swift:125-150 | With both bounds supplied, a log is kept exactly when it lies from the period's start up to and including the next period's start |
| Statistics.GroupByActivityType | RoofQuoter/ActivityStatistics.swift:155-164 | The keys of the loop's dictionary are exactly the keys of the logs, where a log's key is its type's name or "Unknown". Each bucket is exactly the logs with that key, in input order |
| Statistics.LogsWithKeyMembership | RoofQuoter/ActivityStatistics.swift:158-161 | A log is in the bucket for a key exactly when it is an input log with that key |
| Statistics.LogsWithKeyAppend | RoofQuoter/ActivityStatistics.swift:158-161 | Grouping distributes over concatenation, so every bucket keeps input order |
| Statistics.GroupSizesSumToLength | RoofQuoter/ActivityStatistics.swift:155-164 | For a duplicate-free key list covering every log's key, the bucket sizes add up to the number of logs |
| Statistics.SortedDescending | RoofQuoter/ActivityStatistics.swift:67 | The sorted days have the set's size, the same elements, and are strictly decreasing |
| Statistics.Streak | RoofQuoter/ActivityStatistics.swift:75-94 | The streak never exceeds the number of distinct log days |
| Statistics.LogsByDay | RoofQuoter/ActivityStatistics.swift:60-64 | The bucketing loop's keys are exactly the days holding a log; each day's bucket is exactly that day's logs in input order |
| Statistics.CurrentStreak | RoofQuoter/ActivityStatistics.swift:53-97 | The method, with its empty-input and recency guards, returns the walk over the distinct log days sorted most recent first, starting from today |
| Statistics.CountStreak | RoofQuoter/ActivityStatistics.swift:75-94 | The counting loop with its break returns the walk over the sorted days from today |
| Statistics.StreakCharacterization | RoofQuoter/ActivityStatistics.swift:75-94 | Characterises a streak of `n`: for every `k < n`, the `k`-th most recent day is today−k or today−k−1, and day `n` (if any) is outside its window |
| Statistics.StreakOfNoDays | RoofQuoter/ActivityStatistics.swift:54 | No logs give a streak of 0 |
| Statistics.StreakZeroWhenStale | RoofQuoter/ActivityStatistics.swift:70-73 | If every log day is before yesterday, the streak is 0 |
| Statistics.StreakZeroWhenFuture | RoofQuoter/ActivityStatistics.swift:79-93 | A log day after today makes the streak 0 |
| Statistics.RecencyGuardIsRedundant | RoofQuoter/ActivityStatistics.swift:70-73 | When the most recent day is more than a day old, the walk already gives 0, so the guard never changes the result |
| Statistics.StreakToleratesOneGap | RoofQuoter/ActivityStatistics.swift:81-89 | Once a counted day uses the one-day slack, every later counted day is exactly consecutive |
| Statistics.StreakSpan | RoofQuoter/ActivityStatistics.swift:75-94 | The first and last counted days are at most `streak` days apart |
| Statistics.StreakIgnoresOrder | RoofQuoter/ActivityStatistics.swift:60-67 | Two log lists that are permutations of each other have the same log days and the same streak |
| Statistics.StreakIgnoresRepeatedDays | RoofQuoter/ActivityStatistics.swift:60-67 | Another log on a day that already holds one leaves the days, and so the streak, unchanged |
| Statistics.StreakExampleWithGap | RoofQuoter/ActivityStatistics.swift:75-94 | Days 1, 2 and 4 as of day 4 give a streak of 3 |
| Statistics.StreakExampleMissingToday | RoofQuoter/ActivityStatistics.swift:75-94 | Days 1 and 3 as of day 4 give a streak of 1 |
| Statistics.ConsecutiveStreak | RoofQuoter/ActivityStatistics.swift:49-52 | The consecutive-day streak never exceeds the number of log days |
| Statistics.ConsecutiveStreakCharacterization | RoofQuoter/ActivityStatistics.swift:49-52 | Characterises a consecutive streak of `n`: the most recent day is today or yesterday, the `n` counted days are consecutive calendar days, and the next log day is not the day before them. A streak of 0 means the most recent day is neither today nor yesterday |
| Statistics.ConsecutiveStreakAtMostStreak | RoofQuoter/ActivityStatistics.swift:75-94 | The loop as written never counts fewer days than the consecutive reading |
| Statistics.StreakGapFinding | RoofQuoter/ActivityStatistics.swift:86-89 | On days 1, 2 and 4 as of day 4, the loop as written gives 3 while the consecutive reading gives 1 |
| Store.Filter | RoofQuoter/ActivityListView.swift:58-64 | The surviving logs are no more than before. A log survives exactly when it was in the store and was not deleted |
| Store.FilterNothing | RoofQuoter/ActivityListView.swift:58-64 | Deleting nothing keeps the store's logs unchanged, in order |
| Store.FilterThenRemove | RoofQuoter/ActivityListView.swift:60-62 | Deleting one more log after a batch is the same as deleting the larger batch |
| Store.ModelContext.InsertType | RoofQuoter/ActivityDataSeeder.swift:38 | A new type is appended; inserting a type already in the store changes nothing. Logs are untouched |
| Store.ModelContext.InsertLog | RoofQuoter/ActivityListView.swift:185 | A new log is appended; inserting a log already in the store changes nothing. Types are untouched |
| Store.ModelContext.DeleteLog | RoofQuoter/ActivityListView.swift:61 | Every occurrence of the log leaves the store and nothing else changes |
| Store.ModelContext.FetchTypes | RoofQuoter/ActivityDataSeeder.swift:17-20 | A failing fetch yields no result; otherwise it yields exactly the stored types |
| Seeder.SeedDefaultActivityTypes | RoofQuoter/ActivityDataSeeder.swift:15-78 | Logs are never touched. A failed fetch or a store that already has types is left unchanged. A successful fetch on an empty store leaves exactly the four defaults, newly created, in order, with the listed fields, icons and colours. A successful fetch always ends with at least one type |
| Seeder.AddType | RoofQuoter/ActivityDataSeeder.swift:31-38 | One default is created from its description, stamped `now`, and appended to the store |
| Seeder.SeedTwice | RoofQuoter/ActivityDataSeeder.swift:22-26 | Seeding is idempotent: after one successful run, a second run leaves the store as the first left it |
| Seeder.DefaultNamesDistinct | RoofQuoter/ActivityDataSeeder.swift:31-68 | The four default names are pairwise different |
| Seeder.DefaultFields | RoofQuoter/ActivityDataSeeder.swift:31-68 | Every default records at least one field, and only Sales Calls records more than one |
| QuickActions.FirstNamed | RoofQuoter/ActivityListView.swift:128 | The lookup returns the first position whose type has that name, or nothing when no type has it |
| QuickActions.Buttons | RoofQuoter/ActivityListView.swift:126-146 | At most two buttons, each for a type in the store |
| QuickActions.PushUpsButton | RoofQuoter/ActivityListView.swift:128-135 | The Push-ups button is shown first exactly when some type is named "Push-ups"; it then adds 10 to the first such type |
| QuickActions.SitUpsButton | RoofQuoter/ActivityListView.swift:138-145 | The Sit-ups button is shown last exactly when some type is named "Sit-ups"; it then adds 20 to the first such type |
| QuickActions.ButtonsAfterSeeding | RoofQuoter/ActivityListView.swift:128-145 | After seeding an empty store, the buttons are "+10 Push-ups" for the seeded Push-ups type and "+20 Sit-ups" for the seeded Sit-ups type |
| QuickActions.LogActivity | RoofQuoter/ActivityListView.swift:178-187 | A fresh log is appended. It has the button's type, reps set to the button's value, the current time, and every other field at its default. The store's reps total grows by exactly the value |
| QuickActions.DeleteLogs | RoofQuoter/ActivityListView.swift:58-64 | After deleting the shown log at each offset, the store holds its old logs minus every picked log; the types do not change |
| QuickActions.DeletedLogs | RoofQuoter/ActivityListView.swift:58-64 | A log survives exactly when it was stored and sits at none of the picked offsets |
| HexColor.FirstAlnum | RoofQuoter/ActivityListView.swift:193 | The first alphanumeric position at or after the start, with nothing alphanumeric skipped |
| HexColor.TrimBounds | RoofQuoter/ActivityListView.swift:193 | The cut leaves only non-alphanumerics outside. The kept part starts and ends with an alphanumeric, and is empty only when there is none |
| HexColor.Trim | RoofQuoter/ActivityListView.swift:193 | The trimmed string is no longer than the input and, when non-empty, starts and ends with an alphanumeric |
| HexColor.TrimUnique | RoofQuoter/ActivityListView.swift:193 | Any cut meeting the trimming characterisation is the one `Trim` makes |
| HexColor.TrimKeepsAlnumEnds | RoofQuoter/ActivityListView.swift:193 | A string that starts and ends with an alphanumeric is not changed by trimming |
| HexColor.TrimIdempotent | RoofQuoter/ActivityListView.swift:193 | Trimming twice is the same as trimming once |
| HexColor.TrimIgnoresLeadingMark | RoofQuoter/ActivityListView.swift:193 | A leading `#` or other non-alphanumeric makes no difference to the trimmed string |
| HexColor.HexNumber | RoofQuoter/ActivityListView.swift:194-195 | A string of `k` hexadecimal digits denotes a number below 16^k |
| HexColor.ScanHex | RoofQuoter/ActivityListView.swift:194-195 | The scanned value has no more hexadecimal digits than the string has characters |
| HexColor.ScanAllHex | RoofQuoter/ActivityListView.swift:194-195 | An all-hexadecimal string scans to the number it denotes |
| HexColor.ScanNonHexStart | RoofQuoter/ActivityListView.swift:194-195 | A string that does not start with a hexadecimal digit scans to 0, the initial value |
| HexColor.Components | RoofQuoter/ActivityListView.swift:197-205 | Splitting a value with no more digits than the length gives four components, each in 0..255 |
| HexColor.Decode | RoofQuoter/ActivityListView.swift:192-206 | Every component of every decoded colour is in 0..255, for any input string |
| HexColor.OtherLengthsAreOpaqueBlack | RoofQuoter/ActivityListView.swift:204-205 | A trimmed length other than 3, 6 or 8 gives opaque black, whatever the characters |
| HexColor.ThreeDigits | RoofQuoter/ActivityListView.swift:198-199 | Three digits give an opaque colour whose channels are the digits scaled by 17 |
| HexColor.SixDigits | RoofQuoter/ActivityListView.swift:200-201 | Six digits give an opaque colour whose channels are the three digit pairs |
| HexColor.EightDigits | RoofQuoter/ActivityListView.swift:202-203 | Eight digits give alpha, red, green and blue from the four digit pairs |
| HexColor.ScanStopsAtFirstNonHex | RoofQuoter/ActivityListView.swift:194-201 | In "#12G456" only "12" is scanned, and it lands in blue: the colour is (255, 0, 0, 0x12) |
| HexColor.EightNonHexIsTransparent | RoofQuoter/ActivityListView.swift:194-203 | Eight characters not starting with a hexadecimal digit give transparent black |
| HexColor.PushUpsColour | RoofQuoter/ActivityListView.swift:192-206 | The Push-ups colour "#FF5733" decodes to (255, 255, 0x57, 0x33) |

## Findings

| source | as written | input that shows it | evidently intended | confidence | as-written member | corrected member |
|---|---|---|---|---|---|---|
| RoofQuoter/ActivityStatistics.swift:75-94 | The loop accepts a day that is today−k or today−k−1 and then always moves the expected day back by one. When today holds a log, a single missing day further back is skipped over instead of ending the streak | Log days 1, 2 and 4, evaluated on day 4: the loop returns 3 | The doc comment says "number of consecutive days" and the `else` branch says a gap breaks the streak. The most recent day should be today or yesterday, and each later counted day exactly one day before the previous one, giving 1 | medium (not executed) | Statistics.StreakGapFinding | Statistics.ConsecutiveStreak |

`Statistics.CurrentStreak` keeps the behaviour as written: the app shows that number.
`Statistics.ConsecutiveStreakCharacterization` proves the intended property of the corrected
definition. `Statistics.ConsecutiveStreakAtMostStreak` shows the code can only overcount.

## Left out

- Identifiers: `UUID()` values are left out, and object identity stands in for them.
- The clock: `Date()` in the initialisers and in the statistics becomes an explicit time parameter
  (`now`, `today`).
- The calendar:
  - the time zone, daylight-saving time and locale are left out;
  - `startOfDay` is whole days of 86400 seconds;
  - the week and month bounds are parameters supplied by the caller;
  - the `?? Date()` and `?? currentDay` fallbacks cannot fire in a fixed calendar, so they are not
    modelled.
- Statistics.Total: does not model `Int` overflow (a trap in Swift); integers are unbounded.
- Records.ActivityGoal.CalculateProgress: does not model `Int` overflow, for the same reason.
- Statistics.Average: is computed over reals, not `Double`, so rounding is not modelled.
- Records.ActivityGoal.ProgressPercentage: is computed over reals, not `Double`, for the same
  reason.
- Records.ActivityGoal.IsAchieved: it carries no contract of its own. Its behaviour is stated by
  NotesGoalHasNoProgress, AchievedAtBoundary and PercentageReachesHundredIffAchieved.
- TrackingFields.DisplayName and TrackingFields.IconName: plain tables. They are stated only
  through NamesAreDistinct.
- The `Codable` conformance: it is modelled only as the raw-value round trip; JSON encoding is
  left out.
- HexColor.Trim: the alphanumerics are ASCII letters and digits; Unicode letters and digits that
  `CharacterSet.alphanumerics` also contains are not modelled.
- HexColor.Decode:
  - `count` is the number of characters, not grapheme clusters;
  - the scanner does not accept a "0x" prefix;
  - there is no overflow past 64 bits (no trimmed string of length 3, 6 or 8 can reach it);
  - the conversion of the components to `Double` fractions of 255 and the `Color` value are left
    out.
- Persistence:
  - the SwiftData `save()`, its failure (swallowed by the same `catch` as a failed fetch) and
    change tracking are left out;
  - the cascade delete rules and inverse-relationship maintenance of the `@Relationship` lists are
    left out (those lists start as nil and are never set by the model).
- Console output: the `print` messages of the seeder are left out.
- The user interface: the SwiftUI views, animations, navigation, `@Query` sorting and the
  `DateFormatter`-based properties of `ActivityLog` (`timeOfDay`, `dateString`,
  `formattedTimestamp`) are not part of this model.
- The activity list as `@Query` returns it: `DeleteLogs` takes the list as shown (`shown`) as a
  parameter; the sorting that produced it is not modelled.
- Measurements, photos and the roof-quoting screens: these are the rest of the app and are not part
  of this model.
