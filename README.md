# Meeting-slot finder, QuickSort and CurrentTimeRange in Dafny

A model of the meeting-slot finder of the week-5 TDD walkthrough, of its
in-place QuickSort of events, and of the small mutable `CurrentTimeRange`.

`FindMeetingQuery.query` takes a day's events and a meeting request
(mandatory attendees, optional attendees, duration in minutes). It sorts the
events by start and builds three lists:

- the free ranges of the mandatory attendees, from one scan with a merged
  busy window (`GetMandatoryTimeRanges`);
- the merged busy ranges of the optional attendees (`GetOptionalTimeRanges`);
- the mandatory free ranges cut against the gaps between the optional busy
  ranges (`GetMixedTimeRanges`).

The answer is the mandatory free ranges when there are none or no optional
attendee is busy. Otherwise it is the mixed ranges, or the mandatory ones
again when no mixed range is left.

Each builder is a method with the source's loop. Each is proved equal to a
function that applies the loop body one element at a time. The properties
are lemmas about those functions, in one module per builder and one for the
whole query:

- `MandatoryProperties`, `OptionalProperties`, `MixedProperties`,
  `QueryProperties`.

`QuickSort.Partition` and `QuickSort.Sort` work in place on an
`array<Event>`. `CurrentTimeRange` is a class with 32-bit fields, and its end
wraps around like Java `int` addition.

Files:

- `time_range.dfy`: the `TimeRange` value, `END_OF_DAY` and the relations
  between ranges.
- `event.dfy`: `Event`, `MeetingRequest`, attendance, and the stable sort by
  start.
- `find_meeting_query.dfy`: the query and its builders.
- `mandatory_properties.dfy`, `optional_properties.dfy`,
  `mixed_properties.dfy`, `query_properties.dfy`: the lemmas.
- `quick_sort.dfy`, `modifiable_time_range.dfy`.

## Model

| member | source | states |
|---|---|---|
| TimeRanges.FromStartEnd | walkthroughs/week-5-tdd/project/src/main/java/com/google/sps/FindMeetingQuery.java:102-109 | a range built from a start and an end starts there and ends at the end, or one minute after it when the end is inclusive; it holds the end minute exactly when inclusive and not empty |
| TimeRanges.ContainsIsInclusion | walkthroughs/week-5-tdd/project/src/main/java/com/google/sps/FindMeetingQuery.java:155-168 | for ranges of positive duration, `contains` between ranges is inclusion of their sets of minutes, in both directions |
| Events.AttendedBy | walkthroughs/week-5-tdd/project/src/main/java/com/google/sps/FindMeetingQuery.java:90-94 | keeps exactly the events whose attendee set meets the given people |
| Events.AttendedByConcat | walkthroughs/week-5-tdd/project/src/main/java/com/google/sps/FindMeetingQuery.java:89-94 | filtering a sequence split in two is filtering each part and joining the results, so the kept events stay in input order |
| Events.NotAttendedBy | walkthroughs/week-5-tdd/project/src/main/java/com/google/sps/FindMeetingQuery.java:41-44 | keeps exactly the events nobody in the given set attends, and keeps a start-sorted sequence sorted |
| Events.InsertByStart | walkthroughs/week-5-tdd/project/src/main/java/com/google/sps/FindMeetingQuery.java:67 | inserting into a start-ordered list keeps it start-ordered and adds exactly that one event |
| Events.SortByStart | walkthroughs/week-5-tdd/project/src/main/java/com/google/sps/FindMeetingQuery.java:67 | the events sorted by start, as a permutation of the input (the sort before the scans) |
| Events.SortByStartSameEvents | walkthroughs/week-5-tdd/project/src/main/java/com/google/sps/FindMeetingQuery.java:67 | sorting keeps exactly the events it was given |
| FindMeetingQuery.GetMandatoryTimeRanges | walkthroughs/week-5-tdd/project/src/main/java/com/google/sps/FindMeetingQuery.java:85-112 | the loop's result is the mandatory scan of the events followed by the closing range to END_OF_DAY when long enough |
| FindMeetingQuery.GetOptionalTimeRanges | walkthroughs/week-5-tdd/project/src/main/java/com/google/sps/FindMeetingQuery.java:114-139 | the loop's result is the optional busy list: attended ranges appended or merged into the last one |
| FindMeetingQuery.WithSentinel | walkthroughs/week-5-tdd/project/src/main/java/com/google/sps/FindMeetingQuery.java:144-146 | the optional list is kept as a prefix, and the zero-length range at END_OF_DAY + 1 is appended exactly when the last range ends before that minute |
| FindMeetingQuery.GapAsWritten | walkthroughs/week-5-tdd/project/src/main/java/com/google/sps/FindMeetingQuery.java:148-152 | the k-th examined gap starts at the previous optional range's start (0 for the first) and ends at the k-th range's start |
| FindMeetingQuery.GapIntended | walkthroughs/week-5-tdd/project/src/main/java/com/google/sps/FindMeetingQuery.java:150 | corrected gap: starts at the previous optional range's end (0 for the first) and ends at the k-th range's start |
| FindMeetingQuery.AddGapPieces | walkthroughs/week-5-tdd/project/src/main/java/com/google/sps/FindMeetingQuery.java:154-173 | the inner loop appends, for one gap, the piece of every mandatory range, in order |
| FindMeetingQuery.GetMixedTimeRanges | walkthroughs/week-5-tdd/project/src/main/java/com/google/sps/FindMeetingQuery.java:141-176 | the nested loops yield the pieces of all mandatory ranges for all examined gaps, gap by gap |
| FindMeetingQuery.Query | walkthroughs/week-5-tdd/project/src/main/java/com/google/sps/FindMeetingQuery.java:63-83 | the answer is computed from the start-sorted events: the mandatory ranges when there are none or no optional busy ranges, else the mixed ranges, else the mandatory ones |
| MandatoryProperties.MandatoryIgnoresOtherEvents | walkthroughs/week-5-tdd/project/src/main/java/com/google/sps/FindMeetingQuery.java:90-94 | events that no mandatory attendee attends have no effect on the mandatory free ranges |
| MandatoryProperties.MandatorySlotsLongEnough | walkthroughs/week-5-tdd/project/src/main/java/com/google/sps/FindMeetingQuery.java:101-103 | every mandatory free range is at least as long as the meeting |
| MandatoryProperties.MandatorySlotsOrdered | walkthroughs/week-5-tdd/project/src/main/java/com/google/sps/FindMeetingQuery.java:95-105 | the mandatory free ranges are ascending and pairwise disjoint, none starts before minute 0, and all have positive duration except the one that closes the day |
| MandatoryProperties.MandatorySlotsWithinDay | walkthroughs/week-5-tdd/project/src/main/java/com/google/sps/FindMeetingQuery.java:108-110 | with events that do not run backwards or start after the day and a meeting of no negative duration, every free range lies in [0, END_OF_DAY + 1) |
| MandatoryProperties.MandatoryDayEndSlot | walkthroughs/week-5-tdd/project/src/main/java/com/google/sps/FindMeetingQuery.java:108-110 | after a scan, the free ranges end with [window end, END_OF_DAY] exactly when that stretch is at least as long as the meeting |
| MandatoryProperties.MandatorySlotsAreFree | walkthroughs/week-5-tdd/project/src/main/java/com/google/sps/FindMeetingQuery.java:95-105 | for start-sorted events, no mandatory free range shares a minute with an event that a mandatory attendee attends |
| MandatoryProperties.MandatorySlotsComplete | walkthroughs/week-5-tdd/project/src/main/java/com/google/sps/FindMeetingQuery.java:85-112 | every stretch of the day at least as long as the meeting that meets no mandatory attendee's event lies inside one mandatory free range, in any event order |
| OptionalProperties.OptionalIgnoresOtherEvents | walkthroughs/week-5-tdd/project/src/main/java/com/google/sps/FindMeetingQuery.java:117-123 | events that no optional attendee attends have no effect on the optional busy list |
| OptionalProperties.OptionalBusyEmpty | walkthroughs/week-5-tdd/project/src/main/java/com/google/sps/FindMeetingQuery.java:123-136 | the optional busy list is empty exactly when no optional attendee attends any event |
| OptionalProperties.OptionalBusyCovers | walkthroughs/week-5-tdd/project/src/main/java/com/google/sps/FindMeetingQuery.java:124-135 | every event that an optional attendee attends lies inside one busy range, in any event order |
| OptionalProperties.OptionalBusySpaced | walkthroughs/week-5-tdd/project/src/main/java/com/google/sps/FindMeetingQuery.java:127-134 | for start-sorted events, the busy ranges are ascending, none runs backwards, and at least one free minute lies between neighbours |
| OptionalProperties.OptionalBusyOnlyAttended | walkthroughs/week-5-tdd/project/src/main/java/com/google/sps/FindMeetingQuery.java:124-135 | for start-sorted events with no negative durations, every minute of every busy range belongs to an event an optional attendee attends |
| MixedProperties.Overlap | walkthroughs/week-5-tdd/project/src/main/java/com/google/sps/FindMeetingQuery.java:163-171 | the overlap of two ranges holds exactly the minutes both hold |
| MixedProperties.PieceIsOverlap | walkthroughs/week-5-tdd/project/src/main/java/com/google/sps/FindMeetingQuery.java:155-172 | where a gap and a mandatory range share a minute, the piece kept is their overlap when it is long enough, and nothing otherwise |
| MixedProperties.PieceOfSeparate | walkthroughs/week-5-tdd/project/src/main/java/com/google/sps/FindMeetingQuery.java:155-172 | a mandatory range that shares no minute with the gap contributes nothing to a meeting of positive duration |
| MixedProperties.GapRowFacts | walkthroughs/week-5-tdd/project/src/main/java/com/google/sps/FindMeetingQuery.java:154-173 | every piece of one gap lies inside the gap, inside one mandatory range, and is long enough when the mandatory ranges are |
| MixedProperties.GapRowOrdered | walkthroughs/week-5-tdd/project/src/main/java/com/google/sps/FindMeetingQuery.java:154-173 | the pieces of one gap are ascending and disjoint when the mandatory ranges are |
| MixedProperties.RowsFacts | walkthroughs/week-5-tdd/project/src/main/java/com/google/sps/FindMeetingQuery.java:149-174 | every mixed piece lies inside one examined gap and one mandatory range, and is long enough when the mandatory ranges are |
| MixedProperties.RowsOrdered | walkthroughs/week-5-tdd/project/src/main/java/com/google/sps/FindMeetingQuery.java:149-174 | the pieces of all gaps are ascending and disjoint when the gaps and the mandatory ranges are |
| MixedProperties.WithSentinelOrdered | walkthroughs/week-5-tdd/project/src/main/java/com/google/sps/FindMeetingQuery.java:144-146 | appending the sentinel keeps the optional list ascending and disjoint |
| MixedProperties.GapsAsWrittenOrdered | walkthroughs/week-5-tdd/project/src/main/java/com/google/sps/FindMeetingQuery.java:148-153 | the examined gaps follow each other without overlap when the optional starts ascend |
| MixedProperties.GapsIntendedOrdered | walkthroughs/week-5-tdd/project/src/main/java/com/google/sps/FindMeetingQuery.java:148-153 | the corrected gaps follow each other without overlap |
| MixedProperties.GapsIntendedAvoid | walkthroughs/week-5-tdd/project/src/main/java/com/google/sps/FindMeetingQuery.java:150 | no corrected gap shares a minute with an optional busy range |
| MixedProperties.MixedWithinMandatory | walkthroughs/week-5-tdd/project/src/main/java/com/google/sps/FindMeetingQuery.java:154-173 | every mixed range lies inside one mandatory free range |
| MixedProperties.MixedLongEnough | walkthroughs/week-5-tdd/project/src/main/java/com/google/sps/FindMeetingQuery.java:159-170 | every mixed range is at least as long as the meeting when the mandatory ranges are |
| MixedProperties.MixedOrdered | walkthroughs/week-5-tdd/project/src/main/java/com/google/sps/FindMeetingQuery.java:141-176 | the mixed ranges are ascending and disjoint when the mandatory and optional ranges are |
| MixedProperties.MixedSlotsAsWrittenMeetsOptional | walkthroughs/week-5-tdd/project/src/main/java/com/google/sps/FindMeetingQuery.java:150 | with the whole day free and one optional busy range o inside it, the mixed ranges as written are [0, o.start) and [o.start, 1440), and the second shares minutes with o |
| MixedProperties.MixedSlotsIntendedSkipsOptional | walkthroughs/week-5-tdd/project/src/main/java/com/google/sps/FindMeetingQuery.java:150 | on the same input, the corrected gaps give [0, o.start) and [o.end, 1440), the stretches around o |
| MixedProperties.MixedSlotsIntendedAvoidOptional | walkthroughs/week-5-tdd/project/src/main/java/com/google/sps/FindMeetingQuery.java:150 | cut against the corrected gaps, no mixed range shares a minute with an optional busy range |
| MixedProperties.MixedSlotsIntendedOrdered | walkthroughs/week-5-tdd/project/src/main/java/com/google/sps/FindMeetingQuery.java:141-176 | the corrected mixed ranges are ascending and disjoint |
| QueryProperties.QueryLongEnough | walkthroughs/week-5-tdd/project/src/main/java/com/google/sps/FindMeetingQuery.java:54-57 | every range the query answers is at least as long as the meeting |
| QueryProperties.QueryAvoidsMandatoryEvents | walkthroughs/week-5-tdd/project/src/main/java/com/google/sps/FindMeetingQuery.java:63-83 | no answered range shares a minute with an event a mandatory attendee attends |
| QueryProperties.QueryOrdered | walkthroughs/week-5-tdd/project/src/main/java/com/google/sps/FindMeetingQuery.java:63-83 | the answered ranges are ascending and pairwise disjoint |
| QueryProperties.QueryWithinDay | walkthroughs/week-5-tdd/project/src/main/java/com/google/sps/FindMeetingQuery.java:63-83 | every answered range lies within the day |
| QueryProperties.QueryEmptyIff | walkthroughs/week-5-tdd/project/src/main/java/com/google/sps/FindMeetingQuery.java:75-82 | the answer is empty exactly when the mandatory free ranges are |
| QueryProperties.QueryWithoutOptionalBusy | walkthroughs/week-5-tdd/project/src/main/java/com/google/sps/FindMeetingQuery.java:75-77 | when no optional attendee attends any event, the answer is the mandatory free ranges |
| QueryProperties.QueryIntendedAvoidsOptionalEvents | walkthroughs/week-5-tdd/project/src/main/java/com/google/sps/FindMeetingQuery.java:54-56 | with the corrected gaps the answer is the mandatory fallback or shares no minute with any optional attendee's event |
| QueryProperties.QueryAsWrittenMeetsOptionalEvent | walkthroughs/week-5-tdd/project/src/main/java/com/google/sps/FindMeetingQuery.java:150 | for a with no events and b busy over [600, 700), the answer is [0, 600) and [600, 1440), which overlaps b's event |
| QueryProperties.QueryIntendedSkipsOptionalEvent | walkthroughs/week-5-tdd/project/src/main/java/com/google/sps/FindMeetingQuery.java:150 | on the same day, the corrected answer is [0, 600) and [700, 1440) |
| QueryProperties.QueryFallsBackToMandatory | walkthroughs/week-5-tdd/project/src/main/java/com/google/sps/FindMeetingQuery.java:82 | for a busy over [0, 720) and b over [720, 1440), no mixed range is left and the answer is [720, 1440) |
| QueryProperties.MixedAgainstBusyToDayEnd | walkthroughs/week-5-tdd/project/src/main/java/com/google/sps/FindMeetingQuery.java:144-153 | one optional range running from inside the mandatory range [0, me) to the end of the day gets no end-of-day marker, and only the gap before it yields a mixed range |
| QueryProperties.MixedAgainstBusyAcrossEnd | walkthroughs/week-5-tdd/project/src/main/java/com/google/sps/FindMeetingQuery.java:148-172 | for one optional range o that starts inside the mandatory range [0, me) and ends after it, the code's gaps yield [0, o.start) and [o.start, me), and the second shares minutes with o |
| QueryProperties.MixedIntendedAgainstBusyAcrossEnd | walkthroughs/week-5-tdd/project/src/main/java/com/google/sps/FindMeetingQuery.java:150 | on the same input, the corrected gaps yield [0, o.start) only |
| QueryProperties.QueryKeepsSharedEvent | walkthroughs/week-5-tdd/project/src/main/java/com/google/sps/FindMeetingQuery.java:117-135 | b alone busy over [1000, 1100), a and b over [1050, 1440): the shared event is merged into b's busy range [1000, 1440), and the answer is [0, 1000), which meets neither event |
| QueryProperties.QueryDocumentedDropsSharedEvent | walkthroughs/week-5-tdd/project/src/main/java/com/google/sps/FindMeetingQuery.java:41-44 | with b's busy list built as the class comment describes, the same day is answered [0, 1000), [1000, 1050), and the second range meets b's event |
| QueryProperties.QueryDocumentedIntendedOnSharedEvening | walkthroughs/week-5-tdd/project/src/main/java/com/google/sps/FindMeetingQuery.java:41-44 | with that list and gaps starting at the previous busy range's end, the day is answered [0, 1000) again |
| QueryProperties.QueryDocumentedIntendedAvoidsAllEvents | walkthroughs/week-5-tdd/project/src/main/java/com/google/sps/FindMeetingQuery.java:41-56 | with that list and gaps starting at the previous busy range's end, the answer is the mandatory fallback or meets no event of any attendee |
| QuickSort.Swap | walkthroughs/week-5-tdd/project/src/main/java/com/google/sps/QuickSort.java:26-28 | the two cells are exchanged and no other cell changes |
| QuickSort.Partition | walkthroughs/week-5-tdd/project/src/main/java/com/google/sps/QuickSort.java:21-37 | returns the final place of the pivot event; before it in [low, pivot] all start strictly earlier, after it none earlier; the array is permuted and only [low, pivot] changes; with low > pivot only the two cells are exchanged |
| QuickSort.Sort | walkthroughs/week-5-tdd/project/src/main/java/com/google/sps/QuickSort.java:39-47 | eventsArray[low..pivot] ends in non-decreasing start order, the array is a permutation of the old one, and cells outside [low, pivot] are unchanged (nothing changes when low >= pivot) |
| QuickSort.PermutedSegment | walkthroughs/week-5-tdd/project/src/main/java/com/google/sps/QuickSort.java:39-47 | a permutation of the whole array that fixes everything outside a range permutes that range |
| ModifiableTimeRange.Wrap | walkthroughs/week-5-tdd/project/src/main/java/com/google/sps/ModifiableTimeRange.java:22 | the Java int value of a sum: the sum itself when it fits in 32 bits, congruent to it modulo 2^32 always |
| ModifiableTimeRange.WrapSumOfInt32 | walkthroughs/week-5-tdd/project/src/main/java/com/google/sps/ModifiableTimeRange.java:22 | the sum of two 32-bit values overflows at most once: the wrapped result differs by 0 or 2^32 |
| ModifiableTimeRange.CurrentTimeRange.constructor | walkthroughs/week-5-tdd/project/src/main/java/com/google/sps/ModifiableTimeRange.java:8-11 | stores the given start and duration unchanged |
| ModifiableTimeRange.CurrentTimeRange.End | walkthroughs/week-5-tdd/project/src/main/java/com/google/sps/ModifiableTimeRange.java:21-23 | end equals start + duration whenever that fits in an int, and is congruent to it modulo 2^32 |
| ModifiableTimeRange.CurrentTimeRange.SetStart | walkthroughs/week-5-tdd/project/src/main/java/com/google/sps/ModifiableTimeRange.java:25-27 | replaces only the start; the duration is unchanged and the end moves by the same amount (mod 2^32) |
| ModifiableTimeRange.CurrentTimeRange.SetDuration | walkthroughs/week-5-tdd/project/src/main/java/com/google/sps/ModifiableTimeRange.java:29-31 | replaces only the duration; the start is unchanged and the end moves by the same amount (mod 2^32) |

## Left out

- TimeRange, Event and MeetingRequest are not part of this model. Their behaviour is declared in `time_range.dfy` and `event.dfy`:
  - `end = start + duration`, and `fromStartEnd` adds one minute when inclusive;
  - `contains(int)` is half-open;
  - `contains(range)` is false for an empty range, tests an empty other range as its start point, and otherwise tests the other range's first and last minute;
  - `END_OF_DAY` is 1439;
  - `Event.ORDER_BY_TIMERANGE_START_TIME` compares starts.
- Java `int` overflow in `FindMeetingQuery` is not modelled. Minutes are unbounded integers there, because a day's minutes are far from the 32-bit limits.
- `Collections.sort` is modelled by a stable insertion sort, `Events.SortByStart`. The library's own algorithm is not modelled, only its result: start-ordered, equal starts in input order.
- `Collections.unmodifiableList`, `LinkedList` and `ArrayList` become values of type `seq`. Read-only views and list identity are not modelled.
- `getMixedTimeRanges` appends the sentinel to the list it was given. The model appends it to a local copy, because `query` never reads that list afterwards.
- The optional busy list is built from every event an optional attendee attends (FindMeetingQuery.java:117-136), including events a mandatory attendee also attends. The class comment at FindMeetingQuery.java:41-44 says such events are skipped. The model follows the code, and the comment's list is `OptionalBusyDocumented`. The two lists can give different answers (`QueryKeepsSharedEvent`, `QueryDocumentedDropsSharedEvent`). The code's answer on that day meets no attendee's event. The comment's list, cut by the code's gaps, offers a range that meets b's event. With gaps that start at the previous busy range's end, the comment's list gives the code's answer again (`QueryDocumentedIntendedOnSharedEvening`).
- The getters `start()` and `duration()` of `CurrentTimeRange` are modelled as reads of the fields `start` and `duration`.
- MandatoryProperties.MandatoryDayEndSlot: stated over any scan state of the shape every scan of non-backwards events has (proved by `ScanOrdered` and `ScanLongEnough`), not directly over events.
- MandatoryProperties.MandatorySlotsAreFree: assumes events sorted by start, as `query` guarantees, and durations that are not negative.
- QueryProperties.QueryAvoidsMandatoryEvents: assumes durations that are not negative, for events and for the meeting. Without that, the range that closes the day can run backwards.
- QueryProperties.QueryOrdered: same assumptions as QueryAvoidsMandatoryEvents.
- QueryProperties.QueryWithinDay: also assumes that no event starts after the day.
- QueryProperties.QueryIntendedAvoidsOptionalEvents: holds only when the answer is not the mandatory fallback. The fallback may overlap optional attendees' events, as the source intends.
- QuickSort.Partition: requires `low` and `pivot` to be indices of the array; on other indices the Java method throws ArrayIndexOutOfBoundsException, which is not modelled.
- QuickSort.Sort: requires, when `low < pivot`, both to be indices of the array, for the same reason.
- The as-written query is not proved to avoid optional attendees' events, because it does not (see Findings).

## Findings

| source | as written | input that shows it | evidently intended | confidence | as-written member | corrected member |
|---|---|---|---|---|---|---|
| walkthroughs/week-5-tdd/project/src/main/java/com/google/sps/FindMeetingQuery.java:150 | each examined gap starts at the previous optional busy range's start, so it holds that busy range | mandatory attendee a has no events; optional attendee b is busy over [600, 700); duration 30. The answer is [0, 600) and [600, 1440), and the second range holds b's event | the gap starts at the previous optional range's end, so the answer is [0, 600) and [700, 1440) | high; not executed | QueryProperties.QueryAsWrittenMeetsOptionalEvent | QueryProperties.QueryIntendedAvoidsOptionalEvents |

`FindMeetingQuery.Query` keeps the code's behaviour, `QueryResult`.

The corrected behaviour is `QueryResultIntended`, built on
`MixedSlotsIntended` and `GapIntended`. For it, the lemmas prove:

- no answered range other than the fallback meets an optional attendee's
  event (`QueryIntendedAvoidsOptionalEvents`);
- the mixed ranges are ordered (`MixedSlotsIntendedOrdered`);
- on the day above, the answer is [0, 600) and [700, 1440)
  (`QueryIntendedSkipsOptionalEvent`).
