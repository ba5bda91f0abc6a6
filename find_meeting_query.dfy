/** The meeting-slot finder: given a day's events and a meeting request, the
    free time ranges for the mandatory attendees, narrowed where possible to
    ranges that also suit the optional attendees.

    Each builder is a method with the source's loop, proved equal to a
    function that takes the loop body one event (or one range) at a time.
    Lemmas about those functions are in the *Properties modules. */
module FindMeetingQuery {
  import opened TimeRanges
  import opened Events

  function Min(a: int, b: int): int { if a <= b then a else b }
  function Max(a: int, b: int): int { if a >= b then a else b }

  // ---------------------------------------------------------------------
  // Free ranges of the mandatory attendees

  /** The state of the mandatory scan: the merged busy window ending at the
      latest busy minute seen, and the free ranges found so far. */
  datatype Scan = Scan(window: TimeRange, slots: seq<TimeRange>)

  /** The loop body of the mandatory scan, for one event. An event nobody
      mandatory attends is skipped. One that starts at or before the window's
      end is merged into the window; one that starts later closes the gap
      before it, which is kept when it is long enough, and becomes the new
      window. */
  function MandatoryStep(st: Scan, e: Event, request: MeetingRequest): Scan {
    if !Attends(e, request.attendees) then st
    else if e.when.start <= st.window.End() then
      Scan(FromStartEnd(Min(e.when.start, st.window.start), Max(e.when.End(), st.window.End()), false),
           st.slots)
    else
      var slots :=
        if e.when.start - st.window.End() >= request.duration
        then st.slots + [FromStartEnd(st.window.End(), e.when.start, false)]
        else st.slots;
      Scan(FromStartEnd(e.when.start, e.when.End(), false), slots)
  }

  /** The mandatory scan over `events`, starting from the empty window at
      minute 0. */
  function MandatoryScan(events: seq<Event>, request: MeetingRequest): Scan {
    if events == [] then Scan(FromStartDuration(0, 0), [])
    else MandatoryStep(MandatoryScan(events[..|events| - 1], request), events[|events| - 1], request)
  }

  /** The final range from the window's end to the end of the day, inclusive
      of END_OF_DAY, when it is long enough. */
  function DayEndSlot(st: Scan, request: MeetingRequest): seq<TimeRange> {
    if END_OF_DAY + 1 - st.window.End() >= request.duration
    then [FromStartEnd(st.window.End(), END_OF_DAY, true)]
    else []
  }

  /** The free ranges of the mandatory attendees. */
  function MandatorySlots(events: seq<Event>, request: MeetingRequest): seq<TimeRange> {
    var st := MandatoryScan(events, request);
    st.slots + DayEndSlot(st, request)
  }

  method GetMandatoryTimeRanges(request: MeetingRequest, eventsList: seq<Event>)
    returns (mandatoryTimeRanges: seq<TimeRange>)
    ensures mandatoryTimeRanges == MandatorySlots(eventsList, request)
  {
    mandatoryTimeRanges := [];
    var mandatoryAttendees := request.attendees;
    var window := FromStartDuration(0, 0);
    for i := 0 to |eventsList|
      invariant Scan(window, mandatoryTimeRanges) == MandatoryScan(eventsList[..i], request)
    {
      var event := eventsList[i];
      assert eventsList[..i + 1][..i] == eventsList[..i];
      if event.attendees * mandatoryAttendees != {} {
        if event.when.start <= window.End() {
          var newStartTime := Min(event.when.start, window.start);
          var newEndTime := Max(event.when.End(), window.End());
          window := FromStartEnd(newStartTime, newEndTime, false);
        } else {
          if event.when.start - window.End() >= request.duration {
            mandatoryTimeRanges := mandatoryTimeRanges + [FromStartEnd(window.End(), event.when.start, false)];
          }
          window := FromStartEnd(event.when.start, event.when.End(), false);
        }
      }
    }
    assert eventsList[..|eventsList|] == eventsList;
    if END_OF_DAY + 1 - window.End() >= request.duration {
      mandatoryTimeRanges := mandatoryTimeRanges + [FromStartEnd(window.End(), END_OF_DAY, true)];
    }
  }

  // ---------------------------------------------------------------------
  // Busy ranges of the optional attendees

  /** The loop body of the optional scan, for one event. An event nobody
      optional attends is skipped (whether or not mandatory attendees attend
      it). Otherwise its range is appended when the list is empty or it
      starts after the last range's end, and merged into the last range when
      it starts at or before that end. */
  function OptionalStep(busy: seq<TimeRange>, e: Event, request: MeetingRequest): seq<TimeRange> {
    if !Attends(e, request.optionalAttendees) then busy
    else if busy == [] then [e.when]
    else
      var last := busy[|busy| - 1];
      if e.when.start <= last.End() then
        busy[..|busy| - 1] + [FromStartEnd(Min(e.when.start, last.start), Max(e.when.End(), last.End()), false)]
      else busy + [e.when]
  }

  /** The merged busy ranges of the optional attendees. */
  function OptionalBusy(events: seq<Event>, request: MeetingRequest): seq<TimeRange> {
    if events == [] then []
    else OptionalStep(OptionalBusy(events[..|events| - 1], request), events[|events| - 1], request)
  }

  method GetOptionalTimeRanges(request: MeetingRequest, eventsList: seq<Event>)
    returns (optionalTimeRanges: seq<TimeRange>)
    ensures optionalTimeRanges == OptionalBusy(eventsList, request)
  {
    optionalTimeRanges := [];
    var optionalAttendees := request.optionalAttendees;
    for i := 0 to |eventsList|
      invariant optionalTimeRanges == OptionalBusy(eventsList[..i], request)
    {
      var event := eventsList[i];
      assert eventsList[..i + 1][..i] == eventsList[..i];
      var lastElement := |optionalTimeRanges| - 1;
      if event.attendees * optionalAttendees != {} {
        if optionalTimeRanges == [] {
          optionalTimeRanges := optionalTimeRanges + [event.when];
        } else if event.when.start <= optionalTimeRanges[lastElement].End() {
          var newStartTime := Min(event.when.start, optionalTimeRanges[lastElement].start);
          var newEndTime := Max(event.when.End(), optionalTimeRanges[lastElement].End());
          optionalTimeRanges := optionalTimeRanges[..lastElement];
          optionalTimeRanges := optionalTimeRanges + [FromStartEnd(newStartTime, newEndTime, false)];
        } else {
          optionalTimeRanges := optionalTimeRanges + [event.when];
        }
      }
    }
    assert eventsList[..|eventsList|] == eventsList;
  }

  // ---------------------------------------------------------------------
  // Free ranges of the mandatory attendees cut against the optional ones

  /** The optional busy list closed by a zero-length range at the minute
      after END_OF_DAY, unless its last range already reaches that minute. */
  function WithSentinel(optional: seq<TimeRange>): (r: seq<TimeRange>)
    requires |optional| > 0
    ensures |optional| <= |r| && r[..|optional|] == optional
    ensures |r| == |optional| + 1 <==> optional[|optional| - 1].End() < END_OF_DAY + 1
    ensures |r| == |optional| || (|r| == |optional| + 1 && r[|optional|] == TimeRange(END_OF_DAY + 1, 0))
  {
    if optional[|optional| - 1].End() < END_OF_DAY + 1
    then optional + [FromStartDuration(END_OF_DAY + 1, 0)]
    else optional
  }

  /** The range that the source examines before the k-th optional range: it
      runs from the START of the previous optional range (minute 0 before the
      first) to the start of the k-th. */
  function GapAsWritten(optional: seq<TimeRange>, k: nat): (r: TimeRange)
    requires k < |optional|
    ensures r.start == (if k == 0 then 0 else optional[k - 1].start)
    ensures r.End() == optional[k].start
  {
    FromStartEnd(if k == 0 then 0 else optional[k - 1].start, optional[k].start, false)
  }

  function GapsAsWritten(optional: seq<TimeRange>): (r: seq<TimeRange>)
    ensures |r| == |optional|
    ensures forall k :: 0 <= k < |r| ==> r[k] == GapAsWritten(optional, k)
  {
    seq(|optional|, k requires 0 <= k < |optional| => GapAsWritten(optional, k))
  }

  /** What one mandatory range contributes for one gap: the part of it the
      gap covers, kept when long enough (a mandatory range inside the gap is
      kept as it is). */
  function Piece(gap: TimeRange, m: TimeRange, duration: int): seq<TimeRange> {
    if gap.Contains(m) then [m]
    else if m.Contains(gap) then
      (if gap.duration >= duration then [gap] else [])
    else if gap.ContainsPoint(m.start) then
      (if gap.End() - m.start >= duration then [FromStartEnd(m.start, gap.End(), false)] else [])
    else if gap.ContainsPoint(m.End()) then
      (if m.End() - gap.start >= duration then [FromStartEnd(gap.start, m.End(), false)] else [])
    else []
  }

  /** The pieces of all mandatory ranges for one gap, in order. */
  function GapRow(gap: TimeRange, mandatory: seq<TimeRange>, duration: int): seq<TimeRange> {
    if mandatory == [] then []
    else GapRow(gap, mandatory[..|mandatory| - 1], duration) + Piece(gap, mandatory[|mandatory| - 1], duration)
  }

  /** The rows of all gaps, one after the other. */
  function Rows(gaps: seq<TimeRange>, mandatory: seq<TimeRange>, duration: int): seq<TimeRange> {
    if gaps == [] then []
    else Rows(gaps[..|gaps| - 1], mandatory, duration) + GapRow(gaps[|gaps| - 1], mandatory, duration)
  }

  /** The mixed ranges, as the source computes them. */
  function MixedSlots(mandatory: seq<TimeRange>, optional: seq<TimeRange>, duration: int): seq<TimeRange>
    requires |optional| > 0
  {
    Rows(GapsAsWritten(WithSentinel(optional)), mandatory, duration)
  }

  /** The gap evidently meant before the k-th optional range: from the END
      of the previous optional range (minute 0 before the first) to the
      start of the k-th, so that it holds no minute of either. */
  function GapIntended(optional: seq<TimeRange>, k: nat): (r: TimeRange)
    requires k < |optional|
    ensures r.start == (if k == 0 then 0 else optional[k - 1].End())
    ensures r.End() == optional[k].start
  {
    FromStartEnd(if k == 0 then 0 else optional[k - 1].End(), optional[k].start, false)
  }

  function GapsIntended(optional: seq<TimeRange>): (r: seq<TimeRange>)
    ensures |r| == |optional|
    ensures forall k :: 0 <= k < |r| ==> r[k] == GapIntended(optional, k)
  {
    seq(|optional|, k requires 0 <= k < |optional| => GapIntended(optional, k))
  }

  /** The mixed ranges cut against the corrected gaps. */
  function MixedSlotsIntended(mandatory: seq<TimeRange>, optional: seq<TimeRange>, duration: int): seq<TimeRange>
    requires |optional| > 0
  {
    Rows(GapsIntended(WithSentinel(optional)), mandatory, duration)
  }

  /** The inner loop of the mixed computation: appends to `mixed` the pieces
      of every mandatory range for one gap. */
  method AddGapPieces(currentGap: TimeRange, mandatoryTimeRanges: seq<TimeRange>, request: MeetingRequest,
                      mixed: seq<TimeRange>)
    returns (mixedTimeRanges: seq<TimeRange>)
    ensures mixedTimeRanges == mixed + GapRow(currentGap, mandatoryTimeRanges, request.duration)
  {
    mixedTimeRanges := mixed;
    for j := 0 to |mandatoryTimeRanges|
      invariant mixedTimeRanges == mixed + GapRow(currentGap, mandatoryTimeRanges[..j], request.duration)
    {
      var mandatoryTimeRange := mandatoryTimeRanges[j];
      assert mandatoryTimeRanges[..j + 1][..j] == mandatoryTimeRanges[..j];
      ghost var beforePiece := mixedTimeRanges;
      if currentGap.Contains(mandatoryTimeRange) {
        mixedTimeRanges := mixedTimeRanges + [mandatoryTimeRange];
      } else if mandatoryTimeRange.Contains(currentGap) {
        if currentGap.duration >= request.duration {
          mixedTimeRanges := mixedTimeRanges + [currentGap];
        }
      } else if currentGap.ContainsPoint(mandatoryTimeRange.start) {
        if currentGap.End() - mandatoryTimeRange.start >= request.duration {
          mixedTimeRanges := mixedTimeRanges + [FromStartEnd(mandatoryTimeRange.start, currentGap.End(), false)];
        }
      } else if currentGap.ContainsPoint(mandatoryTimeRange.End()) {
        if mandatoryTimeRange.End() - currentGap.start >= request.duration {
          mixedTimeRanges := mixedTimeRanges + [FromStartEnd(currentGap.start, mandatoryTimeRange.End(), false)];
        }
      }
      assert mixedTimeRanges == beforePiece + Piece(currentGap, mandatoryTimeRange, request.duration);
    }
    assert mandatoryTimeRanges[..|mandatoryTimeRanges|] == mandatoryTimeRanges;
  }

  /** Rows grows gap by gap. */
  lemma {:induction false} RowsStep(gaps: seq<TimeRange>, k: nat, mandatory: seq<TimeRange>, duration: int)
    requires k < |gaps|
    ensures Rows(gaps[..k + 1], mandatory, duration) == Rows(gaps[..k], mandatory, duration) + GapRow(gaps[k], mandatory, duration)
  {
    assert gaps[..k + 1][..k] == gaps[..k];
  }

  method GetMixedTimeRanges(mandatoryTimeRanges: seq<TimeRange>, optionalTimeRanges: seq<TimeRange>,
                            request: MeetingRequest)
    returns (mixedTimeRanges: seq<TimeRange>)
    requires |optionalTimeRanges| > 0
    ensures mixedTimeRanges == MixedSlots(mandatoryTimeRanges, optionalTimeRanges, request.duration)
  {
    var optional := optionalTimeRanges;
    if optional[|optional| - 1].End() < END_OF_DAY + 1 {
      optional := optional + [FromStartDuration(END_OF_DAY + 1, 0)];
    }
    assert optional == WithSentinel(optionalTimeRanges);
    ghost var gaps := GapsAsWritten(optional);
    mixedTimeRanges := [];
    var previousOptionalTimeRange := FromStartDuration(0, 0);
    for k := 0 to |optional|
      invariant previousOptionalTimeRange == if k == 0 then FromStartDuration(0, 0) else optional[k - 1]
      invariant mixedTimeRanges == Rows(gaps[..k], mandatoryTimeRanges, request.duration)
    {
      var optionalTimeRange := optional[k];
      var gapStart := previousOptionalTimeRange.start;
      var gapEnd := optionalTimeRange.start;
      var currentGap := FromStartEnd(gapStart, gapEnd, false);
      assert currentGap == gaps[k];
      RowsStep(gaps, k, mandatoryTimeRanges, request.duration);
      previousOptionalTimeRange := optionalTimeRange;
      mixedTimeRanges := AddGapPieces(currentGap, mandatoryTimeRanges, request, mixedTimeRanges);
    }
    assert gaps[..|optional|] == gaps;
  }

  // ---------------------------------------------------------------------
  // The query

  /** The answer from the mandatory free ranges and the optional busy
      ranges: the mandatory ranges when there are none or when no optional
      attendee is busy; otherwise the mixed ranges, or the mandatory ones
      again when there are no mixed ranges. */
  function Answer(mandatory: seq<TimeRange>, optional: seq<TimeRange>, duration: int): seq<TimeRange> {
    if mandatory == [] || optional == [] then mandatory
    else
      var mixed := MixedSlots(mandatory, optional, duration);
      if mixed == [] then mandatory else mixed
  }

  /** The answer for events already in start order. */
  function QueryResult(eventsList: seq<Event>, request: MeetingRequest): seq<TimeRange> {
    Answer(MandatorySlots(eventsList, request), OptionalBusy(eventsList, request), request.duration)
  }

  /** The answer the query evidently means to give: as Answer, with the
      mixed ranges cut against the corrected gaps. */
  function AnswerIntended(mandatory: seq<TimeRange>, optional: seq<TimeRange>, duration: int): seq<TimeRange> {
    if mandatory == [] || optional == [] then mandatory
    else
      var mixed := MixedSlotsIntended(mandatory, optional, duration);
      if mixed == [] then mandatory else mixed
  }

  function QueryResultIntended(eventsList: seq<Event>, request: MeetingRequest): seq<TimeRange> {
    AnswerIntended(MandatorySlots(eventsList, request), OptionalBusy(eventsList, request), request.duration)
  }

  /** The optional busy list the class comment describes: built only from
      the events that no mandatory attendee attends. The code builds it from
      every event an optional attendee attends (OptionalBusy). */
  function OptionalBusyDocumented(eventsList: seq<Event>, request: MeetingRequest): seq<TimeRange> {
    OptionalBusy(NotAttendedBy(eventsList, request.attendees), request)
  }

  /** The answer with the documented optional list and the code's gaps. */
  function QueryResultDocumented(eventsList: seq<Event>, request: MeetingRequest): seq<TimeRange> {
    Answer(MandatorySlots(eventsList, request), OptionalBusyDocumented(eventsList, request), request.duration)
  }

  /** The answer with the documented optional list and the corrected gaps. */
  function QueryResultDocumentedIntended(eventsList: seq<Event>, request: MeetingRequest): seq<TimeRange> {
    AnswerIntended(MandatorySlots(eventsList, request), OptionalBusyDocumented(eventsList, request), request.duration)
  }

  method Query(events: seq<Event>, request: MeetingRequest) returns (r: seq<TimeRange>)
    ensures r == QueryResult(SortByStart(events), request)
  {
    var eventsList := SortByStart(events);
    var mandatoryTimeRanges := GetMandatoryTimeRanges(request, eventsList);
    var optionalTimeRanges := GetOptionalTimeRanges(request, eventsList);
    if mandatoryTimeRanges == [] || optionalTimeRanges == [] {
      return mandatoryTimeRanges;
    }
    var mixedTimeRanges := GetMixedTimeRanges(mandatoryTimeRanges, optionalTimeRanges, request);
    r := if mixedTimeRanges == [] then mandatoryTimeRanges else mixedTimeRanges;
  }
}
