/** What the meeting query answers, for events in any order: ranges at
    least as long as the meeting, clear of every mandatory attendee's events,
    in order and within the day; the mandatory free ranges when no optional
    attendee is busy or when no mixed range is left. */
module QueryProperties {
  import opened TimeRanges
  import opened Events
  import opened FindMeetingQuery
  import opened MandatoryProperties
  import opened OptionalProperties
  import opened MixedProperties

  lemma {:induction false} SortedKeepsDurations(events: seq<Event>)
    requires NonNegativeDurations(events)
    ensures NonNegativeDurations(SortByStart(events))
  {
    SortByStartSameEvents(events);
  }

  /** Every range the query returns is at least as long as the meeting. */
  lemma {:induction false} QueryLongEnough(events: seq<Event>, request: MeetingRequest)
    ensures forall x :: x in QueryResult(SortByStart(events), request) ==> x.duration >= request.duration
  {
    var sorted := SortByStart(events);
    var mandatory := MandatorySlots(sorted, request);
    var optional := OptionalBusy(sorted, request);
    MandatorySlotsLongEnough(sorted, request);
    if mandatory != [] && optional != [] {
      MixedLongEnough(mandatory, optional, request.duration);
    }
  }

  /** No range the query returns shares a minute with an event that a
      mandatory attendee attends (no event running backwards, a meeting of
      no negative duration). */
  lemma {:induction false} QueryAvoidsMandatoryEvents(events: seq<Event>, request: MeetingRequest)
    requires NonNegativeDurations(events) && request.duration >= 0
    ensures forall x, e :: x in QueryResult(SortByStart(events), request) && e in events && Attends(e, request.attendees)
              ==> Separate(x, e.when)
  {
    var sorted := SortByStart(events);
    SortByStartSameEvents(events);
    SortedKeepsDurations(events);
    var mandatory := MandatorySlots(sorted, request);
    var optional := OptionalBusy(sorted, request);
    MandatorySlotsAreFree(sorted, request);
    MandatorySlotsLongEnough(sorted, request);
    if mandatory != [] && optional != [] {
      MixedWithinMandatory(mandatory, optional, request.duration);
      forall x, e | x in MixedSlots(mandatory, optional, request.duration) && e in events && Attends(e, request.attendees)
        ensures Separate(x, e.when)
      {
        var i :| 0 <= i < |mandatory| && Within(x, mandatory[i]);
        assert mandatory[i] in mandatory && e in sorted;
        WithinSeparate(x, mandatory[i], e.when);
      }
    }
  }

  /** The ranges the query returns are in ascending order and pairwise
      disjoint (no event running backwards, a meeting of no negative
      duration). */
  lemma {:induction false} QueryOrdered(events: seq<Event>, request: MeetingRequest)
    requires NonNegativeDurations(events) && request.duration >= 0
    ensures SortedDisjoint(QueryResult(SortByStart(events), request))
  {
    var sorted := SortByStart(events);
    SortedKeepsDurations(events);
    var mandatory := MandatorySlots(sorted, request);
    var optional := OptionalBusy(sorted, request);
    MandatorySlotsOrdered(sorted, request);
    MandatorySlotsLongEnough(sorted, request);
    if mandatory != [] && optional != [] {
      OptionalBusySpaced(sorted, request);
      MixedOrdered(mandatory, optional, request.duration);
    }
  }

  /** When no event runs backwards or starts after the day, and the meeting
      has no negative duration, every range the query returns lies within
      the day [0, END_OF_DAY + 1). */
  lemma {:induction false} QueryWithinDay(events: seq<Event>, request: MeetingRequest)
    requires NonNegativeDurations(events) && request.duration >= 0
    requires forall e :: e in events ==> e.when.start <= END_OF_DAY + 1
    ensures forall x :: x in QueryResult(SortByStart(events), request) ==>
              0 <= x.start <= x.End() <= END_OF_DAY + 1
  {
    var sorted := SortByStart(events);
    SortByStartSameEvents(events);
    SortedKeepsDurations(events);
    var mandatory := MandatorySlots(sorted, request);
    var optional := OptionalBusy(sorted, request);
    MandatorySlotsWithinDay(sorted, request);
    MandatorySlotsLongEnough(sorted, request);
    if mandatory != [] && optional != [] {
      MixedWithinMandatory(mandatory, optional, request.duration);
      MixedLongEnough(mandatory, optional, request.duration);
      forall x | x in MixedSlots(mandatory, optional, request.duration)
        ensures 0 <= x.start <= x.End() <= END_OF_DAY + 1
      {
        var i :| 0 <= i < |mandatory| && Within(x, mandatory[i]);
        assert mandatory[i] in mandatory;
      }
    }
  }

  lemma {:induction false} AnswerEmptyIff(mandatory: seq<TimeRange>, optional: seq<TimeRange>, d: int)
    ensures Answer(mandatory, optional, d) == [] <==> mandatory == []
  {
  }

  /** The query answers nothing exactly when the mandatory attendees have no
      free range long enough: optional attendees never empty the answer. */
  lemma {:induction false} QueryEmptyIff(events: seq<Event>, request: MeetingRequest)
    ensures QueryResult(SortByStart(events), request) == [] <==> MandatorySlots(SortByStart(events), request) == []
  {
    var sorted := SortByStart(events);
    AnswerEmptyIff(MandatorySlots(sorted, request), OptionalBusy(sorted, request), request.duration);
  }

  /** When no optional attendee attends any event, the query answers the
      mandatory free ranges. */
  lemma {:induction false} QueryWithoutOptionalBusy(events: seq<Event>, request: MeetingRequest)
    requires forall e :: e in events ==> !Attends(e, request.optionalAttendees)
    ensures QueryResult(SortByStart(events), request) == MandatorySlots(SortByStart(events), request)
  {
    SortByStartSameEvents(events);
    OptionalBusyEmpty(SortByStart(events), request);
  }

  lemma {:induction false} AnswerIntendedAvoidsBusy(mandatory: seq<TimeRange>, optional: seq<TimeRange>, d: int)
    requires SortedDisjoint(optional) && NoneBackwards(optional)
    ensures var r := AnswerIntended(mandatory, optional, d);
      r == mandatory || forall x, o :: x in r && o in optional ==> Separate(x, o)
  {
    if mandatory != [] && optional != [] {
      MixedSlotsIntendedAvoidOptional(mandatory, optional, d);
    }
  }

  /** Ranges separate from every range of `busy` are separate from anything
      inside one of them. */
  lemma {:induction false} AvoidsCovered(r: seq<TimeRange>, busy: seq<TimeRange>, w: TimeRange)
    requires forall x, o :: x in r && o in busy ==> Separate(x, o)
    requires Covered(w, busy)
    ensures forall x :: x in r ==> Separate(x, w)
  {
    var i :| 0 <= i < |busy| && Within(w, busy[i]);
    assert busy[i] in busy;
  }

  /** With the corrected gaps the query answers either the mandatory free
      ranges (its fallback) or ranges that share no minute with any event an
      optional attendee attends (no event running backwards). */
  lemma {:induction false} QueryIntendedAvoidsOptionalEvents(events: seq<Event>, request: MeetingRequest)
    requires NonNegativeDurations(events)
    ensures var r := QueryResultIntended(SortByStart(events), request);
      || r == MandatorySlots(SortByStart(events), request)
      || forall x, e :: x in r && e in events && Attends(e, request.optionalAttendees) ==> Separate(x, e.when)
  {
    var sorted := SortByStart(events);
    var mandatory := MandatorySlots(sorted, request);
    var optional := OptionalBusy(sorted, request);
    var r := QueryResultIntended(sorted, request);
    SortByStartSameEvents(events);
    SortedKeepsDurations(events);
    OptionalBusySpaced(sorted, request);
    AnswerIntendedAvoidsBusy(mandatory, optional, request.duration);
    if r != mandatory {
      OptionalBusyCovers(sorted, request);
      forall e | e in events && Attends(e, request.optionalAttendees)
        ensures forall x :: x in r ==> Separate(x, e.when)
      {
        assert e in sorted;
        AvoidsCovered(r, optional, e.when);
      }
    }
  }

  /** Built as the class comment describes and cut against the corrected
      gaps, the answer is the mandatory fallback or shares no minute with any
      event that any attendee, mandatory or optional, attends (no event
      running backwards, a meeting of no negative duration). */
  lemma {:induction false} QueryDocumentedIntendedAvoidsAllEvents(events: seq<Event>, request: MeetingRequest)
    requires NonNegativeDurations(events) && request.duration >= 0
    ensures var r := QueryResultDocumentedIntended(SortByStart(events), request);
      || r == MandatorySlots(SortByStart(events), request)
      || forall x, e :: x in r && e in events && (Attends(e, request.attendees) || Attends(e, request.optionalAttendees))
           ==> Separate(x, e.when)
  {
    var sorted := SortByStart(events);
    SortByStartSameEvents(events);
    SortedKeepsDurations(events);
    var kept := NotAttendedBy(sorted, request.attendees);
    var mandatory := MandatorySlots(sorted, request);
    var optional := OptionalBusy(kept, request);
    var d := request.duration;
    var r := QueryResultDocumentedIntended(sorted, request);
    OptionalBusySpaced(kept, request);
    AnswerIntendedAvoidsBusy(mandatory, optional, d);
    if r != mandatory {
      assert r == MixedSlotsIntended(mandatory, optional, d);
      MandatorySlotsAreFree(sorted, request);
      MandatorySlotsLongEnough(sorted, request);
      RowsFacts(GapsIntended(WithSentinel(optional)), mandatory, d);
      OptionalBusyCovers(kept, request);
      forall x, e | x in r && e in events && (Attends(e, request.attendees) || Attends(e, request.optionalAttendees))
        ensures Separate(x, e.when)
      {
        assert e in sorted;
        if Attends(e, request.attendees) {
          var i :| 0 <= i < |mandatory| && Within(x, mandatory[i]);
          assert mandatory[i] in mandatory;
          WithinSeparate(x, mandatory[i], e.when);
        } else {
          assert e in kept;
          AvoidsCovered(r, optional, e.when);
        }
      }
    }
  }

  // ---------------------------------------------------------------------
  // Concrete days, for any two different people a and b

  /** A half-hour meeting with `a` mandatory and `b` optional. */
  function AWithOptionalB(a: string, b: string): MeetingRequest {
    MeetingRequest({a}, {b}, 30)
  }

  /** `b` is busy over [600, 700); `a` has no events. */
  function OptionalMorning(b: string): seq<Event> {
    [Event(TimeRange(600, 100), {b})]
  }

  lemma OptionalMorningScans(a: string, b: string)
    requires a != b
    ensures SortByStart(OptionalMorning(b)) == OptionalMorning(b)
    ensures MandatorySlots(OptionalMorning(b), AWithOptionalB(a, b)) == [TimeRange(0, 1440)]
    ensures OptionalBusy(OptionalMorning(b), AWithOptionalB(a, b)) == [TimeRange(600, 100)]
  {
    var events, request := OptionalMorning(b), AWithOptionalB(a, b);
    assert events[..0] == [];
    assert !Attends(events[0], request.attendees);
    assert b in events[0].attendees * request.optionalAttendees;
    assert MandatoryScan(events, request) == Scan(TimeRange(0, 0), []);
  }

  /** The finding on a whole day: mandatory attendee `a` has no events and
      optional attendee `b` is busy over [600, 700). As written, the query
      offers [600, 1440), which holds b's event. */
  lemma QueryAsWrittenMeetsOptionalEvent(a: string, b: string)
    requires a != b
    ensures QueryResult(SortByStart(OptionalMorning(b)), AWithOptionalB(a, b))
              == [TimeRange(0, 600), TimeRange(600, 840)]
    ensures !Separate(TimeRange(600, 840), OptionalMorning(b)[0].when)
  {
    OptionalMorningScans(a, b);
    MixedSlotsAsWrittenMeetsOptional(TimeRange(600, 100), 30);
  }

  /** With the corrected gaps the same day is offered as [0, 600) and
      [700, 1440), around b's event. */
  lemma QueryIntendedSkipsOptionalEvent(a: string, b: string)
    requires a != b
    ensures QueryResultIntended(SortByStart(OptionalMorning(b)), AWithOptionalB(a, b))
              == [TimeRange(0, 600), TimeRange(700, 740)]
  {
    OptionalMorningScans(a, b);
    MixedSlotsIntendedSkipsOptional(TimeRange(600, 100), 30);
  }

  /** `b` alone is busy over [1000, 1100), and `a` and `b` together over
      [1050, 1440). */
  function SharedEvening(a: string, b: string): seq<Event> {
    [Event(TimeRange(1000, 100), {b}), Event(TimeRange(1050, 390), {a, b})]
  }

  lemma SharedEveningAttendance(a: string, b: string)
    requires a != b
    ensures !Attends(SharedEvening(a, b)[0], AWithOptionalB(a, b).attendees)
    ensures Attends(SharedEvening(a, b)[0], AWithOptionalB(a, b).optionalAttendees)
    ensures Attends(SharedEvening(a, b)[1], AWithOptionalB(a, b).attendees)
    ensures Attends(SharedEvening(a, b)[1], AWithOptionalB(a, b).optionalAttendees)
  {
    assert b in SharedEvening(a, b)[0].attendees * AWithOptionalB(a, b).optionalAttendees;
    assert a in SharedEvening(a, b)[1].attendees * AWithOptionalB(a, b).attendees;
    assert b in SharedEvening(a, b)[1].attendees * AWithOptionalB(a, b).optionalAttendees;
  }

  lemma SharedEveningSorted(a: string, b: string)
    ensures SortByStart(SharedEvening(a, b)) == SharedEvening(a, b)
  {
    var events := SharedEvening(a, b);
    assert events[..1] == [events[0]] && events[..1][..0] == [];
    assert SortByStart(events[..1]) == [events[0]];
  }

  lemma SharedEveningMandatory(a: string, b: string)
    requires a != b
    ensures MandatorySlots(SharedEvening(a, b), AWithOptionalB(a, b)) == [TimeRange(0, 1050)]
  {
    var events, request := SharedEvening(a, b), AWithOptionalB(a, b);
    SharedEveningAttendance(a, b);
    assert events[..1] == [events[0]] && events[..1][..0] == [];
    var empty := Scan(TimeRange(0, 0), []);
    assert MandatoryScan(events[..1][..0], request) == empty;
    assert MandatoryStep(empty, events[0], request) == empty;
    assert MandatoryScan(events[..1], request) == empty;
    var last := MandatoryStep(empty, events[1], request);
    assert last == Scan(TimeRange(1050, 390), [TimeRange(0, 1050)]);
    assert DayEndSlot(last, request) == [];
  }

  lemma SharedEveningOptional(a: string, b: string)
    requires a != b
    ensures OptionalBusy(SharedEvening(a, b), AWithOptionalB(a, b)) == [TimeRange(1000, 440)]
  {
    var events, request := SharedEvening(a, b), AWithOptionalB(a, b);
    SharedEveningAttendance(a, b);
    assert events[..1] == [events[0]] && events[..1][..0] == [];
    assert OptionalBusy(events[..1], request) == [TimeRange(1000, 100)];
  }

  lemma SharedEveningDocumented(a: string, b: string)
    requires a != b
    ensures OptionalBusyDocumented(SharedEvening(a, b), AWithOptionalB(a, b)) == [TimeRange(1000, 100)]
  {
    var events, request := SharedEvening(a, b), AWithOptionalB(a, b);
    SharedEveningAttendance(a, b);
    assert events[..1] == [events[0]] && events[..1][..0] == [];
    assert NotAttendedBy(events[..1], request.attendees) == [events[0]];
    var kept := NotAttendedBy(events, request.attendees);
    assert kept == [events[0]];
    assert kept[..0] == [];
    assert OptionalBusy(kept, request) == OptionalStep(OptionalBusy(kept[..0], request), events[0], request);
  }

  /** A mandatory free range [0, me) against one optional range that
      starts at s inside it and runs to the end of the day: no end-of-day
      marker, and only the gap [0, s). */
  lemma {:induction false} MixedAgainstBusyToDayEnd(me: int, s: int, d: int)
    requires 0 < s < me <= END_OF_DAY && d <= s
    ensures MixedSlots([TimeRange(0, me)], [TimeRange(s, END_OF_DAY + 1 - s)], d) == [TimeRange(0, s)]
  {
    var optional := [TimeRange(s, END_OF_DAY + 1 - s)];
    assert WithSentinel(optional) == optional;
    var gaps := GapsAsWritten(optional);
    var first := TimeRange(0, s);
    assert gaps == [first];
    var ms := [TimeRange(0, me)];
    assert ms[..0] == [] && gaps[..0] == [];
    assert Piece(first, ms[0], d) == [first];
    assert GapRow(first, ms, d) == [first];
    assert Rows(gaps, ms, d) == Rows(gaps[..0], ms, d) + GapRow(first, ms, d);
  }

  /** A mandatory free range [0, me) against one optional range o that
      starts inside it and ends after it: the code's second gap starts at
      o's start and leaves the piece [o.start, me), which meets o. */
  lemma {:induction false} MixedAgainstBusyAcrossEnd(me: int, o: TimeRange, d: int)
    requires 0 < o.start < me < o.End() < END_OF_DAY + 1
    requires d <= o.start && d <= me - o.start
    ensures MixedSlots([TimeRange(0, me)], [o], d) == [TimeRange(0, o.start), TimeRange(o.start, me - o.start)]
  {
    var optional := WithSentinel([o]);
    assert optional == [o, TimeRange(END_OF_DAY + 1, 0)];
    var gaps := GapsAsWritten(optional);
    var first, second := TimeRange(0, o.start), TimeRange(o.start, END_OF_DAY + 1 - o.start);
    assert gaps == [first, second];
    var ms := [TimeRange(0, me)];
    assert ms[..0] == [];
    assert Piece(first, ms[0], d) == [first];
    assert Piece(second, ms[0], d) == [TimeRange(o.start, me - o.start)];
    assert GapRow(first, ms, d) == [first];
    assert GapRow(second, ms, d) == [TimeRange(o.start, me - o.start)];
    assert gaps[..1] == [first] && gaps[..1][..0] == [];
    assert Rows(gaps[..1], ms, d) == [first];
  }

  /** The same input with the corrected gaps: the second gap starts at o's
      end, after the mandatory range, and adds nothing. */
  lemma {:induction false} MixedIntendedAgainstBusyAcrossEnd(me: int, o: TimeRange, d: int)
    requires 0 < o.start < me < o.End() < END_OF_DAY + 1
    requires d <= o.start
    ensures MixedSlotsIntended([TimeRange(0, me)], [o], d) == [TimeRange(0, o.start)]
  {
    var optional := WithSentinel([o]);
    assert optional == [o, TimeRange(END_OF_DAY + 1, 0)];
    var gaps := GapsIntended(optional);
    var first, second := TimeRange(0, o.start), TimeRange(o.End(), END_OF_DAY + 1 - o.End());
    assert gaps == [first, second];
    var ms := [TimeRange(0, me)];
    assert ms[..0] == [];
    assert Piece(first, ms[0], d) == [first];
    assert Piece(second, ms[0], d) == [];
    assert GapRow(first, ms, d) == [first];
    assert GapRow(second, ms, d) == [];
    assert gaps[..1] == [first] && gaps[..1][..0] == [];
    assert Rows(gaps[..1], ms, d) == [first];
  }

  /** The code keeps the shared event in b's busy list: it merges b's range
      into [1000, 1440), and the query answers [0, 1000) only, which meets
      neither event. */
  lemma QueryKeepsSharedEvent(a: string, b: string)
    requires a != b
    ensures QueryResult(SortByStart(SharedEvening(a, b)), AWithOptionalB(a, b)) == [TimeRange(0, 1000)]
    ensures Separate(TimeRange(0, 1000), SharedEvening(a, b)[0].when)
    ensures Separate(TimeRange(0, 1000), SharedEvening(a, b)[1].when)
  {
    SharedEveningSorted(a, b);
    SharedEveningMandatory(a, b);
    SharedEveningOptional(a, b);
    MixedAgainstBusyToDayEnd(1050, 1000, 30);
  }

  /** Built as the class comment describes, b's busy list leaves the shared
      event out, and the same day is answered differently: [0, 1000) and
      [1000, 1050), the second of which meets b's own event through the
      code's gaps. */
  lemma QueryDocumentedDropsSharedEvent(a: string, b: string)
    requires a != b
    ensures QueryResultDocumented(SortByStart(SharedEvening(a, b)), AWithOptionalB(a, b))
              == [TimeRange(0, 1000), TimeRange(1000, 50)]
    ensures !Separate(TimeRange(1000, 50), SharedEvening(a, b)[0].when)
  {
    SharedEveningSorted(a, b);
    SharedEveningMandatory(a, b);
    SharedEveningDocumented(a, b);
    MixedAgainstBusyAcrossEnd(1050, TimeRange(1000, 100), 30);
  }

  /** With the documented list and the corrected gaps the day is answered
      [0, 1000), as the code answers it. */
  lemma QueryDocumentedIntendedOnSharedEvening(a: string, b: string)
    requires a != b
    ensures QueryResultDocumentedIntended(SortByStart(SharedEvening(a, b)), AWithOptionalB(a, b))
              == [TimeRange(0, 1000)]
  {
    SharedEveningSorted(a, b);
    SharedEveningMandatory(a, b);
    SharedEveningDocumented(a, b);
    MixedIntendedAgainstBusyAcrossEnd(1050, TimeRange(1000, 100), 30);
  }

  /** `a` is busy over [0, 720) and `b` over [720, 1440). */
  function SplitDay(a: string, b: string): seq<Event> {
    [Event(TimeRange(0, 720), {a}), Event(TimeRange(720, 720), {b})]
  }

  lemma SplitDayAttendance(a: string, b: string)
    requires a != b
    ensures Attends(SplitDay(a, b)[0], AWithOptionalB(a, b).attendees)
    ensures !Attends(SplitDay(a, b)[1], AWithOptionalB(a, b).attendees)
    ensures !Attends(SplitDay(a, b)[0], AWithOptionalB(a, b).optionalAttendees)
    ensures Attends(SplitDay(a, b)[1], AWithOptionalB(a, b).optionalAttendees)
  {
    assert a in SplitDay(a, b)[0].attendees * AWithOptionalB(a, b).attendees;
    assert b in SplitDay(a, b)[1].attendees * AWithOptionalB(a, b).optionalAttendees;
  }

  lemma SplitDaySorted(a: string, b: string)
    ensures SortByStart(SplitDay(a, b)) == SplitDay(a, b)
  {
    var events := SplitDay(a, b);
    assert events[..1] == [events[0]] && events[..1][..0] == [];
    assert SortByStart(events[..1]) == [events[0]];
  }

  lemma SplitDayMandatory(a: string, b: string)
    requires a != b
    ensures MandatorySlots(SplitDay(a, b), AWithOptionalB(a, b)) == [TimeRange(720, 720)]
  {
    var events, request := SplitDay(a, b), AWithOptionalB(a, b);
    SplitDayAttendance(a, b);
    assert events[..1] == [events[0]] && events[..1][..0] == [];
    var empty := Scan(TimeRange(0, 0), []);
    assert MandatoryScan(events[..1][..0], request) == empty;
    var first := MandatoryStep(empty, events[0], request);
    assert first == Scan(TimeRange(0, 720), []);
    assert MandatoryScan(events[..1], request) == first;
    assert MandatoryStep(first, events[1], request) == first;
  }

  lemma SplitDayOptional(a: string, b: string)
    requires a != b
    ensures OptionalBusy(SplitDay(a, b), AWithOptionalB(a, b)) == [TimeRange(720, 720)]
  {
    var events, request := SplitDay(a, b), AWithOptionalB(a, b);
    SplitDayAttendance(a, b);
    assert events[..1] == [events[0]] && events[..1][..0] == [];
    assert OptionalBusy(events[..1], request) == [];
  }

  lemma NoMixedRangeInSplitDay()
    ensures MixedSlots([TimeRange(720, 720)], [TimeRange(720, 720)], 30) == []
  {
    var ranges := [TimeRange(720, 720)];
    assert WithSentinel(ranges) == ranges;
    var gaps := GapsAsWritten(ranges);
    assert gaps == [TimeRange(0, 720)];
    assert ranges[..0] == [] && gaps[..0] == [];
    assert Piece(gaps[0], ranges[0], 30) == [];
    assert GapRow(gaps[0], ranges, 30) == [];
  }

  /** The optional attendee is busy over the only free range: no mixed range
      is left, and the query falls back to the mandatory free range
      [720, 1440). */
  lemma QueryFallsBackToMandatory(a: string, b: string)
    requires a != b
    ensures QueryResult(SortByStart(SplitDay(a, b)), AWithOptionalB(a, b)) == [TimeRange(720, 720)]
  {
    SplitDaySorted(a, b);
    SplitDayMandatory(a, b);
    SplitDayOptional(a, b);
    NoMixedRangeInSplitDay();
  }
}
