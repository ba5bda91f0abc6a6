/** What the mandatory free ranges are: long enough, in order and disjoint,
    clear of every event a mandatory attendee attends, and covering every
    long-enough stretch of the day that is clear of those events. */
module MandatoryProperties {
  import opened TimeRanges
  import opened Events
  import opened FindMeetingQuery

  // ---------------------------------------------------------------------
  // Which events matter

  lemma {:induction false} StepSkips(st: Scan, e: Event, request: MeetingRequest)
    requires !Attends(e, request.attendees)
    ensures MandatoryStep(st, e, request) == st
  {
  }

  lemma {:induction false} ScanIgnoresOthers(events: seq<Event>, request: MeetingRequest)
    ensures MandatoryScan(events, request) == MandatoryScan(AttendedBy(events, request.attendees), request)
  {
    if events != [] {
      var init, last := events[..|events| - 1], events[|events| - 1];
      ScanIgnoresOthers(init, request);
      var kept := AttendedBy(init, request.attendees);
      var st := MandatoryScan(init, request);
      assert MandatoryScan(events, request) == MandatoryStep(st, last, request);
      if Attends(last, request.attendees) {
        assert AttendedBy(events, request.attendees) == kept + [last];
        assert (kept + [last])[..|kept|] == kept;
        assert MandatoryScan(kept + [last], request) == MandatoryStep(MandatoryScan(kept, request), last, request);
      } else {
        assert AttendedBy(events, request.attendees) == kept;
        StepSkips(st, last, request);
      }
    }
  }

  /** Only events that a mandatory attendee attends affect the mandatory
      free ranges: dropping all others changes nothing. */
  lemma {:induction false} MandatoryIgnoresOtherEvents(events: seq<Event>, request: MeetingRequest)
    ensures MandatorySlots(events, request) == MandatorySlots(AttendedBy(events, request.attendees), request)
  {
    ScanIgnoresOthers(events, request);
  }

  // ---------------------------------------------------------------------
  // Length

  lemma {:induction false} ScanLongEnough(events: seq<Event>, request: MeetingRequest)
    ensures forall s :: s in MandatoryScan(events, request).slots ==>
              s.duration >= request.duration && s.duration > 0
  {
    if events != [] {
      ScanLongEnough(events[..|events| - 1], request);
    }
  }

  lemma {:induction false} DayEndSlotLongEnough(st: Scan, request: MeetingRequest)
    ensures forall s :: s in DayEndSlot(st, request) ==>
              s.duration >= request.duration && s.start == st.window.End() && s.End() == END_OF_DAY + 1
  {
  }

  /** Every mandatory free range is at least as long as the meeting. */
  lemma {:induction false} MandatorySlotsLongEnough(events: seq<Event>, request: MeetingRequest)
    ensures forall s :: s in MandatorySlots(events, request) ==> s.duration >= request.duration
  {
    ScanLongEnough(events, request);
    DayEndSlotLongEnough(MandatoryScan(events, request), request);
  }

  // ---------------------------------------------------------------------
  // Order

  /** The shape the mandatory scan keeps while no event runs backwards. */
  predicate OrderedScan(st: Scan) {
    && SortedDisjoint(st.slots)
    && st.window.End() >= 0
    && forall s :: s in st.slots ==> 0 <= s.start && s.End() <= st.window.End()
  }

  lemma {:induction false} StepOrdered(st: Scan, e: Event, request: MeetingRequest)
    requires OrderedScan(st) && e.when.duration >= 0
    ensures OrderedScan(MandatoryStep(st, e, request))
  {
    if Attends(e, request.attendees) && e.when.start > st.window.End()
       && e.when.start - st.window.End() >= request.duration {
      var g := FromStartEnd(st.window.End(), e.when.start, false);
      var slots := st.slots + [g];
      forall i, j | 0 <= i < j < |slots| ensures slots[i].End() <= slots[j].start {
        assert slots[i] == st.slots[i] && st.slots[i] in st.slots;
        if j < |st.slots| {
          assert slots[j] == st.slots[j];
        }
      }
    }
  }

  lemma {:induction false} ScanOrdered(events: seq<Event>, request: MeetingRequest)
    requires NonNegativeDurations(events)
    ensures OrderedScan(MandatoryScan(events, request))
  {
    if events != [] {
      var init, e := events[..|events| - 1], events[|events| - 1];
      assert forall x :: x in init ==> x in events;
      ScanOrdered(init, request);
      StepOrdered(MandatoryScan(init, request), e, request);
    }
  }

  lemma {:induction false} WithDayEndOrdered(st: Scan, request: MeetingRequest)
    requires OrderedScan(st)
    requires forall s :: s in st.slots ==> s.duration > 0
    ensures var r := st.slots + DayEndSlot(st, request);
      && SortedDisjoint(r)
      && forall s :: s in r ==> 0 <= s.start && (s.duration > 0 || s.End() == END_OF_DAY + 1)
  {
    var r := st.slots + DayEndSlot(st, request);
    forall i, j | 0 <= i < j < |r| ensures r[i].End() <= r[j].start {
      assert r[i] == st.slots[i] && st.slots[i] in st.slots;
      if j < |st.slots| {
        assert r[j] == st.slots[j];
      }
    }
  }

  /** The mandatory free ranges come in ascending order, pairwise disjoint,
      none starts before minute 0, and each has positive duration unless it
      is the range that closes the day. */
  lemma {:induction false} MandatorySlotsOrdered(events: seq<Event>, request: MeetingRequest)
    requires NonNegativeDurations(events)
    ensures var r := MandatorySlots(events, request);
      && SortedDisjoint(r)
      && forall s :: s in r ==> 0 <= s.start && (s.duration > 0 || s.End() == END_OF_DAY + 1)
  {
    ScanOrdered(events, request);
    ScanLongEnough(events, request);
    WithDayEndOrdered(MandatoryScan(events, request), request);
  }

  lemma {:induction false} ScanBounded(events: seq<Event>, request: MeetingRequest, bound: int)
    requires forall e :: e in events ==> e.when.start <= bound
    ensures forall s :: s in MandatoryScan(events, request).slots ==> s.End() <= bound
  {
    if events != [] {
      var init := events[..|events| - 1];
      assert forall x :: x in init ==> x in events;
      ScanBounded(init, request, bound);
    }
  }

  lemma {:induction false} WithDayEndWithinDay(st: Scan, request: MeetingRequest)
    requires OrderedScan(st) && request.duration >= 0
    requires forall s :: s in st.slots ==> s.duration > 0 && s.End() <= END_OF_DAY + 1
    ensures forall s :: s in st.slots + DayEndSlot(st, request) ==> 0 <= s.start <= s.End() <= END_OF_DAY + 1
  {
  }

  /** When no event runs backwards or starts after the day, and the meeting
      has no negative duration, every mandatory free range lies within the
      day [0, END_OF_DAY + 1). */
  lemma {:induction false} MandatorySlotsWithinDay(events: seq<Event>, request: MeetingRequest)
    requires NonNegativeDurations(events)
    requires forall e :: e in events ==> e.when.start <= END_OF_DAY + 1
    requires request.duration >= 0
    ensures forall s :: s in MandatorySlots(events, request) ==>
              0 <= s.start <= s.End() <= END_OF_DAY + 1
  {
    ScanOrdered(events, request);
    ScanLongEnough(events, request);
    ScanBounded(events, request, END_OF_DAY + 1);
    WithDayEndWithinDay(MandatoryScan(events, request), request);
  }

  /** After a scan in the shape every scan of events that do not run
      backwards has (ScanOrdered, ScanLongEnough), the free ranges end with
      the range from the window's end through END_OF_DAY exactly when that
      stretch is at least as long as the meeting. */
  lemma {:induction false} MandatoryDayEndSlot(st: Scan, request: MeetingRequest)
    requires OrderedScan(st)
    requires forall s :: s in st.slots ==> s.duration > 0
    ensures var w := st.window;
      var r := st.slots + DayEndSlot(st, request);
      (|r| > 0 && r[|r| - 1] == TimeRange(w.End(), END_OF_DAY + 1 - w.End()))
        <==> END_OF_DAY + 1 - w.End() >= request.duration
  {
    if |st.slots| > 0 {
      assert st.slots[|st.slots| - 1] in st.slots;
    }
  }

  // ---------------------------------------------------------------------
  // Soundness: the free ranges are free

  /** What the scan keeps about the events it has passed: the window reaches
      past all of them and no free range meets any of them. */
  predicate SoundScan(st: Scan, passed: seq<Event>, people: set<string>) {
    && (forall e :: e in passed && Attends(e, people) ==> e.when.End() <= st.window.End())
    && (forall s, e :: s in st.slots && e in passed && Attends(e, people) ==> Separate(s, e.when))
  }

  lemma {:induction false} StepSound(st: Scan, passed: seq<Event>, e: Event, request: MeetingRequest)
    requires SoundScan(st, passed, request.attendees)
    requires forall s :: s in st.slots ==> s.End() <= e.when.start
    requires e.when.duration >= 0
    ensures var next := MandatoryStep(st, e, request);
      && SoundScan(next, passed + [e], request.attendees)
      && forall s :: s in next.slots ==> s.End() <= e.when.start
  {
  }

  lemma {:induction false} ScanSound(events: seq<Event>, request: MeetingRequest)
    requires SortedByStart(events) && NonNegativeDurations(events)
    ensures SoundScan(MandatoryScan(events, request), events, request.attendees)
    ensures |events| > 0 ==>
      forall s :: s in MandatoryScan(events, request).slots ==> s.End() <= events[|events| - 1].when.start
  {
    if events != [] {
      var init, e := events[..|events| - 1], events[|events| - 1];
      assert events == init + [e];
      SortedInit(events);
      ScanSound(init, request);
      var st := MandatoryScan(init, request);
      if |init| > 0 {
        assert init[|init| - 1] in init;
      }
      StepSound(st, init, e, request);
    }
  }

  lemma {:induction false} WithDayEndSound(st: Scan, passed: seq<Event>, request: MeetingRequest)
    requires SoundScan(st, passed, request.attendees)
    ensures forall s, e :: s in st.slots + DayEndSlot(st, request) && e in passed && Attends(e, request.attendees)
              ==> Separate(s, e.when)
  {
  }

  /** No mandatory free range shares a minute with an event that a mandatory
      attendee attends (events in start order, none running backwards). */
  lemma {:induction false} MandatorySlotsAreFree(events: seq<Event>, request: MeetingRequest)
    requires SortedByStart(events) && NonNegativeDurations(events)
    ensures forall s, e :: s in MandatorySlots(events, request) && e in events && Attends(e, request.attendees)
              ==> Separate(s, e.when)
  {
    ScanSound(events, request);
    WithDayEndSound(MandatoryScan(events, request), events, request);
  }

  // ---------------------------------------------------------------------
  // Completeness: every free stretch is found

  /** A stretch of the day that is long enough and meets no event of the
      people in `people` among `events`. */
  predicate FreeStretch(free: TimeRange, events: seq<Event>, request: MeetingRequest) {
    && 0 <= free.start && free.duration > 0 && free.duration >= request.duration
    && forall e :: e in events && Attends(e, request.attendees) ==> Separate(free, e.when)
  }

  /** The stretch is inside a free range found so far, or lies after the window. */
  predicate Found(st: Scan, free: TimeRange) {
    (exists s :: s in st.slots && Within(free, s)) || st.window.End() <= free.start
  }

  lemma {:induction false} StepComplete(st: Scan, e: Event, request: MeetingRequest, free: TimeRange)
    requires FreeStretch(free, [e], request) && Found(st, free)
    ensures Found(MandatoryStep(st, e, request), free)
  {
    var next := MandatoryStep(st, e, request);
    if exists s :: s in st.slots && Within(free, s) {
      var s :| s in st.slots && Within(free, s);
      assert s in next.slots;
    } else if Attends(e, request.attendees) && e.when.start > st.window.End() && free.End() <= e.when.start {
      var g := FromStartEnd(st.window.End(), e.when.start, false);
      assert g in next.slots && Within(free, g);
    }
  }

  lemma {:induction false} ScanComplete(events: seq<Event>, request: MeetingRequest, free: TimeRange)
    requires FreeStretch(free, events, request)
    ensures Found(MandatoryScan(events, request), free)
  {
    if events != [] {
      var init, e := events[..|events| - 1], events[|events| - 1];
      assert forall x :: x in init ==> x in events;
      ScanComplete(init, request, free);
      StepComplete(MandatoryScan(init, request), e, request, free);
    }
  }

  lemma {:induction false} WithDayEndComplete(st: Scan, request: MeetingRequest, free: TimeRange)
    requires Found(st, free) && free.End() <= END_OF_DAY + 1
    requires free.duration > 0 && free.duration >= request.duration
    ensures exists s :: s in st.slots + DayEndSlot(st, request) && Within(free, s)
  {
    if exists s :: s in st.slots && Within(free, s) {
      var s :| s in st.slots && Within(free, s);
      assert s in st.slots + DayEndSlot(st, request);
    } else {
      var last := FromStartEnd(st.window.End(), END_OF_DAY, true);
      assert last in st.slots + DayEndSlot(st, request) && Within(free, last);
    }
  }

  /** Every stretch of the day that shares no minute with an event of a
      mandatory attendee and is at least as long as the meeting lies inside
      one of the mandatory free ranges. No order of the events is needed. */
  lemma {:induction false} MandatorySlotsComplete(events: seq<Event>, request: MeetingRequest, free: TimeRange)
    requires 0 <= free.start && free.End() <= END_OF_DAY + 1
    requires free.duration > 0 && free.duration >= request.duration
    requires forall e :: e in events && Attends(e, request.attendees) ==> Separate(free, e.when)
    ensures exists s :: s in MandatorySlots(events, request) && Within(free, s)
  {
    ScanComplete(events, request, free);
    WithDayEndComplete(MandatoryScan(events, request), request, free);
  }
}
