/** What the optional busy list is: built from the events an optional
    attendee attends and nothing else, covering every one of them, and (for
    events in start order) ascending with a free minute between neighbours. */
module OptionalProperties {
  import opened TimeRanges
  import opened Events
  import opened FindMeetingQuery

  // ---------------------------------------------------------------------
  // Which events matter

  lemma {:induction false} ScanIgnoresOthers(events: seq<Event>, request: MeetingRequest)
    ensures OptionalBusy(events, request) == OptionalBusy(AttendedBy(events, request.optionalAttendees), request)
  {
    if events != [] {
      var init, last := events[..|events| - 1], events[|events| - 1];
      ScanIgnoresOthers(init, request);
      var kept := AttendedBy(init, request.optionalAttendees);
      assert OptionalBusy(events, request) == OptionalStep(OptionalBusy(init, request), last, request);
      if Attends(last, request.optionalAttendees) {
        assert AttendedBy(events, request.optionalAttendees) == kept + [last];
        assert (kept + [last])[..|kept|] == kept;
      } else {
        assert AttendedBy(events, request.optionalAttendees) == kept;
      }
    }
  }

  /** Only events that an optional attendee attends shape the optional busy
      list: dropping all others changes nothing. Events that mandatory
      attendees attend as well are not dropped. */
  lemma {:induction false} OptionalIgnoresOtherEvents(events: seq<Event>, request: MeetingRequest)
    ensures OptionalBusy(events, request) == OptionalBusy(AttendedBy(events, request.optionalAttendees), request)
  {
    ScanIgnoresOthers(events, request);
  }

  /** The list is empty exactly when no optional attendee attends any event. */
  lemma {:induction false} OptionalBusyEmpty(events: seq<Event>, request: MeetingRequest)
    ensures OptionalBusy(events, request) == [] <==>
              forall e :: e in events ==> !Attends(e, request.optionalAttendees)
  {
    if events != [] {
      var init, last := events[..|events| - 1], events[|events| - 1];
      assert events == init + [last];
      OptionalBusyEmpty(init, request);
      assert OptionalBusy(events, request) == OptionalStep(OptionalBusy(init, request), last, request);
    }
  }

  // ---------------------------------------------------------------------
  // Coverage

  predicate CoversAll(busy: seq<TimeRange>, passed: seq<Event>, people: set<string>) {
    forall e :: e in passed && Attends(e, people) ==> Covered(e.when, busy)
  }

  lemma {:induction false} StepCovers(busy: seq<TimeRange>, passed: seq<Event>, e: Event, request: MeetingRequest)
    requires CoversAll(busy, passed, request.optionalAttendees)
    ensures CoversAll(OptionalStep(busy, e, request), passed + [e], request.optionalAttendees)
  {
    var next := OptionalStep(busy, e, request);
    var people := request.optionalAttendees;
    forall x | x in passed + [e] && Attends(x, people) ensures Covered(x.when, next) {
      if x in passed {
        var i :| 0 <= i < |busy| && Within(x.when, busy[i]);
        if i < |busy| - 1 || |next| > |busy| {
          assert next[i] == busy[i];
        } else {
          assert Within(x.when, next[|next| - 1]);
        }
      } else {
        assert Within(x.when, next[|next| - 1]);
      }
    }
  }

  lemma {:induction false} ScanCovers(events: seq<Event>, request: MeetingRequest)
    ensures CoversAll(OptionalBusy(events, request), events, request.optionalAttendees)
  {
    if events != [] {
      var init, last := events[..|events| - 1], events[|events| - 1];
      assert events == init + [last];
      ScanCovers(init, request);
      StepCovers(OptionalBusy(init, request), init, last, request);
    }
  }

  /** Every event that an optional attendee attends lies inside one range
      of the optional busy list, whatever the order of the events. */
  lemma {:induction false} OptionalBusyCovers(events: seq<Event>, request: MeetingRequest)
    ensures forall e :: e in events && Attends(e, request.optionalAttendees) ==>
              Covered(e.when, OptionalBusy(events, request))
  {
    ScanCovers(events, request);
  }

  /** Some event in `passed` that someone in `people` attends holds minute `p`. */
  ghost predicate Witnessed(p: int, passed: seq<Event>, people: set<string>) {
    exists e :: e in passed && Attends(e, people) && e.when.ContainsPoint(p)
  }

  /** Every minute of every range in `busy` is witnessed by an event. */
  ghost predicate OnlyAttended(busy: seq<TimeRange>, passed: seq<Event>, people: set<string>) {
    forall i, p :: 0 <= i < |busy| && busy[i].ContainsPoint(p) ==> Witnessed(p, passed, people)
  }

  lemma {:induction false} WitnessedLater(p: int, passed: seq<Event>, e: Event, people: set<string>)
    requires Witnessed(p, passed, people)
    ensures Witnessed(p, passed + [e], people)
  {
    var w :| w in passed && Attends(w, people) && w.when.ContainsPoint(p);
    assert w in passed + [e];
  }

  lemma {:induction false} StepOnlyAttended(busy: seq<TimeRange>, passed: seq<Event>, e: Event, request: MeetingRequest)
    requires OnlyAttended(busy, passed, request.optionalAttendees)
    requires forall x :: x in busy ==> x.start <= e.when.start
    ensures OnlyAttended(OptionalStep(busy, e, request), passed + [e], request.optionalAttendees)
  {
    var next := OptionalStep(busy, e, request);
    var people := request.optionalAttendees;
    var n := |busy|;
    forall i, p | 0 <= i < |next| && next[i].ContainsPoint(p) ensures Witnessed(p, passed + [e], people) {
      if i < n && next[i] == busy[i] {
        WitnessedLater(p, passed, e, people);
      } else if next[i] == e.when {
        assert e in passed + [e];
      } else {
        // the last range was merged with e
        var last := busy[n - 1];
        assert last in busy;
        assert i == n - 1 && next[i].start == last.start;
        if last.ContainsPoint(p) {
          WitnessedLater(p, passed, e, people);
        } else {
          assert e.when.ContainsPoint(p) && e in passed + [e];
        }
      }
    }
  }

  lemma {:induction false} ScanOnlyAttended(events: seq<Event>, request: MeetingRequest)
    requires SortedByStart(events) && NonNegativeDurations(events)
    ensures OnlyAttended(OptionalBusy(events, request), events, request.optionalAttendees)
  {
    if events != [] {
      var init, last := events[..|events| - 1], events[|events| - 1];
      assert events == init + [last];
      SortedInit(events);
      ScanOnlyAttended(init, request);
      ScanSpaced(init, request);
      if |init| > 0 {
        assert init[|init| - 1] in init;
      }
      StepOnlyAttended(OptionalBusy(init, request), init, last, request);
    }
  }

  /** Conversely, for events in start order, none running backwards, every
      minute of the optional busy list belongs to an event that an optional
      attendee attends: merging never fills the space between two events. */
  lemma {:induction false} OptionalBusyOnlyAttended(events: seq<Event>, request: MeetingRequest)
    requires SortedByStart(events) && NonNegativeDurations(events)
    ensures var busy := OptionalBusy(events, request);
      forall i, p :: 0 <= i < |busy| && busy[i].ContainsPoint(p) ==>
        exists e :: e in events && Attends(e, request.optionalAttendees) && e.when.ContainsPoint(p)
  {
    ScanOnlyAttended(events, request);
    var busy := OptionalBusy(events, request);
    forall i, p | 0 <= i < |busy| && busy[i].ContainsPoint(p)
      ensures exists e :: e in events && Attends(e, request.optionalAttendees) && e.when.ContainsPoint(p)
    {
      assert Witnessed(p, events, request.optionalAttendees);
      var w :| w in events && Attends(w, request.optionalAttendees) && w.when.ContainsPoint(p);
    }
  }

  // ---------------------------------------------------------------------
  // Order

  /** Ascending ranges, none running backwards, with at least one minute
      between one range's end and the next one's start. */
  predicate Spaced(busy: seq<TimeRange>) {
    && (forall i, j :: 0 <= i < j < |busy| ==> busy[i].End() < busy[j].start)
    && (forall x :: x in busy ==> x.duration >= 0)
  }

  lemma {:induction false} StepSpaced(busy: seq<TimeRange>, e: Event, request: MeetingRequest)
    requires Spaced(busy) && e.when.duration >= 0
    requires forall x :: x in busy ==> x.start <= e.when.start
    ensures Spaced(OptionalStep(busy, e, request))
    ensures forall x :: x in OptionalStep(busy, e, request) ==> x.start <= e.when.start
  {
    var next := OptionalStep(busy, e, request);
    if Attends(e, request.optionalAttendees) && busy != [] {
      var n := |busy|;
      assert busy[n - 1] in busy;
      forall i, j | 0 <= i < j < |next| ensures next[i].End() < next[j].start {
        if j < n - 1 || (j == n - 1 && |next| > n) {
          assert next[i] == busy[i] && next[j] == busy[j];
        } else if |next| > n {
          assert next[i] == busy[i];
          if i < n - 1 {
            assert busy[i].End() < busy[n - 1].start;
          }
        } else {
          assert next[i] == busy[i];
        }
      }
    }
  }

  lemma {:induction false} ScanSpaced(events: seq<Event>, request: MeetingRequest)
    requires SortedByStart(events) && NonNegativeDurations(events)
    ensures Spaced(OptionalBusy(events, request))
    ensures |events| > 0 ==> forall x :: x in OptionalBusy(events, request) ==> x.start <= events[|events| - 1].when.start
  {
    if events != [] {
      var init, last := events[..|events| - 1], events[|events| - 1];
      assert events == init + [last];
      SortedInit(events);
      ScanSpaced(init, request);
      if |init| > 0 {
        assert init[|init| - 1] in init;
      }
      StepSpaced(OptionalBusy(init, request), last, request);
    }
  }

  /** For events in start order, none running backwards, the optional busy
      list is ascending, no range runs backwards, and between two ranges
      lies at least one free minute: overlapping and touching events have
      been merged. */
  lemma {:induction false} OptionalBusySpaced(events: seq<Event>, request: MeetingRequest)
    requires SortedByStart(events) && NonNegativeDurations(events)
    ensures var busy := OptionalBusy(events, request);
      && (forall i, j :: 0 <= i < j < |busy| ==> busy[i].End() < busy[j].start)
      && (forall x :: x in busy ==> x.duration >= 0)
      && SortedDisjoint(busy)
  {
    ScanSpaced(events, request);
  }
}
