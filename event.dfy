/** Calendar events, meeting requests and the ordering of events by start
    time.

    The Java classes Event and MeetingRequest are not part of this model. An
    event is a time range with a set of attendee names; a request names its
    mandatory attendees, its optional attendees and the meeting's duration. */
module Events {
  import opened TimeRanges

  datatype Event = Event(when: TimeRange, attendees: set<string>)

  datatype MeetingRequest = MeetingRequest(
    attendees: set<string>,
    optionalAttendees: set<string>,
    duration: int)

  /** Someone in `people` attends `e`: the intersection of the two name sets
      is not empty. */
  predicate Attends(e: Event, people: set<string>) {
    e.attendees * people != {}
  }

  /** The events of `events` that someone in `people` attends, in order. */
  function AttendedBy(events: seq<Event>, people: set<string>): (r: seq<Event>)
    ensures forall e :: e in r <==> e in events && Attends(e, people)
    ensures |r| <= |events|
  {
    if events == [] then []
    else
      var last := events[|events| - 1];
      AttendedBy(events[..|events| - 1], people) + (if Attends(last, people) then [last] else [])
  }

  /** The events of `events` that nobody in `people` attends, in order. */
  function NotAttendedBy(events: seq<Event>, people: set<string>): (r: seq<Event>)
    ensures forall e :: e in r <==> e in events && !Attends(e, people)
    ensures SortedByStart(events) ==> SortedByStart(r)
  {
    if events == [] then []
    else
      var init, last := events[..|events| - 1], events[|events| - 1];
      var kept := NotAttendedBy(init, people);
      if Attends(last, people) then
        assert SortedByStart(events) ==> SortedByStart(init);
        kept
      else
        assert SortedByStart(events) ==> SortedByStart(kept + [last]) by {
          if SortedByStart(events) {
            StartsNoLaterThanLast(events);
            assert forall y :: y in kept ==> y in events;
            SortedAppend(kept, last);
          }
        }
        kept + [last]
  }

  /** Filtering splits over concatenation: the kept events of a front part
      come before those of a back part, so the filter keeps the order. */
  lemma {:induction false} AttendedByConcat(front: seq<Event>, back: seq<Event>, people: set<string>)
    ensures AttendedBy(front + back, people) == AttendedBy(front, people) + AttendedBy(back, people)
    decreases |back|
  {
    if back == [] {
      assert front + back == front;
    } else {
      var init, last := back[..|back| - 1], back[|back| - 1];
      var whole := front + back;
      assert whole[..|whole| - 1] == front + init && whole[|whole| - 1] == last;
      AttendedByConcat(front, init, people);
      var kept, keptInit := AttendedBy(front, people), AttendedBy(init, people);
      var tail := if Attends(last, people) then [last] else [];
      assert AttendedBy(whole, people) == AttendedBy(front + init, people) + tail;
      assert AttendedBy(back, people) == keptInit + tail;
      assert (kept + keptInit) + tail == kept + (keptInit + tail);
    }
  }

  predicate SortedByStart(s: seq<Event>) {
    forall i, j :: 0 <= i < j < |s| ==> s[i].when.start <= s[j].when.start
  }

  /** No event runs backwards. */
  predicate NonNegativeDurations(s: seq<Event>) {
    forall e :: e in s ==> e.when.duration >= 0
  }

  /** Dropping the last event of a sorted sequence without backward events
      leaves one of the same kind, whose events all start no later than the
      dropped one. */
  lemma {:induction false} SortedInit(s: seq<Event>)
    requires |s| > 0 && SortedByStart(s) && NonNegativeDurations(s)
    ensures var init := s[..|s| - 1];
      && SortedByStart(init) && NonNegativeDurations(init)
      && forall y :: y in init ==> y.when.start <= s[|s| - 1].when.start
  {
    var init := s[..|s| - 1];
    forall y | y in init ensures y.when.start <= s[|s| - 1].when.start && y.when.duration >= 0 {
      var i :| 0 <= i < |init| && init[i] == y;
      assert s[i] == y && y in s;
    }
  }

  /** Appending an event that starts no earlier than every event of a sorted
      sequence keeps it sorted. */
  lemma SortedAppend(s: seq<Event>, x: Event)
    requires SortedByStart(s)
    requires forall y :: y in s ==> y.when.start <= x.when.start
    ensures SortedByStart(s + [x])
  {
    var t := s + [x];
    forall i, j | 0 <= i < j < |t| ensures t[i].when.start <= t[j].when.start {
      if j < |s| {
        assert t[i] == s[i] && t[j] == s[j];
      } else {
        assert t[i] == s[i] && s[i] in s;
      }
    }
  }

  /** In a sorted sequence every event starts no later than the last one. */
  lemma {:induction false} StartsNoLaterThanLast(s: seq<Event>)
    requires |s| > 0 && SortedByStart(s)
    ensures forall y :: y in s ==> y.when.start <= s[|s| - 1].when.start
  {
    forall y | y in s ensures y.when.start <= s[|s| - 1].when.start {
      var k :| 0 <= k < |s| && s[k] == y;
    }
  }

  /** Inserts `e` into the start-ordered `s` after every event that starts no
      later than `e`, so that events with equal starts keep their order. */
  function InsertByStart(s: seq<Event>, e: Event): (r: seq<Event>)
    requires SortedByStart(s)
    ensures SortedByStart(r)
    ensures multiset(r) == multiset(s) + multiset{e}
    ensures forall x :: x in r ==> x in s || x == e
  {
    if s == [] then [e]
    else
      StartsNoLaterThanLast(s);
      if s[|s| - 1].when.start <= e.when.start then
        SortedAppend(s, e);
        s + [e]
      else
        var init, last := s[..|s| - 1], s[|s| - 1];
        assert s == init + [last];
        var rest := InsertByStart(init, e);
        assert forall y :: y in init ==> y in s;
        SortedAppend(rest, last);
        rest + [last]
  }

  /** The events ordered by start time, equal starts in input order: the
      stable sort the meeting query applies before it scans the day. */
  function SortByStart(s: seq<Event>): (r: seq<Event>)
    ensures SortedByStart(r)
    ensures multiset(r) == multiset(s)
  {
    if s == [] then []
    else
      assert s == s[..|s| - 1] + [s[|s| - 1]];
      InsertByStart(SortByStart(s[..|s| - 1]), s[|s| - 1])
  }

  /** Sorting keeps exactly the events it was given. */
  lemma SortByStartSameEvents(s: seq<Event>)
    ensures forall e :: e in SortByStart(s) <==> e in s
  {
    var r := SortByStart(s);
    forall e ensures e in r <==> e in s {
      assert e in r <==> e in multiset(r);
      assert e in s <==> e in multiset(s);
    }
  }
}
