/** The value types of the meeting query: a span of minutes in one day, the
    predicates the query asks of spans, and the relations the model's lemmas
    state results in.

    The Java class TimeRange is not part of this model. It is declared here
    with the behaviour the meeting query relies on: a range has a start and a
    duration, its end is start + duration, point containment is half-open, and
    a range with no positive duration contains nothing. */
module TimeRanges {

  /** The last minute of the day, 23:59. */
  const END_OF_DAY: int := 1439

  datatype TimeRange = TimeRange(start: int, duration: int) {

    function End(): int {
      start + duration
    }

    /** Half-open containment of a minute: start <= p < end. */
    predicate ContainsPoint(p: int) {
      start <= p < End()
    }

    /** Containment of another range. A range without positive duration
        contains nothing; another range without positive duration is tested
        as the point at its start; otherwise both its first and its last
        minute must lie inside. */
    predicate Contains(other: TimeRange) {
      if duration <= 0 then false
      else if other.duration <= 0 then ContainsPoint(other.start)
      else ContainsPoint(other.start) && ContainsPoint(other.End() - 1)
    }
  }

  function FromStartDuration(start: int, duration: int): TimeRange {
    TimeRange(start, duration)
  }

  /** A range from `start` to `end`; when `inclusive` the minute `end` itself
      belongs to the range. */
  function FromStartEnd(start: int, end: int, inclusive: bool): (r: TimeRange)
    ensures r.start == start
    ensures r.End() == if inclusive then end + 1 else end
    ensures r.ContainsPoint(end) <==> inclusive && start <= end
  {
    if inclusive then TimeRange(start, end - start + 1) else TimeRange(start, end - start)
  }

  /** `inner` lies inside `outer`: it starts no earlier and ends no later. */
  predicate Within(inner: TimeRange, outer: TimeRange) {
    outer.start <= inner.start && inner.End() <= outer.End()
  }

  /** Some range of `ranges` holds all of `r`. */
  predicate Covered(r: TimeRange, ranges: seq<TimeRange>) {
    exists i :: 0 <= i < |ranges| && Within(r, ranges[i])
  }

  /** The two ranges share no minute: one ends before the other starts. */
  predicate Separate(a: TimeRange, b: TimeRange) {
    a.End() <= b.start || b.End() <= a.start
  }

  /** Each range of `s` ends no later than any later range starts: the
      ranges are in ascending order and pairwise disjoint. */
  predicate SortedDisjoint(s: seq<TimeRange>) {
    forall i, j :: 0 <= i < j < |s| ==> s[i].End() <= s[j].start
  }

  /** For ranges of positive duration, `Contains` is inclusion of the sets of
      minutes. */
  lemma ContainsIsInclusion(a: TimeRange, b: TimeRange)
    requires a.duration > 0 && b.duration > 0
    ensures a.Contains(b) <==> forall p :: b.ContainsPoint(p) ==> a.ContainsPoint(p)
  {
    if forall p :: b.ContainsPoint(p) ==> a.ContainsPoint(p) {
      assert b.ContainsPoint(b.start);
      assert b.ContainsPoint(b.End() - 1);
    }
  }

  /** `Separate` means the two ranges share no minute; for ranges of positive
      duration the converse holds too. */
  lemma SeparateIsNoCommonMinute(a: TimeRange, b: TimeRange)
    requires a.duration > 0 && b.duration > 0
    ensures Separate(a, b) <==> forall p :: !(a.ContainsPoint(p) && b.ContainsPoint(p))
  {
    if !Separate(a, b) {
      var p := if a.start < b.start then b.start else a.start;
      assert a.ContainsPoint(p) && b.ContainsPoint(p);
    }
  }

  /** A range inside a range that is separate from `b` is separate from `b`. */
  lemma WithinSeparate(inner: TimeRange, outer: TimeRange, b: TimeRange)
    requires Within(inner, outer) && Separate(outer, b)
    ensures Separate(inner, b)
  {
  }
}
