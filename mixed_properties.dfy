/** What the mixed ranges are: each piece is the overlap of one gap with one
    mandatory free range, long enough for the meeting, inside both, and in
    order. The gaps as written overlap the optional busy ranges; the corrected
    gaps do not, and neither do the mixed ranges cut against them. */
module MixedProperties {
  import opened TimeRanges
  import opened FindMeetingQuery

  /** No range of `s` runs backwards. */
  predicate NoneBackwards(s: seq<TimeRange>) {
    forall x :: x in s ==> x.duration >= 0
  }

  /** Every range of `s` lasts at least `d` minutes. */
  predicate AllAtLeast(s: seq<TimeRange>, d: int) {
    forall x :: x in s ==> x.duration >= d
  }

  /** The minutes that both `a` and `b` hold. */
  function Overlap(a: TimeRange, b: TimeRange): (r: TimeRange)
    ensures forall p :: r.ContainsPoint(p) <==> a.ContainsPoint(p) && b.ContainsPoint(p)
  {
    FromStartEnd(Max(a.start, b.start), Min(a.End(), b.End()), false)
  }

  // ---------------------------------------------------------------------
  // One piece

  lemma {:induction false} PieceFacts(gap: TimeRange, m: TimeRange, d: int)
    ensures |Piece(gap, m, d)| <= 1
    ensures forall x :: x in Piece(gap, m, d) ==> Within(x, gap)
    ensures m.duration >= 0 ==> forall x :: x in Piece(gap, m, d) ==> Within(x, m)
    ensures m.duration >= d ==> forall x :: x in Piece(gap, m, d) ==> x.duration >= d
  {
  }

  /** Where a gap and a mandatory range at least as long as the meeting share
      a minute, the piece is their overlap, kept when it is long enough. */
  lemma {:induction false} PieceIsOverlap(gap: TimeRange, m: TimeRange, d: int)
    requires gap.duration > 0 && m.duration > 0 && m.duration >= d
    requires !Separate(gap, m)
    ensures Piece(gap, m, d) == if Overlap(gap, m).duration >= d then [Overlap(gap, m)] else []
  {
    var o := Overlap(gap, m);
    if gap.Contains(m) {
      assert o == m;
    } else if m.Contains(gap) {
      assert o == gap;
    } else if gap.ContainsPoint(m.start) {
      assert o == FromStartEnd(m.start, gap.End(), false);
    } else {
      assert gap.ContainsPoint(m.End());
      assert o == FromStartEnd(gap.start, m.End(), false);
    }
  }

  /** A mandatory range that shares no minute with the gap contributes
      nothing to a meeting of positive duration. */
  lemma {:induction false} PieceOfSeparate(gap: TimeRange, m: TimeRange, d: int)
    requires d > 0 && m.duration >= d
    requires Separate(gap, m)
    ensures Piece(gap, m, d) == []
  {
  }

  // ---------------------------------------------------------------------
  // One gap

  lemma {:induction false} GapRowFacts(gap: TimeRange, ms: seq<TimeRange>, d: int)
    ensures forall x :: x in GapRow(gap, ms, d) ==> Within(x, gap)
    ensures NoneBackwards(ms) ==> forall x :: x in GapRow(gap, ms, d) ==> Covered(x, ms)
    ensures AllAtLeast(ms, d) ==> AllAtLeast(GapRow(gap, ms, d), d)
  {
    if ms != [] {
      var init, m := ms[..|ms| - 1], ms[|ms| - 1];
      assert forall x :: x in init ==> x in ms;
      GapRowFacts(gap, init, d);
      PieceFacts(gap, m, d);
      if NoneBackwards(ms) {
        forall x | x in GapRow(gap, ms, d) ensures Covered(x, ms) {
          if x in GapRow(gap, init, d) {
            var i :| 0 <= i < |init| && Within(x, init[i]);
            assert ms[i] == init[i];
          } else {
            assert Within(x, ms[|ms| - 1]);
          }
        }
      }
    }
  }

  /** Two sorted, disjoint lists, the first ending before the second begins,
      stay so when joined. */
  lemma {:induction false} SortedDisjointConcat(a: seq<TimeRange>, b: seq<TimeRange>)
    requires SortedDisjoint(a) && SortedDisjoint(b)
    requires forall x, y :: x in a && y in b ==> x.End() <= y.start
    ensures SortedDisjoint(a + b)
  {
    var c := a + b;
    forall i, j | 0 <= i < j < |c| ensures c[i].End() <= c[j].start {
      if j < |a| {
        assert c[i] == a[i] && c[j] == a[j];
      } else if i < |a| {
        assert c[i] == a[i] && c[j] == b[j - |a|];
        assert a[i] in a && b[j - |a|] in b;
      } else {
        assert c[i] == b[i - |a|] && c[j] == b[j - |a|];
      }
    }
  }

  lemma {:induction false} GapRowOrdered(gap: TimeRange, ms: seq<TimeRange>, d: int)
    requires SortedDisjoint(ms) && NoneBackwards(ms)
    ensures SortedDisjoint(GapRow(gap, ms, d))
  {
    if ms != [] {
      var init, m := ms[..|ms| - 1], ms[|ms| - 1];
      assert forall x :: x in init ==> x in ms;
      GapRowOrdered(gap, init, d);
      GapRowFacts(gap, init, d);
      PieceFacts(gap, m, d);
      forall x, y | x in GapRow(gap, init, d) && y in Piece(gap, m, d) ensures x.End() <= y.start {
        var i :| 0 <= i < |init| && Within(x, init[i]);
        assert ms[i] == init[i];
      }
      SortedDisjointConcat(GapRow(gap, init, d), Piece(gap, m, d));
    }
  }

  // ---------------------------------------------------------------------
  // All gaps

  lemma {:induction false} RowsFacts(gaps: seq<TimeRange>, ms: seq<TimeRange>, d: int)
    ensures forall x :: x in Rows(gaps, ms, d) ==> Covered(x, gaps)
    ensures NoneBackwards(ms) ==> forall x :: x in Rows(gaps, ms, d) ==> Covered(x, ms)
    ensures AllAtLeast(ms, d) ==> AllAtLeast(Rows(gaps, ms, d), d)
  {
    if gaps != [] {
      var init, g := gaps[..|gaps| - 1], gaps[|gaps| - 1];
      RowsFacts(init, ms, d);
      GapRowFacts(g, ms, d);
      forall x | x in Rows(gaps, ms, d) ensures Covered(x, gaps) {
        if x in Rows(init, ms, d) {
          var i :| 0 <= i < |init| && Within(x, init[i]);
          assert gaps[i] == init[i];
        } else {
          assert Within(x, gaps[|gaps| - 1]);
        }
      }
    }
  }

  lemma {:induction false} RowsOrdered(gaps: seq<TimeRange>, ms: seq<TimeRange>, d: int)
    requires SortedDisjoint(gaps) && SortedDisjoint(ms) && NoneBackwards(ms)
    ensures SortedDisjoint(Rows(gaps, ms, d))
  {
    if gaps != [] {
      var init, g := gaps[..|gaps| - 1], gaps[|gaps| - 1];
      RowsOrdered(init, ms, d);
      RowsFacts(init, ms, d);
      GapRowOrdered(g, ms, d);
      GapRowFacts(g, ms, d);
      forall x, y | x in Rows(init, ms, d) && y in GapRow(g, ms, d) ensures x.End() <= y.start {
        var i :| 0 <= i < |init| && Within(x, init[i]);
        assert gaps[i] == init[i];
      }
      SortedDisjointConcat(Rows(init, ms, d), GapRow(g, ms, d));
    }
  }

  // ---------------------------------------------------------------------
  // The gaps

  lemma {:induction false} StartsAscend(s: seq<TimeRange>)
    requires SortedDisjoint(s) && NoneBackwards(s)
    ensures forall i, j :: 0 <= i <= j < |s| ==> s[i].start <= s[j].start && s[i].End() <= s[j].End()
  {
    forall i, j | 0 <= i <= j < |s| ensures s[i].start <= s[j].start && s[i].End() <= s[j].End() {
      assert s[i] in s && s[j] in s;
    }
  }

  /** Closing the list with the sentinel keeps it sorted and disjoint. */
  lemma {:induction false} WithSentinelOrdered(optional: seq<TimeRange>)
    requires |optional| > 0 && SortedDisjoint(optional) && NoneBackwards(optional)
    ensures SortedDisjoint(WithSentinel(optional)) && NoneBackwards(WithSentinel(optional))
  {
    var r := WithSentinel(optional);
    StartsAscend(optional);
    if |r| > |optional| {
      assert r == optional + [r[|optional|]];
      forall i, j | 0 <= i < j < |r| ensures r[i].End() <= r[j].start {
        assert r[i] == optional[i];
        if j < |optional| {
          assert r[j] == optional[j];
        }
      }
    }
  }

  /** The gaps as written run from one optional range's start to the next
      one's start, so for ranges in start order they follow each other
      without overlapping. */
  lemma {:induction false} GapsAsWrittenOrdered(optional: seq<TimeRange>)
    requires forall i, j :: 0 <= i <= j < |optional| ==> optional[i].start <= optional[j].start
    ensures SortedDisjoint(GapsAsWritten(optional))
  {
  }

  /** The corrected gaps follow each other without overlapping. */
  lemma {:induction false} GapsIntendedOrdered(optional: seq<TimeRange>)
    requires SortedDisjoint(optional) && NoneBackwards(optional)
    ensures SortedDisjoint(GapsIntended(optional))
  {
    StartsAscend(optional);
    var gaps := GapsIntended(optional);
    forall i, j | 0 <= i < j < |gaps| ensures gaps[i].End() <= gaps[j].start {
      assert optional[i].start <= optional[j - 1].start;
    }
  }

  /** No corrected gap shares a minute with an optional busy range. */
  lemma {:induction false} GapsIntendedAvoid(optional: seq<TimeRange>)
    requires SortedDisjoint(optional) && NoneBackwards(optional)
    ensures forall k, j :: 0 <= k < |optional| && 0 <= j < |optional| ==>
              Separate(GapsIntended(optional)[k], optional[j])
  {
    StartsAscend(optional);
  }

  // ---------------------------------------------------------------------
  // The mixed ranges

  /** Every mixed range lies inside one of the mandatory free ranges it was
      cut from (mandatory ranges not running backwards). */
  lemma {:induction false} MixedWithinMandatory(mandatory: seq<TimeRange>, optional: seq<TimeRange>, d: int)
    requires |optional| > 0 && NoneBackwards(mandatory)
    ensures forall x :: x in MixedSlots(mandatory, optional, d) ==> Covered(x, mandatory)
  {
    RowsFacts(GapsAsWritten(WithSentinel(optional)), mandatory, d);
  }

  /** Mixed ranges cut from mandatory ranges at least as long as the
      meeting are at least as long as the meeting. */
  lemma {:induction false} MixedLongEnough(mandatory: seq<TimeRange>, optional: seq<TimeRange>, d: int)
    requires |optional| > 0 && AllAtLeast(mandatory, d)
    ensures AllAtLeast(MixedSlots(mandatory, optional, d), d)
  {
    RowsFacts(GapsAsWritten(WithSentinel(optional)), mandatory, d);
  }

  /** For sorted, disjoint mandatory and optional ranges, none running
      backwards, the mixed ranges are sorted and disjoint. */
  lemma {:induction false} MixedOrdered(mandatory: seq<TimeRange>, optional: seq<TimeRange>, d: int)
    requires |optional| > 0
    requires SortedDisjoint(mandatory) && NoneBackwards(mandatory)
    requires SortedDisjoint(optional) && NoneBackwards(optional)
    ensures SortedDisjoint(MixedSlots(mandatory, optional, d))
  {
    WithSentinelOrdered(optional);
    StartsAscend(WithSentinel(optional));
    GapsAsWrittenOrdered(WithSentinel(optional));
    RowsOrdered(GapsAsWritten(WithSentinel(optional)), mandatory, d);
  }

  /** The whole day free for the mandatory attendees and one optional busy
      range `o` inside the day: as written, the second examined gap starts at
      o's start, so the second mixed range holds o. */
  lemma {:induction false} MixedSlotsAsWrittenMeetsOptional(o: TimeRange, d: int)
    requires 0 < o.start && 0 < o.duration && o.End() < END_OF_DAY + 1
    requires d <= o.start && d <= END_OF_DAY + 1 - o.start
    ensures MixedSlots([TimeRange(0, END_OF_DAY + 1)], [o], d)
              == [TimeRange(0, o.start), TimeRange(o.start, END_OF_DAY + 1 - o.start)]
    ensures !Separate(TimeRange(o.start, END_OF_DAY + 1 - o.start), o)
  {
    var optional := WithSentinel([o]);
    assert optional == [o, TimeRange(END_OF_DAY + 1, 0)];
    var gaps := GapsAsWritten(optional);
    var first, second := TimeRange(0, o.start), TimeRange(o.start, END_OF_DAY + 1 - o.start);
    assert gaps == [first, second];
    var ms := [TimeRange(0, END_OF_DAY + 1)];
    assert ms[..0] == [];
    assert Piece(first, ms[0], d) == [first];
    assert Piece(second, ms[0], d) == [second];
    assert GapRow(first, ms, d) == [first];
    assert GapRow(second, ms, d) == [second];
    assert gaps[..1] == [first] && gaps[..1][..0] == [];
    assert Rows(gaps[..1], ms, d) == [first];
  }

  /** The corrected gaps on the same input skip o: the mixed ranges are the
      stretches before and after it. */
  lemma {:induction false} MixedSlotsIntendedSkipsOptional(o: TimeRange, d: int)
    requires 0 < o.start && 0 < o.duration && o.End() < END_OF_DAY + 1
    requires d <= o.start && d <= END_OF_DAY + 1 - o.End()
    ensures MixedSlotsIntended([TimeRange(0, END_OF_DAY + 1)], [o], d)
              == [TimeRange(0, o.start), TimeRange(o.End(), END_OF_DAY + 1 - o.End())]
  {
    var optional := WithSentinel([o]);
    assert optional == [o, TimeRange(END_OF_DAY + 1, 0)];
    var gaps := GapsIntended(optional);
    var first, second := TimeRange(0, o.start), TimeRange(o.End(), END_OF_DAY + 1 - o.End());
    assert gaps == [first, second];
    var ms := [TimeRange(0, END_OF_DAY + 1)];
    assert ms[..0] == [];
    assert Piece(first, ms[0], d) == [first];
    assert Piece(second, ms[0], d) == [second];
    assert GapRow(first, ms, d) == [first];
    assert GapRow(second, ms, d) == [second];
    assert gaps[..1] == [first] && gaps[..1][..0] == [];
    assert Rows(gaps[..1], ms, d) == [first];
  }

  /** Cut against the corrected gaps, no mixed range shares a minute with an
      optional busy range (optional ranges sorted, disjoint, none running
      backwards). */
  lemma {:induction false} MixedSlotsIntendedAvoidOptional(mandatory: seq<TimeRange>, optional: seq<TimeRange>, d: int)
    requires |optional| > 0 && SortedDisjoint(optional) && NoneBackwards(optional)
    ensures forall x, o :: x in MixedSlotsIntended(mandatory, optional, d) && o in optional ==> Separate(x, o)
  {
    var closed := WithSentinel(optional);
    WithSentinelOrdered(optional);
    GapsIntendedAvoid(closed);
    var gaps := GapsIntended(closed);
    RowsFacts(gaps, mandatory, d);
    forall x, o | x in MixedSlotsIntended(mandatory, optional, d) && o in optional ensures Separate(x, o) {
      var k :| 0 <= k < |gaps| && Within(x, gaps[k]);
      var j :| 0 <= j < |optional| && optional[j] == o;
      assert closed[j] == o;
      WithinSeparate(x, gaps[k], o);
    }
  }

  /** The corrected mixed ranges are sorted and disjoint under the same
      conditions as the ones as written. */
  lemma {:induction false} MixedSlotsIntendedOrdered(mandatory: seq<TimeRange>, optional: seq<TimeRange>, d: int)
    requires |optional| > 0
    requires SortedDisjoint(mandatory) && NoneBackwards(mandatory)
    requires SortedDisjoint(optional) && NoneBackwards(optional)
    ensures SortedDisjoint(MixedSlotsIntended(mandatory, optional, d))
  {
    WithSentinelOrdered(optional);
    GapsIntendedOrdered(WithSentinel(optional));
    RowsOrdered(GapsIntended(WithSentinel(optional)), mandatory, d);
  }
}
