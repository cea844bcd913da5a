// Half-open millisecond spans: the persistent cache's coverage index, the
// gaps it leaves in a requested range, and the merging of nearby gaps.

module Spans {
  import opened Wrappers
  import opened UnixTime
  import opened Sorting

  datatype Span = Span(from: U64, to: U64)
  {
    predicate Has(t: int) { from <= t < to }
  }

  /** Whether some span has `t`. */
  predicate Covers(spans: seq<Span>, t: int) {
    exists i :: 0 <= i < |spans| && spans[i].Has(t)
  }

  ghost predicate SortedByStart(spans: seq<Span>) {
    forall i, j :: 0 <= i <= j < |spans| ==> spans[i].from <= spans[j].from
  }

  /** Non-empty spans in ascending order, more than `margin` apart. */
  ghost predicate Separated(spans: seq<Span>, margin: nat) {
    spans == [] ||
    (&& Separated(Front(spans), margin)
     && Last(spans).from < Last(spans).to
     && (|spans| > 1 ==> spans[|spans| - 2].to + margin < Last(spans).from))
  }

  lemma {:induction false} SeparatedPairwise(spans: seq<Span>, margin: nat)
    ensures Separated(spans, margin) <==>
      && (forall i :: 0 <= i < |spans| ==> spans[i].from < spans[i].to)
      && (forall i, j :: 0 <= i < j < |spans| ==> spans[i].to + margin < spans[j].from)
  {
    if spans != [] {
      var front, n := Front(spans), |spans| - 1;
      SeparatedPairwise(front, margin);
      assert forall i :: 0 <= i < n ==> front[i] == spans[i];
      if Separated(spans, margin) {
        forall i | 0 <= i < n ensures spans[i].to + margin < spans[n].from {
          if i < n - 1 { assert front[i].to + margin < front[n - 1].from < front[n - 1].to; }
        }
      }
    }
  }

  lemma {:induction false} NothingBeyondLast(spans: seq<Span>, margin: nat, t: int)
    requires Separated(spans, margin) && spans != [] && Last(spans).to <= t
    ensures !Covers(spans, t)
  {
    assert spans == Front(spans) + [Last(spans)];
    CoversSnoc(Front(spans), Last(spans), t);
    if |spans| > 1 { NothingBeyondLast(Front(spans), margin, t); }
  }

  lemma SeparatedSnoc(spans: seq<Span>, x: Span, margin: nat)
    requires Separated(spans, margin) && x.from < x.to
    requires spans != [] ==> Last(spans).to + margin < x.from
    ensures Separated(spans + [x], margin)
  {
    assert Front(spans + [x]) == spans;
  }

  // ------------------------------------------------------------ coalescing

  function Coalesce(gaps: seq<Span>, bridge: U64): seq<Span> {
    if gaps == [] then []
    else
      var done, g := Coalesce(Front(gaps), bridge), Last(gaps);
      if g.from >= g.to then done
      else if done != [] && SatSub(g.from, Last(done).to) <= bridge then
        Front(done) + [Span(Last(done).from, Max(Last(done).to, g.to))]
      else done + [g]
  }

  /** The loop over the gaps, extending or adding to the result in place. */
  method CoalesceTradeFetchGaps(gaps: seq<Span>, bridge: U64) returns (coalesced: seq<Span>)
    ensures coalesced == Coalesce(gaps, bridge)
  {
    coalesced := [];
    for i := 0 to |gaps|
      invariant coalesced == Coalesce(gaps[..i], bridge)
    {
      assert Front(gaps[..i + 1]) == gaps[..i] && Last(gaps[..i + 1]) == gaps[i];
      var g := gaps[i];
      if g.from >= g.to { continue; }
      var n := |coalesced|;
      if n > 0 && SatSub(g.from, coalesced[n - 1].to) <= bridge {
        coalesced := coalesced[n - 1 := Span(coalesced[n - 1].from, Max(coalesced[n - 1].to, g.to))];
      } else {
        coalesced := coalesced + [g];
      }
    }
    assert gaps[..|gaps|] == gaps;
  }

  /** A millisecond that lies in no gap, in a hole of at most `bridge` between two consecutive gaps. */
  ghost predicate Bridged(gaps: seq<Span>, bridge: U64, t: int) {
    exists i, j :: Hole(gaps, bridge, t, i, j)
  }

  ghost predicate Hole(gaps: seq<Span>, bridge: U64, t: int, i: int, j: int) {
    && 0 <= i < j < |gaps|
    && gaps[i].from < gaps[i].to <= t < gaps[j].from < gaps[j].to
    && gaps[j].from - gaps[i].to <= bridge
    && forall k :: 0 <= k < |gaps| && gaps[k].from < gaps[k].to ==>
      gaps[k].to <= gaps[i].to || gaps[j].from <= gaps[k].from
  }

  /** What holds between the gaps handled so far and the spans made of them. */
  ghost predicate Coalesced(gaps: seq<Span>, bridge: U64, done: seq<Span>) {
    && Separated(done, bridge)
    && (done == [] ==> forall k :: 0 <= k < |gaps| ==> gaps[k].from >= gaps[k].to)
    && (done != [] ==> exists i :: 0 <= i < |gaps| && gaps[i].from < gaps[i].to == Last(done).to)
    && (forall k :: 0 <= k < |gaps| && gaps[k].from < gaps[k].to ==> done != [] && gaps[k].to <= Last(done).to)
    && (forall k :: 0 <= k < |done| ==> exists i :: 0 <= i < |gaps| && gaps[i].from == done[k].from)
  }

  lemma Skip(front: seq<Span>, g: Span, bridge: U64, done: seq<Span>)
    requires Coalesced(front, bridge, done) && g.from >= g.to
    ensures Coalesced(front + [g], bridge, done)
  {
    var gaps := front + [g];
    assert gaps[|front|] == g && forall k :: 0 <= k < |front| ==> gaps[k] == front[k];
  }

  lemma Push(front: seq<Span>, g: Span, bridge: U64, done: seq<Span>)
    requires Coalesced(front, bridge, done) && g.from < g.to
    requires done != [] ==> g.from > Last(done).to + bridge
    ensures Coalesced(front + [g], bridge, done + [g])
  {
    var gaps, r := front + [g], done + [g];
    assert gaps[|front|] == g && forall k :: 0 <= k < |front| ==> gaps[k] == front[k];
    assert r[|done|] == g && forall k :: 0 <= k < |done| ==> r[k] == done[k];
    SeparatedSnoc(done, g, bridge);
  }

  lemma Extend(front: seq<Span>, g: Span, bridge: U64, done: seq<Span>)
    requires Coalesced(front, bridge, done) && g.from < g.to && done != []
    ensures Coalesced(front + [g], bridge, Front(done) + [Span(Last(done).from, Max(Last(done).to, g.to))])
  {
    var gaps, x := front + [g], Span(Last(done).from, Max(Last(done).to, g.to));
    var r := Front(done) + [x];
    assert gaps[|front|] == g && forall k :: 0 <= k < |front| ==> gaps[k] == front[k];
    assert r[|done| - 1] == x && forall k :: 0 <= k < |done| - 1 ==> r[k] == done[k];
    var m :| 0 <= m < |front| && front[m].from < front[m].to == Last(done).to;
    assert gaps[m] == front[m];
    var i :| 0 <= i < |front| && front[i].from == done[|done| - 1].from;
    assert gaps[i].from == x.from;
    SeparatedSnoc(Front(done), x, bridge);
  }

  lemma {:induction false} CoalesceShape(gaps: seq<Span>, bridge: U64)
    requires SortedByStart(gaps)
    ensures Coalesced(gaps, bridge, Coalesce(gaps, bridge))
  {
    if gaps != [] {
      CoalesceShape(Front(gaps), bridge);
      var front, done, g := Front(gaps), Coalesce(Front(gaps), bridge), Last(gaps);
      assert gaps == front + [g];
      if g.from >= g.to {
        Skip(front, g, bridge, done);
      } else if done != [] && SatSub(g.from, Last(done).to) <= bridge {
        Extend(front, g, bridge, done);
      } else {
        Push(front, g, bridge, done);
      }
    }
  }

  lemma CoversSnoc(spans: seq<Span>, x: Span, t: int)
    ensures Covers(spans + [x], t) <==> Covers(spans, t) || x.Has(t)
  {
    var s := spans + [x];
    assert s[|spans|] == x && forall i :: 0 <= i < |spans| ==> s[i] == spans[i];
  }

  /** Coalescing loses no millisecond, and adds only bridges no wider than allowed. */
  lemma {:induction false} CoalesceCovers(gaps: seq<Span>, bridge: U64, t: int)
    requires SortedByStart(gaps)
    ensures Covers(Coalesce(gaps, bridge), t) <==> Covers(gaps, t) || Bridged(gaps, bridge, t)
  {
    if gaps != [] {
      CoalesceCovers(Front(gaps), bridge, t);
      CoalesceShape(Front(gaps), bridge);
      StepCovers(gaps, bridge, Coalesce(Front(gaps), bridge), t);
    }
  }

  /** The last gap closes a hole at `t`. */
  ghost predicate Closes(g: Span, bridge: U64, done: seq<Span>, t: int) {
    g.from < g.to && done != [] && Last(done).to <= t < g.from && g.from - Last(done).to <= bridge
  }

  lemma StepCovers(gaps: seq<Span>, bridge: U64, done: seq<Span>, t: int)
    requires gaps != [] && SortedByStart(gaps)
    requires done == Coalesce(Front(gaps), bridge) && Coalesced(Front(gaps), bridge, done)
    requires Covers(done, t) <==> Covers(Front(gaps), t) || Bridged(Front(gaps), bridge, t)
    ensures Covers(Coalesce(gaps, bridge), t) <==> Covers(gaps, t) || Bridged(gaps, bridge, t)
  {
    assert gaps == Front(gaps) + [Last(gaps)];
    CoversSnoc(Front(gaps), Last(gaps), t);
    HolesStep(gaps, bridge, done, t);
    SpansStep(gaps, bridge, done, t);
  }

  lemma HolesStep(gaps: seq<Span>, bridge: U64, done: seq<Span>, t: int)
    requires gaps != [] && SortedByStart(gaps) && Coalesced(Front(gaps), bridge, done)
    ensures Bridged(gaps, bridge, t) <==> Bridged(Front(gaps), bridge, t) || Closes(Last(gaps), bridge, done, t)
  {
    OldHoles(gaps, bridge, t);
    NewHole(gaps, bridge, done, t);
    if Closes(Last(gaps), bridge, done, t) { MergeFillsHole(gaps, bridge, done, t); }
  }

  lemma SpansStep(gaps: seq<Span>, bridge: U64, done: seq<Span>, t: int)
    requires gaps != [] && SortedByStart(gaps)
    requires done == Coalesce(Front(gaps), bridge) && Coalesced(Front(gaps), bridge, done)
    ensures Covers(Coalesce(gaps, bridge), t) <==>
      Covers(done, t) || Last(gaps).Has(t) || Closes(Last(gaps), bridge, done, t)
  {
    var g := Last(gaps);
    if g.from < g.to && done != [] && SatSub(g.from, Last(done).to) <= bridge {
      ExtendCovers(gaps, bridge, done, t);
    } else {
      CoversSnoc(done, g, t);
    }
  }

  lemma ExtendCovers(gaps: seq<Span>, bridge: U64, done: seq<Span>, t: int)
    requires gaps != [] && SortedByStart(gaps) && Coalesced(Front(gaps), bridge, done)
    requires done != [] && Last(gaps).from < Last(gaps).to && SatSub(Last(gaps).from, Last(done).to) <= bridge
    ensures var g, x := Last(gaps), Span(Last(done).from, Max(Last(done).to, Last(gaps).to));
      Covers(Front(done) + [x], t) <==> Covers(done, t) || g.Has(t) || Last(done).to <= t < g.from
  {
    var x := Span(Last(done).from, Max(Last(done).to, Last(gaps).to));
    CoversSnoc(Front(done), x, t);
    CoversSnoc(Front(done), Last(done), t);
    assert done == Front(done) + [Last(done)];
    LastStartsFirst(gaps, bridge, done);
  }

  /** The holes between earlier gaps stay holes. */
  lemma OldHoles(gaps: seq<Span>, bridge: U64, t: int)
    requires gaps != [] && SortedByStart(gaps)
    ensures Bridged(Front(gaps), bridge, t) ==> Bridged(gaps, bridge, t)
  {
    if Bridged(Front(gaps), bridge, t) {
      var i, j :| Hole(Front(gaps), bridge, t, i, j);
      assert forall k :: 0 <= k < |gaps| - 1 ==> gaps[k] == Front(gaps)[k];
      assert Hole(gaps, bridge, t, i, j);
    }
  }

  /** A hole that only the last gap closes lies between it and the last span made so far. */
  lemma NewHole(gaps: seq<Span>, bridge: U64, done: seq<Span>, t: int)
    requires gaps != [] && SortedByStart(gaps) && Coalesced(Front(gaps), bridge, done)
    ensures Bridged(gaps, bridge, t) ==>
      Bridged(Front(gaps), bridge, t) || Closes(Last(gaps), bridge, done, t)
  {
    if Bridged(gaps, bridge, t) {
      var front, n := Front(gaps), |gaps| - 1;
      assert forall k :: 0 <= k < n ==> gaps[k] == front[k];
      var i, j :| Hole(gaps, bridge, t, i, j);
      if j < n {
        assert Hole(front, bridge, t, i, j);
      } else {
        assert front[i].from < front[i].to;
        var m :| 0 <= m < n && front[m].from < front[m].to == Last(done).to;
        if gaps[m].to > gaps[i].to {
          assert gaps[m].from == gaps[n].from;
          assert i < m by { assert gaps[i].from < gaps[m].from; }
          assert Hole(front, bridge, t, i, m);
        }
      }
    }
  }

  lemma MergeFillsHole(gaps: seq<Span>, bridge: U64, done: seq<Span>, t: int)
    requires gaps != [] && SortedByStart(gaps) && Coalesced(Front(gaps), bridge, done)
    requires done != [] && Last(gaps).from < Last(gaps).to
    requires Last(done).to <= t < Last(gaps).from && Last(gaps).from - Last(done).to <= bridge
    ensures Bridged(gaps, bridge, t)
  {
    var front, n := Front(gaps), |gaps| - 1;
    assert forall k :: 0 <= k < n ==> gaps[k] == front[k];
    var m :| 0 <= m < n && front[m].from < front[m].to == Last(done).to;
    assert Hole(gaps, bridge, t, m, n);
  }

  lemma LastStartsFirst(gaps: seq<Span>, bridge: U64, done: seq<Span>)
    requires gaps != [] && SortedByStart(gaps) && Coalesced(Front(gaps), bridge, done) && done != []
    ensures Last(done).from <= Last(gaps).from
  {
    assert Last(done) == done[|done| - 1];
    var i :| 0 <= i < |Front(gaps)| && Front(gaps)[i].from == done[|done| - 1].from;
    assert gaps[i].from <= gaps[|gaps| - 1].from;
  }

  lemma {:induction false} CoalesceFixed(spans: seq<Span>, bridge: U64)
    requires Separated(spans, bridge)
    ensures Coalesce(spans, bridge) == spans
  {
    if spans != [] {
      CoalesceFixed(Front(spans), bridge);
      assert spans == Front(spans) + [Last(spans)];
    }
  }

  /**
   * Coalescing sorted gaps gives ascending spans more than the bridge apart,
   * and doing it again changes nothing.
   */
  lemma CoalesceSettles(gaps: seq<Span>, bridge: U64)
    requires SortedByStart(gaps)
    ensures Separated(Coalesce(gaps, bridge), bridge)
    ensures Coalesce(Coalesce(gaps, bridge), bridge) == Coalesce(gaps, bridge)
  {
    CoalesceShape(gaps, bridge);
    CoalesceFixed(Coalesce(gaps, bridge), bridge);
  }

  // --------------------------------------------------- the coverage index

  function StartOf(s: Span): int { s.from }

  /** Intervals merged when the next starts no later than the last one ends. */
  function MergeIntervals(intervals: seq<Span>): seq<Span> {
    Coalesce(SortByKey(intervals, StartOf), 0)
  }

  /** Merging changes no covered millisecond, and its result passes the index's validity test. */
  lemma MergeKeepsCoverage(intervals: seq<Span>, t: int)
    ensures Covers(MergeIntervals(intervals), t) <==> Covers(intervals, t)
    ensures Separated(MergeIntervals(intervals), 0)
  {
    var sorted := SortByKey(intervals, StartOf);
    SortByKeySorted(intervals, StartOf);
    assert SortedByStart(sorted) by {
      assert forall i :: 0 <= i < |sorted| ==> StartOf(sorted[i]) == sorted[i].from;
    }
    CoalesceSettles(sorted, 0);
    CoalesceCovers(sorted, 0, t);
    SameCoverage(sorted, intervals, t);
  }

  lemma SameCoverage(sorted: seq<Span>, intervals: seq<Span>, t: int)
    requires sorted == SortByKey(intervals, StartOf)
    ensures Covers(sorted, t) <==> Covers(intervals, t)
  {
    SortByKeyMembers(intervals, StartOf);
    if Covers(sorted, t) {
      var i :| 0 <= i < |sorted| && sorted[i].Has(t);
      assert sorted[i] in intervals;
    }
    if Covers(intervals, t) {
      var i :| 0 <= i < |intervals| && intervals[i].Has(t);
      assert intervals[i] in sorted;
    }
  }

  /** The parts of the coverage that fall into a request. */
  function Intersections(intervals: seq<Span>, from: U64, to: U64): seq<Span> {
    if intervals == [] then []
    else
      var rest, s := Intersections(Front(intervals), from, to), Last(intervals);
      var lo, hi := Max(from, s.from), Min(to, s.to);
      if lo < hi then rest + [Span(lo, hi)] else rest
  }

  lemma {:induction false} IntersectionsCover(intervals: seq<Span>, from: U64, to: U64, t: int)
    ensures Covers(Intersections(intervals, from, to), t) <==> from <= t < to && Covers(intervals, t)
  {
    if intervals != [] {
      var s := Last(intervals);
      IntersectionsCover(Front(intervals), from, to, t);
      assert intervals == Front(intervals) + [s];
      CoversSnoc(Front(intervals), s, t);
      var lo, hi := Max(from, s.from), Min(to, s.to);
      if lo < hi { CoversSnoc(Intersections(Front(intervals), from, to), Span(lo, hi), t); }
    }
  }

  lemma {:induction false} IntersectionsSeparated(intervals: seq<Span>, from: U64, to: U64)
    requires Separated(intervals, 0)
    ensures var r := Intersections(intervals, from, to);
      Separated(r, 0) && Within(r, from, to) && (r != [] ==> intervals != [] && Last(r).to <= Last(intervals).to)
  {
    if intervals != [] {
      var rest, s := Intersections(Front(intervals), from, to), Last(intervals);
      IntersectionsSeparated(Front(intervals), from, to);
      if rest != [] {
        assert Last(Front(intervals)) == intervals[|intervals| - 2];
        assert Last(rest).to < s.from;
      }
      var lo, hi := Max(from, s.from), Min(to, s.to);
      if lo < hi {
        SeparatedSnoc(rest, Span(lo, hi), 0);
        WithinSnoc(rest, Span(lo, hi), from, to);
      }
    }
  }

  lemma WithinSnoc(spans: seq<Span>, x: Span, from: U64, to: U64)
    requires Within(spans, from, to) && from <= x.from && x.to <= to
    ensures Within(spans + [x], from, to)
  {
  }

  ghost predicate Within(spans: seq<Span>, from: U64, to: U64) {
    forall i :: 0 <= i < |spans| ==> from <= spans[i].from && spans[i].to <= to
  }

  function CursorAfter(parts: seq<Span>, from: U64): U64 {
    if parts == [] then from else Max(CursorAfter(Front(parts), from), Last(parts).to)
  }

  function GapsBefore(parts: seq<Span>, from: U64): seq<Span> {
    if parts == [] then []
    else
      var rest, cursor := GapsBefore(Front(parts), from), CursorAfter(Front(parts), from);
      if cursor < Last(parts).from then rest + [Span(cursor, Last(parts).from)] else rest
  }

  /** What a range still lacks: the holes before, between and after the covered parts. */
  function Gaps(intervals: seq<Span>, from: U64, to: U64): seq<Span> {
    if from >= to then []
    else
      var parts := Intersections(intervals, from, to);
      var cursor := CursorAfter(parts, from);
      if cursor < to then GapsBefore(parts, from) + [Span(cursor, to)] else GapsBefore(parts, from)
  }

  method CoverageGaps(intervals: seq<Span>, from: U64, to: U64) returns (gaps: seq<Span>)
    ensures gaps == Gaps(intervals, from, to)
  {
    gaps := [];
    if from >= to { return; }
    var parts, cursor := Intersections(intervals, from, to), from;
    for i := 0 to |parts|
      invariant gaps == GapsBefore(parts[..i], from) && cursor == CursorAfter(parts[..i], from)
    {
      assert Front(parts[..i + 1]) == parts[..i] && Last(parts[..i + 1]) == parts[i];
      if cursor < parts[i].from { gaps := gaps + [Span(cursor, parts[i].from)]; }
      cursor := Max(cursor, parts[i].to);
    }
    assert parts[..|parts|] == parts;
    if cursor < to { gaps := gaps + [Span(cursor, to)]; }
  }

  lemma {:induction false} GapsBeforeShape(parts: seq<Span>, from: U64, to: U64)
    requires Separated(parts, 0) && Within(parts, from, to)
    ensures CursorAfter(parts, from) == if parts == [] then from else Last(parts).to
    ensures var r := GapsBefore(parts, from);
      Separated(r, 0) && (r != [] ==> parts != [] && Last(r).to <= Last(parts).from)
  {
    if parts != [] {
      GapsBeforeShape(Front(parts), from, to);
      var rest, cursor := GapsBefore(Front(parts), from), CursorAfter(Front(parts), from);
      if cursor < Last(parts).from { SeparatedSnoc(rest, Span(cursor, Last(parts).from), 0); }
    }
  }

  lemma {:induction false} GapsBeforeCover(parts: seq<Span>, from: U64, to: U64, t: int)
    requires Separated(parts, 0) && Within(parts, from, to)
    ensures Covers(GapsBefore(parts, from), t) <==> from <= t < CursorAfter(parts, from) && !Covers(parts, t)
  {
    if parts != [] {
      var front, s := Front(parts), Last(parts);
      GapsBeforeCover(front, from, to, t);
      GapsBeforeShape(front, from, to);
      assert parts == front + [s];
      CoversSnoc(front, s, t);
      var cursor := CursorAfter(front, from);
      if cursor <= t && front != [] { NothingBeyondLast(front, 0, t); }
      if cursor < s.from { CoversSnoc(GapsBefore(front, from), Span(cursor, s.from), t); }
    }
  }

  lemma GapsCover(intervals: seq<Span>, from: U64, to: U64, t: int)
    requires Separated(intervals, 0)
    ensures Covers(Gaps(intervals, from, to), t) <==> from <= t < to && !Covers(intervals, t)
  {
    if from < to {
      var parts := Intersections(intervals, from, to);
      IntersectionsSeparated(intervals, from, to);
      IntersectionsCover(intervals, from, to, t);
      GapsBeforeShape(parts, from, to);
      GapsBeforeCover(parts, from, to, t);
      var cursor := CursorAfter(parts, from);
      if cursor < to { CoversSnoc(GapsBefore(parts, from), Span(cursor, to), t); }
      if cursor <= t && parts != [] { NothingBeyondLast(parts, 0, t); }
    }
  }

  /** The gaps are exactly the requested milliseconds that are not covered, as ascending disjoint spans. */
  lemma GapsExact(intervals: seq<Span>, from: U64, to: U64)
    requires Separated(intervals, 0)
    ensures Separated(Gaps(intervals, from, to), 0)
    ensures forall t :: Covers(Gaps(intervals, from, to), t) <==> from <= t < to && !Covers(intervals, t)
  {
    forall t ensures Covers(Gaps(intervals, from, to), t) <==> from <= t < to && !Covers(intervals, t) {
      GapsCover(intervals, from, to, t);
    }
    if from < to {
      var parts := Intersections(intervals, from, to);
      IntersectionsSeparated(intervals, from, to);
      GapsBeforeShape(parts, from, to);
      var before, cursor := GapsBefore(parts, from), CursorAfter(parts, from);
      if parts != [] { assert parts == Front(parts) + [Last(parts)]; }
      if cursor < to { SeparatedSnoc(before, Span(cursor, to), 0); }
    }
  }
}
