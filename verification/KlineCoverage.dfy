// Which part of a requested range a REST response of candles proves covered.

module KlineCoverage {
  import opened Wrappers
  import opened UnixTime
  import opened Sorting
  import opened Spans

  datatype Kline = Kline(time: U64, payload: int)

  /** One `store_klines` call: a covered span and the run of candles that proves it. */
  datatype Stored = Stored(span: Span, run: seq<Kline>)

  ghost predicate Increasing(klines: seq<Kline>) {
    forall i, j :: 0 <= i < j < |klines| ==> klines[i].time < klines[j].time
  }

  predicate Breaks(previous: Kline, next: Kline, interval: U64) {
    next.time > SatAdd(previous.time, interval)
  }

  /** The finished runs and the one still growing. */
  datatype Cut = Cut(done: seq<seq<Kline>>, open: seq<Kline>)

  /** The candles cut wherever the next one starts later than the last one ends. */
  function CutAtGaps(klines: seq<Kline>, interval: U64): Cut {
    if klines == [] then Cut([], [])
    else Add(CutAtGaps(Front(klines), interval), Last(klines), interval)
  }

  function Add(c: Cut, k: Kline, interval: U64): Cut {
    if c.open != [] && Breaks(Last(c.open), k, interval)
    then Cut(c.done + [c.open], [k])
    else Cut(c.done, c.open + [k])
  }

  function Runs(klines: seq<Kline>, interval: U64): seq<seq<Kline>> {
    var c := CutAtGaps(klines, interval);
    if c.open == [] then c.done else c.done + [c.open]
  }

  function Join(runs: seq<seq<Kline>>): seq<Kline> {
    if runs == [] then [] else Join(Front(runs)) + Last(runs)
  }

  /** The span a run is stored under: its candles' extent, clipped to the request. */
  function RunSpan(run: seq<Kline>, interval: U64, from: U64, to: U64): Span
    requires run != []
  {
    var first, last := run[0].time, Last(run).time;
    var coverageFrom := if first <= from && SatAdd(first, interval) > from then from else Max(first, from);
    Span(coverageFrom, Min(SatAdd(last, interval), to))
  }

  function StoreRun(stored: seq<Stored>, run: seq<Kline>, interval: U64, from: U64, to: U64): seq<Stored> {
    if run == [] then stored
    else
      var span := RunSpan(run, interval, from, to);
      if span.from < span.to then stored + [Stored(span, run)] else stored
  }

  function StoreRuns(runs: seq<seq<Kline>>, interval: U64, from: U64, to: U64): seq<Stored> {
    if runs == [] then []
    else StoreRun(StoreRuns(Front(runs), interval, from, to), Last(runs), interval, from, to)
  }

  /** The run-splitting loop. */
  method StoreContiguousKlines(interval: U64, from: U64, to: U64, klines: seq<Kline>) returns (stored: seq<Stored>)
    ensures stored == if interval == 0 then [] else StoreRuns(Runs(klines, interval), interval, from, to)
  {
    stored := [];
    if interval == 0 || klines == [] { return; }
    var runStart := 0;
    ghost var done: seq<seq<Kline>> := [];
    FirstCut(klines, interval);
    for index := 1 to |klines| + 1
      invariant Walking(klines, interval, done, runStart, index)
      invariant stored == StoreRuns(done, interval, from, to)
    {
      var runEnded := index == |klines| || Breaks(klines[index - 1], klines[index], interval);
      WalkOn(klines, interval, done, runStart, index);
      if !runEnded { continue; }
      var run := klines[runStart..index];
      StoreSnoc(done, run, interval, from, to);
      var span := RunSpan(run, interval, from, to);
      if span.from < span.to { stored := stored + [Stored(span, run)]; }
      runStart, done := index, done + [run];
    }
  }

  /** Where the loop stands before it looks at the border in front of candle `index`. */
  ghost predicate Walking(klines: seq<Kline>, interval: U64, done: seq<seq<Kline>>, runStart: nat, index: nat) {
    if index <= |klines|
    then runStart < index && CutAtGaps(klines[..index], interval) == Cut(done, klines[runStart..index])
    else done == Runs(klines, interval)
  }

  lemma FirstCut(klines: seq<Kline>, interval: U64)
    requires klines != []
    ensures Walking(klines, interval, [], 0, 1)
  {
    assert Front(klines[..1]) == [] && [] + [klines[0]] == klines[0..1];
  }

  lemma WalkOn(klines: seq<Kline>, interval: U64, done: seq<seq<Kline>>, runStart: nat, index: nat)
    requires index <= |klines| && Walking(klines, interval, done, runStart, index)
    ensures if index == |klines| || Breaks(klines[index - 1], klines[index], interval)
      then Walking(klines, interval, done + [klines[runStart..index]], index, index + 1)
      else Walking(klines, interval, done, runStart, index + 1)
  {
    if index < |klines| {
      NextCut(klines, interval, done, runStart, index);
    } else {
      assert klines[..index] == klines;
    }
  }

  lemma CutSnoc(klines: seq<Kline>, k: Kline, interval: U64)
    ensures CutAtGaps(klines + [k], interval) == Add(CutAtGaps(klines, interval), k, interval)
  {
    assert Front(klines + [k]) == klines;
  }

  lemma StoreSnoc(done: seq<seq<Kline>>, run: seq<Kline>, interval: U64, from: U64, to: U64)
    ensures StoreRuns(done + [run], interval, from, to)
      == StoreRun(StoreRuns(done, interval, from, to), run, interval, from, to)
  {
    assert Front(done + [run]) == done;
  }

  lemma NextCut(klines: seq<Kline>, interval: U64, done: seq<seq<Kline>>, runStart: nat, index: nat)
    requires runStart < index < |klines|
    requires CutAtGaps(klines[..index], interval) == Cut(done, klines[runStart..index])
    ensures CutAtGaps(klines[..index + 1], interval) ==
      if Breaks(klines[index - 1], klines[index], interval)
      then Cut(done + [klines[runStart..index]], klines[index..index + 1])
      else Cut(done, klines[runStart..index + 1])
  {
    CutSnoc(klines[..index], klines[index], interval);
    assert klines[..index] + [klines[index]] == klines[..index + 1];
    assert klines[runStart..index] + [klines[index]] == klines[runStart..index + 1];
    assert klines[index..index + 1] == [klines[index]];
  }

  lemma JoinSnoc(runs: seq<seq<Kline>>, run: seq<Kline>)
    ensures Join(runs + [run]) == Join(runs) + run
  {
    assert Front(runs + [run]) == runs;
  }

  /** All candles of a cut, in order. */
  function Joined(c: Cut): seq<Kline> { Join(c.done) + c.open }

  lemma AddJoins(c: Cut, k: Kline, interval: U64)
    ensures Joined(Add(c, k, interval)) == Joined(c) + [k]
  {
    if c.open != [] && Breaks(Last(c.open), k, interval) {
      JoinSnoc(c.done, c.open);
    }
  }

  lemma {:induction false} CutJoins(klines: seq<Kline>, interval: U64)
    ensures Joined(CutAtGaps(klines, interval)) == klines
  {
    if klines != [] {
      var front, k := Front(klines), Last(klines);
      CutJoins(front, interval);
      AddJoins(CutAtGaps(front, interval), k, interval);
      assert CutAtGaps(klines, interval) == Add(CutAtGaps(front, interval), k, interval);
      FrontLast(klines);
    }
  }

  lemma FrontLast<T>(s: seq<T>)
    requires s != []
    ensures Front(s) + [Last(s)] == s
  {
  }

  /** The runs partition the candles. */
  lemma RunsPartition(klines: seq<Kline>, interval: U64)
    ensures Join(Runs(klines, interval)) == klines
  {
    CutJoins(klines, interval);
    var c := CutAtGaps(klines, interval);
    if c.open != [] { JoinSnoc(c.done, c.open); }
  }

  /** Whether `t` lies in the interval of some candle. */
  ghost predicate InCandle(klines: seq<Kline>, interval: U64, t: int) {
    exists i :: 0 <= i < |klines| && klines[i].time <= t < SatAdd(klines[i].time, interval)
  }

  ghost predicate InStored(stored: seq<Stored>, t: int) {
    exists i :: 0 <= i < |stored| && stored[i].span.Has(t)
  }

  /** Stored spans in ascending order with something between them, none ending past `bound`. */
  ghost predicate Ascends(stored: seq<Stored>, bound: int) {
    stored == [] ||
    (var x := Last(stored).span;
     && x.from < x.to <= bound
     && Ascends(Front(stored), x.from - 1))
  }

  lemma InCandleSnoc(klines: seq<Kline>, k: Kline, interval: U64, t: int)
    ensures InCandle(klines + [k], interval, t) <==>
      InCandle(klines, interval, t) || k.time <= t < SatAdd(k.time, interval)
  {
    var s := klines + [k];
    assert s[|klines|] == k && forall i :: 0 <= i < |klines| ==> s[i] == klines[i];
  }

  lemma InStoredSnoc(stored: seq<Stored>, x: Stored, t: int)
    ensures InStored(stored + [x], t) <==> InStored(stored, t) || x.span.Has(t)
  {
    var s := stored + [x];
    assert s[|stored|] == x && forall i :: 0 <= i < |stored| ==> s[i] == stored[i];
  }

  lemma {:induction false} AscendsPairwise(stored: seq<Stored>, bound: int)
    requires Ascends(stored, bound)
    ensures forall i :: 0 <= i < |stored| ==> stored[i].span.from < stored[i].span.to <= bound
    ensures forall i, j :: 0 <= i < j < |stored| ==> stored[i].span.to < stored[j].span.from
  {
    if stored != [] {
      AscendsPairwise(Front(stored), Last(stored).span.from - 1);
      assert forall i :: 0 <= i < |stored| - 1 ==> stored[i] == Front(stored)[i];
    }
  }

  lemma {:induction false} AscendsWeaken(stored: seq<Stored>, bound: int, wider: int)
    requires Ascends(stored, bound) && bound <= wider
    ensures Ascends(stored, wider)
  {
  }

  /** A growing run: increasing candles without a break. */
  ghost predicate Unbroken(run: seq<Kline>, interval: U64) {
    run == [] ||
    (&& Unbroken(Front(run), interval)
     && (|run| > 1 ==> run[|run| - 2].time < Last(run).time <= SatAdd(run[|run| - 2].time, interval)))
  }

  /** The candles of an unbroken run fill its extent. */
  lemma {:induction false} RunFills(run: seq<Kline>, interval: U64, t: int)
    requires Unbroken(run, interval) && run != []
    ensures run[0].time <= Last(run).time
    ensures InCandle(run, interval, t) <==> run[0].time <= t < SatAdd(Last(run).time, interval)
  {
    var front, k := Front(run), Last(run);
    assert run == front + [k];
    InCandleSnoc(front, k, interval, t);
    if front != [] {
      RunFills(front, interval, t);
      assert Last(front) == run[|run| - 2];
    }
  }

  /** What holds of the runs cut so far and the spans stored for them. */
  ghost predicate Settled(done: seq<seq<Kline>>, interval: U64, from: U64, to: U64, bound: int, t: int) {
    var stored := StoreRuns(done, interval, from, to);
    && Ascends(stored, bound)
    && (InStored(stored, t) <==> from <= t < to && InCandle(Join(done), interval, t))
  }

  lemma SpanIsClippedRun(run: seq<Kline>, interval: U64, from: U64, to: U64, t: int)
    requires run != [] && Unbroken(run, interval) && interval > 0
    ensures var span := RunSpan(run, interval, from, to);
      && run[0].time <= span.from && span.to <= SatAdd(Last(run).time, interval)
      && (span.Has(t) <==> from <= t < to && InCandle(run, interval, t))
    ensures run[0].time <= Last(run).time
  {
    RunFills(run, interval, t);
  }

  lemma StoreSpan(stored: seq<Stored>, run: seq<Kline>, interval: U64, from: U64, to: U64, t: int)
    requires run != [] && Unbroken(run, interval) && interval > 0
    requires Ascends(stored, run[0].time - 1)
    ensures var r := StoreRun(stored, run, interval, from, to);
      && Ascends(r, SatAdd(Last(run).time, interval))
      && (InStored(r, t) <==> InStored(stored, t) || (from <= t < to && InCandle(run, interval, t)))
  {
    SpanIsClippedRun(run, interval, from, to, t);
    var span := RunSpan(run, interval, from, to);
    if span.from < span.to {
      SpanJoins(stored, Stored(span, run), run[0].time - 1, SatAdd(Last(run).time, interval), t);
    } else {
      AscendsWeaken(stored, run[0].time - 1, SatAdd(Last(run).time, interval));
    }
  }

  lemma SpanJoins(stored: seq<Stored>, x: Stored, bound: int, wider: int, t: int)
    requires Ascends(stored, bound) && bound < x.span.from < x.span.to <= wider
    ensures Ascends(stored + [x], wider)
    ensures InStored(stored + [x], t) <==> InStored(stored, t) || x.span.Has(t)
  {
    InStoredSnoc(stored, x, t);
    AscendsWeaken(stored, bound, x.span.from - 1);
    AscendsSnoc(stored, x, wider);
  }

  lemma AscendsSnoc(stored: seq<Stored>, x: Stored, bound: int)
    requires Ascends(stored, x.span.from - 1) && x.span.from < x.span.to <= bound
    ensures Ascends(stored + [x], bound)
  {
    assert Front(stored + [x]) == stored && Last(stored + [x]) == x;
  }

  lemma StoreOne(done: seq<seq<Kline>>, run: seq<Kline>, interval: U64, from: U64, to: U64, t: int)
    requires run != [] && Unbroken(run, interval) && interval > 0
    requires Settled(done, interval, from, to, run[0].time - 1, t)
    ensures Settled(done + [run], interval, from, to, SatAdd(Last(run).time, interval), t)
  {
    assert Front(done + [run]) == done && Last(done + [run]) == run;
    InCandleJoin(Join(done), run, interval, t);
    StoreSpan(StoreRuns(done, interval, from, to), run, interval, from, to, t);
  }

  lemma {:induction false} InCandleJoin(a: seq<Kline>, b: seq<Kline>, interval: U64, t: int)
    ensures InCandle(a + b, interval, t) <==> InCandle(a, interval, t) || InCandle(b, interval, t)
  {
    if b == [] {
      assert a + b == a;
    } else {
      InCandleJoin(a, Front(b), interval, t);
      assert a + b == a + Front(b) + [Last(b)] && b == Front(b) + [Last(b)];
      InCandleSnoc(a + Front(b), Last(b), interval, t);
      InCandleSnoc(Front(b), Last(b), interval, t);
    }
  }

  /** What holds after cutting candles that end with `last`. */
  ghost predicate CutState(c: Cut, last: Kline, interval: U64, from: U64, to: U64, t: int) {
    && c.open != [] && Last(c.open) == last && Unbroken(c.open, interval)
    && Settled(c.done, interval, from, to, c.open[0].time - 1, t)
  }

  lemma AddSettles(c: Cut, last: Kline, k: Kline, interval: U64, from: U64, to: U64, t: int)
    requires CutState(c, last, interval, from, to, t) && interval > 0 && last.time < k.time
    ensures CutState(Add(c, k, interval), k, interval, from, to, t)
  {
    if Breaks(last, k, interval) {
      StoreOne(c.done, c.open, interval, from, to, t);
      AscendsWeaken(StoreRuns(c.done + [c.open], interval, from, to), SatAdd(last.time, interval), k.time - 1);
      assert Front([k]) == [];
    } else {
      assert Front(c.open + [k]) == c.open;
    }
  }

  lemma {:induction false} CutSettles(klines: seq<Kline>, interval: U64, from: U64, to: U64, t: int) returns (c: Cut)
    requires Increasing(klines) && interval > 0 && klines != []
    ensures c == CutAtGaps(klines, interval) && CutState(c, Last(klines), interval, from, to, t)
  {
    var front, k := Front(klines), Last(klines);
    if front == [] {
      c := Cut([], [k]);
      assert Front([k]) == [];
    } else {
      assert forall i :: 0 <= i < |front| ==> front[i] == klines[i];
      var before := CutSettles(front, interval, from, to, t);
      AddSettles(before, Last(front), k, interval, from, to, t);
      c := Add(before, k, interval);
    }
  }

  /**
   * Of strictly increasing candles, exactly the requested milliseconds that
   * lie in some candle's interval are stored as covered, in ascending
   * disjoint spans.
   */
  lemma CoverageIsExact(klines: seq<Kline>, interval: U64, from: U64, to: U64, t: int)
    requires Increasing(klines) && interval > 0
    ensures var stored := StoreRuns(Runs(klines, interval), interval, from, to);
      && (InStored(stored, t) <==> from <= t < to && InCandle(klines, interval, t))
      && (forall i :: 0 <= i < |stored| ==> stored[i].span.from < stored[i].span.to)
      && (forall i, j :: 0 <= i < j < |stored| ==> stored[i].span.to < stored[j].span.from)
  {
    if klines != [] {
      var c := CutSettles(klines, interval, from, to, t);
      StoreOne(c.done, c.open, interval, from, to, t);
      AscendsPairwise(StoreRuns(c.done + [c.open], interval, from, to), SatAdd(Last(c.open).time, interval));
      RunsPartition(klines, interval);
    }
  }
}
