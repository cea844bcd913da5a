// What becomes of the candles themselves when a response is stored in runs.

module KlineStores {
  import opened Wrappers
  import opened UnixTime
  import opened Sorting
  import opened Spans
  import opened KlineCoverage

  /** Runs of unbroken candles one after the other, none beginning later than `bound`. */
  ghost predicate Chained(runs: seq<seq<Kline>>, interval: U64, bound: int) {
    runs == [] ||
    (&& Last(runs) != [] && Unbroken(Last(runs), interval) && Last(Last(runs)).time <= bound
     && Chained(Front(runs), interval, Last(runs)[0].time - 1))
  }

  lemma ChainedSnoc(runs: seq<seq<Kline>>, run: seq<Kline>, interval: U64, bound: int)
    requires run != [] && Unbroken(run, interval) && Last(run).time <= bound
    requires Chained(runs, interval, run[0].time - 1)
    ensures Chained(runs + [run], interval, bound)
  {
    assert Front(runs + [run]) == runs && Last(runs + [run]) == run;
  }

  lemma {:induction false} ChainedWeaken(runs: seq<seq<Kline>>, interval: U64, bound: int, wider: int)
    requires Chained(runs, interval, bound) && bound <= wider
    ensures Chained(runs, interval, wider)
  {
  }

  ghost predicate CutChained(c: Cut, last: Kline, interval: U64) {
    && c.open != [] && Last(c.open) == last && Unbroken(c.open, interval)
    && Chained(c.done, interval, c.open[0].time - 1)
  }

  lemma AddChains(c: Cut, last: Kline, k: Kline, interval: U64)
    requires CutChained(c, last, interval) && last.time < k.time
    ensures CutChained(Add(c, k, interval), k, interval)
  {
    if Breaks(last, k, interval) {
      ChainedSnoc(c.done, c.open, interval, k.time - 1);
      assert Front([k]) == [];
    } else {
      assert Front(c.open + [k]) == c.open;
    }
  }

  lemma {:induction false} CutIsChained(klines: seq<Kline>, interval: U64)
    requires Increasing(klines) && klines != []
    ensures CutChained(CutAtGaps(klines, interval), Last(klines), interval)
  {
    var front, k := Front(klines), Last(klines);
    if front == [] {
      assert Front([k]) == [] && CutAtGaps([], interval) == Cut([], []);
    } else {
      assert forall i :: 0 <= i < |front| ==> front[i] == klines[i];
      CutIsChained(front, interval);
      AddChains(CutAtGaps(front, interval), Last(front), k, interval);
    }
  }

  lemma RunsAreChained(klines: seq<Kline>, interval: U64)
    requires Increasing(klines)
    ensures Chained(Runs(klines, interval), interval, U64_MAX)
  {
    if klines != [] {
      CutIsChained(klines, interval);
      var c := CutAtGaps(klines, interval);
      ChainedSnoc(c.done, c.open, interval, U64_MAX);
    }
  }

  /** Every millisecond of the entry's span is requested and lies in a candle of its own run. */
  ghost predicate Backed(x: Stored, interval: U64, from: U64, to: U64) {
    forall t :: x.span.Has(t) ==> from <= t < to && InCandle(x.run, interval, t)
  }

  /** Entries with runs one after the other, each backed by its own candles. */
  ghost predicate StoredRight(stored: seq<Stored>, interval: U64, from: U64, to: U64, bound: int) {
    stored == [] ||
    (var x := Last(stored);
     && x.run != [] && Unbroken(x.run, interval) && Last(x.run).time <= bound && Backed(x, interval, from, to)
     && StoredRight(Front(stored), interval, from, to, x.run[0].time - 1))
  }

  lemma {:induction false} StoredWeaken(stored: seq<Stored>, interval: U64, from: U64, to: U64, bound: int, wider: int)
    requires StoredRight(stored, interval, from, to, bound) && bound <= wider
    ensures StoredRight(stored, interval, from, to, wider)
  {
  }

  lemma SpanIsBacked(run: seq<Kline>, interval: U64, from: U64, to: U64)
    requires run != [] && Unbroken(run, interval) && interval > 0
    ensures Backed(Stored(RunSpan(run, interval, from, to), run), interval, from, to)
    ensures run[0].time <= Last(run).time
  {
    forall t | RunSpan(run, interval, from, to).Has(t) ensures from <= t < to && InCandle(run, interval, t) {
      SpanIsClippedRun(run, interval, from, to, t);
    }
    SpanIsClippedRun(run, interval, from, to, 0);
  }

  lemma {:induction false} RunsStoredRight(runs: seq<seq<Kline>>, interval: U64, from: U64, to: U64, bound: int)
    requires Chained(runs, interval, bound) && interval > 0
    ensures StoredRight(StoreRuns(runs, interval, from, to), interval, from, to, bound)
  {
    if runs != [] {
      var run, before := Last(runs), StoreRuns(Front(runs), interval, from, to);
      RunsStoredRight(Front(runs), interval, from, to, run[0].time - 1);
      SpanIsBacked(run, interval, from, to);
      var x := Stored(RunSpan(run, interval, from, to), run);
      if x.span.from < x.span.to {
        assert Front(before + [x]) == before && Last(before + [x]) == x;
      } else {
        StoredWeaken(before, interval, from, to, run[0].time - 1, bound);
      }
    }
  }

  /** A candle whose interval meets the request. */
  ghost predicate Meets(k: Kline, interval: U64, from: U64, to: U64) {
    Max(k.time, from) < Min(SatAdd(k.time, interval), to)
  }

  lemma MeetsIsStored(run: seq<Kline>, k: Kline, interval: U64, from: U64, to: U64)
    requires run != [] && Unbroken(run, interval) && interval > 0 && k in run && Meets(k, interval, from, to)
    ensures RunSpan(run, interval, from, to).from < RunSpan(run, interval, from, to).to
  {
    var t := Max(k.time, from);
    var i :| 0 <= i < |run| && run[i] == k;
    assert InCandle(run, interval, t);
    SpanIsClippedRun(run, interval, from, to, t);
  }

  /** The candles in stored runs are those of the response that meet the request, and neighbours joined to them. */
  lemma {:induction false} MeetingAreStored(runs: seq<seq<Kline>>, interval: U64, from: U64, to: U64, bound: int,
                                           k: Kline)
    requires Chained(runs, interval, bound) && interval > 0
    ensures forall x :: x in StoreRuns(runs, interval, from, to) && k in x.run ==> k in Join(runs)
    ensures k in Join(runs) && Meets(k, interval, from, to) ==>
      exists x :: x in StoreRuns(runs, interval, from, to) && k in x.run
  {
    if runs != [] {
      var run, before := Last(runs), StoreRuns(Front(runs), interval, from, to);
      MeetingAreStored(Front(runs), interval, from, to, run[0].time - 1, k);
      var x := Stored(RunSpan(run, interval, from, to), run);
      if Meets(k, interval, from, to) {
        if k in run {
          MeetsIsStored(run, k, interval, from, to);
          assert x in before + [x];
        } else if k in Join(Front(runs)) {
          var y :| y in before && k in y.run;
          assert y in before + [x];
        }
      }
    }
  }

  lemma {:induction false} UnbrokenIncreases(run: seq<Kline>, interval: U64)
    requires Unbroken(run, interval)
    ensures Increasing(run)
  {
    if run != [] {
      UnbrokenIncreases(Front(run), interval);
      assert forall i :: 0 <= i < |run| - 1 ==> run[i] == Front(run)[i];
    }
  }

  lemma {:induction false} StoredPairwise(stored: seq<Stored>, interval: U64, from: U64, to: U64, bound: int)
    requires StoredRight(stored, interval, from, to, bound)
    ensures forall i :: 0 <= i < |stored| ==>
      var x := stored[i];
      x.run != [] && Increasing(x.run) && Last(x.run).time <= bound && Backed(x, interval, from, to)
    ensures forall i, j :: 0 <= i < j < |stored| ==> Last(stored[i].run).time < stored[j].run[0].time
  {
    if stored != [] {
      var x := Last(stored);
      StoredPairwise(Front(stored), interval, from, to, x.run[0].time - 1);
      UnbrokenIncreases(x.run, interval);
      assert x.run[0].time <= Last(x.run).time;
      assert forall i :: 0 <= i < |stored| - 1 ==> stored[i] == Front(stored)[i];
    }
  }

  lemma StoresHaveTheCandles(klines: seq<Kline>, interval: U64, from: U64, to: U64, k: Kline)
    requires Increasing(klines) && interval > 0
    ensures var stored := StoreRuns(Runs(klines, interval), interval, from, to);
      && (forall x :: x in stored && k in x.run ==> k in klines)
      && (k in klines && Meets(k, interval, from, to) ==> exists x :: x in stored && k in x.run)
  {
    RunsAreChained(klines, interval);
    RunsPartition(klines, interval);
    MeetingAreStored(Runs(klines, interval), interval, from, to, U64_MAX, k);
  }

  lemma StoresAreOrdered(klines: seq<Kline>, interval: U64, from: U64, to: U64)
    requires Increasing(klines) && interval > 0
    ensures var stored := StoreRuns(Runs(klines, interval), interval, from, to);
      && (forall i :: 0 <= i < |stored| ==>
            stored[i].run != [] && Increasing(stored[i].run) && Backed(stored[i], interval, from, to))
      && (forall i, j :: 0 <= i < j < |stored| ==> Last(stored[i].run).time < stored[j].run[0].time)
  {
    RunsAreChained(klines, interval);
    RunsStoredRight(Runs(klines, interval), interval, from, to, U64_MAX);
    StoredPairwise(StoreRuns(Runs(klines, interval), interval, from, to), interval, from, to, U64_MAX);
  }

  /**
   * What is stored of strictly increasing candles is backed by candles: every
   * entry has some, given ones, in order and later than those of the entries
   * before it; every millisecond of its span is requested and lies in one of
   * them; and every given candle that meets the request is stored.
   */
  lemma StoresAreBacked(klines: seq<Kline>, interval: U64, from: U64, to: U64)
    requires Increasing(klines) && interval > 0
    ensures var stored := StoreRuns(Runs(klines, interval), interval, from, to);
      && (forall i :: 0 <= i < |stored| ==>
            stored[i].run != [] && Increasing(stored[i].run) && Backed(stored[i], interval, from, to))
      && (forall i, j :: 0 <= i < j < |stored| ==> Last(stored[i].run).time < stored[j].run[0].time)
      && (forall x, k :: x in stored && k in x.run ==> k in klines)
      && (forall k :: k in klines && Meets(k, interval, from, to) ==> exists x :: x in stored && k in x.run)
  {
    StoresAreOrdered(klines, interval, from, to);
    var stored := StoreRuns(Runs(klines, interval), interval, from, to);
    forall k ensures (forall x :: x in stored && k in x.run ==> k in klines)
      && (k in klines && Meets(k, interval, from, to) ==> exists x :: x in stored && k in x.run)
    {
      StoresHaveTheCandles(klines, interval, from, to, k);
    }
  }

  /** No candle is stored twice. */
  lemma StoredOnce(klines: seq<Kline>, interval: U64, from: U64, to: U64, i: nat, j: nat, k: Kline)
    requires Increasing(klines) && interval > 0
    requires var stored := StoreRuns(Runs(klines, interval), interval, from, to);
      i < |stored| && j < |stored| && k in stored[i].run && k in stored[j].run
    ensures i == j
  {
    StoresAreOrdered(klines, interval, from, to);
    var stored := StoreRuns(Runs(klines, interval), interval, from, to);
    RunBounds(stored[i].run, k);
    RunBounds(stored[j].run, k);
  }

  lemma RunBounds(run: seq<Kline>, k: Kline)
    requires Increasing(run) && k in run
    ensures run[0].time <= k.time <= Last(run).time
  {
    var i :| 0 <= i < |run| && run[i] == k;
    if i > 0 { assert run[0].time < run[i].time; }
    if i < |run| - 1 { assert run[i].time < run[|run| - 1].time; }
  }
}
