// The trade worker: pages through the network for the milliseconds the cache
// lacks, and reports which of them it has verified.

module Trades {
  import opened Wrappers
  import opened UnixTime
  import opened Sorting
  import opened Spans

  const TRADE_GAP_COALESCE_BRIDGE_MS: U64 := 60_000
  const NO_PROGRESS_REMAINING_EPSILON_MS: U64 := 1_000
  const NO_PROGRESS_MAX_CONSECUTIVE: nat := 3
  const WORKER_TIMEOUT_MS: nat := 85_000
  const CHUNK: nat := 10_000

  datatype Trade = Trade(id: Option<U64>, time: U64, payload: int)

  /** The sort key `(time, id)`, with a missing id before every id. */
  function Key(t: Trade): int {
    t.time * (U64_MAX + 2) + match t.id case None => 0 case Some(id) => id + 1
  }

  lemma KeyIsLexicographic(a: Trade, b: Trade)
    ensures Key(a) <= Key(b) <==>
      a.time < b.time || (a.time == b.time && (a.id.None? || (b.id.Some? && a.id.value <= b.id.value)))
  {
  }

  predicate TradeTimeIsInGaps(time: U64, gaps: seq<Span>) {
    Covers(gaps, time)
  }

  // ------------------------------------------------------------- filtering

  datatype Kept = Kept(batch: seq<Trade>, last: Option<U64>)

  predicate Keeps(t: Trade, from: U64, to: U64, last: Option<U64>) {
    from <= t.time < to && (t.id.None? || last.None? || t.id.value > last.value)
  }

  /** The in-order `retain` that remembers the greatest id it has let through. */
  function Retain(sorted: seq<Trade>, from: U64, to: U64, last: Option<U64>): Kept {
    if sorted == [] then Kept([], last)
    else
      var before, t := Retain(Front(sorted), from, to, last), Last(sorted);
      if Keeps(t, from, to, before.last) then
        Kept(before.batch + [t], if t.id.Some? then t.id else before.last)
      else before
  }

  method FilterNewFetchedTrades(raw: seq<Trade>, from: U64, to: U64, lastTradeId: Option<U64>)
    returns (batch: seq<Trade>, last: Option<U64>, discarded: nat)
    ensures Kept(batch, last) == Retain(SortByKey(raw, Key), from, to, lastTradeId)
    ensures |batch| + discarded == |raw|
  {
    var sorted := SortByKey(raw, Key);
    SortByKeyMembers(raw, Key);
    batch, last := [], lastTradeId;
    for i := 0 to |sorted|
      invariant Kept(batch, last) == Retain(sorted[..i], from, to, lastTradeId)
      invariant |batch| <= i
    {
      assert Front(sorted[..i + 1]) == sorted[..i] && Last(sorted[..i + 1]) == sorted[i];
      var t := sorted[i];
      if t.time < from || t.time >= to { continue; }
      if t.id.Some? {
        if last.Some? && t.id.value <= last.value { continue; }
        last := t.id;
      }
      batch := batch + [t];
    }
    assert sorted[..|sorted|] == sorted;
    discarded := |raw| - |batch|;
  }

  ghost predicate DistinctIds(s: seq<Trade>) {
    forall i, j :: 0 <= i < j < |s| && s[i].id.Some? && s[j].id.Some? ==> s[i].id != s[j].id
  }

  ghost predicate IdsAbove(s: seq<Trade>, bound: Option<U64>) {
    bound.Some? ==> forall t :: t in s && t.id.Some? ==> t.id.value > bound.value
  }

  ghost predicate IdsUpTo(s: seq<Trade>, bound: Option<U64>) {
    forall t :: t in s && t.id.Some? ==> bound.Some? && t.id.value <= bound.value
  }

  /** What the filter lets through carries every id once, all of them new. */
  lemma {:induction false} RetainFresh(sorted: seq<Trade>, from: U64, to: U64, last: Option<U64>)
    ensures var k := Retain(sorted, from, to, last);
      && DistinctIds(k.batch) && IdsAbove(k.batch, last) && IdsUpTo(k.batch, k.last)
      && (last.Some? ==> k.last.Some? && last.value <= k.last.value)
      && (k.last == last || exists t :: t in k.batch && t.id == k.last)
      && (forall t :: t in k.batch ==> t in sorted && from <= t.time < to)
  {
    if sorted != [] {
      RetainFresh(Front(sorted), from, to, last);
      var before, t := Retain(Front(sorted), from, to, last), Last(sorted);
      if Keeps(t, from, to, before.last) {
        var b := before.batch + [t];
        assert b[|before.batch|] == t && forall i :: 0 <= i < |before.batch| ==> b[i] == before.batch[i];
        assert t in b && forall x :: x in before.batch ==> x in b;
      }
    }
  }

  /** A record in the slice is dropped only for an id no greater than the last one let through. */
  lemma {:induction false} RetainDropsSeen(sorted: seq<Trade>, from: U64, to: U64, last: Option<U64>, t: Trade)
    requires t in sorted && from <= t.time < to
    ensures var k := Retain(sorted, from, to, last);
      t in k.batch || (t.id.Some? && k.last.Some? && t.id.value <= k.last.value)
  {
    var front, x := Front(sorted), Last(sorted);
    var before := Retain(front, from, to, last);
    assert sorted == front + [x];
    if t in front { RetainDropsSeen(front, from, to, last, t); }
  }

  /** What passes stays in order. */
  lemma {:induction false} RetainKeepsOrder(sorted: seq<Trade>, from: U64, to: U64, last: Option<U64>)
    requires Sorted(sorted, Key)
    ensures Sorted(Retain(sorted, from, to, last).batch, Key)
  {
    if sorted != [] {
      var front, x := Front(sorted), Last(sorted);
      RetainKeepsOrder(front, from, to, last);
      RetainFresh(front, from, to, last);
      var before := Retain(front, from, to, last).batch;
      forall i | 0 <= i < |before| ensures Key(before[i]) <= Key(x) {
        assert before[i] in front;
        var j :| 0 <= j < |front| && front[j] == before[i];
        assert sorted[j] == before[i] && sorted[|front|] == x;
      }
    }
  }

  /** Records without an id are never dropped inside the requested slice. */
  function Anonymous(s: seq<Trade>, from: U64, to: U64): seq<Trade> {
    if s == [] then []
    else Anonymous(Front(s), from, to) + if Last(s).id.None? && from <= Last(s).time < to then [Last(s)] else []
  }

  lemma {:induction false} RetainKeepsAnonymous(sorted: seq<Trade>, from: U64, to: U64, last: Option<U64>)
    ensures Anonymous(Retain(sorted, from, to, last).batch, from, to) == Anonymous(sorted, from, to)
  {
    if sorted != [] {
      RetainKeepsAnonymous(Front(sorted), from, to, last);
      var before, t := Retain(Front(sorted), from, to, last), Last(sorted);
      if Keeps(t, from, to, before.last) {
        assert Front(before.batch + [t]) == before.batch;
      }
    }
  }

  /** A record without an id passes whenever it lies in the slice. */
  lemma {:induction false} RetainHasAnonymous(sorted: seq<Trade>, from: U64, to: U64, last: Option<U64>, t: Trade)
    requires t in sorted && t.id.None? && from <= t.time < to
    ensures t in Retain(sorted, from, to, last).batch
  {
    if t != Last(sorted) {
      assert sorted == Front(sorted) + [Last(sorted)];
      RetainHasAnonymous(Front(sorted), from, to, last, t);
    }
  }

  /** An exchange whose ids name one trade each. */
  ghost predicate IdsName(truth: seq<Trade>) {
    forall a, b :: a in truth && b in truth && a.id.Some? && a.id == b.id ==> a == b
  }

  /** An exchange whose ids, moreover, increase with time. */
  ghost predicate IdsIncrease(truth: seq<Trade>) {
    && IdsName(truth)
    && forall a, b :: a in truth && b in truth && a.id.Some? && b.id.Some? && a.time < b.time ==>
      a.id.value < b.id.value
  }

  ghost predicate AllFrom(s: seq<Trade>, truth: seq<Trade>) {
    forall t :: t in s ==> t in truth
  }

  /** A record the filter drops although its id is new to the run was let through just before. */
  lemma DroppedWasKept(front: seq<Trade>, x: Trade, from: U64, to: U64, last: Option<U64>, truth: seq<Trade>)
    requires Sorted(front + [x], Key) && IdsIncrease(truth) && AllFrom(front, truth) && x in truth
    requires x.id.Some? && from <= x.time < to && (last.None? || x.id.value > last.value)
    requires !Keeps(x, from, to, Retain(front, from, to, last).last)
    ensures x in Retain(front, from, to, last).batch
  {
    var before := Retain(front, from, to, last);
    RetainFresh(front, from, to, last);
    var e :| e in before.batch && e.id == before.last;
    assert e in front && e in truth;
    assert Key(e) <= Key(x) by {
      var s := front + [x];
      var j :| 0 <= j < |front| && front[j] == e;
      assert s[j] == e && s[|front|] == x;
    }
    KeyIsLexicographic(e, x);
    assert e == x;
  }

  /** With increasing ids the filter drops only ids at or below the last one seen before. */
  lemma {:induction false} RetainComplete(sorted: seq<Trade>, from: U64, to: U64, last: Option<U64>,
                                          truth: seq<Trade>, t: Trade)
    requires Sorted(sorted, Key) && IdsIncrease(truth) && AllFrom(sorted, truth)
    requires t in sorted && t.id.Some? && from <= t.time < to
    requires last.None? || t.id.value > last.value
    ensures t in Retain(sorted, from, to, last).batch
  {
    var front, x := Front(sorted), Last(sorted);
    assert sorted == front + [x];
    if t in front {
      RetainComplete(front, from, to, last, truth, t);
    } else if !Keeps(t, from, to, Retain(front, from, to, last).last) {
      DroppedWasKept(front, x, from, to, last, truth);
    }
  }
}
