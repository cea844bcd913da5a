// The comparison chart: one series of closing prices for each ticker, kept in
// time order while history and live updates arrive in any order.

module SeriesMerge {
  import opened Wrappers
  import opened UnixTime
  import opened Sorting
  import opened Powers

  const SERIES_MAX_POINTS: nat := 5_000

  datatype Kline = Kline(time: U64, close: int)
  datatype Point = Point(x: U64, y: int)

  function X(p: Point): int { p.x }

  function FloorTo(t: U64, timeframeMs: U64): U64 {
    var bucket := Max(timeframeMs, 1);
    t / bucket * bucket
  }

  function Floored(klines: seq<Kline>, timeframeMs: U64): seq<Point> {
    seq(|klines|, i requires 0 <= i < |klines| => Point(FloorTo(klines[i].time, timeframeMs), klines[i].close))
  }

  /** What arrives: floored to the grid, sorted, the first candle of each slot. */
  function Incoming(klines: seq<Kline>, timeframeMs: U64): (r: seq<Point>)
    ensures r == [] <==> klines == []
  {
    SortByKeyMembers(Floored(klines, timeframeMs), X);
    DedupByKey(SortByKey(Floored(klines, timeframeMs), X), X)
  }

  /** The first value in `s` at time `t`. */
  function ValueAt(s: seq<Point>, t: int): Option<int> {
    var g := Group(s, X, t);
    if g == [] then None else Some(g[0].y)
  }

  /** Two series in time order; where both have a point, the incoming one. */
  function Merge(a: seq<Point>, b: seq<Point>): seq<Point> {
    if a == [] then b
    else if b == [] then a
    else if a[0].x < b[0].x then [a[0]] + Merge(a[1..], b)
    else if b[0].x < a[0].x then [b[0]] + Merge(a, b[1..])
    else [b[0]] + Merge(a[1..], b[1..])
  }

  function Newest(s: seq<Point>): (r: seq<Point>)
    ensures |r| == Min(|s|, SERIES_MAX_POINTS) && r == s[|s| - |r|..]
  {
    if |s| > SERIES_MAX_POINTS then s[|s| - SERIES_MAX_POINTS..] else s
  }

  /** Strictly increasing, on the grid, and not too long. */
  ghost predicate WellFormed(s: seq<Point>, timeframeMs: U64) {
    && StrictlySorted(s, X) && |s| <= SERIES_MAX_POINTS
    && forall i :: 0 <= i < |s| ==> OnGrid(s[i], timeframeMs)
  }

  function Slot(n: nat, timeframeMs: U64): int { n * Max(timeframeMs, 1) }

  ghost predicate OnGrid(p: Point, timeframeMs: U64) { exists n: nat :: p.x == Slot(n, timeframeMs) }

  // -------------------------------------------------- what a merge means

  lemma {:induction false} GroupCons(x: Point, s: seq<Point>, t: int)
    ensures Group([x] + s, X, t) == (if x.x == t then [x] else []) + Group(s, X, t)
  {
    if s == [] {
      assert [x] + s == [x] && Front([x]) == [];
    } else {
      assert Front([x] + s) == [x] + Front(s);
      GroupCons(x, Front(s), t);
    }
  }

  lemma ValueAtCons(s: seq<Point>, t: int)
    requires s != []
    ensures ValueAt(s, t) == if s[0].x == t then Some(s[0].y) else ValueAt(s[1..], t)
  {
    GroupCons(s[0], s[1..], t);
    assert s == [s[0]] + s[1..];
  }

  /** A strictly increasing series has nothing before its first point. */
  lemma NothingBefore(s: seq<Point>, t: int)
    requires StrictlySorted(s, X) && (s == [] || t < s[0].x)
    ensures ValueAt(s, t) == None
  {
    forall i | 0 <= i < |s| ensures X(s[i]) != t {
      if i > 0 { assert X(s[0]) < X(s[i]); }
    }
    GroupEmpty(s, X, t);
  }

  ghost predicate StartsAfter(s: seq<Point>, t: int) { s != [] ==> t < s[0].x }

  lemma StrictCons(x: Point, s: seq<Point>)
    requires StrictlySorted(s, X) && StartsAfter(s, x.x)
    ensures StrictlySorted([x] + s, X)
  {
    var r := [x] + s;
    forall i, j | 0 <= i < j < |r| ensures X(r[i]) < X(r[j]) {
      if i == 0 && j > 1 { assert X(s[0]) < X(s[j - 1]); }
    }
  }

  lemma StrictTail(s: seq<Point>)
    requires StrictlySorted(s, X) && s != []
    ensures StrictlySorted(s[1..], X) && StartsAfter(s[1..], s[0].x)
  {
  }

  /** Old values overridden by incoming ones, at every time; and still strictly increasing. */
  lemma {:induction false} MergeOverrides(a: seq<Point>, b: seq<Point>, t: int)
    requires StrictlySorted(a, X) && StrictlySorted(b, X)
    ensures StrictlySorted(Merge(a, b), X)
    ensures forall u :: StartsAfter(a, u) && StartsAfter(b, u) ==> StartsAfter(Merge(a, b), u)
    ensures ValueAt(Merge(a, b), t) == if ValueAt(b, t).Some? then ValueAt(b, t) else ValueAt(a, t)
  {
    if a == [] {
      assert ValueAt(a, t) == None;
    } else if b == [] {
      assert ValueAt(b, t) == None;
    } else {
      StrictTail(a);
      StrictTail(b);
      ValueAtCons(a, t);
      ValueAtCons(b, t);
      ValueAtCons(Merge(a, b), t);
      if a[0].x < b[0].x {
        MergeOverrides(a[1..], b, t);
        StrictCons(a[0], Merge(a[1..], b));
        if t == a[0].x { NothingBefore(b, t); }
      } else if b[0].x < a[0].x {
        MergeOverrides(a, b[1..], t);
        StrictCons(b[0], Merge(a, b[1..]));
        if t == b[0].x { NothingBefore(a, t); }
      } else {
        MergeOverrides(a[1..], b[1..], t);
        StrictCons(b[0], Merge(a[1..], b[1..]));
      }
    }
  }

  lemma IncomingIsFirst(klines: seq<Kline>, timeframeMs: U64, t: int)
    ensures StrictlySorted(Incoming(klines, timeframeMs), X)
    ensures ValueAt(Incoming(klines, timeframeMs), t) == ValueAt(Floored(klines, timeframeMs), t)
  {
    var s := Floored(klines, timeframeMs);
    SortByKeySorted(s, X);
    SortByKeyStable(s, X, t);
    DedupStrict(SortByKey(s, X), X);
    DedupKeepsFirst(SortByKey(s, X), X, t);
  }

  function Inserted(points: seq<Point>, klines: seq<Kline>, timeframeMs: U64): seq<Point> {
    Newest(Merge(points, Incoming(klines, timeframeMs)))
  }

  /** `all` holds, for every time, the first incoming value of the slot, else the old one. */
  ghost predicate Overridden(all: seq<Point>, points: seq<Point>, klines: seq<Kline>, timeframeMs: U64) {
    && StrictlySorted(all, X)
    && forall t :: ValueAt(all, t)
         == if ValueAt(Floored(klines, timeframeMs), t).Some? then ValueAt(Floored(klines, timeframeMs), t)
           else ValueAt(points, t)
  }

  /** Inserted history is the old points overridden slot by slot, cut to the newest 5,000. */
  lemma InsertedIsOverride(points: seq<Point>, klines: seq<Kline>, timeframeMs: U64) returns (all: seq<Point>)
    requires StrictlySorted(points, X)
    ensures Overridden(all, points, klines, timeframeMs)
    ensures var r := Inserted(points, klines, timeframeMs);
      |r| == Min(|all|, SERIES_MAX_POINTS) && r == all[|all| - |r|..]
  {
    var incoming := Incoming(klines, timeframeMs);
    all := Merge(points, incoming);
    forall t ensures ValueAt(all, t)
      == if ValueAt(Floored(klines, timeframeMs), t).Some? then ValueAt(Floored(klines, timeframeMs), t)
        else ValueAt(points, t)
    {
      IncomingIsFirst(klines, timeframeMs, t);
      MergeOverrides(points, incoming, t);
    }
    IncomingIsFirst(klines, timeframeMs, 0);
    MergeOverrides(points, incoming, 0);
  }

  /** The candle falls into the slot of the time grid that begins at `x`. */
  ghost predicate InSlot(k: Kline, x: int, timeframeMs: U64) {
    x <= k.time < x + Max(timeframeMs, 1) && exists n: nat :: x == Slot(n, timeframeMs)
  }

  lemma FloorIsSlot(k: Kline, x: int, timeframeMs: U64)
    ensures FloorTo(k.time, timeframeMs) == x <==> InSlot(k, x, timeframeMs)
  {
    var bucket, q := Max(timeframeMs, 1), k.time / Max(timeframeMs, 1);
    assert k.time == q * bucket + k.time % bucket;
    assert FloorTo(k.time, timeframeMs) == Slot(q, timeframeMs);
    if InSlot(k, x, timeframeMs) {
      var n: nat :| x == Slot(n, timeframeMs);
      assert (n - q) * bucket == x - q * bucket;
      Multiples(n - q, bucket);
    }
  }

  ghost predicate FirstAt(s: seq<Point>, t: int, i: nat) {
    i < |s| && s[i].x == t && forall j :: 0 <= j < i ==> s[j].x != t
  }

  lemma {:induction false} ValueIsFirst(s: seq<Point>, t: int)
    ensures match ValueAt(s, t)
      case None => forall i :: 0 <= i < |s| ==> s[i].x != t
      case Some(y) => exists i: nat :: FirstAt(s, t, i) && s[i].y == y
  {
    if s != [] {
      var front := Front(s);
      ValueIsFirst(front, t);
      assert forall i :: 0 <= i < |front| ==> s[i] == front[i];
      GroupSnoc(front, Last(s), X, t);
      assert front + [Last(s)] == s;
      if ValueAt(front, t).Some? {
        var i: nat :| FirstAt(front, t, i) && front[i].y == ValueAt(front, t).value;
        assert FirstAt(s, t, i);
      } else if Last(s).x == t {
        assert FirstAt(s, t, |s| - 1);
      }
    }
  }

  lemma OneAt(s: seq<Point>, i: nat, j: nat)
    requires StrictlySorted(s, X) && i < |s| && j < |s| && X(s[i]) == X(s[j])
    ensures i == j
  {
  }

  lemma ValueIsMember(s: seq<Point>, p: Point)
    requires StrictlySorted(s, X)
    ensures p in s <==> ValueAt(s, p.x) == Some(p.y)
  {
    ValueIsFirst(s, p.x);
    if p in s {
      var i :| 0 <= i < |s| && s[i] == p;
      var j: nat :| FirstAt(s, p.x, j) && s[j].y == ValueAt(s, p.x).value;
      OneAt(s, i, j);
    }
  }

  /** Candle `i` is the first in the slot that begins at `x`. */
  ghost predicate FirstIn(klines: seq<Kline>, x: int, timeframeMs: U64, i: nat) {
    i < |klines| && InSlot(klines[i], x, timeframeMs) && forall j :: 0 <= j < i ==> !InSlot(klines[j], x, timeframeMs)
  }

  /** The point of the first candle in its slot. */
  ghost predicate Incomes(p: Point, klines: seq<Kline>, timeframeMs: U64) {
    exists i: nat :: FirstIn(klines, p.x, timeframeMs, i) && p.y == klines[i].close
  }

  /** An old point in a slot no candle falls into. */
  ghost predicate Stays(p: Point, points: seq<Point>, klines: seq<Kline>, timeframeMs: U64) {
    p in points && forall j :: 0 <= j < |klines| ==> !InSlot(klines[j], p.x, timeframeMs)
  }

  lemma FirstInSlot(klines: seq<Kline>, x: int, timeframeMs: U64, i: nat)
    ensures FirstAt(Floored(klines, timeframeMs), x, i) <==> FirstIn(klines, x, timeframeMs, i)
  {
    var s := Floored(klines, timeframeMs);
    forall j | 0 <= j < |klines| ensures s[j].x == x <==> InSlot(klines[j], x, timeframeMs) {
      FloorIsSlot(klines[j], x, timeframeMs);
    }
  }

  lemma NoneInSlot(klines: seq<Kline>, x: int, timeframeMs: U64)
    ensures ValueAt(Floored(klines, timeframeMs), x) == None <==>
      forall j :: 0 <= j < |klines| ==> !InSlot(klines[j], x, timeframeMs)
  {
    var s := Floored(klines, timeframeMs);
    ValueIsFirst(s, x);
    forall j | 0 <= j < |klines| ensures s[j].x == x <==> InSlot(klines[j], x, timeframeMs) {
      FloorIsSlot(klines[j], x, timeframeMs);
    }
  }

  lemma OneFirst(s: seq<Point>, t: int, i: nat, j: nat)
    requires FirstAt(s, t, i) && FirstAt(s, t, j)
    ensures i == j
  {
  }

  lemma FlooredIncomes(p: Point, klines: seq<Kline>, timeframeMs: U64)
    ensures Incomes(p, klines, timeframeMs) <==> ValueAt(Floored(klines, timeframeMs), p.x) == Some(p.y)
  {
    var s := Floored(klines, timeframeMs);
    ValueIsFirst(s, p.x);
    if Incomes(p, klines, timeframeMs) {
      var i: nat :| FirstIn(klines, p.x, timeframeMs, i) && p.y == klines[i].close;
      FirstInSlot(klines, p.x, timeframeMs, i);
      var j: nat :| FirstAt(s, p.x, j) && s[j].y == ValueAt(s, p.x).value;
      OneFirst(s, p.x, i, j);
    }
    if ValueAt(s, p.x) == Some(p.y) {
      var j: nat :| FirstAt(s, p.x, j) && s[j].y == p.y;
      FirstInSlot(klines, p.x, timeframeMs, j);
    }
  }

  /**
   * What history leaves of a series, told by its points: in time order, the
   * newest 5,000 of the first candle of every slot that got one and the old
   * points of all other slots.
   */
  lemma InsertedLaw(points: seq<Point>, klines: seq<Kline>, timeframeMs: U64)
    requires StrictlySorted(points, X)
    ensures var r := Inserted(points, klines, timeframeMs);
      && StrictlySorted(r, X) && |r| <= 5_000
      && (forall p :: p in r ==> Incomes(p, klines, timeframeMs) || Stays(p, points, klines, timeframeMs))
      && forall p :: (Incomes(p, klines, timeframeMs) || Stays(p, points, klines, timeframeMs)) && p !in r ==>
           |r| == 5_000 && forall q :: q in r ==> p.x < q.x
  {
    var all := InsertedIsOverride(points, klines, timeframeMs);
    var r := Inserted(points, klines, timeframeMs);
    forall p ensures p in all <==> Incomes(p, klines, timeframeMs) || Stays(p, points, klines, timeframeMs) {
      FlooredIncomes(p, klines, timeframeMs);
      NoneInSlot(klines, p.x, timeframeMs);
      ValueIsMember(all, p);
      ValueIsMember(points, p);
    }
    NewestMembers(all, r);
  }

  lemma NewestMembers(all: seq<Point>, r: seq<Point>)
    requires StrictlySorted(all, X) && |r| == Min(|all|, 5_000) && r == all[|all| - |r|..]
    ensures StrictlySorted(r, X) && forall p :: p in r ==> p in all
    ensures forall p :: p in all && p !in r ==> |r| == 5_000 && forall q :: q in r ==> p.x < q.x
  {
    var cut := |all| - |r|;
    forall p, q | p in all && p !in r && q in r ensures p.x < q.x {
      assert all == all[..cut] + r;
      var i :| 0 <= i < cut && all[..cut][i] == p;
      var j :| 0 <= j < |r| && r[j] == q;
      assert X(all[i]) < X(all[cut + j]);
    }
  }

  lemma NotEmptyEither(a: seq<Point>, b: seq<Point>)
    requires a != [] && ValueAt(a, a[0].x) == ValueAt(b, a[0].x)
    ensures b != []
  {
    ValueAtCons(a, a[0].x);
  }

  lemma SameFirst(a: seq<Point>, b: seq<Point>)
    requires StrictlySorted(a, X) && StrictlySorted(b, X) && a != [] && b != []
    requires ValueAt(a, a[0].x) == ValueAt(b, a[0].x) && ValueAt(a, b[0].x) == ValueAt(b, b[0].x)
    ensures a[0] == b[0]
  {
    ValueAtCons(a, a[0].x);
    ValueAtCons(b, b[0].x);
    if a[0].x < b[0].x { NothingBefore(b, a[0].x); }
    if b[0].x < a[0].x { NothingBefore(a, b[0].x); }
    ValueAtCons(b, a[0].x);
  }

  lemma SameRest(a: seq<Point>, b: seq<Point>)
    requires StrictlySorted(a, X) && StrictlySorted(b, X) && a != [] && b != [] && a[0] == b[0]
    requires forall t :: ValueAt(a, t) == ValueAt(b, t)
    ensures forall t :: ValueAt(a[1..], t) == ValueAt(b[1..], t)
  {
    NothingBefore(a[1..], a[0].x);
    NothingBefore(b[1..], a[0].x);
    forall t ensures ValueAt(a[1..], t) == ValueAt(b[1..], t) {
      ValueAtCons(a, t);
      ValueAtCons(b, t);
    }
  }

  /** A strictly increasing series is fixed by its values: there is one override and no other. */
  lemma {:induction false} ValuesDetermine(a: seq<Point>, b: seq<Point>)
    requires StrictlySorted(a, X) && StrictlySorted(b, X)
    requires forall t :: ValueAt(a, t) == ValueAt(b, t)
    ensures a == b
  {
    if a != [] { NotEmptyEither(a, b); }
    if b != [] { NotEmptyEither(b, a); }
    if a != [] {
      SameFirst(a, b);
      StrictTail(a);
      StrictTail(b);
      SameRest(a, b);
      ValuesDetermine(a[1..], b[1..]);
      assert a == [a[0]] + a[1..] && b == [b[0]] + b[1..];
    }
  }

  lemma {:induction false} MergeMembers(a: seq<Point>, b: seq<Point>)
    ensures forall p :: p in Merge(a, b) ==> p in a || p in b
  {
    if a != [] && b != [] {
      if a[0].x < b[0].x { MergeMembers(a[1..], b); }
      else if b[0].x < a[0].x { MergeMembers(a, b[1..]); }
      else { MergeMembers(a[1..], b[1..]); }
    }
  }

  lemma FlooredOnGrid(klines: seq<Kline>, timeframeMs: U64, i: nat)
    requires i < |klines|
    ensures OnGrid(Floored(klines, timeframeMs)[i], timeframeMs)
  {
    assert FloorTo(klines[i].time, timeframeMs) == Slot(klines[i].time / Max(timeframeMs, 1), timeframeMs);
  }

  lemma IncomingOnGrid(klines: seq<Kline>, timeframeMs: U64)
    ensures forall p :: p in Incoming(klines, timeframeMs) ==> OnGrid(p, timeframeMs)
  {
    var floored := Floored(klines, timeframeMs);
    SortByKeyMembers(floored, X);
    forall p | p in Incoming(klines, timeframeMs) ensures OnGrid(p, timeframeMs) {
      assert p in floored;
      var i :| 0 <= i < |floored| && floored[i] == p;
      FlooredOnGrid(klines, timeframeMs, i);
    }
  }

  lemma NewestStrict(s: seq<Point>)
    requires StrictlySorted(s, X)
    ensures StrictlySorted(Newest(s), X)
  {
  }

  lemma InsertedWellFormed(points: seq<Point>, klines: seq<Kline>, timeframeMs: U64)
    requires WellFormed(points, timeframeMs)
    ensures WellFormed(Inserted(points, klines, timeframeMs), timeframeMs)
  {
    var incoming := Incoming(klines, timeframeMs);
    IncomingIsFirst(klines, timeframeMs, 0);
    MergeOverrides(points, incoming, 0);
    NewestStrict(Merge(points, incoming));
    MergeMembers(points, incoming);
    IncomingOnGrid(klines, timeframeMs);
    var r := Inserted(points, klines, timeframeMs);
    forall i | 0 <= i < |r| ensures OnGrid(r[i], timeframeMs) {
      assert r[i] in Merge(points, incoming);
    }
  }

  // --------------------------------------------------- the merging loop

  lemma MergeStep(dst: seq<Point>, incoming: seq<Point>, i: nat, j: nat, merged: seq<Point>)
    requires i < |dst| && j < |incoming|
    ensures merged + Merge(dst[i..], incoming[j..])
         == if dst[i].x < incoming[j].x then merged + [dst[i]] + Merge(dst[i + 1..], incoming[j..])
            else if incoming[j].x < dst[i].x then merged + [incoming[j]] + Merge(dst[i..], incoming[j + 1..])
            else merged + [incoming[j]] + Merge(dst[i + 1..], incoming[j + 1..])
  {
    assert dst[i..][1..] == dst[i + 1..] && incoming[j..][1..] == incoming[j + 1..];
  }

  /** The two-pointer loop, its two tails and the final `dedup`. */
  method MergePoints(dst: seq<Point>, incoming: seq<Point>) returns (merged: seq<Point>)
    requires StrictlySorted(dst, X) && StrictlySorted(incoming, X)
    ensures merged == Merge(dst, incoming)
  {
    merged := TwoPointers(dst, incoming);
    MergeOverrides(dst, incoming, 0);
    DedupStays(merged, X);
    merged := DedupByKey(merged, X);
  }

  method TwoPointers(dst: seq<Point>, incoming: seq<Point>) returns (merged: seq<Point>)
    ensures merged == Merge(dst, incoming)
  {
    var i, j := 0, 0;
    merged := [];
    ghost var rest := Merge(dst, incoming);
    while i < |dst| && j < |incoming|
      invariant i <= |dst| && j <= |incoming|
      invariant rest == Merge(dst[i..], incoming[j..])
      invariant merged + rest == Merge(dst, incoming)
    {
      MergeStep(dst, incoming, i, j, merged);
      if dst[i].x < incoming[j].x {
        merged := merged + [dst[i]];
        i := i + 1;
      } else if incoming[j].x < dst[i].x {
        merged := merged + [incoming[j]];
        j := j + 1;
      } else {
        merged := merged + [incoming[j]];
        i, j := i + 1, j + 1;
      }
      rest := Merge(dst[i..], incoming[j..]);
    }
    if i < |dst| {
      merged := merged + dst[i..];
    } else if j < |incoming| {
      merged := merged + incoming[j..];
    }
  }

  /** What `insert_history` leaves in a series. */
  method InsertPoints(dst: seq<Point>, klines: seq<Kline>, timeframeMs: U64) returns (points: seq<Point>)
    requires StrictlySorted(dst, X)
    ensures points == Inserted(dst, klines, timeframeMs)
  {
    IncomingIsFirst(klines, timeframeMs, 0);
    points := InsertSorted(dst, Incoming(klines, timeframeMs));
  }

  method InsertSorted(dst: seq<Point>, incoming: seq<Point>) returns (points: seq<Point>)
    requires StrictlySorted(dst, X) && StrictlySorted(incoming, X)
    ensures points == Newest(Merge(dst, incoming))
  {
    if dst == [] {
      points := incoming;
    } else {
      points := MergePoints(dst, incoming);
    }
    if |points| > SERIES_MAX_POINTS { points := points[|points| - SERIES_MAX_POINTS..]; }
  }

  lemma NothingInserted(points: seq<Point>, timeframeMs: U64)
    requires |points| <= SERIES_MAX_POINTS
    ensures Inserted(points, [], timeframeMs) == points
  {
    assert Merge(points, []) == points;
  }

  // ----------------------------------------------------- live updates

  function Updated(points: seq<Point>, p: Point): seq<Point> {
    if points == [] then [p]
    else if Last(points).x == p.x then Front(points) + [p]
    else if Last(points).x < p.x then Newest(points + [p])
    else points
  }

  /** What `update_latest_kline` leaves in a series. */
  method UpdatePoints(points: seq<Point>, p: Point) returns (r: seq<Point>)
    requires |points| <= SERIES_MAX_POINTS
    ensures r == Updated(points, p)
  {
    r := points;
    if r == [] || Last(r).x < p.x {
      r := r + [p];
    } else if Last(r).x == p.x {
      r := r[|r| - 1 := p];
    }
    if |r| > SERIES_MAX_POINTS { r := r[|r| - SERIES_MAX_POINTS..]; }
  }

  lemma {:induction false} MergeBehind(points: seq<Point>, p: Point)
    requires StrictlySorted(points, X) && (points == [] || Last(points).x <= p.x)
    ensures Merge(points, [p])
         == if points != [] && Last(points).x == p.x then Front(points) + [p] else points + [p]
  {
    if |points| == 1 {
      assert Merge(points[1..], [p]) == [p];
      assert Merge(points[1..], [p][1..]) == [];
    } else if |points| > 1 {
      assert X(points[0]) < X(Last(points));
      StrictTail(points);
      MergeBehind(points[1..], p);
      assert points == [points[0]] + points[1..];
      assert Front(points) == [points[0]] + Front(points[1..]);
    }
  }

  /**
   * A live candle that is not behind the series does what inserting it as history would do;
   * an older one does nothing.
   */
  lemma UpdateIsInsert(points: seq<Point>, k: Kline, timeframeMs: U64)
    requires WellFormed(points, timeframeMs)
    ensures var p := Point(FloorTo(k.time, timeframeMs), k.close);
      Updated(points, p) == if points == [] || Last(points).x <= p.x then Inserted(points, [k], timeframeMs) else points
  {
    var p := Point(FloorTo(k.time, timeframeMs), k.close);
    assert Floored([k], timeframeMs) == [p];
    assert SortByKey([p], X) == [p] by {
      assert Front([p]) == [];
      assert SortByKey<Point>([], X) == [];
    }
    assert Incoming([k], timeframeMs) == [p];
    if points == [] || Last(points).x <= p.x { MergeBehind(points, p); }
  }

  lemma UpdatedWellFormed(points: seq<Point>, k: Kline, timeframeMs: U64)
    requires WellFormed(points, timeframeMs)
    ensures WellFormed(Updated(points, Point(FloorTo(k.time, timeframeMs), k.close)), timeframeMs)
  {
    UpdateIsInsert(points, k, timeframeMs);
    InsertedWellFormed(points, [k], timeframeMs);
  }
}

module Comparison {
  import opened Wrappers
  import opened UnixTime
  import opened Sorting
  import opened SeriesMerge

  const FALLBACK_TIMEFRAME_MS: U64 := 900_000

  type Ticker = nat

  datatype Basis = Time(timeframeMs: U64) | Tick(count: nat)
  datatype Series = Series(ticker: Ticker, points: seq<Point>)

  /** What becomes of the request that brought history. */
  datatype Report = NoData | Completed | NoHandler

  /** The index has exactly the tickers that have a series, and gives the last of their positions. */
  ghost predicate Indexed(series: seq<Series>, index: map<Ticker, nat>) {
    && (forall t :: t in index ==> index[t] < |series| && series[index[t]].ticker == t)
    && (forall i :: 0 <= i < |series| ==> series[i].ticker in index && i <= index[series[i].ticker])
  }

  ghost predicate DistinctTickers(series: seq<Series>) {
    forall i, j :: 0 <= i < j < |series| ==> series[i].ticker != series[j].ticker
  }

  ghost predicate Distinct(s: seq<Ticker>) {
    forall i, j :: 0 <= i < j < |s| ==> s[i] != s[j]
  }

  /** With distinct tickers the index gives i for t exactly when series i is t. */
  lemma IndexIsExact(series: seq<Series>, index: map<Ticker, nat>)
    requires Indexed(series, index)
    ensures DistinctTickers(series) <==>
      forall i, t :: 0 <= i < |series| ==> (t in index && index[t] == i <==> series[i].ticker == t)
  {
    if DistinctTickers(series) {
      forall i, t | 0 <= i < |series| && series[i].ticker == t ensures t in index && index[t] == i {
        assert series[index[t]].ticker == t;
      }
    } else {
      var i, j :| 0 <= i < j < |series| && series[i].ticker == series[j].ticker;
      assert j <= index[series[i].ticker];
    }
  }

  function Listed(series: seq<Series>, index: map<Ticker, nat>, t: Ticker): seq<Series> {
    if t in index then series else series + [Series(t, [])]
  }

  function ListedIndex(series: seq<Series>, index: map<Ticker, nat>, t: Ticker): map<Ticker, nat> {
    if t in index then index else index[t := |series|]
  }

  lemma IndexedSnoc(series: seq<Series>, index: map<Ticker, nat>, s: Series)
    requires Indexed(series, index)
    ensures Indexed(series + [s], index[s.ticker := |series|])
  {
  }

  lemma ListedKeeps(series: seq<Series>, index: map<Ticker, nat>, t: Ticker)
    requires Indexed(series, index) && t !in index
    ensures Indexed(series + [Series(t, [])], index[t := |series|])
    ensures DistinctTickers(series) ==> DistinctTickers(series + [Series(t, [])])
  {
    IndexedSnoc(series, index, Series(t, []));
  }

  /** `r` is `s` without position `cut`. */
  ghost predicate Cut(s: seq<Series>, cut: nat, r: seq<Series>) {
    cut < |s| && r == s[..cut] + s[cut + 1..]
  }

  lemma CutAt(s: seq<Series>, cut: nat, r: seq<Series>)
    requires Cut(s, cut, r)
    ensures |r| == |s| - 1
    ensures forall i :: 0 <= i < |r| ==> r[i] == if i < cut then s[i] else s[i + 1]
  {
  }

  lemma CutDistinct(s: seq<Series>, cut: nat, r: seq<Series>)
    requires Cut(s, cut, r) && DistinctTickers(s)
    ensures DistinctTickers(r) && forall i :: 0 <= i < |r| ==> r[i].ticker != s[cut].ticker
  {
    CutAt(s, cut, r);
  }

  lemma CutKeeps(s: seq<Series>, cut: nat, r: seq<Series>, i: nat)
    requires Cut(s, cut, r) && i < |s| && i != cut
    ensures s[i] in r
  {
    CutAt(s, cut, r);
    assert r[if i < cut then i else i - 1] == s[i];
  }

  lemma IndexedOnce(series: seq<Series>, index: map<Ticker, nat>, s: Series)
    requires Indexed(series, index) && DistinctTickers(series) && s in series
    ensures s.ticker in index && series[index[s.ticker]] == s
  {
    var i :| 0 <= i < |series| && series[i] == s;
    assert i <= index[s.ticker];
  }

  /** Without the one series of `t`, the index finds the series of every other ticker. */
  lemma TakenOut(was: seq<Series>, wasIndex: map<Ticker, nat>, t: Ticker, series: seq<Series>, index: map<Ticker, nat>,
                 u: Ticker)
    requires Indexed(was, wasIndex) && Indexed(series, index) && DistinctTickers(was) && t in wasIndex
    requires Cut(was, wasIndex[t], series) && u != t
    ensures u in index <==> u in wasIndex
    ensures u in index ==> series[index[u]] == was[wasIndex[u]]
  {
    CutDistinct(was, wasIndex[t], series);
    if u in wasIndex {
      CutKeeps(was, wasIndex[t], series, wasIndex[u]);
      IndexedOnce(series, index, was[wasIndex[u]]);
    } else {
      NothingNew(was, wasIndex, wasIndex[t], series, index, u);
    }
  }

  lemma NothingNew(was: seq<Series>, wasIndex: map<Ticker, nat>, cut: nat, series: seq<Series>, index: map<Ticker, nat>,
                   u: Ticker)
    requires Indexed(was, wasIndex) && Indexed(series, index) && Cut(was, cut, series)
    ensures u in index ==> u in wasIndex
  {
    CutAt(was, cut, series);
  }

  ghost predicate AllWellFormed(series: seq<Series>, timeframeMs: U64) {
    forall i :: 0 <= i < |series| ==> WellFormed(series[i].points, timeframeMs)
  }

  function Fresh(tickers: seq<Ticker>): (r: seq<Series>)
    ensures |r| == |tickers| && forall i :: 0 <= i < |r| ==> r[i].ticker == tickers[i] && r[i].points == []
  {
    seq(|tickers|, i requires 0 <= i < |tickers| => Series(tickers[i], []))
  }

  /** Builds the position index of a list of series, from front to back. */
  method BuildIndex(series: seq<Series>) returns (index: map<Ticker, nat>)
    ensures Indexed(series, index)
  {
    index := map[];
    for i := 0 to |series|
      invariant Indexed(series[..i], index)
    {
      IndexedSnoc(series[..i], index, series[i]);
      assert series[..i] + [series[i]] == series[..i + 1];
      index := index[series[i].ticker := i];
    }
    assert series[..|series|] == series;
  }

  /** An empty answer to a known request only reports that there is no data. */
  method Receive(dst: seq<Point>, klines: seq<Kline>, timeframeMs: U64, known: bool)
    returns (points: seq<Point>, report: Report)
    requires WellFormed(dst, timeframeMs)
    ensures points == Inserted(dst, klines, timeframeMs) && WellFormed(points, timeframeMs)
    ensures report == if !known then NoHandler else if klines == [] then NoData else Completed
  {
    InsertedWellFormed(dst, klines, timeframeMs);
    if klines == [] && known {
      NothingInserted(dst, timeframeMs);
      return dst, NoData;
    }
    points := InsertPoints(dst, klines, timeframeMs);
    report := if known then Completed else NoHandler;
  }

  class ComparisonChart {
    var series: seq<Series>
    var seriesIndex: map<Ticker, nat>
    var selectedTickers: seq<Ticker>
    var handlers: set<Ticker>
    var timeframeMs: U64

    ghost predicate Valid()
      reads this
    {
      Indexed(series, seriesIndex) && AllWellFormed(series, timeframeMs)
    }

    ghost predicate DistinctEverywhere()
      reads this
    {
      DistinctTickers(series) && Distinct(selectedTickers)
    }

    constructor (basis: Basis, tickers: seq<Ticker>)
      ensures Valid() && series == Fresh(tickers) && selectedTickers == tickers
      ensures timeframeMs == if basis.Time? then basis.timeframeMs else FALLBACK_TIMEFRAME_MS
      ensures Distinct(tickers) ==> DistinctEverywhere()
      ensures handlers == set t | t in tickers
    {
      timeframeMs := if basis.Time? then basis.timeframeMs else FALLBACK_TIMEFRAME_MS;
      series := Fresh(tickers);
      selectedTickers := tickers;
      handlers := set t | t in tickers;
      new;
      seriesIndex := BuildIndex(series);
    }

    function PointsOf(t: Ticker): seq<Point>
      requires t in seriesIndex ==> seriesIndex[t] < |series|
      reads this`series, this`seriesIndex
    {
      if t in seriesIndex then series[seriesIndex[t]].points else []
    }

    /** The series of a ticker; a new one goes to the end. */
    method GetOrCreateSeriesIdx(t: Ticker) returns (idx: nat)
      requires Valid()
      modifies this`series, this`seriesIndex
      ensures Valid() && t in seriesIndex && seriesIndex[t] == idx
      ensures old(DistinctEverywhere()) ==> DistinctEverywhere()
      ensures series == old(Listed(series, seriesIndex, t)) && seriesIndex == old(ListedIndex(series, seriesIndex, t))
      ensures forall u :: PointsOf(u) == old(PointsOf(u))
    {
      if t in seriesIndex { return seriesIndex[t]; }
      idx := |series|;
      ListedKeeps(series, seriesIndex, t);
      series := series + [Series(t, [])];
      seriesIndex := seriesIndex[t := idx];
    }

    method SetPoints(idx: nat, points: seq<Point>)
      requires Valid() && idx < |series| && WellFormed(points, timeframeMs)
      modifies this`series
      ensures Valid() && series == old(series)[idx := Series(old(series)[idx].ticker, points)]
      ensures forall u :: u in seriesIndex && seriesIndex[u] != idx ==> PointsOf(u) == old(PointsOf(u))
      ensures old(DistinctEverywhere()) ==> DistinctEverywhere()
    {
      series := series[idx := Series(series[idx].ticker, points)];
    }

    /** History is merged over what the series has; the other series stay as they are. */
    method InsertHistory(t: Ticker, klines: seq<Kline>) returns (report: Report)
      requires Valid()
      modifies this`series, this`seriesIndex
      ensures Valid() && t in seriesIndex
      ensures old(DistinctEverywhere()) ==> DistinctEverywhere()
      ensures report == if t !in handlers then NoHandler else if klines == [] then NoData else Completed
      ensures seriesIndex == old(ListedIndex(series, seriesIndex, t))
      ensures series == old(Listed(series, seriesIndex, t))[seriesIndex[t] :=
        Series(t, Inserted(old(PointsOf(t)), klines, timeframeMs))]
      ensures forall u :: u != t ==> PointsOf(u) == old(PointsOf(u))
    {
      var idx := GetOrCreateSeriesIdx(t);
      var points, outcome := Receive(series[idx].points, klines, timeframeMs, t in handlers);
      report := outcome;
      SetPoints(idx, points);
    }

    /** A live candle replaces the last point or goes behind it; an older one is dropped. */
    method UpdateLatestKline(t: Ticker, k: Kline)
      requires Valid()
      modifies this`series, this`seriesIndex
      ensures Valid() && t in seriesIndex
      ensures old(DistinctEverywhere()) ==> DistinctEverywhere()
      ensures seriesIndex == old(ListedIndex(series, seriesIndex, t))
      ensures series == old(Listed(series, seriesIndex, t))[seriesIndex[t] :=
        Series(t, Updated(old(PointsOf(t)), Point(FloorTo(k.time, timeframeMs), k.close)))]
      ensures forall u :: u != t ==> PointsOf(u) == old(PointsOf(u))
    {
      var idx := GetOrCreateSeriesIdx(t);
      UpdatedWellFormed(series[idx].points, k, timeframeMs);
      var points := UpdatePoints(series[idx].points, Point(FloorTo(k.time, timeframeMs), k.close));
      SetPoints(idx, points);
    }

    method RebuildHandlers()
      modifies this`handlers
      ensures handlers == set t | t in selectedTickers
    {
      handlers := set t | t in selectedTickers;
    }

    method Select(t: Ticker)
      modifies this`selectedTickers
      ensures selectedTickers == if t in old(selectedTickers) then old(selectedTickers) else old(selectedTickers) + [t]
      ensures t in selectedTickers && (Distinct(old(selectedTickers)) ==> Distinct(selectedTickers))
    {
      if t !in selectedTickers { selectedTickers := selectedTickers + [t]; }
    }

    method AddTicker(t: Ticker)
      requires Valid()
      modifies this`series, this`seriesIndex, this`selectedTickers, this`handlers
      ensures Valid() && t in seriesIndex && t in selectedTickers
      ensures old(DistinctEverywhere()) ==> DistinctEverywhere()
      ensures selectedTickers == if t in old(selectedTickers) then old(selectedTickers) else old(selectedTickers) + [t]
      ensures series == old(Listed(series, seriesIndex, t)) && seriesIndex == old(ListedIndex(series, seriesIndex, t))
      ensures handlers == set u | u in selectedTickers
      ensures forall u :: PointsOf(u) == old(PointsOf(u))
    {
      Select(t);
      var _ := GetOrCreateSeriesIdx(t);
      RebuildHandlers();
    }

    method TakeOut(t: Ticker)
      requires Valid()
      modifies this`series, this`seriesIndex
      ensures Valid()
      ensures series == if t in old(seriesIndex)
        then old(series)[..old(seriesIndex)[t]] + old(series)[old(seriesIndex)[t] + 1..]
        else old(series)
      ensures DistinctTickers(old(series)) ==>
        DistinctTickers(series) && t !in seriesIndex && forall u :: u != t ==> PointsOf(u) == old(PointsOf(u))
    {
      if t in seriesIndex {
        var idx := seriesIndex[t];
        ghost var was, wasIndex := series, seriesIndex;
        series := series[..idx] + series[idx + 1..];
        seriesIndex := BuildIndex(series);
        if DistinctTickers(was) {
          CutDistinct(was, idx, series);
          forall u | u != t ensures PointsOf(u) == old(PointsOf(u)) {
            TakenOut(was, wasIndex, t, series, seriesIndex, u);
          }
        }
      }
    }

    /** Takes one series of the ticker away and closes the gap; the others keep their order and points. */
    method RemoveTicker(t: Ticker)
      requires Valid()
      modifies this`series, this`seriesIndex, this`selectedTickers, this`handlers
      ensures Valid()
      ensures old(DistinctEverywhere()) ==> DistinctEverywhere() && t !in seriesIndex
      ensures series == if t in old(seriesIndex)
        then old(series)[..old(seriesIndex)[t]] + old(series)[old(seriesIndex)[t] + 1..]
        else old(series)
      ensures selectedTickers == Without(old(selectedTickers), t)
      ensures handlers == set u | u in selectedTickers
      ensures old(DistinctEverywhere()) ==> forall u :: u != t ==> PointsOf(u) == old(PointsOf(u))
    {
      TakeOut(t);
      WithoutDistinct(selectedTickers, t);
      selectedTickers := Without(selectedTickers, t);
      RebuildHandlers();
    }

    /** A new time basis starts every selected ticker afresh; a tick basis is refused. */
    method SetBasis(basis: Basis)
      requires Valid()
      modifies this`series, this`seriesIndex, this`timeframeMs, this`handlers
      ensures Valid()
      ensures old(DistinctEverywhere()) ==> DistinctEverywhere()
      ensures basis.Time? ==> timeframeMs == basis.timeframeMs && series == Fresh(selectedTickers)
      ensures basis.Time? ==> handlers == set t | t in selectedTickers
      ensures basis.Tick? ==>
        timeframeMs == old(timeframeMs) && series == old(series) && seriesIndex == old(seriesIndex)
      ensures basis.Tick? ==> handlers == old(handlers)
    {
      if basis.Time? {
        timeframeMs := basis.timeframeMs;
        series := Fresh(selectedTickers);
        seriesIndex := BuildIndex(series);
        RebuildHandlers();
      }
    }
  }

  /** `retain(|t| t != ticker)`. */
  function Without(s: seq<Ticker>, t: Ticker): (r: seq<Ticker>)
    ensures forall u :: u in r <==> u in s && u != t
  {
    if s == [] then []
    else
      assert s == Front(s) + [Last(s)];
      Without(Front(s), t) + if Last(s) == t then [] else [Last(s)]
  }

  /** What stays keeps its order. */
  lemma {:induction false} WithoutJoins(a: seq<Ticker>, b: seq<Ticker>, t: Ticker)
    ensures Without(a + b, t) == Without(a, t) + Without(b, t)
  {
    if b == [] {
      assert a + b == a;
    } else {
      WithoutJoins(a, Front(b), t);
      assert Front(a + b) == a + Front(b) && Last(a + b) == Last(b);
      Assoc(Without(a, t), Without(Front(b), t), if Last(b) == t then [] else [Last(b)]);
    }
  }

  lemma WithoutOne(u: Ticker, t: Ticker)
    ensures Without([u], t) == if u == t then [] else [u]
  {
    assert Front([u]) == [];
  }

  lemma {:induction false} WithoutDistinct(s: seq<Ticker>, t: Ticker)
    ensures Distinct(s) ==> Distinct(Without(s, t))
  {
    if s != [] && Distinct(s) {
      WithoutDistinct(Front(s), t);
      forall i | 0 <= i < |Without(Front(s), t)| ensures Without(Front(s), t)[i] != Last(s) {
        assert Without(Front(s), t)[i] in Front(s);
      }
    }
  }
}
