// The proxy history of one underlying: how a response is merged into the
// points already held.

module ProxyHistory {
  import opened UnixTime
  import opened Sorting

  const RETENTION_WITH_MARGIN_MS: int := 87_000_000
  const MAX_PROXY_RECORDS: nat := 320

  /** `valid` stands for the check that spot, exposure and levels are finite and positive. */
  datatype Point = Point(observedAt: I64, valid: bool, payload: int)

  function ObservedAt(p: Point): int { p.observedAt }

  function Cutoff(now: U64): I64 { Min(now, I64_MAX) - RETENTION_WITH_MARGIN_MS }

  predicate Keeps(p: Point, now: U64) { p.valid && p.observedAt >= Cutoff(now) }

  function Kept(s: seq<Point>, now: U64): (r: seq<Point>)
    ensures forall p :: p in r <==> p in s && Keeps(p, now)
  {
    if s == [] then []
    else
      assert s == Front(s) + [Last(s)];
      Kept(Front(s), now) + if Keeps(Last(s), now) then [Last(s)] else []
  }

  function Newest(s: seq<Point>): (r: seq<Point>)
    ensures |r| == Min(|s|, MAX_PROXY_RECORDS) && r == s[|s| - |r|..]
  {
    if |s| > MAX_PROXY_RECORDS then s[|s| - MAX_PROXY_RECORDS..] else s
  }

  /** One point for each time, in order. */
  function Unique(s: seq<Point>, now: U64): seq<Point> {
    DedupByKey(SortByKey(Kept(s, now), ObservedAt), ObservedAt)
  }

  function Normalize(s: seq<Point>, now: U64): seq<Point> { Newest(Unique(s, now)) }

  ghost predicate FirstAt(p: Point, s: seq<Point>, now: U64) {
    var g := Group(Kept(s, now), ObservedAt, p.observedAt);
    g != [] && p == g[0]
  }

  lemma {:induction false} GroupMembers(s: seq<Point>, k: int)
    ensures forall p :: p in Group(s, ObservedAt, k) <==> p in s && p.observedAt == k
  {
    if s != [] {
      assert s == Front(s) + [Last(s)];
      GroupMembers(Front(s), k);
    }
  }

  lemma GroupsOfUnique(s: seq<Point>, now: U64, k: int)
    ensures var g := Group(Kept(s, now), ObservedAt, k);
      Group(Unique(s, now), ObservedAt, k) == if g == [] then [] else [g[0]]
  {
    var kept := Kept(s, now);
    SortByKeySorted(kept, ObservedAt);
    SortByKeyStable(kept, ObservedAt, k);
    DedupKeepsFirst(SortByKey(kept, ObservedAt), ObservedAt, k);
  }

  lemma UniqueIsFirst(s: seq<Point>, now: U64)
    ensures StrictlySorted(Unique(s, now), ObservedAt)
    ensures forall p :: p in Unique(s, now) <==> FirstAt(p, s, now)
    ensures forall p :: p in Unique(s, now) ==> Keeps(p, now)
  {
    var kept := Kept(s, now);
    SortByKeySorted(kept, ObservedAt);
    DedupStrict(SortByKey(kept, ObservedAt), ObservedAt);
    forall p ensures p in Unique(s, now) <==> FirstAt(p, s, now) {
      GroupsOfUnique(s, now, p.observedAt);
      GroupMembers(Unique(s, now), p.observedAt);
    }
    forall p | p in Unique(s, now) ensures Keeps(p, now) {
      SortByKeyMembers(kept, ObservedAt);
    }
  }

  lemma NewestLast(all: seq<Point>)
    requires StrictlySorted(all, ObservedAt)
    ensures StrictlySorted(Newest(all), ObservedAt)
    ensures forall p :: p in Newest(all) ==> p in all
    ensures forall p, q :: p in all && p !in Newest(all) && q in Newest(all) ==> p.observedAt < q.observedAt
  {
    var cut := |all| - |Newest(all)|;
    forall p, q | p in all && p !in Newest(all) && q in Newest(all) ensures p.observedAt < q.observedAt {
      var i :| 0 <= i < |all| && all[i] == p;
      var j :| 0 <= j < |Newest(all)| && Newest(all)[j] == q;
      assert ObservedAt(all[i]) < ObservedAt(all[cut + j]);
    }
  }

  /** A point that is valid and no more than 24 h and ten minutes old. */
  ghost predicate Legit(p: Point, now: U64) {
    p.valid && p.observedAt >= Min(now, I64_MAX) - 87_000_000
  }

  /** The first legitimate point of `s` at its time. */
  ghost predicate First(p: Point, s: seq<Point>, now: U64) {
    && Legit(p, now)
    && exists i :: 0 <= i < |s| && s[i] == p
         && forall j :: 0 <= j < i && Legit(s[j], now) ==> s[j].observedAt != p.observedAt
  }

  /** No legitimate point of `s` has this time. */
  ghost predicate Clear(s: seq<Point>, now: U64, time: int) {
    forall j :: 0 <= j < |s| && Legit(s[j], now) ==> s[j].observedAt != time
  }

  lemma {:induction false} GroupClear(s: seq<Point>, now: U64, time: int)
    ensures Group(Kept(s, now), ObservedAt, time) == [] <==> Clear(s, now, time)
  {
    GroupEmpty(Kept(s, now), ObservedAt, time);
    if Group(Kept(s, now), ObservedAt, time) == [] {
      forall j | 0 <= j < |s| && Legit(s[j], now) ensures s[j].observedAt != time {
        assert s[j] in Kept(s, now);
        var i :| 0 <= i < |Kept(s, now)| && Kept(s, now)[i] == s[j];
      }
    }
    if Clear(s, now, time) {
      forall i | 0 <= i < |Kept(s, now)| ensures ObservedAt(Kept(s, now)[i]) != time {
        assert Kept(s, now)[i] in Kept(s, now) && Kept(s, now)[i] in s;
        var j :| 0 <= j < |s| && s[j] == Kept(s, now)[i];
      }
    }
  }

  lemma FirstSnoc(p: Point, s: seq<Point>, now: U64)
    requires s != []
    ensures First(p, s, now) <==>
      First(p, Front(s), now) || (p == Last(s) && Legit(p, now) && Clear(Front(s), now, p.observedAt))
  {
    var front := Front(s);
    assert forall j :: 0 <= j < |front| ==> s[j] == front[j];
    if First(p, front, now) {
      var i :| 0 <= i < |front| && front[i] == p
        && forall j :: 0 <= j < i && Legit(front[j], now) ==> front[j].observedAt != p.observedAt;
      assert s[i] == p;
    }
    if p == Last(s) && Legit(p, now) && Clear(front, now, p.observedAt) { assert s[|s| - 1] == p; }
  }

  lemma {:induction false} FirstIsFirst(p: Point, s: seq<Point>, now: U64)
    ensures FirstAt(p, s, now) <==> First(p, s, now)
  {
    if s != [] {
      var front, x := Front(s), Last(s);
      FirstIsFirst(p, front, now);
      FirstSnoc(p, s, now);
      GroupClear(front, now, p.observedAt);
      assert Keeps(x, now) <==> Legit(x, now);
      if Keeps(x, now) {
        assert Kept(s, now) == Kept(front, now) + [x];
        GroupSnoc(Kept(front, now), x, ObservedAt, p.observedAt);
      } else {
        assert Kept(s, now) == Kept(front, now);
      }
    }
  }

  /**
   * The merged history is strictly increasing, has at most 320 points and
   * none older than 24 h and ten minutes; for each time the point that came
   * first stays, so what was held wins over what arrives; and what is dropped
   * to meet the bound is older than everything kept.
   */
  lemma NormalizeKeeps(s: seq<Point>, now: U64)
    ensures var r := Normalize(s, now);
      && StrictlySorted(r, ObservedAt) && |r| <= 320
      && (forall p :: p in r ==> First(p, s, now))
      && forall p :: First(p, s, now) && p !in r ==> |r| == 320 && forall q :: q in r ==> p.observedAt < q.observedAt
  {
    UniqueIsFirst(s, now);
    NewestLast(Unique(s, now));
    forall p ensures FirstAt(p, s, now) <==> First(p, s, now) { FirstIsFirst(p, s, now); }
  }

  /** Normalizing again changes nothing. */
  lemma NormalizeSettles(s: seq<Point>, now: U64)
    ensures Normalize(Normalize(s, now), now) == Normalize(s, now)
  {
    NormalizeKeeps(s, now);
    var r := Normalize(s, now);
    KeptAll(r, now);
    SortedStays(r);
    DedupStays(r, ObservedAt);
  }

  lemma {:induction false} KeptAll(s: seq<Point>, now: U64)
    requires forall p :: p in s ==> Keeps(p, now)
    ensures Kept(s, now) == s
  {
    if s != [] {
      assert Last(s) in s;
      assert s == Front(s) + [Last(s)];
      KeptAll(Front(s), now);
    }
  }

  lemma {:induction false} SortedStays(s: seq<Point>)
    requires StrictlySorted(s, ObservedAt)
    ensures SortByKey(s, ObservedAt) == s
  {
    if s != [] {
      SortedStays(Front(s));
      assert s == Front(s) + [Last(s)];
      if Front(s) != [] { assert ObservedAt(s[|s| - 2]) < ObservedAt(s[|s| - 1]); }
    }
  }
}
