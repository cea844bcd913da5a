// The maker trades of one underlying: how a response is merged into the
// retained ones, and what the fetch watermark promises over a whole session.

module DeriveTrades {
  import opened Wrappers
  import opened UnixTime
  import opened Sorting

  const INITIAL_BACKFILL_MS: U64 := 7_200_000
  const FETCH_OVERLAP_MS: U64 := 10_000
  const RETENTION_MS: U64 := 86_400_000
  const MAX_TRADES: nat := 50_000

  type TradeId = nat

  datatype MakerTrade = MakerTrade(id: TradeId, timestamp: U64, payload: int)

  function Stamp(t: MakerTrade): int { t.timestamp }

  /** The trades keyed by id; a later record replaces an earlier one. */
  function ById(s: seq<MakerTrade>): (m: map<TradeId, MakerTrade>)
    ensures forall id :: id in m ==> m[id].id == id && m[id] in s
    ensures forall t :: t in s ==> t.id in m
  {
    if s == [] then map[]
    else
      assert s == Front(s) + [Last(s)];
      ById(Front(s))[Last(s).id := Last(s)]
  }

  predicate Eligible(t: MakerTrade, now: U64) {
    SatSub(now, RETENTION_MS) <= t.timestamp <= now
  }

  ghost predicate DistinctIds(s: seq<MakerTrade>) {
    forall i, j :: 0 <= i < j < |s| ==> s[i].id != s[j].id
  }

  ghost predicate Recent(t: MakerTrade, now: U64) {
    0 <= now - t.timestamp <= 86_400_000
  }

  /** `r` holds the newest 50,000 of the trades of `m` within 24 h, each once, in time order. */
  ghost predicate Retained(m: map<TradeId, MakerTrade>, now: U64, r: seq<MakerTrade>) {
    && Sorted(r, Stamp) && DistinctIds(r) && |r| <= 50_000
    && (forall t :: t in r ==> t.id in m && m[t.id] == t && Recent(t, now))
    && (forall id :: id in m && Recent(m[id], now) && m[id] !in r ==>
          |r| == 50_000 && forall t :: t in r ==> m[id].timestamp <= t.timestamp)
  }

  lemma EligibleIsRecent(t: MakerTrade, now: U64)
    ensures Eligible(t, now) <==> Recent(t, now)
  {
  }

  /** Of the records with one id, the last in the list is the one that counts. */
  lemma {:induction false} LaterReplaces(s: seq<MakerTrade>, i: nat)
    requires i < |s| && forall j :: i < j < |s| ==> s[j].id != s[i].id
    ensures s[i].id in ById(s) && ById(s)[s[i].id] == s[i]
  {
    if i < |s| - 1 {
      assert Front(s)[i] == s[i];
      LaterReplaces(Front(s), i);
      assert Last(s) == s[|s| - 1];
    }
  }

  /** The merge: by id, filtered, sorted by time, trimmed from the front. The table yields its values in any order. */
  method MergeTrades(retained: seq<MakerTrade>, values: seq<MakerTrade>, now: U64) returns (trades: seq<MakerTrade>)
    ensures Retained(ById(retained + values), now, trades)
  {
    var byId := IndexById(retained + values);
    var eligible := CollectEligible(byId, now);
    trades := SortByKey(eligible, Stamp);
    SortedDistinct(eligible);
    SortByKeyMembers(eligible, Stamp);
    forall t ensures Eligible(t, now) <==> Recent(t, now) { EligibleIsRecent(t, now); }
    TrimRetains(byId, now, trades);
    if |trades| > MAX_TRADES {
      trades := trades[|trades| - MAX_TRADES..];
    }
  }

  method IndexById(s: seq<MakerTrade>) returns (byId: map<TradeId, MakerTrade>)
    ensures byId == ById(s)
  {
    byId := map[];
    for i := 0 to |s|
      invariant byId == ById(s[..i])
    {
      assert Front(s[..i + 1]) == s[..i];
      byId := byId[s[i].id := s[i]];
    }
    assert s[..|s|] == s;
  }

  lemma TrimRetains(m: map<TradeId, MakerTrade>, now: U64, sorted: seq<MakerTrade>)
    requires Sorted(sorted, Stamp) && DistinctIds(sorted)
    requires forall id :: id in m ==> m[id].id == id
    requires forall t :: t in sorted <==> t.id in m && m[t.id] == t && Recent(t, now)
    ensures Retained(m, now, if |sorted| > MAX_TRADES then sorted[|sorted| - MAX_TRADES..] else sorted)
  {
    if |sorted| > MAX_TRADES {
      NewestKept(sorted, |sorted| - MAX_TRADES);
      assert |sorted[|sorted| - MAX_TRADES..]| == 50_000;
    }
  }

  method CollectEligible(byId: map<TradeId, MakerTrade>, now: U64) returns (r: seq<MakerTrade>)
    requires forall id :: id in byId ==> byId[id].id == id
    ensures DistinctIds(r)
    ensures forall t :: t in r <==> t.id in byId && byId[t.id] == t && Eligible(t, now)
  {
    r := [];
    var todo := byId.Keys;
    while todo != {}
      invariant todo <= byId.Keys
      invariant DistinctIds(r)
      invariant forall t :: t in r <==> t.id in byId && t.id !in todo && byId[t.id] == t && Eligible(t, now)
      decreases |todo|
    {
      var id :| id in todo;
      if Eligible(byId[id], now) {
        assert forall i :: 0 <= i < |r| ==> r[i] in r;
        r := r + [byId[id]];
      }
      todo := todo - {id};
    }
  }

  lemma {:induction false} InsertDistinct(s: seq<MakerTrade>, x: MakerTrade)
    requires DistinctIds(s) && forall i :: 0 <= i < |s| ==> s[i].id != x.id
    ensures DistinctIds(Insert(s, x, Stamp))
  {
    if s != [] && Stamp(Last(s)) > Stamp(x) {
      InsertDistinct(Front(s), x);
      var r := Insert(Front(s), x, Stamp);
      SameMultisetSameMembers(r, Front(s) + [x]);
      forall i | 0 <= i < |r| ensures r[i].id != Last(s).id {
        assert r[i] in r;
        assert r[i] in Front(s) + [x];
      }
    }
  }

  lemma {:induction false} SortDistinct(s: seq<MakerTrade>)
    requires DistinctIds(s)
    ensures DistinctIds(SortByKey(s, Stamp))
  {
    if s != [] {
      SortDistinct(Front(s));
      var r := SortByKey(Front(s), Stamp);
      SortByKeyMembers(Front(s), Stamp);
      forall i | 0 <= i < |r| ensures r[i].id != Last(s).id {
        assert r[i] in r;
        assert r[i] in Front(s);
      }
      InsertDistinct(r, Last(s));
    }
  }

  lemma SortedDistinct(s: seq<MakerTrade>)
    requires DistinctIds(s)
    ensures DistinctIds(SortByKey(s, Stamp)) && Sorted(SortByKey(s, Stamp), Stamp)
  {
    SortDistinct(s);
    SortByKeySorted(s, Stamp);
  }

  /** What is cut off the front of a time-sorted list is no newer than what stays. */
  lemma NewestKept(s: seq<MakerTrade>, cut: nat)
    requires Sorted(s, Stamp) && DistinctIds(s) && cut <= |s|
    ensures Sorted(s[cut..], Stamp) && DistinctIds(s[cut..])
    ensures forall t :: t in s[cut..] ==> t in s
    ensures forall t, u :: t in s && t !in s[cut..] && u in s[cut..] ==> t.timestamp <= u.timestamp
  {
    forall t, u | t in s && t !in s[cut..] && u in s[cut..] ensures t.timestamp <= u.timestamp {
      assert s == s[..cut] + s[cut..];
      var i :| 0 <= i < cut && s[..cut][i] == t;
      var j :| 0 <= j < |s[cut..]| && s[cut..][j] == u;
      assert Stamp(s[i]) <= Stamp(s[cut + j]);
    }
  }

  // ------------------------------------------------------- the watermark

  /** The watermark follows the newest retained trade; it stays when none is left. */
  function Watermark(before: Option<U64>, trades: seq<MakerTrade>): Option<U64> {
    if trades == [] then before else Some(Last(trades).timestamp)
  }

  function RequestFrom(watermark: Option<U64>, now: U64): U64 {
    match watermark
    case Some(w) => SatSub(w, FETCH_OVERLAP_MS)
    case None => SatSub(now, INITIAL_BACKFILL_MS)
  }

  /** One underlying's session: what is retained, the watermark, the clock, and where the last request ended. */
  datatype Session = Session(trades: seq<MakerTrade>, watermark: Option<U64>, clock: U64, lastEnd: Option<U64>)

  datatype Event =
    | Load(stored: seq<MakerTrade>)
    | Request(now: U64)
    | Complete(values: seq<MakerTrade>, now: U64)
    | Break(now: U64)

  /**
   * One step. The clock does not go back, an id fixes a trade's time, and the
   * disk is read before the first request.
   */
  ghost predicate Step(s: Session, e: Event, s': Session, timeOf: TradeId -> U64) {
    match e
    case Load(stored) =>
      && s.trades == [] && s.watermark.None? && s.lastEnd.None?
      && Sorted(stored, Stamp)
      && (forall t :: t in stored ==> t.timestamp <= s.clock && t.timestamp == timeOf(t.id))
      && s' == s.(trades := stored, watermark := Watermark(None, stored))
    case Request(now) =>
      s.clock <= now && s' == s.(clock := now, lastEnd := Some(now))
    case Complete(values, now) =>
      && s.clock <= now && s.lastEnd.Some?
      && (forall t :: t in values ==> t.timestamp == timeOf(t.id))
      && Retained(ById(s.trades + values), now, s'.trades)
      && s' == s.(trades := s'.trades, watermark := Watermark(s.watermark, s'.trades), clock := now)
    case Break(now) =>
      s.clock <= now && s' == s.(clock := now)
  }

  ghost predicate Good(s: Session, timeOf: TradeId -> U64) {
    && Sorted(s.trades, Stamp)
    && (forall t :: t in s.trades ==> t.timestamp == timeOf(t.id) && t.timestamp <= s.clock)
    && (s.trades != [] ==> s.watermark == Some(Last(s.trades).timestamp))
    && (s.trades == [] && s.watermark.Some? ==> s.watermark.value < SatSub(s.clock, RETENTION_MS))
    && (s.lastEnd.Some? ==> s.lastEnd.value <= s.clock)
  }

  /** A merge that keeps anything keeps something at least as new as the watermark. */
  lemma MergeKeepsWatermark(s: Session, values: seq<MakerTrade>, now: U64, r: seq<MakerTrade>, timeOf: TradeId -> U64)
    requires Good(s, timeOf) && s.clock <= now
    requires forall t :: t in values ==> t.timestamp == timeOf(t.id)
    requires Retained(ById(s.trades + values), now, r)
    ensures r != [] && s.watermark.Some? ==> s.watermark.value <= Last(r).timestamp
    ensures r == [] && s.watermark.Some? ==> s.watermark.value < SatSub(now, RETENTION_MS)
  {
    var m := ById(s.trades + values);
    assert forall t :: t in r ==> t.timestamp >= SatSub(now, RETENTION_MS);
    if s.trades != [] {
      var newest := Last(s.trades);
      assert newest in s.trades && newest in s.trades + values;
      assert m[newest.id] in s.trades + values;
      assert m[newest.id].timestamp == timeOf(newest.id) == newest.timestamp;
      if r != [] && Eligible(m[newest.id], now) {
        LastIsNewest(r);
        if m[newest.id] !in r { assert Last(r) in r; }
      }
    }
    if r != [] { assert Last(r) in r; }
  }

  lemma LastIsNewest(r: seq<MakerTrade>)
    requires r != [] && Sorted(r, Stamp)
    ensures forall t :: t in r ==> t.timestamp <= Last(r).timestamp
  {
    forall t | t in r ensures t.timestamp <= Last(r).timestamp {
      var i :| 0 <= i < |r| && r[i] == t;
      assert Stamp(r[i]) <= Stamp(r[|r| - 1]);
    }
  }

  lemma MergedTimes(s: Session, values: seq<MakerTrade>, now: U64, r: seq<MakerTrade>, timeOf: TradeId -> U64)
    requires Good(s, timeOf) && forall t :: t in values ==> t.timestamp == timeOf(t.id)
    requires Retained(ById(s.trades + values), now, r)
    ensures forall t :: t in r ==> t.timestamp == timeOf(t.id) && t.timestamp <= now && (t in s.trades || t in values)
  {
    forall t | t in r ensures t in s.trades || t in values {
      assert ById(s.trades + values)[t.id] in s.trades + values;
    }
  }

  lemma StepKeepsGood(s: Session, e: Event, s': Session, timeOf: TradeId -> U64)
    requires Good(s, timeOf) && Step(s, e, s', timeOf)
    ensures Good(s', timeOf)
    ensures s.watermark.Some? ==> s'.watermark.Some? && s.watermark.value <= s'.watermark.value
  {
    match e
    case Load(stored) => if stored != [] { assert Last(stored) in stored; }
    case Complete(values, now) =>
      MergeKeepsWatermark(s, values, now, s'.trades, timeOf);
      MergedTimes(s, values, now, s'.trades, timeOf);
      if s'.trades != [] { assert Last(s'.trades) in s'.trades; }
    case _ =>
  }

  ghost predicate IsRun(ss: seq<Session>, es: seq<Event>, timeOf: TradeId -> U64) {
    && |ss| == |es| + 1
    && ss[0].trades == [] && ss[0].watermark.None? && ss[0].lastEnd.None?
    && forall i :: 0 <= i < |es| ==> Step(ss[i], es[i], ss[i + 1], timeOf)
  }

  lemma {:induction false} RunIsGood(ss: seq<Session>, es: seq<Event>, timeOf: TradeId -> U64, i: nat)
    requires IsRun(ss, es, timeOf) && i < |ss|
    ensures Good(ss[i], timeOf)
  {
    if i > 0 {
      RunIsGood(ss, es, timeOf, i - 1);
      StepKeepsGood(ss[i - 1], es[i - 1], ss[i], timeOf);
    }
  }

  /** Over a whole session the watermark never decreases. */
  lemma {:induction false} WatermarkNeverDecreases(ss: seq<Session>, es: seq<Event>, timeOf: TradeId -> U64,
                                                   i: nat, j: nat)
    requires IsRun(ss, es, timeOf) && i <= j < |ss|
    requires ss[i].watermark.Some?
    ensures ss[j].watermark.Some? && ss[i].watermark.value <= ss[j].watermark.value
    decreases j - i
  {
    if i < j {
      WatermarkStep(ss, es, timeOf, i);
      WatermarkNeverDecreases(ss, es, timeOf, i + 1, j);
    }
  }

  lemma WatermarkStep(ss: seq<Session>, es: seq<Event>, timeOf: TradeId -> U64, i: nat)
    requires IsRun(ss, es, timeOf) && i < |es| && ss[i].watermark.Some?
    ensures ss[i + 1].watermark.Some? && ss[i].watermark.value <= ss[i + 1].watermark.value
  {
    RunIsGood(ss, es, timeOf, i);
    StepKeepsGood(ss[i], es[i], ss[i + 1], timeOf);
  }

  /** A response that has nothing later than the end of the request it answers. */
  ghost predicate Prompt(s: Session, e: Event) {
    e.Complete? && s.lastEnd.Some? ==> forall t :: t in e.values ==> t.timestamp <= s.lastEnd.value
  }

  /** Nothing retained, and no watermark, lies beyond the end of the last request. */
  ghost predicate Asked(s: Session) {
    s.lastEnd.Some? ==>
      && (forall t :: t in s.trades ==> t.timestamp <= s.lastEnd.value)
      && (s.watermark.Some? ==> s.watermark.value <= s.lastEnd.value)
  }

  lemma StepKeepsAsked(s: Session, e: Event, s': Session, timeOf: TradeId -> U64)
    requires Good(s, timeOf) && Asked(s) && Prompt(s, e) && Step(s, e, s', timeOf)
    ensures Asked(s')
  {
    match e
    case Complete(values, now) =>
      MergedTimes(s, values, now, s'.trades, timeOf);
      if s'.trades != [] { assert Last(s'.trades) in s'.trades; }
    case Request(now) =>
      if s.trades != [] { assert Last(s.trades) in s.trades; }
    case _ =>
  }

  lemma {:induction false} RunIsAsked(ss: seq<Session>, es: seq<Event>, timeOf: TradeId -> U64, i: nat)
    requires IsRun(ss, es, timeOf) && i < |ss|
    requires forall k :: 0 <= k < |es| ==> Prompt(ss[k], es[k])
    ensures Asked(ss[i])
  {
    if i > 0 {
      RunIsAsked(ss, es, timeOf, i - 1);
      RunIsGood(ss, es, timeOf, i - 1);
      StepKeepsAsked(ss[i - 1], es[i - 1], ss[i], timeOf);
    }
  }

  /**
   * When responses have nothing later than the request's end, a request based
   * on the watermark starts no later than the request before it ended: the
   * windows asked for leave no hole.
   */
  lemma RequestsLeaveNoHole(ss: seq<Session>, es: seq<Event>, timeOf: TradeId -> U64, i: nat)
    requires IsRun(ss, es, timeOf) && i < |es| && es[i].Request?
    requires forall k :: 0 <= k < |es| ==> Prompt(ss[k], es[k])
    requires ss[i].watermark.Some? && ss[i].lastEnd.Some?
    ensures RequestFrom(ss[i].watermark, es[i].now) <= ss[i].lastEnd.value
  {
    RunIsAsked(ss, es, timeOf, i);
  }
}
