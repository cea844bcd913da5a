// The historical-fetch ledger: which ranges may be fetched now, and what
// became of the ranges asked for before.
//
// The first module gives the ledger as a value and every operation as a
// function or relation on values; the second is the mutable handler, each of
// whose methods is proved to perform exactly one such operation.

module Ledger {
  import opened Wrappers
  import opened UnixTime
  import opened Powers

  const COMPLETED_RETENTION_MS: U64 := 30_000
  const FAILED_RETENTION_MS: U64 := 300_000
  const PENDING_TIMEOUT_MS: U64 := 90_000
  const SUPERSEDED_RETENTION_MS: U64 := 10_000
  const EMPTY_TRADE_FETCH_TTL_MS: nat := 60_000
  const MAX_RETRY_DELAY_MS: U64 := 80_000

  type RequestId = nat

  datatype FetchRange =
    | Kline(from: U64, to: U64)
    | OpenInterest(from: U64, to: U64, timeframe: nat)
    | Trades(from: U64, to: U64)
    | BubbleSummary(from: U64, to: U64, timeframeMs: U64, priceStep: int,
                    maxCandidates: nat, clusterWindowMs: U32, clusterPriceTicks: U32)
  {
    predicate IsValid() { from < to }

    /** The field-by-field comparison two requests are matched with. */
    predicate SameWith(other: FetchRange) {
      match (this, other)
      case (Kline(s1, e1), Kline(s2, e2)) => e1 == e2 && s1 == s2
      case (OpenInterest(s1, e1, t1), OpenInterest(s2, e2, t2)) => e1 == e2 && s1 == s2 && t1 == t2
      case (Trades(s1, e1), Trades(s2, e2)) => e1 == e2 && s1 == s2
      case (BubbleSummary(s1, e1, t1, p1, m1, cw1, cp1), BubbleSummary(s2, e2, t2, p2, m2, cw2, cp2)) =>
        e1 == e2 && s1 == s2 && t1 == t2 && p1 == p2 && m1 == m2 && cw1 == cw2 && cp1 == cp2
      case _ => false
    }

    /** Trade ranges, and bubble ranges of one timeframe, are compared by containment. */
    predicate Comparable(other: FetchRange) {
      || (Trades? && other.Trades?)
      || (BubbleSummary? && other.BubbleSummary? && timeframeMs == other.timeframeMs)
    }

    predicate SameBounds(other: FetchRange) {
      Comparable(other) && from == other.from && to == other.to
    }

    predicate Contains(inner: FetchRange) {
      Comparable(inner) && inner.from >= from && inner.to <= to
    }
  }

  datatype Status =
    | Pending
    | Completed(at: U64)
    | Failed(error: string, failedAt: U64, retryAt: U64)
    | Superseded(reason: string, supersededAt: U64)

  datatype Request = Request(fetch: FetchRange, status: Status, createdAt: U64, updatedAt: U64,
                             attempts: U32, generation: U64)

  datatype Reason = AlreadyPending | CoveredByInflight | RecentFailed | InvalidRange | Throttled

  /** What a caller gets back: `Ok(Some(id))`, `Ok(None)` or `Err(Failed(error))`. */
  datatype Answer = Admitted(id: RequestId) | Skipped | Refused(error: string)

  datatype StreamIdentity = StreamIdentity(venue: string, symbol: string, marketType: string)
  datatype EmptyKey = EmptyKey(stream: StreamIdentity, fromMs: U64, toMs: U64)

  datatype State = State(requests: map<RequestId, Request>,
                         lastSuppression: Option<Reason>,
                         generation: U64,
                         empties: map<EmptyKey, nat>)

  const INITIAL := State(map[], None, 0, map[])

  // ---------------------------------------------------------------- ageing

  function RetryDelayMs(attempts: U32): (d: U64)
    ensures 2_500 <= d <= MAX_RETRY_DELAY_MS
  {
    var exponent := Min(SatSub(attempts, 1), 5);
    assert Pow2(0) == 1 && Pow2(1) == 2 && Pow2(2) == 4 && Pow2(3) == 8 && Pow2(4) == 16 && Pow2(5) == 32;
    2_500 * Pow2(exponent)
  }

  function Fail(r: Request, error: string, now: U64): Request {
    var attempts := SatInc32(r.attempts);
    r.(attempts := attempts,
       status := Failed(error, now, SatAdd(now, RetryDelayMs(attempts))),
       updatedAt := now)
  }

  const TIMEOUT_ERROR := "request timed out"

  /** One entry after a clean-up at `now`: timed out, dropped, or kept as it is. */
  function Aged(r: Request, now: U64): Option<Request> {
    match r.status
    case Pending =>
      Some(if SatSub(now, r.updatedAt) >= PENDING_TIMEOUT_MS then Fail(r, TIMEOUT_ERROR, now) else r)
    case Completed(at) => if SatSub(now, at) > COMPLETED_RETENTION_MS then None else Some(r)
    case Failed(_, failedAt, _) => if SatSub(now, failedAt) > FAILED_RETENTION_MS then None else Some(r)
    case Superseded(_, at) => if SatSub(now, at) > SUPERSEDED_RETENTION_MS then None else Some(r)
  }

  function Aging(m: map<RequestId, Request>, now: U64): map<RequestId, Request> {
    map id | id in m && Aged(m[id], now).Some? :: Aged(m[id], now).value
  }

  function CleanupStaleAt(s: State, now: U64): State {
    s.(requests := Aging(s.requests, now))
  }

  predicate RecentlyEmptyKey(s: State, key: EmptyKey, instant: nat) {
    key in s.empties && instant - s.empties[key] < EMPTY_TRADE_FETCH_TTL_MS
  }

  predicate RecentlyEmpty(s: State, ticker: Option<StreamIdentity>, fetch: FetchRange, instant: nat) {
    fetch.Trades? && ticker.Some? && RecentlyEmptyKey(s, EmptyKey(ticker.value, fetch.from, fetch.to), instant)
  }

  function CleanupEmpty(s: State, instant: nat): State {
    s.(empties := map k | k in s.empties && instant - s.empties[k] < EMPTY_TRADE_FETCH_TTL_MS :: s.empties[k])
  }

  function CleanupStale(s: State, now: U64, instant: nat): State {
    CleanupEmpty(CleanupStaleAt(s, now), instant)
  }

  function MarkEmpty(s: State, stream: StreamIdentity, from: U64, to: U64, instant: nat): State {
    s.(empties := s.empties[EmptyKey(stream, from, to) := instant])
  }

  // ---------------------------------------------------------- generations

  function WrappingInc(g: U64): U64 { if g == U64_MAX then 0 else g + 1 }

  function Supersede(r: Request, reason: string, now: U64): Request {
    if r.status.Pending? then r.(status := Superseded(reason, now), updatedAt := now) else r
  }

  function SupersedeAll(s: State, reason: string, now: U64): State {
    s.(generation := WrappingInc(s.generation),
       requests := map id | id in s.requests :: Supersede(s.requests[id], reason, now))
  }

  predicate IsStaleGeneration(s: State, id: RequestId) {
    if id in s.requests then
      match s.requests[id].status
      case Completed(_) => false
      case Failed(_, _, _) => false
      case _ => s.requests[id].generation != s.generation
    else
      true
  }

  function MarkCompleted(s: State, id: RequestId, now: U64): State {
    if id in s.requests && s.requests[id].status.Pending? then
      s.(requests := s.requests[id := s.requests[id].(status := Completed(now))])
    else s
  }

  function MarkFailed(s: State, id: RequestId, error: string, now: U64): State {
    if id in s.requests && (s.requests[id].status.Pending? || s.requests[id].status.Failed?) then
      s.(requests := s.requests[id := Fail(s.requests[id], error, now)])
    else s
  }

  // ------------------------------------------------------------ admission

  datatype Verdict = Verdict(answer: Answer, reason: Reason)

  /** Failures of the very same fetch whose retry time has come are forgotten. */
  predicate Retryable(r: Request, fetch: FetchRange, now: U64) {
    r.status.Failed? && r.fetch.SameWith(fetch) && now >= r.status.retryAt
  }

  function DropRetryable(m: map<RequestId, Request>, fetch: FetchRange, now: U64): map<RequestId, Request> {
    map id | id in m && !Retryable(m[id], fetch, now) :: m[id]
  }

  /** The containment rule for one existing trade or bubble entry. */
  function ContainmentVerdict(r: Request, fetch: FetchRange, now: U64): Option<Verdict> {
    var exact := r.fetch.SameBounds(fetch);
    var contained := r.fetch.Contains(fetch);
    match r.status
    case Pending =>
      if exact || contained then
        Some(Verdict(Skipped, if exact then AlreadyPending else CoveredByInflight))
      else None
    case Completed(at) =>
      if (exact || contained) && SatSub(now, at) <= COMPLETED_RETENTION_MS then
        Some(Verdict(Skipped, Throttled))
      else None
    case Failed(error, _, retryAt) =>
      if exact && now < retryAt then Some(Verdict(Refused(error), RecentFailed)) else None
    case Superseded(_, _) => None
  }

  function Reactivated(r: Request, generation: U64, now: U64): Request {
    r.(status := Pending, generation := generation, updatedAt := now, attempts := 0)
  }

  /** The exact-match rule: what is answered when entry `k` asks for the same fetch. */
  function ExactMatch(s: State, k: RequestId, now: U64): (State, Answer)
    requires k in s.requests
  {
    var r := s.requests[k];
    match r.status
    case Failed(error, _, retryAt) =>
      if now >= retryAt then (s, Admitted(k))
      else (s.(lastSuppression := Some(RecentFailed)), Refused(error))
    case Completed(at) =>
      if SatSub(now, at) > COMPLETED_RETENTION_MS then (s, Admitted(k))
      else (s.(lastSuppression := Some(Throttled)), Skipped)
    case Pending => (s.(lastSuppression := Some(AlreadyPending)), Skipped)
    case Superseded(_, _) =>
      (s.(requests := s.requests[k := Reactivated(r, s.generation, now)]), Admitted(k))
  }

  function NewRequest(fetch: FetchRange, now: U64, generation: U64): Request {
    Request(fetch, Pending, now, now, 0, generation)
  }

  ghost predicate Blocked(s: State, fetch: FetchRange, now: U64) {
    exists k :: k in s.requests && ContainmentVerdict(s.requests[k], fetch, now).Some?
  }

  ghost predicate Matched(s: State, fetch: FetchRange) {
    exists k :: k in s.requests && s.requests[k].fetch.SameWith(fetch)
  }

  ghost predicate DecidedBy(s: State, k: RequestId, fetch: FetchRange, now: U64, s': State, answer: Answer) {
    && k in s.requests
    && var v := ContainmentVerdict(s.requests[k], fetch, now);
       v.Some? && s' == s.(lastSuppression := Some(v.value.reason)) && answer == v.value.answer
  }

  ghost predicate MatchedBy(s: State, k: RequestId, fetch: FetchRange, now: U64, s': State, answer: Answer) {
    k in s.requests && s.requests[k].fetch.SameWith(fetch) && (s', answer) == ExactMatch(s, k, now)
  }

  /**
   * One `add_request_with_id` call. The table is scanned in no particular
   * order, so whichever blocking or matching entry comes first may decide.
   */
  ghost predicate AddStep(s: State, id: RequestId, fetch: FetchRange, ticker: Option<StreamIdentity>,
                          now: U64, instant: nat, s': State, answer: Answer)
  {
    var aged := CleanupStaleAt(s, now).(lastSuppression := None);
    if !fetch.IsValid() then
      s' == aged.(lastSuppression := Some(InvalidRange)) && answer == Skipped
    else if RecentlyEmpty(aged, ticker, fetch, instant) then
      s' == aged.(lastSuppression := Some(Throttled)) && answer == Skipped
    else
      var base := aged.(requests := DropRetryable(aged.requests, fetch, now));
      if Blocked(base, fetch, now) then
        exists k :: DecidedBy(base, k, fetch, now, s', answer)
      else if Matched(base, fetch) then
        exists k :: MatchedBy(base, k, fetch, now, s', answer)
      else
        s' == base.(requests := base.requests[id := NewRequest(fetch, now, s.generation)]) && answer == Admitted(id)
  }
}

module LedgerTheorems {
  import opened Wrappers
  import opened UnixTime
  import opened Ledger

  lemma SameWithIsEquality(a: FetchRange, b: FetchRange)
    ensures a.SameWith(b) <==> a == b
  {
  }

  // ------------------------------------------------------------- invariant

  type Requests = map<RequestId, Request>

  ghost predicate Unique(m: Requests) {
    forall i, j :: i in m && j in m && m[i].fetch == m[j].fetch ==> i == j
  }

  ghost predicate AllValid(m: Requests) {
    forall i :: i in m ==> m[i].fetch.IsValid()
  }

  ghost predicate PendingCurrent(m: Requests, generation: U64) {
    forall i :: i in m && m[i].status.Pending? ==> m[i].generation == generation
  }

  /** No two entries describe one fetch, and every pending entry is of the current generation. */
  ghost predicate Inv(s: State) {
    Unique(s.requests) && AllValid(s.requests) && PendingCurrent(s.requests, s.generation)
  }

  /** Every superseded entry is of an older generation than the current one, which is `n`. */
  ghost predicate Older(s: State, n: nat) {
    && s.generation == n
    && (forall i :: i in s.requests ==> s.requests[i].generation <= n)
    && (forall i :: i in s.requests && s.requests[i].status.Superseded? ==> s.requests[i].generation < n)
  }

  /** `m'` has some of the entries of `m`; each keeps its fetch and generation, and none comes back to life. */
  ghost predicate Winnowed(m: Requests, m': Requests) {
    forall i :: i in m' ==>
      && i in m && m'[i].fetch == m[i].fetch && m'[i].generation == m[i].generation
      && (m'[i].status.Pending? ==> m[i].status.Pending?)
      && (m'[i].status.Superseded? ==> m[i].status.Superseded?)
  }

  lemma WinnowedKeepsInv(m: Requests, m': Requests, g: U64)
    requires Winnowed(m, m') && Unique(m) && AllValid(m) && PendingCurrent(m, g)
    ensures Unique(m') && AllValid(m') && PendingCurrent(m', g)
  {
  }

  datatype Clock = Clock(wall: U64, mono: nat)
  {
    predicate UpTo(other: Clock) { wall <= other.wall && mono <= other.mono }
  }

  datatype Op =
    | Cleanup
    | SupersedePending(reason: string)
    | Complete(id: RequestId)
    | Break(id: RequestId, error: string)
    | NoteEmpty(stream: StreamIdentity, from: U64, to: U64)
    | Add(id: RequestId, fetch: FetchRange, ticker: Option<StreamIdentity>, answer: Answer)

  datatype Event = Event(op: Op, clock: Clock)

  ghost predicate Step(s: State, e: Event, s': State) {
    match e.op
    case Cleanup => s' == CleanupStale(s, e.clock.wall, e.clock.mono)
    case SupersedePending(reason) => s' == SupersedeAll(s, reason, e.clock.wall)
    case Complete(id) => s' == Ledger.MarkCompleted(s, id, e.clock.wall)
    case Break(id, error) => s' == Ledger.MarkFailed(s, id, error, e.clock.wall)
    case NoteEmpty(stream, from, to) => s' == MarkEmpty(s, stream, from, to, e.clock.mono)
    case Add(id, fetch, ticker, answer) => AddStep(s, id, fetch, ticker, e.clock.wall, e.clock.mono, s', answer)
  }

  ghost predicate IsRun(ss: seq<State>, es: seq<Event>) {
    && |ss| == |es| + 1
    && ss[0] == INITIAL
    && forall i :: 0 <= i < |es| ==> Step(ss[i], es[i], ss[i + 1])
  }

  function Supersedings(es: seq<Event>): nat {
    if es == [] then 0
    else Supersedings(es[..|es| - 1]) + if es[|es| - 1].op.SupersedePending? then 1 else 0
  }

  /** The table an admission decision looks at: aged, and without the retryable failures. */
  function Base(s: State, fetch: FetchRange, now: U64): Requests {
    DropRetryable(Aging(s.requests, now), fetch, now)
  }

  lemma BaseEntries(s: State, fetch: FetchRange, now: U64)
    ensures forall k :: k in Base(s, fetch, now) ==>
              k in s.requests && Aged(s.requests[k], now) == Some(Base(s, fetch, now)[k])
              && !Retryable(Base(s, fetch, now)[k], fetch, now)
    ensures Winnowed(s.requests, Aging(s.requests, now)) && Winnowed(s.requests, Base(s, fetch, now))
  {
  }

  ghost predicate Reactivates(m: Requests, k: RequestId, fetch: FetchRange, g: U64, now: U64, m': Requests) {
    && k in m && m[k].fetch == fetch && m[k].status.Superseded?
    && m' == m[k := Reactivated(m[k], g, now)]
  }

  ghost predicate Enters(m: Requests, k: RequestId, fetch: FetchRange, g: U64, now: U64, m': Requests) {
    && (forall i :: i in m ==> m[i].fetch != fetch)
    && m' == m[k := NewRequest(fetch, now, g)]
  }

  /**
   * What a call can do to the table: nothing beyond ageing when it is turned
   * away; otherwise it revives the superseded entry for the fetch, or enters a
   * fetch that no entry describes.
   */
  ghost predicate Effect(s: State, id: RequestId, fetch: FetchRange, now: U64, s': State, answer: Answer) {
    && s'.generation == s.generation && s'.empties == s.empties
    && match answer
       case Admitted(k) =>
         && fetch.IsValid()
         && (|| Reactivates(Base(s, fetch, now), k, fetch, s.generation, now, s'.requests)
             || (k == id && Enters(Base(s, fetch, now), k, fetch, s.generation, now, s'.requests)))
       case _ =>
         s'.requests == Aging(s.requests, now) || s'.requests == Base(s, fetch, now)
  }

  lemma AddEffect(s: State, id: RequestId, fetch: FetchRange, ticker: Option<StreamIdentity>,
                  now: U64, instant: nat, s': State, answer: Answer)
    requires AddStep(s, id, fetch, ticker, now, instant, s', answer)
    ensures Effect(s, id, fetch, now, s', answer)
  {
    var aged := CleanupStaleAt(s, now).(lastSuppression := None);
    var base := aged.(requests := DropRetryable(aged.requests, fetch, now));
    if fetch.IsValid() && !RecentlyEmpty(aged, ticker, fetch, instant) {
      if Blocked(base, fetch, now) {
        var k :| DecidedBy(base, k, fetch, now, s', answer);
        assert !answer.Admitted?;
      } else if Matched(base, fetch) {
        var k :| MatchedBy(base, k, fetch, now, s', answer);
        MatchEffect(s, k, fetch, now, base, s', answer);
      } else {
        NoMatch(base, fetch);
      }
    }
  }

  lemma NoMatch(s: State, fetch: FetchRange)
    requires !Matched(s, fetch)
    ensures forall i :: i in s.requests ==> s.requests[i].fetch != fetch
  {
    forall i | i in s.requests ensures s.requests[i].fetch != fetch {
      SameWithIsEquality(s.requests[i].fetch, fetch);
    }
  }

  /** Ageing and forgetting leave the exact-match rule only refusals and revivals. */
  lemma MatchEffect(s: State, k: RequestId, fetch: FetchRange, now: U64, base: State, s': State, answer: Answer)
    requires base.requests == Base(s, fetch, now)
    requires MatchedBy(base, k, fetch, now, s', answer)
    ensures s'.generation == base.generation && s'.empties == base.empties
    ensures if answer.Admitted?
      then Reactivates(base.requests, answer.id, fetch, base.generation, now, s'.requests)
      else s'.requests == base.requests
  {
    BaseEntries(s, fetch, now);
    SameWithIsEquality(base.requests[k].fetch, fetch);
    var r := base.requests[k];
    assert Aged(s.requests[k], now) == Some(r) && !Retryable(r, fetch, now);
    if r.status.Completed? {
      assert SatSub(now, r.status.at) <= COMPLETED_RETENTION_MS;
    }
  }

  lemma EffectKeepsInv(s: State, id: RequestId, fetch: FetchRange, now: U64, s': State, answer: Answer)
    requires Inv(s) && Effect(s, id, fetch, now, s', answer)
    ensures Inv(s')
  {
    var aging, base := Aging(s.requests, now), Base(s, fetch, now);
    assert Winnowed(s.requests, aging) && Winnowed(s.requests, base) by { BaseEntries(s, fetch, now); }
    WinnowedKeepsInv(s.requests, aging, s.generation);
    WinnowedKeepsInv(s.requests, base, s.generation);
    if answer.Admitted? {
      GrowthKeepsInv(base, answer.id, fetch, s.generation, now, s'.requests);
    }
  }

  lemma GrowthKeepsInv(m: Requests, k: RequestId, fetch: FetchRange, g: U64, now: U64, m': Requests)
    requires Unique(m) && AllValid(m) && PendingCurrent(m, g) && fetch.IsValid()
    requires Reactivates(m, k, fetch, g, now, m') || Enters(m, k, fetch, g, now, m')
    ensures Unique(m') && AllValid(m') && PendingCurrent(m', g)
  {
  }

  lemma SupersedeKeepsInv(s: State, reason: string, now: U64)
    requires Inv(s)
    ensures Inv(SupersedeAll(s, reason, now))
  {
  }

  lemma StepKeepsInv(s: State, e: Event, s': State)
    requires Inv(s) && Step(s, e, s')
    ensures Inv(s')
  {
    match e.op
    case Add(id, fetch, ticker, answer) =>
      AddEffect(s, id, fetch, ticker, e.clock.wall, e.clock.mono, s', answer);
      EffectKeepsInv(s, id, fetch, e.clock.wall, s', answer);
    case SupersedePending(reason) =>
      SupersedeKeepsInv(s, reason, e.clock.wall);
    case _ =>
      assert Winnowed(s.requests, s'.requests);
      WinnowedKeepsInv(s.requests, s'.requests, s.generation);
  }

  lemma EffectKeepsOlder(s: State, id: RequestId, fetch: FetchRange, now: U64, s': State, answer: Answer, n: nat)
    requires Older(s, n) && Effect(s, id, fetch, now, s', answer)
    ensures Older(s', n)
  {
    BaseEntries(s, fetch, now);
  }

  lemma StepKeepsOlder(s: State, e: Event, s': State, n: nat)
    requires Inv(s) && Older(s, n) && Step(s, e, s')
    requires e.op.SupersedePending? ==> n < U64_MAX
    ensures Older(s', if e.op.SupersedePending? then n + 1 else n)
  {
    match e.op
    case Add(id, fetch, ticker, answer) =>
      AddEffect(s, id, fetch, ticker, e.clock.wall, e.clock.mono, s', answer);
      EffectKeepsOlder(s, id, fetch, e.clock.wall, s', answer, n);
    case SupersedePending(reason) =>
    case _ =>
      assert Winnowed(s.requests, s'.requests);
  }

  lemma {:induction false} RunInvariant(ss: seq<State>, es: seq<Event>)
    requires IsRun(ss, es)
    ensures Inv(ss[|es|])
    ensures Supersedings(es) <= U64_MAX ==> Older(ss[|es|], Supersedings(es))
  {
    if es != [] {
      var n := |es| - 1;
      RunInvariant(ss[..|es|], es[..n]);
      StepKeepsInv(ss[n], es[n], ss[n + 1]);
      if Supersedings(es) <= U64_MAX {
        StepKeepsOlder(ss[n], es[n], ss[n + 1], Supersedings(es[..n]));
      }
    }
  }

  /**
   * In every reachable state an id counts as stale exactly when it is unknown or
   * superseded, as long as the generation counter has not come full circle.
   */
  lemma StaleIffGoneOrSuperseded(ss: seq<State>, es: seq<Event>, id: RequestId)
    requires IsRun(ss, es)
    requires Supersedings(es) <= U64_MAX
    ensures var s := ss[|es|];
      IsStaleGeneration(s, id) <==> id !in s.requests || s.requests[id].status.Superseded?
  {
    RunInvariant(ss, es);
  }

  // -------------------------------------------------- the wrapping counter

  const GENERATIONS: int := U64_MAX + 1

  /** How many supersedings a run has had since the request was last pending, or since its start. */
  function SupersedingsSince(ss: seq<State>, es: seq<Event>, id: RequestId): nat
    requires |ss| == |es| + 1
  {
    var n := |es|;
    if n == 0 || (id in ss[n].requests && ss[n].requests[id].status.Pending?) then 0
    else SupersedingsSince(ss[..n], es[..n - 1], id) + if es[n - 1].op.SupersedePending? then 1 else 0
  }

  lemma GenerationStep(s: State, e: Event, s': State)
    requires Step(s, e, s')
    ensures s'.generation == if e.op.SupersedePending? then WrappingInc(s.generation) else s.generation
  {
    if e.op.Add? {
      AddEffect(s, e.op.id, e.op.fetch, e.op.ticker, e.clock.wall, e.clock.mono, s', e.op.answer);
    }
  }

  /** A superseded entry was pending or superseded just before, and keeps its generation. */
  lemma SupersededStep(s: State, e: Event, s': State, id: RequestId)
    requires Step(s, e, s') && id in s'.requests && s'.requests[id].status.Superseded?
    ensures id in s.requests && s'.requests[id].generation == s.requests[id].generation
    ensures s.requests[id].status.Pending? || s.requests[id].status.Superseded?
  {
    if e.op.Add? {
      AddEffect(s, e.op.id, e.op.fetch, e.op.ticker, e.clock.wall, e.clock.mono, s', e.op.answer);
      BaseEntries(s, e.op.fetch, e.clock.wall);
    }
  }

  /** The generation `k` supersedings later. */
  function Turned(g: U64, k: nat): U64 {
    if k == 0 then g else WrappingInc(Turned(g, k - 1))
  }

  lemma NextRemainder(k: nat)
    requires k > 0
    ensures k % GENERATIONS == if (k - 1) % GENERATIONS == U64_MAX then 0 else (k - 1) % GENERATIONS + 1
  {
  }

  lemma {:induction false} TurnedIsModulo(g: U64, k: nat)
    ensures var r := k % GENERATIONS;
      Turned(g, k) == if g + r <= U64_MAX then g + r else g + r - GENERATIONS
  {
    if k > 0 {
      NextRemainder(k);
      TurnedIsModulo(g, k - 1);
    }
  }

  /** Such an entry's generation is as many supersedings behind as there have been since it was pending. */
  ghost predicate Behind(s: State, id: RequestId, k: nat) {
    id in s.requests && (s.requests[id].status.Pending? || s.requests[id].status.Superseded?) ==>
      s.generation == Turned(s.requests[id].generation, k)
  }

  lemma BehindStep(s: State, e: Event, s': State, id: RequestId, k: nat)
    requires Step(s, e, s') && Behind(s, id, k)
    requires id in s'.requests && s'.requests[id].status.Superseded?
    ensures Behind(s', id, if e.op.SupersedePending? then k + 1 else k)
  {
    SupersededStep(s, e, s', id);
    GenerationStep(s, e, s');
  }

  lemma {:induction false} RunBehind(ss: seq<State>, es: seq<Event>, id: RequestId)
    requires IsRun(ss, es)
    ensures Behind(ss[|es|], id, SupersedingsSince(ss, es, id))
  {
    var s' := ss[|es|];
    if id in s'.requests && s'.requests[id].status.Pending? {
      PendingIsCurrent(ss, es, id);
    } else if es != [] && id in s'.requests && s'.requests[id].status.Superseded? {
      var n := |es| - 1;
      RunBehind(ss[..|es|], es[..n], id);
      BehindStep(ss[n], es[n], s', id, SupersedingsSince(ss[..|es|], es[..n], id));
    }
  }

  lemma PendingIsCurrent(ss: seq<State>, es: seq<Event>, id: RequestId)
    requires IsRun(ss, es) && id in ss[|es|].requests && ss[|es|].requests[id].status.Pending?
    ensures ss[|es|].requests[id].generation == ss[|es|].generation
  {
    RunInvariant(ss, es);
  }

  /**
   * After any run an id counts as stale exactly when it is unknown, or
   * superseded and the number of supersedings since it was last pending is
   * no multiple of 2^64.
   */
  lemma StaleUnlessFullCircle(ss: seq<State>, es: seq<Event>, id: RequestId)
    requires IsRun(ss, es)
    ensures var s := ss[|es|];
      IsStaleGeneration(s, id) <==>
        || id !in s.requests
        || (s.requests[id].status.Superseded? && SupersedingsSince(ss, es, id) % GENERATIONS != 0)
  {
    RunBehind(ss, es, id);
    var s := ss[|es|];
    if id in s.requests {
      if s.requests[id].status.Pending? { PendingIsCurrent(ss, es, id); }
      TurnedIsModulo(s.requests[id].generation, SupersedingsSince(ss, es, id));
    }
  }

  /** The run that shows it: any pending request, superseded and not touched again, comes full circle. */
  lemma {:induction false} FullCircle(ss: seq<State>, es: seq<Event>, id: RequestId, again: Event, k: nat)
    returns (ss': seq<State>, es': seq<Event>)
    requires IsRun(ss, es) && again.op.SupersedePending?
    requires id in ss[|es|].requests && ss[|es|].requests[id].status.Pending?
    ensures IsRun(ss', es') && |es'| == |es| + k && SupersedingsSince(ss', es', id) == k
    ensures var s := ss'[|es'|];
      && id in s.requests && (if k == 0 then s.requests[id].status.Pending? else s.requests[id].status.Superseded?)
      && (IsStaleGeneration(s, id) <==> k % GENERATIONS != 0)
  {
    if k == 0 {
      ss', es' := ss, es;
    } else {
      ss', es' := FullCircle(ss, es, id, again, k - 1);
      var s := ss'[|es'|];
      ss', es' := ss' + [SupersedeAll(s, again.op.reason, again.clock.wall)], es' + [again];
      assert ss'[..|es'|] + [ss'[|es'|]] == ss' && es'[..|es'| - 1] + [again] == es';
    }
    StaleUnlessFullCircle(ss', es', id);
  }

  // ------------------------------------------------------------- finality

  /** A completed entry stays exactly as it is until it is removed; only re-using its id could replace it. */
  lemma CompletedIsFinal(s: State, e: Event, s': State, id: RequestId)
    requires Inv(s) && Step(s, e, s')
    requires id in s.requests && s.requests[id].status.Completed?
    requires e.op.Add? ==> e.op.id != id
    ensures id !in s'.requests || s'.requests[id] == s.requests[id]
  {
    if e.op.Add? {
      AddEffect(s, e.op.id, e.op.fetch, e.op.ticker, e.clock.wall, e.clock.mono, s', e.op.answer);
      BaseEntries(s, e.op.fetch, e.clock.wall);
    }
  }

  // ------------------------------------------------------------ admission

  /**
   * Whether entry `r`, as it stands before a call at `now`, keeps `fetch`
   * out: a live request that contains it, a recent success that contains it,
   * a failure of the same bounds still waiting, or a request that times out
   * in this very call and so begins to wait.
   */
  ghost predicate Obstructs(r: Request, fetch: FetchRange, now: U64) {
    match r.status
    case Pending =>
      if SatSub(now, r.updatedAt) < PENDING_TIMEOUT_MS then r.fetch.Contains(fetch) || r.fetch == fetch
      else now < U64_MAX && (r.fetch.SameBounds(fetch) || r.fetch == fetch)
    case Completed(at) =>
      SatSub(now, at) <= COMPLETED_RETENTION_MS && (r.fetch.Contains(fetch) || r.fetch == fetch)
    case Failed(_, failedAt, retryAt) =>
      SatSub(now, failedAt) <= FAILED_RETENTION_MS && now < retryAt && (r.fetch.SameBounds(fetch) || r.fetch == fetch)
    case Superseded(_, _) => false
  }

  lemma ObstructsEntrywise(r: Request, fetch: FetchRange, now: U64)
    ensures Obstructs(r, fetch, now) <==>
      var a := Aged(r, now);
      && a.Some? && !Retryable(a.value, fetch, now)
      && (|| ContainmentVerdict(a.value, fetch, now).Some?
          || (a.value.fetch.SameWith(fetch) && !a.value.status.Superseded?))
  {
    SameWithIsEquality(r.fetch, fetch);
    if r.fetch == fetch && r.fetch.Comparable(fetch) {
      assert r.fetch.SameBounds(fetch) && r.fetch.Contains(fetch);
    }
  }

  /** A fetch is admitted exactly when it is valid, not known to be empty, and no entry obstructs it. */
  lemma AdmissionExact(s: State, id: RequestId, fetch: FetchRange, ticker: Option<StreamIdentity>,
                       now: U64, instant: nat, s': State, answer: Answer)
    requires Inv(s) && AddStep(s, id, fetch, ticker, now, instant, s', answer)
    ensures answer.Admitted? <==>
      && fetch.from < fetch.to
      && !RecentlyEmpty(s, ticker, fetch, instant)
      && forall k :: k in s.requests ==> !Obstructs(s.requests[k], fetch, now)
  {
    if fetch.IsValid() && !RecentlyEmpty(s, ticker, fetch, instant) {
      TableDecides(s, id, fetch, ticker, now, instant, s', answer);
    }
  }

  lemma TableDecides(s: State, id: RequestId, fetch: FetchRange, ticker: Option<StreamIdentity>,
                     now: U64, instant: nat, s': State, answer: Answer)
    requires Inv(s) && AddStep(s, id, fetch, ticker, now, instant, s', answer)
    requires fetch.IsValid() && !RecentlyEmpty(s, ticker, fetch, instant)
    ensures answer.Admitted? <==> forall k :: k in s.requests ==> !Obstructs(s.requests[k], fetch, now)
  {
    var aged := CleanupStaleAt(s, now).(lastSuppression := None);
    var base := aged.(requests := DropRetryable(aged.requests, fetch, now));
    if Blocked(base, fetch, now) {
      SomeBlocker(s, base, fetch, now, s', answer);
    } else if Matched(base, fetch) {
      var k :| MatchedBy(base, k, fetch, now, s', answer);
      MatchDecides(s, base, k, fetch, now, s', answer);
    } else {
      NothingObstructs(s, base, fetch, now);
    }
  }

  lemma SomeBlocker(s: State, base: State, fetch: FetchRange, now: U64, s': State, answer: Answer)
    requires base.requests == Base(s, fetch, now)
    requires exists k :: DecidedBy(base, k, fetch, now, s', answer)
    ensures !answer.Admitted? && exists k :: k in s.requests && Obstructs(s.requests[k], fetch, now)
  {
    var k :| DecidedBy(base, k, fetch, now, s', answer);
    BlockerObstructs(s, base, k, fetch, now);
  }

  lemma BlockerObstructs(s: State, base: State, k: RequestId, fetch: FetchRange, now: U64)
    requires base.requests == Base(s, fetch, now)
    requires k in base.requests && ContainmentVerdict(base.requests[k], fetch, now).Some?
    ensures k in s.requests && Obstructs(s.requests[k], fetch, now)
  {
    BaseEntries(s, fetch, now);
    ObstructsEntrywise(s.requests[k], fetch, now);
  }

  lemma NothingObstructs(s: State, base: State, fetch: FetchRange, now: U64)
    requires base.requests == Base(s, fetch, now)
    requires !Blocked(base, fetch, now) && !Matched(base, fetch)
    ensures forall k :: k in s.requests ==> !Obstructs(s.requests[k], fetch, now)
  {
    forall k | k in s.requests ensures !Obstructs(s.requests[k], fetch, now) {
      ObstructsEntrywise(s.requests[k], fetch, now);
      var a := Aged(s.requests[k], now);
      if a.Some? && !Retryable(a.value, fetch, now) {
        assert k in base.requests && base.requests[k] == a.value;
      }
    }
  }

  lemma MatchDecides(s: State, base: State, k: RequestId, fetch: FetchRange, now: U64, s': State, answer: Answer)
    requires Inv(s) && base.requests == Base(s, fetch, now)
    requires !Blocked(base, fetch, now) && MatchedBy(base, k, fetch, now, s', answer)
    ensures answer.Admitted? <==> forall i :: i in s.requests ==> !Obstructs(s.requests[i], fetch, now)
  {
    BaseEntries(s, fetch, now);
    MatchEffect(s, k, fetch, now, base, s', answer);
    ObstructsEntrywise(s.requests[k], fetch, now);
    forall i | i in s.requests && i != k ensures !Obstructs(s.requests[i], fetch, now) {
      ObstructsEntrywise(s.requests[i], fetch, now);
      if i in base.requests {
        SameWithIsEquality(s.requests[i].fetch, fetch);
        SameWithIsEquality(s.requests[k].fetch, fetch);
        assert ContainmentVerdict(base.requests[i], fetch, now).None?;
      }
    }
    if answer.Admitted? {
      assert base.requests[k].status.Superseded?;
      assert ContainmentVerdict(base.requests[k], fetch, now).None?;
    }
  }

  /** A range just admitted is not contained in the range of any other pending request. */
  lemma AdmittedIsNotCovered(s: State, id: RequestId, fetch: FetchRange, ticker: Option<StreamIdentity>,
                             now: U64, instant: nat, s': State, admitted: RequestId, k: RequestId)
    requires Inv(s) && AddStep(s, id, fetch, ticker, now, instant, s', Admitted(admitted))
    requires k in s'.requests && k != admitted && s'.requests[k].status.Pending?
    ensures admitted in s'.requests && s'.requests[admitted].fetch == fetch
         && s'.requests[admitted].status.Pending? && s'.requests[admitted].generation == s'.generation
    ensures var other := s'.requests[k].fetch;
      && !(other.Trades? && fetch.Trades? && other.from <= fetch.from && fetch.to <= other.to)
      && !(other.BubbleSummary? && fetch.BubbleSummary? && other.timeframeMs == fetch.timeframeMs
           && other.from <= fetch.from && fetch.to <= other.to)
  {
    AdmittedIsCurrent(s, id, fetch, ticker, now, instant, s', admitted);
    OthersDoNotContain(s, id, fetch, ticker, now, instant, s', admitted, k);
    assert !s'.requests[k].fetch.Contains(fetch);
  }

  lemma AdmittedIsCurrent(s: State, id: RequestId, fetch: FetchRange, ticker: Option<StreamIdentity>,
                          now: U64, instant: nat, s': State, admitted: RequestId)
    requires AddStep(s, id, fetch, ticker, now, instant, s', Admitted(admitted))
    ensures admitted in s'.requests && s'.requests[admitted].fetch == fetch
         && s'.requests[admitted].status.Pending? && s'.requests[admitted].generation == s'.generation
  {
    AddEffect(s, id, fetch, ticker, now, instant, s', Admitted(admitted));
  }

  lemma OthersDoNotContain(s: State, id: RequestId, fetch: FetchRange, ticker: Option<StreamIdentity>,
                           now: U64, instant: nat, s': State, admitted: RequestId, k: RequestId)
    requires Inv(s) && AddStep(s, id, fetch, ticker, now, instant, s', Admitted(admitted))
    requires k in s'.requests && k != admitted && s'.requests[k].status.Pending?
    ensures !s'.requests[k].fetch.Contains(fetch)
  {
    AddEffect(s, id, fetch, ticker, now, instant, s', Admitted(admitted));
    AdmissionExact(s, id, fetch, ticker, now, instant, s', Admitted(admitted));
    BaseEntries(s, fetch, now);
    assert !Obstructs(s.requests[k], fetch, now);
  }

  // --------------------------------------------------------- empty ranges

  /** Event `i` notes this range as empty, and no event from there up to `j` notes it again. */
  ghost predicate LastNoted(es: seq<Event>, key: EmptyKey, i: nat, j: nat) {
    && i < j <= |es| && es[i].op == NoteEmpty(key.stream, key.fromMs, key.toMs)
    && forall k :: i < k < j ==> es[k].op != NoteEmpty(key.stream, key.fromMs, key.toMs)
  }

  lemma {:induction false} NoteIsKept(ss: seq<State>, es: seq<Event>, key: EmptyKey, i: nat, j: nat)
    requires IsRun(ss, es) && ClockForward(es) && LastNoted(es, key, i, j)
    ensures if key in ss[j].empties then ss[j].empties[key] == es[i].clock.mono
            else es[j - 1].clock.mono - es[i].clock.mono >= EMPTY_TRADE_FETCH_TTL_MS
    decreases j
  {
    var s, e, s' := ss[j - 1], es[j - 1], ss[j];
    assert Step(s, e, s');
    if j > i + 1 {
      NoteIsKept(ss, es, key, i, j - 1);
      if e.op.Add? { AddEffect(s, e.op.id, e.op.fetch, e.op.ticker, e.clock.wall, e.clock.mono, s', e.op.answer); }
    }
  }

  /**
   * A trade range noted empty is turned away for exactly 60 s after it was
   * last noted, whatever else happens, clean-ups included.
   */
  lemma EmptyRangeRests(ss: seq<State>, es: seq<Event>, key: EmptyKey, i: nat, j: nat, instant: nat)
    requires IsRun(ss, es) && ClockForward(es) && LastNoted(es, key, i, j) && es[j - 1].clock.mono <= instant
    ensures RecentlyEmpty(ss[j], Some(key.stream), FetchRange.Trades(key.fromMs, key.toMs), instant)
      <==> instant - es[i].clock.mono < EMPTY_TRADE_FETCH_TTL_MS
  {
    NoteIsKept(ss, es, key, i, j);
  }

  // ------------------------------------------------------------- liveness

  ghost predicate TimesUpTo(s: State, t: Clock) {
    && (forall k :: k in s.empties ==> s.empties[k] <= t.mono)
    && (forall i :: i in s.requests ==> EntryUpTo(s.requests[i], t.wall))
  }

  ghost predicate EntryUpTo(r: Request, wall: U64) {
    match r.status
    case Pending => r.updatedAt <= wall
    case Completed(at) => at <= wall
    case Failed(_, failedAt, retryAt) => failedAt <= wall && retryAt <= failedAt + MAX_RETRY_DELAY_MS
    case Superseded(_, at) => at <= wall
  }

  ghost predicate ClockForward(es: seq<Event>) {
    forall i, j :: 0 <= i <= j < |es| ==> es[i].clock.UpTo(es[j].clock)
  }

  lemma AgedUpTo(r: Request, wall: U64, now: U64)
    requires EntryUpTo(r, wall) && wall <= now
    ensures EntryUpTo(r, now)
    ensures Aged(r, now).Some? ==> EntryUpTo(Aged(r, now).value, now)
  {
  }

  lemma EffectKeepsTimes(s: State, id: RequestId, fetch: FetchRange, s': State, answer: Answer, t: Clock, t': Clock)
    requires TimesUpTo(s, t) && t.UpTo(t') && Effect(s, id, fetch, t'.wall, s', answer)
    ensures TimesUpTo(s', t')
  {
    var now := t'.wall;
    BaseEntries(s, fetch, now);
    forall i | i in s.requests
      ensures Aged(s.requests[i], now).Some? ==> EntryUpTo(Aged(s.requests[i], now).value, now)
    {
      AgedUpTo(s.requests[i], t.wall, now);
    }
  }

  lemma StepKeepsTimes(s: State, e: Event, s': State, t: Clock)
    requires TimesUpTo(s, t) && t.UpTo(e.clock) && Step(s, e, s')
    ensures TimesUpTo(s', e.clock)
  {
    if e.op.Add? {
      AddEffect(s, e.op.id, e.op.fetch, e.op.ticker, e.clock.wall, e.clock.mono, s', e.op.answer);
      EffectKeepsTimes(s, e.op.id, e.op.fetch, s', e.op.answer, t, e.clock);
    } else {
      forall i | i in s.requests
        ensures EntryUpTo(s.requests[i], e.clock.wall)
        ensures Aged(s.requests[i], e.clock.wall).Some? ==>
                  EntryUpTo(Aged(s.requests[i], e.clock.wall).value, e.clock.wall)
      {
        AgedUpTo(s.requests[i], t.wall, e.clock.wall);
      }
    }
  }

  lemma {:induction false} RunTimes(ss: seq<State>, es: seq<Event>, t: Clock)
    requires IsRun(ss, es) && ClockForward(es)
    requires forall i :: 0 <= i < |es| ==> es[i].clock.UpTo(t)
    ensures TimesUpTo(ss[|es|], t)
  {
    if es != [] {
      var n := |es| - 1;
      RunTimes(ss[..|es|], es[..n], es[n].clock);
      StepKeepsTimes(ss[n], es[n], ss[n + 1], es[n].clock);
    }
  }

  /**
   * No valid fetch is shut out forever. From a state reached by `t`, ask at
   * least 90 s later and, if turned away, once more at least 80 s after
   * that: one of the two calls is admitted.
   */
  lemma NeverBlockedForever(ss: seq<State>, es: seq<Event>, t: Clock,
                            fetch: FetchRange, ticker: Option<StreamIdentity>,
                            id1: RequestId, t1: Clock, s1: State, a1: Answer,
                            id2: RequestId, t2: Clock, s2: State, a2: Answer)
    requires IsRun(ss, es) && ClockForward(es)
    requires forall i :: 0 <= i < |es| ==> es[i].clock.UpTo(t)
    requires fetch.IsValid()
    requires t1.wall >= t.wall + PENDING_TIMEOUT_MS && t1.mono >= t.mono + PENDING_TIMEOUT_MS
    requires t2.wall >= t1.wall + MAX_RETRY_DELAY_MS && t2.mono >= t1.mono
    requires AddStep(ss[|es|], id1, fetch, ticker, t1.wall, t1.mono, s1, a1)
    requires AddStep(s1, id2, fetch, ticker, t2.wall, t2.mono, s2, a2)
    ensures a1.Admitted? || a2.Admitted?
  {
    var s := ss[|es|];
    RunInvariant(ss, es);
    RunTimes(ss, es, t);
    if !a1.Admitted? {
      AddEffect(s, id1, fetch, ticker, t1.wall, t1.mono, s1, a1);
      BaseEntries(s, fetch, t1.wall);
      WinnowedKeepsInv(s.requests, s1.requests, s.generation);
      forall k | k in s1.requests ensures !Obstructs(s1.requests[k], fetch, t2.wall) {
        assert Aged(s.requests[k], t1.wall) == Some(s1.requests[k]);
        NothingLive(s.requests[k], t.wall, t1.wall);
      }
      AdmissionExact(s1, id2, fetch, ticker, t2.wall, t2.mono, s2, a2);
    }
  }

  /** 90 s after its last change an entry is gone, superseded, or a failure due within 80 s. */
  lemma NothingLive(r: Request, wall: U64, now: U64)
    requires EntryUpTo(r, wall) && now >= wall + PENDING_TIMEOUT_MS
    ensures var a := Aged(r, now);
      a.None? || a.value.status.Superseded?
      || (a.value.status.Failed? && a.value.status.retryAt <= now + MAX_RETRY_DELAY_MS)
  {
  }
}
