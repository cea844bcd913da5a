// What the ledger's operations mean for the calls that follow them, told by
// times and entries alone.

module LedgerLaws {
  import opened Wrappers
  import opened UnixTime
  import opened Powers
  import opened Ledger
  import opened LedgerTheorems

  // ------------------------------------------------------- one operation

  /** The n-th failure in a row waits min(2.5 s * 2^(n-1), 80 s); the cap on the exponent does not show. */
  lemma RetryDelayClosedForm(attempts: U32)
    requires attempts > 0
    ensures RetryDelayMs(attempts) == Min(2_500 * Pow2(attempts - 1), 80_000)
  {
    assert Pow2(0) == 1 && Pow2(1) == 2 && Pow2(2) == 4 && Pow2(3) == 8 && Pow2(4) == 16 && Pow2(5) == 32;
    if attempts > 6 { Pow2Monotone(5, attempts - 1); }
  }

  /** The entry failed once more, at `now`. */
  ghost predicate FailedOnce(before: Request, after: Request, error: string, now: U64) {
    && after.attempts == Min(before.attempts + 1, U32_MAX)
    && after.status
       == Failed(error, now, Min(now + Min(2_500 * Pow2(after.attempts - 1), 80_000), U64_MAX))
    && after == before.(attempts := after.attempts, status := after.status, updatedAt := now)
  }

  lemma FailIsFailedOnce(r: Request, error: string, now: U64)
    ensures FailedOnce(r, Fail(r, error, now), error, now)
  {
    RetryDelayClosedForm(Fail(r, error, now).attempts);
  }

  /**
   * What a clean-up makes of an entry: requests pending for 90 s have timed
   * out; successes go after 30 s, failures after 300 s and superseded requests
   * after 10 s; everything else stays as it is.
   */
  ghost predicate CleanedUp(r: Request, m': Requests, id: RequestId, now: U64) {
    match r.status
    case Pending =>
      id in m' && (if now - r.updatedAt < 90_000 then m'[id] == r else FailedOnce(r, m'[id], TIMEOUT_ERROR, now))
    case Completed(at) => if now - at > 30_000 then id !in m' else id in m' && m'[id] == r
    case Failed(_, failedAt, _) => if now - failedAt > 300_000 then id !in m' else id in m' && m'[id] == r
    case Superseded(_, at) => if now - at > 10_000 then id !in m' else id in m' && m'[id] == r
  }

  lemma AgedIsCleanedUp(r: Request, m': Requests, id: RequestId, now: U64)
    requires id in m' <==> Aged(r, now).Some?
    requires id in m' ==> m'[id] == Aged(r, now).value
    ensures CleanedUp(r, m', id, now)
  {
    FailIsFailedOnce(r, TIMEOUT_ERROR, now);
  }

  lemma CleanupLaw(s: State, e: Event, s': State)
    requires Step(s, e, s') && e.op.Cleanup?
    ensures s'.requests.Keys <= s.requests.Keys && s'.generation == s.generation
    ensures forall id :: id in s.requests ==> CleanedUp(s.requests[id], s'.requests, id, e.clock.wall)
  {
    forall id | id in s.requests ensures CleanedUp(s.requests[id], s'.requests, id, e.clock.wall) {
      AgedIsCleanedUp(s.requests[id], s'.requests, id, e.clock.wall);
    }
  }

  lemma CompleteLaw(s: State, e: Event, s': State)
    requires Step(s, e, s') && e.op.Complete?
    ensures s'.requests.Keys == s.requests.Keys && s'.generation == s.generation && s'.empties == s.empties
    ensures forall id :: id in s.requests ==>
      s'.requests[id] == if id == e.op.id && s.requests[id].status.Pending?
        then s.requests[id].(status := Completed(e.clock.wall)) else s.requests[id]
  {
  }

  lemma BreakLaw(s: State, e: Event, s': State)
    requires Step(s, e, s') && e.op.Break?
    ensures s'.requests.Keys == s.requests.Keys && s'.generation == s.generation && s'.empties == s.empties
    ensures forall id :: id in s.requests ==>
      if id == e.op.id && (s.requests[id].status.Pending? || s.requests[id].status.Failed?)
      then FailedOnce(s.requests[id], s'.requests[id], e.op.error, e.clock.wall)
      else s'.requests[id] == s.requests[id]
  {
    if e.op.id in s.requests { FailIsFailedOnce(s.requests[e.op.id], e.op.error, e.clock.wall); }
  }

  lemma SupersedeLaw(s: State, e: Event, s': State)
    requires Step(s, e, s') && e.op.SupersedePending?
    ensures s'.requests.Keys == s.requests.Keys && s'.empties == s.empties
    ensures s'.generation == (s.generation + 1) % GENERATIONS
    ensures forall id :: id in s.requests ==>
      s'.requests[id] == if s.requests[id].status.Pending?
        then s.requests[id].(status := Superseded(e.op.reason, e.clock.wall), updatedAt := e.clock.wall)
        else s.requests[id]
  {
  }

  // ------------------------------------------------- admission, explained

  /** Trade ranges, and bubble ranges of one timeframe, of which the first has all of the second. */
  predicate Covers(outer: FetchRange, inner: FetchRange) {
    match (outer, inner)
    case (Trades(a, b), Trades(c, d)) => a <= c && d <= b
    case (BubbleSummary(a, b, t, _, _, _, _), BubbleSummary(c, d, u, _, _, _, _)) => t == u && a <= c && d <= b
    case _ => false
  }

  lemma CoversIsContains(a: FetchRange, b: FetchRange)
    ensures a.Contains(b) <==> Covers(a, b)
    ensures a.SameBounds(b) <==> Covers(a, b) && Covers(b, a)
  {
  }

  /** A live request or a recent success that makes the fetch unnecessary. */
  ghost predicate Spares(r: Request, fetch: FetchRange, now: U64) {
    && (Covers(r.fetch, fetch) || r.fetch == fetch)
    && match r.status
       case Pending => now - r.updatedAt < 90_000
       case Completed(at) => now - at <= 30_000
       case _ => false
  }

  /** A failure of the same bounds that still waits, with its error; a request that times out in the call is one. */
  ghost predicate Waits(r: Request, fetch: FetchRange, now: U64, error: string) {
    && ((Covers(r.fetch, fetch) && Covers(fetch, r.fetch)) || r.fetch == fetch)
    && match r.status
       case Pending => now - r.updatedAt >= 90_000 && now < U64_MAX && error == TIMEOUT_ERROR
       case Failed(e, failedAt, retryAt) => now - failedAt <= 300_000 && now < retryAt && error == e
       case _ => false
  }

  /** Every answer has its reason in the table before the call, and the noted reason is that one. */
  ghost predicate Explained(s: State, fetch: FetchRange, ticker: Option<StreamIdentity>, now: U64, instant: nat,
                            answer: Answer, noted: Option<Reason>)
  {
    match answer
    case Admitted(_) => noted.None?
    case Refused(error) =>
      && fetch.from < fetch.to && noted == Some(RecentFailed)
      && exists k :: k in s.requests && Waits(s.requests[k], fetch, now, error)
    case Skipped =>
      if fetch.from >= fetch.to then noted == Some(InvalidRange)
      else if RecentlyEmpty(s, ticker, fetch, instant) then noted == Some(Throttled)
      else exists k ::
        k in s.requests && Spares(s.requests[k], fetch, now) && noted == Some(SpareReason(s.requests[k], fetch))
  }

  function SpareReason(r: Request, fetch: FetchRange): Reason {
    if r.status.Completed? then Throttled
    else if Covers(fetch, r.fetch) || r.fetch == fetch then AlreadyPending
    else CoveredByInflight
  }

  lemma AnswerExplained(s: State, id: RequestId, fetch: FetchRange, ticker: Option<StreamIdentity>,
                        now: U64, instant: nat, s': State, answer: Answer)
    requires AddStep(s, id, fetch, ticker, now, instant, s', answer)
    ensures Explained(s, fetch, ticker, now, instant, answer, s'.lastSuppression)
  {
    var aged := CleanupStaleAt(s, now).(lastSuppression := None);
    var base := aged.(requests := DropRetryable(aged.requests, fetch, now));
    if fetch.IsValid() && !RecentlyEmpty(aged, ticker, fetch, instant) {
      if Blocked(base, fetch, now) {
        var k :| DecidedBy(base, k, fetch, now, s', answer);
        BlockerExplains(s, base, k, fetch, now);
      } else if Matched(base, fetch) {
        var k :| MatchedBy(base, k, fetch, now, s', answer);
        MatchExplains(s, base, k, fetch, now, s', answer);
      }
    }
  }

  lemma BlockerExplains(s: State, base: State, k: RequestId, fetch: FetchRange, now: U64)
    requires base.requests == Base(s, fetch, now)
    requires k in base.requests && ContainmentVerdict(base.requests[k], fetch, now).Some?
    ensures var v := ContainmentVerdict(base.requests[k], fetch, now).value;
      && k in s.requests
      && match v.answer
         case Skipped => Spares(s.requests[k], fetch, now) && v.reason == SpareReason(s.requests[k], fetch)
         case Refused(error) => Waits(s.requests[k], fetch, now, error) && v.reason == RecentFailed
         case Admitted(_) => false
  {
    BaseEntries(s, fetch, now);
    CoversIsContains(s.requests[k].fetch, fetch);
    FailIsFailedOnce(s.requests[k], TIMEOUT_ERROR, now);
  }

  lemma MatchExplains(s: State, base: State, k: RequestId, fetch: FetchRange, now: U64, s': State, answer: Answer)
    requires base.requests == Base(s, fetch, now) && base.lastSuppression.None?
    requires MatchedBy(base, k, fetch, now, s', answer)
    ensures k in s.requests
    ensures match answer
      case Skipped => Spares(s.requests[k], fetch, now) && s'.lastSuppression == Some(SpareReason(s.requests[k], fetch))
      case Refused(error) => Waits(s.requests[k], fetch, now, error) && s'.lastSuppression == Some(RecentFailed)
      case Admitted(_) => s'.lastSuppression.None?
  {
    BaseEntries(s, fetch, now);
    SameWithIsEquality(base.requests[k].fetch, fetch);
    FailIsFailedOnce(s.requests[k], TIMEOUT_ERROR, now);
  }

  /**
   * An admitted request starts afresh: pending as of now, of the current
   * generation, without attempts.
   */
  lemma AdmittedStartsAfresh(s: State, id: RequestId, fetch: FetchRange, ticker: Option<StreamIdentity>,
                             now: U64, instant: nat, s': State, k: RequestId)
    requires AddStep(s, id, fetch, ticker, now, instant, s', Admitted(k))
    ensures k in s'.requests
    ensures var r := s'.requests[k];
      && r.fetch == fetch && r.status.Pending? && r.updatedAt == now && r.attempts == 0
      && r.generation == s.generation == s'.generation
  {
    AddEffect(s, id, fetch, ticker, now, instant, s', Admitted(k));
  }

  /** It has the given id, unless it takes up a superseded request, which keeps its own and its age. */
  lemma AdmittedUnderId(s: State, id: RequestId, fetch: FetchRange, ticker: Option<StreamIdentity>,
                        now: U64, instant: nat, s': State, k: RequestId)
    requires AddStep(s, id, fetch, ticker, now, instant, s', Admitted(k))
    ensures k in s'.requests
    ensures if k in s.requests && Revivable(s.requests[k], fetch, now)
      then s'.requests[k].createdAt == s.requests[k].createdAt
      else k == id && s'.requests[k].createdAt == now
  {
    AddEffect(s, id, fetch, ticker, now, instant, s', Admitted(k));
    BaseEntries(s, fetch, now);
    if k in s.requests && Revivable(s.requests[k], fetch, now) {
      assert Aged(s.requests[k], now) == Some(s.requests[k]);
      assert k in Base(s, fetch, now);
    }
  }

  ghost predicate Revivable(r: Request, fetch: FetchRange, now: U64) {
    r.fetch == fetch && r.status.Superseded? && now - r.status.supersededAt <= 10_000
  }

  /** Every other entry is cleaned up, or was a failure of this very fetch whose wait is over. */
  lemma AddCleansUp(s: State, id: RequestId, fetch: FetchRange, ticker: Option<StreamIdentity>,
                    now: U64, instant: nat, s': State, answer: Answer, k: RequestId)
    requires AddStep(s, id, fetch, ticker, now, instant, s', answer)
    requires k in s.requests && answer != Admitted(k)
    ensures
      || CleanedUp(s.requests[k], s'.requests, k, now)
      || (k !in s'.requests && s.requests[k].fetch == fetch && OverdueAt(s.requests[k], now))
  {
    AddEffect(s, id, fetch, ticker, now, instant, s', answer);
    if k in s'.requests <==> Aged(s.requests[k], now).Some? {
      AgedIsCleanedUp(s.requests[k], s'.requests, k, now);
    } else {
      RetryableIsOverdue(s.requests[k], fetch, now);
    }
  }

  lemma RetryableIsOverdue(r: Request, fetch: FetchRange, now: U64)
    ensures Aged(r, now).Some? && Retryable(Aged(r, now).value, fetch, now) ==> r.fetch == fetch && OverdueAt(r, now)
  {
    SameWithIsEquality(r.fetch, fetch);
    FailIsFailedOnce(r, TIMEOUT_ERROR, now);
  }

  ghost predicate OverdueAt(r: Request, now: U64) {
    (r.status.Failed? && now >= r.status.retryAt) || (r.status.Pending? && now == U64_MAX)
  }

  // ------------------------------------------------------- and over runs

  /** No event from `i` up to `j` enters a request under this id, other than by reviving it. */
  ghost predicate NotReused(es: seq<Event>, id: RequestId, i: nat, j: nat) {
    i <= j <= |es| && forall k :: i <= k < j && es[k].op.Add? ==> es[k].op.id != id
  }

  /** Every event from `i` up to `j` comes before `until`. */
  ghost predicate Before(es: seq<Event>, i: nat, j: nat, until: int) {
    i <= j <= |es| && forall k :: i <= k < j ==> es[k].clock.wall < until
  }

  /** Event `i` completes the pending request. */
  ghost predicate Completes(ss: seq<State>, es: seq<Event>, id: RequestId, i: nat) {
    && IsRun(ss, es) && i < |es| && es[i].op == Complete(id)
    && id in ss[i].requests && ss[i].requests[id].status.Pending?
  }

  lemma CompletedStep(s: State, e: Event, s': State, id: RequestId, at: U64)
    requires Inv(s) && Step(s, e, s') && (e.op.Add? ==> e.op.id != id)
    requires id in s.requests ==> s.requests[id].status == Completed(at)
    ensures id in s'.requests ==> id in s.requests && s'.requests[id] == s.requests[id]
    ensures id in s.requests && e.clock.wall <= at + 30_000 ==> id in s'.requests
    ensures (e.op.Cleanup? || e.op.Add?) && e.clock.wall > at + 30_000 ==> id !in s'.requests
  {
    match e.op
    case Cleanup => CleanupLaw(s, e, s');
    case Complete(_) => CompleteLaw(s, e, s');
    case Break(_, _) => BreakLaw(s, e, s');
    case SupersedePending(_) => SupersedeLaw(s, e, s');
    case NoteEmpty(_, _, _) =>
    case Add(k, fetch, ticker, answer) =>
      AddEffect(s, k, fetch, ticker, e.clock.wall, e.clock.mono, s', answer);
      if id in s.requests {
        if answer == Admitted(id) { BaseEntries(s, fetch, e.clock.wall); }
        else { AddCleansUp(s, k, fetch, ticker, e.clock.wall, e.clock.mono, s', answer, id); }
      }
  }

  lemma InvAt(ss: seq<State>, es: seq<Event>, j: nat)
    requires IsRun(ss, es) && j < |ss|
    ensures Inv(ss[j]) && (j < |es| ==> Step(ss[j], es[j], ss[j + 1]))
  {
    RunInvariant(ss[..j + 1], es[..j]);
  }

  ghost predicate StillCompleted(s: State, id: RequestId, before: Request, at: U64) {
    id in s.requests ==> s.requests[id] == before.(status := Completed(at))
  }

  lemma CompletedStart(ss: seq<State>, es: seq<Event>, id: RequestId, i: nat)
    requires Completes(ss, es, id, i)
    ensures id in ss[i + 1].requests && StillCompleted(ss[i + 1], id, ss[i].requests[id], es[i].clock.wall)
  {
    InvAt(ss, es, i);
    CompleteLaw(ss[i], es[i], ss[i + 1]);
  }

  lemma CompletedNext(ss: seq<State>, es: seq<Event>, id: RequestId, j: nat, before: Request, at: U64)
    requires IsRun(ss, es) && j < |es| && NotReused(es, id, j, j + 1)
    requires StillCompleted(ss[j], id, before, at)
    ensures StillCompleted(ss[j + 1], id, before, at)
    ensures id in ss[j].requests && es[j].clock.wall <= at + 30_000 ==> id in ss[j + 1].requests
  {
    InvAt(ss, es, j);
    CompletedStep(ss[j], es[j], ss[j + 1], id, at);
  }

  lemma {:induction false} KeptFrom(ss: seq<State>, es: seq<Event>, id: RequestId, m: nat, j: nat,
                                    before: Request, at: U64)
    requires IsRun(ss, es) && NotReused(es, id, m, j) && StillCompleted(ss[m], id, before, at)
    ensures StillCompleted(ss[j], id, before, at)
    ensures id in ss[m].requests && Before(es, m, j, at + 30_001) ==> id in ss[j].requests
    decreases j
  {
    if m < j {
      KeptFrom(ss, es, id, m, j - 1, before, at);
      CompletedNext(ss, es, id, j - 1, before, at);
    }
  }

  /**
   * A completed request stays completed as long as it is there, and so is
   * never stale and never fails, whatever supersedings, failures and calls
   * come after; it is there while 30 s have not passed.
   */
  lemma {:induction false} CompletedStays(ss: seq<State>, es: seq<Event>, id: RequestId, i: nat, j: nat)
    requires Completes(ss, es, id, i) && i < j <= |es| && NotReused(es, id, i, j)
    ensures id in ss[j].requests ==>
      ss[j].requests[id] == ss[i].requests[id].(status := Completed(es[i].clock.wall)) && !IsStaleGeneration(ss[j], id)
    ensures Before(es, i, j, es[i].clock.wall + 30_001) ==> id in ss[j].requests
  {
    CompletedStart(ss, es, id, i);
    KeptFrom(ss, es, id, i + 1, j, ss[i].requests[id], es[i].clock.wall);
  }

  /**
   * Within 30 s of its completion a request turns away every fetch its range
   * contains. The answer is a skip, unless a failure of that fetch's own
   * bounds still waits and is met first.
   */
  lemma CompletionSpares(ss: seq<State>, es: seq<Event>, id: RequestId, i: nat, j: nat)
    requires Completes(ss, es, id, i) && i < j < |es| && NotReused(es, id, i, j)
    requires Before(es, i, j + 1, es[i].clock.wall + 30_001) && es[j].op.Add?
    requires Covers(ss[i].requests[id].fetch, es[j].op.fetch) || ss[i].requests[id].fetch == es[j].op.fetch
    ensures var call := es[j].op;
      || call.answer.Skipped?
      || (call.answer.Refused?
          && exists k :: k in ss[j].requests
               && Waits(ss[j].requests[k], call.fetch, es[j].clock.wall, call.answer.error))
  {
    CoversIsContains(ss[i].requests[id].fetch, es[j].op.fetch);
    assert Before(es, i, j, es[i].clock.wall + 30_001);
    CompletedStays(ss, es, id, i, j);
    InvAt(ss, es, j);
    var call := es[j].op;
    AdmissionExact(ss[j], call.id, call.fetch, call.ticker, es[j].clock.wall, es[j].clock.mono, ss[j + 1], call.answer);
    assert Obstructs(ss[j].requests[id], call.fetch, es[j].clock.wall);
    AnswerExplained(ss[j], call.id, call.fetch, call.ticker, es[j].clock.wall, es[j].clock.mono, ss[j + 1],
      call.answer);
  }

  /**
   * Whenever such a failure waits, the refusal is possible: some order of the
   * scan meets it first. So a skip is certain exactly when there is none.
   */
  lemma WaitingMayRefuse(s: State, id: RequestId, fetch: FetchRange, ticker: Option<StreamIdentity>,
                         now: U64, instant: nat, k: RequestId, error: string) returns (s': State)
    requires fetch.from < fetch.to && !RecentlyEmpty(s, ticker, fetch, instant)
    requires k in s.requests && Waits(s.requests[k], fetch, now, error)
    ensures AddStep(s, id, fetch, ticker, now, instant, s', Refused(error))
  {
    var base := CleanupStaleAt(s, now).(requests := Base(s, fetch, now), lastSuppression := None);
    CoversIsContains(s.requests[k].fetch, fetch);
    SameWithIsEquality(s.requests[k].fetch, fetch);
    FailIsFailedOnce(s.requests[k], TIMEOUT_ERROR, now);
    s' := base.(lastSuppression := Some(RecentFailed));
    if s.requests[k].fetch.SameBounds(fetch) {
      assert DecidedBy(base, k, fetch, now, s', Refused(error));
    } else {
      assert MatchedBy(base, k, fetch, now, s', Refused(error));
    }
  }

  /** An entry that a call at time zero leaves as it is, and that has nothing to say to the fetch. */
  ghost predicate Silent(r: Request, fetch: FetchRange) {
    Aged(r, 0) == Some(r) && r.fetch != fetch && ContainmentVerdict(r, fetch, 0).None?
  }

  lemma EntersAtZero(s: State, id: RequestId, fetch: FetchRange) returns (s': State)
    requires fetch.from < fetch.to && forall k :: k in s.requests ==> Silent(s.requests[k], fetch)
    ensures s' == s.(lastSuppression := None, requests := s.requests[id := NewRequest(fetch, 0, s.generation)])
    ensures AddStep(s, id, fetch, None, 0, 0, s', Admitted(id))
  {
    forall k | k in s.requests ensures !s.requests[k].fetch.SameWith(fetch) {
      SameWithIsEquality(s.requests[k].fetch, fetch);
    }
    assert Aging(s.requests, 0) == s.requests;
    assert DropRetryable(s.requests, fetch, 0) == s.requests;
    s' := s.(lastSuppression := None, requests := s.requests[id := NewRequest(fetch, 0, s.generation)]);
  }

  lemma BrokenAtZero() returns (s1: State, s2: State)
    ensures Step(INITIAL, Event(Add(1, Trades(0, 10), None, Admitted(1)), Clock(0, 0)), s1)
    ensures Step(s1, Event(Break(1, "lost"), Clock(0, 0)), s2)
    ensures s2 == State(map[1 := Request(Trades(0, 10), Failed("lost", 0, 2_500), 0, 0, 1, 0)], None, 0, map[])
  {
    s1 := EntersAtZero(INITIAL, 1, Trades(0, 10));
    s2 := Ledger.MarkFailed(s1, 1, "lost", 0);
    FailIsFailedOnce(s1.requests[1], "lost", 0);
    assert Pow2(0) == 1;
  }

  lemma CompletedAtZero(s2: State) returns (s3: State, s4: State)
    requires s2 == State(map[1 := Request(Trades(0, 10), Failed("lost", 0, 2_500), 0, 0, 1, 0)], None, 0, map[])
    ensures Step(s2, Event(Add(2, Trades(0, 100), None, Admitted(2)), Clock(0, 0)), s3)
    ensures Step(s3, Event(Complete(2), Clock(0, 0)), s4)
    ensures 2 in s3.requests && s3.requests[2].fetch == Trades(0, 100) && s3.requests[2].status.Pending?
    ensures 1 in s4.requests && s4.requests[1] == s2.requests[1] && s4.empties == map[]
  {
    assert Silent(s2.requests[1], Trades(0, 100));
    s3 := EntersAtZero(s2, 2, Trades(0, 100));
    s4 := Ledger.MarkCompleted(s3, 2, 0);
  }

  lemma OneMore(ss: seq<State>, es: seq<Event>, e: Event, s': State)
    requires IsRun(ss, es) && Step(ss[|es|], e, s')
    ensures IsRun(ss + [s'], es + [e])
  {
  }

  lemma BrokenRun() returns (ss: seq<State>, es: seq<Event>)
    ensures IsRun(ss, es) && |es| == 2
    ensures ss[2] == State(map[1 := Request(Trades(0, 10), Failed("lost", 0, 2_500), 0, 0, 1, 0)], None, 0, map[])
  {
    var s1, s2 := BrokenAtZero();
    var add := Event(Add(1, Trades(0, 10), None, Admitted(1)), Clock(0, 0));
    var lost := Event(Break(1, "lost"), Clock(0, 0));
    OneMore([INITIAL], [], add, s1);
    OneMore([INITIAL] + [s1], [] + [add], lost, s2);
    ss, es := [INITIAL] + [s1] + [s2], [] + [add] + [lost];
  }

  lemma CompletedRun() returns (ss: seq<State>, es: seq<Event>)
    ensures IsRun(ss, es) && |es| == 4 && es[3] == Event(Complete(2), Clock(0, 0))
    ensures 2 in ss[3].requests && ss[3].requests[2].fetch == Trades(0, 100) && ss[3].requests[2].status.Pending?
    ensures 1 in ss[4].requests && Waits(ss[4].requests[1], Trades(0, 10), 0, "lost")
  {
    ss, es := BrokenRun();
    var s3, s4 := CompletedAtZero(ss[2]);
    var add, done := Event(Add(2, Trades(0, 100), None, Admitted(2)), Clock(0, 0)), Event(Complete(2), Clock(0, 0));
    OneMore(ss, es, add, s3);
    OneMore(ss + [s3], es + [add], done, s4);
    ss, es := ss + [s3] + [s4], es + [add] + [done];
  }

  /**
   * A run in which it happens: [0, 10) breaks, [0, 100) is completed, and
   * [0, 10), which that contains, is asked for again at once.
   */
  lemma CompletionMayRefuse() returns (ss: seq<State>, es: seq<Event>)
    ensures |es| == 5 && Completes(ss, es, 2, 3) && Covers(ss[3].requests[2].fetch, Trades(0, 10))
    ensures es[3].clock == es[4].clock && es[4].op == Add(3, Trades(0, 10), None, Refused("lost"))
  {
    ss, es := CompletedRun();
    var s5 := WaitingMayRefuse(ss[4], 3, Trades(0, 10), None, 0, 0, 1, "lost");
    var again := Event(Add(3, Trades(0, 10), None, Refused("lost")), Clock(0, 0));
    OneMore(ss, es, again, s5);
    ss, es := ss + [s5], es + [again];
  }

  /** A clean-up or a call more than 30 s after the completion leaves nothing of it. */
  lemma CompletionEnds(ss: seq<State>, es: seq<Event>, id: RequestId, i: nat, j: nat)
    requires Completes(ss, es, id, i) && i < j < |es| && NotReused(es, id, i, j + 1)
    requires es[j].op.Cleanup? || es[j].op.Add?
    requires es[j].clock.wall > es[i].clock.wall + 30_000
    ensures id !in ss[j + 1].requests
  {
    assert NotReused(es, id, i, j);
    CompletedStays(ss, es, id, i, j);
    InvAt(ss, es, j);
    CompletedStep(ss[j], es[j], ss[j + 1], id, es[i].clock.wall);
  }

  /** Event `i` breaks the pending or failed request. */
  ghost predicate Breaks(ss: seq<State>, es: seq<Event>, id: RequestId, i: nat) {
    && IsRun(ss, es) && i < |es| && es[i].op.Break? && es[i].op.id == id
    && id in ss[i].requests && (ss[i].requests[id].status.Pending? || ss[i].requests[id].status.Failed?)
  }

  /** The request broke once more, with the error of event `i`, and nothing has happened to it since. */
  ghost predicate BrokenSince(before: Request, after: Request, e: Event) {
    e.op.Break? && FailedOnce(before, after, e.op.error, e.clock.wall)
  }

  lemma BrokenStep(s: State, e: Event, s': State, id: RequestId, r: Request)
    requires Inv(s) && Step(s, e, s') && (e.op.Add? ==> e.op.id != id) && !(e.op.Break? && e.op.id == id)
    requires id in s.requests && s.requests[id] == r && r.status.Failed?
    requires e.clock.wall < r.status.retryAt && r.status.retryAt <= r.status.failedAt + 80_000
    ensures id in s'.requests && s'.requests[id] == r
  {
    match e.op
    case Cleanup => CleanupLaw(s, e, s');
    case Complete(_) => CompleteLaw(s, e, s');
    case Break(_, _) => BreakLaw(s, e, s');
    case SupersedePending(_) => SupersedeLaw(s, e, s');
    case NoteEmpty(_, _, _) =>
    case Add(k, fetch, ticker, answer) =>
      if answer == Admitted(id) {
        AddEffect(s, k, fetch, ticker, e.clock.wall, e.clock.mono, s', answer);
        BaseEntries(s, fetch, e.clock.wall);
      } else {
        AddCleansUp(s, k, fetch, ticker, e.clock.wall, e.clock.mono, s', answer, id);
      }
  }

  /** No event after `i` and before `j` breaks or re-enters the request, or comes at or after its retry time. */
  ghost predicate LeftWaiting(ss: seq<State>, es: seq<Event>, id: RequestId, i: nat, j: nat) {
    && Breaks(ss, es, id, i) && i < j <= |es| && NotReused(es, id, i, j)
    && (forall k :: i < k < j ==> !(es[k].op.Break? && es[k].op.id == id))
    && id in ss[i + 1].requests && ss[i + 1].requests[id].status.Failed?
    && Before(es, i + 1, j, ss[i + 1].requests[id].status.retryAt)
  }

  lemma {:induction false} BrokenKept(ss: seq<State>, es: seq<Event>, id: RequestId, i: nat, j: nat)
    requires LeftWaiting(ss, es, id, i, j)
    ensures id in ss[j].requests && ss[j].requests[id] == ss[i + 1].requests[id]
    decreases j
  {
    if j > i + 1 {
      BrokenKept(ss, es, id, i, j - 1);
      BrokenIsFailed(ss, es, id, i);
      InvAt(ss, es, j - 1);
      BrokenStep(ss[j - 1], es[j - 1], ss[j], id, ss[i + 1].requests[id]);
    }
  }

  /**
   * A broken request waits: until its retry time, min(2.5 s * 2^(n-1), 80 s)
   * after its n-th failure, it is there with this error, whatever else comes.
   */
  lemma {:induction false} BrokenWaits(ss: seq<State>, es: seq<Event>, id: RequestId, i: nat, j: nat)
    requires LeftWaiting(ss, es, id, i, j)
    ensures id in ss[j].requests && BrokenSince(ss[i].requests[id], ss[j].requests[id], es[i])
    ensures !IsStaleGeneration(ss[j], id)
  {
    BrokenKept(ss, es, id, i, j);
    BrokenIsFailed(ss, es, id, i);
  }

  /** Breaking a pending or failed request always leaves it failed. */
  lemma BrokenIsFailed(ss: seq<State>, es: seq<Event>, id: RequestId, i: nat)
    requires Breaks(ss, es, id, i)
    ensures id in ss[i + 1].requests && BrokenSince(ss[i].requests[id], ss[i + 1].requests[id], es[i])
  {
    assert Step(ss[i], es[i], ss[i + 1]);
    BreakLaw(ss[i], es[i], ss[i + 1]);
  }

  /**
   * Until the retry time a call for the same fetch is turned away: refused,
   * with the error of a failure that waits, unless a live request or a recent
   * success that contains the fetch, or the note that it is empty, makes it a skip.
   */
  lemma BrokenRefuses(ss: seq<State>, es: seq<Event>, id: RequestId, i: nat, j: nat)
    requires LeftWaiting(ss, es, id, i, j) && j < |es|
    requires es[j].clock.wall < ss[i + 1].requests[id].status.retryAt
    requires es[j].op.Add? && es[j].op.fetch == ss[i].requests[id].fetch
    ensures !es[j].op.answer.Admitted?
    ensures Explained(ss[j], es[j].op.fetch, es[j].op.ticker, es[j].clock.wall, es[j].clock.mono,
                      es[j].op.answer, ss[j + 1].lastSuppression)
    ensures id in ss[j].requests && Waits(ss[j].requests[id], es[j].op.fetch, es[j].clock.wall, es[i].op.error)
  {
    var call := es[j].op;
    BrokenWaits(ss, es, id, i, j);
    BrokenIsFailed(ss, es, id, i);
    BrokenKept(ss, es, id, i, j);
    InvAt(ss, es, j);
    AdmissionExact(ss[j], call.id, call.fetch, call.ticker, es[j].clock.wall, es[j].clock.mono, ss[j + 1], call.answer);
    assert Obstructs(ss[j].requests[id], call.fetch, es[j].clock.wall);
    AnswerExplained(ss[j], call.id, call.fetch, call.ticker, es[j].clock.wall, es[j].clock.mono, ss[j + 1],
      call.answer);
  }
}
