// The mutable request table. Every method is proved to carry out exactly one
// operation of module Ledger on the handler's value, and to keep its invariant.

module RequestHandling {
  import opened Wrappers
  import opened UnixTime
  import opened Ledger
  import opened LedgerTheorems
  import opened LedgerLaws

  class RequestHandler {
    var requests: map<RequestId, Request>
    var lastSuppression: Option<Reason>
    var generation: U64
    var emptyTradeFetches: map<EmptyKey, nat>

    function View(): State
      reads this
    {
      State(requests, lastSuppression, generation, emptyTradeFetches)
    }

    ghost predicate Valid()
      reads this
    {
      Inv(View())
    }

    constructor ()
      ensures Valid() && View() == INITIAL
    {
      requests, lastSuppression, generation, emptyTradeFetches := map[], None, 0, map[];
    }

    /** Ages every entry in some order, then drops the ones found stale. */
    method CleanupStaleAt(now: U64)
      requires Valid()
      modifies this`requests
      ensures Valid() && View() == Ledger.CleanupStaleAt(old(View()), now)
      ensures requests.Keys <= old(requests).Keys
      ensures forall k :: k in old(requests) ==> CleanedUp(old(requests)[k], requests, k, now)
    {
      ghost var start := requests;
      var removeIds := AgeEntries(now);
      RemoveAll(removeIds);
      assert requests == Aging(start, now);
      assert Winnowed(start, requests);
      WinnowedKeepsInv(start, requests, generation);
      forall k | k in start ensures CleanedUp(start[k], requests, k, now) {
        AgedIsCleanedUp(start[k], requests, k, now);
      }
    }

    method AgeEntries(now: U64) returns (removeIds: seq<RequestId>)
      modifies this`requests
      ensures requests.Keys == old(requests).Keys
      ensures forall k :: k in requests ==>
                if k in removeIds then Aged(old(requests)[k], now).None?
                else Aged(old(requests)[k], now) == Some(requests[k])
    {
      ghost var start := requests;
      removeIds := [];
      var todo := requests.Keys;
      while todo != {}
        invariant todo <= start.Keys == requests.Keys
        invariant forall k :: k in todo ==> requests[k] == start[k] && k !in removeIds
        invariant forall k :: k in start && k !in todo ==> Handled(start[k], requests[k], k in removeIds, now)
        decreases |todo|
      {
        var id :| id in todo;
        var request := requests[id];
        match request.status {
          case Pending =>
            if SatSub(now, request.updatedAt) >= PENDING_TIMEOUT_MS {
              requests := requests[id := Fail(request, TIMEOUT_ERROR, now)];
            }
          case Completed(at) =>
            if SatSub(now, at) > COMPLETED_RETENTION_MS { removeIds := removeIds + [id]; }
          case Failed(_, failedAt, _) =>
            if SatSub(now, failedAt) > FAILED_RETENTION_MS { removeIds := removeIds + [id]; }
          case Superseded(_, at) =>
            if SatSub(now, at) > SUPERSEDED_RETENTION_MS { removeIds := removeIds + [id]; }
        }
        assert Handled(start[id], requests[id], id in removeIds, now);
        todo := todo - {id};
      }
    }

    static ghost predicate Handled(before: Request, after: Request, removed: bool, now: U64) {
      if removed then Aged(before, now).None? else Aged(before, now) == Some(after)
    }

    method RemoveAll(ids: seq<RequestId>)
      modifies this`requests
      ensures requests == map k | k in old(requests) && k !in ids :: old(requests)[k]
    {
      for i := 0 to |ids|
        invariant requests == map k | k in old(requests) && k !in ids[..i] :: old(requests)[k]
      {
        requests := requests - {ids[i]};
        assert ids[..i + 1] == ids[..i] + [ids[i]];
      }
      assert ids[..|ids|] == ids;
    }

    method CleanupStale(now: U64, instant: nat)
      requires Valid()
      modifies this
      ensures Valid() && View() == Ledger.CleanupStale(old(View()), now, instant)
    {
      CleanupStaleAt(now);
      emptyTradeFetches := map k | k in emptyTradeFetches && instant - emptyTradeFetches[k] < EMPTY_TRADE_FETCH_TTL_MS
        :: emptyTradeFetches[k];
    }

    method MarkEmptyTradeRange(stream: StreamIdentity, from: U64, to: U64, instant: nat)
      requires Valid()
      modifies this`emptyTradeFetches
      ensures Valid() && View() == MarkEmpty(old(View()), stream, from, to, instant)
    {
      emptyTradeFetches := emptyTradeFetches[EmptyKey(stream, from, to) := instant];
    }

    /** Starts a new generation; returns every id it superseded, once. */
    method SupersedeAllPending(reason: string, now: U64) returns (supersededIds: seq<RequestId>)
      requires Valid()
      modifies this`requests, this`generation
      ensures Valid() && View() == SupersedeAll(old(View()), reason, now)
      ensures forall k :: k in supersededIds <==> k in old(requests) && old(requests)[k].status.Pending?
      ensures forall i, j :: 0 <= i < j < |supersededIds| ==> supersededIds[i] != supersededIds[j]
    {
      SupersedeKeepsInv(View(), reason, now);
      generation := WrappingInc(generation);
      supersededIds := SupersedeEntries(reason, now);
    }

    method SupersedeEntries(reason: string, now: U64) returns (supersededIds: seq<RequestId>)
      modifies this`requests
      ensures requests == map k | k in old(requests) :: Supersede(old(requests)[k], reason, now)
      ensures forall k :: k in supersededIds <==> k in old(requests) && old(requests)[k].status.Pending?
      ensures forall i, j :: 0 <= i < j < |supersededIds| ==> supersededIds[i] != supersededIds[j]
    {
      ghost var start := requests;
      supersededIds := [];
      var todo := requests.Keys;
      while todo != {}
        invariant todo <= start.Keys == requests.Keys
        invariant forall k :: k in start ==>
                    requests[k] == if k in todo then start[k] else Supersede(start[k], reason, now)
        invariant forall k :: k in supersededIds <==> k in start && k !in todo && start[k].status.Pending?
        invariant forall i, j :: 0 <= i < j < |supersededIds| ==> supersededIds[i] != supersededIds[j]
        decreases |todo|
      {
        var id :| id in todo;
        if requests[id].status.Pending? {
          requests := requests[id := requests[id].(status := Superseded(reason, now), updatedAt := now)];
          supersededIds := supersededIds + [id];
        }
        todo := todo - {id};
      }
    }

    method MarkCompleted(id: RequestId, now: U64)
      requires Valid()
      modifies this`requests
      ensures Valid() && View() == Ledger.MarkCompleted(old(View()), id, now)
      ensures requests == if id in old(requests) && old(requests)[id].status.Pending?
        then old(requests)[id := old(requests)[id].(status := Completed(now))] else old(requests)
    {
      if id in requests {
        var request := requests[id];
        if request.status.Superseded? || request.status.Failed? || request.status.Completed? { return; }
        requests := requests[id := request.(status := Completed(now))];
        assert Winnowed(old(requests), requests);
        WinnowedKeepsInv(old(requests), requests, generation);
      }
    }

    method MarkFailed(id: RequestId, error: string, now: U64)
      requires Valid()
      modifies this`requests
      ensures Valid() && View() == Ledger.MarkFailed(old(View()), id, error, now)
      ensures requests.Keys == old(requests).Keys
      ensures forall k :: k in requests && k != id ==> requests[k] == old(requests)[k]
      ensures id in requests ==>
        if old(requests)[id].status.Pending? || old(requests)[id].status.Failed?
        then FailedOnce(old(requests)[id], requests[id], error, now)
        else requests[id] == old(requests)[id]
    {
      if id in requests {
        var request := requests[id];
        if request.status.Superseded? || request.status.Completed? { return; }
        FailIsFailedOnce(request, error, now);
        requests := requests[id := Fail(request, error, now)];
        assert Winnowed(old(requests), requests);
        WinnowedKeepsInv(old(requests), requests, generation);
      }
    }

    /** Forgets the failures of this fetch that may be retried. */
    method DropRetryableFailures(fetch: FetchRange, now: U64)
      modifies this`requests
      ensures requests == DropRetryable(old(requests), fetch, now)
    {
      var retryable: seq<RequestId> := [];
      var todo := requests.Keys;
      while todo != {}
        invariant todo <= requests.Keys
        invariant requests == old(requests)
        invariant forall k :: k in retryable <==> k in requests && k !in todo && Retryable(requests[k], fetch, now)
        decreases |todo|
      {
        var id :| id in todo;
        if Retryable(requests[id], fetch, now) { retryable := retryable + [id]; }
        todo := todo - {id};
      }
      RemoveAll(retryable);
    }

    /** The first verdict met while scanning the table in an arbitrary order. */
    method ScanContainment(fetch: FetchRange, now: U64) returns (verdict: Option<Verdict>, blocker: RequestId)
      ensures verdict.None? ==> !Blocked(View(), fetch, now)
      ensures verdict.Some? ==> blocker in requests && ContainmentVerdict(requests[blocker], fetch, now) == verdict
    {
      verdict, blocker := None, 0;
      var todo := requests.Keys;
      while todo != {}
        invariant todo <= requests.Keys && verdict.None?
        invariant forall k :: k in requests && k !in todo ==> ContainmentVerdict(requests[k], fetch, now).None?
        decreases |todo|
      {
        blocker :| blocker in todo;
        verdict := ContainmentVerdict(requests[blocker], fetch, now);
        if verdict.Some? { return; }
        todo := todo - {blocker};
      }
    }

    method FindSame(fetch: FetchRange) returns (found: Option<RequestId>)
      ensures found.None? ==> !Matched(View(), fetch)
      ensures found.Some? ==> found.value in requests && requests[found.value].fetch.SameWith(fetch)
    {
      var todo := requests.Keys;
      while todo != {}
        invariant todo <= requests.Keys
        invariant forall k :: k in requests && k !in todo ==> !requests[k].fetch.SameWith(fetch)
        decreases |todo|
      {
        var k :| k in todo;
        if requests[k].fetch.SameWith(fetch) { return Some(k); }
        todo := todo - {k};
      }
      found := None;
    }

    method AddRequestWithId(id: RequestId, fetch: FetchRange, ticker: Option<StreamIdentity>,
                            now: U64, instant: nat)
      returns (answer: Answer)
      requires Valid()
      modifies this
      ensures Valid()
      ensures AddStep(old(View()), id, fetch, ticker, now, instant, View(), answer)
      ensures Explained(old(View()), fetch, ticker, now, instant, answer, lastSuppression)
    {
      answer := Add(id, fetch, ticker, now, instant);
      AnswerExplained(old(View()), id, fetch, ticker, now, instant, View(), answer);
    }

    method Add(id: RequestId, fetch: FetchRange, ticker: Option<StreamIdentity>, now: U64, instant: nat)
      returns (answer: Answer)
      requires Valid()
      modifies this
      ensures Valid()
      ensures AddStep(old(View()), id, fetch, ticker, now, instant, View(), answer)
    {
      CleanupStaleAt(now);
      lastSuppression := None;
      ghost var aged := View();
      if !fetch.IsValid() {
        lastSuppression := Some(InvalidRange);
        return Skipped;
      }
      if fetch.Trades? && ticker.Some? {
        var key := EmptyKey(ticker.value, fetch.from, fetch.to);
        if key in emptyTradeFetches && instant - emptyTradeFetches[key] < EMPTY_TRADE_FETCH_TTL_MS {
          lastSuppression := Some(Throttled);
          return Skipped;
        }
      }
      answer := Decide(id, fetch, now);
      AddEffect(old(View()), id, fetch, ticker, now, instant, View(), answer);
      EffectKeepsInv(old(View()), id, fetch, now, View(), answer);
    }

    /** The part of an add that follows ageing and the quick refusals. */
    method Decide(id: RequestId, fetch: FetchRange, now: U64) returns (answer: Answer)
      modifies this
      ensures var base := old(View()).(requests := DropRetryable(old(requests), fetch, now));
        if Blocked(base, fetch, now) then exists k :: DecidedBy(base, k, fetch, now, View(), answer)
        else if Matched(base, fetch) then exists k :: MatchedBy(base, k, fetch, now, View(), answer)
        else View() == base.(requests := base.requests[id := NewRequest(fetch, now, base.generation)])
             && answer == Admitted(id)
    {
      DropRetryableFailures(fetch, now);
      ghost var base := View();
      var verdict, blocker := ScanContainment(fetch, now);
      if verdict.Some? {
        lastSuppression := Some(verdict.value.reason);
        answer := verdict.value.answer;
        assert DecidedBy(base, blocker, fetch, now, View(), answer);
        return;
      }
      var found := FindSame(fetch);
      if found.Some? {
        answer := Match(found.value, now);
        assert MatchedBy(base, found.value, fetch, now, View(), answer);
        return;
      }
      requests := requests[id := NewRequest(fetch, now, generation)];
      answer := Admitted(id);
    }

    method Match(existing: RequestId, now: U64) returns (answer: Answer)
      requires existing in requests
      modifies this
      ensures (View(), answer) == ExactMatch(old(View()), existing, now)
    {
      match requests[existing].status {
        case Failed(error, _, retryAt) =>
          if now >= retryAt {
            answer := Admitted(existing);
          } else {
            lastSuppression := Some(RecentFailed);
            answer := Refused(error);
          }
        case Completed(at) =>
          if SatSub(now, at) > COMPLETED_RETENTION_MS {
            answer := Admitted(existing);
          } else {
            lastSuppression := Some(Throttled);
            answer := Skipped;
          }
        case Pending =>
          lastSuppression := Some(AlreadyPending);
          answer := Skipped;
        case Superseded(_, _) =>
          requests := requests[existing := Reactivated(requests[existing], generation, now)];
          answer := Admitted(existing);
      }
    }
  }
}
