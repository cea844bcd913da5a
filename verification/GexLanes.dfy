// Exponential backoff and the fetch lanes of the options-data coordinator
// (proxy history, Derive instruments, Derive trades), which share one shape:
// an in-flight set, a failure table, a forced-refresh set and refresh times.

module Backoff {
  import opened UnixTime
  import opened Powers

  const FAILURE_BACKOFF_BASE_MS: U64 := 5_000
  const FAILURE_BACKOFF_MAX_MS: U64 := 120_000

  /** The delay after the `attempts`-th failure in a row, with the exponent capped as the code caps it. */
  function Delay(attempts: U32, maxExponent: nat): U64 {
    Min(FAILURE_BACKOFF_BASE_MS * Pow2(Min(SatSub(attempts, 1), maxExponent)), FAILURE_BACKOFF_MAX_MS)
  }

  /**
   * Neither the capped exponent nor the saturating counter shows: after n failures the delay
   * is min(5 s * 2^(n-1), 120 s).
   */
  lemma DelayClosedForm(n: nat, maxExponent: nat)
    requires n > 0 && maxExponent >= 5
    ensures Delay(Min(n, U32_MAX), maxExponent)
         == Min(FAILURE_BACKOFF_BASE_MS * Pow2(n - 1), FAILURE_BACKOFF_MAX_MS)
  {
    assert Pow2(0) == 1 && Pow2(1) == 2 && Pow2(2) == 4 && Pow2(3) == 8 && Pow2(4) == 16 && Pow2(5) == 32;
    if n > 5 {
      Pow2Monotone(5, n - 1);
      Pow2Monotone(5, Min(SatSub(Min(n, U32_MAX), 1), maxExponent));
    }
  }

  datatype Failure = Failure(attempts: U32, retryAfter: U64, lastError: string)

  /** The failures in a row of one source so far, and when the last one was recorded. */
  datatype Streak = Streak(count: nat, at: U64)

  /** The recorded failure is the one the streak calls for. */
  ghost predicate Explains(f: Failure, s: Streak) {
    && s.count > 0 && f.attempts == Min(s.count, U32_MAX)
    && f.retryAfter == SatAdd(s.at, Min(FAILURE_BACKOFF_BASE_MS * Pow2(s.count - 1), FAILURE_BACKOFF_MAX_MS))
  }

  function Next(f: map<Underlying, Failure>, u: Underlying, error: string, now: U64, maxExponent: nat): Failure {
    var attempts := if u in f then SatInc32(f[u].attempts) else 1;
    Failure(attempts, SatAdd(now, Delay(attempts, maxExponent)), error)
  }

  datatype Underlying = Btc | Eth

  ghost predicate Tracked(failures: map<Underlying, Failure>, streaks: map<Underlying, Streak>) {
    failures.Keys == streaks.Keys && forall u :: u in failures ==> Explains(failures[u], streaks[u])
  }

  /** After n failures in a row, less than min(5 s * 2^(n-1), 120 s) have passed since the last. */
  ghost predicate BackingOff(streaks: map<Underlying, Streak>, u: Underlying, now: U64) {
    && u in streaks && streaks[u].count > 0
    && now < Min(streaks[u].at + Min(5_000 * Pow2(streaks[u].count - 1), 120_000), U64_MAX)
  }

  function Longer(streaks: map<Underlying, Streak>, u: Underlying, now: U64): (r: map<Underlying, Streak>)
    ensures u in r && r[u].at == now && r - {u} == streaks - {u}
    ensures r[u].count - 1 == if u in streaks then streaks[u].count else 0
  {
    streaks[u := Streak(if u in streaks then streaks[u].count + 1 else 1, now)]
  }

  lemma SuccessTracked(failures: map<Underlying, Failure>, streaks: map<Underlying, Streak>, u: Underlying)
    requires Tracked(failures, streaks)
    ensures Tracked(failures - {u}, streaks - {u})
  {
  }

  lemma FailureTracked(failures: map<Underlying, Failure>, streaks: map<Underlying, Streak>, u: Underlying,
                       error: string, now: U64, maxExponent: nat)
    requires Tracked(failures, streaks) && maxExponent >= 5
    ensures Tracked(failures[u := Next(failures, u, error, now, maxExponent)], Longer(streaks, u, now))
  {
    DelayClosedForm(Longer(streaks, u, now)[u].count, maxExponent);
  }
}

/** A set in flight, seen as the bag of what was handed out and not answered. */
module InFlight {
  lemma HandOut<T>(s: set<T>, x: T)
    requires x !in s
    ensures multiset(s + {x}) == multiset(s) + multiset{x}
  {
  }

  lemma Answered<T>(s: set<T>, x: T)
    ensures multiset(s - {x}) == multiset(s) - multiset{x}
  {
  }
}

module GexLanes {
  import opened InFlight
  import opened Wrappers
  import opened UnixTime
  import opened Backoff
  import opened Powers

  const LANE_MAX_EXPONENT: nat := 10

  class Lane {
    const refreshMs: U64
    var inFlight: set<Underlying>
    var failures: map<Underlying, Failure>
    var force: set<Underlying>
    var refreshedAt: map<Underlying, U64>

    /** Every request handed out and not yet answered. */
    ghost var outstanding: multiset<Underlying>
    ghost var streaks: map<Underlying, Streak>

    ghost predicate Valid()
      reads this
    {
      outstanding == multiset(inFlight) && Tracked(failures, streaks)
    }

    constructor (refreshMs: U64)
      ensures Valid() && fresh(this) && this.refreshMs == refreshMs && inFlight == {} && force == {}
    {
      this.refreshMs := refreshMs;
      inFlight, failures, force, refreshedAt := {}, map[], {}, map[];
      outstanding, streaks := multiset{}, map[];
    }

    method Force(us: set<Underlying>)
      requires Valid()
      modifies this`force
      ensures Valid() && force == old(force) + us
    {
      force := force + us;
    }

    predicate IsDue(u: Underlying, now: U64)
      reads this`failures, this`force, this`refreshedAt
    {
      && (u in force || !(u in failures && now < failures[u].retryAfter))
      && (u in force || u !in refreshedAt || SatSub(now, refreshedAt[u]) >= refreshMs)
    }

    /** A forced source is to be asked at once; any other outside its backoff, when its data are old or missing. */
    ghost predicate Wanted(u: Underlying, now: U64)
      reads this`streaks, this`force, this`refreshedAt
    {
      u in force || (!BackingOff(streaks, u, now) && (u !in refreshedAt || SatSub(now, refreshedAt[u]) >= refreshMs))
    }

    lemma DueIsWanted(u: Underlying, now: U64)
      requires Valid()
      ensures IsDue(u, now) <==> Wanted(u, now)
    {
    }

    method TryHandOut(u: Underlying, now: U64) returns (handed: bool)
      requires Valid()
      modifies this`inFlight, this`outstanding
      ensures Valid()
      ensures handed <==> u !in old(inFlight) && IsDue(u, now)
      ensures inFlight == if handed then old(inFlight) + {u} else old(inFlight)
      ensures outstanding == if handed then old(outstanding) + multiset{u} else old(outstanding)
    {
      handed := false;
      if u in failures && now < failures[u].retryAfter && u !in force { return; }
      var expired := u !in refreshedAt || SatSub(now, refreshedAt[u]) >= refreshMs;
      if (expired || u in force) && u !in inFlight {
        HandOut(inFlight, u);
        inFlight := inFlight + {u};
        outstanding := outstanding + multiset{u};
        handed := true;
      }
    }

    /** The active sources to be asked that have no request under way, each once, in some order. */
    method Due(active: set<Underlying>, now: U64, online: bool) returns (due: seq<Underlying>)
      requires Valid()
      modifies this`inFlight, this`outstanding
      ensures Valid()
      ensures forall u :: u in due <==> online && u in active && u !in old(inFlight) && Wanted(u, now)
      ensures forall u :: u in inFlight <==> u in old(inFlight) || u in due
      ensures forall i, j :: 0 <= i < j < |due| ==> due[i] != due[j]
      ensures outstanding == old(outstanding) + multiset(due)
    {
      due := HandOutDue(active, now, online);
      forall u ensures IsDue(u, now) <==> Wanted(u, now) { DueIsWanted(u, now); }
    }

    method HandOutDue(active: set<Underlying>, now: U64, online: bool) returns (due: seq<Underlying>)
      requires Valid()
      modifies this`inFlight, this`outstanding
      ensures Valid()
      ensures forall u :: u in due <==> online && u in active && u !in old(inFlight) && IsDue(u, now)
      ensures forall u :: u in inFlight <==> u in old(inFlight) || u in due
      ensures forall i, j :: 0 <= i < j < |due| ==> due[i] != due[j]
      ensures outstanding == old(outstanding) + multiset(due)
    {
      due := [];
      if !online { return; }
      var todo := active;
      while todo != {}
        invariant Valid() && todo <= active
        invariant forall u :: u in due <==> u in active && u !in todo && u !in old(inFlight) && IsDue(u, now)
        invariant forall i, j :: 0 <= i < j < |due| ==> due[i] != due[j]
        invariant outstanding == old(outstanding) + multiset(due)
        invariant forall u :: u in inFlight <==> u in old(inFlight) || u in due
        decreases |todo|
      {
        var u :| u in todo;
        todo := todo - {u};
        var handed := TryHandOut(u, now);
        if handed { due := due + [u]; }
      }
    }

    /**
     * A source that failed n times in a row is not due within
     * min(5 s * 2^(n-1), 120 s) of the last failure, unless it is forced: inside
     * that window being forced is all that makes it due.
     */
    lemma DueRespectsBackoff(u: Underlying, now: U64)
      requires Valid() && u in streaks
      ensures streaks[u].count > 0
      ensures
        var delay := Min(FAILURE_BACKOFF_BASE_MS * Pow2(streaks[u].count - 1), FAILURE_BACKOFF_MAX_MS);
        now < SatAdd(streaks[u].at, delay) ==> (IsDue(u, now) <==> u in force)
    {
    }

    method Release(u: Underlying)
      requires Valid()
      modifies this`inFlight, this`outstanding, this`force
      ensures Valid()
      ensures outstanding == old(outstanding) - multiset{u}
      ensures inFlight == old(inFlight) - {u} && force == old(force) - {u}
    {
      Answered(inFlight, u);
      inFlight := inFlight - {u};
      outstanding := outstanding - multiset{u};
      force := force - {u};
    }

    method RecordFailure(u: Underlying, error: string, now: U64)
      requires Valid()
      modifies this`failures, this`streaks
      ensures Valid() && streaks == Longer(old(streaks), u, now) && failures[u].lastError == error
    {
      FailureTracked(failures, streaks, u, error, now, LANE_MAX_EXPONENT);
      failures := failures[u := Next(failures, u, error, now, LANE_MAX_EXPONENT)];
      streaks := Longer(streaks, u, now);
    }

    /** An answer arrives: the request is over, whatever it says. */
    method Complete(u: Underlying, error: Option<string>, now: U64)
      requires Valid()
      modifies this
      ensures Valid()
      ensures outstanding == old(outstanding) - multiset{u}
      ensures inFlight == old(inFlight) - {u} && force == old(force) - {u}
      ensures error.None? ==> refreshedAt == old(refreshedAt)[u := now] && streaks == old(streaks) - {u}
      ensures error.Some? ==> refreshedAt == old(refreshedAt) && streaks == Longer(old(streaks), u, now)
      ensures error.Some? ==> failures[u].lastError == error.value
    {
      Release(u);
      if error.None? {
        SuccessTracked(failures, streaks, u);
        refreshedAt := refreshedAt[u := now];
        failures, streaks := failures - {u}, streaks - {u};
      } else {
        RecordFailure(u, error.value, now);
      }
    }
  }
}
