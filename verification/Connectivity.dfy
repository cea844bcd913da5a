// The connectivity of the market-data streams: many subscriptions folded into
// one phase, with a grace period before the application counts as offline.

module Connectivity {
  import opened Wrappers

  type Stream = nat
  /** Nanoseconds of a clock about which nothing else is known. */
  type Instant = nat

  const OFFLINE_GRACE: nat := 1_500_000_000

  datatype Phase = Connecting | Online | Offline
  datatype Transition = Unchanged | WentOffline | Restored

  datatype State = State(
    expected: set<Stream>, connected: set<Stream>, phase: Phase,
    incompleteSince: Option<Instant>, lastReason: Option<string>, hadOnlineDisconnect: bool)

  datatype Event =
    | SyncExpected(streams: set<Stream>)
    | RecordConnected(streams: set<Stream>)
    | RecordDisconnected(streams: set<Stream>, reason: string)
    | Tick

  datatype Call = Call(event: Event, at: Instant)

  const START := State({}, {}, Connecting, None, None, false)

  predicate Complete(s: State) { s.expected <= s.connected }

  predicate GraceElapsed(since: Instant, now: Instant) { now >= since && now - since >= OFFLINE_GRACE }

  function Evaluate(s: State, now: Instant): (State, Transition) {
    if Complete(s) then
      var online := s.(incompleteSince := None, phase := Online);
      if s.phase == Offline || s.hadOnlineDisconnect
      then (online.(hadOnlineDisconnect := false, lastReason := None), Restored)
      else (online, Unchanged)
    else
      var since := if s.incompleteSince.Some? then s.incompleteSince.value else now;
      var waiting := s.(incompleteSince := Some(since));
      if s.phase != Offline && GraceElapsed(since, now) then (waiting.(phase := Offline), WentOffline)
      else (waiting.(phase := if s.phase == Offline then Offline else Connecting), Unchanged)
  }

  function Record(s: State, e: Event): State {
    match e
    case SyncExpected(streams) => s.(expected := streams, connected := s.connected * streams)
    case RecordConnected(streams) => s.(expected := s.expected + streams, connected := s.connected + streams)
    case RecordDisconnected(streams, reason) =>
      s.(hadOnlineDisconnect := s.hadOnlineDisconnect || s.phase == Online,
         expected := s.expected + streams, connected := s.connected - streams, lastReason := Some(reason))
    case Tick => s
  }

  function Apply(s: State, c: Call): (State, Transition) { Evaluate(Record(s, c.event), c.at) }

  // --------------------------------------------------------------- runs

  /** The states of a run: one before the first call, and one after each. */
  ghost predicate IsRun(ss: seq<State>, cs: seq<Call>) {
    && |ss| == |cs| + 1 && ss[0] == START
    && forall i :: 0 <= i < |cs| ==> ss[i + 1] == Apply(ss[i], cs[i]).0
  }

  function Reported(ss: seq<State>, cs: seq<Call>, i: nat): Transition
    requires i < |cs| < |ss|
  {
    Apply(ss[i], cs[i]).1
  }

  /** The calls from `i` up to `j`, without `j`, left some stream missing; the one before `i` did not. */
  ghost predicate Outage(ss: seq<State>, i: nat, j: nat) {
    i < j < |ss| && Complete(ss[i]) && forall k :: i < k <= j ==> !Complete(ss[k])
  }

  /** One of the calls from `i` up to `j` came a full grace period after call `i`. */
  ghost predicate Elapsed(cs: seq<Call>, i: nat, j: nat) {
    exists k :: i <= k < j <= |cs| && cs[k].at - cs[i].at >= 1_500_000_000
  }

  ghost predicate Settled(s: State) {
    && s.connected <= s.expected
    && (Complete(s) ==> s.incompleteSince.None? && s.phase != Offline)
  }

  lemma {:induction false} RunIsSettled(ss: seq<State>, cs: seq<Call>, j: nat)
    requires IsRun(ss, cs) && j < |ss|
    ensures Settled(ss[j])
    ensures j > 0 ==> (ss[j].phase == Online <==> Complete(ss[j]))
    ensures ss[j].phase == Online ==> Complete(ss[j])
  {
    if j > 0 {
      RunIsSettled(ss, cs, j - 1);
      assert ss[j] == Apply(ss[j - 1], cs[j - 1]).0;
    }
  }

  /**
   * An outage begins with some call, which is remembered, and the phase is Offline from the
   * call that ends the grace.
   */
  lemma {:induction false} OutageIsTimed(ss: seq<State>, cs: seq<Call>, j: nat) returns (i: nat)
    requires IsRun(ss, cs) && j < |ss| && !Complete(ss[j])
    ensures Outage(ss, i, j)
    ensures ss[j].incompleteSince == Some(cs[i].at)
    ensures ss[j].phase == Offline <==> Elapsed(cs, i, j)
    decreases j
  {
    RunIsSettled(ss, cs, j - 1);
    assert ss[j] == Apply(ss[j - 1], cs[j - 1]).0;
    if Complete(ss[j - 1]) {
      i := j - 1;
      assert !Elapsed(cs, i, j);
    } else {
      i := OutageIsTimed(ss, cs, j - 1);
      ElapsedStep(cs, i, j);
    }
  }

  lemma ElapsedStep(cs: seq<Call>, i: nat, j: nat)
    requires i < j <= |cs|
    ensures Elapsed(cs, i, j) <==> (i < j - 1 && Elapsed(cs, i, j - 1)) || cs[j - 1].at - cs[i].at >= 1_500_000_000
  {
    if Elapsed(cs, i, j) {
      var k :| i <= k < j <= |cs| && cs[k].at - cs[i].at >= 1_500_000_000;
      if k == i { assert false; }
    }
  }

  /** Going offline is due: this call is the first to find an outage a full grace period old. */
  ghost predicate OutageDue(ss: seq<State>, cs: seq<Call>, j: nat)
    requires j < |cs|
  {
    exists i: nat :: Outage(ss, i, j + 1) && cs[j].at - cs[i].at >= 1_500_000_000 && !Elapsed(cs, i, j)
  }

  /**
   * Going offline is reported by exactly the first call that finds an outage
   * a full grace period old: never on a shorter one, and once in each.
   */
  lemma WentOfflineExactly(ss: seq<State>, cs: seq<Call>, j: nat)
    requires IsRun(ss, cs) && j < |cs|
    ensures Reported(ss, cs, j) == WentOffline <==> OutageDue(ss, cs, j)
  {
    RunIsSettled(ss, cs, j);
    assert ss[j + 1] == Apply(ss[j], cs[j]).0;
    if !Complete(ss[j + 1]) {
      var i := OutageIsTimed(ss, cs, j + 1);
      if OutageDue(ss, cs, j) {
        var m: nat :| Outage(ss, m, j + 1) && cs[j].at - cs[m].at >= 1_500_000_000 && !Elapsed(cs, m, j);
        OneOutage(ss, i, m, j + 1);
      }
      if i < j {
        var m := OutageIsTimed(ss, cs, j);
        OneOutage(ss, i, m, j);
      }
    }
  }

  lemma OneOutage(ss: seq<State>, i: nat, m: nat, j: nat)
    requires Outage(ss, i, j) && Outage(ss, m, j)
    ensures i == m
  {
  }

  /** The phase is Offline from a report of it until the next report of recovery. */
  lemma {:induction false} OfflineSince(ss: seq<State>, cs: seq<Call>, j: nat)
    requires IsRun(ss, cs) && j < |ss| && ss[j].phase == Offline
    ensures exists i ::
      0 <= i < j && Reported(ss, cs, i) == WentOffline && forall k :: i < k < j ==> Reported(ss, cs, k) == Unchanged
  {
    RunIsSettled(ss, cs, j - 1);
    assert ss[j] == Apply(ss[j - 1], cs[j - 1]).0;
    if Reported(ss, cs, j - 1) != WentOffline { OfflineSince(ss, cs, j - 1); }
  }

  /** Between two reports of going offline there is one of recovery. */
  lemma {:induction false} OfflineTwiceRestoredBetween(ss: seq<State>, cs: seq<Call>, i: nat, j: nat)
    requires IsRun(ss, cs) && i < j < |cs|
    requires Reported(ss, cs, i) == WentOffline && Reported(ss, cs, j) == WentOffline
    ensures exists k :: i < k < j && Reported(ss, cs, k) == Restored
  {
    if forall k :: i < k < j ==> Reported(ss, cs, k) != Restored { StaysOffline(ss, cs, i, j); }
  }

  lemma {:induction false} StaysOffline(ss: seq<State>, cs: seq<Call>, i: nat, j: nat)
    requires IsRun(ss, cs) && i < j <= |cs|
    requires Reported(ss, cs, i) == WentOffline && forall k :: i < k < j ==> Reported(ss, cs, k) != Restored
    ensures ss[j].phase == Offline
    decreases j
  {
    assert ss[j] == Apply(ss[j - 1], cs[j - 1]).0;
    assert Reported(ss, cs, j - 1) == Apply(ss[j - 1], cs[j - 1]).1;
    if j > i + 1 { StaysOffline(ss, cs, i, j - 1); }
  }

  /** Call `i` reported an outage, or told of a disconnect while everything was online. */
  ghost predicate Cause(ss: seq<State>, cs: seq<Call>, i: nat)
    requires i < |cs| < |ss|
  {
    Reported(ss, cs, i) == WentOffline || (cs[i].event.RecordDisconnected? && ss[i].phase == Online)
  }

  /** There is a cause among the calls before `j` that no recovery has been reported for. */
  ghost predicate Unanswered(ss: seq<State>, cs: seq<Call>, j: nat)
    requires j <= |cs| < |ss|
  {
    exists i :: 0 <= i < j && Cause(ss, cs, i) && forall k :: i <= k < j ==> Reported(ss, cs, k) != Restored
  }

  lemma UnansweredStep(ss: seq<State>, cs: seq<Call>, j: nat)
    requires 0 < j <= |cs| < |ss|
    ensures Unanswered(ss, cs, j) <==>
      Reported(ss, cs, j - 1) != Restored && (Cause(ss, cs, j - 1) || Unanswered(ss, cs, j - 1))
  {
    if Reported(ss, cs, j - 1) != Restored && Unanswered(ss, cs, j - 1) {
      var i :| 0 <= i < j - 1 && Cause(ss, cs, i) && forall k :: i <= k < j - 1 ==> Reported(ss, cs, k) != Restored;
      assert forall k :: i <= k < j ==> Reported(ss, cs, k) != Restored;
    }
  }

  lemma {:induction false} OwedIsUnanswered(ss: seq<State>, cs: seq<Call>, j: nat)
    requires IsRun(ss, cs) && j < |ss|
    ensures ss[j].phase == Offline || ss[j].hadOnlineDisconnect <==> Unanswered(ss, cs, j)
  {
    if j > 0 {
      OwedIsUnanswered(ss, cs, j - 1);
      UnansweredStep(ss, cs, j);
      RunIsSettled(ss, cs, j - 1);
      assert ss[j] == Apply(ss[j - 1], cs[j - 1]).0;
    }
  }

  /** Recovery is due: all streams are there, and an outage or an online disconnect has not been answered yet. */
  ghost predicate RecoveryDue(ss: seq<State>, cs: seq<Call>, j: nat)
    requires j < |cs| < |ss|
  {
    && Complete(ss[j + 1])
    && (Unanswered(ss, cs, j) || (cs[j].event.RecordDisconnected? && ss[j].phase == Online))
  }

  /**
   * Recovery is reported exactly when all streams are there and an outage or
   * an online disconnect since the last such report calls for it; so between
   * two reports of recovery there is always one of the two.
   */
  lemma RestoredExactly(ss: seq<State>, cs: seq<Call>, j: nat)
    requires IsRun(ss, cs) && j < |cs|
    ensures Reported(ss, cs, j) == Restored <==> RecoveryDue(ss, cs, j)
  {
    OwedIsUnanswered(ss, cs, j);
    assert ss[j + 1] == Apply(ss[j], cs[j]).0;
  }

  lemma CauseBetweenRestorations(ss: seq<State>, cs: seq<Call>, i: nat, j: nat)
    requires IsRun(ss, cs) && i < j < |cs|
    requires Reported(ss, cs, i) == Restored && Reported(ss, cs, j) == Restored
    ensures exists k :: i < k <= j && Cause(ss, cs, k)
  {
    RestoredExactly(ss, cs, j);
    if Unanswered(ss, cs, j) {
      var k :| 0 <= k < j && Cause(ss, cs, k) && forall m :: k <= m < j ==> Reported(ss, cs, m) != Restored;
    } else {
      assert Cause(ss, cs, j);
    }
  }

  /** What every call promises of the run it is the last of. */
  ghost predicate Told(ss: seq<State>, cs: seq<Call>, t: Transition)
    requires |ss| == |cs| + 1 && cs != []
  {
    var j := |cs| - 1;
    && t == Reported(ss, cs, j)
    && (t == WentOffline <==> OutageDue(ss, cs, j))
    && (t == Restored <==> RecoveryDue(ss, cs, j))
  }

  lemma RunGrows(ss: seq<State>, cs: seq<Call>, c: Call)
    requires IsRun(ss, cs)
    ensures var s' := Apply(ss[|cs|], c).0;
      && IsRun(ss + [s'], cs + [c]) && Told(ss + [s'], cs + [c], Apply(ss[|cs|], c).1)
      && s'.connected <= s'.expected && (s'.phase == Online <==> Complete(s'))
  {
    var ss', cs' := ss + [Apply(ss[|cs|], c).0], cs + [c];
    assert IsRun(ss', cs');
    WentOfflineExactly(ss', cs', |cs|);
    RestoredExactly(ss', cs', |cs|);
    RunIsSettled(ss', cs', |cs'|);
  }

  class MarketConnectivity {
    var expected: set<Stream>
    var connected: set<Stream>
    var phase: Phase
    var incompleteSince: Option<Instant>
    var lastReason: Option<string>
    var hadOnlineDisconnect: bool

    /** The life of the tracker: its states, the first before any call, and the calls. */
    ghost var states: seq<State>
    ghost var calls: seq<Call>

    function View(): State
      reads this
    {
      State(expected, connected, phase, incompleteSince, lastReason, hadOnlineDisconnect)
    }

    ghost predicate Valid()
      reads this
    {
      IsRun(states, calls) && states[|calls|] == View()
    }

    constructor ()
      ensures Valid() && calls == [] && expected == {} && phase == Connecting
    {
      expected, connected, phase := {}, {}, Connecting;
      incompleteSince, lastReason, hadOnlineDisconnect := None, None, false;
      states, calls := [START], [];
    }

    /** The call enters the life of the tracker. */
    ghost method Enter(c: Call, t: Transition)
      requires IsRun(states, calls) && (View(), t) == Apply(states[|calls|], c)
      modifies this`states, this`calls
      ensures Valid() && calls == old(calls) + [c] && states == old(states) + [View()]
      ensures Told(states, calls, t) && connected <= expected && (phase == Online <==> expected <= connected)
    {
      RunGrows(states, calls, c);
      states, calls := states + [View()], calls + [c];
    }

    /** Exactly the given streams are expected now; of the others nothing is kept. */
    method SyncExpected(streams: set<Stream>, now: Instant) returns (t: Transition)
      requires Valid()
      modifies this
      ensures Valid() && calls == old(calls) + [Call(Event.SyncExpected(streams), now)]
        && states[..|old(states)|] == old(states)
      ensures expected == streams && connected == old(connected) * streams
      ensures lastReason == if t == Restored then None else old(lastReason)
      ensures Told(states, calls, t) && connected <= expected && (phase == Online <==> expected <= connected)
    {
      ghost var c := Call(Event.SyncExpected(streams), now);
      expected := streams;
      connected := connected * streams;
      t := EvaluateAt(now);
      Enter(c, t);
    }

    /** The streams are connected, and expected from now on if they were not. */
    method RecordConnected(streams: set<Stream>, now: Instant) returns (t: Transition)
      requires Valid()
      modifies this
      ensures Valid() && calls == old(calls) + [Call(Event.RecordConnected(streams), now)]
        && states[..|old(states)|] == old(states)
      ensures expected == old(expected) + streams && connected == old(connected) + streams
      ensures lastReason == if t == Restored then None else old(lastReason)
      ensures Told(states, calls, t) && connected <= expected && (phase == Online <==> expected <= connected)
    {
      ghost var c := Call(Event.RecordConnected(streams), now);
      expected := expected + streams;
      connected := connected + streams;
      t := EvaluateAt(now);
      Enter(c, t);
    }

    /** The streams are gone but expected; the reason stays until recovery is reported. */
    method RecordDisconnected(streams: set<Stream>, reason: string, now: Instant) returns (t: Transition)
      requires Valid()
      modifies this
      ensures Valid() && calls == old(calls) + [Call(Event.RecordDisconnected(streams, reason), now)]
      ensures states[..|old(states)|] == old(states)
      ensures expected == old(expected) + streams && connected == old(connected) - streams
      ensures lastReason == if t == Restored then None else Some(reason)
      ensures Told(states, calls, t) && connected <= expected && (phase == Online <==> expected <= connected)
    {
      ghost var c := Call(Event.RecordDisconnected(streams, reason), now);
      if phase == Online { hadOnlineDisconnect := true; }
      expected := expected + streams;
      connected := connected - streams;
      lastReason := Some(reason);
      t := EvaluateAt(now);
      Enter(c, t);
    }

    /** Only time has passed. */
    method TickAt(now: Instant) returns (t: Transition)
      requires Valid()
      modifies this
      ensures Valid() && calls == old(calls) + [Call(Tick, now)] && states[..|old(states)|] == old(states)
      ensures expected == old(expected) && connected == old(connected)
      ensures lastReason == if t == Restored then None else old(lastReason)
      ensures Told(states, calls, t) && connected <= expected && (phase == Online <==> expected <= connected)
    {
      t := EvaluateAt(now);
      Enter(Call(Tick, now), t);
    }

    method EvaluateAt(now: Instant) returns (t: Transition)
      modifies this`phase, this`incompleteSince, this`lastReason, this`hadOnlineDisconnect
      ensures (View(), t) == Evaluate(old(View()), now)
    {
      t := Unchanged;
      if expected == {} || expected <= connected {
        incompleteSince := None;
        var restored := phase == Offline || hadOnlineDisconnect;
        phase := Online;
        if restored {
          hadOnlineDisconnect := false;
          lastReason := None;
          t := Restored;
        }
      } else {
        if incompleteSince.None? { incompleteSince := Some(now); }
        var graceElapsed := now >= incompleteSince.value && now - incompleteSince.value >= OFFLINE_GRACE;
        if phase != Offline && graceElapsed {
          phase := Offline;
          t := WentOffline;
        } else if phase != Offline {
          phase := Connecting;
        }
      }
    }
  }
}
