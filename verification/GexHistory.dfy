// The bounded history of derived snapshots kept for one chart configuration.

module GexHistory {
  import opened Wrappers
  import opened UnixTime

  const DISK_RETENTION_MS: U64 := 86_400_000
  const MAX_HISTORY_SNAPSHOTS: nat := 5_760

  datatype Snapshot = Snapshot(observedAt: U64, payload: int)
  datatype Entry = Entry(revision: U64, value: Snapshot)

  ghost predicate Increasing(h: seq<Entry>) {
    forall i, j :: 0 <= i < j < |h| ==> h[i].value.observedAt < h[j].value.observedAt
  }

  predicate Known(h: seq<Entry>, revision: U64, value: Snapshot) {
    exists i :: 0 <= i < |h| && (h[i].revision == revision || h[i].value.observedAt == value.observedAt)
  }

  /** The place in front of the first later snapshot. */
  function Position(h: seq<Entry>, at: U64): (p: nat)
    ensures p <= |h|
    ensures forall i :: 0 <= i < p ==> h[i].value.observedAt <= at
    ensures p < |h| ==> at < h[p].value.observedAt
  {
    if h == [] || h[0].value.observedAt > at then 0 else 1 + Position(h[1..], at)
  }

  function Inserted(h: seq<Entry>, e: Entry): seq<Entry> {
    var p := Position(h, e.value.observedAt);
    h[..p] + [e] + h[p..]
  }

  predicate Excess(h: seq<Entry>, cutoff: U64) {
    (h != [] && h[0].value.observedAt < cutoff) || |h| > MAX_HISTORY_SNAPSHOTS
  }

  function Trim(h: seq<Entry>, cutoff: U64): seq<Entry> {
    if Excess(h, cutoff) then Trim(h[1..], cutoff) else h
  }

  function Append(h: seq<Entry>, e: Entry, now: U64): seq<Entry> {
    if Known(h, e.revision, e.value) then h else Trim(Inserted(h, e), SatSub(now, DISK_RETENTION_MS))
  }

  /** The deque operations: look for a duplicate, find the place, insert, pop from the front. */
  method AppendHistory(h: seq<Entry>, e: Entry, now: U64) returns (r: seq<Entry>)
    ensures r == Append(h, e, now)
  {
    r := h;
    if Known(h, e.revision, e.value) { return; }
    var p := 0;
    while p < |h| && h[p].value.observedAt <= e.value.observedAt
      invariant p <= |h| && Position(h, e.value.observedAt) == p + Position(h[p..], e.value.observedAt)
    {
      assert h[p..][1..] == h[p + 1..];
      p := p + 1;
    }
    r := h[..p] + [e] + h[p..];
    var cutoff := SatSub(now, DISK_RETENTION_MS);
    while (r != [] && r[0].value.observedAt < cutoff) || |r| > MAX_HISTORY_SNAPSHOTS
      invariant Trim(r, cutoff) == Trim(Inserted(h, e), cutoff)
      decreases |r|
    {
      r := r[1..];
    }
  }

  ghost predicate SameSnapshot(a: Entry, b: Entry) {
    a.revision == b.revision || a.value.observedAt == b.value.observedAt
  }

  /**
   * What an append leaves of a history in time order, told by its members: a
   * snapshot that is there already, by revision or by time, changes nothing;
   * any other joins it, and only what is older than 24 h, or than all the
   * newest 5,760, goes.
   */
  lemma AppendLaw(h: seq<Entry>, e: Entry, now: U64)
    requires Increasing(h)
    ensures var r := Append(h, e, now);
      if exists x :: x in h && SameSnapshot(x, e) then r == h
      else
        && Increasing(r) && |r| <= 5_760
        && (forall x :: x in r ==> (x in h || x == e) && now - x.value.observedAt <= 86_400_000)
        && (forall x :: (x in h || x == e) && x !in r ==> MayGo(x, r, now))
  {
    KnownIsSame(h, e);
    if !Known(h, e.revision, e.value) { AppendJoins(h, e, now); }
  }

  /** Too old, or older than all of the newest 5,760. */
  ghost predicate MayGo(x: Entry, r: seq<Entry>, now: U64) {
    || now - x.value.observedAt > 86_400_000
    || (|r| == 5_760 && forall y :: y in r ==> x.value.observedAt < y.value.observedAt)
  }

  lemma AppendJoins(h: seq<Entry>, e: Entry, now: U64)
    requires Increasing(h) && !Known(h, e.revision, e.value)
    ensures var r := Append(h, e, now);
      && Increasing(r) && |r| <= 5_760
      && (forall x :: x in r ==> (x in h || x == e) && now - x.value.observedAt <= 86_400_000)
      && (forall x :: (x in h || x == e) && x !in r ==> MayGo(x, r, now))
  {
    AppendKeepsHistory(h, e, now);
    InsertedIncreasing(h, e);
    InsertedMembers(h, e);
    CutMembers(Inserted(h, e), Append(h, e, now), now);
  }

  lemma KnownIsSame(h: seq<Entry>, e: Entry)
    ensures Known(h, e.revision, e.value) <==> exists x :: x in h && SameSnapshot(x, e)
  {
    if x :| x in h && SameSnapshot(x, e) {
      var i :| 0 <= i < |h| && h[i] == x;
    } else {
      forall i | 0 <= i < |h| ensures !SameSnapshot(h[i], e) { assert h[i] in h; }
    }
  }

  lemma InsertedMembers(h: seq<Entry>, e: Entry)
    ensures forall x :: x in Inserted(h, e) <==> x in h || x == e
  {
    var p := Position(h, e.value.observedAt);
    assert h == h[..p] + h[p..];
  }

  lemma CutMembers(all: seq<Entry>, r: seq<Entry>, now: U64)
    requires Increasing(all) && |r| <= |all| && r == all[|all| - |r|..] && |r| <= MAX_HISTORY_SNAPSHOTS
    requires forall i :: 0 <= i < |all| - |r| ==>
      all[i].value.observedAt < SatSub(now, DISK_RETENTION_MS) || |all| - i > MAX_HISTORY_SNAPSHOTS
    ensures forall x :: x in r ==> x in all
    ensures forall x :: x in all && x !in r ==> MayGo(x, r, now)
  {
    var cut := |all| - |r|;
    forall x | x in all && x !in r ensures MayGo(x, r, now) {
      assert all == all[..cut] + r;
      var i :| 0 <= i < cut && all[..cut][i] == x;
      if |r| < MAX_HISTORY_SNAPSHOTS { assert all[cut - 1].value.observedAt < SatSub(now, DISK_RETENTION_MS); }
    }
  }

  lemma InsertedIncreasing(h: seq<Entry>, e: Entry)
    requires Increasing(h) && !Known(h, e.revision, e.value)
    ensures Increasing(Inserted(h, e))
  {
    var p, r := Position(h, e.value.observedAt), Inserted(h, e);
    assert forall i :: 0 <= i < |h| ==> h[i].value.observedAt != e.value.observedAt;
    forall i, j | 0 <= i < j < |r| ensures r[i].value.observedAt < r[j].value.observedAt {
      assert forall k :: p <= k < |h| ==> e.value.observedAt < h[k].value.observedAt;
    }
  }

  /** Trimming cuts from the front only, and no more than it must. */
  lemma {:induction false} TrimIsSuffix(h: seq<Entry>, cutoff: U64) returns (k: nat)
    requires Increasing(h)
    ensures k <= |h| && Trim(h, cutoff) == h[k..]
    ensures |h| - k <= MAX_HISTORY_SNAPSHOTS
    ensures forall i :: k <= i < |h| ==> h[i].value.observedAt >= cutoff
    ensures forall i :: 0 <= i < k ==> h[i].value.observedAt < cutoff || |h| - i > MAX_HISTORY_SNAPSHOTS
  {
    if Excess(h, cutoff) {
      var j := TrimIsSuffix(h[1..], cutoff);
      k := j + 1;
      assert h[1..][j..] == h[k..];
      forall i | 0 <= i < k ensures h[i].value.observedAt < cutoff || |h| - i > MAX_HISTORY_SNAPSHOTS {
        if i > 0 { assert h[i] == h[1..][i - 1]; }
      }
      forall i | k <= i < |h| ensures h[i].value.observedAt >= cutoff {
        assert h[i] == h[1..][i - 1];
      }
    } else {
      k := 0;
      if h != [] { assert forall i :: 0 < i < |h| ==> h[0].value.observedAt < h[i].value.observedAt; }
    }
  }

  /**
   * A history stays strictly increasing. Whenever something is appended it
   * afterwards has at most 5,760 entries, none older than 24 h, and what was
   * dropped is a prefix: too old, or too far back.
   */
  lemma AppendKeepsHistory(h: seq<Entry>, e: Entry, now: U64)
    requires Increasing(h)
    ensures Increasing(Append(h, e, now))
    ensures !Known(h, e.revision, e.value) ==>
      var r, all := Append(h, e, now), Inserted(h, e);
      && |r| <= MAX_HISTORY_SNAPSHOTS
      && (forall i :: 0 <= i < |r| ==> r[i].value.observedAt >= SatSub(now, DISK_RETENTION_MS))
      && |r| <= |all| && r == all[|all| - |r|..]
      && forall i :: 0 <= i < |all| - |r| ==>
           all[i].value.observedAt < SatSub(now, DISK_RETENTION_MS) || |all| - i > MAX_HISTORY_SNAPSHOTS
  {
    if !Known(h, e.revision, e.value) {
      InsertedIncreasing(h, e);
      var k := TrimIsSuffix(Inserted(h, e), SatSub(now, DISK_RETENTION_MS));
    }
  }
}
