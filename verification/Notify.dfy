// Notifications: repeated toasts are hidden for a while, repeated errors for
// longer and longer, and what was hidden is reported with the next display.

module Dedupe {
  import opened Wrappers
  import opened UnixTime
  import opened Powers

  /** Nanoseconds of a monotone clock. */
  type Instant = nat

  const SECOND: nat := 1_000_000_000
  const ERROR_DEDUPE_BASE_WINDOW_SECS: nat := 30
  const ERROR_DEDUPE_MAX_WINDOW_SECS: nat := 300
  const DEFAULT_DEDUPE_WINDOW_SECS: nat := 10
  const DEDUPE_CACHE_TTL_SECS: nat := 300
  const MAX_LEVEL: nat := 5

  datatype Status = Primary | Secondary | Success | Danger | Warning
  datatype Toast = Toast(title: string, body: string, status: Status)

  /** A toast on the screen: its key, and how many retries it speaks of. */
  datatype Shown = Shown(key: Toast, retries: nat)

  datatype DedupeState = DedupeState(lastEmittedAt: Instant, lastSeenAt: Instant, suppressed: U32, level: nat)
  datatype Push = Push(toast: Toast, at: Instant)

  type Cache = map<Toast, DedupeState>

  function Decimal(n: nat): string {
    if n < 10 then ["0123456789"[n]] else Decimal(n / 10) + ["0123456789"[n % 10]]
  }

  /** The text on the screen. */
  function Render(s: Shown): Toast {
    if s.retries == 0 then s.key
    else
      var retries := if s.retries == 1 then "1 retry" else Decimal(s.retries) + " retries";
      Toast(s.key.title, s.key.body + " (still failing, " + retries + ")", s.key.status)
  }

  function Since(now: Instant, earlier: Instant): nat { if now >= earlier then now - earlier else 0 }

  function Window(t: Toast, level: nat): nat {
    if t.status == Danger
    then Min(ERROR_DEDUPE_BASE_WINDOW_SECS * Pow2(Min(level, MAX_LEVEL)), ERROR_DEDUPE_MAX_WINDOW_SECS) * SECOND
    else DEFAULT_DEDUPE_WINDOW_SECS * SECOND
  }

  /**
   * The cap on the level does not show: the n-th step of an error's window is
   * min(30 s * 2^n, 300 s); what is no error is hidden for ten seconds.
   */
  lemma WindowClosedForm(t: Toast, n: nat)
    ensures Window(t, Min(n, MAX_LEVEL))
      == (if t.status == Danger then Min(30 * Pow2(n), 300) else 10) * 1_000_000_000
    ensures Window(t, n) <= 300_000_000_000
  {
    assert Pow2(0) == 1 && Pow2(1) == 2 && Pow2(2) == 4 && Pow2(3) == 8 && Pow2(4) == 16 && Pow2(5) == 32;
    if n > 5 { Pow2Monotone(5, n); }
  }

  // ------------------------------------------------- the text on the screen

  /** The number a row of digits spells. */
  ghost function Value(digits: string): nat {
    if digits == "" then 0
    else
      var d := digits[|digits| - 1] as int - '0' as int;
      10 * Value(digits[..|digits| - 1]) + if d >= 0 then d else 0
  }

  lemma {:induction false} DecimalSpells(n: nat)
    ensures Value(Decimal(n)) == n
  {
    var s := Decimal(n);
    var digit := n % 10;
    assert s[|s| - 1] == "0123456789"[digit] && "0123456789"[digit] as int - '0' as int == digit;
    if n < 10 {
      assert s[..|s| - 1] == "";
    } else {
      DecimalSpells(n / 10);
      assert s[..|s| - 1] == Decimal(n / 10);
    }
  }

  /** The body, then the number of retries. */
  lemma RenderedBody(s: Shown)
    requires s.retries > 0
    ensures Render(s).title == s.key.title && Render(s).status == s.key.status
    ensures s.retries == 1 ==> Render(s).body == s.key.body + " (still failing, 1 retry)"
    ensures s.retries > 1 ==>
      Render(s).body == (s.key.body + " (still failing, ") + Decimal(s.retries) + " retries)"
  {
    var start := s.key.body + " (still failing, ";
    assert s.retries > 1 ==>
      start + (Decimal(s.retries) + " retries") + ")" == start + Decimal(s.retries) + " retries)";
    assert s.retries == 1 ==> start + "1 retry" + ")" == s.key.body + " (still failing, 1 retry)";
  }

  /** The text tells the number of retries: two displays of one toast read alike only when it is the same. */
  lemma TextTellsRetries(a: Shown, b: Shown)
    requires a.key == b.key && Render(a) == Render(b)
    ensures a.retries == b.retries
  {
    if a.retries > 0 { RenderedBody(a); }
    if b.retries > 0 { RenderedBody(b); }
    if a.retries > 1 && b.retries > 1 {
      var start, end := a.key.body + " (still failing, ", " retries)";
      var text := Render(a).body;
      assert text[|start|..|text| - |end|] == Decimal(a.retries);
      assert text[|start|..|text| - |end|] == Decimal(b.retries);
      DecimalSpells(a.retries);
      DecimalSpells(b.retries);
    } else if a.retries > 0 && b.retries > 0 {
      var text := Render(a).body;
      assert text[|text| - 2] == (if a.retries == 1 then 'y' else 's');
      assert text[|text| - 2] == (if b.retries == 1 then 'y' else 's');
    }
  }

  /** Entries not seen for a while are dropped; ages are compared in whole seconds. */
  function Prune(cache: Cache, now: Instant): (r: Cache)
    ensures forall k :: k in r ==> k in cache && r[k] == cache[k]
  {
    map k | k in cache && Since(now, cache[k].lastSeenAt) / SECOND <= DEDUPE_CACHE_TTL_SECS :: cache[k]
  }

  function Hide(s: DedupeState, now: Instant): DedupeState {
    s.(lastSeenAt := now, suppressed := SatInc32(s.suppressed))
  }

  /** An error that was hidden at least once is shown with its retries, and its window grows; else it starts over. */
  function Retried(t: Toast, s: DedupeState): bool { t.status == Danger && s.suppressed > 0 }

  function Repeat(t: Toast, s: DedupeState, now: Instant): DedupeState {
    DedupeState(now, now, 0, if Retried(t, s) then Min(s.level + 1, MAX_LEVEL) else 0)
  }

  predicate Hidden(pruned: Cache, p: Push) {
    p.toast in pruned && Since(p.at, pruned[p.toast].lastEmittedAt) < Window(p.toast, pruned[p.toast].level)
  }

  /** One push: the entry it leaves, and what it shows. */
  function After(pruned: Cache, p: Push): DedupeState {
    if p.toast !in pruned then DedupeState(p.at, p.at, 0, 0)
    else if Hidden(pruned, p) then Hide(pruned[p.toast], p.at)
    else Repeat(p.toast, pruned[p.toast], p.at)
  }

  function Display(pruned: Cache, p: Push): Option<Shown> {
    if Hidden(pruned, p) then None
    else
      var retried := p.toast in pruned && Retried(p.toast, pruned[p.toast]);
      Some(Shown(p.toast, if retried then pruned[p.toast].suppressed else 0))
  }

  // --------------------------------------------------------------- runs

  ghost predicate IsRun(cs: seq<Cache>, ps: seq<Push>) {
    && |cs| == |ps| + 1 && cs[0] == map[]
    && forall i :: 0 <= i < |ps| ==> Follows(cs[i], ps[i], cs[i + 1])
  }

  ghost predicate ClockForward(ps: seq<Push>) {
    forall i, j :: 0 <= i <= j < |ps| ==> ps[i].at <= ps[j].at
  }

  ghost predicate Follows(cache: Cache, p: Push, next: Cache) {
    next == Prune(cache, p.at)[p.toast := After(Prune(cache, p.at), p)]
  }

  ghost function ShownAt(cs: seq<Cache>, ps: seq<Push>, i: nat): Option<Shown>
    requires i < |ps| < |cs|
  {
    Display(Prune(cs[i], ps[i].at), ps[i])
  }

  /** Push `i` shows `k`, and no push from there up to `j` does again. */
  ghost predicate LastShown(cs: seq<Cache>, ps: seq<Push>, k: Toast, i: nat, j: nat) {
    && i < j <= |ps| < |cs| && ps[i].toast == k && ShownAt(cs, ps, i).Some?
    && forall m :: i < m < j && ps[m].toast == k ==> ShownAt(cs, ps, m).None?
  }

  /** The entry still knows the display, or a silence longer than any window has passed since. */
  ghost predicate Remembers(cache: Cache, k: Toast, at: Instant, level: nat, now: Instant) {
    if k in cache
    then cache[k].lastEmittedAt == at && cache[k].level == level && at <= cache[k].lastSeenAt <= now
    else now >= at + (DEDUPE_CACHE_TTL_SECS + 1) * SECOND
  }

  lemma LevelShown(cs: seq<Cache>, ps: seq<Push>, k: Toast, i: nat)
    requires IsRun(cs, ps) && i < |ps| && ps[i].toast == k && ShownAt(cs, ps, i).Some?
    ensures k in cs[i + 1] && cs[i + 1][k].lastEmittedAt == ps[i].at == cs[i + 1][k].lastSeenAt
  {
    assert Follows(cs[i], ps[i], cs[i + 1]);
  }

  lemma PruneRemembers(cache: Cache, k: Toast, at: Instant, level: nat, before: Instant, now: Instant)
    requires Remembers(cache, k, at, level, before) && before <= now
    ensures Remembers(Prune(cache, now), k, at, level, now)
  {
  }

  lemma {:induction false} RunRemembers(cs: seq<Cache>, ps: seq<Push>, k: Toast, i: nat, j: nat)
    requires IsRun(cs, ps) && ClockForward(ps) && LastShown(cs, ps, k, i, j)
    ensures k in cs[i + 1] && Remembers(cs[j], k, ps[i].at, cs[i + 1][k].level, ps[j - 1].at)
    decreases j
  {
    LevelShown(cs, ps, k, i);
    if j > i + 1 {
      RunRemembers(cs, ps, k, i, j - 1);
      PruneRemembers(cs[j - 1], k, ps[i].at, cs[i + 1][k].level, ps[j - 2].at, ps[j - 1].at);
      assert Follows(cs[j - 1], ps[j - 1], cs[j]);
      if ps[j - 1].toast == k { assert ShownAt(cs, ps, j - 1).None?; }
    }
  }

  /**
   * Until a toast is shown again, its pushes are hidden exactly while the
   * window in force after the display lasts, whether or not its entry has
   * been dropped in between.
   */
  lemma HiddenExactlyInWindow(cs: seq<Cache>, ps: seq<Push>, k: Toast, i: nat, j: nat)
    requires IsRun(cs, ps) && ClockForward(ps) && LastShown(cs, ps, k, i, j) && j < |ps| && ps[j].toast == k
    ensures k in cs[i + 1]
    ensures ShownAt(cs, ps, j).None? <==> ps[j].at - ps[i].at < Window(k, cs[i + 1][k].level)
  {
    RunRemembers(cs, ps, k, i, j);
    PruneRemembers(cs[j], k, ps[i].at, cs[i + 1][k].level, ps[j - 1].at, ps[j].at);
    WindowClosedForm(k, cs[i + 1][k].level);
  }

  /** Two displays in a row of one toast are at least the window apart that was in force after the first. */
  lemma DisplaysAreSpaced(cs: seq<Cache>, ps: seq<Push>, k: Toast, i: nat, j: nat)
    requires IsRun(cs, ps) && ClockForward(ps) && LastShown(cs, ps, k, i, j)
    requires j < |ps| && ps[j].toast == k && ShownAt(cs, ps, j).Some?
    ensures k in cs[i + 1] && ps[j].at - ps[i].at >= Window(k, cs[i + 1][k].level)
  {
    HiddenExactlyInWindow(cs, ps, k, i, j);
  }

  /** How many pushes after `i` and before `j` were of `k`. */
  function Between(ps: seq<Push>, k: Toast, i: nat, j: nat): nat
    requires i < j <= |ps|
    decreases j
  {
    if j == i + 1 then 0 else Between(ps, k, i, j - 1) + if ps[j - 1].toast == k then 1 else 0
  }

  lemma {:induction false} RunCounts(cs: seq<Cache>, ps: seq<Push>, k: Toast, i: nat, j: nat)
    requires IsRun(cs, ps) && LastShown(cs, ps, k, i, j)
    ensures k in cs[j] ==> cs[j][k].suppressed == Min(Between(ps, k, i, j), U32_MAX)
    decreases j
  {
    assert Follows(cs[j - 1], ps[j - 1], cs[j]);
    if j > i + 1 {
      RunCounts(cs, ps, k, i, j - 1);
      if ps[j - 1].toast == k { assert ShownAt(cs, ps, j - 1).None?; }
      HiddenStep(cs[j - 1], ps[j - 1], cs[j], k);
    }
  }

  lemma HiddenStep(cache: Cache, p: Push, next: Cache, k: Toast)
    requires Follows(cache, p, next)
    requires p.toast == k ==> Display(Prune(cache, p.at), p).None?
    ensures k in next ==>
      k in cache && next[k].suppressed == if p.toast == k then SatInc32(cache[k].suppressed) else cache[k].suppressed
  {
  }

  /** Push `m` is the last one of `k` before `j`. */
  ghost predicate LastPushed(ps: seq<Push>, k: Toast, m: nat, j: nat) {
    m < j <= |ps| && ps[m].toast == k && forall n :: m < n < j ==> ps[n].toast != k
  }

  /** An entry is there exactly until 301 whole seconds have passed since the last push of its toast. */
  lemma {:induction false} EntryKept(cs: seq<Cache>, ps: seq<Push>, k: Toast, m: nat, j: nat)
    requires IsRun(cs, ps) && ClockForward(ps) && LastPushed(ps, k, m, j)
    ensures k in cs[j] <==> (ps[j - 1].at - ps[m].at) / 1_000_000_000 <= 300
    ensures k in cs[j] ==> cs[j][k].lastSeenAt == ps[m].at
    decreases j
  {
    assert Follows(cs[j - 1], ps[j - 1], cs[j]);
    if j > m + 1 { EntryKept(cs, ps, k, m, j - 1); }
  }

  /**
   * The next display of an error reports exactly the pushes hidden since the
   * last one, as far as 32 bits count, and widens the window by one level if
   * there were any. After a silence of 301 whole seconds, and for everything
   * that is no error, it reports nothing and starts over at level zero.
   */
  lemma NextDisplayReports(cs: seq<Cache>, ps: seq<Push>, k: Toast, i: nat, m: nat, j: nat)
    requires IsRun(cs, ps) && ClockForward(ps) && LastShown(cs, ps, k, i, j)
    requires j < |ps| && ps[j].toast == k && ShownAt(cs, ps, j).Some? && LastPushed(ps, k, m, j)
    ensures k in cs[i + 1] && k in cs[j + 1]
    ensures
      var silent := (ps[j].at - ps[m].at) / 1_000_000_000 > 300;
      var hidden := if k.status == Danger && !silent then Between(ps, k, i, j) else 0;
      && ShownAt(cs, ps, j) == Some(Shown(k, Min(hidden, 4_294_967_295)))
      && cs[j + 1][k].level == if hidden > 0 then Min(cs[i + 1][k].level + 1, 5) else 0
  {
    EntryKept(cs, ps, k, m, j);
    RunCounts(cs, ps, k, i, j);
    RunRemembers(cs, ps, k, i, j);
    assert Follows(cs[j], ps[j], cs[j + 1]);
  }

  /** The first push of a toast is shown as it is, at level zero. */
  lemma {:induction false} FirstIsShown(cs: seq<Cache>, ps: seq<Push>, k: Toast, j: nat)
    requires IsRun(cs, ps) && j < |ps| && ps[j].toast == k && forall n :: 0 <= n < j ==> ps[n].toast != k
    ensures ShownAt(cs, ps, j) == Some(Shown(k, 0)) && k in cs[j + 1] && cs[j + 1][k].level == 0
  {
    NeverPushed(cs, ps, k, j);
    assert Follows(cs[j], ps[j], cs[j + 1]);
  }

  lemma {:induction false} NeverPushed(cs: seq<Cache>, ps: seq<Push>, k: Toast, j: nat)
    requires IsRun(cs, ps) && j <= |ps| && forall n :: 0 <= n < j ==> ps[n].toast != k
    ensures k !in cs[j]
  {
    if j > 0 {
      NeverPushed(cs, ps, k, j - 1);
      assert Follows(cs[j - 1], ps[j - 1], cs[j]);
    }
  }

  // -------------------------------------------------------- conservation

  /** What happened to one toast: how often it was pushed and shown, the retries reported, and those not counted. */
  datatype Tally = Tally(pushes: nat, displays: nat, retries: nat, lost: nat)

  /** One more push; a hidden one is lost when it finds the counter full. */
  ghost function Add(t: Tally, cache: Cache, p: Push, k: Toast): Tally {
    if p.toast != k then t
    else
      match Display(Prune(cache, p.at), p)
      case Some(shown) => t.(pushes := t.pushes + 1, displays := t.displays + 1, retries := t.retries + shown.retries)
      case None =>
        var full := k in cache && cache[k].suppressed == U32_MAX;
        t.(pushes := t.pushes + 1, lost := t.lost + if full then 1 else 0)
  }

  /** The tally of the pushes from `i` up to `j`. */
  ghost function Count(cs: seq<Cache>, ps: seq<Push>, k: Toast, i: nat, j: nat): Tally
    requires i <= j <= |ps| < |cs|
    decreases j
  {
    if i == j then Tally(0, 0, 0, 0) else Add(Count(cs, ps, k, i, j - 1), cs[j - 1], ps[j - 1], k)
  }

  ghost predicate Balanced(t: Tally, suppressed: U32) {
    && t.displays > 0
    && t.pushes == t.displays + t.retries + suppressed + t.lost
    && (t.lost > 0 ==> t.pushes > U32_MAX + 1)
  }

  lemma AddBalances(t: Tally, cache: Cache, p: Push, k: Toast)
    requires k.status == Danger && k in Prune(cache, p.at) && Balanced(t, cache[k].suppressed)
    ensures var next := Prune(cache, p.at)[p.toast := After(Prune(cache, p.at), p)];
      k in next && Balanced(Add(t, cache, p, k), next[k].suppressed)
  {
  }

  /** Push `i` makes the entry of `k`, and no push up to `j` finds it dropped. */
  ghost predicate Kept(cs: seq<Cache>, ps: seq<Push>, k: Toast, i: nat, j: nat) {
    && i < j <= |ps| < |cs| && ps[i].toast == k && k !in Prune(cs[i], ps[i].at)
    && forall m :: i < m < j ==> k in Prune(cs[m], ps[m].at)
  }

  lemma {:induction false} RunBalances(cs: seq<Cache>, ps: seq<Push>, k: Toast, i: nat, j: nat)
    requires IsRun(cs, ps) && Kept(cs, ps, k, i, j) && k.status == Danger
    ensures k in cs[j] && Balanced(Count(cs, ps, k, i, j), cs[j][k].suppressed)
    decreases j
  {
    assert Follows(cs[j - 1], ps[j - 1], cs[j]);
    if j == i + 1 {
      assert Count(cs, ps, k, i, i) == Tally(0, 0, 0, 0);
    } else {
      RunBalances(cs, ps, k, i, j - 1);
      AddBalances(Count(cs, ps, k, i, j - 1), cs[j - 1], ps[j - 1], k);
    }
  }

  /**
   * While an error's entry is kept, every push of it is shown, reported,
   * still hidden, or lost to a full counter; and nothing is lost unless the
   * error was pushed more than 2^32 times.
   */
  lemma {:induction false} PushesAreConserved(cs: seq<Cache>, ps: seq<Push>, k: Toast, i: nat, j: nat)
    requires IsRun(cs, ps) && Kept(cs, ps, k, i, j) && k.status == Danger
    ensures k in cs[j]
    ensures var t := Count(cs, ps, k, i, j);
      && t.displays > 0 && t.pushes == t.displays + t.retries + cs[j][k].suppressed + t.lost
      && (t.lost > 0 ==> t.pushes > U32_MAX + 1)
  {
    RunBalances(cs, ps, k, i, j);
  }

  /** In a burst at one instant everything but the first is hidden, and what the counter cannot hold is lost. */
  lemma {:induction false} BurstLoses(cs: seq<Cache>, ps: seq<Push>, p: Push, j: nat)
    requires IsRun(cs, ps) && ClockForward(ps) && 0 < j <= |ps| && p.toast.status == Danger
    requires forall m :: 0 <= m < j ==> ps[m] == p
    ensures p.toast in cs[j] && cs[j][p.toast] == DedupeState(p.at, p.at, Min(j - 1, U32_MAX), 0)
    ensures Count(cs, ps, p.toast, 0, j).lost == Max(j - 1 - U32_MAX, 0)
  {
    assert Follows(cs[j - 1], ps[j - 1], cs[j]);
    WindowClosedForm(p.toast, 0);
    assert Pow2(0) == 1;
    if j == 1 {
      assert Count(cs, ps, p.toast, 0, 0) == Tally(0, 0, 0, 0);
    } else {
      BurstLoses(cs, ps, p, j - 1);
    }
  }
}

module Notify {
  import opened Wrappers
  import opened UnixTime
  import opened Dedupe

  /**
   * While the clock does not go back, a push is hidden exactly while the
   * window in force since the last display of its toast lasts.
   */
  ghost predicate RightlyShown(cs: seq<Cache>, ps: seq<Dedupe.Push>, shown: Option<Shown>)
    requires |cs| == |ps| + 1 && ps != []
  {
    var j, k := |ps| - 1, ps[|ps| - 1].toast;
    ClockForward(ps) ==> forall i: nat {:trigger LastShown(cs, ps, k, i, j)} :: LastShown(cs, ps, k, i, j) ==>
      && k in cs[i + 1]
      && (shown.None? <==> ps[j].at - ps[i].at < Window(k, cs[i + 1][k].level))
  }

  lemma RunGrows(cs: seq<Cache>, ps: seq<Dedupe.Push>, p: Dedupe.Push, next: Cache)
    requires IsRun(cs, ps) && Follows(cs[|ps|], p, next)
    ensures IsRun(cs + [next], ps + [p])
    ensures RightlyShown(cs + [next], ps + [p], Display(Prune(cs[|ps|], p.at), p))
  {
    var cs', ps', j := cs + [next], ps + [p], |ps|;
    assert IsRun(cs', ps');
    if ClockForward(ps') {
      forall i: nat | LastShown(cs', ps', p.toast, i, j)
        ensures p.toast in cs'[i + 1]
        ensures ShownAt(cs', ps', j).None? <==> ps'[j].at - ps'[i].at < Window(p.toast, cs'[i + 1][p.toast].level)
      {
        HiddenExactlyInWindow(cs', ps', p.toast, i, j);
      }
    }
  }

  class Notifications {
    var toasts: seq<Toast>
    var dedupeCache: Cache

    /** The life of the store: its caches, the first before any push, and the pushes. */
    ghost var caches: seq<Cache>
    ghost var pushes: seq<Dedupe.Push>

    ghost predicate Valid()
      reads this`dedupeCache, this`caches, this`pushes
    {
      IsRun(caches, pushes) && caches[|pushes|] == dedupeCache
    }

    constructor ()
      ensures Valid() && toasts == [] && pushes == []
    {
      toasts, dedupeCache := [], map[];
      caches, pushes := [map[]], [];
    }

    method PruneCache(now: Instant)
      modifies this`dedupeCache
      ensures dedupeCache == Prune(old(dedupeCache), now)
    {
      dedupeCache := map k | k in dedupeCache && Since(now, dedupeCache[k].lastSeenAt) / SECOND <= DEDUPE_CACHE_TTL_SECS
        :: dedupeCache[k];
    }

    /** The push enters the life of the store; what is shown is appended to the screen. */
    method Push(toast: Toast, now: Instant) returns (ghost shown: Option<Shown>)
      requires Valid()
      modifies this
      ensures Valid() && pushes == old(pushes) + [Dedupe.Push(toast, now)] && caches[..|old(caches)|] == old(caches)
      ensures shown == ShownAt(caches, pushes, |old(pushes)|) && RightlyShown(caches, pushes, shown)
      ensures toasts == if shown.Some? then old(toasts) + [Render(shown.value)] else old(toasts)
    {
      ghost var p := Dedupe.Push(toast, now);
      shown := Display(Prune(dedupeCache, now), p);
      Apply(toast, now);
      RunGrows(caches, pushes, p, dedupeCache);
      caches, pushes := caches + [dedupeCache], pushes + [p];
    }

    method Apply(toast: Toast, now: Instant)
      modifies this`toasts, this`dedupeCache
      ensures Follows(old(dedupeCache), Dedupe.Push(toast, now), dedupeCache)
      ensures var shown := Display(Prune(old(dedupeCache), now), Dedupe.Push(toast, now));
        toasts == if shown.Some? then old(toasts) + [Render(shown.value)] else old(toasts)
    {
      PruneCache(now);
      if toast in dedupeCache {
        var state := dedupeCache[toast];
        state := state.(lastSeenAt := now);
        if Since(now, state.lastEmittedAt) < Window(toast, state.level) {
          dedupeCache := dedupeCache[toast := state.(suppressed := SatInc32(state.suppressed))];
          return;
        }
        var retried := toast.status == Danger && state.suppressed > 0;
        var toShow := if retried then Render(Shown(toast, state.suppressed)) else toast;
        state := state.(level := if retried then Min(Min(state.level + 1, 255), MAX_LEVEL) else 0);
        dedupeCache := dedupeCache[toast := state.(lastEmittedAt := now, suppressed := 0)];
        toasts := toasts + [toShow];
      } else {
        dedupeCache := dedupeCache[toast := DedupeState(now, now, 0, 0)];
        toasts := toasts + [toast];
      }
    }

    method Remove(index: nat)
      modifies this`toasts
      ensures toasts == if index < |old(toasts)| then old(toasts)[..index] + old(toasts)[index + 1..] else old(toasts)
    {
      if index < |toasts| { toasts := toasts[..index] + toasts[index + 1..]; }
    }
  }
}
