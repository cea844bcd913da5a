// What the options-data coordinator keeps of each option chain: the raw
// snapshot, the snapshots derived from it and their histories. Clock, disk
// contents and the gamma calculation come from outside.

module GexChains {
  import opened Wrappers
  import opened UnixTime
  import opened Sorting
  import opened Backoff
  import opened GexHistory

  const INSTRUMENT_TTL_MS: U64 := 600_000
  const MARKET_SNAPSHOT_TTL_MS: U64 := 15_000
  const CHAIN_MAX_EXPONENT: nat := 8

  datatype FetchKind = FetchInstruments(key: Underlying) | FetchSnapshot(key: Underlying)

  datatype Answer<T> = Ok(value: T) | Err(error: string)

  datatype RawChain = RawChain(observedAt: U64, contracts: seq<int>)

  datatype CachedInstruments = CachedInstruments(values: seq<int>, refreshedAt: U64)
  datatype CachedRaw = CachedRaw(value: RawChain, receivedAt: U64, revision: U64, loadedFromDisk: bool)

  /** The settings the calculation is keyed by; `others` are the rest of a chart's configuration. */
  datatype Settings = Settings(model: int, expiry: int, minOiBits: U64, minGexBits: U64, gammaSource: int,
    resolution: int)
  datatype Config = Config(settings: Settings, others: int)

  datatype SeriesKey = SeriesKey(chain: Underlying, settings: Settings)
  datatype DerivedKey = DerivedKey(series: SeriesKey, revision: U64)

  type Calculation = (RawChain, Config, U64) -> Snapshot

  /** The value is what the calculation gives for this raw chain, under some configuration with these settings. */
  ghost predicate ComputedFrom(gexAt: Calculation, value: Snapshot, raw: RawChain, settings: Settings) {
    exists c: Config, t: U64 :: c.settings == settings && value == gexAt(raw, c, t)
  }

  function WithoutChain(memo: map<DerivedKey, Snapshot>, u: Underlying): (r: map<DerivedKey, Snapshot>)
    ensures forall k :: k in r <==> k in memo && k.series.chain != u
    ensures forall k :: k in r ==> r[k] == memo[k]
  {
    map k | k in memo && k.series.chain != u :: memo[k]
  }

  /** Every entry belongs to the raw snapshot that is held for its chain, and was computed from it. */
  ghost predicate MemoMatches(gexAt: Calculation, memo: map<DerivedKey, Snapshot>, raw: map<Underlying, CachedRaw>) {
    forall k :: k in memo ==>
      && k.series.chain in raw && k.revision == raw[k.series.chain].revision
      && ComputedFrom(gexAt, memo[k], raw[k.series.chain].value, k.series.settings)
  }

  /** How many of the stored chains are not empty. */
  function Filled(stored: seq<(Underlying, RawChain)>): nat {
    if stored == [] then 0 else Filled(Front(stored)) + if Last(stored).1.contracts == [] then 0 else 1
  }

  /** What is held of the stored chains: of each source the last that is not empty, with the next revision. */
  function HeldFrom(stored: seq<(Underlying, RawChain)>): map<Underlying, CachedRaw> {
    if stored == [] then map[]
    else
      var held, (u, chain) := HeldFrom(Front(stored)), Last(stored);
      if chain.contracts == [] then held
      else held[u := CachedRaw(chain, chain.observedAt, Min(Filled(Front(stored)) + 1, U64_MAX), true)]
  }

  ghost predicate StoredFilled(stored: seq<(Underlying, RawChain)>, u: Underlying) {
    exists chain :: (u, chain) in stored && chain.contracts != []
  }

  lemma FilledSnoc(stored: seq<(Underlying, RawChain)>, u: Underlying)
    requires stored != []
    ensures StoredFilled(stored, u) <==>
      StoredFilled(Front(stored), u) || (Last(stored).0 == u && Last(stored).1.contracts != [])
  {
    assert stored == Front(stored) + [Last(stored)];
    if Last(stored).0 == u && Last(stored).1.contracts != [] { assert (u, Last(stored).1) in stored; }
  }

  /** Exactly the sources with a stored chain that is not empty have one. */
  lemma {:induction false} HeldSources(stored: seq<(Underlying, RawChain)>, u: Underlying)
    ensures u in HeldFrom(stored) <==> StoredFilled(stored, u)
    ensures u in HeldFrom(stored) ==>
      var c := HeldFrom(stored)[u];
      LastFilled(stored, u, c.value) && c.receivedAt == c.value.observedAt && c.loadedFromDisk
  {
    if stored != [] {
      HeldSources(Front(stored), u);
      FilledSnoc(stored, u);
      if u in HeldFrom(stored) { LastFilledSnoc(stored, u, HeldFrom(stored)[u].value); }
    }
  }

  /** The chain is the last of the source's that is not empty. */
  ghost predicate LastFilled(stored: seq<(Underlying, RawChain)>, u: Underlying, chain: RawChain) {
    exists i :: 0 <= i < |stored| && stored[i] == (u, chain) && chain.contracts != []
      && forall j :: i < j < |stored| && stored[j].0 == u ==> stored[j].1.contracts == []
  }

  lemma LastFilledSnoc(stored: seq<(Underlying, RawChain)>, u: Underlying, chain: RawChain)
    requires stored != []
    requires if Last(stored).0 == u && Last(stored).1.contracts != [] then Last(stored).1 == chain
             else LastFilled(Front(stored), u, chain)
    ensures LastFilled(stored, u, chain)
  {
    if Last(stored).0 == u && Last(stored).1.contracts != [] {
      assert stored[|stored| - 1] == (u, chain);
    } else {
      var front := Front(stored);
      var i :| 0 <= i < |front| && front[i] == (u, chain) && chain.contracts != []
        && forall j :: i < j < |front| && front[j].0 == u ==> front[j].1.contracts == [];
      assert stored[i] == (u, chain);
      assert forall j :: i < j < |front| ==> stored[j] == front[j];
    }
  }

  /** No two of them share a revision. */
  lemma {:induction false} HeldRevisions(stored: seq<(Underlying, RawChain)>)
    requires Filled(stored) <= U64_MAX
    ensures forall u :: u in HeldFrom(stored) ==> 1 <= HeldFrom(stored)[u].revision <= Filled(stored)
    ensures forall u, v :: u in HeldFrom(stored) && v in HeldFrom(stored) && u != v ==>
      HeldFrom(stored)[u].revision != HeldFrom(stored)[v].revision
  {
    if stored != [] { HeldRevisions(Front(stored)); }
  }

  function FromDisk(stored: seq<Snapshot>): seq<Entry> {
    if stored == [] then [] else FromDisk(Front(stored)) + [Entry(0, Last(stored))]
  }

  function EntryTime(e: Entry): int { e.value.observedAt }

  /** What the disk holds for a series, in order, one snapshot for each time. */
  function LoadedHistory(stored: seq<Snapshot>): seq<Entry> {
    DedupByKey(SortByKey(FromDisk(stored), EntryTime), EntryTime)
  }

  ghost predicate Missing(stored: seq<Snapshot>, time: int) {
    forall j :: 0 <= j < |stored| ==> stored[j].observedAt != time
  }

  /** The first stored snapshot of its time. */
  ghost predicate FirstStored(v: Snapshot, stored: seq<Snapshot>) {
    exists i :: 0 <= i < |stored| && stored[i] == v && forall j :: 0 <= j < i ==> stored[j].observedAt != v.observedAt
  }

  lemma FirstStoredSnoc(v: Snapshot, stored: seq<Snapshot>)
    requires stored != []
    ensures FirstStored(v, stored) <==>
      || FirstStored(v, Front(stored))
      || (v == Last(stored) && Missing(Front(stored), v.observedAt))
  {
    var front := Front(stored);
    assert forall j :: 0 <= j < |front| ==> stored[j] == front[j];
    if FirstStored(v, front) {
      var i :| 0 <= i < |front| && front[i] == v && forall j :: 0 <= j < i ==> front[j].observedAt != v.observedAt;
      assert stored[i] == v;
    }
    if v == Last(stored) { assert stored[|stored| - 1] == v; }
  }

  lemma MissingSnoc(stored: seq<Snapshot>, time: int)
    requires stored != []
    ensures Missing(stored, time) <==> Missing(Front(stored), time) && Last(stored).observedAt != time
  {
    assert forall j :: 0 <= j < |stored| - 1 ==> stored[j] == Front(stored)[j];
  }

  lemma {:induction false} DiskGroup(stored: seq<Snapshot>, time: int)
    ensures var g := Group(FromDisk(stored), EntryTime, time);
      && (g == [] <==> Missing(stored, time))
      && (g != [] ==> g[0].revision == 0 && g[0].value.observedAt == time && FirstStored(g[0].value, stored))
  {
    if stored != [] {
      var front := Front(stored);
      DiskGroup(front, time);
      MissingSnoc(stored, time);
      GroupSnoc(FromDisk(front), Entry(0, Last(stored)), EntryTime, time);
      var g := Group(FromDisk(front), EntryTime, time);
      FirstStoredSnoc(if g == [] then Last(stored) else g[0].value, stored);
    }
  }

  /**
   * What is loaded of a series: at every stored time the first snapshot
   * stored for it, in order, and nothing else.
   */
  lemma LoadedLaw(stored: seq<Snapshot>, time: int)
    ensures Increasing(LoadedHistory(stored))
    ensures var g := Group(LoadedHistory(stored), EntryTime, time);
      if Missing(stored, time) then g == []
      else |g| == 1 && g[0].revision == 0 && g[0].value.observedAt == time && FirstStored(g[0].value, stored)
  {
    LoadedIncreasing(stored);
    DiskGroup(stored, time);
    SortByKeySorted(FromDisk(stored), EntryTime);
    SortByKeyStable(FromDisk(stored), EntryTime, time);
    DedupKeepsFirst(SortByKey(FromDisk(stored), EntryTime), EntryTime, time);
  }

  lemma LoadedIncreasing(stored: seq<Snapshot>)
    ensures Increasing(LoadedHistory(stored))
  {
    var r := LoadedHistory(stored);
    SortByKeySorted(FromDisk(stored), EntryTime);
    DedupStrict(SortByKey(FromDisk(stored), EntryTime), EntryTime);
    forall i, j | 0 <= i < j < |r| ensures r[i].value.observedAt < r[j].value.observedAt {
      assert EntryTime(r[i]) < EntryTime(r[j]);
    }
  }
}

/** The raw snapshots, the memo of what was derived from them, and the histories. */
module GexSnapshots {
  import opened Wrappers
  import opened UnixTime
  import opened Sorting
  import opened Backoff
  import opened GexChains
  import opened GexHistory

  function HistoryIn(h: map<SeriesKey, seq<Entry>>, k: SeriesKey): seq<Entry> {
    if k in h then h[k] else []
  }

  /** Histories are strictly increasing, and none is begun before what the disk holds has been read. */
  ghost predicate Orderly(h: map<SeriesKey, seq<Entry>>, loaded: set<SeriesKey>, persistent: bool) {
    forall k :: k in h ==> Increasing(h[k]) && (persistent ==> k in loaded)
  }

  lemma OpeningKeepsOrder(h: map<SeriesKey, seq<Entry>>, loaded: set<SeriesKey>, k: SeriesKey, entries: seq<Entry>)
    requires Orderly(h, loaded, true) && k !in loaded && Increasing(entries)
    ensures HistoryIn(h, k) + entries == entries
    ensures Orderly(h[k := entries], loaded + {k}, true)
  {
    assert HistoryIn(h, k) == [];
  }

  lemma Overwritten(h: map<SeriesKey, seq<Entry>>, k: SeriesKey, a: seq<Entry>, b: seq<Entry>)
    ensures h[k := a][k := b] == h[k := b]
  {
  }

  class SnapshotStore {
    var rawSnapshots: map<Underlying, CachedRaw>
    var derivedSnapshots: map<DerivedKey, Snapshot>
    var derivedHistory: map<SeriesKey, seq<Entry>>
    var loadedHistory: set<SeriesKey>
    var nextRevision: U64

    /** The gamma calculation, and whether there is a disk cache to read histories from. */
    const gexAt: Calculation
    const persistent: bool

    ghost predicate Valid()
      reads this
    {
      && MemoMatches(gexAt, derivedSnapshots, rawSnapshots)
      && Orderly(derivedHistory, loadedHistory, persistent)
    }

    constructor (gexAt: Calculation, persistent: bool, stored: seq<(Underlying, RawChain)>)
      ensures Valid() && fresh(this)
      ensures rawSnapshots == HeldFrom(stored) && nextRevision == Min(Filled(stored) + 1, U64_MAX)
      ensures forall u :: u in rawSnapshots <==> StoredFilled(stored, u)
      ensures Filled(stored) < U64_MAX ==>
        && (forall u :: u in rawSnapshots ==> rawSnapshots[u].revision < nextRevision)
        && forall u, v :: u in rawSnapshots && v in rawSnapshots && u != v ==>
          rawSnapshots[u].revision != rawSnapshots[v].revision
    {
      this.gexAt, this.persistent := gexAt, persistent;
      derivedSnapshots, derivedHistory, loadedHistory := map[], map[], {};
      rawSnapshots, nextRevision := map[], 1;
      new;
      for i := 0 to |stored|
        invariant fresh(this) && Valid() && derivedSnapshots == map[]
        invariant rawSnapshots == HeldFrom(stored[..i]) && nextRevision == Min(Filled(stored[..i]) + 1, U64_MAX)
      {
        assert Front(stored[..i + 1]) == stored[..i];
        var (u, chain) := stored[i];
        if chain.contracts != [] {
          rawSnapshots := rawSnapshots[u := CachedRaw(chain, chain.observedAt, nextRevision, true)];
          nextRevision := SatAdd(nextRevision, 1);
        }
      }
      assert stored[..|stored|] == stored;
      forall u ensures u in rawSnapshots <==> StoredFilled(stored, u) { HeldSources(stored, u); }
      if Filled(stored) < U64_MAX { HeldRevisions(stored); }
    }

    /** A new raw snapshot takes a new revision, and no memo entry of its chain survives it. */
    method Store(u: Underlying, value: RawChain, now: U64)
      requires Valid()
      modifies this`rawSnapshots, this`derivedSnapshots, this`nextRevision
      ensures Valid()
      ensures rawSnapshots == old(rawSnapshots)[u := CachedRaw(value, now, old(nextRevision), false)]
      ensures nextRevision == SatAdd(old(nextRevision), 1)
      ensures derivedSnapshots == WithoutChain(old(derivedSnapshots), u)
    {
      rawSnapshots := rawSnapshots[u := CachedRaw(value, now, nextRevision, false)];
      nextRevision := SatAdd(nextRevision, 1);
      derivedSnapshots := WithoutChain(derivedSnapshots, u);
    }

    /** What the disk holds of a series is read before anything is appended, and the first time only. */
    method EnsureHistoryLoaded(k: SeriesKey, stored: seq<Snapshot>)
      requires Orderly(derivedHistory, loadedHistory, persistent)
      modifies this`derivedHistory, this`loadedHistory
      ensures Orderly(derivedHistory, loadedHistory, persistent)
      ensures loadedHistory == if persistent then old(loadedHistory) + {k} else old(loadedHistory)
      ensures derivedHistory ==
        if persistent && k !in old(loadedHistory) then old(derivedHistory)[k := LoadedHistory(stored)]
        else old(derivedHistory)
    {
      if k in loadedHistory || !persistent { return; }
      LoadedIncreasing(stored);
      OpeningKeepsOrder(derivedHistory, loadedHistory, k, LoadedHistory(stored));
      loadedHistory := loadedHistory + {k};
      derivedHistory := derivedHistory[k := HistoryIn(derivedHistory, k) + LoadedHistory(stored)];
    }

    method AppendTo(k: SeriesKey, e: Entry, now: U64)
      requires Orderly(derivedHistory, loadedHistory, persistent) && (persistent ==> k in loadedHistory)
      modifies this`derivedHistory
      ensures Orderly(derivedHistory, loadedHistory, persistent)
      ensures derivedHistory == old(derivedHistory)[k := Append(HistoryIn(old(derivedHistory), k), e, now)]
    {
      AppendKeepsHistory(HistoryIn(derivedHistory, k), e, now);
      var r := AppendHistory(HistoryIn(derivedHistory, k), e, now);
      derivedHistory := derivedHistory[k := r];
    }

    /**
     * The entry has joined the history of its series, which the disk began if
     * there is one and it had not been asked; no other history has changed.
     */
    ghost predicate Joined(was: map<SeriesKey, seq<Entry>>, loaded: set<SeriesKey>, k: SeriesKey,
                           stored: seq<Snapshot>, e: Entry, now: U64)
      reads this`derivedHistory, this`loadedHistory
    {
      && loadedHistory == (if persistent then loaded + {k} else loaded)
      && derivedHistory == was[k :=
           Append(Base(was, loaded, k, stored), e, now)]
    }

    /** What an entry of a series is appended to. */
    function Base(was: map<SeriesKey, seq<Entry>>, loaded: set<SeriesKey>, k: SeriesKey,
                  stored: seq<Snapshot>): seq<Entry> {
      if persistent && k !in loaded then LoadedHistory(stored) else HistoryIn(was, k)
    }

    /**
     * A derived snapshot always comes from the raw snapshot that is held; it
     * is computed once for each revision and remembered, and joins its history
     * when it is computed.
     */
    method Derived(u: Underlying, config: Config, now: U64, stored: seq<Snapshot>) returns (r: Option<Snapshot>)
      requires Valid()
      modifies this`derivedSnapshots, this`derivedHistory, this`loadedHistory
      ensures Valid()
      ensures r.Some? <==> u in rawSnapshots
      ensures r.Some? ==> ComputedFrom(gexAt, r.value, rawSnapshots[u].value, config.settings)
      ensures r.Some? ==>
        var series := SeriesKey(u, config.settings);
        var key := DerivedKey(series, rawSnapshots[u].revision);
        && derivedSnapshots == old(derivedSnapshots)[key := r.value]
        && if key in old(derivedSnapshots)
           then r.value == old(derivedSnapshots)[key] && unchanged(`derivedHistory, `loadedHistory)
           else r.value == gexAt(rawSnapshots[u].value, config, now)
                && Joined(old(derivedHistory), old(loadedHistory), series, stored,
                          Entry(rawSnapshots[u].revision, r.value), now)
    {
      if u !in rawSnapshots { return None; }
      var key := DerivedKey(SeriesKey(u, config.settings), rawSnapshots[u].revision);
      if key in derivedSnapshots {
        r := Some(derivedSnapshots[key]);
        assert derivedSnapshots == derivedSnapshots[key := r.value];
        return;
      }
      var value := Compute(u, config, now, stored);
      r := Some(value);
    }

    method Compute(u: Underlying, config: Config, now: U64, stored: seq<Snapshot>) returns (value: Snapshot)
      requires Valid() && u in rawSnapshots
      modifies this`derivedSnapshots, this`derivedHistory, this`loadedHistory
      ensures Valid()
      ensures value == gexAt(rawSnapshots[u].value, config, now)
      ensures ComputedFrom(gexAt, value, rawSnapshots[u].value, config.settings)
      ensures var series := SeriesKey(u, config.settings);
        && derivedSnapshots == old(derivedSnapshots)[DerivedKey(series, rawSnapshots[u].revision) := value]
        && Joined(old(derivedHistory), old(loadedHistory), series, stored,
                  Entry(rawSnapshots[u].revision, value), now)
    {
      var series := SeriesKey(u, config.settings);
      value := gexAt(rawSnapshots[u].value, config, now);
      assert ComputedFrom(gexAt, value, rawSnapshots[u].value, config.settings);
      derivedSnapshots := derivedSnapshots[DerivedKey(series, rawSnapshots[u].revision) := value];
      Join(series, stored, Entry(rawSnapshots[u].revision, value), now);
    }

    method Join(k: SeriesKey, stored: seq<Snapshot>, e: Entry, now: U64)
      requires Orderly(derivedHistory, loadedHistory, persistent)
      modifies this`derivedHistory, this`loadedHistory
      ensures Orderly(derivedHistory, loadedHistory, persistent)
      ensures Joined(old(derivedHistory), old(loadedHistory), k, stored, e, now)
    {
      ghost var was, base := derivedHistory, Base(derivedHistory, loadedHistory, k, stored);
      EnsureHistoryLoaded(k, stored);
      assert HistoryIn(derivedHistory, k) == base;
      AppendTo(k, e, now);
      Overwritten(was, k, base, Append(base, e, now));
    }

    /** Forgets every snapshot and history. */
    method InvalidatePersistent()
      requires Valid()
      modifies this`rawSnapshots, this`derivedSnapshots, this`derivedHistory, this`loadedHistory
      ensures Valid()
      ensures rawSnapshots == map[] && derivedSnapshots == map[] && derivedHistory == map[] && loadedHistory == {}
    {
      rawSnapshots, derivedSnapshots, derivedHistory, loadedHistory := map[], map[], map[], {};
    }
  }
}
