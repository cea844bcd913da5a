// The options-data coordinator: which chains are subscribed, which fetches
// are due, and what an answer changes.

module GexCoordinator {
  import opened Wrappers
  import opened UnixTime
  import opened Backoff
  import opened Powers
  import opened InFlight
  import opened GexChains
  import opened GexSnapshots
  import opened GexLanes
  import DeriveTrades
  import ProxyHistory

  const PROXY_REFRESH_MS: U64 := 300_000
  const DERIVE_INSTRUMENT_REFRESH_MS: U64 := 600_000
  const DERIVE_TRADE_REFRESH_MS: U64 := 5_000

  /** The fetch a subscribed chain needs, if any: metadata first, and nothing during a backoff. */
  function Need(u: Underlying, failures: map<Underlying, Failure>, instruments: map<Underlying, CachedInstruments>,
                raw: map<Underlying, CachedRaw>, force: set<Underlying>, now: U64): Option<FetchKind>
  {
    if u in failures && now < failures[u].retryAfter then None
    else if u !in instruments || SatSub(now, instruments[u].refreshedAt) >= INSTRUMENT_TTL_MS
      then Some(FetchInstruments(u))
    else if u in force || u !in raw || SatSub(now, raw[u].receivedAt) >= MARKET_SNAPSHOT_TTL_MS
      then Some(FetchSnapshot(u))
    else None
  }

  type Needs = map<Underlying, Option<FetchKind>>

  function NeedsOf(active: set<Underlying>, failures: map<Underlying, Failure>,
                   instruments: map<Underlying, CachedInstruments>, raw: map<Underlying, CachedRaw>,
                   force: set<Underlying>, now: U64): Needs
  {
    map u | u in active :: Need(u, failures, instruments, raw, force, now)
  }

  function Set(s: seq<FetchKind>): set<FetchKind> { set k | k in s }

  /** What has been handed out once only the chains in `todo` are left. */
  ghost predicate Handed(needs: Needs, before: set<FetchKind>, todo: set<Underlying>, due: seq<FetchKind>) {
    && (forall u :: u in needs && needs[u].Some? ==> needs[u].value.key == u)
    && (forall k :: k in due <==> k.key in needs && k.key !in todo && k !in before && needs[k.key] == Some(k))
    && forall i, j :: 0 <= i < j < |due| ==> due[i] != due[j]
  }

  function NotUnderWay(need: Option<FetchKind>, inFlight: set<FetchKind>): Option<FetchKind> {
    if need.Some? && need.value in inFlight then None else need
  }

  function Then(due: seq<FetchKind>, handed: Option<FetchKind>): seq<FetchKind> {
    if handed.Some? then due + [handed.value] else due
  }

  lemma HandedStart(needs: Needs, before: set<FetchKind>)
    requires forall u :: u in needs && needs[u].Some? ==> needs[u].value.key == u
    ensures Handed(needs, before, needs.Keys, []) && before == before + Set([])
  {
  }

  lemma HandedStep(needs: Needs, before: set<FetchKind>, todo: set<Underlying>, due: seq<FetchKind>, u: Underlying)
    requires Handed(needs, before, todo, due) && u in needs && u in todo
    ensures var handed := NotUnderWay(needs[u], before + Set(due));
      && Handed(needs, before, todo - {u}, Then(due, handed))
      && before + Set(Then(due, handed))
         == (if handed.Some? then before + Set(due) + {handed.value} else before + Set(due))
  {
    if needs[u].Some? && needs[u].value !in before {
      assert needs[u].value !in due;
      var due' := due + [needs[u].value];
      forall i, j | 0 <= i < j < |due'| ensures due'[i] != due'[j] {
        if j == |due| { assert due[i] in due; }
      }
      assert Set(due') == Set(due) + {needs[u].value};
    }
  }

  lemma {:induction false} DistinctBag(before: set<FetchKind>, due: seq<FetchKind>)
    requires forall i, j :: 0 <= i < j < |due| ==> due[i] != due[j]
    requires forall k :: k in due ==> k !in before
    ensures multiset(before + Set(due)) == multiset(before) + multiset(due)
  {
    if due == [] {
      assert before + Set(due) == before;
    } else {
      var k, rest := due[|due| - 1], due[..|due| - 1];
      assert due == rest + [k];
      DistinctBag(before, rest);
      assert k !in before + Set(rest);
      HandOut(before + Set(rest), k);
      assert before + Set(due) == before + Set(rest) + {k};
    }
  }

  /** The option chains: their consumers, their metadata and snapshots, and the fetches for both. */
  class Chains {
    var instruments: map<Underlying, CachedInstruments>
    var inFlight: set<FetchKind>
    var failures: map<Underlying, Failure>
    var subscribers: map<Underlying, nat>
    var forceRefresh: set<Underlying>
    const snapshots: SnapshotStore

    /** Every fetch handed out and not yet answered. */
    ghost var outstanding: multiset<FetchKind>
    ghost var streaks: map<Underlying, Streak>

    ghost predicate Valid()
      reads this, snapshots
    {
      InFlightValid() && BackoffValid() && MetadataValid() && snapshots.Valid()
    }

    ghost predicate InFlightValid()
      reads this`outstanding, this`inFlight
    {
      outstanding == multiset(inFlight)
    }

    ghost predicate BackoffValid()
      reads this`failures, this`streaks
    {
      Tracked(failures, streaks)
    }

    ghost predicate MetadataValid()
      reads this`instruments
    {
      forall u :: u in instruments ==> instruments[u].values != []
    }

    constructor (gexAt: Calculation, persistent: bool, stored: seq<(Underlying, RawChain)>)
      ensures Valid() && fresh(this) && fresh(snapshots) && inFlight == {} && subscribers == map[]
      ensures snapshots.rawSnapshots == HeldFrom(stored)
      ensures forall u :: u in snapshots.rawSnapshots <==> StoredFilled(stored, u)
    {
      snapshots := new SnapshotStore(gexAt, persistent, stored);
      instruments, inFlight, failures, subscribers, forceRefresh := map[], {}, map[], map[], {};
      outstanding, streaks := multiset{}, map[];
    }

    predicate Active(u: Underlying)
      reads this`subscribers
    {
      u in subscribers && subscribers[u] > 0
    }

    function ActiveSet(): (r: set<Underlying>)
      reads this`subscribers
      ensures forall u :: u in r <==> Active(u)
    {
      set u | u in subscribers && subscribers[u] > 0
    }

    /** Counts the consumers of each chain; a chain that gains its first one is to be fetched at once. */
    method SetConsumers(consumers: seq<Underlying>) returns (woken: set<Underlying>)
      requires Valid()
      modifies this`subscribers, this`forceRefresh
      ensures Valid()
      ensures forall u :: u in subscribers <==> u in consumers
      ensures forall u :: u in subscribers ==> subscribers[u] == multiset(consumers)[u]
      ensures woken == set u | u in consumers && !old(Active(u))
      ensures forceRefresh == old(forceRefresh) + woken
    {
      var next: map<Underlying, nat> := map[];
      for i := 0 to |consumers|
        invariant forall u :: u in next <==> u in multiset(consumers[..i])
        invariant forall u :: u in next ==> next[u] == multiset(consumers[..i])[u] > 0
      {
        var u := consumers[i];
        assert consumers[..i + 1] == consumers[..i] + [u];
        next := next[u := (if u in next then next[u] else 0) + 1];
      }
      assert consumers[..|consumers|] == consumers;
      woken := set u | u in next && next[u] > 0 && !Active(u);
      forceRefresh := forceRefresh + woken;
      subscribers := next;
    }

    method Reconnect()
      requires Valid()
      modifies this`forceRefresh
      ensures Valid() && forceRefresh == old(forceRefresh) + ActiveSet()
    {
      forceRefresh := forceRefresh + ActiveSet();
    }

    function NeedOf(u: Underlying, now: U64): Option<FetchKind>
      reads this`failures, this`instruments, snapshots`rawSnapshots, this`forceRefresh
    {
      Need(u, failures, instruments, snapshots.rawSnapshots, forceRefresh, now)
    }

    predicate IsDue(k: FetchKind, now: U64)
      reads this`subscribers, this`failures, this`instruments, snapshots`rawSnapshots, this`forceRefresh
    {
      Active(k.key) && NeedOf(k.key, now) == Some(k)
    }

    method TryHandOut(u: Underlying, now: U64) returns (handed: Option<FetchKind>)
      requires InFlightValid()
      modifies this`inFlight, this`outstanding
      ensures InFlightValid()
      ensures handed == NotUnderWay(NeedOf(u, now), old(inFlight))
      ensures inFlight == if handed.Some? then old(inFlight) + {handed.value} else old(inFlight)
      ensures outstanding == if handed.Some? then old(outstanding) + multiset{handed.value} else old(outstanding)
    {
      handed := None;
      if u in failures && now < failures[u].retryAfter { return; }
      var instrumentsDue := u !in instruments || SatSub(now, instruments[u].refreshedAt) >= INSTRUMENT_TTL_MS;
      var force := u in forceRefresh;
      var raw := snapshots.rawSnapshots;
      var rawDue := u !in raw || SatSub(now, raw[u].receivedAt) >= MARKET_SNAPSHOT_TTL_MS;
      var kind :=
        if instrumentsDue then Some(FetchInstruments(u))
        else if force || rawDue then Some(FetchSnapshot(u))
        else None;
      if kind.Some? && kind.value !in inFlight {
        HandOut(inFlight, kind.value);
        inFlight := inFlight + {kind.value};
        outstanding := outstanding + multiset{kind.value};
        handed := kind;
      }
    }

    ghost predicate MetadataOld(u: Underlying, now: U64)
      reads this`instruments
    {
      u !in instruments || now - instruments[u].refreshedAt >= 600_000
    }

    /**
     * What a subscribed chain outside its backoff is to fetch: metadata that
     * are missing or ten minutes old, and else a snapshot that is forced, missing
     * or 15 s old. Being forced does not get past the backoff.
     */
    ghost predicate Wanted(k: FetchKind, now: U64)
      reads this`subscribers, this`streaks, this`instruments, snapshots`rawSnapshots, this`forceRefresh
    {
      && Active(k.key) && !BackingOff(streaks, k.key, now)
      && match k
         case FetchInstruments(u) => MetadataOld(u, now)
         case FetchSnapshot(u) =>
           && !MetadataOld(u, now)
           && (|| u in forceRefresh || u !in snapshots.rawSnapshots
               || now - snapshots.rawSnapshots[u].receivedAt >= 15_000)
    }

    lemma DueIsWanted(k: FetchKind, now: U64)
      requires Valid()
      ensures IsDue(k, now) <==> Wanted(k, now)
    {
    }

    /** Exactly the fetches that are wanted and not under way are handed out, each once, in some order. */
    method DueFetches(now: U64, online: bool) returns (due: seq<FetchKind>)
      requires Valid()
      modifies this`inFlight, this`outstanding
      ensures Valid()
      ensures forall k :: k in due <==> online && k !in old(inFlight) && Wanted(k, now)
      ensures forall k :: k in inFlight <==> k in old(inFlight) || (online && Wanted(k, now))
      ensures forall i, j :: 0 <= i < j < |due| ==> due[i] != due[j]
      ensures outstanding == old(outstanding) + multiset(due)
    {
      due := [];
      if online {
        due := HandOutAll(now);
        forall k ensures IsDue(k, now) <==> Wanted(k, now) { DueIsWanted(k, now); }
      }
    }

    ghost function NeedsOfActive(now: U64): Needs
      reads this`subscribers, this`failures, this`instruments, snapshots`rawSnapshots, this`forceRefresh
    {
      NeedsOf(ActiveSet(), failures, instruments, snapshots.rawSnapshots, forceRefresh, now)
    }

    method HandOutAll(now: U64) returns (due: seq<FetchKind>)
      requires InFlightValid()
      modifies this`inFlight, this`outstanding
      ensures InFlightValid()
      ensures Handed(NeedsOfActive(now), old(inFlight), {}, due)
      ensures inFlight == old(inFlight) + Set(due)
      ensures outstanding == old(outstanding) + multiset(due)
    {
      due := [];
      var todo := ActiveSet();
      ghost var needs := NeedsOfActive(now);
      HandedStart(needs, inFlight);
      assert needs.Keys == todo;
      while todo != {}
        invariant InFlightValid() && todo <= needs.Keys
        invariant Handed(needs, old(inFlight), todo, due) && inFlight == old(inFlight) + Set(due)
        decreases |todo|
      {
        var u :| u in todo;
        due := HandOutNext(u, now, due, needs, old(inFlight), todo);
        todo := todo - {u};
      }
      DistinctBag(old(inFlight), due);
    }

    method HandOutNext(u: Underlying, now: U64, due: seq<FetchKind>,
                       ghost needs: Needs, ghost before: set<FetchKind>, ghost todo: set<Underlying>)
      returns (due': seq<FetchKind>)
      requires InFlightValid() && inFlight == before + Set(due)
      requires Handed(needs, before, todo, due) && u in needs && u in todo && needs[u] == NeedOf(u, now)
      modifies this`inFlight, this`outstanding
      ensures InFlightValid() && inFlight == before + Set(due')
      ensures Handed(needs, before, todo - {u}, due')
    {
      HandedStep(needs, before, todo, due, u);
      var handed := TryHandOut(u, now);
      due' := Then(due, handed);
    }

    /**
     * Whatever is due respects the backoff, forced or not: after n failures
     * in a row nothing is handed out for min(5 s * 2^(n-1), 120 s). A snapshot is
     * asked for only with metadata at hand that is not empty and under ten
     * minutes old.
     */
    lemma DueIsLawful(k: FetchKind, now: U64)
      requires Valid() && IsDue(k, now)
      ensures k.key in streaks ==>
        && streaks[k.key].count > 0
        && var delay := Min(FAILURE_BACKOFF_BASE_MS * Pow2(streaks[k.key].count - 1), FAILURE_BACKOFF_MAX_MS);
           now >= SatAdd(streaks[k.key].at, delay)
      ensures k.FetchSnapshot? ==>
        && k.key in instruments && instruments[k.key].values != []
        && now < instruments[k.key].refreshedAt + INSTRUMENT_TTL_MS
    {
    }

    method Answer(k: FetchKind)
      requires InFlightValid()
      modifies this`inFlight, this`outstanding
      ensures InFlightValid() && inFlight == old(inFlight) - {k} && outstanding == old(outstanding) - multiset{k}
    {
      Answered(inFlight, k);
      inFlight := inFlight - {k};
      outstanding := outstanding - multiset{k};
    }

    method RecordFailure(u: Underlying, error: string, now: U64)
      requires BackoffValid()
      modifies this`failures, this`streaks
      ensures BackoffValid() && streaks == Longer(old(streaks), u, now)
      ensures u in failures && failures[u].lastError == error
    {
      FailureTracked(failures, streaks, u, error, now, CHAIN_MAX_EXPONENT);
      failures := failures[u := Next(failures, u, error, now, CHAIN_MAX_EXPONENT)];
      streaks := Longer(streaks, u, now);
    }

    method ClearFailure(u: Underlying)
      requires BackoffValid()
      modifies this`failures, this`streaks
      ensures BackoffValid() && streaks == old(streaks) - {u}
    {
      SuccessTracked(failures, streaks, u);
      failures, streaks := failures - {u}, streaks - {u};
    }

    method CompleteInstruments(u: Underlying, result: Answer<seq<int>>, now: U64)
      requires Valid()
      modifies this`inFlight, this`outstanding, this`instruments, this`failures, this`streaks, this`forceRefresh
      ensures Valid()
      ensures inFlight == old(inFlight) - {FetchInstruments(u)}
        && outstanding == old(outstanding) - multiset{FetchInstruments(u)}
      ensures result.Ok? && result.value != [] ==>
        && instruments == old(instruments)[u := CachedInstruments(result.value, now)]
        && streaks == old(streaks) - {u} && forceRefresh == old(forceRefresh) + {u}
      ensures result.Err? || result.value == [] ==>
        && instruments == old(instruments) && forceRefresh == old(forceRefresh)
        && streaks == Longer(old(streaks), u, now) && u in failures
        && failures[u].lastError == if result.Ok? then "empty instrument metadata" else result.error
    {
      Answer(FetchInstruments(u));
      if result.Ok? && result.value != [] {
        StoreInstruments(u, result.value, now);
      } else {
        RecordFailure(u, if result.Ok? then "empty instrument metadata" else result.error, now);
      }
    }

    method StoreInstruments(u: Underlying, values: seq<int>, now: U64)
      requires MetadataValid() && BackoffValid() && values != []
      modifies this`instruments, this`failures, this`streaks, this`forceRefresh
      ensures MetadataValid() && BackoffValid()
      ensures instruments == old(instruments)[u := CachedInstruments(values, now)]
      ensures streaks == old(streaks) - {u} && forceRefresh == old(forceRefresh) + {u}
    {
      instruments := instruments[u := CachedInstruments(values, now)];
      ClearFailure(u);
      forceRefresh := forceRefresh + {u};
    }

    /** A snapshot that is not empty is stored and ends the failures; anything else is one more. */
    method Settle(u: Underlying, result: Answer<RawChain>, now: U64)
      requires BackoffValid() && snapshots.Valid()
      modifies this`failures, this`streaks
      modifies snapshots`rawSnapshots, snapshots`derivedSnapshots, snapshots`nextRevision
      ensures BackoffValid() && snapshots.Valid()
      ensures result.Ok? && result.value.contracts != [] ==>
        && snapshots.rawSnapshots
           == old(snapshots.rawSnapshots)[u := CachedRaw(result.value, now, old(snapshots.nextRevision), false)]
        && snapshots.derivedSnapshots == WithoutChain(old(snapshots.derivedSnapshots), u)
        && streaks == old(streaks) - {u}
      ensures result.Err? || result.value.contracts == [] ==>
        && snapshots.rawSnapshots == old(snapshots.rawSnapshots)
        && snapshots.derivedSnapshots == old(snapshots.derivedSnapshots)
        && streaks == Longer(old(streaks), u, now) && u in failures
        && failures[u].lastError == if result.Ok? then "empty option chain" else result.error
    {
      if result.Ok? && result.value.contracts != [] {
        snapshots.Store(u, result.value, now);
        ClearFailure(u);
      } else {
        RecordFailure(u, if result.Ok? then "empty option chain" else result.error, now);
      }
    }

    /** The request is over, and the chain need not be fetched out of turn any more. */
    method EndSnapshot(u: Underlying)
      requires Valid()
      modifies this`inFlight, this`outstanding, this`forceRefresh
      ensures Valid()
      ensures inFlight == old(inFlight) - {FetchSnapshot(u)}
        && outstanding == old(outstanding) - multiset{FetchSnapshot(u)}
      ensures forceRefresh == old(forceRefresh) - {u}
    {
      Answer(FetchSnapshot(u));
      forceRefresh := forceRefresh - {u};
    }

    /** A snapshot that is not empty takes the place of the one held; anything else is a failure. */
    method CompleteSnapshot(u: Underlying, result: Answer<RawChain>, now: U64)
      requires Valid()
      modifies this`inFlight, this`outstanding, this`failures, this`streaks, this`forceRefresh
      modifies snapshots`rawSnapshots, snapshots`derivedSnapshots, snapshots`nextRevision
      ensures Valid()
      ensures inFlight == old(inFlight) - {FetchSnapshot(u)}
        && outstanding == old(outstanding) - multiset{FetchSnapshot(u)}
      ensures forceRefresh == old(forceRefresh) - {u}
      ensures result.Ok? && result.value.contracts != [] ==>
        && snapshots.rawSnapshots
           == old(snapshots.rawSnapshots)[u := CachedRaw(result.value, now, old(snapshots.nextRevision), false)]
        && snapshots.derivedSnapshots == WithoutChain(old(snapshots.derivedSnapshots), u)
        && streaks == old(streaks) - {u}
      ensures result.Err? || result.value.contracts == [] ==>
        && snapshots.rawSnapshots == old(snapshots.rawSnapshots)
        && snapshots.derivedSnapshots == old(snapshots.derivedSnapshots)
        && streaks == Longer(old(streaks), u, now) && u in failures
        && failures[u].lastError == if result.Ok? then "empty option chain" else result.error
    {
      EndSnapshot(u);
      Settle(u, result, now);
    }
  }

  datatype TradeRequest = TradeRequest(u: Underlying, from: U64, to: U64)

  /** What the disk cache holds of each source's trades, in time order. */
  type Disk = Underlying -> seq<DeriveTrades.MakerTrade>

  /** What is known of one source's trades. */
  datatype Account = Account(trades: seq<DeriveTrades.MakerTrade>, watermark: Option<U64>, stale: bool, loaded: bool)
  {
    /** The disk is read once; what it has takes the place of what was held, and is stale. */
    function Read(stored: seq<DeriveTrades.MakerTrade>): Account {
      if loaded then this
      else if stored == [] then this.(loaded := true)
      else Account(stored, DeriveTrades.Watermark(None, stored), true, true)
    }
  }

  /** The whole coordinator: the chains, and the three lanes fetched beside them. */
  class GexDataCoordinator {
    const chains: Chains
    const proxy: Lane
    const metadata: Lane
    const trades: Lane

    var proxyHistory: map<Underlying, seq<ProxyHistory.Point>>
    var proxyStale: set<Underlying>
    var deriveInstruments: map<Underlying, seq<int>>
    var deriveTrades: map<Underlying, seq<DeriveTrades.MakerTrade>>
    var deriveWatermarks: map<Underlying, U64>
    var deriveStale: set<Underlying>
    var deriveLoaded: set<Underlying>

    const persistent: bool

    ghost predicate Valid()
      reads this, chains, chains.snapshots, proxy, metadata, trades
    {
      && proxy != metadata && proxy != trades && metadata != trades
      && chains.Valid() && proxy.Valid() && metadata.Valid() && trades.Valid()
      && proxy.refreshMs == 300_000 && metadata.refreshMs == 600_000 && trades.refreshMs == 5_000
      && forall u :: u in deriveInstruments ==> deriveInstruments[u] != []
    }

    /** Raw chains and proxy histories are read from disk at once, trades when they are first needed. */
    constructor (gexAt: Calculation, persistent: bool, stored: seq<(Underlying, RawChain)>,
                 proxies: map<Underlying, seq<ProxyHistory.Point>>)
      ensures Valid() && fresh(this) && fresh(chains) && fresh(chains.snapshots) && fresh(proxy) && fresh(metadata)
        && fresh(trades)
      ensures chains.snapshots.rawSnapshots == HeldFrom(stored)
      ensures forall u :: u in chains.snapshots.rawSnapshots <==> StoredFilled(stored, u)
      ensures proxyStale == proxyHistory.Keys == set u | persistent && u in proxies && proxies[u] != []
      ensures forall u :: u in proxyHistory ==> proxyHistory[u] == proxies[u]
    {
      this.persistent := persistent;
      chains := new Chains(gexAt, persistent, stored);
      proxy := new Lane(PROXY_REFRESH_MS);
      metadata := new Lane(DERIVE_INSTRUMENT_REFRESH_MS);
      trades := new Lane(DERIVE_TRADE_REFRESH_MS);
      proxyHistory := map u | persistent && u in proxies && proxies[u] != [] :: proxies[u];
      proxyStale := set u | persistent && u in proxies && proxies[u] != [];
      deriveInstruments, deriveTrades, deriveWatermarks := map[], map[], map[];
      deriveStale, deriveLoaded := {}, {};
    }

    function AccountOf(u: Underlying): Account
      reads this`deriveTrades, this`deriveWatermarks, this`deriveStale, this`deriveLoaded
    {
      Account(if u in deriveTrades then deriveTrades[u] else [],
              if u in deriveWatermarks then Some(deriveWatermarks[u]) else None,
              u in deriveStale, u in deriveLoaded)
    }

    function AccountRead(u: Underlying, disk: Disk): Account
      reads this`deriveTrades, this`deriveWatermarks, this`deriveStale, this`deriveLoaded
    {
      if persistent then AccountOf(u).Read(disk(u)) else AccountOf(u)
    }

    /** The account of a source once the disk has been read for `us`. */
    function AfterRead(us: set<Underlying>, u: Underlying, disk: Disk): Account
      reads this`deriveTrades, this`deriveWatermarks, this`deriveStale, this`deriveLoaded
    {
      if u in us then AccountRead(u, disk) else AccountOf(u)
    }

    method EnsureDeriveLoaded(u: Underlying, disk: Disk)
      modifies this`deriveLoaded, this`deriveTrades, this`deriveWatermarks, this`deriveStale
      ensures AccountOf(u) == old(AccountRead(u, disk))
      ensures persistent && u !in old(deriveLoaded) && disk(u) != [] ==>
        AccountOf(u) == Account(disk(u), Some(disk(u)[|disk(u)| - 1].timestamp), true, true)
      ensures !persistent || u in old(deriveLoaded) ==> AccountOf(u) == old(AccountOf(u))
      ensures persistent && u !in old(deriveLoaded) && disk(u) == [] ==>
        AccountOf(u) == old(AccountOf(u)).(loaded := true)
      ensures forall v :: v != u ==> AccountOf(v) == old(AccountOf(v))
    {
      if !persistent || u in deriveLoaded { return; }
      deriveLoaded := deriveLoaded + {u};
      var values := disk(u);
      if values == [] { return; }
      deriveWatermarks := deriveWatermarks[u := values[|values| - 1].timestamp];
      deriveTrades := deriveTrades[u := values];
      deriveStale := deriveStale + {u};
    }

    method LoadAll(us: set<Underlying>, disk: Disk)
      modifies this`deriveLoaded, this`deriveTrades, this`deriveWatermarks, this`deriveStale
      ensures forall u :: AccountOf(u) == old(AfterRead(us, u, disk))
    {
      var todo := us;
      while todo != {}
        invariant todo <= us
        invariant forall u :: AccountOf(u) == old(AfterRead(us - todo, u, disk))
        decreases |todo|
      {
        var u :| u in todo;
        EnsureDeriveLoaded(u, disk);
        todo := todo - {u};
      }
    }

    method ForceLanes(us: set<Underlying>)
      requires proxy.Valid() && metadata.Valid() && trades.Valid()
      requires proxy != metadata && proxy != trades && metadata != trades
      modifies proxy`force, metadata`force, trades`force
      ensures proxy.Valid() && metadata.Valid() && trades.Valid()
      ensures proxy.force == old(proxy.force) + us && metadata.force == old(metadata.force) + us
        && trades.force == old(trades.force) + us
    {
      proxy.Force(us);
      metadata.Force(us);
      trades.Force(us);
    }

    /** Forces the lanes of sources and looks for their trades on disk. */
    method Wake(us: set<Underlying>, disk: Disk)
      requires proxy.Valid() && metadata.Valid() && trades.Valid()
      requires proxy != metadata && proxy != trades && metadata != trades
      modifies proxy`force, metadata`force, trades`force
      modifies this`deriveLoaded, this`deriveTrades, this`deriveWatermarks, this`deriveStale
      ensures proxy.Valid() && metadata.Valid() && trades.Valid()
      ensures proxy.force == old(proxy.force) + us && metadata.force == old(metadata.force) + us
        && trades.force == old(trades.force) + us
      ensures forall u :: AccountOf(u) == old(AfterRead(us, u, disk))
    {
      LoadAll(us, disk);
      ForceLanes(us);
    }

    /** A chain that gains its first consumer is forced in every lane at once. */
    method SetConsumers(consumers: seq<Underlying>, disk: Disk) returns (ghost woken: set<Underlying>)
      requires Valid()
      modifies chains`subscribers, chains`forceRefresh, proxy`force, metadata`force, trades`force
      modifies this`deriveLoaded, this`deriveTrades, this`deriveWatermarks, this`deriveStale
      ensures Valid()
      ensures forall u :: chains.Active(u) <==> u in consumers
      ensures woken == set u | u in consumers && !old(chains.Active(u))
      ensures chains.forceRefresh == old(chains.forceRefresh) + woken
      ensures proxy.force == old(proxy.force) + woken && metadata.force == old(metadata.force) + woken
        && trades.force == old(trades.force) + woken
      ensures forall u :: AccountOf(u) == old(AfterRead(woken, u, disk))
    {
      var us := chains.SetConsumers(consumers);
      Wake(us, disk);
      woken := us;
    }

    method Reconnect()
      requires Valid()
      modifies chains`forceRefresh, proxy`force, metadata`force, trades`force
      ensures Valid()
      ensures var active := chains.ActiveSet();
        && chains.forceRefresh == old(chains.forceRefresh) + active && proxy.force == old(proxy.force) + active
        && metadata.force == old(metadata.force) + active && trades.force == old(trades.force) + active
    {
      chains.Reconnect();
      ForceLanes(chains.ActiveSet());
    }

    method DueProxyFetches(now: U64, online: bool) returns (due: seq<Underlying>)
      requires Valid()
      modifies proxy`inFlight, proxy`outstanding
      ensures Valid()
      ensures forall u :: u in due <==> online && chains.Active(u) && u !in old(proxy.inFlight) && proxy.Wanted(u, now)
      ensures proxy.outstanding == old(proxy.outstanding) + multiset(due)
    {
      due := proxy.Due(chains.ActiveSet(), now, online);
    }

    method DueDeriveInstrumentFetches(now: U64, online: bool, disk: Disk) returns (due: seq<Underlying>)
      requires Valid()
      modifies metadata`inFlight, metadata`outstanding
      modifies this`deriveLoaded, this`deriveTrades, this`deriveWatermarks, this`deriveStale
      ensures Valid()
      ensures forall u :: AccountOf(u) == old(AfterRead(if online then chains.ActiveSet() else {}, u, disk))
      ensures forall u :: u in due <==>
        online && chains.Active(u) && u !in old(metadata.inFlight) && metadata.Wanted(u, now)
      ensures metadata.outstanding == old(metadata.outstanding) + multiset(due)
    {
      if online { LoadAll(chains.ActiveSet(), disk); }
      due := metadata.Due(chains.ActiveSet(), now, online);
    }

    function ProxyOf(u: Underlying): seq<ProxyHistory.Point>
      reads this`proxyHistory
    {
      if u in proxyHistory then proxyHistory[u] else []
    }

    /** Trades are asked for only where there is metadata, from a little before the watermark up to now. */
    method DueDeriveTradeFetches(now: U64, online: bool, disk: Disk) returns (due: seq<TradeRequest>)
      requires Valid()
      modifies trades`inFlight, trades`outstanding
      modifies this`deriveLoaded, this`deriveTrades, this`deriveWatermarks, this`deriveStale
      ensures Valid()
      ensures forall u :: AccountOf(u) == old(AfterRead(if online then chains.ActiveSet() else {}, u, disk))
      ensures forall q :: q in due <==>
        && online && chains.Active(q.u) && q.u in deriveInstruments && q.u !in old(trades.inFlight)
        && trades.Wanted(q.u, now)
        && q.to == now && q.from == match AccountOf(q.u).watermark
           case Some(w) => Max(w - 10_000, 0)
           case None => Max(now - 7_200_000, 0)
      ensures multiset(trades.inFlight) == old(multiset(trades.inFlight)) + multiset(Sources(due))
    {
      if online { LoadAll(chains.ActiveSet(), disk); }
      due := BuildRequests(now, online);
    }

    method BuildRequests(now: U64, online: bool) returns (due: seq<TradeRequest>)
      requires Valid()
      modifies trades`inFlight, trades`outstanding
      ensures Valid()
      ensures forall q :: q in due <==>
        && online && chains.Active(q.u) && q.u in deriveInstruments && q.u !in old(trades.inFlight)
        && trades.Wanted(q.u, now)
        && q.to == now && q.from == match AccountOf(q.u).watermark
           case Some(w) => Max(w - 10_000, 0)
           case None => Max(now - 7_200_000, 0)
      ensures multiset(trades.inFlight) == old(multiset(trades.inFlight)) + multiset(Sources(due))
    {
      var candidates := set u | u in chains.ActiveSet() && u in deriveInstruments && deriveInstruments[u] != [];
      var us := trades.Due(candidates, now, online);
      due := [];
      for i := 0 to |us|
        invariant Valid() && |due| == i && Sources(due) == us[..i]
        invariant forall q :: q in due <==>
          q.u in us[..i] && q == TradeRequest(q.u, DeriveTrades.RequestFrom(AccountOf(q.u).watermark, now), now)
      {
        var q := TradeRequest(us[i], DeriveTrades.RequestFrom(AccountOf(us[i]).watermark, now), now);
        assert us[..i + 1] == us[..i] + [us[i]];
        assert (due + [q])[..i] == due;
        due := due + [q];
      }
      assert us[..|us|] == us;
    }

    /** A stale answer does not touch a history there already is; any other is merged into it. */
    method CompleteProxy(u: Underlying, result: Answer<(seq<ProxyHistory.Point>, bool)>, now: U64)
      requires Valid()
      modifies this`proxyHistory, this`proxyStale, proxy
      ensures Valid()
      ensures proxy.inFlight == old(proxy.inFlight) - {u} && proxy.outstanding == old(proxy.outstanding) - multiset{u}
      ensures proxy.streaks == if result.Ok? then old(proxy.streaks) - {u} else Longer(old(proxy.streaks), u, now)
      ensures proxy.force == old(proxy.force) - {u}
      ensures proxyStale ==
        if result.Err? then old(proxyStale)
        else if result.value.1 then old(proxyStale) + {u}
        else old(proxyStale) - {u}
      ensures if result.Ok? && !(result.value.1 && old(ProxyOf(u)) != [])
        then proxyHistory == old(proxyHistory)[u := ProxyHistory.Normalize(old(ProxyOf(u)) + result.value.0, now)]
        else proxyHistory == old(proxyHistory)
    {
      proxy.Complete(u, if result.Ok? then None else Some(result.error), now);
      if result.Ok? {
        var (points, stale) := result.value;
        if !(stale && ProxyOf(u) != []) {
          proxyHistory := proxyHistory[u := ProxyHistory.Normalize(ProxyOf(u) + points, now)];
        }
        proxyStale := if stale then proxyStale + {u} else proxyStale - {u};
      }
    }

    /** Metadata that is not empty is stored and makes a trade fetch due at once; empty metadata is a failure. */
    method CompleteDeriveInstruments(u: Underlying, result: Answer<seq<int>>, now: U64)
      requires Valid()
      modifies this`deriveInstruments, metadata, trades`force
      ensures Valid()
      ensures metadata.force == old(metadata.force) - {u}
      ensures metadata.inFlight == old(metadata.inFlight) - {u}
        && metadata.outstanding == old(metadata.outstanding) - multiset{u}
      ensures if result.Ok? && result.value != []
        then && deriveInstruments == old(deriveInstruments)[u := result.value]
             && trades.force == old(trades.force) + {u}
             && metadata.streaks == old(metadata.streaks) - {u}
        else && deriveInstruments == old(deriveInstruments) && trades.force == old(trades.force)
             && metadata.streaks == Longer(old(metadata.streaks), u, now)
    {
      if result.Ok? && result.value != [] {
        metadata.Complete(u, None, now);
        deriveInstruments := deriveInstruments[u := result.value];
        trades.Force({u});
      } else {
        metadata.Complete(u, Some(if result.Ok? then "empty Derive instrument metadata" else result.error), now);
      }
    }

    /** Merges newly fetched trades into the retained ones; the watermark follows the newest of them. */
    method StoreTrades(u: Underlying, values: seq<DeriveTrades.MakerTrade>, now: U64)
      returns (merged: seq<DeriveTrades.MakerTrade>)
      modifies this`deriveTrades, this`deriveWatermarks, this`deriveStale
      ensures DeriveTrades.Retained(DeriveTrades.ById(old(AccountOf(u)).trades + values), now, merged)
      ensures AccountOf(u) == old(AccountOf(u)).(
        trades := merged, watermark := DeriveTrades.Watermark(old(AccountOf(u)).watermark, merged), stale := false)
      ensures forall v :: v != u ==> AccountOf(v) == old(AccountOf(v))
    {
      merged := DeriveTrades.MergeTrades(AccountOf(u).trades, values, now);
      if merged != [] { deriveWatermarks := deriveWatermarks[u := merged[|merged| - 1].timestamp]; }
      deriveTrades := deriveTrades[u := merged];
      deriveStale := deriveStale - {u};
    }

    /** A successful answer is merged into the retained trades, and the watermark follows the newest of them. */
    method CompleteDeriveTrades(u: Underlying, result: Answer<seq<DeriveTrades.MakerTrade>>, now: U64)
      requires Valid()
      modifies this`deriveTrades, this`deriveWatermarks, this`deriveStale, trades
      ensures Valid()
      ensures trades.inFlight == old(trades.inFlight) - {u}
        && trades.outstanding == old(trades.outstanding) - multiset{u}
      ensures trades.force == old(trades.force) - {u}
      ensures trades.streaks == if result.Ok? then old(trades.streaks) - {u} else Longer(old(trades.streaks), u, now)
      ensures result.Ok? ==>
        var merged := AccountOf(u).trades;
        && DeriveTrades.Retained(DeriveTrades.ById(old(AccountOf(u)).trades + result.value), now, merged)
        && AccountOf(u) == old(AccountOf(u)).(
             trades := merged, watermark := DeriveTrades.Watermark(old(AccountOf(u)).watermark, merged), stale := false)
      ensures forall v :: v != u || result.Err? ==> AccountOf(v) == old(AccountOf(v))
    {
      trades.Complete(u, if result.Ok? then None else Some(result.error), now);
      if result.Ok? { var merged := StoreTrades(u, result.value, now); }
    }
  }

  function Sources(due: seq<TradeRequest>): (r: seq<Underlying>)
    ensures |r| == |due| && forall i :: 0 <= i < |r| ==> r[i] == due[i].u
  {
    seq(|due|, i requires 0 <= i < |due| => due[i].u)
  }
}
