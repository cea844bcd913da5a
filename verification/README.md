# A verified model of FlowSurface's stateful cores

This project models, in Dafny, the parts of the FlowSurface trading desktop
whose correctness depends on state kept over many events, and proves what they
promise. It covers the historical-fetch engine (which ranges may be fetched,
how trades are paged, which candles prove a range covered), the repair of
saved-state JSON and the template validator, the options-data coordinator, and
five smaller cores: comparison series, the debug terminal, stream connectivity,
tickers, and toast deduplication.

Functions on values are the specifications. Where the program changes things
in place, a class or a loop is proved to do what the specification says, and
the properties are then proved of the specification: over every input, every
run, or every reachable state. Hash-map iteration is an arbitrary order, the
clock is a parameter, and the network is any adapter that keeps its contract:
a non-empty response is every trade from the cursor up to the time of its last
one, and that time is not before the cursor.

| files | what they model |
|---|---|
| `Common.dfy` | options, saturating 64-bit milliseconds, stable sorting and deduplication |
| `Requests.dfy`, `RequestLaws.dfy`, `RequestHandler.dfy` | the request ledger as values, its theorems, what its operations mean for later calls, and the mutable handler |
| `Spans.dfy`, `TradeFilter.dfy`, `TradePaging.dfy` | coverage and gaps, the trade filter, the paging worker |
| `KlineCoverage.dfy`, `KlineStores.dfy` | coverage proved by candle responses, and the candles stored for it |
| `SavedState.dfy`, `SavedSpared.dfy`, `SavedWarnings.dfy`, `SavedRepair.dfy`, `Template.dfy` | JSON repair and its theorems, what it spares, when it warns, the repair in place; validator and decoded state |
| `GexLanes.dfy`, `GexSnapshots.dfy`, `GexCoordinator.dfy`, `GexHistory.dfy`, `ProxyHistory.dfy`, `DeriveTrades.dfy` | the options-data coordinator |
| `Comparison.dfy`, `DebugTerminal.dfy`, `Connectivity.dfy`, `Exchanges.dfy`, `Ticker.dfy`, `Notify.dfy` | the smaller cores |

Check it with `dafny verify dfyconfig.toml`.

## Where the code does something unexpected

- The exclusive end of a trade request saturates, so the last representable
  millisecond is never asked for; a run without a tail verifies its whole
  request exactly when the request ends before it
  (`TradePaging.FetchTradesBatched`, `TradePaging.LastMillisecondIsSkipped`).
- The generation counter wraps. A superseded request is told apart from a
  current one unless the number of supersedings since it was pending is a
  multiple of 2^64 (`LedgerTheorems.StaleUnlessFullCircle`,
  `LedgerTheorems.FullCircle`).
- A time-out found by an `add_request` call turns into a failure that blocks
  this very call, so after a silence the first of two calls may be turned away
  (`LedgerTheorems.AdmissionExact`, `LedgerTheorems.NeverBlockedForever`).
- A fetch that a request completed within the last 30 s contains can be refused
  instead of skipped: by a failure of its own bounds that still waits, when the
  scan meets that first (`LedgerLaws.CompletionSpares`,
  `LedgerLaws.WaitingMayRefuse`, `LedgerLaws.CompletionMayRefuse`).
- The repair changes some things without a warning: ratios out of range,
  missing names, settings, children and popout lists
  (`SavedWarnings.StateWarns`, `SavedWarnings.SilentChange`).
- Legacy gamma levels are dropped without a warning when `indicator_configs` is
  there but not an object (`SavedJsonTheorems.LegacyLevelsKept`).
- A forced refresh gets past the backoff of the proxy and Derive fetches, but
  not past that of the option chains (`GexLanes.Lane.DueRespectsBackoff`,
  `GexCoordinator.Chains.DueIsLawful`).
- The two-part ticker form drops the display symbol and cannot be read back
  when the symbol has a colon (`Tickers.PairRoundTrip`).
- The count of hidden error toasts saturates, so an aggregated toast can
  report too few retries (`Dedupe.BurstLoses`).
- With repeated tickers the comparison index points at the last of their series
  only (`Comparison.IndexIsExact`).

## Model

| member | source | states |
|---|---|---|
| `Ledger.RetryDelayMs` | src/connector/fetcher.rs:447-450 | the delay before a retry is at least 2.5 s and never more than 80 s, however often a request failed |
| `LedgerTheorems.SameWithIsEquality` | src/connector/fetcher.rs:1072-1112 | two requests describe the same fetch exactly when all their bounds and kinds agree |
| `LedgerTheorems.AddEffect` | src/connector/fetcher.rs:598-926 | whatever order the table is scanned in, a call that is turned away only ages the table and drops retryable failures of the fetch; an admitted one revives the superseded entry of this very fetch under its old id, or enters a fetch no entry describes |
| `LedgerTheorems.AdmissionExact` | src/connector/fetcher.rs:598-926 | a fetch is admitted if and only if it is valid, not recently found empty, and no entry obstructs it: no live or recently completed request that contains it, no failure of its bounds still waiting, none timing out in this call |
| `LedgerTheorems.AdmittedIsNotCovered` | src/connector/fetcher.rs:667-835 | an admitted fetch has its start before its end, is pending with the current generation, and no other pending request contains its range |
| `LedgerTheorems.StepKeepsInv` | src/connector/fetcher.rs:598-1017 | every operation keeps: no two entries for one fetch, all fetches valid, pending entries of the current generation |
| `LedgerTheorems.RunInvariant` | src/connector/fetcher.rs:469-1017 | that invariant holds after every run, and superseded entries are of an older generation as long as the counter has not wrapped |
| `LedgerTheorems.StaleIffGoneOrSuperseded` | src/connector/fetcher.rs:567-579 | in every reachable state an id is stale exactly when it is unknown or superseded (fewer than 2^64 supersedings) |
| `LedgerTheorems.StaleUnlessFullCircle` | src/connector/fetcher.rs:533-579 | after any run an id counts as stale if and only if it is unknown, or superseded and the number of supersedings since it was last pending is no multiple of 2^64; the wrapping counter is the only way to mistake it |
| `LedgerTheorems.FullCircle` | src/connector/fetcher.rs:533-579 | the failing runs exist: any pending request, superseded k times and not touched, is superseded and stale exactly when k is no multiple of 2^64 |
| `LedgerTheorems.EmptyRangeRests` | src/connector/fetcher.rs:421-445 | in every run with a forward clock a trade range noted empty is turned away for exactly 60 s after it was last noted, clean-ups included |
| `LedgerTheorems.CompletedIsFinal` | src/connector/fetcher.rs:469-531 | no operation changes a completed entry; it stays as it is until it is removed |
| `LedgerTheorems.RunTimes` | src/connector/fetcher.rs:469-529 | in a run with a forward clock no time stamp lies ahead of the clock and no retry more than 80 s behind its failure |
| `LedgerTheorems.NeverBlockedForever` | src/connector/fetcher.rs:598-926 | from any reachable state, of two calls for one valid fetch, 90 s and a further 80 s later, at least one is admitted |
| `LedgerLaws.RetryDelayClosedForm` | src/connector/fetcher.rs:447-450 | the n-th failure waits min(2.5 s * 2^(n-1), 80 s): the capped exponent does not show |
| `LedgerLaws.CleanupLaw` | src/connector/fetcher.rs:469-529 | entry by entry: a clean-up turns requests pending for 90 s into timed-out failures, drops successes after 30 s, failures after 300 s and superseded requests after 10 s, and leaves all others as they are |
| `LedgerLaws.CompleteLaw` | src/connector/fetcher.rs:928-969 | completing makes exactly the pending request of this id completed at this time |
| `LedgerLaws.BreakLaw` | src/connector/fetcher.rs:975-1017 | breaking makes exactly the pending or failed request of this id fail once more, with this error and its retry time |
| `LedgerLaws.SupersedeLaw` | src/connector/fetcher.rs:533-561 | superseding makes exactly the pending requests superseded and counts the generation up modulo 2^64 |
| `LedgerLaws.AnswerExplained` | src/connector/fetcher.rs:598-926 | every answer has its reason in the table before the call: a skip an invalid range, the note that the range is empty, or a live request or recent success that has the fetch; a refusal a failure of its bounds that still waits, whose error it gives; and the suppression noted is that reason |
| `LedgerLaws.AdmittedStartsAfresh` | src/connector/fetcher.rs:854-926 | what is admitted is pending as of now, of the current generation, without attempts |
| `LedgerLaws.AdmittedUnderId` | src/connector/fetcher.rs:854-926 | it has the given id and begins now, unless it takes up a superseded request of this fetch, which keeps its own id and age |
| `LedgerLaws.AddCleansUp` | src/connector/fetcher.rs:598-640 | of every other entry a call leaves what a clean-up leaves, but forgets failures of this fetch whose wait is over |
| `LedgerLaws.CompletedStays` | src/connector/fetcher.rs:928-969 | in every run, once a pending request is completed and its id is not used again, it stays completed while it is there: never stale, never failed, whatever supersedings follow; and it is there for 30 s |
| `LedgerLaws.CompletionSpares` | src/connector/fetcher.rs:667-835 | in every run, within 30 s of that every call for a fetch its range contains is skipped, unless a failure of that fetch's own bounds still waits |
| `LedgerLaws.WaitingMayRefuse` | src/connector/fetcher.rs:598-926 | whenever such a failure waits, and the fetch is valid and not noted empty, some order of the scan refuses the call; so a skip is certain exactly when none waits |
| `LedgerLaws.CompletionMayRefuse` | src/connector/fetcher.rs:598-926 | a run in which it happens: [0, 10) breaks, [0, 100) is completed, and [0, 10) asked for at once is refused |
| `LedgerLaws.CompletionEnds` | src/connector/fetcher.rs:469-529 | in every run, a clean-up or call more than 30 s later leaves nothing of it |
| `LedgerLaws.BrokenWaits` | src/connector/fetcher.rs:975-1017 | in every run, a request that breaks is there with this error and one more attempt until its retry time, whatever else comes |
| `LedgerLaws.BrokenRefuses` | src/connector/fetcher.rs:598-926 | in every run, until its retry time no call for its fetch is admitted, and the answer has its reason in the table |
| `RequestHandling.RequestHandler.CleanupStaleAt` | src/connector/fetcher.rs:469-529 | one pass over the table, in any order, leaves of every entry what its status and age call for, and adds none |
| `RequestHandling.RequestHandler.SupersedeAllPending` | src/connector/fetcher.rs:533-561 | every pending entry becomes superseded, the rest stays, the generation moves on by one with wrap-around, and the ids returned are exactly those superseded |
| `RequestHandling.RequestHandler.MarkCompleted` | src/connector/fetcher.rs:928-969 | the pending request of this id becomes completed at this time; any other id changes nothing |
| `RequestHandling.RequestHandler.MarkFailed` | src/connector/fetcher.rs:975-1017 | the pending or failed request of this id gets one more attempt, the error and its retry time min(2.5 s * 2^(n-1), 80 s) ahead; no other entry changes |
| `RequestHandling.RequestHandler.AddRequestWithId` | src/connector/fetcher.rs:598-926 | the scans and early returns of the code perform one admission step, and every answer has its reason in the table before the call |
| `Spans.CoalesceTradeFetchGaps` | src/connector/fetcher.rs:207-225 | the loop gives the coalesced list of the specification |
| `Spans.CoalesceCovers` | src/connector/fetcher.rs:207-225 | of gaps sorted by start, a millisecond is covered after coalescing if and only if it was covered before or lies in a hole between neighbouring gaps no wider than the bridge |
| `Spans.CoalesceSettles` | src/connector/fetcher.rs:207-225 | the result is ascending, its spans are more than the bridge apart, and coalescing it again changes nothing |
| `Spans.MergeKeepsCoverage` | src/connector/persistent_cache.rs:1509-1523 | merging coverage intervals changes no covered millisecond and gives disjoint ascending intervals |
| `Spans.CoverageGaps` | src/connector/persistent_cache.rs:1525-1556 | the scan over the stored intervals gives the gaps of the specification |
| `Spans.GapsExact` | src/connector/persistent_cache.rs:1525-1556 | the gaps are exactly the requested milliseconds that are not covered, as ascending disjoint spans |
| `Trades.KeyIsLexicographic` | src/connector/fetcher.rs:241-244 | records sort by time and then by id, those without an id first |
| `Trades.FilterNewFetchedTrades` | src/connector/fetcher.rs:237-260 | sorting and retaining in place give the specified batch and last id, and every record is kept or counted as discarded |
| `Trades.RetainFresh` | src/connector/fetcher.rs:237-260 | what passes the filter lies in the requested slice, has every id once and only ids above the last one, and the last id moves up to one that passed |
| `Trades.RetainDropsSeen` | src/connector/fetcher.rs:237-260 | a record of the slice is dropped only for an id no greater than the last one let through |
| `Trades.RetainKeepsOrder` | src/connector/fetcher.rs:237-260 | what passes stays in order of time and id |
| `Trades.RetainKeepsAnonymous` | src/connector/fetcher.rs:234-236 | no record without an id is dropped inside the slice, and their order stays |
| `Trades.RetainComplete` | src/connector/fetcher.rs:237-260 | when ids increase with time the filter drops no record whose id is new |
| `TradePaging.PageProgress` | src/connector/fetcher.rs:2276-2335 | one page keeps the invariant of a gap: everything sent is a true trade of the gap with a distinct id, and every trade before the cursor that has no id, or any if ids increase with time, has been sent |
| `TradePaging.FetchGap` | src/connector/fetcher.rs:2159-2375 | paging one gap, under any answers, time-outs and delays the network is allowed and whatever the ids: cursors strictly ascend, the duplicate-bounds stop is never taken, every page stands for a response that reaches as far, pages hold the trades of their spans and fill the gap up to where the run vouches for it; and the way it ends is explained by the last answers: a refusal, a time-out or 85 s, an empty answer, or no progress three times or within a second of the end |
| `TradePaging.WalkGaps` | src/connector/fetcher.rs:2148-2380 | over all gaps no cursor is asked twice, pages stay answered and complete, ids stay distinct if they name one trade each, the result vouches exactly for what was walked, and the last answers explain why it ended in which gap |
| `TradePaging.FetchTradesBatched` | src/connector/fetcher.rs:2107-2380 | the whole worker. How it ends, told by the network: a refusal is its error; a time-out or 85 s leave the rest from that cursor to be retried, and are an error only before anything was gained, so once there is a page only a refusal is one; the tail is an empty one exactly after an empty answer; no progress leaves a tail past the last time seen. No stop on repeated bounds. Every page is asked for only where the cache lacks something or in a bridge of at most 60 s, is answered by a response that reaches as far, and up to it the pages hold every trade of their spans, also when the run ends in an error; every millisecond before the tail is cached or in a page, and without a tail the whole request if and only if it ends before the last representable millisecond. Cached records are sent first and unchanged, nothing is sent that is not a missing true trade, everything that a page has and the cache lacks is sent, no id twice when the cache lies outside the gaps and an id names one trade; completeness for records with ids when ids increase with time |
| `TradePaging.BrokenLate` | src/connector/fetcher.rs:1195-1208 | a run that ends in an error after its first page was refused |
| `TradePaging.LastMillisecondIsSkipped` | src/connector/fetcher.rs:2107-2130 | the request that falls short: for the last representable millisecond alone there is no gap to fetch |
| `KlineCoverage.StoreContiguousKlines` | src/connector/fetcher.rs:1781-1818 | the run-splitting loop stores, in one pass and by index, exactly the runs the laws below are about, and nothing for a zero interval |
| `KlineCoverage.RunsPartition` | src/connector/fetcher.rs:1781-1818 | the runs put together are the candles, in order |
| `KlineCoverage.CoverageIsExact` | src/connector/fetcher.rs:1781-1818 | of strictly increasing candles, a millisecond is stored as covered if and only if it is requested and lies in some candle, and the stored spans are disjoint and ascending |
| `KlineStores.StoresAreBacked` | src/connector/fetcher.rs:1781-1818 | every stored run is made of given candles in order, later than those of the runs before it; every millisecond of its span is requested and lies in one of its own candles; and every given candle whose interval meets the request is stored |
| `KlineStores.StoredOnce` | src/connector/fetcher.rs:1781-1818 | no candle is stored twice |
| `SavedJsonTheorems.StateCleaned` | data/src/lib.rs:360-388 | for any JSON value the repair gives a clean state, and it leaves a value alone without a warning if and only if that value was clean |
| `SavedJsonTheorems.RepairSettles` | data/src/lib.rs:360-388 | a second pass changes nothing, warns of nothing and sees the current version |
| `SavedJsonTheorems.LayoutManagerCleaned` | data/src/lib.rs:440-465 | the layout list is an array of clean layouts, or is replaced by the default; left alone without a warning exactly when clean |
| `SavedJsonTheorems.LayoutCleaned` | data/src/lib.rs:467-482 | a kept layout has a name and a clean dashboard; left alone without a warning exactly when clean |
| `SavedJsonTheorems.DashboardCleaned` | data/src/lib.rs:484-518 | a clean main tree and only popouts that are pairs with a clean tree; left alone without a warning exactly when clean |
| `SavedJsonTheorems.PaneCleaned` | data/src/lib.rs:520-666 | every split has a legal axis, a ratio in [0.05, 0.95] and two clean children, every leaf a known kind and allowed tags only; left alone without a warning exactly when clean |
| `SavedJsonTheorems.LeafCleaned` | data/src/lib.rs:566-658 | indicators, streams, kind and settings of every kind of leaf are within the allowed tags after repair; left alone without a warning exactly when they were |
| `SavedJsonTheorems.SettingsCleaned` | data/src/lib.rs:668-709 | the visual configuration is absent, null or a known one, and no legacy levels remain; left alone without a warning exactly when so before |
| `SavedJsonTheorems.ListCleaned` | data/src/lib.rs:720-743 | a tag list is an array of known tags afterwards and no other field changes; left alone without a warning exactly when it was one |
| `SavedJsonTheorems.KnownSurvive` | data/src/lib.rs:720-743 | the entries kept are exactly the known ones, in order, with one warning for each dropped |
| `SavedJsonTheorems.SplitKeepsRest` | data/src/lib.rs:541-564 | a repaired split keeps its axis and ratio when they were fine, gets a horizontal axis or an even ratio when there was none, and keeps every field the repair does not name |
| `SavedJsonTheorems.LegacyLevelsKept` | data/src/lib.rs:668-709 | moving the legacy levels keeps them and lets newer ones win, if and only if the place they go to is an object; otherwise they are dropped without a warning |
| `SavedSpared.StateSpared` | data/src/lib.rs:360-388 | for any JSON value the result is the value with no more than its defects repaired: every part that is legal is kept, through layouts, dashboards, popouts, pane trees and leaves, and the version is stamped |
| `SavedSpared.ManagerSpared` | data/src/lib.rs:440-465 | layouts keep their number and order, each spared, and the manager its other fields |
| `SavedSpared.LayoutSpared` | data/src/lib.rs:467-482 | a layout keeps its name and every other field, and its dashboard is spared |
| `SavedSpared.DashboardSpared` | data/src/lib.rs:484-518 | popout pairs stay in order with their panes spared and their windows as they were; the main tree is spared |
| `SavedSpared.PaneSpared` | data/src/lib.rs:520-666 | splits stay splits with spared children, a legal axis and ratio and all other fields; a leaf of a known kind stays one; only other nodes become a starter pane |
| `SavedSpared.LeafSpared` | data/src/lib.rs:566-658 | a leaf keeps every field the repair does not name, and of its lists exactly the known entries, in order |
| `SavedSpared.SettingsSpared` | data/src/lib.rs:668-709 | a known visual configuration stays but for its legacy levels, which move where there is an object to take them |
| `SavedSpared.ListSpared` | data/src/lib.rs:720-743 | a tag list keeps exactly its known entries, in order, and no other field changes |
| `SavedWarnings.ListWarns` | data/src/lib.rs:720-743 | a tag list gives a warning if and only if it is not an array of known tags |
| `SavedWarnings.SettingsWarn` | data/src/lib.rs:668-709 | settings give a warning if and only if they are no object, have an unknown visual configuration, or have legacy levels that can be moved |
| `SavedWarnings.LeafWarns` | data/src/lib.rs:566-658 | a leaf gives a warning if and only if a list, the kind or the settings it has call for one; missing settings and kinds are added silently |
| `SavedWarnings.PaneWarns` | data/src/lib.rs:520-666 | a pane tree gives a warning if and only if some node is malformed, of unknown type or with an illegal axis, or some leaf calls for one; ratios and missing children are repaired silently |
| `SavedWarnings.DashboardWarns` | data/src/lib.rs:484-518 | a dashboard gives a warning if and only if it is no object, a popout is dropped, or a tree it has calls for one |
| `SavedWarnings.LayoutWarns` | data/src/lib.rs:467-482 | a layout gives a warning if and only if it is no object or the dashboard it has calls for one; a missing name is added silently |
| `SavedWarnings.LayoutManagerWarns` | data/src/lib.rs:440-465 | the layout manager gives a warning if and only if it is no object, has no list, or a layout calls for one |
| `SavedWarnings.StateWarns` | data/src/lib.rs:360-388 | the whole repair gives a warning if and only if the root is no object or the layout manager it has calls for one |
| `SavedWarnings.StateCounts` | data/src/lib.rs:360-388 | the whole repair gives exactly one warning for every defect of the value, counted without the repair |
| `SavedWarnings.DashboardCounts` | data/src/lib.rs:484-518 | one warning for every popout dropped and every defect of the trees kept |
| `SavedWarnings.PaneCounts` | data/src/lib.rs:520-666 | one warning for every defect of the pane tree |
| `SavedWarnings.LeafCounts` | data/src/lib.rs:566-658 | one for every unknown entry of a list, an unusable list, kind or settings |
| `SavedWarnings.SilentChange` | data/src/lib.rs:551-556 | a split with ratio seven is changed without a warning |
| `SavedStateRepair.Repair.SanitizeVecTaggedEnum` | data/src/lib.rs:720-743 | the in-place retain loop keeps exactly the known entries, in order, with the warnings of the specification |
| `SavedStateRepair.Repair.SanitizeSettings` | data/src/lib.rs:668-709 | the in-place rewriting leaves clean settings, leaves them alone without a warning exactly when they were clean, and warns exactly when they are not quiet |
| `SavedStateRepair.Repair.SanitizePane` | data/src/lib.rs:520-666 | the recursive in-place rewriting spares the tree node by node and gives the warnings of the specification, in order |
| `SavedStateRepair.Repair.SanitizeDashboard` | data/src/lib.rs:484-518 | the dashboard is spared: legal trees and popout pairs stay; the warnings are those of the specification |
| `SavedStateRepair.Repair.SanitizeLayoutManager` | data/src/lib.rs:440-465 | the layouts are spared, in number and order; the warnings are those of the specification |
| `SavedStateRepair.Repair.MigrateSavedStateValue` | data/src/lib.rs:360-388 | the whole repair in place: the value is spared and clean, left alone without a warning exactly when clean, a warning exactly when not quiet, and the version it was written with |
| `DecodedState.State.SanitizeState` | data/src/lib.rs:390-415 | afterwards there is a layout, a set active layout names one, and the window can be seen; no warning if and only if that already held, and then nothing changes |
| `DecodedState.State.SanitizeMainWindow` | data/src/lib.rs:417-438 | an invisible window is dropped with one warning, any other is kept |
| `Template.ValidateTemplatePane` | src/layout.rs:251-271 | the recursion with its threaded counter and early exits accepts exactly trees within depth, size and ratio limits, counts their nodes, and every fault it reports is one the tree has |
| `Template.ValidatePopouts` | src/layout.rs:236-247 | accepts exactly popouts with sound windows and trees that fit, all counted together |
| `Template.ValidateTemplateLayout` | src/layout.rs:230-249 | accepts exactly the legal templates: a name that is not blank, every node at depth at most 32, at most 128 nodes in all, ratios in range, windows finite with positive size |
| `RepairedTemplates.RepairedPanePasses` | src/layout.rs:251-271 | of any JSON value, the repaired pane tree decodes to one the validator can reject only for depth or size |
| `Backoff.DelayClosedForm` | src/connector/gex.rs:1068-1085 | after n failures in a row the delay is min(5 s * 2^(n-1), 120 s): neither the capped exponent nor the saturating counter shows |
| `GexLanes.Lane.Due` | src/connector/gex.rs:294-325 | exactly the active sources that are forced, or outside min(5 s * 2^(n-1), 120 s) of their last failure with data missing or older than the lane allows, and that are not in flight; each once, and all of them join the requests under way |
| `GexLanes.Lane.DueRespectsBackoff` | src/connector/gex.rs:475-505 | within min(5 s * 2^(n-1), 120 s) of the last of n failures in a row a source is due if and only if it is forced |
| `GexLanes.Lane.Complete` | src/connector/gex.rs:327-378 | an answer ends its request; success resets the failures, anything else counts one more |
| `GexCoordinator.Chains.SetConsumers` | src/connector/gex.rs:242-262 | consumers are counted by chain, and exactly the chains that gain their first consumer are forced |
| `GexCoordinator.Chains.DueFetches` | src/connector/gex.rs:764-805 | of every subscribed chain outside its backoff window: its metadata if they are missing or at least ten minutes old; otherwise its snapshot if it is forced, missing or at least 15 s old; otherwise nothing. Exactly those not in flight, each once; the requests handed out and not answered always equal the in-flight set |
| `GexCoordinator.Chains.DueIsWanted` | src/connector/gex.rs:764-805 | what the code's order of tests finds due is exactly what those times and failures call for |
| `GexCoordinator.Chains.DueIsLawful` | src/connector/gex.rs:764-805 | no chain fetch, forced or not, is due within min(5 s * 2^(n-1), 120 s) of the last of n failures in a row; a snapshot is due only with metadata that is not empty and under ten minutes old |
| `GexCoordinator.Chains.CompleteInstruments` | src/connector/gex.rs:814-833 | metadata that is not empty is stored, ends the failures and forces a snapshot; an empty list or an error leaves it alone and counts one more failure with its error |
| `GexCoordinator.Chains.CompleteSnapshot` | src/connector/gex.rs:834-862 | a snapshot that is not empty takes a new revision, ends the failures and drops the memo entries of its chain only; anything else leaves the snapshots alone and counts one more failure with its error |
| `GexSnapshots.SnapshotStore.constructor` | src/connector/gex.rs:1087-1118 | exactly the sources with a stored chain that is not empty have one, the last of them, with revisions of their own below the next one as long as revisions do not saturate |
| `GexSnapshots.SnapshotStore.Store` | src/connector/gex.rs:834-851 | memo entries always belong to, and were computed from, the raw snapshot that is held, even if revisions saturate |
| `GexSnapshots.SnapshotStore.Derived` | src/connector/gex.rs:864-905 | a result exists exactly when a raw snapshot is held and always comes from it; it is computed once for each revision and configuration, and then appended to the history of its series, which the disk began if it had not been read; no other history changes |
| `GexSnapshots.SnapshotStore.EnsureHistoryLoaded` | src/connector/gex.rs:972-1022 | what the disk holds of a series is read the first time only, before anything is appended, and no other history changes |
| `GexChains.LoadedLaw` | src/connector/gex.rs:972-1022 | of every stored time the first snapshot stored for it is loaded, in order, and nothing else |
| `GexSnapshots.SnapshotStore.InvalidatePersistent` | src/connector/gex.rs:1057-1066 | forgets snapshots, memo and histories and keeps the invariants |
| `GexHistory.AppendHistory` | src/connector/gex.rs:935-970 | the search, insertion and popping loops give the specified history |
| `GexHistory.AppendLaw` | src/connector/gex.rs:935-970 | told by members: a snapshot there already, by revision or time, changes nothing; any other joins in order, and only what is older than 24 h, or older than all of the newest 5,760, goes |
| `GexHistory.AppendKeepsHistory` | src/connector/gex.rs:935-970 | a history stays strictly increasing; after an append it has at most 5,760 entries, none older than 24 h, and only a prefix was dropped, no more than needed |
| `ProxyHistory.NormalizeKeeps` | src/connector/gex.rs:1203-1215 | the merged proxy history is strictly increasing, has at most 320 points, all valid and no more than 24 h and ten minutes old; for each time the first such point of the list is kept, and what is dropped to meet the bound is older than all that stays |
| `ProxyHistory.NormalizeSettles` | src/connector/gex.rs:1203-1215 | normalizing again changes nothing |
| `GexCoordinator.GexDataCoordinator.SetConsumers` | src/connector/gex.rs:242-262 | a newly active chain is forced in all four schedules and its trades are looked for on disk; nothing happens to any other |
| `GexCoordinator.GexDataCoordinator.Reconnect` | src/connector/gex.rs:271-292 | every active chain is forced in all four schedules |
| `GexCoordinator.GexDataCoordinator.EnsureDeriveLoaded` | src/connector/gex.rs:706-730 | a source's trades are read from disk once; what the disk has takes the place of what was held, sets the watermark and is stale |
| `GexCoordinator.GexDataCoordinator.constructor` | src/connector/gex.rs:198-240 | of every source the last raw chain on disk that is not empty is held from the start, and of every proxy history on disk that is not empty the points, as stale |
| `GexCoordinator.GexDataCoordinator.DueDeriveTradeFetches` | src/connector/gex.rs:507-554 | trade requests go exactly to due sources with metadata, from ten seconds before the watermark, or two hours back, up to now, and only after the disk has been read |
| `GexCoordinator.GexDataCoordinator.CompleteProxy` | src/connector/gex.rs:327-378 | a stale answer never touches a history there already is; any other is merged and normalized |
| `GexCoordinator.GexDataCoordinator.CompleteDeriveInstruments` | src/connector/gex.rs:566-593 | metadata that is not empty is stored and forces a trade fetch; anything else is a failure |
| `GexCoordinator.GexDataCoordinator.CompleteDeriveTrades` | src/connector/gex.rs:595-655 | after a success the retained trades are those the merge calls for, and the watermark is the newest of them or stays |
| `DeriveTrades.MergeTrades` | src/connector/gex.rs:601-620 | of the ids known, the newest 50,000 trades of the last 24 h, each once and in time order; anything else dropped is too old, in the future, or no newer than all that stays |
| `DeriveTrades.LaterReplaces` | src/connector/gex.rs:601-620 | of the records with one id the last, and so one that just came, is the one that counts |
| `DeriveTrades.WatermarkNeverDecreases` | src/connector/gex.rs:621-623 | of a session of one source as a value, apart from the coordinator: with a forward clock and ids that fix their times the watermark never decreases |
| `DeriveTrades.RequestsLeaveNoHole` | src/connector/gex.rs:539-551 | of such a session: when answers have nothing later than the end of the request, a request based on the watermark starts no later than the one before it ended |
| `SeriesMerge.MergePoints` | src/chart/comparison.rs:168-201 | the two-pointer loop, its tails and the final dedup give the specified merge |
| `SeriesMerge.MergeOverrides` | src/chart/comparison.rs:168-201 | a merge of increasing series is increasing and has, at every time, the incoming value if there is one and the old one otherwise |
| `SeriesMerge.InsertedIsOverride` | src/chart/comparison.rs:141-207 | inserted history is the old points overridden by the first incoming value of each floored time, cut to the newest 5,000 |
| `SeriesMerge.InsertedLaw` | src/chart/comparison.rs:141-207 | told by points: a point stays exactly when no candle falls into its slot of the grid, and of every slot the first candle that falls into it comes in; of these the newest 5,000, in order |
| `SeriesMerge.ValuesDetermine` | src/chart/comparison.rs:168-201 | an increasing series is fixed by its values, so that override is the only one |
| `SeriesMerge.InsertedWellFormed` | src/chart/comparison.rs:141-207 | a series stays strictly increasing, on the time grid, and at most 5,000 long |
| `SeriesMerge.UpdateIsInsert` | src/chart/comparison.rs:214-235 | a live candle that is not behind the series does what inserting it as history would; an older one does nothing |
| `Comparison.IndexIsExact` | src/chart/comparison.rs:237-251 | the index gives i for t exactly when series i is t, if and only if the tickers are distinct |
| `Comparison.ComparisonChart.constructor` | src/chart/comparison.rs:45-91 | one empty series for each ticker, indexed; a tick basis falls back to 15 minutes |
| `Comparison.ComparisonChart.InsertHistory` | src/chart/comparison.rs:141-212 | the ticker's series gets the override, what is found for every other ticker stays, and the request is reported completed, without data, or unknown |
| `Comparison.ComparisonChart.UpdateLatestKline` | src/chart/comparison.rs:214-235 | the ticker's series gets the update, and what is found for every other ticker stays |
| `Comparison.ComparisonChart.AddTicker` | src/chart/comparison.rs:257-265 | the ticker is selected once and has a series, at the end if it is new; the points of no ticker change |
| `Comparison.ComparisonChart.RemoveTicker` | src/chart/comparison.rs:267-287 | one series leaves, the others keep order and points; with distinct tickers the index then finds the points of every other ticker as before, and the ticker is gone from the selection |
| `Comparison.ComparisonChart.SetBasis` | src/chart/comparison.rs:350-390 | a time basis restarts exactly the selected tickers with empty series; a tick basis changes nothing |
| `LineSplitting.ChunksDoNotMatter` | src/logger.rs:161-180 | however a text is cut into writes, completed lines and remainder are those of one write |
| `LineSplitting.FeedLosesNothing` | src/logger.rs:161-180 | no line and no remainder contains a newline, and together they are the text, character by character |
| `LineSplitting.Drain` | src/logger.rs:161-180 | the drain loop gives what an automaton reading one character at a time gives |
| `DebugTerminal.Terminal.PushDebugLine` | src/logger.rs:136-154 | the terminal holds the last N non-blank lines since it was cleared, with N from the environment or 10,000 |
| `DebugTerminal.Terminal.Write` | src/logger.rs:159-187 | the completed lines of a write, stripped and without blank ones, join the terminal in order; the remainder stays pending |
| `DebugTerminal.Terminal.WriteAll` | src/logger.rs:159-187 | after any sequence of writes the terminal and the remainder are those of one write of the whole text |
| `DebugTerminal.EitherLineEnd` | src/logger.rs:161-180 | a completed line is shown unless it is blank, and a carriage return at its end is no part of it |
| `DebugTerminal.Terminal.Flush` | src/logger.rs:189-203 | a pending line that is not blank is shown as it is, and nothing stays pending |
| `Connectivity.RunIsSettled` | src/market_service.rs:127-157 | in every reachable state connected streams are expected ones, and after any call the phase is Online exactly when every expected stream is connected |
| `Connectivity.OutageIsTimed` | src/market_service.rs:127-157 | during an outage the remembered time is that of its first call, and the phase is Offline exactly once some call of the outage came 1.5 s after it |
| `Connectivity.WentOfflineExactly` | src/market_service.rs:141-156 | going offline is reported by exactly the first call that finds an uninterrupted outage 1.5 s old, whatever the clock does |
| `Connectivity.OfflineTwiceRestoredBetween` | src/market_service.rs:127-157 | between two reports of going offline there is one of recovery |
| `Connectivity.RestoredExactly` | src/market_service.rs:130-140 | recovery is reported exactly when all streams are connected and an outage report or an online disconnect has come since the last one |
| `Connectivity.CauseBetweenRestorations` | src/market_service.rs:130-140 | between two reports of recovery there is an outage report or an online disconnect |
| `Connectivity.MarketConnectivity.SyncExpected` | src/market_service.rs:53-64 | exactly the given streams are expected and of the others nothing is kept; over the whole life of the object the phase is then Online exactly when all are connected, and both reports come exactly when due |
| `Connectivity.MarketConnectivity.RecordConnected` | src/market_service.rs:66-76 | the streams are connected and expected, and the reason stays unless recovery is reported; phase and reports as for SyncExpected |
| `Connectivity.MarketConnectivity.RecordDisconnected` | src/market_service.rs:78-93 | the streams are expected and not connected, the reason stays unless recovery is reported; phase and reports as for SyncExpected |
| `Connectivity.MarketConnectivity.TickAt` | src/market_service.rs:95-98 | no stream changes, and the reason stays unless recovery is reported; phase and reports as for SyncExpected |
| `Exchanges.ExchangeRoundTrip` | exchange/src/lib.rs:211-233 | every exchange is read back from the name it is printed with, with or without the space |
| `Exchanges.ParseIsExact` | exchange/src/adapter.rs:289-357 | a text is an exchange's name if and only if it has two words, the first calling the venue and the second the market, in capitals or not |
| `Exchanges.SpacedNameParses` | exchange/src/lib.rs:215-233 | every such name with one space is read |
| `Tickers.TickerRoundTrip` | exchange/src/lib.rs:426-480 | a ticker the constructor can build is read back as it was if and only if neither buffer has a byte after a zero one |
| `Tickers.ParseParts` | exchange/src/lib.rs:426-480 | every text with a colon, in its parts: an unknown name is rejected, and a known one gives the ticker with exactly the symbol and display symbol, or panics if and only if they are too long, have a bar, or the display symbol is not ASCII |
| `Tickers.SymbolRoundTrip` | exchange/src/lib.rs:426-480 | so every exchange and every symbol of at most 28 bytes without separator or zero byte, with or without display symbol, comes back |
| `Tickers.PairRoundTrip` | exchange/src/lib.rs:236-271 | the two-part form comes back if and only if the symbol has no colon, no byte after a zero one, and there is no display symbol |
| `Tickers.DecodeOld` | exchange/src/lib.rs:481-510 | the old decoder rejects too long lengths and bad codes, builds the ticker the codes spell otherwise, and of a packed symbol the ticker with that symbol |
| `Tickers.OldTickerComesBack` | exchange/src/lib.rs:481-510 | a symbol from an old file with any exchange name gives the ticker of that symbol and exchange, without display symbol |
| `Tickers.UnpackInverts` | exchange/src/lib.rs:481-510 | for every symbol over 0-9A-Z_ of at most 20 characters the packed words fit 64 bits and decode to the symbol |
| `TickSteps.UnscaleInverts` | exchange/src/lib.rs:721-744 | dividing undoes multiplying if and only if the step is positive or the factor is one |
| `TickSteps.UnscaleRounds` | exchange/src/lib.rs:732-748 | otherwise the result is the nearest step, a half rounding up, unless that would be below one unit |
| `Dedupe.WindowClosedForm` | src/notify.rs:118-129 | an error's window at level n is min(30 s * 2^n, 300 s), any other toast's ten seconds |
| `Dedupe.HiddenExactlyInWindow` | src/notify.rs:49-96 | until a toast is shown again its pushes are hidden exactly while the window in force lasts, whether or not its entry was dropped in between |
| `Dedupe.DisplaysAreSpaced` | src/notify.rs:49-96 | consecutive displays of a toast are at least the window in force apart, even across pruning |
| `Dedupe.NextDisplayReports` | src/notify.rs:66-83 | the next display of an error within 301 whole seconds of its last push reports exactly the pushes hidden since the last display, as far as 32 bits count, and widens the window by one level if there were any; any other display reports nothing and starts over |
| `Dedupe.EntryKept` | src/notify.rs:111-115 | in every run with a forward clock a toast is remembered exactly until 301 whole seconds have passed since its last push |
| `Dedupe.FirstIsShown` | src/notify.rs:86-95 | the first push of a toast is shown as it is, at level zero |
| `Dedupe.TextTellsRetries` | src/notify.rs:131-143 | two displays of one toast read alike only when they report the same number of retries |
| `Dedupe.PushesAreConserved` | src/notify.rs:49-96 | while an error's entry is kept, pushes are displays plus retries reported plus those still hidden plus those lost to a full counter, and none is lost before 2^32 pushes |
| `Dedupe.BurstLoses` | src/notify.rs:56-66 | in a burst at one instant all but the first are hidden and exactly what 32 bits cannot count is lost |
| `Notify.Notifications.Push` | src/notify.rs:49-96 | over the whole life of the store, while the clock goes forward a push is hidden exactly while the window in force since the last display lasts, and otherwise its text is appended to the screen |

## Left out

- TradePaging.FetchTradesBatched: does not promise that id-less records are sent or stored once, because page boundaries may repeat them by design; nor that a cached record is a true trade.
- TradePaging.FetchTradesBatched: runs without a persistent cache are the case of an empty coverage list; writing pages to the cache and its choice to skip empty pages are not modelled.
- LedgerTheorems.StaleIffGoneOrSuperseded: is for fewer than 2^64 supersedings; `StaleUnlessFullCircle` is for every run.
- LedgerTheorems.CompletedIsFinal: assumes a new request does not reuse the id, as ids are random UUIDs; ids are numbers here.
- DeriveTrades.RequestsLeaveNoHole: the session of one source is a value; `EnsureDeriveLoaded`, `DueDeriveTradeFetches` and `CompleteDeriveTrades` state the same rules for the coordinator's fields.
- GexCoordinator.GexDataCoordinator.EnsureDeriveLoaded: what the disk holds is given; a missing table and an empty one are the same, and writing back is not modelled.
- GexLanes.Lane.Due: the three field groups for proxy, Derive metadata and Derive trades are three objects of one class, and the chains' snapshots are an object of their own.
- SavedJsonTheorems.StateCleaned: texts other than the names the repair looks at are opaque strings, floats are reals, and the order of object members is not kept.
- Template.ValidateTemplateLayout: a 32-bit float is a real or not finite; the rounding of a ratio when a repaired tree is decoded is not modelled.
- Connectivity.MarketConnectivity.SyncExpected: streams are numbers; stream descriptions are not part of this model.
- LineSplitting.ChunksDoNotMatter: a write that cuts a UTF-8 character in two is outside it, since each write is decoded on its own with replacement characters.
- DebugTerminal.Terminal.PushDebugLine: the environment setting is taken to stay the same while the terminal lives.
- Comparison.ComparisonChart.InsertHistory: the chart's own request handlers are a set of tickers, and what happens to a request is a report; colours, names, zoom and the fetches that follow are left out.
- TickSteps.UnscaleRounds: `unscale_step_or_min_tick` and the other unit conversions are left out.
- Network clients, task spawning, worker time-outs as threads, file reads, backups and atomic renames: input and output.
- The calculation of gamma exposure: any function of the raw chain, the configuration and the time.
- Bubble-summary fetches beyond their ledger entries, the market cache's tables and the decoding of stored buckets: not part of this model.
- Typed decoding of the saved state: library code; only its pane trees and the repaired fields are modelled.
- Freshness labels, read-outs of histories for a shorter window, log lines and the wording of warnings: warnings are kinds.
- Chart drawing, audio, windows, panes and widgets: they would only add easy members.
