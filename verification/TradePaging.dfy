// The paging loop of the trade worker, against a network that may answer in
// any way the exchange contract allows, time out, fail or run dry.

module TradePaging {
  import opened Wrappers
  import opened UnixTime
  import opened Sorting
  import opened Spans
  import opened Trades

  datatype Response = TimedOut | Refused(error: string) | Batch(trades: seq<Trade>)

  /** The answer to the n-th request from a cursor, and the time spent before it. */
  datatype Network = Network(answer: (nat, U64) -> Response, elapsed: nat -> nat)

  /**
   * What an exchange owes: a non-empty batch is every trade from the cursor up
   * to the time of its last one, and that time is not before the cursor.
   */
  ghost predicate Faithful(r: Response, cursor: U64, truth: seq<Trade>) {
    r.Batch? && r.trades != [] ==>
      && cursor <= Last(r.trades).time
      && (forall t :: t in r.trades ==> t in truth && cursor <= t.time <= Last(r.trades).time)
      && (forall t :: t in truth && cursor <= t.time <= Last(r.trades).time ==> t in r.trades)
  }

  ghost predicate FaithfulAt(net: Network, truth: seq<Trade>, n: nat, cursor: U64) {
    Faithful(net.answer(n, cursor), cursor, truth)
  }

  ghost predicate FaithfulNetwork(net: Network, truth: seq<Trade>) {
    forall n: nat, cursor: U64 :: FaithfulAt(net, truth, n, cursor)
  }

  datatype Tail = Tail(from: U64, to: U64)

  datatype TradeFetchOutcome = Outcome(unfilledTail: Option<Tail>, emptyTail: Option<Tail>)

  function RetryableTail(from: U64, to: U64): TradeFetchOutcome { Outcome(Some(Tail(from, to)), None) }

  function EmptyTail(from: U64, to: U64): TradeFetchOutcome {
    Outcome(Some(Tail(from, to)), Some(Tail(from, to)))
  }

  datatype WorkerResult = Finished(outcome: TradeFetchOutcome) | Broken(error: string)

  function InterruptedTradeFetch(requestedFrom: U64, requestedTo: U64, retryFrom: U64): WorkerResult {
    if retryFrom > requestedFrom then Finished(RetryableTail(retryFrom, requestedTo))
    else Broken("TimedOut: without progress")
  }

  /** One response as the cache is told of it: a span claimed complete, with its records. */
  datatype Page = Page(from: U64, to: U64, records: seq<Trade>)

  ghost predicate PagesHave(pages: seq<Page>, t: int) {
    exists i :: 0 <= i < |pages| && pages[i].from <= t < pages[i].to
  }

  function Flatten<T>(chunks: seq<seq<T>>): seq<T> {
    if chunks == [] then [] else Flatten(Front(chunks)) + Last(chunks)
  }

  lemma FlattenSnoc<T>(chunks: seq<seq<T>>, chunk: seq<T>)
    ensures Flatten(chunks + [chunk]) == Flatten(chunks) + chunk
  {
    assert Front(chunks + [chunk]) == chunks;
  }

  lemma SliceJoin<T>(s: seq<T>, i: nat, j: nat)
    requires i <= j <= |s|
    ensures s[..i] + s[i..j] == s[..j]
  {
  }

  function InGaps(s: seq<Trade>, gaps: seq<Span>): (r: seq<Trade>)
    ensures forall t :: t in r <==> t in s && TradeTimeIsInGaps(t.time, gaps)
  {
    if s == [] then []
    else
      assert s == Front(s) + [Last(s)];
      InGaps(Front(s), gaps) + if TradeTimeIsInGaps(Last(s).time, gaps) then [Last(s)] else []
  }

  lemma {:induction false} InGapsKeepsIds(s: seq<Trade>, gaps: seq<Span>)
    requires DistinctIds(s)
    ensures DistinctIds(InGaps(s, gaps))
  {
    if s != [] {
      var front, x := Front(s), Last(s);
      assert s == front + [x];
      assert forall i :: 0 <= i < |front| ==> front[i] == s[i];
      InGapsKeepsIds(front, gaps);
      IdAppears(front, x, InGaps(front, gaps));
    }
  }

  lemma IdAppears(front: seq<Trade>, x: Trade, r: seq<Trade>)
    requires DistinctIds(front + [x]) && forall t :: t in r ==> t in front
    ensures x.id.Some? ==> forall i :: 0 <= i < |r| ==> r[i].id != x.id
  {
    if x.id.Some? {
      forall i | 0 <= i < |r| ensures r[i].id != x.id {
        assert r[i] in front;
        var j :| 0 <= j < |front| && front[j] == r[i];
        var s := front + [x];
        assert s[j] == r[i] && s[|front|] == x;
      }
    }
  }

  lemma {:induction false} InGapsAll(s: seq<Trade>, gaps: seq<Span>)
    requires forall t :: t in s ==> Covers(gaps, t.time)
    ensures InGaps(s, gaps) == s
  {
    if s != [] {
      assert s == Front(s) + [Last(s)];
      InGapsAll(Front(s), gaps);
    }
  }

  ghost predicate Sound(truth: seq<Trade>, gaps: seq<Span>, gap: Span, seen: int, sent: seq<Trade>) {
    forall t :: t in sent ==> t in truth && gap.Has(t.time) && t.time < seen && Covers(gaps, t.time)
  }

  /** The trades no response can make the filter lose: those without an id, and all when ids increase. */
  ghost predicate Counts(truth: seq<Trade>, t: Trade) {
    t in truth && (t.id.Some? ==> IdsIncrease(truth))
  }

  ghost predicate Complete(truth: seq<Trade>, gaps: seq<Span>, gap: Span, seen: int, sent: seq<Trade>) {
    forall t :: Counts(truth, t) && gap.Has(t.time) && t.time < seen && Covers(gaps, t.time) ==> t in sent
  }

  ghost predicate Anchored(truth: seq<Trade>, seen: int, last: Option<U64>) {
    last.Some? ==> exists t :: t in truth && t.id == last && t.time < seen
  }

  /** Everything `sent` so far for one gap, when all of it before `seen` has been looked at. */
  ghost predicate Progress(truth: seq<Trade>, gaps: seq<Span>, gap: Span, seen: int,
                           last: Option<U64>, sent: seq<Trade>)
  {
    && Sound(truth, gaps, gap, seen, sent) && Complete(truth, gaps, gap, seen, sent)
    && Anchored(truth, seen, last) && DistinctIds(sent) && IdsUpTo(sent, last)
  }

  /** One page's worth of progress. */
  lemma PageProgress(truth: seq<Trade>, gaps: seq<Span>, gap: Span, seen: int, last: Option<U64>,
                     sent: seq<Trade>, cursor: U64, trades: seq<Trade>, kept: Kept)
    requires Progress(truth, gaps, gap, seen, last, sent)
    requires gap.from <= cursor <= seen <= cursor + 1
    requires trades != [] && Faithful(Batch(trades), cursor, truth)
    requires kept == Retain(SortByKey(trades, Key), cursor, gap.to, last)
    ensures Progress(truth, gaps, gap, Last(trades).time + 1, kept.last, sent + InGaps(kept.batch, gaps))
  {
    PageFacts(truth, gap, last, cursor, trades, kept);
    var novel, seen' := InGaps(kept.batch, gaps), Last(trades).time + 1;
    InGapsKeepsIds(kept.batch, gaps);
    JoinIds(sent, novel, last, kept.last);
    assert Sound(truth, gaps, gap, seen', sent + novel);
    forall t | Counts(truth, t) && gap.Has(t.time) && t.time < seen' && Covers(gaps, t.time)
      ensures t in sent + novel
    {
      NewTradeIsSent(truth, gaps, gap, seen, last, sent, cursor, trades, kept, t);
    }
    if kept.last == last && last.Some? {
      var t :| t in truth && t.id == last && t.time < seen;
      assert t.time < seen';
    }
  }

  /** The kept records of a page are true trades of the gap with new, distinct ids. */
  lemma PageFacts(truth: seq<Trade>, gap: Span, last: Option<U64>, cursor: U64, trades: seq<Trade>, kept: Kept)
    requires gap.from <= cursor && trades != [] && Faithful(Batch(trades), cursor, truth)
    requires kept == Retain(SortByKey(trades, Key), cursor, gap.to, last)
    ensures forall t :: t in kept.batch ==> t in truth && gap.Has(t.time) && t.time <= Last(trades).time
    ensures DistinctIds(kept.batch) && IdsAbove(kept.batch, last) && IdsUpTo(kept.batch, kept.last)
    ensures last.Some? ==> kept.last.Some? && last.value <= kept.last.value
    ensures kept.last != last ==> exists t :: t in truth && t.id == kept.last && t.time <= Last(trades).time
  {
    var sorted := SortByKey(trades, Key);
    assert forall t :: t in sorted ==> t in truth && cursor <= t.time <= Last(trades).time by {
      SortByKeyMembers(trades, Key);
    }
    RetainFresh(sorted, cursor, gap.to, last);
    if kept.last != last {
      var t :| t in kept.batch && t.id == kept.last;
      assert t in truth && t.time <= Last(trades).time;
    }
  }

  lemma JoinIds(sent: seq<Trade>, novel: seq<Trade>, last: Option<U64>, next: Option<U64>)
    requires DistinctIds(sent) && IdsUpTo(sent, last)
    requires DistinctIds(novel) && IdsAbove(novel, last) && IdsUpTo(novel, next)
    requires last.Some? ==> next.Some? && last.value <= next.value
    ensures DistinctIds(sent + novel) && IdsUpTo(sent + novel, next)
  {
  }

  lemma NewTradeIsSent(truth: seq<Trade>, gaps: seq<Span>, gap: Span, seen: int, last: Option<U64>,
                       sent: seq<Trade>, cursor: U64, trades: seq<Trade>, kept: Kept, t: Trade)
    requires Complete(truth, gaps, gap, seen, sent) && Anchored(truth, seen, last)
    requires gap.from <= cursor <= seen
    requires trades != [] && Faithful(Batch(trades), cursor, truth)
    requires kept == Retain(SortByKey(trades, Key), cursor, gap.to, last)
    requires Counts(truth, t) && gap.Has(t.time) && t.time <= Last(trades).time && Covers(gaps, t.time)
    ensures t in sent + InGaps(kept.batch, gaps)
  {
    if t.time >= seen {
      SortByKeyMembers(trades, Key);
      if t.id.None? {
        RetainHasAnonymous(SortByKey(trades, Key), cursor, gap.to, last, t);
      } else {
        SortByKeySorted(trades, Key);
        if last.Some? {
          var k :| k in truth && k.id == last && k.time < seen;
          assert k.id.value < t.id.value;
        }
        RetainComplete(SortByKey(trades, Key), cursor, gap.to, last, truth, t);
      }
      assert t in InGaps(kept.batch, gaps);
    }
  }

  // ------------------------------------------------------------ one gap

  datatype GapEnd = Filled | Stopped(result: WorkerResult)

  /** Every millisecond of the gap before `seen` lies in some page. */
  ghost predicate PagesUpTo(pages: seq<Page>, gap: Span, seen: int) {
    forall t :: gap.Has(t) && t < seen ==> PagesHave(pages, t)
  }

  /** Every page starts strictly after the one before it. */
  ghost predicate CursorAdvances(pages: seq<Page>) {
    forall i, j :: 0 <= i < j < |pages| ==> pages[i].from < pages[j].from
  }

  ghost predicate PagesWithin(pages: seq<Page>, gap: Span, seen: int) {
    forall p :: p in pages ==> gap.from <= p.from < p.to <= gap.to && p.to <= seen
  }

  /**
   * What a page may claim of the response to a request from its start: no
   * more than the response reaches, and only records it has.
   */
  ghost predicate Answers(r: Response, p: Page) {
    && r.Batch? && r.trades != [] && p.from < p.to <= Last(r.trades).time + 1
    && forall t :: t in p.records ==> t in r.trades && p.from <= t.time < p.to
  }

  ghost predicate AnsweredPage(net: Network, p: Page) {
    exists n: nat :: Answers(net.answer(n, p.from), p)
  }

  /** Every page stands for a response the network gave to a request from its start. */
  ghost predicate Answered(net: Network, pages: seq<Page>) {
    forall p :: p in pages ==> AnsweredPage(net, p)
  }

  /** Everything handed to the cache, page after page. */
  function Records(pages: seq<Page>): seq<Trade> {
    if pages == [] then [] else Records(Front(pages)) + Last(pages).records
  }

  /** Whenever a page claims a span, the pages up to it hold every trade of that span that counts. */
  ghost predicate Recorded(truth: seq<Trade>, pages: seq<Page>) {
    pages == [] ||
    (&& Recorded(truth, Front(pages))
     && forall t :: Counts(truth, t) && Last(pages).from <= t.time < Last(pages).to ==> t in Records(pages))
  }

  lemma PagesSnoc(pages: seq<Page>, p: Page, t: int)
    ensures PagesHave(pages + [p], t) <==> PagesHave(pages, t) || p.from <= t < p.to
  {
    var r := pages + [p];
    assert r[|pages|] == p && forall i :: 0 <= i < |pages| ==> r[i] == pages[i];
  }

  lemma PagesGrow(pages: seq<Page>, p: Page, gap: Span, seen: int, latest: int)
    requires PagesUpTo(pages, gap, seen)
    requires p.from <= seen && p.to == Min(latest, gap.to - 1) + 1
    ensures PagesUpTo(pages + [p], gap, latest + 1)
  {
    forall t | gap.Has(t) && t < latest + 1 ensures PagesHave(pages + [p], t) {
      PagesSnoc(pages, p, t);
    }
  }

  /** What the cache has been told of one gap when all of it before `seen` has been looked at. */
  ghost predicate GapPages(net: Network, truth: seq<Trade>, gap: Span, seen: int, last: Option<U64>, pages: seq<Page>) {
    && PagesUpTo(pages, gap, seen) && CursorAdvances(pages) && PagesWithin(pages, gap, seen)
    && Answered(net, pages) && Recorded(truth, pages)
    && Progress(truth, [gap], gap, seen, last, Records(pages))
  }

  lemma PageStored(net: Network, n: nat, truth: seq<Trade>, gap: Span, seen: int, last: Option<U64>,
                   pages: seq<Page>, cursor: U64, kept: Kept, p: Page)
    requires GapPages(net, truth, gap, seen, last, pages)
    requires gap.from <= cursor < gap.to && cursor <= seen <= cursor + 1
    requires forall q :: q in pages ==> q.from < cursor
    requires net.answer(n, cursor).Batch? && net.answer(n, cursor).trades != []
    requires Faithful(net.answer(n, cursor), cursor, truth)
    requires kept == Retain(SortByKey(net.answer(n, cursor).trades, Key), cursor, gap.to, last)
    requires p == Page(cursor, Min(Last(net.answer(n, cursor).trades).time, gap.to - 1) + 1, kept.batch)
    ensures GapPages(net, truth, gap, Last(net.answer(n, cursor).trades).time + 1, kept.last, pages + [p])
  {
    var latest: int := Last(net.answer(n, cursor).trades).time;
    PageAnswers(net, n, truth, gap, last, cursor, kept, p);
    PageRecords(truth, gap, seen, last, pages, cursor, net.answer(n, cursor).trades, kept, p);
    PageRecorded(truth, gap, latest + 1, kept.last, pages, p);
    PagesGrow(pages, p, gap, seen, latest);
    PageAppended(pages, p, gap, seen, latest + 1);
  }

  lemma PageAppended(pages: seq<Page>, p: Page, gap: Span, seen: int, seen': int)
    requires CursorAdvances(pages) && PagesWithin(pages, gap, seen) && seen <= seen'
    requires forall q :: q in pages ==> q.from < p.from
    requires gap.from <= p.from < p.to <= gap.to && p.to <= seen'
    ensures CursorAdvances(pages + [p]) && PagesWithin(pages + [p], gap, seen')
  {
  }

  lemma PageRecords(truth: seq<Trade>, gap: Span, seen: int, last: Option<U64>, pages: seq<Page>,
                    cursor: U64, raw: seq<Trade>, kept: Kept, p: Page)
    requires Progress(truth, [gap], gap, seen, last, Records(pages))
    requires gap.from <= cursor <= seen <= cursor + 1
    requires raw != [] && Faithful(Batch(raw), cursor, truth)
    requires kept == Retain(SortByKey(raw, Key), cursor, gap.to, last) && p.records == kept.batch
    ensures Progress(truth, [gap], gap, Last(raw).time + 1, kept.last, Records(pages + [p]))
  {
    PageProgress(truth, [gap], gap, seen, last, Records(pages), cursor, raw, kept);
    PageFacts(truth, gap, last, cursor, raw, kept);
    forall t | t in kept.batch ensures Covers([gap], t.time) { assert [gap][0].Has(t.time); }
    InGapsAll(kept.batch, [gap]);
    assert Front(pages + [p]) == pages;
  }

  lemma PageRecorded(truth: seq<Trade>, gap: Span, seen: int, last: Option<U64>, pages: seq<Page>, p: Page)
    requires Recorded(truth, pages) && Progress(truth, [gap], gap, seen, last, Records(pages + [p]))
    requires gap.from <= p.from && p.to <= gap.to && p.to <= seen
    ensures Recorded(truth, pages + [p])
  {
    assert Front(pages + [p]) == pages;
    forall t | Counts(truth, t) && p.from <= t.time < p.to ensures t in Records(pages + [p]) {
      assert [gap][0].Has(t.time);
    }
  }

  lemma PageAnswers(net: Network, n: nat, truth: seq<Trade>, gap: Span, last: Option<U64>,
                    cursor: U64, kept: Kept, p: Page)
    requires gap.from <= cursor < gap.to
    requires net.answer(n, cursor).Batch? && net.answer(n, cursor).trades != []
    requires Faithful(net.answer(n, cursor), cursor, truth)
    requires kept == Retain(SortByKey(net.answer(n, cursor).trades, Key), cursor, gap.to, last)
    requires p == Page(cursor, Min(Last(net.answer(n, cursor).trades).time, gap.to - 1) + 1, kept.batch)
    ensures AnsweredPage(net, p)
  {
    var raw := net.answer(n, cursor).trades;
    SortByKeyMembers(raw, Key);
    RetainFresh(SortByKey(raw, Key), cursor, gap.to, last);
    assert Answers(net.answer(n, p.from), p);
  }

  function TailOf(end: GapEnd, gap: Span): int {
    if end.Stopped? && end.result.Finished? && end.result.outcome.unfilledTail.Some?
    then end.result.outcome.unfilledTail.value.from else gap.to
  }

  /** What a stop may claim: a tail of the request that begins inside the gap or just past it. */
  ghost predicate LegalEnd(end: GapEnd, gap: Span, toTime: U64) {
    end.Stopped? && end.result.Finished? ==>
      var o := end.result.outcome;
      && o.unfilledTail.Some? && o.unfilledTail.value.to == toTime
      && gap.from <= o.unfilledTail.value.from <= gap.to
      && (o.emptyTail.Some? ==> o.emptyTail == o.unfilledTail)
  }

  /** What has been done for one gap when all of it before `seen` has been looked at. */
  ghost predicate GapState(net: Network, truth: seq<Trade>, gaps: seq<Span>, gap: Span, seen: int, last: Option<U64>,
                           chunks: seq<seq<Trade>>, pages: seq<Page>)
  {
    && Progress(truth, gaps, gap, seen, last, Flatten(chunks)) && [] !in chunks
    && GapPages(net, truth, gap, seen, last, pages)
  }

  /** Every trade of the gaps that counts and lies in a page has been sent. */
  ghost predicate PagesSent(truth: seq<Trade>, gaps: seq<Span>, pages: seq<Page>, sent: seq<Trade>) {
    forall t :: Counts(truth, t) && Covers(gaps, t.time) && PagesHave(pages, t.time) ==> t in sent
  }

  ghost predicate AllIn(truth: seq<Trade>, from: int, to: int, s: seq<Trade>) {
    forall t :: t in s ==> t in truth && from <= t.time < to
  }

  /** What the pages of one gap promise, however the work on it ended. */
  ghost predicate PagesKept(net: Network, truth: seq<Trade>, gap: Span, pages: seq<Page>) {
    && CursorAdvances(pages) && PagesWithin(pages, gap, gap.to)
    && Answered(net, pages) && Recorded(truth, pages)
    && AllIn(truth, gap.from, gap.to, Records(pages)) && DistinctIds(Records(pages))
  }

  /** What the work on one gap promises, however it ended. */
  ghost predicate GapResult(net: Network, truth: seq<Trade>, gaps: seq<Span>, gap: Span, toTime: U64, end: GapEnd,
                            chunks: seq<seq<Trade>>, pages: seq<Page>)
  {
    && LegalEnd(end, gap, toTime) && [] !in chunks
    && DistinctIds(Flatten(chunks)) && Sound(truth, gaps, gap, gap.to, Flatten(chunks))
    && PagesSent(truth, gaps, pages, Flatten(chunks)) && PagesKept(net, truth, gap, pages)
    && (!(end.Stopped? && end.result.Broken?) ==> PagesUpTo(pages, gap, TailOf(end, gap)))
  }

  lemma StopHere(net: Network, truth: seq<Trade>, gaps: seq<Span>, gap: Span, seen: int, last: Option<U64>,
                 toTime: U64, end: GapEnd, chunks: seq<seq<Trade>>, pages: seq<Page>)
    requires GapState(net, truth, gaps, gap, seen, last, chunks, pages)
    requires LegalEnd(end, gap, toTime)
    requires !(end.Stopped? && end.result.Broken?) ==> TailOf(end, gap) <= seen
    ensures GapResult(net, truth, gaps, gap, toTime, end, chunks, pages)
  {
    forall t | Counts(truth, t) && Covers(gaps, t.time) && PagesHave(pages, t.time) ensures t in Flatten(chunks) {
      var i :| 0 <= i < |pages| && pages[i].from <= t.time < pages[i].to;
      assert pages[i] in pages;
    }
  }

  method SendBatch(chunks: seq<seq<Trade>>, batch: seq<Trade>) returns (r: seq<seq<Trade>>)
    ensures Flatten(r) == Flatten(chunks) + batch
    ensures [] !in chunks ==> [] !in r
  {
    if batch != [] {
      r := chunks + [batch];
      FlattenSnoc(chunks, batch);
    } else {
      r := chunks;
    }
  }

  /** Filters a page, tells the cache of it, and sends on what the caller lacks. */
  method AbsorbPage(net: Network, request: nat, requestFrom: U64, gap: Span, gaps: seq<Span>, last: Option<U64>,
                    chunks: seq<seq<Trade>>, pages: seq<Page>, ghost truth: seq<Trade>, ghost seen: int)
    returns (last': Option<U64>, chunks': seq<seq<Trade>>, pages': seq<Page>)
    requires GapState(net, truth, gaps, gap, seen, last, chunks, pages)
    requires gap.from <= requestFrom < gap.to && requestFrom <= seen <= requestFrom + 1
    requires net.answer(request, requestFrom).Batch? && net.answer(request, requestFrom).trades != []
    requires Faithful(net.answer(request, requestFrom), requestFrom, truth)
    requires forall p :: p in pages ==> p.from < requestFrom
    ensures GapState(net, truth, gaps, gap, Last(net.answer(request, requestFrom).trades).time + 1, last', chunks',
      pages')
    ensures forall p :: p in pages' ==> p.from <= requestFrom
  {
    var raw := net.answer(request, requestFrom).trades;
    var target := SatSub(gap.to, 1);
    var coveredTo := SatAdd(Min(Last(raw).time, target), 1);
    var kept, next, _ := FilterNewFetchedTrades(raw, requestFrom, gap.to, last);
    PageProgress(truth, gaps, gap, seen, last, Flatten(chunks), requestFrom, raw, Kept(kept, next));
    PageStored(net, request, truth, gap, seen, last, pages, requestFrom, Kept(kept, next),
      Page(requestFrom, coveredTo, kept));
    last', pages' := next, pages + [Page(requestFrom, coveredTo, kept)];
    chunks' := SendBatch(chunks, InGaps(kept, gaps));
  }

  // ------------------------------------------------------ how a run ends

  /** Why a run stopped, and at which cursor: `Stalled` is just past the last time seen, near `gapEnd` or for good. */
  datatype Stop =
    | AllFilled
    | Interrupted(cursor: U64)
    | Rejected(cursor: U64, error: string)
    | RanDry(cursor: U64)
    | Stalled(cursor: U64, gapEnd: U64)

  /** Request `n` was answered with nothing beyond its own cursor. */
  ghost predicate StalledAt(net: Network, n: int, cursor: int) {
    && n >= 0 && 0 <= cursor <= U64_MAX
    && net.answer(n, cursor).Batch? && net.answer(n, cursor).trades != []
    && Last(net.answer(n, cursor).trades).time == cursor
  }

  /** The last `stalls` requests before request `n` at `cursor` made no progress, as far as three of them count. */
  ghost predicate StallRun(net: Network, n: int, cursor: int, stalls: nat) {
    && (stalls >= 1 ==> StalledAt(net, n - 1, cursor - 1))
    && (stalls >= 2 ==> StalledAt(net, n - 2, cursor - 2))
  }

  /**
   * What the result says of the end of the run, whose last request was `n`: a
   * time-out or 85 s of work leave the rest to be retried, or are an error
   * when nothing has been gained; a refusal is an error; an empty answer leaves
   * an empty tail; and no progress, three times in a row or within a second of
   * the end of the gap, leaves a tail past the last time seen.
   */
  ghost predicate Ended(net: Network, n: nat, fromTime: U64, toTime: U64, result: WorkerResult, stop: Stop) {
    match stop
    case AllFilled => result == Finished(Outcome(None, None))
    case Interrupted(c) =>
      && (net.answer(n, c).TimedOut? || net.elapsed(n) >= 85_000)
      && result ==
           if c > fromTime then Finished(Outcome(Some(Tail(c, toTime)), None)) else Broken("TimedOut: without progress")
    case Rejected(c, error) => net.answer(n, c) == Refused(error) && result == Broken(error)
    case RanDry(c) =>
      net.answer(n, c) == Batch([]) && result == Finished(Outcome(Some(Tail(c, toTime)), Some(Tail(c, toTime))))
    case Stalled(c, gapEnd) =>
      && StalledAt(net, n, c - 1) && result == Finished(Outcome(Some(Tail(c, toTime)), None))
      && (gapEnd - 1 - (c - 1) <= 1_000 || (StalledAt(net, n - 1, c - 2) && StalledAt(net, n - 2, c - 3)))
  }

  /** No page reaches beyond the cursor the run stopped at. */
  ghost predicate Behind(pages: seq<Page>, stop: Stop) {
    stop != AllFilled ==> forall p :: p in pages ==> p.from < stop.cursor && p.to <= stop.cursor + 1
  }

  /** The run stopped within this gap. */
  ghost predicate StoppedIn(gap: Span, stop: Stop) {
    && (stop != AllFilled ==> gap.from <= stop.cursor <= gap.to)
    && (stop.Stalled? ==> stop.gapEnd == gap.to)
  }

  /** What the end of the work on one gap says of the network. */
  ghost predicate GapEnded(net: Network, n: nat, fromTime: U64, toTime: U64, gap: Span, end: GapEnd,
                           pages: seq<Page>, stop: Stop)
  {
    if end.Filled? then stop == AllFilled
    else
      && stop != AllFilled && Ended(net, n, fromTime, toTime, end.result, stop)
      && Behind(pages, stop) && StoppedIn(gap, stop)
  }

  /** Where to ask next: from the last time seen, or one past it when that is where the page began, or not at all. */
  method Advance(requestFrom: U64, lastTime: U64, target: U64, stalls: nat)
    returns (stop: bool, next: U64, stalls': nat)
    requires requestFrom <= lastTime && requestFrom <= target
    ensures stalls' == if lastTime == requestFrom then stalls + 1 else 0
    ensures stop ==> target - lastTime <= 1_000 || stalls' >= 3
    ensures stop ==> lastTime == requestFrom && next == SatAdd(lastTime, 1)
    ensures !stop ==> next == if lastTime == requestFrom then lastTime + 1 else lastTime
    ensures !stop && lastTime == requestFrom ==> next < target
  {
    if lastTime > requestFrom { return false, lastTime, 0; }
    stalls' := stalls + 1;
    next := SatAdd(lastTime, 1);
    stop := SatSub(target, lastTime) <= NO_PROGRESS_REMAINING_EPSILON_MS
         || stalls' >= NO_PROGRESS_MAX_CONSECUTIVE
         || next >= target;
  }

  /** One request, and what the gap has come to when it was the last one. */
  method RequestPage(net: Network, request: nat, requestFrom: U64, stalls: nat, gap: Span, gaps: seq<Span>,
                     fromTime: U64, toTime: U64, last: Option<U64>, chunks: seq<seq<Trade>>, pages: seq<Page>,
                     ghost truth: seq<Trade>, ghost seen: int)
    returns (end: GapEnd, next: U64, stalls': nat, last': Option<U64>, chunks': seq<seq<Trade>>, pages': seq<Page>,
             ghost seen': int, ghost stop: Stop)
    requires FaithfulNetwork(net, truth) && fromTime <= gap.from
    requires gap.from <= requestFrom < gap.to && requestFrom <= seen <= requestFrom + 1
    requires GapState(net, truth, gaps, gap, seen, last, chunks, pages)
    requires forall p :: p in pages ==> p.from < requestFrom
    requires StallRun(net, request, requestFrom, stalls)
    ensures end.Filled? ==> GapState(net, truth, gaps, gap, seen', last', chunks', pages')
    ensures end.Filled? ==> requestFrom < next <= seen' <= next + 1 && forall p :: p in pages' ==> p.from < next
    ensures end.Filled? ==> StallRun(net, request + 1, next, stalls')
    ensures GapEnded(net, request, fromTime, toTime, gap, end, pages', stop)
    ensures end.Stopped? || next >= gap.to - 1 ==> GapResult(net, truth, gaps, gap, toTime, end, chunks', pages')
  {
    end, next, stalls', last', chunks', pages', seen', stop :=
      AskPage(net, request, requestFrom, stalls, gap, gaps, fromTime, toTime, last, chunks, pages, truth, seen);
    if end.Stopped? || next >= gap.to - 1 {
      StopHere(net, truth, gaps, gap, seen', last', toTime, end, chunks', pages');
    }
  }

  /** One request: how it ends the gap, or where it takes the cursor. */
  method AskPage(net: Network, request: nat, requestFrom: U64, stalls: nat, gap: Span, gaps: seq<Span>,
                 fromTime: U64, toTime: U64, last: Option<U64>, chunks: seq<seq<Trade>>, pages: seq<Page>,
                 ghost truth: seq<Trade>, ghost seen: int)
    returns (end: GapEnd, next: U64, stalls': nat, last': Option<U64>, chunks': seq<seq<Trade>>, pages': seq<Page>,
             ghost seen': int, ghost stop: Stop)
    requires FaithfulNetwork(net, truth) && fromTime <= gap.from
    requires gap.from <= requestFrom < gap.to && requestFrom <= seen <= requestFrom + 1
    requires GapState(net, truth, gaps, gap, seen, last, chunks, pages)
    requires forall p :: p in pages ==> p.from < requestFrom
    requires StallRun(net, request, requestFrom, stalls)
    ensures end.Filled? ==> StallRun(net, request + 1, next, stalls')
    ensures GapEnded(net, request, fromTime, toTime, gap, end, pages', stop)
    ensures GapState(net, truth, gaps, gap, seen', last', chunks', pages')
    ensures end.Filled? ==> requestFrom < next <= seen' <= next + 1 && forall p :: p in pages' ==> p.from < next
    ensures end.Filled? && next >= gap.to - 1 ==> seen' == next + 1
    ensures LegalEnd(end, gap, toTime)
    ensures end.Stopped? && end.result.Finished? ==> TailOf(end, gap) <= seen'
  {
    end, next, stalls', last', chunks', pages', seen' := Filled, requestFrom, stalls, last, chunks, pages, seen;
    stop := AllFilled;
    var response := net.answer(request, requestFrom);
    assert FaithfulAt(net, truth, request, requestFrom);
    match response {
      case TimedOut =>
        end, stop := Stopped(InterruptedTradeFetch(fromTime, toTime, requestFrom)), Interrupted(requestFrom);
      case Refused(error) =>
        end, stop := Stopped(Broken(error)), Rejected(requestFrom, error);
      case Batch(raw) =>
        if raw == [] {
          end, stop := Stopped(Finished(EmptyTail(requestFrom, toTime))), RanDry(requestFrom);
          return;
        }
        last', chunks', pages' := AbsorbPage(net, request, requestFrom, gap, gaps, last, chunks, pages, truth, seen);
        seen' := Last(raw).time + 1;
        end, next, stalls', stop := MoveCursor(net, request, requestFrom, stalls, gap, toTime, fromTime);
    }
  }

  /** What a page that is not empty does to the cursor. */
  method MoveCursor(net: Network, request: nat, requestFrom: U64, stalls: nat, gap: Span, toTime: U64,
                    ghost fromTime: U64)
    returns (end: GapEnd, next: U64, stalls': nat, ghost stop: Stop)
    requires net.answer(request, requestFrom).Batch? && net.answer(request, requestFrom).trades != []
    requires requestFrom <= Last(net.answer(request, requestFrom).trades).time
    requires gap.from <= requestFrom < gap.to && StallRun(net, request, requestFrom, stalls)
    ensures var lastTime := Last(net.answer(request, requestFrom).trades).time;
      if end.Filled? then
        && stop == AllFilled && StallRun(net, request + 1, next, stalls')
        && requestFrom < next && lastTime <= next <= lastTime + 1
        && (next >= gap.to - 1 ==> next == lastTime)
      else
        && Ended(net, request, fromTime, toTime, end.result, stop) && StoppedIn(gap, stop)
        && stop == Stalled(requestFrom + 1, gap.to) && lastTime == requestFrom
        && LegalEnd(end, gap, toTime) && TailOf(end, gap) == lastTime + 1
  {
    var halt;
    end, stop := Filled, AllFilled;
    halt, next, stalls' := Advance(requestFrom, Last(net.answer(request, requestFrom).trades).time, SatSub(gap.to, 1),
      stalls);
    if halt { end, stop := Stopped(Finished(RetryableTail(next, toTime))), Stalled(next, gap.to); }
  }

  /** After 85 s the rest is left to be retried. */
  method TimeUp(net: Network, requests: nat, gap: Span, gaps: seq<Span>, fromTime: U64, toTime: U64, latest: U64,
                last: Option<U64>, chunks: seq<seq<Trade>>, pages: seq<Page>, ghost truth: seq<Trade>, ghost seen: int)
    returns (end: GapEnd, ghost stop: Stop)
    requires net.elapsed(requests) >= 85_000 && fromTime <= gap.from <= latest < gap.to && latest <= seen <= latest + 1
    requires GapState(net, truth, gaps, gap, seen, last, chunks, pages)
    requires forall p :: p in pages ==> p.from < latest
    ensures end.Stopped? && GapResult(net, truth, gaps, gap, toTime, end, chunks, pages)
    ensures GapEnded(net, requests, fromTime, toTime, gap, end, pages, stop)
  {
    end, stop := Stopped(InterruptedTradeFetch(fromTime, toTime, latest)), Interrupted(latest);
    StopHere(net, truth, gaps, gap, seen, last, toTime, end, chunks, pages);
  }

  /** The paging loop of one gap. */
  method FetchGap(net: Network, firstRequest: nat, gap: Span, gaps: seq<Span>, fromTime: U64, toTime: U64,
                  ghost truth: seq<Trade>)
    returns (end: GapEnd, requests: nat, chunks: seq<seq<Trade>>, pages: seq<Page>, duplicateStop: bool,
             ghost stop: Stop)
    requires FaithfulNetwork(net, truth)
    requires gap.from < gap.to && fromTime <= gap.from
    ensures !duplicateStop
    ensures GapResult(net, truth, gaps, gap, toTime, end, chunks, pages)
    ensures GapEnded(net, requests, fromTime, toTime, gap, end, pages, stop)
  {
    var target := SatSub(gap.to, 1);
    var latest: U64 := gap.from;
    var stalls: nat := 0;
    var prevFrom: Option<U64> := None;
    var last: Option<U64> := None;
    requests, chunks, pages, duplicateStop := firstRequest, [], [], false;
    end, stop := Filled, AllFilled;
    ghost var seen: int := gap.from;
    while true
      invariant gap.from <= latest <= target && latest <= seen <= latest + 1
      invariant end == Filled && stop == AllFilled && !duplicateStop
      invariant StallRun(net, requests + 1, latest, stalls)
      invariant prevFrom.Some? ==> prevFrom.value < latest
      invariant forall p :: p in pages ==> p.from < latest
      invariant GapState(net, truth, gaps, gap, seen, last, chunks, pages)
      decreases gap.to - latest
    {
      if latest > target { break; }
      if net.elapsed(requests) >= WORKER_TIMEOUT_MS {
        end, stop := TimeUp(net, requests, gap, gaps, fromTime, toTime, latest, last, chunks, pages, truth, seen);
        return;
      }
      requests := requests + 1;
      if prevFrom == Some(latest) {
        duplicateStop := true;
        break;
      }
      prevFrom := Some(latest);
      var stalled := stalls;
      end, latest, stalls, last, chunks, pages, seen, stop :=
        RequestPage(net, requests, latest, stalls, gap, gaps, fromTime, toTime, last, chunks, pages, truth, seen);
      if end.Stopped? || latest >= target { break; }
      if stalls > stalled { prevFrom := None; }
    }
  }

  // ------------------------------------------------------- the whole run

  ghost predicate NetSound(truth: seq<Trade>, gaps: seq<Span>, sent: seq<Trade>, upper: int) {
    forall t :: t in sent ==> t in truth && Covers(gaps, t.time) && t.time < upper
  }

  ghost predicate NetPages(gaps: seq<Span>, pages: seq<Page>, bound: int) {
    forall t :: Covers(gaps, t) && t < bound ==> PagesHave(pages, t)
  }

  function BoundAt(spans: seq<Span>, i: nat): int
    requires i <= |spans|
  {
    if i == 0 then 0 else spans[i - 1].to
  }

  ghost predicate Ascending(spans: seq<Span>) {
    && (forall i :: 0 <= i < |spans| ==> spans[i].from < spans[i].to)
    && (forall i, j :: 0 <= i < j < |spans| ==> spans[i].to < spans[j].from)
  }

  /** Where a covered millisecond can be, once the first `i` spans are behind. */
  lemma Locate(spans: seq<Span>, i: nat, t: int)
    requires Ascending(spans) && i <= |spans| && Covers(spans, t)
    ensures i == |spans| ==> t < BoundAt(spans, i)
    ensures i < |spans| && BoundAt(spans, i) <= t < spans[i].to ==> spans[i].Has(t)
  {
    var k :| 0 <= k < |spans| && spans[k].Has(t);
    if i > 0 && k < i - 1 { assert spans[k].to < spans[i - 1].from; }
  }

  /** The merged gaps ascend and have every millisecond of the original ones. */
  ghost predicate Merges(gaps: seq<Span>, merged: seq<Span>) {
    Ascending(merged) && forall t :: Covers(gaps, t) ==> Covers(merged, t)
  }

  lemma CoalesceMerges(gaps: seq<Span>)
    requires SortedByStart(gaps)
    ensures Merges(gaps, Coalesce(gaps, TRADE_GAP_COALESCE_BRIDGE_MS))
  {
    var merged := Coalesce(gaps, TRADE_GAP_COALESCE_BRIDGE_MS);
    CoalesceSettles(gaps, TRADE_GAP_COALESCE_BRIDGE_MS);
    SeparatedPairwise(merged, TRADE_GAP_COALESCE_BRIDGE_MS);
    forall t | Covers(gaps, t) ensures Covers(merged, t) {
      CoalesceCovers(gaps, TRADE_GAP_COALESCE_BRIDGE_MS, t);
    }
  }

  /** What the pages of a run that begins at `from` promise once everything before `upper` is behind. */
  ghost predicate PageBook(net: Network, truth: seq<Trade>, pages: seq<Page>, from: int, upper: int) {
    && CursorAdvances(pages) && (forall p :: p in pages ==> from <= p.from < p.to <= upper)
    && Answered(net, pages) && Recorded(truth, pages)
    && AllIn(truth, from, upper, Records(pages)) && (IdsName(truth) ==> DistinctIds(Records(pages)))
  }

  lemma {:induction false} RecordsJoin(a: seq<Page>, b: seq<Page>)
    ensures Records(a + b) == Records(a) + Records(b)
  {
    if b == [] {
      assert a + b == a;
    } else {
      RecordsJoin(a, Front(b));
      assert Front(a + b) == a + Front(b) && Last(a + b) == Last(b);
      Assoc(Records(a), Records(Front(b)), Last(b).records);
    }
  }

  lemma {:induction false} RecordedJoin(truth: seq<Trade>, a: seq<Page>, b: seq<Page>)
    requires Recorded(truth, a) && Recorded(truth, b)
    ensures Recorded(truth, a + b)
  {
    if b == [] {
      assert a + b == a;
    } else {
      RecordedJoin(truth, a, Front(b));
      RecordsJoin(a, b);
      assert Front(a + b) == a + Front(b) && Last(a + b) == Last(b);
      assert forall t :: t in Records(b) ==> t in Records(a + b);
    }
  }

  lemma AdvancesJoin(a: seq<Page>, b: seq<Page>, bound: int)
    requires CursorAdvances(a) && CursorAdvances(b)
    requires (forall p :: p in a ==> p.from < bound) && (forall p :: p in b ==> bound <= p.from)
    ensures CursorAdvances(a + b)
  {
    var r := a + b;
    forall i, j | 0 <= i < j < |r| ensures r[i].from < r[j].from {
      if i < |a| <= j { assert a[i] in a && b[j - |a|] in b; }
    }
  }

  lemma BookJoin(net: Network, truth: seq<Trade>, from: int, upper: int, gap: Span, pages: seq<Page>, more: seq<Page>)
    requires PageBook(net, truth, pages, from, upper) && PagesKept(net, truth, gap, more)
    requires from <= gap.from && upper <= gap.from < gap.to
    ensures PageBook(net, truth, pages + more, from, gap.to)
  {
    AdvancesJoin(pages, more, gap.from);
    RecordedJoin(truth, pages, more);
    RecordsJoin(pages, more);
    if IdsName(truth) { DisjointTimes(truth, Records(pages), Records(more), gap.from); }
  }

  /** The trades sent for one merged gap join those sent before it. */
  lemma SentJoin(truth: seq<Trade>, gaps: seq<Span>, gap: Span, upper: int,
                 sent: seq<Trade>, novel: seq<Trade>, pages: seq<Page>, more: seq<Page>)
    requires NetSound(truth, gaps, sent, upper) && Sound(truth, gaps, gap, gap.to, novel) && upper <= gap.from < gap.to
    requires (IdsName(truth) ==> DistinctIds(sent)) && DistinctIds(novel)
    requires PagesSent(truth, gaps, pages, sent) && PagesSent(truth, gaps, more, novel)
    ensures NetSound(truth, gaps, sent + novel, gap.to)
    ensures IdsName(truth) ==> DistinctIds(sent + novel)
    ensures PagesSent(truth, gaps, pages + more, sent + novel)
  {
    if IdsName(truth) { DisjointTimes(truth, sent, novel, gap.from); }
    forall t | Counts(truth, t) && Covers(gaps, t.time) && PagesHave(pages + more, t.time) ensures t in sent + novel {
      PagesJoin(pages, more, t.time);
    }
  }

  /** The pages of one merged gap join those before it, up to where the gap has been filled. */
  lemma ReachJoin(gaps: seq<Span>, merged: seq<Span>, i: nat, pages: seq<Page>, more: seq<Page>, tail: int)
    requires Merges(gaps, merged) && i < |merged| && tail <= merged[i].to
    requires NetPages(gaps, pages, BoundAt(merged, i)) && PagesUpTo(more, merged[i], tail)
    ensures NetPages(gaps, pages + more, tail)
  {
    forall t | Covers(gaps, t) && t < tail ensures PagesHave(pages + more, t) {
      Locate(merged, i, t);
      PagesJoin(pages, more, t);
    }
  }

  lemma PagesJoin(a: seq<Page>, b: seq<Page>, t: int)
    ensures PagesHave(a + b, t) <==> PagesHave(a, t) || PagesHave(b, t)
  {
    var r := a + b;
    assert forall i :: 0 <= i < |a| ==> r[i] == a[i];
    assert forall i :: 0 <= i < |b| ==> r[|a| + i] == b[i];
    if PagesHave(r, t) {
      var i :| 0 <= i < |r| && r[i].from <= t < r[i].to;
      if i >= |a| { assert b[i - |a|] == r[i]; }
    }
  }

  /** Trades with one id have one time, so batches of disjoint times share no id. */
  lemma DisjointTimes(truth: seq<Trade>, a: seq<Trade>, b: seq<Trade>, bound: int)
    requires IdsName(truth) && DistinctIds(a) && DistinctIds(b)
    requires forall t :: t in a ==> t in truth && t.time < bound
    requires forall t :: t in b ==> t in truth && t.time >= bound
    ensures DistinctIds(a + b)
  {
    forall i, j | 0 <= i < |a| && 0 <= j < |b| && a[i].id.Some? && b[j].id.Some? ensures a[i].id != b[j].id {
      assert a[i] in a && b[j] in b;
    }
  }

  /**
   * What the run needs of the cache so that no id comes twice: its records lie outside the
   * gaps and agree with the exchange.
   */
  ghost predicate CacheApart(cached: seq<Trade>, truth: seq<Trade>, gaps: seq<Span>) {
    && DistinctIds(cached)
    && (forall c :: c in cached ==> !Covers(gaps, c.time))
    && (forall c, t :: c in cached && t in truth && c.id.Some? && c.id == t.id ==> c.time == t.time)
  }

  lemma CachedAndSent(cached: seq<Trade>, truth: seq<Trade>, gaps: seq<Span>, sent: seq<Trade>, upper: int)
    requires NetSound(truth, gaps, sent, upper) && (IdsName(truth) ==> DistinctIds(sent))
    ensures IdsName(truth) && CacheApart(cached, truth, gaps) ==> DistinctIds(cached + sent)
  {
    if IdsName(truth) && CacheApart(cached, truth, gaps) {
      forall i, j | 0 <= i < |cached| && 0 <= j < |sent| && cached[i].id.Some? && sent[j].id.Some?
        ensures cached[i].id != sent[j].id
      {
        assert cached[i] in cached && sent[j] in sent;
      }
    }
  }

  method SendCached(cached: seq<Trade>) returns (chunks: seq<seq<Trade>>)
    ensures Flatten(chunks) == cached
    ensures forall i :: 0 <= i < |chunks| ==> 0 < |chunks[i]| <= CHUNK
  {
    chunks := [];
    var sent := 0;
    while sent < |cached|
      invariant sent <= |cached| && Flatten(chunks) == cached[..sent]
      invariant forall i :: 0 <= i < |chunks| ==> 0 < |chunks[i]| <= CHUNK
    {
      var next := Min(sent + CHUNK, |cached|);
      FlattenSnoc(chunks, cached[sent..next]);
      SliceJoin(cached, sent, next);
      chunks, sent := chunks + [cached[sent..next]], next;
    }
  }

  lemma {:induction false} FlattenJoin<T>(a: seq<seq<T>>, b: seq<seq<T>>)
    ensures Flatten(a + b) == Flatten(a) + Flatten(b)
  {
    if b == [] {
      assert a + b == a;
    } else {
      FlattenJoin(a, Front(b));
      assert Front(a + b) == a + Front(b) && Last(a + b) == Last(b);
      Assoc(Flatten(a), Flatten(Front(b)), Last(b));
    }
  }

  lemma MergedWithin(gaps: seq<Span>, from: U64, toExclusive: U64, i: nat)
    requires SortedByStart(gaps) && forall t :: Covers(gaps, t) ==> from <= t < toExclusive
    requires var merged := Coalesce(gaps, TRADE_GAP_COALESCE_BRIDGE_MS); Ascending(merged) && i < |merged|
    ensures var g := Coalesce(gaps, TRADE_GAP_COALESCE_BRIDGE_MS)[i]; from <= g.from && g.to <= toExclusive
  {
    var merged := Coalesce(gaps, TRADE_GAP_COALESCE_BRIDGE_MS);
    assert merged[i].Has(merged[i].from) && merged[i].Has(merged[i].to - 1);
    InSpan(gaps, from, toExclusive, merged[i].from);
    InSpan(gaps, from, toExclusive, merged[i].to - 1);
  }

  lemma InSpan(gaps: seq<Span>, from: U64, toExclusive: U64, t: int)
    requires SortedByStart(gaps) && forall t :: Covers(gaps, t) ==> from <= t < toExclusive
    requires Covers(Coalesce(gaps, TRADE_GAP_COALESCE_BRIDGE_MS), t)
    ensures from <= t < toExclusive
  {
    CoalesceCovers(gaps, TRADE_GAP_COALESCE_BRIDGE_MS, t);
    if !Covers(gaps, t) {
      var i, j :| Hole(gaps, TRADE_GAP_COALESCE_BRIDGE_MS, t, i, j);
      assert gaps[i].Has(gaps[i].from) && gaps[j].Has(gaps[j].from);
      assert Covers(gaps, gaps[i].from) && Covers(gaps, gaps[j].from);
    }
  }

  lemma GapsSorted(gaps: seq<Span>)
    requires Separated(gaps, 0)
    ensures SortedByStart(gaps)
  {
    SeparatedPairwise(gaps, 0);
  }

  const COMPLETE := Outcome(None, None)

  /** The run vouches for every millisecond before this one. */
  function VerifiedBefore(result: WorkerResult): int {
    if result.Finished? && result.outcome.unfilledTail.Some? then result.outcome.unfilledTail.value.from
    else U64_MAX + 1
  }

  /** A requested millisecond the cache lacks; the last representable one cannot be requested. */
  ghost predicate Lacks(coverage: seq<Span>, fromTime: U64, toTime: U64, t: int) {
    fromTime <= t <= toTime && t < U64_MAX && !Covers(coverage, t)
  }

  /** The milliseconds of the request that the cache lacks and the run vouches for. */
  ghost predicate Owed(t: int, coverage: seq<Span>, fromTime: U64, toTime: U64, result: WorkerResult) {
    Lacks(coverage, fromTime, toTime, t) && t < VerifiedBefore(result)
  }

  /** A tail ends with the request, and starts inside it or just past its end. */
  ghost predicate LegalOutcome(result: WorkerResult, fromTime: U64, toTime: U64) {
    result.Finished? ==>
      var o := result.outcome;
      && (o.unfilledTail.Some? ==>
            o.unfilledTail.value.to == toTime && fromTime <= o.unfilledTail.value.from <= SatAdd(toTime, 1))
      && (o.emptyTail.Some? ==> o.emptyTail == o.unfilledTail)
  }

  /** What the run has done up to the point where it stops at `bound`. */
  ghost predicate RunState(net: Network, truth: seq<Trade>, gaps: seq<Span>, cached: seq<Trade>,
      chunks: seq<seq<Trade>>,
                           sent: seq<Trade>, pages: seq<Page>, from: int, upper: int, bound: int)
  {
    && Flatten(chunks) == cached + sent && (IdsName(truth) ==> DistinctIds(sent))
    && NetSound(truth, gaps, sent, upper) && PagesSent(truth, gaps, pages, sent)
    && PageBook(net, truth, pages, from, upper) && NetPages(gaps, pages, bound)
  }

  lemma NextGap(net: Network, truth: seq<Trade>, gaps: seq<Span>, merged: seq<Span>, i: nat, from: int, toTime: U64,
                cached: seq<Trade>, chunks: seq<seq<Trade>>, sent: seq<Trade>, pages: seq<Page>,
                end: GapEnd, more: seq<seq<Trade>>, morePages: seq<Page>)
    requires Merges(gaps, merged) && i < |merged| && from <= merged[i].from
    requires RunState(net, truth, gaps, cached, chunks, sent, pages, from, BoundAt(merged, i), BoundAt(merged, i))
    requires GapResult(net, truth, gaps, merged[i], toTime, end, more, morePages)
    ensures RunState(net, truth, gaps, cached, chunks + more, sent + Flatten(more), pages + morePages, from,
      merged[i].to,
                     if end.Stopped? && end.result.Broken? then 0 else TailOf(end, merged[i]))
  {
    var gap, upper := merged[i], BoundAt(merged, i);
    assert upper <= gap.from;
    BookJoin(net, truth, from, upper, gap, pages, morePages);
    SentJoin(truth, gaps, gap, upper, sent, Flatten(more), pages, morePages);
    if !(end.Stopped? && end.result.Broken?) { ReachJoin(gaps, merged, i, pages, morePages, TailOf(end, gap)); }
    FlattenJoin(chunks, more);
    Assoc(cached, sent, Flatten(more));
  }

  /** What a finished walk over the merged gaps leaves behind. */
  ghost predicate Walked(net: Network, truth: seq<Trade>, gaps: seq<Span>, cached: seq<Trade>, chunks: seq<seq<Trade>>,
                         sent: seq<Trade>, pages: seq<Page>, from: int, toExclusive: int, result: WorkerResult)
  {
    RunState(net, truth, gaps, cached, chunks, sent, pages, from, toExclusive,
             if result.Broken? then 0 else VerifiedBefore(result))
  }

  lemma WalkStops(net: Network, truth: seq<Trade>, gaps: seq<Span>, merged: seq<Span>, i: nat, cached: seq<Trade>,
                  chunks: seq<seq<Trade>>, sent: seq<Trade>, pages: seq<Page>, fromTime: U64, toTime: U64, end: GapEnd)
    requires i < |merged| && merged[i].to <= SatAdd(toTime, 1) && fromTime <= merged[i].from
    requires end.Stopped? && LegalEnd(end, merged[i], toTime)
    requires RunState(net, truth, gaps, cached, chunks, sent, pages, fromTime, merged[i].to,
                      if end.result.Broken? then 0 else TailOf(end, merged[i]))
    ensures Walked(net, truth, gaps, cached, chunks, sent, pages, fromTime, SatAdd(toTime, 1), end.result)
    ensures LegalOutcome(end.result, fromTime, toTime)
  {
  }

  lemma WalkEnds(net: Network, truth: seq<Trade>, gaps: seq<Span>, merged: seq<Span>, cached: seq<Trade>,
                 chunks: seq<seq<Trade>>, sent: seq<Trade>, pages: seq<Page>, from: int, toExclusive: int)
    requires Merges(gaps, merged) && (forall m :: m in merged ==> m.to <= toExclusive) && 0 <= toExclusive
    requires RunState(net, truth, gaps, cached, chunks, sent, pages, from, BoundAt(merged, |merged|),
      BoundAt(merged, |merged|))
    ensures Walked(net, truth, gaps, cached, chunks, sent, pages, from, toExclusive, Finished(COMPLETE))
  {
    if merged != [] { assert merged[|merged| - 1] in merged; }
    forall t | Covers(gaps, t) ensures PagesHave(pages, t) { Locate(merged, |merged|, t); }
  }

  /** Every page lies in a gap that was asked for. */
  ghost predicate Inside(pages: seq<Page>, merged: seq<Span>) {
    forall p :: p in pages ==> exists g :: g in merged && g.from <= p.from && p.to <= g.to
  }

  lemma InsideJoin(net: Network, truth: seq<Trade>, pages: seq<Page>, more: seq<Page>, merged: seq<Span>, gap: Span)
    requires Inside(pages, merged) && gap in merged && PagesKept(net, truth, gap, more)
    ensures Inside(pages + more, merged)
  {
  }

  /** Pages that end before a gap are behind whatever stops the run within it. */
  lemma BehindJoin(pages: seq<Page>, more: seq<Page>, gap: Span, stop: Stop)
    requires (forall p :: p in pages ==> p.from < p.to <= gap.from) && Behind(more, stop) && StoppedIn(gap, stop)
    ensures Behind(pages + more, stop)
  {
  }

  /** One of the merged gaps. */
  method WalkGap(net: Network, firstRequest: nat, merged: seq<Span>, i: nat, gaps: seq<Span>,
                 fromTime: U64, toTime: U64, ghost cached: seq<Trade>, chunks: seq<seq<Trade>>,
                 ghost sent: seq<Trade>, pages: seq<Page>, ghost truth: seq<Trade>)
    returns (end: GapEnd, requests: nat, chunks': seq<seq<Trade>>, ghost sent': seq<Trade>, pages': seq<Page>,
             duplicateStop: bool, ghost stop: Stop)
    requires FaithfulNetwork(net, truth) && Merges(gaps, merged) && i < |merged| && fromTime <= merged[i].from
    requires RunState(net, truth, gaps, cached, chunks, sent, pages, fromTime, BoundAt(merged, i), BoundAt(merged, i))
    requires Inside(pages, merged)
    ensures !duplicateStop && LegalEnd(end, merged[i], toTime)
    ensures RunState(net, truth, gaps, cached, chunks', sent', pages', fromTime, merged[i].to,
                     if end.Stopped? && end.result.Broken? then 0 else TailOf(end, merged[i]))
    ensures Inside(pages', merged)
    ensures GapEnded(net, requests, fromTime, toTime, merged[i], end, pages', stop)
  {
    var more, morePages;
    end, requests, more, morePages, duplicateStop, stop :=
      FetchGap(net, firstRequest, merged[i], gaps, fromTime, toTime, truth);
    NextGap(net, truth, gaps, merged, i, fromTime, toTime, cached, chunks, sent, pages, end, more, morePages);
    InsideJoin(net, truth, pages, morePages, merged, merged[i]);
    if end.Stopped? { BehindJoin(pages, morePages, merged[i], stop); }
    chunks', pages', sent' := chunks + more, pages + morePages, sent + Flatten(more);
  }

  /** The run stopped, for the reason the network gave, in one of the gaps asked for. */
  ghost predicate StopsRight(net: Network, n: nat, merged: seq<Span>, fromTime: U64, toTime: U64,
                             result: WorkerResult, pages: seq<Page>, stop: Stop)
  {
    && Ended(net, n, fromTime, toTime, result, stop) && Behind(pages, stop)
    && (stop != AllFilled ==> exists gap :: gap in merged && StoppedIn(gap, stop))
  }

  /** The loop over the merged gaps; it stops at the first that does not fill. */
  method WalkGaps(net: Network, merged: seq<Span>, gaps: seq<Span>, cached: seq<Trade>, cachedChunks: seq<seq<Trade>>,
                  fromTime: U64, toTime: U64, ghost truth: seq<Trade>)
    returns (result: WorkerResult, requests: nat, chunks: seq<seq<Trade>>, ghost sent: seq<Trade>, pages: seq<Page>,
             duplicateStop: bool, ghost stop: Stop)
    requires FaithfulNetwork(net, truth)
    requires Merges(gaps, merged) && Within(merged, fromTime, SatAdd(toTime, 1))
    requires Flatten(cachedChunks) == cached
    ensures !duplicateStop && LegalOutcome(result, fromTime, toTime)
    ensures Walked(net, truth, gaps, cached, chunks, sent, pages, fromTime, SatAdd(toTime, 1), result)
    ensures Inside(pages, merged) && StopsRight(net, requests, merged, fromTime, toTime, result, pages, stop)
  {
    chunks, pages, duplicateStop := cachedChunks, [], false;
    sent, stop := [], AllFilled;
    requests := 0;
    for i := 0 to |merged|
      invariant !duplicateStop && stop == AllFilled && Inside(pages, merged)
      invariant RunState(net, truth, gaps, cached, chunks, sent, pages, fromTime, BoundAt(merged, i),
        BoundAt(merged, i))
    {
      var end;
      end, requests, chunks, sent, pages, duplicateStop, stop :=
        WalkGap(net, requests, merged, i, gaps, fromTime, toTime, cached, chunks, sent, pages, truth);
      if end.Stopped? {
        result := end.result;
        WalkStops(net, truth, gaps, merged, i, cached, chunks, sent, pages, fromTime, toTime, end);
        assert merged[i] in merged;
        return;
      }
    }
    result := Finished(COMPLETE);
    WalkEnds(net, truth, gaps, merged, cached, chunks, sent, pages, fromTime, SatAdd(toTime, 1));
  }

  /** A requested millisecond the cache or the network has answered for. */
  ghost predicate Verified(coverage: seq<Span>, pages: seq<Page>, t: int) {
    Covers(coverage, t) || PagesHave(pages, t)
  }

  /**
   * The whole worker, whatever the network does within its contract. The run
   * never asks twice from one cursor. Every page stands for a response that
   * reaches as far, and the pages up to it hold every trade of its span that
   * counts, none twice when an id names one trade. Everything before the tail
   * is cached or in a page; without a tail this is the whole request exactly
   * when it ends before the last representable millisecond, because the
   * exclusive end saturates. What the pages have and the cache lacks is sent.
   * Nothing is asked for but what the cache lacks and bridges of at most 60 s,
   * and the result tells why the run stopped: an error only for a refusal, or
   * for a time-out before anything was gained; an empty tail only for an empty
   * answer; otherwise a tail from the cursor on.
   */
  method FetchTradesBatched(net: Network, coverage: seq<Span>, cached: seq<Trade>, fromTime: U64, toTime: U64,
                            ghost truth: seq<Trade>)
    returns (result: WorkerResult, requests: nat, chunks: seq<seq<Trade>>, pages: seq<Page>, duplicateStop: bool,
             ghost stop: Stop)
    requires FaithfulNetwork(net, truth)
    requires Separated(coverage, 0)
    ensures !duplicateStop && LegalOutcome(result, fromTime, toTime)
    ensures Ended(net, requests, fromTime, toTime, result, stop) && Behind(pages, stop)
    ensures stop != AllFilled ==>
      exists g :: g in Coalesce(Gaps(coverage, fromTime, SatAdd(toTime, 1)), 60_000) && StoppedIn(g, stop)
    ensures result.Broken? && pages != [] ==> net.answer(requests, stop.cursor) == Refused(result.error)
    ensures result.Finished? ==> (result.outcome.emptyTail.Some? <==> stop.RanDry?)
    ensures forall p, t :: p in pages && p.from <= t < p.to ==>
      Lacks(coverage, fromTime, toTime, t) || Bridged(Gaps(coverage, fromTime, SatAdd(toTime, 1)), 60_000, t)
    ensures PageBook(net, truth, pages, fromTime, SatAdd(toTime, 1))
    ensures result.Finished? ==>
      forall t :: Owed(t, coverage, fromTime, toTime, result) ==> PagesHave(pages, t)
    ensures result == Finished(COMPLETE) && fromTime <= toTime ==>
      ((forall t :: fromTime <= t <= toTime ==> Verified(coverage, pages, t)) <==> toTime < U64_MAX)
    ensures |Flatten(chunks)| >= |cached| && Flatten(chunks)[..|cached|] == cached
    ensures forall t :: t in Flatten(chunks)[|cached|..] ==>
      t in truth && fromTime <= t.time <= toTime && !Covers(coverage, t.time)
    ensures IdsName(truth) && CacheApart(cached, truth, Gaps(coverage, fromTime, SatAdd(toTime, 1))) ==>
      DistinctIds(Flatten(chunks))
    ensures forall t :: Counts(truth, t) && Lacks(coverage, fromTime, toTime, t.time) && PagesHave(pages, t.time) ==>
      t in Flatten(chunks)
    ensures result.Finished? ==>
      forall t :: Counts(truth, t) && Owed(t.time, coverage, fromTime, toTime, result) ==> t in Flatten(chunks)
  {
    var gaps, merged := PlanGaps(coverage, fromTime, toTime);
    var cachedChunks := SendCached(cached);
    ghost var sent;
    result, requests, chunks, sent, pages, duplicateStop, stop :=
      WalkGaps(net, merged, gaps, cached, cachedChunks, fromTime, toTime, truth);
    BrokenLate(net, truth, pages, requests, fromTime, toTime, result, stop);
    AskedFor(coverage, gaps, merged, fromTime, toTime, pages);
    CachedAndSent(cached, truth, gaps, sent, SatAdd(toTime, 1));
    Conclude(net, truth, coverage, gaps, cached, chunks, sent, pages, result, fromTime, toTime);
  }

  /** A time-out is an error only when the run stopped at its very start, and then there is no page. */
  lemma BrokenLate(net: Network, truth: seq<Trade>, pages: seq<Page>, n: nat, fromTime: U64, toTime: U64,
                   result: WorkerResult, stop: Stop)
    requires PageBook(net, truth, pages, fromTime, SatAdd(toTime, 1))
    requires Ended(net, n, fromTime, toTime, result, stop) && Behind(pages, stop)
    ensures result.Broken? && pages != [] ==> net.answer(n, stop.cursor) == Refused(result.error)
    ensures result.Finished? ==> (result.outcome.emptyTail.Some? <==> stop.RanDry?)
  {
    if pages != [] { assert pages[0] in pages; }
  }

  lemma AskedFor(coverage: seq<Span>, gaps: seq<Span>, merged: seq<Span>, fromTime: U64, toTime: U64, pages: seq<Page>)
    requires SortedByStart(gaps) && merged == Coalesce(gaps, TRADE_GAP_COALESCE_BRIDGE_MS) && Inside(pages, merged)
    requires forall t :: Covers(gaps, t) <==> fromTime <= t < SatAdd(toTime, 1) && !Covers(coverage, t)
    ensures forall p, t :: p in pages && p.from <= t < p.to ==>
      Lacks(coverage, fromTime, toTime, t) || Bridged(gaps, 60_000, t)
  {
    forall p, t | p in pages && p.from <= t < p.to
      ensures Lacks(coverage, fromTime, toTime, t) || Bridged(gaps, 60_000, t)
    {
      var g :| g in merged && g.from <= p.from && p.to <= g.to;
      var i :| 0 <= i < |merged| && merged[i] == g;
      assert merged[i].Has(t);
      CoalesceCovers(gaps, TRADE_GAP_COALESCE_BRIDGE_MS, t);
    }
  }

  /** The gaps of the request in the coverage, and as they are asked for. */
  method PlanGaps(coverage: seq<Span>, fromTime: U64, toTime: U64) returns (gaps: seq<Span>, merged: seq<Span>)
    requires Separated(coverage, 0)
    ensures gaps == Gaps(coverage, fromTime, SatAdd(toTime, 1))
    ensures forall t :: Covers(gaps, t) <==> fromTime <= t < SatAdd(toTime, 1) && !Covers(coverage, t)
    ensures Merges(gaps, merged) && Within(merged, fromTime, SatAdd(toTime, 1))
    ensures SortedByStart(gaps) && merged == Coalesce(gaps, TRADE_GAP_COALESCE_BRIDGE_MS)
  {
    var toExclusive := SatAdd(toTime, 1);
    gaps := CoverageGaps(coverage, fromTime, toExclusive);
    GapsExact(coverage, fromTime, toExclusive);
    GapsSorted(gaps);
    merged := CoalesceTradeFetchGaps(gaps, TRADE_GAP_COALESCE_BRIDGE_MS);
    CoalesceMerges(gaps);
    forall i | 0 <= i < |merged| ensures fromTime <= merged[i].from && merged[i].to <= toExclusive {
      MergedWithin(gaps, fromTime, toExclusive, i);
    }
  }

  /** From gaps back to the request: a requested millisecond is cached or in a gap. */
  lemma Conclude(net: Network, truth: seq<Trade>, coverage: seq<Span>, gaps: seq<Span>, cached: seq<Trade>,
                 chunks: seq<seq<Trade>>, sent: seq<Trade>, pages: seq<Page>,
                 result: WorkerResult, fromTime: U64, toTime: U64)
    requires Walked(net, truth, gaps, cached, chunks, sent, pages, fromTime, SatAdd(toTime, 1), result)
    requires forall t :: Covers(gaps, t) <==> fromTime <= t < SatAdd(toTime, 1) && !Covers(coverage, t)
    ensures result.Finished? ==>
      forall t :: Owed(t, coverage, fromTime, toTime, result) ==> PagesHave(pages, t)
    ensures result == Finished(COMPLETE) && fromTime <= toTime ==>
      ((forall t :: fromTime <= t <= toTime ==> Verified(coverage, pages, t)) <==> toTime < U64_MAX)
    ensures |Flatten(chunks)| >= |cached| && Flatten(chunks)[..|cached|] == cached
    ensures forall t :: t in Flatten(chunks)[|cached|..] ==>
      t in truth && fromTime <= t.time <= toTime && !Covers(coverage, t.time)
    ensures forall t :: Counts(truth, t) && Lacks(coverage, fromTime, toTime, t.time) && PagesHave(pages, t.time) ==>
      t in Flatten(chunks)
    ensures result.Finished? ==>
      forall t :: Counts(truth, t) && Owed(t.time, coverage, fromTime, toTime, result) ==> t in Flatten(chunks)
  {
    assert Flatten(chunks)[|cached|..] == sent;
    if result == Finished(COMPLETE) && fromTime <= toTime { WholeRequest(coverage, gaps, pages, fromTime, toTime); }
  }

  /** The gaps of a request have every millisecond the cache lacks but the last representable one. */
  lemma WholeRequest(coverage: seq<Span>, gaps: seq<Span>, pages: seq<Page>, fromTime: U64, toTime: U64)
    requires fromTime <= toTime
    requires forall t :: Covers(gaps, t) <==> fromTime <= t < SatAdd(toTime, 1) && !Covers(coverage, t)
    requires NetPages(gaps, pages, U64_MAX + 1)
    ensures (forall t :: fromTime <= t <= toTime ==> Verified(coverage, pages, t)) <==> toTime < U64_MAX
  {
    assert !Verified(coverage, pages, U64_MAX);
  }

  /** The request that shows it: asked for the last representable millisecond alone, the worker has nothing to do. */
  lemma LastMillisecondIsSkipped()
    ensures Gaps([], U64_MAX, SatAdd(U64_MAX, 1)) == [] && !Covers([], U64_MAX)
  {
    GapsExact([], U64_MAX, SatAdd(U64_MAX, 1));
  }
}
