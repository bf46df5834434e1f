/**
 * `Engine::reconstruct_orderbook_json`: routes every MBO message of the file to
 * its (instrument, publisher) book, counts it and records its latency, then
 * reports, per instrument, each publisher's best quotes and levels and the
 * aggregated best quotes. The JSON text itself is not modelled: the report is
 * the structured value the text is printed from.
 */
module Reconstruct {
  import opened Ints
  import opened Common
  import opened Seqs
  import opened Dbn
  import opened MboBook
  import opened MboBookProps
  import opened Bbo
  import opened Telemetry

  /** `instruments`: each instrument's publisher books, in order of first sight.
      The C++ container is unordered, so only its contents are modelled. */
  type Instruments = map<u32, seq<PublisherBook>>

  /** Where `std::find_if` stops looking for the publisher: its book's position,
      or the end of the vector. */
  function PublisherSlot(pbs: seq<PublisherBook>, publisherId: u16): (i: nat)
    ensures i <= |pbs|
    ensures i < |pbs| ==> pbs[i].publisherId == publisherId
    ensures forall k :: 0 <= k < i ==> pbs[k].publisherId != publisherId
  {
    if |pbs| == 0 then 0
    else if pbs[0].publisherId == publisherId then 0
    else 1 + PublisherSlot(pbs[1..], publisherId)
  }

  /** Applies the message to its publisher's book, creating the instrument and
      the book on first sight. */
  function Route(insts: Instruments, m: MboMsg): Instruments {
    var pbs := if m.instrumentId in insts then insts[m.instrumentId] else [];
    var i := PublisherSlot(pbs, m.publisherId);
    var pbs' := if i < |pbs| then pbs[i := Step(pbs[i], m)] else pbs + [Step(NewBook(m.publisherId), m)];
    insts[m.instrumentId := pbs']
  }

  /** Publisher ids are distinct within each instrument. */
  ghost predicate UniquePublishers(insts: Instruments) {
    forall id, j, k :: id in insts && 0 <= j < k < |insts[id]| ==> insts[id][j].publisherId != insts[id][k].publisherId
  }

  /** Every publisher book is well-formed. */
  ghost predicate BooksWellFormed(insts: Instruments) {
    forall id, j :: id in insts && 0 <= j < |insts[id]| ==> WellFormed(insts[id][j])
  }

  /** The book the message's publisher has for its instrument before the message. */
  function BookFor(insts: Instruments, instrumentId: u32, publisherId: u16): PublisherBook {
    var pbs := if instrumentId in insts then insts[instrumentId] else [];
    var i := PublisherSlot(pbs, publisherId);
    if i < |pbs| then pbs[i] else NewBook(publisherId)
  }

  /** A publisher book is created on the first message for an (instrument,
      publisher) pair and reused afterwards: routing applies the message to that
      pair's book only and leaves every other book and instrument as it was. */
  lemma RouteReusesBook(insts: Instruments, m: MboMsg)
    ensures var r := Route(insts, m);
            var before := if m.instrumentId in insts then insts[m.instrumentId] else [];
            var i := PublisherSlot(before, m.publisherId);
            && r.Keys == insts.Keys + {m.instrumentId}
            && (forall id :: id in insts && id != m.instrumentId ==> r[id] == insts[id])
            && |r[m.instrumentId]| == |before| + (if i < |before| then 0 else 1)
            && PublisherSlot(r[m.instrumentId], m.publisherId) == i
            && r[m.instrumentId][i] == Step(BookFor(insts, m.instrumentId, m.publisherId), m)
            && (forall k :: 0 <= k < |before| && k != i ==> r[m.instrumentId][k] == before[k])
  {
    var before := if m.instrumentId in insts then insts[m.instrumentId] else [];
    SlotIsStable(Route(insts, m)[m.instrumentId], m.publisherId, PublisherSlot(before, m.publisherId));
  }

  /** Routing keeps publisher ids unique within each instrument. */
  lemma RouteKeepsUnique(insts: Instruments, m: MboMsg)
    requires UniquePublishers(insts)
    ensures UniquePublishers(Route(insts, m))
  {
    var before := if m.instrumentId in insts then insts[m.instrumentId] else [];
    var after := Route(insts, m)[m.instrumentId];
    forall j, k | 0 <= j < k < |after|
      ensures after[j].publisherId != after[k].publisherId
    {
      if k < |before| {
        assert before[j].publisherId != before[k].publisherId;
      }
    }
  }

  /** A position holding the publisher, with the publisher nowhere before it, is
      where the search stops. */
  lemma {:induction false} SlotIsStable(pbs: seq<PublisherBook>, publisherId: u16, i: nat)
    requires i < |pbs| && pbs[i].publisherId == publisherId
    requires forall k :: 0 <= k < i ==> pbs[k].publisherId != publisherId
    ensures PublisherSlot(pbs, publisherId) == i
  {
    if i > 0 {
      SlotIsStable(pbs[1..], publisherId, i - 1);
    }
  }

  /** Routing keeps every book well-formed. */
  lemma RouteKeepsWellFormed(insts: Instruments, m: MboMsg)
    requires BooksWellFormed(insts)
    ensures BooksWellFormed(Route(insts, m))
  {
    var pbs := if m.instrumentId in insts then insts[m.instrumentId] else [];
    var i := PublisherSlot(pbs, m.publisherId);
    if i < |pbs| {
      StepKeepsWellFormed(pbs[i], m);
    } else {
      StepKeepsWellFormed(NewBook(m.publisherId), m);
    }
  }

  // ---------------------------------------------------------------------------
  // The callback loop

  datatype Scan = Scan(insts: Instruments, lastTsRecv: u64, mboCount: nat, metrics: Metrics)

  /** One MBO message processed: its receive time and the count are noted, it is
      routed, and its latency and one more message are recorded. */
  function Process(s: Scan, m: MboMsg, latencyNs: u64): (r: Scan)
    ensures r.mboCount == s.mboCount + 1 && r.lastTsRecv == m.tsRecv
    ensures r.metrics.totalMessages == s.metrics.totalMessages + 1
    ensures r.metrics.latencies == s.metrics.latencies + [latencyNs]
    ensures r.metrics.replayErrors == s.metrics.replayErrors && r.metrics.lastError == s.metrics.lastError
  {
    var metrics := RecordLatency(s.metrics, latencyNs);
    Scan(Route(s.insts, m), m.tsRecv, s.mboCount + 1, metrics.(totalMessages := metrics.totalMessages + 1))
  }

  /** The MBO messages the loop processes: other records are skipped before the
      stop flag is read, and a stop request or an exception ends the loop. */
  function Processed(items: seq<Item>): (ms: seq<(MboMsg, u64)>)
    ensures |ms| <= |items|
  {
    if |items| == 0 then []
    else match items[0]
      case Fault(_, _) => []
      case Callback(running, rec, latencyNs) =>
        match rec
        case OtherRecord => Processed(items[1..])
        case Mbo(m) => if !running then [] else [(m, latencyNs)] + Processed(items[1..])
  }

  /** Whether the loop ends at an exception, and which. */
  function Interrupt(items: seq<Item>): Option<(FaultKind, string)> {
    if |items| == 0 then None
    else match items[0]
      case Fault(kind, what) => Some((kind, what))
      case Callback(running, rec, _) =>
        match rec
        case OtherRecord => Interrupt(items[1..])
        case Mbo(_) => if !running then None else Interrupt(items[1..])
  }

  /** The state after processing the given messages in order. */
  function ProcessAll(s: Scan, ms: seq<(MboMsg, u64)>): Scan
    decreases |ms|
  {
    if |ms| == 0 then s else ProcessAll(Process(s, ms[0].0, ms[0].1), ms[1..])
  }

  /** The callback loop over the file's records, ending with the state it leaves
      and the exception that ended it, if any. */
  function Loop(s: Scan, items: seq<Item>): (r: (Scan, Option<(FaultKind, string)>))
    ensures r.0 == ProcessAll(s, Processed(items))
    ensures r.1 == Interrupt(items)
    decreases |items|
  {
    if |items| == 0 then (s, None)
    else match items[0]
      case Fault(kind, what) => (s, Some((kind, what)))
      case Callback(running, rec, latencyNs) =>
        match rec
        case OtherRecord => Loop(s, items[1..])
        case Mbo(m) =>
          if !running then (s, None)
          else
            assert Processed(items)[0] == (m, latencyNs) && Processed(items)[1..] == Processed(items[1..]);
            Loop(Process(s, m, latencyNs), items[1..])
  }

  /** Processing counts every message, records one latency per message in
      order, leaves the error counter alone and remembers the last receive time. */
  lemma {:induction false} ProcessAllAccounts(s: Scan, ms: seq<(MboMsg, u64)>)
    ensures var r := ProcessAll(s, ms);
            && r.mboCount == s.mboCount + |ms|
            && r.metrics.totalMessages == s.metrics.totalMessages + |ms|
            && |r.metrics.latencies| == |s.metrics.latencies| + |ms|
            && r.metrics.replayErrors == s.metrics.replayErrors
            && r.lastTsRecv == (if |ms| == 0 then s.lastTsRecv else ms[|ms| - 1].0.tsRecv)
    decreases |ms|
  {
    if |ms| > 0 {
      ProcessAllAccounts(Process(s, ms[0].0, ms[0].1), ms[1..]);
    }
  }

  /** The recorded latencies are the processed messages' latencies, in order,
      after the ones recorded before. */
  lemma {:induction false} ProcessAllRecordsLatencies(s: Scan, ms: seq<(MboMsg, u64)>)
    ensures ProcessAll(s, ms).metrics.latencies == s.metrics.latencies + seq(|ms|, i requires 0 <= i < |ms| => ms[i].1)
    decreases |ms|
  {
    if |ms| > 0 {
      ProcessAllRecordsLatencies(Process(s, ms[0].0, ms[0].1), ms[1..]);
      var tail := seq(|ms| - 1, i requires 0 <= i < |ms| - 1 => ms[1..][i].1);
      var all := seq(|ms|, i requires 0 <= i < |ms| => ms[i].1);
      assert all == [ms[0].1] + tail;
    }
  }

  /** Processing keeps publisher ids unique within each instrument and every
      publisher book well-formed. */
  lemma {:induction false} ProcessAllKeepsBooks(s: Scan, ms: seq<(MboMsg, u64)>)
    requires UniquePublishers(s.insts) && BooksWellFormed(s.insts)
    ensures UniquePublishers(ProcessAll(s, ms).insts) && BooksWellFormed(ProcessAll(s, ms).insts)
    decreases |ms|
  {
    if |ms| > 0 {
      RouteKeepsUnique(s.insts, ms[0].0);
      RouteKeepsWellFormed(s.insts, ms[0].0);
      ProcessAllKeepsBooks(Process(s, ms[0].0, ms[0].1), ms[1..]);
    }
  }

  // ---------------------------------------------------------------------------
  // The report

  datatype PublisherReport = PublisherReport(publisherId: u16, bid: Quote, ask: Quote, bids: seq<Quote>, asks: seq<Quote>)

  datatype InstrumentReport = InstrumentReport(instrumentId: u32, publishers: seq<PublisherReport>, aggregatedBid: Quote, aggregatedAsk: Quote)

  datatype Report =
    | Books(instruments: map<u32, InstrumentReport>, lastTsRecv: u64, mboCount: nat)
    | ErrorReport(message: string)

  function PublisherSummary(pb: PublisherBook, levels: nat): (r: PublisherReport) {
    PublisherReport(pb.publisherId, BestBid(pb), BestAsk(pb), EmitLevels(pb.bids, true, levels), EmitLevels(pb.asks, false, levels))
  }

  /** One instrument's report: each publisher in order, and the best quotes
      across them. */
  function InstrumentSummary(id: u32, pbs: seq<PublisherBook>, levels: nat): (r: InstrumentReport)
    ensures |r.publishers| == |pbs|
    ensures forall i :: 0 <= i < |pbs| ==> r.publishers[i] == PublisherSummary(pbs[i], levels)
    ensures IsAggregate(true, BidQuotes(pbs), r.aggregatedBid)
    ensures IsAggregate(false, AskQuotes(pbs), r.aggregatedAsk)
  {
    AggregateIsBest(true, BidQuotes(pbs));
    AggregateIsBest(false, AskQuotes(pbs));
    InstrumentReport(
      id,
      seq(|pbs|, i requires 0 <= i < |pbs| => PublisherSummary(pbs[i], levels)),
      Aggregate(true, BidQuotes(pbs)),
      Aggregate(false, AskQuotes(pbs)))
  }

  /** Every instrument's report, keyed by its id. */
  function Summaries(insts: Instruments, levels: nat): (r: map<u32, InstrumentReport>)
    ensures r.Keys == insts.Keys
    ensures forall id :: id in r ==> r[id] == InstrumentSummary(id, insts[id], levels)
  {
    map id | id in insts :: InstrumentSummary(id, insts[id], levels)
  }

  /** The error text of a caught exception. */
  function ErrorText(kind: FaultKind, what: string): string {
    match kind
    case ResponseError => "DbnResponseError:" + what
    case OtherException => "Exception:" + what
  }

  /** `reconstruct_orderbook_json` on a file whose records are `items`: an error
      report without a path; the exception's text, after counting a replay error,
      when the loop is interrupted; otherwise a report of every instrument. Every
      processed message is counted and has its latency recorded either way. */
  function ReconstructReport(path: string, metrics: Metrics, items: seq<Item>, levels: nat): (r: (Report, Metrics))
    ensures |path| == 0 ==> r == (ErrorReport("No DBN path provided"), metrics)
    ensures |path| > 0 ==> r.1.totalMessages == metrics.totalMessages + |Processed(items)|
    ensures |path| > 0 ==> |r.1.latencies| == |metrics.latencies| + |Processed(items)|
    ensures |path| > 0 && Interrupt(items).Some? ==>
              var (kind, what) := Interrupt(items).value;
              r.0 == ErrorReport(ErrorText(kind, what)) &&
              r.1.replayErrors == metrics.replayErrors + 1 && LastError(r.1) == what
    ensures |path| > 0 && Interrupt(items).None? ==>
              r.0.Books? && r.0.mboCount == |Processed(items)| && r.1.replayErrors == metrics.replayErrors
  {
    if |path| == 0 then (ErrorReport("No DBN path provided"), metrics)
    else
      var (s, fault) := Loop(Scan(map[], 0, 0, metrics), items);
      ProcessAllAccounts(Scan(map[], 0, 0, metrics), Processed(items));
      match fault
      case Some((kind, what)) => (ErrorReport(ErrorText(kind, what)), RecordReplayError(s.metrics, what))
      case None => (Books(Summaries(s.insts, levels), s.lastTsRecv, s.mboCount), s.metrics)
  }

  /** The state the loop ends in when nothing interrupts it. */
  function Final(metrics: Metrics, items: seq<Item>): Scan {
    ProcessAll(Scan(map[], 0, 0, metrics), Processed(items))
  }

  /** Without an interruption the report summarises the final state's books. */
  lemma ReportIsSummary(path: string, metrics: Metrics, items: seq<Item>, levels: nat)
    requires |path| > 0 && Interrupt(items).None?
    ensures var s := Final(metrics, items);
            ReconstructReport(path, metrics, items, levels).0 == Books(Summaries(s.insts, levels), s.lastTsRecv, s.mboCount)
  {
    assert Loop(Scan(map[], 0, 0, metrics), items) == (Final(metrics, items), None);
  }

  /** With unique publishers, every instrument's report lists distinct publishers
      under the instrument's own id. */
  lemma SummariesKeepPublishers(insts: Instruments, levels: nat)
    requires UniquePublishers(insts)
    ensures var r := Summaries(insts, levels);
            && (forall id :: id in r ==> r[id].instrumentId == id)
            && (forall id, j, k :: id in r && 0 <= j < k < |r[id].publishers| ==>
                  r[id].publishers[j].publisherId != r[id].publishers[k].publisherId)
  {
    var r := Summaries(insts, levels);
    forall id, j, k | id in r && 0 <= j < k < |r[id].publishers|
      ensures r[id].publishers[j].publisherId != r[id].publishers[k].publisherId
    {
      assert insts[id][j].publisherId != insts[id][k].publisherId;
    }
  }

  /** A completed report lists exactly the instruments the processed messages
      name, each under its own id with distinct publishers, and carries the last
      processed receive time. */
  lemma ReportListsInstruments(path: string, metrics: Metrics, items: seq<Item>, levels: nat)
    requires |path| > 0 && Interrupt(items).None?
    ensures var r := ReconstructReport(path, metrics, items, levels).0;
            var ms := Processed(items);
            && r.Books?
            && r.instruments.Keys == InstrumentIds(ms)
            && r.lastTsRecv == (if |ms| == 0 then 0 else ms[|ms| - 1].0.tsRecv)
            && (forall id :: id in r.instruments ==> r.instruments[id].instrumentId == id)
            && (forall id, j, k :: id in r.instruments && 0 <= j < k < |r.instruments[id].publishers| ==>
                  r.instruments[id].publishers[j].publisherId != r.instruments[id].publishers[k].publisherId)
  {
    var start := Scan(map[], 0, 0, metrics);
    ReportIsSummary(path, metrics, items, levels);
    ProcessAllAccounts(start, Processed(items));
    ProcessAllKeepsBooks(start, Processed(items));
    RoutedInstruments(start, Processed(items));
    var s := Final(metrics, items);
    var ms := Processed(items);
    assert s == ProcessAll(start, ms);
    assert s.lastTsRecv == (if |ms| == 0 then 0 else ms[|ms| - 1].0.tsRecv);
    assert s.insts.Keys == InstrumentIds(ms) by {
      assert start.insts.Keys == {};
    }
    SummariesKeepPublishers(s.insts, levels);
  }

  /** With a path, the metrics end with one latency per processed message, in
      the order the messages were processed. */
  lemma ReportRecordsLatencies(path: string, metrics: Metrics, items: seq<Item>, levels: nat)
    requires |path| > 0
    ensures var ms := Processed(items);
            ReconstructReport(path, metrics, items, levels).1.latencies ==
              metrics.latencies + seq(|ms|, i requires 0 <= i < |ms| => ms[i].1)
  {
    ProcessAllRecordsLatencies(Scan(map[], 0, 0, metrics), Processed(items));
  }

  /** The instruments the messages name. */
  function InstrumentIds(ms: seq<(MboMsg, u64)>): set<u32> {
    set i | 0 <= i < |ms| :: ms[i].0.instrumentId
  }

  /** Processing adds exactly the instruments the messages name. */
  lemma {:induction false} RoutedInstruments(s: Scan, ms: seq<(MboMsg, u64)>)
    ensures ProcessAll(s, ms).insts.Keys == s.insts.Keys + InstrumentIds(ms)
    decreases |ms|
  {
    if |ms| > 0 {
      var s' := Process(s, ms[0].0, ms[0].1);
      RoutedInstruments(s', ms[1..]);
      assert s'.insts.Keys == s.insts.Keys + {ms[0].0.instrumentId};
      forall id | id in InstrumentIds(ms)
        ensures id == ms[0].0.instrumentId || id in InstrumentIds(ms[1..])
      {
        var i :| 0 <= i < |ms| && ms[i].0.instrumentId == id;
        if i > 0 {
          assert ms[1..][i - 1] == ms[i];
        }
      }
      forall id | id in InstrumentIds(ms[1..])
        ensures id in InstrumentIds(ms)
      {
        var i :| 0 <= i < |ms[1..]| && ms[1..][i].0.instrumentId == id;
        assert ms[i + 1] == ms[1..][i];
      }
    } else {
      assert InstrumentIds(ms) == {};
    }
  }
}
