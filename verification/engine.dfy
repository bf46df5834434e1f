/**
 * `Engine::map_mbo` and `Engine::replay`: MBO messages are normalised into the
 * order book's records and applied one by one until the message cap, a stop
 * request, the end of the file or an exception.
 */
module Engine {
  import opened Ints
  import opened Common
  import opened Dbn
  import opened OrderBook
  import opened BookInvariants
  import opened Telemetry

  /** `map_mbo`: bids become 'B' and every other side 'A'; the action becomes
      one of the book's codes, or 'U' for actions the book does not handle. */
  function MapMbo(m: MboMsg): (r: Record)
    ensures r.orderId == m.orderId && r.price == m.price
    ensures r.size == Int32OfU32(m.size)
    ensures r.side == 'B' <==> m.side == Bid
    ensures r.side in {'A', 'B'}
    ensures r.action == 'A' <==> m.action == Add
    ensures r.action == 'M' <==> m.action == Modify
    ensures r.action == 'C' <==> m.action == Cancel
    ensures r.action == 'F' <==> m.action in {Trade, Fill}
    ensures r.action == 'U' <==> m.action in {Clear, NoAction}
  {
    var action :=
      match m.action
      case Add => 'A'
      case Modify => 'M'
      case Cancel => 'C'
      case Trade => 'F'
      case Fill => 'F'
      case _ => 'U';
    Record(m.orderId, m.price, Int32OfU32(m.size), if m.side == Bid then 'B' else 'A', action)
  }

  /** A clear or an action-less message reaches the book as 'U' and changes nothing. */
  lemma UnmappedIsNoOp(b: Book, m: MboMsg)
    requires m.action in {Clear, NoAction}
    ensures ApplyUpdate(b, MapMbo(m)) == Success((b, Snapshot(b)))
  {
  }

  /** How many messages `replay` applies before `++count >= max_snapshots`
      stops it: a cap of 0 still lets the first message through. */
  function Cap(maxSnapshots: nat): (c: nat)
    ensures c >= 1 && c >= maxSnapshots
    ensures maxSnapshots > 0 ==> c == maxSnapshots
    ensures maxSnapshots == 0 ==> c == 1
  {
    if maxSnapshots == 0 then 1 else maxSnapshots
  }

  /** The MBO messages the callback is handed before a stop request or an
      exception: records of other schemas are skipped. */
  function Feed(items: seq<Item>): (ms: seq<MboMsg>)
    ensures |ms| <= |items|
  {
    if |items| == 0 then []
    else match items[0]
      case Fault(_, _) => []
      case Callback(running, rec, _) =>
        if !running then []
        else match rec
          case Mbo(m) => [m] + Feed(items[1..])
          case OtherRecord => Feed(items[1..])
  }

  /** The text of the decoder exception the callback loop runs into, if any: the
      first fault before the end of the file and before any stop request. */
  function EndFault(items: seq<Item>): Option<string>
    decreases |items|
  {
    if |items| == 0 then None
    else match items[0]
      case Fault(_, what) => Some(what)
      case Callback(running, _, _) => if running then EndFault(items[1..]) else None
  }

  /** One MBO message handed to `apply_update`; an exhausted pool throws, and
      the exception's text is the error's message. The returned top of book is
      discarded by the replay. */
  function BookStep(b: Book, m: MboMsg): Result<Book, string> {
    match ApplyUpdate(b, MapMbo(m))
    case Failure(e) => Failure(Message(e))
    case Success((b', _)) => Success(b')
  }

  /** The state after applying the messages in order with `step`, or `None` once
      one of them throws. */
  function ApplyAll<B>(step: (B, MboMsg) -> Result<B, string>, b: B, ms: seq<MboMsg>): Option<B>
    decreases |ms|
  {
    if |ms| == 0 then Some(b)
    else match step(b, ms[0])
      case Failure(_) => None
      case Success(b') => ApplyAll(step, b', ms[1..])
  }

  lemma ApplyAllCons<B>(step: (B, MboMsg) -> Result<B, string>, b: B, m: MboMsg, ms: seq<MboMsg>)
    ensures step(b, m).Failure? ==> ApplyAll(step, b, [m] + ms) == None
    ensures step(b, m).Success? ==> ApplyAll(step, b, [m] + ms) == ApplyAll(step, step(b, m).value, ms)
  {
    assert ([m] + ms)[0] == m && ([m] + ms)[1..] == ms;
  }

  datatype ReplayOutcome<B> = ReplayOutcome(book: B, metrics: Metrics, applied: nat, failed: bool)

  /** The replay callback loop from the point where `count` messages have been
      applied: a stop request ends it before the record is looked at, records of
      other schemas are skipped, each MBO message is applied and counted, and the
      loop stops once the count reaches the cap. An exception, from the decoder or
      from the book, counts one replay error and records its text. */
  function Run<B>(step: (B, MboMsg) -> Result<B, string>, b: B, metrics: Metrics, items: seq<Item>,
                  maxSnapshots: nat, count: nat): (r: ReplayOutcome<B>)
    requires count < Cap(maxSnapshots)
    ensures count <= r.applied <= Cap(maxSnapshots)
    ensures r.applied - count <= |Feed(items)|
    ensures !r.failed ==> r.metrics == metrics
    ensures r.failed ==> r.applied < Cap(maxSnapshots)
    ensures r.failed ==> r.metrics.replayErrors == metrics.replayErrors + 1 &&
                         r.metrics.totalMessages == metrics.totalMessages &&
                         r.metrics.latencies == metrics.latencies
    ensures r.failed ==> r.metrics == RecordReplayError(metrics, LastError(r.metrics))
    decreases |items|
  {
    if |items| == 0 then ReplayOutcome(b, metrics, count, false)
    else match items[0]
      case Fault(_, what) => ReplayOutcome(b, RecordReplayError(metrics, what), count, true)
      case Callback(running, rec, _) =>
        if !running then ReplayOutcome(b, metrics, count, false)
        else match rec
          case OtherRecord => Run(step, b, metrics, items[1..], maxSnapshots, count)
          case Mbo(m) =>
            match step(b, m)
            case Failure(what) => ReplayOutcome(b, RecordReplayError(metrics, what), count, true)
            case Success(b') =>
              if count + 1 >= maxSnapshots then ReplayOutcome(b', metrics, count + 1, false)
              else Run(step, b', metrics, items[1..], maxSnapshots, count + 1)
  }

  /** What the loop applied is a prefix of the feed, applied in order; it stops
      short of the cap only at the end of the feed or at an exception, and in the
      latter case either the decoder failed or the next message is the one that
      threw. */
  lemma {:induction false} RunAppliesFeed<B>(step: (B, MboMsg) -> Result<B, string>, b: B, metrics: Metrics,
                                             items: seq<Item>, maxSnapshots: nat, count: nat)
    requires count < Cap(maxSnapshots)
    ensures var r := Run(step, b, metrics, items, maxSnapshots, count);
            ApplyAll(step, b, Feed(items)[..r.applied - count]) == Some(r.book)
    ensures var r := Run(step, b, metrics, items, maxSnapshots, count);
            !r.failed && r.applied < Cap(maxSnapshots) ==> r.applied - count == |Feed(items)|
    ensures var r := Run(step, b, metrics, items, maxSnapshots, count);
            r.applied < Cap(maxSnapshots) && r.applied - count < |Feed(items)| ==>
              r.failed && ApplyAll(step, b, Feed(items)[..r.applied - count + 1]).None?
    decreases |items|, 1
  {
    if |items| == 0 || items[0].Fault? || !items[0].running {
      assert Feed(items) == [];
    } else {
      var tail := items[1..];
      match items[0].rec
      case OtherRecord =>
        assert Feed(items) == Feed(tail);
        RunAppliesFeed(step, b, metrics, tail, maxSnapshots, count);
      case Mbo(m) =>
        RunAppliesMbo(step, b, metrics, items, maxSnapshots, count, m);
    }
  }

  lemma {:induction false} RunAppliesMbo<B>(step: (B, MboMsg) -> Result<B, string>, b: B, metrics: Metrics,
                                            items: seq<Item>, maxSnapshots: nat, count: nat, m: MboMsg)
    requires count < Cap(maxSnapshots)
    requires |items| > 0 && items[0].Callback? && items[0].running && items[0].rec == Mbo(m)
    ensures var r := Run(step, b, metrics, items, maxSnapshots, count);
            ApplyAll(step, b, Feed(items)[..r.applied - count]) == Some(r.book)
    ensures var r := Run(step, b, metrics, items, maxSnapshots, count);
            !r.failed && r.applied < Cap(maxSnapshots) ==> r.applied - count == |Feed(items)|
    ensures var r := Run(step, b, metrics, items, maxSnapshots, count);
            r.applied < Cap(maxSnapshots) && r.applied - count < |Feed(items)| ==>
              r.failed && ApplyAll(step, b, Feed(items)[..r.applied - count + 1]).None?
    decreases |items|, 0
  {
    var tail := items[1..];
    var feed := Feed(items);
    assert feed == [m] + Feed(tail);
    ApplyAllCons(step, b, m, []);
    assert feed[..1] == [m] + [];
    assert feed[..0] == [];
    if step(b, m).Success? && count + 1 < maxSnapshots {
      var b' := step(b, m).value;
      var r := Run(step, b', metrics, tail, maxSnapshots, count + 1);
      RunAppliesFeed(step, b', metrics, tail, maxSnapshots, count + 1);
      var k := r.applied - count - 1;
      ApplyAllCons(step, b, m, Feed(tail)[..k]);
      assert feed[..k + 1] == [m] + Feed(tail)[..k];
      if k < |Feed(tail)| {
        ApplyAllCons(step, b, m, Feed(tail)[..k + 1]);
        assert feed[..k + 2] == [m] + Feed(tail)[..k + 1];
      }
    }
  }

  /** The loop fails only on an exception: one the decoder raised, or the one the
      book threw on the next message of the feed; either way its text is the
      last error. When the loop stopped short of the end of the feed, it was the
      book that threw, and a later decoder exception is never reached. */
  lemma {:induction false} RunFailsOnlyOnThrow<B>(step: (B, MboMsg) -> Result<B, string>, b: B, metrics: Metrics,
                                                  items: seq<Item>, maxSnapshots: nat, count: nat)
    requires count < Cap(maxSnapshots)
    ensures var r := Run(step, b, metrics, items, maxSnapshots, count);
            r.failed ==> EndFault(items) == Some(LastError(r.metrics)) ||
                         (r.applied - count < |Feed(items)| &&
                          step(r.book, Feed(items)[r.applied - count]) == Failure(LastError(r.metrics)))
    ensures var r := Run(step, b, metrics, items, maxSnapshots, count);
            r.failed && r.applied - count < |Feed(items)| ==>
              step(r.book, Feed(items)[r.applied - count]) == Failure(LastError(r.metrics))
    decreases |items|
  {
    if |items| > 0 {
      var tail := items[1..];
      match items[0]
      case Fault(_, what) =>
      case Callback(running, rec, _) =>
        if running {
          assert EndFault(items) == EndFault(tail);
          match rec
          case OtherRecord =>
            assert Feed(items) == Feed(tail);
            RunFailsOnlyOnThrow(step, b, metrics, tail, maxSnapshots, count);
          case Mbo(m) =>
            assert Feed(items) == [m] + Feed(tail);
            match step(b, m)
            case Failure(_) =>
            case Success(b') =>
              if count + 1 < maxSnapshots {
                RunFailsOnlyOnThrow(step, b', metrics, tail, maxSnapshots, count + 1);
              }
        }
    }
  }

  /** Applying one more message that throws makes the whole sequence throw. */
  lemma {:induction false} ApplyAllSnoc<B>(step: (B, MboMsg) -> Result<B, string>, b: B, ms: seq<MboMsg>, m: MboMsg, x: B)
    requires ApplyAll(step, b, ms) == Some(x) && step(x, m).Failure?
    ensures ApplyAll(step, b, ms + [m]) == None
    decreases |ms|
  {
    if |ms| == 0 {
      assert ms + [m] == [m] + [];
      ApplyAllCons(step, b, m, []);
    } else {
      assert ms + [m] == [ms[0]] + (ms[1..] + [m]);
      ApplyAllCons(step, b, ms[0], ms[1..] + [m]);
      ApplyAllCons(step, b, ms[0], ms[1..]);
      assert ms == [ms[0]] + ms[1..];
      ApplyAllSnoc(step, step(b, ms[0]).value, ms[1..], m, x);
    }
  }

  /** When the loop gets through the whole feed short of the cap and the decoder
      then throws, the loop fails and the exception's text is the last error. */
  lemma {:induction false} RunReachesFault<B>(step: (B, MboMsg) -> Result<B, string>, b: B, metrics: Metrics,
                                              items: seq<Item>, maxSnapshots: nat, count: nat)
    requires count < Cap(maxSnapshots)
    ensures var r := Run(step, b, metrics, items, maxSnapshots, count);
            EndFault(items).Some? && r.applied - count == |Feed(items)| && r.applied < Cap(maxSnapshots) ==>
              r.failed && LastError(r.metrics) == EndFault(items).value
    decreases |items|
  {
    if |items| > 0 {
      var tail := items[1..];
      match items[0]
      case Fault(_, _) =>
      case Callback(running, rec, _) =>
        if running {
          assert EndFault(items) == EndFault(tail);
          match rec
          case OtherRecord =>
            assert Feed(items) == Feed(tail);
            RunReachesFault(step, b, metrics, tail, maxSnapshots, count);
          case Mbo(m) =>
            assert Feed(items) == [m] + Feed(tail);
            match step(b, m)
            case Failure(_) =>
            case Success(b') =>
              if count + 1 < maxSnapshots {
                RunReachesFault(step, b', metrics, tail, maxSnapshots, count + 1);
              }
        }
    }
  }

  /** Without a decoder exception in the loop's way and with a feed the book
      accepts in full, the loop does not fail. */
  lemma RunCleanFeedSucceeds<B>(step: (B, MboMsg) -> Result<B, string>, b: B, metrics: Metrics,
                                items: seq<Item>, maxSnapshots: nat, count: nat)
    requires count < Cap(maxSnapshots)
    ensures EndFault(items).None? && ApplyAll(step, b, Feed(items)).Some? ==>
              !Run(step, b, metrics, items, maxSnapshots, count).failed
  {
    var r := Run(step, b, metrics, items, maxSnapshots, count);
    if EndFault(items).None? && ApplyAll(step, b, Feed(items)).Some? && r.failed {
      RunFailsOnlyOnThrow(step, b, metrics, items, maxSnapshots, count);
      RunAppliesFeed(step, b, metrics, items, maxSnapshots, count);
      var k := r.applied - count;
      var feed := Feed(items);
      ApplyAllSnoc(step, b, feed[..k], feed[k], r.book);
      assert feed[..k] + [feed[k]] == feed[..k + 1];
      ApplyAllPrefix(step, b, feed, k + 1);
      assert false;
    }
  }

  /** `replay`: nothing happens without a file path; otherwise the loop runs
      from a count of 0 on the engine's book. */
  function Replay(path: string, b: Book, metrics: Metrics, items: seq<Item>, maxSnapshots: nat): (r: ReplayOutcome<Book>)
    ensures |path| == 0 ==> r == ReplayOutcome(b, metrics, 0, false)
    ensures r.applied <= Cap(maxSnapshots) && r.applied <= |Feed(items)|
    ensures |path| > 0 ==> ApplyAll(BookStep, b, Feed(items)[..r.applied]) == Some(r.book)
    ensures |path| > 0 && !r.failed && r.applied < Cap(maxSnapshots) ==> r.applied == |Feed(items)|
    ensures |path| > 0 && r.applied < Cap(maxSnapshots) && r.applied < |Feed(items)| ==>
              r.failed && ApplyAll(BookStep, b, Feed(items)[..r.applied + 1]).None?
    ensures r.failed ==> r.applied < Cap(maxSnapshots) && r.metrics.replayErrors == metrics.replayErrors + 1
    ensures !r.failed ==> r.metrics == metrics
    ensures r.failed ==> r.metrics == RecordReplayError(metrics, LastError(r.metrics))
    ensures r.failed ==> EndFault(items) == Some(LastError(r.metrics)) ||
                         (r.applied < |Feed(items)| && BookStep(r.book, Feed(items)[r.applied]) == Failure(LastError(r.metrics)))
    ensures |path| > 0 && r.failed && r.applied < |Feed(items)| ==>
              BookStep(r.book, Feed(items)[r.applied]) == Failure(LastError(r.metrics))
    ensures |path| > 0 && EndFault(items).Some? && r.applied == |Feed(items)| && r.applied < Cap(maxSnapshots) ==>
              r.failed && LastError(r.metrics) == EndFault(items).value
    ensures EndFault(items).None? && ApplyAll(BookStep, b, Feed(items)).Some? ==> !r.failed
  {
    if |path| == 0 then ReplayOutcome(b, metrics, 0, false)
    else
      RunFromStart(b, metrics, items, maxSnapshots);
      Run(BookStep, b, metrics, items, maxSnapshots, 0)
  }

  /** The loop's guarantees from a count of 0 on the engine's book. */
  lemma RunFromStart(b: Book, metrics: Metrics, items: seq<Item>, maxSnapshots: nat)
    ensures var r := Run(BookStep, b, metrics, items, maxSnapshots, 0);
            && ApplyAll(BookStep, b, Feed(items)[..r.applied]) == Some(r.book)
            && (!r.failed && r.applied < Cap(maxSnapshots) ==> r.applied == |Feed(items)|)
            && (r.applied < Cap(maxSnapshots) && r.applied < |Feed(items)| ==>
                  r.failed && ApplyAll(BookStep, b, Feed(items)[..r.applied + 1]).None?)
            && (r.failed ==> EndFault(items) == Some(LastError(r.metrics)) ||
                             (r.applied < |Feed(items)| && BookStep(r.book, Feed(items)[r.applied]) == Failure(LastError(r.metrics))))
            && (r.failed && r.applied < |Feed(items)| ==>
                  BookStep(r.book, Feed(items)[r.applied]) == Failure(LastError(r.metrics)))
            && (EndFault(items).Some? && r.applied == |Feed(items)| && r.applied < Cap(maxSnapshots) ==>
                  r.failed && LastError(r.metrics) == EndFault(items).value)
            && (EndFault(items).None? && ApplyAll(BookStep, b, Feed(items)).Some? ==> !r.failed)
  {
    RunAppliesFeed(BookStep, b, metrics, items, maxSnapshots, 0);
    RunFailsOnlyOnThrow(BookStep, b, metrics, items, maxSnapshots, 0);
    RunCleanFeedSucceeds(BookStep, b, metrics, items, maxSnapshots, 0);
    RunReachesFault(BookStep, b, metrics, items, maxSnapshots, 0);
  }

  /** A prefix of a sequence of messages that applies without an exception
      applies without one too. */
  lemma {:induction false} ApplyAllPrefix<B>(step: (B, MboMsg) -> Result<B, string>, b: B, ms: seq<MboMsg>, k: nat)
    requires k <= |ms| && ApplyAll(step, b, ms).Some?
    ensures ApplyAll(step, b, ms[..k]).Some?
    decreases |ms|
  {
    if k > 0 {
      assert ms == [ms[0]] + ms[1..];
      assert ms[..k] == [ms[0]] + ms[1..][..k - 1];
      ApplyAllCons(step, b, ms[0], ms[1..]);
      ApplyAllCons(step, b, ms[0], ms[1..][..k - 1]);
      ApplyAllPrefix(step, step(b, ms[0]).value, ms[1..], k - 1);
    }
  }

  /** When the file holds at least `max_snapshots` MBO messages before any stop
      request, and none of the first ones exhausts the pool, `replay` applies
      exactly `max_snapshots` of them (one when the cap is 0). */
  lemma ReplayStopsAtCap(path: string, b: Book, metrics: Metrics, items: seq<Item>, maxSnapshots: nat)
    requires |path| > 0
    requires Cap(maxSnapshots) <= |Feed(items)|
    requires ApplyAll(BookStep, b, Feed(items)[..Cap(maxSnapshots)]).Some?
    ensures Replay(path, b, metrics, items, maxSnapshots).applied == Cap(maxSnapshots)
    ensures !Replay(path, b, metrics, items, maxSnapshots).failed
  {
    var r := Replay(path, b, metrics, items, maxSnapshots);
    if r.applied < Cap(maxSnapshots) {
      ApplyAllShorterPrefix(BookStep, b, Feed(items), r.applied + 1, Cap(maxSnapshots));
      assert false;
    }
    assert r.failed ==> r.applied < Cap(maxSnapshots);
  }

  /** A shorter prefix of a prefix that applies without an exception applies too. */
  lemma ApplyAllShorterPrefix<B>(step: (B, MboMsg) -> Result<B, string>, b: B, ms: seq<MboMsg>, k: nat, n: nat)
    requires k <= n <= |ms| && ApplyAll(step, b, ms[..n]).Some?
    ensures ApplyAll(step, b, ms[..k]).Some?
  {
    assert ms[..n][..k] == ms[..k];
    ApplyAllPrefix(step, b, ms[..n], k);
  }

  /** Applying messages one by one keeps the book consistent, provided every add
      and modify carries a size that stays positive as a signed 32-bit value. */
  lemma {:induction false} ApplyAllKeepsConsistent(b: Book, ms: seq<MboMsg>)
    requires Consistent(b)
    requires forall i :: 0 <= i < |ms| && ms[i].action in {Add, Modify} ==> 0 < ms[i].size < Two31
    ensures ApplyAll(BookStep, b, ms).Some? ==> Consistent(ApplyAll(BookStep, b, ms).value)
    decreases |ms|
  {
    if |ms| > 0 {
      ApplyKeepsConsistent(b, MapMbo(ms[0]));
      match BookStep(b, ms[0])
      case Failure(_) =>
      case Success(b') =>
        assert forall i :: 0 <= i < |ms[1..]| ==> ms[1..][i] == ms[i + 1];
        ApplyAllKeepsConsistent(b', ms[1..]);
    }
  }

  /** A replay leaves a consistent book consistent under the same size condition. */
  lemma ReplayKeepsConsistent(path: string, b: Book, metrics: Metrics, items: seq<Item>, maxSnapshots: nat)
    requires Consistent(b)
    requires forall i :: 0 <= i < |Feed(items)| && Feed(items)[i].action in {Add, Modify} ==>
               0 < Feed(items)[i].size < Two31
    ensures Consistent(Replay(path, b, metrics, items, maxSnapshots).book)
  {
    var r := Replay(path, b, metrics, items, maxSnapshots);
    if |path| > 0 {
      ApplyAllKeepsConsistent(b, Feed(items)[..r.applied]);
    }
  }
}
