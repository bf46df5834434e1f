/**
 * The summaries `reconstruct_orderbook_json` reports for a publisher book:
 * each side's best level, the best across publishers, and the depth-limited
 * level lists. Sizes and order counts are accumulated in `uint32_t` and wrap.
 */
module Bbo {
  import opened Ints
  import opened PriceLadder
  import opened Dbn
  import opened MboBook
  import opened MboBookProps

  /** A price with its accumulated size and count of non-top-of-book orders. */
  datatype Quote = Quote(price: int, size: u32, count: u32)

  /** What an empty side reports: the undefined price and nothing behind it. */
  const NoQuote: Quote := Quote(UndefPrice, 0, 0)

  /** How many of the queued messages are real orders rather than top-of-book
      records, as an unbounded count. */
  function Depth(orders: seq<MboMsg>): nat {
    if |orders| == 0 then 0 else (if orders[0].isTob then 0 else 1) + Depth(orders[1..])
  }

  lemma ModSum(a: int, b: int)
    ensures (a % Two32 + b) % Two32 == (a + b) % Two32
  {
  }

  /** The per-level loop: adds each order's size and, unless it is a
      top-of-book record, one to the count, both modulo 2^32. */
  function TallyFrom(q: Quote, orders: seq<MboMsg>): (r: Quote)
    ensures r.price == q.price
    ensures r.size == (q.size + Volume(orders)) % Two32
    ensures r.count == (q.count + Depth(orders)) % Two32
    decreases |orders|
  {
    if |orders| == 0 then q
    else
      var o := orders[0];
      var next := Quote(q.price, AddU32(q.size, o.size), AddU32(q.count, if o.isTob then 0 else 1));
      var r := TallyFrom(next, orders[1..]);
      ModSum(q.size + o.size, Volume(orders[1..]));
      ModSum(q.count + (if o.isTob then 0 else 1), Depth(orders[1..]));
      r
  }

  /** The summary of one level: its volume and order count, wrapped to 32 bits. */
  function LevelQuote(price: int, orders: seq<MboMsg>): (q: Quote)
    ensures q.price == price
    ensures q.size == Volume(orders) % Two32 && q.count == Depth(orders) % Two32
  {
    TallyFrom(Quote(price, 0, 0), orders)
  }

  /** A publisher's best bid: the last, highest, bid level (`rbegin()`), or the
      undefined price when there are no bids. A level keyed at the undefined
      price reports no size either. */
  function BestBid(pb: PublisherBook): (q: Quote)
    ensures AsMap(pb.bids) == map[] ==> q == NoQuote
    ensures AsMap(pb.bids) != map[] ==>
              q.price in AsMap(pb.bids) && forall p :: p in AsMap(pb.bids) ==> p <= q.price
    ensures q.price != UndefPrice ==> q == LevelQuote(q.price, AsMap(pb.bids)[q.price])
    ensures q.price == UndefPrice ==> q.size == 0 && q.count == 0
  {
    if |pb.bids| == 0 then NoQuote
    else
      var top := pb.bids[|pb.bids| - 1];
      LastIsExtreme(false, pb.bids);
      if top.price != UndefPrice then LevelQuote(top.price, top.level) else Quote(top.price, 0, 0)
  }

  /** A publisher's best ask: the first, lowest, ask level (`begin()`). */
  function BestAsk(pb: PublisherBook): (q: Quote)
    ensures AsMap(pb.asks) == map[] ==> q == NoQuote
    ensures AsMap(pb.asks) != map[] ==>
              q.price in AsMap(pb.asks) && forall p :: p in AsMap(pb.asks) ==> q.price <= p
    ensures q.price != UndefPrice ==> q == LevelQuote(q.price, AsMap(pb.asks)[q.price])
    ensures q.price == UndefPrice ==> q.size == 0 && q.count == 0
  {
    if |pb.asks| == 0 then NoQuote
    else
      var top := pb.asks[0];
      FirstIsExtreme(false, pb.asks);
      if top.price != UndefPrice then LevelQuote(top.price, top.level) else Quote(top.price, 0, 0)
  }

  // ---------------------------------------------------------------------------
  // Aggregation across publishers

  /** `a` is a strictly better price than `b` on the given side. */
  predicate Better(bid: bool, a: int, b: int) {
    if bid then a > b else a < b
  }

  /** Folds one publisher's quote into the running aggregate: an undefined quote
      is skipped, a better price replaces the aggregate, and an equal price adds
      its size and count (wrapping). */
  function Merge(bid: bool, agg: Quote, q: Quote): Quote {
    if q.price == UndefPrice then agg
    else if agg.price == UndefPrice || Better(bid, q.price, agg.price) then q
    else if q.price == agg.price then Quote(agg.price, AddU32(agg.size, q.size), AddU32(agg.count, q.count))
    else agg
  }

  /** The aggregate after folding the quotes in publisher order. */
  function Aggregate(bid: bool, qs: seq<Quote>): Quote {
    if |qs| == 0 then NoQuote else Merge(bid, Aggregate(bid, qs[..|qs| - 1]), qs[|qs| - 1])
  }

  /** Total size of the quotes at price `p`, unbounded. */
  function SizeAt(qs: seq<Quote>, p: int): nat {
    if |qs| == 0 then 0
    else SizeAt(qs[..|qs| - 1], p) + (if qs[|qs| - 1].price == p then qs[|qs| - 1].size else 0)
  }

  /** Total order count of the quotes at price `p`, unbounded. */
  function CountAt(qs: seq<Quote>, p: int): nat {
    if |qs| == 0 then 0
    else CountAt(qs[..|qs| - 1], p) + (if qs[|qs| - 1].price == p then qs[|qs| - 1].count else 0)
  }

  lemma {:induction false} NothingAt(qs: seq<Quote>, p: int)
    requires forall i :: 0 <= i < |qs| ==> qs[i].price != p
    ensures SizeAt(qs, p) == 0 && CountAt(qs, p) == 0
  {
    if |qs| > 0 {
      NothingAt(qs[..|qs| - 1], p);
    }
  }

  /** `a` is the reference answer for `qs`: undefined exactly when no publisher
      quotes a price; otherwise the best quoted price, with the sizes and counts
      of all publishers quoting exactly that price summed modulo 2^32. */
  ghost predicate IsAggregate(bid: bool, qs: seq<Quote>, a: Quote) {
    && (a.price == UndefPrice <==> forall i :: 0 <= i < |qs| ==> qs[i].price == UndefPrice)
    && (a.price == UndefPrice ==> a == NoQuote)
    && (a.price != UndefPrice ==>
          && (exists i :: 0 <= i < |qs| && qs[i].price == a.price)
          && (forall i :: 0 <= i < |qs| && qs[i].price != UndefPrice ==> !Better(bid, qs[i].price, a.price))
          && a.size == SizeAt(qs, a.price) % Two32
          && a.count == CountAt(qs, a.price) % Two32)
  }

  /** The fold computes the reference answer. */
  lemma {:induction false} AggregateIsBest(bid: bool, qs: seq<Quote>)
    ensures IsAggregate(bid, qs, Aggregate(bid, qs))
  {
    if |qs| > 0 {
      AggregateIsBest(bid, qs[..|qs| - 1]);
      MergeStep(bid, qs, Aggregate(bid, qs[..|qs| - 1]));
    }
  }

  lemma MergeStep(bid: bool, qs: seq<Quote>, prev: Quote)
    requires |qs| > 0 && IsAggregate(bid, qs[..|qs| - 1], prev)
    ensures IsAggregate(bid, qs, Merge(bid, prev, qs[|qs| - 1]))
  {
    var init := qs[..|qs| - 1];
    var q := qs[|qs| - 1];
    assert forall i :: 0 <= i < |init| ==> init[i] == qs[i];
    if q.price == UndefPrice {
      MergeSkips(bid, qs, prev);
    } else if prev.price == UndefPrice || Better(bid, q.price, prev.price) {
      MergeReplaces(bid, qs, prev);
    } else if q.price == prev.price {
      MergeAdds(bid, qs, prev);
    } else {
      MergeSkips(bid, qs, prev);
    }
  }

  lemma MergeSkips(bid: bool, qs: seq<Quote>, prev: Quote)
    requires |qs| > 0 && IsAggregate(bid, qs[..|qs| - 1], prev)
    requires var q := qs[|qs| - 1];
             q.price == UndefPrice || (prev.price != UndefPrice && q.price != prev.price && !Better(bid, q.price, prev.price))
    ensures IsAggregate(bid, qs, prev)
  {
    var init := qs[..|qs| - 1];
    assert forall i :: 0 <= i < |init| ==> init[i] == qs[i];
    if prev.price != UndefPrice {
      var i :| 0 <= i < |init| && init[i].price == prev.price;
      assert qs[i].price == prev.price;
    }
  }

  lemma MergeReplaces(bid: bool, qs: seq<Quote>, prev: Quote)
    requires |qs| > 0 && IsAggregate(bid, qs[..|qs| - 1], prev)
    requires var q := qs[|qs| - 1];
             q.price != UndefPrice && (prev.price == UndefPrice || Better(bid, q.price, prev.price))
    ensures IsAggregate(bid, qs, qs[|qs| - 1])
  {
    var init := qs[..|qs| - 1];
    var q := qs[|qs| - 1];
    assert forall i :: 0 <= i < |init| ==> init[i] == qs[i];
    forall i | 0 <= i < |init|
      ensures init[i].price != q.price
    {
      if init[i].price != UndefPrice {
        assert !Better(bid, init[i].price, prev.price);
      }
    }
    NothingAt(init, q.price);
  }

  lemma MergeAdds(bid: bool, qs: seq<Quote>, prev: Quote)
    requires |qs| > 0 && IsAggregate(bid, qs[..|qs| - 1], prev)
    requires var q := qs[|qs| - 1];
             q.price != UndefPrice && q.price == prev.price
    ensures IsAggregate(bid, qs, Merge(bid, prev, qs[|qs| - 1]))
  {
    var init := qs[..|qs| - 1];
    var q := qs[|qs| - 1];
    assert forall i :: 0 <= i < |init| ==> init[i] == qs[i];
    var i :| 0 <= i < |init| && init[i].price == prev.price;
    assert qs[i].price == prev.price;
    ModSum(SizeAt(init, prev.price), q.size);
    ModSum(CountAt(init, prev.price), q.count);
  }

  /** The publishers' best bids, in publisher order. */
  function BidQuotes(pbs: seq<PublisherBook>): (qs: seq<Quote>)
    ensures |qs| == |pbs| && forall i :: 0 <= i < |pbs| ==> qs[i] == BestBid(pbs[i])
  {
    seq(|pbs|, i requires 0 <= i < |pbs| => BestBid(pbs[i]))
  }

  /** The publishers' best asks, in publisher order. */
  function AskQuotes(pbs: seq<PublisherBook>): (qs: seq<Quote>)
    ensures |qs| == |pbs| && forall i :: 0 <= i < |pbs| ==> qs[i] == BestAsk(pbs[i])
  {
    seq(|pbs|, i requires 0 <= i < |pbs| => BestAsk(pbs[i]))
  }

  // ---------------------------------------------------------------------------
  // Level emission

  /** The prices a list of level summaries covers. */
  function Prices(r: seq<Quote>): set<int> {
    set k | 0 <= k < |r| :: r[k].price
  }

  /** Position in the side's ascending sequence of the `k`-th level walked:
      from the back for bids, from the front for asks. */
  function WalkIndex(n: nat, bid: bool, k: nat): (i: nat)
    requires k < n
    ensures i < n
  {
    if bid then n - 1 - k else k
  }

  /** `r` is the walk the emission loop makes: bids from the highest price down,
      asks from the lowest up, stopping after `levels` of them unless `levels` is 0,
      each level summarised by its own orders. */
  ghost predicate Walked(ls: Levels, bid: bool, levels: nat, r: seq<Quote>) {
    && |r| == (if levels == 0 || levels >= |ls| then |ls| else levels)
    && forall k :: 0 <= k < |r| ==> r[k] == LevelQuote(ls[WalkIndex(|ls|, bid, k)].price, ls[WalkIndex(|ls|, bid, k)].level)
  }

  /** The levels written for one side: exactly the best levels of the side, best
      first, each with its own summary, as many as the limit allows; every level
      left out is worse than every level written. */
  function EmitLevels(ls: Levels, bid: bool, levels: nat): (r: seq<Quote>)
    ensures |r| == (if levels == 0 || levels >= |AsMap(ls)| then |AsMap(ls)| else levels)
    ensures forall k :: 0 <= k < |r| ==> r[k].price in AsMap(ls) && r[k] == LevelQuote(r[k].price, AsMap(ls)[r[k].price])
    ensures forall j, k :: 0 <= j < k < |r| ==> Better(bid, r[j].price, r[k].price)
    ensures forall p :: p in AsMap(ls) && p !in Prices(r) ==> forall k :: 0 <= k < |r| ==> Better(bid, r[k].price, p)
  {
    var n := if levels == 0 || levels >= |ls| then |ls| else levels;
    var r := seq(n, k requires 0 <= k < n => LevelQuote(ls[WalkIndex(|ls|, bid, k)].price, ls[WalkIndex(|ls|, bid, k)].level));
    WalkIsBest(ls, bid, levels, r);
    WalkIsTop(ls, bid, levels, r);
    r
  }

  /** The walk yields levels of the side with their own summaries, strictly
      worsening, one per price up to the limit. */
  lemma WalkIsBest(ls: Levels, bid: bool, levels: nat, r: seq<Quote>)
    requires Walked(ls, bid, levels, r)
    ensures |r| == (if levels == 0 || levels >= |AsMap(ls)| then |AsMap(ls)| else levels)
    ensures forall k :: 0 <= k < |r| ==> r[k].price in AsMap(ls) && r[k] == LevelQuote(r[k].price, AsMap(ls)[r[k].price])
    ensures forall j, k :: 0 <= j < k < |r| ==> Better(bid, r[j].price, r[k].price)
  {
    SizeIsKeyCount(false, ls);
    forall k | 0 <= k < |r|
      ensures r[k].price in AsMap(ls) && r[k] == LevelQuote(r[k].price, AsMap(ls)[r[k].price])
    {
      EntryInMap(false, ls, WalkIndex(|ls|, bid, k));
    }
  }

  /** Every level the walk leaves out is worse than every level it yields. */
  lemma WalkIsTop(ls: Levels, bid: bool, levels: nat, r: seq<Quote>)
    requires Walked(ls, bid, levels, r)
    ensures forall p :: p in AsMap(ls) && p !in Prices(r) ==> forall k :: 0 <= k < |r| ==> Better(bid, r[k].price, p)
  {
    forall p, k | p in AsMap(ls) && p !in Prices(r) && 0 <= k < |r|
      ensures Better(bid, r[k].price, p)
    {
      KeyIsPrice(ls, p);
      var i :| 0 <= i < |ls| && ls[i].price == p;
      var j := WalkIndex(|ls|, bid, i);
      assert WalkIndex(|ls|, bid, j) == i;
    }
  }
}
