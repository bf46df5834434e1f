/**
 * What `OrderBook::to_json` lists, without the text around it: the best bid and
 * ask, then every bid level in the container's order (highest first), then
 * every ask level (lowest first), each with its total and its orders from head
 * to tail as (id, size) pairs.
 */
module BookView {
  import opened Ints
  import opened PriceLadder
  import opened OrderBook
  import opened BookInvariants

  datatype OrderView = OrderView(id: u64, size: i32)

  datatype LevelView = LevelView(price: int, totalSize: int, orders: seq<OrderView>)

  datatype BookListing = BookListing(bestBid: (int, int), bestAsk: (int, int), bids: seq<LevelView>, asks: seq<LevelView>)

  /** One level object: its price, its total and its queue walked from the head. */
  function ViewLevel(pool: Pool, e: Entry<Level>): (v: LevelView)
    ensures v.price == e.price && v.totalSize == e.level.totalSize && |v.orders| == |e.level.orders|
    ensures forall k :: 0 <= k < |v.orders| ==>
              v.orders[k] == OrderView(pool[e.level.orders[k]].orderId, pool[e.level.orders[k]].size)
  {
    LevelView(e.price, e.level.totalSize,
      seq(|e.level.orders|, k requires 0 <= k < |e.level.orders| => OrderView(pool[e.level.orders[k]].orderId, pool[e.level.orders[k]].size)))
  }

  function ViewLadder(pool: Pool, es: seq<Entry<Level>>): (vs: seq<LevelView>)
    ensures |vs| == |es| && forall i :: 0 <= i < |es| ==> vs[i] == ViewLevel(pool, es[i])
  {
    seq(|es|, i requires 0 <= i < |es| => ViewLevel(pool, es[i]))
  }

  /** `to_json`. */
  function ToJson(b: Book): BookListing {
    BookListing(BestBid(b), BestAsk(b), ViewLadder(b.pool, b.bids), ViewLadder(b.pool, b.asks))
  }

  /** Sum of the listed sizes. */
  function ListedTotal(os: seq<OrderView>): int {
    if |os| == 0 then 0 else ListedTotal(os[..|os| - 1]) + os[|os| - 1].size
  }

  lemma {:induction false} ListedTotalIsSizeSum(pool: Pool, lv: Level)
    ensures ListedTotal(ViewLevel(pool, Entry(0, lv)).orders) == SizeSum(pool, lv.orders)
    decreases |lv.orders|
  {
    var n := |lv.orders|;
    if n > 0 {
      var shorter := Level(lv.totalSize, lv.orders[..n - 1]);
      ListedTotalIsSizeSum(pool, shorter);
      assert ViewLevel(pool, Entry(0, lv)).orders[..n - 1] == ViewLevel(pool, Entry(0, shorter)).orders;
    }
  }

  /** The listing walks bids from the highest price down and asks from the lowest
      up, lists each price of the book once with that level's total and queue, and
      heads the listing with the first level of each side. */
  lemma ListingFollowsBook(b: Book)
    ensures var j := ToJson(b);
            && (forall i, k :: 0 <= i < k < |j.bids| ==> j.bids[i].price > j.bids[k].price)
            && (forall i, k :: 0 <= i < k < |j.asks| ==> j.asks[i].price < j.asks[k].price)
            && |j.bids| == |AsMap(b.bids)| && |j.asks| == |AsMap(b.asks)|
            && (forall i :: 0 <= i < |j.bids| ==> j.bids[i].price in AsMap(b.bids) && j.bids[i].totalSize == AsMap(b.bids)[j.bids[i].price].totalSize)
            && (forall i :: 0 <= i < |j.asks| ==> j.asks[i].price in AsMap(b.asks) && j.asks[i].totalSize == AsMap(b.asks)[j.asks[i].price].totalSize)
            && (|j.bids| > 0 ==> j.bestBid == (j.bids[0].price, j.bids[0].totalSize))
            && (|j.asks| > 0 ==> j.bestAsk == (j.asks[0].price, j.asks[0].totalSize))
            && (|j.bids| == 0 ==> j.bestBid == (-1, 0))
            && (|j.asks| == 0 ==> j.bestAsk == (-1, 0))
  {
    SizeIsKeyCount(true, b.bids);
    SizeIsKeyCount(false, b.asks);
    forall i | 0 <= i < |b.bids|
      ensures b.bids[i].price in AsMap(b.bids) && AsMap(b.bids)[b.bids[i].price] == b.bids[i].level
    {
      EntryInMap(true, b.bids, i);
    }
    forall i | 0 <= i < |b.asks|
      ensures b.asks[i].price in AsMap(b.asks) && AsMap(b.asks)[b.asks[i].price] == b.asks[i].level
    {
      EntryInMap(false, b.asks, i);
    }
  }

  /** Every price of the book is listed on its side. */
  lemma ListingCoversBook(b: Book)
    ensures forall p :: p in AsMap(b.bids) ==> exists i :: 0 <= i < |ToJson(b).bids| && ToJson(b).bids[i].price == p
    ensures forall p :: p in AsMap(b.asks) ==> exists i :: 0 <= i < |ToJson(b).asks| && ToJson(b).asks[i].price == p
  {
    forall p | p in AsMap(b.bids)
      ensures exists i :: 0 <= i < |ToJson(b).bids| && ToJson(b).bids[i].price == p
    {
      KeyIsPrice(b.bids, p);
      var i :| 0 <= i < |b.bids| && b.bids[i].price == p;
      assert ToJson(b).bids[i].price == p;
    }
    forall p | p in AsMap(b.asks)
      ensures exists i :: 0 <= i < |ToJson(b).asks| && ToJson(b).asks[i].price == p
    {
      KeyIsPrice(b.asks, p);
      var i :| 0 <= i < |b.asks| && b.asks[i].price == p;
      assert ToJson(b).asks[i].price == p;
    }
  }

  /** In a consistent book every listed level is non-empty, its total is the sum of
      the listed sizes, and every listed size is positive. */
  lemma ListedTotalsAdd(b: Book)
    requires Consistent(b)
    ensures var j := ToJson(b);
            && (forall i :: 0 <= i < |j.bids| ==> j.bids[i].orders != [] && j.bids[i].totalSize == ListedTotal(j.bids[i].orders))
            && (forall i :: 0 <= i < |j.asks| ==> j.asks[i].orders != [] && j.asks[i].totalSize == ListedTotal(j.asks[i].orders))
            && (forall i, k :: 0 <= i < |j.bids| && 0 <= k < |j.bids[i].orders| ==> j.bids[i].orders[k].size > 0)
            && (forall i, k :: 0 <= i < |j.asks| && 0 <= k < |j.asks[i].orders| ==> j.asks[i].orders[k].size > 0)
  {
    forall i | 0 <= i < |b.bids|
      ensures LevelOk(b.pool, true, b.bids[i].price, b.bids[i].level)
    {
      EntryInMap(true, b.bids, i);
    }
    forall i | 0 <= i < |b.asks|
      ensures LevelOk(b.pool, false, b.asks[i].price, b.asks[i].level)
    {
      EntryInMap(false, b.asks, i);
    }
    forall i | 0 <= i < |b.bids|
      ensures ListedTotal(ViewLevel(b.pool, b.bids[i]).orders) == b.bids[i].level.totalSize
    {
      ListedTotalIsSizeSum(b.pool, b.bids[i].level);
      assert ViewLevel(b.pool, b.bids[i]).orders == ViewLevel(b.pool, Entry(0, b.bids[i].level)).orders;
    }
    forall i | 0 <= i < |b.asks|
      ensures ListedTotal(ViewLevel(b.pool, b.asks[i]).orders) == b.asks[i].level.totalSize
    {
      ListedTotalIsSizeSum(b.pool, b.asks[i].level);
      assert ViewLevel(b.pool, b.asks[i]).orders == ViewLevel(b.pool, Entry(0, b.asks[i].level)).orders;
    }
  }
}
