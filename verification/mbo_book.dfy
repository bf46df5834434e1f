/**
 * The per-publisher MBO book that `reconstruct_orderbook_json` rebuilds: each
 * side maps a price to the FIFO vector of resting MBO messages, and an id index
 * remembers each order's price and side. Clear, Add, Cancel and Modify change
 * it; Trade, Fill and action-less messages are ignored.
 */
module MboBook {
  import opened Ints
  import opened Common
  import opened Seqs
  import opened PriceLadder
  import opened Dbn

  datatype OrderRef = OrderRef(price: i64, side: Side)

  /** One side's `std::map<int64_t, LevelOrders>`: ascending prices, each with
      its orders in arrival order. */
  type Levels = es: seq<Entry<seq<MboMsg>>> | Sorted(false, es) witness []

  datatype PublisherBook = PublisherBook(publisherId: u16, bids: Levels, asks: Levels, byId: map<u64, OrderRef>)

  function NewBook(publisherId: u16): PublisherBook {
    PublisherBook(publisherId, [], [], map[])
  }

  function SideLevels(pb: PublisherBook, bid: bool): Levels {
    if bid then pb.bids else pb.asks
  }

  function WithSide(pb: PublisherBook, bid: bool, ls: Levels): (r: PublisherBook)
    ensures SideLevels(r, bid) == ls && SideLevels(r, !bid) == SideLevels(pb, !bid)
    ensures r.byId == pb.byId && r.publisherId == pb.publisherId
  {
    if bid then pb.(bids := ls) else pb.(asks := ls)
  }

  /** The orders at `price`, or none when there is no such level. */
  function OrdersAt(ls: Levels, price: int): seq<MboMsg> {
    FindOr(ls, price, [])
  }

  /** `side.levels[price].orders.push_back(o)`: creates the level if needed. */
  function PushOrder(ls: Levels, price: int, o: MboMsg): (r: Levels)
    ensures AsMap(r) == AsMap(ls)[price := OrdersAt(ls, price) + [o]]
  {
    Put(false, ls, price, OrdersAt(ls, price) + [o])
  }

  /** Writes a level's orders back, erasing the level when none are left. */
  function StoreOrders(ls: Levels, price: int, orders: seq<MboMsg>): (r: Levels)
    ensures |orders| == 0 ==> AsMap(r) == AsMap(ls) - {price}
    ensures |orders| > 0 ==> AsMap(r) == AsMap(ls)[price := orders]
  {
    if |orders| == 0 then Erase(false, ls, price) else Put(false, ls, price, orders)
  }

  /** Position of the first order with id `id` (`std::find_if` on the level vector). */
  function FindOrder(orders: seq<MboMsg>, id: u64): (r: Option<nat>)
    ensures r.None? <==> forall k :: 0 <= k < |orders| ==> orders[k].orderId != id
    ensures r.Some? ==> r.value < |orders| && orders[r.value].orderId == id
    ensures r.Some? ==> forall k :: 0 <= k < r.value ==> orders[k].orderId != id
  {
    if |orders| == 0 then None
    else if orders[0].orderId == id then Some(0)
    else match FindOrder(orders[1..], id)
      case None => None
      case Some(i) => Some(i + 1)
  }

  /** Unsigned subtraction that stops at zero, as the cancel path does it. */
  function SatSub(a: u32, b: u32): (r: u32)
    ensures r == if a >= b then a - b else 0
    ensures r + (if a >= b then b else a) == a
  {
    if a >= b then a - b else 0
  }

  /** Clear empties the bid side for a bid and the ask side for an ask; when the
      message carries a price it is then queued there, on the asks unless it is a
      bid. */
  function ApplyClear(pb: PublisherBook, m: MboMsg): PublisherBook {
    var cleared :=
      if m.side == Bid then pb.(bids := [])
      else if m.side == Ask then pb.(asks := [])
      else pb;
    if m.price != UndefPrice then
      var bid := m.side == Bid;
      WithSide(cleared, bid, PushOrder(SideLevels(cleared, bid), m.price, m))
    else cleared
  }

  /** Add queues the message at the tail of its level and indexes the id unless
      it is already indexed. */
  function ApplyAdd(pb: PublisherBook, m: MboMsg): PublisherBook {
    var bid := m.side == Bid;
    var pb1 := WithSide(pb, bid, PushOrder(SideLevels(pb, bid), m.price, m));
    if m.orderId in pb1.byId then pb1
    else pb1.(byId := pb1.byId[m.orderId := OrderRef(m.price, m.side)])
  }

  /** Cancel takes the cancelled size off the first order with the id at the
      indexed price (stopping at zero); an order left with nothing leaves its level
      and the index, and an empty level is erased. */
  function ApplyCancel(pb: PublisherBook, m: MboMsg): PublisherBook {
    if m.orderId !in pb.byId then pb
    else
      var ref := pb.byId[m.orderId];
      var bid := ref.side == Bid;
      var ls := SideLevels(pb, bid);
      match Find(ls, ref.price)
      case None => pb
      case Some(orders) =>
        match FindOrder(orders, m.orderId)
        case None => pb
        case Some(i) =>
          var left := SatSub(orders[i].size, m.size);
          if left == 0 then
            WithSide(pb.(byId := pb.byId - {m.orderId}), bid, StoreOrders(ls, ref.price, Delete(orders, i)))
          else
            WithSide(pb, bid, StoreOrders(ls, ref.price, orders[i := orders[i].(size := left)]))
  }

  /** Modify of an unindexed id is an add. Otherwise the order is found at its
      indexed price; a new price moves it, with the new size, to the tail of the
      new price's level on the message's side and re-indexes it; at the same price
      a larger size sends it to the tail and any other size is set in place. */
  function ApplyModify(pb: PublisherBook, m: MboMsg): PublisherBook {
    if m.orderId !in pb.byId then ApplyAdd(pb, m)
    else
      var ref := pb.byId[m.orderId];
      var oldBid := ref.side == Bid;
      var ls := SideLevels(pb, oldBid);
      match Find(ls, ref.price)
      case None => pb
      case Some(orders) =>
        match FindOrder(orders, m.orderId)
        case None => pb
        case Some(i) =>
          if ref.price != m.price then
            var moved := orders[i].(price := m.price, size := m.size);
            var newBid := m.side == Bid;
            var pb1 := WithSide(pb, newBid, PushOrder(SideLevels(pb, newBid), m.price, moved));
            var pb2 := WithSide(pb1, oldBid, StoreOrders(SideLevels(pb1, oldBid), ref.price, Delete(orders, i)));
            pb2.(byId := pb2.byId[m.orderId := OrderRef(m.price, m.side)])
          else if orders[i].size < m.size then
            WithSide(pb, oldBid, Put(false, ls, ref.price, Delete(orders, i) + [orders[i].(size := m.size)]))
          else
            WithSide(pb, oldBid, Put(false, ls, ref.price, orders[i := orders[i].(size := m.size)]))
  }

  /** One MBO message applied to its publisher's book. */
  function Step(pb: PublisherBook, m: MboMsg): (r: PublisherBook)
    ensures r.publisherId == pb.publisherId
    ensures m.action in {Trade, Fill, NoAction} ==> r == pb
  {
    match m.action
    case Clear => ApplyClear(pb, m)
    case Add => ApplyAdd(pb, m)
    case Cancel => ApplyCancel(pb, m)
    case Modify => ApplyModify(pb, m)
    case _ => pb
  }
}
