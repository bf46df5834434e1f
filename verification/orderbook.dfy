/**
 * The per-price FIFO limit order book of the engine (`OrderBook`).
 *
 * The C++ class keeps an id -> node index, a descending bid map and an
 * ascending ask map of price levels (each a doubly linked FIFO of nodes with a
 * running `total_size`), and a fixed pool of 10000 nodes threaded on a free
 * list. Here a node is a `Handle` (its slot in the pool), the pool is a
 * sequence of slot contents, the free list is a sequence of handles and a level
 * is the FIFO sequence of its handles plus `totalSize`.
 */
module OrderBook {
  import opened Ints
  import opened Common
  import opened Seqs
  import opened PriceLadder

  /** Capacity of the node pool. */
  const MaxOrders: nat := 10000

  /** A pool slot. */
  type Handle = h: nat | h < MaxOrders

  /** A normalised update: action 'A' (add), 'M' (modify), 'C' (cancel) or
      'F' (fill); side 'B' (bid) or anything else (ask). */
  datatype Record = Record(orderId: u64, price: i64, size: i32, side: char, action: char)

  /** The payload of a pool slot; the list links are the level sequences. */
  datatype Node = Node(orderId: u64, price: i64, size: i32, side: char)

  /** Contents of a slot that was never written. */
  const Unset: Node := Node(0, 0, 0, ' ')

  type Pool = p: seq<Node> | |p| == MaxOrders witness seq(MaxOrders, _ => Unset)

  /** One price level: its orders head-to-tail and its running size total. */
  datatype Level = Level(totalSize: int, orders: seq<Handle>)

  /** A default-constructed level. */
  const EmptyLevel: Level := Level(0, [])

  type BidLadder = es: seq<Entry<Level>> | Sorted(true, es) witness []
  type AskLadder = es: seq<Entry<Level>> | Sorted(false, es) witness []

  datatype Book = Book(index: map<u64, Handle>, bids: BidLadder, asks: AskLadder, pool: Pool, free: seq<Handle>)

  /** The top-of-book snapshot: best prices and their level totals, -1/0 for an empty side. */
  datatype TopOfBook = TopOfBook(bestBid: int, bidSize: int, bestAsk: int, askSize: int)

  datatype Error = PoolExhausted

  function Message(e: Error): string {
    match e
    case PoolExhausted => "Order pool exhausted!"
  }

  predicate IsBid(side: char) {
    side == 'B'
  }

  /** The constructor: every slot free, chained in slot order, and empty maps. */
  function Initial(): (b: Book)
    ensures b.index == map[] && AsMap(b.bids) == map[] && AsMap(b.asks) == map[]
    ensures |b.free| == MaxOrders && Distinct(b.free)
    ensures forall h: Handle :: h in b.free
    ensures b.free[0] == 0
  {
    var free := seq(MaxOrders, i requires 0 <= i < MaxOrders => i as Handle);
    forall h: Handle
      ensures h in free
    {
      assert free[h] == h;
    }
    Book(map[], [], [], seq(MaxOrders, _ => Unset), free)
  }

  /** `allocate_node`: pops the head of the free list, or throws once every slot is live. */
  function Allocate(free: seq<Handle>): (r: Result<(Handle, seq<Handle>), Error>)
    ensures r.Failure? <==> forall h: Handle :: h !in free
    ensures r.Success? ==> [r.value.0] + r.value.1 == free
  {
    if |free| == 0 then Failure(PoolExhausted)
    else
      assert free[0] in free;
      Success((free[0], free[1..]))
  }

  /** `deallocate_node`: pushes the slot back so that it is the next one handed out. */
  function Deallocate(free: seq<Handle>, h: Handle): (r: seq<Handle>)
    ensures Allocate(r) == Success((h, free))
    ensures |r| == |free| + 1
  {
    [h] + free
  }

  function Ladder(b: Book, bid: bool): (r: seq<Entry<Level>>)
    ensures Sorted(bid, r)
  {
    if bid then b.bids else b.asks
  }

  function WithLadder(b: Book, bid: bool, es: seq<Entry<Level>>): (r: Book)
    requires Sorted(bid, es)
    ensures Ladder(r, bid) == es && Ladder(r, !bid) == Ladder(b, !bid)
    ensures r.index == b.index && r.pool == b.pool && r.free == b.free
  {
    if bid then b.(bids := es) else b.(asks := es)
  }

  /** The level `operator[]` yields: the stored one or a fresh empty one. */
  function LevelAt(es: seq<Entry<Level>>, price: int): (r: Level)
    ensures price in AsMap(es) ==> r == AsMap(es)[price]
    ensures price !in AsMap(es) ==> r.totalSize == 0 && r.orders == []
  {
    FindOr(es, price, EmptyLevel)
  }

  /** `insert_order_into_level`: links the node at the tail and adds its size. */
  function InsertOrder(level: Level, h: Handle, size: int): (r: Level)
    ensures |r.orders| == |level.orders| + 1 && r.orders[|r.orders| - 1] == h
    ensures r.orders[..|level.orders|] == level.orders
    ensures r.totalSize - level.totalSize == size
  {
    Level(level.totalSize + size, level.orders + [h])
  }

  /** `remove_order_from_level`: unlinks the node and subtracts its size. */
  function RemoveOrder(level: Level, h: Handle, size: int): (r: Level)
    ensures h in level.orders ==> |r.orders| == |level.orders| - 1
    ensures h in level.orders ==> r.orders == Delete(level.orders, IndexOf(level.orders, h))
    ensures level.totalSize - r.totalSize == size
  {
    Level(level.totalSize - size, RemoveFirst(level.orders, h))
  }

  /** Inserts a node into `side[price]`, creating the level if needed. */
  function AddToLadder(desc: bool, es: seq<Entry<Level>>, price: int, h: Handle, size: int): (r: seq<Entry<Level>>)
    requires Sorted(desc, es)
    ensures Sorted(desc, r)
    ensures AsMap(r) == AsMap(es)[price := InsertOrder(LevelAt(es, price), h, size)]
  {
    Put(desc, es, price, InsertOrder(LevelAt(es, price), h, size))
  }

  /** Removes a node from `side[price]` and erases the level when its total reaches 0. */
  function RemoveFromLadder(desc: bool, es: seq<Entry<Level>>, price: int, h: Handle, size: int): (r: seq<Entry<Level>>)
    requires Sorted(desc, es)
    ensures Sorted(desc, r)
    ensures var lv := RemoveOrder(LevelAt(es, price), h, size);
            if lv.totalSize == 0 then AsMap(r) == AsMap(es) - {price} else AsMap(r) == AsMap(es)[price := lv]
  {
    var lv := RemoveOrder(LevelAt(es, price), h, size);
    if lv.totalSize == 0 then Erase(desc, es, price) else Put(desc, es, price, lv)
  }

  /** Unlinks node `h` from the level its side and price name: the level loses
      the node and its size, and is erased exactly when its total drops to 0. */
  function Unlink(b: Book, h: Handle): (r: Book)
    ensures r.index == b.index && r.pool == b.pool && r.free == b.free
    ensures var n := b.pool[h];
            var bid := IsBid(n.side);
            var lv := LevelAt(Ladder(b, bid), n.price);
            && (n.price !in AsMap(Ladder(r, bid)) <==> lv.totalSize == n.size)
            && (n.price in AsMap(Ladder(r, bid)) ==>
                  AsMap(Ladder(r, bid))[n.price] == Level(lv.totalSize - n.size, RemoveFirst(lv.orders, h)))
            && AsMap(Ladder(r, bid)) - {n.price} == AsMap(Ladder(b, bid)) - {n.price}
            && Ladder(r, !bid) == Ladder(b, !bid)
  {
    var n := b.pool[h];
    var bid := IsBid(n.side);
    WithLadder(b, bid, RemoveFromLadder(bid, Ladder(b, bid), n.price, h, n.size))
  }

  /** The state change of `apply_update`. */
  function Apply(b: Book, rec: Record): (r: Result<Book, Error>)
  {
    if rec.action == 'A' then
      match Allocate(b.free)
      case Failure(e) => Failure(e)
      case Success((h, rest)) =>
        var bid := IsBid(rec.side);
        var b1 := b.(index := b.index[rec.orderId := h],
                     pool := b.pool[h := Node(rec.orderId, rec.price, rec.size, rec.side)],
                     free := rest);
        Success(WithLadder(b1, bid, AddToLadder(bid, Ladder(b1, bid), rec.price, h, rec.size)))
    else if rec.action == 'M' then
      if rec.orderId !in b.index then Success(b)
      else
        var h := b.index[rec.orderId];
        var b1 := Unlink(b, h);
        var n := b1.pool[h].(price := rec.price, size := rec.size);
        var b2 := b1.(pool := b1.pool[h := n]);
        var bid := IsBid(n.side);
        Success(WithLadder(b2, bid, AddToLadder(bid, Ladder(b2, bid), rec.price, h, rec.size)))
    else if rec.action == 'C' || rec.action == 'F' then
      if rec.orderId !in b.index then Success(b)
      else
        var h := b.index[rec.orderId];
        var b1 := Unlink(b, h);
        Success(b1.(free := Deallocate(b1.free, h), index := b1.index - {rec.orderId}))
    else
      Success(b)
  }

  /** `get_best_bid`: the highest bid price with its level total, or (-1, 0). */
  function BestBid(b: Book): (r: (int, int))
    ensures AsMap(b.bids) == map[] ==> r == (-1, 0)
    ensures AsMap(b.bids) != map[] ==>
              r.0 in AsMap(b.bids) && r.1 == AsMap(b.bids)[r.0].totalSize &&
              forall p :: p in AsMap(b.bids) ==> p <= r.0
  {
    if |b.bids| == 0 then (-1, 0)
    else
      FirstIsExtreme(true, b.bids);
      (b.bids[0].price, b.bids[0].level.totalSize)
  }

  /** `get_best_ask`: the lowest ask price with its level total, or (-1, 0). */
  function BestAsk(b: Book): (r: (int, int))
    ensures AsMap(b.asks) == map[] ==> r == (-1, 0)
    ensures AsMap(b.asks) != map[] ==>
              r.0 in AsMap(b.asks) && r.1 == AsMap(b.asks)[r.0].totalSize &&
              forall p :: p in AsMap(b.asks) ==> r.0 <= p
  {
    if |b.asks| == 0 then (-1, 0)
    else
      FirstIsExtreme(false, b.asks);
      (b.asks[0].price, b.asks[0].level.totalSize)
  }

  /** `snapshot_top_of_book`: the highest bid and the lowest ask, each with its
      level's total, and -1 with size 0 for an empty side. */
  function Snapshot(b: Book): (r: TopOfBook)
    ensures AsMap(b.bids) == map[] ==> r.bestBid == -1 && r.bidSize == 0
    ensures AsMap(b.bids) != map[] ==>
              r.bestBid in AsMap(b.bids) && r.bidSize == AsMap(b.bids)[r.bestBid].totalSize &&
              forall p :: p in AsMap(b.bids) ==> p <= r.bestBid
    ensures AsMap(b.asks) == map[] ==> r.bestAsk == -1 && r.askSize == 0
    ensures AsMap(b.asks) != map[] ==>
              r.bestAsk in AsMap(b.asks) && r.askSize == AsMap(b.asks)[r.bestAsk].totalSize &&
              forall p :: p in AsMap(b.asks) ==> r.bestAsk <= p
  {
    var (bb, bs) := BestBid(b);
    var (ba, as_) := BestAsk(b);
    TopOfBook(bb, bs, ba, as_)
  }

  /** `apply_update`: applies one record and returns the top of book after it.
      Only an add can fail, and only when the pool is exhausted; a modify, cancel or
      fill of an unknown id and an unrecognised action leave the book as it was. */
  function ApplyUpdate(b: Book, rec: Record): (r: Result<(Book, TopOfBook), Error>)
    ensures r.Failure? <==> rec.action == 'A' && b.free == []
    ensures r.Failure? ==> r.error == PoolExhausted
    ensures r.Success? ==> r.value.1 == Snapshot(r.value.0)
    ensures rec.action !in {'A', 'M', 'C', 'F'} ==> r == Success((b, Snapshot(b)))
    ensures rec.action in {'M', 'C', 'F'} && rec.orderId !in b.index ==> r == Success((b, Snapshot(b)))
  {
    match Apply(b, rec)
    case Failure(e) => Failure(e)
    case Success(b') => Success((b', Snapshot(b')))
  }

  /** An add takes the head of the free list, indexes the new node under its id
      (overwriting any entry for that id) and rests it at the tail of
      `side[price]`, bids for side 'B' and asks otherwise, raising that level's
      total by its size; every other level of both sides is untouched. */
  lemma AddRestsAtTail(b: Book, rec: Record)
    requires rec.action == 'A' && b.free != []
    ensures Apply(b, rec).Success?
    ensures var b' := Apply(b, rec).value;
            var h := b.free[0];
            var bid := IsBid(rec.side);
            var before := LevelAt(Ladder(b, bid), rec.price);
            && b'.index == b.index[rec.orderId := h]
            && b'.pool == b.pool[h := Node(rec.orderId, rec.price, rec.size, rec.side)]
            && b'.free == b.free[1..]
            && rec.price in AsMap(Ladder(b', bid))
            && AsMap(Ladder(b', bid))[rec.price].orders == before.orders + [h]
            && AsMap(Ladder(b', bid))[rec.price].totalSize == before.totalSize + rec.size
            && AsMap(Ladder(b', bid)) - {rec.price} == AsMap(Ladder(b, bid)) - {rec.price}
            && Ladder(b', !bid) == Ladder(b, !bid)
  {
  }

  /** A modify of a known id unlinks the node from its level (erasing the level
      if its total reaches 0), then, keeping the node's original side, gives it
      the new price and size and re-links it at the tail of the new level, so the
      order loses its time priority even when the price is unchanged. */
  lemma ModifyRequeuesAtTail(b: Book, rec: Record)
    requires rec.action == 'M' && rec.orderId in b.index
    ensures Apply(b, rec).Success?
    ensures var b' := Apply(b, rec).value;
            var h := b.index[rec.orderId];
            var n := b.pool[h];
            var bid := IsBid(n.side);
            var mid := Unlink(b, h);
            var lv := LevelAt(Ladder(b, bid), n.price);
            var before := LevelAt(Ladder(mid, bid), rec.price);
            && (n.price !in AsMap(Ladder(mid, bid)) <==> lv.totalSize == n.size)
            && (n.price in AsMap(Ladder(mid, bid)) ==>
                  AsMap(Ladder(mid, bid))[n.price] == Level(lv.totalSize - n.size, RemoveFirst(lv.orders, h)))
            && AsMap(Ladder(mid, bid)) - {n.price} == AsMap(Ladder(b, bid)) - {n.price}
            && b'.index == b.index && b'.free == b.free
            && b'.pool == b.pool[h := Node(n.orderId, rec.price, rec.size, n.side)]
            && rec.price in AsMap(Ladder(b', bid))
            && AsMap(Ladder(b', bid))[rec.price].orders == before.orders + [h]
            && AsMap(Ladder(b', bid))[rec.price].totalSize == before.totalSize + rec.size
            && AsMap(Ladder(b', bid)) - {rec.price} == AsMap(Ladder(mid, bid)) - {rec.price}
            && Ladder(b', !bid) == Ladder(b, !bid)
  {
    var h := b.index[rec.orderId];
    var n := b.pool[h];
    var bid := IsBid(n.side);
    var mid := Unlink(b, h);
    var b2 := mid.(pool := mid.pool[h := n.(price := rec.price, size := rec.size)]);
    assert Ladder(b2, bid) == Ladder(mid, bid) && Ladder(mid, !bid) == Ladder(b, !bid);
    assert Apply(b, rec) == Success(WithLadder(b2, bid, AddToLadder(bid, Ladder(b2, bid), rec.price, h, rec.size)));
  }

  /** A cancel or fill of a known id unlinks its node from `side[price]`,
      lowering the level's total by the node's size and erasing the level exactly
      when that total becomes 0, then returns the slot to the head of the free
      list and drops the id from the index. */
  lemma WithdrawReleasesNode(b: Book, rec: Record)
    requires rec.action in {'C', 'F'} && rec.orderId in b.index
    ensures Apply(b, rec).Success?
    ensures var b' := Apply(b, rec).value;
            var h := b.index[rec.orderId];
            var n := b.pool[h];
            var bid := IsBid(n.side);
            var lv := LevelAt(Ladder(b, bid), n.price);
            && b'.index == b.index - {rec.orderId}
            && b'.free == [h] + b.free
            && b'.pool == b.pool
            && (n.price !in AsMap(Ladder(b', bid)) <==> lv.totalSize == n.size)
            && (n.price in AsMap(Ladder(b', bid)) ==>
                  AsMap(Ladder(b', bid))[n.price] == Level(lv.totalSize - n.size, RemoveFirst(lv.orders, h)))
            && AsMap(Ladder(b', bid)) - {n.price} == AsMap(Ladder(b, bid)) - {n.price}
            && Ladder(b', !bid) == Ladder(b, !bid)
  {
  }
}
