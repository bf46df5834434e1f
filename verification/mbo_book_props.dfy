/**
 * What the per-publisher MBO book's actions do to its levels and index, and
 * the shape every reachable book keeps: no empty level, and every queued
 * message priced at its level's key.
 */
module MboBookProps {
  import opened Ints
  import opened Common
  import opened Seqs
  import opened PriceLadder
  import opened Dbn
  import opened MboBook

  /** Total size queued at a level, as an unbounded sum. */
  function Volume(orders: seq<MboMsg>): nat {
    if |orders| == 0 then 0 else orders[0].size + Volume(orders[1..])
  }

  lemma {:induction false} VolumeConcat(a: seq<MboMsg>, c: seq<MboMsg>)
    ensures Volume(a + c) == Volume(a) + Volume(c)
  {
    if |a| > 0 {
      assert (a + c)[1..] == a[1..] + c;
      VolumeConcat(a[1..], c);
    } else {
      assert a + c == c;
    }
  }

  lemma VolumeDelete(s: seq<MboMsg>, i: nat)
    requires i < |s|
    ensures Volume(Delete(s, i)) + s[i].size == Volume(s)
  {
    assert s == s[..i] + ([s[i]] + s[i + 1..]);
    VolumeConcat(s[..i], [s[i]] + s[i + 1..]);
    VolumeConcat([s[i]], s[i + 1..]);
    VolumeConcat(s[..i], s[i + 1..]);
    assert [s[i]][1..] == [];
  }

  lemma VolumeUpdate(s: seq<MboMsg>, i: nat, x: MboMsg)
    requires i < |s|
    ensures Volume(s[i := x]) + s[i].size == Volume(s) + x.size
  {
    VolumeDelete(s, i);
    VolumeDelete(s[i := x], i);
    assert Delete(s[i := x], i) == Delete(s, i);
  }

  // ---------------------------------------------------------------------------
  // Well-formed books

  ghost predicate LevelOk(e: Entry<seq<MboMsg>>) {
    |e.level| > 0 && forall k :: 0 <= k < |e.level| ==> e.level[k].price == e.price
  }

  ghost predicate LevelsOk(ls: Levels) {
    forall e :: e in ls ==> LevelOk(e)
  }

  /** No level is empty and every queued message carries its level's price. */
  ghost predicate WellFormed(pb: PublisherBook) {
    LevelsOk(pb.bids) && LevelsOk(pb.asks)
  }

  lemma MapValueIsEntry(ls: Levels, p: int)
    requires p in AsMap(ls)
    ensures Entry(p, AsMap(ls)[p]) in ls
  {
    KeyIsPrice(ls, p);
    var i :| 0 <= i < |ls| && ls[i].price == p;
    EntryInMap(false, ls, i);
  }

  /** A level found in a well-formed side is non-empty and priced at its key. */
  lemma FoundLevelOk(ls: Levels, p: int)
    requires LevelsOk(ls) && p in AsMap(ls)
    ensures LevelOk(Entry(p, AsMap(ls)[p]))
  {
    MapValueIsEntry(ls, p);
  }

  lemma PutKeepsOk(ls: Levels, p: int, orders: seq<MboMsg>)
    requires LevelsOk(ls) && LevelOk(Entry(p, orders))
    ensures LevelsOk(Put(false, ls, p, orders))
  {
  }

  lemma StoreKeepsOk(ls: Levels, p: int, orders: seq<MboMsg>)
    requires LevelsOk(ls)
    requires forall k :: 0 <= k < |orders| ==> orders[k].price == p
    ensures LevelsOk(StoreOrders(ls, p, orders))
  {
    if |orders| > 0 {
      PutKeepsOk(ls, p, orders);
    }
  }

  lemma PushKeepsOk(ls: Levels, p: int, o: MboMsg)
    requires LevelsOk(ls) && o.price == p
    ensures LevelsOk(PushOrder(ls, p, o))
  {
    var before := OrdersAt(ls, p);
    if p in AsMap(ls) {
      FoundLevelOk(ls, p);
    }
    assert LevelOk(Entry(p, before + [o]));
    PutKeepsOk(ls, p, before + [o]);
  }

  lemma ClearKeepsWellFormed(pb: PublisherBook, m: MboMsg)
    requires WellFormed(pb)
    ensures WellFormed(ApplyClear(pb, m))
  {
    var cleared :=
      if m.side == Bid then pb.(bids := [])
      else if m.side == Ask then pb.(asks := [])
      else pb;
    assert WellFormed(cleared);
    if m.price != UndefPrice {
      PushKeepsOk(SideLevels(cleared, m.side == Bid), m.price, m);
    }
  }

  lemma AddKeepsWellFormed(pb: PublisherBook, m: MboMsg)
    requires WellFormed(pb)
    ensures WellFormed(ApplyAdd(pb, m))
  {
    PushKeepsOk(SideLevels(pb, m.side == Bid), m.price, m);
  }

  lemma CancelKeepsWellFormed(pb: PublisherBook, m: MboMsg)
    requires WellFormed(pb)
    ensures WellFormed(ApplyCancel(pb, m))
  {
    if m.orderId in pb.byId {
      var ref := pb.byId[m.orderId];
      var bid := ref.side == Bid;
      var ls := SideLevels(pb, bid);
      if ref.price in AsMap(ls) {
        var orders: seq<MboMsg> := AsMap(ls)[ref.price];
        FoundLevelOk(ls, ref.price);
        match FindOrder(orders, m.orderId)
        case None =>
        case Some(i) =>
          var left := SatSub(orders[i].size, m.size);
          StoreKeepsOk(ls, ref.price, Delete(orders, i));
          StoreKeepsOk(ls, ref.price, orders[i := orders[i].(size := left)]);
      }
    }
  }

  lemma ModifyKeepsWellFormed(pb: PublisherBook, m: MboMsg)
    requires WellFormed(pb)
    ensures WellFormed(ApplyModify(pb, m))
  {
    if m.orderId !in pb.byId {
      AddKeepsWellFormed(pb, m);
    } else {
      var ref := pb.byId[m.orderId];
      var oldBid := ref.side == Bid;
      var ls := SideLevels(pb, oldBid);
      if ref.price in AsMap(ls) {
        var orders: seq<MboMsg> := AsMap(ls)[ref.price];
        FoundLevelOk(ls, ref.price);
        match FindOrder(orders, m.orderId)
        case None =>
        case Some(i) =>
          if ref.price != m.price {
            ModifyMoveKeepsWellFormed(pb, m, ref, orders, i);
          } else if orders[i].size < m.size {
            var requeued := Delete(orders, i) + [orders[i].(size := m.size)];
            assert LevelOk(Entry(ref.price, requeued));
            PutKeepsOk(ls, ref.price, requeued);
          } else {
            assert LevelOk(Entry(ref.price, orders[i := orders[i].(size := m.size)]));
            PutKeepsOk(ls, ref.price, orders[i := orders[i].(size := m.size)]);
          }
      }
    }
  }

  lemma ModifyMoveKeepsWellFormed(pb: PublisherBook, m: MboMsg, ref: OrderRef, orders: seq<MboMsg>, i: nat)
    requires WellFormed(pb)
    requires i < |orders| && LevelOk(Entry(ref.price, orders))
    ensures var moved := orders[i].(price := m.price, size := m.size);
            var pb1 := WithSide(pb, m.side == Bid, PushOrder(SideLevels(pb, m.side == Bid), m.price, moved));
            WellFormed(WithSide(pb1, ref.side == Bid, StoreOrders(SideLevels(pb1, ref.side == Bid), ref.price, Delete(orders, i))))
  {
    var moved := orders[i].(price := m.price, size := m.size);
    var newBid := m.side == Bid;
    PushKeepsOk(SideLevels(pb, newBid), m.price, moved);
    var pb1 := WithSide(pb, newBid, PushOrder(SideLevels(pb, newBid), m.price, moved));
    assert WellFormed(pb1);
    StoreKeepsOk(SideLevels(pb1, ref.side == Bid), ref.price, Delete(orders, i));
  }

  /** Every action keeps a well-formed book well-formed. */
  lemma StepKeepsWellFormed(pb: PublisherBook, m: MboMsg)
    requires WellFormed(pb)
    ensures WellFormed(Step(pb, m))
  {
    match m.action
    case Clear => ClearKeepsWellFormed(pb, m);
    case Add => AddKeepsWellFormed(pb, m);
    case Cancel => CancelKeepsWellFormed(pb, m);
    case Modify => ModifyKeepsWellFormed(pb, m);
    case _ =>
  }

  // ---------------------------------------------------------------------------
  // Effects of the actions

  /** Clear of a bid or an ask leaves that side empty, or holding only the
      clear message at its price when the price is defined; any other side
      empties nothing and queues a priced message on the asks. The index is
      untouched. */
  lemma ClearEmptiesSide(pb: PublisherBook, m: MboMsg)
    requires m.action == Clear
    ensures var r := Step(pb, m);
            && r.byId == pb.byId
            && (m.side == Bid ==>
                  r.asks == pb.asks &&
                  AsMap(r.bids) == if m.price != UndefPrice then map[m.price as int := [m]] else map[])
            && (m.side == Ask ==>
                  r.bids == pb.bids &&
                  AsMap(r.asks) == if m.price != UndefPrice then map[m.price as int := [m]] else map[])
            && (m.side == NoSide ==>
                  r.bids == pb.bids &&
                  AsMap(r.asks) == if m.price != UndefPrice
                                   then AsMap(pb.asks)[m.price as int := OrdersAt(pb.asks, m.price) + [m]]
                                   else AsMap(pb.asks))
  {
    var empty: Levels := [];
    assert AsMap(empty) == map[];
    assert OrdersAt(empty, m.price) == [];
    if m.side == Bid && m.price != UndefPrice {
      assert Step(pb, m).bids == PushOrder(empty, m.price, m);
      assert OrdersAt(empty, m.price) + [m] == [m];
      assert AsMap(Step(pb, m).bids) == map[][m.price as int := [m]];
    } else if m.side == Ask && m.price != UndefPrice {
      assert Step(pb, m).asks == PushOrder(empty, m.price, m);
      assert OrdersAt(empty, m.price) + [m] == [m];
      assert AsMap(Step(pb, m).asks) == map[][m.price as int := [m]];
    }
  }

  /** Add queues the message at the tail of its price level, on the bids for a
      bid and the asks otherwise; the index keeps an existing entry for the id.
      Modify of an id the index does not know does the same. */
  lemma AddQueuesAtTail(pb: PublisherBook, m: MboMsg)
    requires m.action == Add || (m.action == Modify && m.orderId !in pb.byId)
    ensures var r := Step(pb, m);
            var bid := m.side == Bid;
            && AsMap(SideLevels(r, bid)) == AsMap(SideLevels(pb, bid))[m.price as int := OrdersAt(SideLevels(pb, bid), m.price) + [m]]
            && SideLevels(r, !bid) == SideLevels(pb, !bid)
            && r.byId == if m.orderId in pb.byId then pb.byId else pb.byId[m.orderId := OrderRef(m.price, m.side)]
  {
  }

  /** Cancel and modify find an order through the index, its level and the
      level vector; when any of the three misses, cancel does nothing. */
  ghost predicate Located(pb: PublisherBook, id: u64) {
    && id in pb.byId
    && var ref := pb.byId[id];
       var ls := SideLevels(pb, ref.side == Bid);
       ref.price in AsMap(ls) && FindOrder(AsMap(ls)[ref.price], id).Some?
  }

  lemma CancelUnlocatedIsNoOp(pb: PublisherBook, m: MboMsg)
    requires m.action == Cancel && !Located(pb, m.orderId)
    ensures Step(pb, m) == pb
  {
  }

  /** Cancel lowers the located order's size by the cancelled size, stopping at
      zero, so its level's volume falls by the smaller of the two. A remainder
      keeps the order where it is; at zero it leaves the level and the index, and
      the level goes once it is empty. */
  lemma CancelReduces(pb: PublisherBook, m: MboMsg)
    requires m.action == Cancel && Located(pb, m.orderId)
    ensures var r := Step(pb, m);
            var ref := pb.byId[m.orderId];
            var bid := ref.side == Bid;
            var orders := AsMap(SideLevels(pb, bid))[ref.price];
            var i := FindOrder(orders, m.orderId).value;
            var o := orders[i];
            var after := OrdersAt(SideLevels(r, bid), ref.price);
            && Volume(after) == Volume(orders) - (if o.size <= m.size then o.size else m.size)
            && (m.orderId in r.byId <==> o.size > m.size)
            && (o.size > m.size ==> after == orders[i := o.(size := o.size - m.size)])
            && (o.size <= m.size ==> after == Delete(orders, i))
            && (ref.price in AsMap(SideLevels(r, bid)) <==> o.size > m.size || |orders| > 1)
  {
    var ref := pb.byId[m.orderId];
    var bid := ref.side == Bid;
    var orders := AsMap(SideLevels(pb, bid))[ref.price];
    var i := FindOrder(orders, m.orderId).value;
    var o := orders[i];
    var left := SatSub(o.size, m.size);
    var after := OrdersAt(SideLevels(Step(pb, m), bid), ref.price);
    if left == 0 {
      assert after == Delete(orders, i);
      VolumeDelete(orders, i);
    } else {
      assert after == orders[i := o.(size := left)];
      VolumeUpdate(orders, i, o.(size := left));
    }
  }

  /** Cancel touches no other level, no other side and no other index entry. */
  lemma CancelKeepsOthers(pb: PublisherBook, m: MboMsg)
    requires m.action == Cancel && Located(pb, m.orderId)
    ensures var r := Step(pb, m);
            var ref := pb.byId[m.orderId];
            var bid := ref.side == Bid;
            && AsMap(SideLevels(r, bid)) - {ref.price as int} == AsMap(SideLevels(pb, bid)) - {ref.price as int}
            && SideLevels(r, !bid) == SideLevels(pb, !bid)
            && r.byId - {m.orderId} == pb.byId - {m.orderId}
  {
  }

  /** A modify of an indexed id whose level or order is not found does nothing:
      it is neither treated as an add nor re-indexed. */
  lemma ModifyUnlocatedIsNoOp(pb: PublisherBook, m: MboMsg)
    requires m.action == Modify && m.orderId in pb.byId && !Located(pb, m.orderId)
    ensures Step(pb, m) == pb
  {
  }

  /** Modify to a new price moves the order, with the new price and size, to the
      tail of the new price's level on the message's side, takes it out of its old
      level (erasing the level once it is empty) and re-indexes it. */
  lemma ModifyMovesToTail(pb: PublisherBook, m: MboMsg)
    requires m.action == Modify && Located(pb, m.orderId) && pb.byId[m.orderId].price != m.price
    ensures var r := Step(pb, m);
            var ref := pb.byId[m.orderId];
            var oldBid := ref.side == Bid;
            var newBid := m.side == Bid;
            var orders := AsMap(SideLevels(pb, oldBid))[ref.price];
            var i := FindOrder(orders, m.orderId).value;
            && r.byId == pb.byId[m.orderId := OrderRef(m.price, m.side)]
            && OrdersAt(SideLevels(r, newBid), m.price) ==
                 OrdersAt(SideLevels(pb, newBid), m.price) + [orders[i].(price := m.price, size := m.size)]
            && OrdersAt(SideLevels(r, oldBid), ref.price) == Delete(orders, i)
            && (ref.price in AsMap(SideLevels(r, oldBid)) <==> |orders| > 1)
  {
    var ref := pb.byId[m.orderId];
    var oldBid := ref.side == Bid;
    var newBid := m.side == Bid;
    var orders := AsMap(SideLevels(pb, oldBid))[ref.price];
    var i := FindOrder(orders, m.orderId).value;
    var moved := orders[i].(price := m.price, size := m.size);
    var pb1 := WithSide(pb, newBid, PushOrder(SideLevels(pb, newBid), m.price, moved));
    assert Find(SideLevels(pb, oldBid), ref.price) == Some(orders);
    assert ref.price in AsMap(SideLevels(pb1, oldBid)) && AsMap(SideLevels(pb1, oldBid))[ref.price] == orders;
    var pb2 := WithSide(pb1, oldBid, StoreOrders(SideLevels(pb1, oldBid), ref.price, Delete(orders, i)));
    assert Step(pb, m) == pb2.(byId := pb2.byId[m.orderId := OrderRef(m.price, m.side)]);
  }

  /** A modify to a new price leaves every other level of either side as it was:
      only the old price on the order's old side and the new price on the
      message's side change. */
  lemma ModifyMoveKeepsOthers(pb: PublisherBook, m: MboMsg)
    requires m.action == Modify && Located(pb, m.orderId) && pb.byId[m.orderId].price != m.price
    ensures var r := Step(pb, m);
            var ref := pb.byId[m.orderId];
            var oldBid := ref.side == Bid;
            var newBid := m.side == Bid;
            && (oldBid == newBid ==>
                  && AsMap(SideLevels(r, oldBid)) - {ref.price as int, m.price as int} ==
                     AsMap(SideLevels(pb, oldBid)) - {ref.price as int, m.price as int}
                  && SideLevels(r, !oldBid) == SideLevels(pb, !oldBid))
            && (oldBid != newBid ==>
                  && AsMap(SideLevels(r, oldBid)) - {ref.price as int} == AsMap(SideLevels(pb, oldBid)) - {ref.price as int}
                  && AsMap(SideLevels(r, newBid)) - {m.price as int} == AsMap(SideLevels(pb, newBid)) - {m.price as int})
  {
    var ref := pb.byId[m.orderId];
    var oldBid := ref.side == Bid;
    var newBid := m.side == Bid;
    var orders := AsMap(SideLevels(pb, oldBid))[ref.price];
    var i := FindOrder(orders, m.orderId).value;
    var pushed := PushOrder(SideLevels(pb, newBid), m.price, orders[i].(price := m.price, size := m.size));
    var pb1 := WithSide(pb, newBid, pushed);
    var stored := StoreOrders(SideLevels(pb1, oldBid), ref.price, Delete(orders, i));
    ModifyMoveShape(pb, m);
    StoreFrame(SideLevels(pb1, oldBid), ref.price as int, Delete(orders, i));
    PushFrame(SideLevels(pb, newBid), m.price as int, orders[i].(price := m.price, size := m.size));
    if oldBid == newBid {
      DropTwo(AsMap(stored), AsMap(pushed), AsMap(SideLevels(pb, newBid)), ref.price as int, m.price as int);
    }
  }

  lemma PushFrame(ls: Levels, price: int, o: MboMsg)
    ensures AsMap(PushOrder(ls, price, o)) - {price} == AsMap(ls) - {price}
  {
  }

  lemma StoreFrame(ls: Levels, price: int, orders: seq<MboMsg>)
    ensures AsMap(StoreOrders(ls, price, orders)) - {price} == AsMap(ls) - {price}
  {
  }

  lemma DropTwo<K, V>(a: map<K, V>, b: map<K, V>, c: map<K, V>, p: K, q: K)
    requires a - {p} == b - {p} && b - {q} == c - {q}
    ensures a - {p, q} == c - {p, q}
  {
    assert a - {p, q} == (a - {p}) - {q};
    assert c - {p, q} == (c - {q}) - {p};
  }

  /** Where a move to a new price puts the two sides: the order is pushed on the
      message's side, then its old level is written back without it. */
  lemma ModifyMoveShape(pb: PublisherBook, m: MboMsg)
    requires m.action == Modify && Located(pb, m.orderId) && pb.byId[m.orderId].price != m.price
    ensures var ref := pb.byId[m.orderId];
            var oldBid := ref.side == Bid;
            var newBid := m.side == Bid;
            var orders := AsMap(SideLevels(pb, oldBid))[ref.price];
            var i := FindOrder(orders, m.orderId).value;
            var pushed := PushOrder(SideLevels(pb, newBid), m.price, orders[i].(price := m.price, size := m.size));
            var pb1 := WithSide(pb, newBid, pushed);
            && SideLevels(Step(pb, m), oldBid) == StoreOrders(SideLevels(pb1, oldBid), ref.price, Delete(orders, i))
            && SideLevels(Step(pb, m), !oldBid) == SideLevels(pb1, !oldBid)
  {
    var ref := pb.byId[m.orderId];
    var oldBid := ref.side == Bid;
    var newBid := m.side == Bid;
    var orders := AsMap(SideLevels(pb, oldBid))[ref.price];
    var i := FindOrder(orders, m.orderId).value;
    var pushed := PushOrder(SideLevels(pb, newBid), m.price, orders[i].(price := m.price, size := m.size));
    var pb1 := WithSide(pb, newBid, pushed);
    assert Find(SideLevels(pb, oldBid), ref.price) == Some(orders);
    var pb2 := WithSide(pb1, oldBid, StoreOrders(SideLevels(pb1, oldBid), ref.price, Delete(orders, i)));
    assert Step(pb, m) == pb2.(byId := pb2.byId[m.orderId := OrderRef(m.price, m.side)]);
  }

  /** Modify at the same price changes only the order's size: a larger size sends
      it to the tail of the level, behind every other order, and any other size
      leaves it where it is. */
  lemma ModifyAtSamePrice(pb: PublisherBook, m: MboMsg)
    requires m.action == Modify && Located(pb, m.orderId) && pb.byId[m.orderId].price == m.price
    ensures var r := Step(pb, m);
            var ref := pb.byId[m.orderId];
            var bid := ref.side == Bid;
            var orders := AsMap(SideLevels(pb, bid))[ref.price];
            var i := FindOrder(orders, m.orderId).value;
            var o := orders[i];
            var after := OrdersAt(SideLevels(r, bid), ref.price);
            && r.byId == pb.byId
            && (o.size < m.size ==> after == Delete(orders, i) + [o.(size := m.size)])
            && (o.size >= m.size ==> after == orders[i := o.(size := m.size)])
            && AsMap(SideLevels(r, bid)) - {ref.price as int} == AsMap(SideLevels(pb, bid)) - {ref.price as int}
            && SideLevels(r, !bid) == SideLevels(pb, !bid)
  {
    var ref := pb.byId[m.orderId];
    var bid := ref.side == Bid;
    var ls := SideLevels(pb, bid);
    var orders: seq<MboMsg> := AsMap(ls)[ref.price];
    var i := FindOrder(orders, m.orderId).value;
    var o := orders[i];
    var updated := if o.size < m.size then Delete(orders, i) + [o.(size := m.size)] else orders[i := o.(size := m.size)];
    assert Find(ls, ref.price) == Some(orders);
    assert Step(pb, m) == WithSide(pb, bid, Put(false, ls, ref.price, updated));
  }
}
