/**
 * The structural invariant of `OrderBook` that `apply_update` keeps while the
 * feed only adds and modifies orders with positive sizes: every level is
 * non-empty, holds distinct live nodes whose slots name that level's side and
 * price, and has a `totalSize` equal to the sum of its orders' sizes; every
 * indexed node rests in its level and is not on the free list; the index never
 * shares a node between two ids; and the free list has no repeats, so no slot
 * is ever freed twice or handed out while still linked.
 */
module BookInvariants {
  import opened Ints
  import opened Seqs
  import opened PriceLadder
  import opened OrderBook

  /** Sum of the sizes of the given nodes. */
  function SizeSum(pool: Pool, hs: seq<Handle>): int {
    if |hs| == 0 then 0 else SizeSum(pool, hs[..|hs| - 1]) + pool[hs[|hs| - 1]].size
  }

  /** A slot that rests on side `bid` at `price`, with a positive size. */
  predicate Rests(n: Node, bid: bool, price: int) {
    n.price == price && IsBid(n.side) == bid && n.size > 0
  }

  ghost predicate LevelOk(pool: Pool, bid: bool, price: int, lv: Level) {
    && lv.orders != []
    && Distinct(lv.orders)
    && lv.totalSize == SizeSum(pool, lv.orders)
    && forall k :: 0 <= k < |lv.orders| ==> Rests(pool[lv.orders[k]], bid, price)
  }

  ghost predicate LadderOk(pool: Pool, bid: bool, m: map<int, Level>) {
    forall p :: p in m ==> LevelOk(pool, bid, p, m[p])
  }

  /** Node `h` is linked into no level of `m`. */
  ghost predicate Absent(m: map<int, Level>, h: Handle) {
    forall p :: p in m ==> h !in m[p].orders
  }

  /** Node `h` is linked into the level its slot's side and price name. */
  ghost predicate Placed(b: Book, h: Handle) {
    var n := b.pool[h];
    var m := AsMap(Ladder(b, IsBid(n.side)));
    n.price in m && h in m[n.price].orders
  }

  /** No slot is on the free list twice, and no free slot is linked into a level. */
  ghost predicate FreeListOk(b: Book) {
    && Distinct(b.free)
    && forall h :: h in b.free ==> Absent(AsMap(b.bids), h) && Absent(AsMap(b.asks), h)
  }

  ghost predicate SidesOk(b: Book) {
    LadderOk(b.pool, true, AsMap(b.bids)) && LadderOk(b.pool, false, AsMap(b.asks))
  }

  /** Every indexed node is live and linked where its slot says. */
  ghost predicate IndexOk(b: Book) {
    forall id :: id in b.index ==> b.index[id] !in b.free && Placed(b, b.index[id])
  }

  /** No node is indexed under two ids. */
  ghost predicate IndexInjective(b: Book) {
    forall id1, id2 :: id1 in b.index && id2 in b.index && id1 != id2 ==> b.index[id1] != b.index[id2]
  }

  ghost predicate Consistent(b: Book) {
    FreeListOk(b) && SidesOk(b) && IndexOk(b) && IndexInjective(b)
  }

  // ---------------------------------------------------------------------------
  // Sums of order sizes

  lemma {:induction false} SumConcat(pool: Pool, a: seq<Handle>, c: seq<Handle>)
    ensures SizeSum(pool, a + c) == SizeSum(pool, a) + SizeSum(pool, c)
  {
    if |c| > 0 {
      var c' := c[..|c| - 1];
      assert (a + c)[..|a + c| - 1] == a + c';
      SumConcat(pool, a, c');
    } else {
      assert a + c == a;
    }
  }

  lemma SumDelete(pool: Pool, hs: seq<Handle>, i: nat)
    requires i < |hs|
    ensures SizeSum(pool, Delete(hs, i)) == SizeSum(pool, hs) - pool[hs[i]].size
  {
    assert hs == hs[..i] + [hs[i]] + hs[i + 1..];
    SumConcat(pool, hs[..i] + [hs[i]], hs[i + 1..]);
    SumConcat(pool, hs[..i], [hs[i]]);
    SumConcat(pool, hs[..i], hs[i + 1..]);
    assert [hs[i]][..0] == [];
  }

  lemma {:induction false} SumFrame(pool: Pool, hs: seq<Handle>, h: Handle, n: Node)
    requires h !in hs
    ensures SizeSum(pool[h := n], hs) == SizeSum(pool, hs)
  {
    if |hs| > 0 {
      assert hs[|hs| - 1] in hs;
      SumFrame(pool, hs[..|hs| - 1], h, n);
    }
  }

  lemma {:induction false} SumPositive(pool: Pool, hs: seq<Handle>)
    requires forall k :: 0 <= k < |hs| ==> pool[hs[k]].size > 0
    ensures |hs| > 0 ==> SizeSum(pool, hs) > 0
    ensures SizeSum(pool, hs) >= 0
  {
    if |hs| > 0 {
      SumPositive(pool, hs[..|hs| - 1]);
    }
  }

  // ---------------------------------------------------------------------------
  // One side of the book

  /** Writing a slot that is linked nowhere on a side leaves that side's levels intact. */
  lemma LadderFrame(pool: Pool, bid: bool, m: map<int, Level>, h: Handle, n: Node)
    requires LadderOk(pool, bid, m) && Absent(m, h)
    ensures LadderOk(pool[h := n], bid, m)
  {
    forall p | p in m
      ensures LevelOk(pool[h := n], bid, p, m[p])
    {
      var lv := m[p];
      SumFrame(pool, lv.orders, h, n);
      forall k | 0 <= k < |lv.orders|
        ensures Rests(pool[h := n][lv.orders[k]], bid, p)
      {
        assert lv.orders[k] in lv.orders;
      }
    }
  }

  /** A node resting on one side is linked nowhere on the other side. */
  lemma OtherSideAbsent(pool: Pool, bid: bool, m: map<int, Level>, h: Handle)
    requires LadderOk(pool, bid, m) && IsBid(pool[h].side) != bid
    ensures Absent(m, h)
  {
    forall p | p in m
      ensures h !in m[p].orders
    {
      forall k | 0 <= k < |m[p].orders|
        ensures m[p].orders[k] != h
      {
        assert Rests(pool[m[p].orders[k]], bid, p);
      }
    }
  }

  /** Every node of `m` other than `h` is still linked at the same price in `m'`. */
  ghost predicate Keeps(m: map<int, Level>, m': map<int, Level>, h: Handle) {
    forall q, g :: q in m && g in m[q].orders && g != h ==> q in m' && g in m'[q].orders
  }

  /** Every node linked in `m'` is `h` or was linked at the same price in `m`. */
  ghost predicate Within(m': map<int, Level>, m: map<int, Level>, h: Handle) {
    forall q, g :: q in m' && g in m'[q].orders ==> g == h || (q in m && g in m[q].orders)
  }

  /** Unlinking a node from a well-formed level. */
  lemma RemoveFromLevel(pool: Pool, bid: bool, price: int, lv: Level, h: Handle)
    requires LevelOk(pool, bid, price, lv) && h in lv.orders
    ensures var lv' := RemoveOrder(lv, h, pool[h].size);
            && (lv'.totalSize == 0 <==> lv'.orders == [])
            && (lv'.orders != [] ==> LevelOk(pool, bid, price, lv'))
            && h !in lv'.orders
            && (forall g :: g in lv.orders && g != h ==> g in lv'.orders)
            && (forall g :: g in lv'.orders ==> g in lv.orders)
  {
    var i := IndexOf(lv.orders, h);
    var lv' := RemoveOrder(lv, h, pool[h].size);
    assert lv'.orders == Delete(lv.orders, i);
    SumDelete(pool, lv.orders, i);
    DeleteKeepsDistinct(lv.orders, i);
    forall k | 0 <= k < |lv'.orders|
      ensures Rests(pool[lv'.orders[k]], bid, price)
    {
      if k < i {
        assert lv'.orders[k] == lv.orders[k];
      } else {
        assert lv'.orders[k] == lv.orders[k + 1];
      }
    }
    SumPositive(pool, lv'.orders);
  }

  /** A node resting at `price` is linked at no other price of its side. */
  lemma OnlyAtItsPrice(pool: Pool, bid: bool, m: map<int, Level>, h: Handle, q: int)
    requires LadderOk(pool, bid, m) && q in m && q != pool[h].price
    ensures h !in m[q].orders
  {
    forall k | 0 <= k < |m[q].orders|
      ensures m[q].orders[k] != h
    {
      assert Rests(pool[m[q].orders[k]], bid, q);
    }
  }

  /** Storing a well-formed level that keeps every node of the old one but `h`,
      and adds none but `h`. */
  lemma StoreLevel(pool: Pool, bid: bool, m: map<int, Level>, price: int, lv': Level, h: Handle)
    requires LadderOk(pool, bid, m) && LevelOk(pool, bid, price, lv')
    requires price in m ==> forall g :: g in m[price].orders && g != h ==> g in lv'.orders
    requires forall g :: g in lv'.orders ==> g == h || (price in m && g in m[price].orders)
    ensures LadderOk(pool, bid, m[price := lv'])
    ensures Keeps(m, m[price := lv'], h) && Within(m[price := lv'], m, h)
  {
    var m' := m[price := lv'];
    forall q | q in m'
      ensures LevelOk(pool, bid, q, m'[q])
    {
      if q != price {
        assert m'[q] == m[q];
      }
    }
    forall q, g | q in m && g in m[q].orders && g != h
      ensures q in m' && g in m'[q].orders
    {
      if q != price {
        assert m'[q] == m[q];
      }
    }
    forall q, g | q in m' && g in m'[q].orders
      ensures g == h || (q in m && g in m[q].orders)
    {
      if q != price {
        assert m'[q] == m[q];
      }
    }
  }

  /** Dropping a level that held no node but `h`. */
  lemma DropLevel(pool: Pool, bid: bool, m: map<int, Level>, price: int, h: Handle)
    requires LadderOk(pool, bid, m)
    requires price in m ==> forall g :: g in m[price].orders ==> g == h
    ensures LadderOk(pool, bid, m - {price})
    ensures Keeps(m, m - {price}, h) && Within(m - {price}, m, h)
  {
    var m' := m - {price};
    forall q, g | q in m' && g in m'[q].orders
      ensures q in m && g in m[q].orders
    {
      assert m'[q] == m[q];
    }
  }

  /** Unlinking a resting node from its level of side map `m`: the side stays
      well formed, the node is linked nowhere on it any more, every other node
      stays where it was, and no node is linked anywhere new. */
  lemma RemoveKeepsMap(pool: Pool, bid: bool, m: map<int, Level>, h: Handle)
    requires LadderOk(pool, bid, m)
    requires pool[h].price in m && h in m[pool[h].price].orders
    ensures var price := pool[h].price;
            var lv' := RemoveOrder(m[price], h, pool[h].size);
            var m' := if lv'.totalSize == 0 then m - {price} else m[price := lv'];
            LadderOk(pool, bid, m') && Absent(m', h) && Keeps(m, m', h) && Within(m', m, h)
  {
    var price := pool[h].price;
    var lv := m[price];
    var lv' := RemoveOrder(lv, h, pool[h].size);
    RemoveFromLevel(pool, bid, price, lv, h);
    if lv'.totalSize == 0 {
      DropLevel(pool, bid, m, price, h);
    } else {
      StoreLevel(pool, bid, m, price, lv', h);
    }
    var m' := if lv'.totalSize == 0 then m - {price} else m[price := lv'];
    forall q | q in m'
      ensures h !in m'[q].orders
    {
      if q != price {
        assert m'[q] == m[q];
        OnlyAtItsPrice(pool, bid, m, h, q);
      }
    }
  }

  lemma RemoveKeepsLadder(pool: Pool, bid: bool, es: seq<Entry<Level>>, h: Handle)
    requires Sorted(bid, es) && LadderOk(pool, bid, AsMap(es))
    requires pool[h].price in AsMap(es) && h in AsMap(es)[pool[h].price].orders
    ensures var m' := AsMap(RemoveFromLadder(bid, es, pool[h].price, h, pool[h].size));
            && LadderOk(pool, bid, m')
            && Absent(m', h)
            && Keeps(AsMap(es), m', h)
            && Within(m', AsMap(es), h)
  {
    RemoveKeepsMap(pool, bid, AsMap(es), h);
  }

  /** Linking a resting node that the level does not hold at the tail of a
      well-formed (or freshly created) level. */
  lemma AddToLevel(pool: Pool, bid: bool, price: int, lv: Level, h: Handle)
    requires lv == EmptyLevel || LevelOk(pool, bid, price, lv)
    requires h !in lv.orders && Rests(pool[h], bid, price)
    ensures var lv' := InsertOrder(lv, h, pool[h].size);
            && LevelOk(pool, bid, price, lv')
            && (forall g :: g in lv'.orders <==> g == h || g in lv.orders)
  {
    var lv' := InsertOrder(lv, h, pool[h].size);
    assert lv'.orders == lv.orders + [h];
    assert lv'.orders[..|lv'.orders| - 1] == lv.orders;
    assert Distinct(lv'.orders);
    forall k | 0 <= k < |lv'.orders|
      ensures Rests(pool[lv'.orders[k]], bid, price)
    {
      if k < |lv.orders| {
        assert lv'.orders[k] == lv.orders[k];
      }
    }
  }

  /** Linking a node at the tail of its level of side map `m`, when it is linked
      nowhere on the side and its slot rests there: the side stays well formed,
      the node is now linked at its price, every other node stays where it was,
      and no other node is linked anywhere new. */
  lemma AddKeepsMap(pool: Pool, bid: bool, m: map<int, Level>, h: Handle)
    requires LadderOk(pool, bid, m) && Absent(m, h)
    requires Rests(pool[h], bid, pool[h].price)
    ensures var price := pool[h].price;
            var lv := if price in m then m[price] else EmptyLevel;
            var m' := m[price := InsertOrder(lv, h, pool[h].size)];
            && LadderOk(pool, bid, m')
            && h in m'[price].orders
            && Keeps(m, m', h)
            && Within(m', m, h)
  {
    var price := pool[h].price;
    var lv := if price in m then m[price] else EmptyLevel;
    var lv' := InsertOrder(lv, h, pool[h].size);
    AddToLevel(pool, bid, price, lv, h);
    StoreLevel(pool, bid, m, price, lv', h);
  }

  lemma AddKeepsLadder(pool: Pool, bid: bool, es: seq<Entry<Level>>, h: Handle)
    requires Sorted(bid, es) && LadderOk(pool, bid, AsMap(es)) && Absent(AsMap(es), h)
    requires Rests(pool[h], bid, pool[h].price)
    ensures var m' := AsMap(AddToLadder(bid, es, pool[h].price, h, pool[h].size));
            && LadderOk(pool, bid, m')
            && pool[h].price in m' && h in m'[pool[h].price].orders
            && Keeps(AsMap(es), m', h)
            && Within(m', AsMap(es), h)
  {
    AddKeepsMap(pool, bid, AsMap(es), h);
  }

  // ---------------------------------------------------------------------------
  // The whole book

  lemma InitialConsistent()
    ensures Consistent(Initial())
  {
  }

  /** What an add does to the book's parts: the first free slot takes the node,
      leaves the free list and is indexed, and is linked on the node's side. */
  ghost predicate AddShape(b: Book, b': Book, id: u64, node: Node)
    requires b.free != []
  {
    var bid := IsBid(node.side);
    && b'.pool == b.pool[b.free[0] := node] && b'.free == b.free[1..] && b'.index == b.index[id := b.free[0]]
    && AsMap(Ladder(b', bid)) == AsMap(AddToLadder(bid, Ladder(b, bid), node.price, b.free[0], node.size))
    && Ladder(b', !bid) == Ladder(b, !bid)
  }

  lemma AddSides(b: Book, b': Book, id: u64, node: Node)
    requires Consistent(b) && b.free != [] && Rests(node, IsBid(node.side), node.price)
    requires AddShape(b, b', id, node)
    ensures SidesOk(b')
    ensures var bid := IsBid(node.side);
            && node.price in AsMap(Ladder(b', bid)) && b.free[0] in AsMap(Ladder(b', bid))[node.price].orders
            && Keeps(AsMap(Ladder(b, bid)), AsMap(Ladder(b', bid)), b.free[0])
            && Within(AsMap(Ladder(b', bid)), AsMap(Ladder(b, bid)), b.free[0])
  {
    var h := b.free[0];
    var bid := IsBid(node.side);
    assert h in b.free;
    LadderFrame(b.pool, true, AsMap(b.bids), h, node);
    LadderFrame(b.pool, false, AsMap(b.asks), h, node);
    assert b'.pool[h] == node;
    AddKeepsLadder(b'.pool, bid, Ladder(b, bid), h);
  }

  /** A slot linked nowhere before the add, other than the new one, is linked
      nowhere after it. */
  lemma AddKeepsAbsent(b: Book, b': Book, id: u64, node: Node, g: Handle)
    requires Consistent(b) && b.free != [] && Rests(node, IsBid(node.side), node.price)
    requires AddShape(b, b', id, node)
    requires g != b.free[0] && Absent(AsMap(b.bids), g) && Absent(AsMap(b.asks), g)
    ensures Absent(AsMap(b'.bids), g) && Absent(AsMap(b'.asks), g)
  {
    var bid := IsBid(node.side);
    AddSides(b, b', id, node);
    assert Absent(AsMap(Ladder(b, bid)), g);
    assert Ladder(b', !bid) == Ladder(b, !bid);
  }

  lemma AddFree(b: Book, b': Book, id: u64, node: Node)
    requires Consistent(b) && b.free != [] && Rests(node, IsBid(node.side), node.price)
    requires AddShape(b, b', id, node)
    ensures FreeListOk(b')
  {
    FreeTail(b.free);
    forall g | g in b'.free
      ensures Absent(AsMap(b'.bids), g) && Absent(AsMap(b'.asks), g)
    {
      AddKeepsAbsent(b, b', id, node, g);
    }
  }

  /** A node other than the new one stays placed where it was. */
  lemma AddKeepsPlaced(b: Book, b': Book, id: u64, node: Node, g: Handle)
    requires Consistent(b) && b.free != [] && Rests(node, IsBid(node.side), node.price)
    requires AddShape(b, b', id, node)
    requires g != b.free[0] && Placed(b, g)
    ensures Placed(b', g)
  {
    var bid := IsBid(node.side);
    AddSides(b, b', id, node);
    var n := b.pool[g];
    assert b'.pool[g] == n;
    var side := IsBid(n.side);
    assert n.price in AsMap(Ladder(b, side)) && g in AsMap(Ladder(b, side))[n.price].orders;
    if side == bid {
      assert Keeps(AsMap(Ladder(b, bid)), AsMap(Ladder(b', bid)), b.free[0]);
    } else {
      assert Ladder(b', side) == Ladder(b, side);
    }
  }

  /** Taking the head off a repeat-free free list leaves the other slots only. */
  lemma FreeTail(free: seq<Handle>)
    requires free != [] && Distinct(free)
    ensures forall g :: g in free[1..] ==> g in free && g != free[0]
  {
    forall g | g in free[1..]
      ensures g in free && g != free[0]
    {
      var k :| 0 <= k < |free[1..]| && free[1..][k] == g;
      assert free[k + 1] == g;
    }
  }

  lemma AddIndex(b: Book, b': Book, id: u64, node: Node)
    requires Consistent(b) && b.free != [] && Rests(node, IsBid(node.side), node.price)
    requires AddShape(b, b', id, node)
    ensures IndexOk(b')
  {
    FreeTail(b.free);
    forall id2 | id2 in b'.index
      ensures b'.index[id2] !in b'.free && Placed(b', b'.index[id2])
    {
      if id2 != id {
        assert b.index[id2] !in b.free;
        AddKeepsPlaced(b, b', id, node, b.index[id2]);
      } else {
        AddSides(b, b', id, node);
        assert b'.pool[b.free[0]] == node;
      }
    }
  }

  lemma AddInjective(b: Book, b': Book, id: u64, node: Node)
    requires Consistent(b) && b.free != []
    requires AddShape(b, b', id, node)
    ensures IndexInjective(b')
  {
    assert b.free[0] in b.free;
    forall id2 | id2 in b.index && id2 != id
      ensures b.index[id2] != b.free[0]
    {
      assert b.index[id2] !in b.free;
    }
  }

  /** The add step, stated over the parts of the book it changes. */
  lemma AddStep(b: Book, b': Book, id: u64, node: Node)
    requires Consistent(b) && b.free != []
    requires Rests(node, IsBid(node.side), node.price)
    requires AddShape(b, b', id, node)
    ensures Consistent(b')
  {
    AddSides(b, b', id, node);
    AddFree(b, b', id, node);
    AddIndex(b, b', id, node);
    AddInjective(b, b', id, node);
  }

  /** What a cancel or fill of a known id does to the book's parts. */
  ghost predicate WithdrawShape(b: Book, b': Book, id: u64)
    requires id in b.index
  {
    var h := b.index[id];
    var bid := IsBid(b.pool[h].side);
    && b'.pool == b.pool && b'.free == [h] + b.free && b'.index == b.index - {id}
    && AsMap(Ladder(b', bid)) == AsMap(RemoveFromLadder(bid, Ladder(b, bid), b.pool[h].price, h, b.pool[h].size))
    && Ladder(b', !bid) == Ladder(b, !bid)
  }

  lemma WithdrawSides(b: Book, b': Book, id: u64)
    requires Consistent(b) && id in b.index && WithdrawShape(b, b', id)
    ensures SidesOk(b')
    ensures Absent(AsMap(b'.bids), b.index[id]) && Absent(AsMap(b'.asks), b.index[id])
    ensures var bid := IsBid(b.pool[b.index[id]].side);
            Keeps(AsMap(Ladder(b, bid)), AsMap(Ladder(b', bid)), b.index[id]) &&
            Within(AsMap(Ladder(b', bid)), AsMap(Ladder(b, bid)), b.index[id])
  {
    var h := b.index[id];
    var bid := IsBid(b.pool[h].side);
    assert Placed(b, h);
    RemoveKeepsLadder(b.pool, bid, Ladder(b, bid), h);
    OtherSideAbsent(b.pool, !bid, AsMap(Ladder(b, !bid)), h);
  }

  lemma WithdrawIndex(b: Book, b': Book, id: u64)
    requires Consistent(b) && id in b.index && WithdrawShape(b, b', id)
    ensures IndexOk(b') && IndexInjective(b')
  {
    var h := b.index[id];
    var bid := IsBid(b.pool[h].side);
    WithdrawSides(b, b', id);
    forall id2 | id2 in b'.index
      ensures b'.index[id2] !in b'.free && Placed(b', b'.index[id2])
    {
      var g := b.index[id2];
      assert g != h;
      assert Placed(b, g);
      var s := IsBid(b.pool[g].side);
      var p := b.pool[g].price;
      assert p in AsMap(Ladder(b, s)) && g in AsMap(Ladder(b, s))[p].orders;
    }
  }

  lemma WithdrawFree(b: Book, b': Book, id: u64)
    requires Consistent(b) && id in b.index && WithdrawShape(b, b', id)
    ensures FreeListOk(b')
  {
    var h := b.index[id];
    var bid := IsBid(b.pool[h].side);
    WithdrawSides(b, b', id);
    assert h !in b.free;
    forall g | g in b'.free && g != h
      ensures Absent(AsMap(b'.bids), g) && Absent(AsMap(b'.asks), g)
    {
      WithdrawKeepsAbsent(b, b', id, g);
    }
  }

  /** A free slot stays linked nowhere. */
  lemma WithdrawKeepsAbsent(b: Book, b': Book, id: u64, g: Handle)
    requires Consistent(b) && id in b.index && WithdrawShape(b, b', id)
    requires g in b.free
    ensures Absent(AsMap(b'.bids), g) && Absent(AsMap(b'.asks), g)
  {
    var h := b.index[id];
    var bid := IsBid(b.pool[h].side);
    WithdrawSides(b, b', id);
    assert Absent(AsMap(Ladder(b, bid)), g);
    assert Ladder(b', !bid) == Ladder(b, !bid);
  }

  /** The cancel/fill step keeps the book consistent. */
  lemma WithdrawStep(b: Book, b': Book, id: u64)
    requires Consistent(b) && id in b.index && WithdrawShape(b, b', id)
    ensures Consistent(b')
  {
    WithdrawSides(b, b', id);
    WithdrawIndex(b, b', id);
    WithdrawFree(b, b', id);
  }

  /** What a modify of a known id does to the book's parts: unlink, rewrite the
      slot, link at the tail of the new level. */
  ghost predicate ModifyShape(b: Book, b': Book, id: u64, price: i64, size: i32)
    requires id in b.index
  {
    var h := b.index[id];
    var n := b.pool[h];
    var bid := IsBid(n.side);
    var es1 := RemoveFromLadder(bid, Ladder(b, bid), n.price, h, n.size);
    && b'.pool == b.pool[h := n.(price := price, size := size)] && b'.free == b.free && b'.index == b.index
    && AsMap(Ladder(b', bid)) == AsMap(AddToLadder(bid, es1, price, h, size))
    && Ladder(b', !bid) == Ladder(b, !bid)
  }

  lemma ModifySides(b: Book, b': Book, id: u64, price: i64, size: i32)
    requires Consistent(b) && id in b.index && size > 0 && ModifyShape(b, b', id, price, size)
    ensures SidesOk(b')
    ensures var h := b.index[id];
            var bid := IsBid(b.pool[h].side);
            && b'.pool[h] == b.pool[h].(price := price, size := size)
            && price in AsMap(Ladder(b', bid)) && h in AsMap(Ladder(b', bid))[price].orders
            && (forall q, g :: q in AsMap(Ladder(b, bid)) && g in AsMap(Ladder(b, bid))[q].orders && g != h ==>
                  q in AsMap(Ladder(b', bid)) && g in AsMap(Ladder(b', bid))[q].orders)
            && (forall q, g :: q in AsMap(Ladder(b', bid)) && g in AsMap(Ladder(b', bid))[q].orders ==>
                  g == h || (q in AsMap(Ladder(b, bid)) && g in AsMap(Ladder(b, bid))[q].orders))
  {
    var h := b.index[id];
    var n := b.pool[h];
    var bid := IsBid(n.side);
    var n' := n.(price := price, size := size);
    var es1 := RemoveFromLadder(bid, Ladder(b, bid), n.price, h, n.size);
    assert Placed(b, h);
    RemoveKeepsLadder(b.pool, bid, Ladder(b, bid), h);
    OtherSideAbsent(b.pool, !bid, AsMap(Ladder(b, !bid)), h);
    LadderFrame(b.pool, bid, AsMap(es1), h, n');
    LadderFrame(b.pool, !bid, AsMap(Ladder(b, !bid)), h, n');
    assert b'.pool[h] == n';
    AddKeepsLadder(b'.pool, bid, es1, h);
  }

  /** The modify step keeps the book consistent. */
  lemma ModifyStep(b: Book, b': Book, id: u64, price: i64, size: i32)
    requires Consistent(b) && id in b.index && size > 0 && ModifyShape(b, b', id, price, size)
    ensures Consistent(b')
  {
    var h := b.index[id];
    var bid := IsBid(b.pool[h].side);
    ModifySides(b, b', id, price, size);
    assert IndexOk(b') by {
      forall id2 | id2 in b'.index
        ensures b'.index[id2] !in b'.free && Placed(b', b'.index[id2])
      {
        var g := b.index[id2];
        if g != h {
          assert Placed(b, g);
          assert b'.pool[g] == b.pool[g];
        }
      }
    }
    assert FreeListOk(b') by {
      forall g | g in b'.free
        ensures Absent(AsMap(b'.bids), g) && Absent(AsMap(b'.asks), g)
      {
        assert Absent(AsMap(b.bids), g) && Absent(AsMap(b.asks), g);
        assert g != h;
      }
    }
  }

  /** `apply_update` keeps the book consistent, provided adds and modifies carry a
      positive size. */
  lemma ApplyKeepsConsistent(b: Book, rec: Record)
    requires Consistent(b)
    requires rec.action in {'A', 'M'} ==> rec.size > 0
    ensures Apply(b, rec).Success? ==> Consistent(Apply(b, rec).value)
  {
    if rec.action == 'A' {
      if b.free != [] {
        AddStep(b, Apply(b, rec).value, rec.orderId, Node(rec.orderId, rec.price, rec.size, rec.side));
      }
    } else if rec.action == 'M' {
      if rec.orderId in b.index {
        ModifyStep(b, Apply(b, rec).value, rec.orderId, rec.price, rec.size);
      }
    } else if rec.action == 'C' || rec.action == 'F' {
      if rec.orderId in b.index {
        WithdrawStep(b, Apply(b, rec).value, rec.orderId);
      }
    }
  }

  /** In a consistent book each reported best size is the sum of the sizes of the
      orders resting at the best price, and is positive. */
  lemma TopOfBookSizesAreRestingSums(b: Book)
    requires Consistent(b)
    ensures var t := Snapshot(b);
            && (AsMap(b.bids) != map[] ==> t.bidSize == SizeSum(b.pool, AsMap(b.bids)[t.bestBid].orders) && t.bidSize > 0)
            && (AsMap(b.asks) != map[] ==> t.askSize == SizeSum(b.pool, AsMap(b.asks)[t.bestAsk].orders) && t.askSize > 0)
  {
    var t := Snapshot(b);
    if AsMap(b.bids) != map[] {
      var lv := AsMap(b.bids)[t.bestBid];
      assert LevelOk(b.pool, true, t.bestBid, lv);
      SumPositive(b.pool, lv.orders);
    }
    if AsMap(b.asks) != map[] {
      var lv := AsMap(b.asks)[t.bestAsk];
      assert LevelOk(b.pool, false, t.bestAsk, lv);
      SumPositive(b.pool, lv.orders);
    }
  }
}
