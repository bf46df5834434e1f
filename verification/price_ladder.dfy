/**
 * A price-keyed ordered container (`std::map<int64_t, Level>`, with
 * `std::greater` for a descending book) as a strictly sorted sequence of
 * entries. Iteration order is sequence order, so `begin()` is the first entry
 * and `rbegin()` the last; `AsMap` is the abstract map the container stands for.
 */
module PriceLadder {
  import opened Common

  datatype Entry<V> = Entry(price: int, level: V)

  /** `a` is iterated before `b`: high-to-low when `desc`, low-to-high otherwise. */
  predicate Precedes(desc: bool, a: int, b: int) {
    if desc then a > b else a < b
  }

  predicate Sorted<V>(desc: bool, es: seq<Entry<V>>) {
    forall i, j :: 0 <= i < j < |es| ==> Precedes(desc, es[i].price, es[j].price)
  }

  /** The map the container represents (the first entry wins for a repeated price,
      which a sorted container never has). */
  function AsMap<V>(es: seq<Entry<V>>): map<int, V> {
    if |es| == 0 then map[] else AsMap(es[1..])[es[0].price := es[0].level]
  }

  lemma {:induction false} KeyIsPrice<V>(es: seq<Entry<V>>, p: int)
    ensures p in AsMap(es) <==> exists i :: 0 <= i < |es| && es[i].price == p
  {
    if |es| > 0 {
      KeyIsPrice(es[1..], p);
      if p != es[0].price && p in AsMap(es) {
        var i :| 0 <= i < |es[1..]| && es[1..][i].price == p;
        assert es[i + 1].price == p;
      }
      if exists i :: 0 <= i < |es| && es[i].price == p {
        var i :| 0 <= i < |es| && es[i].price == p;
        if i > 0 {
          assert es[1..][i - 1].price == p;
        }
      }
    }
  }

  /** In a sorted container every entry is what the map holds at its price. */
  lemma {:induction false} EntryInMap<V>(desc: bool, es: seq<Entry<V>>, i: nat)
    requires Sorted(desc, es) && i < |es|
    ensures es[i].price in AsMap(es) && AsMap(es)[es[i].price] == es[i].level
  {
    if i > 0 {
      EntryInMap(desc, es[1..], i - 1);
    }
  }

  /** `std::map::find`. */
  function Find<V>(es: seq<Entry<V>>, p: int): (r: Option<V>)
    ensures r.None? <==> p !in AsMap(es)
    ensures r.Some? ==> r.value == AsMap(es)[p]
  {
    if |es| == 0 then None
    else if es[0].price == p then Some(es[0].level)
    else Find(es[1..], p)
  }

  /** The level at `p`, or `blank` when there is none: what `operator[]` reads. */
  function FindOr<V>(es: seq<Entry<V>>, p: int, blank: V): (r: V)
    ensures p in AsMap(es) ==> r == AsMap(es)[p]
    ensures p !in AsMap(es) ==> r == blank
  {
    match Find(es, p)
    case Some(v) => v
    case None => blank
  }

  /** Inserts or overwrites the level at `p`, keeping the iteration order. */
  function Put<V>(desc: bool, es: seq<Entry<V>>, p: int, v: V): (r: seq<Entry<V>>)
    requires Sorted(desc, es)
    ensures Sorted(desc, r)
    ensures AsMap(r) == AsMap(es)[p := v]
    ensures forall e :: e in r ==> e == Entry(p, v) || e in es
  {
    if |es| == 0 then [Entry(p, v)]
    else if es[0].price == p then [Entry(p, v)] + es[1..]
    else if Precedes(desc, p, es[0].price) then [Entry(p, v)] + es
    else
      var rest := Put(desc, es[1..], p, v);
      HeadPrecedes(desc, es);
      ConsSorted(desc, es[0], rest);
      [es[0]] + rest
  }

  /** Removes the level at `p`, if any (`std::map::erase` by key). */
  function Erase<V>(desc: bool, es: seq<Entry<V>>, p: int): (r: seq<Entry<V>>)
    requires Sorted(desc, es)
    ensures Sorted(desc, r)
    ensures AsMap(r) == AsMap(es) - {p}
    ensures forall e :: e in r ==> e in es
  {
    if |es| == 0 then []
    else if es[0].price == p then
      assert p !in AsMap(es[1..]) by {
        KeyIsPrice(es[1..], p);
        forall i | 0 <= i < |es[1..]|
          ensures es[1..][i].price != p
        {
          assert es[1..][i] == es[i + 1];
        }
      }
      es[1..]
    else
      var rest := Erase(desc, es[1..], p);
      HeadPrecedes(desc, es);
      ConsSorted(desc, es[0], rest);
      [es[0]] + rest
  }

  /** In a sorted container the first entry comes before every later one. */
  lemma HeadPrecedes<V>(desc: bool, es: seq<Entry<V>>)
    requires Sorted(desc, es) && |es| > 0
    ensures forall e :: e in es[1..] ==> Precedes(desc, es[0].price, e.price)
  {
    forall e | e in es[1..]
      ensures Precedes(desc, es[0].price, e.price)
    {
      var k :| 0 <= k < |es[1..]| && es[1..][k] == e;
      assert es[k + 1] == e;
    }
  }

  /** An entry that comes before every entry of a sorted container can head it. */
  lemma ConsSorted<V>(desc: bool, x: Entry<V>, rest: seq<Entry<V>>)
    requires Sorted(desc, rest)
    requires forall e :: e in rest ==> Precedes(desc, x.price, e.price)
    ensures Sorted(desc, [x] + rest)
  {
    var r := [x] + rest;
    forall i, j | 0 <= i < j < |r|
      ensures Precedes(desc, r[i].price, r[j].price)
    {
      assert r[j] == rest[j - 1];
      if i > 0 {
        assert r[i] == rest[i - 1];
      } else {
        assert r[j] in rest;
      }
    }
  }

  /** The first entry holds the best price: every other key comes after it. */
  lemma FirstIsExtreme<V>(desc: bool, es: seq<Entry<V>>)
    requires Sorted(desc, es) && |es| > 0
    ensures es[0].price in AsMap(es) && AsMap(es)[es[0].price] == es[0].level
    ensures forall p :: p in AsMap(es) && p != es[0].price ==> Precedes(desc, es[0].price, p)
  {
    EntryInMap(desc, es, 0);
    forall p | p in AsMap(es) && p != es[0].price
      ensures Precedes(desc, es[0].price, p)
    {
      KeyIsPrice(es, p);
    }
  }

  /** The last entry (`rbegin()`) holds the price every other key comes before. */
  lemma LastIsExtreme<V>(desc: bool, es: seq<Entry<V>>)
    requires Sorted(desc, es) && |es| > 0
    ensures es[|es| - 1].price in AsMap(es) && AsMap(es)[es[|es| - 1].price] == es[|es| - 1].level
    ensures forall p :: p in AsMap(es) && p != es[|es| - 1].price ==> Precedes(desc, p, es[|es| - 1].price)
  {
    EntryInMap(desc, es, |es| - 1);
    forall p | p in AsMap(es) && p != es[|es| - 1].price
      ensures Precedes(desc, p, es[|es| - 1].price)
    {
      KeyIsPrice(es, p);
    }
  }

  /** A sorted container holds one entry per key of its map. */
  lemma {:induction false} SizeIsKeyCount<V>(desc: bool, es: seq<Entry<V>>)
    requires Sorted(desc, es)
    ensures |AsMap(es)| == |es|
  {
    if |es| > 0 {
      SizeIsKeyCount(desc, es[1..]);
      KeyIsPrice(es[1..], es[0].price);
      assert es[0].price !in AsMap(es[1..]);
    }
  }
}
