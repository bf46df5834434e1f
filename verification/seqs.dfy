/** Sequence helpers shared by the order-book models: distinctness, lookup of
    the first occurrence and unlinking of one element. */
module Seqs {

  predicate Distinct<T(==)>(s: seq<T>) {
    forall i, j :: 0 <= i < j < |s| ==> s[i] != s[j]
  }

  /** Position of the first occurrence of `x`. */
  function IndexOf<T(==)>(s: seq<T>, x: T): (i: nat)
    requires x in s
    ensures i < |s| && s[i] == x
    ensures x !in s[..i]
  {
    if s[0] == x then 0 else 1 + IndexOf(s[1..], x)
  }

  /** `s` without its element at position `i`; the others keep their relative order. */
  function Delete<T>(s: seq<T>, i: nat): (r: seq<T>)
    requires i < |s|
    ensures |r| == |s| - 1
    ensures forall k :: 0 <= k < i ==> r[k] == s[k]
    ensures forall k :: i <= k < |r| ==> r[k] == s[k + 1]
  {
    s[..i] + s[i + 1..]
  }

  lemma DeleteMultiset<T>(s: seq<T>, i: nat)
    requires i < |s|
    ensures multiset(Delete(s, i)) == multiset(s) - multiset{s[i]}
  {
    assert s == s[..i] + [s[i]] + s[i + 1..];
    assert multiset(s) == multiset(s[..i]) + multiset{s[i]} + multiset(s[i + 1..]);
  }

  lemma DeleteKeepsDistinct<T>(s: seq<T>, i: nat)
    requires i < |s| && Distinct(s)
    ensures Distinct(Delete(s, i))
    ensures s[i] !in Delete(s, i)
    ensures forall y :: y in Delete(s, i) <==> y in s && y != s[i]
  {
    var r := Delete(s, i);
    forall y | y in s && y != s[i]
      ensures y in r
    {
      var k :| 0 <= k < |s| && s[k] == y;
      if k < i {
        assert r[k] == y;
      } else {
        assert r[k - 1] == y;
      }
    }
  }

  /** Unlinks the first occurrence of `x` (nothing when `x` is absent); every other
      element stays, in its original relative order. */
  function RemoveFirst<T(==)>(s: seq<T>, x: T): (r: seq<T>)
    ensures x !in s ==> r == s
    ensures x in s ==> r == Delete(s, IndexOf(s, x))
    ensures x in s ==> |r| == |s| - 1 && multiset(r) == multiset(s) - multiset{x}
    ensures Distinct(s) ==> Distinct(r) && x !in r
    ensures forall k :: 0 <= k < |r| ==> r[k] in s
    ensures Distinct(s) ==> forall k :: 0 <= k < |s| && s[k] != x ==> s[k] in r
  {
    if x in s then
      var i := IndexOf(s, x);
      DeleteMultiset(s, i);
      if Distinct(s) then DeleteKeepsDistinct(s, i); Delete(s, i) else Delete(s, i)
    else
      s
  }
}
