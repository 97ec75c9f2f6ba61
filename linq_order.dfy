/**
 * The parts of System.Linq the judgment engine uses, over positions of a list.
 * `OrderByDescending` is a stable sort: it orders by descending key and keeps the
 * original order among equal keys. Its result is therefore the unique sequence of
 * positions ordered by Precedes below; the model builds it by insertion.
 */
module LinqOrder {

  /** Position i comes before position k in a stable sort by descending key. */
  predicate Precedes(keys: seq<real>, i: nat, k: nat)
    requires i < |keys| && k < |keys|
  {
    keys[i] > keys[k] || (keys[i] == keys[k] && i < k)
  }

  /** Every element of order is a position of keys. */
  predicate PositionsOf(keys: seq<real>, order: seq<nat>)
  {
    forall p :: 0 <= p < |order| ==> order[p] < |keys|
  }

  /** order lists positions of keys strictly by Precedes. */
  predicate Descending(keys: seq<real>, order: seq<nat>)
    requires PositionsOf(keys, order)
  {
    forall p, q :: 0 <= p < q < |order| ==> Precedes(keys, order[p], order[q])
  }

  /** Inserts position k into a Descending order just before the first position k precedes. */
  function Insert(keys: seq<real>, order: seq<nat>, k: nat): (r: seq<nat>)
    requires k < |keys| && PositionsOf(keys, order)
    ensures |r| == |order| + 1 && PositionsOf(keys, r)
    ensures forall x :: x in r <==> x in order || x == k
    decreases |order|
  {
    if order == [] || Precedes(keys, k, order[0]) then [k] + order
    else [order[0]] + Insert(keys, order[1..], k)
  }

  lemma {:induction false} InsertDescending(keys: seq<real>, order: seq<nat>, k: nat)
    requires k < |keys| && PositionsOf(keys, order) && Descending(keys, order) && k !in order
    ensures Descending(keys, Insert(keys, order, k))
    decreases |order|
  {
    if order == [] || Precedes(keys, k, order[0]) {
      forall x | x in order ensures Precedes(keys, k, x) {
        var q :| 0 <= q < |order| && order[q] == x;
        assert q == 0 || Precedes(keys, order[0], order[q]);
      }
      ConsDescending(keys, k, order);
    } else {
      var tail := order[1..];
      assert forall x :: x in tail ==> x in order;
      assert Descending(keys, tail) by {
        forall p, q | 0 <= p < q < |tail| ensures Precedes(keys, tail[p], tail[q]) {
          assert tail[p] == order[p + 1] && tail[q] == order[q + 1];
        }
      }
      InsertDescending(keys, tail, k);
      var rest := Insert(keys, tail, k);
      forall x | x in rest ensures Precedes(keys, order[0], x) {
        if x != k {
          var q :| 0 <= q < |tail| && tail[q] == x;
          assert Precedes(keys, order[0], order[q + 1]);
        }
      }
      ConsDescending(keys, order[0], rest);
    }
  }

  /** A position that precedes every element of a Descending order can be put in front of it. */
  lemma ConsDescending(keys: seq<real>, h: nat, rest: seq<nat>)
    requires h < |keys| && PositionsOf(keys, rest) && Descending(keys, rest)
    requires forall x :: x in rest ==> x < |keys| && Precedes(keys, h, x)
    ensures PositionsOf(keys, [h] + rest) && Descending(keys, [h] + rest)
  {
    var r := [h] + rest;
    forall p, q | 0 <= p < q < |r| ensures Precedes(keys, r[p], r[q]) {
      assert r[q] == rest[q - 1];
      if p == 0 {
        assert r[q] in rest;
      } else {
        assert r[p] == rest[p - 1];
      }
    }
  }

  /** Positions 0 .. n-1 of keys in stable descending order. */
  function SortPrefix(keys: seq<real>, n: nat): (r: seq<nat>)
    requires n <= |keys|
    ensures |r| == n && PositionsOf(keys, r) && Descending(keys, r)
    ensures forall x: nat :: x in r <==> x < n
    decreases n
  {
    if n == 0 then []
    else
      var prefix := SortPrefix(keys, n - 1);
      InsertDescending(keys, prefix, n - 1);
      Insert(keys, prefix, n - 1)
  }

  /** `OrderByDescending(key)` as the positions of the keys, in the order the sort yields them. */
  function OrderByDescending(keys: seq<real>): (order: seq<nat>)
    ensures |order| == |keys| && PositionsOf(keys, order) && Descending(keys, order)
    ensures forall i :: 0 <= i < |keys| ==> i in order
  {
    SortPrefix(keys, |keys|)
  }

  /** Where a position sits in the sorted order. */
  lemma PositionInOrder(keys: seq<real>, i: nat) returns (p: nat)
    requires i < |keys|
    ensures p < |keys| && OrderByDescending(keys)[p] == i
  {
    var order := OrderByDescending(keys);
    assert i in order;
    p :| 0 <= p < |order| && order[p] == i;
  }

  /** `First()` of the sorted order: a largest key, the earliest in list order among equal keys. */
  lemma FirstIsLargest(keys: seq<real>)
    requires |keys| > 0
    ensures forall k :: 0 <= k < |keys| && k != OrderByDescending(keys)[0] ==>
      Precedes(keys, OrderByDescending(keys)[0], k)
  {
    var order := OrderByDescending(keys);
    forall k | 0 <= k < |keys| && k != order[0] ensures Precedes(keys, order[0], k) {
      var p := PositionInOrder(keys, k);
    }
  }

  /** `Last()`. */
  function Last<T>(s: seq<T>): (x: T)
    requires |s| > 0
    ensures x in s && x == s[|s| - 1]
  {
    s[|s| - 1]
  }

  /** `Last()` of the sorted order: a smallest key, the latest in list order among equal keys. */
  lemma LastIsSmallest(keys: seq<real>)
    requires |keys| > 0
    ensures forall k :: 0 <= k < |keys| && k != Last(OrderByDescending(keys)) ==>
      Precedes(keys, k, Last(OrderByDescending(keys)))
  {
    var order := OrderByDescending(keys);
    forall k | 0 <= k < |keys| && k != Last(order) ensures Precedes(keys, k, Last(order)) {
      var p := PositionInOrder(keys, k);
    }
  }

  /** `Where(keep)`: the elements that satisfy keep, in their order. */
  function Where<T(!new)>(s: seq<T>, keep: T -> bool): (r: seq<T>)
    ensures forall x :: x in r <==> x in s && keep(x)
    decreases |s|
  {
    if s == [] then []
    else if keep(s[0]) then [s[0]] + Where(s[1..], keep)
    else Where(s[1..], keep)
  }

  /** The head of `Where(keep)` is the first element of s that satisfies keep. */
  lemma {:induction false} WhereHead<T(!new)>(s: seq<T>, keep: T -> bool) returns (p: nat)
    requires Where(s, keep) != []
    ensures p < |s| && s[p] == Where(s, keep)[0] && keep(s[p])
    ensures forall q :: 0 <= q < p ==> !keep(s[q])
    decreases |s|
  {
    if keep(s[0]) {
      p := 0;
    } else {
      var p' := WhereHead(s[1..], keep);
      p := p' + 1;
    }
  }

  /** `DefaultIfEmpty(d)`. */
  function DefaultIfEmpty<T>(s: seq<T>, d: T): (r: seq<T>)
    ensures |r| > 0
    ensures s != [] ==> r == s
    ensures s == [] ==> r == [d]
  {
    if s == [] then [d] else s
  }
}
