/** Orders by last use: a used element goes to the front, and nothing else changes places. */
module Recency {
  import opened Collections

  ghost predicate Ranked<T>(order: seq<T>, rank: T -> int) {
    forall i, j :: 0 <= i < j < |order| ==> rank(order[i]) > rank(order[j])
  }

  lemma RankedPrefix<T>(order: seq<T>, n: nat, rank: T -> int)
    requires Ranked(order, rank) && n <= |order|
    ensures Ranked(order[..n], rank)
  {
  }

  lemma RankedWithout<T>(order: seq<T>, k: T, rank: T -> int)
    requires Ranked(order, rank)
    ensures Ranked(Without(order, k), rank) && k !in Without(order, k)
  {
    var i, w := IndexOf(order, k), Without(order, k);
    if i < |order| {
      forall a, b | 0 <= a < b < |w| ensures rank(w[a]) > rank(w[b]) {
        assert w[a] == order[if a < i then a else a + 1] && w[b] == order[if b < i then b else b + 1];
      }
      forall a | 0 <= a < |w| ensures w[a] != k {
        var x := if a < i then a else a + 1;
        assert w[a] == order[x] && order[i] == k && rank(order[x]) != rank(order[i]);
      }
    }
  }

  /** k has become the most recent, nothing else has changed. */
  ghost predicate Raised<T(!new)>(rank: T -> int, rank': T -> int, k: T, top: int) {
    && rank'(k) == top
    && forall x :: rank(x) < top && (x != k ==> rank'(x) == rank(x))
  }

  lemma RankedPush<T(!new)>(order: seq<T>, k: T, rank: T -> int, rank': T -> int, top: int)
    requires Ranked(order, rank) && Raised(rank, rank', k, top)
    ensures Ranked([k] + Without(order, k), rank') && Ranked(ToFront(order, k), rank')
  {
    RankedWithout(order, k, rank);
    var w := Without(order, k);
    var p := [k] + w;
    forall i, j | 0 <= i < j < |p| ensures rank'(p[i]) > rank'(p[j]) {
      assert p[j] == w[j-1] && (i > 0 ==> p[i] == w[i-1]);
    }
    if k !in order { assert w == order; }
  }

  lemma RankedSame<T(!new)>(order: seq<T>, rank: T -> int, rank': T -> int)
    requires Ranked(order, rank) && forall x :: x in order ==> rank'(x) == rank(x)
    ensures Ranked(order, rank')
  {
  }
}
