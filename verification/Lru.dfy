/**
 The LRU cache of utils/stdlib/lru.go: a list ordered from most to least recently
 used, an index from key to list element, an optional capacity (0 means unbounded)
 and an eviction hook.
 */
module Lru {
  import opened Collections

  datatype Entry<K, V> = Entry(key: K, val: V)

  // ---------- The cache as a value: its entries, most recently used first ----------

  function KeysOf<K, V>(ll: seq<Entry<K, V>>): (ks: seq<K>)
    ensures |ks| == |ll|
  {
    seq(|ll|, i requires 0 <= i < |ll| => ll[i].key)
  }

  function Remove<K(==), V>(ll: seq<Entry<K, V>>, k: K): seq<Entry<K, V>> {
    var i := IndexOf(KeysOf(ll), k);
    if i < |ll| then ll[..i] + ll[i+1..] else ll
  }

  function Touch<K(==), V>(ll: seq<Entry<K, V>>, k: K): seq<Entry<K, V>> {
    var i := IndexOf(KeysOf(ll), k);
    if i < |ll| then [ll[i]] + Remove(ll, k) else ll
  }

  function Put<K(==), V>(cap: nat, ll: seq<Entry<K, V>>, k: K, v: V): seq<Entry<K, V>> {
    if k in KeysOf(ll) then [Entry(k, v)] + Remove(ll, k)
    else if cap > 0 && |ll| + 1 > cap then ([Entry(k, v)] + ll)[..|ll|]
    else [Entry(k, v)] + ll
  }

  function Reversed<T>(s: seq<T>): seq<T> {
    if s == [] then [] else [s[|s|-1]] + Reversed(s[..|s|-1])
  }

  lemma ReversedStep<T>(a: seq<T>, s: seq<T>, i: nat)
    requires i < |s|
    ensures a + Reversed(s[..i+1]) == a + [s[i]] + Reversed(s[..i])
  {
    assert s[..i+1][..i] == s[..i];
  }

  /** `items` finds the element of every key of the list and no other key. */
  ghost predicate Indexes<K, V>(ll: seq<Entry<K, V>>, items: map<K, Entry<K, V>>) {
    && NoDup(KeysOf(ll))
    && items.Keys == Elements(KeysOf(ll))
    && forall i :: 0 <= i < |ll| ==> ll[i].key in items && items[ll[i].key] == ll[i]
  }

  lemma IndexedPosition<K, V>(ll: seq<Entry<K, V>>, items: map<K, Entry<K, V>>, k: K)
    requires Indexes(ll, items)
    ensures k in items <==> k in KeysOf(ll)
    ensures k in items ==> IndexOf(KeysOf(ll), k) < |ll| && ll[IndexOf(KeysOf(ll), k)] == items[k]
  {
    assert k in items <==> k in Elements(KeysOf(ll));
  }

  lemma IndexesAfterRemove<K, V>(ll: seq<Entry<K, V>>, items: map<K, Entry<K, V>>, k: K)
    requires Indexes(ll, items) && k in items
    ensures Indexes(Remove(ll, k), items - {k})
  {
    KeysOfRemove(ll, k); WithoutFacts(KeysOf(ll), k);
    var rest := Remove(ll, k);
    forall i | 0 <= i < |rest|
      ensures rest[i].key in items - {k} && items[rest[i].key] == rest[i]
    {
      assert KeysOf(rest)[i] in Elements(KeysOf(rest));
    }
  }

  lemma IndexesAfterPush<K, V>(ll: seq<Entry<K, V>>, items: map<K, Entry<K, V>>, k: K, v: V)
    requires Indexes(ll, items) && k !in items
    ensures Indexes([Entry(k, v)] + ll, items[k := Entry(k, v)])
  {
    var ll' := [Entry(k, v)] + ll;
    assert KeysOf(ll') == [k] + KeysOf(ll);
    assert k !in Elements(KeysOf(ll));
  }

  lemma KeysOfRemove<K, V>(ll: seq<Entry<K, V>>, k: K)
    ensures KeysOf(Remove(ll, k)) == Without(KeysOf(ll), k)
  {
  }

  lemma KeysOfTouch<K, V>(ll: seq<Entry<K, V>>, k: K)
    ensures KeysOf(Touch(ll, k)) == ToFront(KeysOf(ll), k)
  {
    KeysOfRemove(ll, k);
    var i := IndexOf(KeysOf(ll), k);
    if i < |ll| {
      assert KeysOf(ll)[i] == k;
      assert KeysOf(Touch(ll, k)) == [k] + KeysOf(Remove(ll, k));
    } else {
      assert k !in KeysOf(ll);
    }
  }

  lemma KeysOfPut<K, V>(cap: nat, ll: seq<Entry<K, V>>, k: K, v: V)
    ensures k in KeysOf(ll) ==> KeysOf(Put(cap, ll, k, v)) == ToFront(KeysOf(ll), k)
    ensures k !in KeysOf(ll) && (cap == 0 || |ll| < cap) ==> KeysOf(Put(cap, ll, k, v)) == [k] + KeysOf(ll)
    ensures k !in KeysOf(ll) && 0 < cap <= |ll| ==> KeysOf(Put(cap, ll, k, v)) == ([k] + KeysOf(ll))[..|ll|]
  {
    KeysOfRemove(ll, k);
    KeysOfPush(ll, k, v);
    KeysOfPush(Remove(ll, k), k, v);
  }

  lemma KeysOfPush<K, V>(ll: seq<Entry<K, V>>, k: K, v: V)
    ensures KeysOf([Entry(k, v)] + ll) == [k] + KeysOf(ll)
    ensures KeysOf(([Entry(k, v)] + ll)[..|ll|]) == ([k] + KeysOf(ll))[..|ll|]
  {
  }

  lemma KeysOfUnboundedPut<K, V>(ll: seq<Entry<K, V>>, k: K, v: V)
    ensures KeysOf(Put(0, ll, k, v)) == [k] + Without(KeysOf(ll), k)
  {
    KeysOfPut(0, ll, k, v);
  }

  lemma StepsKeepKeysDistinct<K, V>(cap: nat, ll: seq<Entry<K, V>>, k: K, v: V)
    requires NoDup(KeysOf(ll))
    ensures NoDup(KeysOf(Remove(ll, k))) && NoDup(KeysOf(Touch(ll, k))) && NoDup(KeysOf(Put(cap, ll, k, v)))
  {
    KeysOfRemove(ll, k); KeysOfTouch(ll, k); KeysOfPut(cap, ll, k, v);
    WithoutFacts(KeysOf(ll), k); ToFrontFacts(KeysOf(ll), k);
  }

  // ---------- Stack inclusion ----------

  datatype Op<K, V> = SetOp(key: K, val: V) | GetOp(key: K) | PeekOp(key: K) | DeleteOp(key: K) | PurgeOp

  function Step<K(==), V>(cap: nat, ll: seq<Entry<K, V>>, op: Op<K, V>): seq<Entry<K, V>> {
    match op
    case SetOp(k, v) => Put(cap, ll, k, v)
    case GetOp(k) => Touch(ll, k)
    case PeekOp(_) => ll
    case DeleteOp(k) => Remove(ll, k)
    case PurgeOp => []
  }

  function Run<K(==), V>(cap: nat, ops: seq<Op<K, V>>): seq<Entry<K, V>> {
    if ops == [] then [] else Step(cap, Run(cap, ops[..|ops|-1]), ops[|ops|-1])
  }

  /** Capacity `m` is at most capacity `n`, where 0 means unbounded. */
  ghost predicate NoLarger(m: nat, n: nat) {
    1 <= m && (n == 0 || m <= n)
  }

  /** A Get that the two caches see alike: it hits the smaller, or misses the larger, or the smaller is empty. */
  ghost predicate SeenAlike<K, V>(small: seq<Entry<K, V>>, large: seq<Entry<K, V>>, op: Op<K, V>) {
    op.GetOp? ==> op.key in KeysOf(small) || op.key !in KeysOf(large) || small == []
  }

  ghost predicate SeenAlikeThroughout<K, V>(m: nat, n: nat, ops: seq<Op<K, V>>) {
    forall i :: 0 <= i < |ops| ==> SeenAlike(Run(m, ops[..i]), Run(n, ops[..i]), ops[i])
  }

  lemma SameIndexInPrefix<K, V>(small: seq<Entry<K, V>>, large: seq<Entry<K, V>>, k: K)
    requires small <= large
    ensures k in KeysOf(small) ==> IndexOf(KeysOf(large), k) == IndexOf(KeysOf(small), k) < |small|
    ensures k !in KeysOf(small) ==> IndexOf(KeysOf(large), k) >= |small|
  {
    assert KeysOf(small) == KeysOf(large)[..|small|];
    var i, j := IndexOf(KeysOf(small), k), IndexOf(KeysOf(large), k);
    if k in KeysOf(small) {
      assert KeysOf(large)[i] == k;
    }
  }

  lemma DropFromBoth<T>(a: seq<T>, b: seq<T>, i: nat)
    requires a <= b && i < |a|
    ensures a[..i] + a[i+1..] <= b[..i] + b[i+1..]
  {
    assert a == b[..|a|];
  }

  lemma DropBeyond<T>(a: seq<T>, b: seq<T>, j: nat)
    requires a <= b && |a| <= j < |b|
    ensures a <= b[..j] + b[j+1..]
  {
    assert a == b[..|a|];
  }

  lemma RemoveKeepsPrefix<K, V>(small: seq<Entry<K, V>>, large: seq<Entry<K, V>>, k: K)
    requires small <= large
    ensures Remove(small, k) <= Remove(large, k)
  {
    SameIndexInPrefix(small, large, k);
    var i, j := IndexOf(KeysOf(small), k), IndexOf(KeysOf(large), k);
    if i < |small| {
      DropFromBoth(small, large, i);
    } else if j < |large| {
      DropBeyond(small, large, j);
    }
  }

  lemma GetKeepsInclusionIff<K, V>(small: seq<Entry<K, V>>, large: seq<Entry<K, V>>, k: K)
    requires small <= large
    ensures Touch(small, k) <= Touch(large, k) <==> k in KeysOf(small) || k !in KeysOf(large) || small == []
    ensures |Touch(small, k)| == |small|
  {
    SameIndexInPrefix(small, large, k);
    RemoveKeepsPrefix(small, large, k);
    if k !in KeysOf(small) && small != [] {
      assert Touch(small, k)[0] == small[0] && KeysOf(small)[0] == small[0].key;
    }
  }

  lemma SetKeepsInclusion<K, V>(m: nat, n: nat, small: seq<Entry<K, V>>, large: seq<Entry<K, V>>, k: K, v: V)
    requires NoLarger(m, n) && small <= large && |small| <= m
    ensures Put(m, small, k, v) <= Put(n, large, k, v) && |Put(m, small, k, v)| <= m
  {
    RemoveKeepsPrefix(small, large, k);
    SameIndexInPrefix(small, large, k);
  }

  /** One step keeps inclusion exactly when the two caches see it alike. */
  lemma StepKeepsInclusionIff<K, V>(m: nat, n: nat, small: seq<Entry<K, V>>, large: seq<Entry<K, V>>, op: Op<K, V>)
    requires NoLarger(m, n) && small <= large && |small| <= m
    ensures Step(m, small, op) <= Step(n, large, op) <==> SeenAlike(small, large, op)
    ensures |Step(m, small, op)| <= m
  {
    match op
    case SetOp(k, v) => SetKeepsInclusion(m, n, small, large, k, v);
    case GetOp(k) => GetKeepsInclusionIff(small, large, k);
    case DeleteOp(k) => RemoveKeepsPrefix(small, large, k);
    case _ =>
  }

  /** A Get of a key that only the larger cache holds breaks the inclusion. */
  lemma UnseenGetExample()
    ensures var a, b := Entry('a', 1), Entry('b', 2);
            !(Step(1, [a], GetOp('b')) <= Step(2, [a, b], GetOp('b')))
  {
    var a, b := Entry('a', 1), Entry('b', 2);
    assert KeysOf([a]) == ['a'] && KeysOf([a, b]) == ['a', 'b'];
    StepKeepsInclusionIff(1, 2, [a], [a, b], GetOp('b'));
  }

  lemma {:induction false} RunKeysDistinct<K, V>(cap: nat, ops: seq<Op<K, V>>)
    ensures NoDup(KeysOf(Run(cap, ops)))
  {
    if ops != [] {
      var init := ops[..|ops|-1];
      RunKeysDistinct(cap, init);
      var op := ops[|ops|-1];
      if op.SetOp? {
        StepsKeepKeysDistinct(cap, Run(cap, init), op.key, op.val);
      } else if op.GetOp? {
        KeysOfTouch(Run(cap, init), op.key); ToFrontFacts(KeysOf(Run(cap, init)), op.key);
      } else if op.DeleteOp? {
        KeysOfRemove(Run(cap, init), op.key); WithoutFacts(KeysOf(Run(cap, init)), op.key);
      }
    }
  }

  /**
   Over every trace that the two caches see alike, the smaller cache holds exactly the
   most recently used entries of the larger one, keys and values, in the same order.
   */
  lemma {:induction false} StackInclusion<K, V>(m: nat, n: nat, ops: seq<Op<K, V>>)
    requires NoLarger(m, n) && SeenAlikeThroughout(m, n, ops)
    ensures Run(m, ops) <= Run(n, ops) && |Run(m, ops)| <= m
    ensures KeysOf(Run(m, ops)) <= KeysOf(Run(n, ops))
  {
    if ops != [] {
      var init := ops[..|ops|-1];
      assert forall i :: 0 <= i <= |init| ==> init[..i] == ops[..i];
      assert SeenAlikeThroughout(m, n, init);
      StackInclusion(m, n, init);
      StepKeepsInclusionIff(m, n, Run(m, init), Run(n, init), ops[|ops|-1]);
    }
  }

  // ---------- The mutable cache ----------

  class Cache<K(==), V> {
    const cap: nat
    const hooked: bool
    var ll: seq<Entry<K, V>>
    var items: map<K, Entry<K, V>>
    /** The arguments of the eviction hook, call after call. */
    var evictions: seq<Entry<K, V>>

    ghost predicate Valid()
      reads this
    {
      Indexes(ll, items)
    }

    constructor (capacity: nat, hooked: bool)
      ensures Valid() && cap == capacity && this.hooked == hooked && ll == [] && evictions == []
    {
      cap, this.hooked := capacity, hooked;
      ll, items, evictions := [], map[], [];
    }

    method Get(key: K) returns (v: Option<V>)
      requires Valid()
      modifies this`ll
      ensures Valid() && ll == Touch(old(ll), key)
      ensures v == if key in items then Some(items[key].val) else None
    {
      IndexedPosition(ll, items, key);
      if key in items {
        IndexesAfterRemove(ll, items, key);
        IndexesAfterPush(Remove(ll, key), items - {key}, key, items[key].val);
        assert (items - {key})[key := items[key]] == items;
        ll := [items[key]] + Remove(ll, key);
        v := Some(items[key].val);
      } else {
        v := None;
      }
    }

    method Peek(key: K) returns (v: Option<V>)
      requires Valid()
      ensures v.Some? <==> key in KeysOf(ll)
      ensures v.Some? ==> Entry(key, v.value) in ll
    {
      IndexedPosition(ll, items, key);
      if key in items {
        v := Some(items[key].val);
      } else {
        v := None;
      }
    }

    method RemoveElement(key: K)
      requires Valid() && key in items
      modifies this
      ensures Valid() && ll == Remove(old(ll), key)
      ensures evictions == old(evictions) + if hooked then [old(items)[key]] else []
    {
      IndexesAfterRemove(ll, items, key);
      var p := items[key];
      ll := Remove(ll, key);
      items := items - {key};
      if hooked { evictions := evictions + [p]; }
    }

    method Set(key: K, value: V) returns (evicted: bool)
      requires Valid()
      modifies this
      ensures Valid() && ll == Put(cap, old(ll), key, value)
      ensures evicted <==> key !in KeysOf(old(ll)) && 0 < cap <= |old(ll)|
      ensures evictions == old(evictions) + if evicted && hooked then [Last([Entry(key, value)] + old(ll))] else []
    {
      IndexedPosition(ll, items, key);
      if key in items {
        Refresh(key, value);
        return false;
      }
      PushFront(key, value);
      if cap > 0 && |ll| > cap {
        EvictTail();
        return true;
      }
      return false;
    }

    method Refresh(key: K, value: V)
      requires Valid() && key in items
      modifies this`ll, this`items
      ensures Valid() && ll == [Entry(key, value)] + Remove(old(ll), key)
    {
      IndexesAfterRemove(ll, items, key);
      IndexesAfterPush(Remove(ll, key), items - {key}, key, value);
      assert (items - {key})[key := Entry(key, value)] == items[key := Entry(key, value)];
      ll := [Entry(key, value)] + Remove(ll, key);
      items := items[key := Entry(key, value)];
    }

    method EvictTail()
      requires Valid() && ll != []
      modifies this
      ensures Valid() && ll == old(ll)[..|old(ll)|-1]
      ensures evictions == old(evictions) + if hooked then [Last(old(ll))] else []
    {
      var tail := ll[|ll|-1];
      assert KeysOf(ll)[|ll|-1] == tail.key;
      RemoveElement(tail.key);
    }

    method PushFront(key: K, value: V)
      requires Valid() && key !in items
      modifies this`ll, this`items
      ensures Valid() && ll == [Entry(key, value)] + old(ll) && items == old(items)[key := Entry(key, value)]
    {
      IndexesAfterPush(ll, items, key, value);
      ll := [Entry(key, value)] + ll;
      items := items[key := Entry(key, value)];
    }

    method Delete(key: K) returns (removed: bool)
      requires Valid()
      modifies this
      ensures Valid() && ll == Remove(old(ll), key) && (removed <==> key in KeysOf(old(ll)))
      ensures evictions == old(evictions) + if removed && hooked then [old(items)[key]] else []
    {
      IndexedPosition(ll, items, key);
      if key in items {
        RemoveElement(key);
        return true;
      }
      return false;
    }

    method Keys() returns (res: seq<K>)
      requires Valid()
      ensures res == KeysOf(ll)
    {
      res := [];
      for i := 0 to |ll|
        invariant res == KeysOf(ll)[..i]
      {
        res := res + [ll[i].key];
      }
    }

    /** Purge reports every entry to the hook from the least to the most recently used. */
    method Purge()
      requires Valid()
      modifies this
      ensures Valid() && ll == []
      ensures evictions == old(evictions) + if hooked then Reversed(old(ll)) else []
    {
      if hooked {
        var i := |ll|;
        assert ll[..i] == ll;
        while i > 0
          invariant 0 <= i <= |ll| && ll == old(ll)
          invariant evictions + Reversed(ll[..i]) == old(evictions) + Reversed(ll)
        {
          i := i - 1;
          ReversedStep(evictions, ll, i);
          evictions := evictions + [ll[i]];
        }
      }
      ll, items := [], map[];
    }

    method TailKey() returns (k: Option<K>)
      ensures k == if ll == [] then None else Some(Last(KeysOf(ll)))
    {
      if ll == [] {
        return None;
      }
      return Some(ll[|ll|-1].key);
    }
  }
}
