/** What an LRU cache holds after any trace of calls, told by the trace alone. */
module LruTraces {
  import opened Collections
  import opened Recency
  import opened Lru

  /** The value k was last set to, unless it was deleted or everything purged since. */
  function LastSet<K(==), V>(ops: seq<Op<K, V>>, k: K): Option<V> {
    if ops == [] then None
    else
      match Last(ops)
      case SetOp(key, v) => if key == k then Some(v) else LastSet(ops[..|ops|-1], k)
      case DeleteOp(key) => if key == k then None else LastSet(ops[..|ops|-1], k)
      case PurgeOp => None
      case _ => LastSet(ops[..|ops|-1], k)
  }

  /** What Peek answers. */
  function Value<K(==), V>(ll: seq<Entry<K, V>>, k: K): Option<V> {
    var i := IndexOf(KeysOf(ll), k);
    if i < |ll| then Some(ll[i].val) else None
  }

  lemma ValueOfFront<K, V>(e: Entry<K, V>, ll: seq<Entry<K, V>>, k: K)
    ensures Value([e] + ll, k) == if e.key == k then Some(e.val) else Value(ll, k)
  {
    assert KeysOf([e] + ll)[0] == e.key && KeysOf([e] + ll)[1..] == KeysOf(ll);
  }

  lemma {:induction false} ValueOfPrefix<K, V>(ll: seq<Entry<K, V>>, n: nat, k: K)
    requires n <= |ll|
    ensures Value(ll[..n], k) == None || Value(ll[..n], k) == Value(ll, k)
  {
    assert KeysOf(ll[..n]) == KeysOf(ll)[..n];
    var i := IndexOf(KeysOf(ll[..n]), k);
    if i < n {
      assert KeysOf(ll)[i] == k && forall j :: 0 <= j < i ==> KeysOf(ll)[j] == KeysOf(ll[..n])[j] != k;
      assert IndexOf(KeysOf(ll), k) == i;
    }
  }

  lemma FirstOf<T>(s: seq<T>, i: nat, x: T)
    requires i < |s| && s[i] == x && forall j :: 0 <= j < i ==> s[j] != x
    ensures IndexOf(s, x) == i
  {
  }

  /** Without key k, the other keys keep their values. */
  lemma ValueOfRemove<K, V>(ll: seq<Entry<K, V>>, k: K, x: K)
    requires NoDup(KeysOf(ll))
    ensures Value(Remove(ll, k), x) == if x == k then None else Value(ll, x)
  {
    var keys, r := KeysOf(ll), Remove(ll, k);
    var i := IndexOf(keys, k);
    KeysOfRemove(ll, k);
    WithoutFacts(keys, k);
    assert x in KeysOf(r) <==> x in Elements(KeysOf(r));
    assert x in keys <==> x in Elements(keys);
    if x != k && x in keys && i < |ll| {
      var j := IndexOf(keys, x);
      var j' := if j < i then j else j - 1;
      assert r[j'] == ll[j] && KeysOf(r)[j'] == x;
      assert forall m :: 0 <= m < j' ==> KeysOf(r)[m] == keys[if m < i then m else m + 1];
      FirstOf(KeysOf(r), j', x);
    }
  }

  lemma ValueOfTouch<K, V>(ll: seq<Entry<K, V>>, k: K, x: K)
    requires NoDup(KeysOf(ll))
    ensures Value(Touch(ll, k), x) == Value(ll, x)
  {
    var i := IndexOf(KeysOf(ll), k);
    if i < |ll| {
      ValueOfRemove(ll, k, x);
      assert KeysOf(ll)[i] == ll[i].key;
      ValueOfFront(ll[i], Remove(ll, k), x);
    }
  }

  /** k itself always finds its new value; another key keeps its own, or is the one that was evicted. */
  lemma ValueOfPut<K, V>(cap: nat, ll: seq<Entry<K, V>>, k: K, v: V, x: K)
    requires NoDup(KeysOf(ll))
    ensures x == k ==> Value(Put(cap, ll, k, v), x) == Some(v)
    ensures x != k ==> Value(Put(cap, ll, k, v), x) == Value(ll, x) || (cap > 0 && Value(Put(cap, ll, k, v), x) == None)
  {
    var e := Entry(k, v);
    ValueOfRemove(ll, k, x);
    ValueOfFront(e, Remove(ll, k), x);
    ValueOfFront(e, ll, x);
    if k !in KeysOf(ll) && 0 < cap <= |ll| {
      ValueOfPrefix([e] + ll, |ll|, x);
      if x == k { assert KeysOf(([e] + ll)[..|ll|])[0] == k; }
    }
  }

  lemma StepTells<K, V>(cap: nat, ll: seq<Entry<K, V>>, op: Op<K, V>, x: K)
    requires NoDup(KeysOf(ll))
    ensures var v := Value(Step(cap, ll, op), x);
      match op
      case SetOp(k, w) => if x == k then v == Some(w) else v == Value(ll, x) || (cap > 0 && v == None)
      case DeleteOp(k) => v == if x == k then None else Value(ll, x)
      case PurgeOp => v == None
      case _ => v == Value(ll, x)
  {
    match op
    case SetOp(k, w) => ValueOfPut(cap, ll, k, w, x);
    case GetOp(k) => ValueOfTouch(ll, k, x);
    case DeleteOp(k) => ValueOfRemove(ll, k, x);
    case _ =>
  }

  /** A hit is always the value last set, and an unbounded cache never misses one. */
  lemma {:induction false} HitsAreLastSet<K, V>(cap: nat, ops: seq<Op<K, V>>, k: K)
    ensures Value(Run(cap, ops), k).Some? ==> Value(Run(cap, ops), k) == LastSet(ops, k)
    ensures cap == 0 ==> Value(Run(cap, ops), k) == LastSet(ops, k)
  {
    if ops != [] {
      HitsAreLastSet(cap, ops[..|ops|-1], k);
      RunKeysDistinct(cap, ops[..|ops|-1]);
      StepTells(cap, Run(cap, ops[..|ops|-1]), Last(ops), k);
    }
  }

  // Recency

  /** The call uses k: it sets k, or it is a Get that hits. */
  predicate UsesKey<K(==), V>(ll: seq<Entry<K, V>>, op: Op<K, V>, k: K) {
    (op.SetOp? && op.key == k) || (op.GetOp? && op.key == k && k in KeysOf(ll))
  }

  predicate UsesNone<K(==), V>(ll: seq<Entry<K, V>>, op: Op<K, V>) {
    !op.SetOp? && (op.GetOp? ==> op.key !in KeysOf(ll))
  }

  /** The index of the last call that used k; -1 if there is none. */
  function LastUse<K(==), V>(cap: nat, ops: seq<Op<K, V>>, k: K): (i: int)
    ensures -1 <= i < |ops|
  {
    if ops == [] then -1
    else
      var init := ops[..|ops|-1];
      if UsesKey(Run(cap, init), Last(ops), k) then |init| else LastUse(cap, init, k)
  }

  ghost function LastUses<K, V>(cap: nat, ops: seq<Op<K, V>>): K -> int {
    k => LastUse(cap, ops, k)
  }

  lemma OrderOfStep<K, V>(cap: nat, ll: seq<Entry<K, V>>, op: Op<K, V>)
    ensures var order, order' := KeysOf(ll), KeysOf(Step(cap, ll, op));
      match op
      case SetOp(k, _) => order' <= [k] + Without(order, k)
      case GetOp(k) => order' == ToFront(order, k)
      case PeekOp(_) => order' == order
      case DeleteOp(k) => order' == Without(order, k)
      case PurgeOp => order' == []
  {
    match op
    case SetOp(k, v) => KeysOfPut(cap, ll, k, v);
    case GetOp(k) => KeysOfTouch(ll, k);
    case DeleteOp(k) => KeysOfRemove(ll, k);
    case _ =>
  }

  /** The ranks after a call on k that uses it. */
  lemma NextRanks<K(!new), V>(cap: nat, ops: seq<Op<K, V>>, k: K)
    requires ops != [] && UsesKey(Run(cap, ops[..|ops|-1]), Last(ops), k)
    ensures Raised(LastUses(cap, ops[..|ops|-1]), LastUses(cap, ops), k, |ops| - 1)
  {
  }

  lemma SameRanks<K(!new), V>(cap: nat, ops: seq<Op<K, V>>)
    requires ops != [] && UsesNone(Run(cap, ops[..|ops|-1]), Last(ops))
    ensures forall k :: LastUses(cap, ops)(k) == LastUses(cap, ops[..|ops|-1])(k)
  {
  }

  lemma RankedUse<K(!new), V>(cap: nat, ops: seq<Op<K, V>>, k: K)
    requires ops != [] && UsesKey(Run(cap, ops[..|ops|-1]), Last(ops), k)
    requires Ranked(KeysOf(Run(cap, ops[..|ops|-1])), LastUses(cap, ops[..|ops|-1]))
    ensures Ranked(KeysOf(Run(cap, ops)), LastUses(cap, ops))
  {
    var init := ops[..|ops|-1];
    var order := KeysOf(Run(cap, init));
    OrderOfStep(cap, Run(cap, init), Last(ops));
    NextRanks(cap, ops, k);
    RankedPush(order, k, LastUses(cap, init), LastUses(cap, ops), |init|);
    if Last(ops).SetOp? {
      var pushed, kept := [k] + Without(order, k), KeysOf(Run(cap, ops));
      RankedPrefix(pushed, |kept|, LastUses(cap, ops));
      assert kept == pushed[..|kept|];
    }
  }

  lemma RankedNoUse<K(!new), V>(cap: nat, ops: seq<Op<K, V>>)
    requires ops != [] && UsesNone(Run(cap, ops[..|ops|-1]), Last(ops))
    requires Ranked(KeysOf(Run(cap, ops[..|ops|-1])), LastUses(cap, ops[..|ops|-1]))
    ensures Ranked(KeysOf(Run(cap, ops)), LastUses(cap, ops))
  {
    var init, op := ops[..|ops|-1], Last(ops);
    var order := KeysOf(Run(cap, init));
    OrderOfStep(cap, Run(cap, init), op);
    SameRanks(cap, ops);
    if op.DeleteOp? { RankedWithout(order, op.key, LastUses(cap, init)); }
    RankedSame(KeysOf(Run(cap, ops)), LastUses(cap, init), LastUses(cap, ops));
  }

  /** After every trace the keys stand in the order of their last use, the latest first. */
  lemma {:induction false} OrderedByLastUse<K(!new), V>(cap: nat, ops: seq<Op<K, V>>)
    ensures Ranked(KeysOf(Run(cap, ops)), LastUses(cap, ops))
  {
    if ops != [] {
      var init, op := ops[..|ops|-1], Last(ops);
      OrderedByLastUse(cap, init);
      if (op.SetOp? || op.GetOp?) && UsesKey(Run(cap, init), op, op.key) {
        RankedUse(cap, ops, op.key);
      } else {
        RankedNoUse(cap, ops);
      }
    }
  }
}
