/** One FlashDB shard as a value, with the locked sections of storage/flashdb/store.go and shard.go as functions. */
module FlashShard {
  import opened Collections
  import opened FlashRecord
  import opened Widths

  /** The record map, the LRU order (most recently used first), the byte counter and the byte capacity. */
  datatype Shard = Shard(data: map<string, Record>, order: seq<string>, size: int, capacity: int)

  // uint64 arithmetic

  function Wrap64(x: int): (y: int)
    ensures 0 <= y < TWO64
    ensures 0 <= x < TWO64 ==> y == x
  {
    x % TWO64
  }

  /** nonNegativeInt64ToUint64 */
  function Clamp(x: int): nat {
    if x <= 0 then 0 else x
  }

  function Resized(size: int, old': int, new': int): int {
    if new' >= old' then Wrap64(size + Clamp(new' - old')) else Wrap64(size - Clamp(old' - new'))
  }

  predicate IsFull(s: Shard) {
    s.size > s.capacity
  }

  predicate IsFullAfter(s: Shard, cost: int) {
    Wrap64(s.size + cost) > s.capacity
  }

  function RemoveLocked(s: Shard, k: string): Shard {
    Shard(s.data - {k}, Without(s.order, k),
          if k in s.data then Wrap64(s.size - Clamp(s.data[k].size)) else s.size, s.capacity)
  }

  /** lru.Get */
  function Bump(s: Shard, k: string): Shard {
    s.(order := ToFront(s.order, k))
  }

  function Store(s: Shard, k: string, r: Record): Shard {
    s.(data := s.data[k := r])
  }

  /** removeLocked of the tail key. */
  function DropTail(s: Shard): Shard
    requires s.order != []
  {
    var k := Last(s.order);
    Shard(s.data - {k}, s.order[..|s.order|-1],
          if k in s.data then Wrap64(s.size - Clamp(s.data[k].size)) else s.size, s.capacity)
  }

  lemma DropTailRemoves(s: Shard)
    requires s.order != [] && NoDup(s.order)
    ensures DropTail(s) == RemoveLocked(s, Last(s.order))
  {
    WithoutLast(s.order);
  }

  /** The trim loop: drop the least recently used key while the shard is over budget. */
  function Trim(s: Shard): Shard
    decreases |s.order|
  {
    if IsFull(s) && s.order != [] then Trim(DropTail(s)) else s
  }

  /** The admission loop: make room for `cost` bytes as long as `key` is at least as popular as the victim. */
  function Admit(s: Shard, est: string -> int, key: string, cost: int): (bool, Shard)
    decreases |s.order|
  {
    if !IsFullAfter(s, cost) then (true, s)
    else if s.order == [] then (false, s)
    else if est(key) < est(Last(s.order)) then (false, s)
    else Admit(DropTail(s), est, key, cost)
  }

  lemma AdmitEvicts(s: Shard, est: string -> int, key: string, cost: int)
    requires s.order != [] && IsFullAfter(s, cost) && est(key) >= est(Last(s.order))
    ensures Admit(s, est, key, cost) == Admit(DropTail(s), est, key, cost)
  {
  }

  lemma AdmitStops(s: Shard, est: string -> int, key: string, cost: int)
    requires !IsFullAfter(s, cost) || s.order == [] || est(key) < est(Last(s.order))
    ensures Admit(s, est, key, cost) == (!IsFullAfter(s, cost), s)
  {
  }

  // ---------- The locked section of each operation ----------

  predicate Live(s: Shard, now: int, k: string) {
    k in s.data && !IsExpired(s.data[k], now)
  }

  /** Lazy expiry on access. */
  function Expire(s: Shard, now: int, k: string): Shard {
    if k in s.data && IsExpired(s.data[k], now) then RemoveLocked(s, k) else s
  }

  function Get(s: Shard, now: int, k: string): Shard {
    if Live(s, now, k) then Bump(s, k) else Expire(s, now, k)
  }

  function Update(s: Shard, k: string, r: Record): Shard
    requires k in s.data
  {
    var size := if r.size >= 0 then Resized(s.size, s.data[k].size, r.size) else s.size;
    Trim(Bump(Store(s, k, r).(size := size), k))
  }

  function Insert(s: Shard, est: string -> int, k: string, r: Record): (bool, Shard) {
    var cost := Clamp(r.size);
    if cost > s.capacity then (false, s) else
    var (admitted, s') := Admit(s, est, k, cost);
    if !admitted then (false, s') else
    (true, Shard(s'.data[k := r], [k] + Without(s'.order, k), Wrap64(s'.size + cost), s.capacity))
  }

  lemma InsertIs(s: Shard, est: string -> int, k: string, r: Record, admitted: bool, s': Shard)
    requires Clamp(r.size) <= s.capacity && Admit(s, est, k, Clamp(r.size)) == (admitted, s')
    ensures Insert(s, est, k, r) ==
            if admitted then (true, Shard(s'.data[k := r], [k] + Without(s'.order, k), Wrap64(s'.size + Clamp(r.size)), s.capacity))
            else (false, s')
  {
  }

  function Set(s: Shard, est: string -> int, k: string, r: Record): (bool, Shard) {
    if k in s.data then (true, Update(s, k, r)) else Insert(s, est, k, r)
  }

  function Delete(s: Shard, k: string): (bool, Shard) {
    if k in s.data then (true, RemoveLocked(s, k)) else (false, s)
  }

  ghost function Increment(s: Shard, now: int, k: string, offsets: seq<(string, int)>): (Status, Shard) {
    if !Live(s, now, k) then (NotFound, Expire(s, now, k)) else
    var (r, status) := IncrementRecord(s.data[k], offsets);
    var s' := Store(s, k, r);
    (status, if status.Ok? then Bump(s', k) else s')
  }

  ghost function Append(s: Shard, now: int, k: string, appends: seq<(string, string)>): (Status, Shard) {
    if !Live(s, now, k) then (NotFound, Expire(s, now, k)) else
    var (r, status) := AppendRecord(k, s.data[k], appends);
    var s' := Store(s, k, r);
    if !status.Ok? then (status, s') else
    (Ok, Trim(Bump(s'.(size := Resized(s.size, s.data[k].size, r.size)), k)))
  }

  function Deadline(now: int, ttl: int): Option<int> {
    if ttl <= 0 then None else Some(now + ttl)
  }

  function SetTTL(s: Shard, now: int, k: string, ttl: int): (Status, Shard) {
    if !Live(s, now, k) then (NotFound, Expire(s, now, k)) else
    (Ok, Bump(Store(s, k, s.data[k].(expiry := Deadline(now, ttl))), k))
  }

  /** Exists under the read lock: an answer, or the write lock is needed because the record has expired. */
  function ExistsLook(s: Shard, now: int, k: string): Option<bool> {
    if k !in s.data then Some(false) else if !IsExpired(s.data[k], now) then Some(true) else None
  }

  /** Exists under the write lock; the shard may have changed since. */
  function ExistsFinish(s: Shard, now: int, k: string): (bool, Shard) {
    if k in s.data && IsExpired(s.data[k], now) then (false, RemoveLocked(s, k)) else (true, s)
  }

  /** Whatever happens between the two sections, the shard is left as by one section at the time of the last. */
  lemma ExistsIsExpire(s: Shard, now: int, k: string)
    ensures ExistsLook(s, now, k).Some? ==> Expire(s, now, k) == s && ExistsLook(s, now, k) == Some(Live(s, now, k))
    ensures ExistsFinish(s, now, k).1 == Expire(s, now, k)
  {
  }

  /** The answer of the second section is right for the shard it saw exactly when the key was still there. */
  lemma ExistsRightIff(s: Shard, now: int, k: string)
    ensures ExistsFinish(s, now, k).0 == Live(s, now, k) <==> k in s.data
  {
  }

  /** A record that expired and was deleted between the sections is reported as existing. */
  lemma VanishedExample(s: Shard, now: int, k: string)
    requires k in s.data && IsExpired(s.data[k], now)
    ensures ExistsLook(s, now, k).None?
    ensures var s' := Delete(s, k).1; ExistsFinish(s', now, k).0 && !Live(s', now, k)
  {
  }

  const SECOND: int := 1_000_000_000

  /** int64(d.Seconds()): truncation toward zero. */
  function WholeSeconds(d: int): int {
    if d >= 0 then d / SECOND else -((-d) / SECOND)
  }

  /** GetTTL reads the clock a second time, at `later`, for the remaining seconds; -1 means no TTL. */
  function GetTTL(s: Shard, now: int, later: int, k: string): (Option<int>, Shard) {
    if !Live(s, now, k) then (None, Expire(s, now, k))
    else if s.data[k].expiry.None? then (Some(-1), s)
    else if WholeSeconds(s.data[k].expiry.value - later) < 0 then (None, RemoveLocked(s, k))
    else (Some(WholeSeconds(s.data[k].expiry.value - later)), s)
  }

  /** One janitor pass: visit `keys` in order and drop the expired ones, at most `budget` (at least 1) of them. */
  function Sweep(s: Shard, now: int, keys: seq<string>, budget: nat): Shard
    decreases |keys|
  {
    if keys == [] then s
    else if keys[0] in s.data && IsExpired(s.data[keys[0]], now) then
      var s' := RemoveLocked(s, keys[0]);
      if budget <= 1 then s' else Sweep(s', now, keys[1..], budget - 1)
    else Sweep(s, now, keys[1..], budget)
  }

  // ---------- The structural invariant ----------

  function Cost(k: string, r: Record): int {
    r.size
  }

  /** Map, LRU order and byte counter are in step. */
  ghost predicate InStep(s: Shard) {
    && Distinct(s.order)
    && Elements(s.order) == s.data.Keys
    && (forall k :: k in s.data ==> 0 <= s.data[k].size < TWO63)
    && s.size == MapSum(s.data, Cost)
    && 0 <= s.size < TWO64
    && 0 <= s.capacity <= TWO63
  }

  /** What every operation finds and leaves: in step, and within the byte budget. */
  ghost predicate Valid(s: Shard) {
    InStep(s) && s.size <= s.capacity
  }

  lemma RemoveKeepsInStep(s: Shard, k: string)
    requires InStep(s)
    ensures InStep(RemoveLocked(s, k))
    ensures k in s.data ==> RemoveLocked(s, k).size == s.size - s.data[k].size
    ensures RemoveLocked(s, k).size <= s.size
  {
    DistinctWithout(s.order, k);
    if k in s.data {
      MapSumRemove(s.data, Cost, k);
      MapSumNonNegative(s.data - {k}, Cost);
    } else {
      assert s.data - {k} == s.data;
    }
  }

  lemma DropTailKeepsInStep(s: Shard)
    requires InStep(s) && s.order != []
    ensures Last(s.order) in s.data && DropTail(s).size == s.size - s.data[Last(s.order)].size <= s.size
    ensures InStep(DropTail(s))
  {
    assert Last(s.order) in Elements(s.order);
    DistinctLast(s.order);
    RemoveKeepsInStep(s, Last(s.order));
    assert DropTail(s) == RemoveLocked(s, Last(s.order));
  }

  lemma BumpKeepsInStep(s: Shard, k: string)
    requires InStep(s)
    ensures InStep(Bump(s, k))
  {
    DistinctToFront(s.order, k);
  }

  lemma StoreKeepsInStep(s: Shard, k: string, r: Record)
    requires Valid(s) && k in s.data && 0 <= r.size < TWO63
    ensures InStep(Store(s, k, r).(size := Resized(s.size, s.data[k].size, r.size)))
    ensures Resized(s.size, s.data[k].size, r.size) == s.size - s.data[k].size + r.size
  {
    MapSumInsert(s.data, Cost, k, r);
    MapSumRemove(s.data, Cost, k);
    MapSumNonNegative(s.data - {k}, Cost);
    assert Store(s, k, r).data.Keys == s.data.Keys;
  }

  lemma {:induction false} TrimRestoresValid(s: Shard)
    requires InStep(s)
    ensures Valid(Trim(s)) && Trim(s).capacity == s.capacity
    decreases |s.order|
  {
    if s.order != [] {
      DropTailKeepsInStep(s);
      if IsFull(s) { TrimRestoresValid(DropTail(s)); }
    }
  }

  lemma {:induction false} AdmitKeepsValid(s: Shard, est: string -> int, key: string, cost: int)
    requires Valid(s)
    ensures Valid(Admit(s, est, key, cost).1) && Admit(s, est, key, cost).1.capacity == s.capacity
    ensures Admit(s, est, key, cost).1.data.Keys <= s.data.Keys
    decreases |s.order|
  {
    if IsFullAfter(s, cost) && s.order != [] && est(key) >= est(Last(s.order)) {
      DropTailKeepsInStep(s);
      AdmitKeepsValid(DropTail(s), est, key, cost);
    }
  }

  lemma UpdateKeepsValid(s: Shard, k: string, r: Record)
    requires Valid(s) && 0 <= r.size < TWO63 && k in s.data
    ensures Valid(Update(s, k, r))
  {
    StoreKeepsInStep(s, k, r);
    var s1 := Store(s, k, r).(size := Resized(s.size, s.data[k].size, r.size));
    BumpKeepsInStep(s1, k);
    TrimRestoresValid(Bump(s1, k));
  }

  lemma InsertKeepsValid(s: Shard, est: string -> int, k: string, r: Record)
    requires Valid(s) && 0 <= r.size < TWO63 && k !in s.data
    ensures Valid(Insert(s, est, k, r).1)
  {
    if r.size <= s.capacity {
      AdmitKeepsValid(s, est, k, r.size);
      var (admitted, s') := Admit(s, est, k, r.size);
      if admitted {
        MapSumInsert(s'.data, Cost, k, r);
        assert k !in Elements(s'.order);
        DistinctPush(s'.order, k);
        AdmittedFits(s, est, k, r.size);
        assert Insert(s, est, k, r).1.data.Keys == s'.data.Keys + {k};
      }
    }
  }

  lemma SetKeepsValid(s: Shard, est: string -> int, k: string, r: Record)
    requires Valid(s) && 0 <= r.size < TWO63
    ensures Valid(Set(s, est, k, r).1)
  {
    if k in s.data { UpdateKeepsValid(s, k, r); } else { InsertKeepsValid(s, est, k, r); }
  }

  lemma {:induction false} AdmittedFits(s: Shard, est: string -> int, key: string, cost: int)
    ensures Admit(s, est, key, cost).0 ==> !IsFullAfter(Admit(s, est, key, cost).1, cost)
    decreases |s.order|
  {
    if IsFullAfter(s, cost) && s.order != [] && est(key) >= est(Last(s.order)) {
      AdmittedFits(DropTail(s), est, key, cost);
    }
  }

  /** Overwriting a record with one of the same size leaves the counter right. */
  lemma StoreSameSize(s: Shard, k: string, r: Record)
    requires Valid(s) && k in s.data && r.size == s.data[k].size
    ensures Valid(Store(s, k, r)) && Valid(Bump(Store(s, k, r), k))
  {
    StoreKeepsInStep(s, k, r);
    assert Store(s, k, r).(size := Resized(s.size, s.data[k].size, r.size)) == Store(s, k, r);
    BumpKeepsInStep(Store(s, k, r), k);
  }

  lemma AccessKeepsValid(s: Shard, now: int, k: string)
    requires Valid(s)
    ensures Valid(Get(s, now, k)) && Valid(Expire(s, now, k)) && Valid(Delete(s, k).1)
  {
    RemoveKeepsInStep(s, k);
    BumpKeepsInStep(s, k);
  }

  lemma SetTTLKeepsValid(s: Shard, now: int, k: string, ttl: int)
    requires Valid(s)
    ensures Valid(SetTTL(s, now, k, ttl).1)
  {
    if Live(s, now, k) {
      StoreSameSize(s, k, s.data[k].(expiry := Deadline(now, ttl)));
    } else {
      AccessKeepsValid(s, now, k);
    }
  }

  lemma GetTTLKeepsValid(s: Shard, now: int, later: int, k: string)
    requires Valid(s)
    ensures Valid(GetTTL(s, now, later, k).1)
  {
    AccessKeepsValid(s, now, k);
  }

  lemma IncrementKeepsValid(s: Shard, now: int, k: string, offsets: seq<(string, int)>)
    requires Valid(s)
    ensures Valid(Increment(s, now, k, offsets).1)
  {
    RemoveKeepsInStep(s, k);
    if Live(s, now, k) {
      StoreSameSize(s, k, IncrementRecord(s.data[k], offsets).0);
    }
  }

  lemma AppendKeepsValid(s: Shard, now: int, k: string, appends: seq<(string, string)>)
    requires Valid(s)
    requires Live(s, now, k) ==> AppendRecord(k, s.data[k], appends).0.size >= 0
    ensures Valid(Append(s, now, k, appends).1)
  {
    RemoveKeepsInStep(s, k);
    if Live(s, now, k) {
      var (r, status) := AppendRecord(k, s.data[k], appends);
      if status.Ok? {
        StoreKeepsInStep(s, k, r);
        var s1 := Store(s, k, r).(size := Resized(s.size, s.data[k].size, r.size));
        BumpKeepsInStep(s1, k);
        TrimRestoresValid(Bump(s1, k));
      } else {
        StoreSameSize(s, k, r);
      }
    }
  }

  lemma {:induction false} SweepKeepsValid(s: Shard, now: int, keys: seq<string>, budget: nat)
    requires Valid(s)
    ensures Valid(Sweep(s, now, keys, budget))
    decreases |keys|
  {
    if keys != [] {
      RemoveKeepsInStep(s, keys[0]);
      if keys[0] in s.data && IsExpired(s.data[keys[0]], now) {
        if budget > 1 { SweepKeepsValid(RemoveLocked(s, keys[0]), now, keys[1..], budget - 1); }
      } else {
        SweepKeepsValid(s, now, keys[1..], budget);
      }
    }
  }

  /**
   The unsigned admission test cannot wrap if and only if the shard's capacity is at
   most 2^63. (A larger one is beyond any real memory.)
   */
  lemma AdmissionTestExactIff(capacity: int)
    requires 0 <= capacity < TWO64
    ensures (forall size, cost :: 0 <= size <= capacity && 0 <= cost <= capacity && cost < TWO63 ==> AddsExactly(size, cost))
            <==> capacity <= TWO63
  {
    if capacity > TWO63 {
      assert !AddsExactly(capacity, TWO63 - 1);
    }
  }

  ghost predicate AddsExactly(size: int, cost: int) {
    Wrap64(size + cost) == size + cost
  }

  // ---------- What the loops evict ----------

  /** The bytes of the `n` most recently used keys. */
  function Weight(s: Shard, n: nat): int
    requires n <= |s.order|
  {
    if n == 0 then 0 else
    var k := s.order[n-1];
    Weight(s, n - 1) + if k in s.data then s.data[k].size else 0
  }

  /** `c` is `s` cut down to its `n` most recently used keys. */
  ghost predicate IsPrefix(c: Shard, s: Shard, n: nat) {
    && n <= |s.order| && InStep(c) && c.capacity == s.capacity
    && c.order == s.order[..n] && c.size == Weight(s, n)
    && SubMap(c.data, s.data)
  }

  ghost predicate SubMap(a: map<string, Record>, b: map<string, Record>) {
    forall k :: k in a ==> k in b && a[k] == b[k]
  }

  /** The first `j` keys leave no room for `cost` more bytes. */
  ghost predicate NoRoom(s: Shard, cost: int, j: nat) {
    j <= |s.order| && Weight(s, j) + cost > s.capacity
  }

  lemma {:induction false} SameWeight(s: Shard, c: Shard, n: nat)
    requires n <= |s.order| && n <= |c.order| && s.order[..n] == c.order[..n]
    requires forall i :: 0 <= i < n ==> s.order[i] in s.data && c.order[i] in c.data && s.data[s.order[i]] == c.data[c.order[i]]
    ensures Weight(s, n) == Weight(c, n)
  {
    if n > 0 {
      assert s.order[n-1] == s.order[..n][n-1] && c.order[n-1] == c.order[..n][n-1];
      assert s.order[..n-1] == s.order[..n][..n-1] && c.order[..n-1] == c.order[..n][..n-1];
      SameWeight(s, c, n - 1);
    }
  }

  /** The byte counter is the weight of the whole LRU order. */
  lemma {:induction false} WholeWeight(s: Shard)
    requires InStep(s)
    ensures s.size == Weight(s, |s.order|)
    decreases |s.order|
  {
    if s.order == [] {
      assert s.data.Keys == {};
      assert s.data == map[];
    } else {
      DropTailKeepsInStep(s);
      var c := DropTail(s);
      WholeWeight(c);
      forall i | 0 <= i < |c.order|
        ensures s.order[i] in s.data && c.order[i] in c.data && s.data[s.order[i]] == c.data[c.order[i]]
      {
        assert c.order[i] in Elements(c.order);
      }
      SameWeight(s, c, |c.order|);
    }
  }

  lemma WholeIsPrefix(s: Shard)
    requires InStep(s)
    ensures IsPrefix(s, s, |s.order|)
  {
    WholeWeight(s);
    assert s.order[..|s.order|] == s.order;
  }

  lemma PrefixDropsTail(c: Shard, s: Shard, n: nat)
    requires IsPrefix(c, s, n) && n > 0
    ensures Last(c.order) == s.order[n-1]
    ensures IsPrefix(DropTail(c), s, n - 1)
  {
    DropTailKeepsInStep(c);
    assert s.order[..n][..n-1] == s.order[..n-1];
  }

  lemma {:induction false} WeightMonotone(s: Shard, m: nat, n: nat)
    requires InStep(s) && m <= n <= |s.order|
    ensures 0 <= Weight(s, m) <= Weight(s, n)
  {
    if n > 0 {
      WeightMonotone(s, if m < n then m else n - 1, n - 1);
    }
  }

  /** Where tail removal stops: the first point, coming from `n`, that fits or whose key must not be evicted. */
  function StopPoint(s: Shard, cost: int, n: nat, evictable: string -> bool): (m: nat)
    requires n <= |s.order|
    ensures m <= n
  {
    if n == 0 || Weight(s, n) + cost <= s.capacity || !evictable(s.order[n-1]) then n
    else StopPoint(s, cost, n - 1, evictable)
  }

  /** It stops at the latest such point. */
  lemma {:induction false} StopPointIsLatest(s: Shard, cost: int, n: nat, evictable: string -> bool)
    requires n <= |s.order|
    ensures forall j :: StopPoint(s, cost, n, evictable) < j <= n ==> NoRoom(s, cost, j) && evictable(s.order[j-1])
    ensures var m := StopPoint(s, cost, n, evictable); m == 0 || !NoRoom(s, cost, m) || !evictable(s.order[m-1])
  {
    if n > 0 && NoRoom(s, cost, n) && evictable(s.order[n-1]) {
      StopPointIsLatest(s, cost, n - 1, evictable);
      var m := StopPoint(s, cost, n - 1, evictable);
      assert StopPoint(s, cost, n, evictable) == m;
      forall j | m < j <= n ensures NoRoom(s, cost, j) && evictable(s.order[j-1]) {
        assert j < n ==> NoRoom(s, cost, j);
      }
    }
  }

  lemma {:induction false} TrimFrom(c: Shard, s: Shard, n: nat)
    requires IsPrefix(c, s, n) && s.capacity >= 0
    ensures IsPrefix(Trim(c), s, StopPoint(s, 0, n, k => true))
    decreases n
  {
    if n > 0 {
      PrefixDropsTail(c, s, n);
      if IsFull(c) { TrimFrom(DropTail(c), s, n - 1); }
    }
  }

  /** The trim loop keeps the longest run of recent keys that fits: the shortest possible suffix goes. */
  lemma TrimShape(s: Shard) returns (m: nat)
    requires InStep(s)
    ensures IsPrefix(Trim(s), s, m) && !NoRoom(s, 0, m)
    ensures forall j :: m < j <= |s.order| ==> NoRoom(s, 0, j)
  {
    WholeIsPrefix(s);
    m := StopPoint(s, 0, |s.order|, k => true);
    TrimFrom(s, s, |s.order|);
    StopPointIsLatest(s, 0, |s.order|, k => true);
  }

  /** The keys that the newcomer `key` may push out. */
  function Evictable(est: string -> int, key: string): string -> bool {
    k => est(k) <= est(key)
  }

  /** How the admission loop ends when it stops with `m` keys left. */
  ghost predicate AdmissionShape(s: Shard, est: string -> int, key: string, cost: int, m: nat, admitted: bool) {
    && m <= |s.order|
    && (forall j :: m < j <= |s.order| ==> NoRoom(s, cost, j) && est(s.order[j-1]) <= est(key))
    && (admitted <==> !NoRoom(s, cost, m))
    && (!admitted ==> m > 0 && est(s.order[m-1]) > est(key))
  }

  lemma {:induction false} AdmitFrom(c: Shard, s: Shard, n: nat, est: string -> int, key: string, cost: int)
    requires IsPrefix(c, s, n) && 0 <= cost <= s.capacity <= TWO63 && cost < TWO63 && c.size <= s.capacity
    ensures var m := StopPoint(s, cost, n, Evictable(est, key));
            IsPrefix(Admit(c, est, key, cost).1, s, m) && (Admit(c, est, key, cost).0 <==> !NoRoom(s, cost, m))
    decreases n
  {
    assert IsFullAfter(c, cost) <==> NoRoom(s, cost, n);
    if n > 0 {
      PrefixDropsTail(c, s, n);
      if NoRoom(s, cost, n) && est(s.order[n-1]) <= est(key) {
        DropTailKeepsInStep(c);
        AdmitFrom(DropTail(c), s, n - 1, est, key, cost);
      }
    }
  }

  lemma AdmitShape(s: Shard, est: string -> int, key: string, cost: int) returns (m: nat)
    requires Valid(s) && 0 <= cost <= s.capacity && cost < TWO63
    ensures IsPrefix(Admit(s, est, key, cost).1, s, m)
    ensures AdmissionShape(s, est, key, cost, m, Admit(s, est, key, cost).0)
  {
    WholeIsPrefix(s);
    m := StopPoint(s, cost, |s.order|, Evictable(est, key));
    AdmitFrom(s, s, |s.order|, est, key, cost);
    StopPointIsLatest(s, cost, |s.order|, Evictable(est, key));
  }

  /**
   An accepted insert evicts exactly the shortest suffix of the LRU order that makes
   room, no victim more popular than the newcomer; a rejected one stops at the first
   victim that is more popular. There always is a victim.
   */
  lemma InsertShape(s: Shard, est: string -> int, k: string, r: Record) returns (m: nat, c: Shard)
    requires Valid(s) && k !in s.data && 0 <= r.size <= s.capacity && r.size < TWO63
    ensures IsPrefix(c, s, m) && AdmissionShape(s, est, k, r.size, m, Insert(s, est, k, r).0)
    ensures Insert(s, est, k, r).1 ==
            if Insert(s, est, k, r).0 then Shard(c.data[k := r], [k] + c.order, c.size + r.size, s.capacity) else c
  {
    m := AdmitShape(s, est, k, r.size);
    c := Admit(s, est, k, r.size).1;
    AdmitKeepsValid(s, est, k, r.size);
    assert k !in Elements(c.order);
    DistinctPush(c.order, k);
    assert Wrap64(c.size + r.size) == c.size + r.size;
  }

  /** An updated key survives its own trim loop if and only if its new size fits the shard. */
  lemma UpdatedKeySurvivesIff(s: Shard, k: string, r: Record)
    requires Valid(s) && k in s.data && 0 <= r.size < TWO63
    ensures k in Update(s, k, r).data <==> r.size <= s.capacity
    ensures k in Update(s, k, r).data ==> Update(s, k, r).data[k] == r
  {
    StoreKeepsInStep(s, k, r);
    var s1 := Store(s, k, r).(size := Resized(s.size, s.data[k].size, r.size));
    BumpKeepsInStep(s1, k);
    assert k in Elements(s.order);
    FrontSurvivesTrimIff(Bump(s1, k));
  }

  lemma FrontSurvivesTrimIff(s: Shard)
    requires InStep(s) && s.order != []
    ensures s.order[0] in s.data
    ensures s.order[0] in Trim(s).data <==> s.data[s.order[0]].size <= s.capacity
    ensures s.order[0] in Trim(s).data ==> Trim(s).data[s.order[0]] == s.data[s.order[0]]
  {
    var k := s.order[0];
    assert k in Elements(s.order);
    var m := TrimShape(s);
    assert Weight(s, 1) == s.data[k].size;
    var c := Trim(s);
    assert k in c.data <==> k in Elements(c.order);
    if m >= 1 {
      WeightMonotone(s, 1, m);
      assert c.order[0] == k;
    } else {
      assert NoRoom(s, 0, 1);
    }
  }

  /** Set answers true for every update, but an update larger than the shard leaves nothing under the key. */
  lemma SetTrueMeansStoredIff(s: Shard, est: string -> int, k: string, r: Record)
    requires Valid(s) && 0 <= r.size < TWO63
    ensures Set(s, est, k, r).0 ==> (k in Set(s, est, k, r).1.data <==> r.size <= s.capacity)
    ensures k in Set(s, est, k, r).1.data ==> Set(s, est, k, r).0 && Set(s, est, k, r).1.data[k] == r
  {
    if k in s.data {
      UpdatedKeySurvivesIff(s, k, r);
    } else {
      AdmitKeepsValid(s, est, k, r.size);
    }
  }
}
