/** The mutable FlashDB: shards, the shared admission policy and the public operations of storage/flashdb/store.go. */
module FlashDb {
  import opened Collections
  import opened FlashRecord
  import L = Lru
  import S = Sketch
  import C = CountMin
  import Sh = FlashShard

  /** `est` is what the admission policy currently estimates for each key. */
  ghost predicate Estimates(lfu: C.TinyLFU<string>, est: string -> int)
    reads lfu.cms, lfu.cms.rows
  {
    lfu.Valid() && lfu.admitOnEq && forall k :: est(k) == S.Estimate(lfu.cms.p, lfu.cms.Cells(), lfu.hash(k))
  }

  method Admits(lfu: C.TinyLFU<string>, ghost est: string -> int, key: string, victim: string) returns (admit: bool)
    requires Estimates(lfu, est)
    ensures admit <==> est(key) >= est(victim)
  {
    admit := lfu.ShouldAdmit(key, victim);
  }

  /** One shard; every method is the section of the source that holds the shard's lock. */
  class Shard {
    const capacity: int
    const lru: L.Cache<string, ()>
    var data: map<string, Record>
    var currentSize: int

    ghost predicate Valid()
      reads this, lru
    {
      lru.Valid() && lru.cap == 0
    }

    ghost function View(): Sh.Shard
      reads this, lru
    {
      Sh.Shard(data, L.KeysOf(lru.ll), currentSize, capacity)
    }

    constructor (capacity: int)
      ensures Valid() && View() == Sh.Shard(map[], [], 0, capacity) && fresh(lru)
    {
      this.capacity := capacity;
      lru := new L.Cache(0, false);
      data, currentSize := map[], 0;
    }

    method RemoveLocked(key: string)
      requires Valid()
      modifies this, lru
      ensures Valid() && View() == Sh.RemoveLocked(old(View()), key)
    {
      L.KeysOfRemove(lru.ll, key);
      var record := if key in data then Some(data[key]) else None;
      data := data - {key};
      var _ := lru.Delete(key);
      if record.Some? {
        currentSize := Sh.Wrap64(currentSize - Sh.Clamp(record.value.size));
      }
    }

    method Bump(key: string)
      requires Valid()
      modifies lru
      ensures Valid() && View() == Sh.Bump(old(View()), key)
    {
      L.KeysOfTouch(lru.ll, key);
      var _ := lru.Get(key);
    }

    method Trim()
      requires Valid()
      modifies this, lru
      ensures Valid() && View() == Sh.Trim(old(View()))
    {
      while currentSize > capacity
        invariant Valid() && Sh.Trim(View()) == Sh.Trim(old(View()))
        decreases |lru.ll|
      {
        var vk := lru.TailKey();
        if vk.None? {
          break;
        }
        Sh.DropTailRemoves(View());
        RemoveLocked(vk.value);
      }
    }

    method Get(key: string, now: int) returns (value: Option<Fields>)
      requires Valid()
      modifies this, lru
      ensures Valid() && View() == Sh.Get(old(View()), now, key)
      ensures value == if Sh.Live(old(View()), now, key) then Some(old(data)[key].value) else None
    {
      if key !in data || IsExpired(data[key], now) {
        if key in data {
          RemoveLocked(key);
        }
        return None;
      }
      Bump(key);
      return Some(data[key].value);
    }

    /** Both sections with nothing between them. */
    method Exists(key: string, now: int) returns (found: bool)
      requires Valid()
      modifies this, lru
      ensures Valid() && View() == Sh.Expire(old(View()), now, key)
      ensures found <==> Sh.Live(old(View()), now, key)
    {
      var look := ExistsLook(key, now);
      if look.Some? {
        return look.value;
      }
      found := ExistsFinish(key, now);
    }

    method ExistsLook(key: string, now: int) returns (look: Option<bool>)
      ensures look == Sh.ExistsLook(View(), now, key)
    {
      if key !in data {
        return Some(false);
      }
      return if IsExpired(data[key], now) then None else Some(true);
    }

    method ExistsFinish(key: string, now: int) returns (found: bool)
      requires Valid()
      modifies this, lru
      ensures Valid() && (found, View()) == Sh.ExistsFinish(old(View()), now, key)
    {
      if key in data && IsExpired(data[key], now) {
        RemoveLocked(key);
        return false;
      }
      return true;
    }

    method Set(lfu: C.TinyLFU<string>, ghost est: string -> int, key: string, value: Fields, newSize: int, expiry: Option<int>)
      returns (stored: bool)
      requires Valid() && Estimates(lfu, est)
      modifies this, lru
      ensures Valid() && (stored, View()) == Sh.Set(old(View()), est, key, Record(value, newSize, expiry))
    {
      if key in data {
        Update(key, value, newSize, expiry);
        return true;
      }
      stored := AddNew(lfu, est, key, Record(value, newSize, expiry));
    }

    /** The branch of Set for a new key. */
    method AddNew(lfu: C.TinyLFU<string>, ghost est: string -> int, key: string, record: Record) returns (stored: bool)
      requires Valid() && Estimates(lfu, est)
      modifies this, lru
      ensures Valid() && (stored, View()) == Sh.Insert(old(View()), est, key, record)
    {
      var newCost := Sh.Clamp(record.size);
      if newCost > capacity {
        return false;
      }
      ghost var v := View();
      stored := MakeRoom(lfu, est, key, newCost);
      ghost var w := View();
      if stored {
        Insert(key, record, newCost);
      }
      Sh.InsertIs(v, est, key, record, stored, w);
    }

    method Update(key: string, value: Fields, newSize: int, expiry: Option<int>)
      requires Valid() && key in data
      modifies this, lru
      ensures Valid() && View() == Sh.Update(old(View()), key, Record(value, newSize, expiry))
    {
      if newSize >= 0 {
        Charge(data[key].size, newSize);
      }
      data := data[key := Record(value, newSize, expiry)];
      Bump(key);
      Trim();
    }

    method Charge(oldSize: int, newSize: int)
      modifies this`currentSize
      ensures currentSize == Sh.Resized(old(currentSize), oldSize, newSize)
    {
      if newSize >= oldSize {
        currentSize := Sh.Wrap64(currentSize + Sh.Clamp(newSize - oldSize));
      } else {
        currentSize := Sh.Wrap64(currentSize - Sh.Clamp(oldSize - newSize));
      }
    }

    method Insert(key: string, record: Record, newCost: int)
      requires Valid()
      modifies this, lru
      ensures Valid()
      ensures View() == Sh.Shard(old(data)[key := record], [key] + Without(old(View()).order, key), Sh.Wrap64(old(currentSize) + newCost), capacity)
    {
      ghost var order := L.KeysOf(lru.ll);
      L.KeysOfUnboundedPut(lru.ll, key, ());
      data := data[key := record];
      currentSize := Sh.Wrap64(currentSize + newCost);
      var _ := lru.Set(key, ());
      assert L.KeysOf(lru.ll) == [key] + Without(order, key);
    }

    /** The admission loop of Set. */
    method MakeRoom(lfu: C.TinyLFU<string>, ghost est: string -> int, key: string, newCost: int) returns (room: bool)
      requires Valid() && Estimates(lfu, est)
      modifies this, lru
      ensures Valid() && (room, View()) == Sh.Admit(old(View()), est, key, newCost)
    {
      ghost var v := View();
      ghost var goal := Sh.Admit(v, est, key, newCost);
      while OverBudget(newCost)
        invariant Valid() && View() == v && Sh.Admit(v, est, key, newCost) == goal
        decreases |v.order|
      {
        var evicted := AdmitOne(lfu, est, key, newCost);
        if !evicted {
          return false;
        }
        v := View();
      }
      Sh.AdmitStops(v, est, key, newCost);
      return true;
    }

    predicate OverBudget(cost: int): (full: bool)
      reads this, lru
      ensures full <==> Sh.IsFullAfter(View(), cost)
    {
      Sh.Wrap64(currentSize + cost) > capacity
    }

    /** One round of the loop, in a shard that is still too full. */
    method AdmitOne(lfu: C.TinyLFU<string>, ghost est: string -> int, key: string, newCost: int) returns (evicted: bool)
      requires Valid() && Estimates(lfu, est) && Sh.IsFullAfter(View(), newCost)
      modifies this, lru
      ensures Valid()
      ensures !evicted ==> Sh.Admit(old(View()), est, key, newCost) == (false, View())
      ensures evicted ==> |View().order| < |old(View()).order|
      ensures evicted ==> Sh.Admit(View(), est, key, newCost) == Sh.Admit(old(View()), est, key, newCost)
    {
      ghost var v := View();
      evicted := EvictFor(lfu, est, key);
      if evicted {
        Sh.AdmitEvicts(v, est, key, newCost);
      } else {
        Sh.AdmitStops(v, est, key, newCost);
      }
    }

    /** Drop the least recently used key, if there is one and it is no more popular than `key`. */
    method EvictFor(lfu: C.TinyLFU<string>, ghost est: string -> int, key: string) returns (evicted: bool)
      requires Valid() && Estimates(lfu, est)
      modifies this, lru
      ensures Valid()
      ensures evicted <==> old(View()).order != [] && est(key) >= est(Last(old(View()).order))
      ensures View() == if evicted then Sh.DropTail(old(View())) else old(View())
    {
      var vk := lru.TailKey();
      if vk.None? {
        return false;
      }
      var admit := Admits(lfu, est, key, vk.value);
      if !admit {
        return false;
      }
      Sh.DropTailRemoves(View());
      RemoveLocked(vk.value);
      return true;
    }

    method Delete(key: string) returns (existed: bool)
      requires Valid()
      modifies this, lru
      ensures Valid() && (existed, View()) == Sh.Delete(old(View()), key)
    {
      if key !in data {
        return false;
      }
      RemoveLocked(key);
      return true;
    }

    method Increment(key: string, offsets: seq<(string, int)>, now: int) returns (status: Status)
      requires Valid()
      modifies this, lru
      ensures Valid() && (status, View()) == Sh.Increment(old(View()), now, key, offsets)
    {
      if key !in data || IsExpired(data[key], now) {
        if key in data {
          RemoveLocked(key);
        }
        return NotFound;
      }
      for i := 0 to |offsets|
        invariant Valid() && key in data && lru.ll == old(lru.ll)
        invariant View() == Sh.Store(old(View()), key, old(data)[key].(value := data[key].value))
        invariant IncrementFields(data[key].value, offsets[i..]) == IncrementFields(old(data)[key].value, offsets)
      {
        var (field, delta) := offsets[i];
        assert offsets[i..][0] == offsets[i] && offsets[i..][1..] == offsets[i+1..];
        var value := data[key].value;
        if field !in value {
          return IllegalField;
        }
        var next := AddInt(value[field], delta);
        if next.None? {
          return BadType;
        }
        data := data[key := data[key].(value := value[field := next.value])];
      }
      Bump(key);
      return Ok;
    }

    method Append(key: string, appends: seq<(string, string)>, now: int) returns (status: Status)
      requires Valid()
      modifies this, lru
      ensures Valid() && (status, View()) == Sh.Append(old(View()), now, key, appends)
    {
      if key !in data || IsExpired(data[key], now) {
        if key in data {
          RemoveLocked(key);
        }
        return NotFound;
      }
      for i := 0 to |appends|
        invariant Valid() && key in data && lru.ll == old(lru.ll)
        invariant View() == Sh.Store(old(View()), key, old(data)[key].(value := data[key].value))
        invariant AppendFields(data[key].value, appends[i..]) == AppendFields(old(data)[key].value, appends)
      {
        var (field, suffix) := appends[i];
        assert appends[i..][0] == appends[i] && appends[i..][1..] == appends[i+1..];
        var value := data[key].value;
        if field !in value {
          return IllegalField;
        }
        if !value[field].Str? {
          return BadType;
        }
        data := data[key := data[key].(value := value[field := Str(value[field].s + suffix)])];
      }
      assert appends[|appends|..] == [];
      var oldSize := data[key].size;
      var newSize := ComputeSizeOf(key, data[key].value);
      Charge(oldSize, newSize);
      data := data[key := data[key].(size := newSize)];
      assert data == old(data)[key := AppendRecord(key, old(data)[key], appends).0];
      Bump(key);
      Trim();
      return Ok;
    }

    method SetTTL(key: string, ttl: int, now: int) returns (status: Status)
      requires Valid()
      modifies this, lru
      ensures Valid() && (status, View()) == Sh.SetTTL(old(View()), now, key, ttl)
    {
      if key !in data || IsExpired(data[key], now) {
        if key in data {
          RemoveLocked(key);
        }
        return NotFound;
      }
      data := data[key := data[key].(expiry := if ttl <= 0 then None else Some(now + ttl))];
      Bump(key);
      return Ok;
    }

    method GetTTL(key: string, now: int, later: int) returns (seconds: Option<int>)
      requires Valid()
      modifies this, lru
      ensures Valid() && (seconds, View()) == Sh.GetTTL(old(View()), now, later, key)
    {
      if key !in data || IsExpired(data[key], now) {
        if key in data {
          RemoveLocked(key);
        }
        return None;
      }
      if data[key].expiry.None? {
        return Some(-1);
      }
      var secs := Sh.WholeSeconds(data[key].expiry.value - later);
      if secs < 0 {
        RemoveLocked(key);
        return None;
      }
      return Some(secs);
    }

    /** One janitor pass over this shard; `keys` is the order in which the runtime visits the map. */
    method Sweep(now: int, keys: seq<string>, maxDelete: nat)
      requires Valid()
      modifies this, lru
      ensures Valid() && View() == Sh.Sweep(old(View()), now, keys, maxDelete)
    {
      var deleted := 0;
      for i := 0 to |keys|
        invariant Valid() && (deleted == 0 || deleted < maxDelete)
        invariant Sh.Sweep(View(), now, keys[i..], if deleted <= maxDelete then maxDelete - deleted else 0) == Sh.Sweep(old(View()), now, keys, maxDelete)
      {
        assert keys[i..][0] == keys[i] && keys[i..][1..] == keys[i+1..];
        if keys[i] in data && data[keys[i]].expiry.Some? && now > data[keys[i]].expiry.value {
          RemoveLocked(keys[i]);
          deleted := deleted + 1;
          if deleted >= maxDelete {
            break;
          }
        }
      }
    }
  }
}
