/** The FlashDB store: dispatch of every operation to the key's shard. */
module FlashDbStore {
  import opened Collections
  import opened FlashRecord
  import opened Widths
  import L = Lru
  import S = Sketch
  import C = CountMin
  import Sh = FlashShard
  import FS = FlashStore
  import opened FlashDb

  class Store {
    const cfg: FS.Config
    const shards: seq<Shard>
    const lfu: C.TinyLFU<string>

    /** The LRU lists of the shards. */
    ghost const lrus: seq<L.Cache<string, ()>>
    /** The store as a value. */
    ghost var view: FS.Store

    ghost predicate Wired() {
      && cfg.Valid()
      && |shards| == cfg.shards == |lrus|
      && (forall i :: 0 <= i < |shards| ==> lrus[i] == shards[i].lru)
      && (forall i, j :: 0 <= i < j < |shards| ==> shards[i] != shards[j])
      && (forall i, j :: 0 <= i < j < |lrus| ==> lrus[i] != lrus[j])
      && lfu.cms.p == cfg.p && lfu.hash == cfg.hash && lfu.admitOnEq
    }

    /** Shard `i` is well formed and is what the view says. */
    ghost predicate ShardOk(i: nat)
      requires Wired() && i < |shards|
      reads this, shards, lrus
    {
      assert lrus[i] == shards[i].lru;
      i < |view.shards| && shards[i].Valid() && shards[i].View() == view.shards[i]
    }

    ghost predicate Valid()
      reads this, shards, lrus, lfu.cms, lfu.cms.rows
    {
      && Wired()
      && FS.Shaped(cfg, view)
      && (forall i :: 0 <= i < |shards| ==> ShardOk(i))
      && lfu.Valid() && lfu.View() == view.sketch
    }

    /** The store itself, once the options have been accepted. */
    constructor (cfg: FS.Config)
      requires cfg.Valid()
      ensures Valid() && this.cfg == cfg && view == FS.Init(cfg)
      ensures fresh(shards) && fresh(lrus) && fresh(lfu) && fresh(lfu.cms) && fresh(lfu.cms.rows)
    {
      this.cfg := cfg;
      var cms := new C.CountMinSketch(cfg.p);
      lfu := new C.TinyLFU(cms, cfg.hash, true);
      var made, owned := NewShards(cfg);
      shards, lrus := made, owned;
      view := FS.Init(cfg);
    }

    static method NewShards(cfg: FS.Config) returns (made: seq<Shard>, ghost owned: seq<L.Cache<string, ()>>)
      requires cfg.shards > 0
      ensures |made| == |owned| == cfg.shards && fresh(made) && fresh(owned)
      ensures forall i :: 0 <= i < |made| ==> owned[i] == made[i].lru
      ensures forall i, j :: 0 <= i < j < |made| ==> made[i] != made[j]
      ensures forall i, j :: 0 <= i < j < |owned| ==> owned[i] != owned[j]
      ensures forall i :: 0 <= i < |made| ==> made[i].Valid() && made[i].View() == FS.Empty(cfg)
    {
      made, owned := [], [];
      while |made| < cfg.shards
        invariant |made| == |owned| <= cfg.shards && fresh(made) && fresh(owned)
        invariant forall i :: 0 <= i < |made| ==> owned[i] == made[i].lru
        invariant forall i, j :: 0 <= i < j < |made| ==> made[i] != made[j]
        invariant forall i, j :: 0 <= i < j < |owned| ==> owned[i] != owned[j]
        invariant forall i :: 0 <= i < |made| ==> made[i].Valid() && made[i].View() == FS.Empty(cfg)
      {
        var shard := new Shard(cfg.PerShard());
        made := made + [shard];
        owned := owned + [shard.lru];
      }
    }

    method ShardFor(key: string) returns (i: nat)
      requires Wired()
      ensures i == cfg.Home(key) < |shards|
    {
      S.ModIsRemainder(cfg.fnv(key), cfg.shards);
      i := cfg.fnv(key) % cfg.shards;
    }

    /** When shard `i` has changed and nothing else, updating the view in that place restores validity. */
    twostate lemma OnlyShard(i: nat)
      requires old(Valid()) && i < |shards|
      requires forall j :: 0 <= j < |shards| && j != i ==> unchanged(shards[j]) && unchanged(lrus[j])
      requires unchanged(lfu.cms) && unchanged(lfu.cms.rows)
      requires shards[i].Valid() && view == old(view).(shards := old(view).shards[i := shards[i].View()])
      ensures Valid()
    {
      forall j | 0 <= j < |shards| ensures ShardOk(j) {
        assert old(ShardOk(j));
        if j != i { assert unchanged(shards[j]) && unchanged(lrus[j]); }
      }
    }

    /** Tell the sketch about an access. */
    method RecordAccess(key: string)
      requires Valid()
      modifies this`view, lfu.cms, lfu.cms.rows
      ensures Valid() && view == old(view).(sketch := S.Step(cfg.p, old(view).sketch, S.Inc(cfg.hash(key))))
    {
      lfu.Record(key);
      view := view.(sketch := S.Step(cfg.p, view.sketch, S.Inc(cfg.hash(key))));
      forall j | 0 <= j < |shards| ensures ShardOk(j) {
        assert old(ShardOk(j));
      }
    }

    // ---------- One shard at a time ----------

    method GetAt(i: nat, key: string, now: int) returns (value: Option<Fields>)
      requires Valid() && i < |shards|
      modifies this`view, shards, lrus
      ensures Valid() && view == old(view).(shards := old(view).shards[i := Sh.Get(old(view).shards[i], now, key)])
      ensures value == if Sh.Live(old(view).shards[i], now, key) then Some(old(view).shards[i].data[key].value) else None
    {
      assert ShardOk(i) && lrus[i] == shards[i].lru;
      value := shards[i].Get(key, now);
      view := view.(shards := view.shards[i := shards[i].View()]);
      OnlyShard(i);
    }

    method ExistsAt(i: nat, key: string, now: int) returns (found: bool)
      requires Valid() && i < |shards|
      modifies this`view, shards, lrus
      ensures Valid() && view == old(view).(shards := old(view).shards[i := Sh.Expire(old(view).shards[i], now, key)])
      ensures found <==> Sh.Live(old(view).shards[i], now, key)
    {
      assert ShardOk(i) && lrus[i] == shards[i].lru;
      found := shards[i].Exists(key, now);
      view := view.(shards := view.shards[i := shards[i].View()]);
      OnlyShard(i);
    }

    method DeleteAt(i: nat, key: string) returns (existed: bool)
      requires Valid() && i < |shards|
      modifies this`view, shards, lrus
      ensures Valid() && view == old(view).(shards := old(view).shards[i := Sh.Delete(old(view).shards[i], key).1])
      ensures existed == Sh.Delete(old(view).shards[i], key).0
    {
      assert ShardOk(i) && lrus[i] == shards[i].lru;
      existed := shards[i].Delete(key);
      view := view.(shards := view.shards[i := shards[i].View()]);
      OnlyShard(i);
    }

    method IncrementAt(i: nat, key: string, offsets: seq<(string, int)>, now: int) returns (status: Status)
      requires Valid() && i < |shards|
      modifies this`view, shards, lrus
      ensures Valid() && view == old(view).(shards := old(view).shards[i := Sh.Increment(old(view).shards[i], now, key, offsets).1])
      ensures status == Sh.Increment(old(view).shards[i], now, key, offsets).0
    {
      assert ShardOk(i) && lrus[i] == shards[i].lru;
      status := shards[i].Increment(key, offsets, now);
      view := view.(shards := view.shards[i := shards[i].View()]);
      OnlyShard(i);
    }

    method AppendAt(i: nat, key: string, appends: seq<(string, string)>, now: int) returns (status: Status)
      requires Valid() && i < |shards|
      modifies this`view, shards, lrus
      ensures Valid() && view == old(view).(shards := old(view).shards[i := Sh.Append(old(view).shards[i], now, key, appends).1])
      ensures status == Sh.Append(old(view).shards[i], now, key, appends).0
    {
      assert ShardOk(i) && lrus[i] == shards[i].lru;
      status := shards[i].Append(key, appends, now);
      view := view.(shards := view.shards[i := shards[i].View()]);
      OnlyShard(i);
    }

    method SetTTLAt(i: nat, key: string, ttl: int, now: int) returns (status: Status)
      requires Valid() && i < |shards|
      modifies this`view, shards, lrus
      ensures Valid() && view == old(view).(shards := old(view).shards[i := Sh.SetTTL(old(view).shards[i], now, key, ttl).1])
      ensures status == Sh.SetTTL(old(view).shards[i], now, key, ttl).0
    {
      assert ShardOk(i) && lrus[i] == shards[i].lru;
      status := shards[i].SetTTL(key, ttl, now);
      view := view.(shards := view.shards[i := shards[i].View()]);
      OnlyShard(i);
    }

    method GetTTLAt(i: nat, key: string, now: int, later: int) returns (seconds: Option<int>)
      requires Valid() && i < |shards|
      modifies this`view, shards, lrus
      ensures Valid() && view == old(view).(shards := old(view).shards[i := Sh.GetTTL(old(view).shards[i], now, later, key).1])
      ensures seconds == Sh.GetTTL(old(view).shards[i], now, later, key).0
    {
      assert ShardOk(i) && lrus[i] == shards[i].lru;
      seconds := shards[i].GetTTL(key, now, later);
      view := view.(shards := view.shards[i := shards[i].View()]);
      OnlyShard(i);
    }

    method SweepAt(i: nat, now: int, keys: seq<string>)
      requires Valid() && i < |shards|
      modifies this`view, shards, lrus
      ensures Valid() && view == old(view).(shards := old(view).shards[i := Sh.Sweep(old(view).shards[i], now, keys, cfg.sweepBudget)])
    {
      assert ShardOk(i) && lrus[i] == shards[i].lru;
      shards[i].Sweep(now, keys, cfg.sweepBudget);
      view := view.(shards := view.shards[i := shards[i].View()]);
      OnlyShard(i);
    }

    method SetAt(i: nat, key: string, value: Fields, newSize: int, expiry: Option<int>) returns (stored: bool)
      requires Valid() && i < |shards|
      modifies this`view, shards, lrus
      ensures Valid()
      ensures var r := Sh.Set(old(view).shards[i], FS.Est(cfg, old(view).sketch), key, Record(value, newSize, expiry));
              stored == r.0 && view == old(view).(shards := old(view).shards[i := r.1])
    {
      assert ShardOk(i) && lrus[i] == shards[i].lru;
      stored := shards[i].Set(lfu, FS.Est(cfg, view.sketch), key, value, newSize, expiry);
      view := view.(shards := view.shards[i := shards[i].View()]);
      OnlyShard(i);
    }

    // ---------- The public operations ----------

    method Get(key: string, now: int) returns (status: Status, value: Option<Fields>)
      requires Valid()
      modifies this`view, shards, lrus, lfu.cms, lfu.cms.rows
      ensures Valid() && view == FS.Step(cfg, old(view), now, FS.GetOp(key))
      ensures value == FS.Lookup(cfg, old(view), now, key)
      ensures status == if key == "" then InvalidKey else if value.Some? then Ok else NotFound
    {
      if key == "" {
        return InvalidKey, None;
      }
      var i := ShardFor(key);
      value := GetAt(i, key, now);
      if value.None? {
        return NotFound, None;
      }
      RecordAccess(key);
      return Ok, value;
    }

    method Exists(key: string, now: int) returns (status: Status, found: bool)
      requires Valid()
      modifies this`view, shards, lrus
      ensures Valid() && view == FS.Step(cfg, old(view), now, FS.ExistsOp(key))
      ensures found <==> FS.Lookup(cfg, old(view), now, key).Some?
      ensures status == if key == "" then InvalidKey else Ok
    {
      if key == "" {
        return InvalidKey, false;
      }
      var i := ShardFor(key);
      found := ExistsAt(i, key, now);
      return Ok, found;
    }

    /** True if stored, false if rejected; FlashShard.SetTrueMeansStoredIff says what true means. */
    method Set(key: string, value: Fields, ttl: int, now: int) returns (status: Status, stored: bool)
      requires Valid()
      modifies this`view, shards, lrus, lfu.cms, lfu.cms.rows
      ensures Valid() && view == FS.Step(cfg, old(view), now, FS.SetOp(key, value, ttl))
      ensures key == "" ==> status == InvalidKey && !stored
      ensures key != "" ==> status == Ok && stored == FS.SetAnswer(cfg, old(view), now, key, value, ttl)
    {
      if key == "" {
        return InvalidKey, false;
      }
      var i := ShardFor(key);
      var lifetime := if ttl == 0 && cfg.defaultTTL > 0 then cfg.defaultTTL else ttl;
      var expiry := if lifetime > 0 then Some(now + lifetime) else None;
      var newSize := ComputeSizeOf(key, value);
      assert Record(value, newSize, expiry) == FS.NewRecord(cfg, now, key, value, ttl);
      FS.SetStep(cfg, view, now, key, value, ttl);
      RecordAccess(key);
      stored := SetAt(i, key, value, newSize, expiry);
      return Ok, stored;
    }

    method Delete(key: string, now: int) returns (status: Status, existed: bool)
      requires Valid()
      modifies this`view, shards, lrus
      ensures Valid() && view == FS.Step(cfg, old(view), now, FS.DeleteOp(key))
      ensures existed <==> key != "" && key in old(view).shards[cfg.Home(key)].data
      ensures status == if key == "" then InvalidKey else Ok
    {
      if key == "" {
        return InvalidKey, false;
      }
      var i := ShardFor(key);
      existed := DeleteAt(i, key);
      return Ok, existed;
    }

    method Increment(key: string, offsets: seq<(string, int)>, now: int) returns (status: Status)
      requires Valid()
      modifies this`view, shards, lrus, lfu.cms, lfu.cms.rows
      ensures Valid() && view == FS.Step(cfg, old(view), now, FS.IncrementOp(key, offsets))
      ensures status == if key == "" then InvalidKey else Sh.Increment(old(view).shards[cfg.Home(key)], now, key, offsets).0
    {
      if key == "" {
        return InvalidKey;
      }
      var i := ShardFor(key);
      FS.IncrementStep(cfg, view, now, key, offsets);
      status := IncrementAt(i, key, offsets, now);
      if status.Ok? {
        RecordAccess(key);
      }
    }

    method Decrement(key: string, offsets: seq<(string, int)>, now: int) returns (status: Status)
      requires Valid()
      modifies this`view, shards, lrus, lfu.cms, lfu.cms.rows
      ensures Valid() && view == FS.Step(cfg, old(view), now, FS.IncrementOp(key, Negated(offsets)))
      ensures status == if key == "" then InvalidKey
                        else Sh.Increment(old(view).shards[cfg.Home(key)], now, key, Negated(offsets)).0
    {
      var negative := Negate(offsets);
      status := Increment(key, negative, now);
    }

    static method Negate(offsets: seq<(string, int)>) returns (negative: seq<(string, int)>)
      ensures negative == Negated(offsets)
    {
      negative := [];
      for i := 0 to |offsets|
        invariant negative == Negated(offsets)[..i]
      {
        negative := negative + [(offsets[i].0, WrapInt64(-offsets[i].1))];
      }
    }

    method Append(key: string, appends: seq<(string, string)>, now: int) returns (status: Status)
      requires Valid()
      modifies this`view, shards, lrus, lfu.cms, lfu.cms.rows
      ensures Valid() && view == FS.Step(cfg, old(view), now, FS.AppendOp(key, appends))
      ensures status == if key == "" then InvalidKey else Sh.Append(old(view).shards[cfg.Home(key)], now, key, appends).0
    {
      if key == "" {
        return InvalidKey;
      }
      var i := ShardFor(key);
      FS.AppendStep(cfg, view, now, key, appends);
      status := AppendAt(i, key, appends, now);
      if status.Ok? {
        RecordAccess(key);
      }
    }

    method GetTTL(key: string, now: int, later: int) returns (status: Status, seconds: int)
      requires Valid()
      modifies this`view, shards, lrus
      ensures Valid() && view == FS.Step(cfg, old(view), now, FS.GetTTLOp(key, later))
      ensures key == "" ==> status == InvalidKey && seconds == 0
      ensures key != "" ==> var r := Sh.GetTTL(old(view).shards[cfg.Home(key)], now, later, key).0;
                            if r.Some? then status == Ok && seconds == r.value else status == NotFound && seconds == 0
    {
      if key == "" {
        return InvalidKey, 0;
      }
      var i := ShardFor(key);
      var r := GetTTLAt(i, key, now, later);
      if r.None? {
        return NotFound, 0;
      }
      return Ok, r.value;
    }

    method SetTTL(key: string, ttl: int, now: int) returns (status: Status)
      requires Valid()
      modifies this`view, shards, lrus, lfu.cms, lfu.cms.rows
      ensures Valid() && view == FS.Step(cfg, old(view), now, FS.SetTTLOp(key, ttl))
      ensures status == if key == "" then InvalidKey else if FS.Lookup(cfg, old(view), now, key).Some? then Ok else NotFound
    {
      if key == "" {
        return InvalidKey;
      }
      var i := ShardFor(key);
      FS.SetTTLStep(cfg, view, now, key, ttl);
      status := SetTTLAt(i, key, ttl, now);
      if status.Ok? {
        RecordAccess(key);
      }
    }

    /** One tick of the janitor; `orders` holds the order in which the runtime visits each shard's map. */
    method JanitorTick(now: int, orders: seq<seq<string>>)
      requires Valid() && |orders| == |shards|
      modifies this`view, shards, lrus
      ensures Valid() && view == FS.Tick(cfg, old(view), now, orders, cfg.shards)
    {
      for i := 0 to |shards|
        invariant Valid() && view == FS.Tick(cfg, old(view), now, orders, i)
      {
        SweepAt(i, now, orders[i]);
      }
    }
  }

  // Construction from options

  const SHARD_COUNT: nat := 128
  const MAX_DELETE_PER_SHARD: nat := 1024

  datatype Options = Options(shards: nat, maxStorage: nat, defaultTTL: int, lfuDepth: int, lfuWidth: nat, lfuAgingEvery: nat)

  function OrElse(x: int, d: int): int {
    if x == 0 then d else x
  }

  function WithDefaults(o: Options): Options {
    o.(shards := OrElse(o.shards, SHARD_COUNT), lfuDepth := OrElse(o.lfuDepth, 4),
       lfuWidth := OrElse(o.lfuWidth, 0x1_0000), lfuAgingEvery := OrElse(o.lfuAgingEvery, 200_000))
  }

  /** What fits the types of the options. A budget of more than 2^63 bytes a shard is FlashShard.AdmissionTestExactIff's. */
  ghost predicate Fits(o: Options) {
    && o.shards < 256 && o.maxStorage < TWO64 && o.lfuWidth < TWO64 && o.lfuAgingEvery < TWO64
    && o.maxStorage / OrElse(o.shards, SHARD_COUNT) <= TWO63
  }

  /** Refuses exactly depths outside 0..8, widths in 1..15 and a missing budget; 0 stands for the default. */
  method New(o: Options, fnv: string -> nat, hash: string -> nat, mix: (nat, nat) -> nat) returns (s: Option<Store>)
    requires Fits(o)
    ensures s.Some? <==> 0 <= o.lfuDepth <= 8 && (o.lfuWidth == 0 || o.lfuWidth >= 16) && o.maxStorage > 0
    ensures s.Some? ==>
      var d, cfg := WithDefaults(o), s.value.cfg;
      && s.value.Valid() && s.value.view == FS.Init(cfg)
      && cfg.shards == d.shards && cfg.maxStorage == d.maxStorage && cfg.defaultTTL == d.defaultTTL
      && cfg.p == S.Params(d.lfuDepth, d.lfuWidth, d.lfuAgingEvery, mix) && cfg.fnv == fnv && cfg.hash == hash
  {
    var d := WithDefaults(o);
    if d.lfuDepth <= 0 || d.lfuDepth > 8 || d.lfuWidth < 16 {
      return None;
    }
    if d.maxStorage == 0 {
      return None;
    }
    var p := S.Params(d.lfuDepth, d.lfuWidth, d.lfuAgingEvery, mix);
    var store := new Store(FS.Config(d.shards, fnv, d.maxStorage, d.defaultTTL, p, hash, MAX_DELETE_PER_SHARD));
    return Some(store);
  }
}
