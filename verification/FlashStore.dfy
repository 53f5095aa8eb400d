/**
 The whole FlashDB store as a value: shards chosen by key hash, one shared
 popularity sketch, and runs of timestamped operations, compared with an ideal
 map that has no capacity and never forgets.
 */
module FlashStore {
  import opened Collections
  import opened FlashRecord
  import opened Widths
  import Sh = FlashShard
  import S = Sketch

  datatype Config = Config(shards: nat, fnv: string -> nat, maxStorage: int, defaultTTL: int,
                           p: S.Params, hash: string -> nat, sweepBudget: nat) {
    ghost predicate Valid() {
      1 <= shards && 0 < maxStorage < TWO64 && PerShard() <= TWO63 && p.Valid()
    }

    function PerShard(): int
      requires shards > 0
    {
      maxStorage / shards
    }

    /** shardFor */
    function Home(k: string): (i: nat)
      requires shards > 0
      ensures i < shards
    {
      S.Mod(fnv(k), shards)
    }

    function TTL(ttl: int): int {
      if ttl == 0 && defaultTTL > 0 then defaultTTL else ttl
    }
  }

  datatype Store = Store(shards: seq<Sh.Shard>, sketch: S.State)

  datatype Op =
    | SetOp(key: string, value: Fields, ttl: int)
    | GetOp(key: string)
    | ExistsOp(key: string)
    | DeleteOp(key: string)
    | IncrementOp(key: string, offsets: seq<(string, int)>)
    | AppendOp(key: string, appends: seq<(string, string)>)
    | SetTTLOp(key: string, ttl: int)
    | GetTTLOp(key: string, later: int)
    | SweepOp(shard: nat, keys: seq<string>)

  ghost function NewRecord(cfg: Config, now: int, key: string, value: Fields, ttl: int): Record {
    Record(value, ComputeSize(key, value), Sh.Deadline(now, cfg.TTL(ttl)))
  }

  // ---------- One operation ----------

  ghost function ShardStep(cfg: Config, s: Sh.Shard, est: string -> int, now: int, op: Op): Sh.Shard {
    match op
    case SetOp(k, v, ttl) => Sh.Set(s, est, k, NewRecord(cfg, now, k, v, ttl)).1
    case GetOp(k) => Sh.Get(s, now, k)
    case ExistsOp(k) => Sh.Expire(s, now, k)
    case DeleteOp(k) => Sh.Delete(s, k).1
    case IncrementOp(k, offsets) => Sh.Increment(s, now, k, offsets).1
    case AppendOp(k, appends) => Sh.Append(s, now, k, appends).1
    case SetTTLOp(k, ttl) => Sh.SetTTL(s, now, k, ttl).1
    case GetTTLOp(k, later) => Sh.GetTTL(s, now, later, k).1
    case SweepOp(_, keys) => Sh.Sweep(s, now, keys, cfg.sweepBudget)
  }

  /** Does the operation report an access to the sketch? */
  ghost predicate Records(s: Sh.Shard, now: int, op: Op) {
    match op
    case SetOp(_, _, _) => true
    case GetOp(k) => Sh.Live(s, now, k)
    case IncrementOp(k, offsets) => Sh.Increment(s, now, k, offsets).0.Ok?
    case AppendOp(k, appends) => Sh.Append(s, now, k, appends).0.Ok?
    case SetTTLOp(k, ttl) => Sh.SetTTL(s, now, k, ttl).0.Ok?
    case _ => false
  }

  ghost function Est(cfg: Config, sketch: S.State): string -> int
    requires cfg.p.Valid() && S.Shaped(cfg.p, sketch.rows)
  {
    k => S.Estimate(cfg.p, sketch.rows, cfg.hash(k))
  }

  /** The shard an operation works on, if any. */
  function Target(cfg: Config, op: Op): Option<nat>
    requires cfg.shards > 0
  {
    if op.SweepOp? then (if op.shard < cfg.shards then Some(op.shard) else None)
    else if op.key == "" then None
    else Some(cfg.Home(op.key))
  }

  ghost predicate Shaped(cfg: Config, st: Store) {
    cfg.Valid() && |st.shards| == cfg.shards && S.Shaped(cfg.p, st.sketch.rows)
  }

  ghost function Step(cfg: Config, st: Store, now: int, op: Op): (st': Store)
    requires Shaped(cfg, st)
    ensures Shaped(cfg, st')
  {
    match Target(cfg, op)
    case None => st
    case Some(i) =>
      var sketch := if Records(st.shards[i], now, op) then S.Step(cfg.p, st.sketch, S.Inc(cfg.hash(op.key))) else st.sketch;
      Store(st.shards[i := ShardStep(cfg, st.shards[i], Est(cfg, sketch), now, op)], sketch)
  }

  /** What Set answers: the access is recorded first, then the shard decides. */
  ghost predicate SetAnswer(cfg: Config, st: Store, now: int, k: string, value: Fields, ttl: int)
    requires Shaped(cfg, st)
  {
    var sketch := S.Step(cfg.p, st.sketch, S.Inc(cfg.hash(k)));
    Sh.Set(st.shards[cfg.Home(k)], Est(cfg, sketch), k, NewRecord(cfg, now, k, value, ttl)).0
  }

  lemma SetStep(cfg: Config, st: Store, now: int, k: string, value: Fields, ttl: int)
    requires Shaped(cfg, st) && k != ""
    ensures var sketch := S.Step(cfg.p, st.sketch, S.Inc(cfg.hash(k)));
            var r := Sh.Set(st.shards[cfg.Home(k)], Est(cfg, sketch), k, NewRecord(cfg, now, k, value, ttl));
            && Step(cfg, st, now, SetOp(k, value, ttl)) == Store(st.shards[cfg.Home(k) := r.1], sketch)
            && SetAnswer(cfg, st, now, k, value, ttl) == r.0
  {
  }

  lemma AppendStep(cfg: Config, st: Store, now: int, k: string, appends: seq<(string, string)>)
    requires Shaped(cfg, st) && k != ""
    ensures var r := Sh.Append(st.shards[cfg.Home(k)], now, k, appends);
            Step(cfg, st, now, AppendOp(k, appends)) ==
            Store(st.shards[cfg.Home(k) := r.1],
                  if r.0.Ok? then S.Step(cfg.p, st.sketch, S.Inc(cfg.hash(k))) else st.sketch)
  {
  }

  lemma IncrementStep(cfg: Config, st: Store, now: int, k: string, offsets: seq<(string, int)>)
    requires Shaped(cfg, st) && k != ""
    ensures var r := Sh.Increment(st.shards[cfg.Home(k)], now, k, offsets);
            Step(cfg, st, now, IncrementOp(k, offsets)) ==
            Store(st.shards[cfg.Home(k) := r.1],
                  if r.0.Ok? then S.Step(cfg.p, st.sketch, S.Inc(cfg.hash(k))) else st.sketch)
  {
  }

  lemma SetTTLStep(cfg: Config, st: Store, now: int, k: string, ttl: int)
    requires Shaped(cfg, st) && k != ""
    ensures var r := Sh.SetTTL(st.shards[cfg.Home(k)], now, k, ttl);
            && r.0 == (if Lookup(cfg, st, now, k).Some? then Ok else NotFound)
            && Step(cfg, st, now, SetTTLOp(k, ttl)) ==
               Store(st.shards[cfg.Home(k) := r.1],
                     if r.0.Ok? then S.Step(cfg.p, st.sketch, S.Inc(cfg.hash(k))) else st.sketch)
  {
  }

  // ---------- The ideal map ----------

  type Ideal = map<string, Record>

  predicate Alive(ideal: Ideal, now: int, k: string) {
    k in ideal && !IsExpired(ideal[k], now)
  }

  ghost function IdealStep(cfg: Config, ideal: Ideal, now: int, op: Op): Ideal {
    match op
    case SetOp(k, v, ttl) => if k == "" then ideal else ideal[k := NewRecord(cfg, now, k, v, ttl)]
    case DeleteOp(k) => if k == "" then ideal else ideal - {k}
    case IncrementOp(k, offsets) =>
      if k != "" && Alive(ideal, now, k) then ideal[k := IncrementRecord(ideal[k], offsets).0] else ideal
    case AppendOp(k, appends) =>
      if k != "" && Alive(ideal, now, k) then ideal[k := AppendRecord(k, ideal[k], appends).0] else ideal
    case SetTTLOp(k, ttl) =>
      if k != "" && Alive(ideal, now, k) then ideal[k := ideal[k].(expiry := Sh.Deadline(now, ttl))] else ideal
    case _ => ideal
  }

  /** No computed size has overflowed int64. */
  ghost predicate SizesFit(ideal: Ideal) {
    forall k :: k in ideal ==> 0 <= ideal[k].size < TWO63
  }

  // ---------- The loops only drop records ----------

  lemma {:induction false} TrimOnlyDrops(s: Sh.Shard)
    ensures Sh.SubMap(Sh.Trim(s).data, s.data)
    decreases |s.order|
  {
    if Sh.IsFull(s) && s.order != [] { TrimOnlyDrops(Sh.DropTail(s)); }
  }

  lemma {:induction false} AdmitOnlyDrops(s: Sh.Shard, est: string -> int, k: string, cost: int)
    ensures Sh.SubMap(Sh.Admit(s, est, k, cost).1.data, s.data)
    decreases |s.order|
  {
    if Sh.IsFullAfter(s, cost) && s.order != [] && est(k) >= est(Last(s.order)) {
      AdmitOnlyDrops(Sh.DropTail(s), est, k, cost);
    }
  }

  lemma {:induction false} SweepOnlyDropsExpired(s: Sh.Shard, now: int, keys: seq<string>, budget: nat)
    ensures Sh.SubMap(Sh.Sweep(s, now, keys, budget).data, s.data)
    ensures forall k :: k in s.data && k !in Sh.Sweep(s, now, keys, budget).data ==> IsExpired(s.data[k], now)
    decreases |keys|
  {
    if keys != [] {
      if keys[0] in s.data && IsExpired(s.data[keys[0]], now) {
        if budget > 1 { SweepOnlyDropsExpired(Sh.RemoveLocked(s, keys[0]), now, keys[1..], budget - 1); }
      } else {
        SweepOnlyDropsExpired(s, now, keys[1..], budget);
      }
    }
  }

  // ---------- One shard keeps up with the ideal map ----------

  ghost predicate Tracks(s: Sh.Shard, ideal: Ideal) {
    Sh.Valid(s) && Sh.SubMap(s.data, ideal)
  }

  lemma SetTracks(cfg: Config, s: Sh.Shard, ideal: Ideal, est: string -> int, k: string, r: Record)
    requires Tracks(s, ideal) && 0 <= r.size < TWO63
    ensures Tracks(Sh.Set(s, est, k, r).1, ideal[k := r])
  {
    Sh.SetKeepsValid(s, est, k, r);
    if k in s.data {
      var size := if r.size >= 0 then Sh.Resized(s.size, s.data[k].size, r.size) else s.size;
      TrimOnlyDrops(Sh.Bump(Sh.Store(s, k, r).(size := size), k));
    } else {
      AdmitOnlyDrops(s, est, k, Sh.Clamp(r.size));
    }
  }

  lemma IncrementTracks(s: Sh.Shard, ideal: Ideal, now: int, k: string, offsets: seq<(string, int)>)
    requires Tracks(s, ideal)
    ensures Tracks(Sh.Increment(s, now, k, offsets).1,
                   if Alive(ideal, now, k) then ideal[k := IncrementRecord(ideal[k], offsets).0] else ideal)
  {
    Sh.IncrementKeepsValid(s, now, k, offsets);
  }

  lemma AppendTracks(s: Sh.Shard, ideal: Ideal, now: int, k: string, appends: seq<(string, string)>)
    requires Tracks(s, ideal)
    requires Alive(ideal, now, k) ==> AppendRecord(k, ideal[k], appends).0.size >= 0
    ensures Tracks(Sh.Append(s, now, k, appends).1,
                   if Alive(ideal, now, k) then ideal[k := AppendRecord(k, ideal[k], appends).0] else ideal)
  {
    Sh.AppendKeepsValid(s, now, k, appends);
    if Sh.Live(s, now, k) {
      var r := AppendRecord(k, s.data[k], appends).0;
      TrimOnlyDrops(Sh.Bump(Sh.Store(s, k, r).(size := Sh.Resized(s.size, s.data[k].size, r.size)), k));
    }
  }

  lemma SetTTLTracks(s: Sh.Shard, ideal: Ideal, now: int, k: string, ttl: int)
    requires Tracks(s, ideal)
    ensures Tracks(Sh.SetTTL(s, now, k, ttl).1,
                   if Alive(ideal, now, k) then ideal[k := ideal[k].(expiry := Sh.Deadline(now, ttl))] else ideal)
  {
    Sh.SetTTLKeepsValid(s, now, k, ttl);
  }

  lemma DeleteTracks(s: Sh.Shard, ideal: Ideal, k: string)
    requires Tracks(s, ideal)
    ensures Tracks(Sh.Delete(s, k).1, ideal - {k})
  {
    Sh.AccessKeepsValid(s, 0, k);
  }

  /** In every operation the shard stays valid and holds nothing but records of the ideal map. */
  lemma ShardStepTracks(cfg: Config, s: Sh.Shard, ideal: Ideal, est: string -> int, now: int, op: Op)
    requires Tracks(s, ideal) && SizesFit(IdealStep(cfg, ideal, now, op)) && (op.SweepOp? || op.key != "")
    ensures Tracks(ShardStep(cfg, s, est, now, op), IdealStep(cfg, ideal, now, op))
  {
    match op
    case SetOp(k, v, ttl) =>
      assert k in IdealStep(cfg, ideal, now, op);
      SetTracks(cfg, s, ideal, est, k, NewRecord(cfg, now, k, v, ttl));
    case GetOp(k) => Sh.AccessKeepsValid(s, now, k);
    case ExistsOp(k) => Sh.AccessKeepsValid(s, now, k);
    case DeleteOp(k) => DeleteTracks(s, ideal, k);
    case IncrementOp(k, offsets) => IncrementTracks(s, ideal, now, k, offsets);
    case AppendOp(k, appends) =>
      assert Alive(ideal, now, k) ==> k in IdealStep(cfg, ideal, now, op);
      AppendTracks(s, ideal, now, k, appends);
    case SetTTLOp(k, ttl) => SetTTLTracks(s, ideal, now, k, ttl);
    case GetTTLOp(k, later) => Sh.GetTTLKeepsValid(s, now, later, k);
    case SweepOp(_, keys) =>
      Sh.SweepKeepsValid(s, now, keys, cfg.sweepBudget);
      SweepOnlyDropsExpired(s, now, keys, cfg.sweepBudget);
  }

  /** An operation touches only its own key; other records stay as they are or are dropped. */
  lemma ShardStepFootprint(cfg: Config, s: Sh.Shard, est: string -> int, now: int, op: Op)
    ensures ShardStep(cfg, s, est, now, op).capacity == s.capacity
    ensures forall k :: k in ShardStep(cfg, s, est, now, op).data && (op.SweepOp? || k != op.key) ==>
              k in s.data && ShardStep(cfg, s, est, now, op).data[k] == s.data[k]
  {
    match op
    case SetOp(k, v, ttl) =>
      var r := NewRecord(cfg, now, k, v, ttl);
      if k in s.data {
        var size := if r.size >= 0 then Sh.Resized(s.size, s.data[k].size, r.size) else s.size;
        TrimOnlyDrops(Sh.Bump(Sh.Store(s, k, r).(size := size), k));
        TrimKeepsCapacity(Sh.Bump(Sh.Store(s, k, r).(size := size), k));
      } else {
        AdmitOnlyDrops(s, est, k, Sh.Clamp(r.size));
        AdmitKeepsCapacity(s, est, k, Sh.Clamp(r.size));
      }
    case AppendOp(k, appends) =>
      if Sh.Live(s, now, k) {
        var r := AppendRecord(k, s.data[k], appends).0;
        var t := Sh.Bump(Sh.Store(s, k, r).(size := Sh.Resized(s.size, s.data[k].size, r.size)), k);
        TrimOnlyDrops(t);
        TrimKeepsCapacity(t);
      }
    case SweepOp(_, keys) =>
      SweepOnlyDropsExpired(s, now, keys, cfg.sweepBudget);
      SweepKeepsCapacity(s, now, keys, cfg.sweepBudget);
    case _ =>
  }

  lemma {:induction false} TrimKeepsCapacity(s: Sh.Shard)
    ensures Sh.Trim(s).capacity == s.capacity
    decreases |s.order|
  {
    if Sh.IsFull(s) && s.order != [] { TrimKeepsCapacity(Sh.DropTail(s)); }
  }

  lemma {:induction false} AdmitKeepsCapacity(s: Sh.Shard, est: string -> int, k: string, cost: int)
    ensures Sh.Admit(s, est, k, cost).1.capacity == s.capacity
    decreases |s.order|
  {
    if Sh.IsFullAfter(s, cost) && s.order != [] && est(k) >= est(Last(s.order)) {
      AdmitKeepsCapacity(Sh.DropTail(s), est, k, cost);
    }
  }

  lemma {:induction false} SweepKeepsCapacity(s: Sh.Shard, now: int, keys: seq<string>, budget: nat)
    ensures Sh.Sweep(s, now, keys, budget).capacity == s.capacity
    decreases |keys|
  {
    if keys != [] {
      if keys[0] in s.data && IsExpired(s.data[keys[0]], now) {
        if budget > 1 { SweepKeepsCapacity(Sh.RemoveLocked(s, keys[0]), now, keys[1..], budget - 1); }
      } else {
        SweepKeepsCapacity(s, now, keys[1..], budget);
      }
    }
  }

  // ---------- The whole store ----------

  /** The shard at position `i`: valid, within its share of the budget, homed keys only, ideal records only. */
  ghost predicate ShardRefines(cfg: Config, s: Sh.Shard, i: nat, ideal: Ideal)
    requires cfg.Valid()
  {
    && Tracks(s, ideal)
    && s.capacity == cfg.PerShard()
    && forall k :: k in s.data ==> cfg.Home(k) == i
  }

  ghost predicate Refines(cfg: Config, st: Store, ideal: Ideal) {
    Shaped(cfg, st) && forall i :: 0 <= i < cfg.shards ==> ShardRefines(cfg, st.shards[i], i, ideal)
  }

  lemma OtherShardRefines(cfg: Config, s: Sh.Shard, j: nat, ideal: Ideal, now: int, op: Op)
    requires cfg.Valid() && ShardRefines(cfg, s, j, ideal) && Target(cfg, op) != Some(j)
    ensures ShardRefines(cfg, s, j, IdealStep(cfg, ideal, now, op))
  {
  }

  lemma TargetShardRefines(cfg: Config, s: Sh.Shard, i: nat, ideal: Ideal, est: string -> int, now: int, op: Op)
    requires cfg.Valid() && ShardRefines(cfg, s, i, ideal) && Target(cfg, op) == Some(i)
    requires SizesFit(IdealStep(cfg, ideal, now, op))
    ensures ShardRefines(cfg, ShardStep(cfg, s, est, now, op), i, IdealStep(cfg, ideal, now, op))
  {
    ShardStepTracks(cfg, s, ideal, est, now, op);
    ShardStepFootprint(cfg, s, est, now, op);
  }

  lemma StepRefines(cfg: Config, st: Store, ideal: Ideal, now: int, op: Op)
    requires Refines(cfg, st, ideal) && SizesFit(IdealStep(cfg, ideal, now, op))
    ensures Refines(cfg, Step(cfg, st, now, op), IdealStep(cfg, ideal, now, op))
  {
    var st' := Step(cfg, st, now, op);
    forall j | 0 <= j < cfg.shards
      ensures ShardRefines(cfg, st'.shards[j], j, IdealStep(cfg, ideal, now, op))
    {
      if Target(cfg, op) == Some(j) {
        var sketch := if Records(st.shards[j], now, op) then S.Step(cfg.p, st.sketch, S.Inc(cfg.hash(op.key))) else st.sketch;
        TargetShardRefines(cfg, st.shards[j], j, ideal, Est(cfg, sketch), now, op);
      } else {
        OtherShardRefines(cfg, st.shards[j], j, ideal, now, op);
      }
    }
  }

  // ---------- Runs ----------

  datatype Event = Event(now: int, op: Op)

  ghost function Init(cfg: Config): Store
    requires cfg.Valid()
  {
    Store(seq(cfg.shards, _ => Empty(cfg)), S.Fresh(cfg.p))
  }

  function Empty(cfg: Config): Sh.Shard
    requires cfg.shards > 0
  {
    Sh.Shard(map[], [], 0, cfg.PerShard())
  }

  ghost function Run(cfg: Config, events: seq<Event>): (st: Store)
    requires cfg.Valid()
    ensures Shaped(cfg, st)
  {
    if events == [] then Init(cfg) else Step(cfg, Run(cfg, events[..|events|-1]), Last(events).now, Last(events).op)
  }

  ghost function IdealRun(cfg: Config, events: seq<Event>): Ideal {
    if events == [] then map[] else IdealStep(cfg, IdealRun(cfg, events[..|events|-1]), Last(events).now, Last(events).op)
  }

  ghost predicate SizesFitThroughout(cfg: Config, events: seq<Event>) {
    forall i :: 0 <= i <= |events| ==> SizesFit(IdealRun(cfg, events[..i]))
  }

  lemma SizesFitBefore(cfg: Config, events: seq<Event>)
    requires events != [] && SizesFitThroughout(cfg, events)
    ensures SizesFitThroughout(cfg, events[..|events|-1]) && SizesFit(IdealRun(cfg, events))
  {
    var init := events[..|events|-1];
    assert forall i :: 0 <= i <= |init| ==> init[..i] == events[..i];
    assert events[..|events|] == events;
  }

  /**
   Over every run, whatever is evicted, rejected or expired on the way, every stored
   record is the ideal map's record, every shard is in step and within its budget,
   and every key sits in its home shard.
   */
  lemma {:induction false} RunRefines(cfg: Config, events: seq<Event>)
    requires cfg.Valid() && SizesFitThroughout(cfg, events)
    ensures Refines(cfg, Run(cfg, events), IdealRun(cfg, events))
  {
    if events != [] {
      SizesFitBefore(cfg, events);
      RunRefines(cfg, events[..|events|-1]);
      StepRefines(cfg, Run(cfg, events[..|events|-1]), IdealRun(cfg, events[..|events|-1]), Last(events).now, Last(events).op);
    }
  }

  /** What Get answers. */
  ghost function Lookup(cfg: Config, st: Store, now: int, k: string): Option<Fields>
    requires Shaped(cfg, st)
  {
    if k == "" then None else
    var s := st.shards[cfg.Home(k)];
    if Sh.Live(s, now, k) then Some(s.data[k].value) else None
  }

  /** A hit after any run returns exactly the value an unbounded map would return. */
  lemma HitsAreIdeal(cfg: Config, events: seq<Event>, now: int, k: string)
    requires cfg.Valid() && SizesFitThroughout(cfg, events) && Lookup(cfg, Run(cfg, events), now, k).Some?
    ensures Alive(IdealRun(cfg, events), now, k)
    ensures Lookup(cfg, Run(cfg, events), now, k).value == IdealRun(cfg, events)[k].value
  {
    RunRefines(cfg, events);
    assert ShardRefines(cfg, Run(cfg, events).shards[cfg.Home(k)], cfg.Home(k), IdealRun(cfg, events));
  }

  function TotalSize(shards: seq<Sh.Shard>): int {
    if shards == [] then 0 else TotalSize(shards[..|shards|-1]) + Last(shards).size
  }

  lemma {:induction false} TotalWithin(shards: seq<Sh.Shard>, bound: int)
    requires forall i :: 0 <= i < |shards| ==> shards[i].size <= bound
    ensures TotalSize(shards) <= |shards| * bound
  {
    if shards != [] {
      TotalWithin(shards[..|shards|-1], bound);
      assert |shards| * bound == (|shards| - 1) * bound + bound;
    }
  }

  lemma SharesWithinBudget(max: int, n: nat)
    requires max >= 0 && n > 0
    ensures n * (max / n) <= max
  {
    assert max == n * (max / n) + max % n;
  }

  /** The store never holds more bytes than it was given. */
  lemma BudgetHolds(cfg: Config, events: seq<Event>)
    requires cfg.Valid() && SizesFitThroughout(cfg, events)
    ensures TotalSize(Run(cfg, events).shards) <= cfg.maxStorage
  {
    RunRefines(cfg, events);
    var shards, share := Run(cfg, events).shards, cfg.PerShard();
    forall i | 0 <= i < |shards| ensures shards[i].size <= share {
      assert ShardRefines(cfg, shards[i], i, IdealRun(cfg, events));
    }
    TotalWithin(shards, share);
    SharesWithinBudget(cfg.maxStorage, cfg.shards);
  }

  // ---------- The janitor ----------

  /** A sweep never changes what any reader sees from then on. */
  lemma SweepIsInvisible(cfg: Config, st: Store, now: int, i: nat, keys: seq<string>, later: int, k: string)
    requires Shaped(cfg, st) && later >= now
    ensures Lookup(cfg, Step(cfg, st, now, SweepOp(i, keys)), later, k) == Lookup(cfg, st, later, k)
  {
    if i < cfg.shards {
      SweepOnlyDropsExpired(st.shards[i], now, keys, cfg.sweepBudget);
    }
  }

  /** One janitor tick: a pass over the first `n` shards, each in its own visiting order. */
  ghost function Tick(cfg: Config, st: Store, now: int, orders: seq<seq<string>>, n: nat): (st': Store)
    requires Shaped(cfg, st) && n <= cfg.shards && n <= |orders|
    ensures Shaped(cfg, st')
  {
    if n == 0 then st else Step(cfg, Tick(cfg, st, now, orders, n - 1), now, SweepOp(n - 1, orders[n-1]))
  }

  lemma {:induction false} TickIsInvisible(cfg: Config, st: Store, now: int, orders: seq<seq<string>>, n: nat, later: int, k: string)
    requires Shaped(cfg, st) && n <= cfg.shards && n <= |orders| && later >= now
    ensures Lookup(cfg, Tick(cfg, st, now, orders, n), later, k) == Lookup(cfg, st, later, k)
  {
    if n > 0 {
      TickIsInvisible(cfg, st, now, orders, n - 1, later, k);
      SweepIsInvisible(cfg, Tick(cfg, st, now, orders, n - 1), now, n - 1, orders[n-1], later, k);
    }
  }

  /** A sweep clears every expired record it visits, unless it has used up its deletion budget. */
  lemma {:induction false} SweepProgress(s: Sh.Shard, now: int, keys: seq<string>, budget: nat)
    requires budget >= 1
    ensures |Sh.Sweep(s, now, keys, budget).data| >= |s.data| - budget
    ensures |Sh.Sweep(s, now, keys, budget).data| == |s.data| - budget ||
            forall k :: k in keys && k in Sh.Sweep(s, now, keys, budget).data ==> !IsExpired(Sh.Sweep(s, now, keys, budget).data[k], now)
    decreases |keys|
  {
    if keys != [] {
      var k := keys[0];
      SweepOnlyDropsExpired(s, now, keys, budget);
      if k in s.data && IsExpired(s.data[k], now) {
        var s' := Sh.RemoveLocked(s, k);
        assert s'.data.Keys == s.data.Keys - {k};
        assert |s'.data| == |s.data| - 1;
        SweepOnlyDropsExpired(s', now, keys[1..], budget);
        if budget > 1 {
          SweepOnlyDropsExpired(s', now, keys[1..], budget - 1);
          SweepProgress(s', now, keys[1..], budget - 1);
        }
      } else {
        SweepOnlyDropsExpired(s, now, keys[1..], budget);
        SweepProgress(s, now, keys[1..], budget);
      }
    }
  }

  ghost function Only(cfg: Config, k: string, r: Record): Sh.Shard
    requires cfg.shards > 0
  {
    Sh.Shard(map[k := r], [k], r.size, cfg.PerShard())
  }

  lemma FirstSet(cfg: Config, est: string -> int, k: string, r: Record)
    requires cfg.Valid() && 0 <= r.size <= cfg.PerShard() && r.size < TWO63
    ensures Sh.Set(Empty(cfg), est, k, r) == (true, Only(cfg, k, r)) && Sh.Valid(Only(cfg, k, r))
  {
    Sh.AdmitStops(Empty(cfg), est, k, r.size);
    assert [k] + Without([], k) == [k];
    Sh.SetKeepsValid(Empty(cfg), est, k, r);
  }

  /** A new store that was given one record that fits. */
  lemma RunOfOneSet(cfg: Config, now: int, k: string, value: Fields, ttl: int)
    requires cfg.Valid() && k != "" && 0 <= ComputeSize(k, value) <= cfg.PerShard() && ComputeSize(k, value) < TWO63
    ensures var s := Run(cfg, [Event(now, SetOp(k, value, ttl))]).shards[cfg.Home(k)];
            s == Only(cfg, k, NewRecord(cfg, now, k, value, ttl)) && Sh.Valid(s)
  {
    var events := [Event(now, SetOp(k, value, ttl))];
    assert events[..0] == [];
    SetStep(cfg, Init(cfg), now, k, value, ttl);
    var sketch := S.Step(cfg.p, S.Fresh(cfg.p), S.Inc(cfg.hash(k)));
    FirstSet(cfg, Est(cfg, sketch), k, NewRecord(cfg, now, k, value, ttl));
  }

  /** An update that does not fit its shard answers true and leaves nothing to look up. */
  lemma OversizedUpdate(cfg: Config, st: Store, now: int, k: string, value: Fields, ttl: int)
    requires Shaped(cfg, st) && k != "" && Sh.Valid(st.shards[cfg.Home(k)]) && k in st.shards[cfg.Home(k)].data
    requires st.shards[cfg.Home(k)].capacity < ComputeSize(k, value) < TWO63
    ensures SetAnswer(cfg, st, now, k, value, ttl)
    ensures Lookup(cfg, Step(cfg, st, now, SetOp(k, value, ttl)), now, k) == None
  {
    SetStep(cfg, st, now, k, value, ttl);
    var sketch := S.Step(cfg.p, st.sketch, S.Inc(cfg.hash(k)));
    Sh.SetTrueMeansStoredIff(st.shards[cfg.Home(k)], Est(cfg, sketch), k, NewRecord(cfg, now, k, value, ttl));
  }

  /** The only record of a shard of 150 bytes grows from 145 to 178: Set says true and the key is gone. */
  lemma OversizedUpdateExample(cfg: Config, now: int)
    requires cfg.Valid() && cfg.PerShard() == 150
    ensures var grown: Fields := map["a" := Str("")];
            var before := Run(cfg, [Event(now, SetOp("k", map[], 0))]);
            && Lookup(cfg, before, now, "k") == Some(map[])
            && SetAnswer(cfg, before, now, "k", grown, 0)
            && Lookup(cfg, Step(cfg, before, now, SetOp("k", grown, 0)), now, "k") == None
  {
    SmallSizes();
    RunOfOneSet(cfg, now, "k", map[], 0);
    OversizedUpdate(cfg, Run(cfg, [Event(now, SetOp("k", map[], 0))]), now, "k", map["a" := Str("")], 0);
  }
}
