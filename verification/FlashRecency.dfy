/** Which uses of a key count, over whole FlashDB runs: for eviction order and for popularity. */
module FlashRecency {
  import opened Collections
  import opened FlashRecord
  import opened FlashStore
  import opened FlashOps
  import opened Recency
  import Sh = FlashShard
  import S = Sketch

  /** The event reports an access: every Set, and every other hit that did what it was asked to do. */
  ghost predicate Accesses(cfg: Config, st: Store, e: Event)
    requires Shaped(cfg, st)
  {
    match e.op
    case SetOp(k, _, _) => k != ""
    case GetOp(k) => Lookup(cfg, st, e.now, k).Some?
    case SetTTLOp(k, _) => Lookup(cfg, st, e.now, k).Some?
    case IncrementOp(k, offsets) =>
      Lookup(cfg, st, e.now, k).Some? && IncrementFields(Found(cfg, st, e.now, k), offsets).1.Ok?
    case AppendOp(k, appends) =>
      Lookup(cfg, st, e.now, k).Some? && AppendFields(Found(cfg, st, e.now, k), appends).1.Ok?
    case _ => false
  }

  ghost function Counted(cfg: Config, events: seq<Event>): seq<S.Op>
    requires cfg.Valid()
  {
    if events == [] then []
    else
      var init, e := events[..|events|-1], Last(events);
      if Accesses(cfg, Run(cfg, init), e) then Counted(cfg, init) + [S.Inc(cfg.hash(e.op.key))] else Counted(cfg, init)
  }

  lemma AccessRecords(cfg: Config, st: Store, e: Event)
    requires Shaped(cfg, st)
    ensures Step(cfg, st, e.now, e.op).sketch ==
            if Accesses(cfg, st, e) then S.Step(cfg.p, st.sketch, S.Inc(cfg.hash(e.op.key))) else st.sketch
  {
  }

  /** The sketch of the admission policy has counted exactly these accesses, in order. */
  lemma {:induction false} SketchCountsAccesses(cfg: Config, events: seq<Event>)
    requires cfg.Valid()
    ensures Run(cfg, events).sketch == S.Run(cfg.p, Counted(cfg, events))
  {
    if events != [] {
      var init, e := events[..|events|-1], Last(events);
      SketchCountsAccesses(cfg, init);
      AccessRecords(cfg, Run(cfg, init), e);
      if Accesses(cfg, Run(cfg, init), e) {
        var before, op := Counted(cfg, init), S.Inc(cfg.hash(e.op.key));
        assert (before + [op])[..|before|] == before;
      }
    }
  }

  // Eviction order

  /** The event uses the key k: an access, and for Set one that was accepted. */
  ghost predicate Uses(cfg: Config, st: Store, e: Event, k: string)
    requires Shaped(cfg, st)
  {
    && Accesses(cfg, st, e) && e.op.key == k
    && (e.op.SetOp? ==> SetAnswer(cfg, st, e.now, k, e.op.value, e.op.ttl))
  }

  /** The index of the last event that used k; -1 if there is none. */
  ghost function LastUse(cfg: Config, events: seq<Event>, k: string): (i: int)
    requires cfg.Valid()
    ensures -1 <= i < |events|
  {
    if events == [] then -1
    else
      var init := events[..|events|-1];
      if Uses(cfg, Run(cfg, init), Last(events), k) then |init| else LastUse(cfg, init, k)
  }

  lemma {:induction false} RankedTrim(s: Sh.Shard, rank: string -> int)
    requires Ranked(s.order, rank)
    ensures Ranked(Sh.Trim(s).order, rank)
    decreases |s.order|
  {
    if Sh.IsFull(s) && s.order != [] {
      RankedPrefix(s.order, |s.order| - 1, rank);
      RankedTrim(Sh.DropTail(s), rank);
    }
  }

  lemma {:induction false} RankedAdmit(s: Sh.Shard, est: string -> int, k: string, cost: int, rank: string -> int)
    requires Ranked(s.order, rank)
    ensures Ranked(Sh.Admit(s, est, k, cost).1.order, rank)
    decreases |s.order|
  {
    if Sh.IsFullAfter(s, cost) && s.order != [] && est(k) >= est(Last(s.order)) {
      RankedPrefix(s.order, |s.order| - 1, rank);
      RankedAdmit(Sh.DropTail(s), est, k, cost, rank);
    }
  }

  lemma {:induction false} RankedSweep(s: Sh.Shard, now: int, keys: seq<string>, budget: nat, rank: string -> int)
    requires Ranked(s.order, rank)
    ensures Ranked(Sh.Sweep(s, now, keys, budget).order, rank)
    decreases |keys|
  {
    if keys != [] {
      if keys[0] in s.data && IsExpired(s.data[keys[0]], now) {
        RankedWithout(s.order, keys[0], rank);
        if budget > 1 { RankedSweep(Sh.RemoveLocked(s, keys[0]), now, keys[1..], budget - 1, rank); }
      } else {
        RankedSweep(s, now, keys[1..], budget, rank);
      }
    }
  }

  lemma RankedSet(s: Sh.Shard, est: string -> int, k: string, r: Record, rank: string -> int, rank': string -> int, top: int)
    requires Ranked(s.order, rank) && Raised(rank, rank', k, top)
    ensures Ranked(Sh.Set(s, est, k, r).1.order, if Sh.Set(s, est, k, r).0 then rank' else rank)
  {
    RankedPush(s.order, k, rank, rank', top);
    if k in s.data {
      var size := if r.size >= 0 then Sh.Resized(s.size, s.data[k].size, r.size) else s.size;
      RankedTrim(Sh.Bump(Sh.Store(s, k, r).(size := size), k), rank');
    } else {
      RankedAdmit(s, est, k, Sh.Clamp(r.size), rank);
      RankedPush(Sh.Admit(s, est, k, Sh.Clamp(r.size)).1.order, k, rank, rank', top);
    }
  }

  lemma RankedUpdate(s: Sh.Shard, now: int, k: string, rank: string -> int, rank': string -> int, top: int)
    requires Ranked(s.order, rank) && Raised(rank, rank', k, top)
    ensures Ranked(ToFront(s.order, k), rank') && Ranked(Sh.Expire(s, now, k).order, rank)
  {
    RankedPush(s.order, k, rank, rank', top);
    RankedWithout(s.order, k, rank);
  }

  lemma RankedAppend(s: Sh.Shard, now: int, k: string, appends: seq<(string, string)>, rank: string -> int, rank': string -> int, top: int)
    requires Ranked(s.order, rank) && Raised(rank, rank', k, top)
    ensures Ranked(Sh.Append(s, now, k, appends).1.order, if Sh.Append(s, now, k, appends).0.Ok? then rank' else rank)
  {
    RankedUpdate(s, now, k, rank, rank', top);
    if Sh.Live(s, now, k) {
      var r := AppendRecord(k, s.data[k], appends).0;
      RankedTrim(Sh.Bump(Sh.Store(s, k, r).(size := Sh.Resized(s.size, s.data[k].size, r.size)), k), rank');
    }
  }

  ghost function OrderAfter(cfg: Config, st: Store, e: Event): seq<string>
    requires Shaped(cfg, st) && !e.op.SweepOp?
  {
    Step(cfg, st, e.now, e.op).shards[cfg.Home(e.op.key)].order
  }

  lemma RankedSetStep(cfg: Config, st: Store, e: Event, rank: string -> int, rank': string -> int, top: int)
    requires Shaped(cfg, st) && e.op.SetOp? && e.op.key != "" && Raised(rank, rank', e.op.key, top)
    requires Ranked(st.shards[cfg.Home(e.op.key)].order, rank)
    ensures Ranked(OrderAfter(cfg, st, e), if Uses(cfg, st, e, e.op.key) then rank' else rank)
  {
    var s, k, r := st.shards[cfg.Home(e.op.key)], e.op.key, NewRecord(cfg, e.now, e.op.key, e.op.value, e.op.ttl);
    SetStep(cfg, st, e.now, k, e.op.value, e.op.ttl);
    RankedSet(s, Est(cfg, S.Step(cfg.p, st.sketch, S.Inc(cfg.hash(k)))), k, r, rank, rank', top);
  }

  lemma RankedAppendStep(cfg: Config, st: Store, e: Event, rank: string -> int, rank': string -> int, top: int)
    requires Shaped(cfg, st) && e.op.AppendOp? && e.op.key != "" && Raised(rank, rank', e.op.key, top)
    requires Ranked(st.shards[cfg.Home(e.op.key)].order, rank)
    ensures Ranked(OrderAfter(cfg, st, e), if Uses(cfg, st, e, e.op.key) then rank' else rank)
  {
    AppendStep(cfg, st, e.now, e.op.key, e.op.appends);
    RankedAppend(st.shards[cfg.Home(e.op.key)], e.now, e.op.key, e.op.appends, rank, rank', top);
  }

  /** The other operations bring a used key to the front, and at most remove one that was not used. */
  lemma OtherOrders(cfg: Config, st: Store, e: Event)
    requires Shaped(cfg, st) && !e.op.SweepOp? && !e.op.SetOp? && !e.op.AppendOp? && e.op.key != ""
    ensures var order := st.shards[cfg.Home(e.op.key)].order;
      if Uses(cfg, st, e, e.op.key) then OrderAfter(cfg, st, e) == ToFront(order, e.op.key)
      else OrderAfter(cfg, st, e) == order || OrderAfter(cfg, st, e) == Without(order, e.op.key)
  {
  }

  /** One operation on its own shard. */
  lemma RankedStep(cfg: Config, st: Store, e: Event, rank: string -> int, rank': string -> int, top: int)
    requires Shaped(cfg, st) && !e.op.SweepOp? && e.op.key != "" && Raised(rank, rank', e.op.key, top)
    requires Ranked(st.shards[cfg.Home(e.op.key)].order, rank)
    ensures Ranked(OrderAfter(cfg, st, e), if Uses(cfg, st, e, e.op.key) then rank' else rank)
  {
    if e.op.SetOp? {
      RankedSetStep(cfg, st, e, rank, rank', top);
    } else if e.op.AppendOp? {
      RankedAppendStep(cfg, st, e, rank, rank', top);
    } else {
      OtherOrders(cfg, st, e);
      RankedPush(st.shards[cfg.Home(e.op.key)].order, e.op.key, rank, rank', top);
      RankedWithout(st.shards[cfg.Home(e.op.key)].order, e.op.key, rank);
    }
  }

  ghost function LastUses(cfg: Config, events: seq<Event>): string -> int
    requires cfg.Valid()
  {
    k => LastUse(cfg, events, k)
  }

  /** The ranks before an event, and after it if it uses the key k. */
  lemma NextRanks(cfg: Config, events: seq<Event>, e: Event, k: string) returns (rank: string -> int, rank': string -> int)
    requires cfg.Valid()
    ensures rank == LastUses(cfg, events) && Raised(rank, rank', k, |events|)
    ensures Uses(cfg, Run(cfg, events), e, k) ==> forall x :: LastUse(cfg, events + [e], x) == rank'(x)
    ensures !Uses(cfg, Run(cfg, events), e, k) ==> LastUse(cfg, events + [e], k) == rank(k)
  {
    rank := LastUses(cfg, events);
    rank' := x => if x == k then |events| else LastUse(cfg, events, x);
    assert (events + [e])[..|events|] == events;
  }

  lemma UnusedKeepsLast(cfg: Config, events: seq<Event>, x: string)
    requires cfg.Valid() && events != [] && !Uses(cfg, Run(cfg, events[..|events|-1]), Last(events), x)
    ensures LastUse(cfg, events, x) == LastUse(cfg, events[..|events|-1], x)
  {
  }

  lemma OwnShardRanked(cfg: Config, events: seq<Event>)
    requires cfg.Valid() && events != [] && !Last(events).op.SweepOp? && Last(events).op.key != ""
    requires var init := events[..|events|-1];
      Ranked(Run(cfg, init).shards[cfg.Home(Last(events).op.key)].order, LastUses(cfg, init))
    ensures Ranked(Run(cfg, events).shards[cfg.Home(Last(events).op.key)].order, LastUses(cfg, events))
  {
    var init, e := events[..|events|-1], Last(events);
    var k := e.op.key;
    var rank, rank' := NextRanks(cfg, init, e, k);
    assert init + [e] == events;
    RankedStep(cfg, Run(cfg, init), e, rank, rank', |init|);
    var order := Run(cfg, events).shards[cfg.Home(k)].order;
    if Uses(cfg, Run(cfg, init), e, k) {
      RankedSame(order, rank', LastUses(cfg, events));
    } else {
      forall x | x in order ensures LastUse(cfg, events, x) == rank(x) { UnusedKeepsLast(cfg, events, x); }
      RankedSame(order, rank, LastUses(cfg, events));
    }
  }

  lemma SweptShardRanked(cfg: Config, events: seq<Event>, j: nat)
    requires cfg.Valid() && events != [] && Last(events).op.SweepOp? && j < cfg.shards
    requires var init := events[..|events|-1]; Ranked(Run(cfg, init).shards[j].order, LastUses(cfg, init))
    ensures Ranked(Run(cfg, events).shards[j].order, LastUses(cfg, events))
  {
    var init, e := events[..|events|-1], Last(events);
    var rank, order := LastUses(cfg, init), Run(cfg, events).shards[j].order;
    RankedSweep(Run(cfg, init).shards[j], e.now, e.op.keys, cfg.sweepBudget, rank);
    forall x | x in order ensures LastUse(cfg, events, x) == rank(x) { UnusedKeepsLast(cfg, events, x); }
    RankedSame(order, rank, LastUses(cfg, events));
  }

  lemma OtherShardStays(cfg: Config, st: Store, e: Event, j: nat, x: string)
    requires Shaped(cfg, st) && j < cfg.shards && !e.op.SweepOp? && (e.op.key == "" || cfg.Home(e.op.key) != j)
    ensures Step(cfg, st, e.now, e.op).shards[j] == st.shards[j]
    ensures cfg.Home(x) == j ==> !Uses(cfg, st, e, x)
  {
  }

  lemma OtherShardRanked(cfg: Config, events: seq<Event>, j: nat)
    requires cfg.Valid() && events != [] && j < cfg.shards && !Last(events).op.SweepOp?
    requires Last(events).op.key == "" || cfg.Home(Last(events).op.key) != j
    requires var s := Run(cfg, events[..|events|-1]).shards[j]; forall x :: x in s.order ==> cfg.Home(x) == j
    requires var init := events[..|events|-1]; Ranked(Run(cfg, init).shards[j].order, LastUses(cfg, init))
    ensures Ranked(Run(cfg, events).shards[j].order, LastUses(cfg, events))
  {
    var init := events[..|events|-1];
    var rank, order := LastUses(cfg, init), Run(cfg, init).shards[j].order;
    OtherShardStays(cfg, Run(cfg, init), Last(events), j, "");
    forall x | x in order ensures LastUse(cfg, events, x) == rank(x) {
      OtherShardStays(cfg, Run(cfg, init), Last(events), j, x);
      UnusedKeepsLast(cfg, events, x);
    }
    RankedSame(order, rank, LastUses(cfg, events));
  }

  /** Over every run the LRU order of a shard lists its keys by their last use, the latest first. */
  lemma {:induction false} OrderedByLastUse(cfg: Config, events: seq<Event>, j: nat)
    requires cfg.Valid() && SizesFitThroughout(cfg, events) && j < cfg.shards
    ensures Ranked(Run(cfg, events).shards[j].order, LastUses(cfg, events))
  {
    if events != [] {
      var init, e := events[..|events|-1], Last(events);
      SizesFitBefore(cfg, events);
      OrderedByLastUse(cfg, init, j);
      if e.op.SweepOp? {
        SweptShardRanked(cfg, events, j);
      } else if e.op.key != "" && cfg.Home(e.op.key) == j {
        OwnShardRanked(cfg, events);
      } else {
        RunRefines(cfg, init);
        var s := Run(cfg, init).shards[j];
        assert ShardRefines(cfg, s, j, IdealRun(cfg, init));
        forall x | x in s.order ensures cfg.Home(x) == j { assert x in Elements(s.order); }
        OtherShardRanked(cfg, events, j);
      }
    }
  }
}
