/**
 Two theorems about whole FlashDB runs: a working set that fits is never evicted, so
 the store then answers exactly like the ideal map; and the stored byte sizes stay
 true to the values they describe.
 */
module FlashFit {
  import opened Collections
  import opened FlashRecord
  import opened Widths
  import opened FlashStore
  import Sh = FlashShard

  // ---------- A working set that fits is never evicted ----------

  /** The ideal records whose home is shard `i`. */
  ghost function Share(cfg: Config, ideal: Ideal, i: nat): Ideal
    requires cfg.Valid()
  {
    map k | k in ideal && cfg.Home(k) == i :: ideal[k]
  }

  ghost predicate ShareFits(cfg: Config, ideal: Ideal, i: nat)
    requires cfg.Valid()
  {
    MapSum(Share(cfg, ideal, i), Sh.Cost) <= cfg.PerShard()
  }

  /** Every record the ideal map still has alive at `now` with home `i` is in the shard. */
  ghost predicate Complete(cfg: Config, s: Sh.Shard, i: nat, ideal: Ideal, now: int)
    requires cfg.Valid()
  {
    forall k :: k in ideal && cfg.Home(k) == i ==> k in s.data || IsExpired(ideal[k], now)
  }

  /** A shard that holds ideal records only, and whose share fits, is not over budget. */
  lemma SharedShardFits(cfg: Config, data: map<string, Record>, i: nat, ideal: Ideal)
    requires cfg.Valid() && SizesFit(ideal) && ShareFits(cfg, ideal, i)
    requires Sh.SubMap(data, ideal) && forall k :: k in data ==> cfg.Home(k) == i
    ensures MapSum(data, Sh.Cost) <= cfg.PerShard()
  {
    MapSumSubset(data, Share(cfg, ideal, i), Sh.Cost);
  }

  /** What the shard holds once the record of `k` is `r`, before any eviction. */
  ghost predicate Roomy(s: Sh.Shard, k: string, r: Record) {
    MapSum(s.data[k := r], Sh.Cost) <= s.capacity
  }

  lemma RoomyUpdate(s: Sh.Shard, k: string, r: Record)
    requires Sh.Valid(s) && k in s.data && 0 <= r.size < TWO63 && Roomy(s, k, r)
    ensures var t := Sh.Bump(Sh.Store(s, k, r).(size := Sh.Resized(s.size, s.data[k].size, r.size)), k);
            Sh.Trim(t) == t && t.data == s.data[k := r]
  {
    Sh.StoreKeepsInStep(s, k, r);
  }

  lemma RoomyInsert(s: Sh.Shard, est: string -> int, k: string, r: Record)
    requires Sh.Valid(s) && k !in s.data && 0 <= r.size < TWO63 && Roomy(s, k, r)
    ensures Sh.Insert(s, est, k, r).0 && Sh.Insert(s, est, k, r).1.data == s.data[k := r]
  {
    MapSumInsert(s.data, Sh.Cost, k, r);
    MapSumNonNegative(s.data, Sh.Cost);
    assert !Sh.IsFullAfter(s, r.size);
  }

  /** When the ideal map sets `k` to `r`, a shard that tracked it has room for it. */
  lemma ShareGivesRoom(cfg: Config, s: Sh.Shard, i: nat, ideal: Ideal, k: string, r: Record)
    requires cfg.Valid() && ShardRefines(cfg, s, i, ideal) && cfg.Home(k) == i
    requires SizesFit(ideal[k := r]) && ShareFits(cfg, ideal[k := r], i)
    ensures 0 <= r.size < TWO63 && Roomy(s, k, r)
  {
    assert k in ideal[k := r];
    SharedShardFits(cfg, s.data[k := r], i, ideal[k := r]);
  }

  /** The clock when an operation has finished. */
  function End(e: Event): int {
    if e.op.GetTTLOp? && e.op.later > e.now then e.op.later else e.now
  }

  lemma SetStaysComplete(cfg: Config, s: Sh.Shard, i: nat, ideal: Ideal, est: string -> int, now: int, k: string, r: Record)
    requires cfg.Valid() && ShardRefines(cfg, s, i, ideal) && Complete(cfg, s, i, ideal, now) && cfg.Home(k) == i
    requires SizesFit(ideal[k := r]) && ShareFits(cfg, ideal[k := r], i)
    ensures Complete(cfg, Sh.Set(s, est, k, r).1, i, ideal[k := r], now)
  {
    ShareGivesRoom(cfg, s, i, ideal, k, r);
    if k in s.data {
      RoomyUpdate(s, k, r);
    } else {
      RoomyInsert(s, est, k, r);
    }
  }

  lemma AppendStaysComplete(cfg: Config, s: Sh.Shard, i: nat, ideal: Ideal, now: int, k: string, appends: seq<(string, string)>)
    requires cfg.Valid() && ShardRefines(cfg, s, i, ideal) && Complete(cfg, s, i, ideal, now) && cfg.Home(k) == i && k != ""
    requires SizesFit(IdealStep(cfg, ideal, now, AppendOp(k, appends)))
    requires ShareFits(cfg, IdealStep(cfg, ideal, now, AppendOp(k, appends)), i)
    ensures Complete(cfg, Sh.Append(s, now, k, appends).1, i, IdealStep(cfg, ideal, now, AppendOp(k, appends)), now)
  {
    if Sh.Live(s, now, k) {
      var (r, status) := AppendRecord(k, s.data[k], appends);
      assert Alive(ideal, now, k) && ideal[k] == s.data[k];
      ShareGivesRoom(cfg, s, i, ideal, k, r);
      if status.Ok? { RoomyUpdate(s, k, r); }
    }
  }

  lemma SweepStaysComplete(cfg: Config, s: Sh.Shard, i: nat, ideal: Ideal, now: int, keys: seq<string>)
    requires cfg.Valid() && ShardRefines(cfg, s, i, ideal) && Complete(cfg, s, i, ideal, now)
    ensures Complete(cfg, Sh.Sweep(s, now, keys, cfg.sweepBudget), i, ideal, now)
  {
    SweepOnlyDropsExpired(s, now, keys, cfg.sweepBudget);
  }

  lemma AccessStaysComplete(cfg: Config, s: Sh.Shard, i: nat, ideal: Ideal, now: int, k: string)
    requires cfg.Valid() && ShardRefines(cfg, s, i, ideal) && Complete(cfg, s, i, ideal, now)
    ensures Complete(cfg, Sh.Get(s, now, k), i, ideal, now) && Complete(cfg, Sh.Expire(s, now, k), i, ideal, now)
    ensures Complete(cfg, Sh.Delete(s, k).1, i, ideal - {k}, now)
  {
  }

  lemma GetTTLStaysComplete(cfg: Config, s: Sh.Shard, i: nat, ideal: Ideal, now: int, later: int, k: string)
    requires cfg.Valid() && ShardRefines(cfg, s, i, ideal) && Complete(cfg, s, i, ideal, now)
    ensures Complete(cfg, Sh.GetTTL(s, now, later, k).1, i, ideal, if later > now then later else now)
  {
    AccessStaysComplete(cfg, s, i, ideal, now, k);
    if Sh.Live(s, now, k) && s.data[k].expiry.Some? {
      assert Sh.WholeSeconds(s.data[k].expiry.value - later) < 0 ==> later > s.data[k].expiry.value;
    }
  }

  lemma IncrementStaysComplete(cfg: Config, s: Sh.Shard, i: nat, ideal: Ideal, now: int, k: string, offsets: seq<(string, int)>)
    requires cfg.Valid() && ShardRefines(cfg, s, i, ideal) && Complete(cfg, s, i, ideal, now) && cfg.Home(k) == i && k != ""
    ensures Complete(cfg, Sh.Increment(s, now, k, offsets).1, i, IdealStep(cfg, ideal, now, IncrementOp(k, offsets)), now)
  {
    AccessStaysComplete(cfg, s, i, ideal, now, k);
  }

  lemma SetTTLStaysComplete(cfg: Config, s: Sh.Shard, i: nat, ideal: Ideal, now: int, k: string, ttl: int)
    requires cfg.Valid() && ShardRefines(cfg, s, i, ideal) && Complete(cfg, s, i, ideal, now) && cfg.Home(k) == i && k != ""
    ensures Complete(cfg, Sh.SetTTL(s, now, k, ttl).1, i, IdealStep(cfg, ideal, now, SetTTLOp(k, ttl)), now)
  {
    AccessStaysComplete(cfg, s, i, ideal, now, k);
  }

  lemma ShardStaysComplete(cfg: Config, s: Sh.Shard, i: nat, ideal: Ideal, est: string -> int, e: Event)
    requires cfg.Valid() && ShardRefines(cfg, s, i, ideal) && Complete(cfg, s, i, ideal, e.now)
    requires Target(cfg, e.op) == Some(i)
    requires SizesFit(IdealStep(cfg, ideal, e.now, e.op)) && ShareFits(cfg, IdealStep(cfg, ideal, e.now, e.op), i)
    ensures Complete(cfg, ShardStep(cfg, s, est, e.now, e.op), i, IdealStep(cfg, ideal, e.now, e.op), End(e))
  {
    match e.op
    case SetOp(k, v, ttl) => SetStaysComplete(cfg, s, i, ideal, est, e.now, k, NewRecord(cfg, e.now, k, v, ttl));
    case AppendOp(k, appends) => AppendStaysComplete(cfg, s, i, ideal, e.now, k, appends);
    case SweepOp(_, keys) => SweepStaysComplete(cfg, s, i, ideal, e.now, keys);
    case GetOp(k) => AccessStaysComplete(cfg, s, i, ideal, e.now, k);
    case ExistsOp(k) => AccessStaysComplete(cfg, s, i, ideal, e.now, k);
    case DeleteOp(k) => AccessStaysComplete(cfg, s, i, ideal, e.now, k);
    case IncrementOp(k, offsets) => IncrementStaysComplete(cfg, s, i, ideal, e.now, k, offsets);
    case SetTTLOp(k, ttl) => SetTTLStaysComplete(cfg, s, i, ideal, e.now, k, ttl);
    case GetTTLOp(k, later) => GetTTLStaysComplete(cfg, s, i, ideal, e.now, later, k);
  }

  ghost predicate AllComplete(cfg: Config, st: Store, ideal: Ideal, now: int)
    requires Shaped(cfg, st)
  {
    forall i :: 0 <= i < cfg.shards ==> Complete(cfg, st.shards[i], i, ideal, now)
  }

  ghost predicate Fits(cfg: Config, ideal: Ideal)
    requires cfg.Valid()
  {
    forall i :: 0 <= i < cfg.shards ==> ShareFits(cfg, ideal, i)
  }

  lemma OtherStaysComplete(cfg: Config, s: Sh.Shard, j: nat, ideal: Ideal, e: Event)
    requires cfg.Valid() && Complete(cfg, s, j, ideal, e.now) && Target(cfg, e.op) != Some(j)
    ensures Complete(cfg, s, j, IdealStep(cfg, ideal, e.now, e.op), End(e))
  {
  }

  lemma StepStaysComplete(cfg: Config, st: Store, ideal: Ideal, e: Event)
    requires Refines(cfg, st, ideal) && AllComplete(cfg, st, ideal, e.now)
    requires SizesFit(IdealStep(cfg, ideal, e.now, e.op)) && Fits(cfg, IdealStep(cfg, ideal, e.now, e.op))
    ensures AllComplete(cfg, Step(cfg, st, e.now, e.op), IdealStep(cfg, ideal, e.now, e.op), End(e))
  {
    var st' := Step(cfg, st, e.now, e.op);
    forall j | 0 <= j < cfg.shards
      ensures Complete(cfg, st'.shards[j], j, IdealStep(cfg, ideal, e.now, e.op), End(e))
    {
      assert Complete(cfg, st.shards[j], j, ideal, e.now);
      if Target(cfg, e.op) == Some(j) {
        var sketch := if Records(st.shards[j], e.now, e.op) then S.Step(cfg.p, st.sketch, S.Inc(cfg.hash(e.op.key))) else st.sketch;
        assert ShareFits(cfg, IdealStep(cfg, ideal, e.now, e.op), j);
        ShardStaysComplete(cfg, st.shards[j], j, ideal, Est(cfg, sketch), e);
      } else {
        OtherStaysComplete(cfg, st.shards[j], j, ideal, e);
      }
    }
  }

  /** Clock readings never go back. */
  ghost predicate Timely(events: seq<Event>) {
    forall i :: 0 < i < |events| ==> End(events[i-1]) <= events[i].now
  }

  ghost predicate FitsThroughout(cfg: Config, events: seq<Event>)
    requires cfg.Valid()
  {
    forall i :: 0 <= i <= |events| ==> Fits(cfg, IdealRun(cfg, events[..i]))
  }

  lemma {:induction false} RunStaysComplete(cfg: Config, events: seq<Event>, now: int)
    requires cfg.Valid() && SizesFitThroughout(cfg, events) && FitsThroughout(cfg, events) && Timely(events)
    requires events != [] ==> End(Last(events)) <= now
    ensures AllComplete(cfg, Run(cfg, events), IdealRun(cfg, events), now)
  {
    if events != [] {
      var init, e := events[..|events|-1], Last(events);
      assert forall i :: 0 <= i <= |init| ==> init[..i] == events[..i];
      assert events[..|events|] == events;
      SizesFitBefore(cfg, events);
      RunStaysComplete(cfg, init, e.now);
      RunRefines(cfg, init);
      StepStaysComplete(cfg, Run(cfg, init), IdealRun(cfg, init), e);
      CompleteLater(cfg, Run(cfg, events), IdealRun(cfg, events), End(e), now);
    }
  }

  lemma CompleteLater(cfg: Config, st: Store, ideal: Ideal, now: int, later: int)
    requires Shaped(cfg, st) && AllComplete(cfg, st, ideal, now) && now <= later
    ensures AllComplete(cfg, st, ideal, later)
  {
    forall i | 0 <= i < cfg.shards ensures Complete(cfg, st.shards[i], i, ideal, later) {
      assert Complete(cfg, st.shards[i], i, ideal, now);
    }
  }

  ghost function IdealLookup(ideal: Ideal, now: int, k: string): Option<Fields> {
    if Alive(ideal, now, k) then Some(ideal[k].value) else None
  }

  /**
   If the ideal records of every shard always fit its share of the budget, nothing is
   ever evicted or rejected: every later lookup answers exactly like the ideal map.
   */
  lemma FittingRunIsExact(cfg: Config, events: seq<Event>, now: int, k: string)
    requires cfg.Valid() && SizesFitThroughout(cfg, events) && FitsThroughout(cfg, events) && Timely(events)
    requires k != "" && (events != [] ==> End(Last(events)) <= now)
    ensures Lookup(cfg, Run(cfg, events), now, k) == IdealLookup(IdealRun(cfg, events), now, k)
  {
    RunRefines(cfg, events);
    RunStaysComplete(cfg, events, now);
    var i := cfg.Home(k);
    assert ShardRefines(cfg, Run(cfg, events).shards[i], i, IdealRun(cfg, events));
    assert Complete(cfg, Run(cfg, events).shards[i], i, IdealRun(cfg, events), now);
  }

  // ---------- Stored sizes stay truthful ----------

  ghost predicate AllTruthful(ideal: Ideal) {
    forall k :: k in ideal ==> Truthful(k, ideal[k])
  }

  /** No Append of this run stops part way after having extended a field. */
  ghost predicate CleanRun(cfg: Config, events: seq<Event>) {
    forall i :: 0 <= i < |events| ==> CleanEvent(IdealRun(cfg, events[..i]), events[i])
  }

  ghost predicate CleanEvent(ideal: Ideal, e: Event) {
    e.op.AppendOp? && Alive(ideal, e.now, e.op.key) ==> CleanAppend(ideal[e.op.key].value, e.op.appends)
  }

  lemma StepStaysTruthful(cfg: Config, ideal: Ideal, e: Event)
    requires AllTruthful(ideal) && CleanEvent(ideal, e)
    ensures AllTruthful(IdealStep(cfg, ideal, e.now, e.op))
  {
    match e.op
    case IncrementOp(k, offsets) =>
      if Alive(ideal, e.now, k) { IncrementKeepsTruth(k, ideal[k], offsets); }
    case AppendOp(k, appends) =>
      if Alive(ideal, e.now, k) { CleanAppendKeepsTruth(k, ideal[k], appends); }
    case _ =>
  }

  lemma {:induction false} IdealStaysTruthful(cfg: Config, events: seq<Event>)
    requires CleanRun(cfg, events)
    ensures AllTruthful(IdealRun(cfg, events))
  {
    if events != [] {
      var init := events[..|events|-1];
      assert forall i :: 0 <= i <= |init| ==> init[..i] == events[..i];
      assert CleanRun(cfg, init) by {
        forall i | 0 <= i < |init| ensures CleanEvent(IdealRun(cfg, init[..i]), init[i]) {
          assert CleanEvent(IdealRun(cfg, events[..i]), events[i]);
        }
      }
      IdealStaysTruthful(cfg, init);
      assert CleanEvent(IdealRun(cfg, events[..|init|]), events[|init|]);
      StepStaysTruthful(cfg, IdealRun(cfg, init), Last(events));
    }
  }

  /** In every clean run each stored size is the size of the value it accounts for. */
  lemma StoredSizesTruthful(cfg: Config, events: seq<Event>, i: nat, k: string)
    requires cfg.Valid() && SizesFitThroughout(cfg, events) && CleanRun(cfg, events)
    requires i < cfg.shards && k in Run(cfg, events).shards[i].data
    ensures Truthful(k, Run(cfg, events).shards[i].data[k])
  {
    RunRefines(cfg, events);
    IdealStaysTruthful(cfg, events);
    assert ShardRefines(cfg, Run(cfg, events).shards[i], i, IdealRun(cfg, events));
  }
}
