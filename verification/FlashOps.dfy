/** What each FlashDB operation does, told by later lookups and the clock alone. */
module FlashOps {
  import opened Collections
  import opened FlashRecord
  import opened Widths
  import opened FlashStore
  import Sh = FlashShard
  import S = Sketch

  /** How long a record lives that is set with `ttl`; 0 or less means for ever. */
  function Life(cfg: Config, ttl: int): int {
    if ttl == 0 && cfg.defaultTTL > 0 then cfg.defaultTTL else ttl
  }

  /** Set answers true and the record fits its shard. */
  ghost predicate Keeps(cfg: Config, st: Store, now: int, k: string, v: Fields, ttl: int)
    requires Shaped(cfg, st)
  {
    SetAnswer(cfg, st, now, k, v, ttl) && ComputeSize(k, v) <= st.shards[cfg.Home(k)].capacity
  }

  /** After Set a lookup finds the value if it was kept, until its life is over, and never afterwards. */
  lemma SetSeen(cfg: Config, st: Store, now: int, k: string, v: Fields, ttl: int, t: int)
    requires Shaped(cfg, st) && k != "" && Sh.Valid(st.shards[cfg.Home(k)]) && 0 <= ComputeSize(k, v) < TWO63
    ensures Lookup(cfg, Step(cfg, st, now, SetOp(k, v, ttl)), t, k) ==
            if Keeps(cfg, st, now, k, v, ttl) && (Life(cfg, ttl) <= 0 || t <= now + Life(cfg, ttl)) then Some(v) else None
  {
    var s, est := st.shards[cfg.Home(k)], Est(cfg, S.Step(cfg.p, st.sketch, S.Inc(cfg.hash(k))));
    var r := NewRecord(cfg, now, k, v, ttl);
    SetStep(cfg, st, now, k, v, ttl);
    Sh.SetTrueMeansStoredIff(s, est, k, r);
  }

  /** SetTTL keeps the value and replaces the rest of its life; a key that has none to begin with gets none. */
  lemma SetTTLSeen(cfg: Config, st: Store, now: int, k: string, ttl: int, t: int)
    requires Shaped(cfg, st) && k != ""
    ensures var found := Lookup(cfg, st, now, k);
      Lookup(cfg, Step(cfg, st, now, SetTTLOp(k, ttl)), t, k) == if ttl <= 0 || t <= now + ttl then found else None
  {
    SetTTLStep(cfg, st, now, k, ttl);
  }

  lemma DeleteSeen(cfg: Config, st: Store, now: int, k: string, t: int)
    requires Shaped(cfg, st)
    ensures Lookup(cfg, Step(cfg, st, now, DeleteOp(k)), t, k) == None
  {
  }

  /** Reading a key, or asking for its TTL, changes no lookup from then on. */
  lemma ReadsUnseen(cfg: Config, st: Store, now: int, k: string, later: int, t: int, other: string)
    requires Shaped(cfg, st) && t >= now
    ensures Lookup(cfg, Step(cfg, st, now, GetOp(k)), t, other) == Lookup(cfg, st, t, other)
    ensures Lookup(cfg, Step(cfg, st, now, ExistsOp(k)), t, other) == Lookup(cfg, st, t, other)
    ensures t >= later ==> Lookup(cfg, Step(cfg, st, now, GetTTLOp(k, later)), t, other) == Lookup(cfg, st, t, other)
  {
  }

  /** What a lookup gives after a value was replaced in place, its life untouched. */
  ghost function Replaced(cfg: Config, st: Store, now: int, t: int, k: string, v: Fields): Option<Fields>
    requires Shaped(cfg, st)
  {
    if Lookup(cfg, st, now, k).Some? && Lookup(cfg, st, t, k).Some? then Some(v) else None
  }

  ghost function Found(cfg: Config, st: Store, now: int, k: string): Fields
    requires Shaped(cfg, st)
  {
    match Lookup(cfg, st, now, k) case Some(v) => v case None => map[]
  }

  /** Increment replaces the value it finds, also when it fails part way, and leaves its life alone. */
  lemma IncrementSeen(cfg: Config, st: Store, now: int, k: string, offsets: seq<(string, int)>, t: int)
    requires Shaped(cfg, st) && k != "" && t >= now
    ensures Lookup(cfg, Step(cfg, st, now, IncrementOp(k, offsets)), t, k) ==
            Replaced(cfg, st, now, t, k, IncrementFields(Found(cfg, st, now, k), offsets).0)
  {
    IncrementStep(cfg, st, now, k, offsets);
  }

  lemma AppendedShard(s: Sh.Shard, now: int, k: string, appends: seq<(string, string)>)
    requires Sh.Valid(s) && Sh.Live(s, now, k) && AppendFields(s.data[k].value, appends).1.Ok?
    requires 0 <= ComputeSize(k, AppendFields(s.data[k].value, appends).0) < TWO63
    ensures var v, s' := AppendFields(s.data[k].value, appends).0, Sh.Append(s, now, k, appends).1;
      && (k in s'.data <==> ComputeSize(k, v) <= s.capacity)
      && (k in s'.data ==> s'.data[k].value == v && s'.data[k].expiry == s.data[k].expiry)
  {
    var r := AppendRecord(k, s.data[k], appends).0;
    Sh.StoreKeepsInStep(s, k, r);
    var s1 := Sh.Store(s, k, r).(size := Sh.Resized(s.size, s.data[k].size, r.size));
    Sh.BumpKeepsInStep(s1, k);
    assert k in Elements(s.order);
    Sh.FrontSurvivesTrimIff(Sh.Bump(s1, k));
  }

  /** So does Append, except that a value grown beyond its shard is gone. */
  lemma AppendSeen(cfg: Config, st: Store, now: int, k: string, appends: seq<(string, string)>, t: int)
    requires Shaped(cfg, st) && k != "" && t >= now && Sh.Valid(st.shards[cfg.Home(k)])
    requires 0 <= ComputeSize(k, AppendFields(Found(cfg, st, now, k), appends).0) < TWO63
    ensures var (v, status) := AppendFields(Found(cfg, st, now, k), appends);
      Lookup(cfg, Step(cfg, st, now, AppendOp(k, appends)), t, k) ==
      if status.Ok? && ComputeSize(k, v) > st.shards[cfg.Home(k)].capacity then None else Replaced(cfg, st, now, t, k, v)
  {
    var s := st.shards[cfg.Home(k)];
    AppendStep(cfg, st, now, k, appends);
    if Sh.Live(s, now, k) && AppendFields(s.data[k].value, appends).1.Ok? { AppendedShard(s, now, k, appends); }
  }

  /** Other keys are seen as before, except that Set and Append may push them out. */
  lemma OthersSeen(cfg: Config, st: Store, now: int, op: Op, t: int, other: string)
    requires Shaped(cfg, st) && !op.SweepOp? && other != op.key && t >= now
    ensures var after := Lookup(cfg, Step(cfg, st, now, op), t, other);
      after == Lookup(cfg, st, t, other) || ((op.SetOp? || op.AppendOp?) && after == None)
  {
    if op.key != "" && other != "" && cfg.Home(op.key) == cfg.Home(other) {
      var i := cfg.Home(op.key);
      var sketch := if Records(st.shards[i], now, op) then S.Step(cfg.p, st.sketch, S.Inc(cfg.hash(op.key))) else st.sketch;
      ShardStepFootprint(cfg, st.shards[i], Est(cfg, sketch), now, op);
    }
  }

  // The remaining TTL

  /**
   * A positive answer counts the whole seconds that are left at `later`. The answer 0 is also given within the second
   * after the end, and only a full second after the end is the key reported missing; -1 means that the record stays.
   */
  lemma GetTTLTells(s: Sh.Shard, now: int, later: int, k: string)
    requires Sh.Live(s, now, k)
    ensures match Sh.GetTTL(s, now, later, k).0
      case None => !Sh.Live(s, later - Sh.SECOND + 1, k)
      case Some(n) =>
        if n == -1 then forall t :: Sh.Live(s, t, k)
        else if n == 0 then Sh.Live(s, later - Sh.SECOND + 1, k) && !Sh.Live(s, later + Sh.SECOND, k)
        else n > 0 && Sh.Live(s, later + n * Sh.SECOND, k) && !Sh.Live(s, later + (n + 1) * Sh.SECOND, k)
  {
  }

  /** The answer tells whether the key is still there at `later` exactly unless the record ended within the last second. */
  lemma GetTTLRightIff(s: Sh.Shard, now: int, later: int, k: string)
    requires Sh.Live(s, now, k)
    ensures (Sh.GetTTL(s, now, later, k).0.Some? <==> Sh.Live(s, later, k)) <==>
            (s.data[k].expiry.None? || !(later - Sh.SECOND < s.data[k].expiry.value < later))
  {
  }

  /** A record that ends at 0, found alive at 0 and asked for its TTL one nanosecond later. */
  lemma GetTTLZeroExample(s: Sh.Shard, k: string)
    requires k in s.data && s.data[k].expiry == Some(0)
    ensures Sh.Live(s, 0, k) && Sh.GetTTL(s, 0, 1, k).0 == Some(0) && !Sh.Live(s, 1, k)
  {
  }
}
