/** The worker overseer (workers/overseer.go, runtime.go, watchdog.go, restart.go) as a state machine. */
module WorkerProtocol {
  /*
   * Each step is one section of the source that holds a lock, one channel operation or one timer event, so every
   * interleaving of launches, failures, late and duplicate signals, heartbeat sweeps, delayed restarts, overseer
   * panics and cancellation is a sequence of steps.
   */

  import opened Collections
  import B = RestartBudget

  type Id = string

  datatype Config = Config(name: string, maxCount: int, enabled: bool, hasFactory: bool) {
    /** How many workers startAllWorkers launches for this config: none unless it is enabled and valid. */
    function Quota(): nat {
      if enabled && name != "" && maxCount > 0 && hasFactory then maxCount else 0
    }
  }

  datatype Policy = Policy(limit: nat, window: int, signalTTL: int, heartbeat: int, selfLimit: nat, selfWindow: int)

  // ---------- The registry ----------

  /** A running worker: its config and, when it has a run context, its last heartbeat. */
  datatype Running = Running(cfg: nat, beat: Option<int>)

  datatype Registry = Registry(byID: map<Id, Running>, cfgByID: map<Id, nat>)

  function Register(r: Registry, id: Id, cfg: nat, beat: Option<int>): Registry {
    if id == "" then r else Registry(r.byID[id := Running(cfg, beat)], r.cfgByID[id := cfg])
  }

  /** The config of the worker that left, if it was registered. */
  function Unregister(r: Registry, id: Id): (Option<nat>, Registry) {
    if id == "" then (None, r) else
    (if id in r.byID then Some(r.byID[id].cfg) else if id in r.cfgByID then Some(r.cfgByID[id]) else None,
     Registry(r.byID - {id}, r.cfgByID - {id}))
  }

  predicate IsStale(r: Registry, id: Id, now: int, timeout: int) {
    id in r.byID && r.byID[id].beat.Some? && now - r.byID[id].beat.value > timeout
  }

  // ---------- Failure signals ----------

  function Recent(seen: map<Id, int>, now: int, ttl: int): map<Id, int> {
    map id | id in seen && now - seen[id] <= ttl :: seen[id]
  }

  function Emit(seen: map<Id, int>, now: int, ttl: int, id: Id): (bool, map<Id, int>) {
    if id == "" then (true, seen) else
    var recent := Recent(seen, now, ttl);
    if id in recent then (false, recent) else (true, recent[id := now])
  }

  function Send(chan: seq<Id>, cap: nat, id: Id): seq<Id> {
    if |chan| < cap then chan + [id] else chan
  }

  // ---------- States ----------

  datatype Monitor = Up | Sleeping | Down

  datatype Emission = Emission(id: Id, at: int)

  /**
   The worker ids: the registry; `detached`, workers that have left it and are about to be
   rescheduled; `lost`, those that never will be; and what has happened to ids so far.
   */
  datatype Ids = Ids(reg: Registry, detached: map<Id, nat>, lost: map<Id, nat>,
                     issued: set<Id>, departures: seq<Id>, rescheduled: seq<Id>)

  /** Launches per config: not begun, under way, delayed by a restart timer, given up. */
  datatype Launches = Launches(toStart: multiset<nat>, underWay: multiset<nat>, pending: multiset<nat>, lost: multiset<nat>)

  datatype State = State(now: int, cancelled: bool, monitor: Monitor, selfRestarts: seq<int>,
                         chan: seq<Id>, cap: nat, seen: map<Id, int>, history: map<string, seq<int>>,
                         emissions: seq<Emission>, attempts: map<string, seq<int>>,
                         ids: Ids, launches: Launches)

  function Quotas(cfgs: seq<Config>): multiset<nat> {
    if cfgs == [] then multiset{} else Quotas(cfgs[..|cfgs|-1])[|cfgs| - 1 := cfgs[|cfgs|-1].Quota()]
  }

  function Init(cfgs: seq<Config>, now: int): State {
    State(now, false, Up, [], [], if |Quotas(cfgs)| < 1 then 1 else |Quotas(cfgs)|, map[], map[], [], map[],
          Ids(Registry(map[], map[]), map[], map[], {}, [], []),
          Launches(Quotas(cfgs), multiset{}, multiset{}, multiset{}))
  }

  // ---------- Steps on ids ----------

  /** Take `id` out of the registry and hand it to the monitor; nothing happens for an unknown id. */
  function Depart(ids: Ids, id: Id): Ids {
    var (cfg, reg) := Unregister(ids.reg, id);
    match cfg
    case None => ids.(reg := reg)
    case Some(c) => ids.(reg := reg, detached := ids.detached[id := c], departures := ids.departures + [id])
  }

  /** staleRunningWorkers, visiting the registry in `order`. */
  function Collect(ids: Ids, order: seq<Id>, now: int, timeout: int): Ids
    decreases |order|
  {
    if order == [] then ids
    else Collect(if IsStale(ids.reg, order[0], now, timeout) then Depart(ids, order[0]) else ids, order[1..], now, timeout)
  }

  function Enter(ids: Ids, c: nat, id: Id, now: int): Ids {
    ids.(issued := ids.issued + {id}, reg := Register(ids.reg, id, c, Some(now)))
  }

  /** A restart timer is armed for the worker that left. */
  function Rearm(ids: Ids, id: Id): Ids {
    ids.(detached := ids.detached - {id}, rescheduled := ids.rescheduled + [id])
  }

  /** The worker that left is not restarted. */
  function GiveUp(ids: Ids, id: Id): Ids
    requires id in ids.detached
  {
    ids.(detached := ids.detached - {id}, lost := ids.lost[id := ids.detached[id]])
  }

  /** The workers the monitor was about to reschedule are forgotten. */
  function Forget(ids: Ids): Ids {
    ids.(lost := ids.lost + ids.detached, detached := map[])
  }

  function HeardFrom(ids: Ids, id: Id, now: int): Ids {
    if id in ids.reg.byID && ids.reg.byID[id].beat.Some?
    then ids.(reg := ids.reg.(byID := ids.reg.byID[id := ids.reg.byID[id].(beat := Some(now))])) else ids
  }

  // ---------- Steps on launches ----------

  function Begin(l: Launches, c: nat): Launches {
    l.(toStart := l.toStart - multiset{c}, underWay := l.underWay + multiset{c})
  }

  function Finish(l: Launches, c: nat): Launches {
    l.(underWay := l.underWay - multiset{c})
  }

  function Delay(l: Launches, c: nat): Launches {
    l.(pending := l.pending + multiset{c})
  }

  function Abandon(l: Launches, c: nat): Launches {
    l.(lost := l.lost + multiset{c})
  }

  function Wake(l: Launches, c: nat): Launches {
    l.(pending := l.pending - multiset{c}, underWay := l.underWay + multiset{c})
  }

  function Expire(l: Launches, c: nat): Launches {
    l.(pending := l.pending - multiset{c}, lost := l.lost + multiset{c})
  }

  // ---------- Steps ----------

  datatype Step =
    | StartOne(cfg: nat)              // startAllWorkers launches the next worker of a config
    | Launch(cfg: nat, id: Id)        // the factory succeeds: fresh id, registration
    | FactoryError(cfg: nat)          // the factory fails: straight to a scheduled restart
    | Beat(id: Id)
    | Signal(id: Id)                  // a worker, or anyone, reports a failure
    | Receive                         // the monitor takes a signal and unregisters the worker
    | Sweep(order: seq<Id>)           // the watchdog collects stale workers in map order
    | Schedule(id: Id, name: string)  // a worker that left is rescheduled under `name`
    | Fire(cfg: nat)                  // a restart timer fires
    | DropTimer(cfg: nat)             // a restart timer sees the cancelled context
    | Crash                           // the overseer goroutine panics
    | Restart                         // it restarts itself with a fresh channel
    | Cancel
    | Tick(delta: nat)

  function HistoryOf(s: State, name: string): seq<int> {
    if name in s.history then s.history[name] else []
  }

  function AttemptsOf(s: State, name: string): seq<int> {
    if name in s.attempts then s.attempts[name] else []
  }

  /** scheduleWorkerRestart: true when a restart timer is armed. */
  function TryRestart(p: Policy, s: State, name: string): (bool, State) {
    if s.cancelled then (false, s) else
    var h := B.Track(HistoryOf(s, name), s.now, p.window);
    (|h| <= p.limit, s.(history := s.history[name := h], attempts := s.attempts[name := AttemptsOf(s, name) + [s.now]]))
  }

  function FactoryFailed(p: Policy, s: State, c: nat, name: string): State {
    var (armed, s') := TryRestart(p, s, name);
    var l := Finish(s.launches, c);
    s'.(launches := if armed then Delay(l, c) else Abandon(l, c))
  }

  function Rescheduled(p: Policy, s: State, id: Id, name: string): State
    requires id in s.ids.detached
  {
    var (armed, s') := TryRestart(p, s, name);
    if armed then s'.(ids := Rearm(s.ids, id), launches := Delay(s.launches, s.ids.detached[id]))
    else s'.(ids := GiveUp(s.ids, id))
  }

  function Signalled(p: Policy, s: State, id: Id): State {
    var (emit, seen) := Emit(s.seen, s.now, p.signalTTL, id);
    if emit then s.(seen := seen, emissions := s.emissions + [Emission(id, s.now)], chan := Send(s.chan, s.cap, id))
    else s.(seen := seen)
  }

  function Crashed(p: Policy, s: State): State {
    var attempts := B.Track(s.selfRestarts, s.now, p.selfWindow);
    s.(monitor := if |attempts| > p.selfLimit then Down else Sleeping, selfRestarts := attempts, ids := Forget(s.ids))
  }

  function Next(p: Policy, cfgs: seq<Config>, s: State, step: Step): State {
    var l := s.launches;
    match step
    case StartOne(c) =>
      if s.cancelled || l.toStart[c] == 0 then s
      else s.(launches := Begin(l, c))
    case Launch(c, id) =>
      if l.underWay[c] == 0 || id == "" || id in s.ids.issued then s
      else s.(launches := Finish(l, c), ids := Enter(s.ids, c, id, s.now))
    case FactoryError(c) =>
      if l.underWay[c] == 0 then s else FactoryFailed(p, s, c, if c < |cfgs| then cfgs[c].name else "")
    case Beat(id) => s.(ids := HeardFrom(s.ids, id, s.now))
    case Signal(id) => Signalled(p, s, id)
    case Receive =>
      if s.monitor.Up? && s.chan != [] then s.(chan := s.chan[1..], ids := Depart(s.ids, s.chan[0])) else s
    case Sweep(order) =>
      if s.monitor.Up? && p.heartbeat > 0 then s.(ids := Collect(s.ids, order, s.now, p.heartbeat)) else s
    case Schedule(id, name) =>
      if s.monitor.Up? && id in s.ids.detached then Rescheduled(p, s, id, name) else s
    case Fire(c) =>
      if l.pending[c] == 0 then s
      else s.(launches := Wake(l, c))
    case DropTimer(c) =>
      if !s.cancelled || l.pending[c] == 0 then s
      else s.(launches := Expire(l, c))
    case Crash => if s.monitor.Up? then Crashed(p, s) else s
    case Restart => if s.monitor.Sleeping? && !s.cancelled then s.(monitor := Up, chan := []) else s
    case Cancel => s.(cancelled := true)
    case Tick(d) => s.(now := s.now + d)
  }

  function Run(p: Policy, cfgs: seq<Config>, start: int, steps: seq<Step>): State {
    if steps == [] then Init(cfgs, start) else Next(p, cfgs, Run(p, cfgs, start, steps[..|steps|-1]), Last(steps))
  }

  // ---------- Ids are used once ----------

  /** The two registry maps are in step. */
  ghost predicate Synced(r: Registry) {
    r.byID.Keys == r.cfgByID.Keys && forall id :: id in r.byID ==> r.byID[id].cfg == r.cfgByID[id]
  }

  ghost predicate Inv(ids: Ids) {
    && Synced(ids.reg)
    && "" !in ids.issued
    && ids.reg.cfgByID.Keys <= ids.issued && Elements(ids.departures) <= ids.issued
    && ids.reg.cfgByID.Keys !! Elements(ids.departures)
    && Distinct(ids.departures) && Distinct(ids.rescheduled)
    && ids.detached.Keys <= Elements(ids.departures) && ids.lost.Keys <= Elements(ids.departures)
    && Elements(ids.rescheduled) <= Elements(ids.departures)
    && ids.detached.Keys !! ids.lost.Keys
    && ids.detached.Keys !! Elements(ids.rescheduled) && ids.lost.Keys !! Elements(ids.rescheduled)
  }

  lemma ElementsSnoc(a: seq<Id>, x: Id)
    ensures Elements(a + [x]) == Elements(a) + {x}
    ensures Distinct(a) && x !in a ==> Distinct(a + [x])
  {
    assert (a + [x])[..|a|] == a;
  }

  lemma DepartKeepsInv(ids: Ids, id: Id)
    requires Inv(ids)
    ensures Inv(Depart(ids, id))
  {
    ElementsSnoc(ids.departures, id);
    if id != "" && id in ids.reg.cfgByID {
      assert id !in Elements(ids.departures);
    } else if id != "" {
      assert Depart(ids, id).reg == ids.reg;
    }
  }

  lemma {:induction false} CollectKeepsInv(ids: Ids, order: seq<Id>, now: int, timeout: int)
    requires Inv(ids)
    ensures Inv(Collect(ids, order, now, timeout))
    decreases |order|
  {
    if order != [] {
      DepartKeepsInv(ids, order[0]);
      CollectKeepsInv(if IsStale(ids.reg, order[0], now, timeout) then Depart(ids, order[0]) else ids, order[1..], now, timeout);
    }
  }

  lemma EnterKeepsInv(ids: Ids, c: nat, id: Id, now: int)
    requires Inv(ids) && id != "" && id !in ids.issued
    ensures Inv(Enter(ids, c, id, now))
  {
    assert Enter(ids, c, id, now).reg.byID.Keys == ids.reg.byID.Keys + {id};
  }

  lemma RearmKeepsInv(ids: Ids, id: Id)
    requires Inv(ids) && id in ids.detached
    ensures Inv(Rearm(ids, id)) && Inv(GiveUp(ids, id))
  {
    ElementsSnoc(ids.rescheduled, id);
    assert id in Elements(ids.departures) && id !in Elements(ids.rescheduled);
  }

  lemma ForgetKeepsInv(ids: Ids)
    requires Inv(ids)
    ensures Inv(Forget(ids))
  {
  }

  lemma BeatKeepsInv(ids: Ids, id: Id, now: int)
    requires Inv(ids)
    ensures Inv(HeardFrom(ids, id, now))
  {
    assert HeardFrom(ids, id, now).reg.byID.Keys == ids.reg.byID.Keys;
  }

  lemma RescheduleKeepsInv(p: Policy, s: State, id: Id, name: string)
    requires Inv(s.ids) && id in s.ids.detached
    ensures Inv(Rescheduled(p, s, id, name).ids)
  {
    RearmKeepsInv(s.ids, id);
  }

  lemma NextKeepsInv(p: Policy, cfgs: seq<Config>, s: State, step: Step)
    requires Inv(s.ids)
    ensures Inv(Next(p, cfgs, s, step).ids)
  {
    match step
    case Launch(c, id) => if id != "" && id !in s.ids.issued { EnterKeepsInv(s.ids, c, id, s.now); }
    case Beat(id) => BeatKeepsInv(s.ids, id, s.now);
    case Receive => if s.chan != [] { DepartKeepsInv(s.ids, s.chan[0]); }
    case Sweep(order) => CollectKeepsInv(s.ids, order, s.now, p.heartbeat);
    case Schedule(id, name) => if id in s.ids.detached { RescheduleKeepsInv(p, s, id, name); }
    case Crash => ForgetKeepsInv(s.ids);
    case _ =>
  }

  lemma {:induction false} RunInv(p: Policy, cfgs: seq<Config>, start: int, steps: seq<Step>)
    ensures Inv(Run(p, cfgs, start, steps).ids)
  {
    if steps != [] {
      RunInv(p, cfgs, start, steps[..|steps|-1]);
      NextKeepsInv(p, cfgs, Run(p, cfgs, start, steps[..|steps|-1]), Last(steps));
    }
  }

  /** A worker id leaves the registry at most once, causes at most one scheduled restart, and is never registered again. */
  lemma DeparturesUnique(p: Policy, cfgs: seq<Config>, start: int, steps: seq<Step>)
    ensures var ids := Run(p, cfgs, start, steps).ids;
            && NoDup(ids.departures) && NoDup(ids.rescheduled)
            && Elements(ids.rescheduled) <= Elements(ids.departures)
            && ids.reg.byID.Keys !! Elements(ids.departures)
            && Synced(ids.reg)
  {
    RunInv(p, cfgs, start, steps);
    DistinctIsNoDup(Run(p, cfgs, start, steps).ids.departures);
    DistinctIsNoDup(Run(p, cfgs, start, steps).ids.rescheduled);
  }

  // ---------- Slots are conserved ----------

  /** How many ids of `m` belong to config `c`. */
  function Of(m: map<Id, nat>, c: nat): nat {
    |set id | id in m && m[id] == c|
  }

  lemma OfInsert(m: map<Id, nat>, id: Id, d: nat, c: nat)
    requires id !in m
    ensures Of(m[id := d], c) == Of(m, c) + if d == c then 1 else 0
  {
    var m' := m[id := d];
    var before, after := set i | i in m && m[i] == c, set i | i in m' && m'[i] == c;
    assert after == if d == c then before + {id} else before;
  }

  lemma OfRemove(m: map<Id, nat>, id: Id, c: nat)
    requires id in m
    ensures Of(m, c) == Of(m - {id}, c) + if m[id] == c then 1 else 0
  {
    OfInsert(m - {id}, id, m[id], c);
    assert (m - {id})[id := m[id]] == m;
  }

  lemma OfUnion(a: map<Id, nat>, b: map<Id, nat>, c: nat)
    requires a.Keys !! b.Keys
    ensures Of(a + b, c) == Of(a, c) + Of(b, c)
  {
    var m := a + b;
    var sa, sb := set i | i in a && a[i] == c, set i | i in b && b[i] == c;
    assert (set i | i in m && m[i] == c) == sa + sb;
    assert sa !! sb;
  }

  /** Workers of config `c`: registered, about to be rescheduled, or given up. */
  function Workers(ids: Ids, c: nat): nat {
    Of(ids.reg.cfgByID, c) + Of(ids.detached, c) + Of(ids.lost, c)
  }

  /** Launches of config `c`: not begun, under way, delayed or given up. */
  function Started(l: Launches, c: nat): nat {
    l.toStart[c] + l.underWay[c] + l.pending[c] + l.lost[c]
  }

  /** Every place a worker slot of config `c` can be in. */
  function Slots(s: State, c: nat): nat {
    Workers(s.ids, c) + Started(s.launches, c)
  }

  lemma DepartKeepsWorkers(ids: Ids, id: Id, c: nat)
    requires Inv(ids)
    ensures Workers(Depart(ids, id), c) == Workers(ids, c)
  {
    if id != "" && id in ids.reg.cfgByID {
      OfRemove(ids.reg.cfgByID, id, c);
      assert id !in Elements(ids.departures);
      OfInsert(ids.detached, id, ids.reg.cfgByID[id], c);
    } else if id != "" {
      assert Depart(ids, id).reg == ids.reg;
    }
  }

  lemma {:induction false} CollectKeepsWorkers(ids: Ids, order: seq<Id>, now: int, timeout: int, c: nat)
    requires Inv(ids)
    ensures Workers(Collect(ids, order, now, timeout), c) == Workers(ids, c)
    decreases |order|
  {
    if order != [] {
      DepartKeepsInv(ids, order[0]);
      DepartKeepsWorkers(ids, order[0], c);
      CollectKeepsWorkers(if IsStale(ids.reg, order[0], now, timeout) then Depart(ids, order[0]) else ids, order[1..], now, timeout, c);
    }
  }

  lemma EnterAddsWorker(ids: Ids, d: nat, id: Id, now: int, c: nat)
    requires Inv(ids) && id != "" && id !in ids.issued
    ensures Workers(Enter(ids, d, id, now), c) == Workers(ids, c) + if d == c then 1 else 0
  {
    OfInsert(ids.reg.cfgByID, id, d, c);
  }

  lemma RearmTakesWorker(ids: Ids, id: Id, c: nat)
    requires Inv(ids) && id in ids.detached
    ensures Workers(ids, c) == Workers(Rearm(ids, id), c) + if ids.detached[id] == c then 1 else 0
    ensures Workers(ids, c) == Workers(GiveUp(ids, id), c)
  {
    OfRemove(ids.detached, id, c);
    OfInsert(ids.lost, id, ids.detached[id], c);
  }

  lemma ForgetKeepsWorkers(ids: Ids, c: nat)
    requires Inv(ids)
    ensures Workers(Forget(ids), c) == Workers(ids, c)
  {
    OfUnion(ids.lost, ids.detached, c);
    assert Of(map[], c) == 0;
  }

  /** A launch moves from one place to another; only finishing it takes one away. */
  lemma MovesKeepStarted(l: Launches, d: nat, c: nat)
    ensures l.toStart[d] > 0 ==> Started(Begin(l, d), c) == Started(l, c)
    ensures l.underWay[d] > 0 ==> Started(Finish(l, d), c) == Started(l, c) - if d == c then 1 else 0
    ensures Started(Delay(l, d), c) == Started(l, c) + if d == c then 1 else 0
    ensures Started(Abandon(l, d), c) == Started(l, c) + if d == c then 1 else 0
    ensures l.pending[d] > 0 ==> Started(Wake(l, d), c) == Started(l, c) && Started(Expire(l, d), c) == Started(l, c)
  {
  }

  lemma RescheduleKeepsSlots(p: Policy, s: State, id: Id, name: string, c: nat)
    requires Inv(s.ids) && id in s.ids.detached
    ensures Slots(Rescheduled(p, s, id, name), c) == Slots(s, c)
  {
    RearmTakesWorker(s.ids, id, c);
    MovesKeepStarted(s.launches, s.ids.detached[id], c);
  }

  lemma FactoryFailureKeepsSlots(p: Policy, s: State, d: nat, name: string, c: nat)
    requires s.launches.underWay[d] > 0
    ensures Slots(FactoryFailed(p, s, d, name), c) == Slots(s, c)
  {
    MovesKeepStarted(s.launches, d, c);
    MovesKeepStarted(Finish(s.launches, d), d, c);
  }

  lemma StartKeepsSlots(p: Policy, cfgs: seq<Config>, s: State, d: nat, c: nat)
    ensures Slots(Next(p, cfgs, s, StartOne(d)), c) == Slots(s, c)
  {
    MovesKeepStarted(s.launches, d, c);
  }

  lemma FireKeepsSlots(p: Policy, cfgs: seq<Config>, s: State, d: nat, c: nat)
    ensures Slots(Next(p, cfgs, s, Fire(d)), c) == Slots(s, c)
  {
    MovesKeepStarted(s.launches, d, c);
  }

  lemma DropTimerKeepsSlots(p: Policy, cfgs: seq<Config>, s: State, d: nat, c: nat)
    ensures Slots(Next(p, cfgs, s, DropTimer(d)), c) == Slots(s, c)
  {
    MovesKeepStarted(s.launches, d, c);
  }

  lemma LaunchKeepsSlots(p: Policy, cfgs: seq<Config>, s: State, d: nat, id: Id, c: nat)
    requires Inv(s.ids)
    ensures Slots(Next(p, cfgs, s, Launch(d, id)), c) == Slots(s, c)
  {
    MovesKeepStarted(s.launches, d, c);
    if id != "" && id !in s.ids.issued { EnterAddsWorker(s.ids, d, id, s.now, c); }
  }

  lemma FailKeepsSlots(p: Policy, cfgs: seq<Config>, s: State, d: nat, c: nat)
    ensures Slots(Next(p, cfgs, s, FactoryError(d)), c) == Slots(s, c)
  {
    if s.launches.underWay[d] > 0 { FactoryFailureKeepsSlots(p, s, d, if d < |cfgs| then cfgs[d].name else "", c); }
  }

  lemma ReceiveKeepsSlots(p: Policy, cfgs: seq<Config>, s: State, c: nat)
    requires Inv(s.ids)
    ensures Slots(Next(p, cfgs, s, Receive), c) == Slots(s, c)
  {
    if s.chan != [] { DepartKeepsWorkers(s.ids, s.chan[0], c); }
  }

  lemma ScheduleKeepsSlots(p: Policy, cfgs: seq<Config>, s: State, id: Id, name: string, c: nat)
    requires Inv(s.ids)
    ensures Slots(Next(p, cfgs, s, Schedule(id, name)), c) == Slots(s, c)
  {
    if id in s.ids.detached { RescheduleKeepsSlots(p, s, id, name, c); }
  }

  predicate Launching(step: Step) {
    step.StartOne? || step.Launch? || step.FactoryError? || step.Fire? || step.DropTimer?
  }

  lemma LaunchingKeepsSlots(p: Policy, cfgs: seq<Config>, s: State, step: Step, c: nat)
    requires Inv(s.ids) && Launching(step)
    ensures Slots(Next(p, cfgs, s, step), c) == Slots(s, c)
  {
    match step
    case StartOne(d) => StartKeepsSlots(p, cfgs, s, d, c);
    case Launch(d, id) => LaunchKeepsSlots(p, cfgs, s, d, id, c);
    case FactoryError(d) => FailKeepsSlots(p, cfgs, s, d, c);
    case Fire(d) => FireKeepsSlots(p, cfgs, s, d, c);
    case DropTimer(d) => DropTimerKeepsSlots(p, cfgs, s, d, c);
  }

  /** Every step of the protocol conserves the slots of every config. */
  lemma NextKeepsSlots(p: Policy, cfgs: seq<Config>, s: State, step: Step, c: nat)
    requires Inv(s.ids)
    ensures Slots(Next(p, cfgs, s, step), c) == Slots(s, c)
  {
    if Launching(step) {
      LaunchingKeepsSlots(p, cfgs, s, step, c);
    } else {
      match step
      case Receive => ReceiveKeepsSlots(p, cfgs, s, c);
      case Sweep(order) => CollectKeepsWorkers(s.ids, order, s.now, p.heartbeat, c);
      case Schedule(id, name) => ScheduleKeepsSlots(p, cfgs, s, id, name, c);
      case Crash => ForgetKeepsWorkers(s.ids, c);
      case _ =>
    }
  }

  lemma {:induction false} QuotasOf(cfgs: seq<Config>, c: nat)
    ensures Quotas(cfgs)[c] == if c < |cfgs| then cfgs[c].Quota() else 0
  {
    if cfgs != [] { QuotasOf(cfgs[..|cfgs|-1], c); }
  }

  /** In every interleaving, the slots of a config add up to its MaxCount. */
  lemma {:induction false} SlotsConserved(p: Policy, cfgs: seq<Config>, start: int, steps: seq<Step>, c: nat)
    ensures Slots(Run(p, cfgs, start, steps), c) ==
            if c < |cfgs| && cfgs[c].enabled && cfgs[c].hasFactory && cfgs[c].name != "" && cfgs[c].maxCount > 0
            then cfgs[c].maxCount else 0
  {
    if steps != [] {
      SlotsConserved(p, cfgs, start, steps[..|steps|-1], c);
      RunInv(p, cfgs, start, steps[..|steps|-1]);
      NextKeepsSlots(p, cfgs, Run(p, cfgs, start, steps[..|steps|-1]), Last(steps), c);
    } else {
      QuotasOf(cfgs, c);
      assert Of(map[], c) == 0;
    }
  }

  /** Registered workers plus pending delayed restarts never exceed MaxCount. */
  lemma NeverTooMany(p: Policy, cfgs: seq<Config>, start: int, steps: seq<Step>, c: nat)
    requires c < |cfgs|
    ensures var s := Run(p, cfgs, start, steps);
            Of(s.ids.reg.cfgByID, c) + s.launches.pending[c] <= cfgs[c].Quota()
  {
    SlotsConserved(p, cfgs, start, steps, c);
  }
}
