/** The life of a single worker over whole overseer runs, told by the steps and the clock alone. */
module WorkerLife {
  import opened Collections
  import opened WorkerProtocol
  import B = RestartBudget
  import O = Overseer

  /** The clock after the steps: only Tick moves it. */
  function Clock(start: int, steps: seq<Step>): int {
    if steps == [] then start
    else Clock(start, steps[..|steps|-1]) + if Last(steps).Tick? then Last(steps).delta else 0
  }

  lemma NextClock(p: Policy, cfgs: seq<Config>, s: State, step: Step)
    ensures Next(p, cfgs, s, step).now == s.now + if step.Tick? then step.delta else 0
  {
  }

  lemma {:induction false} RunClock(p: Policy, cfgs: seq<Config>, start: int, steps: seq<Step>)
    ensures Run(p, cfgs, start, steps).now == Clock(start, steps)
  {
    if steps != [] {
      RunClock(p, cfgs, start, steps[..|steps|-1]);
      NextClock(p, cfgs, Run(p, cfgs, start, steps[..|steps|-1]), Last(steps));
    }
  }

  ghost predicate Registered(p: Policy, cfgs: seq<Config>, start: int, steps: seq<Step>, id: Id) {
    id in Run(p, cfgs, start, steps).ids.reg.byID
  }

  /** When the worker was last heard from: the time of its last Beat, or of the Launch that registered it. */
  ghost function Heard(p: Policy, cfgs: seq<Config>, start: int, steps: seq<Step>, id: Id): int {
    if steps == [] then start
    else
      var init, step := steps[..|steps|-1], Last(steps);
      if step == Beat(id) || (step.Launch? && step.id == id && !Registered(p, cfgs, start, init, id)) then Clock(start, steps)
      else Heard(p, cfgs, start, init, id)
  }

  // What a step does to the last heartbeat

  ghost predicate Silent(ids: Ids, id: Id, now: int, timeout: int) {
    id in ids.reg.byID && ids.reg.byID[id].beat.Some? && now - ids.reg.byID[id].beat.value > timeout
  }

  lemma DepartTells(ids: Ids, gone: Id, id: Id)
    requires Inv(ids) && id in ids.reg.byID
    ensures var ids' := Depart(ids, gone);
      if id == gone then id !in ids'.reg.byID && id in ids'.detached && ids'.detached[id] == ids.reg.byID[id].cfg
      else id in ids'.reg.byID && ids'.reg.byID[id] == ids.reg.byID[id]
  {
    assert id in ids.issued;
  }

  lemma DepartKeepsGone(ids: Ids, gone: Id, id: Id)
    requires Inv(ids) && id !in ids.reg.byID
    ensures id !in Depart(ids, gone).reg.byID
    ensures id in ids.detached ==> id in Depart(ids, gone).detached && Depart(ids, gone).detached[id] == ids.detached[id]
  {
  }

  lemma {:induction false} CollectKeepsGone(ids: Ids, order: seq<Id>, now: int, timeout: int, id: Id)
    requires Inv(ids) && id !in ids.reg.byID
    ensures var ids' := Collect(ids, order, now, timeout);
      && id !in ids'.reg.byID
      && (id in ids.detached ==> id in ids'.detached && ids'.detached[id] == ids.detached[id])
    decreases |order|
  {
    if order != [] {
      DepartKeepsInv(ids, order[0]);
      DepartKeepsGone(ids, order[0], id);
      CollectKeepsGone(if IsStale(ids.reg, order[0], now, timeout) then Depart(ids, order[0]) else ids, order[1..], now, timeout, id);
    }
  }

  /** A visited worker that is silent is taken, with its config; any other worker stays as it is. */
  lemma {:induction false} CollectTells(ids: Ids, order: seq<Id>, now: int, timeout: int, id: Id)
    requires Inv(ids) && id in ids.reg.byID
    ensures var ids' := Collect(ids, order, now, timeout);
      if id in order && Silent(ids, id, now, timeout)
      then id !in ids'.reg.byID && id in ids'.detached && ids'.detached[id] == ids.reg.byID[id].cfg
      else id in ids'.reg.byID && ids'.reg.byID[id] == ids.reg.byID[id]
    decreases |order|
  {
    if order != [] {
      var ids1 := if IsStale(ids.reg, order[0], now, timeout) then Depart(ids, order[0]) else ids;
      DepartKeepsInv(ids, order[0]);
      DepartTells(ids, order[0], id);
      if id in ids1.reg.byID {
        CollectTells(ids1, order[1..], now, timeout, id);
      } else {
        CollectKeepsGone(ids1, order[1..], now, timeout, id);
      }
    }
  }

  // Every registered worker carries the time it was last heard from

  ghost predicate Beats(s: State, id: Id, heard: int) {
    id in s.ids.reg.byID ==> s.ids.reg.byID[id].beat == Some(heard)
  }

  lemma SweepBeats(p: Policy, cfgs: seq<Config>, s: State, order: seq<Id>, id: Id, heard: int)
    requires Inv(s.ids) && Beats(s, id, heard)
    ensures Beats(Next(p, cfgs, s, Sweep(order)), id, heard)
  {
    if id in s.ids.reg.byID {
      CollectTells(s.ids, order, s.now, p.heartbeat, id);
    } else {
      CollectKeepsGone(s.ids, order, s.now, p.heartbeat, id);
    }
  }

  lemma LaunchBeats(p: Policy, cfgs: seq<Config>, s: State, c: nat, other: Id, id: Id, heard: int)
    requires Inv(s.ids) && Beats(s, id, heard)
    ensures Beats(Next(p, cfgs, s, Launch(c, other)), id, if other == id && id !in s.ids.reg.byID then s.now else heard)
  {
  }

  lemma NextBeats(p: Policy, cfgs: seq<Config>, s: State, step: Step, id: Id, heard: int)
    requires Inv(s.ids) && Beats(s, id, heard) && !step.Launch? && !step.Sweep?
    ensures Beats(Next(p, cfgs, s, step), id, if step == Beat(id) then s.now else heard)
  {
    if !TouchesIds(step) {
      IdsUntouched(p, cfgs, s, step);
    } else if step.Receive? && s.chan != [] {
      if id in s.ids.reg.byID { DepartTells(s.ids, s.chan[0], id); } else { DepartKeepsGone(s.ids, s.chan[0], id); }
    }
  }

  lemma {:induction false} RunBeats(p: Policy, cfgs: seq<Config>, start: int, steps: seq<Step>, id: Id)
    ensures Beats(Run(p, cfgs, start, steps), id, Heard(p, cfgs, start, steps, id))
  {
    if steps != [] {
      var init, step := steps[..|steps|-1], Last(steps);
      var s, heard := Run(p, cfgs, start, init), Heard(p, cfgs, start, init, id);
      RunBeats(p, cfgs, start, init, id);
      RunInv(p, cfgs, start, init);
      RunClock(p, cfgs, start, init);
      match step
      case Launch(c, other) => LaunchBeats(p, cfgs, s, c, other, id, heard);
      case Sweep(order) => SweepBeats(p, cfgs, s, order, id, heard);
      case _ => NextBeats(p, cfgs, s, step, id, heard);
    }
  }

  // Who leaves the registry, and when

  /** The monitor takes a failure signal of this very worker. */
  predicate TakesSignal(s: State, step: Step, id: Id) {
    s.monitor.Up? && step.Receive? && s.chan != [] && s.chan[0] == id
  }

  /** The watchdog visits the worker and finds it silent for longer than the timeout. */
  predicate FindsSilent(p: Policy, s: State, step: Step, id: Id, silence: int) {
    s.monitor.Up? && p.heartbeat > 0 && step.Sweep? && id in step.order && silence > p.heartbeat
  }

  predicate TouchesIds(step: Step) {
    step.Launch? || step.Beat? || step.Receive? || step.Sweep? || step.Schedule? || step.Crash?
  }

  lemma IdsUntouched(p: Policy, cfgs: seq<Config>, s: State, step: Step)
    requires !TouchesIds(step)
    ensures Next(p, cfgs, s, step).ids == s.ids
  {
  }

  lemma OtherStepsKeepRegistered(p: Policy, cfgs: seq<Config>, s: State, step: Step, id: Id)
    requires Inv(s.ids) && id in s.ids.reg.byID && !step.Receive? && !step.Sweep?
    ensures id in Next(p, cfgs, s, step).ids.reg.byID
  {
    if !TouchesIds(step) { IdsUntouched(p, cfgs, s, step); }
  }

  /** After the step the worker is out of the registry and waits, with its config, to be rescheduled. */
  ghost predicate Left(s: State, s': State, id: Id) {
    && id !in s'.ids.reg.byID
    && id in s.ids.reg.byID && id in s'.ids.detached && s'.ids.detached[id] == s.ids.reg.byID[id].cfg
  }

  lemma ReceiveTells(p: Policy, cfgs: seq<Config>, s: State, id: Id)
    requires Inv(s.ids) && id in s.ids.reg.byID
    ensures var s' := Next(p, cfgs, s, Receive); if TakesSignal(s, Receive, id) then Left(s, s', id) else id in s'.ids.reg.byID
  {
    if s.chan != [] { DepartTells(s.ids, s.chan[0], id); }
  }

  lemma SweepTells(p: Policy, cfgs: seq<Config>, s: State, order: seq<Id>, id: Id, heard: int)
    requires Inv(s.ids) && id in s.ids.reg.byID && Beats(s, id, heard)
    ensures var s' := Next(p, cfgs, s, Sweep(order));
      if FindsSilent(p, s, Sweep(order), id, s.now - heard) then Left(s, s', id) else id in s'.ids.reg.byID
  {
    CollectTells(s.ids, order, s.now, p.heartbeat, id);
  }

  /** The worker leaves in exactly two ways: its signal is taken, or it is found silent. */
  ghost predicate LeavesAsTold(p: Policy, cfgs: seq<Config>, s: State, step: Step, id: Id, silence: int) {
    var s' := Next(p, cfgs, s, step);
    if TakesSignal(s, step, id) || FindsSilent(p, s, step, id, silence) then Left(s, s', id) else id in s'.ids.reg.byID
  }

  lemma StepTells(p: Policy, cfgs: seq<Config>, s: State, step: Step, id: Id, heard: int)
    requires Inv(s.ids) && id in s.ids.reg.byID && Beats(s, id, heard)
    ensures LeavesAsTold(p, cfgs, s, step, id, s.now - heard)
  {
    if step.Receive? {
      ReceiveTells(p, cfgs, s, id);
    } else if step.Sweep? {
      SweepTells(p, cfgs, s, step.order, id, heard);
    } else {
      OtherStepsKeepRegistered(p, cfgs, s, step, id);
    }
  }

  /**
   * In every run a registered worker leaves the registry in exactly two ways: its failure signal is taken, or the
   * watchdog visits it more than the timeout after it was last heard from. It then waits, with its config, to be
   * rescheduled.
   */
  lemma LeavesIff(p: Policy, cfgs: seq<Config>, start: int, steps: seq<Step>, step: Step, id: Id)
    requires Registered(p, cfgs, start, steps, id)
    ensures LeavesAsTold(p, cfgs, Run(p, cfgs, start, steps), step, id, Clock(start, steps) - Heard(p, cfgs, start, steps, id))
  {
    var s := Run(p, cfgs, start, steps);
    RunInv(p, cfgs, start, steps);
    RunBeats(p, cfgs, start, steps, id);
    RunClock(p, cfgs, start, steps);
    StepTells(p, cfgs, s, step, id, Heard(p, cfgs, start, steps, id));
  }

  // Signals

  /** What is remembered are times of accepted signals. */
  ghost predicate SeenAreEmitted(s: State) {
    forall id :: id in s.seen ==> Emission(id, s.seen[id]) in s.emissions
  }

  lemma SignalKeepsSeen(p: Policy, s: State, id: Id)
    requires SeenAreEmitted(s)
    ensures SeenAreEmitted(Signalled(p, s, id))
  {
    var s' := Signalled(p, s, id);
    forall x | x in s'.seen ensures Emission(x, s'.seen[x]) in s'.emissions {
      if x in s.seen && s'.seen[x] == s.seen[x] { assert Emission(x, s.seen[x]) in s.emissions; }
    }
  }

  lemma {:induction false} RunSeen(p: Policy, cfgs: seq<Config>, start: int, steps: seq<Step>)
    ensures SeenAreEmitted(Run(p, cfgs, start, steps))
  {
    if steps != [] {
      var s := Run(p, cfgs, start, steps[..|steps|-1]);
      RunSeen(p, cfgs, start, steps[..|steps|-1]);
      if Last(steps).Signal? {
        SignalKeepsSeen(p, s, Last(steps).id);
      } else {
        O.OtherStepsKeepSignals(p, cfgs, s, Last(steps));
      }
    }
  }

  /** No signal of the worker was accepted within the TTL. */
  ghost predicate Quiet(s: State, id: Id, now: int, ttl: int) {
    forall e :: e in s.emissions && e.id == id ==> now - e.at > ttl
  }

  /** The signal is accepted and sent if there is room, or nothing happens. */
  ghost predicate SignalTold(s: State, s': State, id: Id, now: int, accepted: bool) {
    if accepted then s'.emissions == s.emissions + [Emission(id, now)] &&
                     s'.chan == if |s.chan| < s.cap then s.chan + [id] else s.chan
    else s'.emissions == s.emissions && s'.chan == s.chan
  }

  lemma AcceptsIff(p: Policy, s: State, id: Id)
    requires id != "" && SeenAreEmitted(s) && O.Remembered(s, p.signalTTL)
    ensures Emit(s.seen, s.now, p.signalTTL, id).0 <==> Quiet(s, id, s.now, p.signalTTL)
  {
    if !Quiet(s, id, s.now, p.signalTTL) {
      var e :| e in s.emissions && e.id == id && s.now - e.at <= p.signalTTL;
      var i :| 0 <= i < |s.emissions| && s.emissions[i] == e;
      assert id in s.seen && s.seen[id] >= e.at;
    } else if id in s.seen {
      assert Emission(id, s.seen[id]) in s.emissions;
    }
  }

  lemma SignalTells(p: Policy, s: State, id: Id)
    requires id != ""
    ensures SignalTold(s, Signalled(p, s, id), id, s.now, Emit(s.seen, s.now, p.signalTTL, id).0)
  {
  }

  /** In every run a signal is accepted exactly when none of that worker was within the TTL, and sent if there is room. */
  lemma SignalIff(p: Policy, cfgs: seq<Config>, start: int, steps: seq<Step>, id: Id)
    requires id != ""
    ensures var s := Run(p, cfgs, start, steps);
      SignalTold(s, Next(p, cfgs, s, Signal(id)), id, Clock(start, steps), Quiet(s, id, Clock(start, steps), p.signalTTL))
  {
    var s := Run(p, cfgs, start, steps);
    RunClock(p, cfgs, start, steps);
    RunSeen(p, cfgs, start, steps);
    O.SignalsSpaced(p, cfgs, start, steps);
    AcceptsIff(p, s, id);
    SignalTells(p, s, id);
  }

  // Nothing is lost without a reason

  lemma {:induction false} HistoryNoLonger(ts: seq<int>, window: int)
    ensures |B.HistoryAfter(ts, window)| <= |ts|
  {
    if ts != [] { HistoryNoLonger(ts[..|ts|-1], window); }
  }

  /** Every name has used no more attempts than the limit. */
  ghost predicate WithinLimit(p: Policy, s: State) {
    forall name :: |AttemptsOf(s, name)| <= p.limit
  }

  ghost predicate Calm(steps: seq<Step>) {
    Cancel !in steps && Crash !in steps
  }

  ghost predicate Lossless(s: State) {
    s.ids.lost == map[] && s.launches.lost == multiset{} && !s.cancelled
  }

  lemma ArmsWithinLimit(p: Policy, s: State, name: string)
    requires O.Tracked(p, s, name) && !s.cancelled && |AttemptsOf(s, name)| < p.limit
    ensures TryRestart(p, s, name).0
  {
    HistoryNoLonger(AttemptsOf(s, name), p.window);
  }

  lemma RestartWithinLimit(p: Policy, s: State, s': State, name: string)
    requires O.Tracked(p, s, name) && Lossless(s) && WithinLimit(p, s') && s'.attempts == TryRestart(p, s, name).1.attempts
    ensures TryRestart(p, s, name).0
  {
    assert |AttemptsOf(s', name)| == |AttemptsOf(s, name)| + 1;
    ArmsWithinLimit(p, s, name);
  }

  lemma ScheduleLossless(p: Policy, cfgs: seq<Config>, s: State, id: Id, name: string)
    requires Lossless(s) && O.Tracked(p, s, name) && WithinLimit(p, Next(p, cfgs, s, Schedule(id, name)))
    ensures Lossless(Next(p, cfgs, s, Schedule(id, name)))
  {
    if s.monitor.Up? && id in s.ids.detached {
      RestartWithinLimit(p, s, Next(p, cfgs, s, Schedule(id, name)), name);
    }
  }

  lemma FailLossless(p: Policy, cfgs: seq<Config>, s: State, c: nat, name: string)
    requires Lossless(s) && name == (if c < |cfgs| then cfgs[c].name else "") && O.Tracked(p, s, name)
    requires WithinLimit(p, Next(p, cfgs, s, FactoryError(c)))
    ensures Lossless(Next(p, cfgs, s, FactoryError(c)))
  {
    if s.launches.underWay[c] > 0 { RestartWithinLimit(p, s, Next(p, cfgs, s, FactoryError(c)), name); }
  }

  lemma {:induction false} CollectKeepsLost(ids: Ids, order: seq<Id>, now: int, timeout: int)
    ensures Collect(ids, order, now, timeout).lost == ids.lost
    decreases |order|
  {
    if order != [] {
      CollectKeepsLost(if IsStale(ids.reg, order[0], now, timeout) then Depart(ids, order[0]) else ids, order[1..], now, timeout);
    }
  }

  lemma OtherStepsLossless(p: Policy, cfgs: seq<Config>, s: State, step: Step)
    requires Lossless(s) && !step.Cancel? && !step.Crash? && !step.Schedule? && !step.FactoryError?
    ensures Lossless(Next(p, cfgs, s, step))
  {
    if step.Sweep? { CollectKeepsLost(s.ids, step.order, s.now, p.heartbeat); }
  }

  lemma AttemptsGrow(p: Policy, cfgs: seq<Config>, s: State, step: Step, name: string)
    ensures |AttemptsOf(s, name)| <= |AttemptsOf(Next(p, cfgs, s, step), name)|
  {
    if !step.Schedule? && !step.FactoryError? { O.OtherStepsKeepHistory(p, cfgs, s, step); }
  }

  /** A run loses a worker or a launch only to cancellation, a panic of the overseer or an exhausted restart budget. */
  lemma {:induction false} NothingLost(p: Policy, cfgs: seq<Config>, start: int, steps: seq<Step>)
    requires Calm(steps) && WithinLimit(p, Run(p, cfgs, start, steps))
    ensures Lossless(Run(p, cfgs, start, steps))
  {
    if steps != [] {
      var init, step := steps[..|steps|-1], Last(steps);
      var s := Run(p, cfgs, start, init);
      forall name ensures |AttemptsOf(s, name)| <= p.limit { AttemptsGrow(p, cfgs, s, step, name); }
      assert step in steps;
      NothingLost(p, cfgs, start, init);
      match step
      case Schedule(id, name) =>
        O.RunTracked(p, cfgs, start, init, name);
        ScheduleLossless(p, cfgs, s, id, name);
      case FactoryError(c) =>
        var name := if c < |cfgs| then cfgs[c].name else "";
        O.RunTracked(p, cfgs, start, init, name);
        FailLossless(p, cfgs, s, c, name);
      case _ => OtherStepsLossless(p, cfgs, s, step);
    }
  }

  /** Then every slot is a worker that runs or waits to be rescheduled, or a launch to come. */
  lemma EverySlotFilled(p: Policy, cfgs: seq<Config>, start: int, steps: seq<Step>, c: nat)
    requires Calm(steps) && WithinLimit(p, Run(p, cfgs, start, steps)) && c < |cfgs|
    ensures var s := Run(p, cfgs, start, steps);
      Of(s.ids.reg.cfgByID, c) + Of(s.ids.detached, c)
      + s.launches.toStart[c] + s.launches.underWay[c] + s.launches.pending[c] == cfgs[c].Quota()
  {
    NothingLost(p, cfgs, start, steps);
    SlotsConserved(p, cfgs, start, steps, c);
    assert Of(map[], c) == 0;
  }

  // The overseer itself

  /** When the overseer goroutine has panicked. */
  ghost function CrashTimes(p: Policy, cfgs: seq<Config>, start: int, steps: seq<Step>): seq<int> {
    if steps == [] then []
    else
      var init := steps[..|steps|-1];
      if Last(steps).Crash? && Run(p, cfgs, start, init).monitor.Up? then CrashTimes(p, cfgs, start, init) + [Clock(start, steps)]
      else CrashTimes(p, cfgs, start, init)
  }

  lemma NextSelf(p: Policy, cfgs: seq<Config>, s: State, step: Step)
    ensures var s' := Next(p, cfgs, s, step);
      if step.Crash? && s.monitor.Up? then s'.selfRestarts == B.Track(s.selfRestarts, s.now, p.selfWindow) && !s'.monitor.Up?
      else s'.selfRestarts == s.selfRestarts && (s'.monitor == s.monitor || (step.Restart? && s'.monitor.Up?))
  {
  }

  lemma {:induction false} RunSelf(p: Policy, cfgs: seq<Config>, start: int, steps: seq<Step>)
    ensures Run(p, cfgs, start, steps).selfRestarts == B.HistoryAfter(CrashTimes(p, cfgs, start, steps), p.selfWindow)
  {
    if steps != [] {
      var init, ts := steps[..|steps|-1], CrashTimes(p, cfgs, start, steps[..|steps|-1]);
      RunSelf(p, cfgs, start, init);
      RunClock(p, cfgs, start, init);
      NextSelf(p, cfgs, Run(p, cfgs, start, init), Last(steps));
      assert (ts + [Clock(start, steps)])[..|ts|] == ts;
    }
  }

  /** The overseer, running, panics and then tries to come back. */
  ghost function CrashAndRestart(p: Policy, cfgs: seq<Config>, s: State): State {
    Next(p, cfgs, Next(p, cfgs, s, Crash), Restart)
  }

  lemma CrashTold(p: Policy, cfgs: seq<Config>, s: State)
    requires s.monitor.Up?
    ensures !Next(p, cfgs, s, Crash).monitor.Up?
    ensures var s' := CrashAndRestart(p, cfgs, s);
      if !s.cancelled && |B.Track(s.selfRestarts, s.now, p.selfWindow)| <= p.selfLimit then s'.monitor.Up? && s'.chan == []
      else !s'.monitor.Up?
  {
  }

  /** In every run a panic stops the overseer, and it comes back, with an empty channel, exactly if its budget allows. */
  lemma ComesBackIff(p: Policy, cfgs: seq<Config>, start: int, steps: seq<Step>)
    requires Run(p, cfgs, start, steps).monitor.Up?
    ensures var s := Run(p, cfgs, start, steps);
      var ts := CrashTimes(p, cfgs, start, steps) + [Clock(start, steps)];
      && !Next(p, cfgs, s, Crash).monitor.Up?
      && (CrashAndRestart(p, cfgs, s).monitor.Up? <==> !s.cancelled && B.Allowed(ts, |ts| - 1, p.selfWindow, p.selfLimit))
      && (CrashAndRestart(p, cfgs, s).monitor.Up? ==> CrashAndRestart(p, cfgs, s).chan == [])
  {
    var ts := CrashTimes(p, cfgs, start, steps);
    RunSelf(p, cfgs, start, steps);
    RunClock(p, cfgs, start, steps);
    CrashTold(p, cfgs, Run(p, cfgs, start, steps));
    var all := ts + [Clock(start, steps)];
    assert all[..|all|] == all && all[..|all|-1] == ts;
  }

  /** Nothing but Restart brings the overseer back. */
  lemma OnlyRestartRevives(p: Policy, cfgs: seq<Config>, s: State, step: Step)
    requires !s.monitor.Up? && Next(p, cfgs, s, step).monitor.Up?
    ensures step.Restart? && s.monitor.Sleeping? && !s.cancelled
  {
  }

  // The channel

  function TotalQuota(cfgs: seq<Config>): nat {
    if cfgs == [] then 0 else TotalQuota(cfgs[..|cfgs|-1]) + Last(cfgs).Quota()
  }

  lemma {:induction false} QuotasAdd(cfgs: seq<Config>)
    ensures |Quotas(cfgs)| == TotalQuota(cfgs) && forall c: nat :: c >= |cfgs| ==> Quotas(cfgs)[c] == 0
  {
    if cfgs != [] { QuotasAdd(cfgs[..|cfgs|-1]); }
  }

  lemma NextCap(p: Policy, cfgs: seq<Config>, s: State, step: Step)
    ensures Next(p, cfgs, s, step).cap == s.cap
  {
  }

  /** In every run the channel has room for one signal of every worker there may be, and at least for one. */
  lemma {:induction false} RoomForEveryWorker(p: Policy, cfgs: seq<Config>, start: int, steps: seq<Step>)
    ensures Run(p, cfgs, start, steps).cap == if TotalQuota(cfgs) == 0 then 1 else TotalQuota(cfgs)
  {
    if steps != [] {
      RoomForEveryWorker(p, cfgs, start, steps[..|steps|-1]);
      NextCap(p, cfgs, Run(p, cfgs, start, steps[..|steps|-1]), Last(steps));
    } else {
      QuotasAdd(cfgs);
    }
  }
}
