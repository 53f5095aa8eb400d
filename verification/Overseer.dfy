/** What whole overseer runs keep about restarts and signals, and the package state of workers/ as an object. */
module Overseer {
  import opened Collections
  import opened Widths
  import opened WorkerProtocol
  import B = RestartBudget

  // ---------- The restart budget over whole runs ----------

  /** The history of a name is what its attempts leave behind, and the clock has not gone back. */
  ghost predicate Tracked(p: Policy, s: State, name: string) {
    && HistoryOf(s, name) == B.HistoryAfter(AttemptsOf(s, name), p.window)
    && B.Nondecreasing(AttemptsOf(s, name))
    && (AttemptsOf(s, name) != [] ==> Last(AttemptsOf(s, name)) <= s.now)
  }

  lemma TryRestartTracked(p: Policy, s: State, other: string, name: string)
    requires Tracked(p, s, name)
    ensures Tracked(p, TryRestart(p, s, other).1, name)
  {
    if other == name && !s.cancelled {
      var ts := AttemptsOf(s, name);
      assert (ts + [s.now])[..|ts|] == ts;
    }
  }

  lemma TrackedFrame(p: Policy, s: State, s': State, name: string)
    requires Tracked(p, s, name) && s'.history == s.history && s'.attempts == s.attempts && s'.now >= s.now
    ensures Tracked(p, s', name)
  {
  }

  lemma OtherStepsKeepHistory(p: Policy, cfgs: seq<Config>, s: State, step: Step)
    requires !step.Schedule? && !step.FactoryError?
    ensures var s' := Next(p, cfgs, s, step);
            s'.history == s.history && s'.attempts == s.attempts && s'.now >= s.now
  {
  }

  lemma NextTracked(p: Policy, cfgs: seq<Config>, s: State, step: Step, name: string)
    requires Tracked(p, s, name)
    ensures Tracked(p, Next(p, cfgs, s, step), name)
  {
    var s' := Next(p, cfgs, s, step);
    if step.Schedule? || step.FactoryError? {
      var other := if step.Schedule? then step.name else if step.cfg < |cfgs| then cfgs[step.cfg].name else "";
      TryRestartTracked(p, s, other, name);
      if s' != s { TrackedFrame(p, TryRestart(p, s, other).1, s', name); }
    } else {
      OtherStepsKeepHistory(p, cfgs, s, step);
      TrackedFrame(p, s, s', name);
    }
  }

  lemma {:induction false} RunTracked(p: Policy, cfgs: seq<Config>, start: int, steps: seq<Step>, name: string)
    ensures Tracked(p, Run(p, cfgs, start, steps), name)
  {
    if steps != [] {
      RunTracked(p, cfgs, start, steps[..|steps|-1], name);
      NextTracked(p, cfgs, Run(p, cfgs, start, steps[..|steps|-1]), Last(steps), name);
    }
  }

  /** A restart timer is armed exactly when the context is live and the budget allows the attempt. */
  lemma ArmedIffAllowed(p: Policy, cfgs: seq<Config>, start: int, steps: seq<Step>, name: string)
    ensures var s := Run(p, cfgs, start, steps);
            var ts := AttemptsOf(s, name) + [s.now];
            TryRestart(p, s, name).0 <==> !s.cancelled && B.Allowed(ts, |ts| - 1, p.window, p.limit)
  {
    RunTracked(p, cfgs, start, steps, name);
    var s := Run(p, cfgs, start, steps);
    var ts := AttemptsOf(s, name) + [s.now];
    assert ts[..|ts|] == ts && ts[..|ts|-1] == AttemptsOf(s, name);
  }

  /** In every run, no interval of one window's length contains more than `limit` armed restarts of a name. */
  lemma RestartsWithinBudget(p: Policy, cfgs: seq<Config>, start: int, steps: seq<Step>, name: string, t: int)
    requires p.window >= 0
    ensures var ts := AttemptsOf(Run(p, cfgs, start, steps), name);
            B.AllowedIn(ts, |ts|, t, p.window, p.limit) <= p.limit
  {
    RunTracked(p, cfgs, start, steps, name);
    var ts := AttemptsOf(Run(p, cfgs, start, steps), name);
    B.BudgetHolds(ts, |ts|, t, p.window, p.limit);
  }

  // ---------- Signals are spaced ----------

  /** Two accepted signals of one worker lie more than the signal TTL apart. */
  ghost predicate Spaced(es: seq<Emission>, ttl: int) {
    forall i, j :: 0 <= i < j < |es| && es[i].id == es[j].id != "" ==> es[j].at - es[i].at > ttl
  }

  /** Every accepted signal that is not older than the TTL is remembered. */
  ghost predicate Remembered(s: State, ttl: int) {
    forall i :: 0 <= i < |s.emissions| && s.emissions[i].id != "" && s.now - s.emissions[i].at <= ttl ==>
      s.emissions[i].id in s.seen && s.seen[s.emissions[i].id] >= s.emissions[i].at
  }

  lemma SignalSpaced(p: Policy, s: State, id: Id)
    requires Spaced(s.emissions, p.signalTTL) && Remembered(s, p.signalTTL)
    ensures Spaced(Signalled(p, s, id).emissions, p.signalTTL) && Remembered(Signalled(p, s, id), p.signalTTL)
  {
    var s' := Signalled(p, s, id);
    if id != "" && Emit(s.seen, s.now, p.signalTTL, id).0 {
      forall i | 0 <= i < |s.emissions| && s.emissions[i].id == id
        ensures s.now - s.emissions[i].at > p.signalTTL
      {
        assert id !in Recent(s.seen, s.now, p.signalTTL);
      }
    }
    forall i | 0 <= i < |s'.emissions| && s'.emissions[i].id != "" && s'.now - s'.emissions[i].at <= p.signalTTL
      ensures s'.emissions[i].id in s'.seen && s'.seen[s'.emissions[i].id] >= s'.emissions[i].at
    {
      if i < |s.emissions| { assert s'.emissions[i] == s.emissions[i]; }
    }
  }

  lemma {:induction false} SignalsSpaced(p: Policy, cfgs: seq<Config>, start: int, steps: seq<Step>)
    ensures Spaced(Run(p, cfgs, start, steps).emissions, p.signalTTL)
    ensures Remembered(Run(p, cfgs, start, steps), p.signalTTL)
  {
    if steps != [] {
      SignalsSpaced(p, cfgs, start, steps[..|steps|-1]);
      var s := Run(p, cfgs, start, steps[..|steps|-1]);
      if Last(steps).Signal? {
        SignalSpaced(p, s, Last(steps).id);
      } else {
        OtherStepsKeepSignals(p, cfgs, s, Last(steps));
      }
    }
  }

  lemma OtherStepsKeepSignals(p: Policy, cfgs: seq<Config>, s: State, step: Step)
    requires !step.Signal?
    ensures var s' := Next(p, cfgs, s, step);
            s'.emissions == s.emissions && s'.seen == s.seen && s'.now >= s.now
  {
  }

  // ---------- The watchdog's collection loop ----------

  /** The registry after the loop, and the workers collected, in order. */
  function CollectFrom(r: Registry, order: seq<Id>, now: int, timeout: int): (Registry, seq<Id>)
    decreases |order|
  {
    if order == [] then (r, [])
    else if IsStale(r, order[0], now, timeout) then
      var (r', stale) := CollectFrom(Registry(r.byID - {order[0]}, r.cfgByID - {order[0]}), order[1..], now, timeout);
      (r', [order[0]] + stale)
    else CollectFrom(r, order[1..], now, timeout)
  }

  /** The protocol step hands exactly these workers to the monitor. */
  lemma {:induction false} CollectHandsOver(ids: Ids, order: seq<Id>, now: int, timeout: int)
    requires Inv(ids)
    ensures var (r, stale) := CollectFrom(ids.reg, order, now, timeout);
            && Collect(ids, order, now, timeout).reg == r
            && Collect(ids, order, now, timeout).departures == ids.departures + stale
    decreases |order|
  {
    if order != [] {
      if IsStale(ids.reg, order[0], now, timeout) {
        assert order[0] in ids.issued;
        DepartKeepsInv(ids, order[0]);
        CollectHandsOver(Depart(ids, order[0]), order[1..], now, timeout);
      } else {
        CollectHandsOver(ids, order[1..], now, timeout);
      }
    }
  }

  // ---------- The package state ----------

  class Workers {
    var workerByID: map<Id, Running>
    var workerConfigByID: map<Id, nat>
    var workerChan: seq<Id>
    var chanCap: nat
    var workerFailureSignalSeen: map<Id, int>
    var workerRestartHistory: map<string, seq<int>>

    constructor (cap: nat)
      ensures Reg() == Registry(map[], map[]) && workerChan == [] && chanCap == cap
      ensures workerFailureSignalSeen == map[] && workerRestartHistory == map[]
    {
      workerByID, workerConfigByID, workerChan, chanCap := map[], map[], [], cap;
      workerFailureSignalSeen, workerRestartHistory := map[], map[];
    }

    ghost function Reg(): Registry
      reads this
    {
      Registry(workerByID, workerConfigByID)
    }

    method RegisterRunningWorkerState(id: Id, cfg: nat, beat: Option<int>)
      modifies this`workerByID, this`workerConfigByID
      ensures Reg() == Register(old(Reg()), id, cfg, beat)
    {
      if id == "" {
        return;
      }
      workerConfigByID := workerConfigByID[id := cfg];
      workerByID := workerByID[id := Running(cfg, beat)];
    }

    method UnregisterRunningWorkerState(id: Id) returns (cfg: Option<nat>)
      modifies this`workerByID, this`workerConfigByID
      ensures (cfg, Reg()) == Unregister(old(Reg()), id)
    {
      if id == "" {
        return None;
      }
      cfg := None;
      if id in workerByID {
        cfg := Some(workerByID[id].cfg);
      } else if id in workerConfigByID {
        cfg := Some(workerConfigByID[id]);
      }
      workerConfigByID := workerConfigByID - {id};
      workerByID := workerByID - {id};
    }

    /** Visits the registry in `order`, deleting while it collects. */
    method StaleRunningWorkers(now: int, timeout: int, order: seq<Id>) returns (stale: seq<Id>)
      modifies this`workerByID, this`workerConfigByID
      ensures (Reg(), stale) == CollectFrom(old(Reg()), order, now, timeout)
    {
      stale := [];
      ghost var goal := CollectFrom(Reg(), order, now, timeout);
      assert order[0..] == order;
      for i := 0 to |order|
        invariant goal.0 == CollectFrom(Reg(), order[i..], now, timeout).0
        invariant goal.1 == stale + CollectFrom(Reg(), order[i..], now, timeout).1
      {
        var id := order[i];
        assert order[i..][0] == id && order[i..][1..] == order[i+1..];
        if id in workerByID && workerByID[id].beat.Some? && now - workerByID[id].beat.value > timeout {
          workerByID := workerByID - {id};
          workerConfigByID := workerConfigByID - {id};
          stale := stale + [id];
        }
      }
      assert order[|order|..] == [];
      assert goal.1 == stale;
    }

    method ShouldEmitWorkerFailureSignal(id: Id, now: int, ttl: int) returns (emit: bool)
      modifies this`workerFailureSignalSeen
      ensures (emit, workerFailureSignalSeen) == Emit(old(workerFailureSignalSeen), now, ttl, id)
    {
      if id == "" {
        return true;
      }
      Forget(now, ttl);
      if id in workerFailureSignalSeen && now - workerFailureSignalSeen[id] <= ttl {
        return false;
      }
      workerFailureSignalSeen := workerFailureSignalSeen[id := now];
      return true;
    }

    /** Drop the signals older than the TTL, visiting the map in whatever order the runtime picks. */
    method Forget(now: int, ttl: int)
      modifies this`workerFailureSignalSeen
      ensures workerFailureSignalSeen == Recent(old(workerFailureSignalSeen), now, ttl)
    {
      var left := workerFailureSignalSeen.Keys;
      while left != {}
        invariant left <= workerFailureSignalSeen.Keys <= old(workerFailureSignalSeen).Keys
        invariant forall k :: k in workerFailureSignalSeen ==> workerFailureSignalSeen[k] == old(workerFailureSignalSeen)[k]
        invariant forall k :: k in old(workerFailureSignalSeen) && k !in left ==>
                    (k in workerFailureSignalSeen <==> now - old(workerFailureSignalSeen)[k] <= ttl)
        decreases |left|
      {
        var id :| id in left;
        if now - workerFailureSignalSeen[id] > ttl {
          workerFailureSignalSeen := workerFailureSignalSeen - {id};
        }
        left := left - {id};
      }
    }

    /** A full channel drops the signal, which stays remembered as seen. */
    method SignalWorkerFailure(id: Id, now: int, ttl: int)
      modifies this`workerFailureSignalSeen, this`workerChan
      ensures workerFailureSignalSeen == Emit(old(workerFailureSignalSeen), now, ttl, id).1
      ensures workerChan == if Emit(old(workerFailureSignalSeen), now, ttl, id).0 then Send(old(workerChan), chanCap, id) else old(workerChan)
    {
      var emit := ShouldEmitWorkerFailureSignal(id, now, ttl);
      if !emit {
        return;
      }
      if |workerChan| < chanCap {
        workerChan := workerChan + [id];
      }
    }

    method TrackWorkerRestart(p: Policy, name: string, now: int, base: int, max: int) returns (count: nat, delay: int, allowed: bool)
      requires 0 < base < TWO63 && 0 < max < TWO63
      modifies this`workerRestartHistory
      ensures var h := if name in old(workerRestartHistory) then old(workerRestartHistory)[name] else [];
              && workerRestartHistory == old(workerRestartHistory)[name := B.Track(h, now, p.window)]
              && count == |B.Track(h, now, p.window)|
              && (allowed <==> count <= p.limit)
              && delay == if allowed then B.Delay(base, max, count) else 0
    {
      var h := if name in workerRestartHistory then workerRestartHistory[name] else [];
      var pruned := B.TrackAttempt(h, now, p.window);
      workerRestartHistory := workerRestartHistory[name := pruned];
      count := |pruned|;
      if count > p.limit {
        return count, 0, false;
      }
      delay := B.ComputeWorkerRestartBackoff(base, max, count);
      return count, delay, true;
    }
  }
}
