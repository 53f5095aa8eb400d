/** The sliding-window restart budget and the restart backoff of workers/restart.go and workers/overseer.go. */
module RestartBudget {
  import opened Collections
  import opened Widths

  // ---------- The sliding window ----------

  /** The attempts no older than `window` at `now`. */
  function Prune(history: seq<int>, now: int, window: int): (p: seq<int>)
    ensures |p| <= |history|
  {
    if history == [] then [] else
    Prune(history[..|history|-1], now, window) + if now - Last(history) <= window then [Last(history)] else []
  }

  /** One attempt: prune, then count the attempt itself, allowed or not. */
  function Track(history: seq<int>, now: int, window: int): seq<int> {
    Prune(history, now, window) + [now]
  }

  /** The loop shared by trackWorkerRestart and the overseer's self-restart. */
  method TrackAttempt(history: seq<int>, now: int, window: int) returns (pruned: seq<int>)
    ensures pruned == Track(history, now, window)
  {
    pruned := [];
    for i := 0 to |history|
      invariant pruned == Prune(history[..i], now, window)
    {
      assert history[..i+1][..i] == history[..i];
      if now - history[i] <= window {
        pruned := pruned + [history[i]];
      }
    }
    assert history[..|history|] == history;
    pruned := pruned + [now];
  }

  ghost predicate Nondecreasing(ts: seq<int>) {
    forall i, j :: 0 <= i <= j < |ts| ==> ts[i] <= ts[j]
  }

  /** What the history holds after the attempts `ts`. */
  function HistoryAfter(ts: seq<int>, window: int): seq<int> {
    if ts == [] then [] else Track(HistoryAfter(ts[..|ts|-1], window), Last(ts), window)
  }

  lemma {:induction false} PruneTwice(s: seq<int>, a: int, b: int, window: int)
    requires a <= b
    ensures Prune(Prune(s, a, window), b, window) == Prune(s, b, window)
  {
    if s != [] {
      PruneTwice(s[..|s|-1], a, b, window);
      if a - Last(s) <= window {
        PruneSnoc(Prune(s[..|s|-1], a, window), Last(s), b, window);
      } else {
        assert Prune(s, a, window) == Prune(s[..|s|-1], a, window);
        assert Prune(s, b, window) == Prune(s[..|s|-1], b, window);
      }
    }
  }

  lemma PruneSnoc(s: seq<int>, x: int, now: int, window: int)
    ensures Prune(s + [x], now, window) == Prune(s, now, window) + if now - x <= window then [x] else []
  {
    assert (s + [x])[..|s|] == s;
  }

  /** On a clock that never goes back, the history is exactly the attempts inside the window. */
  lemma {:induction false} HistoryIsWindow(ts: seq<int>, window: int)
    requires window >= 0 && Nondecreasing(ts) && ts != []
    ensures HistoryAfter(ts, window) == Prune(ts, Last(ts), window)
  {
    var init := ts[..|ts|-1];
    if init != [] {
      HistoryIsWindow(init, window);
      PruneTwice(init, Last(init), Last(ts), window);
    }
  }

  /** The i-th attempt is allowed when the window, itself included, holds at most `limit` attempts. */
  predicate Allowed(ts: seq<int>, i: nat, window: int, limit: nat)
    requires i < |ts|
  {
    |HistoryAfter(ts[..i+1], window)| <= limit
  }

  /** How many of the first `n` attempts were allowed and fell in [t, t + window]. */
  function AllowedIn(ts: seq<int>, n: nat, t: int, window: int, limit: nat): nat
    requires n <= |ts|
  {
    if n == 0 then 0
    else AllowedIn(ts, n - 1, t, window, limit) +
         if t <= ts[n-1] <= t + window && Allowed(ts, n - 1, window, limit) then 1 else 0
  }

  lemma {:induction false} IntervalWithinWindow(ts: seq<int>, n: nat, t: int, now: int, window: int, limit: nat)
    requires n <= |ts| && now - t <= window
    ensures AllowedIn(ts, n, t, window, limit) <= |Prune(ts[..n], now, window)|
  {
    if n > 0 {
      IntervalWithinWindow(ts, n - 1, t, now, window, limit);
      assert ts[..n][..n-1] == ts[..n-1];
    }
  }

  /** No interval of one window's length ever contains more than `limit` allowed restarts. */
  lemma {:induction false} BudgetHolds(ts: seq<int>, n: nat, t: int, window: int, limit: nat)
    requires window >= 0 && Nondecreasing(ts) && n <= |ts|
    ensures AllowedIn(ts, n, t, window, limit) <= limit
  {
    if n > 0 {
      if t <= ts[n-1] <= t + window && Allowed(ts, n - 1, window, limit) {
        IntervalWithinWindow(ts, n, t, ts[n-1], window, limit);
        HistoryIsWindow(ts[..n], window);
      } else {
        BudgetHolds(ts, n - 1, t, window, limit);
      }
    }
  }

  // ---------- The backoff ----------

  function Doubled(base: int, k: nat): int {
    if k == 0 then base else 2 * Doubled(base, k - 1)
  }

  lemma {:induction false} DoubledMonotone(base: int, j: nat, k: nat)
    requires base > 0 && j <= k
    ensures 0 < Doubled(base, j) <= Doubled(base, k)
    ensures j < k ==> Doubled(base, j) < Doubled(base, k)
  {
    if j < k {
      DoubledMonotone(base, j, k - 1);
    } else if k > 0 {
      DoubledMonotone(base, k - 1, k - 1);
    }
  }

  /** The delay before the count-th restart: doubling from `base`, and `max` as soon as one more doubling could exceed it. */
  function Delay(base: int, max: int, count: int): int {
    if count <= 1 then base
    else if Doubled(base, count - 2) >= max / 2 then max
    else Doubled(base, count - 1)
  }

  /** The doubling never leaves int64. */
  method ComputeWorkerRestartBackoff(base: int, max: int, restartCount: int) returns (delay: int)
    requires 0 < base < TWO63 && 0 < max < TWO63
    ensures delay == Delay(base, max, restartCount)
    ensures 0 < delay < TWO63
  {
    if restartCount <= 1 {
      return base;
    }
    var backoff := base;
    var i := 1;
    while i < restartCount
      invariant 1 <= i <= restartCount && backoff == Doubled(base, i - 1)
      invariant 0 < backoff < TWO63
      invariant i > 1 ==> Doubled(base, i - 2) < max / 2
    {
      if backoff >= max / 2 {
        DoubledMonotone(base, i - 1, restartCount - 2);
        return max;
      }
      backoff := backoff * 2;
      i := i + 1;
    }
    return backoff;
  }

  /** The first wait is the minimum, and each further one twice the last as long as two more still fit under the maximum. */
  lemma DelayDoubles(base: int, max: int, n: int)
    requires 0 < base && 0 < max && n >= 1
    ensures Delay(base, max, 1) == base
    ensures var d := Delay(base, max, n); Delay(base, max, n + 1) == if 2 * d + 2 <= max then 2 * d else max
  {
    if n >= 2 { DoubledMonotone(base, n - 2, n - 1); }
  }

  lemma DelayStep(base: int, max: int, n: int)
    requires 0 < base <= max
    ensures base <= Delay(base, max, n) <= Delay(base, max, n + 1) <= max
  {
    if n >= 2 {
      DoubledMonotone(base, 0, n - 2);
      DoubledMonotone(base, n - 2, n - 1);
      DoubledMonotone(base, n - 1, n);
    }
  }

  lemma {:induction false} DelayMonotone(base: int, max: int, m: int, n: int)
    requires 0 < base <= max && m <= n
    ensures base <= Delay(base, max, m) <= Delay(base, max, n) <= max
    decreases n - m
  {
    DelayStep(base, max, n - 1);
    if m < n { DelayMonotone(base, max, m, n - 1); } else { DelayStep(base, max, n); }
  }

  /** More restarts never mean a shorter wait if and only if the configured minimum does not exceed the maximum. */
  lemma DelayMonotoneIff(base: int, max: int)
    requires 0 < base && 0 < max
    ensures (forall m, n :: m <= n ==> Delay(base, max, m) <= Delay(base, max, n)) <==> base <= max
  {
    if base <= max {
      forall m, n | m <= n ensures Delay(base, max, m) <= Delay(base, max, n) {
        DelayMonotone(base, max, m, n);
      }
    } else {
      assert Delay(base, max, 1) > Delay(base, max, 2);
    }
  }

  /** A minimum of 20 over a maximum of 10: the second restart waits less than the first. */
  lemma ShorterWaitExample()
    ensures Delay(20, 10, 1) == 20 && Delay(20, 10, 2) == 10
  {
  }
}
