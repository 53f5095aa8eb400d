/** The Count-Min sketch of utils/stdlib/sketch.go. */
module Sketch {
  /*
   * `depth` rows of `width` saturating 32-bit counters, an operation counter that wraps at 2^64, and automatic halving
   * every `agingEvery` increments (0 disables it). The 64-bit mixer with the row salt is a parameter.
   */

  import opened Collections
  import opened Widths

  const MAX32: nat := 0xFFFF_FFFF

  /** uint32 and uint64. */
  type Counter = x: nat | x <= MAX32
  type Word = x: nat | x < TWO64

  datatype Params = Params(depth: nat, width: nat, agingEvery: nat, mix: (nat, nat) -> nat) {
    ghost predicate Valid() {
      1 <= depth <= 8 && 16 <= width < TWO64 && agingEvery < TWO64
    }

    function Index(r: nat, h: nat): (i: nat)
      requires width > 0
      ensures i < width
    {
      Mod(mix(r, h), width)
    }
  }

  // ---------- Remainders ----------

  /** The remainder operator, by repeated subtraction. */
  function Mod(n: nat, a: nat): (r: nat)
    requires a > 0
    ensures r < a
  {
    if n < a then n else Mod(n - a, a)
  }

  lemma {:induction false} ModIsRemainder(n: nat, a: nat)
    requires a > 0
    ensures Mod(n, a) == n % a
  {
    if n >= a {
      ModIsRemainder(n - a, a);
      RemainderBelow(n - a, a);
    }
  }

  lemma RemainderBelow(n: nat, a: nat)
    requires a > 0
    ensures (n + a) % a == n % a
  {
    var d := (n + a) / a - n / a - 1;
    assert d * a == ((n + a) / a) * a - (n / a) * a - a;
    if d != 0 { MultipleIsLarge(d, a); }
  }

  lemma MultipleIsLarge(d: int, a: int)
    requires a > 0 && d != 0
    ensures d * a >= a || d * a <= -a
  {
    if d >= 1 {
      assert (d - 1) * a >= 0;
    } else {
      assert (-d - 1) * a >= 0;
    }
  }

  lemma {:induction false} ModOne(x: nat)
    ensures Mod(x, 1) == 0
  {
    if x >= 1 { ModOne(x - 1); }
  }

  lemma {:induction false} NextMod(n: nat, a: nat)
    requires a > 0
    ensures Mod(n + 1, a) == if Mod(n, a) == a - 1 then 0 else Mod(n, a) + 1
  {
    if n >= a { NextMod(n - a, a); }
  }

  // ---------- The fast index path ----------

  /** Bitwise AND on naturals. */
  function And(x: nat, y: nat): nat {
    if x == 0 || y == 0 then 0
    else 2 * And(x / 2, y / 2) + (if x % 2 == 1 && y % 2 == 1 then 1 else 0)
  }

  ghost predicate PowerOfTwo(w: nat) {
    w == 1 || (w > 0 && w % 2 == 0 && PowerOfTwo(w / 2))
  }

  lemma {:induction false} AndPredecessor(w: nat)
    requires w > 0
    ensures And(w, w - 1) == 0 <==> PowerOfTwo(w)
  {
    if w > 1 {
      if w % 2 == 0 {
        assert (w - 1) / 2 == w / 2 - 1;
        AndPredecessor(w / 2);
      } else {
        assert (w - 1) / 2 == w / 2;
        AndSelf(w / 2);
      }
    }
  }

  lemma {:induction false} AndSelf(x: nat)
    ensures And(x, x) == x
  {
    if x > 0 { AndSelf(x / 2); }
  }

  lemma {:induction false} DoubledModulus(x: nat, v: nat)
    requires v > 0
    ensures Mod(x, 2 * v) == 2 * Mod(x / 2, v) + x % 2
  {
    if x >= 2 * v { DoubledModulus(x - 2 * v, v); }
  }

  /** Masking with w - 1 is the remainder by w, when w is a power of two. */
  lemma {:induction false} MaskIsModulo(x: nat, w: nat)
    requires PowerOfTwo(w)
    ensures And(x, w - 1) == Mod(x, w)
  {
    if w == 1 {
      ModOne(x);
    } else {
      MaskIsModulo(x / 2, w / 2);
      DoubledModulus(x, w / 2);
    }
  }

  // ---------- The sketch as a value ----------

  datatype State = State(rows: seq<seq<Counter>>, n: Word)

  ghost predicate Shaped(p: Params, rows: seq<seq<Counter>>) {
    && |rows| == p.depth
    && forall r :: 0 <= r < |rows| ==> |rows[r]| == p.width
  }

  function Bump(v: Counter): Counter {
    if v == MAX32 then v else v + 1
  }

  function BumpRow(row: seq<Counter>, i: nat): seq<Counter>
    requires i < |row|
  {
    row[i := Bump(row[i])]
  }

  function HalveRow(row: seq<Counter>): (h: seq<Counter>)
    ensures |h| == |row|
  {
    seq(|row|, i requires 0 <= i < |row| => row[i] / 2)
  }

  function Halve(rows: seq<seq<Counter>>): (h: seq<seq<Counter>>)
    ensures |h| == |rows|
  {
    seq(|rows|, r requires 0 <= r < |rows| => HalveRow(rows[r]))
  }

  /** c.n++ on a uint64. */
  function Next(n: Word): Word {
    if n + 1 == TWO64 then 0 else n + 1
  }

  /** Does this increment of the operation counter trigger an ageing pass? */
  function Ages(agingEvery: nat, n: nat): bool {
    agingEvery != 0 && Mod(n, agingEvery) == 0
  }

  /** One observation of `h`: the counter of `h` in every row goes up by one. */
  function BumpAll(p: Params, rows: seq<seq<Counter>>, h: nat): (rows': seq<seq<Counter>>)
    requires p.Valid() && Shaped(p, rows)
    ensures |rows'| == |rows|
  {
    seq(|rows|, r requires 0 <= r < |rows| => BumpRow(rows[r], p.Index(r, h)))
  }

  function Increment(p: Params, s: State, h: nat): State
    requires p.Valid() && Shaped(p, s.rows)
  {
    var rows := BumpAll(p, s.rows, h);
    var n := Next(s.n);
    State(if Ages(p.agingEvery, n) then Halve(rows) else rows, n)
  }

  function Age(s: State): State {
    s.(rows := Halve(s.rows))
  }

  function Fresh(p: Params): State {
    State(seq(p.depth, r => Zeros(p.width)), 0)
  }

  function Zeros(width: nat): seq<Counter> {
    seq(width, _ => 0)
  }

  /** The smallest of the counters of `h` in the first `r` rows, at most MAX32. */
  function EstimateUpTo(p: Params, rows: seq<seq<Counter>>, h: nat, r: nat): (m: Counter)
    requires p.Valid() && Shaped(p, rows) && r <= p.depth
  {
    if r == 0 then MAX32 else
    var m, v := EstimateUpTo(p, rows, h, r - 1), rows[r-1][p.Index(r-1, h)];
    if v < m then v else m
  }

  function Estimate(p: Params, rows: seq<seq<Counter>>, h: nat): Counter
    requires p.Valid() && Shaped(p, rows)
  {
    EstimateUpTo(p, rows, h, p.depth)
  }

  lemma {:induction false} EstimateIsMinimum(p: Params, rows: seq<seq<Counter>>, h: nat, r: nat)
    requires p.Valid() && Shaped(p, rows) && 0 < r <= p.depth
    ensures forall i :: 0 <= i < r ==> EstimateUpTo(p, rows, h, r) <= rows[i][p.Index(i, h)]
    ensures exists i :: 0 <= i < r && EstimateUpTo(p, rows, h, r) == rows[i][p.Index(i, h)]
  {
    if r == 1 {
      assert EstimateUpTo(p, rows, h, 1) == rows[0][p.Index(0, h)];
    } else {
      EstimateIsMinimum(p, rows, h, r - 1);
    }
  }

  // ---------- Runs ----------

  datatype Op = Inc(h: nat) | AgeOp | ResetOp

  function Step(p: Params, s: State, op: Op): (s': State)
    requires p.Valid() && Shaped(p, s.rows)
    ensures Shaped(p, s'.rows)
  {
    match op
    case Inc(h) => Increment(p, s, h)
    case AgeOp => Age(s)
    case ResetOp => Fresh(p)
  }

  function Run(p: Params, ops: seq<Op>): (s: State)
    requires p.Valid()
    ensures Shaped(p, s.rows)
  {
    if ops == [] then Fresh(p) else Step(p, Run(p, ops[..|ops|-1]), Last(ops))
  }

  /** The reference: how often `h` itself was counted, saturated and halved on the sketch's own schedule. */
  function Exact(p: Params, ops: seq<Op>, h: nat): Counter
    requires p.Valid()
  {
    if ops == [] then 0 else
    var init := ops[..|ops|-1];
    var c := Exact(p, init, h);
    match Last(ops)
    case Inc(g) =>
      var c' := if g == h then Bump(c) else c;
      if Ages(p.agingEvery, Next(Run(p, init).n)) then c' / 2 else c'
    case AgeOp => c / 2
    case ResetOp => 0
  }

  /** Every counter of `h` dominates the reference count, in every run. */
  lemma {:induction false} CountersDominate(p: Params, ops: seq<Op>, h: nat, r: nat)
    requires p.Valid() && r < p.depth
    ensures Exact(p, ops, h) <= Run(p, ops).rows[r][p.Index(r, h)]
  {
    if ops != [] {
      CountersDominate(p, ops[..|ops|-1], h, r);
    }
  }

  /** The sketch never underestimates: over any run, with ageing, saturation and resets. */
  lemma NeverUnderestimates(p: Params, ops: seq<Op>, h: nat)
    requires p.Valid()
    ensures Exact(p, ops, h) <= Estimate(p, Run(p, ops).rows, h)
  {
    var s := Run(p, ops);
    forall r | 0 <= r < p.depth
      ensures Exact(p, ops, h) <= s.rows[r][p.Index(r, h)]
    {
      CountersDominate(p, ops, h, r);
    }
    EstimateIsMinimum(p, s.rows, h, p.depth);
  }

  // ---------- The mass of a row ----------

  function Sum(row: seq<Counter>): nat {
    if row == [] then 0 else Sum(row[..|row|-1]) + Last(row)
  }

  lemma {:induction false} SumUpdate(row: seq<Counter>, i: nat, v: Counter)
    requires i < |row|
    ensures Sum(row[i := v]) == Sum(row) - row[i] + v
  {
    var row' := row[i := v];
    if i < |row| - 1 {
      assert row'[..|row|-1] == row[..|row|-1][i := v];
      SumUpdate(row[..|row|-1], i, v);
    } else {
      assert row'[..|row|-1] == row[..|row|-1];
    }
  }

  lemma {:induction false} SumHalved(row: seq<Counter>)
    ensures 2 * Sum(HalveRow(row)) <= Sum(row)
  {
    if row != [] {
      assert HalveRow(row)[..|row|-1] == HalveRow(row[..|row|-1]);
      SumHalved(row[..|row|-1]);
    }
  }

  lemma {:induction false} SumZero(row: seq<Counter>)
    requires forall i :: 0 <= i < |row| ==> row[i] == 0
    ensures Sum(row) == 0
  {
    if row != [] { SumZero(row[..|row|-1]); }
  }

  lemma {:induction false} CellWithinSum(row: seq<Counter>, i: nat)
    requires i < |row|
    ensures row[i] <= Sum(row)
  {
    if i < |row| - 1 { CellWithinSum(row[..|row|-1], i); }
  }

  /** What one increment does to the weight of row `r`. */
  lemma IncrementMass(p: Params, s: State, h: nat, r: nat)
    requires p.Valid() && Shaped(p, s.rows) && r < p.depth
    ensures var s' := Increment(p, s, h);
            if Ages(p.agingEvery, s'.n) then 2 * Sum(s'.rows[r]) <= Sum(s.rows[r]) + 1
            else Sum(s'.rows[r]) <= Sum(s.rows[r]) + 1
  {
    var i := p.Index(r, h);
    SumUpdate(s.rows[r], i, Bump(s.rows[r][i]));
    SumHalved(BumpRow(s.rows[r], i));
  }

  ghost predicate WithinMass(p: Params, s: State, r: nat)
    requires p.agingEvery > 0 && r < |s.rows|
  {
    Sum(s.rows[r]) <= p.agingEvery - 1 + Mod(s.n, p.agingEvery)
  }

  lemma IncrementKeepsMass(p: Params, s: State, h: nat, r: nat)
    requires p.Valid() && p.agingEvery > 0 && Shaped(p, s.rows) && r < p.depth && WithinMass(p, s, r)
    ensures WithinMass(p, Increment(p, s, h), r)
  {
    IncrementMass(p, s, h, r);
    NextMod(s.n, p.agingEvery);
  }

  /**
   With ageing every A increments, no row ever weighs more than A - 1 plus the
   increments since the last multiple of A. The operation counter may wrap: wrapping
   reaches 0, which is itself an ageing point.
   */
  lemma {:induction false} MassBound(p: Params, ops: seq<Op>, r: nat)
    requires p.Valid() && p.agingEvery > 0 && r < p.depth
    ensures Sum(Run(p, ops).rows[r]) <= p.agingEvery - 1 + Mod(Run(p, ops).n, p.agingEvery)
  {
    if ops == [] {
      SumZero(Run(p, ops).rows[r]);
    } else {
      var s := Run(p, ops[..|ops|-1]);
      MassBound(p, ops[..|ops|-1], r);
      match Last(ops)
      case ResetOp => SumZero(Run(p, ops).rows[r]);
      case AgeOp => SumHalved(s.rows[r]);
      case Inc(h) => IncrementKeepsMass(p, s, h, r);
    }
  }

  /** No increment is ever lost to saturation when A is at most 2^31. */
  lemma NoSaturation(p: Params, ops: seq<Op>, r: nat, i: nat)
    requires p.Valid() && 0 < p.agingEvery <= 0x8000_0000 && r < p.depth && i < p.width
    ensures Run(p, ops).rows[r][i] < MAX32
  {
    MassBound(p, ops, r);
    CellWithinSum(Run(p, ops).rows[r], i);
  }

  // ---------- The bound on A is exact ----------

  ghost predicate Reached(p: Params, ops: seq<Op>, v: Counter, n: Word)
    requires p.Valid()
  {
    Run(p, ops).rows[0][p.Index(0, 0)] == v && Run(p, ops).n == n
  }

  /** Some run leaves the counter of hash 0 in the first row at `v` and the operation counter at `n`. */
  ghost predicate Reachable(p: Params, v: Counter, n: Word)
    requires p.Valid()
  {
    exists ops :: Reached(p, ops, v, n)
  }

  lemma IncrementCell(p: Params, s: State, h: nat)
    requires p.Valid() && Shaped(p, s.rows)
    ensures var v, s' := s.rows[0][p.Index(0, h)], Increment(p, s, h);
            s'.rows[0][p.Index(0, h)] == if Ages(p.agingEvery, s'.n) then Bump(v) / 2 else Bump(v)
  {
  }

  lemma ReachNext(p: Params, v: Counter, n: Word)
    requires p.Valid() && Reachable(p, v, n) && v < MAX32 && n + 1 < TWO64
    ensures Reachable(p, if Ages(p.agingEvery, n + 1) then (v + 1) / 2 else v + 1, n + 1)
  {
    var ops :| Reached(p, ops, v, n);
    var ops' := ops + [Inc(0)];
    assert Run(p, ops') == Increment(p, Run(p, ops), 0) by { assert ops'[..|ops|] == ops; }
    IncrementCell(p, Run(p, ops), 0);
    assert Run(p, ops').n == n + 1;
    assert Reached(p, ops', if Ages(p.agingEvery, n + 1) then (v + 1) / 2 else v + 1, n + 1);
  }

  /** Between ageing points, k increments add k. */
  lemma {:induction false} Climb(p: Params, v: Counter, n: Word, k: nat)
    requires p.Valid() && Reachable(p, v, n) && n + k < TWO64 && v + k <= MAX32
    requires p.agingEvery > 0 ==> Mod(n, p.agingEvery) + k < p.agingEvery
    ensures Reachable(p, v + k, n + k)
    ensures p.agingEvery > 0 ==> Mod(n + k, p.agingEvery) == Mod(n, p.agingEvery) + k
  {
    if k > 0 {
      Climb(p, v, n, k - 1);
      ClimbOne(p, v + k - 1, n + k - 1);
    }
  }

  lemma ClimbOne(p: Params, v: Counter, n: Word)
    requires p.Valid() && Reachable(p, v, n) && n + 1 < TWO64 && v + 1 <= MAX32
    requires p.agingEvery > 0 ==> Mod(n, p.agingEvery) + 1 < p.agingEvery
    ensures Reachable(p, v + 1, n + 1)
    ensures p.agingEvery > 0 ==> Mod(n + 1, p.agingEvery) == Mod(n, p.agingEvery) + 1
  {
    if p.agingEvery > 0 { NextMod(n, p.agingEvery); }
    ReachNext(p, v, n);
  }

  /** A full round of A increments takes the counter v to (v + A) / 2. */
  lemma Round(p: Params, v: Counter, n: Word)
    requires p.Valid() && 0 < p.agingEvery && Reachable(p, v, n)
    requires Mod(n, p.agingEvery) == 0 && n + p.agingEvery < TWO64 && v + p.agingEvery <= MAX32
    ensures Reachable(p, (v + p.agingEvery) / 2, n + p.agingEvery)
    ensures Mod(n + p.agingEvery, p.agingEvery) == 0
  {
    var k := p.agingEvery - 1;
    Climb(p, v, n, k);
    NextMod(n + k, p.agingEvery);
    ReachNext(p, v + k, n + k);
  }

  lemma {:induction false} ClimbToSaturation(p: Params, v: Counter, n: Word)
    requires p.Valid() && p.agingEvery > 0x8000_0000 && Reachable(p, v, n)
    requires Mod(n, p.agingEvery) == 0 && v < p.agingEvery
    requires if p.agingEvery <= MAX32 then n + 0x1_0000_0000 * (p.agingEvery - v) <= TWO64 else v == n == 0
    ensures exists n' :: Reachable(p, MAX32, n')
    decreases p.agingEvery - v
  {
    var a := p.agingEvery;
    if v + a > MAX32 {
      Climb(p, v, n, MAX32 - v);
    } else {
      var v' := (v + a) / 2;
      Round(p, v, n);
      ClimbToSaturation(p, v', n + a);
    }
  }

  lemma SaturationReachable(p: Params)
    requires p.Valid() && (p.agingEvery == 0 || p.agingEvery > 0x8000_0000)
    ensures exists n :: Reachable(p, MAX32, n)
  {
    assert Reached(p, [], 0, 0);
    if p.agingEvery == 0 {
      Climb(p, 0, 0, MAX32);
    } else {
      ClimbToSaturation(p, 0, 0);
    }
  }

  ghost predicate Saturated(p: Params, ops: seq<Op>, r: nat, i: nat)
    requires p.Valid()
  {
    r < p.depth && i < p.width && Run(p, ops).rows[r][i] == MAX32
  }

  /** A counter can saturate exactly when ageing is off or comes less often than every 2^31 increments. */
  lemma SaturationIff(p: Params)
    requires p.Valid()
    ensures (exists ops, r: nat, i: nat :: Saturated(p, ops, r, i)) <==> (p.agingEvery == 0 || p.agingEvery > 0x8000_0000)
  {
    if p.agingEvery == 0 || p.agingEvery > 0x8000_0000 {
      SaturationReachable(p);
      var n :| Reachable(p, MAX32, n);
      var ops :| Reached(p, ops, MAX32, n);
      assert Saturated(p, ops, 0, p.Index(0, 0));
    } else {
      forall ops, r: nat, i: nat
        ensures !Saturated(p, ops, r, i)
      {
        if r < p.depth && i < p.width { NoSaturation(p, ops, r, i); }
      }
    }
  }

  // ---------- Without ageing the counters are exact tallies ----------

  ghost predicate OnlyIncrements(ops: seq<Op>) {
    forall j :: 0 <= j < |ops| ==> ops[j].Inc?
  }

  /** How many operations landed in cell (r, i). */
  function Tally(p: Params, ops: seq<Op>, r: nat, i: nat): nat
    requires p.Valid()
  {
    if ops == [] then 0
    else Tally(p, ops[..|ops|-1], r, i) + if Last(ops).Inc? && p.Index(r, Last(ops).h) == i then 1 else 0
  }

  /** How many operations counted `h` itself. */
  function Count(ops: seq<Op>, h: nat): nat {
    if ops == [] then 0 else Count(ops[..|ops|-1], h) + if Last(ops) == Inc(h) then 1 else 0
  }

  function Min(a: nat, b: nat): nat {
    if a <= b then a else b
  }

  lemma {:induction false} CellIsTally(p: Params, ops: seq<Op>, r: nat, i: nat)
    requires p.Valid() && p.agingEvery == 0 && OnlyIncrements(ops) && r < p.depth && i < p.width
    ensures Run(p, ops).rows[r][i] == Min(MAX32, Tally(p, ops, r, i))
  {
    if ops != [] { CellIsTally(p, ops[..|ops|-1], r, i); }
  }

  lemma {:induction false} ExactIsCount(p: Params, ops: seq<Op>, h: nat)
    requires p.Valid() && p.agingEvery == 0 && OnlyIncrements(ops)
    ensures Exact(p, ops, h) == Min(MAX32, Count(ops, h))
  {
    if ops != [] { ExactIsCount(p, ops[..|ops|-1], h); }
  }

  /** Some counted hash other than `h` shares its cell in row `r`. */
  ghost predicate Collides(p: Params, ops: seq<Op>, h: nat, r: nat)
    requires p.Valid()
  {
    exists j :: 0 <= j < |ops| && ops[j].Inc? && ops[j].h != h && p.Index(r, ops[j].h) == p.Index(r, h)
  }

  lemma {:induction false} TallyCountsCollisions(p: Params, ops: seq<Op>, h: nat, r: nat)
    requires p.Valid() && OnlyIncrements(ops)
    ensures Tally(p, ops, r, p.Index(r, h)) >= Count(ops, h)
    ensures Tally(p, ops, r, p.Index(r, h)) == Count(ops, h) <==> !Collides(p, ops, h, r)
  {
    if ops != [] {
      var init := ops[..|ops|-1];
      TallyCountsCollisions(p, init, h, r);
      if Collides(p, init, h, r) {
        var j :| 0 <= j < |init| && init[j].Inc? && init[j].h != h && p.Index(r, init[j].h) == p.Index(r, h);
        assert ops[j] == init[j];
      }
    }
  }

  /** Without ageing, an estimate is exact if and only if some row has no collision, or the count has saturated. */
  lemma EstimateExactIff(p: Params, ops: seq<Op>, h: nat)
    requires p.Valid() && p.agingEvery == 0 && OnlyIncrements(ops)
    ensures Estimate(p, Run(p, ops).rows, h) == Min(MAX32, Count(ops, h))
            <==> Count(ops, h) >= MAX32 || exists r :: 0 <= r < p.depth && !Collides(p, ops, h, r)
  {
    var s := Run(p, ops);
    ExactIsCount(p, ops, h);
    NeverUnderestimates(p, ops, h);
    EstimateIsMinimum(p, s.rows, h, p.depth);
    forall r | 0 <= r < p.depth
      ensures s.rows[r][p.Index(r, h)] == Min(MAX32, Tally(p, ops, r, p.Index(r, h)))
      ensures Tally(p, ops, r, p.Index(r, h)) == Count(ops, h) <==> !Collides(p, ops, h, r)
    {
      CellIsTally(p, ops, r, p.Index(r, h));
      TallyCountsCollisions(p, ops, h, r);
    }
  }
}
