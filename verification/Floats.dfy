/**
 * float64 addition of an integer, as addInt does it (storage/flashdb/utils.go:56-57): both the converted integer and
 * the sum are rounded to the nearest float64, ties to the even one. Finite float64 values are reals: an integer of at
 * most 53 bits scaled by a power of two, which is never smaller than 2^-1074. Rounding is defined by halving large
 * numbers and doubling small ones until they fall between 2^52 and 2^53, where the integers are the float64 values.
 */
module Floats {

  const TWO52: real := 4503599627370496.0
  const TWO53: real := 9007199254740992.0

  /** The exponent of the smallest positive float64 is -1074. */
  const SMALLEST: nat := 1074

  predicate IsInt(x: real) {
    x.Floor as real == x
  }

  /** The nearest integer, ties to even. */
  function RoundInt(x: real): int {
    var f := x.Floor;
    if x - f as real < 0.5 then f else if x - f as real > 0.5 then f + 1 else if f % 2 == 0 then f else f + 1
  }

  /** Rounding to 53 bits and to whole numbers. */
  function Coarse(x: real): int
    decreases if x < 0.0 then (-x).Floor else x.Floor
  {
    if -TWO53 < x < TWO53 then RoundInt(x) else 2 * Coarse(x / 2.0)
  }

  /** Rounding to 53 bits and to multiples of 2^-k. */
  function Fine(x: real, k: nat): real
    decreases k
  {
    if k == 0 || !(-TWO52 < x < TWO52) then Coarse(x) as real else Fine(2.0 * x, k - 1) / 2.0
  }

  /** The float64 nearest to x. */
  function Nearest(x: real): real {
    Fine(x, SMALLEST)
  }

  predicate IsFloat(x: real) {
    Nearest(x) == x
  }

  /** float64(cur) + float64(delta) */
  function FloatAdd(x: real, delta: int): real {
    Nearest(x + Nearest(delta as real))
  }

  /** The sum needs no rounding. */
  predicate ExactSum(x: real, delta: int) {
    IsFloat(x + Nearest(delta as real))
  }

  // Rounding is monotone, symmetric and idempotent

  lemma RoundIntNegates(x: real)
    ensures RoundInt(-x) == -RoundInt(x)
  {
    var f := x.Floor;
    if f as real == x { assert (-x).Floor == -f; } else { assert (-x).Floor == -f - 1; }
  }

  lemma {:induction false} CoarseNegates(x: real)
    ensures Coarse(-x) == -Coarse(x)
    decreases if x < 0.0 then (-x).Floor else x.Floor
  {
    if -TWO53 < x < TWO53 { RoundIntNegates(x); } else { CoarseNegates(x / 2.0); }
  }

  lemma {:induction false} CoarseLarge(x: real)
    requires x >= TWO53
    ensures Coarse(x) as real >= TWO53
    decreases x.Floor
  {
    var h := x / 2.0;
    if h >= TWO53 { CoarseLarge(h); }
  }

  lemma CoarseSmall(x: real)
    requires x < TWO53
    ensures Coarse(x) as real <= TWO53
  {
    if x <= -TWO53 {
      CoarseNegates(x);
      CoarseLarge(-x);
    }
  }

  lemma {:induction false} CoarseMonotone(x: real, y: real)
    requires x <= y
    ensures Coarse(x) <= Coarse(y)
    decreases (if x < 0.0 then (-x).Floor else x.Floor) + (if y < 0.0 then (-y).Floor else y.Floor)
  {
    if -TWO53 < x && y < TWO53 {
    } else if x >= TWO53 || y <= -TWO53 {
      CoarseMonotone(x / 2.0, y / 2.0);
    } else if y >= TWO53 {
      CoarseSmall(x);
      CoarseLarge(y);
    } else {
      CoarseNegates(x);
      CoarseNegates(y);
      CoarseLarge(-x);
      CoarseSmall(-y);
    }
  }

  lemma CoarseAt52(x: real)
    ensures x >= TWO52 ==> Coarse(x) as real >= TWO52
    ensures x <= TWO52 ==> Coarse(x) as real <= TWO52
  {
    if x >= TWO52 { CoarseMonotone(TWO52, x); }
    if x <= TWO52 { CoarseMonotone(x, TWO52); }
  }

  lemma {:induction false} FineNegates(x: real, k: nat)
    ensures Fine(-x, k) == -Fine(x, k)
    decreases k
  {
    if k == 0 || !(-TWO52 < x < TWO52) { CoarseNegates(x); } else { FineNegates(2.0 * x, k - 1); }
  }

  lemma {:induction false} FineAt52(x: real, k: nat)
    ensures x <= TWO52 ==> Fine(x, k) <= TWO52
    ensures x >= TWO52 ==> Fine(x, k) >= TWO52
    decreases k
  {
    if k == 0 || !(-TWO52 < x < TWO52) {
      CoarseAt52(x);
    } else if 2.0 * x <= TWO52 {
      FineAt52(2.0 * x, k - 1);
    } else {
      CoarseSmall(2.0 * x);
    }
  }

  lemma {:induction false} FineMonotone(x: real, y: real, k: nat)
    requires x <= y
    ensures Fine(x, k) <= Fine(y, k)
    decreases k
  {
    if k == 0 {
      CoarseMonotone(x, y);
    } else if -TWO52 < x && y < TWO52 {
      FineMonotone(2.0 * x, 2.0 * y, k - 1);
    } else if x >= TWO52 || y <= -TWO52 {
      CoarseMonotone(x, y);
    } else if y >= TWO52 {
      FineAt52(x, k);
      FineAt52(y, k);
    } else {
      FineNegates(x, k);
      FineNegates(y, k);
      FineAt52(-x, k);
      FineAt52(-y, k);
    }
  }

  lemma CoarseBetween(x: real)
    requires -TWO53 < x < TWO53
    ensures -TWO53 <= Coarse(x) as real <= TWO53
  {
    CoarseSmall(x);
    CoarseNegates(x);
    CoarseSmall(-x);
  }

  lemma CoarseBeyond(x: real)
    requires !(-TWO52 < x < TWO52)
    ensures !(-TWO52 < Coarse(x) as real < TWO52)
  {
    CoarseNegates(x);
    CoarseAt52(x);
    CoarseAt52(-x);
  }

  lemma {:induction false} CoarseTwice(x: real)
    ensures Coarse(Coarse(x) as real) == Coarse(x)
    decreases if x < 0.0 then (-x).Floor else x.Floor
  {
    if -TWO53 < x < TWO53 {
      CoarseBetween(x);
    } else {
      CoarseTwice(x / 2.0);
      CoarseBeyond(x / 2.0);
      assert (2 * Coarse(x / 2.0)) as real / 2.0 == Coarse(x / 2.0) as real;
    }
  }

  lemma {:induction false} FineTwice(x: real, k: nat)
    ensures Fine(Fine(x, k), k) == Fine(x, k)
    decreases k
  {
    var f := Fine(x, k);
    if k == 0 || !(-TWO52 < x < TWO52) {
      CoarseTwice(x);
      if k > 0 { CoarseBeyond(x); }
    } else {
      FineTwice(2.0 * x, k - 1);
      FineNegates(x, k);
      FineAt52(x, k);
      FineAt52(-x, k);
    }
  }

  // Nothing is nearer

  predicate NoFarther(a: real, y: real, x: real) {
    (if a < x then x - a else a - x) <= (if y < x then x - y else y - x)
  }

  lemma NoFartherVia(a: real, y: real, between: real, x: real)
    requires NoFarther(a, between, x) && (y <= between <= x || x <= between <= y)
    ensures NoFarther(a, y, x)
  {
  }

  lemma NoFartherScaled(a: real, y: real, x: real)
    ensures NoFarther(a, y, x) <==> NoFarther(2.0 * a, 2.0 * y, 2.0 * x)
  {
  }

  lemma RoundIntIsNearest(x: real, n: int)
    ensures NoFarther(RoundInt(x) as real, n as real, x)
  {
    var f := x.Floor;
    if n <= f { assert n as real <= f as real; } else { assert n as real >= f as real + 1.0; }
  }

  lemma CoarseDoubles(x: real)
    requires !(-TWO53 < x < TWO53)
    ensures Coarse(x) as real == 2.0 * Coarse(x / 2.0) as real
  {
  }

  lemma CoarseOfPowers()
    ensures Coarse(TWO52) as real == TWO52 && Coarse(-TWO52) as real == -TWO52
    ensures Coarse(TWO53) as real == TWO53 && Coarse(-TWO53) as real == -TWO53
  {
    CoarseDoubles(TWO53);
    CoarseDoubles(-TWO53);
  }

  lemma {:induction false} CoarseIsNearest(x: real, y: real)
    requires Coarse(y) as real == y
    ensures NoFarther(Coarse(x) as real, y, x)
    decreases if x < 0.0 then (-x).Floor else x.Floor
  {
    if -TWO53 < x < TWO53 {
      RoundIntIsNearest(x, Coarse(y));
    } else {
      var edge := if x > 0.0 then TWO53 else -TWO53;
      var z := if -TWO53 < y < TWO53 then edge else y;
      CoarseOfPowers();
      CoarseDoubles(x);
      CoarseDoubles(z);
      CoarseIsNearest(x / 2.0, z / 2.0);
      NoFartherScaled(Coarse(x / 2.0) as real, z / 2.0, x / 2.0);
      if z != y { NoFartherVia(Coarse(x) as real, y, edge, x); }
    }
  }

  predicate Beyond(x: real, k: nat) {
    k == 0 || !(-TWO52 < x < TWO52)
  }

  lemma FineOfPowers(k: nat)
    ensures Fine(TWO52, k) == TWO52 && Fine(-TWO52, k) == -TWO52
  {
    CoarseOfPowers();
  }

  lemma {:induction false} FineIsNearest(x: real, y: real, k: nat)
    requires Fine(y, k) == y
    ensures NoFarther(Fine(x, k), y, x)
    decreases k, 1
  {
    var side := if Beyond(x, k) then x else y;
    var edge := if side > 0.0 then TWO52 else -TWO52;
    var z := if Beyond(x, k) == Beyond(y, k) then y else edge;
    FineOfPowers(k);
    FineSameSide(x, z, k);
    if z != y { NoFartherVia(Fine(x, k), y, edge, x); }
  }

  lemma {:induction false} FineSameSide(x: real, y: real, k: nat)
    requires Fine(y, k) == y && (Beyond(x, k) == Beyond(y, k) || y == TWO52 || y == -TWO52)
    ensures NoFarther(Fine(x, k), y, x)
    decreases k, 0
  {
    if Beyond(x, k) {
      CoarseOfPowers();
      CoarseIsNearest(x, y);
    } else {
      FineDoubles(y, k);
      FineIsNearest(2.0 * x, 2.0 * y, k - 1);
      NoFartherScaled(Fine(2.0 * x, k - 1) / 2.0, y, x);
    }
  }

  lemma FineDoubles(y: real, k: nat)
    requires k > 0 && Fine(y, k) == y && (!Beyond(y, k) || y == TWO52 || y == -TWO52)
    ensures Fine(2.0 * y, k - 1) == 2.0 * y
  {
    CoarseOfPowers();
  }

  /** The rounded sum is as near to the exact one as any float64. */
  lemma SumIsNearest(x: real, d: int, y: real)
    requires IsFloat(y)
    ensures NoFarther(FloatAdd(x, d), y, x + Nearest(d as real))
  {
    FineIsNearest(x + Nearest(d as real), y, SMALLEST);
  }

  // Grids: the multiples of 2^-j

  /** x times 2^j */
  function Scaled(x: real, j: nat): real
    decreases j
  {
    if j == 0 then x else Scaled(2.0 * x, j - 1)
  }

  predicate OnGrid(x: real, j: nat) {
    IsInt(Scaled(x, j))
  }

  /** 2^-j */
  function Unit(j: nat): real {
    if j == 0 then 1.0 else Unit(j - 1) / 2.0
  }

  lemma {:induction false} ScaledAdds(x: real, y: real, j: nat)
    ensures Scaled(x + y, j) == Scaled(x, j) + Scaled(y, j)
    ensures Scaled(-x, j) == -Scaled(x, j)
    decreases j
  {
    if j > 0 { ScaledAdds(2.0 * x, 2.0 * y, j - 1); }
  }

  lemma {:induction false} ScaledHalf(x: real, j: nat)
    ensures Scaled(x / 2.0, j) == Scaled(x, j) / 2.0
    decreases j
  {
    if j > 0 { ScaledHalf(2.0 * x, j - 1); }
  }

  lemma {:induction false} ScaledUnit(j: nat)
    ensures Scaled(Unit(j), j) == 1.0 && Unit(j) > 0.0
  {
    if j > 0 { ScaledUnit(j - 1); }
  }

  lemma {:induction false} ScaledOrder(x: real, y: real, j: nat)
    ensures Scaled(x, j) <= Scaled(y, j) <==> x <= y
    decreases j
  {
    if j > 0 { ScaledOrder(2.0 * x, 2.0 * y, j - 1); }
  }

  lemma {:induction false} IntOnGrid(n: int, j: nat)
    ensures OnGrid(n as real, j)
    decreases j
  {
    if j > 0 {
      IntOnGrid(2 * n, j - 1);
      assert 2.0 * n as real == (2 * n) as real;
    }
  }

  /** Rounding keeps to the grid, and 53 bits on the grid are not rounded at all. */
  lemma {:induction false} FineKeepsGrid(x: real, j: nat, k: nat)
    requires j <= k && OnGrid(x, j)
    ensures OnGrid(Fine(x, k), j)
    ensures -TWO53 <= Scaled(x, j) <= TWO53 ==> Fine(x, k) == x
    decreases k
  {
    if k == 0 || !(-TWO52 < x < TWO52) {
      IntOnGrid(Coarse(x), j);
      if -TWO53 <= Scaled(x, j) <= TWO53 { LargeOnGrid(x, j); }
    } else if j == 0 {
      IntOnGrid(x.Floor, 1);
      FineKeepsGrid(2.0 * x, 0, k - 1);
    } else {
      FineKeepsGrid(2.0 * x, j - 1, k - 1);
    }
  }

  lemma LargeOnGrid(x: real, j: nat)
    requires OnGrid(x, j) && -TWO53 <= Scaled(x, j) <= TWO53 && (j == 0 || !(-TWO52 < x < TWO52))
    ensures Coarse(x) as real == x
  {
    if j == 0 {
      assert Scaled(x, 0) == x;
    } else {
      ScaledAdds(2.0 * x, 0.0, j - 1);
      ScaledGrows(2.0 * x, j - 1);
      ScaledGrows(-2.0 * x, j - 1);
    }
  }

  lemma {:induction false} ScaledGrows(x: real, j: nat)
    ensures x >= 0.0 ==> Scaled(x, j) >= x
    decreases j
  {
    if j > 0 { ScaledGrows(2.0 * x, j - 1); }
  }

  /** A float64 below 2^53 is a number of less than 53 bits on some grid no coarser than the whole numbers. */
  lemma {:induction false} FloatGrid(x: real, k: nat) returns (j: nat)
    requires Fine(x, k) == x && -TWO53 < x < TWO53
    ensures j <= k && OnGrid(x, j) && -TWO53 < Scaled(x, j) < TWO53
    decreases k
  {
    if k == 0 || !(-TWO52 < x < TWO52) {
      j := 0;
    } else {
      var i := FloatGrid(2.0 * x, k - 1);
      j := i + 1;
    }
  }

  // Adding and taking away again

  lemma IntIsInt(n: int)
    ensures IsInt(n as real)
  {
  }

  lemma CastAdds(m: int, n: int)
    ensures (m + n) as real == m as real + n as real && (-m) as real == -(m as real)
    ensures m as real < n as real ==> m + 1 <= n
  {
  }

  lemma IntsAdd(a: real, b: real)
    requires IsInt(a) && IsInt(b)
    ensures IsInt(a + b) && IsInt(-a) && (a < b ==> a + 1.0 <= b)
  {
    CastAdds(a.Floor, b.Floor);
    CastAdds(a.Floor, 1);
    IntIsInt(a.Floor + b.Floor);
    IntIsInt(-a.Floor);
  }

  lemma SumOnGrid(x: real, y: real, j: nat)
    requires OnGrid(x, j) && OnGrid(y, j)
    ensures OnGrid(x + y, j)
  {
    ScaledAdds(x, y, j);
    IntsAdd(Scaled(x, j), Scaled(y, j));
  }

  /** On a float64's own grid its upper neighbour is a float64 too, so nothing above it on the grid rounds to it. */
  lemma AboveStaysAbove(x: real, z: real, j: nat)
    requires j <= SMALLEST && OnGrid(x, j) && OnGrid(z, j) && -TWO53 < Scaled(x, j) < TWO53 && x < z
    ensures x < Nearest(z)
  {
    var next := x + Unit(j);
    ScaledUnit(j);
    ScaledAdds(x, Unit(j), j);
    SumOnGrid(x, Unit(j), j);
    IntsAdd(Scaled(x, j), 1.0);
    ScaledOrder(z, x, j);
    IntsAdd(Scaled(x, j), Scaled(z, j));
    ScaledOrder(next, z, j);
    FineKeepsGrid(next, j, SMALLEST);
    FineMonotone(next, z, SMALLEST);
  }

  lemma NeighboursKeepApart(x: real, z: real, j: nat)
    requires j <= SMALLEST && OnGrid(x, j) && OnGrid(z, j) && -TWO53 < Scaled(x, j) < TWO53 && z != x
    ensures Nearest(z) != x
  {
    if x < z {
      AboveStaysAbove(x, z, j);
    } else {
      MirrorOnGrid(x, j);
      MirrorOnGrid(z, j);
      AboveStaysAbove(-x, -z, j);
      FineNegates(z, SMALLEST);
    }
  }

  lemma MirrorOnGrid(x: real, j: nat)
    requires OnGrid(x, j)
    ensures OnGrid(-x, j) && Scaled(-x, j) == -Scaled(x, j)
  {
    ScaledAdds(x, 0.0, j);
    IntsAdd(Scaled(x, j), Scaled(x, j));
  }

  lemma NearestOfInt(n: int) returns (m: int)
    ensures Nearest(n as real) == m as real && Nearest((-n) as real) == -m as real
  {
    IntOnGrid(n, 0);
    FineKeepsGrid(n as real, 0, SMALLEST);
    FineNegates(n as real, SMALLEST);
    m := Nearest(n as real).Floor;
    assert (-n) as real == -(n as real);
  }

  /** What rounding added to the sum. */
  function SumError(x: real, delta: int): real {
    FloatAdd(x, delta) - (x + Nearest(delta as real))
  }

  /** The error of the sum is too small to be seen at x. */
  predicate Absorbed(x: real, delta: int) {
    Nearest(x + SumError(x, delta)) == x
  }

  lemma AddThenSubtractIff(x: real, d: int)
    ensures FloatAdd(FloatAdd(x, d), -d) == x <==> Absorbed(x, d)
  {
    var m := NearestOfInt(d);
    assert FloatAdd(x, d) - m as real == x + SumError(x, d);
  }

  lemma BackOnGrid(x: real, m: int, j: nat)
    requires j <= SMALLEST && OnGrid(x, j)
    ensures OnGrid(Nearest(x + m as real) - m as real, j)
  {
    IntOnGrid(m, j);
    IntOnGrid(-m, j);
    CastAdds(m, m);
    SumOnGrid(x, m as real, j);
    FineKeepsGrid(x + m as real, j, SMALLEST);
    SumOnGrid(Nearest(x + m as real), (-m) as real, j);
  }

  /** Below 2^53 no error is absorbed. */
  lemma AbsorbedIffExact(x: real, d: int)
    requires IsFloat(x) && -TWO53 < x < TWO53
    ensures Absorbed(x, d) <==> ExactSum(x, d)
  {
    if !ExactSum(x, d) {
      var m := NearestOfInt(d);
      var j := FloatGrid(x, SMALLEST);
      BackOnGrid(x, m, j);
      NeighboursKeepApart(x, x + SumError(x, d), j);
    }
  }

  /** Adding the same negative number twice gives x back exactly when x is too large to feel it. */
  lemma AddTwiceIff(x: real, d: int)
    requires IsFloat(x) && d < 0
    ensures FloatAdd(FloatAdd(x, d), d) == x <==> FloatAdd(x, d) == x
  {
    var m := NearestOfInt(d);
    NearestOfNegative(d);
    var y := FloatAdd(x, d);
    FineMonotone(x + m as real, x, SMALLEST);
    FineTwice(x + m as real, SMALLEST);
    FineMonotone(y + m as real, y, SMALLEST);
  }

  lemma NearestOfNegative(d: int)
    requires d <= 0
    ensures Nearest(d as real) <= 0.0
  {
    IntOnGrid(0, 0);
    FineKeepsGrid(0.0, 0, SMALLEST);
    FineMonotone(d as real, 0.0, SMALLEST);
  }

  /** Any sum is a float64. */
  lemma SumIsFloat(x: real, d: int)
    ensures IsFloat(FloatAdd(x, d))
  {
    FineTwice(x + Nearest(d as real), SMALLEST);
  }

  lemma NearestOfLarge(n: int) returns (m: int)
    requires n as real >= 2.0 * TWO53
    ensures Nearest(n as real) == m as real >= 2.0 * TWO53
  {
    m := NearestOfInt(n);
    assert Coarse(2.0 * TWO53) == 2 * Coarse(TWO53);
    FineMonotone(2.0 * TWO53, n as real, SMALLEST);
  }

  /** A float64 below 2^53 feels -2^63. */
  lemma SmallFeelsLarge(x: real, d: int)
    requires -TWO53 < x < TWO53 && d == -0x8000_0000_0000_0000
    ensures FloatAdd(x, d) != x
  {
    var m := NearestOfLarge(-d);
    FineNegates((-d) as real, SMALLEST);
    assert d as real == -((-d) as real);
    FarBelow(x, m);
  }

  lemma FarBelow(x: real, m: int)
    requires -TWO53 < x < TWO53 && m as real >= 2.0 * TWO53
    ensures Nearest(x - m as real) < x
  {
    IntOnGrid(-9007199254740992, 0);
    FineKeepsGrid(-TWO53, 0, SMALLEST);
    FineMonotone(x - m as real, -TWO53, SMALLEST);
  }

  /** One half and 2^60: the half is lost. */
  lemma HalfIsLost()
    ensures IsFloat(0.5) && !ExactSum(0.5, 0x1000_0000_0000_0000) && !Absorbed(0.5, 0x1000_0000_0000_0000)
  {
    assert Scaled(0.5, 1) == Scaled(1.0, 0);
    FineKeepsGrid(0.5, 1, SMALLEST);
    var m := NearestOfLarge(0x1000_0000_0000_0000);
    assert Fine(0.5 + m as real, SMALLEST) == Coarse(0.5 + m as real) as real;
    assert Coarse(0.5 + m as real) as real != 0.5 + m as real;
    AbsorbedIffExact(0.5, 0x1000_0000_0000_0000);
  }
}
