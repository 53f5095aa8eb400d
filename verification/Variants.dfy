/**
 * Weighted variants of a feature: what the validator accepts and what the evaluator then selects
 * (core/features/validator.go:155-174, core/features/evaluation.go:113-133). Weights are real numbers. A bucket
 * is one of 10000 rolls, and a variant owns the buckets between its running total and the one before it.
 */
module Variants {

  datatype Variant = Variant(name: string, weight: real)

  datatype Verdict = Accepted | NegativeWeight | WeightTooLarge | BadTotal

  const BUCKETS: nat := 10000

  /** The weights of the first i variants together. */
  function Sum(vs: seq<Variant>, i: nat): real
    requires i <= |vs|
  {
    if i == 0 then 0.0 else Sum(vs, i - 1) + vs[i-1].weight
  }

  ghost predicate InRange(v: Variant) {
    0.0 <= v.weight <= 100.0
  }

  ghost predicate Near(total: real) {
    -0.001 <= total - 100.0 <= 0.001
  }

  ghost predicate Acceptable(vs: seq<Variant>) {
    (forall i :: 0 <= i < |vs| ==> InRange(vs[i])) && Near(Sum(vs, |vs|))
  }

  /** Accepts exactly the acceptable lists and otherwise names the first thing wrong. */
  method ValidateVariants(vs: seq<Variant>) returns (r: Verdict)
    ensures r == Accepted <==> Acceptable(vs)
    ensures r == NegativeWeight || r == WeightTooLarge ==>
              exists i :: 0 <= i < |vs| && (forall j :: 0 <= j < i ==> InRange(vs[j]))
                          && (if r == NegativeWeight then vs[i].weight < 0.0 else vs[i].weight > 100.0)
    ensures r == BadTotal ==> (forall i :: 0 <= i < |vs| ==> InRange(vs[i])) && !Near(Sum(vs, |vs|))
  {
    var sum := 0.0;
    for i := 0 to |vs|
      invariant sum == Sum(vs, i)
      invariant forall j :: 0 <= j < i ==> InRange(vs[j])
    {
      if vs[i].weight < 0.0 {
        return NegativeWeight;
      }
      if vs[i].weight > 100.0 {
        return WeightTooLarge;
      }
      sum := sum + vs[i].weight;
    }
    var distance := if sum - 100.0 < 0.0 then 100.0 - sum else sum - 100.0;
    if distance > 0.001 {
      return BadTotal;
    }
    return Accepted;
  }

  /** The first variant from `from` on whose running total reaches the roll; |vs| stands for the default value. */
  function Chosen(vs: seq<Variant>, roll: real, from: nat): (k: nat)
    requires from <= |vs|
    ensures from <= k <= |vs|
    ensures k < |vs| ==> roll <= Sum(vs, k + 1)
    ensures forall i: nat :: from < i <= k ==> Sum(vs, i) < roll
    decreases |vs| - from
  {
    if from == |vs| || roll <= Sum(vs, from + 1) then from else Chosen(vs, roll, from + 1)
  }

  method SelectVariant(vs: seq<Variant>, roll: real) returns (k: nat)
    ensures k == Chosen(vs, roll, 0)
  {
    var sum := 0.0;
    for i := 0 to |vs|
      invariant sum == Sum(vs, i) && Chosen(vs, roll, 0) == Chosen(vs, roll, i)
    {
      sum := sum + vs[i].weight;
      if roll <= sum {
        return i;
      }
    }
    return |vs|;
  }

  lemma {:induction false} SumGrows(vs: seq<Variant>, i: nat, j: nat)
    requires i <= j <= |vs| && forall k :: 0 <= k < |vs| ==> InRange(vs[k])
    ensures Sum(vs, i) <= Sum(vs, j) && 0.0 <= Sum(vs, i)
    decreases j
  {
    if i < j {
      SumGrows(vs, i, j - 1);
      assert InRange(vs[j-1]);
    } else if i > 0 {
      SumGrows(vs, i - 1, i - 1);
      assert InRange(vs[i-1]);
    }
  }

  /** A roll selects a variant exactly when it does not exceed the total. */
  lemma SelectsIff(vs: seq<Variant>, roll: real)
    requires vs != [] && forall k :: 0 <= k < |vs| ==> InRange(vs[k])
    ensures Chosen(vs, roll, 0) < |vs| <==> roll <= Sum(vs, |vs|)
  {
    var k := Chosen(vs, roll, 0);
    if k < |vs| { SumGrows(vs, k + 1, |vs|); }
  }

  /** The roll of a bucket: the hash of the key modulo 10000, in hundredths. */
  function Roll(bucket: nat): real {
    bucket as real / 100.0
  }

  /** With an accepted list no bucket falls through to the default value. */
  lemma BucketsSelect(vs: seq<Variant>, bucket: nat)
    requires Acceptable(vs) && bucket < BUCKETS
    ensures vs != [] && Chosen(vs, Roll(bucket), 0) < |vs|
  {
    SelectsIff(vs, Roll(bucket));
  }

  /** A random roll can: an accepted total may stay a little under 100. */
  lemma RandomRollMayMiss(name: string)
    ensures var vs := [Variant(name, 99.9995)]; Acceptable(vs) && Chosen(vs, 100.0, 0) == |vs|
  {
    var vs := [Variant(name, 99.9995)];
    assert Sum(vs, 0) == 0.0 && Sum(vs, 1) == 99.9995;
  }

  // How many buckets a variant gets

  function Buckets(vs: seq<Variant>, k: nat, n: nat): nat {
    if n == 0 then 0 else Buckets(vs, k, n - 1) + if Chosen(vs, Roll(n - 1), 0) == k then 1 else 0
  }

  /** The buckets below n whose roll is at most x. */
  function Reached(x: real, n: nat): nat {
    if n == 0 then 0 else Reached(x, n - 1) + if Roll(n - 1) <= x then 1 else 0
  }

  /** A variant gets the buckets its running total reaches and the one before it did not. */
  lemma ChosenBetween(vs: seq<Variant>, k: nat, roll: real)
    requires k < |vs| && forall i :: 0 <= i < |vs| ==> InRange(vs[i])
    ensures Chosen(vs, roll, 0) == k <==> roll <= Sum(vs, k + 1) && (k == 0 || Sum(vs, k) < roll)
  {
    var c := Chosen(vs, roll, 0);
    if c < k { SumGrows(vs, c + 1, k); }
  }

  lemma {:induction false} BucketsBetween(vs: seq<Variant>, k: nat, n: nat)
    requires k < |vs| && forall i :: 0 <= i < |vs| ==> InRange(vs[i])
    ensures Buckets(vs, k, n) == Reached(Sum(vs, k + 1), n) - if k == 0 then 0 else Reached(Sum(vs, k), n)
  {
    if n > 0 {
      BucketsBetween(vs, k, n - 1);
      ChosenBetween(vs, k, Roll(n - 1));
      SumGrows(vs, k, k + 1);
    }
  }

  lemma {:induction false} ReachedIs(x: real, n: nat)
    requires x >= 0.0
    ensures Reached(x, n) == if n <= (100.0 * x).Floor + 1 then n else (100.0 * x).Floor + 1
  {
    if n > 0 {
      ReachedIs(x, n - 1);
      assert Roll(n - 1) <= x <==> (n - 1) as real <= 100.0 * x;
    }
  }

  /** Rounding costs at most one bucket, and the total at most a tenth. */
  lemma ReachedNear(x: real)
    requires 0.0 <= x <= 100.001
    ensures 100.0 * x - 0.1 <= Reached(x, BUCKETS) as real <= 100.0 * x + 1.0
  {
    ReachedIs(x, BUCKETS);
  }

  /** The number of buckets of a variant is within 1.1 of a hundred times its weight. */
  lemma BucketShare(vs: seq<Variant>, k: nat)
    requires Acceptable(vs) && k < |vs|
    ensures -1.1 <= Buckets(vs, k, BUCKETS) as real - 100.0 * vs[k].weight <= 1.1
  {
    SumGrows(vs, k, |vs|);
    SumGrows(vs, k + 1, |vs|);
    BucketsBetween(vs, k, BUCKETS);
    ReachedNear(Sum(vs, k + 1));
    if k > 0 { ReachedNear(Sum(vs, k)); }
  }

  function TotalBuckets(vs: seq<Variant>, m: nat, n: nat): nat {
    if m == 0 then 0 else TotalBuckets(vs, m - 1, n) + Buckets(vs, m - 1, n)
  }

  lemma {:induction false} OneMoreBucket(vs: seq<Variant>, m: nat, n: nat)
    ensures TotalBuckets(vs, m, n + 1) == TotalBuckets(vs, m, n) + if Chosen(vs, Roll(n), 0) < m then 1 else 0
  {
    if m > 0 { OneMoreBucket(vs, m - 1, n); }
  }

  lemma {:induction false} EveryBucketCounted(vs: seq<Variant>, n: nat)
    requires Acceptable(vs) && n <= BUCKETS
    ensures TotalBuckets(vs, |vs|, n) == n
  {
    if n == 0 {
      NoBuckets(vs, |vs|);
    } else {
      EveryBucketCounted(vs, n - 1);
      OneMoreBucket(vs, |vs|, n - 1);
      BucketsSelect(vs, n - 1);
    }
  }

  lemma {:induction false} NoBuckets(vs: seq<Variant>, m: nat)
    ensures TotalBuckets(vs, m, 0) == 0
  {
    if m > 0 { NoBuckets(vs, m - 1); }
  }

  /** The 10000 buckets are shared out among the variants, each to one. */
  lemma BucketsPartitioned(vs: seq<Variant>)
    requires Acceptable(vs)
    ensures TotalBuckets(vs, |vs|, BUCKETS) == BUCKETS
  {
    EveryBucketCounted(vs, BUCKETS);
  }
}
