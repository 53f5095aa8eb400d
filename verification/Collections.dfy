/** Sequence and map facts shared by the other modules. */
module Collections {

  datatype Option<+T> = None | Some(value: T)

  ghost predicate NoDup<T>(s: seq<T>) {
    forall i, j :: 0 <= i < j < |s| ==> s[i] != s[j]
  }

  function Elements<T>(s: seq<T>): set<T> {
    set x | x in s
  }

  /** The position of the first `x` in `s`, or `|s|`. */
  function IndexOf<T(==)>(s: seq<T>, x: T): (i: nat)
    ensures i <= |s|
    ensures i < |s| ==> s[i] == x
    ensures forall j :: 0 <= j < i ==> s[j] != x
  {
    if s == [] then 0 else if s[0] == x then 0 else 1 + IndexOf(s[1..], x)
  }

  function Without<T(==)>(s: seq<T>, x: T): seq<T> {
    var i := IndexOf(s, x);
    if i < |s| then s[..i] + s[i+1..] else s
  }

  function ToFront<T(==)>(s: seq<T>, x: T): seq<T> {
    if x in s then [x] + Without(s, x) else s
  }

  function Last<T>(s: seq<T>): T
    requires s != []
  {
    s[|s|-1]
  }

  lemma WithoutFacts<T>(s: seq<T>, x: T)
    requires NoDup(s)
    ensures NoDup(Without(s, x))
    ensures Elements(Without(s, x)) == Elements(s) - {x}
    ensures x in s ==> |Without(s, x)| == |s| - 1
  {
    var i := IndexOf(s, x);
    if i < |s| {
      var w := Without(s, x);
      forall y
        ensures y in w <==> y in s && y != x
      {
        if y in s && y != x {
          var j :| 0 <= j < |s| && s[j] == y;
          assert w[if j < i then j else j - 1] == y;
        }
      }
    }
  }

  lemma ToFrontFacts<T>(s: seq<T>, x: T)
    requires NoDup(s)
    ensures NoDup(ToFront(s, x))
    ensures Elements(ToFront(s, x)) == Elements(s)
  {
    WithoutFacts(s, x);
    if x in s {
      assert x !in Elements(Without(s, x));
      assert forall y :: y in ToFront(s, x) <==> y == x || y in Elements(Without(s, x));
    }
  }

  lemma WithoutLast<T>(s: seq<T>)
    requires NoDup(s) && s != []
    ensures Without(s, Last(s)) == s[..|s|-1]
  {
  }

  /** NoDup again, in a form that is taken apart one element at a time. */
  ghost predicate Distinct<T>(s: seq<T>) {
    s == [] || (Distinct(s[..|s|-1]) && Last(s) !in s[..|s|-1])
  }

  lemma {:induction false} DistinctIsNoDup<T>(s: seq<T>)
    ensures Distinct(s) <==> NoDup(s)
  {
    if s != [] {
      DistinctIsNoDup(s[..|s|-1]);
      if NoDup(s) {
        assert NoDup(s[..|s|-1]);
      }
    }
  }

  lemma DistinctWithout<T>(s: seq<T>, x: T)
    requires Distinct(s)
    ensures Distinct(Without(s, x)) && Elements(Without(s, x)) == Elements(s) - {x}
  {
    DistinctIsNoDup(s);
    WithoutFacts(s, x);
    DistinctIsNoDup(Without(s, x));
  }

  lemma DistinctToFront<T>(s: seq<T>, x: T)
    requires Distinct(s)
    ensures Distinct(ToFront(s, x)) && Elements(ToFront(s, x)) == Elements(s)
  {
    DistinctIsNoDup(s);
    ToFrontFacts(s, x);
    DistinctIsNoDup(ToFront(s, x));
  }

  lemma DistinctPush<T>(s: seq<T>, x: T)
    requires Distinct(s) && x !in s
    ensures Distinct([x] + s) && Elements([x] + s) == Elements(s) + {x} && Without(s, x) == s
  {
    DistinctIsNoDup(s);
    DistinctIsNoDup([x] + s);
  }

  lemma DistinctLast<T>(s: seq<T>)
    requires Distinct(s) && s != []
    ensures Without(s, Last(s)) == s[..|s|-1] && Distinct(s[..|s|-1])
  {
    DistinctIsNoDup(s);
    WithoutLast(s);
  }

  /** The total of `f` over the entries of `m`. */
  ghost function MapSum<K, V>(m: map<K, V>, f: (K, V) -> int): int
    decreases |m|
  {
    if m == map[] then 0 else
    var k :| k in m;
    f(k, m[k]) + MapSum(m - {k}, f)
  }

  /** The total may be taken apart at any key. */
  lemma {:induction false} MapSumRemove<K, V>(m: map<K, V>, f: (K, V) -> int, k: K)
    requires k in m
    ensures MapSum(m, f) == f(k, m[k]) + MapSum(m - {k}, f)
    decreases |m|
  {
    var p :| p in m && MapSum(m, f) == f(p, m[p]) + MapSum(m - {p}, f);
    if p != k {
      MapSumRemove(m - {p}, f, k);
      MapSumRemove(m - {k}, f, p);
      assert m - {p} - {k} == m - {k} - {p};
    }
  }

  lemma MapSumInsert<K, V>(m: map<K, V>, f: (K, V) -> int, k: K, v: V)
    ensures k !in m ==> MapSum(m[k := v], f) == f(k, v) + MapSum(m, f)
    ensures k in m ==> MapSum(m[k := v], f) == MapSum(m, f) - f(k, m[k]) + f(k, v)
  {
    MapSumRemove(m[k := v], f, k);
    assert m[k := v] - {k} == m - {k};
    if k in m {
      MapSumRemove(m, f, k);
    } else {
      assert m - {k} == m;
    }
  }

  lemma {:induction false} MapSumNonNegative<K, V>(m: map<K, V>, f: (K, V) -> int)
    requires forall k :: k in m ==> f(k, m[k]) >= 0
    ensures MapSum(m, f) >= 0
    decreases |m|
  {
    if m != map[] {
      var k :| k in m && MapSum(m, f) == f(k, m[k]) + MapSum(m - {k}, f);
      MapSumNonNegative(m - {k}, f);
    }
  }

  /** A sub-map of non-negative entries weighs no more than the whole. */
  lemma {:induction false} MapSumSubset<K, V>(a: map<K, V>, b: map<K, V>, f: (K, V) -> int)
    requires forall k :: k in a ==> k in b && a[k] == b[k]
    requires forall k :: k in b ==> f(k, b[k]) >= 0
    ensures MapSum(a, f) <= MapSum(b, f)
    decreases |a|
  {
    if a == map[] {
      MapSumNonNegative(b, f);
    } else {
      var k :| k in a && MapSum(a, f) == f(k, a[k]) + MapSum(a - {k}, f);
      MapSumRemove(b, f, k);
      MapSumSubset(a - {k}, b - {k}, f);
    }
  }

  lemma Regroup<T>(a: seq<T>, b: seq<T>, c: seq<T>)
    ensures a + (b + c) == (a + b) + c
  {
  }

  lemma CancelFront<T>(t: seq<T>, a: seq<T>, b: seq<T>)
    ensures t + a == t + b <==> a == b
  {
    if t + a == t + b { assert a == (t + a)[|t|..] == (t + b)[|t|..] == b; }
  }

  predicate HasPrefix(s: string, p: string) {
    |p| <= |s| && s[..|p|] == p
  }

  /** Replacing the first occurrence of a text. */
  function ReplaceFirst(s: string, what: string, with: string): string
    requires what != ""
  {
    if s == "" then "" else if HasPrefix(s, what) then with + s[|what|..] else s[..1] + ReplaceFirst(s[1..], what, with)
  }
}
