/** The mutable sketch and the TinyLFU admission policy of utils/stdlib/tiny_lfu.go. */
module CountMin {
  import opened Collections
  import opened Widths
  import S = Sketch

  class CountMinSketch {
    const p: S.Params
    const mask: nat
    const rows: seq<array<S.Counter>>
    var n: S.Word

    ghost predicate Configured() {
      p.Valid() && mask == if S.PowerOfTwo(p.width) then p.width - 1 else 0
    }

    ghost predicate Valid()
      reads this, rows
    {
      && Configured()
      && |rows| == p.depth
      && (forall i, j :: 0 <= i < j < |rows| ==> rows[i] != rows[j])
      && S.Shaped(p, Cells())
    }

    ghost function Cells(): (c: seq<seq<S.Counter>>)
      reads rows
      ensures |c| == |rows|
      ensures forall r :: 0 <= r < |rows| ==> c[r] == rows[r][..]
    {
      seq(|rows|, r requires 0 <= r < |rows| reads rows => rows[r][..])
    }

    ghost function View(): S.State
      reads this, rows
    {
      S.State(Cells(), n)
    }

    constructor (p: S.Params)
      requires p.Valid()
      ensures Valid() && this.p == p && View() == S.Fresh(p) && fresh(rows)
    {
      this.p := p;
      n := 0;
      var made: seq<array<S.Counter>> := [];
      while |made| < p.depth
        invariant |made| <= p.depth && fresh(made)
        invariant forall i, j :: 0 <= i < j < |made| ==> made[i] != made[j]
        invariant forall r :: 0 <= r < |made| ==> made[r][..] == S.Zeros(p.width)
      {
        var row := new S.Counter[p.width](_ => 0);
        made := made + [row];
      }
      rows := made;
      S.AndPredecessor(p.width);
      mask := if S.And(p.width, p.width - 1) != 0 then 0 else p.width - 1;
    }

    /** The masked path and the modulo path agree. */
    method Index(r: nat, h: nat) returns (i: nat)
      requires Configured()
      ensures i == p.Index(r, h)
    {
      var h2 := p.mix(r, h);
      if mask != 0 {
        S.MaskIsModulo(h2, p.width);
        return S.And(h2, mask);
      }
      S.ModIsRemainder(h2, p.width);
      return h2 % p.width;
    }

    method Increment(h: nat)
      requires Valid()
      modifies this`n, rows
      ensures Valid() && View() == S.Increment(p, old(View()), h)
    {
      BumpCells(h);
      n := S.Next(n);
      if p.agingEvery != 0 {
        S.ModIsRemainder(n, p.agingEvery);
        if n % p.agingEvery == 0 {
          Age();
        }
      }
    }

    method BumpCells(h: nat)
      requires Valid()
      modifies rows
      ensures Valid() && Cells() == S.BumpAll(p, old(Cells()), h)
    {
      ghost var s0 := Cells();
      for r := 0 to p.depth
        invariant forall q :: r <= q < p.depth ==> rows[q][..] == s0[q]
        invariant forall q :: 0 <= q < r ==> rows[q][..] == S.BumpRow(s0[q], p.Index(q, h))
      {
        var idx := Index(r, h);
        assert rows[r][..] == s0[r];
        if rows[r][idx] != S.MAX32 {
          rows[r][idx] := rows[r][idx] + 1; // saturating increment
        }
      }
      assert Cells() == S.BumpAll(p, s0, h);
    }

    method Age()
      requires Valid()
      modifies rows
      ensures Valid() && View() == S.Age(old(View()))
    {
      ghost var s0 := Cells();
      for r := 0 to p.depth
        invariant forall q :: r <= q < p.depth ==> rows[q][..] == s0[q]
        invariant forall q :: 0 <= q < r ==> rows[q][..] == S.HalveRow(s0[q])
      {
        assert forall q :: 0 <= q < p.depth && q != r ==> rows[q] != rows[r];
        assert rows[r][..] == s0[r];
        HalveInPlace(rows[r]);
      }
      assert Cells() == S.Halve(s0);
    }

    static method HalveInPlace(row: array<S.Counter>)
      modifies row
      ensures row[..] == S.HalveRow(old(row[..]))
    {
      for i := 0 to row.Length
        invariant forall j :: 0 <= j < i ==> row[j] == old(row[j]) / 2
        invariant forall j :: i <= j < row.Length ==> row[j] == old(row[j])
      {
        row[i] := row[i] / 2;
      }
    }

    method Reset()
      requires Valid()
      modifies this`n, rows
      ensures Valid() && View() == S.Fresh(p)
    {
      assert forall q :: 0 <= q < p.depth ==> rows[q][..] == Cells()[q];
      for r := 0 to p.depth
        invariant forall q :: 0 <= q < r ==> rows[q][..] == S.Zeros(p.width)
        invariant forall q :: r <= q < p.depth ==> rows[q].Length == p.width
      {
        ZeroInPlace(rows[r]);
      }
      n := 0;
      assert Cells() == S.Fresh(p).rows;
    }

    static method ZeroInPlace(row: array<S.Counter>)
      modifies row
      ensures row[..] == S.Zeros(row.Length)
    {
      for i := 0 to row.Length
        invariant forall j :: 0 <= j < i ==> row[j] == 0
      {
        row[i] := 0;
      }
    }

    method Estimate(h: nat) returns (m: S.Counter)
      requires Valid()
      ensures m == S.Estimate(p, Cells(), h)
    {
      m := S.MAX32;
      ghost var s := Cells();
      for r := 0 to p.depth
        invariant m == S.EstimateUpTo(p, s, h, r)
      {
        var idx := Index(r, h);
        assert s[r] == rows[r][..];
        if rows[r][idx] < m {
          m := rows[r][idx];
        }
      }
    }
  }

  /** NewCountMinSketch: refuses a depth outside 1..8 and a width under 16. */
  method NewCountMinSketch(p: S.Params) returns (c: Option<CountMinSketch>)
    requires p.width < TWO64 && p.agingEvery < TWO64
    ensures c.Some? <==> 1 <= p.depth <= 8 && p.width >= 16
    ensures c.Some? ==> c.value.Valid() && c.value.p == p && c.value.View() == S.Fresh(p)
    ensures c.Some? ==> fresh(c.value) && fresh(c.value.rows)
  {
    if p.depth <= 0 || p.depth > 8 || p.width < 16 {
      return None;
    }
    var made := new CountMinSketch(p);
    return Some(made);
  }

  /** n increments of the same hash. */
  function IncrementN(p: S.Params, s: S.State, h: nat, n: nat): (s': S.State)
    requires p.Valid() && S.Shaped(p, s.rows)
    ensures S.Shaped(p, s'.rows)
  {
    if n == 0 then s else S.Step(p, IncrementN(p, s, h, n - 1), S.Inc(h))
  }

  class TinyLFU<K> {
    const cms: CountMinSketch
    const hash: K -> nat
    const admitOnEq: bool

    ghost predicate Valid()
      reads cms, cms.rows
    {
      cms.Valid()
    }

    ghost function View(): S.State
      reads cms, cms.rows
    {
      cms.View()
    }

    constructor (cms: CountMinSketch, hash: K -> nat, admitOnEq: bool)
      requires cms.Valid()
      ensures this.cms == cms && this.hash == hash && this.admitOnEq == admitOnEq && Valid()
    {
      this.cms, this.hash, this.admitOnEq := cms, hash, admitOnEq;
    }

    method Record(key: K)
      requires Valid()
      modifies cms`n, cms.rows
      ensures Valid() && View() == S.Increment(cms.p, old(View()), hash(key))
    {
      cms.Increment(hash(key));
    }

    method RecordN(key: K, n: nat)
      requires Valid()
      modifies cms`n, cms.rows
      ensures Valid() && View() == IncrementN(cms.p, old(View()), hash(key), n)
    {
      var h := hash(key);
      for i := 0 to n
        invariant Valid() && View() == IncrementN(cms.p, old(View()), h, i)
      {
        cms.Increment(h);
      }
    }

    /** Admission compares the two estimates; a tie admits the newcomer when `admitOnEq` is set. */
    method ShouldAdmit(incoming: K, victim: K) returns (admit: bool)
      requires Valid()
      ensures var fi, fv := S.Estimate(cms.p, cms.Cells(), hash(incoming)), S.Estimate(cms.p, cms.Cells(), hash(victim));
        admit <==> fi > fv || (fi == fv && admitOnEq)
    {
      var fi := cms.Estimate(hash(incoming));
      var fv := cms.Estimate(hash(victim));
      if admitOnEq {
        return fi >= fv;
      }
      return fi > fv;
    }
  }
}
