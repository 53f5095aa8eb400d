/**
 * A set of bits kept in 64-bit words (utils/stdlib/bitset.go:14-120), as a set of positions. The words are bit vectors,
 * and a bit is read by shifting; what masks, unions, differences and the loop that counts ones do to a word is proved
 * here bit by bit and carried over to sets of positions. Shifts by a variable amount are taken apart into shifts by
 * one, so that every step is a statement about one bit and the word that is left. The bit set and the
 * filter that are built on these words are in Bloom, which speaks of positions only.
 */
module BitSets {

  const WORD: nat := 64
  const TOP: bv64 := 0x8000_0000_0000_0000

  function Half(w: bv64): bv64 {
    w >> 1
  }

  function Double(w: bv64): bv64 {
    w << 1
  }

  predicate Odd(w: bv64) {
    w & 1 == 1
  }

  /** Bit i of a word: the lowest bit once the word has been halved i times. */
  predicate Bit(w: bv64, i: nat) {
    if i == 0 then Odd(w) else Bit(Half(w), i - 1)
  }

  /** 1 shifted left by i. */
  function Mask(i: nat): bv64 {
    if i == 0 then 1 else Double(Mask(i - 1))
  }

  // Words, bit by bit

  lemma HalfOfDouble(w: bv64)
    ensures w < TOP ==> Half(Double(w)) == w
    ensures !Odd(Double(w))
  {
  }

  lemma OrStep(a: bv64, b: bv64)
    ensures Half(a | b) == Half(a) | Half(b)
    ensures Odd(a | b) <==> Odd(a) || Odd(b)
  {
  }

  lemma {:induction false} OrBit(a: bv64, b: bv64, i: nat)
    ensures Bit(a | b, i) <==> Bit(a, i) || Bit(b, i)
    decreases i
  {
    OrStep(a, b);
    if i > 0 { OrBit(Half(a), Half(b), i - 1); }
  }

  lemma XorStep(a: bv64, b: bv64)
    ensures Half(a ^ b) == Half(a) ^ Half(b)
    ensures Odd(a ^ b) <==> (Odd(a) != Odd(b))
  {
  }

  lemma {:induction false} XorBit(a: bv64, b: bv64, i: nat)
    ensures Bit(a ^ b, i) <==> (Bit(a, i) != Bit(b, i))
    decreases i
  {
    XorStep(a, b);
    if i > 0 { XorBit(Half(a), Half(b), i - 1); }
  }

  lemma AndNotStep(a: bv64, b: bv64)
    ensures Half(a & !b) == Half(a) & !Half(b)
    ensures Odd(a & !b) <==> Odd(a) && !Odd(b)
  {
  }

  lemma {:induction false} AndNotBit(a: bv64, b: bv64, i: nat)
    ensures Bit(a & !b, i) <==> Bit(a, i) && !Bit(b, i)
    decreases i
  {
    AndNotStep(a, b);
    if i > 0 { AndNotBit(Half(a), Half(b), i - 1); }
  }

  lemma {:induction false} ZeroBit(i: nat)
    ensures !Bit(0, i)
  {
    if i > 0 { ZeroBit(i - 1); }
  }

  lemma BitOne(w: bv64, i: nat)
    ensures Bit(w, i + 1) == Bit(w >> 1, i)
  {
  }

  lemma BitTwo(w: bv64, i: nat)
    ensures Bit(w, i + 2) == Bit(w >> 2, i)
  {
    BitOne(w, i + 1);
    BitOne(w >> 1, i);
    assert (w >> 1) >> 1 == w >> 2;
  }

  lemma BitFour(w: bv64, i: nat)
    ensures Bit(w, i + 4) == Bit(w >> 4, i)
  {
    BitTwo(w, i + 2);
    BitTwo(w >> 2, i);
    assert (w >> 2) >> 2 == w >> 4;
  }

  lemma BitEight(w: bv64, i: nat)
    ensures Bit(w, i + 8) == Bit(w >> 8, i)
  {
    BitFour(w, i + 4);
    BitFour(w >> 4, i);
    assert (w >> 4) >> 4 == w >> 8;
  }

  lemma BitSixteen(w: bv64, i: nat)
    ensures Bit(w, i + 16) == Bit(w >> 16, i)
  {
    BitEight(w, i + 8);
    BitEight(w >> 8, i);
    assert (w >> 8) >> 8 == w >> 16;
  }

  lemma BitThirtyTwo(w: bv64, i: nat)
    ensures Bit(w, i + 32) == Bit(w >> 32, i)
  {
    BitSixteen(w, i + 16);
    BitSixteen(w >> 16, i);
    assert (w >> 16) >> 16 == w >> 32;
  }

  lemma HighBits(w: bv64, top: nat)
    requires top == 63
    ensures Bit(w, top) == Bit((w >> 32) >> 16, top - 48)
  {
    BitThirtyTwo(w, top - 32);
    BitSixteen(w >> 32, top - 48);
  }

  lemma LowBits(w: bv64, n: nat)
    requires n == 7
    ensures Bit(w, n) == Odd(((w >> 4) >> 2) >> 1)
  {
    BitFour(w, n - 4);
    BitTwo(w >> 4, n - 6);
    BitOne((w >> 4) >> 2, n - 7);
  }

  lemma TopOdd(w: bv64)
    ensures Odd(((((((w >> 32) >> 16) >> 8) >> 4) >> 2) >> 1)) <==> w >= TOP
  {
  }

  /** The last bit is the top bit. */
  lemma TopBit(w: bv64, top: nat)
    requires top == 63
    ensures Bit(w, top) <==> w >= TOP
  {
    HighBits(w, top);
    BitEight((w >> 32) >> 16, top - 56);
    LowBits(((w >> 32) >> 16) >> 8, top - 56);
    TopOdd(w);
  }

  lemma {:induction false} OneBit(j: nat)
    ensures Bit(1, j) <==> j == 0
  {
    if j > 0 {
      assert Half(1) == 0;
      ZeroBit(j - 1);
    }
  }

  lemma DoubleBit(m: bv64, j: nat)
    requires m < TOP
    ensures Bit(Double(m), j) <==> j > 0 && Bit(m, j - 1)
  {
    HalfOfDouble(m);
  }

  /** Each of the 64 masks has the one bit it is named after. */
  lemma {:induction false} MaskBit(i: nat, j: nat, top: nat)
    requires i <= top == 63 && j <= top
    ensures Bit(Mask(i), j) <==> i == j
    decreases i
  {
    if i == 0 {
      OneBit(j);
    } else {
      MaskBit(i - 1, top, top);
      TopBit(Mask(i - 1), top);
      DoubleBit(Mask(i - 1), j);
      if j > 0 { MaskBit(i - 1, j - 1, top); }
    }
  }

  predicate Meets(w: bv64, m: bv64) {
    w & m != 0
  }

  lemma MeetsDouble(w: bv64, m: bv64)
    requires m < TOP
    ensures Meets(w, Double(m)) <==> Meets(Half(w), m)
  {
  }

  lemma MeetsOne(w: bv64)
    ensures Meets(w, 1) <==> Odd(w)
  {
  }

  /** The test of IsSet. */
  lemma {:induction false} MaskTests(w: bv64, i: nat, top: nat)
    requires i <= top == 63
    ensures Meets(w, Mask(i)) <==> Bit(w, i)
    decreases i
  {
    if i == 0 {
      MeetsOne(w);
    } else {
      MaskBit(i - 1, top, top);
      TopBit(Mask(i - 1), top);
      MeetsDouble(w, Mask(i - 1));
      MaskTests(Half(w), i - 1, top);
    }
  }

  /** The positions of the ones of a word. */
  ghost function Ones(w: bv64): set<nat> {
    set i: nat | i < WORD && Bit(w, i)
  }

  lemma OnesAre(w: bv64, s: set<nat>)
    requires forall j: nat :: j < WORD ==> (Bit(w, j) <==> j in s)
    requires forall j :: j in s ==> j < WORD
    ensures Ones(w) == s
  {
  }

  ghost function Added(s: set<nat>, x: nat): set<nat> {
    s + {x}
  }

  ghost function Removed(s: set<nat>, x: nat): set<nat> {
    s - {x}
  }

  ghost function Toggled(s: set<nat>, x: nat): set<nat> {
    if x in s then s - {x} else s + {x}
  }

  lemma OrBits(w: bv64, m: bv64, i: nat)
    requires i < WORD && m == Mask(i)
    ensures forall j: nat :: j < WORD ==> (Bit(w | m, j) <==> Bit(w, j) || i == j)
  {
    forall j: nat | j < WORD ensures Bit(w | m, j) <==> Bit(w, j) || i == j {
      OrBit(w, m, j);
      MaskBit(i, j, WORD - 1);
    }
  }

  lemma OrOnes(w: bv64, m: bv64, i: nat)
    requires i < WORD && m == Mask(i)
    ensures Ones(w | m) == Added(Ones(w), i)
  {
    OrBits(w, m, i);
    OnesAre(w | m, Added(Ones(w), i));
  }

  lemma AndNotBits(w: bv64, m: bv64, i: nat)
    requires i < WORD && m == Mask(i)
    ensures forall j: nat :: j < WORD ==> (Bit(w & !m, j) <==> Bit(w, j) && i != j)
  {
    forall j: nat | j < WORD ensures Bit(w & !m, j) <==> Bit(w, j) && i != j {
      AndNotBit(w, m, j);
      MaskBit(i, j, WORD - 1);
    }
  }

  lemma AndNotOnes(w: bv64, m: bv64, i: nat)
    requires i < WORD && m == Mask(i)
    ensures Ones(w & !m) == Removed(Ones(w), i)
  {
    AndNotBits(w, m, i);
    OnesAre(w & !m, Removed(Ones(w), i));
  }

  lemma XorBits(w: bv64, m: bv64, i: nat)
    requires i < WORD && m == Mask(i)
    ensures forall j: nat :: j < WORD ==> (Bit(w ^ m, j) <==> (Bit(w, j) != (i == j)))
  {
    forall j: nat | j < WORD ensures Bit(w ^ m, j) <==> (Bit(w, j) != (i == j)) {
      XorBit(w, m, j);
      MaskBit(i, j, WORD - 1);
    }
  }

  lemma XorOnes(w: bv64, m: bv64, i: nat)
    requires i < WORD && m == Mask(i)
    ensures Ones(w ^ m) == Toggled(Ones(w), i)
  {
    XorBits(w, m, i);
    OnesAre(w ^ m, Toggled(Ones(w), i));
  }

  lemma OnesOfZero()
    ensures Ones(0) == {}
  {
    forall i: nat ensures !Bit(0, i) { ZeroBit(i); }
  }

  ghost function Shift(s: set<nat>, k: nat): set<nat> {
    set x | x in s :: x + k
  }

  lemma {:induction false} ShiftSize(s: set<nat>, k: nat)
    ensures |Shift(s, k)| == |s|
    decreases s
  {
    if s != {} {
      var x :| x in s;
      var t := s - {x};
      ShiftSize(t, k);
      forall y ensures y in Shift(s, k) <==> y in Shift(t, k) + {x + k} {
        if y in Shift(s, k) { var z :| z in s && z + k == y; assert z == x || z in t; }
      }
      assert Shift(s, k) == Shift(t, k) + {x + k};
    }
  }

  lemma HalfBelowTop(w: bv64)
    ensures Half(w) < TOP
  {
  }

  lemma OnesHalve(w: bv64)
    ensures Ones(w) == (if Odd(w) then {0} else {}) + Shift(Ones(Half(w)), 1)
  {
    var halves := Shift(Ones(Half(w)), 1);
    HalfBelowTop(w);
    TopBit(Half(w), WORD - 1);
    forall i: nat | 0 < i ensures i in Ones(w) <==> i in halves {
      assert i in halves <==> i - 1 in Ones(Half(w));
      assert Bit(w, i) == Bit(Half(w), i - 1);
    }
    assert 0 in Ones(w) <==> Odd(w);
    assert 0 !in halves;
  }

  // Counting

  lemma HalfShrinks(w: bv64)
    requires w != 0
    ensures Half(w) < w
  {
  }

  /** The number of ones, bit by bit. */
  ghost function Population(w: bv64): nat
    decreases w
  {
    if w == 0 then 0
    else
      HalfShrinks(w);
      (if Odd(w) then 1 else 0) + Population(Half(w))
  }

  lemma {:induction false} PopulationIsSize(w: bv64)
    ensures Population(w) == |Ones(w)|
    decreases w
  {
    if w == 0 {
      OnesOfZero();
    } else {
      HalfShrinks(w);
      PopulationIsSize(Half(w));
      OnesHalve(w);
      ShiftSize(Ones(Half(w)), 1);
      assert 0 !in Shift(Ones(Half(w)), 1);
    }
  }

  function Drop(w: bv64): bv64 {
    w & (w - 1)
  }

  lemma DropShrinks(w: bv64)
    requires w != 0
    ensures Drop(w) < w
  {
  }

  lemma DropOdd(w: bv64)
    requires Odd(w)
    ensures !Odd(Drop(w)) && Half(Drop(w)) == Half(w)
  {
  }

  lemma DropEven(w: bv64)
    requires w != 0 && !Odd(w)
    ensures !Odd(Drop(w)) && Half(w) != 0 && Half(Drop(w)) == Drop(Half(w))
  {
  }

  lemma PopulationStep(w: bv64)
    ensures Population(w) == (if Odd(w) then 1 else 0) + Population(Half(w))
  {
    if w == 0 { assert !Odd(0) && Half(0) == 0; }
  }

  /** Kernighan's step leaves one bit fewer. */
  lemma {:induction false} DropsOne(w: bv64)
    requires w != 0
    ensures Population(Drop(w)) + 1 == Population(w)
    decreases w
  {
    PopulationStep(w);
    PopulationStep(Drop(w));
    if Odd(w) {
      DropOdd(w);
    } else {
      DropEven(w);
      HalfShrinks(w);
      DropsOne(Half(w));
    }
  }

  method PopCount(word: bv64) returns (count: nat)
    ensures count == |Ones(word)|
  {
    var x := word;
    count := 0;
    while x != 0
      invariant count + Population(x) == Population(word)
      decreases x
    {
      DropsOne(x);
      DropShrinks(x);
      x := Drop(x);
      count := count + 1;
    }
    PopulationIsSize(word);
  }

  // Full and empty words

  const ALL: bv64 := 0xFFFF_FFFF_FFFF_FFFF

  lemma NonZero(w: bv64)
    ensures w == 0 <==> Ones(w) == {}
  {
    PopulationIsSize(w);
    if w == 0 { OnesOfZero(); } else { DropsOne(w); }
  }

  lemma OrAll(m: bv64)
    ensures m | ALL == ALL
  {
  }

  lemma AllBit(j: nat)
    requires j < WORD
    ensures Bit(ALL, j)
  {
    MaskBit(j, j, 63);
    OrAll(Mask(j));
    OrBit(Mask(j), ALL, j);
  }

  lemma AllMinus(w: bv64)
    ensures w == ALL <==> ALL & !w == 0
  {
  }

  lemma MissingBit(w: bv64, j: nat)
    requires j < WORD
    ensures Bit(ALL & !w, j) <==> !Bit(w, j)
  {
    AllBit(j);
    AndNotBit(ALL, w, j);
  }

  ghost function Missing(w: bv64): set<nat> {
    set j: nat | j < WORD && !Bit(w, j)
  }

  lemma AllOnes(w: bv64)
    ensures w == ALL <==> Missing(w) == {}
  {
    AllMinus(w);
    NonZero(ALL & !w);
    forall j: nat | j < WORD ensures Bit(ALL & !w, j) <==> !Bit(w, j) { MissingBit(w, j); }
    OnesAre(ALL & !w, Missing(w));
  }

  lemma TestOne(w: bv64, i: nat)
    requires i < WORD
    ensures Meets(w, Mask(i)) <==> i in Ones(w)
  {
    MaskTests(w, i, WORD - 1);
  }

  lemma FullWord(w: bv64)
    ensures w == ALL <==> forall j: nat :: j < WORD ==> j in Ones(w)
  {
    AllOnes(w);
    assert forall j: nat :: j < WORD ==> (j in Missing(w) <==> j !in Ones(w));
  }

  // Several words, each given by the positions of its ones

  ghost function Positions(words: seq<set<nat>>): set<nat> {
    set p: nat | p < WORD * |words| && p % WORD in words[p / WORD]
  }

  ghost predicate Below(s: set<nat>, n: nat) {
    forall p :: p in s ==> p < n
  }

  lemma BelowUpdates(s: set<nat>, n: nat, x: nat)
    requires Below(s, n) && x < n
    ensures Below(Added(s, x), n) && Below(Removed(s, x), n) && Below(Toggled(s, x), n)
  {
  }

  /** A word changed at one bit changes the positions at that bit. */
  lemma PositionsSet(words: seq<set<nat>>, pos: nat)
    requires pos < WORD * |words|
    ensures Positions(words[pos / WORD := Added(words[pos / WORD], pos % WORD)]) == Added(Positions(words), pos)
  {
    forall p: nat | p / WORD == pos / WORD && p % WORD == pos % WORD ensures p == pos {}
  }

  lemma PositionsCleared(words: seq<set<nat>>, pos: nat)
    requires pos < WORD * |words|
    ensures Positions(words[pos / WORD := Removed(words[pos / WORD], pos % WORD)]) == Removed(Positions(words), pos)
  {
    forall p: nat | p / WORD == pos / WORD && p % WORD == pos % WORD ensures p == pos {}
  }

  lemma PositionsToggled(words: seq<set<nat>>, pos: nat)
    requires pos < WORD * |words|
    ensures Positions(words[pos / WORD := Toggled(words[pos / WORD], pos % WORD)]) == Toggled(Positions(words), pos)
  {
    if pos % WORD in words[pos / WORD] {
      PositionsCleared(words, pos);
    } else {
      PositionsSet(words, pos);
    }
  }

  lemma PositionsSnoc(words: seq<set<nat>>, w: set<nat>)
    requires forall i :: i in w ==> i < WORD
    ensures |Positions(words + [w])| == |Positions(words)| + |w|
  {
    var n := WORD * |words|;
    forall p: nat ensures p in Positions(words + [w]) <==> p in Positions(words) + Shift(w, n) {
      if p >= n {
        assert p in Shift(w, n) <==> p - n in w;
        if p < n + WORD { assert p / WORD == |words| && p % WORD == p - n; }
      } else {
        assert p !in Shift(w, n);
      }
    }
    assert Positions(words + [w]) == Positions(words) + Shift(w, n);
    ShiftSize(w, n);
    assert Positions(words) !! Shift(w, n);
  }
}
