/** The bit set and the Bloom filter over it (utils/stdlib/bitset.go:14-120, utils/stdlib/bloom.go:14-149). */
module Bloom {
  import opened BitSets

  class BitSet {
    var bits: array<bv64>
    const size: nat
    /** For each word the positions of its ones. */
    ghost var ones: seq<set<nat>>

    ghost function View(): set<nat>
      reads this
    {
      Positions(ones)
    }

    ghost predicate Tracked()
      reads this, bits
    {
      |ones| == bits.Length && forall k :: 0 <= k < bits.Length ==> ones[k] == Ones(bits[k])
    }

    /** The words cover the size, and no bit beyond it is ever set. */
    ghost predicate Valid()
      reads this, bits
    {
      bits.Length == (size + 63) / WORD && Tracked() && Below(View(), size)
    }

    constructor (size: nat)
      ensures Valid() && fresh(bits) && this.size == size && View() == {}
    {
      bits := new bv64[(size + 63) / WORD](_ => 0);
      this.size := size;
      ones := seq((size + 63) / WORD, _ => {});
      OnesOfZero();
    }

    method Set(pos: nat) returns (ok: bool)
      requires Valid()
      modifies bits, this`ones
      ensures Valid() && (ok <==> pos < size)
      ensures View() == if ok then Added(old(View()), pos) else old(View())
    {
      if pos >= size {
        return false;
      }
      var word, bit := pos / WORD, pos % WORD;
      OrOnes(bits[word], Mask(bit), bit);
      PositionsSet(ones, pos);
      BelowUpdates(View(), size, pos);
      bits[word] := bits[word] | Mask(bit);
      ones := ones[word := Added(ones[word], bit)];
      return true;
    }

    method Clear(pos: nat) returns (ok: bool)
      requires Valid()
      modifies bits, this`ones
      ensures Valid() && (ok <==> pos < size)
      ensures View() == if ok then Removed(old(View()), pos) else old(View())
    {
      if pos >= size {
        return false;
      }
      var word, bit := pos / WORD, pos % WORD;
      AndNotOnes(bits[word], Mask(bit), bit);
      PositionsCleared(ones, pos);
      BelowUpdates(View(), size, pos);
      bits[word] := bits[word] & !Mask(bit);
      ones := ones[word := Removed(ones[word], bit)];
      return true;
    }

    method Toggle(pos: nat) returns (ok: bool)
      requires Valid()
      modifies bits, this`ones
      ensures Valid() && (ok <==> pos < size)
      ensures View() == if ok then Toggled(old(View()), pos) else old(View())
    {
      if pos >= size {
        return false;
      }
      var word, bit := pos / WORD, pos % WORD;
      XorOnes(bits[word], Mask(bit), bit);
      PositionsToggled(ones, pos);
      BelowUpdates(View(), size, pos);
      bits[word] := bits[word] ^ Mask(bit);
      ones := ones[word := Toggled(ones[word], bit)];
      return true;
    }

    method ClearAll()
      requires Valid()
      modifies bits, this`ones
      ensures Valid() && View() == {}
    {
      for i := 0 to bits.Length
        invariant forall k :: 0 <= k < i ==> bits[k] == 0
      {
        bits[i] := 0;
      }
      OnesOfZero();
      ones := seq(bits.Length, _ => {});
    }

    method IsSet(pos: nat) returns (set': bool, ok: bool)
      requires Valid()
      ensures (ok <==> pos < size) && (set' <==> pos in View())
    {
      if pos >= size {
        return false, false;
      }
      var word, bit := pos / WORD, pos % WORD;
      TestOne(bits[word], bit);
      return Meets(bits[word], Mask(bit)), true;
    }

    method CountSetBits() returns (count: nat)
      requires Valid()
      ensures count == |View()|
    {
      count := 0;
      assert Positions([]) == {};
      for i := 0 to bits.Length
        invariant count == |Positions(ones[..i])|
      {
        var c := PopCount(bits[i]);
        PositionsSnoc(ones[..i], ones[i]);
        assert ones[..i+1] == ones[..i] + [ones[i]];
        count := count + c;
      }
      assert ones[..bits.Length] == ones;
    }

    ghost predicate AllIn()
      reads this
    {
      forall p: nat :: p < size ==> p in View()
    }

    /** Every word is compared with all ones, the last one too, so a size that is no multiple of 64 is never full. */
    method AllSet() returns (all: bool)
      requires Valid()
      ensures all <==> size % WORD == 0 && AllIn()
    {
      for i := 0 to bits.Length
        invariant forall k :: 0 <= k < i ==> bits[k] == ALL
      {
        if bits[i] != ALL && i * WORD < size {
          FullWord(bits[i]);
          ghost var j: nat :| j < WORD && j !in ones[i];
          NotFull(i, j);
          return false;
        }
      }
      Full();
      return true;
    }

    lemma NotFull(i: nat, j: nat)
      requires Valid() && i < bits.Length && j < WORD && j !in ones[i]
      ensures !(size % WORD == 0 && AllIn())
    {
      var p := i * WORD + j;
      assert p / WORD == i && p % WORD == j;
      assert p !in View();
    }

    lemma Full()
      requires Valid() && forall k :: 0 <= k < bits.Length ==> bits[k] == ALL
      ensures size % WORD == 0 && AllIn()
    {
      FullWord(ALL);
      forall p: nat | p < WORD * bits.Length ensures p in View() {
        assert bits[p / WORD] == ALL;
      }
      if bits.Length > 0 { assert WORD * bits.Length - 1 in View(); }
    }

    method AnySet() returns (any: bool)
      requires Valid()
      ensures any <==> View() != {}
    {
      for i := 0 to bits.Length
        invariant forall k :: 0 <= k < i ==> bits[k] == 0
      {
        NonZero(bits[i]);
        if bits[i] != 0 {
          ghost var j :| j in ones[i];
          ghost var p := i * WORD + j;
          assert p / WORD == i && p % WORD == j;
          assert p in View();
          return true;
        }
      }
      OnesOfZero();
      return false;
    }

    method NoneSet() returns (none: bool)
      requires Valid()
      ensures none <==> View() == {}
    {
      var any := AnySet();
      return !any;
    }
  }

  // The filter

  /** How many seeded hash functions there are. */
  const SEED_COUNT: nat := 111

  /** What fixes a filter: its size, its number of hash functions, the number of seeds, the 64-bit hash by seed index. */
  datatype Shape = Shape(size: nat, hashes: nat, seeds: nat, murmur: (string, nat) -> nat) {
    function Modulus(): (m: nat)
      ensures m > 0
    {
      if size > 1 then size else 1
    }

    function Place(key: string, i: nat): (p: nat)
      requires i < seeds
      ensures p < Modulus()
    {
      murmur(key, i) % Modulus()
    }

    /** The places of the first n hash functions. */
    ghost function Places(key: string, n: nat): set<nat>
      requires n <= seeds
    {
      if n == 0 then {} else Places(key, n - 1) + {Place(key, n - 1)}
    }
  }

  /** A set to which the places of the first n hash functions were added one by one. */
  ghost function Filled(s: Shape, before: set<nat>, key: string, n: nat): set<nat>
    requires n <= s.seeds
  {
    if n == 0 then before else Added(Filled(s, before, key, n - 1), s.Place(key, n - 1))
  }

  lemma {:induction false} FilledIs(s: Shape, before: set<nat>, key: string, n: nat)
    requires n <= s.seeds
    ensures Filled(s, before, key, n) == before + s.Places(key, n)
  {
    if n > 0 { FilledIs(s, before, key, n - 1); }
  }

  lemma {:induction false} PlaceHeld(s: Shape, key: string, i: nat, n: nat)
    requires i < n <= s.seeds
    ensures s.Place(key, i) in s.Places(key, n)
  {
    if i < n - 1 { PlaceHeld(s, key, i, n - 1); }
  }

  /** The places below n. */
  ghost function Under(s: set<nat>, n: nat): set<nat> {
    set p | p in s && p < n
  }

  lemma UnderNext(mine: set<nat>, s: set<nat>, n: nat)
    ensures mine + Under(s, n + 1) == if n in s then Added(mine + Under(s, n), n) else mine + Under(s, n)
  {
  }

  /** A filter that was never cleared holds the places of the keys added to it. */
  ghost function Held(s: Shape, keys: seq<string>): set<nat>
    requires s.hashes <= s.seeds
  {
    if keys == [] then {} else Held(s, keys[..|keys|-1]) + s.Places(keys[|keys|-1], s.hashes)
  }

  /** Merging is adding the keys of both. */
  lemma {:induction false} MergeIsConcatenation(s: Shape, a: seq<string>, b: seq<string>)
    requires s.hashes <= s.seeds
    ensures Held(s, a + b) == Held(s, a) + Held(s, b)
    decreases |b|
  {
    if b == [] {
      assert a + b == a;
    } else {
      assert (a + b)[..|a + b|-1] == a + b[..|b|-1];
      MergeIsConcatenation(s, a, b[..|b|-1]);
    }
  }

  lemma {:induction false} HeldKeys(s: Shape, keys: seq<string>, key: string)
    requires s.hashes <= s.seeds && key in keys
    ensures s.Places(key, s.hashes) <= Held(s, keys)
  {
    if key != keys[|keys|-1] { HeldKeys(s, keys[..|keys|-1], key); }
  }

  // Whole runs of one filter

  /** A key is added, everything is cleared, or a filter that holds the given keys is merged in. */
  datatype Op = Insert(key: string) | Wipe | Absorb(keys: seq<string>)

  /** The keys added or merged in since the last clearing. */
  function Live(ops: seq<Op>): seq<string> {
    if ops == [] then []
    else
      var before := Live(ops[..|ops|-1]);
      match ops[|ops|-1]
      case Insert(key) => before + [key]
      case Wipe => []
      case Absorb(keys) => before + keys
  }

  /** The bits after a run; a filter of size 0 has no bits. */
  ghost function Run(s: Shape, ops: seq<Op>): set<nat>
    requires s.hashes <= s.seeds
  {
    if ops == [] || s.size == 0 then {}
    else
      var before := Run(s, ops[..|ops|-1]);
      match ops[|ops|-1]
      case Insert(key) => before + s.Places(key, s.hashes)
      case Wipe => {}
      case Absorb(keys) => before + Held(s, keys)
  }

  /** What Exists answers. */
  ghost predicate Reports(s: Shape, bits: set<nat>, key: string)
    requires s.hashes <= s.seeds
  {
    s.size > 0 && s.Places(key, s.hashes) <= bits
  }

  /** The bits are those of the live keys, no others. */
  lemma {:induction false} RunHoldsLive(s: Shape, ops: seq<Op>)
    requires s.hashes <= s.seeds && s.size > 0
    ensures Run(s, ops) == Held(s, Live(ops))
  {
    if ops != [] {
      var init := ops[..|ops|-1];
      RunHoldsLive(s, init);
      match ops[|ops|-1] {
        case Insert(key) =>
          assert (Live(init) + [key])[..|Live(init)|] == Live(init);
        case Wipe =>
        case Absorb(keys) =>
          MergeIsConcatenation(s, Live(init), keys);
      }
    }
  }

  /** No live key is ever reported absent, exactly when the filter has at least one bit. */
  lemma NoFalseNegativesIff(s: Shape, ops: seq<Op>, key: string)
    requires s.hashes <= s.seeds && key in Live(ops)
    ensures Reports(s, Run(s, ops), key) <==> s.size > 0
  {
    if s.size > 0 {
      RunHoldsLive(s, ops);
      HeldKeys(s, Live(ops), key);
    }
  }

  lemma {:induction false} PlacesAre(s: Shape, key: string, n: nat, p: nat)
    requires n <= s.seeds
    ensures p in s.Places(key, n) <==> exists j: nat :: j < n && s.Place(key, j) == p
  {
    if n > 0 { PlacesAre(s, key, n - 1, p); }
  }

  /** The place p is one of a key in `keys`. */
  ghost predicate Taken(s: Shape, keys: seq<string>, p: nat)
    requires s.hashes <= s.seeds
  {
    exists k, j: nat :: k in keys && j < s.hashes && s.Place(k, j) == p
  }

  lemma {:induction false} HeldAre(s: Shape, keys: seq<string>, p: nat)
    requires s.hashes <= s.seeds
    ensures p in Held(s, keys) <==> Taken(s, keys, p)
  {
    if keys != [] {
      var init, last := keys[..|keys|-1], keys[|keys|-1];
      HeldAre(s, init, p);
      PlacesAre(s, last, s.hashes, p);
      assert keys == init + [last];
      if p in Held(s, init) {
        var k, j: nat :| k in init && j < s.hashes && s.Place(k, j) == p;
        assert k in keys;
      }
      if Taken(s, keys, p) {
        var k, j: nat :| k in keys && j < s.hashes && s.Place(k, j) == p;
        assert k in init || k == last;
      }
    }
  }

  /** Over every run a key is reported exactly when each of its places is a place of some live key. */
  lemma ReportedIff(s: Shape, ops: seq<Op>, key: string)
    requires s.hashes <= s.seeds && s.size > 0
    ensures Reports(s, Run(s, ops), key) <==> forall i: nat :: i < s.hashes ==> Taken(s, Live(ops), s.Place(key, i))
  {
    RunHoldsLive(s, ops);
    var bits := Held(s, Live(ops));
    forall i: nat | i < s.hashes ensures s.Place(key, i) in bits <==> Taken(s, Live(ops), s.Place(key, i)) {
      HeldAre(s, Live(ops), s.Place(key, i));
    }
    forall i: nat | i < s.hashes ensures s.Place(key, i) in s.Places(key, s.hashes) { PlaceHeld(s, key, i, s.hashes); }
    forall p | p in s.Places(key, s.hashes) ensures exists i: nat :: i < s.hashes && s.Place(key, i) == p {
      PlacesAre(s, key, s.hashes, p);
    }
  }

  /** A filter that holds no key, new or just cleared, reports none. */
  lemma NothingReported(s: Shape, ops: seq<Op>, key: string)
    requires 0 < s.hashes <= s.seeds && Live(ops) == []
    ensures !Reports(s, Run(s, ops), key)
  {
    if s.size > 0 {
      ReportedIff(s, ops, key);
      assert !Taken(s, Live(ops), s.Place(key, 0));
    }
  }

  /** A filter of size 0 forgets the key it was just given. */
  lemma EmptyFilterExample(murmur: (string, nat) -> nat)
    ensures var s := Shape(0, 1, SEED_COUNT, murmur); "k" in Live([Insert("k")]) && !Reports(s, Run(s, [Insert("k")]), "k")
  {
    assert Live([Insert("k")]) == Live([]) + ["k"];
  }

  class BloomFilter {
    const shape: Shape
    const bitset: BitSet

    ghost function View(): set<nat>
      reads this, bitset
    {
      bitset.View()
    }

    ghost predicate Valid()
      reads this, bitset, bitset.bits
    {
      bitset.Valid() && bitset.size == shape.size && shape.hashes > 0 && shape.seeds > 0
    }

    constructor (size: nat, hashCount: nat, murmur: (string, nat) -> nat)
      ensures Valid() && View() == {} && fresh(bitset) && fresh(bitset.bits)
      ensures shape == Shape(size, if hashCount > 1 then hashCount else 1, SEED_COUNT, murmur)
    {
      shape := Shape(size, if hashCount > 1 then hashCount else 1, SEED_COUNT, murmur);
      bitset := new BitSet(size);
    }

    method SetPlace(key: string, i: nat) returns (ok: bool)
      requires Valid() && i < shape.seeds
      modifies bitset.bits, bitset`ones
      ensures Valid() && (ok <==> shape.size > 0)
      ensures View() == if ok then Added(old(View()), shape.Place(key, i)) else old(View())
    {
      var position := shape.Place(key, i);
      ok := bitset.Set(position);
    }

    /** A filter with more hash functions than seeds panics, unless it has no bit to set in the first place. */
    method Add(key: string) returns (panic: bool)
      requires Valid()
      modifies bitset.bits, bitset`ones
      ensures Valid() && (panic <==> shape.size > 0 && shape.hashes > shape.seeds)
      ensures shape.size == 0 ==> View() == old(View())
      ensures shape.size > 0 ==>
                View() == old(View()) + shape.Places(key, if panic then shape.seeds else shape.hashes)
    {
      panic := SetPlaces(key);
      if shape.size > 0 {
        FilledIs(shape, old(View()), key, if panic then shape.seeds else shape.hashes);
      }
    }

    method SetPlaces(key: string) returns (panic: bool)
      requires Valid()
      modifies bitset.bits, bitset`ones
      ensures Valid() && (panic <==> shape.size > 0 && shape.hashes > shape.seeds)
      ensures shape.size == 0 ==> View() == old(View())
      ensures shape.size > 0 ==>
                View() == Filled(shape, old(View()), key, if panic then shape.seeds else shape.hashes)
    {
      for i := 0 to shape.hashes
        invariant Valid() && i <= shape.seeds
        invariant shape.size == 0 ==> i == 0
        invariant View() == Filled(shape, old(View()), key, i)
      {
        if i >= shape.seeds {
          return true;
        }
        var ok := SetPlace(key, i);
        if !ok {
          return false;
        }
      }
      return false;
    }

    method Exists(key: string) returns (found: bool, panic: bool)
      requires Valid()
      ensures shape.size == 0 ==> !found && !panic
      ensures shape.size > 0 && shape.hashes <= shape.seeds ==> !panic && (found <==> Reports(shape, View(), key))
      ensures shape.size > 0 && shape.hashes > shape.seeds ==>
                !found && (panic <==> shape.Places(key, shape.seeds) <= View())
    {
      for i := 0 to shape.hashes
        invariant i <= shape.seeds && (shape.size == 0 ==> i == 0)
        invariant shape.Places(key, i) <= View()
      {
        if i >= shape.seeds {
          return false, true;
        }
        var position := shape.Place(key, i);
        var isSet, ok := bitset.IsSet(position);
        if !ok {
          return false, false;
        }
        if !isSet {
          Absent(key, i, position);
          return false, false;
        }
      }
      return true, false;
    }

    lemma Absent(key: string, i: nat, position: nat)
      requires i < shape.seeds && i < shape.hashes && position == shape.Place(key, i) && position !in View()
      ensures !(shape.Places(key, shape.seeds) <= View())
      ensures shape.hashes <= shape.seeds ==> !(shape.Places(key, shape.hashes) <= View())
    {
      PlaceHeld(shape, key, i, shape.seeds);
      if shape.hashes <= shape.seeds { PlaceHeld(shape, key, i, shape.hashes); }
    }

    method ClearAll()
      requires Valid()
      modifies bitset.bits, bitset`ones
      ensures Valid() && View() == {}
    {
      bitset.ClearAll();
    }

    /** Refused for another modulus or hash count, and when the other filter has a bit this one has no room for. */
    method Merge(other: BloomFilter) returns (ok: bool)
      requires Valid() && other.Valid() && (other.bitset == bitset || other.bitset.bits != bitset.bits)
      modifies bitset.bits, bitset`ones
      ensures Valid()
      ensures ok <==> shape.Modulus() == other.shape.Modulus() && shape.hashes == other.shape.hashes
                      && Below(old(other.View()), shape.size)
      ensures View() == if ok then old(View()) + old(other.View()) else old(View())
    {
      if shape.Modulus() != other.shape.Modulus() || shape.hashes != other.shape.hashes {
        return false;
      }
      ghost var theirs := other.View();
      for i := 0 to shape.Modulus()
        invariant Valid() && other.Valid() && other.View() == theirs
        invariant View() == old(View()) + Under(theirs, i)
        invariant shape.size == 0 && i > 0 ==> 0 !in theirs
      {
        UnderNext(old(View()), theirs, i);
        var exists', _ := other.bitset.IsSet(i);
        if exists' {
          var set' := bitset.Set(i);
          if !set' {
            return false;
          }
        }
      }
      assert Under(theirs, shape.Modulus()) == theirs;
      return true;
    }
  }
}
