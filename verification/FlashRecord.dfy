/**
 FlashDB records: field values, the size estimator (utils/system/os.go,
 storage/flashdb/utils.go) and the in-place field updates of storage/flashdb/store.go.
 */
module FlashRecord {
  import opened Collections
  import opened Widths
  import F = Floats

  /** int64 arithmetic wraps around. */
  function WrapInt64(x: int): (y: int)
    ensures -TWO63 <= y < TWO63
    ensures -TWO63 <= x < TWO63 ==> y == x
  {
    (x + TWO63) % TWO64 - TWO63
  }

  // ---------- Values and their size ----------

  datatype Value =
    | Int(i: int)
    | Int32(i32: int)
    | Int64(i64: int)
    | Float64(f: real)
    | Scalar(width: nat)                    // bool and the other fixed-width kinds
    | Str(s: string)
    | Slice(elems: seq<Value>)
    | Map(entries: seq<MapEntry>)           // in iteration order
    | NilPointer
    | Pointer(target: Value)
    | Struct(width: nat)
    | Unsupported

  datatype MapEntry = MapEntry(key: Value, val: Value)

  type Fields = map<string, Value>

  function SizeOf(v: Value): Option<nat> {
    match v
    case Int(_) => Some(8)
    case Int32(_) => Some(4)
    case Int64(_) => Some(8)
    case Float64(_) => Some(8)
    case Scalar(w) => Some(w)
    case Str(s) => Some(16 + |s|)
    case Slice(es) => Plus(Some(24), SizeOfAll(es))
    case Map(es) => Plus(Some(48), SizeOfEntries(es))
    case NilPointer => Some(0)
    case Pointer(t) => Plus(Some(16), SizeOf(t))
    case Struct(w) => Some(w)
    case Unsupported => None
  }

  function SizeOfAll(vs: seq<Value>): Option<nat> {
    if vs == [] then Some(0) else Plus(SizeOfAll(vs[..|vs|-1]), SizeOf(vs[|vs|-1]))
  }

  function SizeOfEntries(es: seq<MapEntry>): Option<nat> {
    if es == [] then Some(0) else
    Plus(SizeOfEntries(es[..|es|-1]), SizeOfEntry(es[|es|-1]))
  }

  function SizeOfEntry(e: MapEntry): Option<nat> {
    Plus(SizeOf(e.key), SizeOf(e.val))
  }

  function Plus(a: Option<nat>, b: Option<nat>): Option<nat> {
    if a.Some? && b.Some? then Some(a.value + b.value) else None
  }

  /** GetInMemorySizeInBytes: the loops stop at the first element whose kind is unsupported. */
  method GetInMemorySizeInBytes(v: Value) returns (r: Option<nat>)
    ensures r == SizeOf(v)
    decreases v, 1
  {
    match v
    case Slice(es) => r := SliceSize(v, es);
    case Map(es) => r := MapSize(v, es);
    case Pointer(t) =>
      var n := GetInMemorySizeInBytes(t);
      return if n.Some? then Some(16 + n.value) else None;
    case _ =>
      return SizeOf(v);
  }

  method SliceSize(ghost v: Value, es: seq<Value>) returns (r: Option<nat>)
    requires v == Slice(es)
    ensures r == SizeOf(v)
    decreases v, 0
  {
    var total := 24;
    for i := 0 to |es|
      invariant SizeOfAll(es[..i]).Some? && total == 24 + SizeOfAll(es[..i]).value
    {
      assert es[..i+1][..i] == es[..i];
      var n := GetInMemorySizeInBytes(es[i]);
      if n.None? {
        FailedPrefix(es, i + 1);
        return None;
      }
      total := total + n.value;
    }
    assert es[..|es|] == es;
    return Some(total);
  }

  method MapSize(ghost v: Value, es: seq<MapEntry>) returns (r: Option<nat>)
    requires v == Map(es)
    ensures r == SizeOf(v)
    decreases v, 0
  {
    var total := 48;
    for i := 0 to |es|
      invariant SizeOfEntries(es[..i]).Some? && total == 48 + SizeOfEntries(es[..i]).value
    {
      assert es[..i+1][..i] == es[..i];
      assert es[i] in es;
      var k := GetInMemorySizeInBytes(es[i].key);
      if k.None? {
        FailedEntries(es, i + 1);
        return None;
      }
      var n := GetInMemorySizeInBytes(es[i].val);
      if n.None? {
        FailedEntries(es, i + 1);
        return None;
      }
      total := total + (k.value + n.value);
    }
    assert es[..|es|] == es;
    return Some(total);
  }

  lemma {:induction false} FailedPrefix(vs: seq<Value>, i: nat)
    requires i <= |vs| && SizeOfAll(vs[..i]).None?
    ensures SizeOfAll(vs).None?
    decreases |vs|
  {
    if i < |vs| {
      assert vs[..|vs|-1][..i] == vs[..i];
      FailedPrefix(vs[..|vs|-1], i);
    } else {
      assert vs[..i] == vs;
    }
  }

  lemma {:induction false} FailedEntries(es: seq<MapEntry>, i: nat)
    requires i <= |es| && SizeOfEntries(es[..i]).None?
    ensures SizeOfEntries(es).None?
    decreases |es|
  {
    if i < |es| {
      assert es[..|es|-1][..i] == es[..i];
      FailedEntries(es[..|es|-1], i);
    } else {
      assert es[..i] == es;
    }
  }

  // ---------- The size of a record ----------

  function FieldCost(name: string, v: Value): int {
    16 + |name| + if SizeOf(v).Some? then SizeOf(v).value else 0
  }

  ghost predicate Measurable(value: Fields) {
    forall f :: f in value ==> SizeOf(value[f]).Some?
  }

  /** safeDeepSize: an unsupported kind anywhere makes the whole estimate 0. */
  ghost function DeepSize(value: Fields): int {
    if Measurable(value) then 48 + MapSum(value, FieldCost) else 0
  }

  ghost function ComputeSize(key: string, value: Fields): int {
    WrapInt64(|key| + 96 + DeepSize(value))
  }

  /** safeDeepSize, visiting the fields in whatever order the runtime picks. */
  method SafeDeepSize(value: Fields) returns (total: int)
    ensures total == DeepSize(value)
  {
    var left := value;
    total := 48;
    while left != map[]
      invariant forall f :: f in left ==> f in value && left[f] == value[f]
      invariant forall f :: f in value && f !in left ==> SizeOf(value[f]).Some?
      invariant 48 + MapSum(value, FieldCost) == total + MapSum(left, FieldCost)
      decreases |left|
    {
      var f :| f in left;
      var n := GetInMemorySizeInBytes(left[f]);
      if n.None? {
        assert !Measurable(value);
        return 0;
      }
      MapSumRemove(left, FieldCost, f);
      assert FieldCost(f, left[f]) == 16 + |f| + n.value;
      total := total + (16 + |f| + n.value);
      left := left - {f};
    }
    assert Measurable(value);
  }

  method ComputeSizeOf(key: string, value: Fields) returns (size: int)
    ensures size == ComputeSize(key, value)
  {
    var deep := SafeDeepSize(value);
    size := WrapInt64(|key| + 96 + deep);
  }

  lemma DeepSizeAfterUpdate(value: Fields, f: string, v: Value)
    requires f in value && (SizeOf(v).Some? <==> SizeOf(value[f]).Some?)
    ensures Measurable(value[f := v]) <==> Measurable(value)
    ensures Measurable(value) ==> DeepSize(value[f := v]) == DeepSize(value) + FieldCost(f, v) - FieldCost(f, value[f])
  {
    if Measurable(value[f := v]) {
      forall g | g in value ensures SizeOf(value[g]).Some? {
        assert SizeOf(value[f := v][g]).Some?;
      }
    }
    MapSumInsert(value, FieldCost, f, v);
  }

  // ---------- Field updates ----------

  datatype Status = Ok | NotFound | InvalidKey | IllegalField | BadType

  /** addInt: int and int32 refuse to overflow, int64 wraps, float64 rounds, anything else is refused. */
  function AddInt(cur: Value, delta: int): Option<Value> {
    match cur
    case Int(x) =>
      if delta > 0 && x > TWO63 - 1 - delta then None
      else if delta < 0 && x < -TWO63 - delta then None
      else Some(Int(x + delta))
    case Int32(x) =>
      if delta > 0 && x > TWO31 - 1 - delta then None
      else if delta < 0 && x < -TWO31 - delta then None
      else Some(Int32(x + delta))
    case Int64(x) => Some(Int64(WrapInt64(x + delta)))
    case Float64(x) => Some(Float64(F.FloatAdd(x, delta)))
    case _ => None
  }

  /** A field value is representable in its Go kind. */
  predicate Representable(v: Value) {
    match v
    case Int(x) => -TWO63 <= x < TWO63
    case Int32(x) => -TWO31 <= x < TWO31
    case Int64(x) => -TWO63 <= x < TWO63
    case Float64(x) => F.IsFloat(x)
    case _ => true
  }

  /** The sum stays in range and keeps the kind, hence the size, of the field; it is refused exactly when it cannot. */
  lemma AddIntSound(cur: Value, delta: int)
    requires Representable(cur) && -TWO63 <= delta < TWO63
    ensures AddInt(cur, delta).Some? ==> Representable(AddInt(cur, delta).value) && SizeOf(AddInt(cur, delta).value) == SizeOf(cur)
    ensures cur.Int? ==> AddInt(cur, delta) == if -TWO63 <= cur.i + delta < TWO63 then Some(Int(cur.i + delta)) else None
    ensures cur.Int32? ==> AddInt(cur, delta) == if -TWO31 <= cur.i32 + delta < TWO31 then Some(Int32(cur.i32 + delta)) else None
    ensures cur.Int64? ==> AddInt(cur, delta).Some? && AddInt(cur, delta).value.Int64?
                           && (AddInt(cur, delta).value.i64 - cur.i64 - delta) % TWO64 == 0
    ensures AddInt(cur, delta).Some? <== cur.Float64?
    ensures AddInt(cur, delta).Some? ==> cur.Int? || cur.Int32? || cur.Int64? || (cur.Float64? && AddInt(cur, delta).value.Float64?)
  {
    if cur.Int64? {
      var x := cur.i64 + delta;
      assert WrapInt64(x) - x == (x + TWO63) % TWO64 - (x + TWO63);
    }
    if cur.Float64? { F.SumIsFloat(cur.f, delta); }
  }

  /** The loop of Increment over the visited (field, delta) pairs; it stops at the first error and keeps what it did. */
  function IncrementFields(value: Fields, offsets: seq<(string, int)>): (Fields, Status) {
    if offsets == [] then (value, Ok) else
    var (f, d) := offsets[0];
    if f !in value then (value, IllegalField) else
    match AddInt(value[f], d)
    case None => (value, BadType)
    case Some(v) => IncrementFields(value[f := v], offsets[1..])
  }

  /** Decrement hands Increment the negated deltas; negating the smallest int64 wraps back to itself. */
  function Negated(offsets: seq<(string, int)>): (n: seq<(string, int)>)
    ensures |n| == |offsets|
  {
    seq(|offsets|, i requires 0 <= i < |offsets| => (offsets[i].0, WrapInt64(-offsets[i].1)))
  }

  /**
   Whether a delta can be taken back. The smallest int64 is its own negation, which only a wrapping field survives; a
   float field must absorb the rounding error of the sum, or not feel the smallest int64 at all.
   */
  predicate Undoable(v: Value, d: int) {
    match v
    case Int64(_) => true
    case Float64(x) => if d == -TWO63 then F.FloatAdd(x, d) == x else F.Absorbed(x, d)
    case _ => d != -TWO63
  }

  /** Adding a delta and then its negation restores a field exactly when the delta can be taken back. */
  lemma AddIntUndoneIff(v: Value, d: int)
    requires Representable(v) && -TWO63 <= d < TWO63 && AddInt(v, d).Some?
    ensures AddInt(AddInt(v, d).value, WrapInt64(-d)) == Some(v) <==> Undoable(v, d)
  {
    if d == -TWO63 {
      assert WrapInt64(-d) == -TWO63;
    }
    if v.Int64? {
      WrapIsShift(v.i64 + d);
      WrapIsShift(WrapInt64(v.i64 + d) + WrapInt64(-d));
    }
    if v.Float64? {
      if d == -TWO63 { F.AddTwiceIff(v.f, d); } else { F.AddThenSubtractIff(v.f, d); }
    }
  }

  /** For a float field below 2^53 that means: the delta has a negation and the sum needs no rounding. */
  lemma SmallFloatUndoableIff(x: real, d: int)
    requires F.IsFloat(x) && -F.TWO53 < x < F.TWO53 && -TWO63 <= d < TWO63
    ensures Undoable(Float64(x), d) <==> d != -TWO63 && F.ExactSum(x, d)
  {
    F.AbsorbedIffExact(x, d);
    if d == -TWO63 { F.SmallFeelsLarge(x, d); }
  }

  /** The smallest int64 taken from 0 and given back: the second step is refused. */
  lemma NotUndoneExample()
    ensures AddInt(Int(0), -TWO63) == Some(Int(-TWO63)) && WrapInt64(TWO63) == -TWO63
    ensures AddInt(Int(-TWO63), -TWO63).None?
  {
  }

  /** One half incremented and decremented by 2^60 does not come back. */
  lemma FloatNotUndoneExample()
    ensures var d := 0x1000_0000_0000_0000; var v := Float64(0.5);
            Representable(v) && AddInt(v, d).Some? && AddInt(AddInt(v, d).value, -d) != Some(v)
  {
    F.HalfIsLost();
    AddIntUndoneIff(Float64(0.5), 0x1000_0000_0000_0000);
  }

  /** On sums of two int64 values, wrapping is at most one turn. */
  lemma WrapIsShift(x: int)
    requires -TWO64 <= x < TWO64
    ensures WrapInt64(x) == if x >= TWO63 then x - TWO64 else if x < -TWO63 then x + TWO64 else x
  {
  }

  /** The pairs come out of a map: no field is named twice. */
  ghost predicate NamesOnce<V>(pairs: seq<(string, V)>) {
    forall i, j :: 0 <= i < j < |pairs| ==> pairs[i].0 != pairs[j].0
  }

  predicate Accepts(value: Fields, o: (string, int)) {
    o.0 in value && AddInt(value[o.0], o.1).Some?
  }

  /** Every named field has had its delta added, the others are as before. */
  ghost predicate IsSum(value: Fields, offsets: seq<(string, int)>, sum: Fields) {
    && sum.Keys == value.Keys
    && (forall o :: o in offsets ==> Accepts(value, o) && sum[o.0] == AddInt(value[o.0], o.1).value)
    && (forall f :: f in value && (forall o :: o in offsets ==> o.0 != f) ==> sum[f] == value[f])
  }

  lemma SumStep(value: Fields, offsets: seq<(string, int)>, sum: Fields)
    requires offsets != [] && NamesOnce(offsets) && Accepts(value, offsets[0])
    requires IsSum(value[offsets[0].0 := AddInt(value[offsets[0].0], offsets[0].1).value], offsets[1..], sum)
    ensures IsSum(value, offsets, sum)
  {
    var first, rest := offsets[0], offsets[1..];
    assert forall o :: o in rest ==> o.0 != first.0;
    assert forall o :: o in offsets ==> o == first || o in rest;
    assert forall o :: o in rest ==> o in offsets;
    assert first in offsets;
  }

  /** The loop succeeds exactly when every pair is accepted on its own, and then adds every delta, in any order. */
  lemma {:induction false} IncrementIsSum(value: Fields, offsets: seq<(string, int)>)
    requires NamesOnce(offsets)
    ensures IncrementFields(value, offsets).1.Ok? <==> forall o :: o in offsets ==> Accepts(value, o)
    ensures IncrementFields(value, offsets).1.Ok? ==> IsSum(value, offsets, IncrementFields(value, offsets).0)
  {
    if offsets != [] {
      var first, rest := offsets[0], offsets[1..];
      assert first in offsets && forall o :: o in rest ==> o in offsets && o.0 != first.0;
      if Accepts(value, first) {
        var value' := value[first.0 := AddInt(value[first.0], first.1).value];
        IncrementIsSum(value', rest);
        assert forall o :: o in rest ==> (Accepts(value', o) <==> Accepts(value, o));
        assert forall o :: o in offsets ==> o == first || o in rest;
        if IncrementFields(value', rest).1.Ok? { SumStep(value, offsets, IncrementFields(value', rest).0); }
      }
    }
  }

  lemma SumIsUnique(value: Fields, offsets: seq<(string, int)>, a: Fields, b: Fields)
    requires IsSum(value, offsets, a) && IsSum(value, offsets, b)
    ensures a == b
  {
    forall f | f in value ensures a[f] == b[f] {
      if o :| o in offsets && o.0 == f {}
    }
  }

  /** `again` holds the negated pairs, in whatever order they are visited. */
  ghost predicate Negates(again: seq<(string, int)>, offsets: seq<(string, int)>) {
    && NamesOnce(again)
    && (forall o :: o in offsets ==> (o.0, WrapInt64(-o.1)) in again)
    && (forall n :: n in again ==> exists o :: o in offsets && n == (o.0, WrapInt64(-o.1)))
  }

  ghost predicate InRange(offsets: seq<(string, int)>) {
    forall o :: o in offsets ==> -TWO63 <= o.1 < TWO63
  }

  lemma NegationUndoes(value: Fields, offsets: seq<(string, int)>, again: seq<(string, int)>, sum: Fields, n: (string, int))
    requires Negates(again, offsets) && InRange(offsets) && IsSum(value, offsets, sum) && AllUndoable(value, offsets)
    requires n in again && forall f :: f in value ==> Representable(value[f])
    ensures n.0 in value && Accepts(sum, n) && value[n.0] == AddInt(sum[n.0], n.1).value
  {
    var o :| o in offsets && n == (o.0, WrapInt64(-o.1));
    AddIntUndoneIff(value[o.0], o.1);
  }

  lemma NegationIsSum(value: Fields, offsets: seq<(string, int)>, again: seq<(string, int)>, sum: Fields)
    requires Negates(again, offsets) && InRange(offsets) && IsSum(value, offsets, sum) && AllUndoable(value, offsets)
    requires forall f :: f in value ==> Representable(value[f])
    ensures IsSum(sum, again, value)
  {
    forall n | n in again ensures Accepts(sum, n) && value[n.0] == AddInt(sum[n.0], n.1).value {
      NegationUndoes(value, offsets, again, sum, n);
    }
    forall f | f in sum && (forall n :: n in again ==> n.0 != f) ensures value[f] == sum[f] {
      forall o | o in offsets ensures o.0 != f { assert (o.0, WrapInt64(-o.1)) in again; }
    }
  }

  ghost predicate AllUndoable(value: Fields, offsets: seq<(string, int)>) {
    forall o :: o in offsets ==> o.0 in value && Undoable(value[o.0], o.1)
  }

  lemma UndoneIfUndoable(value: Fields, offsets: seq<(string, int)>, again: seq<(string, int)>, sum: Fields)
    requires Negates(again, offsets) && InRange(offsets) && IsSum(value, offsets, sum) && AllUndoable(value, offsets)
    requires forall f :: f in value ==> Representable(value[f])
    ensures IncrementFields(sum, again) == (value, Ok)
  {
    NegationIsSum(value, offsets, again, sum);
    IncrementIsSum(sum, again);
    SumIsUnique(sum, again, value, IncrementFields(sum, again).0);
  }

  lemma UndoableIfUndone(value: Fields, offsets: seq<(string, int)>, again: seq<(string, int)>, sum: Fields)
    requires Negates(again, offsets) && InRange(offsets) && IsSum(value, offsets, sum) && IsSum(sum, again, value)
    requires forall f :: f in value ==> Representable(value[f])
    ensures AllUndoable(value, offsets)
  {
    forall o | o in offsets ensures Undoable(value[o.0], o.1) {
      assert (o.0, WrapInt64(-o.1)) in again;
      AddIntUndoneIff(value[o.0], o.1);
    }
  }

  /** Decrement undoes a successful Increment exactly when every delta can be taken back, whatever the visiting orders. */
  lemma DecrementUndoesIncrementIff(value: Fields, offsets: seq<(string, int)>, again: seq<(string, int)>)
    requires NamesOnce(offsets) && InRange(offsets) && Negates(again, offsets)
    requires forall f :: f in value ==> Representable(value[f])
    requires IncrementFields(value, offsets).1.Ok?
    ensures IncrementFields(IncrementFields(value, offsets).0, again) == (value, Ok) <==> AllUndoable(value, offsets)
  {
    var sum := IncrementFields(value, offsets).0;
    IncrementIsSum(value, offsets);
    if AllUndoable(value, offsets) {
      UndoneIfUndoable(value, offsets, again, sum);
    } else if IncrementFields(sum, again) == (value, Ok) {
      IncrementIsSum(sum, again);
      UndoableIfUndone(value, offsets, again, sum);
    }
  }

  /** The pairs Decrement builds are such negated pairs. */
  lemma NegatedNegates(offsets: seq<(string, int)>)
    requires NamesOnce(offsets)
    ensures Negates(Negated(offsets), offsets)
  {
    forall o | o in offsets ensures (o.0, WrapInt64(-o.1)) in Negated(offsets) {
      var i :| 0 <= i < |offsets| && offsets[i] == o;
      assert Negated(offsets)[i] == (o.0, WrapInt64(-o.1));
    }
    forall n | n in Negated(offsets) ensures exists o :: o in offsets && n == (o.0, WrapInt64(-o.1)) {
      var i :| 0 <= i < |offsets| && Negated(offsets)[i] == n;
      assert offsets[i] in offsets;
    }
  }

  /** The loop of Append over the visited (field, suffix) pairs. */
  function AppendFields(value: Fields, appends: seq<(string, string)>): (Fields, Status) {
    if appends == [] then (value, Ok) else
    var (f, suffix) := appends[0];
    if f !in value then (value, IllegalField) else
    if !value[f].Str? then (value, BadType) else
    AppendFields(value[f := Str(value[f].s + suffix)], appends[1..])
  }

  /** How many characters the loop of Append added before it ended. */
  function AppendedLength(value: Fields, appends: seq<(string, string)>): nat {
    if appends == [] then 0 else
    var (f, suffix) := appends[0];
    if f !in value || !value[f].Str? then 0
    else |suffix| + AppendedLength(value[f := Str(value[f].s + suffix)], appends[1..])
  }

  /** The pair names a string field. */
  predicate Extends(value: Fields, a: (string, string)) {
    a.0 in value && value[a.0].Str?
  }

  /** The first pair that names no string field; the number of pairs if all do. */
  function FirstBad(value: Fields, appends: seq<(string, string)>): (i: nat)
    ensures i <= |appends| && (i < |appends| ==> !Extends(value, appends[i]))
    ensures forall j :: 0 <= j < i ==> Extends(value, appends[j])
  {
    if appends == [] || !Extends(value, appends[0]) then 0 else 1 + FirstBad(value, appends[1..])
  }

  function TotalLength(appends: seq<(string, string)>): nat {
    if appends == [] then 0 else |appends[0].1| + TotalLength(appends[1..])
  }

  lemma {:induction false} ExtendingKeepsKinds(value: Fields, g: string, s: string, appends: seq<(string, string)>)
    requires g in value && value[g].Str?
    ensures FirstBad(value[g := Str(s)], appends) == FirstBad(value, appends)
  {
    if appends != [] { ExtendingKeepsKinds(value, g, s, appends[1..]); }
  }

  /** Append gets through exactly when every pair names a string field, and adds what stands before the first that does not. */
  lemma {:induction false} AppendStopsAtFirstBad(value: Fields, appends: seq<(string, string)>)
    ensures AppendFields(value, appends).1.Ok? <==> FirstBad(value, appends) == |appends|
    ensures AppendedLength(value, appends) == TotalLength(appends[..FirstBad(value, appends)]) <= TotalLength(appends)
  {
    if appends != [] && Extends(value, appends[0]) {
      var (f, suffix) := appends[0];
      var rest := appends[1..];
      ExtendingKeepsKinds(value, f, value[f].s + suffix, rest);
      AppendStopsAtFirstBad(value[f := Str(value[f].s + suffix)], rest);
      assert appends[..FirstBad(value, appends)][1..] == rest[..FirstBad(value, rest)];
    }
  }

  /** The new text begins with the old one and ends with the suffix, and there is nothing between them. */
  ghost predicate Lengthened(old': Value, suffix: string, new': Value) {
    && old'.Str? && new'.Str? && |new'.s| == |old'.s| + |suffix|
    && new'.s[..|old'.s|] == old'.s && new'.s[|old'.s|..] == suffix
  }

  /** Every named field has its suffix behind its old text, the others are as before. */
  ghost predicate IsLengthened(value: Fields, appends: seq<(string, string)>, result: Fields) {
    && result.Keys == value.Keys
    && (forall a :: a in appends ==> a.0 in value && Lengthened(value[a.0], a.1, result[a.0]))
    && (forall f :: f in value && (forall a :: a in appends ==> a.0 != f) ==> result[f] == value[f])
  }

  lemma LengthenedStep(value: Fields, first: (string, string), rest: seq<(string, string)>, result: Fields)
    requires Extends(value, first) && forall a :: a in rest ==> a.0 != first.0
    requires IsLengthened(value[first.0 := Str(value[first.0].s + first.1)], rest, result)
    ensures IsLengthened(value, [first] + rest, result)
  {
    assert first in [first] + rest && forall a :: a in rest ==> a in [first] + rest;
    assert forall a :: a in [first] + rest ==> a == first || a in rest;
  }

  lemma AppendFirst(value: Fields, first: (string, string), rest: seq<(string, string)>)
    requires Extends(value, first)
    ensures var value' := value[first.0 := Str(value[first.0].s + first.1)];
      && AppendFields(value, [first] + rest).0 == AppendFields(value', rest).0
      && FirstBad(value, [first] + rest) == 1 + FirstBad(value', rest)
  {
    assert ([first] + rest)[1..] == rest;
    ExtendingKeepsKinds(value, first.0, value[first.0].s + first.1, rest);
  }

  lemma LaterNames<V>(first: (string, V), rest: seq<(string, V)>, n: nat)
    requires NamesOnce([first] + rest) && n <= |rest|
    ensures NamesOnce(rest) && forall a :: a in rest[..n] ==> a.0 != first.0
  {
    var all := [first] + rest;
    assert forall i :: 0 <= i < |rest| ==> rest[i] == all[i+1] && rest[i].0 != all[0].0;
    forall i, j | 0 <= i < j < |rest| ensures rest[i].0 != rest[j].0 { assert all[i+1].0 != all[j+1].0; }
  }

  /** Append lengthens the fields of exactly the pairs before the first bad one. */
  lemma {:induction false} AppendLengthens(value: Fields, appends: seq<(string, string)>)
    requires NamesOnce(appends)
    ensures IsLengthened(value, appends[..FirstBad(value, appends)], AppendFields(value, appends).0)
  {
    if appends != [] && Extends(value, appends[0]) {
      var first, rest := appends[0], appends[1..];
      var value' := value[first.0 := Str(value[first.0].s + first.1)];
      assert appends == [first] + rest;
      AppendFirst(value, first, rest);
      var n := FirstBad(value', rest);
      LaterNames(first, rest, n);
      AppendLengthens(value', rest);
      LengthenedStep(value, first, rest[..n], AppendFields(value', rest).0);
      assert [first] + rest[..n] == appends[..n+1];
    }
  }

  lemma SameText(old': Value, suffix: string, x: Value, y: Value)
    requires Lengthened(old', suffix, x) && Lengthened(old', suffix, y)
    ensures x == y
  {
    var n := |old'.s|;
    assert x.s == x.s[..n] + x.s[n..] && y.s == y.s[..n] + y.s[n..];
  }

  lemma LengthenedIsUnique(value: Fields, appends: seq<(string, string)>, x: Fields, y: Fields)
    requires IsLengthened(value, appends, x) && IsLengthened(value, appends, y)
    ensures x == y
  {
    forall f | f in value ensures x[f] == y[f] {
      if a :| a in appends && a.0 == f { SameText(value[f], a.1, x[f], y[f]); }
    }
  }

  lemma AllGood(value: Fields, appends: seq<(string, string)>)
    ensures AppendFields(value, appends).1.Ok? <==> forall a :: a in appends ==> Extends(value, a)
    ensures AppendFields(value, appends).1.Ok? ==> appends[..FirstBad(value, appends)] == appends
  {
    AppendStopsAtFirstBad(value, appends);
    if FirstBad(value, appends) < |appends| { assert appends[FirstBad(value, appends)] in appends; }
  }

  lemma SamePairs(value: Fields, appends: seq<(string, string)>, again: seq<(string, string)>, result: Fields)
    requires (forall a :: a in again <==> a in appends) && IsLengthened(value, again, result)
    ensures IsLengthened(value, appends, result)
  {
  }

  /** An Append that succeeds gives the same value in every visiting order. */
  lemma AppendInAnyOrder(value: Fields, appends: seq<(string, string)>, again: seq<(string, string)>)
    requires NamesOnce(appends) && NamesOnce(again) && forall a :: a in again <==> a in appends
    requires AppendFields(value, appends).1.Ok?
    ensures AppendFields(value, again) == AppendFields(value, appends)
  {
    AllGood(value, appends);
    AllGood(value, again);
    AppendLengthens(value, appends);
    AppendLengthens(value, again);
    SamePairs(value, appends, again, AppendFields(value, again).0);
    LengthenedIsUnique(value, appends, AppendFields(value, appends).0, AppendFields(value, again).0);
  }

  lemma {:induction false} TotalLengthZero(appends: seq<(string, string)>)
    ensures TotalLength(appends) == 0 <==> forall i :: 0 <= i < |appends| ==> appends[i].1 == ""
  {
    if appends != [] {
      TotalLengthZero(appends[1..]);
      assert forall i :: 1 <= i < |appends| ==> appends[i] == appends[1..][i-1];
    }
  }

  /** Increment never changes the size of a value, even when it fails part way. */
  lemma {:induction false} IncrementKeepsSize(value: Fields, offsets: seq<(string, int)>)
    ensures DeepSize(IncrementFields(value, offsets).0) == DeepSize(value)
  {
    if offsets != [] {
      var (f, d) := offsets[0];
      if f in value && AddInt(value[f], d).Some? {
        var v := AddInt(value[f], d).value;
        assert SizeOf(v) == SizeOf(value[f]);
        DeepSizeAfterUpdate(value, f, v);
        IncrementKeepsSize(value[f := v], offsets[1..]);
      }
    }
  }

  /** Append grows a measurable value by exactly the characters it added. */
  lemma {:induction false} AppendGrowsSize(value: Fields, appends: seq<(string, string)>)
    ensures DeepSize(AppendFields(value, appends).0) ==
            DeepSize(value) + if Measurable(value) then AppendedLength(value, appends) else 0
    ensures Measurable(AppendFields(value, appends).0) <==> Measurable(value)
  {
    if appends != [] {
      var (f, suffix) := appends[0];
      if f in value && value[f].Str? {
        DeepSizeAfterUpdate(value, f, Str(value[f].s + suffix));
        AppendGrowsSize(value[f := Str(value[f].s + suffix)], appends[1..]);
      }
    }
  }

  /** The fields never change, only what they hold. */
  lemma {:induction false} UpdatesKeepFields(value: Fields, offsets: seq<(string, int)>, appends: seq<(string, string)>)
    ensures IncrementFields(value, offsets).0.Keys == value.Keys
    ensures AppendFields(value, appends).0.Keys == value.Keys
    decreases |offsets| + |appends|
  {
    if offsets != [] {
      var (f, d) := offsets[0];
      if f in value && AddInt(value[f], d).Some? {
        UpdatesKeepFields(value[f := AddInt(value[f], d).value], offsets[1..], []);
      }
    }
    if appends != [] {
      var (f, suffix) := appends[0];
      if f in value && value[f].Str? {
        UpdatesKeepFields(value[f := Str(value[f].s + suffix)], [], appends[1..]);
      }
    }
  }

  // ---------- Records ----------

  datatype Record = Record(value: Fields, size: int, expiry: Option<int>)

  predicate IsExpired(r: Record, now: int) {
    r.expiry.Some? && now > r.expiry.value
  }

  ghost predicate Truthful(key: string, r: Record) {
    r.size == ComputeSize(key, r.value)
  }

  ghost function IncrementRecord(r: Record, offsets: seq<(string, int)>): (Record, Status) {
    var (value, status) := IncrementFields(r.value, offsets);
    (r.(value := value), status)
  }

  /** Append recomputes the size only when every field was extended. */
  ghost function AppendRecord(key: string, r: Record, appends: seq<(string, string)>): (Record, Status) {
    var (value, status) := AppendFields(r.value, appends);
    if status.Ok? then (Record(value, ComputeSize(key, value), r.expiry), status)
    else (r.(value := value), status)
  }

  lemma IncrementKeepsTruth(key: string, r: Record, offsets: seq<(string, int)>)
    requires Truthful(key, r)
    ensures Truthful(key, IncrementRecord(r, offsets).0)
  {
    IncrementKeepsSize(r.value, offsets);
  }

  /** Every pair names a string field, or nothing is appended before the first that does not, or the value has no size. */
  ghost predicate CleanAppend(value: Fields, appends: seq<(string, string)>) {
    var bad := FirstBad(value, appends);
    bad == |appends| || (forall i :: 0 <= i < bad ==> appends[i].1 == "") || !Measurable(value)
  }

  lemma CleanAppendMeans(value: Fields, appends: seq<(string, string)>)
    ensures CleanAppend(value, appends) <==>
            AppendFields(value, appends).1.Ok? || AppendedLength(value, appends) == 0 || !Measurable(value)
  {
    AppendStopsAtFirstBad(value, appends);
    TotalLengthZero(appends[..FirstBad(value, appends)]);
  }

  lemma WrapsApart(x: int, n: nat)
    requires n < TWO64
    ensures WrapInt64(x + n) == WrapInt64(x) <==> n == 0
  {
  }

  lemma AppendedSize(key: string, value: Fields, appends: seq<(string, string)>)
    requires AppendedLength(value, appends) < TWO64
    ensures ComputeSize(key, AppendFields(value, appends).0) == ComputeSize(key, value) <==>
            AppendedLength(value, appends) == 0 || !Measurable(value)
  {
    AppendGrowsSize(value, appends);
    WrapsApart(|key| + 96 + DeepSize(value), AppendedLength(value, appends));
  }

  /** After an Append in the given visiting order the stored size is right exactly when the Append is clean. */
  lemma AppendKeepsTruthIff(key: string, r: Record, appends: seq<(string, string)>)
    requires Truthful(key, r) && TotalLength(appends) < TWO64
    ensures Truthful(key, AppendRecord(key, r, appends).0) <==> CleanAppend(r.value, appends)
  {
    AppendStopsAtFirstBad(r.value, appends);
    CleanAppendMeans(r.value, appends);
    AppendedSize(key, r.value, appends);
  }

  lemma CleanAppendKeepsTruth(key: string, r: Record, appends: seq<(string, string)>)
    requires Truthful(key, r) && CleanAppend(r.value, appends)
    ensures Truthful(key, AppendRecord(key, r, appends).0)
  {
    AppendGrowsSize(r.value, appends);
    CleanAppendMeans(r.value, appends);
  }

  /** What a caller, who cannot choose the visiting order, has to check. */
  ghost predicate SafeAppend(value: Fields, appends: seq<(string, string)>) {
    || (forall a :: a in appends ==> Extends(value, a))
    || (forall a :: a in appends && Extends(value, a) ==> a.1 == "")
    || !Measurable(value)
  }

  lemma {:induction false} TotalLengthSplits(a: seq<(string, string)>, b: seq<(string, string)>)
    ensures TotalLength(a + b) == TotalLength(a) + TotalLength(b)
  {
    if a == [] {
      assert a + b == b;
    } else {
      assert (a + b)[1..] == a[1..] + b;
      TotalLengthSplits(a[1..], b);
    }
  }

  /** The i-th pair visited first. */
  function Promoted(appends: seq<(string, string)>, i: nat): seq<(string, string)>
    requires i < |appends|
  {
    [appends[i]] + (appends[..i] + appends[i+1..])
  }

  lemma PromotedIsOrder(appends: seq<(string, string)>, i: nat)
    requires i < |appends|
    ensures multiset(Promoted(appends, i)) == multiset(appends)
  {
    assert appends == appends[..i] + ([appends[i]] + appends[i+1..]);
  }

  lemma PromotedLength(appends: seq<(string, string)>, i: nat)
    requires i < |appends|
    ensures TotalLength(Promoted(appends, i)) == TotalLength(appends)
  {
    var x, a, b := [appends[i]], appends[..i], appends[i+1..];
    assert appends == a + (x + b);
    TotalLengthSplits(x, a + b);
    TotalLengthSplits(a, b);
    TotalLengthSplits(a, x + b);
    TotalLengthSplits(x, b);
  }

  /** An order that appends something before it meets a bad pair, if there are both. */
  lemma WorstOrder(value: Fields, appends: seq<(string, string)>) returns (order: seq<(string, string)>)
    requires !SafeAppend(value, appends)
    ensures multiset(order) == multiset(appends) && TotalLength(order) == TotalLength(appends)
    ensures !CleanAppend(value, order)
  {
    var i :| 0 <= i < |appends| && Extends(value, appends[i]) && appends[i].1 != "";
    var b :| b in appends && !Extends(value, b);
    order := Promoted(appends, i);
    PromotedIsOrder(appends, i);
    PromotedLength(appends, i);
    assert b in multiset(appends);
    assert b in order;
    assert FirstBad(value, order) > 0 && order[0].1 != "";
  }

  lemma SafeIsClean(value: Fields, appends: seq<(string, string)>, order: seq<(string, string)>)
    requires multiset(order) == multiset(appends) && SafeAppend(value, appends)
    ensures CleanAppend(value, order)
  {
    forall i | 0 <= i < |order| ensures order[i] in appends {
      assert order[i] in multiset(order);
    }
    var bad := FirstBad(value, order);
    if bad < |order| { assert order[bad] in appends && !Extends(value, order[bad]); }
  }

  /** The stored size is right in every visiting order exactly when the Append is safe. */
  lemma AppendSafeIff(key: string, r: Record, appends: seq<(string, string)>)
    requires Truthful(key, r) && TotalLength(appends) < TWO64
    ensures (forall order :: multiset(order) == multiset(appends) ==> Truthful(key, AppendRecord(key, r, order).0)) <==>
            SafeAppend(r.value, appends)
  {
    if SafeAppend(r.value, appends) {
      forall order | multiset(order) == multiset(appends) ensures Truthful(key, AppendRecord(key, r, order).0) {
        SafeIsClean(r.value, appends, order);
        CleanAppendKeepsTruth(key, r, order);
      }
    } else {
      var order := WorstOrder(r.value, appends);
      AppendKeepsTruthIff(key, r, order);
    }
  }

  /** A two-field Append whose second field is missing: the stored size is then one byte short. */
  lemma StaleSizeExample()
    ensures var r := Record(map["a" := Str("")], ComputeSize("k", map["a" := Str("")]), None);
            Truthful("k", r) && !Truthful("k", AppendRecord("k", r, [("a", "x"), ("b", "y")]).0)
  {
    var value: Fields := map["a" := Str("")];
    var r := Record(value, ComputeSize("k", value), None);
    var appends := [("a", "x"), ("b", "y")];
    assert appends[1..] == [("b", "y")];
    assert FirstBad(value, appends) == 1 + FirstBad(value, [("b", "y")]) == 1;
    assert TotalLength(appends) == 1 + TotalLength([("b", "y")]) == 2;
    AppendKeepsTruthIff("k", r, appends);
  }

  /** What an empty value and one with an empty string field cost under a key of one character. */
  lemma SmallSizes()
    ensures ComputeSize("k", map[]) == 145 && ComputeSize("k", map["a" := Str("")]) == 178
  {
    var value: Fields := map["a" := Str("")];
    MapSumRemove(value, FieldCost, "a");
    assert value - {"a"} == map[];
    assert FieldCost("a", Str("")) == 33;
  }
}
