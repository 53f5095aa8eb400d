/** The text of a multi-row insert, read back without knowing how it was written. */
module PgInsertText {
  import opened Collections
  import opened Decimal
  import opened PgPlaceholders

  // Cutting a list at its separators

  function Cut(s: string): (r: seq<string>)
    ensures r != []
  {
    if s == "" then [""]
    else if HasPrefix(s, ", ") then [""] + Cut(s[2..])
    else
      var rest := Cut(s[1..]);
      [s[..1] + rest[0]] + rest[1..]
  }

  lemma {:induction false} CutWhole(p: string)
    requires ',' !in p
    ensures Cut(p) == [p]
  {
    if p != "" {
      CutWhole(p[1..]);
      assert p[..1] + p[1..] == p && p[0] != ',';
    }
  }

  lemma CutSeparator(rest: string)
    ensures Cut(", " + rest) == [""] + Cut(rest)
  {
    assert (", " + rest)[..2] == ", " && (", " + rest)[2..] == rest;
  }

  lemma CutGrows(c: char, s: string)
    requires c != ','
    ensures Cut([c] + s) == [[c] + Cut(s)[0]] + Cut(s)[1..]
  {
    assert ([c] + s)[1..] == s && ([c] + s)[..1] == [c] && ([c] + s)[0] == c;
  }

  lemma CutLater(c: char, s: string, p: string, more: seq<string>)
    requires c != ',' && Cut(s) == [p] + more
    ensures Cut([c] + s) == [[c] + p] + more
  {
    CutGrows(c, s);
    assert ([p] + more)[1..] == more;
  }

  /** t is a separator and what follows it. */
  lemma {:induction false} CutFirst(p: string, t: string, more: seq<string>)
    requires ',' !in p && Cut(t) == [""] + more
    ensures Cut(p + t) == [p] + more
  {
    if p == "" {
      assert p + t == t;
    } else {
      CutFirst(p[1..], t, more);
      CutLater(p[0], p[1..] + t, p[1..], more);
      assert p + t == [p[0]] + (p[1..] + t) && [p[0]] + p[1..] == p;
    }
  }

  ghost predicate Plain(parts: seq<string>) {
    forall i :: 0 <= i < |parts| ==> ',' !in parts[i]
  }

  /** A joined list is cut into its parts, in order. */
  lemma {:induction false} CutJoined(parts: seq<string>)
    requires parts != [] && Plain(parts)
    ensures Cut(Join(parts, ", ")) == parts
  {
    if |parts| == 1 {
      CutWhole(parts[0]);
    } else {
      CutJoined(parts[1..]);
      CutSeparator(Join(parts[1..], ", "));
      CutFirst(parts[0], ", " + Join(parts[1..], ", "), parts[1..]);
      Regroup(parts[0], ", ", Join(parts[1..], ", "));
    }
  }

  lemma PlainFirst(first: string, rest: seq<string>)
    requires ',' !in first && Plain(rest)
    ensures Plain([first] + rest)
  {
  }

  lemma CellPlain<V>(row: Row<V>, name: string, pos: nat)
    ensures ',' !in Cell(row, name, pos)
  {
    forall i | 0 <= i < |Itoa(pos)| ensures Itoa(pos)[i] != ',' { assert IsDigit(Itoa(pos)[i]); }
  }

  lemma {:induction false} CellsPlain<V>(fields: seq<string>, row: Row<V>, pos: nat)
    ensures Plain(Cells(fields, row, pos))
  {
    if fields != [] {
      CellPlain(row, fields[0], pos);
      CellsPlain(fields[1..], row, pos + |Sent(row, fields[0])|);
      PlainFirst(Cell(row, fields[0], pos), Cells(fields[1..], row, pos + |Sent(row, fields[0])|));
    }
  }

  /** What stands between the parentheses of a tuple. */
  function Inside(t: string): string
    requires |t| >= 2
  {
    t[1..|t|-1]
  }

  /** A tuple is parenthesised, and its cells are those of the columns, in column order. */
  lemma TupleReads<V>(fields: seq<string>, row: Row<V>, pos: nat)
    requires fields != []
    ensures var t := Tuple(fields, row, pos);
      |t| >= 2 && t[0] == '(' && Last(t) == ')' && Cut(Inside(t)) == Cells(fields, row, pos)
  {
    var cells := Cells(fields, row, pos);
    CellsPlain(fields, row, pos);
    CutJoined(cells);
    assert Inside(Tuple(fields, row, pos)) == Join(cells, ", ");
  }

  /** The text of a tuple, read back, has `cell` in column c of n. */
  ghost predicate HasCell(t: string, n: nat, c: nat, cell: string) {
    |t| >= 2 && |Cut(Inside(t))| == n && c < n && Cut(Inside(t))[c] == cell
  }

  lemma TupleHasCell<V>(fields: seq<string>, rows: seq<Row<V>>, r: nat, c: nat)
    requires r < |rows| && c < |fields|
    ensures HasCell(Tuples(fields, rows)[r], |fields|, c, Cells(fields, rows[r], RowStart(fields, rows, r))[c])
  {
    TupleAt(fields, rows, r);
    TupleReads(fields, rows[r], RowStart(fields, rows, r));
  }

  lemma DefaultCell<V>(fields: seq<string>, row: Row<V>, pos: nat, c: nat, cell: string)
    requires c < |fields| && IsDefault(row, fields[c]) && cell == "DEFAULT"
    ensures Cells(fields, row, pos)[c] == cell
  {
    CellAt(fields, row, pos, c);
  }

  /** Read back, a column that takes its default is DEFAULT. */
  lemma DefaultReads<V>(fields: seq<string>, rows: seq<Row<V>>, r: nat, c: nat, cell: string)
    requires r < |rows| && c < |fields| && IsDefault(rows[r], fields[c]) && cell == "DEFAULT"
    ensures HasCell(Tuples(fields, rows)[r], |fields|, c, cell)
  {
    TupleHasCell(fields, rows, r, c);
    DefaultCell(fields, rows[r], RowStart(fields, rows, r), c, cell);
  }

  /** Read back, every other column is $k with its own value as argument k. */
  lemma InsertReads<V>(fields: seq<string>, rows: seq<Row<V>>, r: nat, c: nat) returns (k: nat)
    requires r < |rows| && c < |fields| && !IsDefault(rows[r], fields[c])
    ensures HasCell(Tuples(fields, rows)[r], |fields|, c, "$" + Itoa(k))
    ensures 1 <= k <= |AllArgs(fields, rows)| && AllArgs(fields, rows)[k-1] == ValueOf(rows[r], fields[c])
  {
    k := RowStart(fields, rows, r) + |Args(fields[..c], rows[r])|;
    TupleHasCell(fields, rows, r, c);
    InsertBinds(fields, rows, r, c, k);
  }

  // The numbers behind the dollar signs

  function DigitCount(s: string): (n: nat)
    ensures n <= |s| && (forall i :: 0 <= i < n ==> IsDigit(s[i])) && (n < |s| ==> !IsDigit(s[n]))
  {
    if s == "" || !IsDigit(s[0]) then 0 else 1 + DigitCount(s[1..])
  }

  /** The numbers written behind dollar signs, in reading order. */
  function Numerals(s: string): seq<nat>
    decreases |s|
  {
    if s == "" then []
    else if s[0] == '$' then var n := DigitCount(s[1..]); [Atoi(s[1..][..n])] + Numerals(s[1..][n..])
    else Numerals(s[1..])
  }

  predicate Breaks(s: string) {
    s == "" || !IsDigit(s[0])
  }

  lemma {:induction false} DigitsAcross(a: string, b: string)
    requires Breaks(b)
    ensures DigitCount(a + b) == DigitCount(a)
  {
    if a == "" {
      assert a + b == b;
    } else {
      assert (a + b)[0] == a[0] && (a + b)[1..] == a[1..] + b;
      if IsDigit(a[0]) { DigitsAcross(a[1..], b); }
    }
  }

  lemma NumeralStep(a: string, b: string)
    requires a != "" && a[0] == '$' && Breaks(b)
    ensures var n := DigitCount(a[1..]);
      Numerals(a + b) == [Atoi(a[1..][..n])] + Numerals(a[1..][n..] + b)
  {
    var n := DigitCount(a[1..]);
    assert (a + b)[0] == '$' && (a + b)[1..] == a[1..] + b;
    DigitsAcross(a[1..], b);
    CutWithin(a[1..], b, n);
  }

  lemma CutWithin(a: string, b: string, n: nat)
    requires n <= |a|
    ensures (a + b)[..n] == a[..n] && (a + b)[n..] == a[n..] + b
  {
  }

  lemma {:induction false} NumeralsAcross(a: string, b: string)
    requires Breaks(b)
    ensures Numerals(a + b) == Numerals(a) + Numerals(b)
    decreases |a|
  {
    if a == "" {
      assert a + b == b;
    } else if a[0] == '$' {
      var n := DigitCount(a[1..]);
      NumeralStep(a, b);
      NumeralsAcross(a[1..][n..], b);
      Regroup([Atoi(a[1..][..n])], Numerals(a[1..][n..]), Numerals(b));
    } else {
      assert (a + b)[1..] == a[1..] + b;
      NumeralsAcross(a[1..], b);
    }
  }

  lemma {:induction false} NoNumerals(s: string)
    requires '$' !in s
    ensures Numerals(s) == []
  {
    if s != "" { NoNumerals(s[1..]); }
  }

  lemma {:induction false} AllDigits(s: string)
    requires forall i :: 0 <= i < |s| ==> IsDigit(s[i])
    ensures DigitCount(s) == |s|
  {
    if s != "" { AllDigits(s[1..]); }
  }

  lemma NumeralsOfNumbered(n: nat)
    ensures Numerals(Numbered(n)) == [n]
  {
    var s, d := Numbered(n), Itoa(n);
    assert s[1..] == d;
    AllDigits(d);
    ItoaRoundTrip(n);
    assert d[..|d|] == d && d[|d|..] == "";
  }

  /** n numbers from pos on. */
  function CountUp(pos: nat, n: nat): (r: seq<nat>)
    ensures |r| == n
  {
    seq(n, i => pos + i)
  }

  lemma CountOn(pos: nat, m: nat, n: nat)
    ensures CountUp(pos, m) + CountUp(pos + m, n) == CountUp(pos, m + n)
  {
  }

  lemma NumeralsOfCell<V>(row: Row<V>, name: string, pos: nat)
    ensures Numerals(Cell(row, name, pos)) == CountUp(pos, |Sent(row, name)|)
    ensures Cell(row, name, pos) != ""
  {
    if IsDefault(row, name) {
      NoNumerals("DEFAULT");
    } else {
      NumeralsOfNumbered(pos);
      assert CountUp(pos, 1) == [pos];
    }
  }

  /** What a reader finds in every part, one part after the other. */
  function Each(parts: seq<string>, read: string -> seq<nat>): seq<nat> {
    if parts == [] then [] else read(parts[0]) + Each(parts[1..], read)
  }

  function Reader(): string -> seq<nat> {
    s => Numerals(s)
  }

  lemma NumeralsOfTwo(first: string, more: string)
    ensures Numerals(first + ", " + more) == Numerals(first) + Numerals(more)
  {
    assert (", " + more)[1..] == " " + more && (" " + more)[1..] == more;
    NumeralsAcross(first, ", " + more);
    Regroup(first, ", ", more);
  }

  /** Parts that are joined keep their numerals, in order. */
  lemma {:induction false} NumeralsOfJoin(parts: seq<string>)
    ensures Numerals(Join(parts, ", ")) == Each(parts, Reader())
  {
    if |parts| == 1 {
      assert Each(parts[1..], Reader()) == [];
    } else if parts != [] {
      NumeralsOfTwo(parts[0], Join(parts[1..], ", "));
      NumeralsOfJoin(parts[1..]);
    }
  }

  lemma {:induction false} EachSnoc(parts: seq<string>, last: string, read: string -> seq<nat>)
    ensures Each(parts + [last], read) == Each(parts, read) + read(last)
  {
    if parts == [] {
      assert parts + [last] == [last] && Each([last][1..], read) == [];
    } else {
      assert (parts + [last])[1..] == parts[1..] + [last];
      EachSnoc(parts[1..], last, read);
      Regroup(read(parts[0]), Each(parts[1..], read), read(last));
    }
  }

  lemma EachFirst(first: string, rest: seq<string>, read: string -> seq<nat>)
    ensures Each([first] + rest, read) == read(first) + Each(rest, read)
  {
    assert ([first] + rest)[1..] == rest;
  }

  /** Cells with one number for each value they send are numbered consecutively. */
  lemma {:induction false} CellsCount<V>(fields: seq<string>, row: Row<V>, pos: nat, read: string -> seq<nat>)
    requires forall name: string, at: nat :: read(Cell(row, name, at)) == CountUp(at, |Sent(row, name)|)
    ensures Each(Cells(fields, row, pos), read) == CountUp(pos, |Args(fields, row)|)
  {
    if fields != [] {
      var sent := |Sent(row, fields[0])|;
      CellsCount(fields[1..], row, pos + sent, read);
      EachFirst(Cell(row, fields[0], pos), Cells(fields[1..], row, pos + sent), read);
      CountOn(pos, sent, |Args(fields[1..], row)|);
    }
  }

  /** So are tuples. */
  lemma {:induction false} TuplesCount<V>(fields: seq<string>, rows: seq<Row<V>>, read: string -> seq<nat>)
    requires forall r, at: nat :: 0 <= r < |rows| ==>
               read(Tuple(fields, rows[r], at)) == CountUp(at, |Args(fields, rows[r])|)
    ensures Each(Tuples(fields, rows), read) == CountUp(1, |AllArgs(fields, rows)|)
  {
    if rows != [] {
      var init, row := rows[..|rows|-1], rows[|rows|-1];
      var n := |AllArgs(fields, init)|;
      TuplesCount(fields, init, read);
      EachSnoc(Tuples(fields, init), Tuple(fields, row, 1 + n), read);
      CountOn(1, n, |Args(fields, row)|);
    }
  }

  lemma NumeralsInside(cells: string)
    ensures Numerals("(" + cells + ")") == Numerals(cells)
  {
    assert ("(" + cells)[1..] == cells && ")"[1..] == "";
    NumeralsAcross("(" + cells, ")");
  }

  lemma NumeralsOfCells<V>(fields: seq<string>, row: Row<V>, pos: nat)
    ensures Numerals(Join(Cells(fields, row, pos), ", ")) == CountUp(pos, |Args(fields, row)|)
  {
    forall name: string, at: nat ensures Reader()(Cell(row, name, at)) == CountUp(at, |Sent(row, name)|) {
      NumeralsOfCell(row, name, at);
    }
    CellsCount(fields, row, pos, Reader());
    NumeralsOfJoin(Cells(fields, row, pos));
  }

  lemma NumeralsOfTuple<V>(fields: seq<string>, row: Row<V>, pos: nat)
    ensures Reader()(Tuple(fields, row, pos)) == CountUp(pos, |Args(fields, row)|)
  {
    NumeralsInside(Join(Cells(fields, row, pos), ", "));
    NumeralsOfCells(fields, row, pos);
  }

  /** In the whole VALUES list the numerals count up from 1 to the number of values, in reading order. */
  lemma NumeralsCountUp<V>(fields: seq<string>, rows: seq<Row<V>>)
    ensures Numerals(Join(Tuples(fields, rows), ", ")) == CountUp(1, |AllArgs(fields, rows)|)
  {
    forall r, at: nat | 0 <= r < |rows|
      ensures Reader()(Tuple(fields, rows[r], at)) == CountUp(at, |Args(fields, rows[r])|)
    {
      NumeralsOfTuple(fields, rows[r], at);
    }
    TuplesCount(fields, rows, Reader());
    NumeralsOfJoin(Tuples(fields, rows));
  }
}
