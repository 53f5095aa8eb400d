/**
 * Placeholder numbering in the Postgres helper: the tuples of a multi-row insert and the clauses of an update
 * (storage/postgres/pghelper.go:206-222, 330-345, 511-537, 864-882).
 */
module PgPlaceholders {
  import opened Collections
  import opened Decimal

  function Numbered(n: nat): string {
    "$" + Itoa(n)
  }

  function Join(parts: seq<string>, sep: string): string {
    if parts == [] then "" else if |parts| == 1 then parts[0] else parts[0] + sep + Join(parts[1..], sep)
  }

  // Multi-row insert

  /** A row of an insert: what reflection found for each field. */
  datatype Row<V> = Row(values: map<string, V>, isDefault: map<string, bool>)

  predicate IsDefault<V>(row: Row<V>, name: string) {
    name in row.isDefault && row.isDefault[name]
  }

  function ValueOf<V>(row: Row<V>, name: string): Option<V> {
    if name in row.values then Some(row.values[name]) else None
  }

  /** What one field sends: nothing, or its value. */
  function Sent<V>(row: Row<V>, name: string): seq<Option<V>> {
    if IsDefault(row, name) then [] else [ValueOf(row, name)]
  }

  function Cell<V>(row: Row<V>, name: string, pos: nat): string {
    if IsDefault(row, name) then "DEFAULT" else Numbered(pos)
  }

  /** The values a row sends, in field order. */
  function Args<V>(fields: seq<string>, row: Row<V>): seq<Option<V>> {
    if fields == [] then [] else Sent(row, fields[0]) + Args(fields[1..], row)
  }

  /** The placeholders of a row whose first argument is number pos. */
  function Cells<V>(fields: seq<string>, row: Row<V>, pos: nat): (r: seq<string>)
    ensures |r| == |fields|
  {
    if fields == [] then []
    else [Cell(row, fields[0], pos)] + Cells(fields[1..], row, pos + |Sent(row, fields[0])|)
  }

  lemma {:induction false} ArgsSnoc<V>(fields: seq<string>, row: Row<V>, name: string)
    ensures Args(fields + [name], row) == Args(fields, row) + Sent(row, name)
  {
    if fields == [] {
      assert fields + [name] == [name];
    } else {
      assert (fields + [name])[1..] == fields[1..] + [name];
      ArgsSnoc(fields[1..], row, name);
      Regroup(Sent(row, fields[0]), Args(fields[1..], row), Sent(row, name));
    }
  }

  lemma {:induction false} CellsSnoc<V>(fields: seq<string>, row: Row<V>, pos: nat, name: string)
    ensures Cells(fields + [name], row, pos) == Cells(fields, row, pos) + [Cell(row, name, pos + |Args(fields, row)|)]
  {
    if fields == [] {
      assert fields + [name] == [name];
    } else {
      var next := pos + |Sent(row, fields[0])|;
      assert (fields + [name])[1..] == fields[1..] + [name];
      CellsSnoc(fields[1..], row, next, name);
      Regroup([Cell(row, fields[0], pos)], Cells(fields[1..], row, next), [Cell(row, name, pos + |Args(fields, row)|)]);
    }
  }

  method MultiInsertPlaceholders<V>(fields: seq<string>, row: Row<V>, argPos: nat) returns (tuple: string, values: seq<Option<V>>, next: nat)
    ensures tuple == Tuple(fields, row, argPos)
    ensures values == Args(fields, row) && next == argPos + |values|
  {
    var placeholders: seq<string> := [];
    values, next := [], argPos;
    for i := 0 to |fields|
      invariant placeholders == Cells(fields[..i], row, argPos) && values == Args(fields[..i], row)
      invariant next == argPos + |values|
    {
      var name := fields[i];
      ArgsSnoc(fields[..i], row, name);
      CellsSnoc(fields[..i], row, argPos, name);
      assert fields[..i+1] == fields[..i] + [name];
      if IsDefault(row, name) {
        placeholders := placeholders + ["DEFAULT"];
      } else {
        placeholders := placeholders + [Numbered(next)];
        next := next + 1;
        values := values + [ValueOf(row, name)];
      }
    }
    assert fields[..|fields|] == fields;
    tuple := "(" + Join(placeholders, ", ") + ")";
  }

  function AllArgs<V>(fields: seq<string>, rows: seq<Row<V>>): seq<Option<V>> {
    if rows == [] then [] else AllArgs(fields, rows[..|rows|-1]) + Args(fields, rows[|rows|-1])
  }

  /** The number of the first argument of row r. */
  function RowStart<V>(fields: seq<string>, rows: seq<Row<V>>, r: nat): nat
    requires r <= |rows|
  {
    1 + |AllArgs(fields, rows[..r])|
  }

  function Tuple<V>(fields: seq<string>, row: Row<V>, pos: nat): string {
    "(" + Join(Cells(fields, row, pos), ", ") + ")"
  }

  function Tuples<V>(fields: seq<string>, rows: seq<Row<V>>): (r: seq<string>)
    ensures |r| == |rows|
  {
    if rows == [] then []
    else
      var init := rows[..|rows|-1];
      Tuples(fields, init) + [Tuple(fields, rows[|rows|-1], 1 + |AllArgs(fields, init)|)]
  }

  lemma {:induction false} TupleAt<V>(fields: seq<string>, rows: seq<Row<V>>, r: nat)
    requires r < |rows|
    ensures Tuples(fields, rows)[r] == Tuple(fields, rows[r], RowStart(fields, rows, r))
    decreases |rows|
  {
    var init := rows[..|rows|-1];
    assert init[..r] == rows[..r];
    if r < |init| { TupleAt(fields, init, r); } else { assert init[..r] == init; }
  }

  method MultiInsertTuples<V>(fields: seq<string>, rows: seq<Row<V>>) returns (tuples: seq<string>, values: seq<Option<V>>)
    ensures tuples == Tuples(fields, rows) && values == AllArgs(fields, rows)
  {
    tuples, values := [], [];
    var argPos := 1;
    for i := 0 to |rows|
      invariant tuples == Tuples(fields, rows[..i]) && values == AllArgs(fields, rows[..i])
      invariant argPos == 1 + |values|
    {
      var tuple, more, next := MultiInsertPlaceholders(fields, rows[i], argPos);
      assert rows[..i+1][..i] == rows[..i];
      tuples, values, argPos := tuples + [tuple], values + more, next;
    }
    assert rows[..|rows|] == rows;
  }

  lemma {:induction false} CellAt<V>(fields: seq<string>, row: Row<V>, pos: nat, c: nat)
    requires c < |fields|
    ensures Cells(fields, row, pos)[c] == Cell(row, fields[c], pos + |Args(fields[..c], row)|)
    decreases |fields|
  {
    if c > 0 {
      CellAt(fields[1..], row, pos + |Sent(row, fields[0])|, c - 1);
      assert fields[..c][1..] == fields[1..][..c-1];
    } else {
      assert fields[..0] == [];
    }
  }

  lemma {:induction false} ArgsSplit<V>(fields: seq<string>, row: Row<V>, c: nat)
    requires c < |fields|
    ensures Args(fields, row) == Args(fields[..c], row) + Sent(row, fields[c]) + Args(fields[c+1..], row)
    decreases |fields|
  {
    if c > 0 {
      ArgsSplit(fields[1..], row, c - 1);
      var a, b, z := Args(fields[1..][..c-1], row), Sent(row, fields[c]), Args(fields[c+1..], row);
      assert fields[..c][1..] == fields[1..][..c-1] && fields[1..][c..] == fields[c+1..];
      Regroup(Sent(row, fields[0]), a + b, z);
      Regroup(Sent(row, fields[0]), a, b);
    } else {
      assert fields[..0] == [];
    }
  }

  /** Within a row a cell that is not DEFAULT carries the number of the value it sends. */
  lemma CellBinds<V>(fields: seq<string>, row: Row<V>, pos: nat, c: nat)
    requires c < |fields| && !IsDefault(row, fields[c])
    ensures var before := |Args(fields[..c], row)|;
            && Cells(fields, row, pos)[c] == Numbered(pos + before)
            && before < |Args(fields, row)| && Args(fields, row)[before] == ValueOf(row, fields[c])
  {
    CellAt(fields, row, pos, c);
    ArgsSplit(fields, row, c);
    Middle(Args(fields[..c], row), Sent(row, fields[c]), Args(fields[c+1..], row), 0);
  }

  lemma {:induction false} AllArgsSplit<V>(fields: seq<string>, rows: seq<Row<V>>, r: nat) returns (after: seq<Option<V>>)
    requires r < |rows|
    ensures AllArgs(fields, rows) == AllArgs(fields, rows[..r]) + Args(fields, rows[r]) + after
    decreases |rows|
  {
    var init, last := rows[..|rows|-1], Args(fields, rows[|rows|-1]);
    if r == |init| {
      after := [];
    } else {
      var rest := AllArgsSplit(fields, init, r);
      assert init[..r] == rows[..r];
      after := rest + last;
      Regroup(AllArgs(fields, rows[..r]) + Args(fields, rows[r]), rest, last);
    }
  }

  lemma Middle<T>(a: seq<T>, b: seq<T>, c: seq<T>, i: nat)
    requires i < |b|
    ensures (a + b + c)[|a| + i] == b[i]
  {
  }

  lemma RowArgsAt<V>(fields: seq<string>, rows: seq<Row<V>>, r: nat, i: nat, k: nat)
    requires r < |rows| && i < |Args(fields, rows[r])| && k == RowStart(fields, rows, r) + i
    ensures 1 <= k <= |AllArgs(fields, rows)| && AllArgs(fields, rows)[k-1] == Args(fields, rows[r])[i]
  {
    var after := AllArgsSplit(fields, rows, r);
    Middle(AllArgs(fields, rows[..r]), Args(fields, rows[r]), after, i);
  }

  /** Over the whole statement a cell that is not DEFAULT is written $k for the k of its own value, k in 1..n. */
  lemma InsertBinds<V>(fields: seq<string>, rows: seq<Row<V>>, r: nat, c: nat, k: nat)
    requires r < |rows| && c < |fields| && !IsDefault(rows[r], fields[c])
    requires k == RowStart(fields, rows, r) + |Args(fields[..c], rows[r])|
    ensures Cells(fields, rows[r], RowStart(fields, rows, r))[c] == Numbered(k)
    ensures 1 <= k <= |AllArgs(fields, rows)| && AllArgs(fields, rows)[k-1] == ValueOf(rows[r], fields[c])
  {
    CellBinds(fields, rows[r], RowStart(fields, rows, r), c);
    RowArgsAt(fields, rows, r, |Args(fields[..c], rows[r])|, k);
  }

  // The WHERE clause

  function Count(s: string): nat {
    if s == "" then 0 else (if s[0] == '?' then 1 else 0) + Count(s[1..])
  }

  /** One pass from left to right: each question mark becomes the next number. */
  function Rewrite(s: string, pos: nat): string {
    if s == "" then ""
    else if s[0] == '?' then Numbered(pos) + Rewrite(s[1..], pos + 1)
    else s[..1] + Rewrite(s[1..], pos)
  }

  function FirstMark(s: string): (i: nat)
    ensures i <= |s| && (i < |s| ==> s[i] == '?') && '?' !in s[..i]
  {
    if s == "" || s[0] == '?' then 0 else 1 + FirstMark(s[1..])
  }

  lemma {:induction false} ReplacesFirstMark(s: string, with: string)
    requires FirstMark(s) < |s|
    ensures ReplaceFirst(s, "?", with) == s[..FirstMark(s)] + with + s[FirstMark(s)+1..]
  {
    if s[0] != '?' {
      var i := FirstMark(s[1..]);
      ReplacesFirstMark(s[1..], with);
      assert s[1..][i+1..] == s[i+2..];
      Regroup(s[..1], s[1..][..i] + with, s[i+2..]);
      Regroup(s[..1], s[1..][..i], with);
      assert s[..1] + s[1..][..i] == s[..i+1];
    } else {
      assert s[..0] == "" && "" + with == with;
    }
  }

  lemma {:induction false} RewriteAcross(a: string, b: string, pos: nat)
    ensures Rewrite(a + b, pos) == Rewrite(a, pos) + Rewrite(b, pos + Count(a))
    ensures Count(a + b) == Count(a) + Count(b)
    decreases |a|
  {
    if a == "" {
      assert a + b == b;
    } else {
      assert (a + b)[1..] == a[1..] + b;
      var next := if a[0] == '?' then pos + 1 else pos;
      RewriteAcross(a[1..], b, next);
      Regroup(if a[0] == '?' then Numbered(pos) else a[..1], Rewrite(a[1..], next), Rewrite(b, pos + Count(a)));
      assert (a + b)[..1] == a[..1];
    }
  }

  lemma {:induction false} RewritePlain(a: string, pos: nat)
    requires '?' !in a
    ensures Rewrite(a, pos) == a && Count(a) == 0
  {
    if a != "" { RewritePlain(a[1..], pos); }
  }

  lemma NumberedPlain(n: nat)
    ensures '?' !in Numbered(n)
  {
    forall i | 0 <= i < |Itoa(n)| ensures Itoa(n)[i] != '?' { assert IsDigit(Itoa(n)[i]); }
  }

  lemma MarkCounts(a: string, b: string)
    ensures Count(a + "?" + b) == Count(a) + 1 + Count(b)
  {
    RewriteAcross(a + "?", b, 0);
    RewriteAcross(a, "?", 0);
    assert "?"[1..] == "";
  }

  /** The i-th question mark becomes number pos + i, wherever it stands. */
  lemma MarkBecomes(a: string, b: string, pos: nat)
    ensures Rewrite(a + "?" + b, pos) == Rewrite(a, pos) + Numbered(pos + Count(a)) + Rewrite(b, pos + Count(a) + 1)
  {
    RewriteAcross(a + "?", b, pos);
    RewriteAcross(a, "?", pos);
    assert "?"[1..] == "";
  }

  /** Replacing the first mark and going on with the next number changes nothing about the single pass. */
  lemma ReplaceStep(s: string, pos: nat)
    requires FirstMark(s) < |s|
    ensures Rewrite(ReplaceFirst(s, "?", Numbered(pos)), pos + 1) == Rewrite(s, pos)
    ensures Count(ReplaceFirst(s, "?", Numbered(pos))) + 1 == Count(s)
  {
    var i := FirstMark(s);
    var a, b := s[..i], s[i+1..];
    var done := a + Numbered(pos);
    assert s == a + "?" + b;
    ReplacesFirstMark(s, Numbered(pos));
    MarkBecomes(a, b, pos);
    RewriteAcross(a + "?", b, pos);
    RewriteAcross(a, "?", pos);
    NumberedPlain(pos);
    RewritePlain(a, pos);
    RewritePlain(done, pos + 1);
    RewriteAcross(done, b, pos + 1);
  }

  datatype Where<V> = Clause(text: string, args: seq<V>) | Mismatch

  method ConvertWhereParamsToPg<V>(where: string, start: nat, params: seq<V>) returns (r: Where<V>)
    ensures r.Mismatch? <==> Count(where) > 0 && Count(where) != |params|
    ensures r.Clause? ==> r.text == Rewrite(where, start) && r.args == params
  {
    NoMarks(where, start);
    if FirstMark(where) == |where| {
      return Clause(where, params);
    }
    if Count(where) != |params| {
      return Mismatch;
    }
    var out, pos := where, start;
    while FirstMark(out) < |out|
      invariant Rewrite(out, pos) == Rewrite(where, start)
      decreases Count(out)
    {
      ReplaceStep(out, pos);
      out, pos := ReplaceFirst(out, "?", Numbered(pos)), pos + 1;
    }
    NoMarks(out, pos);
    return Clause(out, params);
  }

  lemma NoMarks(s: string, pos: nat)
    ensures if FirstMark(s) == |s| then Rewrite(s, pos) == s && Count(s) == 0 else Count(s) > 0
  {
    var i := FirstMark(s);
    if i == |s| {
      assert s[..i] == s;
      RewritePlain(s, pos);
    } else {
      assert s == s[..i] + s[i..];
      RewriteAcross(s[..i], s[i..], pos);
    }
  }

  // Update

  datatype Update<V> = Update(set': seq<string>, where: string, args: seq<V>) | BadIdentifier | BadWhere

  /** After k columns, the text and the arguments that a WHERE clause and its parameters come to. */
  ghost predicate WhereBound<V>(k: nat, where: string, params: seq<V>, text: string, args: seq<V>) {
    && (Count(where) == 0 || Count(where) == |params|)
    && text == Rewrite(where, k + 1)
    && |args| == k + |params| && args[k..] == params
  }

  /**
   * SET takes the numbers 1..k in the order of the columns, and the WHERE clause goes on from there. `quote` stands
   * for the quoting of identifiers, which refuses malformed ones.
   */
  method UpdateClauses<V>(columns: seq<string>, quote: string -> Option<string>, data: map<string, V>, where: string, params: seq<V>)
    returns (r: Update<V>)
    requires forall c :: c in columns ==> c in data
    ensures r.BadIdentifier? <==> exists i :: 0 <= i < |columns| && quote(columns[i]).None?
    ensures r.BadWhere? ==> Count(where) > 0 && Count(where) != |params|
    ensures r.Update? ==> WhereBound(|columns|, where, params, r.where, r.args)
    ensures r.Update? ==> |r.set'| == |columns| && forall i :: 0 <= i < |columns| ==>
                            quote(columns[i]).Some? && r.set'[i] == quote(columns[i]).value + " = " + Numbered(i + 1)
    ensures r.Update? ==> forall i :: 0 <= i < |columns| ==> r.args[i] == data[columns[i]]
  {
    var set', values := [], [];
    var argPos := 1;
    for i := 0 to |columns|
      invariant |set'| == i && |values| == i && argPos == i + 1
      invariant forall j :: 0 <= j < i ==>
                  quote(columns[j]).Some? && set'[j] == quote(columns[j]).value + " = " + Numbered(j + 1)
      invariant forall j :: 0 <= j < i ==> values[j] == data[columns[j]]
    {
      var quoted := quote(columns[i]);
      if quoted.None? {
        return BadIdentifier;
      }
      set' := set' + [quoted.value + " = " + Numbered(argPos)];
      values := values + [data[columns[i]]];
      argPos := argPos + 1;
    }
    var clause := ConvertWhereParamsToPg(where, argPos, params);
    if clause.Mismatch? {
      return BadWhere;
    }
    return Update(set', clause.text, values + clause.args);
  }

  /** In an update of k columns the question mark after i others becomes $n, n = k + 1 + i, and argument n is parameter i. */
  lemma UpdateBinds<V>(k: nat, a: string, b: string, params: seq<V>, text: string, args: seq<V>)
    requires WhereBound(k, a + "?" + b, params, text, args)
    ensures var n := k + 1 + Count(a);
      && text == Rewrite(a, k + 1) + Numbered(n) + Rewrite(b, n + 1)
      && n <= |args| && args[n-1] == params[Count(a)]
  {
    MarkCounts(a, b);
    MarkBecomes(a, b, k + 1);
    assert args[k..][Count(a)] == args[k + Count(a)];
  }
}
