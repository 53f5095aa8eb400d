/** What the Postgres named-parameter conversion means (storage/postgres/pghelper.go:643-799, 887-909). */
module PgLexer {
  /*
   * A query is cut into tokens, literal and dollar-quoted text and casts are kept, and each distinct name gets a number.
   * Strings are sequences of bytes, written as characters.
   */

  import opened Collections
  import opened Decimal
  import opened SqlNames

  datatype Token = Text(text: string) | Param(name: string)

  /** A dollar tag: `$`, name characters, `$`. */
  ghost predicate IsTag(t: string) {
    |t| >= 2 && t[0] == '$' && t[|t|-1] == '$' && forall i :: 1 <= i < |t| - 1 ==> IsNamedParamChar(t[i])
  }

  /** The dollar tag s begins with. */
  function DollarTag(s: string): (t: Option<string>)
    ensures t.Some? ==> IsTag(t.value) && HasPrefix(s, t.value)
  {
    if |s| < 2 || s[0] != '$' then None
    else
      var n := NameLength(s[1..]);
      if 1 + n < |s| && s[1+n] == '$' then
        assert forall i :: 1 <= i < n + 1 ==> s[i] == s[1..][i-1];
        Some(s[..n+2])
      else None
  }

  /** How much of s belongs to a literal that is already open: up to a quote that is not doubled. */
  function LiteralLength(s: string): (n: nat)
    ensures n <= |s| && (s != "" ==> n > 0)
  {
    if s == "" then 0
    else if s[0] != '\'' then 1 + LiteralLength(s[1..])
    else if |s| > 1 && s[1] == '\'' then 2 + LiteralLength(s[2..])
    else 1
  }

  /** How much of s belongs to a dollar quote that is already open: up to and including its closing tag. */
  function DollarLength(s: string, tag: string): (n: nat)
    requires tag != ""
    ensures n <= |s| && (s != "" ==> n > 0)
  {
    if s == "" then 0 else if HasPrefix(s, tag) then |tag| else 1 + DollarLength(s[1..], tag)
  }

  function Lex(s: string): seq<Token>
    decreases |s|
  {
    if s == "" then []
    else if s[0] == '\'' then Quoted(s, 1 + LiteralLength(s[1..]))
    else if s[0] == '$' && DollarTag(s).Some? then
      var tag := DollarTag(s).value;
      Quoted(s, |tag| + DollarLength(s[|tag|..], tag))
    else if s[0] == ':' then
      if |s| > 1 && s[1] == ':' then [Text("::")] + Lex(s[2..])
      else
        var n := NameLength(s[1..]);
        [if n == 0 then Text(":") else Param(s[..n+1])] + Lex(s[n+1..])
    else [Text(s[..1])] + Lex(s[1..])
  }

  /** The first n characters of s are one piece of quoted text. */
  function Quoted(s: string, n: nat): seq<Token>
    requires 0 < n <= |s|
    decreases |s|, 0
  {
    [Text(s[..n])] + Lex(s[n..])
  }

  // Nothing is lost: the tokens put together are the query

  function Spelling(t: Token): string {
    if t.Text? then t.text else t.name
  }

  function Spell(ts: seq<Token>): string {
    if ts == [] then "" else Spelling(ts[0]) + Spell(ts[1..])
  }

  lemma SpellStep(s: string, n: nat, t: Token)
    requires n <= |s| && Spelling(t) == s[..n] && Spell(Lex(s[n..])) == s[n..]
    ensures Spell([t] + Lex(s[n..])) == s
  {
    assert ([t] + Lex(s[n..]))[1..] == Lex(s[n..]);
  }

  /** Putting every name back where its placeholder stands restores the query. */
  lemma {:induction false} LexSpells(s: string)
    ensures Spell(Lex(s)) == s
    decreases |s|
  {
    if s != "" {
      var n := FirstLength(s);
      FirstToken(s);
      LexSpells(s[n..]);
      SpellStep(s, n, Lex(s)[0]);
    }
  }

  /** The length of the first token of s. */
  function FirstLength(s: string): (n: nat)
    requires s != ""
    ensures 0 < n <= |s|
  {
    if s[0] == '\'' then 1 + LiteralLength(s[1..])
    else if s[0] == '$' && DollarTag(s).Some? then
      |DollarTag(s).value| + DollarLength(s[|DollarTag(s).value|..], DollarTag(s).value)
    else if s[0] == ':' then
      if |s| > 1 && s[1] == ':' then 2 else NameLength(s[1..]) + 1
    else 1
  }

  lemma FirstToken(s: string)
    requires s != ""
    ensures Lex(s) != [] && Spelling(Lex(s)[0]) == s[..FirstLength(s)]
    ensures Lex(s) == [Lex(s)[0]] + Lex(s[FirstLength(s)..])
  {
    if s[0] == ':' && |s| > 1 && s[1] == ':' {
      assert s[..2] == "::";
    }
  }

  // What the quoted regions are

  ghost predicate TagAt(s: string, tag: string, j: nat) {
    j <= |s| && HasPrefix(s[j..], tag)
  }

  lemma TagAtTail(s: string, tag: string, j: nat)
    requires s != ""
    ensures TagAt(s, tag, j + 1) <==> TagAt(s[1..], tag, j)
  {
    if j < |s| { assert s[j+1..] == s[1..][j..]; }
  }

  /** A dollar quote ends right after the first place its tag occurs again, or at the end of the query. */
  lemma {:induction false} DollarEndsAtFirstTag(s: string, tag: string, j: nat)
    requires tag != ""
    ensures var n := DollarLength(s, tag); n == |s| || (n >= |tag| && TagAt(s, tag, n - |tag|))
    ensures TagAt(s, tag, j) ==> DollarLength(s, tag) <= j + |tag|
    decreases |s|
  {
    assert s[0..] == s;
    if s != "" && !HasPrefix(s, tag) {
      DollarEndsAtFirstTag(s[1..], tag, if j == 0 then 0 else j - 1);
      if j > 0 { TagAtTail(s, tag, j - 1); }
      var n := DollarLength(s, tag);
      if n > |tag| { TagAtTail(s, tag, n - |tag| - 1); }
    }
  }

  /** The text of a string constant, its quotes doubled. */
  function Escape(v: string): string {
    if v == "" then "" else (if v[0] == '\'' then "''" else v[..1]) + Escape(v[1..])
  }

  lemma {:induction false} LiteralEndsItself(v: string, rest: string)
    requires rest == "" || rest[0] != '\''
    ensures LiteralLength(Escape(v) + "'" + rest) == |Escape(v)| + 1
    decreases |v|
  {
    var s := Escape(v) + "'" + rest;
    if v == "" {
      assert s == "'" + rest;
    } else {
      LiteralEndsItself(v[1..], rest);
      var k := if v[0] == '\'' then 2 else 1;
      assert s[k..] == Escape(v[1..]) + "'" + rest;
    }
  }

  lemma LexQuoted(s: string, n: nat)
    requires s != "" && n == FirstLength(s) && (s[0] == '\'' || (s[0] == '$' && DollarTag(s).Some?))
    ensures Lex(s) == [Text(s[..n])] + Lex(s[n..])
  {
  }

  lemma CutAt(a: string, b: string)
    ensures (a + b)[..|a|] == a && (a + b)[|a|..] == b
  {
  }

  function Constant(v: string): string {
    "'" + Escape(v) + "'"
  }

  lemma ConstantLength(v: string, rest: string)
    requires rest == "" || rest[0] != '\''
    ensures FirstLength(Constant(v) + rest) == |Constant(v)|
  {
    assert (Constant(v) + rest)[1..] == Escape(v) + "'" + rest;
    LiteralEndsItself(v, rest);
  }

  /** A string constant with any contents is kept as it stands, whatever follows it. */
  lemma LiteralVerbatim(v: string, rest: string)
    requires rest == "" || rest[0] != '\''
    ensures Lex(Constant(v) + rest) == [Text(Constant(v))] + Lex(rest)
  {
    ConstantLength(v, rest);
    LexQuoted(Constant(v) + rest, |Constant(v)|);
    CutAt(Constant(v), rest);
  }

  lemma {:induction false} DollarEndsItself(body: string, tag: string, rest: string)
    requires tag != "" && forall j :: 0 <= j < |body| ==> !HasPrefix((body + tag)[j..], tag)
    ensures DollarLength(body + tag + rest, tag) == |body| + |tag|
    decreases |body|
  {
    var s := body + tag + rest;
    if body == "" {
      assert s == tag + rest;
      CutAt(tag, rest);
    } else {
      assert (body + tag)[0..] == body + tag && s[..|tag|] == (body + tag)[..|tag|];
      forall j | 0 <= j < |body| - 1 ensures !HasPrefix((body[1..] + tag)[j..], tag) {
        assert (body[1..] + tag)[j..] == (body + tag)[j+1..];
      }
      DollarEndsItself(body[1..], tag, rest);
      assert s[1..] == body[1..] + tag + rest;
    }
  }

  lemma DollarTagIs(tag: string, rest: string)
    requires IsTag(tag)
    ensures DollarTag(tag + rest) == Some(tag)
  {
    var s := tag + rest;
    var n := |tag| - 2;
    assert s[1..][n] == '$';
    assert forall i :: 0 <= i < n ==> s[1..][i] == tag[i+1];
    NameLengthIs(s[1..], n);
    CutAt(tag, rest);
  }

  /** So is a dollar quote in whose body the tag does not begin early. */
  lemma DollarVerbatim(tag: string, body: string, rest: string)
    requires IsTag(tag) && forall j :: 0 <= j < |body| ==> !HasPrefix((body + tag)[j..], tag)
    ensures Lex(tag + body + tag + rest) == [Text(tag + body + tag)] + Lex(rest)
  {
    var quote := tag + body + tag;
    var s := quote + rest;
    assert s == tag + (body + tag + rest);
    DollarTagIs(tag, body + tag + rest);
    CutAt(tag, body + tag + rest);
    DollarEndsItself(body, tag, rest);
    LexQuoted(s, |quote|);
    CutAt(quote, rest);
  }

  // Numbering the names

  function ParamNames(ts: seq<Token>): seq<string> {
    if ts == [] then [] else (if ts[0].Param? then [ts[0].name] else []) + ParamNames(ts[1..])
  }

  /** The distinct elements of s after those of seen, each where it first occurs. */
  function AddNew(seen: seq<string>, s: seq<string>): seq<string>
    decreases |s|
  {
    if s == [] then seen else AddNew(if s[0] in seen then seen else seen + [s[0]], s[1..])
  }

  function Names(ts: seq<Token>): seq<string> {
    AddNew([], ParamNames(ts))
  }

  function Placeholder(names: seq<string>, name: string): string {
    "$" + Itoa(IndexOf(names, name) + 1)
  }

  function Render(names: seq<string>, ts: seq<Token>): string {
    if ts == [] then ""
    else (if ts[0].Text? then ts[0].text else Placeholder(names, ts[0].name)) + Render(names, ts[1..])
  }

  /** The converter's way: one token at a time, numbering a name when it is met. */
  function Note(names: seq<string>, t: Token): seq<string> {
    if t.Param? && t.name !in names then names + [t.name] else names
  }

  function Written(names: seq<string>, t: Token): string {
    if t.Text? then t.text else Placeholder(Note(names, t), t.name)
  }

  function Emit(out: string, names: seq<string>, ts: seq<Token>): (string, seq<string>)
    decreases |ts|
  {
    if ts == [] then (out, names) else Emit(out + Written(names, ts[0]), Note(names, ts[0]), ts[1..])
  }

  lemma {:induction false} IndexOfPrefix(a: seq<string>, b: seq<string>, x: string)
    requires x in a
    ensures IndexOf(a + b, x) == IndexOf(a, x) < |a|
  {
    if a[0] != x {
      assert (a + b)[1..] == a[1..] + b;
      IndexOfPrefix(a[1..], b, x);
    }
  }

  lemma {:induction false} AddNewExtends(seen: seq<string>, s: seq<string>) returns (more: seq<string>)
    ensures AddNew(seen, s) == seen + more
    decreases |s|
  {
    if s == [] {
      more := [];
    } else if s[0] in seen {
      more := AddNewExtends(seen, s[1..]);
    } else {
      var rest := AddNewExtends(seen + [s[0]], s[1..]);
      more := [s[0]] + rest;
      Regroup(seen, [s[0]], rest);
    }
  }

  lemma ParamNamesStep(names: seq<string>, ts: seq<Token>)
    requires ts != []
    ensures AddNew(names, ParamNames(ts)) == AddNew(Note(names, ts[0]), ParamNames(ts[1..]))
  {
    if ts[0].Param? {
      assert ParamNames(ts)[0] == ts[0].name && ParamNames(ts)[1..] == ParamNames(ts[1..]);
    } else {
      assert ParamNames(ts) == ParamNames(ts[1..]);
    }
  }

  /** A name keeps the number it got when it was first met. */
  lemma WrittenIsFinal(names: seq<string>, t: Token, later: seq<string>)
    requires t.Param?
    ensures Written(names, t) == Placeholder(AddNew(Note(names, t), later), t.name)
  {
    var more := AddNewExtends(Note(names, t), later);
    IndexOfPrefix(Note(names, t), more, t.name);
  }

  /** Numbering on the way gives the same text as numbering beforehand. */
  lemma {:induction false} EmitIsRender(out: string, names: seq<string>, ts: seq<Token>)
    ensures var all := AddNew(names, ParamNames(ts)); Emit(out, names, ts) == (out + Render(all, ts), all)
    decreases |ts|
  {
    if ts == [] {
      assert out + Render(names, ts) == out;
    } else {
      var all := AddNew(names, ParamNames(ts));
      ParamNamesStep(names, ts);
      EmitIsRender(out + Written(names, ts[0]), Note(names, ts[0]), ts[1..]);
      if ts[0].Param? { WrittenIsFinal(names, ts[0], ParamNames(ts[1..])); }
      Regroup(out, Written(names, ts[0]), Render(all, ts[1..]));
    }
  }

  // The numbers are 1..n in order of first occurrence

  lemma {:induction false} AddNewSnoc(seen: seq<string>, s: seq<string>, x: string)
    ensures var a := AddNew(seen, s); AddNew(seen, s + [x]) == if x in a then a else a + [x]
    decreases |s|
  {
    if s == [] {
      assert s + [x] == [x];
    } else {
      assert (s + [x])[1..] == s[1..] + [x];
      AddNewSnoc(if s[0] in seen then seen else seen + [s[0]], s[1..], x);
    }
  }

  lemma DistinctSnoc(s: seq<string>, x: string)
    requires Distinct(s) && x !in s
    ensures Distinct(s + [x])
  {
    assert (s + [x])[..|s|] == s;
  }

  lemma {:induction false} AddNewHolds(seen: seq<string>, s: seq<string>, x: string)
    ensures x in AddNew(seen, s) <==> x in seen || x in s
    decreases |s|
  {
    if s != [] {
      AddNewHolds(if s[0] in seen then seen else seen + [s[0]], s[1..], x);
      assert x in s <==> x == s[0] || x in s[1..];
    }
  }

  lemma {:induction false} AddNewDistinct(seen: seq<string>, s: seq<string>)
    requires Distinct(seen)
    ensures Distinct(AddNew(seen, s))
    decreases |s|
  {
    if s != [] {
      if s[0] !in seen { DistinctSnoc(seen, s[0]); }
      AddNewDistinct(if s[0] in seen then seen else seen + [s[0]], s[1..]);
    }
  }

  /** The name met first gets the smaller number. */
  lemma {:induction false} NumberedInOrder(s: seq<string>, x: string, y: string)
    requires y in s && IndexOf(s, x) < IndexOf(s, y)
    ensures IndexOf(AddNew([], s), x) < IndexOf(AddNew([], s), y) < |AddNew([], s)|
    decreases |s|
  {
    var init, z := s[..|s|-1], s[|s|-1];
    assert s == init + [z];
    var a := AddNew([], init);
    AddNewSnoc([], init, z);
    AddNewHolds([], init, x);
    AddNewHolds([], init, y);
    assert x in init by {
      if x !in init { IndexOfBound(init, z, x); }
    }
    IndexOfPrefix(init, [z], x);
    IndexOfPrefix(a, [z], x);
    if y in init {
      IndexOfPrefix(init, [z], y);
      NumberedInOrder(init, x, y);
      IndexOfPrefix(a, [z], y);
    } else {
      IndexOfBound(a, z, y);
    }
  }

  lemma {:induction false} IndexOfBound(s: seq<string>, z: string, x: string)
    requires x !in s
    ensures IndexOf(s + [z], x) == if x == z then |s| else |s| + 1
  {
    if s != [] {
      assert (s + [z])[1..] == s[1..] + [z];
      IndexOfBound(s[1..], z, x);
    }
  }

  lemma {:induction false} IndexOfDistinct(s: seq<string>, k: nat)
    requires Distinct(s) && k < |s|
    ensures IndexOf(s, s[k]) == k
    decreases |s|
  {
    var init, z := s[..|s|-1], s[|s|-1];
    assert s == init + [z];
    if k < |s| - 1 {
      IndexOfDistinct(init, k);
      IndexOfPrefix(init, [z], s[k]);
    } else {
      IndexOfBound(init, z, z);
    }
  }

  /** Different names never share a placeholder. */
  lemma PlaceholdersDiffer(names: seq<string>, x: string, y: string)
    requires x in names && y in names && Placeholder(names, x) == Placeholder(names, y)
    ensures x == y
  {
    var i, j := IndexOf(names, x), IndexOf(names, y);
    assert Itoa(i + 1) == Placeholder(names, x)[1..] == Itoa(j + 1);
    ItoaInjective(i + 1, j + 1);
    IndexOfPrefix(names, [], x);
    IndexOfPrefix(names, [], y);
  }

  // Reading on from the middle of a quoted text

  datatype Mode = Plain | InLiteral | InDollar(tag: string)

  ghost predicate ValidMode(m: Mode) {
    m.InDollar? ==> IsTag(m.tag)
  }

  function Resume(m: Mode, s: string): seq<Token>
    requires m.InDollar? ==> m.tag != ""
  {
    match m
    case Plain => Lex(s)
    case InLiteral => [Text(s[..LiteralLength(s)])] + Lex(s[LiteralLength(s)..])
    case InDollar(tag) => [Text(s[..DollarLength(s, tag)])] + Lex(s[DollarLength(s, tag)..])
  }

  /** One round of the scan: what is written, how far it goes, and the mode after it. */
  datatype Move = Move(token: Token, length: nat, mode: Mode)

  function Next(m: Mode, s: string): (v: Move)
    requires s != ""
    ensures 0 < v.length <= |s| || m.InDollar?
  {
    var copy := Move(Text(s[..1]), 1, m);
    match m
    case InDollar(tag) => if HasPrefix(s, tag) then Move(Text(tag), |tag|, Plain) else copy
    case InLiteral =>
      if s[0] != '\'' then copy
      else if |s| > 1 && s[1] == '\'' then Move(Text(s[..2]), 2, InLiteral)
      else Move(Text(s[..1]), 1, Plain)
    case Plain =>
      if s[0] == '\'' then Move(Text(s[..1]), 1, InLiteral)
      else if s[0] == '$' && DollarTag(s).Some? then
        Move(Text(DollarTag(s).value), |DollarTag(s).value|, InDollar(DollarTag(s).value))
      else if s[0] == ':' && |s| > 1 && s[1] == ':' then Move(Text("::"), 2, Plain)
      else if s[0] == ':' && NameLength(s[1..]) > 0 then
        Move(Param(s[..NameLength(s[1..])+1]), NameLength(s[1..]) + 1, Plain)
      else copy
  }

  lemma EmitFirst(out: string, names: seq<string>, t: Token, ts: seq<Token>)
    ensures Emit(out, names, [t] + ts) == Emit(out + Written(names, t), Note(names, t), ts)
  {
    assert ([t] + ts)[1..] == ts;
  }

  /** Quoted text may be written in two parts. */
  lemma EmitSplit(out: string, names: seq<string>, s: string, k: nat, n: nat)
    requires k <= n <= |s|
    ensures Emit(out, names, [Text(s[..n])] + Lex(s[n..])) ==
            Emit(out + s[..k], names, [Text(s[k..][..n-k])] + Lex(s[k..][n-k..]))
  {
    EmitFirst(out, names, Text(s[..n]), Lex(s[n..]));
    EmitFirst(out + s[..k], names, Text(s[k..][..n-k]), Lex(s[k..][n-k..]));
    Regroup(out, s[..k], s[k..][..n-k]);
    assert s[..k] + s[k..][..n-k] == s[..n];
    assert s[k..][n-k..] == s[n..];
  }

  lemma LiteralSplit(out: string, names: seq<string>, s: string, k: nat)
    requires k <= |s| && LiteralLength(s) == k + LiteralLength(s[k..])
    ensures Emit(out, names, Resume(InLiteral, s)) == Emit(out + s[..k], names, Resume(InLiteral, s[k..]))
  {
    EmitSplit(out, names, s, k, LiteralLength(s));
  }

  lemma ResumeLiteral(out: string, names: seq<string>, s: string)
    requires s != ""
    ensures var v := Next(InLiteral, s);
            Emit(out, names, Resume(InLiteral, s)) ==
            Emit(out + Written(names, v.token), Note(names, v.token), Resume(v.mode, s[v.length..]))
  {
    if s[0] != '\'' {
      LiteralSplit(out, names, s, 1);
    } else if |s| > 1 && s[1] == '\'' {
      LiteralSplit(out, names, s, 2);
    } else {
      EmitFirst(out, names, Text(s[..1]), Lex(s[1..]));
    }
  }

  lemma ResumeDollar(out: string, names: seq<string>, tag: string, s: string)
    requires s != "" && tag != ""
    ensures var v := Next(InDollar(tag), s);
            Emit(out, names, Resume(InDollar(tag), s)) ==
            Emit(out + Written(names, v.token), Note(names, v.token), Resume(v.mode, s[v.length..]))
  {
    if HasPrefix(s, tag) {
      EmitFirst(out, names, Text(s[..|tag|]), Lex(s[|tag|..]));
    } else {
      EmitSplit(out, names, s, 1, DollarLength(s, tag));
    }
  }

  lemma OpensLiteral(out: string, names: seq<string>, s: string)
    requires s != "" && s[0] == '\''
    ensures Emit(out, names, [Text(s[..FirstLength(s)])] + Lex(s[FirstLength(s)..])) ==
            Emit(out + s[..1], names, Resume(InLiteral, s[1..]))
  {
    EmitSplit(out, names, s, 1, FirstLength(s));
  }

  lemma OpensDollar(out: string, names: seq<string>, s: string)
    requires s != "" && s[0] == '$' && DollarTag(s).Some?
    ensures var tag := DollarTag(s).value;
            Emit(out, names, [Text(s[..FirstLength(s)])] + Lex(s[FirstLength(s)..])) ==
            Emit(out + s[..|tag|], names, Resume(InDollar(tag), s[|tag|..]))
  {
    EmitSplit(out, names, s, |DollarTag(s).value|, FirstLength(s));
  }

  lemma ResumeOpening(out: string, names: seq<string>, s: string)
    requires s != "" && (s[0] == '\'' || (s[0] == '$' && DollarTag(s).Some?))
    ensures var v := Next(Plain, s);
            Emit(out, names, Lex(s)) ==
            Emit(out + Written(names, v.token), Note(names, v.token), Resume(v.mode, s[v.length..]))
  {
    LexQuoted(s, FirstLength(s));
    if s[0] == '\'' { OpensLiteral(out, names, s); } else { OpensDollar(out, names, s); }
  }

  /** Outside quotes the scanner's move is the first token. */
  lemma NextUnquoted(s: string)
    requires s != "" && s[0] != '\'' && (s[0] == '$' ==> DollarTag(s).None?)
    ensures Lex(s) != [] && Next(Plain, s) == Move(Lex(s)[0], FirstLength(s), Plain)
    ensures Lex(s) == [Lex(s)[0]] + Lex(s[FirstLength(s)..])
  {
    FirstToken(s);
    if s[0] == ':' { assert s[..1] == ":"; }
  }

  lemma ResumePlain(out: string, names: seq<string>, s: string)
    requires s != ""
    ensures var v := Next(Plain, s);
            Emit(out, names, Lex(s)) ==
            Emit(out + Written(names, v.token), Note(names, v.token), Resume(v.mode, s[v.length..]))
  {
    if s[0] == '\'' || (s[0] == '$' && DollarTag(s).Some?) {
      ResumeOpening(out, names, s);
    } else {
      NextUnquoted(s);
      EmitFirst(out, names, Lex(s)[0], Lex(s[FirstLength(s)..]));
    }
  }

  /** Scanning on by one round means the same as what was left to scan before it. */
  lemma ResumeStep(out: string, names: seq<string>, m: Mode, s: string)
    requires s != "" && ValidMode(m)
    ensures var v := Next(m, s);
            && ValidMode(v.mode) && 0 < v.length <= |s|
            && Emit(out, names, Resume(m, s)) ==
               Emit(out + Written(names, v.token), Note(names, v.token), Resume(v.mode, s[v.length..]))
  {
    match m
    case Plain => ResumePlain(out, names, s);
    case InLiteral => ResumeLiteral(out, names, s);
    case InDollar(tag) => ResumeDollar(out, names, tag, s);
  }
}
