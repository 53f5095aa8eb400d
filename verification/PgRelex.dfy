/** What the database, reading by the manual's rules, makes of the converted query. */
module PgRelex {
  /*
   * It has the lexemes of the original with every name turned into a positional parameter, exactly when no name stands
   * right after an identifier or a dollar sign.
   */

  import opened Collections
  import opened Decimal
  import opened SqlNames
  import opened PgLexer
  import opened PgManual

  function Put(names: seq<string>, x: Lexeme): string {
    if x.Name? then Placeholder(names, x.name) else Spelt(x)
  }

  /** The query with every name replaced by its placeholder. */
  function Emitted(names: seq<string>, s: string, glued: bool): string
    decreases |s|
  {
    if s == "" then ""
    else var x := First(s, glued); Put(names, x) + Emitted(names, s[|Spelt(x)|..], GluedAfter(x, glued))
  }

  function Chars(s: string): seq<Lexeme> {
    if s == "" then [] else [Char(s[0])] + Chars(s[1..])
  }

  /** A name as the positional parameter that stands for it. */
  function Positional(names: seq<string>, x: Lexeme): seq<Lexeme> {
    if x.Name? then [Mark] + Chars(Itoa(IndexOf(names, x.name) + 1)) else [x]
  }

  function AllPositional(names: seq<string>, xs: seq<Lexeme>): seq<Lexeme> {
    if xs == [] then [] else Positional(names, xs[0]) + AllPositional(names, xs[1..])
  }

  predicate StartsName(s: string, glued: bool) {
    s != "" && First(s, glued).Name?
  }

  /** The first lexeme of s is a dollar sign of its own, and a name comes right after it. */
  predicate DollarName(s: string, glued: bool) {
    s != "" && First(s, glued) == Char('$') && !glued && StartsName(s[1..], false)
  }

  /** No name follows an identifier character or a lone dollar sign. */
  predicate Free(s: string, glued: bool)
    decreases |s|
  {
    s == "" ||
    (!(glued && StartsName(s, glued)) && !DollarName(s, glued) &&
     var x := First(s, glued); Free(s[|Spelt(x)|..], GluedAfter(x, glued)))
  }

  // What is emitted for the rest of the query does not change how the part before it is read

  lemma EmittedHead(names: seq<string>, s: string, glued: bool)
    requires s != ""
    ensures var e := Emitted(names, s, glued); e != "" && e[0] == if StartsName(s, glued) then '$' else s[0]
  {
  }

  /** What belongs to an open literal and what is put after it. */
  function LiteralThen(s: string, e: string): string {
    s[..LiteralLength(s)] + e
  }

  lemma LiteralThenStep(s: string, e: string, k: nat)
    requires k <= LiteralLength(s) && LiteralLength(s) == k + LiteralLength(s[k..])
    ensures |LiteralThen(s, e)| >= k && LiteralThen(s, e)[k..] == LiteralThen(s[k..], e)
    ensures forall i :: 0 <= i < k ==> LiteralThen(s, e)[i] == s[i]
  {
  }

  lemma {:induction false} LiteralStable(s: string, e: string)
    requires LiteralLength(s) == |s| ==> e == ""
    requires e != "" ==> e[0] != '\''
    ensures LiteralLength(LiteralThen(s, e)) == LiteralLength(s)
    decreases |s|
  {
    if s == "" {
      assert LiteralThen(s, e) == "";
    } else if s[0] != '\'' {
      LiteralThenStep(s, e, 1);
      LiteralStable(s[1..], e);
    } else if |s| > 1 && s[1] == '\'' {
      LiteralThenStep(s, e, 2);
      LiteralStable(s[2..], e);
    } else {
      assert LiteralThen(s, e) == ['\''] + e;
    }
  }

  lemma {:induction false} LiteralStops(s: string)
    ensures LiteralLength(s) < |s| ==> s[LiteralLength(s)] != '\''
    decreases |s|
  {
    if s != "" {
      if s[0] != '\'' { LiteralStops(s[1..]); }
      else if |s| > 1 && s[1] == '\'' { LiteralStops(s[2..]); }
    }
  }

  lemma {:induction false} DollarStable(s: string, tag: string, e: string)
    requires tag != "" && (DollarLength(s, tag) == |s| ==> e == "")
    ensures DollarLength(s[..DollarLength(s, tag)] + e, tag) == DollarLength(s, tag)
    decreases |s|
  {
    var n := DollarLength(s, tag);
    var t := s[..n] + e;
    if s == "" {
      assert t == "";
    } else if HasPrefix(s, tag) {
      assert t[..|tag|] == tag;
    } else {
      DollarStable(s[1..], tag, e);
      assert t[1..] == s[1..][..n-1] + e;
      DollarEndsAtFirstTag(s, tag, 0);
      assert n >= |tag| ==> t[..|tag|] == s[..|tag|];
    }
  }

  lemma {:induction false} PartLengthIs(s: string, n: nat)
    requires n < |s| && !IdentPart(s[n]) && forall i :: 0 <= i < n ==> IdentPart(s[i])
    ensures PartLength(s) == n
  {
    if n > 0 { PartLengthIs(s[1..], n - 1); }
  }

  lemma TagStable(s: string, rest: string)
    requires ManualTag(s).Some?
    ensures ManualTag(ManualTag(s).value + rest) == ManualTag(s)
  {
    var tag := ManualTag(s).value;
    var t, n := tag + rest, |tag| - 2;
    assert forall i :: 0 < i < |tag| ==> t[1..][i-1] == tag[i] == s[1..][i-1];
    PartLengthIs(t[1..], n);
    assert t[..n+2] == tag;
  }

  /** Both begin with equally many identifier characters, and the same character or none comes after them. */
  ghost predicate SameRun(e: string, s: string) {
    var n := PartLength(s);
    PartLength(e) == n && if n < |s| then n < |e| && e[n] == s[n] else |e| == n
  }

  lemma RunStep(t: string, s: string)
    requires t != "" && s != "" && t[0] == s[0] && IdentPart(s[0]) && SameRun(t[1..], s[1..])
    ensures SameRun(t, s)
  {
  }

  lemma IdentEmitted(names: seq<string>, s: string, glued: bool)
    requires s != "" && IdentPart(s[0]) && (glued || IdentStart(s[0]))
    ensures var e := Emitted(names, s, glued); e != "" && e[0] == s[0] && e[1..] == Emitted(names, s[1..], true)
    ensures Free(s, glued) ==> Free(s[1..], true)
  {
    assert First(s, glued) == Char(s[0]) && GluedAfter(Char(s[0]), glued);
  }

  /** Through a run of identifier characters the emitted text is the query itself. */
  lemma {:induction false} RunStable(names: seq<string>, s: string, glued: bool)
    requires Free(s, glued) && (glued || (s != "" && IdentStart(s[0])))
    ensures SameRun(Emitted(names, s, glued), s)
    decreases |s|
  {
    if s != "" {
      if IdentPart(s[0]) {
        IdentEmitted(names, s, glued);
        RunStable(names, s[1..], true);
        RunStep(Emitted(names, s, glued), s);
      } else {
        EmittedHead(names, s, glued);
      }
    }
  }

  lemma FirstQuote(t: string, n: nat, glued: bool)
    requires t != "" && t[0] == '\'' && n == LiteralLength(t[1..])
    ensures First(t, glued) == Region(t[..n+1])
  {
  }

  lemma QuoteKept(s: string, n: nat, e: string, glued: bool)
    requires s != "" && s[0] == '\'' && n == LiteralLength(s[1..])
    requires n == |s| - 1 ==> e == ""
    requires e != "" ==> e[0] != '\''
    ensures First(s[..n+1] + e, glued) == Region(s[..n+1])
  {
    var t := s[..n+1] + e;
    LiteralStable(s[1..], e);
    assert t[1..] == s[1..][..n] + e && t[..n+1] == s[..n+1];
    FirstQuote(t, n, glued);
  }

  lemma QuoteStable(names: seq<string>, s: string, glued: bool)
    requires s != "" && s[0] == '\''
    ensures First(Emitted(names, s, glued), glued) == First(s, glued)
  {
    var n := LiteralLength(s[1..]);
    FirstQuote(s, n, glued);
    LiteralStops(s[1..]);
    if n + 1 < |s| {
      assert s[1..][n] == s[n+1..][0];
      EmittedHead(names, s[n+1..], false);
    }
    QuoteKept(s, n, Emitted(names, s[n+1..], false), glued);
  }

  lemma FirstDollarQuote(t: string, tag: string, n: nat)
    requires ManualTag(t) == Some(tag) && n == DollarLength(t[|tag|..], tag)
    ensures First(t, false) == Region(t[..|tag| + n])
  {
  }

  lemma DollarQuoteKept(tag: string, body: string, n: nat, e: string)
    requires tag != "" && n == DollarLength(body, tag) && (n == |body| ==> e == "")
    requires ManualTag(tag + (body[..n] + e)) == Some(tag)
    ensures First(tag + (body[..n] + e), false) == Region(tag + body[..n])
  {
    var t := tag + (body[..n] + e);
    DollarStable(body, tag, e);
    CutAt(tag, body[..n] + e);
    FirstDollarQuote(t, tag, n);
    assert t[..|tag| + n] == tag + body[..n];
  }

  lemma EmittedRegion(names: seq<string>, s: string, n: nat)
    requires s != "" && n <= |s| && First(s, false) == Region(s[..n])
    ensures Emitted(names, s, false) == s[..n] + Emitted(names, s[n..], false)
  {
  }

  lemma DollarQuoteStable(names: seq<string>, s: string)
    requires ManualTag(s).Some?
    ensures First(Emitted(names, s, false), false) == First(s, false)
  {
    var tag := ManualTag(s).value;
    var body := s[|tag|..];
    var n := DollarLength(body, tag);
    FirstDollarQuote(s, tag, n);
    EmittedRegion(names, s, |tag| + n);
    DollarQuoteRest(s, tag, body, n, Emitted(names, s[|tag| + n..], false));
  }

  lemma DollarQuoteRest(s: string, tag: string, body: string, n: nat, e: string)
    requires ManualTag(s) == Some(tag) && s == tag + body && n == DollarLength(body, tag) && (n == |body| ==> e == "")
    ensures First(s[..|tag| + n] + e, false) == Region(s[..|tag| + n])
  {
    TagStable(s, body[..n] + e);
    DollarQuoteKept(tag, body, n, e);
    Regroup(tag, body[..n], e);
    assert s[..|tag| + n] == tag + body[..n];
  }

  lemma NoTag(s: string)
    requires |s| > 1 && s[0] == '$'
    ensures var n := PartLength(s[1..]);
      IsDigit(s[1]) || 1 + n == |s| || s[1+n] != '$' ==> ManualTag(s).None?
  {
  }

  lemma LoneDollarStable(names: seq<string>, s: string)
    requires s != "" && s[0] == '$' && ManualTag(s).None? && Free(s, false)
    ensures First(Emitted(names, s, false), false) == First(s, false)
  {
    var rest := s[1..];
    var e := Emitted(names, rest, false);
    assert Spelt(First(s, false)) == "$";
    assert Emitted(names, s, false) == "$" + e && ("$" + e)[1..] == e;
    if rest != "" {
      EmittedHead(names, rest, false);
      if IdentStart(rest[0]) { RunStable(names, rest, false); }
      NoTag("$" + e);
    }
  }

  lemma ColonStable(names: seq<string>, s: string, glued: bool)
    requires s != "" && s[0] == ':' && !First(s, glued).Name?
    ensures First(Emitted(names, s, glued), glued) == First(s, glued)
  {
    if |s| > 1 && s[1] != ':' {
      EmittedHead(names, s[1..], false);
      assert Emitted(names, s, glued)[1..] == Emitted(names, s[1..], false);
    }
  }

  /** A lexeme that is no name is read again as it was. */
  lemma FirstStable(names: seq<string>, s: string, glued: bool)
    requires s != "" && !First(s, glued).Name? && Free(s, glued)
    ensures First(Emitted(names, s, glued), glued) == First(s, glued)
  {
    if s[0] == '\'' { QuoteStable(names, s, glued); }
    else if s[0] == '$' && !glued {
      if ManualTag(s).Some? { DollarQuoteStable(names, s); } else { LoneDollarStable(names, s); }
    }
    else if s[0] == ':' { ColonStable(names, s, glued); }
    else { EmittedHead(names, s, glued); }
  }

  // Names

  lemma DigitRead(t: string)
    requires t != "" && IsDigit(t[0])
    ensures Manual(t, false) == [Char(t[0])] + Manual(t[1..], false)
  {
  }

  lemma CharsFirst(d: string, rest: string)
    requires d != "" && d[1..] == rest
    ensures Chars(d) == [Char(d[0])] + Chars(rest)
  {
  }

  lemma {:induction false} CharsRead(t: string, n: nat)
    requires n <= |t| && forall i :: 0 <= i < n ==> IsDigit(t[i])
    ensures Manual(t, false) == Chars(t[..n]) + Manual(t[n..], false)
    decreases n
  {
    if n == 0 {
      assert t[..0] == "" && t[0..] == t;
    } else {
      CharsRead(t[1..], n - 1);
      assert t[1..][n-1..] == t[n..];
      CharsFirst(t[..n], t[1..][..n-1]);
      DigitRead(t);
      Regroup([Char(t[0])], Chars(t[1..][..n-1]), Manual(t[n..], false));
    }
  }

  lemma NumberRead(n: nat, e: string)
    ensures Manual(Itoa(n) + e, false) == Chars(Itoa(n)) + Manual(e, false)
  {
    CutAt(Itoa(n), e);
    CharsRead(Itoa(n) + e, |Itoa(n)|);
  }

  lemma PlaceholderRead(names: seq<string>, x: Lexeme, e: string)
    requires x.Name?
    ensures Manual(Put(names, x) + e, false) == Positional(names, x) + Manual(e, false)
  {
    var d := Itoa(IndexOf(names, x.name) + 1);
    assert IsDigit(d[0]);
    Regroup(['$'], d, e);
    NumberRead(IndexOf(names, x.name) + 1, e);
    ManualDollar(d + e);
    Regroup([Mark], Chars(d), Manual(e, false));
  }

  /** A placeholder glued to an identifier is read as part of it. */
  lemma GluedRead(names: seq<string>, x: Lexeme, e: string, more: seq<Lexeme>)
    requires x.Name?
    ensures Manual(Put(names, x) + e, true) != Positional(names, x) + more
  {
    var t := Put(names, x) + e;
    assert t[0] == '$' && First(t, true) == Char('$');
    assert Manual(t, true)[0] == Char('$') && (Positional(names, x) + more)[0] == Mark;
  }

  /** A placeholder after a dollar sign makes the two dollar signs open a dollar quote. */
  lemma DollarRead(names: seq<string>, s: string)
    requires DollarName(s, false)
    ensures First(Emitted(names, s, false), false).Region?
  {
    var e := Emitted(names, s[1..], false);
    EmittedHead(names, s[1..], false);
    assert Emitted(names, s, false) == "$" + e && ("$" + e)[1..] == e;
    assert PartLength(e) == 0;
  }

  lemma PositionalStep(names: seq<string>, x: Lexeme, xs: seq<Lexeme>)
    ensures AllPositional(names, [x] + xs) == Positional(names, x) + AllPositional(names, xs)
  {
    assert ([x] + xs)[1..] == xs;
  }

  lemma ReadFirst(t: string, glued: bool, x: Lexeme, e: string)
    requires t == Spelt(x) + e && t != ""
    ensures First(t, glued) == x ==> Manual(t, glued) == [x] + Manual(e, GluedAfter(x, glued))
    ensures Manual(t, glued) != [] && Manual(t, glued)[0] == First(t, glued)
  {
    assert t[|Spelt(x)|..] == e;
  }

  /**
   * The emitted text is read as the original with positional parameters for the names, exactly when no name follows an
   * identifier character or a lone dollar sign.
   */
  lemma {:induction false} SurvivesIff(names: seq<string>, s: string, glued: bool)
    ensures Manual(Emitted(names, s, glued), glued) == AllPositional(names, Manual(s, glued)) <==> Free(s, glued)
    decreases |s|
  {
    if s != "" {
      var x := First(s, glued);
      var rest, g := s[|Spelt(x)|..], GluedAfter(x, glued);
      var e, more := Emitted(names, rest, g), AllPositional(names, Manual(rest, g));
      PositionalStep(names, x, Manual(rest, g));
      SurvivesIff(names, rest, g);
      CancelFront(Positional(names, x), Manual(e, g), more);
      if x.Name? {
        if glued { GluedRead(names, x, e, more); } else { PlaceholderRead(names, x, e); }
      } else {
        ReadFirst(Emitted(names, s, glued), glued, x, e);
        if DollarName(s, glued) { DollarRead(names, s); }
        if First(Emitted(names, s, glued), glued) != x && Free(s, glued) { FirstStable(names, s, glued); }
      }
    }
  }

  lemma {:induction false} EmittedIsRender(names: seq<string>, s: string, glued: bool)
    ensures Emitted(names, s, glued) == Render(names, AsTokens(Manual(s, glued)))
    decreases |s|
  {
    if s != "" {
      var x := First(s, glued);
      var rest, g := s[|Spelt(x)|..], GluedAfter(x, glued);
      EmittedIsRender(names, rest, g);
      AsTokensStep(x, Manual(rest, g));
      assert ([AsToken(x)] + AsTokens(Manual(rest, g)))[1..] == AsTokens(Manual(rest, g));
    }
  }

  /** So it is with the text the converter emits for a query that the scanner reads as the manual does. */
  lemma ConvertedSurvivesIff(s: string)
    requires Agreed(s, false)
    ensures var names := Names(Lex(s));
      Manual(Render(names, Lex(s)), false) == AllPositional(names, Manual(s, false)) <==> Free(s, false)
  {
    var names := Names(Lex(s));
    AgreesIff(s, false);
    EmittedIsRender(names, s, false);
    SurvivesIff(names, s, false);
  }

  /** In x:a the placeholder joins the identifier, in $:a it completes the tag of a dollar quote. */
  lemma NotFreeExamples(c: char, p: char)
    requires IdentStart(c) && IsNamedParamChar(p)
    ensures !Free([c, ':', p], false) && !Free(['$', ':', p], false)
  {
    assert [c, ':', p][1..] == [':', p] && ['$', ':', p][1..] == [':', p] && [':', p][1..] == [p];
    assert NameLength([p]) == 1;
    assert StartsName([':', p], true) && StartsName([':', p], false);
    assert PartLength([':', p]) == 0;
  }
}
