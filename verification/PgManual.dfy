/**
 * String constants and dollar quotes as the PostgreSQL manual describes them (sections 4.1.1, 4.1.2.1 and 4.1.2.4),
 * with the named parameters of the helper added, and how far the scanner agrees with it. Positional parameters are
 * told apart from other dollar signs, so that what is emitted can be read again.
 */
module PgManual {
  import opened Collections
  import opened Decimal
  import opened SqlNames
  import opened PgLexer

  /** Identifiers and dollar tags begin with a letter, which may be a non-ASCII one, or an underscore. */
  predicate IdentStart(c: char) {
    'a' <= c <= 'z' || 'A' <= c <= 'Z' || c == '_' || c as int >= 128
  }

  predicate IdentPart(c: char) {
    IdentStart(c) || IsDigit(c)
  }

  /** The number of identifier characters s begins with. */
  function PartLength(s: string): (n: nat)
    ensures n <= |s|
    ensures forall i :: 0 <= i < n ==> IdentPart(s[i])
    ensures n < |s| ==> !IdentPart(s[n])
  {
    if s == "" || !IdentPart(s[0]) then 0 else 1 + PartLength(s[1..])
  }

  /** A dollar tag follows the rules of an identifier without dollar signs, or is empty. */
  function ManualTag(s: string): (t: Option<string>)
    ensures t.Some? ==> 2 <= |t.value| <= |s| && s[..|t.value|] == t.value && t.value[0] == '$'
  {
    if s == "" || s[0] != '$' then None
    else
      var n := PartLength(s[1..]);
      if 1 + n < |s| && s[1+n] == '$' && (n == 0 || IdentStart(s[1])) then Some(s[..n+2]) else None
  }

  /** Mark is the dollar sign of a positional parameter. */
  datatype Lexeme = Char(c: char) | Mark | Region(text: string) | Cast | Name(name: string)

  /** Does the next character continue an identifier? */
  predicate Glues(c: char, glued: bool) {
    IdentStart(c) || (glued && IsDigit(c))
  }

  function Spelt(x: Lexeme): string {
    match x
    case Char(c) => [c]
    case Mark => "$"
    case Region(t) => t
    case Cast => "::"
    case Name(n) => n
  }

  /** The first lexeme of s. A dollar sign glued to an identifier belongs to it. */
  function First(s: string, glued: bool): (x: Lexeme)
    requires s != ""
    ensures 0 < |Spelt(x)| <= |s|
  {
    if s[0] == '\'' then Region(s[..1 + LiteralLength(s[1..])])
    else if s[0] == '$' then
      if glued then Char('$')
      else if ManualTag(s).Some? then
        var tag := ManualTag(s).value;
        Region(s[..|tag| + DollarLength(s[|tag|..], tag)])
      else if |s| > 1 && IsDigit(s[1]) then Mark
      else Char('$')
    else if s[0] == ':' then
      if |s| > 1 && s[1] == ':' then Cast
      else if NameLength(s[1..]) > 0 then Name(s[..NameLength(s[1..]) + 1])
      else Char(':')
    else Char(s[0])
  }

  /** Whether an identifier goes on after the lexeme x. */
  predicate GluedAfter(x: Lexeme, glued: bool) {
    x.Char? && (if x.c == '$' then glued else Glues(x.c, glued))
  }

  function Manual(s: string, glued: bool): seq<Lexeme>
    decreases |s|
  {
    if s == "" then []
    else
      var x := First(s, glued);
      [x] + Manual(s[|Spelt(x)|..], GluedAfter(x, glued))
  }

  function AsToken(x: Lexeme): Token {
    if x.Name? then Param(x.name) else Text(Spelt(x))
  }

  function AsTokens(xs: seq<Lexeme>): seq<Token> {
    if xs == [] then [] else [AsToken(xs[0])] + AsTokens(xs[1..])
  }

  // Where the scanner and the manual part

  /** The scanner takes a tag that begins with a digit or is glued to an identifier. */
  predicate Stray(s: string, glued: bool) {
    DollarTag(s).Some? && (glued || IsDigit(s[1]))
  }

  /** The scanner does not know a tag with a letter outside ASCII. */
  predicate Missed(s: string, glued: bool) {
    !glued && ManualTag(s).Some? && DollarTag(s).None?
  }

  /** No dollar sign in plain text begins such a tag. */
  predicate Agreed(s: string, glued: bool)
    decreases |s|
  {
    s == "" ||
    (!Stray(s, glued) && !Missed(s, glued) &&
     var x := First(s, glued); Agreed(s[|Spelt(x)|..], GluedAfter(x, glued)))
  }

  lemma {:induction false} PartsAndNames(s: string)
    ensures NameLength(s) <= PartLength(s)
    ensures NameLength(s) < PartLength(s) ==> s[NameLength(s)] as int >= 128
  {
    if s != "" && IsNamedParamChar(s[0]) { PartsAndNames(s[1..]); }
  }

  /** Only a letter outside ASCII makes the scanner miss a tag. */
  lemma MissedIff(s: string)
    requires ManualTag(s).Some?
    ensures DollarTag(s).None? <==> exists i :: 0 <= i < |ManualTag(s).value| && ManualTag(s).value[i] as int >= 128
  {
    var n, p := NameLength(s[1..]), PartLength(s[1..]);
    var tag := ManualTag(s).value;
    PartsAndNames(s[1..]);
    assert forall i :: 0 < i < |tag| ==> tag[i] == s[1..][i-1];
    if n < p { assert tag[n+1] as int >= 128; }
  }

  lemma TagsAgree(s: string, glued: bool)
    requires !Stray(s, glued) && !Missed(s, glued)
    ensures DollarTag(s) == if glued then None else ManualTag(s)
  {
    if DollarTag(s).Some? {
      PartsAndNames(s[1..]);
      NameLengthIs(s[1..], NameLength(s[1..]));
    }
  }

  lemma FirstRegion(s: string, glued: bool)
    requires s != "" && (s[0] == '\'' || (s[0] == '$' && !glued && DollarTag(s).Some? && DollarTag(s) == ManualTag(s)))
    ensures First(s, glued) == Region(s[..FirstLength(s)])
  {
  }

  lemma RegionAgrees(s: string, n: nat)
    requires n <= |s| && Lex(s) == [Text(s[..n])] + Lex(s[n..])
    ensures Lex(s) == [AsToken(Region(s[..n]))] + Lex(s[|Spelt(Region(s[..n]))|..])
  {
  }

  lemma QuoteAgrees(s: string, glued: bool)
    requires s != "" && (s[0] == '\'' || (s[0] == '$' && !glued && DollarTag(s).Some? && DollarTag(s) == ManualTag(s)))
    ensures Lex(s) == [AsToken(First(s, glued))] + Lex(s[|Spelt(First(s, glued))|..])
  {
    FirstRegion(s, glued);
    LexQuoted(s, FirstLength(s));
    RegionAgrees(s, FirstLength(s));
  }

  lemma PlainAgrees(s: string, glued: bool)
    requires s != "" && s[0] != '\'' && (s[0] == '$' ==> DollarTag(s).None? && (glued || ManualTag(s).None?))
    ensures Lex(s) == [AsToken(First(s, glued))] + Lex(s[|Spelt(First(s, glued))|..])
  {
    assert s[..1] == [s[0]];
  }

  /** Without a stray or missed tag the scanner's first token is the manual's first lexeme. */
  lemma FirstAgrees(s: string, glued: bool)
    requires s != "" && !Stray(s, glued) && !Missed(s, glued)
    ensures Lex(s) == [AsToken(First(s, glued))] + Lex(s[|Spelt(First(s, glued))|..])
  {
    TagsAgree(s, glued);
    if s[0] == '\'' || (s[0] == '$' && DollarTag(s).Some?) { QuoteAgrees(s, glued); } else { PlainAgrees(s, glued); }
  }

  lemma StrayDiffers(s: string, glued: bool)
    requires s != "" && Stray(s, glued)
    ensures Lex(s) != [] && Lex(s)[0] != AsToken(First(s, glued))
  {
    LexQuoted(s, FirstLength(s));
    PartsAndNames(s[1..]);
    assert |Lex(s)[0].text| >= 2;
  }

  lemma MissedDiffers(s: string, glued: bool)
    requires s != "" && Missed(s, glued)
    ensures Lex(s) != [] && Lex(s)[0] != AsToken(First(s, glued))
  {
    assert Lex(s) == [Text(s[..1])] + Lex(s[1..]);
    assert |Spelt(First(s, glued))| >= 2;
  }

  lemma AsTokensStep(x: Lexeme, xs: seq<Lexeme>)
    ensures AsTokens([x] + xs) == [AsToken(x)] + AsTokens(xs)
  {
    assert ([x] + xs)[1..] == xs;
  }

  lemma HeadsAndTails<T>(a: T, s: seq<T>, b: T, t: seq<T>)
    ensures [a] + s == [b] + t <==> a == b && s == t
  {
    assert ([a] + s)[0] == a && ([a] + s)[1..] == s && ([b] + t)[0] == b && ([b] + t)[1..] == t;
  }

  /** The scanner cuts a query as the manual does exactly when no dollar sign in plain text begins a stray or missed tag. */
  lemma {:induction false} AgreesIff(s: string, glued: bool)
    ensures Lex(s) == AsTokens(Manual(s, glued)) <==> Agreed(s, glued)
    decreases |s|
  {
    if s != "" {
      var x := First(s, glued);
      var rest, g := s[|Spelt(x)|..], GluedAfter(x, glued);
      AsTokensStep(x, Manual(rest, g));
      if Stray(s, glued) {
        StrayDiffers(s, glued);
      } else if Missed(s, glued) {
        MissedDiffers(s, glued);
      } else {
        FirstAgrees(s, glued);
        AgreesIff(rest, g);
        HeadsAndTails(AsToken(x), Lex(rest), AsToken(x), AsTokens(Manual(rest, g)));
      }
    }
  }

  // Inputs at which they part

  lemma {:induction false} NeverCloses(s: string, tag: string)
    requires tag != "" && tag[0] == '$' && '$' !in s
    ensures DollarLength(s, tag) == |s|
  {
    if s != "" { NeverCloses(s[1..], tag); }
  }

  /** A dollar quote whose tag does not come again takes the rest of the query. */
  lemma SwallowsRest(tag: string, rest: string)
    requires IsTag(tag) && '$' !in rest
    ensures Lex(tag + rest) == [Text(tag + rest)] && DollarTag(tag + rest) == Some(tag)
  {
    var s := tag + rest;
    DollarTagIs(tag, rest);
    CutAt(tag, rest);
    NeverCloses(rest, tag);
    LexQuoted(s, |s|);
    assert s[..|s|] == s && s[|s|..] == "";
  }

  lemma ManualChar(c: char, rest: string, glued: bool)
    requires c != '\'' && c != ':' && (c == '$' ==> glued)
    ensures Manual([c] + rest, glued) == [Char(c)] + Manual(rest, if c == '$' then true else Glues(c, glued))
  {
    assert ([c] + rest)[1..] == rest;
  }

  /** A dollar sign before something that is no identifier character is no tag, unless another dollar sign follows. */
  lemma ManualDollar(rest: string)
    requires rest != "" && rest[0] != '$' && !IdentStart(rest[0])
    ensures Manual(['$'] + rest, false) == [if IsDigit(rest[0]) then Mark else Char('$')] + Manual(rest, false)
  {
    assert (['$'] + rest)[1..] == rest;
  }

  lemma ManualName(c: char, glued: bool)
    requires IsNamedParamChar(c)
    ensures Manual([':', c], glued) == [Name([':', c])]
  {
    var s := [':', c];
    assert s[1..] == [c] && [c][1..] == "" && s[..2] == s && s[2..] == "";
    assert c != ':';
  }

  lemma DigitRun(d: char, rest: string)
    requires IsDigit(d) && rest != "" && rest[0] == ':'
    ensures Manual(['$'] + ([d] + (['$'] + rest)), false) == [Mark] + ([Char(d)] + ([Char('$')] + Manual(rest, false)))
  {
    ManualDollar(rest);
    ManualChar(d, ['$'] + rest, false);
    ManualDollar([d] + (['$'] + rest));
  }

  /** A tag of digits, as in $1$:b. The manual sees a positional parameter and a name, the scanner a dollar quote. */
  lemma DigitTagExample(d: char, name: string, p: char)
    requires IsDigit(d) && IsNamedParamChar(p) && name == [':', p]
    ensures var s := ['$', d, '$'] + name;
      && Lex(s) == [Text(s)]
      && Manual(s, false) == [Mark] + ([Char(d)] + ([Char('$')] + [Name(name)]))
  {
    SwallowsRest(['$', d, '$'], name);
    assert ['$', d, '$'] + name == ['$'] + ([d] + (['$'] + name));
    ManualName(p, false);
    DigitRun(d, name);
  }

  lemma LexChar(c: char, rest: string)
    requires c != '\'' && c != '$' && c != ':'
    ensures Lex([c] + rest) == [Text([c])] + Lex(rest)
  {
    assert ([c] + rest)[1..] == rest && ([c] + rest)[..1] == [c];
  }

  lemma GluedRun(b: char, rest: string)
    requires IsNamedParamChar(b)
    ensures Manual(['$'] + ([b] + (['$'] + rest)), true) == [Char('$')] + ([Char(b)] + ([Char('$')] + Manual(rest, true)))
  {
    ManualChar('$', rest, true);
    ManualChar(b, ['$'] + rest, true);
    ManualChar('$', [b] + (['$'] + rest), true);
  }

  lemma GluedQuote(a: char, b: char, rest: string)
    requires IdentStart(a) && IsNamedParamChar(b) && '$' !in rest
    ensures var quote := ['$', b, '$'] + rest; Lex([a] + quote) == [Text([a])] + [Text(quote)]
  {
    SwallowsRest(['$', b, '$'], rest);
    LexChar(a, ['$', b, '$'] + rest);
  }

  lemma TagApart(b: char, rest: string)
    ensures ['$', b, '$'] + rest == ['$'] + ([b] + (['$'] + rest))
  {
  }

  lemma AfterIdent(a: char, rest: string)
    requires IdentStart(a)
    ensures Manual([a] + rest, false) == [Char(a)] + Manual(rest, true)
  {
    ManualChar(a, rest, false);
  }

  lemma GluedPlain(a: char, b: char, rest: string)
    requires IdentStart(a) && IsNamedParamChar(b)
    ensures Manual([a] + (['$', b, '$'] + rest), false) ==
            [Char(a)] + ([Char('$')] + ([Char(b)] + ([Char('$')] + Manual(rest, true))))
  {
    TagApart(b, rest);
    GluedRun(b, rest);
    AfterIdent(a, ['$', b, '$'] + rest);
  }

  /** A dollar sign inside an identifier, as in a$b$:x. The scanner opens a dollar quote there and swallows the name. */
  lemma GluedTagExample(a: char, b: char, name: string, p: char)
    requires IdentStart(a) && IsNamedParamChar(b) && IsNamedParamChar(p) && name == [':', p]
    ensures var quote := ['$', b, '$'] + name;
      && Lex([a] + quote) == [Text([a])] + [Text(quote)]
      && Manual([a] + quote, false) == [Char(a)] + ([Char('$')] + ([Char(b)] + ([Char('$')] + [Name(name)])))
  {
    GluedQuote(a, b, name);
    GluedPlain(a, b, name);
    ManualName(p, true);
  }

  /** A dollar sign that no further one follows within a name begins no tag. */
  lemma LexDollar(rest: string)
    requires rest != "" && !IsNamedParamChar(rest[0]) && rest[0] != '$'
    ensures Lex(['$'] + rest) == [Text(['$'])] + Lex(rest)
  {
    assert (['$'] + rest)[1..] == rest && (['$'] + rest)[..1] == ['$'];
  }

  lemma LexName(c: char)
    requires IsNamedParamChar(c)
    ensures Lex([':', c]) == [Param([':', c])]
  {
    var s := [':', c];
    assert s[1..] == [c] && [c][1..] == "" && s[..2] == s && s[2..] == "";
    assert c != ':';
  }

  lemma ForeignTag(c: char, rest: string)
    requires c as int >= 128
    ensures ManualTag(['$', c, '$'] + rest) == Some(['$', c, '$'])
  {
    var s := ['$', c, '$'] + rest;
    assert s[1..] == [c] + (['$'] + rest) && s[1..][1..] == ['$'] + rest;
    assert PartLength(s[1..]) == 1 + PartLength(s[1..][1..]) == 1;
    assert s[..3] == ['$', c, '$'];
  }

  lemma ManualSwallows(s: string, tag: string, rest: string)
    requires s == tag + rest && ManualTag(s) == Some(tag) && '$' !in rest
    ensures Manual(s, false) == [Region(s)]
  {
    CutAt(tag, rest);
    NeverCloses(rest, tag);
    assert s[..|s|] == s && s[|s|..] == "";
  }

  lemma ForeignLex(c: char, rest: string)
    requires c as int >= 128 && rest != "" && !IsNamedParamChar(rest[0]) && rest[0] != '$'
    ensures Lex(['$'] + ([c] + (['$'] + rest))) == [Text(['$'])] + ([Text([c])] + ([Text(['$'])] + Lex(rest)))
  {
    LexDollar(rest);
    LexChar(c, ['$'] + rest);
    LexDollar([c] + (['$'] + rest));
  }

  /** A tag with a letter outside ASCII: the manual sees a dollar quote, the scanner a name to be replaced inside it. */
  lemma ForeignTagExample(c: char, name: string, p: char)
    requires c as int >= 128 && IsNamedParamChar(p) && name == [':', p]
    ensures var s := ['$', c, '$'] + name;
      && Lex(s) == [Text(['$'])] + ([Text([c])] + ([Text(['$'])] + [Param(name)]))
      && Manual(s, false) == [Region(s)]
  {
    ForeignTag(c, name);
    ManualSwallows(['$', c, '$'] + name, ['$', c, '$'], name);
    TagApart(c, name);
    LexName(p);
    ForeignLex(c, name);
  }
}
