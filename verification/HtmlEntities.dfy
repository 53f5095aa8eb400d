/**
 * Escaping of HTML special characters (utils/encoding/html.go:57-75): five global replacements one after the
 * other, in each direction. Decoding is compared with one pass that knows the first k entities, one k after the other;
 * encoding with a table of characters. The two round trips then follow from how the table and the pass meet.
 */
module HtmlEntities {
  import opened Collections

  function ReplaceAll(s: string, what: string, with: string): string
    requires what != ""
    decreases |s|
  {
    if s == "" then ""
    else if HasPrefix(s, what) then with + ReplaceAll(s[|what|..], what, with)
    else s[..1] + ReplaceAll(s[1..], what, with)
  }

  function EncodeSpecialChars(s: string): string {
    var s := ReplaceAll(s, "&", "&amp;");
    var s := ReplaceAll(s, "\"", "&quot;");
    var s := ReplaceAll(s, "'", "&#39;");
    var s := ReplaceAll(s, "<", "&lt;");
    ReplaceAll(s, ">", "&gt;")
  }

  function DecodeSpecialChars(s: string): string {
    var s := ReplaceAll(s, "&quot;", "\"");
    var s := ReplaceAll(s, "&#39;", "'");
    var s := ReplaceAll(s, "&lt;", "<");
    var s := ReplaceAll(s, "&gt;", ">");
    ReplaceAll(s, "&amp;", "&")
  }

  // The five entities, in the order in which they are decoded

  function Entity(j: nat): (e: string)
    requires j < 5
    ensures |e| >= 4 && e[0] == '&' && forall i :: 1 <= i < |e| ==> e[i] !in "&\"'<>"
  {
    match j
    case 0 => "&quot;"
    case 1 => "&#39;"
    case 2 => "&lt;"
    case 3 => "&gt;"
    case _ => "&amp;"
  }

  function Special(j: nat): (c: char)
    requires j < 5
    ensures c in "&\"'<>" && (j < 4 ==> c != '&')
  {
    match j
    case 0 => '"'
    case 1 => '\''
    case 2 => '<'
    case 3 => '>'
    case _ => '&'
  }

  /** Which of the first k entities s begins with; k if none. */
  function Hit(k: nat, s: string): (j: nat)
    requires k <= 5
    ensures j < k ==> HasPrefix(s, Entity(j)) && s[0] == '&'
    ensures j >= k ==> j == k
  {
    if k == 0 then 0
    else if HasPrefix(s, Entity(k - 1)) then k - 1
    else if Hit(k - 1, s) == k - 1 then k else Hit(k - 1, s)
  }

  /** Decoding the first k entities at the same time, in one pass. */
  function Decode(k: nat, s: string): string
    requires k <= 5
    decreases |s|
  {
    if s == "" then ""
    else
      var j := Hit(k, s);
      if j < k then [Special(j)] + Decode(k, s[|Entity(j)|..]) else s[..1] + Decode(k, s[1..])
  }

  /** No text begins with two different entities. */
  lemma EntitiesDiffer(s: string, i: nat, j: nat)
    requires i < 5 && j < 5 && HasPrefix(s, Entity(i)) && HasPrefix(s, Entity(j))
    ensures i == j
  {
    assert s[1] == s[..|Entity(i)|][1] == Entity(i)[1];
    assert s[1] == s[..|Entity(j)|][1] == Entity(j)[1];
  }

  lemma {:induction false} HitIs(k: nat, s: string, j: nat)
    requires j < k <= 5 && HasPrefix(s, Entity(j))
    ensures Hit(k, s) == j
    decreases k
  {
    if HasPrefix(s, Entity(k - 1)) { EntitiesDiffer(s, j, k - 1); } else { HitIs(k - 1, s, j); }
  }

  ghost predicate Plain(p: string) {
    forall i :: 0 <= i < |p| ==> p[i] !in "&\"'<>"
  }

  /** Decoding neither makes nor removes plain text at the front. */
  lemma {:induction false} PlainFront(k: nat, t: string, p: string)
    requires k <= 5 && Plain(p)
    ensures HasPrefix(Decode(k, t), p) <==> HasPrefix(t, p)
    decreases |p|
  {
    if p != "" && t != "" {
      var d, j := Decode(k, t), Hit(k, t);
      SplitPrefix(d, p);
      SplitPrefix(t, p);
      if j == k {
        PlainFront(k, t[1..], p[1..]);
        assert d[1..] == Decode(k, t[1..]);
      }
    }
  }

  lemma SplitPrefix(s: string, p: string)
    requires s != "" && p != ""
    ensures HasPrefix(s, p) <==> s[0] == p[0] && HasPrefix(s[1..], p[1..])
  {
    if |p| <= |s| {
      assert s[..|p|][0] == s[0] && s[..|p|][1..] == s[1..][..|p|-1];
      assert p == [p[0]] + p[1..] && s[..|p|] == [s[0]] + s[1..][..|p|-1];
    }
  }

  /** Text that the first k entities leave alone is copied. */
  lemma {:induction false} CopyPlain(k: nat, p: string, t: string)
    requires k <= 5 && Plain(p)
    ensures Decode(k, p + t) == p + Decode(k, t)
    decreases |p|
  {
    if p == "" {
      assert p + t == t;
    } else {
      assert (p + t)[1..] == p[1..] + t && (p + t)[..1] == p[..1];
      CopyPlain(k, p[1..], t);
      Regroup(p[..1], p[1..], Decode(k, t));
      assert p[..1] + p[1..] == p;
    }
  }

  /** An entity not decoded yet is copied, an entity to decode becomes its character. */
  lemma EntityFront(k: nat, j: nat, t: string)
    requires k <= 5 && j < 5
    ensures j < k ==> Decode(k, Entity(j) + t) == [Special(j)] + Decode(k, t)
    ensures j >= k ==> Decode(k, Entity(j) + t) == Entity(j) + Decode(k, t)
  {
    var e := Entity(j);
    var s := e + t;
    assert s[..|e|] == e && s[|e|..] == t;
    if j < k {
      HitIs(k, s, j);
    } else {
      if Hit(k, s) < k { EntitiesDiffer(s, Hit(k, s), j); }
      CopyPlain(k, e[1..], t);
      assert s[1..] == e[1..] + t && s[..1] == e[..1];
      Regroup(e[..1], e[1..], Decode(k, t));
      assert e[..1] + e[1..] == e;
    }
  }

  /** One more replacement pass decodes one more entity, in every string. */
  lemma {:induction false} Stage(k: nat, s: string)
    requires k < 5
    ensures ReplaceAll(Decode(k, s), Entity(k), [Special(k)]) == Decode(k + 1, s)
    decreases |s|
  {
    if s != "" {
      var d, e := Decode(k, s), Entity(k);
      if HasPrefix(s, e) {
        var t := s[|e|..];
        assert s == e + t;
        EntityFront(k, k, t);
        EntityFront(k + 1, k, t);
        Stage(k, t);
        assert d[..|e|] == e && d[|e|..] == Decode(k, t);
      } else {
        var t := if Hit(k, s) < k then s[|Entity(Hit(k, s))|..] else s[1..];
        Stage(k, t);
        assert Hit(k + 1, s) == if Hit(k, s) < k then Hit(k, s) else k + 1;
        NoNewEntity(k, s);
        assert d[1..] == Decode(k, t);
      }
    }
  }

  /** Decoding entities never puts another one together. */
  lemma NoNewEntity(k: nat, s: string)
    requires k < 5 && s != "" && !HasPrefix(s, Entity(k))
    ensures !HasPrefix(Decode(k, s), Entity(k))
  {
    var d, e := Decode(k, s), Entity(k);
    SplitPrefix(d, e);
    SplitPrefix(s, e);
    if Hit(k, s) == k {
      assert d[1..] == Decode(k, s[1..]);
      PlainFront(k, s[1..], e[1..]);
    }
  }

  lemma {:induction false} DecodeNone(s: string)
    ensures Decode(0, s) == s
  {
    if s != "" { DecodeNone(s[1..]); }
  }

  lemma Pass(j: nat, what: string, with: string, s: string)
    requires j < 5 && what == Entity(j) && with == [Special(j)]
    ensures ReplaceAll(Decode(j, s), what, with) == Decode(j + 1, s)
  {
    Stage(j, s);
  }

  lemma QuotePasses(s: string)
    ensures ReplaceAll(ReplaceAll(s, "&quot;", "\""), "&#39;", "'") == Decode(2, s)
  {
    DecodeNone(s);
    Pass(0, "&quot;", "\"", s);
    Pass(1, "&#39;", "'", s);
  }

  lemma AnglePasses(s: string)
    ensures ReplaceAll(ReplaceAll(Decode(2, s), "&lt;", "<"), "&gt;", ">") == Decode(4, s)
  {
    Pass(2, "&lt;", "<", s);
    Pass(3, "&gt;", ">", s);
  }

  /** The five passes are one simultaneous pass. */
  lemma DecodeIsOnePass(s: string)
    ensures DecodeSpecialChars(s) == Decode(5, s)
  {
    QuotePasses(s);
    AnglePasses(s);
    Pass(4, "&amp;", "&", s);
  }

  // Encoding

  function Code(c: char): string {
    match c
    case '"' => Entity(0)
    case '\'' => Entity(1)
    case '<' => Entity(2)
    case '>' => Entity(3)
    case '&' => Entity(4)
    case _ => [c]
  }

  /** Encoding character by character. */
  function Encode(s: string): string {
    if s == "" then "" else Code(s[0]) + Encode(s[1..])
  }

  lemma {:induction false} ReplaceSplits(a: string, b: string, c: char, with: string)
    ensures ReplaceAll(a + b, [c], with) == ReplaceAll(a, [c], with) + ReplaceAll(b, [c], with)
    decreases |a|
  {
    if a == "" {
      assert a + b == b;
    } else {
      assert (a + b)[1..] == a[1..] + b && (a + b)[..1] == a[..1];
      ReplaceSplits(a[1..], b, c, with);
      Regroup(if a[..1] == [c] then with else a[..1], ReplaceAll(a[1..], [c], with), ReplaceAll(b, [c], with));
    }
  }

  lemma {:induction false} ReplaceAbsent(s: string, c: char, with: string)
    requires forall i :: 0 <= i < |s| ==> s[i] != c
    ensures ReplaceAll(s, [c], with) == s
  {
    if s != "" {
      assert s[..1] == [s[0]] && s[0] != c;
      ReplaceAbsent(s[1..], c, with);
      assert s[..1] + s[1..] == s;
    }
  }

  lemma EntityStays(j: nat, c: char, with: string)
    requires j < 5 && c in "\"'<>"
    ensures ReplaceAll(Entity(j), [c], with) == Entity(j)
  {
    ReplaceAbsent(Entity(j), c, with);
  }

  lemma ReplaceOne(x: char, c: char, with: string)
    ensures ReplaceAll([x], [c], with) == if x == c then with else [x]
  {
    if x == c { assert [x][1..] == ""; } else { ReplaceAbsent([x], c, with); }
  }

  lemma EncodeSplits(a: string, b: string)
    ensures EncodeSpecialChars(a + b) == EncodeSpecialChars(a) + EncodeSpecialChars(b)
  {
    var a1, b1 := ReplaceAll(a, "&", "&amp;"), ReplaceAll(b, "&", "&amp;");
    var a2, b2 := ReplaceAll(a1, "\"", "&quot;"), ReplaceAll(b1, "\"", "&quot;");
    var a3, b3 := ReplaceAll(a2, "'", "&#39;"), ReplaceAll(b2, "'", "&#39;");
    var a4, b4 := ReplaceAll(a3, "<", "&lt;"), ReplaceAll(b3, "<", "&lt;");
    ReplaceSplits(a, b, '&', "&amp;");
    ReplaceSplits(a1, b1, '"', "&quot;");
    ReplaceSplits(a2, b2, '\'', "&#39;");
    ReplaceSplits(a3, b3, '<', "&lt;");
    ReplaceSplits(a4, b4, '>', "&gt;");
  }

  lemma EncodeAmpersand()
    ensures EncodeSpecialChars("&") == Entity(4)
  {
    ReplaceOne('&', '&', "&amp;");
    EntityStays(4, '"', "&quot;");
    EntityStays(4, '\'', "&#39;");
    EntityStays(4, '<', "&lt;");
    EntityStays(4, '>', "&gt;");
  }

  lemma EncodeQuotes()
    ensures EncodeSpecialChars("\"") == Entity(0) && EncodeSpecialChars("'") == Entity(1)
  {
    ReplaceOne('"', '&', "&amp;");
    ReplaceOne('"', '"', "&quot;");
    EntityStays(0, '\'', "&#39;");
    EntityStays(0, '<', "&lt;");
    EntityStays(0, '>', "&gt;");
    ReplaceOne('\'', '&', "&amp;");
    ReplaceOne('\'', '"', "&quot;");
    ReplaceOne('\'', '\'', "&#39;");
    EntityStays(1, '<', "&lt;");
    EntityStays(1, '>', "&gt;");
  }

  /** No later pass touches the entity an earlier one wrote. */
  lemma EncodeOne(c: char)
    ensures EncodeSpecialChars([c]) == Code(c)
  {
    if c == '&' {
      EncodeAmpersand();
    } else if c == '"' || c == '\'' {
      EncodeQuotes();
    } else {
      ReplaceOne(c, '&', "&amp;");
      ReplaceOne(c, '"', "&quot;");
      ReplaceOne(c, '\'', "&#39;");
      ReplaceOne(c, '<', "&lt;");
      if c == '<' { EntityStays(2, '>', "&gt;"); } else { ReplaceOne(c, '>', "&gt;"); }
    }
  }

  /** The five passes encode character by character. */
  lemma {:induction false} EncodeIsCharwise(s: string)
    ensures EncodeSpecialChars(s) == Encode(s)
  {
    if s != "" {
      assert s == [s[0]] + s[1..];
      EncodeSplits([s[0]], s[1..]);
      EncodeOne(s[0]);
      EncodeIsCharwise(s[1..]);
    }
  }

  // Round trips

  lemma CodeFront(c: char, t: string)
    ensures Decode(5, Code(c) + t) == [c] + Decode(5, t)
  {
    if j: nat :| j < 5 && c == Special(j) {
      assert Code(c) == Entity(j);
      EntityFront(5, j, t);
    } else {
      assert c != Special(0) && c != Special(1) && c != Special(2) && c != Special(3) && c != Special(4);
      CopyPlain(5, [c], t);
    }
  }

  lemma {:induction false} DecodeEncode(s: string)
    ensures Decode(5, Encode(s)) == s
  {
    if s != "" {
      CodeFront(s[0], Encode(s[1..]));
      DecodeEncode(s[1..]);
    }
  }

  /** What was encoded is decoded to itself, for every string. */
  lemma RoundTrip(s: string)
    ensures DecodeSpecialChars(EncodeSpecialChars(s)) == s
  {
    EncodeIsCharwise(s);
    DecodeIsOnePass(Encode(s));
    DecodeEncode(s);
  }

  /** No special character except the ampersands that begin an entity. */
  ghost predicate Canonical(t: string)
    decreases |t|
  {
    || t == ""
    || (Hit(5, t) < 5 && Canonical(t[|Entity(Hit(5, t))|..]))
    || (t[0] !in "&\"'<>" && Canonical(t[1..]))
  }

  lemma CanonicalFront(c: char, t: string)
    requires Canonical(t)
    ensures Canonical(Code(c) + t)
  {
    var s := Code(c) + t;
    if j: nat :| j < 5 && c == Special(j) {
      assert Code(c) == Entity(j);
      assert s[..|Entity(j)|] == Entity(j) && s[|Entity(j)|..] == t;
      HitIs(5, s, j);
    } else {
      assert c != Special(0) && c != Special(1) && c != Special(2) && c != Special(3) && c != Special(4);
      assert s[1..] == t;
    }
  }

  lemma {:induction false} EncodedIsCanonical(s: string)
    ensures Canonical(Encode(s))
  {
    if s != "" {
      EncodedIsCanonical(s[1..]);
      CanonicalFront(s[0], Encode(s[1..]));
    }
  }

  lemma CodeOfSpecial(j: nat)
    requires j < 5
    ensures Code(Special(j)) == Entity(j)
  {
  }

  lemma EncodeFirst(c: char, t: string)
    ensures Encode([c] + t) == Code(c) + Encode(t)
  {
    assert ([c] + t)[1..] == t;
  }

  lemma EncodeEntity(t: string, j: nat)
    requires j == Hit(5, t) < 5
    ensures Encode(Decode(5, t)) == Entity(j) + Encode(Decode(5, t[|Entity(j)|..]))
  {
    CodeOfSpecial(j);
    EncodeFirst(Special(j), Decode(5, t[|Entity(j)|..]));
  }

  lemma EncodePlain(t: string)
    requires t != "" && t[0] !in "&\"'<>"
    ensures Encode(Decode(5, t)) == t[..1] + Encode(Decode(5, t[1..]))
  {
    EncodeFirst(t[0], Decode(5, t[1..]));
    assert t[..1] == [t[0]];
  }

  lemma {:induction false} EncodeDecode(t: string)
    requires Canonical(t)
    ensures Encode(Decode(5, t)) == t
    decreases |t|
  {
    if t != "" {
      var j := Hit(5, t);
      if j < 5 {
        EncodeEntity(t, j);
        EncodeDecode(t[|Entity(j)|..]);
      } else {
        EncodePlain(t);
        EncodeDecode(t[1..]);
      }
    }
  }

  /** The other way round only for text that an encoding could have produced. */
  lemma ReverseRoundTripIff(t: string)
    ensures EncodeSpecialChars(DecodeSpecialChars(t)) == t <==> Canonical(t)
  {
    DecodeIsOnePass(t);
    EncodeIsCharwise(Decode(5, t));
    EncodedIsCanonical(Decode(5, t));
    if Canonical(t) { EncodeDecode(t); }
  }
}
