/**
 * Named parameters for MySQL (storage/mysql/helper.go:770-815). The converter finds all matches of
 * `:[a-zA-Z0-9_]+` at once and then, match by match, replaces the first place where that text occurs.
 */
module MySqlParams {
  import opened Collections
  import opened Decimal
  import opened SqlNames

  /** A match begins here. */
  predicate Starts(s: string) {
    |s| > 1 && s[0] == ':' && IsNamedParamChar(s[1])
  }

  /** The length of the match s begins with: the colon and all the name characters after it. */
  function MatchLength(s: string): (n: nat)
    requires Starts(s)
    ensures 2 <= n <= |s|
  {
    1 + NameLength(s[1..])
  }

  /** The matches, leftmost first and not overlapping. */
  function Matches(s: string): seq<string>
    decreases |s|
  {
    if s == "" then []
    else if Starts(s) then [s[..MatchLength(s)]] + Matches(s[MatchLength(s)..])
    else Matches(s[1..])
  }

  /** One rewrite from left to right. */
  function OnePass(s: string): string
    decreases |s|
  {
    if s == "" then ""
    else if Starts(s) then "?" + OnePass(s[MatchLength(s)..])
    else s[..1] + OnePass(s[1..])
  }

  /** What lies around the matches. */
  function Pieces(s: string): (r: seq<string>)
    ensures r != []
    decreases |s|
  {
    if s == "" then [""]
    else if Starts(s) then [""] + Pieces(s[MatchLength(s)..])
    else
      var rest := Pieces(s[1..]);
      [s[..1] + rest[0]] + rest[1..]
  }

  function Weave(pieces: seq<string>, fill: seq<string>): string
    requires |pieces| == |fill| + 1
  {
    if fill == [] then pieces[0] else pieces[0] + (fill[0] + Weave(pieces[1..], fill[1..]))
  }

  function Marks(n: nat): (r: seq<string>)
    ensures |r| == n
  {
    if n == 0 then [] else ["?"] + Marks(n - 1)
  }

  lemma {:induction false} PiecesFit(s: string)
    ensures |Pieces(s)| == |Matches(s)| + 1
    decreases |s|
  {
    if s != "" { PiecesFit(if Starts(s) then s[MatchLength(s)..] else s[1..]); }
  }

  lemma WeaveGrows(c: string, pieces: seq<string>, fill: seq<string>)
    requires |pieces| == |fill| + 1
    ensures Weave([c + pieces[0]] + pieces[1..], fill) == c + Weave(pieces, fill)
  {
    if fill != [] {
      assert ([c + pieces[0]] + pieces[1..])[1..] == pieces[1..];
      Regroup(c, pieces[0], fill[0] + Weave(pieces[1..], fill[1..]));
    }
  }

  lemma WeaveNext(pieces: seq<string>, text: string, fill: seq<string>)
    requires |pieces| == |fill| + 1
    ensures Weave([""] + pieces, [text] + fill) == text + Weave(pieces, fill)
  {
    assert ([""] + pieces)[1..] == pieces && ([text] + fill)[1..] == fill;
    assert "" + (text + Weave(pieces, fill)) == text + Weave(pieces, fill);
  }

  /** Filled with the matches the pieces are the query; filled with question marks they are the rewrite. */
  ghost predicate Restores(s: string) {
    && |Pieces(s)| == |Matches(s)| + 1
    && Weave(Pieces(s), Matches(s)) == s
    && Weave(Pieces(s), Marks(|Matches(s)|)) == OnePass(s)
  }

  lemma RestoresMatch(s: string)
    requires Starts(s) && Restores(s[MatchLength(s)..])
    ensures Restores(s)
  {
    var n := MatchLength(s);
    PiecesFit(s);
    WeaveNext(Pieces(s[n..]), s[..n], Matches(s[n..]));
    WeaveNext(Pieces(s[n..]), "?", Marks(|Matches(s[n..])|));
  }

  lemma RestoresPlain(s: string)
    requires s != "" && !Starts(s) && Restores(s[1..])
    ensures Restores(s)
  {
    PiecesFit(s);
    WeaveGrows(s[..1], Pieces(s[1..]), Matches(s));
    WeaveGrows(s[..1], Pieces(s[1..]), Marks(|Matches(s)|));
  }

  lemma {:induction false} PiecesRestore(s: string)
    ensures Restores(s)
    decreases |s|
  {
    if s != "" {
      if Starts(s) {
        PiecesRestore(s[MatchLength(s)..]);
        RestoresMatch(s);
      } else {
        PiecesRestore(s[1..]);
        RestoresPlain(s);
      }
    }
  }

  // Replacing first occurrences one after the other

  lemma {:induction false} MatchesBegin(s: string)
    requires Matches(s) != []
    ensures Starts(Matches(s)[0])
    decreases |s|
  {
    if !Starts(s) { MatchesBegin(s[1..]); }
  }

  lemma PrefixStarts(s: string, m: string)
    ensures HasPrefix(s, m) && Starts(m) ==> Starts(s)
  {
    if HasPrefix(s, m) && Starts(m) { assert s[..|m|][0] == m[0] && s[..|m|][1] == m[1]; }
  }

  /** A replacement that begins s is either s's own first character or the question mark. */
  lemma ReplaceHead(s: string, what: string)
    requires s != "" && what != ""
    ensures var r := ReplaceFirst(s, what, "?"); r != "" && (r[0] == s[0] || r[0] == '?')
  {
  }

  /** The text of the first match occurs nowhere before it, so the replacement hits the match and uncovers no other. */
  lemma {:induction false} ReplaceStep(s: string)
    requires Matches(s) != []
    ensures Starts(Matches(s)[0])
    ensures var r := ReplaceFirst(s, Matches(s)[0], "?"); OnePass(r) == OnePass(s) && Matches(r) == Matches(s)[1..]
    decreases |s|
  {
    MatchesBegin(s);
    var m := Matches(s)[0];
    var r := ReplaceFirst(s, m, "?");
    if Starts(s) {
      assert r == "?" + s[|m|..];
      assert r[1..] == s[|m|..];
    } else {
      ReplaceStep(s[1..]);
      PrefixStarts(s, m);
      var t := ReplaceFirst(s[1..], m, "?");
      assert r == s[..1] + t;
      ReplaceHead(s[1..], m);
      assert r[0] == s[0] && r[1] == t[0] && r[1..] == t;
    }
  }

  lemma {:induction false} NoMatches(s: string)
    requires Matches(s) == []
    ensures OnePass(s) == s
  {
    if s != "" { NoMatches(s[1..]); }
  }

  /** Match by match equals one rewrite from left to right, whatever the names have in common. */
  method ConvertQueryAndNamedParams<V>(query: string, params: seq<map<string, V>>) returns (sql: string, values: seq<Option<V>>)
    ensures sql == OnePass(query) && values == Bound(Merged(params), Matches(query))
  {
    var allParams := MergeNamedParams(params);
    var matches := Matches(query);
    sql, values := query, [];
    for j := 0 to |matches|
      invariant Matches(sql) == matches[j..] && OnePass(sql) == OnePass(query)
      invariant values == Bound(allParams, matches[..j])
    {
      var match' := matches[j];
      ReplaceStep(sql);
      sql := ReplaceFirst(sql, match', "?");
      values := values + [if match' in allParams then Some(allParams[match']) else None];
    }
    NoMatches(sql);
    assert matches[..|matches|] == matches;
  }

  // The IN clause

  function Key(column: string, i: nat): (k: string)
    ensures k != ""
  {
    ":" + column + Itoa(i + 1)
  }

  function Keys(column: string, i: nat, n: nat): (r: seq<string>)
    requires i <= n
    ensures |r| == n - i && forall j :: 0 <= j < n - i ==> r[j] == Key(column, i + j)
    decreases n - i
  {
    if i == n then [] else [Key(column, i)] + Keys(column, i + 1, n)
  }

  function Commas(parts: seq<string>): string {
    if parts == [] then "" else if |parts| == 1 then parts[0] else parts[0] + "," + Commas(parts[1..])
  }

  lemma KeysDiffer(column: string, i: nat, j: nat)
    requires Key(column, i) == Key(column, j)
    ensures i == j
  {
    assert Key(column, i)[|column|+1..] == Itoa(i + 1) && Key(column, j)[|column|+1..] == Itoa(j + 1);
    ItoaInjective(i + 1, j + 1);
  }

  lemma {:induction false} CommasSnoc(parts: seq<string>, part: string)
    requires parts != []
    ensures Commas(parts + [part]) == Commas(parts) + "," + part
  {
    if |parts| == 1 {
      assert parts + [part] == [parts[0], part];
    } else {
      assert (parts + [part])[1..] == parts[1..] + [part];
      CommasSnoc(parts[1..], part);
      Regroup(parts[0] + ",", Commas(parts[1..]), "," + part);
      Regroup(Commas(parts[1..]), ",", part);
      Regroup(Commas(parts), ",", part);
    }
  }

  function TrimComma(s: string): string {
    if s != "" && s[|s|-1] == ',' then s[..|s|-1] else s
  }

  lemma {:induction false} KeysSnoc(column: string, i: nat, n: nat)
    requires i <= n
    ensures Keys(column, i, n + 1) == Keys(column, i, n) + [Key(column, n)]
    decreases n - i
  {
    if i < n { KeysSnoc(column, i + 1, n); }
  }

  /** What the builder holds after n keys. */
  function Built(column: string, n: nat): string {
    if n == 0 then "" else Built(column, n - 1) + (Key(column, n - 1) + ",")
  }

  lemma {:induction false} BuiltIs(column: string, n: nat)
    ensures Built(column, n) == if n == 0 then "" else Commas(Keys(column, 0, n)) + ","
  {
    if n > 0 {
      var key := Key(column, n - 1);
      BuiltIs(column, n - 1);
      KeysSnoc(column, 0, n - 1);
      if n == 1 {
        assert Keys(column, 0, 1) == [key];
      } else {
        CommasSnoc(Keys(column, 0, n - 1), key);
        Regroup(Commas(Keys(column, 0, n - 1)) + ",", key, ",");
      }
    }
  }

  function KeyMap<V>(column: string, values: seq<V>): map<string, V> {
    if values == [] then map[]
    else KeyMap(column, values[..|values|-1])[Key(column, |values| - 1) := values[|values|-1]]
  }

  /** Every key keeps its own value: no later key overwrites it. */
  lemma {:induction false} KeyMapAt<V>(column: string, values: seq<V>, i: nat)
    requires i < |values|
    ensures Key(column, i) in KeyMap(column, values) && KeyMap(column, values)[Key(column, i)] == values[i]
    decreases |values|
  {
    if i < |values| - 1 {
      KeyMapAt(column, values[..|values|-1], i);
      if Key(column, i) == Key(column, |values| - 1) {
        KeysDiffer(column, i, |values| - 1);
        assert false;
      }
    }
  }

  method GetParameterizedInClause<V>(column: string, values: seq<V>) returns (clause: string, params: map<string, V>)
    ensures clause == Commas(Keys(column, 0, |values|)) && params == KeyMap(column, values)
  {
    params := map[];
    var builder := "";
    for index := 0 to |values|
      invariant builder == Built(column, index) && params == KeyMap(column, values[..index])
    {
      var key := Key(column, index);
      builder := builder + (key + ",");
      assert values[..index+1][..index] == values[..index];
      params := params[key := values[index]];
    }
    assert values[..|values|] == values;
    BuiltIs(column, |values|);
    clause := TrimComma(builder);
  }

  lemma {:induction false} NameLengthAcross(a: string, t: string)
    requires t != "" && !IsNamedParamChar(t[0])
    ensures NameLength(a + t) == NameLength(a)
  {
    if a == "" {
      assert a + t == t;
    } else {
      assert (a + t)[0] == a[0] && (a + t)[1..] == a[1..] + t;
      NameLengthAcross(a[1..], t);
    }
  }

  lemma SameStart(a: string, t: string)
    requires a != "" && t != "" && !IsNamedParamChar(t[0])
    ensures Starts(a + t) <==> Starts(a)
    ensures Starts(a) ==> MatchLength(a + t) == MatchLength(a) && (a + t)[..MatchLength(a)] == a[..MatchLength(a)]
    ensures Starts(a) ==> (a + t)[MatchLength(a)..] == a[MatchLength(a)..] + t
    ensures (a + t)[1..] == a[1..] + t && (a + t)[..1] == a[..1]
  {
    assert (a + t)[1..] == a[1..] + t;
    NameLengthAcross(a[1..], t);
  }

  /** A character outside names ends every name, so what stands before it is rewritten independently. */
  lemma {:induction false} AcrossBreak(a: string, t: string)
    requires t != "" && !IsNamedParamChar(t[0])
    ensures OnePass(a + t) == OnePass(a) + OnePass(t)
    ensures Matches(a + t) == Matches(a) + Matches(t)
    decreases |a|
  {
    if a == "" {
      assert a + t == t;
    } else {
      SameStart(a, t);
      if Starts(a) {
        var n := MatchLength(a);
        AcrossBreak(a[n..], t);
        Regroup("?", OnePass(a[n..]), OnePass(t));
        Regroup([a[..n]], Matches(a[n..]), Matches(t));
      } else {
        AcrossBreak(a[1..], t);
        Regroup(a[..1], OnePass(a[1..]), OnePass(t));
      }
    }
  }

  lemma CommaStep(s: string)
    ensures OnePass("," + s) == "," + OnePass(s) && Matches("," + s) == Matches(s)
  {
    assert ("," + s)[1..] == s && ("," + s)[..1] == ",";
  }

  ghost predicate AllName(s: string) {
    forall i :: 0 <= i < |s| ==> IsNamedParamChar(s[i])
  }

  lemma KeyIsName(column: string, i: nat)
    ensures AllName(Key(column, i)[1..]) <==> AllName(column)
  {
    var k, digits := Key(column, i)[1..], Itoa(i + 1);
    assert k == column + digits;
    if AllName(column) {
      forall j | 0 <= j < |k| ensures IsNamedParamChar(k[j]) {
        if j >= |column| { assert k[j] == digits[j - |column|] && IsDigit(digits[j - |column|]); }
      }
    }
    if AllName(k) {
      forall j | 0 <= j < |column| ensures IsNamedParamChar(column[j]) { assert column[j] == k[j]; }
    }
  }

  lemma {:induction false} OnePassKeeps(s: string)
    ensures s != "" ==> OnePass(s) != ""
  {
  }

  /** A key becomes a single question mark exactly when its column is made of name characters. */
  lemma KeyRewrites(column: string, i: nat)
    ensures AllName(column) ==> OnePass(Key(column, i)) == "?" && Matches(Key(column, i)) == [Key(column, i)]
    ensures !AllName(column) ==> |OnePass(Key(column, i))| >= 2
  {
    var k := Key(column, i);
    KeyIsName(column, i);
    assert |k| >= 2 && k[0] == ':';
    if AllName(column) {
      assert NameLength(k[1..]) == |k| - 1;
      assert k[..|k|] == k && k[|k|..] == "";
    } else if Starts(k) {
      var n := MatchLength(k);
      assert n < |k|;
      OnePassKeeps(k[n..]);
    } else {
      OnePassKeeps(k[1..]);
    }
  }

  lemma ClauseStep(column: string, i: nat, n: nat)
    requires i + 1 < n
    ensures var rest := Commas(Keys(column, i + 1, n));
            && OnePass(Commas(Keys(column, i, n))) == OnePass(Key(column, i)) + "," + OnePass(rest)
            && Matches(Commas(Keys(column, i, n))) == Matches(Key(column, i)) + Matches(rest)
  {
    var key, rest := Key(column, i), Commas(Keys(column, i + 1, n));
    assert Keys(column, i, n)[1..] == Keys(column, i + 1, n);
    AcrossBreak(key, "," + rest);
    CommaStep(rest);
    Regroup(key, ",", rest);
    Regroup(OnePass(key), ",", OnePass(rest));
  }

  lemma MarksStep(n: nat)
    requires n > 1
    ensures Commas(Marks(n)) == "?" + "," + Commas(Marks(n - 1))
  {
    assert Marks(n)[1..] == Marks(n - 1);
  }

  ghost predicate Rewrites(column: string, i: nat, n: nat)
    requires i <= n
  {
    var c := Commas(Keys(column, i, n));
    OnePass(c) == Commas(Marks(n - i)) && Matches(c) == Keys(column, i, n)
  }

  lemma RewritesMore(column: string, i: nat, n: nat)
    requires i + 1 < n && AllName(column) && Rewrites(column, i + 1, n)
    ensures Rewrites(column, i, n)
  {
    KeyRewrites(column, i);
    ClauseStep(column, i, n);
    MarksStep(n - i);
  }

  lemma {:induction false} ClauseRewrites(column: string, i: nat, n: nat)
    requires i < n && AllName(column)
    ensures Rewrites(column, i, n)
    decreases n - i
  {
    if i + 1 < n {
      ClauseRewrites(column, i + 1, n);
      RewritesMore(column, i, n);
    } else {
      KeyRewrites(column, i);
      assert Keys(column, i, n) == [Key(column, i)] && Marks(1) == ["?"];
    }
  }

  lemma {:induction false} ClauseTooLong(column: string, i: nat, n: nat)
    requires i < n && !AllName(column)
    ensures |OnePass(Commas(Keys(column, i, n)))| >= 3 * (n - i) - 1
    decreases n - i
  {
    KeyRewrites(column, i);
    if i + 1 < n {
      ClauseTooLong(column, i + 1, n);
      ClauseStep(column, i, n);
    } else {
      assert Keys(column, i, n) == [Key(column, i)];
    }
  }

  lemma {:induction false} MarksLength(n: nat)
    ensures |Commas(Marks(n))| == if n == 0 then 0 else 2 * n - 1
  {
    if n > 0 {
      MarksLength(n - 1);
      assert Marks(n)[1..] == Marks(n - 1);
    }
  }

  lemma ClauseIff(column: string, n: nat)
    requires n > 0
    ensures OnePass(Commas(Keys(column, 0, n))) == Commas(Marks(n)) <==> AllName(column)
  {
    if AllName(column) { ClauseRewrites(column, 0, n); } else { ClauseTooLong(column, 0, n); }
    MarksLength(n);
  }

  lemma {:induction false} OnePassOfName(p: string)
    requires AllName(p)
    ensures OnePass(p) == p
  {
    if p != "" { OnePassOfName(p[1..]); }
  }

  lemma {:induction false} NameLengthStays(a: string, p: string)
    requires NameLength(a) < |a|
    ensures NameLength(a + p) == NameLength(a)
  {
    if IsNamedParamChar(a[0]) {
      NameLengthStays(a[1..], p);
      assert (a + p)[1..] == a[1..] + p;
    }
  }

  lemma NameLengthAll(s: string)
    requires AllName(s)
    ensures NameLength(s) == |s|
  {
  }

  /** Name characters put after a text either join its last match or are copied. */
  ghost predicate Joins(s: string, p: string) {
    var r := OnePass(s);
    r != "" && if Last(r) == '?' then OnePass(s + p) == r else IsNamedParamChar(Last(r)) && OnePass(s + p) == r + p
  }

  lemma JoinsLater(s: string, head: string, rest: string, p: string)
    requires OnePass(s) == head + OnePass(rest) && OnePass(s + p) == head + OnePass(rest + p) && Joins(rest, p)
    ensures Joins(s, p)
  {
    Regroup(head, OnePass(rest), p);
  }

  lemma JoinsWhole(s: string, p: string)
    requires Starts(s) && MatchLength(s) == |s| && AllName(p)
    ensures Joins(s, p)
  {
    assert (s + p)[1..] == s[1..] + p;
    assert AllName(s[1..] + p);
    NameLengthAll(s[1..] + p);
    assert s[|s|..] == "" && (s + p)[|s + p|..] == "";
  }

  lemma JoinsMatch(s: string, p: string)
    requires Starts(s) && MatchLength(s) < |s| && Joins(s[MatchLength(s)..], p)
    ensures Joins(s, p)
  {
    var n := MatchLength(s);
    assert (s + p)[1..] == s[1..] + p && (s + p)[n..] == s[n..] + p;
    NameLengthStays(s[1..], p);
    JoinsLater(s, "?", s[n..], p);
  }

  lemma {:induction false} JoinsOrCopied(s: string, p: string)
    requires s != "" && IsNamedParamChar(Last(s)) && AllName(p)
    ensures Joins(s, p)
    decreases |s|
  {
    if Starts(s) {
      if MatchLength(s) == |s| {
        JoinsWhole(s, p);
      } else {
        JoinsOrCopied(s[MatchLength(s)..], p);
        JoinsMatch(s, p);
      }
    } else if |s| == 1 {
      OnePassOfName(s);
      OnePassOfName(s + p);
    } else {
      JoinsOrCopied(s[1..], p);
      assert (s + p)[1..] == s[1..] + p && (s + p)[..1] == s[..1];
      JoinsLater(s, s[..1], s[1..], p);
    }
  }

  lemma {:induction false} ClauseEnds(column: string, i: nat, n: nat)
    requires i < n
    ensures var c := Commas(Keys(column, i, n)); c != "" && c[0] == ':' && IsNamedParamChar(Last(c))
    decreases n - i
  {
    if i + 1 < n {
      ClauseEnds(column, i + 1, n);
      assert Keys(column, i, n)[1..] == Keys(column, i + 1, n);
    } else {
      assert Keys(column, i, n) == [Key(column, i)];
      var digits := Itoa(i + 1);
      assert Last(Key(column, i)) == Last(digits) && IsDigit(Last(digits));
    }
  }

  lemma {:induction false} MarksEnd(n: nat)
    requires n > 0
    ensures Commas(Marks(n)) != "" && Last(Commas(Marks(n))) == '?'
  {
    if n > 1 {
      MarksEnd(n - 1);
      assert Marks(n)[1..] == Marks(n - 1);
    } else {
      assert Marks(1) == ["?"];
    }
  }

  /** With name characters glued to its end, the clause never becomes question marks followed by those characters. */
  lemma GluedNeverConverts(column: string, n: nat, p: string)
    requires n > 0 && p != "" && AllName(p)
    ensures OnePass(Commas(Keys(column, 0, n)) + p) != Commas(Marks(n)) + p
  {
    var c, m := Commas(Keys(column, 0, n)), Commas(Marks(n));
    ClauseEnds(column, 0, n);
    MarksEnd(n);
    JoinsOrCopied(c, p);
    assert Last(m + p) == Last(p);
    if OnePass(c + p) == m + p && OnePass(c + p) == OnePass(c) + p { Cancel(OnePass(c), m, p); }
  }

  lemma Cancel(a: string, b: string, t: string)
    ensures a + t == b + t <==> a == b
  {
    if a + t == b + t { assert a == (a + t)[..|a|] == (b + t)[..|b|] == b; }
  }

  /** A text splits where its leading name characters end. */
  lemma SplitPost(s: string, post: string)
    ensures var m := NameLength(post);
      && OnePass(s + post) == OnePass(s + post[..m]) + OnePass(post[m..])
      && OnePass(post) == post[..m] + OnePass(post[m..])
  {
    var m := NameLength(post);
    var p, q := post[..m], post[m..];
    OnePassOfName(p);
    assert p + q == post && s + post == (s + p) + q;
    if q == "" {
      assert s + post == s + p && p == post;
    } else {
      AcrossBreak(s + p, q);
      AcrossBreak(p, q);
    }
  }

  /** What stands before the clause does not reach into it. */
  lemma SplitPre(pre: string, clause: string, post: string)
    requires clause != "" && clause[0] == ':'
    ensures OnePass(pre + clause + post) == OnePass(pre) + OnePass(clause + post)
    ensures Matches(pre + clause + post) == Matches(pre) + Matches(clause + post)
  {
    Regroup(pre, clause, post);
    AcrossBreak(pre, clause + post);
  }

  /** Clause and what follows it. */
  lemma TailIff(column: string, n: nat, post: string)
    requires n > 0
    ensures OnePass(Commas(Keys(column, 0, n)) + post) == Commas(Marks(n)) + OnePass(post) <==>
            AllName(column) && (post == "" || !IsNamedParamChar(post[0]))
  {
    var c, m := Commas(Keys(column, 0, n)), Commas(Marks(n));
    var p, q := post[..NameLength(post)], post[NameLength(post)..];
    SplitPost(c, post);
    Regroup(m, p, OnePass(q));
    Cancel(OnePass(c + p), m + p, OnePass(q));
    if p == "" {
      assert c + p == c && m + p == m;
      ClauseIff(column, n);
    } else {
      GluedNeverConverts(column, n, p);
    }
  }

  /**
   * A non-empty list written into a query converts to ?,?,...,? exactly when the column is made of name characters and
   * no name character follows the clause. What stands before it does not matter.
   */
  lemma InClauseIff(pre: string, column: string, n: nat, post: string)
    requires n > 0
    ensures OnePass(pre + Commas(Keys(column, 0, n)) + post) == OnePass(pre) + (Commas(Marks(n)) + OnePass(post)) <==>
            AllName(column) && (post == "" || !IsNamedParamChar(post[0]))
  {
    var c, m := Commas(Keys(column, 0, n)), Commas(Marks(n));
    ClauseEnds(column, 0, n);
    SplitPre(pre, c, post);
    TailIff(column, n, post);
    CancelFront(OnePass(pre), OnePass(c + post), m + OnePass(post));
  }

  /** Its names are then found between those of the rest of the query. */
  lemma InClauseMatches(pre: string, column: string, n: nat, post: string)
    requires n > 0 && AllName(column) && (post == "" || !IsNamedParamChar(post[0]))
    ensures Matches(pre + Commas(Keys(column, 0, n)) + post) == Matches(pre) + (Keys(column, 0, n) + Matches(post))
  {
    var c := Commas(Keys(column, 0, n));
    ClauseEnds(column, 0, n);
    SplitPre(pre, c, post);
    ClauseRewrites(column, 0, n);
    if post == "" { assert c + post == c; } else { AcrossBreak(c, post); }
  }

  /** And then the values come out in the order they were given. */
  lemma InClauseBinds<V>(column: string, values: seq<V>, i: nat)
    requires AllName(column) && i < |values|
    ensures var matches := Matches(Commas(Keys(column, 0, |values|)));
            |matches| == |values| && Bound(KeyMap(column, values), matches)[i] == Some(values[i])
  {
    ClauseRewrites(column, 0, |values|);
    KeyMapAt(column, values, i);
  }

  /** A qualified column: the dot ends the name. */
  lemma QualifiedColumnExample()
    ensures OnePass(Commas(Keys("t.c", 0, 1))) != Commas(Marks(1))
  {
    assert !IsNamedParamChar("t.c"[1]);
    ClauseIff("t.c", 1);
  }
}
