/**
 * The scanner that rewrites `:name` parameters for Postgres (storage/postgres/pghelper.go:643-799, 887-909),
 * proved to produce the text and the values that PgLexer gives.
 */
module PgNamedParams {
  import opened Collections
  import opened Decimal
  import opened PgLexer
  import opened SqlNames

  /** The number given to each name. */
  function Numbers(names: seq<string>): map<string, nat> {
    if names == [] then map[] else Numbers(names[..|names|-1])[names[|names|-1] := |names|]
  }

  lemma NumbersSnoc(names: seq<string>, name: string)
    ensures Numbers(names + [name]) == Numbers(names)[name := |names| + 1]
  {
    assert (names + [name])[..|names|] == names;
  }

  lemma {:induction false} NumbersAre(names: seq<string>, name: string)
    requires Distinct(names)
    ensures name in Numbers(names) <==> name in names
    ensures name in names ==> Numbers(names)[name] == IndexOf(names, name) + 1
  {
    if names != [] {
      var init, z := names[..|names|-1], names[|names|-1];
      assert names == init + [z];
      NumbersAre(init, name);
      if name in init { IndexOfPrefix(init, [z], name); } else { IndexOfBound(init, z, name); }
    }
  }

  lemma BoundSnoc<V>(params: map<string, V>, names: seq<string>, name: string)
    ensures Bound(params, names + [name]) == Bound(params, names) + Bound(params, [name])
  {
  }

  /** The value sent as argument k is the parameter of the name written as $k. */
  lemma PlaceholderBinds<V>(params: map<string, V>, s: seq<string>, name: string)
    requires name in s
    ensures var names := AddNew([], s); var k := IndexOf(names, name) + 1;
            && Placeholder(names, name) == "$" + Itoa(k) && 1 <= k <= |names|
            && Bound(params, names)[k-1] == if name in params then Some(params[name]) else None
  {
    AddNewHolds([], s, name);
    IndexOfPrefix(AddNew([], s), [], name);
  }

  method NamedParamEnd(query: string, start: nat) returns (end: nat)
    requires start <= |query|
    ensures end == start + NameLength(query[start..])
  {
    end := start;
    while end < |query| && IsNamedParamChar(query[end])
      invariant start <= end <= |query|
      invariant start + NameLength(query[start..]) == end + NameLength(query[end..])
    {
      assert query[end..][1..] == query[end+1..];
      end := end + 1;
    }
  }

  method ParseDollarTag(s: string) returns (tag: Option<string>)
    ensures tag == DollarTag(s)
  {
    if |s| < 2 || s[0] != '$' {
      return None;
    }
    var j := 1;
    while j < |s| && s[j] != '$'
      invariant 1 <= j <= |s|
      invariant 1 + NameLength(s[1..]) == j + NameLength(s[j..])
    {
      assert s[j..][1..] == s[j+1..];
      if IsNamedParamChar(s[j]) {
        j := j + 1;
        continue;
      }
      return None;
    }
    if j < |s| && s[j] == '$' {
      return Some(s[..j+1]);
    }
    return None;
  }

  lemma NextColon(s: string)
    requires s != "" && s[0] == ':' && !(|s| > 1 && s[1] == ':')
    ensures var n := NameLength(s[1..]);
            Next(Plain, s) == Move(if n == 0 then Text(":") else Param(s[..n+1]), n + 1, Plain)
  {
    assert s[..1] == ":";
  }

  class Converter<V> {
    const query: string
    const params: map<string, V>
    var out: string
    var ordered: seq<Option<V>>
    var seen: map<string, nat>
    var argPos: nat
    var index: nat
    var inSingleQuote: bool
    var inDollarQuote: bool
    var dollarTag: string
    ghost var names: seq<string>

    function CurrentMode(): Mode
      reads this
    {
      if inDollarQuote then InDollar(dollarTag) else if inSingleQuote then InLiteral else Plain
    }

    /** The numbers and the values follow the names met so far. */
    ghost predicate Bookkept()
      reads this
    {
      && Distinct(names) && seen == Numbers(names) && argPos == |names| + 1
      && ordered == Bound(params, names)
    }

    ghost predicate Valid()
      reads this
    {
      && index <= |query|
      && !(inSingleQuote && inDollarQuote)
      && ValidMode(CurrentMode())
      && Bookkept()
    }

    constructor (query: string, params: map<string, V>)
      ensures Valid() && this.query == query && this.params == params
      ensures out == "" && names == [] && index == 0 && CurrentMode() == Plain
    {
      this.query, this.params := query, params;
      out, ordered, seen, argPos, index, names := "", [], map[], 1, 0, [];
      inSingleQuote, inDollarQuote, dollarTag := false, false, "";
    }

    /** The scanner has made exactly the move that its mode and the rest of the query call for. */
    twostate predicate Moved()
      requires old(Valid()) && old(index) < |query|
      reads this
    {
      var v := Next(old(CurrentMode()), query[old(index)..]);
      && Valid()
      && index == old(index) + v.length
      && out == old(out) + Written(old(names), v.token)
      && names == Note(old(names), v.token)
      && CurrentMode() == v.mode
    }

    method HandleDollarQuote() returns (done: bool)
      requires Valid() && index < |query|
      modifies this`index, this`out, this`inDollarQuote, this`dollarTag
      ensures done ==> Moved()
      ensures !done ==> unchanged(this)
      ensures done <==> old(
                match CurrentMode()
                case Plain => query[index] == '$' && DollarTag(query[index..]).Some?
                case InLiteral => false
                case InDollar(tag) => HasPrefix(query[index..], tag))
    {
      if inSingleQuote || query[index] != '$' {
        return false;
      }
      if inDollarQuote && dollarTag != "" && HasPrefix(query[index..], dollarTag) {
        CloseDollarQuote();
        return true;
      }
      if inDollarQuote {
        return false;
      }
      done := OpenDollarQuote();
    }

    method CloseDollarQuote()
      requires Valid() && index < |query| && inDollarQuote && HasPrefix(query[index..], dollarTag)
      modifies this`index, this`out, this`inDollarQuote, this`dollarTag
      ensures Moved()
    {
      inDollarQuote := false;
      out := out + dollarTag;
      index := index + |dollarTag|;
      dollarTag := "";
    }

    method OpenDollarQuote() returns (done: bool)
      requires Valid() && index < |query| && CurrentMode() == Plain && query[index] == '$'
      modifies this`index, this`out, this`inDollarQuote, this`dollarTag
      ensures done ==> Moved()
      ensures !done ==> unchanged(this)
      ensures done <==> DollarTag(query[old(index)..]).Some?
    {
      var tag := ParseDollarTag(query[index..]);
      if tag.None? {
        return false;
      }
      inDollarQuote := true;
      dollarTag := tag.value;
      out := out + tag.value;
      index := index + |tag.value|;
      return true;
    }

    method HandleSingleQuote() returns (done: bool)
      requires Valid() && index < |query|
      modifies this`index, this`out, this`inSingleQuote
      ensures done ==> Moved()
      ensures !done ==> unchanged(this)
      ensures done <==> old(!CurrentMode().InDollar? && query[index] == '\'')
    {
      if inDollarQuote || query[index] != '\'' {
        return false;
      }
      out := out + [query[index]];
      if inSingleQuote && index + 1 < |query| && query[index+1] == '\'' {
        out := out + [query[index+1]];
        index := index + 2;
        return true;
      }
      inSingleQuote := !inSingleQuote;
      index := index + 1;
      return true;
    }

    method CopyQuotedByte() returns (done: bool)
      requires Valid() && index < |query|
      requires inSingleQuote ==> query[index] != '\''
      requires inDollarQuote ==> !HasPrefix(query[index..], dollarTag)
      modifies this`index, this`out
      ensures done ==> Moved()
      ensures !done ==> unchanged(this)
      ensures done <==> old(CurrentMode() != Plain)
    {
      if !inSingleQuote && !inDollarQuote {
        return false;
      }
      out := out + [query[index]];
      index := index + 1;
      return true;
    }

    method HandleNamedParam() returns (done: bool)
      requires Valid() && index < |query| && CurrentMode() == Plain
      modifies this`index, this`out, this`ordered, this`seen, this`argPos, this`names
      ensures done ==> Moved()
      ensures !done ==> unchanged(this)
      ensures done <==> query[old(index)] == ':'
    {
      if query[index] != ':' {
        return false;
      }
      var cast := CopyPostgresCast();
      if cast {
        return true;
      }
      ReplaceName();
      return true;
    }

    method ReplaceName()
      requires Valid() && index < |query| && CurrentMode() == Plain
      requires query[index] == ':' && !(index + 1 < |query| && query[index+1] == ':')
      modifies this`index, this`out, this`ordered, this`seen, this`argPos, this`names
      ensures Moved()
    {
      var end := NamedParamEnd(query, index + 1);
      ghost var rest := query[index..];
      assert rest[1..] == query[index+1..] && query[index..end] == rest[..end - index];
      NextColon(rest);
      if end == index + 1 {
        CopyColon();
      } else {
        TakeName(query[index..end], end);
      }
    }

    method CopyColon()
      requires Valid() && index < |query| && CurrentMode() == Plain
      requires Next(Plain, query[index..]) == Move(Text(":"), 1, Plain)
      modifies this`index, this`out
      ensures Moved()
    {
      out := out + ":";
      index := index + 1;
    }

    method TakeName(token: string, end: nat)
      requires Valid() && index < end <= |query| && CurrentMode() == Plain
      requires Next(Plain, query[index..]) == Move(Param(token), end - index, Plain)
      modifies this`index, this`out, this`ordered, this`seen, this`argPos, this`names
      ensures Moved()
    {
      WriteNamedParam(token);
      index := end;
    }

    method CopyPostgresCast() returns (done: bool)
      requires Valid() && index < |query| && CurrentMode() == Plain && query[index] == ':'
      modifies this`index, this`out
      ensures done ==> Moved()
      ensures !done ==> unchanged(this)
      ensures done <==> old(index) + 1 < |query| && query[old(index)+1] == ':'
    {
      if index + 1 >= |query| || query[index+1] != ':' {
        return false;
      }
      out := out + "::";
      index := index + 2;
      return true;
    }

    method WriteNamedParam(token: string)
      requires Bookkept()
      modifies this`out, this`ordered, this`seen, this`argPos, this`names
      ensures Bookkept() && out == old(out) + Written(old(names), Param(token)) && names == Note(old(names), Param(token))
    {
      NumbersAre(names, token);
      if token in seen {
        out := out + ("$" + Itoa(seen[token]));
        return;
      }
      NumbersSnoc(names, token);
      BoundSnoc(params, names, token);
      DistinctSnoc(names, token);
      IndexOfBound(names, token, token);
      seen := seen[token := argPos];
      out := out + ("$" + Itoa(argPos));
      ordered := ordered + [if token in params then Some(params[token]) else None];
      argPos := argPos + 1;
      names := names + [token];
    }

    /** One round of the loop. */
    method Advance()
      requires Valid() && index < |query|
      modifies this
      ensures Moved()
    {
      var done := HandleDollarQuote();
      if done { return; }
      done := HandleSingleQuote();
      if done { return; }
      done := CopyQuotedByte();
      if done { return; }
      done := HandleNamedParam();
      if done { return; }
      out := out + [query[index]];
      index := index + 1;
    }

    /** A round takes the scanner on and leaves what it will have emitted in the end as it was. */
    method Round()
      requires Valid() && index < |query|
      modifies this
      ensures Valid() && old(index) < index
      ensures Emit(out, names, Resume(CurrentMode(), query[index..])) ==
              old(Emit(out, names, Resume(CurrentMode(), query[index..])))
    {
      ghost var rest, v := query[index..], Next(CurrentMode(), query[index..]);
      ResumeStep(out, names, CurrentMode(), rest);
      ghost var later := query[index + v.length..];
      assert rest[v.length..] == later;
      Advance();
      assert query[index..] == later;
    }

    method Convert()
      requires Valid() && index == 0 && out == "" && names == [] && CurrentMode() == Plain
      modifies this
      ensures Valid() && (out, names) == Emit("", [], Lex(query))
    {
      ghost var goal := Emit("", [], Lex(query));
      assert query[0..] == query;
      while index < |query|
        invariant Valid()
        invariant goal == Emit(out, names, Resume(CurrentMode(), query[index..]))
        decreases |query| - index
      {
        Round();
      }
      assert query[|query|..] == "";
      EmitNothing(out, names, CurrentMode());
    }
  }

  lemma EmitNothing(out: string, names: seq<string>, m: Mode)
    requires ValidMode(m)
    ensures Emit(out, names, Resume(m, "")) == (out, names)
  {
    if m != Plain {
      EmitFirst(out, names, Text(""), []);
      assert out + "" == out;
    }
  }

  /** The query with its names numbered in order of first occurrence, and the value of each number. */
  method ConvertQueryAndNamedParams<V>(query: string, params: seq<map<string, V>>) returns (sql: string, args: seq<Option<V>>)
    ensures var names := Names(Lex(query));
            sql == Render(names, Lex(query)) && args == Bound(Merged(params), names)
  {
    var all := MergeNamedParams(params);
    var converter := new Converter(query, all);
    converter.Convert();
    EmitIsRender("", [], Lex(query));
    assert "" + Render(Names(Lex(query)), Lex(query)) == Render(Names(Lex(query)), Lex(query));
    return converter.out, converter.ordered;
  }
}
