/** The names of named SQL parameters, common to the Postgres and the MySQL helper. */
module SqlNames {
  import opened Collections

  predicate IsNamedParamChar(c: char) {
    'a' <= c <= 'z' || 'A' <= c <= 'Z' || '0' <= c <= '9' || c == '_'
  }

  /** The number of name characters s begins with. */
  function NameLength(s: string): (n: nat)
    ensures n <= |s|
    ensures forall i :: 0 <= i < n ==> IsNamedParamChar(s[i])
    ensures n < |s| ==> !IsNamedParamChar(s[n])
  {
    if s == "" || !IsNamedParamChar(s[0]) then 0 else 1 + NameLength(s[1..])
  }

  lemma {:induction false} NameLengthIs(s: string, n: nat)
    requires n < |s| && !IsNamedParamChar(s[n]) && forall i :: 0 <= i < n ==> IsNamedParamChar(s[i])
    ensures NameLength(s) == n
  {
    if n > 0 { NameLengthIs(s[1..], n - 1); }
  }

  // The parameter maps of one call

  /** Later maps win. */
  function Merged<V>(params: seq<map<string, V>>): map<string, V> {
    if params == [] then map[] else Merged(params[..|params|-1]) + params[|params|-1]
  }

  method MergeNamedParams<V>(params: seq<map<string, V>>) returns (all: map<string, V>)
    ensures all == Merged(params)
  {
    all := map[];
    for i := 0 to |params|
      invariant all == Merged(params[..i])
    {
      assert params[..i+1][..i] == params[..i];
      all := all + params[i];
    }
    assert params[..|params|] == params;
  }

  /** A name takes its value from the last map that has it. */
  lemma {:induction false} MergedIsLast<V>(params: seq<map<string, V>>, name: string, j: nat)
    requires j < |params| && name in params[j] && forall i :: j < i < |params| ==> name !in params[i]
    ensures name in Merged(params) && Merged(params)[name] == params[j][name]
    decreases |params|
  {
    if j < |params| - 1 { MergedIsLast(params[..|params|-1], name, j); }
  }

  /** The value bound to each name; a name without a parameter is bound to nil. */
  function Bound<V>(params: map<string, V>, names: seq<string>): (r: seq<Option<V>>)
    ensures |r| == |names|
    ensures forall i :: 0 <= i < |names| ==> r[i] == if names[i] in params then Some(params[names[i]]) else None
  {
    seq(|names|, i requires 0 <= i < |names| => if names[i] in params then Some(params[names[i]]) else None)
  }
}
