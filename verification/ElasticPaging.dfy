/** The paged searches of the Elasticsearch helper (storage/elasticsearch/helper.go:506-831). */
module ElasticPaging {
  /*
   * The index is the sequence of hits a query matches, in the order the server reports them. One request
   * returns at most MAX_FETCH hits, so larger windows are put together from pages: with `search_after` when
   * the query is sorted, with a scroll session otherwise. What is asked for is the window
   * [from, from + size) of the index, or all of it.
   */

  import opened Collections

  const MAX_FETCH: nat := 10000

  datatype Hit = Hit(id: string, sort: int)

  datatype Outcome = Docs(hits: seq<Hit>) | Rejected | Panicked

  function Min(a: int, b: int): int {
    if a < b then a else b
  }

  /** The part of d at positions lo to hi, as far as it exists. */
  function Slice(d: seq<Hit>, lo: nat, hi: nat): seq<Hit>
    requires lo <= hi
  {
    d[Min(lo, |d|)..Min(hi, |d|)]
  }

  /** The window a caller asks for. */
  function Window(d: seq<Hit>, from: nat, size: nat): seq<Hit> {
    Slice(d, from, from + size)
  }

  /** No hit before position i has a larger key. */
  ghost predicate Tops(d: seq<Hit>, i: nat)
    requires i < |d|
  {
    forall j :: 0 <= j < i ==> d[j].sort <= d[i].sort
  }

  ghost predicate Sorted(d: seq<Hit>) {
    forall i: nat :: i < |d| ==> Tops(d, i)
  }

  lemma TailSorted(d: seq<Hit>, k: nat)
    requires Sorted(d) && k <= |d|
    ensures Sorted(d[k..])
  {
    forall i: nat | i < |d| - k ensures Tops(d[k..], i) {
      assert Tops(d, i + k);
    }
  }

  /** The end of page k separates two hits that have the same key. */
  ghost predicate SplitsTie(d: seq<Hit>, k: nat) {
    0 < k && k * MAX_FETCH < |d| && d[k * MAX_FETCH].sort <= d[k * MAX_FETCH - 1].sort
  }

  /** No page that ends before position n splits a tie. */
  ghost predicate NoSplitTies(d: seq<Hit>, n: int) {
    forall k: nat :: k * MAX_FETCH < n ==> !SplitsTie(d, k)
  }

  // The server's side of search_after

  /** The hits whose key is past `key`. */
  function Rest(d: seq<Hit>, key: int): (r: seq<Hit>)
    ensures |r| <= |d|
  {
    if d == [] || d[0].sort > key then d else Rest(d[1..], key)
  }

  function From(d: seq<Hit>, after: Option<int>): seq<Hit> {
    match after
    case None => d
    case Some(key) => Rest(d, key)
  }

  function Search(d: seq<Hit>, after: Option<int>, size: nat): (page: seq<Hit>)
    ensures |page| == Min(size, |From(d, after)|)
  {
    From(d, after)[..Min(size, |From(d, after)|)]
  }

  /** What the server has left once the first m of the hits c have been read. */
  function After(c: seq<Hit>, m: nat): (r: seq<Hit>)
    requires 0 < m <= |c|
    ensures |r| <= |c| - m
  {
    Rest(c[m..], c[m-1].sort)
  }

  lemma {:induction false} RestIsSuffix(d: seq<Hit>, key: int)
    ensures Rest(d, key) == d[|d| - |Rest(d, key)|..]
  {
    if d == [] || d[0].sort > key {
      assert d[0..] == d;
    } else {
      RestIsSuffix(d[1..], key);
      assert Rest(d, key) == d[1..][|d| - 1 - |Rest(d, key)|..];
    }
  }

  lemma {:induction false} RestPast(d: seq<Hit>, k: nat, key: int)
    requires k <= |d| && forall i :: 0 <= i < k ==> d[i].sort <= key
    ensures Rest(d, key) == Rest(d[k..], key)
    decreases k
  {
    if k == 0 {
      assert d[0..] == d;
    } else {
      RestPast(d[1..], k - 1, key);
      assert d[1..][k-1..] == d[k..];
    }
  }

  /** Handing the last key of a page back to the server resumes where the page left off. */
  lemma CursorAdvances(d: seq<Hit>, after: Option<int>, m: nat)
    requires Sorted(d) && 0 < m <= |From(d, after)|
    ensures From(d, Some(From(d, after)[m-1].sort)) == After(From(d, after), m)
  {
    var c := From(d, after);
    var k := |d| - |c| + m;
    assert c == d[|d| - |c|..] by {
      if after.Some? { RestIsSuffix(d, after.value); }
    }
    assert c[m-1] == d[k-1] && c[m..] == d[k..];
    assert Tops(d, k - 1);
    RestPast(d, k, c[m-1].sort);
  }

  /** The next page starts right after the last one exactly when no tie was cut in two. */
  lemma ResumesIff(c: seq<Hit>, m: nat)
    requires 0 < m <= |c|
    ensures After(c, m) == c[m..] <==> m == |c| || c[m-1].sort < c[m].sort
  {
    if m < |c| && c[m].sort <= c[m-1].sort {
      assert c[m..][0] == c[m];
      assert |After(c, m)| < |c[m..]|;
    }
  }

  // Skipping to the page that holds `from`

  datatype Jumped = At(rest: seq<Hit>, skip: nat) | Insufficient | OutOfRange

  /** Every jump reads one page and keeps only its last key; an empty page of a non-empty index has none. */
  function Jump(d: seq<Hit>, c: seq<Hit>, from: nat): Jumped
    decreases from
  {
    if from < MAX_FETCH then At(c, from)
    else if d == [] then Insufficient
    else if c == [] then OutOfRange
    else Jump(d, After(c, Min(MAX_FETCH, |c|)), from - MAX_FETCH)
  }

  method JumpToActiveBatch(d: seq<Hit>, start: nat) returns (after: Option<int>, from: nat, insufficient: bool, panic: bool)
    requires Sorted(d)
    ensures match Jump(d, d, start)
            case At(rest, skip) => !insufficient && !panic && rest == From(d, after) && skip == from < MAX_FETCH
            case Insufficient => insufficient && !panic
            case OutOfRange => panic
  {
    after, from, insufficient, panic := None, start, false, false;
    while from >= MAX_FETCH
      invariant Jump(d, d, start) == Jump(d, From(d, after), from)
      invariant !insufficient && !panic
    {
      var page := Search(d, after, MAX_FETCH);
      if |d| == 0 {
        insufficient := true;
        break;
      }
      if |page| == 0 {
        panic := true;
        break;
      }
      CursorAdvances(d, after, |page|);
      after := Some(page[|page|-1].sort);
      from := from - MAX_FETCH;
    }
  }

  lemma SplitsTieTail(c: seq<Hit>, k: nat)
    requires |c| >= MAX_FETCH && k > 0
    ensures SplitsTie(c[MAX_FETCH..], k) <==> SplitsTie(c, k + 1)
  {
  }

  lemma NoSplitTiesTail(c: seq<Hit>, n: int)
    requires |c| >= MAX_FETCH && NoSplitTies(c, n)
    ensures NoSplitTies(c[MAX_FETCH..], n - MAX_FETCH)
  {
    forall k: nat | k * MAX_FETCH < n - MAX_FETCH
      ensures !SplitsTie(c[MAX_FETCH..], k)
    {
      assert !SplitsTie(c, k + 1);
    }
  }

  /** One page is read whole: the cursor moves past it, unless the page splits a tie. */
  lemma PageTurns(c: seq<Hit>, n: int)
    requires |c| >= MAX_FETCH && NoSplitTies(c, n) && Sorted(c)
    ensures MAX_FETCH < n || |c| == MAX_FETCH ==> After(c, MAX_FETCH) == c[MAX_FETCH..]
    ensures Sorted(c[MAX_FETCH..]) && NoSplitTies(c[MAX_FETCH..], n - MAX_FETCH)
  {
    ResumesIff(c, MAX_FETCH);
    TailSorted(c, MAX_FETCH);
    NoSplitTiesTail(c, n);
    if MAX_FETCH < n { assert !SplitsTie(c, 1); }
  }

  /** How many pages can be read before one comes back empty. */
  function KeyPages(c: seq<Hit>): nat
    decreases |c|
  {
    if c == [] then 0 else 1 + KeyPages(After(c, Min(MAX_FETCH, |c|)))
  }

  /** What the server has left after k pages. */
  function AfterPages(c: seq<Hit>, k: nat): seq<Hit>
    decreases k
  {
    if k == 0 || c == [] then c else AfterPages(After(c, Min(MAX_FETCH, |c|)), k - 1)
  }

  /** In every index a jump over k pages lands behind them, or panics exactly when there are fewer. */
  lemma {:induction false} JumpLands(d: seq<Hit>, c: seq<Hit>, k: nat, skip: nat)
    requires d != [] && skip < MAX_FETCH
    ensures Jump(d, c, k * MAX_FETCH + skip) == if KeyPages(c) < k then OutOfRange else At(AfterPages(c, k), skip)
    decreases k
  {
    if k > 0 && c != [] { JumpLands(d, After(c, Min(MAX_FETCH, |c|)), k - 1, skip); }
  }

  /** Where a jump over k pages lands when no page splits a tie: off the end when the page before the last is short. */
  function Landing(c: seq<Hit>, k: nat, skip: nat): Jumped {
    if k > 0 && |c| <= (k - 1) * MAX_FETCH then OutOfRange else At(c[Min(k * MAX_FETCH, |c|)..], skip)
  }

  lemma LandingTail(c: seq<Hit>, k: nat, skip: nat)
    requires |c| >= MAX_FETCH && k > 0
    ensures Landing(c, k, skip) == Landing(c[MAX_FETCH..], k - 1, skip)
  {
    if |c| > (k - 1) * MAX_FETCH {
      assert c[MAX_FETCH..][Min((k - 1) * MAX_FETCH, |c| - MAX_FETCH)..] == c[Min(k * MAX_FETCH, |c|)..];
    }
  }

  lemma JumpShort(d: seq<Hit>, c: seq<Hit>, k: nat, skip: nat)
    requires d != [] && |c| < MAX_FETCH && k > 0 && skip < MAX_FETCH
    ensures Jump(d, c, k * MAX_FETCH + skip) == Landing(c, k, skip)
  {
    if c != [] {
      ResumesIff(c, |c|);
      assert c[|c|..] == [];
    }
  }

  /** Jumping page by page lands there as long as no page splits a tie. */
  lemma {:induction false} JumpLandsUnsplit(d: seq<Hit>, c: seq<Hit>, k: nat, skip: nat)
    requires d != [] && skip < MAX_FETCH && Sorted(c) && NoSplitTies(c, k * MAX_FETCH + 1)
    ensures Jump(d, c, k * MAX_FETCH + skip) == Landing(c, k, skip)
    decreases k
  {
    if k == 0 {
      assert c[0..] == c;
    } else if |c| < MAX_FETCH {
      JumpShort(d, c, k, skip);
    } else {
      PageTurns(c, k * MAX_FETCH + 1);
      JumpLandsUnsplit(d, c[MAX_FETCH..], k - 1, skip);
      JumpOnePage(d, c, k, skip);
    }
  }

  lemma JumpOnePage(d: seq<Hit>, c: seq<Hit>, k: nat, skip: nat)
    requires d != [] && skip < MAX_FETCH && k > 0 && |c| >= MAX_FETCH && After(c, MAX_FETCH) == c[MAX_FETCH..]
    requires Jump(d, c[MAX_FETCH..], (k - 1) * MAX_FETCH + skip) == Landing(c[MAX_FETCH..], k - 1, skip)
    ensures Jump(d, c, k * MAX_FETCH + skip) == Landing(c, k, skip)
  {
    LandingTail(c, k, skip);
  }

  // Reading the window page by page

  function BatchSize(all: bool, total: nat): nat {
    if !all && total < MAX_FETCH then total else MAX_FETCH
  }

  function LeftAfter(all: bool, total: nat): nat {
    if all then total else total - BatchSize(all, total)
  }

  /** The documents gathered from the hits c: drop `skip` of the first page, stop at a short page or after `total`. */
  function Gather(c: seq<Hit>, skip: nat, all: bool, total: nat): seq<Hit>
    decreases |c|
  {
    var batch := BatchSize(all, total);
    if batch == 0 then []
    else if |c| < batch then c[Min(skip, |c|)..]
    else c[Min(skip, batch)..batch] + Gather(After(c, batch), 0, all, LeftAfter(all, total))
  }

  lemma GatherStep(c: seq<Hit>, skip: nat, all: bool, total: nat)
    requires 0 < BatchSize(all, total) <= |c| && skip <= BatchSize(all, total)
    ensures Gather(c, skip, all, total) ==
            c[skip..BatchSize(all, total)] + Gather(After(c, BatchSize(all, total)), 0, all, LeftAfter(all, total))
  {
  }

  /** One round of the loop: the part of the page that is kept, and the cursor for the next round if there is one. */
  method GatherPage(d: seq<Hit>, after: Option<int>, skip: nat, all: bool, total: nat)
    returns (part: seq<Hit>, next: Option<int>, last: bool)
    requires Sorted(d) && 0 < BatchSize(all, total) && skip <= BatchSize(all, total)
    ensures last <==> |From(d, after)| < BatchSize(all, total)
    ensures last ==> part == Gather(From(d, after), skip, all, total)
    ensures !last ==> |From(d, next)| < |From(d, after)|
    ensures !last ==> Gather(From(d, after), skip, all, total) == part + Gather(From(d, next), 0, all, LeftAfter(all, total))
  {
    var batch := BatchSize(all, total);
    var page := Search(d, after, batch);
    next, last := after, |page| < batch;
    if last {
      part := if |page| > skip then page[skip..] else [];
      return;
    }
    CursorAdvances(d, after, batch);
    next := Some(page[|page|-1].sort);
    part := page[skip..];
  }

  method GatherPages(d: seq<Hit>, start: Option<int>, skip: nat, all: bool, total: nat) returns (docs: seq<Hit>)
    requires Sorted(d) && skip < MAX_FETCH && (!all ==> skip <= total)
    ensures docs == Gather(From(d, start), skip, all, total)
  {
    var after, left, fetchFrom: nat := start, total, skip;
    docs := [];
    ghost var goal := Gather(From(d, start), skip, all, total);
    while all || left > 0
      invariant fetchFrom < MAX_FETCH && 0 <= left && (!all ==> fetchFrom <= left)
      invariant goal == docs + Gather(From(d, after), fetchFrom, all, left)
      decreases |From(d, after)|
    {
      var part, next, last := GatherPage(d, after, fetchFrom, all, left);
      if last {
        return docs + part;
      }
      Regroup(docs, part, Gather(From(d, next), 0, all, LeftAfter(all, left)));
      docs := docs + part;
      after, left, fetchFrom := next, LeftAfter(all, left), 0;
    }
  }

  lemma SliceSplits(c: seq<Hit>, skip: nat, limit: nat)
    requires skip <= MAX_FETCH <= |c| && MAX_FETCH < limit
    ensures Slice(c, skip, limit) == c[skip..MAX_FETCH] + Slice(c[MAX_FETCH..], 0, limit - MAX_FETCH)
  {
  }

  lemma GatherOnce(c: seq<Hit>, skip: nat, limit: nat)
    requires skip <= limit && (limit <= MAX_FETCH || |c| < MAX_FETCH)
    ensures Gather(c, skip, false, limit) == Slice(c, skip, limit)
  {
    if 0 < limit <= |c| { GatherStep(c, skip, false, limit); }
  }

  lemma GatherTurnsPage(c: seq<Hit>, skip: nat, limit: nat)
    requires skip < MAX_FETCH < limit && MAX_FETCH <= |c| && After(c, MAX_FETCH) == c[MAX_FETCH..]
    requires Gather(c[MAX_FETCH..], 0, false, limit - MAX_FETCH) == Slice(c[MAX_FETCH..], 0, limit - MAX_FETCH)
    ensures Gather(c, skip, false, limit) == Slice(c, skip, limit)
  {
    GatherStep(c, skip, false, limit);
    SliceSplits(c, skip, limit);
  }

  /** Bounded by a limit and splitting no tie, the pages add up to the slice. */
  lemma {:induction false} GatherIsSlice(c: seq<Hit>, skip: nat, limit: nat)
    requires Sorted(c) && skip <= limit && skip < MAX_FETCH && NoSplitTies(c, limit)
    ensures Gather(c, skip, false, limit) == Slice(c, skip, limit)
    decreases |c|
  {
    if MAX_FETCH < limit && MAX_FETCH <= |c| {
      PageTurns(c, limit);
      GatherIsSlice(c[MAX_FETCH..], 0, limit - MAX_FETCH);
      GatherTurnsPage(c, skip, limit);
    } else {
      GatherOnce(c, skip, limit);
    }
  }

  /** Reading everything gathers a subsequence: never more than the index. */
  lemma {:induction false} GatherNoLonger(c: seq<Hit>)
    ensures |Gather(c, 0, true, 0)| <= |c|
    decreases |c|
  {
    if |c| >= MAX_FETCH { GatherNoLonger(After(c, MAX_FETCH)); }
  }

  /** Reading everything returns the whole index exactly when no page splits a tie. */
  lemma {:induction false} GatherAllIff(c: seq<Hit>)
    requires Sorted(c)
    ensures Gather(c, 0, true, 0) == c <==> NoSplitTies(c, |c|)
    decreases |c|
  {
    if |c| >= MAX_FETCH {
      ResumesIff(c, MAX_FETCH);
      var rest := After(c, MAX_FETCH);
      if rest == c[MAX_FETCH..] {
        TailSorted(c, MAX_FETCH);
        GatherAllIff(rest);
        NoSplitTiesHead(c, |c|);
        GatherAllStep(c);
      } else {
        GatherNoLonger(rest);
        assert SplitsTie(c, 1);
      }
    }
  }

  lemma GatherAllStep(c: seq<Hit>)
    requires |c| >= MAX_FETCH && After(c, MAX_FETCH) == c[MAX_FETCH..]
    ensures Gather(c, 0, true, 0) == c <==> Gather(c[MAX_FETCH..], 0, true, 0) == c[MAX_FETCH..]
  {
    var head, rest := c[..MAX_FETCH], c[MAX_FETCH..];
    assert c == head + rest;
    assert Gather(c, 0, true, 0) == head + Gather(rest, 0, true, 0);
    assert (head + Gather(rest, 0, true, 0))[MAX_FETCH..] == Gather(rest, 0, true, 0);
  }

  lemma NoSplitTiesHead(c: seq<Hit>, n: int)
    requires |c| >= MAX_FETCH && !SplitsTie(c, 1)
    ensures NoSplitTies(c, n) <==> NoSplitTies(c[MAX_FETCH..], n - MAX_FETCH)
  {
    if NoSplitTies(c, n) {
      NoSplitTiesTail(c, n);
    } else {
      var k: nat :| k * MAX_FETCH < n && SplitsTie(c, k);
      SplitsTieTail(c, k - 1);
    }
  }

  // The whole of search_after

  function Found(d: seq<Hit>, c: seq<Hit>, from: nat, size: nat): Outcome {
    match Jump(d, c, from)
    case Insufficient => Docs([])
    case OutOfRange => Panicked
    case At(rest, skip) => Docs(Gather(rest, skip, false, skip + size))
  }

  /** The window lies so far past the end that the jump meets an empty page before its last. */
  predicate RunsOff(d: seq<Hit>, from: nat) {
    d != [] && from >= MAX_FETCH && |d| <= (from / MAX_FETCH - 1) * MAX_FETCH
  }

  lemma NoSplitTiesDrop(d: seq<Hit>, k: nat, n: int)
    requires NoSplitTies(d, n) && k * MAX_FETCH <= |d|
    ensures NoSplitTies(d[k * MAX_FETCH..], n - k * MAX_FETCH)
  {
    var t := d[k * MAX_FETCH..];
    forall j: nat | j * MAX_FETCH < n - k * MAX_FETCH
      ensures !SplitsTie(t, j)
    {
      assert !SplitsTie(d, j + k);
    }
  }

  lemma WindowShifts(d: seq<Hit>, a: nat, skip: nat, size: nat)
    requires a <= |d|
    ensures Window(d[a..], skip, size) == Window(d, a + skip, size)
  {
  }

  lemma GatherAt(d: seq<Hit>, a: nat, skip: nat, size: nat)
    requires Sorted(d) && skip < MAX_FETCH && a <= |d| && NoSplitTies(d[a..], skip + size)
    ensures Gather(d[a..], skip, false, skip + size) == Window(d, a + skip, size)
  {
    TailSorted(d, a);
    GatherIsSlice(d[a..], skip, skip + size);
    WindowShifts(d, a, skip, size);
  }

  lemma LandedWindow(d: seq<Hit>, k: nat, skip: nat, size: nat)
    requires Sorted(d) && skip < MAX_FETCH && NoSplitTies(d, k * MAX_FETCH + skip + size)
    ensures Gather(d[Min(k * MAX_FETCH, |d|)..], skip, false, skip + size) == Window(d, k * MAX_FETCH + skip, size)
  {
    if k * MAX_FETCH <= |d| {
      NoSplitTiesDrop(d, k, k * MAX_FETCH + skip + size);
      GatherAt(d, k * MAX_FETCH, skip, size);
    } else {
      assert d[|d|..] == [];
      GatherOnce([], skip, skip + size);
    }
  }

  lemma FoundAfterJump(d: seq<Hit>, k: nat, skip: nat, size: nat)
    requires Sorted(d) && d != [] && skip < MAX_FETCH && size > 0 && NoSplitTies(d, k * MAX_FETCH + skip + size)
    ensures Found(d, d, k * MAX_FETCH + skip, size) ==
            if k > 0 && |d| <= (k - 1) * MAX_FETCH then Panicked else Docs(Window(d, k * MAX_FETCH + skip, size))
  {
    NoSplitTiesFewer(d, k * MAX_FETCH + skip + size, k * MAX_FETCH + 1);
    JumpLandsUnsplit(d, d, k, skip);
    LandedWindow(d, k, skip, size);
    FoundFromLanding(d, k, skip, size);
  }

  lemma NoSplitTiesFewer(d: seq<Hit>, m: int, n: int)
    requires NoSplitTies(d, m) && n <= m
    ensures NoSplitTies(d, n)
  {
  }

  lemma FoundFromLanding(d: seq<Hit>, k: nat, skip: nat, size: nat)
    requires d != [] && skip < MAX_FETCH && Jump(d, d, k * MAX_FETCH + skip) == Landing(d, k, skip)
    ensures Found(d, d, k * MAX_FETCH + skip, size) ==
            if k > 0 && |d| <= (k - 1) * MAX_FETCH then Panicked
            else Docs(Gather(d[Min(k * MAX_FETCH, |d|)..], skip, false, skip + size))
  {
  }

  /** Splitting no tie, the search answers the window, or panics when the window runs off the end. */
  lemma FoundIsWindow(d: seq<Hit>, from: nat, size: nat)
    requires Sorted(d) && size > 0 && NoSplitTies(d, from + size)
    ensures Found(d, d, from, size) == if RunsOff(d, from) then Panicked else Docs(Window(d, from, size))
  {
    if d == [] {
      FoundNothing(from, size);
    } else {
      FoundAfterJump(d, from / MAX_FETCH, from % MAX_FETCH, size);
    }
  }

  lemma FoundNothing(from: nat, size: nat)
    ensures Found([], [], from, size) == Docs([])
  {
    if from < MAX_FETCH { GatherOnce([], from, from + size); }
  }

  // A split tie is always visible: the window then misses a hit

  ghost predicate Last(c: seq<Hit>, i: nat)
    requires i < |c|
  {
    c[i] !in c[i+1..]
  }

  ghost predicate NoRepeats(c: seq<Hit>) {
    forall i: nat :: i < |c| ==> Last(c, i)
  }

  lemma NoRepeatsTail(c: seq<Hit>, k: nat)
    requires NoRepeats(c) && k <= |c|
    ensures NoRepeats(c[k..])
  {
    forall i: nat | i < |c| - k ensures Last(c[k..], i) {
      assert Last(c, i + k);
      assert c[k..][i+1..] == c[k+i+1..];
    }
  }

  ghost predicate Within(r: seq<Hit>, c: seq<Hit>) {
    forall h :: h in r ==> h in c
  }

  /** A page that splits a tie makes the next one start at least one hit too late. */
  lemma AfterWithin(c: seq<Hit>, m: nat, skip: nat)
    requires 0 < m <= |c|
    ensures var late := if m < |c| && c[m].sort <= c[m-1].sort then 1 else 0;
            Within(After(c, m)[Min(skip, |After(c, m)|)..], c[Min(m + skip + late, |c|)..])
  {
    var r := After(c, m);
    RestIsSuffix(c[m..], c[m-1].sort);
    assert r == c[|c| - |r|..];
    ResumesIff(c, m);
    var late := if m < |c| && c[m].sort <= c[m-1].sort then 1 else 0;
    assert |r| <= |c| - m - late;
    if skip <= |r| {
      assert r[skip..] == c[|c| - |r| + skip..] == c[m + skip + late..][|c| - |r| - m - late..];
    }
  }

  lemma {:induction false} GatherWithin(c: seq<Hit>, skip: nat, total: nat)
    requires skip <= BatchSize(false, total)
    ensures Within(Gather(c, skip, false, total), c[Min(skip, |c|)..])
    decreases |c|
  {
    var batch := BatchSize(false, total);
    if 0 < batch <= |c| {
      var rest := After(c, batch);
      GatherWithin(rest, 0, total - batch);
      AfterWithin(c, batch, 0);
      GatherStep(c, skip, false, total);
      forall h | h in Gather(c, skip, false, total) ensures h in c[skip..] {
        if h in c[skip..batch] {
          assert c[skip..batch] == c[skip..][..batch - skip];
        } else {
          assert h in rest[0..] && h in c[batch..];
          assert c[batch..] == c[skip..][batch - skip..];
        }
      }
    }
  }

  lemma WithinTrans(r: seq<Hit>, c: seq<Hit>, e: seq<Hit>)
    requires Within(r, c) && Within(c, e)
    ensures Within(r, e)
  {
  }

  lemma FoundJumps(d: seq<Hit>, c: seq<Hit>, from: nat, size: nat)
    requires d != [] && c != [] && from >= MAX_FETCH
    ensures Found(d, c, from, size) == Found(d, After(c, Min(MAX_FETCH, |c|)), from - MAX_FETCH, size)
  {
  }

  lemma {:induction false} FoundWithin(d: seq<Hit>, c: seq<Hit>, from: nat, size: nat)
    requires Found(d, c, from, size).Docs? && size > 0
    ensures Within(Found(d, c, from, size).hits, c[Min(from, |c|)..])
    decreases from
  {
    if from < MAX_FETCH {
      GatherWithin(c, from, from + size);
    } else if d != [] {
      var m := Min(MAX_FETCH, |c|);
      FoundJumps(d, c, from, size);
      FoundWithin(d, After(c, m), from - MAX_FETCH, size);
      AfterAnyway(c, m, from);
      WithinTrans(Found(d, c, from, size).hits, After(c, m)[Min(from - MAX_FETCH, |After(c, m)|)..], c[Min(from, |c|)..]);
    }
  }

  lemma AfterAnyway(c: seq<Hit>, m: nat, from: nat)
    requires 0 < m == Min(MAX_FETCH, |c|) && MAX_FETCH <= from
    ensures Within(After(c, m)[Min(from - MAX_FETCH, |After(c, m)|)..], c[Min(from, |c|)..])
  {
    if m == MAX_FETCH {
      AfterWithin(c, m, from - MAX_FETCH);
      var late := if m < |c| && c[m].sort <= c[m-1].sort then 1 else 0;
      assert c[Min(from + late, |c|)..] == c[Min(from, |c|)..][Min(from + late, |c|) - Min(from, |c|)..];
    } else {
      assert After(c, m) == [];
    }
  }

  lemma MissesNext(c: seq<Hit>, r: seq<Hit>, i: nat)
    requires NoRepeats(c) && i < |c| && Within(r, c[i+1..])
    ensures c[i] !in r
  {
    assert Last(c, i);
  }

  /** From a page that splits a tie on, nothing starts at the hit at `from`. */
  lemma SplitMisses(d: seq<Hit>, c: seq<Hit>, from: nat, size: nat)
    requires d != [] && NoRepeats(c) && MAX_FETCH <= from < |c| && size > 0 && SplitsTie(c, 1)
    ensures Found(d, c, from, size) != Docs(Window(c, from, size))
  {
    var rest := After(c, MAX_FETCH);
    FoundJumps(d, c, from, size);
    if Found(d, c, from, size).Docs? {
      var got := Found(d, c, from, size).hits;
      FoundWithin(d, rest, from - MAX_FETCH, size);
      AfterWithin(c, MAX_FETCH, from - MAX_FETCH);
      WithinTrans(got, rest[Min(from - MAX_FETCH, |rest|)..], c[from+1..]);
      MissesNext(c, got, from);
      assert Window(c, from, size)[0] == c[from];
    }
  }

  lemma GatherMisses(c: seq<Hit>, total: nat)
    requires NoRepeats(c) && SplitsTie(c, 1) && 0 < total
    ensures Gather(After(c, MAX_FETCH), 0, false, total) != Slice(c[MAX_FETCH..], 0, total)
  {
    var rest := After(c, MAX_FETCH);
    var got := Gather(rest, 0, false, total);
    GatherWithin(rest, 0, total);
    AfterWithin(c, MAX_FETCH, 0);
    WithinTrans(got, rest[0..], c[MAX_FETCH+1..]);
    MissesNext(c, got, MAX_FETCH);
    assert Slice(c[MAX_FETCH..], 0, total)[0] == c[MAX_FETCH];
  }

  lemma PrefixCancels(a: seq<Hit>, b: seq<Hit>, c: seq<Hit>)
    ensures a + b == a + c ==> b == c
  {
    assert (a + b)[|a|..] == b && (a + c)[|a|..] == c;
  }

  lemma PagesDiffer(c: seq<Hit>, rest: seq<Hit>, skip: nat, total: nat)
    requires skip < MAX_FETCH <= |c| && MAX_FETCH < total && rest == After(c, MAX_FETCH)
    requires Gather(rest, 0, false, total - MAX_FETCH) != Slice(c[MAX_FETCH..], 0, total - MAX_FETCH)
    ensures Gather(c, skip, false, total) != Slice(c, skip, total)
  {
    GatherStep(c, skip, false, total);
    SliceSplits(c, skip, total);
    PrefixCancels(c[skip..MAX_FETCH], Gather(rest, 0, false, total - MAX_FETCH), Slice(c[MAX_FETCH..], 0, total - MAX_FETCH));
  }

  lemma UnsplitPage(c: seq<Hit>, k: nat)
    requires NoRepeats(c) && !SplitsTie(c, 1) && SplitsTie(c, k)
    ensures k > 1 && |c| > MAX_FETCH && After(c, MAX_FETCH) == c[MAX_FETCH..]
    ensures NoRepeats(c[MAX_FETCH..]) && SplitsTie(c[MAX_FETCH..], k - 1)
  {
    ResumesIff(c, MAX_FETCH);
    NoRepeatsTail(c, MAX_FETCH);
    SplitsTieTail(c, k - 1);
  }

  lemma FirstPageShows(c: seq<Hit>, skip: nat, total: nat)
    requires NoRepeats(c) && skip < MAX_FETCH && MAX_FETCH < total && SplitsTie(c, 1)
    ensures Gather(c, skip, false, total) != Slice(c, skip, total)
  {
    GatherMisses(c, total - MAX_FETCH);
    PagesDiffer(c, After(c, MAX_FETCH), skip, total);
  }

  /** Reading on after a split tie loses the hit the next page should have started with. */
  lemma {:induction false} GatherShowsSplit(c: seq<Hit>, skip: nat, total: nat, k: nat)
    requires NoRepeats(c) && skip < MAX_FETCH && SplitsTie(c, k) && k * MAX_FETCH < total
    ensures Gather(c, skip, false, total) != Slice(c, skip, total)
    decreases |c|
  {
    if SplitsTie(c, 1) {
      FirstPageShows(c, skip, total);
    } else {
      UnsplitPage(c, k);
      var tail, left := c[MAX_FETCH..], total - MAX_FETCH;
      GatherShowsSplit(tail, 0, left, k - 1);
      PagesDiffer(c, tail, skip, total);
    }
  }

  lemma FoundHere(d: seq<Hit>, c: seq<Hit>, from: nat, size: nat)
    requires from < MAX_FETCH && Gather(c, from, false, from + size) != Slice(c, from, from + size)
    ensures Found(d, c, from, size) != Docs(Window(c, from, size))
  {
  }

  lemma FoundLater(d: seq<Hit>, c: seq<Hit>, tail: seq<Hit>, from: nat, size: nat)
    requires d != [] && |c| >= MAX_FETCH && from >= MAX_FETCH && tail == c[MAX_FETCH..] == After(c, MAX_FETCH)
    requires Found(d, tail, from - MAX_FETCH, size) != Docs(Window(tail, from - MAX_FETCH, size))
    ensures Found(d, c, from, size) != Docs(Window(c, from, size))
  {
    FoundJumps(d, c, from, size);
    WindowShifts(c, MAX_FETCH, from - MAX_FETCH, size);
  }

  lemma {:induction false} FoundShowsSplit(d: seq<Hit>, c: seq<Hit>, from: nat, size: nat, k: nat)
    requires d != [] && NoRepeats(c) && from < |c| && size > 0 && SplitsTie(c, k) && k * MAX_FETCH < from + size
    ensures Found(d, c, from, size) != Docs(Window(c, from, size))
    decreases from
  {
    if from < MAX_FETCH {
      GatherShowsSplit(c, from, from + size, k);
      FoundHere(d, c, from, size);
    } else if SplitsTie(c, 1) {
      SplitMisses(d, c, from, size);
    } else {
      UnsplitPage(c, k);
      FoundShowsSplit(d, c[MAX_FETCH..], from - MAX_FETCH, size, k - 1);
      FoundLater(d, c, c[MAX_FETCH..], from, size);
    }
  }

  lemma FoundPanicsAt(d: seq<Hit>, k: nat, skip: nat, size: nat)
    requires d != [] && skip < MAX_FETCH
    ensures Found(d, d, k * MAX_FETCH + skip, size) == Panicked <==> KeyPages(d) < k
  {
    JumpLands(d, d, k, skip);
  }

  /** In every index the search panics exactly when it is not empty and has fewer pages than lie before the window. */
  lemma FoundPanicsIff(d: seq<Hit>, from: nat, size: nat)
    ensures Found(d, d, from, size) == Panicked <==> d != [] && KeyPages(d) < from / MAX_FETCH
  {
    if d == [] {
      FoundNothing(from, size);
    } else {
      FoundPanicsAt(d, from / MAX_FETCH, from % MAX_FETCH, size);
    }
  }

  lemma WithinSomething(r: seq<Hit>, c: seq<Hit>)
    requires Within(r, c)
    ensures r != [] ==> c != []
  {
    if r != [] { assert r[0] in r; }
  }

  lemma FoundPastEnd(d: seq<Hit>, from: nat, size: nat)
    requires |d| <= from && size > 0
    ensures Found(d, d, from, size) == Docs([]) || Found(d, d, from, size) == Panicked
  {
    if Found(d, d, from, size).Docs? {
      FoundWithin(d, d, from, size);
      WithinSomething(Found(d, d, from, size).hits, d[|d|..]);
    }
  }

  /**
   * For every sorted index without repeated hits and every window: a window that starts inside the index is answered
   * exactly when no page up to its end splits a tie, a window past the end exactly when enough pages lie before it.
   */
  lemma FoundIff(d: seq<Hit>, from: nat, size: nat)
    requires Sorted(d) && NoRepeats(d) && size > 0
    ensures Found(d, d, from, size) == Docs(Window(d, from, size)) <==>
            if from < |d| then NoSplitTies(d, from + size) else d == [] || from / MAX_FETCH <= KeyPages(d)
  {
    if |d| <= from {
      FoundPastEnd(d, from, size);
      FoundPanicsIff(d, from, size);
    } else if NoSplitTies(d, from + size) {
      FoundIsWindow(d, from, size);
      InsideDoesNotRunOff(d, from);
    } else {
      var k: nat :| k * MAX_FETCH < from + size && SplitsTie(d, k);
      FoundShowsSplit(d, d, from, size, k);
    }
  }

  lemma InsideDoesNotRunOff(d: seq<Hit>, from: nat)
    requires from < |d|
    ensures !RunsOff(d, from)
  {
  }

  /** n hits, each with its own id, all with the same key. */
  function Tied(n: nat, key: int): seq<Hit> {
    seq(n, i requires 0 <= i < n => Hit(seq(i, _ => 'x'), key))
  }

  lemma TiedFacts(n: nat, key: int)
    ensures Sorted(Tied(n, key)) && NoRepeats(Tied(n, key))
  {
    var d := Tied(n, key);
    forall i: nat | i < n ensures Tops(d, i) && Last(d, i) {
      forall j | i < j < n ensures d[j] != d[i] { assert |d[j].id| == j; }
    }
  }

  lemma {:induction false} NothingPastKey(d: seq<Hit>, key: int)
    requires forall i :: 0 <= i < |d| ==> d[i].sort == key
    ensures Rest(d, key) == []
  {
    if d != [] { NothingPastKey(d[1..], key); }
  }

  /** One page and one more hit, all with the same key: reading everything loses the last hit. */
  lemma TieLosesHit(key: int)
    ensures var d := Tied(MAX_FETCH + 1, key);
            Sorted(d) && NoRepeats(d) && Gather(d, 0, true, 0) == d[..MAX_FETCH] && d[MAX_FETCH] !in Gather(d, 0, true, 0)
  {
    var d := Tied(MAX_FETCH + 1, key);
    TiedFacts(MAX_FETCH + 1, key);
    NothingPastKey(d[MAX_FETCH..], key);
    GatherStep(d, 0, true, 0);
    assert Gather([], 0, true, 0) == [];
    assert Gather(d, 0, true, 0) == d[..MAX_FETCH];
    forall i | 0 <= i < MAX_FETCH ensures d[i] != d[MAX_FETCH] { assert |d[i].id| == i; }
  }

  /** A page and a half of tied hits: a window from 20000 panics, although untied hits would give an empty answer. */
  lemma TiedWindowPanics(key: int, size: nat)
    requires size > 0
    ensures var d := Tied(15000, key); !RunsOff(d, 20000) && Found(d, d, 20000, size) == Panicked
  {
    var d := Tied(15000, key);
    NothingPastKey(d[MAX_FETCH..], key);
    assert KeyPages(d) == 1 + KeyPages(After(d, MAX_FETCH)) == 1;
    FoundPanicsIff(d, 20000, size);
  }

  /** A single hit and a window two pages further on: the search panics instead of answering nothing. */
  lemma FarWindowPanics(h: Hit, size: nat)
    requires size > 0
    ensures Found([h], [h], 2 * MAX_FETCH, size) == Panicked && Window([h], 2 * MAX_FETCH, size) == []
  {
    assert Sorted([h]);
    FoundIsWindow([h], 2 * MAX_FETCH, size);
  }
}
