/**
 * The scroll session and the entry point of the paged search (storage/elasticsearch/helper.go:506-555, 664-831).
 */
module ElasticSearch {
  import opened Collections
  import opened ElasticPaging

  /** The server's side of a scroll: each request returns the next hits of a frozen result. */
  class Session {
    const index: seq<Hit>
    const size: nat
    var pos: nat
    var requests: nat
    var cleared: bool

    ghost predicate Valid()
      reads this
    {
      pos <= |index| && size > 0
    }

    /** As long as every page was full the position is a number of whole pages. */
    ghost predicate FullPages()
      reads this
    {
      Valid() && pos == requests * size
    }

    constructor (index: seq<Hit>, size: nat)
      requires size > 0
      ensures this.index == index && this.size == size && FullPages() && requests == 0 && !cleared
    {
      this.index, this.size, pos, requests, cleared := index, size, 0, 0, false;
    }

    method Next() returns (page: seq<Hit>)
      requires Valid()
      modifies this`pos, this`requests
      ensures Valid() && page == Slice(index, old(pos), old(pos) + size) && pos == old(pos) + |page|
      ensures requests == old(requests) + 1
    {
      page := Slice(index, pos, pos + size);
      pos, requests := pos + |page|, requests + 1;
    }
  }

  lemma OnePageMore(s: Session, requests: nat, pos: nat)
    requires pos == requests * s.size
    ensures pos + s.size == (requests + 1) * s.size
  {
  }

  /** The rest of a scroll that reads everything: pages up to and including the first short one. */
  method ReadAll(s: Session) returns (docs: seq<Hit>)
    requires s.FullPages()
    modifies s`pos, s`requests
    ensures docs == s.index[old(s.pos)..] && s.Valid()
    ensures (s.requests - 1) * s.size <= |s.index| < s.requests * s.size
  {
    docs := [];
    while true
      invariant s.FullPages() && old(s.pos) <= s.pos && docs == s.index[old(s.pos)..s.pos]
      decreases |s.index| - s.pos
    {
      OnePageMore(s, s.requests, s.pos);
      var page := s.Next();
      docs := docs + page;
      if |page| < s.size {
        break;
      }
    }
  }

  function Sub(a: nat, b: nat): nat {
    if a < b then 0 else a - b
  }

  lemma SliceAcross(c: seq<Hit>, m: nat, lo: nat, hi: nat)
    requires m <= |c| && lo <= hi
    ensures Slice(c, lo, hi) == Slice(c[..m], lo, hi) + Slice(c[m..], Sub(lo, m), Sub(hi, m))
  {
  }

  lemma NothingLeft(c: seq<Hit>, m: nat, lo: nat, hi: nat)
    requires m <= |c| && lo <= hi && (hi <= m || m == |c|)
    ensures Slice(c, lo, hi) == Slice(c[..m], lo, hi)
  {
  }

  /** One round of the loop: the part of the page inside the window, and the window left for the next page. */
  method TakePage(page: seq<Hit>, full: nat, from: nat, size: nat) returns (part: seq<Hit>, from': nat, size': nat, last: bool)
    requires size > 0 && |page| <= full
    ensures part == Slice(page, from, from + size)
    ensures last <==> |page| < full || from + size <= full
    ensures !last ==> from' == Sub(from, full) && size' > 0 && from' + size' == from + size - full
  {
    part, from', size', last := [], from, size, false;
    if from < |page| {
      if from + size <= |page| {
        return page[from..from+size], from, size, true;
      }
      part := page[from..];
      if |page| < full {
        last := true;
        return;
      }
      size' := size - (full - from);
      from' := 0;
    } else {
      if |page| < full {
        last := true;
        return;
      }
      from' := from - full;
    }
  }

  method NextPart(s: Session, from: nat, size: nat) returns (part: seq<Hit>, from': nat, size': nat, last: bool)
    requires s.FullPages() && size > 0
    modifies s`pos, s`requests
    ensures s.Valid() && s.requests == old(s.requests) + 1
    ensures last ==> part == Window(s.index[old(s.pos)..], from, size)
    ensures !last ==> s.FullPages() && s.pos > old(s.pos) && size' > 0 && s.pos + from' + size' == old(s.pos) + from + size
    ensures !last ==> Window(s.index[old(s.pos)..], from, size) == part + Window(s.index[s.pos..], from', size')
  {
    OnePageMore(s, s.requests, s.pos);
    ghost var c := s.index[s.pos..];
    var page := s.Next();
    assert page == c[..|page|] && c[|page|..] == s.index[s.pos..];
    part, from', size', last := TakePage(page, s.size, from, size);
    if last {
      NothingLeft(c, |page|, from, from + size);
    } else {
      SliceAcross(c, |page|, from, from + size);
    }
  }

  /** The rest of a scroll that reads a window: skip, then collect until the window or the index ends. */
  method ReadWindow(s: Session, start: nat, want: nat) returns (docs: seq<Hit>)
    requires s.FullPages() && want > 0
    modifies s`pos, s`requests
    ensures docs == Window(s.index[old(s.pos)..], start, want)
    ensures s.Valid() && (s.requests - 1) * s.size < old(s.pos) + start + want
  {
    docs := [];
    var from, size := start, want;
    ghost var goal, hi := Window(s.index[s.pos..], start, want), s.pos + start + want;
    while true
      invariant s.FullPages() && size > 0 && s.pos + from + size == hi
      invariant goal == docs + Window(s.index[s.pos..], from, size)
      decreases |s.index| - s.pos
    {
      var part, from', size', last := NextPart(s, from, size);
      if last {
        return docs + part;
      }
      Regroup(docs, part, Window(s.index[s.pos..], from', size'));
      docs, from, size := docs + part, from', size';
    }
  }

  // The entry points

  function CeilDiv(n: nat, m: nat): nat
    requires m > 0
  {
    (n + m - 1) / m
  }

  /** Rounding up, the pages cover n and one page fewer would not. */
  lemma CeilDivCovers(n: nat, m: nat)
    requires m > 0
    ensures m * CeilDiv(n, m) >= n && (n > 0 ==> CeilDiv(n, m) > 0 && m * (CeilDiv(n, m) - 1) < n)
  {
    var q, r := (n + m - 1) / m, (n + m - 1) % m;
    assert n + m - 1 == m * q + r;
    assert m * (q - 1) == m * q - m;
    if q <= 0 { assert m * q <= 0; }
  }

  /** The page size of a windowed scroll: the smallest number of pages, evenly filled. */
  function FetchSize(n: nat): nat
    requires n > MAX_FETCH
  {
    CeilDivCovers(n, MAX_FETCH);
    CeilDiv(n, CeilDiv(n, MAX_FETCH))
  }

  lemma FetchSizeFits(n: nat)
    requires n > MAX_FETCH
    ensures 0 < FetchSize(n) <= MAX_FETCH && FetchSize(n) < n
    ensures CeilDiv(n, MAX_FETCH) * FetchSize(n) >= n
  {
    var m := CeilDiv(n, MAX_FETCH);
    CeilDivCovers(n, MAX_FETCH);
    CeilDivCovers(n, m);
    var f := FetchSize(n);
    assert m >= 2;
    if f > MAX_FETCH { MulMonotone(m, MAX_FETCH, f - 1); }
    MulMonotone2(2, m, f - 1);
  }

  lemma MulMonotone(m: nat, a: nat, b: nat)
    requires a <= b
    ensures m * a <= m * b
  {
  }

  lemma MulMonotone2(a: nat, b: nat, m: nat)
    requires a <= b
    ensures a * m <= b * m
  {
  }

  /** Never more pages than the window needs. */
  lemma FewRequests(n: nat, requests: nat)
    requires n > MAX_FETCH && (requests - 1) * FetchSize(n) < n
    ensures requests <= CeilDiv(n, MAX_FETCH)
  {
    FetchSizeFits(n);
    var m := CeilDiv(n, MAX_FETCH);
    if requests > m { MulMonotone2(m, requests - 1, FetchSize(n)); }
  }

  /** Everything by scrolling: one request for every full page and one that comes back short. */
  method ScrollAll(index: seq<Hit>) returns (docs: seq<Hit>, s: Session)
    ensures docs == index && fresh(s) && s.size == MAX_FETCH
    ensures s.requests == |index| / MAX_FETCH + 1 && (s.cleared <==> index != [])
  {
    s := new Session(index, MAX_FETCH);
    docs := [];
    var page := s.Next();
    if 0 < |page| {
      docs := page[0..];
    } else {
      return;
    }
    if |page| == MAX_FETCH {
      var rest := ReadAll(s);
      docs := docs + rest;
    }
    s.cleared := true;
  }

  /** The part of a window on a full first page, and the rest of it behind that page. */
  lemma WindowFromFirst(index: seq<Hit>, page: seq<Hit>, from: nat, size: nat)
    requires page <= index && |page| < from + size
    ensures from < |page| ==>
              Window(index, from, size) == page[from..] + Window(index[|page|..], 0, size - (|page| - from))
    ensures from >= |page| ==> Window(index, from, size) == [] + Window(index[|page|..], from - |page|, size)
  {
    SliceAcross(index, |page|, from, from + size);
    assert index[..|page|] == page;
  }

  lemma WindowOfShort(index: seq<Hit>, from: nat, size: nat)
    requires |index| < from + size
    ensures Window(index, from, size) == if from < |index| then index[from..] else []
  {
  }

  /** A window by scrolling; the scroll context is left open when the first page already ends before the window. */
  method ScrollWindow(index: seq<Hit>, from: nat, size: nat) returns (docs: seq<Hit>, s: Session)
    requires size > 0 && from + size > MAX_FETCH
    ensures docs == Window(index, from, size)
    ensures fresh(s) && s.size == FetchSize(from + size) <= MAX_FETCH && s.requests <= CeilDiv(from + size, MAX_FETCH)
    ensures s.cleared <==> |index| >= s.size || from < |index|
  {
    var fetchSize := FetchSize(from + size);
    FetchSizeFits(from + size);
    s := new Session(index, fetchSize);
    var page := s.Next();
    if |page| < fetchSize {
      WindowOfShort(index, from, size);
    } else {
      WindowFromFirst(index, page, from, size);
    }
    docs := [];
    var left, skip := size, 0;
    if from < |page| {
      docs := page[from..];
      left := size - (fetchSize - from);
    } else {
      if |page| < fetchSize {
        FewRequests(from + size, 1);
        return;
      }
      skip := from - fetchSize;
    }
    if |page| == fetchSize {
      var rest := ReadWindow(s, skip, left);
      docs := docs + rest;
    }
    FewRequests(from + size, s.requests);
    s.cleared := true;
  }

  datatype Query = Query(hasBody: bool, all: bool, from: int, size: int, sorted: bool, badSource: bool)

  method SearchAfter(index: seq<Hit>, all: bool, from: nat, size: nat, badSource: bool) returns (o: Outcome)
    requires Sorted(index) && (all ==> from == 0 && size == 0)
    ensures o == if badSource then Rejected
                 else if all then Docs(Gather(index, 0, true, 0))
                 else Found(index, index, from, size)
  {
    if badSource {
      return Rejected;
    }
    var after, skip, insufficient, panic := JumpToActiveBatch(index, from);
    if panic {
      return Panicked;
    }
    if insufficient {
      return Docs([]);
    }
    var docs := GatherPages(index, after, skip, all, skip + size);
    return Docs(docs);
  }

  /**
   * Unsorted searches always answer what was asked; so do the ones that fit one request. A large sorted search
   * answers what the pages add up to, and when that is the window is for GatherAllIff and FoundIff to say.
   */
  method IncrementalSearch(index: seq<Hit>, q: Query) returns (o: Outcome)
    requires q.sorted ==> Sorted(index)
    ensures var paged := q.sorted && (q.all || q.from + q.size > MAX_FETCH);
      if !q.hasBody || (!q.all && (q.from < 0 || q.size <= 0)) || (paged && q.badSource) then o == Rejected
      else if paged then o == if q.all then Docs(Gather(index, 0, true, 0)) else Found(index, index, q.from, q.size)
      else o == Docs(if q.all then index else Window(index, q.from, q.size))
  {
    if !q.all && (q.from < 0 || q.size <= 0) {
      return Rejected;
    }
    if !q.hasBody {
      return Rejected;
    }
    var from, size := if q.all then 0 else q.from, if q.all then 0 else q.size;
    if q.all || from + size > MAX_FETCH {
      if q.sorted {
        o := SearchAfter(index, q.all, from, size, q.badSource);
      } else if q.all {
        var docs, _ := ScrollAll(index);
        o := Docs(docs);
      } else {
        var docs, _ := ScrollWindow(index, from, size);
        o := Docs(docs);
      }
      return;
    }
    return Docs(Window(index, from, size));
  }
}
