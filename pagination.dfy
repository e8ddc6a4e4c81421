/**
 * Relay-style cursor windowing over an ordered sequence (`query_characters`).
 *
 * The cursor of an element is its index in the sequence handed in. `after`
 * and `before` are exclusive cursor bounds, `first` keeps a prefix of the
 * window and `last` a suffix; `first` wins when both are given. Both flags are
 * computed from the adjusted window boundaries. Under `first` the right
 * boundary is moved left by the number of kept elements rather than set to
 * `start + kept`, so `hasNextPage` reports a next page whenever something
 * was kept; `PaginateIntended` is the definition with the boundary set to
 * `start + kept`.
 *
 * The index arithmetic (`PageCut`) is kept apart from the edges it selects
 * (`Materialize`).
 */
module Pagination {
  import opened Outcomes

  datatype Edge<U> = Edge(cursor: nat, node: U)

  datatype Connection<U> = Connection(hasPreviousPage: bool, hasNextPage: bool, edges: seq<Edge<U>>)

  /** What `after` and `before` leave of `[0, len)`, before `first`/`last` apply. */
  datatype Bounds = Exhausted | Range(start: nat, end: nat)

  /** The elements `[lo, hi)` a page shows, and its two flags. */
  datatype Cut = Cut(lo: nat, hi: nat, hasPreviousPage: bool, hasNextPage: bool)

  function Min(a: nat, b: nat): nat { if a <= b then a else b }

  /**
   * An `after` at or past the end, or a `before` of 0, ends the query with an
   * empty page; otherwise `start = after + 1` (or 0) and `end = before` (or
   * `len`), and slicing with `start > end` or `end > len` panics.
   */
  function CursorBounds(len: nat, after: Option<nat>, before: Option<nat>): (b: Result<Bounds>)
    ensures b.Ok? && b.value.Range? ==> b.value.start <= b.value.end <= len
    ensures b.Ok? && b.value.Range? ==>
      && b.value.start == (if after.Some? then after.value + 1 else 0)
      && b.value.end == (if before.Some? then before.value else len)
    ensures b == Ok(Exhausted) <==> (after.Some? && after.value >= len) || before == Some(0)
  {
    if after.Some? && after.value >= len then Ok(Exhausted)
    else
      var start := if after.Some? then after.value + 1 else 0;
      if before.Some? && before.value == 0 then Ok(Exhausted)
      else
        var end := if before.Some? then before.value else len;
        if start <= end <= len then Ok(Range(start, end)) else Err(SliceOutOfRange)
  }

  /** How `first` or `last` shrinks `[start, end)`, and the flags read off the adjusted boundaries. */
  function WindowCut(len: nat, start: nat, end: nat, first: Option<nat>, last: Option<nat>): (c: Cut)
    requires start <= end <= len
    ensures start <= c.lo <= c.hi <= end
  {
    if first.Some? then
      var kept := Min(first.value, end - start);
      Cut(start, start + kept, start > 0, end - kept < len)
    else if last.Some? then
      var kept := Min(last.value, end - start);
      Cut(end - kept, end, end - kept > 0, end < len)
    else
      Cut(start, end, start > 0, end < len)
  }

  /** The whole index computation of `query_characters`. */
  function PageCut(len: nat, after: Option<nat>, before: Option<nat>, first: Option<nat>, last: Option<nat>)
    : (r: Result<Cut>)
    ensures r.Ok? ==> r.value.lo <= r.value.hi <= len
  {
    match CursorBounds(len, after, before)
    case Err(fault) => Err(fault)
    case Ok(Exhausted) => Ok(Cut(0, 0, false, false))
    case Ok(Range(start, end)) => Ok(WindowCut(len, start, end, first, last))
  }

  /** `items.iter().enumerate().map(|(idx, item)| Edge::new(offset + idx, map_to(item)))` */
  function Enumerate<T, U>(offset: nat, items: seq<T>, mapTo: T -> U): (es: seq<Edge<U>>)
    ensures |es| == |items|
  {
    seq(|items|, i requires 0 <= i < |items| => Edge(offset + i, mapTo(items[i])))
  }

  /** The connection a cut describes: its flags, and one edge per element of `[lo, hi)`. */
  function Materialize<T, U>(characters: seq<T>, cut: Cut, mapTo: T -> U): (c: Connection<U>)
    requires cut.lo <= cut.hi <= |characters|
    ensures c.hasPreviousPage == cut.hasPreviousPage && c.hasNextPage == cut.hasNextPage
    ensures |c.edges| == cut.hi - cut.lo
  {
    Connection(cut.hasPreviousPage, cut.hasNextPage, Enumerate(cut.lo, characters[cut.lo..cut.hi], mapTo))
  }

  /** The connection `query_characters` builds, as the code computes it. */
  function Paginate<T, U>(characters: seq<T>, after: Option<nat>, before: Option<nat>,
                          first: Option<nat>, last: Option<nat>, mapTo: T -> U): (r: Result<Connection<U>>)
    ensures r.Err? ==> r.fault == SliceOutOfRange
    ensures r.Ok? ==> |r.value.edges| <= |characters|
  {
    var cut :- PageCut(|characters|, after, before, first, last);
    Ok(Materialize(characters, cut, mapTo))
  }

  /** An `after` cursor at or past the end yields an empty page with both flags false, whatever follows. */
  lemma AfterPastEndIsEmpty<T, U>(characters: seq<T>, after: nat, before: Option<nat>,
                                  first: Option<nat>, last: Option<nat>, mapTo: T -> U)
    requires after >= |characters|
    ensures Paginate(characters, Some(after), before, first, last, mapTo) == Ok(Connection(false, false, []))
  {
  }

  /** A `before` cursor of 0 yields an empty page with both flags false, unless `after` already did. */
  lemma BeforeZeroIsEmpty<T, U>(characters: seq<T>, after: Option<nat>,
                                first: Option<nat>, last: Option<nat>, mapTo: T -> U)
    requires after.Some? ==> after.value < |characters|
    ensures Paginate(characters, after, Some(0), first, last, mapTo) == Ok(Connection(false, false, []))
  {
  }

  /** `connection.edges.extend(...)`: append one edge per item, cursors counted from `offset`. */
  method ExtendEdges<T, U>(connection: Connection<U>, offset: nat, items: seq<T>, mapTo: T -> U)
    returns (extended: Connection<U>)
    ensures extended == connection.(edges := connection.edges + Enumerate(offset, items, mapTo))
  {
    extended := connection;
    var idx := 0;
    while idx < |items|
      invariant idx <= |items|
      invariant extended == connection.(edges := connection.edges + Enumerate(offset, items[..idx], mapTo))
    {
      assert Enumerate(offset, items[..idx + 1], mapTo) == Enumerate(offset, items[..idx], mapTo) + [Edge(offset + idx, mapTo(items[idx]))];
      extended := extended.(edges := extended.edges + [Edge(offset + idx, mapTo(items[idx]))]);
      idx := idx + 1;
    }
    assert items[..idx] == items;
  }

  /**
   * The second half of `query_characters`: slice `characters[start..end]`,
   * let `first` or `last` shrink the slice and move one boundary, then build
   * the connection from the adjusted boundaries.
   */
  method CutWindow<T, U>(characters: seq<T>, start: nat, end: nat, first: Option<nat>, last: Option<nat>,
                         mapTo: T -> U) returns (connection: Connection<U>)
    requires start <= end <= |characters|
    ensures connection == Materialize(characters, WindowCut(|characters|, start, end, first, last), mapTo)
  {
    ghost var cut := WindowCut(|characters|, start, end, first, last);
    var start, end := start, end;
    var slice := characters[start..end];
    if first.Some? {
      slice := slice[..Min(first.value, |slice|)];
      assert slice == characters[cut.lo..cut.hi];
      end := end - Min(first.value, |slice|);
      assert start == cut.lo && cut.hasNextPage == (end < |characters|);
    } else if last.Some? {
      slice := slice[|slice| - Min(last.value, |slice|)..];
      assert slice == characters[cut.lo..cut.hi];
      start := end - Min(last.value, |slice|);
      assert start == cut.lo && cut.hasPreviousPage == (start > 0);
    }
    connection := Connection(start > 0, end < |characters|, []);
    connection := ExtendEdges(connection, start, slice, mapTo);
    assert connection == Connection(cut.hasPreviousPage, cut.hasNextPage, Enumerate(cut.lo, characters[cut.lo..cut.hi], mapTo));
  }

  /**
   * `query_characters` step by step: the early returns of `after` and
   * `before`, the slice that panics on bad bounds, then the window.
   */
  method QueryCharacters<T, U>(after: Option<nat>, before: Option<nat>, first: Option<nat>, last: Option<nat>,
                               characters: seq<T>, mapTo: T -> U) returns (r: Result<Connection<U>>)
    ensures r == Paginate(characters, after, before, first, last, mapTo)
  {
    var start: nat := 0;
    var end: nat := |characters|;
    if after.Some? {
      if after.value >= |characters| {
        AfterPastEndIsEmpty(characters, after.value, before, first, last, mapTo);
        return Ok(Connection(false, false, []));
      }
      start := after.value + 1;
    }
    if before.Some? {
      if before.value == 0 {
        BeforeZeroIsEmpty(characters, after, first, last, mapTo);
        return Ok(Connection(false, false, []));
      }
      end := before.value;
    }
    if !(start <= end <= |characters|) {
      return Err(SliceOutOfRange);
    }
    assert PageCut(|characters|, after, before, first, last) == Ok(WindowCut(|characters|, start, end, first, last));
    var connection := CutWindow(characters, start, end, first, last, mapTo);
    return Ok(connection);
  }

  /*
   * Properties of the windowing.
   */

  /** Slicing panics exactly when no early return applies and `before` lies past the end or before `after + 1`. */
  lemma SliceFaults<T, U>(characters: seq<T>, after: Option<nat>, before: Option<nat>,
                          first: Option<nat>, last: Option<nat>, mapTo: T -> U)
    ensures Paginate(characters, after, before, first, last, mapTo).Err? <==>
      && (after.Some? ==> after.value < |characters|)
      && before.Some? && before.value != 0
      && (before.value > |characters| || (after.Some? && after.value + 1 > before.value))
  {
  }

  /**
   * Edges come in sequence order with consecutive cursors; each cursor lies
   * strictly between `after` and `before` and the edge wraps the element at
   * that index.
   */
  lemma EdgesIndexCharacters<T, U>(characters: seq<T>, after: Option<nat>, before: Option<nat>,
                                   first: Option<nat>, last: Option<nat>, mapTo: T -> U)
    ensures var r := Paginate(characters, after, before, first, last, mapTo);
      r.Ok? ==> forall i :: 0 <= i < |r.value.edges| ==>
        && r.value.edges[i].cursor == r.value.edges[0].cursor + i
        && r.value.edges[i].cursor < |characters|
        && r.value.edges[i].node == mapTo(characters[r.value.edges[i].cursor])
        && (after.Some? ==> after.value < r.value.edges[i].cursor)
        && (before.Some? ==> r.value.edges[i].cursor < before.value)
  {
    var r := Paginate(characters, after, before, first, last, mapTo);
    if r.Ok? {
      var cut := PageCut(|characters|, after, before, first, last).value;
      assert r.value.edges == Enumerate(cut.lo, characters[cut.lo..cut.hi], mapTo);
      assert cut.lo < cut.hi ==> (after.Some? ==> after.value < cut.lo) && (before.Some? ==> cut.hi <= before.value);
    }
  }

  /**
   * Without `first` and `last`, and past the early returns, the page is the
   * whole window `[s, e)` with `s = after + 1` (or 0) and `e = before` (or the
   * length): one edge per element, cursor `s + i` over element `s + i`, and
   * the flags `s > 0` and `e < len`. It fails exactly when that window is
   * not a valid slice.
   */
  lemma WholeWindow<T, U>(characters: seq<T>, after: Option<nat>, before: Option<nat>, mapTo: T -> U)
    requires after.Some? ==> after.value < |characters|
    requires before != Some(0)
    ensures var s := if after.Some? then after.value + 1 else 0;
      var e := if before.Some? then before.value else |characters|;
      var r := Paginate(characters, after, before, None, None, mapTo);
      && (r.Ok? <==> s <= e <= |characters|)
      && (r.Ok? ==>
        && |r.value.edges| == e - s
        && (forall i :: 0 <= i < e - s ==> r.value.edges[i] == Edge(s + i, mapTo(characters[s + i])))
        && r.value.hasPreviousPage == (s > 0)
        && r.value.hasNextPage == (e < |characters|))
  {
    var s := if after.Some? then after.value + 1 else 0;
    var e := if before.Some? then before.value else |characters|;
    if s <= e <= |characters| {
      assert PageCut(|characters|, after, before, None, None) == Ok(Cut(s, e, s > 0, e < |characters|));
      var edges := Enumerate(s, characters[s..e], mapTo);
      forall i | 0 <= i < e - s ensures edges[i] == Edge(s + i, mapTo(characters[s + i])) {
        assert characters[s..e][i] == characters[s + i];
      }
    }
  }

  /** The edges of `[lo, lo + k)` are the first `k` edges of `[lo, hi)`. */
  lemma MaterializePrefix<T, U>(characters: seq<T>, lo: nat, hi: nat, k: nat, mapTo: T -> U)
    requires lo + k <= hi <= |characters|
    ensures Enumerate(lo, characters[lo..lo + k], mapTo) == Enumerate(lo, characters[lo..hi], mapTo)[..k]
  {
    var lhs, rhs := Enumerate(lo, characters[lo..lo + k], mapTo), Enumerate(lo, characters[lo..hi], mapTo)[..k];
    forall i | 0 <= i < k ensures lhs[i] == rhs[i] {
      assert characters[lo..lo + k][i] == characters[lo..hi][i];
    }
  }

  /** The edges of `[hi - k, hi)` are the last `k` edges of `[lo, hi)`. */
  lemma MaterializeSuffix<T, U>(characters: seq<T>, lo: nat, hi: nat, k: nat, mapTo: T -> U)
    requires lo + k <= hi <= |characters|
    ensures Enumerate(hi - k, characters[hi - k..hi], mapTo) == Enumerate(lo, characters[lo..hi], mapTo)[hi - lo - k..]
  {
    var lhs, rhs := Enumerate(hi - k, characters[hi - k..hi], mapTo), Enumerate(lo, characters[lo..hi], mapTo)[hi - lo - k..];
    forall i | 0 <= i < k ensures lhs[i] == rhs[i] {
      assert characters[hi - k..hi][i] == characters[lo..hi][hi - lo - k + i];
    }
  }

  /** On indices: `first` keeps the start of the unbounded window and moves its flags as the code does. */
  lemma FirstCut(len: nat, after: Option<nat>, before: Option<nat>, first: nat, last: Option<nat>)
    requires PageCut(len, after, before, None, None).Ok?
    ensures var all := PageCut(len, after, before, None, None).value;
      var kept := Min(first, all.hi - all.lo);
      PageCut(len, after, before, Some(first), last)
        == Ok(Cut(all.lo, all.lo + kept, all.hasPreviousPage, all.hasNextPage || kept > 0))
  {
  }

  /** On indices: `last` keeps the end of the unbounded window. */
  lemma LastCut(len: nat, after: Option<nat>, before: Option<nat>, last: nat)
    requires PageCut(len, after, before, None, None).Ok?
    ensures var all := PageCut(len, after, before, None, None).value;
      var kept := Min(last, all.hi - all.lo);
      PageCut(len, after, before, None, Some(last))
        == Ok(Cut(all.hi - kept, all.hi, all.hasPreviousPage || kept < all.hi - all.lo, all.hasNextPage))
  {
  }

  /**
   * `first` keeps a prefix of the `after`/`before` window and leaves
   * `hasPreviousPage` alone; because the right boundary moves left by the kept
   * count, `hasNextPage` becomes true as soon as anything is kept. `last` is
   * then ignored, and `first = 0` keeps the window's own flags.
   */
  lemma FirstKeepsPrefix<T, U>(characters: seq<T>, after: Option<nat>, before: Option<nat>,
                               first: nat, last: Option<nat>, mapTo: T -> U)
    requires Paginate(characters, after, before, None, None, mapTo).Ok?
    ensures Paginate(characters, after, before, Some(first), last, mapTo).Ok?
    ensures var whole := Paginate(characters, after, before, None, None, mapTo).value;
      var page := Paginate(characters, after, before, Some(first), last, mapTo).value;
      var kept := Min(first, |whole.edges|);
      && page.edges == whole.edges[..kept]
      && page.hasPreviousPage == whole.hasPreviousPage
      && (page.hasNextPage <==> whole.hasNextPage || kept > 0)
  {
    var n := |characters|;
    FirstCut(n, after, before, first, last);
    var all, cut := PageCut(n, after, before, None, None).value, PageCut(n, after, before, Some(first), last).value;
    MaterializePrefix(characters, all.lo, all.hi, cut.hi - cut.lo, mapTo);
  }

  /**
   * `last` (without `first`) keeps a suffix of the window and leaves
   * `hasNextPage` alone; `hasPreviousPage` holds when the window started
   * after the beginning or something of it was dropped.
   */
  lemma LastKeepsSuffix<T, U>(characters: seq<T>, after: Option<nat>, before: Option<nat>,
                              last: nat, mapTo: T -> U)
    requires Paginate(characters, after, before, None, None, mapTo).Ok?
    ensures Paginate(characters, after, before, None, Some(last), mapTo).Ok?
    ensures var whole := Paginate(characters, after, before, None, None, mapTo).value;
      var page := Paginate(characters, after, before, None, Some(last), mapTo).value;
      var kept := Min(last, |whole.edges|);
      && page.edges == whole.edges[|whole.edges| - kept..]
      && page.hasNextPage == whole.hasNextPage
      && (page.hasPreviousPage <==> whole.hasPreviousPage || kept < |whole.edges|)
  {
    var n := |characters|;
    LastCut(n, after, before, last);
    var all, cut := PageCut(n, after, before, None, None).value, PageCut(n, after, before, None, Some(last)).value;
    MaterializeSuffix(characters, all.lo, all.hi, cut.hi - cut.lo, mapTo);
  }

  /** `first` takes precedence: once it is given, `last` changes nothing. */
  lemma FirstOverridesLast<T, U>(characters: seq<T>, after: Option<nat>, before: Option<nat>,
                                 first: nat, last: nat, mapTo: T -> U)
    ensures Paginate(characters, after, before, Some(first), Some(last), mapTo)
         == Paginate(characters, after, before, Some(first), None, mapTo)
  {
  }

  /**
   * Without `first`, a non-empty page has a previous page exactly when its
   * first cursor is past 0 and a next page exactly when an element follows
   * its last cursor.
   */
  lemma FlagsMatchEdgesWithoutFirst<T, U>(characters: seq<T>, after: Option<nat>, before: Option<nat>,
                                          last: Option<nat>, mapTo: T -> U)
    ensures var r := Paginate(characters, after, before, None, last, mapTo);
      r.Ok? && r.value.edges != [] ==>
        && (r.value.hasPreviousPage <==> r.value.edges[0].cursor > 0)
        && (r.value.hasNextPage <==> r.value.edges[|r.value.edges| - 1].cursor + 1 < |characters|)
  {
  }

  /** The edges of `[lo, hi)` are those of `[lo, mid)` followed by those of `[mid, hi)`. */
  lemma {:induction false} MaterializeSplit<T, U>(characters: seq<T>, lo: nat, mid: nat, hi: nat, mapTo: T -> U)
    requires lo <= mid <= hi <= |characters|
    ensures Enumerate(lo, characters[lo..hi], mapTo)
         == Enumerate(lo, characters[lo..mid], mapTo) + Enumerate(mid, characters[mid..hi], mapTo)
  {
    var lhs := Enumerate(lo, characters[lo..hi], mapTo);
    var rhs := Enumerate(lo, characters[lo..mid], mapTo) + Enumerate(mid, characters[mid..hi], mapTo);
    forall i | 0 <= i < |lhs| ensures lhs[i] == rhs[i] {
      if i < mid - lo {
        assert characters[lo..hi][i] == characters[lo..mid][i];
      } else {
        assert characters[lo..hi][i] == characters[mid..hi][i - (mid - lo)];
      }
    }
  }

  /** On indices: a forward page of `k` after cursor `a` covers `[a + 1, a + 1 + kept)`, or nothing once `a` is past the end. */
  lemma ForwardCut(n: nat, a: nat, k: nat)
    ensures PageCut(n, Some(a), None, Some(k), None).Ok?
    ensures var cut := PageCut(n, Some(a), None, Some(k), None).value;
      if a < n then cut.lo == a + 1 && cut.hi == a + 1 + Min(k, n - a - 1)
      else cut.lo == 0 && cut.hi == 0
  {
  }

  /** Two consecutive forward windows, on indices: the second starts where the first ends, and together they are one window. */
  lemma {:induction false} ForwardCutsConcatenate(n: nat, a: nat, k1: nat, k2: nat)
    ensures var c1, c2, c := PageCut(n, Some(a), None, Some(k1), None), PageCut(n, Some(a + k1), None, Some(k2), None),
      PageCut(n, Some(a), None, Some(k1 + k2), None);
      && c1.Ok? && c2.Ok? && c.Ok?
      && c1.value.lo == c.value.lo
      && (c2.value.lo < c2.value.hi ==> c1.value.hi == c2.value.lo && c2.value.hi == c.value.hi)
      && (c2.value.lo == c2.value.hi ==> c1.value.hi == c.value.hi)
  {
    ForwardCut(n, a, k1);
    ForwardCut(n, a + k1, k2);
    ForwardCut(n, a, k1 + k2);
  }

  /**
   * Paging forward: a page of `k1` after cursor `a`, followed by a page of
   * `k2` after cursor `a + k1`, lists exactly the edges of one page of
   * `k1 + k2` after `a`, with nothing skipped or repeated.
   */
  lemma {:induction false} PagesConcatenate<T, U>(characters: seq<T>, a: nat, k1: nat, k2: nat, mapTo: T -> U)
    ensures var p1 := Paginate(characters, Some(a), None, Some(k1), None, mapTo);
      var p2 := Paginate(characters, Some(a + k1), None, Some(k2), None, mapTo);
      var both := Paginate(characters, Some(a), None, Some(k1 + k2), None, mapTo);
      p1.Ok? && p2.Ok? && both.Ok? && both.value.edges == p1.value.edges + p2.value.edges
  {
    var n := |characters|;
    ForwardCutsConcatenate(n, a, k1, k2);
    var c1, c2, c := PageCut(n, Some(a), None, Some(k1), None).value,
      PageCut(n, Some(a + k1), None, Some(k2), None).value, PageCut(n, Some(a), None, Some(k1 + k2), None).value;
    var e1, e2, e := Materialize(characters, c1, mapTo).edges, Materialize(characters, c2, mapTo).edges,
      Materialize(characters, c, mapTo).edges;
    if c2.lo < c2.hi {
      MaterializeSplit(characters, c1.lo, c1.hi, c.hi, mapTo);
    } else {
      assert e == e1 + e2;
    }
  }

  /**
   * As written, `first` can report a next page that does not exist: one
   * element, `first = 1`, gives its only edge with `hasNextPage` true.
   */
  lemma FirstFlagQuirk()
    ensures Paginate([7], None, None, Some(1), None, (x: int) => x) == Ok(Connection(false, true, [Edge(0, 7)]))
  {
    var id := (x: int) => x;
    assert PageCut(1, None, None, Some(1), None) == Ok(Cut(0, 1, false, true));
    assert [7][0..1] == [7];
    var edges := Enumerate(0, [7], id);
    assert |edges| == 1 && edges[0] == Edge(0, 7);
    assert edges == [Edge(0, 7)];
  }

  /** `PageCut` with the boundary after `first` set to `start + kept`. */
  function PageCutIntended(len: nat, after: Option<nat>, before: Option<nat>, first: Option<nat>, last: Option<nat>)
    : (r: Result<Cut>)
    ensures r.Ok? ==> r.value.lo <= r.value.hi <= len
  {
    match CursorBounds(len, after, before)
    case Err(fault) => Err(fault)
    case Ok(Exhausted) => Ok(Cut(0, 0, false, false))
    case Ok(Range(start, end)) =>
      if first.Some? then
        var kept := Min(first.value, end - start);
        Ok(Cut(start, start + kept, start > 0, start + kept < len))
      else
        Ok(WindowCut(len, start, end, first, last))
  }

  function PaginateIntended<T, U>(characters: seq<T>, after: Option<nat>, before: Option<nat>,
                                  first: Option<nat>, last: Option<nat>, mapTo: T -> U): (r: Result<Connection<U>>)
    ensures r.Err? ==> r.fault == SliceOutOfRange
    ensures r.Ok? ==> |r.value.edges| <= |characters|
  {
    var cut :- PageCutIntended(|characters|, after, before, first, last);
    Ok(Materialize(characters, cut, mapTo))
  }

  /** On indices: the corrected cut selects the same elements, and its flags say whether elements lie outside them. */
  lemma IntendedCutFlags(len: nat, after: Option<nat>, before: Option<nat>, first: Option<nat>, last: Option<nat>)
    ensures var r, w := PageCutIntended(len, after, before, first, last), PageCut(len, after, before, first, last);
      && (r.Ok? <==> w.Ok?)
      && (r.Ok? ==> r.value.lo == w.value.lo && r.value.hi == w.value.hi)
      && (r.Ok? && r.value.lo < r.value.hi ==>
        && (r.value.hasPreviousPage <==> r.value.lo > 0)
        && (r.value.hasNextPage <==> r.value.hi < len))
  {
  }

  /**
   * With the boundary corrected, every non-empty page, `first` included, has
   * a next page exactly when an element follows its last cursor, and a
   * previous page exactly when its first cursor is past 0; the edges are
   * those of the code as written.
   */
  lemma IntendedFlagsMatchEdges<T, U>(characters: seq<T>, after: Option<nat>, before: Option<nat>,
                                      first: Option<nat>, last: Option<nat>, mapTo: T -> U)
    ensures var r := PaginateIntended(characters, after, before, first, last, mapTo);
      && (r.Ok? <==> Paginate(characters, after, before, first, last, mapTo).Ok?)
      && (r.Ok? ==> r.value.edges == Paginate(characters, after, before, first, last, mapTo).value.edges)
      && (r.Ok? && r.value.edges != [] ==>
        && (r.value.hasPreviousPage <==> r.value.edges[0].cursor > 0)
        && (r.value.hasNextPage <==> r.value.edges[|r.value.edges| - 1].cursor + 1 < |characters|))
  {
    var n := |characters|;
    IntendedCutFlags(n, after, before, first, last);
    var r := PageCutIntended(n, after, before, first, last);
    if r.Ok? {
      var cut := r.value;
      var edges := Enumerate(cut.lo, characters[cut.lo..cut.hi], mapTo);
      if edges != [] {
        assert edges[0].cursor == cut.lo && edges[|edges| - 1].cursor == cut.hi - 1;
      }
    }
  }
}
