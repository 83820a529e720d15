/** Backwards walks over a venue's kline history: `paginate_klines` and `klines_paginated`. */
module Pagination {
  import opened Market
  import opened Series

  /** A kline; `body` stands for its prices and volumes. */
  datatype Kline = Kline(openTime: int, body: int)

  // ---------------------------------------------------------------------------
  // An honest venue
  // ---------------------------------------------------------------------------

  const OPEN_TIME: Kline -> int := (b: Kline) => b.openTime

  /** Distinct open times, oldest first. */
  ghost predicate Sorted(bars: seq<Kline>) {
    Increasing(bars, OPEN_TIME)
  }

  lemma SortedUnique(a: seq<Kline>, b: seq<Kline>)
    requires Sorted(a) && Sorted(b) && forall x :: x in a <==> x in b
    ensures a == b
  {
    IncreasingUnique(a, b, OPEN_TIME);
  }

  /** Number of bars that open strictly before the cursor. */
  function Before(venue: seq<Kline>, cursor: int): (k: nat)
    ensures k <= |venue|
  {
    if venue == [] || venue[|venue|-1].openTime < cursor then |venue| else Before(venue[..|venue|-1], cursor)
  }

  lemma {:induction false} BeforeSplits(venue: seq<Kline>, cursor: int, i: nat)
    requires Sorted(venue) && i < |venue|
    ensures i < Before(venue, cursor) <==> venue[i].openTime < cursor
    decreases |venue|
  {
    var n := |venue| - 1;
    assert i < n ==> venue[i].openTime < venue[n].openTime;
    if venue[n].openTime >= cursor && i < n {
      BeforeSplits(venue[..n], cursor, i);
    }
  }

  lemma BeforeIs(venue: seq<Kline>, cursor: int, k: nat)
    requires Sorted(venue) && k <= |venue|
    requires k > 0 ==> venue[k-1].openTime < cursor
    requires k < |venue| ==> cursor <= venue[k].openTime
    ensures Before(venue, cursor) == k
  {
    if k > 0 { BeforeSplits(venue, cursor, k - 1); }
    if k < |venue| { BeforeSplits(venue, cursor, k); }
  }

  /** First index of the newest `limit` of the first `k` bars. */
  function From(k: nat, limit: nat): nat {
    if k >= limit then k - limit else 0
  }

  /** The newest `limit` bars before the cursor, oldest first. */
  function Page(venue: seq<Kline>, cursor: int, limit: nat): seq<Kline> {
    var k := Before(venue, cursor);
    venue[From(k, limit)..k]
  }

  // ---------------------------------------------------------------------------
  // paginate_klines
  // ---------------------------------------------------------------------------

  /** Everything the walk picks up: newest page first, each next page strictly before the
      millisecond that precedes the oldest bar so far. */
  function Collected(venue: seq<Kline>, page: nat, start: int, cursor: int, budget: nat): seq<Kline>
    decreases budget
  {
    var p := Page(venue, cursor, page);
    if budget == 0 || p == [] then []
    else if p[0].openTime <= start || p[0].openTime - 1 >= cursor then p
    else p + Collected(venue, page, start, p[0].openTime - 1, budget - 1)
  }

  ghost predicate InWindow(b: Kline, start: int, end: int) {
    start <= b.openTime < end
  }

  /** Walk back from `end` for at most `budget` pages; a failed fetch is retried once.
      `fault(n)` tells whether the `n`-th request fails. */
  method PaginateKlines(venue: seq<Kline>, page: nat, start: int, end: int, budget: nat, fault: nat -> bool)
    returns (r: Option<seq<Kline>>)
    requires Sorted(venue) && page >= 1
    ensures r == None ==> exists n: nat :: n + 1 < 2 * budget && fault(n) && fault(n + 1)
    ensures r.Some? ==>
              && Sorted(r.value)
              && forall b :: b in r.value <==>
                   b in Collected(venue, page, start, end, budget) && InWindow(b, start, end)
  {
    var all := Walk(venue, page, start, end, budget, fault);
    if all == None { return None; }
    forall b | b in all.value ensures b in venue {
      CollectedFromVenue(venue, page, start, end, budget, b);
    }
    var kept := Retain(all.value, start, end);
    var sorted := Arrange(venue, kept);
    r := Some(sorted);
  }

  method Walk(venue: seq<Kline>, page: nat, start: int, end: int, budget: nat, fault: nat -> bool)
    returns (r: Option<seq<Kline>>)
    requires page >= 1
    ensures r == None ==> exists n: nat :: n + 1 < 2 * budget && fault(n) && fault(n + 1)
    ensures r.Some? ==> r.value == Collected(venue, page, start, end, budget)
  {
    var all: seq<Kline> := [];
    var cursor := end;
    var requests: nat := 0;
    for n := 0 to budget
      invariant requests <= 2 * n
      invariant Collected(venue, page, start, end, budget) == all + Collected(venue, page, start, cursor, budget - n)
    {
      if fault(requests) {
        if fault(requests + 1) { return None; }
        requests := requests + 1;
      }
      requests := requests + 1;
      var got := Page(venue, cursor, page);
      CollectedStep(all, venue, page, start, cursor, budget - n);
      if got == [] {
        return Some(all);
      }
      var oldest := got[0].openTime;
      if oldest <= start {
        return Some(all + got);
      }
      var next := oldest - 1;
      if next >= cursor {
        return Some(all + got);
      }
      all := all + got;
      cursor := next;
    }
    r := Some(all);
  }

  function PageAndRest(all: seq<Kline>, venue: seq<Kline>, page: nat, start: int, cursor: int, budget: nat,
                       p: seq<Kline>): seq<Kline>
    requires budget > 0
  {
    if p == [] then all
    else if p[0].openTime <= start || p[0].openTime - 1 >= cursor then all + p
    else all + p + Collected(venue, page, start, p[0].openTime - 1, budget - 1)
  }

  lemma ConcatAssociates<T>(a: seq<T>, b: seq<T>, c: seq<T>)
    ensures a + (b + c) == a + b + c
  {
  }

  /** One page more of the walk. */
  lemma {:induction false} CollectedStep(all: seq<Kline>, venue: seq<Kline>, page: nat, start: int, cursor: int,
                                         budget: nat)
    requires budget > 0
    ensures all + Collected(venue, page, start, cursor, budget)
         == PageAndRest(all, venue, page, start, cursor, budget, Page(venue, cursor, page))
  {
    var p := Page(venue, cursor, page);
    if p != [] {
      var rest := Collected(venue, page, start, p[0].openTime - 1, budget - 1);
      ConcatAssociates(all, p, rest);
    }
  }

  lemma {:induction false} CollectedFromVenue(venue: seq<Kline>, page: nat, start: int, cursor: int, budget: nat,
                                              b: Kline)
    requires Sorted(venue) && b in Collected(venue, page, start, cursor, budget)
    ensures b in venue && b.openTime < cursor
    decreases budget
  {
    var p := Page(venue, cursor, page);
    if b in p {
      var i := PageIndex(venue, cursor, page, b);
    } else {
      CollectedFromVenue(venue, page, start, p[0].openTime - 1, budget - 1, b);
    }
  }

  lemma PageIndex(venue: seq<Kline>, cursor: int, page: nat, b: Kline) returns (i: nat)
    requires Sorted(venue) && b in Page(venue, cursor, page)
    ensures From(Before(venue, cursor), page) <= i < Before(venue, cursor) && venue[i] == b && b.openTime < cursor
  {
    var k := Before(venue, cursor);
    var j :| 0 <= j < |Page(venue, cursor, page)| && Page(venue, cursor, page)[j] == b;
    i := From(k, page) + j;
    BeforeSplits(venue, cursor, i);
  }

  lemma PageAbove(venue: seq<Kline>, cursor: int, page: nat)
    requires Sorted(venue)
    ensures var p := Page(venue, cursor, page); forall b :: b in p ==> p[0].openTime <= b.openTime
  {
    var p := Page(venue, cursor, page);
    var f := From(Before(venue, cursor), page);
    forall b | b in p ensures p[0].openTime <= b.openTime {
      var i := PageIndex(venue, cursor, page, b);
      assert p[0] == venue[f] && (f < i ==> venue[f].openTime < venue[i].openTime);
    }
  }

  method Retain(all: seq<Kline>, start: int, end: int) returns (kept: seq<Kline>)
    ensures forall b :: b in kept <==> b in all && InWindow(b, start, end)
  {
    kept := [];
    for i := 0 to |all|
      invariant forall b :: b in kept <==> b in all[..i] && InWindow(b, start, end)
    {
      if start <= all[i].openTime < end {
        kept := kept + [all[i]];
      }
      assert all[..i+1] == all[..i] + [all[i]];
    }
    assert all[..|all|] == all;
  }

  /** Sort by open time and drop repeated open times. */
  method Arrange(ghost venue: seq<Kline>, bars: seq<Kline>) returns (sorted: seq<Kline>)
    requires Sorted(venue) && forall b :: b in bars ==> b in venue
    ensures Sorted(sorted)
    ensures forall b :: b in sorted <==> b in bars
  {
    sorted := [];
    for i := 0 to |bars|
      invariant Sorted(sorted)
      invariant forall b :: b in sorted <==> b in bars[..i]
    {
      assert bars[..i+1] == bars[..i] + [bars[i]];
      SameStampSameBar(venue, bars, bars[i]);
      sorted := Insert(sorted, bars[i]);
    }
    assert bars[..|bars|] == bars;
  }

  method Insert(bars: seq<Kline>, bar: Kline) returns (r: seq<Kline>)
    requires Sorted(bars)
    requires forall b :: b in bars && b.openTime == bar.openTime ==> b == bar
    ensures Sorted(r)
    ensures forall b :: b in r <==> b in bars || b == bar
  {
    var k := Before(bars, bar.openTime);
    if k < |bars| && bars[k].openTime == bar.openTime {
      assert bars[k] in bars;
      return bars;
    }
    forall i | 0 <= i < |bars|
      ensures if i < k then bars[i].openTime < bar.openTime else bar.openTime <= bars[i].openTime
    {
      BeforeSplits(bars, bar.openTime, i);
    }
    assert k < |bars| ==> bar.openTime < bars[k].openTime;
    InsertedIsSorted(bars, k, bar);
    r := bars[..k] + [bar] + bars[k..];
  }

  lemma InsertedIsSorted(bars: seq<Kline>, k: nat, bar: Kline)
    requires Sorted(bars) && k <= |bars|
    requires forall i :: 0 <= i < k ==> bars[i].openTime < bar.openTime
    requires forall i :: k <= i < |bars| ==> bar.openTime < bars[i].openTime
    ensures Sorted(bars[..k] + [bar] + bars[k..])
    ensures forall b :: b in bars[..k] + [bar] + bars[k..] <==> b in bars || b == bar
  {
    var r := bars[..k] + [bar] + bars[k..];
    forall i, j | 0 <= i < j < |r| ensures r[i].openTime < r[j].openTime {
      assert r[i] == if i < k then bars[i] else if i == k then bar else bars[i-1];
      assert r[j] == if j < k then bars[j] else if j == k then bar else bars[j-1];
    }
    InsertedMembers(bars, k, bar);
  }

  lemma InsertedMembers(bars: seq<Kline>, k: nat, bar: Kline)
    requires k <= |bars|
    ensures forall b :: b in bars[..k] + [bar] + bars[k..] <==> b in bars || b == bar
  {
    assert bars == bars[..k] + bars[k..];
  }

  lemma SameStampSameBar(venue: seq<Kline>, bars: seq<Kline>, c: Kline)
    requires Sorted(venue) && c in venue && forall b :: b in bars ==> b in venue
    ensures forall b :: b in bars && b.openTime == c.openTime ==> b == c
  {
    var j :| 0 <= j < |venue| && venue[j] == c;
    forall b | b in bars && b.openTime == c.openTime ensures b == c {
      var i :| 0 <= i < |venue| && venue[i] == b;
    }
  }

  /** Neighbouring bars between which a full page can end are at least 2 ms apart. */
  ghost predicate SpacedAtPageEnds(venue: seq<Kline>, page: nat) {
    forall i :: 0 < i < |venue| && i + page <= |venue| ==> venue[i-1].openTime + 2 <= venue[i].openTime
  }

  /** How far back a number of pages reaches. */
  ghost function Reach(page: nat, budget: nat): nat {
    if budget == 0 then 0 else Reach(page, budget - 1) + page
  }

  lemma ReachIs(page: nat, budget: nat)
    ensures Reach(page, budget) == page * budget
  {
    if budget > 0 {
      ReachIs(page, budget - 1);
      assert page * budget == page * (budget - 1) + page;
    }
  }

  /** The next page starts right before the last one when that page ended on a spaced bar. */
  lemma NextPage(venue: seq<Kline>, page: nat, cursor: int)
    requires Sorted(venue) && page >= 1 && SpacedAtPageEnds(venue, page) && Before(venue, cursor) > 0
    ensures var f := From(Before(venue, cursor), page);
            && Page(venue, cursor, page) != [] && Page(venue, cursor, page)[0] == venue[f]
            && venue[f].openTime - 1 < cursor
            && Before(venue, venue[f].openTime - 1) == f
  {
    var f := From(Before(venue, cursor), page);
    BeforeSplits(venue, cursor, f);
    BeforeIs(venue, venue[f].openTime - 1, f);
  }

  /** The walk reaches a bar of the window when the bar is within the page budget. */
  lemma {:induction false} WalkReaches(venue: seq<Kline>, page: nat, start: int, cursor: int, budget: nat, i: nat)
    requires Sorted(venue) && page >= 1 && SpacedAtPageEnds(venue, page)
    requires From(Before(venue, cursor), Reach(page, budget)) <= i < Before(venue, cursor) && start <= venue[i].openTime
    ensures venue[i] in Collected(venue, page, start, cursor, budget)
    decreases budget
  {
    var p := Page(venue, cursor, page);
    var f := From(Before(venue, cursor), page);
    NextPage(venue, page, cursor);
    if i >= f {
      assert p[i - f] == venue[i];
    } else {
      assert venue[i].openTime < venue[f].openTime;
      WalkReaches(venue, page, start, p[0].openTime - 1, budget - 1, i);
    }
  }

  lemma CollectedHere(venue: seq<Kline>, page: nat, start: int, cursor: int, budget: nat, b: Kline)
    requires b in Collected(venue, page, start, cursor, budget)
    ensures budget > 0 && Before(venue, cursor) > 0 && Page(venue, cursor, page) != []
    ensures b in Page(venue, cursor, page)
         || b in Collected(venue, page, start, Page(venue, cursor, page)[0].openTime - 1, budget - 1)
  {
  }

  /** One page of the walk: the bar is on it, or the walk picks it up from the next cursor on. */
  lemma WalkStep(venue: seq<Kline>, page: nat, start: int, cursor: int, budget: nat, b: Kline)
    returns (here: bool, i: nat, next: int)
    requires Sorted(venue) && page >= 1 && SpacedAtPageEnds(venue, page)
    requires b in Collected(venue, page, start, cursor, budget)
    ensures budget > 0
    ensures here ==> From(Before(venue, cursor), page) <= i < Before(venue, cursor) && venue[i] == b
    ensures !here ==>
      b in Collected(venue, page, start, next, budget - 1) && Before(venue, next) == From(Before(venue, cursor), page)
  {
    CollectedHere(venue, page, start, cursor, budget, b);
    NextPage(venue, page, cursor);
    here, i, next := b in Page(venue, cursor, page), 0, Page(venue, cursor, page)[0].openTime - 1;
    if here {
      i := PageIndex(venue, cursor, page, b);
    }
  }

  /** ... and never looks further back than its budget. */
  lemma {:induction false} WalkStaysInBudget(venue: seq<Kline>, page: nat, start: int, cursor: int, budget: nat,
                                             b: Kline)
    returns (i: nat)
    requires Sorted(venue) && page >= 1 && SpacedAtPageEnds(venue, page)
    requires b in Collected(venue, page, start, cursor, budget)
    ensures From(Before(venue, cursor), Reach(page, budget)) <= i < Before(venue, cursor) && venue[i] == b
    decreases budget
  {
    var here, next;
    here, i, next := WalkStep(venue, page, start, cursor, budget, b);
    if !here {
      i := WalkStaysInBudget(venue, page, start, next, budget - 1, b);
    }
    ReachStep(Before(venue, cursor), page, budget);
  }

  lemma ReachStep(k: nat, page: nat, budget: nat)
    requires budget > 0
    ensures From(From(k, page), Reach(page, budget - 1)) == From(k, Reach(page, budget))
  {
  }

  /** The venue's bars inside the window, as far back as the page budget reaches. */
  function Reachable(venue: seq<Kline>, page: nat, start: int, end: int, budget: nat): seq<Kline> {
    var lo := Before(venue, start);
    var hi := Before(venue, end);
    var oldest := From(hi, page * budget);
    var from := if lo >= oldest then lo else oldest;
    if from <= hi then venue[from..hi] else []
  }

  /** Paginated history is complete: on a venue whose pages end at least 2 ms apart, the
      arranged bars of the window are exactly those the budget reaches, and so the whole window
      whenever it ends within that reach. */
  lemma PaginationIsComplete(venue: seq<Kline>, page: nat, start: int, end: int, budget: nat, r: seq<Kline>)
    requires Sorted(venue) && page >= 1 && SpacedAtPageEnds(venue, page)
    requires Sorted(r)
    requires forall b :: b in r <==> b in Collected(venue, page, start, end, budget) && InWindow(b, start, end)
    ensures r == Reachable(venue, page, start, end, budget)
  {
    var expected := Reachable(venue, page, start, end, budget);
    forall b ensures b in r <==> b in expected {
      CollectedIffReachable(venue, page, start, end, budget, b);
    }
    ReachableSorted(venue, page, start, end, budget);
    SortedUnique(r, expected);
  }

  lemma ReachableSorted(venue: seq<Kline>, page: nat, start: int, end: int, budget: nat)
    requires Sorted(venue)
    ensures Sorted(Reachable(venue, page, start, end, budget))
  {
  }

  lemma CollectedIffReachable(venue: seq<Kline>, page: nat, start: int, end: int, budget: nat, b: Kline)
    requires Sorted(venue) && page >= 1 && SpacedAtPageEnds(venue, page)
    ensures b in Collected(venue, page, start, end, budget) && InWindow(b, start, end)
            <==> b in Reachable(venue, page, start, end, budget)
  {
    ReachIs(page, budget);
    if b in Collected(venue, page, start, end, budget) && InWindow(b, start, end) {
      var i := WalkStaysInBudget(venue, page, start, end, budget, b);
      IndexReachable(venue, page, start, end, budget, i);
    }
    if b in Reachable(venue, page, start, end, budget) {
      var i := ReachableIndex(venue, page, start, end, budget, b);
      WalkReaches(venue, page, start, end, budget, i);
    }
  }

  lemma IndexReachable(venue: seq<Kline>, page: nat, start: int, end: int, budget: nat, i: nat)
    requires Sorted(venue) && From(Before(venue, end), page * budget) <= i < Before(venue, end)
    requires start <= venue[i].openTime
    ensures venue[i] in Reachable(venue, page, start, end, budget)
  {
    BeforeSplits(venue, start, i);
    var lo, oldest := Before(venue, start), From(Before(venue, end), page * budget);
    var from := if lo >= oldest then lo else oldest;
    SliceHas(venue, from, Before(venue, end), i);
  }

  lemma SliceHas<T>(s: seq<T>, lo: nat, hi: nat, i: nat)
    requires lo <= i < hi <= |s|
    ensures s[i] in s[lo..hi]
  {
    assert s[lo..hi][i - lo] == s[i];
  }

  lemma ReachableIndex(venue: seq<Kline>, page: nat, start: int, end: int, budget: nat, b: Kline) returns (i: nat)
    requires Sorted(venue) && b in Reachable(venue, page, start, end, budget)
    ensures From(Before(venue, end), page * budget) <= i < Before(venue, end)
    ensures venue[i] == b && InWindow(b, start, end)
  {
    var lo, hi := Before(venue, start), Before(venue, end);
    var oldest := From(hi, page * budget);
    var from := if lo >= oldest then lo else oldest;
    var j :| 0 <= j < hi - from && venue[from..hi][j] == b;
    i := from + j;
    BeforeSplits(venue, start, i);
    BeforeSplits(venue, end, i);
  }

  /** Bar `i` is in the window and within the budget, and the walk does not pick it up. */
  ghost predicate Misses(venue: seq<Kline>, page: nat, start: int, end: int, budget: nat, i: nat)
    requires i < |venue|
  {
    && InWindow(venue[i], start, end) && Before(venue, end) <= i + Reach(page, budget)
    && venue[i] !in Collected(venue, page, start, end, budget)
  }

  ghost predicate MissesNothing(venue: seq<Kline>, page: nat, budget: nat) {
    forall start, end, i: nat :: i < |venue| ==> !Misses(venue, page, start, end, budget, i)
  }

  /** With at least two pages to spend, the walk misses no bar of any window within its budget
      if and only if no full page can end 1 ms after its predecessor. */
  lemma {:induction false} CompleteIffSpaced(venue: seq<Kline>, page: nat, budget: nat)
    requires Sorted(venue) && page >= 1 && budget >= 2
    ensures MissesNothing(venue, page, budget) <==> SpacedAtPageEnds(venue, page)
  {
    if SpacedAtPageEnds(venue, page) {
      SpacedWalksMissNothing(venue, page, budget);
    } else {
      TightWalksMiss(venue, page, budget);
    }
  }

  lemma {:induction false} SpacedWalksMissNothing(venue: seq<Kline>, page: nat, budget: nat)
    requires Sorted(venue) && page >= 1 && SpacedAtPageEnds(venue, page)
    ensures MissesNothing(venue, page, budget)
  {
    forall start, end, i: nat | i < |venue| ensures !Misses(venue, page, start, end, budget, i) {
      SpacedMissesNothing(venue, page, start, end, budget, i);
    }
  }

  lemma {:induction false} TightWalksMiss(venue: seq<Kline>, page: nat, budget: nat)
    requires Sorted(venue) && page >= 1 && budget >= 2 && !SpacedAtPageEnds(venue, page)
    ensures !MissesNothing(venue, page, budget)
  {
    var i :| 0 < i < |venue| && i + page <= |venue| && venue[i-1].openTime + 2 > venue[i].openTime;
    TightPageEndMisses(venue, page, budget, i);
  }

  lemma {:induction false} SpacedMissesNothing(venue: seq<Kline>, page: nat, start: int, end: int, budget: nat, i: nat)
    requires Sorted(venue) && page >= 1 && SpacedAtPageEnds(venue, page) && i < |venue|
    ensures !Misses(venue, page, start, end, budget, i)
  {
    if InWindow(venue[i], start, end) && Before(venue, end) <= i + Reach(page, budget) {
      BeforeSplits(venue, end, i);
      WalkReaches(venue, page, start, end, budget, i);
    }
  }

  lemma {:induction false} TightPageEndMisses(venue: seq<Kline>, page: nat, budget: nat, i: nat)
    requires Sorted(venue) && page >= 1 && budget >= 2
    requires 0 < i && i + page <= |venue| && venue[i-1].openTime + 2 > venue[i].openTime
    ensures Misses(venue, page, venue[i-1].openTime, venue[i+page-1].openTime + 1, budget, i - 1)
  {
    var start, end := venue[i-1].openTime, venue[i+page-1].openTime + 1;
    assert start < venue[i].openTime && venue[i].openTime < end;
    BeforeIs(venue, end, i + page);
    assert Reach(page, budget) >= page + page;
    SkippedBar(venue, page, start, end, budget, i);
  }

  /** A page from bar `i` on, one millisecond after its predecessor, skips the predecessor. */
  lemma {:induction false} SkippedBar(venue: seq<Kline>, page: nat, start: int, end: int, budget: nat, i: nat)
    requires Sorted(venue) && page >= 1 && budget >= 2 && 0 < i && i + page <= |venue|
    requires Before(venue, end) == i + page && venue[i-1].openTime == start && venue[i].openTime == start + 1
    ensures venue[i-1] !in Collected(venue, page, start, end, budget)
  {
    var p := Page(venue, end, page);
    assert p[0] == venue[i];
    PageAbove(venue, end, page);
    if venue[i-1] in Collected(venue, page, start, start, budget - 1) {
      CollectedFromVenue(venue, page, start, start, budget - 1, venue[i-1]);
    }
    CollectedStep([], venue, page, start, end, budget);
    var c := Collected(venue, page, start, end, budget);
    assert [] + c == c;
    assert [] + p == p;
  }
}
