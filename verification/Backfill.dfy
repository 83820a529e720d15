/** Deep backfill walks: `klines_paginated` and the id-cursor walk of `agg_trades_paginated`. */
module Backfill {
  import opened Market
  import opened Series
  import opened Pagination

  datatype SeedSource = FromKlines | FromAggTrades | FromRecentTrades

  datatype Truncation = VenueRecentOnly | VenueWindowCap | VenueHistoryExhausted | Error

  /** What a backfill asked for, what it got, and why it stopped short. */
  datatype SeedOutcome = SeedOutcome(requested: nat, achieved: nat, source: SeedSource, truncatedBy: Option<Truncation>)

  /** Page limits are clamped to 1..1000. */
  function Limit(pageSize: nat): (r: nat)
    ensures 1 <= r <= 1000
    ensures 1 <= pageSize <= 1000 ==> r == pageSize
    ensures pageSize > 1000 ==> r == 1000
  {
    if pageSize > 1000 then 1000 else if pageSize < 1 then 1 else pageSize
  }

  // ---------------------------------------------------------------------------
  // Ordered map
  // ---------------------------------------------------------------------------

  /** Keep the first value under each key. */
  method OrInsertAll<T>(m: map<int, T>, page: seq<T>, key: T -> int) returns (r: map<int, T>)
    ensures forall x :: x in r <==> x in m || exists i :: 0 <= i < |page| && key(page[i]) == x
    ensures forall x :: x in m ==> r[x] == m[x]
    ensures forall x :: x in r && x !in m ==> exists i :: 0 <= i < |page| && key(page[i]) == x && r[x] == page[i]
  {
    r := m;
    for i := 0 to |page|
      invariant forall x :: x in r <==> x in m || exists j :: 0 <= j < i && key(page[j]) == x
      invariant forall x :: x in m ==> r[x] == m[x]
      invariant forall x :: x in r && x !in m ==> exists j :: 0 <= j < i && key(page[j]) == x && r[x] == page[j]
    {
      if key(page[i]) !in r {
        r := r[key(page[i]) := page[i]];
      }
    }
  }

  /** The values in key order. */
  method IntoValues<T>(m: map<int, T>) returns (values: seq<T>, ghost keys: seq<int>)
    ensures |values| == |keys| && (forall i, j :: 0 <= i < j < |keys| ==> keys[i] < keys[j])
    ensures forall x :: x in keys <==> x in m
    ensures forall i :: 0 <= i < |keys| ==> keys[i] in m && values[i] == m[keys[i]]
  {
    values, keys := [], [];
    var rest := m.Keys;
    while rest != {}
      invariant rest <= m.Keys && |values| == |keys|
      invariant forall i, j :: 0 <= i < j < |keys| ==> keys[i] < keys[j]
      invariant forall x :: x in keys <==> x in m && x !in rest
      invariant forall i, x :: 0 <= i < |keys| && x in rest ==> keys[i] < x
      invariant forall i :: 0 <= i < |keys| ==> keys[i] in m && values[i] == m[keys[i]]
      decreases rest
    {
      var least := Least(rest);
      values, keys := values + [m[least]], keys + [least];
      rest := rest - {least};
    }
  }

  method Least(xs: set<int>) returns (least: int)
    requires xs != {}
    ensures least in xs && forall x :: x in xs ==> least <= x
  {
    ghost var some := Inhabitant(xs);
    least :| least in xs;
    var rest := xs - {least};
    while rest != {}
      invariant rest <= xs && least in xs
      invariant forall x :: x in xs && x !in rest ==> least <= x
      decreases rest
    {
      ghost var other := Inhabitant(rest);
      var x :| x in rest;
      if x < least { least := x; }
      rest := rest - {x};
    }
  }

  // ---------------------------------------------------------------------------
  // klines_paginated
  // ---------------------------------------------------------------------------

  /** The first failing request among the first `n`, `n` if none fails. */
  function FirstFault(fault: nat -> bool, n: nat): (f: nat)
    ensures f <= n && (f < n ==> fault(f)) && forall i :: 0 <= i < f ==> !fault(i)
  {
    if n == 0 then 0
    else
      var f := FirstFault(fault, n - 1);
      if f < n - 1 || fault(n - 1) then f else n
  }

  /** The map holds exactly these bars, each under its open time. */
  ghost predicate Holds(m: map<int, Kline>, bars: seq<Kline>) {
    && (forall b :: b in bars ==> b.openTime in m && m[b.openTime] == b)
    && (forall x :: x in m ==> m[x] in bars && m[x].openTime == x)
  }

  lemma HoldsMore(m: map<int, Kline>, more: map<int, Kline>, bars: seq<Kline>, page: seq<Kline>)
    requires Holds(m, bars) && Sorted(page + bars)
    requires forall x :: x in more <==> x in m || exists i :: 0 <= i < |page| && page[i].openTime == x
    requires forall x :: x in m ==> more[x] == m[x]
    requires forall x :: x in more && x !in m ==>
               exists i :: 0 <= i < |page| && page[i].openTime == x && more[x] == page[i]
    ensures Holds(more, page + bars)
  {
    var all := page + bars;
    forall b | b in all ensures b.openTime in more && more[b.openTime] == b {
      if b in page {
        var i :| 0 <= i < |page| && page[i] == b;
        assert all[i] == b;
        PageIsEarlier(page, bars, b);
        var k :| 0 <= k < |page| && page[k].openTime == b.openTime && more[b.openTime] == page[k];
        assert all[k] == page[k];
      }
    }
  }

  lemma PageIsEarlier(page: seq<Kline>, bars: seq<Kline>, b: Kline)
    requires Sorted(page + bars) && b in page
    ensures forall c :: c in bars ==> b.openTime < c.openTime
  {
    var all := page + bars;
    var i :| 0 <= i < |page| && page[i] == b;
    forall c | c in bars ensures b.openTime < c.openTime {
      var j :| 0 <= j < |bars| && bars[j] == c;
      assert all[i] == b && all[|page| + j] == c;
    }
  }

  /** Why a kline walk over `hi` bars stops short. */
  ghost function KlineTruncation(hi: nat, limit: nat, nPages: nat, backpage: bool, f: nat): Option<Truncation>
    requires nPages > 0
  {
    var pages := if backpage then nPages else 1;
    if f < pages && Reach(limit, f) <= hi then Some(Error)
    else if !backpage && nPages > 1 then Some(VenueWindowCap)
    else if hi <= Reach(limit, pages - 1) then Some(VenueHistoryExhausted)
    else None
  }

  /** What the reason of a kline walk says: a request failed that the walk got to; or the venue cannot page
      and more than a page was wanted; or the venue has no bar left for the last page to be short of. */
  lemma TruncationMeans(hi: nat, limit: nat, nPages: nat, backpage: bool, fault: nat -> bool)
    requires nPages > 0 && limit >= 1
    ensures var pages := if backpage then nPages else 1;
            var reason := KlineTruncation(hi, limit, nPages, backpage, FirstFault(fault, pages));
            && (reason == Some(Error) <==> exists q: nat :: q < pages && fault(q) && Reach(limit, q) <= hi)
            && (reason == Some(VenueWindowCap) <==> reason != Some(Error) && !backpage && nPages > 1)
            && (reason == Some(VenueHistoryExhausted) <==>
                  reason != Some(Error) && pages == nPages && hi <= Reach(limit, nPages - 1))
            && (reason == None <==>
                  reason != Some(Error) && pages == nPages && hi > Reach(limit, nPages - 1))
  {
    var pages := if backpage then nPages else 1;
    var f := FirstFault(fault, pages);
    if q: nat :| q < pages && fault(q) && Reach(limit, q) <= hi {
      ReachMonotone(limit, f, q);
    }
  }

  /** Walk `get_klines` back from `now`. `fault(n)` tells whether page request `n` fails. The
      result is the newest bars of the venue without a hole: all that the pages before the
      first failure can carry. */
  method KlinesPaginated(venue: seq<Kline>, now: int, pageSize: nat, nPages: nat, klineBackpage: bool,
                         fault: nat -> bool)
    returns (bars: seq<Kline>, outcome: SeedOutcome)
    requires Sorted(venue)
    ensures nPages == 0 || pageSize == 0 ==> bars == [] && outcome == SeedOutcome(0, 0, FromKlines, None)
    ensures nPages > 0 && pageSize > 0 ==>
              var hi, limit := Before(venue, now), Limit(pageSize);
              var f := FirstFault(fault, if klineBackpage then nPages else 1);
              && bars == venue[From(hi, Reach(limit, f))..hi]
              && outcome == SeedOutcome(pageSize * nPages, |bars|, FromKlines,
                                        KlineTruncation(hi, limit, nPages, klineBackpage, f))
  {
    var requested := pageSize * nPages;
    if nPages == 0 || pageSize == 0 {
      return [], SeedOutcome(0, 0, FromKlines, None);
    }
    var limit := Limit(pageSize);
    var effectiveNPages := if klineBackpage then nPages else 1;
    var achieved, pagesDone, hadError;
    bars, achieved, pagesDone, hadError := FetchKlines(venue, now, limit, effectiveNPages, fault);
    var reason := if hadError then Some(Error)
                  else if !klineBackpage && nPages > 1 then Some(VenueWindowCap)
                  else if pagesDone < effectiveNPages then Some(VenueHistoryExhausted)
                  else None;
    outcome := SeedOutcome(requested, achieved, FromKlines, reason);
  }

  method FetchKlines(venue: seq<Kline>, now: int, limit: nat, pages: nat, fault: nat -> bool)
    returns (bars: seq<Kline>, achieved: nat, pagesDone: nat, hadError: bool)
    requires Sorted(venue) && limit >= 1 && pages >= 1
    ensures var hi, f := Before(venue, now), FirstFault(fault, pages);
            && bars == venue[From(hi, Reach(limit, f))..hi] && achieved == |bars|
            && (hadError <==> f < pages && Reach(limit, f) <= hi)
            && (!hadError ==> (pagesDone < pages <==> hi <= Reach(limit, pages - 1)))
  {
    var byOpenTime;
    ghost var lo, keys;
    var last;
    GatheredNothing(venue, now);
    byOpenTime, pagesDone, hadError, lo, last := WalkKlines(venue, now, limit, pages, fault, Before(venue, now));
    StopsWhere(Before(venue, now), limit, pages, fault, pagesDone, hadError);
    achieved := |byOpenTime|;
    bars, keys := IntoValues(byOpenTime);
    ValuesAre(byOpenTime, bars, keys, venue[lo..Before(venue, now)]);
  }

  ghost predicate NoFault(fault: nat -> bool, n: nat) {
    n == 0 || (!fault(n - 1) && NoFault(fault, n - 1))
  }

  lemma {:induction false} NoFaultYet(fault: nat -> bool, done: nat, pages: nat)
    requires NoFault(fault, done) && done <= pages
    ensures done <= FirstFault(fault, pages)
  {
    if done > 0 {
      NoFaultYet(fault, done - 1, pages);
    }
  }

  /** The walk over `hi` bars stops after `done` of at most `pages` pages. */
  ghost predicate StopsAt(hi: nat, limit: nat, pages: nat, fault: nat -> bool, done: nat, hadError: bool) {
    && done <= pages && NoFault(fault, done)
    && (done > 0 ==> Reach(limit, done - 1) < hi)
    && (hadError ==> done < pages && fault(done) && Reach(limit, done) <= hi)
    && (!hadError && done < pages ==> hi <= Reach(limit, done) && (hi == Reach(limit, done) ==> !fault(done)))
  }

  lemma StopsWhere(hi: nat, limit: nat, pages: nat, fault: nat -> bool, done: nat, hadError: bool)
    requires limit >= 1 && pages >= 1 && StopsAt(hi, limit, pages, fault, done, hadError)
    ensures var f := FirstFault(fault, pages);
            && From(hi, Reach(limit, done)) == From(hi, Reach(limit, f))
            && (hadError <==> f < pages && Reach(limit, f) <= hi)
            && (!hadError ==> (done < pages <==> hi <= Reach(limit, pages - 1)))
  {
    var f := FirstFault(fault, pages);
    NoFaultYet(fault, done, pages);
    ReachMonotone(limit, done, f);
    ReachMonotone(limit, done + 1, f);
    ReachMonotone(limit, done, pages - 1);
  }

  /** The values of a map that holds sorted bars, in key order, are those bars. */
  lemma ValuesAre(m: map<int, Kline>, values: seq<Kline>, keys: seq<int>, bars: seq<Kline>)
    requires Holds(m, bars) && Sorted(bars)
    requires |values| == |keys| && (forall i, j :: 0 <= i < j < |keys| ==> keys[i] < keys[j])
    requires forall x :: x in keys <==> x in m
    requires forall i :: 0 <= i < |keys| ==> keys[i] in m && values[i] == m[keys[i]]
    ensures values == bars && |m| == |bars|
  {
    forall b ensures b in values <==> b in bars {
      if b in bars {
        assert b.openTime in keys;
        var i :| 0 <= i < |keys| && keys[i] == b.openTime;
        assert values[i] == b;
      }
      if b in values {
        var i :| 0 <= i < |values| && values[i] == b;
        assert m[keys[i]] == b;
      }
    }
    assert forall i :: 0 <= i < |values| ==> values[i].openTime == keys[i];
    SortedUnique(values, bars);
    DistinctCount(keys, m.Keys);
  }

  lemma {:induction false} DistinctCount(keys: seq<int>, s: set<int>)
    requires forall i, j :: 0 <= i < j < |keys| ==> keys[i] < keys[j]
    requires forall x :: x in keys <==> x in s
    ensures |keys| == |s|
    decreases |keys|
  {
    if keys == [] {
      assert forall x :: x !in s;
      assert s == {};
    } else {
      var n := |keys| - 1;
      forall x ensures x in keys[..n] <==> x in s - {keys[n]} {
        assert keys == keys[..n] + [keys[n]];
      }
      DistinctCount(keys[..n], s - {keys[n]});
    }
  }

  /** The bars from `lo` up to `hi` are in, and the cursor stands at bar `lo`. */
  ghost predicate Gathered(venue: seq<Kline>, m: map<int, Kline>, lo: nat, hi: nat, cursor: int) {
    lo <= hi <= |venue| && Holds(m, venue[lo..hi]) && Before(venue, cursor) == lo
  }

  method WalkKlines(venue: seq<Kline>, now: int, limit: nat, pages: nat, fault: nat -> bool, ghost hi: nat)
    returns (byOpenTime: map<int, Kline>, pagesDone: nat, hadError: bool, ghost lo: nat, nextEndTime: int)
    requires Sorted(venue) && limit >= 1 && pages >= 1 && Gathered(venue, map[], hi, hi, now)
    ensures lo == From(hi, Reach(limit, pagesDone))
    ensures Gathered(venue, byOpenTime, lo, hi, nextEndTime)
    ensures StopsAt(hi, limit, pages, fault, pagesDone, hadError)
  {
    byOpenTime, pagesDone, hadError := map[], 0, false;
    nextEndTime := now;
    lo := hi;
    while pagesDone < pages
      invariant pagesDone <= pages && NoFault(fault, pagesDone)
      invariant lo == hi - Reach(limit, pagesDone)
      invariant pagesDone > 0 ==> Reach(limit, pagesDone - 1) < hi
      invariant Gathered(venue, byOpenTime, lo, hi, nextEndTime)
    {
      if fault(pagesDone) {
        hadError := true;
        break;
      }
      var size: nat;
      ghost var from := From(lo, limit);
      byOpenTime, nextEndTime, size := TakePage(venue, byOpenTime, nextEndTime, limit, lo, hi);
      if size == 0 {
        break;
      }
      lo := from;
      pagesDone := pagesDone + 1;
      if size < limit {
        break;
      }
    }
  }

  lemma GatheredNothing(venue: seq<Kline>, now: int)
    ensures Gathered(venue, map[], Before(venue, now), Before(venue, now), now)
  {
  }

  /** Fetch the page before the cursor and keep it; the oldest bar of it is the next cursor. */
  method TakePage(venue: seq<Kline>, m: map<int, Kline>, cursor: int, limit: nat, ghost lo: nat, ghost hi: nat)
    returns (more: map<int, Kline>, next: int, size: nat)
    requires Sorted(venue) && limit >= 1 && Gathered(venue, m, lo, hi, cursor)
    ensures Gathered(venue, more, From(lo, limit), hi, next)
    ensures size == lo - From(lo, limit)
  {
    var page := Page(venue, cursor, limit);
    size := |page|;
    if page == [] {
      return m, cursor, 0;
    }
    more := AddPage(venue, m, page, From(lo, limit), lo, hi);
    next := page[0].openTime;
    BeforeSelf(venue, From(lo, limit));
  }

  method AddPage(ghost venue: seq<Kline>, byOpenTime: map<int, Kline>, page: seq<Kline>, ghost from: nat,
                 ghost lo: nat, ghost hi: nat)
    returns (more: map<int, Kline>)
    requires Sorted(venue) && from <= lo <= hi <= |venue| && page == venue[from..lo]
    requires Holds(byOpenTime, venue[lo..hi])
    ensures Holds(more, venue[from..hi])
  {
    more := OrInsertAll(byOpenTime, page, (b: Kline) => b.openTime);
    assert page + venue[lo..hi] == venue[from..hi];
    HoldsMore(byOpenTime, more, venue[lo..hi], page);
  }

  lemma ReachMonotone(limit: nat, a: nat, b: nat)
    ensures a <= b ==> Reach(limit, a) <= Reach(limit, b)
  {
    if a < b { ReachMonotone(limit, a, b - 1); }
  }

  lemma BeforeSelf(venue: seq<Kline>, i: nat)
    requires Sorted(venue) && i < |venue|
    ensures Before(venue, venue[i].openTime) == i
  {
    BeforeIs(venue, venue[i].openTime, i);
  }

  // ---------------------------------------------------------------------------
  // agg_trades_paginated, id cursor
  // ---------------------------------------------------------------------------

  /** An aggregated trade; `body` stands for price, quantity and side. */
  datatype AggTrade = AggTrade(id: int, ts: int, body: int)

  /** What the venue offers: a single shallow call, deep history, or history back to a wall. */
  datatype Tier = RecentOnly(maxTrades: nat) | RestDeep | RestWindow(maxBackMs: nat)

  /** Ids are consecutive from `first` on. */
  ghost predicate Dense(venue: seq<AggTrade>, first: nat) {
    forall i :: 0 <= i < |venue| ==> venue[i].id == first + i
  }

  /** Without a cursor the newest `limit` trades, else `limit` trades from that id on. */
  function AggPage(venue: seq<AggTrade>, first: nat, limit: nat, cursor: Option<nat>): seq<AggTrade> {
    match cursor
    case None => venue[From(|venue|, limit)..]
    case Some(id) =>
      var i := if id <= first then 0 else if id - first <= |venue| then id - first else |venue|;
      venue[i..if i + limit <= |venue| then i + limit else |venue|]
  }

  /** The map holds exactly the trades from index `lo` on, each under its id. */
  ghost predicate Stored(venue: seq<AggTrade>, first: nat, m: map<int, AggTrade>, lo: nat) {
    && lo <= |venue|
    && (forall x :: x in m <==> first + lo <= x < first + |venue|)
    && (forall x :: x in m ==> m[x] == venue[x - first])
  }

  /** Where the next page starts: `limit` ids before the oldest trade so far. */
  ghost predicate CursorAt(venue: seq<AggTrade>, first: nat, limit: nat, cursor: Option<nat>, lo: nat) {
    match cursor
    case None => lo == |venue|
    case Some(id) => limit <= |venue| && id + limit == first + lo
  }

  method OldestTs(page: seq<AggTrade>) returns (ts: int)
    requires page != []
    ensures forall t :: t in page ==> ts <= t.ts
    ensures exists t :: t in page && t.ts == ts
  {
    ts := page[0].ts;
    for i := 1 to |page|
      invariant forall j :: 0 <= j < i ==> ts <= page[j].ts
      invariant exists t :: t in page && t.ts == ts
    {
      if page[i].ts < ts { ts := page[i].ts; }
    }
  }

  lemma PageFrom(venue: seq<AggTrade>, first: nat, limit: nat, cursor: Option<nat>, lo: nat) returns (to: nat)
    requires Dense(venue, first) && limit >= 1 && lo <= |venue| && CursorAt(venue, first, limit, cursor, lo)
    ensures lo <= to <= |venue| && From(lo, limit) <= to
    ensures AggPage(venue, first, limit, cursor) == venue[From(lo, limit)..to]
    ensures |AggPage(venue, first, limit, cursor)| == if cursor.Some? then limit else lo - From(lo, limit)
  {
    to := if cursor == None then |venue| else From(lo, limit) + limit;
  }

  /** The oldest time of a page that reaches from `from` to `lo` or beyond. */
  ghost predicate OldestFrom(venue: seq<AggTrade>, from: nat, lo: nat, ts: int)
    requires from <= lo <= |venue|
  {
    && (exists i :: from <= i < |venue| && venue[i].ts == ts)
    && (forall i :: from <= i < lo ==> ts <= venue[i].ts)
  }

  lemma OldestOfPage(venue: seq<AggTrade>, from: nat, lo: nat, to: nat, ts: int)
    requires from <= lo <= to <= |venue|
    requires exists t :: t in venue[from..to] && t.ts == ts
    requires forall t :: t in venue[from..to] ==> ts <= t.ts
    ensures OldestFrom(venue, from, lo, ts)
  {
    var t :| t in venue[from..to] && t.ts == ts;
    var k :| 0 <= k < |venue[from..to]| && venue[from..to][k] == t;
    assert venue[from + k].ts == ts;
    forall i | from <= i < lo ensures ts <= venue[i].ts {
      assert venue[from..to][i - from] == venue[i];
    }
  }

  /** Fetch and keep one page; report its length, its oldest id and its oldest time. */
  method TakeAggPage(venue: seq<AggTrade>, first: nat, limit: nat, cursor: Option<nat>, byId: map<int, AggTrade>,
                     ghost lo: nat)
    returns (more: map<int, AggTrade>, size: nat, minId: nat, minTs: int)
    requires Dense(venue, first) && limit >= 1
    requires Stored(venue, first, byId, lo) && CursorAt(venue, first, limit, cursor, lo)
    ensures size == (if cursor.Some? then limit else lo - From(lo, limit))
    ensures Stored(venue, first, more, From(lo, limit))
    ensures size > 0 ==> minId == first + From(lo, limit)
    ensures size > 0 ==> OldestFrom(venue, From(lo, limit), lo, minTs)
  {
    var page := AggPage(venue, first, limit, cursor);
    size := |page|;
    ghost var from := From(lo, limit);
    ghost var to := PageFrom(venue, first, limit, cursor, lo);
    more := OrInsertAll(byId, page, (t: AggTrade) => t.id);
    StoredMore(venue, first, byId, more, page, from, lo, to);
    if page != [] {
      minId := page[0].id;
      minTs := OldestTs(page);
      OldestOfPage(venue, from, lo, to, minTs);
    } else {
      minId, minTs := 0, 0;
    }
  }

  lemma StoredMore(venue: seq<AggTrade>, first: nat, m: map<int, AggTrade>, more: map<int, AggTrade>,
                   page: seq<AggTrade>, from: nat, lo: nat, to: nat)
    requires Dense(venue, first) && Stored(venue, first, m, lo)
    requires from <= lo <= to <= |venue| && page == venue[from..to]
    requires forall x :: x in more <==> x in m || exists i :: 0 <= i < |page| && page[i].id == x
    requires forall x :: x in m ==> more[x] == m[x]
    requires forall x :: x in more && x !in m ==> exists i :: 0 <= i < |page| && page[i].id == x && more[x] == page[i]
    ensures Stored(venue, first, more, from)
  {
    PageIds(venue, first, page, from, to);
    forall x ensures x in more <==> first + from <= x < first + |venue| {
      if first + from <= x < first + lo {
        assert page[x - first - from].id == x;
      }
    }
    forall x | x in more ensures more[x] == venue[x - first] {
      if x !in m {
        var i :| 0 <= i < |page| && page[i].id == x && more[x] == page[i];
      }
    }
  }

  lemma PageIds(venue: seq<AggTrade>, first: nat, page: seq<AggTrade>, from: nat, to: nat)
    requires Dense(venue, first) && from <= to <= |venue| && page == venue[from..to]
    ensures forall i :: 0 <= i < |page| ==> page[i] == venue[from + i] && page[i].id == first + from + i
  {
  }

  /** A trade at or before the wall is in. */
  ghost predicate Crossed(venue: seq<AggTrade>, wall: Option<int>, lo: nat) {
    wall.Some? && exists i :: lo <= i < |venue| && venue[i].ts <= wall.value
  }

  /** After `q` pages another request is made and it brings trades. */
  ghost predicate GoesOn(venue: seq<AggTrade>, limit: nat, wall: Option<int>, fault: nat -> bool, q: nat) {
    && !fault(q) && venue != []
    && (q > 0 ==>
          var lo := From(|venue|, Reach(limit, q));
          && lo < |venue| && !Crossed(venue, wall, lo)
          && limit <= |venue| && limit < venue[lo].id)
  }

  /** A walk goes on from each of its first `pages` pages. */
  ghost predicate Went(venue: seq<AggTrade>, limit: nat, wall: Option<int>, fault: nat -> bool, pages: nat) {
    pages == 0
    || (Went(venue, limit, wall, fault, pages - 1) && GoesOn(venue, limit, wall, fault, pages - 1))
  }

  lemma {:induction false} WentThrough(venue: seq<AggTrade>, limit: nat, wall: Option<int>, fault: nat -> bool,
                                       pages: nat, q: nat)
    requires Went(venue, limit, wall, fault, pages) && q < pages
    ensures GoesOn(venue, limit, wall, fault, q)
    decreases pages
  {
    if q < pages - 1 {
      WentThrough(venue, limit, wall, fault, pages - 1, q);
    }
  }

  /** An id walk stops after `pages` pages, the first ones it does not go on from, and why. */
  ghost predicate Explains(venue: seq<AggTrade>, limit: nat, nPages: nat, wall: Option<int>, fault: nat -> bool,
                           pages: nat, reason: Option<Truncation>)
  {
    && pages <= nPages && Went(venue, limit, wall, fault, pages)
    && (pages < nPages ==> !GoesOn(venue, limit, wall, fault, pages))
    && reason == if Crossed(venue, wall, From(|venue|, Reach(limit, pages))) then Some(VenueWindowCap)
                 else if pages < nPages then Some(VenueHistoryExhausted)
                 else None
  }

  /** What the number of pages and the reason say. Every request so far succeeded; before the last page no
      trade at or before the wall was in and a page lay before the oldest; the wall is the reason if and
      only if a trade that old came in; otherwise a walk that ends early met a failure or the origin. */
  lemma WalkMeans(venue: seq<AggTrade>, limit: nat, nPages: nat, wall: Option<int>, fault: nat -> bool,
                  pages: nat, reason: Option<Truncation>)
    requires Explains(venue, limit, nPages, wall, fault, pages, reason)
    ensures forall q :: 0 <= q < pages ==> !fault(q)
    ensures forall q, i :: 0 < q < pages && From(|venue|, Reach(limit, q)) <= i < |venue| && wall.Some? ==>
              venue[i].ts > wall.value
    ensures forall q :: 0 < q < pages ==>
              && limit <= |venue| && From(|venue|, Reach(limit, q)) < |venue|
              && venue[From(|venue|, Reach(limit, q))].id > limit
    ensures reason == Some(VenueWindowCap) <==>
              wall.Some?
              && exists i :: From(|venue|, Reach(limit, pages)) <= i < |venue| && venue[i].ts <= wall.value
    ensures reason == None ==> pages == nPages
    ensures reason == Some(VenueHistoryExhausted) ==>
              && pages < nPages
              && var lo := From(|venue|, Reach(limit, pages));
                 fault(pages) || |venue| < limit || lo >= |venue| || venue[lo].id <= limit
  {
    forall q | 0 <= q < pages
      ensures !fault(q)
      ensures q > 0 ==>
                var lo := From(|venue|, Reach(limit, q));
                && limit <= |venue| && lo < |venue| && venue[lo].id > limit
                && (wall.Some? ==> forall i :: lo <= i < |venue| ==> venue[i].ts > wall.value)
    {
      WentThrough(venue, limit, wall, fault, pages, q);
    }
  }

  /** Faults, wall and origin leave no choice of where a walk stops. */
  lemma StopsOnce(venue: seq<AggTrade>, limit: nat, nPages: nat, wall: Option<int>, fault: nat -> bool,
                  pages: nat, reason: Option<Truncation>, pages': nat, reason': Option<Truncation>)
    requires Explains(venue, limit, nPages, wall, fault, pages, reason)
    requires Explains(venue, limit, nPages, wall, fault, pages', reason')
    ensures pages == pages' && reason == reason'
  {
    if pages < pages' {
      WentThrough(venue, limit, wall, fault, pages', pages);
    } else if pages' < pages {
      WentThrough(venue, limit, wall, fault, pages, pages');
    }
  }

  /** Walk `get_agg_trades` back by id. On venues that can page, the result is one contiguous
      stretch of trades up to the newest, `limit` per page; if the very first request fails, or
      the venue only serves recent trades, it is the shallow fallback. */
  method AggTradesPaginated(venue: seq<AggTrade>, first: nat, recent: seq<AggTrade>, tier: Tier, now: int,
                            pageSize: nat, nPages: nat, fault: nat -> bool)
    returns (trades: seq<AggTrade>, outcome: SeedOutcome, ghost pages: nat)
    requires Dense(venue, first)
    ensures nPages == 0 || pageSize == 0 ==> trades == [] && outcome == SeedOutcome(0, 0, FromAggTrades, None)
    ensures nPages > 0 && pageSize > 0 && (tier.RecentOnly? || fault(0)) ==>
              trades == recent
              && outcome == SeedOutcome(pageSize * nPages, |recent|, FromRecentTrades,
                                        if tier.RecentOnly? then Some(VenueRecentOnly) else Some(Error))
    ensures nPages > 0 && pageSize > 0 && !tier.RecentOnly? && !fault(0) ==>
              var limit := Limit(pageSize);
              var lo := From(|venue|, Reach(limit, pages));
              && pages <= nPages && trades == venue[lo..]
              && outcome == SeedOutcome(pageSize * nPages, |trades|, FromAggTrades, outcome.truncatedBy)
              && Explains(venue, limit, nPages, Wall(tier, now), fault, pages, outcome.truncatedBy)
  {
    var requested := pageSize * nPages;
    pages := 0;
    if nPages == 0 || pageSize == 0 {
      return [], SeedOutcome(0, 0, FromAggTrades, None), 0;
    }
    var limit := Limit(pageSize);
    if tier.RecentOnly? {
      return recent, SeedOutcome(requested, |recent|, FromRecentTrades, Some(VenueRecentOnly)), 0;
    }
    if fault(0) {
      return recent, SeedOutcome(requested, |recent|, FromRecentTrades, Some(Error)), 0;
    }
    var byId, reason;
    byId, reason, pages := WalkIds(venue, first, limit, nPages, Wall(tier, now), fault);
    ghost var keys;
    trades, keys := IntoValues(byId);
    StoredValues(venue, first, byId, From(|venue|, Reach(limit, pages)), trades, keys);
    outcome := SeedOutcome(requested, |byId|, FromAggTrades, reason);
  }

  /** The oldest time a windowed venue serves. */
  function Wall(tier: Tier, now: int): Option<int> {
    if tier.RestWindow? && tier.maxBackMs > 0 then Some(now - tier.maxBackMs) else None
  }

  method WalkIds(venue: seq<AggTrade>, first: nat, limit: nat, nPages: nat, wall: Option<int>, fault: nat -> bool)
    returns (byId: map<int, AggTrade>, reason: Option<Truncation>, pagesDone: nat)
    requires Dense(venue, first) && limit >= 1 && nPages >= 1
    ensures Stored(venue, first, byId, From(|venue|, Reach(limit, pagesDone)))
    ensures Explains(venue, limit, nPages, wall, fault, pagesDone, reason)
  {
    byId, pagesDone := map[], 0;
    var nextFromId: Option<nat> := None;
    ghost var lo := |venue|;
    while pagesDone < nPages
      invariant pagesDone <= nPages && lo == From(|venue|, Reach(limit, pagesDone))
      invariant Stored(venue, first, byId, lo) && CursorAt(venue, first, limit, nextFromId, lo)
      invariant Went(venue, limit, wall, fault, pagesDone) && !Crossed(venue, wall, lo)
      invariant pagesDone > 0 ==> nextFromId.Some? && lo < |venue| && limit <= |venue| && limit < venue[lo].id
    {
      if fault(pagesDone) {
        return byId, Some(VenueHistoryExhausted), pagesDone;
      }
      var size, minId, minTs;
      byId, size, minId, minTs := TakeAggPage(venue, first, limit, nextFromId, byId, lo);
      if size == 0 {
        return byId, Some(VenueHistoryExhausted), pagesDone;
      }
      CrossedBy(venue, wall, From(lo, limit), lo, minTs);
      lo := From(lo, limit);
      pagesDone := pagesDone + 1;
      StopsAfterPage(venue, limit, nPages, wall, fault, pagesDone);
      if wall.Some? && minTs <= wall.value {
        return byId, Some(VenueWindowCap), pagesDone;
      }
      if size < limit || minId <= limit {
        return byId, if pagesDone < nPages then Some(VenueHistoryExhausted) else None, pagesDone;
      }
      nextFromId := Some(minId - limit);
    }
    reason := None;
  }

  lemma StopsAfterPage(venue: seq<AggTrade>, limit: nat, nPages: nat, wall: Option<int>, fault: nat -> bool, pages: nat)
    requires 1 <= pages <= nPages && Went(venue, limit, wall, fault, pages)
    ensures var lo := From(|venue|, Reach(limit, pages));
            && (Crossed(venue, wall, lo) ==> Explains(venue, limit, nPages, wall, fault, pages, Some(VenueWindowCap)))
            && (!Crossed(venue, wall, lo) && (|venue| < limit || (lo < |venue| && venue[lo].id <= limit)) ==>
                  Explains(venue, limit, nPages, wall, fault, pages,
                           if pages < nPages then Some(VenueHistoryExhausted) else None))
  {
  }

  lemma CrossedBy(venue: seq<AggTrade>, wall: Option<int>, from: nat, lo: nat, ts: int)
    requires from <= lo <= |venue| && OldestFrom(venue, from, lo, ts) && !Crossed(venue, wall, lo)
    ensures Crossed(venue, wall, from) <==> wall.Some? && ts <= wall.value
  {
  }

  lemma StoredValues(venue: seq<AggTrade>, first: nat, m: map<int, AggTrade>, lo: nat, values: seq<AggTrade>,
                     keys: seq<int>)
    requires Dense(venue, first) && Stored(venue, first, m, lo)
    requires |values| == |keys| && (forall i, j :: 0 <= i < j < |keys| ==> keys[i] < keys[j])
    requires forall x :: x in keys <==> x in m
    requires forall i :: 0 <= i < |keys| ==> keys[i] in m && values[i] == m[keys[i]]
    ensures values == venue[lo..] && |m| == |values|
  {
    ConsecutiveKeys(keys, first + lo, first + |venue|);
    DistinctCount(keys, m.Keys);
  }

  lemma {:induction false} ConsecutiveKeys(keys: seq<int>, a: int, b: int)
    requires a <= b && forall x :: x in keys <==> a <= x < b
    requires forall i, j :: 0 <= i < j < |keys| ==> keys[i] < keys[j]
    ensures |keys| == b - a && forall i :: 0 <= i < |keys| ==> keys[i] == a + i
    decreases b - a
  {
    if a < b {
      assert b - 1 in keys;
      var n := |keys| - 1;
      var k :| 0 <= k <= n && keys[k] == b - 1;
      assert keys[n] in keys;
      assert k == n;
      forall x ensures x in keys[..n] <==> a <= x < b - 1 {
        assert keys == keys[..n] + [keys[n]];
        if x in keys[..n] {
          var i :| 0 <= i < n && keys[..n][i] == x;
          assert keys[i] < keys[n] && keys[i] in keys;
        }
        if a <= x < b - 1 {
          assert x in keys;
        }
      }
      ConsecutiveKeys(keys[..n], a, b - 1);
    } else {
      EmptyOrMember(keys);
    }
  }

  /** Stopping at the wall loses nothing newer than the wall, when times follow ids. */
  lemma WallWalkIsComplete(venue: seq<AggTrade>, limit: nat, nPages: nat, wall: int, fault: nat -> bool, pages: nat,
                           i: nat)
    requires forall i, j :: 0 <= i < j < |venue| ==> venue[i].ts <= venue[j].ts
    requires Explains(venue, limit, nPages, Some(wall), fault, pages, Some(VenueWindowCap))
    requires i < |venue| && venue[i].ts > wall
    ensures venue[i] in venue[From(|venue|, Reach(limit, pages))..]
  {
    var lo := From(|venue|, Reach(limit, pages));
    assert Crossed(venue, Some(wall), lo);
    var j :| lo <= j < |venue| && venue[j].ts <= wall;
    assert i > j;
    assert venue[lo..][i - lo] == venue[i];
  }

  /** Stopping at the origin leaves at most one page of ids unfetched. */
  lemma OriginWalkLeavesOnePage(venue: seq<AggTrade>, first: nat, limit: nat, nPages: nat, wall: Option<int>,
                                fault: nat -> bool, pages: nat)
    requires Dense(venue, first) && limit >= 1 && !fault(pages)
    requires Explains(venue, limit, nPages, wall, fault, pages, Some(VenueHistoryExhausted))
    ensures From(|venue|, Reach(limit, pages)) <= limit
  {
    if pages > 0 {
      ReachMonotone(limit, 1, pages);
    }
  }
}
