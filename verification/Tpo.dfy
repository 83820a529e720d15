/** Market profile sessions: `TpoSessionState`. */
module Tpo {
  import opened Market
  import opened Series
  import Footprint

  // ---------------------------------------------------------------------------
  // Buckets and rows
  // ---------------------------------------------------------------------------

  /** The prices seen in one window of the session, if any. */
  datatype Span = Nothing | Span(high: real, low: real)

  function Widened(s: Span, high: real, low: real): Span {
    match s
    case Nothing => Span(high, low)
    case Span(h, l) => Span(if high > h then high else h, if low < l then low else l)
  }

  predicate Covers(s: Span, price: real) {
    s.Span? && s.low <= price < s.high
  }

  /** A price level and the letters of the windows that covered it. */
  datatype Row = Row(price: real, letters: seq<nat>)

  /** Fifty-two letters, then again from the first. */
  function Letter(bucket: nat): nat {
    bucket % 52
  }

  function RowPrice(low: real, tick: real, i: nat): real {
    low + i as real * tick
  }

  /** One letter for every bucket that covers the price. */
  function Letters(buckets: seq<Span>, price: real): seq<nat> {
    if buckets == [] then []
    else
      var n := |buckets| - 1;
      Letters(buckets[..n], price) + (if Covers(buckets[n], price) then [Letter(n)] else [])
  }

  ghost function Rows(buckets: seq<Span>, low: real, tick: real, n: nat): (rows: seq<Row>)
    ensures |rows| == n
    ensures forall i :: 0 <= i < n ==> rows[i] == Row(RowPrice(low, tick, i), Letters(buckets, RowPrice(low, tick, i)))
  {
    if n == 0 then []
    else
      var price := RowPrice(low, tick, n - 1);
      Rows(buckets, low, tick, n - 1) + [Row(price, Letters(buckets, price))]
  }

  /** The letters of the rows from `lo` up to, but not including, `hi`. */
  function Count(rows: seq<Row>, lo: nat, hi: nat): nat
    requires lo <= hi <= |rows|
  {
    if lo == hi then 0 else Count(rows, lo, hi - 1) + |rows[hi-1].letters|
  }

  lemma CountFromBelow(rows: seq<Row>, lo: nat, hi: nat)
    requires lo < hi <= |rows|
    ensures Count(rows, lo, hi) == |rows[lo].letters| + Count(rows, lo + 1, hi)
  {
    if lo + 1 < hi {
      CountFromBelow(rows, lo, hi - 1);
    }
  }

  /** How many of the first `n` price levels a bucket covers. */
  function RowsCovered(bucket: Span, low: real, tick: real, n: nat): nat {
    if n == 0 then 0
    else RowsCovered(bucket, low, tick, n - 1) + (if Covers(bucket, RowPrice(low, tick, n - 1)) then 1 else 0)
  }

  ghost function AllCovered(buckets: seq<Span>, low: real, tick: real, n: nat): nat {
    if buckets == [] then 0
    else AllCovered(buckets[..|buckets|-1], low, tick, n) + RowsCovered(buckets[|buckets|-1], low, tick, n)
  }

  lemma {:induction false} CountOneMore(buckets: seq<Span>, low: real, tick: real, n: nat, k: nat)
    requires buckets != [] && k <= n
    ensures Count(Rows(buckets, low, tick, n), 0, k)
         == Count(Rows(buckets[..|buckets|-1], low, tick, n), 0, k) + RowsCovered(buckets[|buckets|-1], low, tick, k)
  {
    if k > 0 {
      CountOneMore(buckets, low, tick, n, k - 1);
    }
  }

  lemma {:induction false} CountNone(low: real, tick: real, n: nat, k: nat)
    requires k <= n
    ensures Count(Rows([], low, tick, n), 0, k) == 0
  {
    if k > 0 {
      CountNone(low, tick, n, k - 1);
    }
  }

  /** Counted by rows or by buckets, the letters are the same. */
  lemma {:induction false} LettersAreCoverage(buckets: seq<Span>, low: real, tick: real, n: nat)
    ensures Count(Rows(buckets, low, tick, n), 0, n) == AllCovered(buckets, low, tick, n)
    decreases |buckets|
  {
    if buckets == [] {
      CountNone(low, tick, n, n);
    } else {
      LettersAreCoverage(buckets[..|buckets|-1], low, tick, n);
      CountOneMore(buckets, low, tick, n, n);
    }
  }

  /** A bucket covers its low and every level up to its high, which it does not cover: between level
      `a` and level `b` it covers `b - a` levels. */
  lemma {:induction false} CoveredIsHeight(low: real, tick: real, a: nat, b: nat, n: nat)
    requires tick > 0.0 && a <= b
    ensures RowsCovered(Span(RowPrice(low, tick, b), RowPrice(low, tick, a)), low, tick, n)
         == if n <= a then 0 else if n <= b then n - a else b - a
    decreases n
  {
    if n > 0 {
      CoveredIsHeight(low, tick, a, b, n - 1);
      RowsInOrder(low, tick, n - 1, a);
      RowsInOrder(low, tick, n - 1, b);
    }
  }

  lemma RowsInOrder(low: real, tick: real, i: nat, j: nat)
    requires tick > 0.0
    ensures i < j <==> RowPrice(low, tick, i) < RowPrice(low, tick, j)
  {
    if i < j {
      RowsApart(low, tick, i, j);
      Scaled(tick, i as real, j as real);
    } else {
      Scaled(tick, j as real, i as real);
    }
  }

  /** The rows start at the session's low, one tick apart, and end less than a tick past its high. */
  lemma RowsSpanSession(buckets: seq<Span>, high: real, low: real, tick: real)
    requires tick > 0.0 && low <= high
    ensures var n := RowCount(high, low, tick);
            var rows := Rows(buckets, low, tick, n);
            && rows[0].price == low && high <= rows[n-1].price < high + tick
            && forall i :: 0 < i < n ==> rows[i].price == rows[i-1].price + tick
  {
    var n := RowCount(high, low, tick);
    LastRow(high, low, tick, n);
    assert RowPrice(low, tick, 0) == low;
    forall i | 0 < i < n ensures RowPrice(low, tick, i) == RowPrice(low, tick, i - 1) + tick {
      NextRow(low, tick, i - 1);
    }
  }

  lemma NextRow(low: real, tick: real, i: nat)
    ensures RowPrice(low, tick, i + 1) == RowPrice(low, tick, i) + tick
  {
    OneMore(tick, i as real);
  }

  lemma OneMore(tick: real, a: real)
    ensures (a + 1.0) * tick == a * tick + tick
  {
  }

  lemma LastRow(high: real, low: real, tick: real, n: nat)
    requires tick > 0.0 && low <= high && n == RowCount(high, low, tick)
    ensures high <= RowPrice(low, tick, n - 1) < high + tick
  {
    var q, last := (high - low) / tick, (n - 1) as real;
    Divided(high - low, tick);
    NonNegativeQuotient(high - low, tick);
    assert q <= last < q + 1.0;
    Between(tick, q, last, high - low);
  }

  lemma Between(tick: real, q: real, n: real, width: real)
    requires tick > 0.0 && q <= n < q + 1.0 && q * tick == width
    ensures width <= n * tick < width + tick
  {
    AtLeast(tick, q, n, width);
    LessThanOneMore(tick, q, n, width);
  }

  lemma AtLeast(tick: real, q: real, n: real, width: real)
    requires tick > 0.0 && q <= n && q * tick == width
    ensures width <= n * tick
  {
    Scaled(tick, q, n);
  }

  lemma LessThanOneMore(tick: real, q: real, n: real, width: real)
    requires tick > 0.0 && n < q + 1.0 && q * tick == width
    ensures n * tick < width + tick
  {
    var before := n - 1.0;
    assert before < q;
    ScaledStrictly(tick, before, q);
    assert before * tick < width;
    OneLess(tick, n, before);
  }

  lemma OneLess(tick: real, n: real, before: real)
    requires before == n - 1.0
    ensures before * tick == n * tick - tick
  {
  }

  lemma NonNegativeQuotient(x: real, tick: real)
    requires tick > 0.0 && x >= 0.0
    ensures x / tick >= 0.0
  {
  }

  lemma ScaledStrictly(tick: real, a: real, b: real)
    requires tick > 0.0 && a < b
    ensures a * tick < b * tick
  {
  }

  /** The first fifty-two windows have letters of their own, and from then on they come again. */
  lemma LettersRepeatIff(a: nat, b: nat)
    ensures Letter(a) < 52 && (a < 52 ==> Letter(a) == a)
    ensures Letter(a) == Letter(b) <==> (a - b) % 52 == 0
  {
  }

  function Ceil(x: real): int {
    -((-x).Floor)
  }

  function RowCount(high: real, low: real, tick: real): (n: nat)
    requires tick > 0.0
    ensures n >= 1
  {
    var steps := Ceil((high - low) / tick);
    (if steps > 0 then steps else 0) + 1
  }

  /** The rows reach up to the session's high: no bucket covers a level above them. */
  lemma NoLevelMissed(bucket: Span, high: real, low: real, tick: real, i: nat)
    requires tick > 0.0 && i >= RowCount(high, low, tick) && (bucket.Span? ==> bucket.high <= high)
    ensures !Covers(bucket, RowPrice(low, tick, i))
  {
    var q := (high - low) / tick;
    Divided(high - low, tick);
    assert q <= Ceil(q) as real <= i as real;
    Scaled(tick, q, i as real);
  }

  lemma Divided(x: real, tick: real)
    requires tick > 0.0
    ensures x / tick * tick == x
  {
  }

  lemma Scaled(tick: real, a: real, b: real)
    requires tick > 0.0
    ensures a <= b ==> a * tick <= b * tick
  {
  }

  // ---------------------------------------------------------------------------
  // Point of control
  // ---------------------------------------------------------------------------

  /** The first of the fullest rows that lie closest to the middle. */
  ghost predicate IsPoc(rows: seq<Row>, mid: real, poc: nat) {
    poc < |rows| && forall j :: 0 <= j < |rows| ==> Behind(rows, mid, poc, j)
  }

  ghost predicate Behind(rows: seq<Row>, mid: real, poc: nat, j: nat)
    requires poc < |rows| && j < |rows|
  {
    var a, b := |rows[poc].letters|, |rows[j].letters|;
    var near, far := Abs(rows[poc].price - mid), Abs(rows[j].price - mid);
    b < a || (b == a && (near < far || (near == far && poc <= j)))
  }

  method MaxCount(rows: seq<Row>) returns (m: nat)
    requires rows != []
    ensures exists i :: 0 <= i < |rows| && |rows[i].letters| == m
    ensures forall i :: 0 <= i < |rows| ==> |rows[i].letters| <= m
  {
    m := |rows[0].letters|;
    for i := 1 to |rows|
      invariant exists k :: 0 <= k < |rows| && |rows[k].letters| == m
      invariant forall k :: 0 <= k < i ==> |rows[k].letters| <= m
    {
      if |rows[i].letters| > m { m := |rows[i].letters|; }
    }
  }

  method FindPoc(rows: seq<Row>, mid: real) returns (poc: nat)
    requires rows != []
    ensures IsPoc(rows, mid, poc)
  {
    var m := MaxCount(rows);
    poc := 0;
    var found := false;
    for i := 0 to |rows|
      invariant poc < |rows| && (found ==> poc < i && |rows[poc].letters| == m)
      invariant !found ==> forall j :: 0 <= j < i ==> |rows[j].letters| < m
      invariant found ==> forall j :: 0 <= j < i ==> Behind(rows, mid, poc, j)
    {
      if |rows[i].letters| == m && (!found || Abs(rows[i].price - mid) < Abs(rows[poc].price - mid)) {
        if found {
          NearerLeads(rows, mid, poc, i);
        }
        poc, found := i, true;
      }
    }
  }

  /** A row as full and nearer to the middle takes over. */
  lemma NearerLeads(rows: seq<Row>, mid: real, poc: nat, i: nat)
    requires poc < i < |rows| && |rows[i].letters| == |rows[poc].letters|
    requires Abs(rows[i].price - mid) < Abs(rows[poc].price - mid)
    requires forall j :: 0 <= j < i ==> Behind(rows, mid, poc, j)
    ensures forall j :: 0 <= j <= i ==> Behind(rows, mid, i, j)
  {
    forall j | 0 <= j < i ensures Behind(rows, mid, i, j) {
      assert Behind(rows, mid, poc, j);
    }
  }

  /** The first row within half a tick of a row's price is that row. */
  method RowAt(rows: seq<Row>, price: real, tick: real, ghost low: real, ghost poc: nat) returns (i: nat)
    requires tick > 0.0 && poc < |rows| && rows[poc].price == price
    requires forall j :: 0 <= j < |rows| ==> rows[j].price == RowPrice(low, tick, j)
    ensures i == poc
  {
    i := 0;
    while i < |rows| && Abs(rows[i].price - price) >= tick * 0.5
      invariant i <= poc
    {
      i := i + 1;
    }
    if i < poc {
      RowsApart(low, tick, i, poc);
    }
  }

  lemma RowsApart(low: real, tick: real, i: nat, j: nat)
    requires tick > 0.0 && i < j
    ensures Abs(RowPrice(low, tick, i) - RowPrice(low, tick, j)) >= tick
  {
    Scaled(tick, i as real + 1.0, j as real);
    assert (i as real + 1.0) * tick == i as real * tick + tick;
  }

  // ---------------------------------------------------------------------------
  // Value area
  // ---------------------------------------------------------------------------

  /** Seventy percent of the letters, rounded up. */
  function Target(total: nat): (target: nat)
    ensures target <= total
    ensures 10 * target >= 7 * total && (target > 0 ==> 10 * (target - 1) < 7 * total)
  {
    var x := total as real * 0.7;
    assert 0.0 <= x <= total as real;
    Ceil(x)
  }

  /** Of the two rows next to the range, the one above is taken unless the one below is fuller. */
  predicate TakesAbove(rows: seq<Row>, lo: nat, hi: nat)
    requires lo <= hi < |rows|
  {
    hi + 1 < |rows| && (lo == 0 || |rows[hi+1].letters| >= |rows[lo-1].letters|)
  }

  /** Rows `lo` to `hi` inclusive, widened row by row until they hold the target. */
  function Expand(rows: seq<Row>, target: nat, lo: nat, hi: nat): (r: (nat, nat))
    requires lo <= hi < |rows|
    ensures r.0 <= lo && hi <= r.1 < |rows|
    decreases |rows| - (hi - lo)
  {
    if Count(rows, lo, hi + 1) >= target || (lo == 0 && hi + 1 == |rows|) then (lo, hi)
    else if TakesAbove(rows, lo, hi) then Expand(rows, target, lo, hi + 1)
    else Expand(rows, target, lo - 1, hi)
  }

  /** Around the point of control, enough letters, and too few without the row added last. */
  ghost predicate IsValueArea(rows: seq<Row>, target: nat, poc: nat, lo: nat, hi: nat) {
    && lo <= poc <= hi < |rows| && Count(rows, lo, hi + 1) >= target
    && (lo == poc == hi || Needed(rows, target, poc, lo, hi))
  }

  ghost predicate Needed(rows: seq<Row>, target: nat, poc: nat, lo: nat, hi: nat)
    requires lo <= poc <= hi < |rows|
  {
    (lo < poc && Count(rows, lo + 1, hi + 1) < target) || (poc < hi && Count(rows, lo, hi) < target)
  }

  lemma {:induction false} ExpandIsValueArea(rows: seq<Row>, target: nat, poc: nat, lo: nat, hi: nat)
    requires lo <= poc <= hi < |rows| && target <= Count(rows, 0, |rows|)
    requires lo == poc == hi || Needed(rows, target, poc, lo, hi)
    ensures IsValueArea(rows, target, poc, Expand(rows, target, lo, hi).0, Expand(rows, target, lo, hi).1)
    decreases |rows| - (hi - lo)
  {
    if Count(rows, lo, hi + 1) >= target || (lo == 0 && hi + 1 == |rows|) {
    } else if TakesAbove(rows, lo, hi) {
      ExpandIsValueArea(rows, target, poc, lo, hi + 1);
    } else {
      ExpandIsValueArea(rows, target, poc, lo - 1, hi);
    }
  }

  /** Range `b` has one row more than range `a`: the fuller of its two neighbours, the upper one when
      they are equally full. */
  ghost predicate Widens(rows: seq<Row>, a: (nat, nat), b: (nat, nat))
    requires a.0 <= a.1 < |rows|
  {
    var (lo, hi) := a;
    || (hi + 1 < |rows| && b == (lo, hi + 1) && (lo > 0 ==> |rows[hi+1].letters| >= |rows[lo-1].letters|))
    || (lo > 0 && b == (lo - 1, hi) && (hi + 1 < |rows| ==> |rows[lo-1].letters| > |rows[hi+1].letters|))
  }

  /** Ranges that widen row by row, each but the last short of the target. */
  ghost predicate Widening(rows: seq<Row>, target: nat, chain: seq<(nat, nat)>) {
    && chain != []
    && (forall i :: 0 <= i < |chain| ==> chain[i].0 <= chain[i].1 < |rows|)
    && (forall i :: 0 <= i < |chain| - 1 ==>
          Count(rows, chain[i].0, chain[i].1 + 1) < target && Widens(rows, chain[i], chain[i+1]))
  }

  /** Widened greedily from the point of control until the target is met. */
  ghost predicate IsGreedyArea(rows: seq<Row>, target: nat, poc: nat, lo: nat, hi: nat) {
    && lo <= hi < |rows| && Count(rows, lo, hi + 1) >= target
    && exists chain :: Widening(rows, target, chain) && chain[0] == (poc, poc) && chain[|chain|-1] == (lo, hi)
  }

  lemma WideningFirst(rows: seq<Row>, target: nat, a: (nat, nat), chain: seq<(nat, nat)>)
    requires a.0 <= a.1 < |rows| && Count(rows, a.0, a.1 + 1) < target
    requires Widening(rows, target, chain) && Widens(rows, a, chain[0])
    ensures Widening(rows, target, [a] + chain)
  {
  }

  /** The rule widens greedily ... */
  lemma {:induction false} ExpandWidens(rows: seq<Row>, target: nat, lo: nat, hi: nat) returns (chain: seq<(nat, nat)>)
    requires lo <= hi < |rows| && target <= Count(rows, 0, |rows|)
    ensures Widening(rows, target, chain) && chain[0] == (lo, hi)
    ensures var (l, h) := Expand(rows, target, lo, hi);
            chain[|chain|-1] == (l, h) && Count(rows, l, h + 1) >= target
    decreases |rows| - (hi - lo)
  {
    if Count(rows, lo, hi + 1) >= target || (lo == 0 && hi + 1 == |rows|) {
      chain := [(lo, hi)];
    } else {
      var next := if TakesAbove(rows, lo, hi) then (lo, hi + 1) else (lo - 1, hi);
      var rest := ExpandWidens(rows, target, next.0, next.1);
      WideningFirst(rows, target, (lo, hi), rest);
      chain := [(lo, hi)] + rest;
    }
  }

  /** ... and there is no other way to. */
  lemma {:induction false} WideningIsExpand(rows: seq<Row>, target: nat, chain: seq<(nat, nat)>)
    requires Widening(rows, target, chain)
    requires Count(rows, chain[|chain|-1].0, chain[|chain|-1].1 + 1) >= target
    ensures chain[|chain|-1] == Expand(rows, target, chain[0].0, chain[0].1)
    decreases |chain|
  {
    if |chain| > 1 {
      assert Widens(rows, chain[0], chain[1]);
      assert forall i :: 0 <= i < |chain| - 1 ==> chain[1..][i] == chain[i+1];
      WideningIsExpand(rows, target, chain[1..]);
    }
  }

  /** A value area is greedy if and only if it is the one the rule computes. */
  lemma GreedyAreaIsUnique(rows: seq<Row>, target: nat, poc: nat, lo: nat, hi: nat)
    requires poc < |rows| && target <= Count(rows, 0, |rows|)
    ensures IsGreedyArea(rows, target, poc, lo, hi) <==> (lo, hi) == Expand(rows, target, poc, poc)
  {
    if IsGreedyArea(rows, target, poc, lo, hi) {
      var chain :| Widening(rows, target, chain) && chain[0] == (poc, poc) && chain[|chain|-1] == (lo, hi);
      WideningIsExpand(rows, target, chain);
    }
    if (lo, hi) == Expand(rows, target, poc, poc) {
      var chain := ExpandWidens(rows, target, poc, poc);
    }
  }

  method ValueArea(rows: seq<Row>, target: nat, poc: nat) returns (lo: nat, hi: nat)
    requires poc < |rows|
    ensures (lo, hi) == Expand(rows, target, poc, poc)
    ensures target <= Count(rows, 0, |rows|) ==> IsGreedyArea(rows, target, poc, lo, hi)
  {
    if target <= Count(rows, 0, |rows|) {
      GreedyAreaIsUnique(rows, target, poc, Expand(rows, target, poc, poc).0, Expand(rows, target, poc, poc).1);
    }
    lo, hi := poc, poc;
    var acc := |rows[poc].letters|;
    while acc < target && (lo > 0 || hi + 1 < |rows|)
      invariant lo <= hi < |rows| && acc == Count(rows, lo, hi + 1)
      invariant Expand(rows, target, lo, hi) == Expand(rows, target, poc, poc)
      decreases |rows| - (hi - lo)
    {
      var above := if hi + 1 < |rows| then |rows[hi+1].letters| else 0;
      var below := if lo > 0 then |rows[lo-1].letters| else 0;
      if above >= below && hi + 1 < |rows| {
        hi := hi + 1;
        acc := acc + above;
      } else {
        CountFromBelow(rows, lo - 1, hi + 1);
        lo := lo - 1;
        acc := acc + below;
      }
    }
  }

  // ---------------------------------------------------------------------------
  // The profile
  // ---------------------------------------------------------------------------

  datatype TpoSessionPoint = TpoSessionPoint(openTime: int, tick: real, high: real, low: real,
                                             poc: real, vah: real, val: real, rows: seq<Row>)

  function Marked(rows: seq<Row>): seq<Row> {
    if rows == [] then []
    else Marked(rows[..|rows|-1]) + (if rows[|rows|-1].letters == [] then [] else [rows[|rows|-1]])
  }

  /** Only rows with letters are kept. */
  lemma {:induction false} MarkedIs(rows: seq<Row>, row: Row)
    ensures row in Marked(rows) <==> row in rows && row.letters != []
    decreases |rows|
  {
    if rows != [] {
      var n := |rows| - 1;
      MarkedIs(rows[..n], row);
      assert rows == rows[..n] + [rows[n]];
    }
  }

  /** The point of control and the value area read off the rows. */
  ghost predicate Levels(rows: seq<Row>, p: TpoSessionPoint, poc: nat, lo: nat, hi: nat) {
    && IsPoc(rows, (p.high + p.low) * 0.5, poc)
    && (lo, hi) == Expand(rows, Target(Count(rows, 0, |rows|)), poc, poc)
    && p.poc == rows[poc].price && p.val == rows[lo].price && p.vah == rows[hi].price
  }

  ghost predicate IsProfile(buckets: seq<Span>, p: TpoSessionPoint) {
    && p.tick > 0.0
    && var rows := Rows(buckets, p.low, p.tick, RowCount(p.high, p.low, p.tick));
       p.rows == Marked(rows) && exists poc, lo, hi :: Levels(rows, p, poc, lo, hi)
  }

  /** What the levels of a profile say: the point of control is the first of the fullest rows nearest to
      the middle; the rows of the value area are contiguous around it, taken greedily, hold seventy percent
      of all letters, and no longer do without the row taken last; and all letters together are the levels
      that the buckets cover. */
  lemma ProfileMeans(buckets: seq<Span>, p: TpoSessionPoint, rows: seq<Row>, poc: nat, lo: nat, hi: nat)
    requires rows == Rows(buckets, p.low, p.tick, |rows|) && Levels(rows, p, poc, lo, hi)
    ensures forall j :: 0 <= j < |rows| ==> |rows[j].letters| <= |rows[poc].letters|
    ensures forall j :: 0 <= j < |rows| && |rows[j].letters| == |rows[poc].letters| ==>
              var mid := (p.high + p.low) / 2.0;
              && Abs(p.poc - mid) <= Abs(rows[j].price - mid)
              && (Abs(p.poc - mid) == Abs(rows[j].price - mid) ==> poc <= j)
    ensures IsValueArea(rows, Target(Count(rows, 0, |rows|)), poc, lo, hi)
    ensures IsGreedyArea(rows, Target(Count(rows, 0, |rows|)), poc, lo, hi)
    ensures 10 * Count(rows, lo, hi + 1) >= 7 * AllCovered(buckets, p.low, p.tick, |rows|)
  {
    assert (p.high + p.low) * 0.5 == (p.high + p.low) / 2.0;
    forall j | 0 <= j < |rows|
      ensures |rows[j].letters| <= |rows[poc].letters|
      ensures Behind(rows, (p.high + p.low) * 0.5, poc, j)
    {
      assert Behind(rows, (p.high + p.low) * 0.5, poc, j);
    }
    ExpandIsValueArea(rows, Target(Count(rows, 0, |rows|)), poc, poc, poc);
    GreedyAreaIsUnique(rows, Target(Count(rows, 0, |rows|)), poc, lo, hi);
    LettersAreCoverage(buckets, p.low, p.tick, |rows|);
  }

  method EmptyRows(low: real, tick: real, n: nat) returns (rows: seq<Row>)
    ensures rows == Rows([], low, tick, n)
  {
    rows := [];
    for i := 0 to n
      invariant rows == Rows([], low, tick, i)
    {
      rows := rows + [Row(low + i as real * tick, [])];
    }
  }

  /** Put every bucket's letter on the rows it covers. */
  method FillRows(buckets: seq<Span>, low: real, tick: real, n: nat) returns (rows: seq<Row>)
    ensures rows == Rows(buckets, low, tick, n)
  {
    rows := EmptyRows(low, tick, n);
    assert buckets[..0] == [];
    for bi := 0 to |buckets|
      invariant rows == Rows(buckets[..bi], low, tick, n)
    {
      rows := PutLetter(rows, buckets, bi, low, tick, n);
    }
    assert buckets[..|buckets|] == buckets;
  }

  method PutLetter(before: seq<Row>, buckets: seq<Span>, bi: nat, ghost low: real, ghost tick: real, ghost n: nat)
    returns (rows: seq<Row>)
    requires bi < |buckets| && before == Rows(buckets[..bi], low, tick, n)
    ensures rows == Rows(buckets[..bi+1], low, tick, n)
  {
    rows := before;
    var letter := Letter(bi);
    for r := 0 to |rows|
      invariant |rows| == n
      invariant forall i :: r <= i < n ==> rows[i] == before[i]
      invariant forall i :: 0 <= i < r ==> rows[i] == Rows(buckets[..bi+1], low, tick, n)[i]
    {
      LettersSnoc(buckets, bi, rows[r].price);
      if Covers(buckets[bi], rows[r].price) {
        rows := rows[r := Row(rows[r].price, rows[r].letters + [letter])];
      }
    }
  }

  lemma LettersSnoc(buckets: seq<Span>, bi: nat, price: real)
    requires bi < |buckets|
    ensures Letters(buckets[..bi+1], price)
         == Letters(buckets[..bi], price) + (if Covers(buckets[bi], price) then [Letter(bi)] else [])
  {
    assert buckets[..bi+1][..bi] == buckets[..bi];
  }

  method CountAll(rows: seq<Row>) returns (total: nat)
    ensures total == Count(rows, 0, |rows|)
  {
    total := 0;
    for i := 0 to |rows|
      invariant total == Count(rows, 0, i)
    {
      total := total + |rows[i].letters|;
    }
  }

  method KeepMarked(rows: seq<Row>) returns (marked: seq<Row>)
    ensures marked == Marked(rows)
  {
    marked := [];
    assert rows[..0] == [];
    for i := 0 to |rows|
      invariant marked == Marked(rows[..i])
    {
      assert rows[..i+1][..i] == rows[..i];
      if rows[i].letters != [] { marked := marked + [rows[i]]; }
    }
    assert rows[..|rows|] == rows;
  }

  /** The profile of the buckets on a grid of ticks. */
  method Profile(openTime: int, buckets: seq<Span>, high: real, low: real, tick: real)
    returns (p: TpoSessionPoint, ghost rows: seq<Row>, ghost poc: nat, ghost lo: nat, ghost hi: nat)
    requires tick > 0.0
    ensures p.openTime == openTime && p.high == high && p.low == low && p.tick == tick
    ensures rows == Rows(buckets, low, tick, RowCount(high, low, tick))
    ensures p.rows == Marked(rows) && Levels(rows, p, poc, lo, hi)
  {
    var n := RowCount(high, low, tick);
    var filled := FillRows(buckets, low, tick, n);
    var best := FindPoc(filled, (high + low) * 0.5);
    var pocPrice := filled[best].price;
    var total := CountAll(filled);
    var pocIdx := RowAt(filled, pocPrice, tick, low, best);
    var loIdx, hiIdx := ValueArea(filled, Target(total), pocIdx);
    var marked := KeepMarked(filled);
    p := TpoSessionPoint(openTime, tick, high, low, pocPrice, filled[hiIdx].price, filled[loIdx].price, marked);
    rows, poc, lo, hi := filled, pocIdx, loIdx, hiIdx;
  }

  // ---------------------------------------------------------------------------
  // Sessions
  // ---------------------------------------------------------------------------

  /** One bar or trade fed to a session. */
  datatype Sample = Sample(ts: int, high: real, low: real, price: real)

  const MS_PER_DAY := 86_400_000

  function DayStart(ts: int): int {
    Footprint.Bucket(MS_PER_DAY, ts)
  }

  function BucketIndex(date: int, freq: nat, ts: int): nat
    requires freq >= 1
  {
    if ts < date then 0
    else
      QuotientNonNegative(ts - date, freq * 60_000);
      (ts - date) / (freq * 60_000)
  }

  /** A session starts at midnight. */
  lemma DayStartIs(ts: int)
    ensures exists day: int :: DayStart(ts) == day * MS_PER_DAY
    ensures ts >= 0 ==> DayStart(ts) <= ts < DayStart(ts) + MS_PER_DAY
    ensures ts < 0 ==> DayStart(ts) - MS_PER_DAY < ts <= DayStart(ts)
  {
    Footprint.BucketIs(MS_PER_DAY, ts);
  }

  /** An event lies in the window of its index, windows being `freq` minutes long from the start of the
      session on; what comes before the session goes into the first. */
  lemma BucketIndexIs(date: int, freq: nat, ts: int)
    requires freq >= 1
    ensures var b, width := BucketIndex(date, freq, ts), freq * 60_000;
            if ts < date then b == 0 else date + b * width <= ts < date + (b + 1) * width
  {
    if ts >= date {
      var b, width := BucketIndex(date, freq, ts), freq * 60_000;
      Footprint.DividesInto(width, ts - date);
      assert (b + 1) * width == b * width + width;
    }
  }

  lemma QuotientNonNegative(x: int, width: int)
    requires x >= 0 && width > 0
    ensures x / width >= 0
  {
  }

  function RangeOf(events: seq<Sample>): (range: Span)
    ensures range.Span? <==> events != []
  {
    if events == [] then Nothing
    else var e := events[|events|-1]; Widened(RangeOf(events[..|events|-1]), e.high, e.low)
  }

  /** The prices of the events that fall into one window. */
  function BucketRange(events: seq<Sample>, date: int, freq: nat, b: nat): Span
    requires freq >= 1
  {
    if events == [] then Nothing
    else
      var before, e := BucketRange(events[..|events|-1], date, freq, b), events[|events|-1];
      if BucketIndex(date, freq, e.ts) == b then Widened(before, e.high, e.low) else before
  }

  ghost predicate AreBuckets(buckets: seq<Span>, events: seq<Sample>, date: int, freq: nat)
    requires freq >= 1
  {
    && (forall b :: 0 <= b < |buckets| ==> buckets[b] == BucketRange(events, date, freq, b))
    && (forall b :: b >= |buckets| ==> BucketRange(events, date, freq, b) == Nothing)
  }

  method Padded(buckets: seq<Span>, bi: nat, ghost events: seq<Sample>, ghost date: int,
                ghost freq: nat) returns (r: seq<Span>)
    requires freq >= 1 && AreBuckets(buckets, events, date, freq)
    ensures |r| > bi && AreBuckets(r, events, date, freq)
  {
    r := buckets;
    while |r| <= bi
      invariant AreBuckets(r, events, date, freq)
      decreases bi - |r|
    {
      r := r + [Nothing];
    }
  }

  lemma BucketRangeSnoc(events: seq<Sample>, date: int, freq: nat, e: Sample, b: nat)
    requires freq >= 1
    ensures BucketRange(events + [e], date, freq, b)
         == if BucketIndex(date, freq, e.ts) == b then Widened(BucketRange(events, date, freq, b), e.high, e.low)
            else BucketRange(events, date, freq, b)
  {
    assert (events + [e])[..|events|] == events;
  }

  lemma BucketsSnoc(buckets: seq<Span>, events: seq<Sample>, date: int, freq: nat, e: Sample, bi: nat)
    requires freq >= 1 && AreBuckets(buckets, events, date, freq) && bi == BucketIndex(date, freq, e.ts) < |buckets|
    ensures AreBuckets(buckets[bi := Widened(buckets[bi], e.high, e.low)], events + [e], date, freq)
  {
    var after := buckets[bi := Widened(buckets[bi], e.high, e.low)];
    forall b | 0 <= b < |after| ensures after[b] == BucketRange(events + [e], date, freq, b) {
      BucketRangeSnoc(events, date, freq, e, b);
    }
    forall b | b >= |after| ensures BucketRange(events + [e], date, freq, b) == Nothing {
      BucketRangeSnoc(events, date, freq, e, b);
    }
  }

  /** No window reaches beyond the session, so by `NoLevelMissed` no level is left without a row. */
  lemma {:induction false} BucketWithinSession(events: seq<Sample>, date: int, freq: nat, b: nat)
    requires freq >= 1 && BucketRange(events, date, freq, b).Span?
    ensures RangeOf(events).Span? && BucketRange(events, date, freq, b).high <= RangeOf(events).high
    ensures RangeOf(events).low <= BucketRange(events, date, freq, b).low
  {
    var init := events[..|events|-1];
    if BucketRange(init, date, freq, b).Span? {
      BucketWithinSession(init, date, freq, b);
    }
  }

  /** The extremes of a window are the highest high and the lowest low of the events in it. */
  lemma {:induction false} BucketRangeIs(events: seq<Sample>, date: int, freq: nat, b: nat)
    requires freq >= 1
    ensures var range := BucketRange(events, date, freq, b);
            && (range.Span? <==> exists i :: 0 <= i < |events| && InWindow(events, date, freq, b, i))
            && (range.Span? ==>
                  && (exists i :: 0 <= i < |events| && InWindow(events, date, freq, b, i)
                                  && events[i].high == range.high)
                  && (exists i :: 0 <= i < |events| && InWindow(events, date, freq, b, i)
                                  && events[i].low == range.low)
                  && forall i :: 0 <= i < |events| && InWindow(events, date, freq, b, i) ==>
                       range.low <= events[i].low && events[i].high <= range.high)
    decreases |events|
  {
    if events != [] {
      var n := |events| - 1;
      var init := events[..n];
      BucketRangeIs(init, date, freq, b);
      assert forall i :: 0 <= i < n ==> init[i] == events[i];
      assert forall i :: 0 <= i < n ==> InWindow(init, date, freq, b, i) == InWindow(events, date, freq, b, i);
      var before := BucketRange(init, date, freq, b);
      if before.Span? {
        var h :| 0 <= h < n && InWindow(init, date, freq, b, h) && init[h].high == before.high;
        var l :| 0 <= l < n && InWindow(init, date, freq, b, l) && init[l].low == before.low;
        assert InWindow(events, date, freq, b, h) && InWindow(events, date, freq, b, l);
      }
      assert InWindow(events, date, freq, b, n) <==> BucketIndex(date, freq, events[n].ts) == b;
    }
  }

  ghost predicate InWindow(events: seq<Sample>, date: int, freq: nat, b: nat, i: nat)
    requires freq >= 1 && i < |events|
  {
    BucketIndex(date, freq, events[i].ts) == b
  }

  function Larger(a: real, b: real): real {
    if a >= b then a else b
  }

  function Prices(events: seq<Sample>): seq<real> {
    seq(|events|, i requires 0 <= i < |events| => events[i].price)
  }

  /** The smallest price change from one sample to the next, if there is any change. */
  function MinStep(samples: seq<real>): Option<real> {
    if |samples| < 2 then None
    else
      var n := |samples| - 1;
      var before, d := MinStep(samples[..n]), Abs(samples[n] - samples[n-1]);
      if d > 0.0 && (before == None || d < before.value) then Some(d) else before
  }

  lemma {:induction false} MinStepIs(samples: seq<real>)
    ensures var m := MinStep(samples);
            && (m == None ==> forall i :: 0 < i < |samples| ==> Step(samples, i) == 0.0)
            && (m.Some? ==> m.value > 0.0 && (exists i :: 0 < i < |samples| && Step(samples, i) == m.value)
                            && forall i :: 0 < i < |samples| ==> Step(samples, i) == 0.0 || Step(samples, i) >= m.value)
  {
    if |samples| >= 2 {
      var n := |samples| - 1;
      var init := samples[..n];
      MinStepIs(init);
      assert forall i :: 0 < i < n ==> Step(samples, i) == Step(init, i);
      assert Step(samples, n) == Abs(samples[n] - samples[n-1]);
    }
  }

  function Step(samples: seq<real>, i: nat): real
    requires 0 < i < |samples|
  {
    Abs(samples[i] - samples[i-1])
  }

  function DefaultTick(session: Span): (tick: real)
    requires session.Span?
    ensures tick >= 0.01 && 200.0 * tick >= session.high - session.low
    ensures tick == 0.01 || 200.0 * tick == session.high - session.low
  {
    Larger((session.high - session.low) / 200.0, 0.01)
  }

  function Detected(samples: seq<real>, session: Span): (tick: real)
    requires session.Span?
    ensures tick > 0.0
  {
    MinStepIs(samples);
    match MinStep(samples)
    case Some(m) => m
    case None => DefaultTick(session)
  }

  /** The tick of a session: none before the tenth event, which decides it. */
  function TickOf(events: seq<Sample>): (tick: real)
    ensures tick == 0.0 <==> |events| < 10
    ensures tick >= 0.0
  {
    if |events| < 10 then 0.0 else Detected(Prices(events[..10]), RangeOf(events[..10]))
  }

  lemma PricesSnoc(events: seq<Sample>, e: Sample)
    ensures Prices(events + [e]) == Prices(events) + [e.price]
  {
  }

  /** Only the tenth event sets the tick. */
  lemma TickSnoc(events: seq<Sample>, e: Sample)
    ensures |events| < 9 ==> TickOf(events + [e]) == 0.0
    ensures |events| == 9 ==>
              TickOf(events + [e]) == Detected(Prices(events) + [e.price], Widened(RangeOf(events), e.high, e.low))
    ensures |events| >= 10 ==> TickOf(events + [e]) == TickOf(events)
  {
    if |events| >= 9 {
      FirstTen(events, e);
      PricesSnoc(events, e);
      RangeSnoc(events, e);
    }
  }

  lemma FirstTen<T>(s: seq<T>, x: T)
    requires |s| >= 9
    ensures (s + [x])[..10] == if |s| == 9 then s + [x] else s[..10]
  {
  }

  lemma RangeSnoc(events: seq<Sample>, e: Sample)
    ensures RangeOf(events + [e]) == Widened(RangeOf(events), e.high, e.low)
  {
    assert (events + [e])[..|events|] == events;
  }

  /** A session's tick is fixed by its first ten events, and is their smallest price change. */
  lemma TickIsFixed(events: seq<Sample>, more: seq<Sample>)
    requires |events| >= 10
    ensures TickOf(events + more) == TickOf(events[..10])
    ensures forall i :: 0 < i < 10 ==>
              events[i].price == events[i-1].price || Abs(events[i].price - events[i-1].price) >= TickOf(events)
    ensures (exists i :: 0 < i < 10 && Abs(events[i].price - events[i-1].price) == TickOf(events))
            || (TickOf(events) == DefaultTick(RangeOf(events[..10]))
                && forall i :: 0 < i < 10 ==> events[i].price == events[0].price)
  {
    TenStay(events, more);
    FirstTenDecide(events);
  }

  lemma TenStay(events: seq<Sample>, more: seq<Sample>)
    requires |events| >= 10
    ensures TickOf(events + more) == TickOf(events) == TickOf(events[..10])
  {
    var first := events[..10];
    assert (events + more)[..10] == first && first[..10] == first;
  }

  lemma FirstTenDecide(events: seq<Sample>)
    requires |events| >= 10
    ensures forall i :: 0 < i < 10 ==>
              events[i].price == events[i-1].price || Abs(events[i].price - events[i-1].price) >= TickOf(events)
    ensures (exists i :: 0 < i < 10 && Abs(events[i].price - events[i-1].price) == TickOf(events))
            || (TickOf(events) == DefaultTick(RangeOf(events[..10]))
                && forall i :: 0 < i < 10 ==> events[i].price == events[0].price)
  {
    var prices, session := Prices(events[..10]), RangeOf(events[..10]);
    PricesOfTen(events);
    DetectedIs(prices, session);
    assert TickOf(events) == Detected(prices, session);
    assert forall i :: 0 < i < 10 ==> Step(prices, i) == Abs(events[i].price - events[i-1].price);
  }

  lemma PricesOfTen(events: seq<Sample>)
    requires |events| >= 10
    ensures |Prices(events[..10])| == 10 && forall i :: 0 <= i < 10 ==> Prices(events[..10])[i] == events[i].price
  {
  }

  /** The tick detected is the smallest price change, or, of prices all alike, the default. */
  lemma DetectedIs(samples: seq<real>, session: Span)
    requires session.Span?
    ensures var tick := Detected(samples, session);
            && (forall i :: 0 < i < |samples| ==> Step(samples, i) == 0.0 || Step(samples, i) >= tick)
            && ((exists i :: 0 < i < |samples| && Step(samples, i) == tick)
                || (tick == DefaultTick(session) && forall i :: 0 < i < |samples| ==> samples[i] == samples[0]))
  {
    MinStepIs(samples);
    if MinStep(samples) == None {
      AllAlike(samples);
    }
  }

  lemma {:induction false} AllAlike(prices: seq<real>)
    requires forall i :: 0 < i < |prices| ==> Step(prices, i) == 0.0
    ensures forall i :: 0 <= i < |prices| ==> prices[i] == prices[0]
    decreases |prices|
  {
    if |prices| > 1 {
      var n := |prices| - 1;
      var init := prices[..n];
      assert forall i :: 0 < i < n ==> Step(init, i) == Step(prices, i);
      AllAlike(init);
      assert Step(prices, n) == 0.0;
      assert forall i :: 0 <= i < n ==> prices[i] == init[i];
    }
  }

  /** The profile of a session, on the session's own extremes and tick. */
  ghost predicate ClosesSession(p: TpoSessionPoint, date: int, buckets: seq<Span>, session: Span, tickSize: real) {
    && session.Span? && IsProfile(buckets, p) && p.openTime == date
    && p.high == session.high && p.low == session.low
    && p.tick == if tickSize > 0.0 then tickSize else DefaultTick(session)
  }

  class TpoSessionState {
    const freqMinutes: nat
    var sessionDateMs: int
    var buckets: seq<Span>
    var samples: seq<real>
    var tickSize: real
    var extremes: Span
    var history: seq<TpoSessionPoint>
    const maxHistorySessions: nat := 10
    /** Everything fed in the current session. */
    ghost var events: seq<Sample>

    ghost predicate Valid()
      reads this
    {
      && freqMinutes >= 1
      && extremes == RangeOf(events)
      && samples == Prices(events) && tickSize == TickOf(events)
      && (forall e :: e in events ==> DayStart(e.ts) == sessionDateMs)
      && AreBuckets(buckets, events, sessionDateMs, freqMinutes)
    }

    constructor (freq: nat)
      requires freq >= 1
      ensures Valid() && events == [] && history == [] && sessionDateMs == 0 && freqMinutes == freq
    {
      freqMinutes := freq;
      sessionDateMs, buckets, samples, tickSize, extremes, history, events := 0, [], [], 0.0, Nothing, [], [];
    }

    /** The profile of the session so far. */
    method BuildPoint() returns (p: TpoSessionPoint)
      requires Valid() && extremes.Span?
      ensures IsProfile(buckets, p) && p.openTime == sessionDateMs
      ensures p.high == extremes.high && p.low == extremes.low
      ensures p.tick == if tickSize > 0.0 then tickSize else DefaultTick(extremes)
    {
      var tick := if tickSize > 0.0 then tickSize else DefaultTick(extremes);
      ghost var rows, poc, lo, hi;
      p, rows, poc, lo, hi := Profile(sessionDateMs, buckets, extremes.high, extremes.low, tick);
      assert Levels(rows, p, poc, lo, hi);
    }

    /** On a new day, keep the closing profile and start over. A session dated at the epoch is dropped. */
    method MaybeRollSession(ts: int) returns (ghost closed: Option<TpoSessionPoint>)
      requires Valid()
      modifies this
      ensures Valid() && sessionDateMs == DayStart(ts)
      ensures DayStart(ts) == old(sessionDateMs) ==>
        events == old(events) && tickSize == old(tickSize) && samples == old(samples) && closed == None
      ensures DayStart(ts) != old(sessionDateMs) ==>
        && events == [] && tickSize == 0.0 && samples == []
        && (closed.Some? <==> old(sessionDateMs) != 0 && old(exists s :: s in buckets && s.Span?))
      ensures closed.Some? ==>
        ClosesSession(closed.value, old(sessionDateMs), old(buckets), old(extremes), old(tickSize))
      ensures history == if closed.Some? then Tail(old(history) + [closed.value], maxHistorySessions) else old(history)
      ensures |old(history)| <= maxHistorySessions ==> |history| <= maxHistorySessions
    {
      closed := None;
      var barDay := DayStart(ts);
      if barDay != sessionDateMs {
        var hasData := exists s :: s in buckets && s.Span?;
        if hasData && sessionDateMs != 0 {
          SessionHasPrices();
          var p := BuildPoint();
          closed := Some(p);
          history := Tail(history + [p], maxHistorySessions);
        }
        sessionDateMs := barDay;
        buckets, samples, tickSize, extremes, events := [], [], 0.0, Nothing, [];
      }
    }

    lemma SessionHasPrices()
      requires Valid() && exists s :: s in buckets && s.Span?
      ensures extremes.Span?
    {
      var s :| s in buckets && s.Span?;
      var b :| 0 <= b < |buckets| && buckets[b] == s;
      BucketWithinSession(events, sessionDateMs, freqMinutes, b);
    }

    /** Feed one event into the session of its day. */
    method ExtendBucket(e: Sample) returns (ghost closed: Option<TpoSessionPoint>)
      requires Valid()
      modifies this
      ensures Valid() && sessionDateMs == DayStart(e.ts)
      ensures events == (if DayStart(e.ts) == old(sessionDateMs) then old(events) else []) + [e]
      ensures history == if closed.Some? then Tail(old(history) + [closed.value], maxHistorySessions) else old(history)
      ensures closed.Some? <==> DayStart(e.ts) != old(sessionDateMs) && old(sessionDateMs) != 0
                                && old(exists s :: s in buckets && s.Span?)
      ensures closed.Some? ==>
        ClosesSession(closed.value, old(sessionDateMs), old(buckets), old(extremes), old(tickSize))
    {
      closed := MaybeRollSession(e.ts);
      AddEvent(e);
    }

    method AddEvent(e: Sample)
      requires Valid() && DayStart(e.ts) == sessionDateMs
      modifies this
      ensures Valid() && events == old(events) + [e]
      ensures sessionDateMs == old(sessionDateMs) && history == old(history)
    {
      RangeSnoc(events, e);
      PricesSnoc(events, e);
      TickSnoc(events, e);
      extremes := Widened(extremes, e.high, e.low);
      samples := samples + [e.price];
      if tickSize == 0.0 && |samples| >= 10 {
        tickSize := DetectTickSize(samples, extremes);
      }
      var bi := BucketIndex(sessionDateMs, freqMinutes, e.ts);
      buckets := Padded(buckets, bi, events, sessionDateMs, freqMinutes);
      BucketsSnoc(buckets, events, sessionDateMs, freqMinutes, e, bi);
      buckets := buckets[bi := Widened(buckets[bi], e.high, e.low)];
      events := events + [e];
    }
  }

  /** The smallest price change, or a two-hundredth of the session's range if there is none. */
  method DetectTickSize(samples: seq<real>, session: Span) returns (tick: real)
    requires |samples| >= 2 && session.Span?
    ensures tick > 0.0 && tick == Detected(samples, session)
  {
    var minStep: Option<real> := None;
    assert samples[..1] == [samples[0]];
    for n := 1 to |samples|
      invariant minStep == MinStep(samples[..n])
    {
      assert samples[..n+1][..n] == samples[..n];
      var d := Abs(samples[n] - samples[n-1]);
      if d > 0.0 && (minStep == None || d < minStep.value) { minStep := Some(d); }
    }
    assert samples[..|samples|] == samples;
    MinStepIs(samples);
    tick := if minStep.Some? then minStep.value else DefaultTick(session);
  }
}
