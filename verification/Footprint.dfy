/** Footprint bars (`TradeToFootprintDerived`) and their in-place deepening (`rewarm_footprint`). */
module Footprint {
  import opened Market
  import opened Series

  /** A time bucket of trades: prices, volume, and the volume bought and sold at each price. */
  datatype Point = Point(openTime: int, open: real, high: real, low: real, close: real, volume: real,
                         levels: map<real, (real, real)>)

  const OPEN_TIME := (p: Point) => p.openTime

  /** Start of the bucket of a timestamp; the division truncates toward zero. */
  function Bucket(interval: int, ts: int): int
    requires interval > 0
  {
    if ts >= 0 then ts / interval * interval else -(-ts / interval * interval)
  }

  /** A bucket starts at a multiple of the interval: the last one up to the timestamp, or, before the
      epoch, the first one from it on. */
  lemma BucketIs(interval: int, ts: int)
    requires interval > 0
    ensures exists n: int :: Bucket(interval, ts) == n * interval
    ensures ts >= 0 ==> Bucket(interval, ts) <= ts < Bucket(interval, ts) + interval
    ensures ts < 0 ==> Bucket(interval, ts) - interval < ts <= Bucket(interval, ts)
  {
    if ts >= 0 {
      DividesInto(interval, ts);
      assert Bucket(interval, ts) == (ts / interval) * interval;
    } else {
      DividesInto(interval, -ts);
      var n := -(-ts / interval);
      Negated(-ts / interval, interval);
      assert Bucket(interval, ts) == n * interval;
    }
  }

  lemma DividesInto(interval: int, ts: int)
    requires interval > 0 && ts >= 0
    ensures ts / interval * interval <= ts < ts / interval * interval + interval
  {
    assert ts == ts / interval * interval + ts % interval;
  }

  lemma Negated(q: int, k: int)
    ensures -(q * k) == (-q) * k
  {
  }

  lemma BucketMonotone(interval: int, a: int, b: int)
    requires interval > 0 && a <= b
    ensures Bucket(interval, a) <= Bucket(interval, b)
  {
    if 0 <= a {
      QuotientMonotone(interval, a, b);
    } else if b < 0 {
      QuotientMonotone(interval, -b, -a);
    } else {
      QuotientMonotone(interval, 0, b);
      QuotientMonotone(interval, 0, -a);
    }
  }

  lemma QuotientMonotone(interval: int, a: int, b: int)
    requires interval > 0 && 0 <= a <= b
    ensures 0 <= a / interval * interval <= b / interval * interval
  {
    var p, q := a / interval, b / interval;
    assert a == p * interval + a % interval && b == q * interval + b % interval;
    ProductMonotone(interval, q + 1, p);
    ProductMonotone(interval, p, q);
  }

  lemma ProductMonotone(k: int, a: int, b: int)
    requires k > 0
    ensures a <= b ==> a * k <= b * k
  {
  }

  ghost predicate InOrder(ts: seq<Trade>) {
    forall i, j :: 0 <= i < j < |ts| ==> ts[i].ts <= ts[j].ts
  }

  // ---------------------------------------------------------------------------
  // What a bar is: the summary of all trades of its bucket
  // ---------------------------------------------------------------------------

  /** Volume traded at a price on one side: buys are side 0, sells everything else. */
  ghost function Traded(run: seq<Trade>, price: real, buys: bool): real {
    if run == [] then 0.0
    else
      var n := |run| - 1;
      Traded(run[..n], price, buys)
      + if run[n].price == price && (run[n].side == 0) == buys then run[n].quantity else 0.0
  }

  ghost function Levels(run: seq<Trade>): map<real, (real, real)> {
    map p | p in (set t | t in run :: t.price) :: (Traded(run, p, true), Traded(run, p, false))
  }

  ghost function Summary(bucket: int, run: seq<Trade>): Point
    requires run != []
  {
    Point(bucket, run[0].price, High(run), Low(run), run[|run|-1].price, Quantity(run), Levels(run))
  }

  /** Side 0 buys, every other side sells; further trades at a price and side add up. */
  lemma SidesAre(t: Trade, run: seq<Trade>, price: real, buys: bool)
    ensures Levels([t]) == map[t.price := if t.side == 0 then (t.quantity, 0.0) else (0.0, t.quantity)]
    ensures Traded(run + [t], price, buys)
         == Traded(run, price, buys) + (if t.price == price && (t.side == 0) == buys then t.quantity else 0.0)
    ensures price in Levels(run) <==> exists i :: 0 <= i < |run| && run[i].price == price
  {
    assert (run + [t])[..|run|] == run;
    LevelsSnoc([], t);
    assert [] + [t] == [t] && Levels([]) == map[];
    if price in Levels(run) {
      var u :| u in run && u.price == price;
      var i :| 0 <= i < |run| && run[i] == u;
    }
    if i: int :| 0 <= i < |run| && run[i].price == price {
      var u := run[i];
      assert u in run && u.price == price;
    }
  }

  /** A bar holds the first and the last price of its trades, prices that bound all others, and all their
      volume. */
  lemma SummaryIs(bucket: int, run: seq<Trade>)
    requires run != []
    ensures var p := Summary(bucket, run);
            && p.openTime == bucket && p.open == run[0].price && p.close == run[|run|-1].price
            && (forall i :: 0 <= i < |run| ==> p.low <= run[i].price <= p.high)
            && (exists i :: 0 <= i < |run| && run[i].price == p.high)
            && (exists i :: 0 <= i < |run| && run[i].price == p.low)
            && p.volume == Quantity(run)
  {
    HighLowAre(run);
  }

  /** The trades of one bucket. */
  ghost function Of(interval: int, ts: seq<Trade>, bucket: int): seq<Trade>
    requires interval > 0
  {
    if ts == [] then []
    else
      var n := |ts| - 1;
      Of(interval, ts[..n], bucket) + if Bucket(interval, ts[n].ts) == bucket then [ts[n]] else []
  }

  /** The footprint history of a trade history: one point for every bucket that has trades. */
  ghost predicate IsHistory(interval: int, ts: seq<Trade>, points: seq<Point>)
    requires interval > 0
  {
    && Increasing(points, OPEN_TIME)
    && forall p :: p in points <==> IsBar(interval, ts, p)
  }

  ghost predicate IsBar(interval: int, ts: seq<Trade>, p: Point)
    requires interval > 0
  {
    var run := Of(interval, ts, p.openTime);
    run != [] && p == Summary(p.openTime, run)
  }

  lemma HistoryUnique(interval: int, ts: seq<Trade>, a: seq<Point>, b: seq<Point>)
    requires interval > 0 && IsHistory(interval, ts, a) && IsHistory(interval, ts, b)
    ensures a == b
  {
    IncreasingUnique(a, b, OPEN_TIME);
  }

  lemma {:induction false} OfAppend(interval: int, xs: seq<Trade>, ys: seq<Trade>, bucket: int)
    requires interval > 0
    ensures Of(interval, xs + ys, bucket) == Of(interval, xs, bucket) + Of(interval, ys, bucket)
    decreases |ys|
  {
    if ys == [] {
      assert xs + ys == xs;
    } else {
      var n := |ys| - 1;
      var all := xs + ys;
      assert all[..|all|-1] == xs + ys[..n];
      OfAppend(interval, xs, ys[..n], bucket);
    }
  }

  lemma OfNone(interval: int, ts: seq<Trade>, bucket: int)
    requires interval > 0 && forall i :: 0 <= i < |ts| ==> Bucket(interval, ts[i].ts) != bucket
    ensures Of(interval, ts, bucket) == []
  {
  }

  lemma OfSome(interval: int, ts: seq<Trade>, bucket: int) returns (i: nat)
    requires interval > 0 && Of(interval, ts, bucket) != []
    ensures i < |ts| && Bucket(interval, ts[i].ts) == bucket
    ensures forall j :: i < j < |ts| ==> Bucket(interval, ts[j].ts) != bucket
  {
    i := |ts| - 1;
    if Bucket(interval, ts[i].ts) != bucket {
      i := OfSome(interval, ts[..i], bucket);
    }
  }

  // ---------------------------------------------------------------------------
  // The fold
  // ---------------------------------------------------------------------------

  /** The open bucket and the trades folded into it. */
  datatype Fold = Fold(bucket: int, run: seq<Trade>)

  const FRESH := Fold(0, [])

  function Feed(interval: int, f: Fold, t: Trade): (r: Fold)
    requires interval > 0
    ensures r.run != []
  {
    var b := Bucket(interval, t.ts);
    if f.run == [] || b > f.bucket then Fold(b, [t]) else Fold(f.bucket, f.run + [t])
  }

  function FeedAll(interval: int, f: Fold, ts: seq<Trade>): Fold
    requires interval > 0
  {
    if ts == [] then f else Feed(interval, FeedAll(interval, f, ts[..|ts|-1]), ts[|ts|-1])
  }

  /** One emission per trade: the open bar as it then stands. */
  ghost function Emissions(interval: int, f: Fold, ts: seq<Trade>): (es: seq<Point>)
    requires interval > 0
    ensures |es| == |ts|
  {
    if ts == [] then []
    else
      var after := FeedAll(interval, f, ts);
      Emissions(interval, f, ts[..|ts|-1]) + [Summary(after.bucket, after.run)]
  }

  lemma {:induction false} FeedAllAppend(interval: int, f: Fold, xs: seq<Trade>, ys: seq<Trade>)
    requires interval > 0
    ensures FeedAll(interval, f, xs + ys) == FeedAll(interval, FeedAll(interval, f, xs), ys)
    decreases |ys|
  {
    var all := xs + ys;
    if ys == [] {
      assert all == xs;
    } else {
      assert all[..|all|-1] == xs + ys[..|ys|-1];
      FeedAllAppend(interval, f, xs, ys[..|ys|-1]);
    }
  }

  lemma EmissionsSnoc(interval: int, f: Fold, xs: seq<Trade>, t: Trade)
    requires interval > 0
    ensures FeedAll(interval, f, xs + [t]) == Feed(interval, FeedAll(interval, f, xs), t)
    ensures var after := FeedAll(interval, f, xs + [t]);
            && after.run != []
            && Emissions(interval, f, xs + [t]) == Emissions(interval, f, xs) + [Summary(after.bucket, after.run)]
  {
    assert (xs + [t])[..|xs|] == xs;
  }

  lemma {:induction false} EmissionsAppend(interval: int, f: Fold, xs: seq<Trade>, ys: seq<Trade>)
    requires interval > 0
    ensures Emissions(interval, f, xs + ys)
         == Emissions(interval, f, xs) + Emissions(interval, FeedAll(interval, f, xs), ys)
    decreases |ys|
  {
    if ys == [] {
      assert xs + ys == xs;
    } else {
      var init, t := ys[..|ys|-1], ys[|ys|-1];
      assert ys == init + [t] && xs + ys == (xs + init) + [t];
      EmissionsAppend(interval, f, xs, init);
      FeedAllAppend(interval, f, xs, init);
      EmissionsSnoc(interval, f, xs + init, t);
      EmissionsSnoc(interval, FeedAll(interval, f, xs), init, t);
    }
  }

  /** The fold over a longer prefix, from the fold over a shorter one. */
  lemma NextChunk(interval: int, f: Fold, ts: seq<Trade>, i: nat, next: nat)
    requires interval > 0 && i <= next <= |ts|
    ensures FeedAll(interval, f, ts[..next]) == FeedAll(interval, FeedAll(interval, f, ts[..i]), ts[i..next])
    ensures Emissions(interval, f, ts[..next])
         == Emissions(interval, f, ts[..i]) + Emissions(interval, FeedAll(interval, f, ts[..i]), ts[i..next])
  {
    assert ts[..next] == ts[..i] + ts[i..next];
    FeedAllAppend(interval, f, ts[..i], ts[i..next]);
    EmissionsAppend(interval, f, ts[..i], ts[i..next]);
  }

  type Ohlcv = (real, real, real, real, real)

  class TradeToFootprintDerived {
    const intervalMs: nat
    var currentBucketStart: int
    var currentOhlcv: Option<Ohlcv>
    var levels: map<real, (real, real)>
    /** The trades of the open bucket. */
    ghost var run: seq<Trade>

    ghost predicate Valid()
      reads this
    {
      && (currentOhlcv == None <==> run == [])
      && (run != [] ==> Built() == Summary(currentBucketStart, run))
    }

    function Built(): Point
      reads this
    {
      match currentOhlcv
      case None => Point(currentBucketStart, 0.0, 0.0, 0.0, 0.0, 0.0, levels)
      case Some((o, h, l, c, v)) => Point(currentBucketStart, o, h, l, c, v, levels)
    }

    ghost function View(): Fold
      reads this
    {
      Fold(currentBucketStart, run)
    }

    constructor NewForKey(intervalMs: nat)
      ensures Valid() && View() == FRESH && this.intervalMs == intervalMs
    {
      this.intervalMs := intervalMs;
      currentBucketStart, currentOhlcv, levels, run := 0, None, map[], [];
    }

    method OnTrade(point: Trade) returns (emitted: Option<Point>)
      requires Valid()
      modifies this
      ensures Valid()
      ensures intervalMs == 0 ==> emitted == None && View() == old(View())
      ensures intervalMs > 0 ==>
                && View() == Feed(intervalMs, old(View()), point)
                && emitted == Some(Summary(currentBucketStart, run))
    {
      if intervalMs == 0 {
        return None;
      }
      var bucketStart := Bucket(intervalMs, point.ts);
      var rolled := currentOhlcv == None || bucketStart > currentBucketStart;
      if rolled {
        currentBucketStart := bucketStart;
        currentOhlcv := Some((point.price, point.price, point.price, point.price, point.quantity));
        levels := map[];
        AddLevel(point);
        run := [point];
        SummaryOne(currentBucketStart, point);
      } else {
        var (o, h, l, c, v) := currentOhlcv.value;
        if point.price > h { h := point.price; }
        if point.price < l { l := point.price; }
        currentOhlcv := Some((o, h, l, point.price, v + point.quantity));
        AddLevel(point);
        SummarySnoc(currentBucketStart, run, point);
        run := run + [point];
      }
      emitted := Some(Built());
    }

    /** Add a trade to its price level, on its side. */
    method AddLevel(point: Trade)
      modifies this`levels
      ensures levels == WithTrade(old(levels), point)
    {
      var (buy, sell) := if point.price in levels then levels[point.price] else (0.0, 0.0);
      if point.side == 0 {
        levels := levels[point.price := (buy + point.quantity, sell)];
      } else {
        levels := levels[point.price := (buy, sell + point.quantity)];
      }
    }

    /** Feed a batch of trades, collecting what is emitted. */
    method SeedFromEvents(events: seq<Trade>) returns (emitted: seq<Point>)
      requires Valid() && intervalMs > 0
      modifies this
      ensures Valid()
      ensures View() == FeedAll(intervalMs, old(View()), events)
      ensures emitted == Emissions(intervalMs, old(View()), events)
    {
      emitted := [];
      var i := 0;
      assert events[..0] == [];
      while i < |events|
        invariant 0 <= i <= |events| && Valid()
        invariant View() == FeedAll(intervalMs, old(View()), events[..i])
        invariant emitted == Emissions(intervalMs, old(View()), events[..i])
      {
        assert events[..i+1][..i] == events[..i];
        var p := OnTrade(events[i]);
        emitted := emitted + [p.value];
        i := i + 1;
      }
      assert events[..|events|] == events;
    }
  }

  ghost function WithTrade(levels: map<real, (real, real)>, t: Trade): map<real, (real, real)> {
    var (buy, sell) := if t.price in levels then levels[t.price] else (0.0, 0.0);
    levels[t.price := if t.side == 0 then (buy + t.quantity, sell) else (buy, sell + t.quantity)]
  }

  lemma {:induction false} LevelsSnoc(run: seq<Trade>, t: Trade)
    ensures Levels(run + [t]) == WithTrade(Levels(run), t)
  {
    var more := run + [t];
    assert more[..|more|-1] == run;
    forall p ensures p in Levels(more) <==> p in Levels(run) || p == t.price {
      if p in Levels(run) {
        var u :| u in run && u.price == p;
        assert u in more;
      }
      assert t in more;
    }
    if t.price !in Levels(run) {
      NeverTraded(run, t.price);
    }
  }

  lemma NeverTraded(run: seq<Trade>, price: real)
    requires forall t :: t in run ==> t.price != price
    ensures Traded(run, price, true) == 0.0 && Traded(run, price, false) == 0.0
  {
  }

  lemma SummaryOne(bucket: int, t: Trade)
    ensures Summary(bucket, [t])
         == Point(bucket, t.price, t.price, t.price, t.price, t.quantity, WithTrade(map[], t))
  {
    LevelsSnoc([], t);
    assert [] + [t] == [t];
    assert Levels([]) == map[];
    assert Quantity([t]) == t.quantity by { assert [t][1..] == []; }
  }

  ghost function Extended(s: Point, t: Trade): Point {
    Point(s.openTime, s.open, if t.price > s.high then t.price else s.high, if t.price < s.low then t.price else s.low,
          t.price, s.volume + t.quantity, WithTrade(s.levels, t))
  }

  lemma SummarySnoc(bucket: int, run: seq<Trade>, t: Trade)
    requires run != []
    ensures Summary(bucket, run + [t]) == Extended(Summary(bucket, run), t)
  {
    var more := run + [t];
    assert more[..|more|-1] == run;
    LevelsSnoc(run, t);
    QuantityAppend(run, [t]);
    assert [t][1..] == [];
  }

  // ---------------------------------------------------------------------------
  // The reduced emissions of a fold are the history of its trades
  // ---------------------------------------------------------------------------

  /** The reduced emissions of a fresh fold. */
  ghost function Bars(interval: int, ts: seq<Trade>): seq<Point>
    requires interval > 0
  {
    Dedup(Emissions(interval, FRESH, ts), OPEN_TIME)
  }

  /** On ordered trades the open bucket is the bucket of the last trade, and holds all of it. */
  lemma {:induction false} FoldHoldsBucket(interval: int, ts: seq<Trade>)
    requires interval > 0 && InOrder(ts) && ts != []
    ensures var f := FeedAll(interval, FRESH, ts);
            f.bucket == Bucket(interval, ts[|ts|-1].ts) && f.run == Of(interval, ts, f.bucket)
    decreases |ts|
  {
    var n := |ts| - 1;
    var init, b := ts[..n], Bucket(interval, ts[n].ts);
    if n > 0 {
      FoldHoldsBucket(interval, init);
      forall i | 0 <= i < n ensures Bucket(interval, ts[i].ts) <= Bucket(interval, ts[n-1].ts) <= b {
        BucketMonotone(interval, ts[i].ts, ts[n-1].ts);
        BucketMonotone(interval, ts[n-1].ts, ts[n].ts);
      }
      if b > Bucket(interval, ts[n-1].ts) {
        OfNone(interval, init, b);
      }
    }
  }

  /** Emission `i` summarises the fold of the first `i + 1` trades. */
  lemma {:induction false} NextEmission(interval: int, ts: seq<Trade>, i: nat)
    requires interval > 0 && i < |ts|
    ensures FeedAll(interval, FRESH, ts[..i+1]) == Feed(interval, FeedAll(interval, FRESH, ts[..i]), ts[i])
    ensures var after := FeedAll(interval, FRESH, ts[..i+1]);
            after.run != [] && Emissions(interval, FRESH, ts)[i] == Summary(after.bucket, after.run)
    decreases |ts|
  {
    assert ts[..i+1][..i] == ts[..i];
    if i == |ts| - 1 {
      assert ts[..i+1] == ts;
    } else {
      var init := ts[..|ts|-1];
      NextEmission(interval, init, i);
      assert init[..i+1] == ts[..i+1] && init[..i] == ts[..i];
    }
  }

  /** Emission `i` summarises the trades so far of the bucket of trade `i`. */
  lemma EmissionAt(interval: int, ts: seq<Trade>, i: nat)
    requires interval > 0 && InOrder(ts) && i < |ts|
    ensures var b := Bucket(interval, ts[i].ts);
            && Of(interval, ts[..i+1], b) != []
            && Emissions(interval, FRESH, ts)[i] == Summary(b, Of(interval, ts[..i+1], b))
  {
    NextEmission(interval, ts, i);
    FoldHoldsBucket(interval, ts[..i+1]);
  }

  lemma EmissionsInOrder(interval: int, ts: seq<Trade>)
    requires interval > 0 && InOrder(ts)
    ensures NonDecreasing(Emissions(interval, FRESH, ts), OPEN_TIME)
    ensures forall i :: 0 <= i < |ts| ==> Emissions(interval, FRESH, ts)[i].openTime == Bucket(interval, ts[i].ts)
  {
    forall i | 0 <= i < |ts| ensures Emissions(interval, FRESH, ts)[i].openTime == Bucket(interval, ts[i].ts) {
      EmissionAt(interval, ts, i);
    }
    forall i, j | 0 <= i < j < |ts| ensures Bucket(interval, ts[i].ts) <= Bucket(interval, ts[j].ts) {
      BucketMonotone(interval, ts[i].ts, ts[j].ts);
    }
  }

  /** Whatever the order of the trades, an older trade falls into the open bucket, and stamps never
      go back. */
  lemma {:induction false} EmissionsNeverGoBack(interval: int, ts: seq<Trade>)
    requires interval > 0
    ensures NonDecreasing(Emissions(interval, FRESH, ts), OPEN_TIME)
    ensures ts != [] ==> Emissions(interval, FRESH, ts)[|ts|-1].openTime == FeedAll(interval, FRESH, ts).bucket
    decreases |ts|
  {
    if ts != [] {
      var init, t := ts[..|ts|-1], ts[|ts|-1];
      EmissionsNeverGoBack(interval, init);
      assert ts == init + [t];
      EmissionsSnoc(interval, FRESH, init, t);
      var after := FeedAll(interval, FRESH, ts);
      NonDecreasingSnoc(Emissions(interval, FRESH, init), Summary(after.bucket, after.run), OPEN_TIME);
    }
  }

  lemma NonDecreasingSnoc<T>(s: seq<T>, p: T, stamp: T -> int)
    requires NonDecreasing(s, stamp) && (s != [] ==> stamp(s[|s|-1]) <= stamp(p))
    ensures NonDecreasing(s + [p], stamp)
  {
  }

  /** The last emission of a bucket is its complete bar. */
  lemma LastEmissionIsBar(interval: int, ts: seq<Trade>, i: nat)
    requires interval > 0 && InOrder(ts) && i < |ts|
    requires forall j :: i < j < |ts| ==> Bucket(interval, ts[j].ts) != Bucket(interval, ts[i].ts)
    ensures IsBar(interval, ts, Emissions(interval, FRESH, ts)[i])
    ensures Emissions(interval, FRESH, ts)[i].openTime == Bucket(interval, ts[i].ts)
  {
    var b := Bucket(interval, ts[i].ts);
    EmissionAt(interval, ts, i);
    OfUpToLast(interval, ts, i);
  }

  lemma OfUpToLast(interval: int, ts: seq<Trade>, i: nat)
    requires interval > 0 && i < |ts|
    requires forall j :: i < j < |ts| ==> Bucket(interval, ts[j].ts) != Bucket(interval, ts[i].ts)
    ensures Of(interval, ts[..i+1], Bucket(interval, ts[i].ts)) == Of(interval, ts, Bucket(interval, ts[i].ts))
  {
    var b, after := Bucket(interval, ts[i].ts), ts[i+1..];
    assert ts == ts[..i+1] + after;
    OfAppend(interval, ts[..i+1], after, b);
    forall j | 0 <= j < |after| ensures Bucket(interval, after[j].ts) != b {
      assert after[j] == ts[i+1+j];
    }
    OfNone(interval, after, b);
  }

  /** Reduced to the last emission per bucket, a fresh fold over ordered trades yields exactly
      the history: one complete bar per bucket traded, oldest first. */
  lemma BarsAreHistory(interval: int, ts: seq<Trade>)
    requires interval > 0 && InOrder(ts)
    ensures IsHistory(interval, ts, Bars(interval, ts))
  {
    var es := Emissions(interval, FRESH, ts);
    EmissionsInOrder(interval, ts);
    DedupIncreases(es, OPEN_TIME);
    forall p ensures p in Bars(interval, ts) <==> IsBar(interval, ts, p) {
      DedupKeepsLast(es, p, OPEN_TIME);
      if Survives(es, p, OPEN_TIME) {
        var i :| 0 <= i < |es| && es[i] == p && forall j :: i < j < |es| ==> OPEN_TIME(es[j]) != OPEN_TIME(p);
        forall j | i < j < |ts| ensures Bucket(interval, ts[j].ts) != Bucket(interval, ts[i].ts) {
          assert OPEN_TIME(es[j]) != OPEN_TIME(p);
        }
        LastEmissionIsBar(interval, ts, i);
      }
      if IsBar(interval, ts, p) {
        var i := OfSome(interval, ts, p.openTime);
        LastEmissionIsBar(interval, ts, i);
        assert es[i] == p;
        forall j | i < j < |es| ensures OPEN_TIME(es[j]) != OPEN_TIME(p) {
          assert es[j].openTime == Bucket(interval, ts[j].ts);
        }
      }
    }
  }

  // ---------------------------------------------------------------------------
  // Rewarm
  // ---------------------------------------------------------------------------

  /** Deepen a live ring from a fetched window of trades, folded in chunks. */
  method RewarmFootprint(series: Series<Point>, intervalMs: nat, trades: seq<Trade>, chunkSize: nat)
    returns (older: seq<Point>)
    requires series.Valid() && series.stamp == OPEN_TIME && intervalMs > 0 && chunkSize > 0
    modifies series
    ensures series.Valid()
    ensures older == NotAfterHead(Bars(intervalMs, trades), old(series.ring), OPEN_TIME)
    ensures series.ring == SplicedOver(Bars(intervalMs, trades), old(series.ring), OPEN_TIME)
  {
    if trades == [] { return []; }
    var emissions := DeriveInChunks(intervalMs, trades, chunkSize);
    var rebuilt := RewarmDedup(emissions, OPEN_TIME);
    if rebuilt == [] { return []; }
    older := SpliceOver(series, rebuilt);
  }

  /** Feed a fresh fold chunk by chunk, collecting what is emitted. */
  method DeriveInChunks(intervalMs: nat, trades: seq<Trade>, chunkSize: nat) returns (emissions: seq<Point>)
    requires intervalMs > 0 && chunkSize > 0
    ensures emissions == Emissions(intervalMs, FRESH, trades)
  {
    var state := new TradeToFootprintDerived.NewForKey(intervalMs);
    emissions := [];
    var i := 0;
    assert trades[..0] == [];
    while i < |trades|
      invariant 0 <= i <= |trades| && state.Valid() && state.intervalMs == intervalMs && fresh(state)
      invariant state.View() == FeedAll(intervalMs, FRESH, trades[..i])
      invariant emissions == Emissions(intervalMs, FRESH, trades[..i])
    {
      var next := if i + chunkSize < |trades| then i + chunkSize else |trades|;
      NextChunk(intervalMs, FRESH, trades, i, next);
      var more := state.SeedFromEvents(trades[i..next]);
      emissions := emissions + more;
      i := next;
    }
    assert trades[..|trades|] == trades;
  }

  /** A ring that holds the newest bars of the live trades, possibly after evictions. */
  ghost predicate LiveRing(interval: int, live: seq<Trade>, ring: seq<Point>)
    requires interval > 0
  {
    ring != [] && |ring| <= |Bars(interval, live)| && ring == Bars(interval, live)[|Bars(interval, live)| - |ring|..]
  }

  /** The fetched window reaches past every trade of the ring's head bucket. */
  ghost predicate CoversHead(interval: int, all: seq<Trade>, fetched: nat, ring: seq<Point>)
    requires interval > 0 && ring != [] && fetched <= |all|
  {
    forall i :: fetched <= i < |all| ==> Bucket(interval, all[i].ts) > ring[0].openTime
  }

  /** Rewarm equals from-scratch. Let `older + live` be the ordered trade history. If the ring
      holds the newest bars of the live trades and the fetched window is a prefix of the whole
      history that covers the head bucket, the spliced ring is what a fold of the whole history
      from scratch yields, in every bar, level and price. */
  lemma RewarmEqualsScratch(interval: int, older: seq<Trade>, live: seq<Trade>, fetched: nat, ring: seq<Point>)
    requires interval > 0 && InOrder(older + live) && fetched <= |older + live|
    requires LiveRing(interval, live, ring) && CoversHead(interval, older + live, fetched, ring)
    ensures SplicedOver(Bars(interval, (older + live)[..fetched]), ring, OPEN_TIME) == Bars(interval, older + live)
  {
    var all := older + live;
    var rebuilt := Bars(interval, all[..fetched]);
    RewarmIsHistory(interval, older, live, fetched, ring, rebuilt);
    BarsAreHistory(interval, all);
    HistoryUnique(interval, all, SplicedOver(rebuilt, ring, OPEN_TIME), Bars(interval, all));
  }

  lemma RewarmIsHistory(interval: int, older: seq<Trade>, live: seq<Trade>, fetched: nat, ring: seq<Point>,
                        rebuilt: seq<Point>)
    requires interval > 0 && InOrder(older + live) && fetched <= |older + live|
    requires LiveRing(interval, live, ring) && CoversHead(interval, older + live, fetched, ring)
    requires rebuilt == Bars(interval, (older + live)[..fetched])
    ensures IsHistory(interval, older + live, SplicedOver(rebuilt, ring, OPEN_TIME))
  {
    var window := (older + live)[..fetched];
    LiveInOrder(older, live);
    BarsAreHistory(interval, window);
    BarsAreHistory(interval, live);
    var k := HeadTrade(interval, live, ring);
    assert (older + live)[|older| + k] == live[k];
    var head := BucketHasBar(interval, window, |older| + k);
    SplicedIsHistory(interval, older, live, fetched, rebuilt, Bars(interval, live), ring, head, k);
  }

  lemma LiveInOrder(older: seq<Trade>, live: seq<Trade>)
    requires InOrder(older + live)
    ensures InOrder(live)
  {
    assert forall i :: 0 <= i < |live| ==> live[i] == (older + live)[|older| + i];
  }

  lemma SplicedIsHistory(interval: int, older: seq<Trade>, live: seq<Trade>, fetched: nat,
                         rebuilt: seq<Point>, bars: seq<Point>, ring: seq<Point>, head: Point, k: nat)
    requires interval > 0 && InOrder(older + live) && fetched <= |older + live| && k < |live|
    requires IsHistory(interval, (older + live)[..fetched], rebuilt) && IsHistory(interval, live, bars)
    requires ring != [] && |ring| <= |bars| && ring == bars[|bars|-|ring|..]
    requires CoversHead(interval, older + live, fetched, ring)
    requires head in rebuilt && head.openTime == ring[0].openTime == Bucket(interval, live[k].ts)
    ensures IsHistory(interval, older + live, SplicedOver(rebuilt, ring, OPEN_TIME))
  {
    SplicedOverMembers(rebuilt, bars, ring, head, OPEN_TIME);
    forall p ensures p in SplicedOver(rebuilt, ring, OPEN_TIME) <==> IsBar(interval, older + live, p) {
      if p.openTime <= ring[0].openTime {
        WindowHasBucket(interval, older + live, fetched, ring, p.openTime);
      } else {
        LiveHasBucket(interval, older, live, k, p.openTime);
      }
    }
  }

  /** The window sees all trades of the buckets up to the head. */
  lemma WindowHasBucket(interval: int, all: seq<Trade>, fetched: nat, ring: seq<Point>, bucket: int)
    requires interval > 0 && fetched <= |all| && ring != []
    requires CoversHead(interval, all, fetched, ring) && bucket <= ring[0].openTime
    ensures Of(interval, all[..fetched], bucket) == Of(interval, all, bucket)
  {
    var rest := all[fetched..];
    assert all == all[..fetched] + rest;
    forall i | 0 <= i < |rest| ensures Bucket(interval, rest[i].ts) != bucket {
      assert rest[i] == all[fetched + i];
    }
    OfNone(interval, rest, bucket);
    OfAppend(interval, all[..fetched], rest, bucket);
  }

  /** The live trades hold all trades of the buckets after that of any one of them. */
  lemma LiveHasBucket(interval: int, older: seq<Trade>, live: seq<Trade>, k: nat, bucket: int)
    requires interval > 0 && InOrder(older + live) && k < |live|
    requires bucket > Bucket(interval, live[k].ts)
    ensures Of(interval, older + live, bucket) == Of(interval, live, bucket)
  {
    var all := older + live;
    forall i | 0 <= i < |older| ensures Bucket(interval, older[i].ts) != bucket {
      assert older[i] == all[i] && live[k] == all[|older| + k];
      BucketMonotone(interval, older[i].ts, live[k].ts);
    }
    OfNone(interval, older, bucket);
    OfAppend(interval, older, live, bucket);
  }

  /** Some live trade lies in the head bucket. */
  lemma HeadTrade(interval: int, live: seq<Trade>, ring: seq<Point>) returns (k: nat)
    requires interval > 0 && InOrder(live) && LiveRing(interval, live, ring)
    ensures k < |live| && Bucket(interval, live[k].ts) == ring[0].openTime
  {
    BarsAreHistory(interval, live);
    assert ring[0] in Bars(interval, live);
    k := OfSome(interval, live, ring[0].openTime);
  }

  lemma BucketHasBar(interval: int, ts: seq<Trade>, i: nat) returns (bar: Point)
    requires interval > 0 && InOrder(ts) && i < |ts|
    ensures bar in Bars(interval, ts) && bar.openTime == Bucket(interval, ts[i].ts)
  {
    var b := Bucket(interval, ts[i].ts);
    assert ts == ts[..i+1] + ts[i+1..] && ts[..i+1][..i] == ts[..i];
    OfAppend(interval, ts[..i+1], ts[i+1..], b);
    bar := Summary(b, Of(interval, ts, b));
    BarsAreHistory(interval, ts);
  }

  // ---------------------------------------------------------------------------
  // The ring as the forwarder fills it
  // ---------------------------------------------------------------------------

  /** What a forwarder's ring holds after the trades it was fed, in order of arrival: the first ones,
      fetched or replayed, seed it by upserts, the live loop pushes one emission per trade from there
      on, and a full ring evicts its oldest. */
  ghost function ForwarderRing(interval: int, fed: seq<Trade>, seeded: nat, capacity: nat): (ring: seq<Point>)
    requires interval > 0 && seeded <= |fed|
    ensures fed != [] && capacity >= 1 ==> ring != []
  {
    var es := Emissions(interval, FRESH, fed);
    Tail(UpsertAll([], es[..seeded], OPEN_TIME) + es[seeded..], capacity)
  }

  /** The two loops of the forwarder: seeding, then the live stream. Trades may overlap and go back. */
  method RunForwarder(intervalMs: nat, fed: seq<Trade>, seeded: nat, capacity: nat) returns (series: Series<Point>)
    requires intervalMs > 0 && seeded <= |fed|
    ensures fresh(series) && series.Valid() && series.stamp == OPEN_TIME
    ensures series.capacity == if capacity >= 1 then capacity else 1
    ensures series.ring == ForwarderRing(intervalMs, fed, seeded, series.capacity)
  {
    series := new Series(capacity, OPEN_TIME);
    var state := new TradeToFootprintDerived.NewForKey(intervalMs);
    SeedRing(series, state, fed, seeded);
    PushLive(series, state, fed, seeded, UpsertAll([], Emissions(intervalMs, FRESH, fed)[..seeded], OPEN_TIME));
  }

  method SeedRing(series: Series<Point>, state: TradeToFootprintDerived, fed: seq<Trade>, seeded: nat)
    requires series.Valid() && series.stamp == OPEN_TIME && series.ring == []
    requires state.Valid() && state.View() == FRESH && state.intervalMs > 0
    requires seeded <= |fed|
    modifies series`ring, state
    ensures series.Valid() && state.Valid() && state.View() == FeedAll(state.intervalMs, FRESH, fed[..seeded])
    ensures series.ring
         == Tail(UpsertAll([], Emissions(state.intervalMs, FRESH, fed)[..seeded], OPEN_TIME), series.capacity)
  {
    ghost var es := Emissions(state.intervalMs, FRESH, fed);
    assert fed[..0] == [] && es[..0] == [];
    for i := 0 to seeded
      invariant series.Valid() && state.Valid()
      invariant state.View() == FeedAll(state.intervalMs, FRESH, fed[..i])
      invariant series.ring == Tail(UpsertAll([], es[..i], OPEN_TIME), series.capacity)
    {
      SeedsSoFar(state.intervalMs, fed, i, series.capacity);
      SeedNext(series, state, fed, i);
    }
  }

  method SeedNext(series: Series<Point>, state: TradeToFootprintDerived, fed: seq<Trade>, i: nat)
    requires series.Valid() && series.stamp == OPEN_TIME && state.Valid() && state.intervalMs > 0 && i < |fed|
    requires state.View() == FeedAll(state.intervalMs, FRESH, fed[..i])
    modifies series`ring, state
    ensures series.Valid() && state.Valid() && state.View() == FeedAll(state.intervalMs, FRESH, fed[..i+1])
    ensures series.ring
         == Tail(Upsert(old(series.ring), Emissions(state.intervalMs, FRESH, fed)[i], OPEN_TIME), series.capacity)
  {
    NextEmission(state.intervalMs, fed, i);
    var point := state.OnTrade(fed[i]);
    series.UpsertByTs(point.value);
  }

  method PushLive(series: Series<Point>, state: TradeToFootprintDerived, fed: seq<Trade>, seeded: nat,
                  ghost seeds: seq<Point>)
    requires series.Valid() && state.Valid() && state.intervalMs > 0 && seeded <= |fed|
    requires state.View() == FeedAll(state.intervalMs, FRESH, fed[..seeded])
    requires series.ring == Tail(seeds, series.capacity)
    modifies series`ring, state
    ensures series.Valid()
    ensures series.ring == Tail(seeds + Emissions(state.intervalMs, FRESH, fed)[seeded..], series.capacity)
  {
    ghost var es := Emissions(state.intervalMs, FRESH, fed);
    assert seeds + es[seeded..seeded] == seeds;
    for i := seeded to |fed|
      invariant series.Valid() && state.Valid()
      invariant state.View() == FeedAll(state.intervalMs, FRESH, fed[..i])
      invariant series.ring == Tail(seeds + es[seeded..i], series.capacity)
    {
      PushedSoFar(seeds, es, seeded, i, series.capacity);
      PushNext(series, state, fed, i);
    }
    assert es[seeded..|fed|] == es[seeded..];
  }

  method PushNext(series: Series<Point>, state: TradeToFootprintDerived, fed: seq<Trade>, i: nat)
    requires series.Valid() && state.Valid() && state.intervalMs > 0 && i < |fed|
    requires state.View() == FeedAll(state.intervalMs, FRESH, fed[..i])
    modifies series`ring, state
    ensures series.Valid() && state.Valid() && state.View() == FeedAll(state.intervalMs, FRESH, fed[..i+1])
    ensures series.ring == Tail(old(series.ring) + [Emissions(state.intervalMs, FRESH, fed)[i]], series.capacity)
  {
    NextEmission(state.intervalMs, fed, i);
    var point := state.OnTrade(fed[i]);
    series.Push(point.value);
  }

  lemma PushedSoFar<T>(base: seq<T>, es: seq<T>, seeded: nat, i: nat, n: nat)
    requires seeded <= i < |es| && n >= 1
    ensures Tail(Tail(base + es[seeded..i], n) + [es[i]], n) == Tail(base + es[seeded..i+1], n)
  {
    TailPush(base + es[seeded..i], es[i], n);
    assert base + es[seeded..i] + [es[i]] == base + es[seeded..i+1];
  }

  lemma SeedsSoFar(interval: int, fed: seq<Trade>, i: nat, n: nat)
    requires interval > 0 && i < |fed| && n >= 1
    ensures var es := Emissions(interval, FRESH, fed);
            Tail(Upsert(Tail(UpsertAll([], es[..i], OPEN_TIME), n), es[i], OPEN_TIME), n)
              == Tail(UpsertAll([], es[..i+1], OPEN_TIME), n)
  {
    EmissionsNeverGoBack(interval, fed);
    UpsertsSoFar(Emissions(interval, FRESH, fed), i, n, OPEN_TIME);
  }

  lemma UpsertsSoFar<T>(es: seq<T>, i: nat, n: nat, stamp: T -> int)
    requires NonDecreasing(es, stamp) && i < |es| && n >= 1
    ensures Tail(Upsert(Tail(UpsertAll([], es[..i], stamp), n), es[i], stamp), n)
         == Tail(UpsertAll([], es[..i+1], stamp), n)
  {
    UpsertOneMore(es[..i], es[i], n, stamp);
    assert es[..i+1] == es[..i] + [es[i]];
  }

  lemma UpsertOneMore<T>(seeds: seq<T>, p: T, n: nat, stamp: T -> int)
    requires n >= 1 && NonDecreasing(seeds, stamp) && (seeds != [] ==> stamp(seeds[|seeds|-1]) <= stamp(p))
    ensures Tail(Upsert(Tail(UpsertAll([], seeds, stamp), n), p, stamp), n)
         == Tail(UpsertAll([], seeds + [p], stamp), n)
  {
    UpsertsAreDedup(seeds, stamp);
    DedupIncreases(seeds, stamp);
    UpsertThenTail(UpsertAll([], seeds, stamp), p, n, stamp);
    UpsertAllSnoc([], seeds, p, stamp);
  }

  /** The live loop pushes every emission instead of replacing the open bar. On the ring it leaves,
      for every number of seeding trades and every capacity, rewarm equals from-scratch if and only
      if the ring's stamps strictly increase: otherwise a superseded state of a bar stays behind. */
  lemma ForwarderRingEqualsScratchIff(interval: int, older: seq<Trade>, live: seq<Trade>, fetched: nat,
                                      seeded: nat, capacity: nat)
    requires interval > 0 && InOrder(older + live) && live != [] && fetched <= |older + live|
    requires seeded <= |live| && capacity >= 1
    requires CoversHead(interval, older + live, fetched, ForwarderRing(interval, live, seeded, capacity))
    ensures SplicedOver(Bars(interval, (older + live)[..fetched]), ForwarderRing(interval, live, seeded, capacity),
                        OPEN_TIME)
              == Bars(interval, older + live)
            <==> Increasing(ForwarderRing(interval, live, seeded, capacity), OPEN_TIME)
  {
    var ring := ForwarderRing(interval, live, seeded, capacity);
    LiveInOrder(older, live);
    if Increasing(ring, OPEN_TIME) {
      IncreasingRingIsLive(interval, live, seeded, capacity);
      RewarmEqualsScratch(interval, older, live, fetched, ring);
    } else {
      BarsAreHistory(interval, older + live);
      RepeatedStampStays(interval, older, live, fetched, seeded, capacity);
    }
  }

  /** Two trades of one bucket: an unseeded ring keeps a superseded bar, unless it evicts it at once. */
  lemma PairRepeatsIff(interval: int, t: Trade, u: Trade, capacity: nat)
    requires interval > 0 && t.ts <= u.ts && Bucket(interval, t.ts) == Bucket(interval, u.ts) && capacity >= 1
    ensures Increasing(ForwarderRing(interval, [t, u], 0, capacity), OPEN_TIME) <==> capacity == 1
  {
    var live := [t, u];
    var es := Emissions(interval, FRESH, live);
    EmissionAt(interval, live, 0);
    EmissionAt(interval, live, 1);
    assert UpsertAll([], es[..0], OPEN_TIME) + es[0..] == es;
    var ring := ForwarderRing(interval, live, 0, capacity);
    if capacity >= 2 {
      assert ring == es && OPEN_TIME(ring[0]) == OPEN_TIME(ring[1]);
    }
  }

  /** The unbounded ring: in order, and reduced to the bars of the live trades. */
  lemma FilledIs(interval: int, live: seq<Trade>, seeded: nat)
    requires interval > 0 && InOrder(live) && seeded <= |live|
    ensures var es := Emissions(interval, FRESH, live);
            var filled := UpsertAll([], es[..seeded], OPEN_TIME) + es[seeded..];
            && Dedup(filled, OPEN_TIME) == Bars(interval, live)
            && NonDecreasing(filled, OPEN_TIME)
            && (forall p :: p in filled ==> p in es)
  {
    var es := Emissions(interval, FRESH, live);
    EmissionsInOrder(interval, live);
    assert es == es[..seeded] + es[seeded..];
    SeededThenPushed(es[..seeded], es[seeded..], OPEN_TIME);
  }

  lemma SeededThenPushed<T>(seeds: seq<T>, rest: seq<T>, stamp: T -> int)
    requires NonDecreasing(seeds + rest, stamp)
    ensures Dedup(UpsertAll([], seeds, stamp) + rest, stamp) == Dedup(seeds + rest, stamp)
    ensures NonDecreasing(UpsertAll([], seeds, stamp) + rest, stamp)
    ensures forall p :: p in UpsertAll([], seeds, stamp) + rest ==> p in seeds + rest
  {
    PartsInOrder(seeds, rest, stamp);
    UpsertsAreDedup(seeds, stamp);
    DedupTwice(seeds, rest, stamp);
    ReducedThenRest(seeds, rest, stamp);
  }

  lemma PartsInOrder<T>(a: seq<T>, b: seq<T>, stamp: T -> int)
    requires NonDecreasing(a + b, stamp)
    ensures NonDecreasing(a, stamp) && NonDecreasing(b, stamp)
    ensures forall p, q :: p in a && q in b ==> stamp(p) <= stamp(q)
  {
    var all := a + b;
    assert forall i :: 0 <= i < |a| ==> all[i] == a[i];
    assert forall i :: 0 <= i < |b| ==> all[|a| + i] == b[i];
  }

  lemma ReducedThenRest<T>(seeds: seq<T>, rest: seq<T>, stamp: T -> int)
    requires NonDecreasing(seeds + rest, stamp)
    ensures NonDecreasing(Dedup(seeds, stamp) + rest, stamp)
    ensures forall p :: p in Dedup(seeds, stamp) + rest ==> p in seeds + rest
  {
    PartsInOrder(seeds, rest, stamp);
    var reduced := Dedup(seeds, stamp);
    DedupIncreases(seeds, stamp);
    forall p | p in reduced ensures p in seeds {
      DedupKeepsLast(seeds, p, stamp);
    }
    var all := reduced + rest;
    forall i, j | 0 <= i < j < |all| ensures stamp(all[i]) <= stamp(all[j]) {
      if j < |reduced| {
        LaterIsFurther(reduced, i, j, stamp);
      } else if i < |reduced| {
        assert all[i] in reduced && all[j] in rest;
      }
    }
  }

  lemma IncreasingRingIsLive(interval: int, live: seq<Trade>, seeded: nat, capacity: nat)
    requires interval > 0 && InOrder(live) && live != [] && seeded <= |live| && capacity >= 1
    requires Increasing(ForwarderRing(interval, live, seeded, capacity), OPEN_TIME)
    ensures LiveRing(interval, live, ForwarderRing(interval, live, seeded, capacity))
  {
    var es := Emissions(interval, FRESH, live);
    var filled := UpsertAll([], es[..seeded], OPEN_TIME) + es[seeded..];
    var ring := Tail(filled, capacity);
    FilledIs(interval, live, seeded);
    assert filled == filled[..|filled|-|ring|] + ring;
    DedupEndsWith(filled[..|filled|-|ring|], ring, OPEN_TIME);
  }

  lemma RepeatedStampStays(interval: int, older: seq<Trade>, live: seq<Trade>, fetched: nat, seeded: nat, capacity: nat)
    requires interval > 0 && InOrder(older + live) && InOrder(live) && live != [] && fetched <= |older + live|
    requires seeded <= |live| && capacity >= 1
    requires CoversHead(interval, older + live, fetched, ForwarderRing(interval, live, seeded, capacity))
    requires !Increasing(ForwarderRing(interval, live, seeded, capacity), OPEN_TIME)
    ensures !Increasing(SplicedOver(Bars(interval, (older + live)[..fetched]),
                                    ForwarderRing(interval, live, seeded, capacity), OPEN_TIME), OPEN_TIME)
  {
    var ring := ForwarderRing(interval, live, seeded, capacity);
    RingInOrder(interval, live, seeded, capacity);
    var i := RepeatedStamp(ring, OPEN_TIME);
    RepeatStays(interval, older, live, fetched, ring, i);
  }

  lemma RingInOrder(interval: int, live: seq<Trade>, seeded: nat, capacity: nat)
    requires interval > 0 && InOrder(live) && live != [] && seeded <= |live| && capacity >= 1
    ensures var ring := ForwarderRing(interval, live, seeded, capacity);
            NonDecreasing(ring, OPEN_TIME) && ring[0] in Emissions(interval, FRESH, live)
  {
    FilledIs(interval, live, seeded);
    var es := Emissions(interval, FRESH, live);
    TailInOrder(UpsertAll([], es[..seeded], OPEN_TIME) + es[seeded..], capacity, es);
  }

  lemma TailInOrder(s: seq<Point>, n: nat, es: seq<Point>)
    requires NonDecreasing(s, OPEN_TIME) && s != [] && n >= 1 && forall p :: p in s ==> p in es
    ensures NonDecreasing(Tail(s, n), OPEN_TIME) && Tail(s, n)[0] in es
  {
    var tail := Tail(s, n);
    var from := |s| - |tail|;
    forall i, j | 0 <= i < j < |tail| ensures OPEN_TIME(tail[i]) <= OPEN_TIME(tail[j]) {
      assert tail[i] == s[from + i] && tail[j] == s[from + j];
    }
    assert tail[0] == s[from];
  }

  lemma RepeatStays(interval: int, older: seq<Trade>, live: seq<Trade>, fetched: nat, ring: seq<Point>, i: nat)
    requires interval > 0 && InOrder(older + live) && InOrder(live) && fetched <= |older + live|
    requires i + 1 < |ring| && ring[i].openTime == ring[i+1].openTime && ring[0] in Emissions(interval, FRESH, live)
    requires CoversHead(interval, older + live, fetched, ring)
    ensures !Increasing(SplicedOver(Bars(interval, (older + live)[..fetched]), ring, OPEN_TIME), OPEN_TIME)
  {
    var window := (older + live)[..fetched];
    var k := EmissionOf(interval, live, ring[0]);
    assert (older + live)[|older| + k] == live[k];
    BarsAreHistory(interval, window);
    var head := BucketHasBar(interval, window, |older| + k);
    SplicedOverRepeats(Bars(interval, window), ring, head, i, OPEN_TIME);
  }

  lemma EmissionOf(interval: int, ts: seq<Trade>, p: Point) returns (k: nat)
    requires interval > 0 && InOrder(ts) && p in Emissions(interval, FRESH, ts)
    ensures k < |ts| && Bucket(interval, ts[k].ts) == p.openTime
  {
    k :| 0 <= k < |ts| && Emissions(interval, FRESH, ts)[k] == p;
    EmissionAt(interval, ts, k);
  }

  /** Stamps that never go back but do not strictly increase repeat somewhere, side by side. */
  lemma RepeatedStamp<T>(s: seq<T>, stamp: T -> int) returns (i: nat)
    requires NonDecreasing(s, stamp) && !Increasing(s, stamp)
    ensures i + 1 < |s| && stamp(s[i]) == stamp(s[i+1])
  {
    var a, b :| 0 <= a < b < |s| && stamp(s[a]) >= stamp(s[b]);
    i := a;
    assert stamp(s[a]) <= stamp(s[a+1]) <= stamp(s[b]);
  }
}
