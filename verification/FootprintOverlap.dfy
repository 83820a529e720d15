/** What trades fed twice do to a footprint ring: fetched, replayed and live trades overlap. */
module FootprintOverlap {
  import opened Market
  import opened Series
  import opened Footprint

  lemma BarsSnoc(interval: int, ts: seq<Trade>, t: Trade)
    requires interval > 0
    ensures var after := FeedAll(interval, FRESH, ts + [t]);
            && after == Feed(interval, FeedAll(interval, FRESH, ts), t)
            && Bars(interval, ts + [t]) == Merged(Bars(interval, ts), Summary(after.bucket, after.run), OPEN_TIME)
  {
    EmissionsSnoc(interval, FRESH, ts, t);
    var after := FeedAll(interval, FRESH, ts + [t]);
    DedupSnoc(Emissions(interval, FRESH, ts), Summary(after.bucket, after.run), OPEN_TIME);
  }

  /** The last bar is the open one. */
  lemma LastBar(interval: int, ts: seq<Trade>)
    requires interval > 0 && ts != []
    ensures var f, bars := FeedAll(interval, FRESH, ts), Bars(interval, ts);
            f.run != [] && bars != [] && bars[|bars|-1] == Summary(f.bucket, f.run)
  {
    var n := |ts| - 1;
    assert ts == ts[..n] + [ts[n]];
    EmissionsSnoc(interval, FRESH, ts[..n], ts[n]);
  }

  /** The points differ only in those of one bucket, whose volume exceeds by `extra`. */
  ghost predicate ExceedsAt(a: Point, b: Point, bucket: int, extra: real) {
    && b.openTime == a.openTime
    && if a.openTime == bucket then b.volume == a.volume + extra else b == a
  }

  ghost predicate Exceeds(once: seq<Point>, twice: seq<Point>, bucket: int, extra: real) {
    |once| == |twice| && forall x :: 0 <= x < |once| ==> ExceedsAt(once[x], twice[x], bucket, extra)
  }

  ghost predicate FoldExceeds(a: Fold, b: Fold, bucket: int, extra: real) {
    && a.run != [] && b.run != [] && a.bucket == b.bucket >= bucket
    && if a.bucket == bucket then Quantity(b.run) == Quantity(a.run) + extra else a.run == b.run
  }

  lemma QuantityOne(run: seq<Trade>, t: Trade)
    ensures Quantity(run + [t]) == Quantity(run) + t.quantity
  {
    QuantityAppend(run, [t]);
    assert [t][1..] == [];
  }

  lemma FoldsFed(interval: int, a: Fold, b: Fold, t: Trade, bucket: int, extra: real)
    requires interval > 0 && FoldExceeds(a, b, bucket, extra)
    ensures FoldExceeds(Feed(interval, a, t), Feed(interval, b, t), bucket, extra)
    ensures var (a1, b1) := (Feed(interval, a, t), Feed(interval, b, t));
            ExceedsAt(Summary(a1.bucket, a1.run), Summary(b1.bucket, b1.run), bucket, extra)
  {
    QuantityOne(a.run, t);
    QuantityOne(b.run, t);
  }

  /** The folds and the bars of two streams, the second of which was fed something twice. */
  ghost predicate StreamExceeds(interval: int, once: seq<Trade>, twice: seq<Trade>, bucket: int, extra: real)
    requires interval > 0
  {
    && once != [] && twice != []
    && FoldExceeds(FeedAll(interval, FRESH, once), FeedAll(interval, FRESH, twice), bucket, extra)
    && Exceeds(Bars(interval, once), Bars(interval, twice), bucket, extra)
  }

  lemma MergedExceeds(once: seq<Point>, twice: seq<Point>, p: Point, q: Point, bucket: int, extra: real)
    requires Exceeds(once, twice, bucket, extra) && ExceedsAt(p, q, bucket, extra)
    ensures Exceeds(Merged(once, p, OPEN_TIME), Merged(twice, q, OPEN_TIME), bucket, extra)
  {
  }

  /** From then on both streams are fed the same. */
  lemma {:induction false} StreamsFed(interval: int, once: seq<Trade>, twice: seq<Trade>, rest: seq<Trade>,
                                      bucket: int, extra: real)
    requires interval > 0 && StreamExceeds(interval, once, twice, bucket, extra)
    ensures StreamExceeds(interval, once + rest, twice + rest, bucket, extra)
    decreases |rest|
  {
    if rest == [] {
      assert once + rest == once && twice + rest == twice;
    } else {
      var init, t := rest[..|rest|-1], rest[|rest|-1];
      StreamsFed(interval, once, twice, init, bucket, extra);
      AppendLast(once, rest);
      AppendLast(twice, rest);
      BarsSnoc(interval, once + init, t);
      BarsSnoc(interval, twice + init, t);
      var a, b := FeedAll(interval, FRESH, once + init), FeedAll(interval, FRESH, twice + init);
      FoldsFed(interval, a, b, t, bucket, extra);
      var a1, b1 := Feed(interval, a, t), Feed(interval, b, t);
      MergedExceeds(Bars(interval, once + init), Bars(interval, twice + init),
                    Summary(a1.bucket, a1.run), Summary(b1.bucket, b1.run), bucket, extra);
    }
  }

  lemma {:induction false} PushesExceed(interval: int, a: Fold, b: Fold, rest: seq<Trade>, bucket: int, extra: real)
    requires interval > 0 && FoldExceeds(a, b, bucket, extra)
    ensures FoldExceeds(FeedAll(interval, a, rest), FeedAll(interval, b, rest), bucket, extra)
    ensures Exceeds(Emissions(interval, a, rest), Emissions(interval, b, rest), bucket, extra)
    decreases |rest|
  {
    if rest != [] {
      var init, t := rest[..|rest|-1], rest[|rest|-1];
      assert rest == init + [t];
      PushesExceed(interval, a, b, init, bucket, extra);
      EmissionsSnoc(interval, a, init, t);
      EmissionsSnoc(interval, b, init, t);
      FoldsFed(interval, FeedAll(interval, a, init), FeedAll(interval, b, init), t, bucket, extra);
    }
  }

  /** No trade opens a bucket after the open one. */
  ghost predicate Late(interval: int, ts: seq<Trade>, bucket: int)
    requires interval > 0
  {
    forall i :: 0 <= i < |ts| ==> Bucket(interval, ts[i].ts) <= bucket
  }

  /** Late trades, wherever they belong, all go into the open bucket. */
  lemma {:induction false} LateTrades(interval: int, before: seq<Trade>, late: seq<Trade>)
    requires interval > 0 && before != [] && Late(interval, late, FeedAll(interval, FRESH, before).bucket)
    ensures StreamExceeds(interval, before, before + late, FeedAll(interval, FRESH, before).bucket, Quantity(late))
    decreases |late|
  {
    var bucket := FeedAll(interval, FRESH, before).bucket;
    LastBar(interval, before);
    if late == [] {
      assert before + late == before;
      BarsIncrease(interval, before);
    } else {
      var init, t := late[..|late|-1], late[|late|-1];
      LateTrades(interval, before, init);
      AppendLast(before, late);
      assert late == init + [t];
      QuantityOne(init, t);
      var a, f := FeedAll(interval, FRESH, before), FeedAll(interval, FRESH, before + init);
      BarsSnoc(interval, before + init, t);
      LateFold(interval, a, f, t, Quantity(init));
      LateBar(interval, before, before + init, Summary(bucket, f.run + [t]), Quantity(init), t.quantity);
    }
  }

  lemma LateFold(interval: int, a: Fold, f: Fold, t: Trade, extra: real)
    requires interval > 0 && FoldExceeds(a, f, a.bucket, extra) && Bucket(interval, t.ts) <= a.bucket
    ensures Feed(interval, f, t) == Fold(a.bucket, f.run + [t])
    ensures FoldExceeds(a, Feed(interval, f, t), a.bucket, extra + t.quantity)
    ensures Summary(a.bucket, f.run + [t]).volume == Quantity(a.run) + extra + t.quantity
  {
    QuantityOne(f.run, t);
  }

  lemma LateBar(interval: int, before: seq<Trade>, sofar: seq<Trade>, p: Point, extra: real, more: real)
    requires interval > 0 && before != []
    requires var a := FeedAll(interval, FRESH, before);
             && p.openTime == a.bucket && p.volume == Quantity(a.run) + extra + more
             && Exceeds(Bars(interval, before), Bars(interval, sofar), a.bucket, extra)
    ensures Exceeds(Bars(interval, before), Merged(Bars(interval, sofar), p, OPEN_TIME),
                    FeedAll(interval, FRESH, before).bucket, extra + more)
  {
    LastBar(interval, before);
    BarsIncrease(interval, before);
    LastExceeds(Bars(interval, before), Bars(interval, sofar), p, p.openTime, extra, extra + more);
  }

  lemma BarsIncrease(interval: int, ts: seq<Trade>)
    requires interval > 0
    ensures Increasing(Bars(interval, ts), OPEN_TIME)
  {
    EmissionsNeverGoBack(interval, ts);
    DedupIncreases(Emissions(interval, FRESH, ts), OPEN_TIME);
  }

  lemma LastExceeds(once: seq<Point>, twice: seq<Point>, p: Point, bucket: int, extra: real, more: real)
    requires once != [] && Increasing(once, OPEN_TIME) && Exceeds(once, twice, bucket, extra)
    requires once[|once|-1].openTime == bucket == p.openTime && p.volume == once[|once|-1].volume + more
    ensures Exceeds(once, Merged(twice, p, OPEN_TIME), bucket, more)
  {
    var n := |once| - 1;
    forall x | 0 <= x < n ensures once[x].openTime != bucket {
      LaterIsFurther(once, x, n, OPEN_TIME);
    }
    assert twice[n].openTime == bucket;
  }

  // ---------------------------------------------------------------------------
  // The ring
  // ---------------------------------------------------------------------------

  /** The unbounded ring after `seeds` were upserted and `pushed` pushed. */
  ghost function Filled(interval: int, seeds: seq<Trade>, pushed: seq<Trade>): seq<Point>
    requires interval > 0
  {
    Bars(interval, seeds) + Emissions(interval, FeedAll(interval, FRESH, seeds), pushed)
  }

  lemma RingIs(interval: int, seeds: seq<Trade>, pushed: seq<Trade>, capacity: nat)
    requires interval > 0
    ensures ForwarderRing(interval, seeds + pushed, |seeds|, capacity)
         == Tail(Filled(interval, seeds, pushed), capacity)
  {
    var es, f := Emissions(interval, FRESH, seeds), FeedAll(interval, FRESH, seeds);
    EmissionsAppend(interval, FRESH, seeds, pushed);
    EmissionsNeverGoBack(interval, seeds);
    UpsertsAreDedup(es, OPEN_TIME);
    PrefixAndRest(es, Emissions(interval, f, pushed));
  }

  lemma PrefixAndRest<T>(a: seq<T>, b: seq<T>)
    ensures (a + b)[..|a|] == a && (a + b)[|a|..] == b
  {
  }

  /** A ring's stamps never go back, and no bucket of the seeds is missing before evictions. */
  lemma FilledInOrder(interval: int, before: seq<Trade>, rest: seq<Trade>, pushed: seq<Trade>)
    requires interval > 0 && before != []
    ensures NonDecreasing(Filled(interval, before + rest, pushed), OPEN_TIME)
    ensures var filled := Filled(interval, before + rest, pushed);
            exists x :: 0 <= x < |filled| && filled[x].openTime == FeedAll(interval, FRESH, before).bucket
  {
    var seeds := before + rest;
    var es, f := Emissions(interval, FRESH, seeds), FeedAll(interval, FRESH, seeds);
    EmissionsAppend(interval, FRESH, seeds, pushed);
    EmissionsNeverGoBack(interval, seeds + pushed);
    EmissionsNeverGoBack(interval, seeds);
    UpsertsAreDedup(es, OPEN_TIME);
    SeededThenPushed(es, Emissions(interval, f, pushed), OPEN_TIME);
    EmissionsAppend(interval, FRESH, before, rest);
    EmissionsNeverGoBack(interval, before);
    var x := DedupKeepsStamp(es, |before| - 1, OPEN_TIME);
    assert Filled(interval, seeds, pushed)[x] == Bars(interval, seeds)[x];
  }

  lemma {:induction false} DedupKeepsStamp<T>(es: seq<T>, i: nat, stamp: T -> int) returns (x: nat)
    requires i < |es|
    ensures x < |Dedup(es, stamp)| && stamp(Dedup(es, stamp)[x]) == stamp(es[i])
    decreases |es|
  {
    var n := |es| - 1;
    if stamp(es[i]) == stamp(es[n]) {
      x := |Dedup(es, stamp)| - 1;
    } else {
      x := DedupKeepsStamp(es[..n], i, stamp);
    }
  }

  /** Rings that differ in one bucket agree exactly when they have evicted it. */
  lemma TailsAgreeIff(once: seq<Point>, twice: seq<Point>, bucket: int, extra: real, capacity: nat)
    requires Exceeds(once, twice, bucket, extra) && extra > 0.0 && capacity >= 1
    requires NonDecreasing(once, OPEN_TIME) && exists x :: 0 <= x < |once| && once[x].openTime == bucket
    ensures Tail(once, capacity) == Tail(twice, capacity) <==> Tail(once, capacity)[0].openTime > bucket
  {
    TailsExceed(once, twice, bucket, extra, capacity);
    TailMeets(once, bucket, capacity);
    var a, b := Tail(once, capacity), Tail(twice, capacity);
    if a[0].openTime > bucket {
      assert forall y :: 0 <= y < |a| ==> ExceedsAt(a[y], b[y], bucket, extra);
    } else {
      var y :| 0 <= y < |a| && a[y].openTime == bucket;
      assert ExceedsAt(a[y], b[y], bucket, extra);
    }
  }

  lemma TailsExceed(once: seq<Point>, twice: seq<Point>, bucket: int, extra: real, capacity: nat)
    requires Exceeds(once, twice, bucket, extra)
    ensures Exceeds(Tail(once, capacity), Tail(twice, capacity), bucket, extra)
  {
  }

  /** Either the bucket is evicted and all stamps are later, or it is still there. */
  lemma TailMeets(points: seq<Point>, bucket: int, capacity: nat)
    requires NonDecreasing(points, OPEN_TIME) && capacity >= 1
    requires exists x :: 0 <= x < |points| && points[x].openTime == bucket
    ensures var tail := Tail(points, capacity);
            && tail != []
            && if tail[0].openTime > bucket then forall y :: 0 <= y < |tail| ==> tail[y].openTime > bucket
               else exists y :: 0 <= y < |tail| && tail[y].openTime == bucket
  {
    var tail := Tail(points, capacity);
    var from := |points| - |tail|;
    assert tail[0] == points[from];
    if tail[0].openTime > bucket {
      forall y | 0 <= y < |tail| ensures tail[y].openTime > bucket {
        assert tail[y] == points[from + y] && OPEN_TIME(points[from]) <= OPEN_TIME(points[from + y]);
      }
    } else {
      var x :| 0 <= x < |points| && points[x].openTime == bucket;
      var z := if x < from then from else x;
      assert OPEN_TIME(points[x]) <= OPEN_TIME(points[z]);
      assert tail[z - from].openTime == bucket;
    }
  }

  /** Seeding trades that come late, because they were fed before or belong elsewhere, change the ring
      unless they are none or the ring has evicted the bucket that was open when they came. */
  lemma LateIsHarmlessIff(interval: int, before: seq<Trade>, late: seq<Trade>, rest: seq<Trade>, pushed: seq<Trade>,
                          capacity: nat)
    requires interval > 0 && before != [] && Late(interval, late, FeedAll(interval, FRESH, before).bucket)
    requires capacity >= 1 && forall i :: 0 <= i < |late| ==> late[i].quantity > 0.0
    ensures var ring := ForwarderRing(interval, (before + rest) + pushed, |before + rest|, capacity);
            && ring != []
            && (ForwarderRing(interval, (before + late + rest) + pushed, |before + late + rest|, capacity) == ring
                <==> late == [] || ring[0].openTime > FeedAll(interval, FRESH, before).bucket)
  {
    RingIs(interval, before + rest, pushed, capacity);
    RingIs(interval, before + late + rest, pushed, capacity);
    FilledInOrder(interval, before, rest, pushed);
    if late == [] {
      assert before + late == before;
    } else {
      LateFills(interval, before, late, rest, pushed);
      PositiveQuantity(late);
      TailsAgreeIff(Filled(interval, before + rest, pushed), Filled(interval, before + late + rest, pushed),
                    FeedAll(interval, FRESH, before).bucket, Quantity(late), capacity);
    }
  }

  lemma LateFills(interval: int, before: seq<Trade>, late: seq<Trade>, rest: seq<Trade>, pushed: seq<Trade>)
    requires interval > 0 && before != [] && Late(interval, late, FeedAll(interval, FRESH, before).bucket)
    ensures Exceeds(Filled(interval, before + rest, pushed), Filled(interval, before + late + rest, pushed),
                    FeedAll(interval, FRESH, before).bucket, Quantity(late))
  {
    var bucket, extra := FeedAll(interval, FRESH, before).bucket, Quantity(late);
    var once, twice := before + rest, before + late + rest;
    LateTrades(interval, before, late);
    StreamsFed(interval, before, before + late, rest, bucket, extra);
    PushesExceed(interval, FeedAll(interval, FRESH, once), FeedAll(interval, FRESH, twice), pushed, bucket, extra);
    FilledExceeds(interval, once, twice, pushed, bucket, extra);
  }

  lemma FilledExceeds(interval: int, once: seq<Trade>, twice: seq<Trade>, pushed: seq<Trade>, bucket: int, extra: real)
    requires interval > 0 && StreamExceeds(interval, once, twice, bucket, extra)
    requires Exceeds(Emissions(interval, FeedAll(interval, FRESH, once), pushed),
                     Emissions(interval, FeedAll(interval, FRESH, twice), pushed), bucket, extra)
    ensures Exceeds(Filled(interval, once, pushed), Filled(interval, twice, pushed), bucket, extra)
  {
  }

  lemma {:induction false} PositiveQuantity(ts: seq<Trade>)
    requires forall i :: 0 <= i < |ts| ==> ts[i].quantity > 0.0
    ensures Quantity(ts) >= 0.0 && (ts != [] ==> Quantity(ts) > 0.0)
    decreases |ts|
  {
    if ts != [] {
      PositiveQuantity(ts[1..]);
    }
  }

  /** The overlap of fetch and replay. Of an ordered market the first `fetched` trades are fetched, those
      from `from` up to `seeded` replayed, and the rest pushed live: the ring is the one without overlap
      if and only if there is none, or the bucket of the last fetched trade has been evicted. */
  lemma OverlapIsHarmlessIff(interval: int, market: seq<Trade>, from: nat, fetched: nat, seeded: nat, capacity: nat)
    requires interval > 0 && InOrder(market) && capacity >= 1
    requires from <= fetched <= seeded <= |market| && fetched >= 1
    requires forall i :: from <= i < fetched ==> market[i].quantity > 0.0
    ensures var ring := ForwarderRing(interval, market, seeded, capacity);
            && ring != []
            && (ForwarderRing(interval, market[..fetched] + market[from..], fetched + seeded - from, capacity) == ring
                <==> from == fetched || ring[0].openTime > Bucket(interval, market[fetched-1].ts))
  {
    ReplayIsLate(interval, market, from, fetched);
    MarketParts(market, from, fetched, seeded);
    LateIsHarmlessIff(interval, market[..fetched], market[from..fetched], market[fetched..seeded], market[seeded..],
                      capacity);
  }

  lemma ReplayIsLate(interval: int, market: seq<Trade>, from: nat, fetched: nat)
    requires interval > 0 && InOrder(market) && from <= fetched <= |market| && fetched >= 1
    ensures FeedAll(interval, FRESH, market[..fetched]).bucket == Bucket(interval, market[fetched-1].ts)
    ensures Late(interval, market[from..fetched], Bucket(interval, market[fetched-1].ts))
  {
    FoldHoldsBucket(interval, market[..fetched]);
    forall i | from <= i < fetched ensures Bucket(interval, market[i].ts) <= Bucket(interval, market[fetched-1].ts) {
      BucketMonotone(interval, market[i].ts, market[fetched-1].ts);
    }
  }

  lemma MarketParts<T>(market: seq<T>, from: nat, fetched: nat, seeded: nat)
    requires from <= fetched <= seeded <= |market|
    ensures (market[..fetched] + market[fetched..seeded]) + market[seeded..] == market
    ensures (market[..fetched] + market[from..fetched] + market[fetched..seeded]) + market[seeded..]
         == market[..fetched] + market[from..]
  {
  }

  /** Late trades of the live stream are pushed, each repeating the stamp of the open bar. */
  lemma LateLiveRepeats(interval: int, before: seq<Trade>, late: seq<Trade>, capacity: nat)
    requires interval > 0 && before != [] && Late(interval, late, FeedAll(interval, FRESH, before).bucket)
    requires late != [] && capacity >= 2
    ensures !Increasing(ForwarderRing(interval, before + late, |before|, capacity), OPEN_TIME)
  {
    RingIs(interval, before, late, capacity);
    LastBar(interval, before);
    LateStamps(interval, FeedAll(interval, FRESH, before), late);
    var filled := Filled(interval, before, late);
    var n, ring := |filled| - 1, Tail(filled, capacity);
    assert OPEN_TIME(filled[n]) == OPEN_TIME(filled[n-1]);
    assert ring[|ring|-1] == filled[n] && ring[|ring|-2] == filled[n-1];
  }

  lemma {:induction false} LateStamps(interval: int, f: Fold, late: seq<Trade>)
    requires interval > 0 && f.run != [] && Late(interval, late, f.bucket)
    ensures FeedAll(interval, f, late).bucket == f.bucket && FeedAll(interval, f, late).run != []
    ensures forall i :: 0 <= i < |late| ==> Emissions(interval, f, late)[i].openTime == f.bucket
    decreases |late|
  {
    if late != [] {
      LateStamps(interval, f, late[..|late|-1]);
    }
  }
}
