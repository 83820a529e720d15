/** Trades made from klines: `kline_to_synthetic_trades` for history, `KlineDeltaState` for live frames. */
module KlineDelta {
  import opened Market
  import opened Series

  datatype BarPoint = BarPoint(openTime: int, open: real, high: real, low: real, close: real, volume: real)

  const OPEN: BarPoint -> int := (b: BarPoint) => b.openTime

  const STAMP: Trade -> int := (t: Trade) => t.ts

  /** The open time that stands for "no baseline yet". */
  const UNSEEDED: int := -0x8000_0000_0000_0000

  /** The bar under way, what of its volume is accounted for, and the number of ticks made of it. */
  datatype Delta = Delta(openTime: int, seenVolume: real, lastClose: real, offset: nat)

  function Seeded(bar: BarPoint): Delta {
    Delta(bar.openTime, bar.volume, bar.close, 0)
  }

  function Clamp(offset: nat, interval: int): (o: int)
    requires interval >= 1
    ensures 0 <= o < interval && o <= offset
  {
    if offset < interval then offset else interval - 1
  }

  // ---------------------------------------------------------------------------
  // Live frames
  // ---------------------------------------------------------------------------

  function NonNegative(x: real): real {
    if x > 0.0 then x else 0.0
  }

  /** What a frame adds to the volume already accounted for: the growth of the bar under way, or
      all of a new bar's volume. */
  function Growth(d: Delta, bar: BarPoint): real {
    NonNegative(if bar.openTime == d.openTime then bar.volume - d.seenVolume else bar.volume)
  }

  function Advance(interval: int, d: Delta, bar: BarPoint): (r: (Delta, Option<Trade>))
    requires interval >= 1
    ensures r.1.Some? ==>
      var t := r.1.value;
      bar.openTime <= t.ts < bar.openTime + interval && t.price == bar.close && t.quantity > 0.0
  {
    if d.openTime == UNSEEDED then (Seeded(bar), None)
    else if bar.openTime < d.openTime then (d, None)
    else
      var offset := if bar.openTime == d.openTime then d.offset else 0;
      var growth := Growth(d, bar);
      if growth <= 0.0 then (Delta(bar.openTime, bar.volume, bar.close, offset), None)
      else
        (Delta(bar.openTime, bar.volume, bar.close, offset + 1),
         Some(Trade(bar.openTime + Clamp(offset, interval), bar.close, growth,
                    if bar.close < d.lastClose then 1 else 0)))
  }

  function Listed(t: Option<Trade>): seq<Trade> {
    if t.Some? then [t.value] else []
  }

  /** The state after the frames and the trades made of them. */
  function Live(interval: int, d: Delta, frames: seq<BarPoint>): (Delta, seq<Trade>)
    requires interval >= 1
    decreases |frames|
  {
    if frames == [] then (d, [])
    else
      var (before, trades) := Live(interval, d, frames[..|frames|-1]);
      var (after, t) := Advance(interval, before, frames[|frames|-1]);
      (after, trades + Listed(t))
  }

  class KlineDeltaState {
    var lastOpenTime: int
    var lastSeenVolume: real
    var lastClose: real
    var tickOffset: nat

    function View(): Delta
      reads this
    {
      Delta(lastOpenTime, lastSeenVolume, lastClose, tickOffset)
    }

    constructor ()
      ensures View() == Delta(UNSEEDED, 0.0, 0.0, 0)
    {
      lastOpenTime, lastSeenVolume, lastClose, tickOffset := UNSEEDED, 0.0, 0.0, 0;
    }

    method SeedBaseline(openTime: int, volume: real, close: real)
      modifies this
      ensures View() == Delta(openTime, volume, close, 0)
    {
      lastOpenTime, lastSeenVolume, lastClose, tickOffset := openTime, volume, close, 0;
    }

    /** At most one trade per frame. */
    method ToDeltaTrade(bar: BarPoint, interval: int) returns (t: Option<Trade>)
      requires interval >= 1
      modifies this
      ensures (View(), t) == Advance(interval, old(View()), bar)
    {
      if lastOpenTime == UNSEEDED {
        SeedBaseline(bar.openTime, bar.volume, bar.close);
        return None;
      }
      var deltaVolume: real;
      if bar.openTime == lastOpenTime {
        deltaVolume := NonNegative(bar.volume - lastSeenVolume);
      } else if bar.openTime > lastOpenTime {
        lastOpenTime := bar.openTime;
        tickOffset := 0;
        deltaVolume := NonNegative(bar.volume);
      } else {
        return None;
      }
      if deltaVolume <= 0.0 {
        lastSeenVolume := bar.volume;
        lastClose := bar.close;
        return None;
      }
      var side := if bar.close < lastClose then 1 else 0;
      var offset := Clamp(tickOffset, interval);
      tickOffset := tickOffset + 1;
      lastSeenVolume := bar.volume;
      lastClose := bar.close;
      t := Some(Trade(bar.openTime + offset, bar.close, deltaVolume, side));
    }
  }

  // ---------------------------------------------------------------------------
  // What live frames add up to
  // ---------------------------------------------------------------------------

  /** The baseline and the frames that are not older than what was seen before them. */
  function Accepted(base: BarPoint, frames: seq<BarPoint>): (r: seq<BarPoint>)
    ensures r != []
  {
    if frames == [] then [base]
    else
      var before, f := Accepted(base, frames[..|frames|-1]), frames[|frames|-1];
      if f.openTime >= before[|before|-1].openTime then before + [f] else before
  }

  ghost function VolumeOf(bars: seq<BarPoint>): real {
    if bars == [] then 0.0 else VolumeOf(bars[..|bars|-1]) + bars[|bars|-1].volume
  }

  /** The volume does not shrink from one frame of a bar to the next, and starts at zero or more. */
  ghost predicate Grows(before: BarPoint, after: BarPoint) {
    after.volume >= if after.openTime == before.openTime then before.volume else 0.0
  }

  ghost predicate NeverShrinks(bars: seq<BarPoint>) {
    |bars| > 1 ==> NeverShrinks(bars[..|bars|-1]) && Grows(bars[|bars|-2], bars[|bars|-1])
  }

  /** The volume of every bar as last observed, less what the baseline already held. */
  ghost function ObservedVolume(base: BarPoint, frames: seq<BarPoint>): real {
    VolumeOf(Dedup(Accepted(base, frames), OPEN)) - base.volume
  }

  lemma VolumeSnoc(bars: seq<BarPoint>, b: BarPoint)
    ensures VolumeOf(bars + [b]) == VolumeOf(bars) + b.volume
  {
    assert (bars + [b])[..|bars|] == bars;
  }

  lemma LastVolumes(bars: seq<BarPoint>, b: BarPoint)
    requires bars != []
    ensures VolumeOf(Dedup(bars + [b], OPEN))
         == VolumeOf(Dedup(bars, OPEN)) + b.volume
            - (if b.openTime == bars[|bars|-1].openTime then bars[|bars|-1].volume else 0.0)
  {
    var before := Dedup(bars, OPEN);
    DedupSnoc(bars, b, OPEN);
    VolumeSnoc(before, b);
    VolumeSnoc(before[..|before|-1], b);
  }

  lemma QuantityListed(trades: seq<Trade>, t: Option<Trade>)
    ensures Quantity(trades + Listed(t)) == Quantity(trades) + (if t.Some? then t.value.quantity else 0.0)
  {
    QuantityAppend(trades, Listed(t));
    if t.Some? {
      assert [t.value][1..] == [];
    }
  }

  /** The state holds the last accepted frame. */
  lemma {:induction false} LiveTracks(interval: int, base: BarPoint, frames: seq<BarPoint>)
    requires interval >= 1 && base.openTime > UNSEEDED
    ensures var d, last := Live(interval, Seeded(base), frames).0, Accepted(base, frames)[|Accepted(base, frames)|-1];
            && d.openTime == last.openTime && d.seenVolume == last.volume && d.lastClose == last.close
            && d.openTime > UNSEEDED
  {
    if frames != [] {
      LiveTracks(interval, base, frames[..|frames|-1]);
    }
  }

  /** A frame adds at least what it changes in the observed volume, and exactly that if it grows. */
  lemma GrowthIs(d: Delta, bars: seq<BarPoint>, f: BarPoint)
    requires bars != [] && d.openTime == bars[|bars|-1].openTime && d.seenVolume == bars[|bars|-1].volume
    ensures var before, after := VolumeOf(Dedup(bars, OPEN)), VolumeOf(Dedup(bars + [f], OPEN));
            && before + Growth(d, f) >= after
            && (before + Growth(d, f) == after <==> Grows(bars[|bars|-1], f))
  {
    LastVolumes(bars, f);
  }

  lemma NeverShrinksSnoc(bars: seq<BarPoint>, f: BarPoint)
    requires bars != []
    ensures NeverShrinks(bars + [f]) <==> NeverShrinks(bars) && Grows(bars[|bars|-1], f)
  {
    assert (bars + [f])[..|bars|] == bars;
  }

  lemma AdvanceAdds(interval: int, d: Delta, f: BarPoint)
    requires interval >= 1 && d.openTime > UNSEEDED
    ensures var t := Advance(interval, d, f).1;
            (if t.Some? then t.value.quantity else 0.0) == if f.openTime >= d.openTime then Growth(d, f) else 0.0
  {
  }

  /** The trades made of live frames carry at least the observed volume, and exactly that if and
      only if no accepted frame reports less than the frame of the same bar before it. */
  lemma {:induction false} LiveConservesIff(interval: int, base: BarPoint, frames: seq<BarPoint>)
    requires interval >= 1 && base.openTime > UNSEEDED
    ensures Quantity(Live(interval, Seeded(base), frames).1) >= ObservedVolume(base, frames)
    ensures Quantity(Live(interval, Seeded(base), frames).1) == ObservedVolume(base, frames)
       <==> NeverShrinks(Accepted(base, frames))
  {
    if frames == [] {
      assert Dedup([base], OPEN) == [base] by { assert [base][..0] == []; }
      VolumeSnoc([], base);
    } else {
      LiveConservesIff(interval, base, frames[..|frames|-1]);
      OneMoreFrame(interval, base, frames);
    }
  }

  /** What the last frame adds to the fed quantity and to the observed volume. */
  lemma OneMoreFrame(interval: int, base: BarPoint, frames: seq<BarPoint>)
    requires interval >= 1 && base.openTime > UNSEEDED && frames != []
    ensures var init := frames[..|frames|-1];
            var fed := Quantity(Live(interval, Seeded(base), frames).1)
                       - Quantity(Live(interval, Seeded(base), init).1);
            var seen := ObservedVolume(base, frames) - ObservedVolume(base, init);
            && fed >= seen
            && (NeverShrinks(Accepted(base, frames)) <==> NeverShrinks(Accepted(base, init)) && fed == seen)
  {
    var init, f := frames[..|frames|-1], frames[|frames|-1];
    var (d, trades) := Live(interval, Seeded(base), init);
    LiveTracks(interval, base, init);
    QuantityListed(trades, Advance(interval, d, f).1);
    AdvanceAdds(interval, d, f);
    GrowthIs(d, Accepted(base, init), f);
    NeverShrinksSnoc(Accepted(base, init), f);
  }

  /** A bar that shrinks in one frame and grows back in the next makes a trade of volume nobody
      observed. */
  lemma ShrinkAndGrow(interval: int, base: BarPoint, less: real)
    requires interval >= 1 && base.openTime > UNSEEDED && less < base.volume
    ensures var frames := [base.(volume := less), base];
            && Quantity(Live(interval, Seeded(base), frames).1) == base.volume - less
            && ObservedVolume(base, frames) == 0.0
  {
    LiveTwo(interval, Seeded(base), base.(volume := less), base);
    ObservedTwo(base, base.(volume := less), base);
  }

  lemma LiveTwo(interval: int, d: Delta, f: BarPoint, g: BarPoint)
    requires interval >= 1 && d.openTime > UNSEEDED && d.openTime == f.openTime == g.openTime
    ensures Quantity(Live(interval, d, [f, g]).1)
         == NonNegative(f.volume - d.seenVolume) + NonNegative(g.volume - f.volume)
  {
    var (d1, t) := Advance(interval, d, f);
    var u := Advance(interval, d1, g).1;
    LiveTwoIs(interval, d, f, g);
    AdvanceAdds(interval, d, f);
    AdvanceAdds(interval, d1, g);
    QuantityListed([], t);
    assert [] + Listed(t) == Listed(t);
    QuantityListed(Listed(t), u);
  }

  lemma LiveTwoIs(interval: int, d: Delta, f: BarPoint, g: BarPoint)
    requires interval >= 1
    ensures var (d1, t) := Advance(interval, d, f);
            Live(interval, d, [f, g]).1 == Listed(t) + Listed(Advance(interval, d1, g).1)
  {
    var (d1, t) := Advance(interval, d, f);
    assert [f][..0] == [] && [f, g][..1] == [f];
    assert Live(interval, d, []) == (d, []) && [] + Listed(t) == Listed(t);
    assert Live(interval, d, [f]) == (d1, Listed(t));
  }

  lemma ObservedTwo(base: BarPoint, f: BarPoint, g: BarPoint)
    requires base.openTime == f.openTime == g.openTime
    ensures ObservedVolume(base, [f, g]) == g.volume - base.volume
  {
    assert [f][..0] == [] && [f, g][..1] == [f] && [base][..0] == [];
    assert Accepted(base, [f]) == [base, f];
    assert Accepted(base, [f, g]) == [base, f] + [g];
    VolumeSnoc([], base);
    LastVolumes([base], f);
    LastVolumes([base, f], g);
  }

  /** An older frame changes nothing; a frame sent again right away adds nothing. */
  lemma StaleOrRepeatedAddsNothing(interval: int, d: Delta, bar: BarPoint)
    requires interval >= 1 && d.openTime > UNSEEDED
    ensures bar.openTime < d.openTime ==> Advance(interval, d, bar) == (d, None)
    ensures bar.openTime >= d.openTime ==>
      Advance(interval, Advance(interval, d, bar).0, bar) == (Advance(interval, d, bar).0, None)
  {
  }

  /** Without a cold seed the first frame serves as the baseline. */
  lemma {:induction false} FirstFrameIsBaseline(interval: int, d: Delta, base: BarPoint, frames: seq<BarPoint>)
    requires interval >= 1 && d.openTime == UNSEEDED
    ensures Live(interval, d, [base] + frames) == Live(interval, Seeded(base), frames)
    decreases |frames|
  {
    var all := [base] + frames;
    if frames == [] {
      assert all[..0] == [] && all == [base];
      assert Live(interval, d, all[..0]) == (d, []);
      assert [] + Listed(None) == [];
      assert Live(interval, d, all) == (Seeded(base), []);
    } else {
      assert all[..|all|-1] == [base] + frames[..|frames|-1];
      FirstFrameIsBaseline(interval, d, base, frames[..|frames|-1]);
    }
  }

  // ---------------------------------------------------------------------------
  // Timestamps
  // ---------------------------------------------------------------------------

  ghost predicate Aligned(interval: int, bars: seq<BarPoint>)
    requires interval >= 1
  {
    forall b :: b in bars ==> b.openTime % interval == 0
  }

  lemma NextBarIsFurther(interval: int, a: int, b: int)
    requires interval >= 1 && a % interval == 0 && b % interval == 0 && a < b
    ensures a + interval <= b
  {
    var p, q := a / interval, b / interval;
    assert a == p * interval && b == q * interval;
    if q <= p {
      ProductsOrdered(interval, q, p);
    } else {
      ProductsOrdered(interval, p + 1, q);
      assert (p + 1) * interval == p * interval + interval;
    }
  }

  lemma ProductsOrdered(interval: int, p: int, q: int)
    requires interval >= 1 && p <= q
    ensures p * interval <= q * interval
  {
  }

  ghost predicate UpTo(trades: seq<Trade>, time: int) {
    forall i :: 0 <= i < |trades| ==> trades[i].ts <= time
  }

  ghost predicate NotBefore(trades: seq<Trade>, time: int) {
    forall i :: 0 <= i < |trades| ==> trades[i].ts >= time
  }

  /** A trade made of some frame of the list: inside that bar, at its close. */
  ghost predicate FromFrame(interval: int, frames: seq<BarPoint>, t: Trade) {
    exists f :: f in frames && f.openTime <= t.ts < f.openTime + interval && t.price == f.close
  }

  lemma AppendInOrder(trades: seq<Trade>, t: Trade)
    requires NonDecreasing(trades, STAMP) && UpTo(trades, t.ts)
    ensures NonDecreasing(trades + [t], STAMP)
  {
  }

  /** In time order from the first bar on, none later than the current tick. */
  ghost predicate Ordered(interval: int, from: int, d: Delta, trades: seq<Trade>)
    requires interval >= 1
  {
    && NonDecreasing(trades, STAMP) && NotBefore(trades, from)
    && from <= d.openTime
    && UpTo(trades, d.openTime + Clamp(d.offset, interval))
  }

  lemma AdvanceInOrder(interval: int, from: int, d: Delta, trades: seq<Trade>, f: BarPoint)
    requires interval >= 1 && Ordered(interval, from, d, trades)
    requires d.openTime > UNSEEDED && (d.openTime < f.openTime ==> d.openTime + interval <= f.openTime)
    ensures Ordered(interval, from, Advance(interval, d, f).0, trades + Listed(Advance(interval, d, f).1))
  {
    var t := Advance(interval, d, f).1;
    if t.Some? {
      AppendInOrder(trades, t.value);
    } else {
      assert trades + Listed(t) == trades;
    }
  }

  lemma {:induction false} LastAccepted(base: BarPoint, frames: seq<BarPoint>)
    ensures Accepted(base, frames)[|Accepted(base, frames)|-1] in [base] + frames
  {
    if frames != [] {
      var init := frames[..|frames|-1];
      LastAccepted(base, init);
      assert [base] + frames == ([base] + init) + [frames[|frames|-1]];
    }
  }

  /** The trades of live frames are in time order. */
  lemma {:induction false} LiveInOrder(interval: int, base: BarPoint, frames: seq<BarPoint>)
    requires interval >= 1 && base.openTime > UNSEEDED && Aligned(interval, [base] + frames)
    ensures var (d, trades) := Live(interval, Seeded(base), frames);
            Ordered(interval, base.openTime, d, trades)
    decreases |frames|
  {
    assert base in [base] + frames;
    if frames != [] {
      var init, f := frames[..|frames|-1], frames[|frames|-1];
      assert forall b :: b in [base] + init ==> b in [base] + frames;
      assert f in [base] + frames;
      LiveInOrder(interval, base, init);
      LiveTracks(interval, base, init);
      var d := Live(interval, Seeded(base), init).0;
      LastAccepted(base, init);
      if d.openTime < f.openTime {
        NextBarIsFurther(interval, d.openTime, f.openTime);
      }
      AdvanceInOrder(interval, base.openTime, d, Live(interval, Seeded(base), init).1, f);
    }
  }

  lemma {:induction false} LiveFromFrames(interval: int, d: Delta, frames: seq<BarPoint>, i: nat)
    requires interval >= 1 && i < |Live(interval, d, frames).1|
    ensures FromFrame(interval, frames, Live(interval, d, frames).1[i])
    decreases |frames|
  {
    var init, f := frames[..|frames|-1], frames[|frames|-1];
    var trades := Live(interval, d, init).1;
    if i < |trades| {
      LiveFromFrames(interval, d, init, i);
      var g :| g in init && g.openTime <= trades[i].ts < g.openTime + interval && trades[i].price == g.close;
      assert g in frames;
    } else {
      assert f in frames;
    }
  }

  /** How many trades are not before a time. */
  ghost function Since(trades: seq<Trade>, time: int): nat {
    if trades == [] then 0
    else Since(trades[..|trades|-1], time) + (if trades[|trades|-1].ts >= time then 1 else 0)
  }

  lemma SinceListed(trades: seq<Trade>, t: Option<Trade>, time: int)
    ensures Since(trades + Listed(t), time)
         == Since(trades, time) + (if t.Some? && t.value.ts >= time then 1 else 0)
  {
    if t.Some? {
      assert (trades + [t.value])[..|trades|] == trades;
    } else {
      assert trades + Listed(t) == trades;
    }
  }

  lemma {:induction false} NoneSince(trades: seq<Trade>, before: int, time: int)
    requires UpTo(trades, before) && before < time
    ensures Since(trades, time) == 0
    decreases |trades|
  {
    if trades != [] {
      assert UpTo(trades[..|trades|-1], before);
      NoneSince(trades[..|trades|-1], before, time);
    }
  }

  lemma AdvanceCounts(interval: int, d: Delta, trades: seq<Trade>, f: BarPoint)
    requires interval >= 1 && d.openTime > UNSEEDED && d.offset == Since(trades, d.openTime)
    requires d.openTime < f.openTime ==> Since(trades, f.openTime) == 0
    ensures var (after, t) := Advance(interval, d, f);
            after.offset == Since(trades + Listed(t), after.openTime)
  {
    var (after, t) := Advance(interval, d, f);
    SinceListed(trades, t, after.openTime);
  }

  /** No trade is made of a bar before its first frame. */
  lemma NoneMadeYet(interval: int, base: BarPoint, frames: seq<BarPoint>, f: BarPoint)
    requires interval >= 1 && base.openTime > UNSEEDED && Aligned(interval, [base] + frames)
    requires f.openTime % interval == 0
    ensures var (d, trades) := Live(interval, Seeded(base), frames);
            d.openTime < f.openTime ==> Since(trades, f.openTime) == 0
  {
    var (d, trades) := Live(interval, Seeded(base), frames);
    LiveTracks(interval, base, frames);
    LiveInOrder(interval, base, frames);
    LastAccepted(base, frames);
    if d.openTime < f.openTime {
      NextBarIsFurther(interval, d.openTime, f.openTime);
      NoneSince(trades, d.openTime + Clamp(d.offset, interval), f.openTime);
    }
  }

  /** The tick offset counts the trades made of the bar under way. */
  lemma {:induction false} LiveOffset(interval: int, base: BarPoint, frames: seq<BarPoint>)
    requires interval >= 1 && base.openTime > UNSEEDED && Aligned(interval, [base] + frames)
    ensures var (d, trades) := Live(interval, Seeded(base), frames);
            d.offset == Since(trades, d.openTime)
    decreases |frames|
  {
    if frames != [] {
      var init, f := frames[..|frames|-1], frames[|frames|-1];
      assert forall b :: b in [base] + init ==> b in [base] + frames;
      assert f in [base] + frames;
      LiveOffset(interval, base, init);
      NoneMadeYet(interval, base, init, f);
      LiveTracks(interval, base, init);
      var (d, trades) := Live(interval, Seeded(base), init);
      AdvanceCounts(interval, d, trades, f);
    }
  }

  /** The trade a frame makes after `before` was accepted and `made` trades were made of its bar: none
      unless it is not older and brings new volume; that much, at its close, stamped by the number of trades
      made as far as the bar reaches, a sell if and only if the close fell. */
  ghost predicate Makes(interval: int, before: BarPoint, made: nat, f: BarPoint, t: Option<Trade>) {
    var gained := if f.openTime == before.openTime then f.volume - before.volume else f.volume;
    && (t.Some? <==> f.openTime >= before.openTime && gained > 0.0)
    && (t.Some? ==>
          t.value == Trade(f.openTime + (if made < interval then made else interval - 1), f.close, gained,
                           if f.close < before.close then 1 else 0))
  }

  lemma AdvanceMakes(interval: int, d: Delta, before: BarPoint, made: nat, f: BarPoint)
    requires interval >= 1 && d.openTime > UNSEEDED
    requires d.openTime == before.openTime && d.seenVolume == before.volume && d.lastClose == before.close
    requires f.openTime >= d.openTime ==> made == if f.openTime == d.openTime then d.offset else 0
    ensures Makes(interval, before, made, f, Advance(interval, d, f).1)
  {
  }

  /** Exactly which trade the next frame makes, in terms of the frame accepted last and of the trades made
      so far. */
  lemma NextTradeIs(interval: int, base: BarPoint, frames: seq<BarPoint>, f: BarPoint)
    requires interval >= 1 && base.openTime > UNSEEDED && Aligned(interval, [base] + frames)
    requires f.openTime % interval == 0
    ensures var accepted, (d, trades) := Accepted(base, frames), Live(interval, Seeded(base), frames);
            Makes(interval, accepted[|accepted|-1], Since(trades, f.openTime), f, Advance(interval, d, f).1)
  {
    LiveTracks(interval, base, frames);
    LiveOffset(interval, base, frames);
    NoneMadeYet(interval, base, frames, f);
    var accepted := Accepted(base, frames);
    var (d, trades) := Live(interval, Seeded(base), frames);
    AdvanceMakes(interval, d, accepted[|accepted|-1], Since(trades, f.openTime), f);
  }

  // ---------------------------------------------------------------------------
  // Closed bars
  // ---------------------------------------------------------------------------

  function Falls(from: real, to: real): int {
    if to < from then 1 else 0
  }

  /** Four trades on the path from the open to the close, in quarters of the bar. */
  function SyntheticTrades(bar: BarPoint, interval: int): (trades: seq<Trade>)
    ensures |trades| == if interval <= 0 then 0 else 4
  {
    if interval <= 0 then []
    else
      var bullish, step, q := bar.close >= bar.open, interval / 4, bar.volume / 4.0;
      var first, second := if bullish then bar.low else bar.high, if bullish then bar.high else bar.low;
      [Trade(bar.openTime, bar.open, q, if bullish then 0 else 1),
       Trade(bar.openTime + step, first, q, Falls(bar.open, first)),
       Trade(bar.openTime + step * 2, second, q, Falls(first, second)),
       Trade(bar.openTime + step * 3, bar.close, q, Falls(second, bar.close))]
  }

  lemma QuantityOfTwo(a: Trade, b: Trade)
    ensures Quantity([a, b]) == a.quantity + b.quantity
  {
    assert [a, b][1..] == [b] && [b][1..] == [];
    assert Quantity([b]) == b.quantity + Quantity([]);
    assert Quantity([a, b]) == a.quantity + Quantity([b]);
  }

  lemma SyntheticIs(bar: BarPoint, interval: int)
    requires interval >= 1
    ensures Quantity(SyntheticTrades(bar, interval)) == bar.volume
    ensures NonDecreasing(SyntheticTrades(bar, interval), STAMP)
    ensures NotBefore(SyntheticTrades(bar, interval), bar.openTime)
    ensures UpTo(SyntheticTrades(bar, interval), bar.openTime + interval - 1)
  {
    var trades := SyntheticTrades(bar, interval);
    var a, b, c, e := trades[0], trades[1], trades[2], trades[3];
    QuantityOfTwo(a, b);
    QuantityOfTwo(c, e);
    QuantityAppend([a, b], [c, e]);
    assert trades == [a, b] + [c, e];
    assert 0 <= interval / 4 * 3 < interval;
    assert a.ts <= b.ts <= c.ts <= e.ts;
  }

  /** The legs: a bar that rises goes from its open to the low, the high and its close, a bar that falls
      to the high, the low and its close; a quarter of the volume each, a quarter of the interval apart; a
      leg sells if and only if it falls, and the first if and only if the bar does. */
  lemma PathIs(bar: BarPoint, interval: int)
    requires interval >= 1
    ensures var trades, rises := SyntheticTrades(bar, interval), bar.close >= bar.open;
            && trades[0].price == bar.open && trades[3].price == bar.close
            && (if rises then trades[1].price == bar.low && trades[2].price == bar.high
                else trades[1].price == bar.high && trades[2].price == bar.low)
            && (forall i :: 0 <= i < 4 ==>
                  4.0 * trades[i].quantity == bar.volume && trades[i].ts == bar.openTime + i * (interval / 4))
            && trades[0].side == (if rises then 0 else 1)
            && forall i :: 0 < i < 4 ==> trades[i].side == if trades[i].price < trades[i-1].price then 1 else 0
  {
  }

  /** Folded back, the legs are the bar: its open first, its close last, its extremes in between. */
  lemma PathIsBar(bar: BarPoint, interval: int)
    requires interval >= 1 && bar.low <= bar.open <= bar.high && bar.low <= bar.close <= bar.high
    ensures var trades := SyntheticTrades(bar, interval);
            && trades[0].price == bar.open && High(trades) == bar.high && Low(trades) == bar.low
            && trades[|trades|-1].price == bar.close && Quantity(trades) == bar.volume
  {
    var trades := SyntheticTrades(bar, interval);
    HighLowAre(trades);
    SyntheticIs(bar, interval);
    var h :| 0 <= h < 4 && trades[h].price == High(trades);
    var l :| 0 <= l < 4 && trades[l].price == Low(trades);
    assert Low(trades) <= trades[1].price <= High(trades) && Low(trades) <= trades[2].price <= High(trades);
  }

  ghost function SeedTrades(bars: seq<BarPoint>, interval: int): seq<Trade> {
    if bars == [] then [] else SeedTrades(bars[..|bars|-1], interval) + SyntheticTrades(bars[|bars|-1], interval)
  }

  /** Fold every fetched bar but the last, which becomes the baseline. */
  method ColdSeed(bars: seq<BarPoint>, interval: int) returns (seedEvents: seq<Trade>, baseline: Option<BarPoint>)
    ensures bars == [] ==> seedEvents == [] && baseline == None
    ensures bars != [] ==> seedEvents == SeedTrades(bars[..|bars|-1], interval) && baseline == Some(bars[|bars|-1])
  {
    seedEvents, baseline := [], None;
    if bars != [] {
      var last, closed := bars[|bars|-1], bars[..|bars|-1];
      for i := 0 to |closed|
        invariant seedEvents == SeedTrades(closed[..i], interval)
      {
        assert closed[..i+1][..i] == closed[..i];
        seedEvents := seedEvents + SyntheticTrades(closed[i], interval);
      }
      assert closed[..|closed|] == closed;
      baseline := Some(last);
    }
  }

  lemma {:induction false} SeedTradesAre(bars: seq<BarPoint>, interval: int)
    requires interval >= 1 && Aligned(interval, bars) && Increasing(bars, OPEN)
    ensures Quantity(SeedTrades(bars, interval)) == VolumeOf(bars)
    ensures NonDecreasing(SeedTrades(bars, interval), STAMP)
    ensures bars != [] ==> UpTo(SeedTrades(bars, interval), bars[|bars|-1].openTime + interval - 1)
  {
    if bars != [] {
      var init, b := bars[..|bars|-1], bars[|bars|-1];
      SeedTradesAre(init, interval);
      SyntheticIs(b, interval);
      QuantityAppend(SeedTrades(init, interval), SyntheticTrades(b, interval));
      if init != [] {
        var a := init[|init|-1];
        assert a in bars && b in bars && OPEN(bars[|bars|-2]) < OPEN(bars[|bars|-1]);
        NextBarIsFurther(interval, a.openTime, b.openTime);
      }
      Joined(SeedTrades(init, interval), SyntheticTrades(b, interval), b.openTime);
    }
  }

  lemma Joined(a: seq<Trade>, b: seq<Trade>, border: int)
    requires NonDecreasing(a, STAMP) && NonDecreasing(b, STAMP) && UpTo(a, border) && NotBefore(b, border)
    ensures NonDecreasing(a + b, STAMP)
  {
    forall i, j | 0 <= i < j < |a + b| ensures STAMP((a + b)[i]) <= STAMP((a + b)[j]) {
    }
  }

  // ---------------------------------------------------------------------------
  // The seam between the cold seed and the live stream
  // ---------------------------------------------------------------------------

  /** Everything fed to a fold after fetching `bars`: the closed ones as synthetic trades, then
      live frames against the last one as baseline. */
  ghost function Fed(interval: int, bars: seq<BarPoint>, frames: seq<BarPoint>): seq<Trade>
    requires interval >= 1 && bars != []
  {
    SeedTrades(bars[..|bars|-1], interval) + Live(interval, Seeded(bars[|bars|-1]), frames).1
  }

  /** Over the seam nothing is lost or fed twice but the volume the baseline bar already had, if and
      only if no accepted frame shrinks its bar; and trades are fed in time order. */
  lemma SeamConservesIff(interval: int, bars: seq<BarPoint>, frames: seq<BarPoint>)
    requires interval >= 1 && bars != [] && Increasing(bars, OPEN) && Aligned(interval, bars + frames)
    requires bars[|bars|-1].openTime > UNSEEDED
    ensures var base := bars[|bars|-1];
            var observed := VolumeOf(bars[..|bars|-1]) + VolumeOf(Dedup(Accepted(base, frames), OPEN)) - base.volume;
            Quantity(Fed(interval, bars, frames)) == observed <==> NeverShrinks(Accepted(base, frames))
    ensures NonDecreasing(Fed(interval, bars, frames), STAMP)
  {
    var closed, base := bars[..|bars|-1], bars[|bars|-1];
    assert forall b :: b in closed || b in [base] + frames ==> b in bars + frames;
    PrefixIncreases(bars, |bars| - 1, OPEN);
    SeedTradesAre(closed, interval);
    LiveConservesIff(interval, base, frames);
    LiveInOrder(interval, base, frames);
    var seeds, live := SeedTrades(closed, interval), Live(interval, Seeded(base), frames).1;
    QuantityAppend(seeds, live);
    if closed != [] {
      var a := closed[|closed|-1];
      assert a in closed && OPEN(bars[|bars|-2]) < OPEN(bars[|bars|-1]);
      NextBarIsFurther(interval, a.openTime, base.openTime);
    }
    Joined(seeds, live, base.openTime);
  }
}
