/** Tick, volume, dollar and range bars: greedy partitions of the trade sequence, folded trade by trade. */
module StreamingBars {
  import opened Market
  import opened Series

  datatype Bar = Bar(openTime: int, open: real, high: real, low: real, close: real,
                     volume: real, quoteVolume: real, trades: nat)

  const OPEN_TIME := (b: Bar) => b.openTime

  /** What closes a bar. */
  datatype Rule = Ticks(n: nat) | Volume(threshold: real) | Dollars(threshold: real) | Range(range: real)

  // ---------------------------------------------------------------------------
  // Greedy segmentation
  // ---------------------------------------------------------------------------

  ghost function Turnover(ts: seq<Trade>): real {
    if ts == [] then 0.0 else Turnover(ts[..|ts|-1]) + ts[|ts|-1].price * ts[|ts|-1].quantity
  }

  /** The last trade of the segment has completed it. */
  ghost predicate Full(rule: Rule, segment: seq<Trade>) {
    match rule
    case Ticks(n) => |segment| >= n
    case Volume(threshold) => Quantity(segment) >= threshold
    case Dollars(threshold) => Turnover(segment) >= threshold
    case Range(_) => false
  }

  /** The next trade still belongs to the segment. */
  ghost predicate Admits(rule: Rule, segment: seq<Trade>, t: Trade)
    requires segment != []
  {
    && !Full(rule, segment)
    && (rule.Range? ==> Abs(t.price - segment[0].price) < rule.range)
  }

  ghost function Concat<T>(segments: seq<seq<T>>): seq<T> {
    if segments == [] then [] else Concat(segments[..|segments|-1]) + segments[|segments|-1]
  }

  /** Not empty, and every trade but the first admitted by the trades before it. */
  ghost predicate Grown(rule: Rule, segment: seq<Trade>) {
    && segment != []
    && (|segment| > 1 ==>
          var n := |segment| - 1;
          Grown(rule, segment[..n]) && Admits(rule, segment[..n], segment[n]))
  }

  /** The segment does not admit the first trade of the next one. */
  ghost predicate EndsBefore(rule: Rule, segment: seq<Trade>, next: seq<Trade>) {
    segment != [] && next != [] && !Admits(rule, segment, next[0])
  }

  /** Every segment is grown, and ends before the next. */
  ghost predicate Maximal(rule: Rule, segments: seq<seq<Trade>>) {
    segments != [] ==>
      var n := |segments| - 1;
      && Maximal(rule, segments[..n]) && Grown(rule, segments[n])
      && (n > 0 ==> EndsBefore(rule, segments[n-1], segments[n]))
  }

  /** Cut into segments, each as long as the rule admits. */
  ghost predicate IsGreedy(rule: Rule, ts: seq<Trade>, segments: seq<seq<Trade>>) {
    Concat(segments) == ts && (forall i :: 0 <= i < |segments| ==> segments[i] != []) && Maximal(rule, segments)
  }

  /** The segments after one more trade. */
  ghost function Extend(rule: Rule, segments: seq<seq<Trade>>, t: Trade): (r: seq<seq<Trade>>)
    requires forall i :: 0 <= i < |segments| ==> segments[i] != []
    ensures r != [] && forall i :: 0 <= i < |r| ==> r[i] != []
  {
    var n := |segments| - 1;
    if segments == [] || !Admits(rule, segments[n], t) then segments + [[t]]
    else segments[..n] + [segments[n] + [t]]
  }

  ghost function Segments(rule: Rule, ts: seq<Trade>): (r: seq<seq<Trade>>)
    ensures forall i :: 0 <= i < |r| ==> r[i] != []
    ensures ts != [] ==> r != []
  {
    if ts == [] then [] else Extend(rule, Segments(rule, ts[..|ts|-1]), ts[|ts|-1])
  }

  lemma GrownSnoc(rule: Rule, segment: seq<Trade>, t: Trade)
    requires segment != []
    ensures Grown(rule, segment + [t]) <==> Grown(rule, segment) && Admits(rule, segment, t)
  {
    assert (segment + [t])[..|segment|] == segment;
  }

  lemma GrownOne(rule: Rule, t: Trade)
    ensures Grown(rule, [t])
  {
  }

  lemma ConcatSnoc<T>(segments: seq<seq<T>>, segment: seq<T>)
    ensures Concat(segments + [segment]) == Concat(segments) + segment
  {
    assert (segments + [segment])[..|segments|] == segments;
  }

  /** A last segment fits behind the segments before it when it is grown and they stop before it. */
  lemma MaximalSnoc(rule: Rule, front: seq<seq<Trade>>, last: seq<Trade>)
    ensures Maximal(rule, front + [last])
       <==> Maximal(rule, front) && Grown(rule, last) && (front != [] ==> EndsBefore(rule, front[|front|-1], last))
  {
    assert (front + [last])[..|front|] == front;
  }

  lemma ExtendIsGreedy(rule: Rule, ts: seq<Trade>, segments: seq<seq<Trade>>, t: Trade)
    requires IsGreedy(rule, ts, segments)
    ensures IsGreedy(rule, ts + [t], Extend(rule, segments, t))
  {
    var n := |segments| - 1;
    if segments == [] || !Admits(rule, segments[n], t) {
      GrownOne(rule, t);
      MaximalSnoc(rule, segments, [t]);
      ConcatSnoc(segments, [t]);
    } else {
      var front, last := segments[..n], segments[n];
      assert segments == front + [last];
      GrownSnoc(rule, last, t);
      MaximalSnoc(rule, front, last);
      MaximalSnoc(rule, front, last + [t]);
      ConcatSnoc(front, last);
      ConcatSnoc(front, last + [t]);
      assert Concat(front) + (last + [t]) == ts + [t];
    }
  }

  lemma {:induction false} SegmentsAreGreedy(rule: Rule, ts: seq<Trade>)
    ensures IsGreedy(rule, ts, Segments(rule, ts))
    decreases |ts|
  {
    if ts != [] {
      var init := ts[..|ts|-1];
      SegmentsAreGreedy(rule, init);
      ExtendIsGreedy(rule, init, Segments(rule, init), ts[|ts|-1]);
      assert ts == init + [ts[|ts|-1]];
    }
  }

  ghost function WithoutLast(segments: seq<seq<Trade>>): (shorter: seq<seq<Trade>>)
    requires segments != [] && forall i :: 0 <= i < |segments| ==> segments[i] != []
    ensures forall i :: 0 <= i < |shorter| ==> shorter[i] != []
  {
    var front, last := segments[..|segments|-1], segments[|segments|-1];
    if |last| == 1 then front else front + [last[..|last|-1]]
  }

  lemma ConcatWithoutLast(segments: seq<seq<Trade>>)
    requires segments != [] && forall i :: 0 <= i < |segments| ==> segments[i] != []
    ensures Concat(WithoutLast(segments)) + [segments[|segments|-1][|segments[|segments|-1]|-1]] == Concat(segments)
  {
    var front, last := segments[..|segments|-1], segments[|segments|-1];
    var t, init := last[|last|-1], last[..|last|-1];
    ConcatSnoc(front, init);
    assert last == init + [t];
    assert Concat(front) + last == (Concat(front) + init) + [t];
  }

  lemma ExtendWithoutLast(rule: Rule, front: seq<seq<Trade>>, last: seq<Trade>)
    requires Maximal(rule, front + [last])
    requires forall i :: 0 <= i < |front + [last]| ==> (front + [last])[i] != []
    ensures var shorter := WithoutLast(front + [last]);
            && Maximal(rule, shorter)
            && last != [] && Extend(rule, shorter, last[|last|-1]) == front + [last]
  {
    var segments := front + [last];
    assert segments[..|front|] == front && segments[|front|] == last;
    assert forall i :: 0 <= i < |front| ==> segments[i] == front[i];
    MaximalSnoc(rule, front, last);
    var t, init := last[|last|-1], last[..|last|-1];
    assert last == init + [t];
    if init == [] {
      assert WithoutLast(segments) == front;
      ExtendByNew(rule, front, t);
    } else {
      assert WithoutLast(segments) == front + [init];
      GrownSnoc(rule, init, t);
      if front != [] {
        assert EndsBefore(rule, front[|front|-1], last) && last[0] == init[0];
      }
      MaximalSnoc(rule, front, init);
      ExtendByMore(rule, front, init, t);
    }
  }

  lemma ExtendByNew(rule: Rule, front: seq<seq<Trade>>, t: Trade)
    requires forall i :: 0 <= i < |front| ==> front[i] != []
    requires front != [] ==> EndsBefore(rule, front[|front|-1], [t])
    ensures Extend(rule, front, t) == front + [[t]]
  {
  }

  lemma ExtendByMore(rule: Rule, front: seq<seq<Trade>>, init: seq<Trade>, t: Trade)
    requires init != [] && Admits(rule, init, t)
    requires forall i :: 0 <= i < |front| ==> front[i] != []
    ensures Extend(rule, front + [init], t) == front + [init + [t]]
  {
    assert (front + [init])[..|front|] == front;
  }

  /** A greedy segmentation without its last trade. */
  lemma GreedyWithoutLast(rule: Rule, ts: seq<Trade>, segments: seq<seq<Trade>>) returns (shorter: seq<seq<Trade>>)
    requires IsGreedy(rule, ts, segments) && ts != []
    ensures IsGreedy(rule, ts[..|ts|-1], shorter)
    ensures segments == Extend(rule, shorter, ts[|ts|-1])
  {
    var front, last := segments[..|segments|-1], segments[|segments|-1];
    assert segments == front + [last];
    shorter := WithoutLast(segments);
    ExtendWithoutLast(rule, front, last);
    ConcatWithoutLast(segments);
    SplitLast(Concat(shorter), last[|last|-1]);
  }

  lemma SplitLast<T>(s: seq<T>, x: T)
    ensures (s + [x])[..|s + [x]| - 1] == s && (s + [x])[|s + [x]| - 1] == x
  {
  }

  /** The greedy segmentation of a trade sequence is unique, and the fold computes it. */
  lemma {:induction false} GreedyIsUnique(rule: Rule, ts: seq<Trade>, segments: seq<seq<Trade>>)
    ensures IsGreedy(rule, ts, segments) <==> segments == Segments(rule, ts)
    decreases |ts|
  {
    SegmentsAreGreedy(rule, ts);
    if IsGreedy(rule, ts, segments) {
      if ts == [] {
        EmptyConcat(segments);
      } else {
        var shorter := GreedyWithoutLast(rule, ts, segments);
        GreedyIsUnique(rule, ts[..|ts|-1], shorter);
      }
    }
  }

  lemma EmptyConcat(segments: seq<seq<Trade>>)
    requires Concat(segments) == [] && forall i :: 0 <= i < |segments| ==> segments[i] != []
    ensures segments == []
  {
  }

  // ---------------------------------------------------------------------------
  // Bars of a segmentation
  // ---------------------------------------------------------------------------

  ghost function Summary(openTime: int, segment: seq<Trade>): Bar
    requires segment != []
  {
    Bar(openTime, segment[0].price, High(segment), Low(segment), segment[|segment|-1].price,
        Quantity(segment), Turnover(segment), |segment|)
  }

  /** Open time of the last segment: that of its first trade, pushed past the bar before. */
  ghost function LastOpen(segments: seq<seq<Trade>>): int
    requires forall i :: 0 <= i < |segments| ==> segments[i] != []
  {
    if segments == [] then 0
    else Max(segments[|segments|-1][0].ts, LastOpen(segments[..|segments|-1]) + 1)
  }

  ghost function BarsOf(segments: seq<seq<Trade>>): (bars: seq<Bar>)
    requires forall i :: 0 <= i < |segments| ==> segments[i] != []
    ensures |bars| == |segments|
  {
    if segments == [] then []
    else BarsOf(segments[..|segments|-1]) + [Summary(LastOpen(segments), segments[|segments|-1])]
  }

  lemma {:induction false} GrownPrefix(rule: Rule, segment: seq<Trade>, k: nat)
    requires Grown(rule, segment) && 0 < k < |segment|
    ensures Admits(rule, segment[..k], segment[k])
    decreases |segment|
  {
    var n := |segment| - 1;
    if k < n {
      GrownPrefix(rule, segment[..n], k);
      assert segment[..n][..k] == segment[..k];
    }
  }

  lemma {:induction false} MaximalAt(rule: Rule, segments: seq<seq<Trade>>, i: nat)
    requires Maximal(rule, segments) && i < |segments|
    ensures Grown(rule, segments[i]) && (i + 1 < |segments| ==> EndsBefore(rule, segments[i], segments[i+1]))
    decreases |segments|
  {
    var n := |segments| - 1;
    if i < n {
      MaximalAt(rule, segments[..n], i);
    }
  }

  /** A segment no longer than its rule allows: its last trade may complete it, no trade before may. */
  ghost predicate NotTooLong(rule: Rule, segment: seq<Trade>) {
    match rule
    case Ticks(n) => |segment| <= n
    case Volume(threshold) => forall k :: 0 < k < |segment| ==> Quantity(segment[..k]) < threshold
    case Dollars(threshold) => forall k :: 0 < k < |segment| ==> Turnover(segment[..k]) < threshold
    case Range(range) => forall k :: 0 < k < |segment| ==> -range < segment[k].price - segment[0].price < range
  }

  /** A segment that had to end before the trade that follows it. */
  ghost predicate NotTooShort(rule: Rule, segment: seq<Trade>, next: Trade)
    requires segment != []
  {
    match rule
    case Ticks(n) => |segment| >= n
    case Volume(threshold) => Quantity(segment) >= threshold
    case Dollars(threshold) => Turnover(segment) >= threshold
    case Range(range) => next.price - segment[0].price >= range || segment[0].price - next.price >= range
  }

  /** What the bars of each kind hold: all but the last have exactly `n` trades, or reach the volume or the
      turnover with their last trade and not before, or stay within the range of their first price until a
      trade comes that does not. */
  lemma GreedyMeans(rule: Rule, ts: seq<Trade>, segments: seq<seq<Trade>>, i: nat)
    requires IsGreedy(rule, ts, segments) && i < |segments| && (rule.Ticks? ==> rule.n >= 1)
    ensures NotTooLong(rule, segments[i])
    ensures i + 1 < |segments| ==> NotTooShort(rule, segments[i], segments[i+1][0])
  {
    MaximalAt(rule, segments, i);
    var segment := segments[i];
    forall k | 0 < k < |segment| ensures Admits(rule, segment[..k], segment[k]) {
      GrownPrefix(rule, segment, k);
    }
    if |segment| > 1 {
      assert Admits(rule, segment[..|segment|-1], segment[|segment|-1]);
    }
  }

  /** A bar holds the first and the last price of its segment, prices traded in it that bound all others,
      and all its volume and trades. */
  lemma BarIs(segments: seq<seq<Trade>>, i: nat)
    requires (forall k :: 0 <= k < |segments| ==> segments[k] != []) && i < |segments|
    ensures var bar, segment := BarsOf(segments)[i], segments[i];
            && bar.open == segment[0].price && bar.close == segment[|segment|-1].price
            && (forall k :: 0 <= k < |segment| ==> bar.low <= segment[k].price <= bar.high)
            && (exists k :: 0 <= k < |segment| && segment[k].price == bar.high)
            && (exists k :: 0 <= k < |segment| && segment[k].price == bar.low)
            && bar.volume == Quantity(segment) && bar.quoteVolume == Turnover(segment) && bar.trades == |segment|
  {
    BarAt(segments, i);
    HighLowAre(segments[i]);
  }

  lemma {:induction false} BarAt(segments: seq<seq<Trade>>, i: nat)
    requires (forall k :: 0 <= k < |segments| ==> segments[k] != []) && i < |segments|
    ensures BarsOf(segments)[i] == Summary(LastOpen(segments[..i+1]), segments[i])
    decreases |segments|
  {
    var n := |segments| - 1;
    if i < n {
      BarAt(segments[..n], i);
      assert segments[..n][..i+1] == segments[..i+1];
    } else {
      assert segments[..i+1] == segments;
    }
  }

  /** A bar opens with its first trade, or, if that time is taken, a millisecond after the bar before. */
  lemma BarOpens(segments: seq<seq<Trade>>, i: nat)
    requires (forall k :: 0 <= k < |segments| ==> segments[k] != []) && i < |segments|
    ensures var taken := if i == 0 then 0 else BarsOf(segments)[i-1].openTime;
            BarsOf(segments)[i].openTime == if segments[i][0].ts > taken then segments[i][0].ts else taken + 1
  {
    BarAt(segments, i);
    assert segments[..i+1][..i] == segments[..i];
    if i > 0 {
      BarAt(segments, i - 1);
    }
  }

  /** One emission per trade: the bar of the last segment as it then stands. */
  ghost function Emissions(rule: Rule, ts: seq<Trade>): (es: seq<Bar>)
    ensures |es| == |ts|
  {
    if ts == [] then []
    else
      var segments := Segments(rule, ts);
      Emissions(rule, ts[..|ts|-1]) + [Summary(LastOpen(segments), segments[|segments|-1])]
  }

  lemma {:induction false} BarsOpenInOrder(segments: seq<seq<Trade>>)
    requires forall i :: 0 <= i < |segments| ==> segments[i] != []
    ensures Increasing(BarsOf(segments), OPEN_TIME)
    ensures forall i :: 0 <= i < |segments| ==> BarsOf(segments)[i].openTime <= LastOpen(segments)
    decreases |segments|
  {
    if segments != [] {
      BarsOpenInOrder(segments[..|segments|-1]);
    }
  }

  /** Reduced to the last emission per open time, the fold yields exactly one bar per segment of
      the greedy segmentation. */
  lemma {:induction false} ReducedEmissionsAreBars(rule: Rule, ts: seq<Trade>)
    ensures Dedup(Emissions(rule, ts), OPEN_TIME) == BarsOf(Segments(rule, ts))
    decreases |ts|
  {
    if ts != [] {
      var init, t := ts[..|ts|-1], ts[|ts|-1];
      ReducedEmissionsAreBars(rule, init);
      var before, after := Segments(rule, init), Segments(rule, ts);
      assert Emissions(rule, ts)[..|ts|-1] == Emissions(rule, init);
      ExtendedBars(rule, before, t);
    }
  }

  /** One more trade replaces the last bar, under the same open time, or adds a later one. */
  lemma {:induction false} ExtendedBars(rule: Rule, before: seq<seq<Trade>>, t: Trade)
    requires forall i :: 0 <= i < |before| ==> before[i] != []
    ensures var after := Extend(rule, before, t);
            var last := Summary(LastOpen(after), after[|after|-1]);
            var bars := BarsOf(before);
            if bars != [] && bars[|bars|-1].openTime == last.openTime
            then BarsOf(after) == bars[..|bars|-1] + [last]
            else BarsOf(after) == bars + [last]
  {
    var after := Extend(rule, before, t);
    var n := |before| - 1;
    var bars := BarsOf(before);
    assert before != [] ==> bars[n].openTime == LastOpen(before);
    if before == [] || !Admits(rule, before[n], t) {
      assert after[..|after|-1] == before;
    } else {
      assert after[..|after|-1] == before[..n];
      assert bars[..n] == BarsOf(before[..n]);
      assert after[n][0] == before[n][0];
    }
  }

  /** Streaming bars are the greedy partition: whatever greedy segmentation of the trades one
      takes, the reduced emissions are its summaries, in strictly increasing open-time order. */
  lemma StreamingBarsAreGreedy(rule: Rule, ts: seq<Trade>, segments: seq<seq<Trade>>)
    requires IsGreedy(rule, ts, segments)
    ensures Dedup(Emissions(rule, ts), OPEN_TIME) == BarsOf(segments)
    ensures Increasing(BarsOf(segments), OPEN_TIME)
  {
    GreedyIsUnique(rule, ts, segments);
    ReducedEmissionsAreBars(rule, ts);
    BarsOpenInOrder(segments);
  }

  // ---------------------------------------------------------------------------
  // The folds
  // ---------------------------------------------------------------------------

  function OpenBar(openTime: int, t: Trade): Bar {
    Bar(openTime, t.price, t.price, t.price, t.price, t.quantity, t.price * t.quantity, 1)
  }

  function UpdateBar(bar: Bar, t: Trade): Bar {
    Bar(bar.openTime, bar.open, if t.price > bar.high then t.price else bar.high,
        if t.price < bar.low then t.price else bar.low, t.price,
        bar.volume + t.quantity, bar.quoteVolume + t.price * t.quantity, bar.trades + 1)
  }

  lemma {:induction false} SummaryOfOne(openTime: int, t: Trade)
    ensures Summary(openTime, [t]) == OpenBar(openTime, t)
  {
    assert Quantity([t]) == t.quantity by { assert [t][1..] == []; }
    assert Turnover([t]) == t.price * t.quantity by { assert [t][..0] == []; }
  }

  lemma {:induction false} SummaryOfMore(openTime: int, segment: seq<Trade>, t: Trade)
    requires segment != []
    ensures Summary(openTime, segment + [t]) == UpdateBar(Summary(openTime, segment), t)
  {
    var more := segment + [t];
    assert more[..|more|-1] == segment;
    QuantityAppend(segment, [t]);
    assert [t][1..] == [];
  }

  /** An open bar summarises the last segment; no bar is open when that segment is full. */
  ghost predicate Tracks(rule: Rule, segments: seq<seq<Trade>>, current: Option<Bar>, lastOpen: int) {
    && (forall i :: 0 <= i < |segments| ==> segments[i] != [])
    && lastOpen == LastOpen(segments)
    && (current == None <==> segments == [] || Full(rule, segments[|segments|-1]))
    && (current.Some? ==> current.value == Summary(lastOpen, segments[|segments|-1]))
  }

  /** Opening a bar starts a segment. */
  lemma {:induction false} OpensSegment(rule: Rule, segments: seq<seq<Trade>>, current: Option<Bar>, lastOpen: int,
                                        t: Trade)
    requires Tracks(rule, segments, current, lastOpen)
    requires current == None || !Admits(rule, segments[|segments|-1], t)
    ensures Extend(rule, segments, t) == segments + [[t]]
    ensures LastOpen(segments + [[t]]) == Max(t.ts, lastOpen + 1)
    ensures OpenBar(Max(t.ts, lastOpen + 1), t) == Summary(LastOpen(segments + [[t]]), [t])
  {
    assert (segments + [[t]])[..|segments|] == segments;
    SummaryOfOne(Max(t.ts, lastOpen + 1), t);
  }

  /** Updating a bar lengthens its segment. */
  lemma {:induction false} LengthensSegment(rule: Rule, segments: seq<seq<Trade>>, current: Option<Bar>,
                                            lastOpen: int, t: Trade)
    requires Tracks(rule, segments, current, lastOpen)
    requires current.Some? && Admits(rule, segments[|segments|-1], t)
    ensures var n := |segments| - 1;
            && Extend(rule, segments, t) == segments[..n] + [segments[n] + [t]]
            && LastOpen(Extend(rule, segments, t)) == lastOpen
            && UpdateBar(current.value, t) == Summary(lastOpen, segments[n] + [t])
  {
    var n := |segments| - 1;
    var r := segments[..n] + [segments[n] + [t]];
    assert r[..n] == segments[..n];
    SummaryOfMore(lastOpen, segments[n], t);
  }

  /** What every fold of this family does on a trade. */
  ghost predicate Folds(rule: Rule, before: seq<seq<Trade>>, t: Trade, after: seq<seq<Trade>>, emitted: Option<Bar>) {
    && (forall i :: 0 <= i < |before| ==> before[i] != [])
    && after == Extend(rule, before, t)
    && emitted == Some(Summary(LastOpen(after), after[|after|-1]))
  }

  /** A fold that stands at `before` is fed a chunk of trades: it emits `es` and ends at `after`. */
  ghost predicate Fed(rule: Rule, before: seq<seq<Trade>>, chunk: seq<Trade>, after: seq<seq<Trade>>, es: seq<Bar>) {
    exists states :: FedThrough(rule, chunk, states, es) && states[0] == before && states[|chunk|] == after
  }

  ghost predicate FedThrough(rule: Rule, chunk: seq<Trade>, states: seq<seq<seq<Trade>>>, es: seq<Bar>) {
    && |states| == |chunk| + 1 && |es| == |chunk|
    && forall i :: 0 <= i < |chunk| ==> Folds(rule, states[i], chunk[i], states[i+1], Some(es[i]))
  }

  lemma OneMoreEmission(rule: Rule, xs: seq<Trade>, t: Trade, after: seq<seq<Trade>>, e: Bar)
    requires Folds(rule, Segments(rule, xs), t, after, Some(e))
    ensures after == Segments(rule, xs + [t]) && Emissions(rule, xs + [t]) == Emissions(rule, xs) + [e]
  {
    var more := xs + [t];
    assert more[..|more|-1] == xs && more[|more|-1] == t;
  }

  /** One more chunk extends segments and emissions by those of its trades. */
  lemma {:induction false} ChunkGivesEmissions(rule: Rule, xs: seq<Trade>, chunk: seq<Trade>,
                                               states: seq<seq<seq<Trade>>>, es: seq<Bar>)
    requires FedThrough(rule, chunk, states, es) && states[0] == Segments(rule, xs)
    ensures states[|chunk|] == Segments(rule, xs + chunk)
    ensures Emissions(rule, xs + chunk) == Emissions(rule, xs) + es
    decreases |chunk|
  {
    if chunk == [] {
      assert xs + chunk == xs && Emissions(rule, xs) + es == Emissions(rule, xs);
    } else {
      var n := |chunk| - 1;
      assert Folds(rule, states[n], chunk[n], states[n+1], Some(es[n]));
      ChunkGivesEmissions(rule, xs, chunk[..n], states[..n+1], es[..n]);
      OneMoreEmission(rule, xs + chunk[..n], chunk[n], states[n+1], es[n]);
      AppendLast(xs, chunk);
      AppendLast(Emissions(rule, xs), es);
    }
  }

  /** A fresh fold fed chunk by chunk emits, put together, the emissions of all the trades: where
      the chunks are cut makes no difference. */
  lemma {:induction false} FoldsGiveEmissions(rule: Rule, chunks: seq<seq<Trade>>, states: seq<seq<seq<Trade>>>,
                                              es: seq<seq<Bar>>)
    requires |states| == |chunks| + 1 && |es| == |chunks| && states[0] == []
    requires forall i :: 0 <= i < |chunks| ==> Fed(rule, states[i], chunks[i], states[i+1], es[i])
    ensures Concat(es) == Emissions(rule, Concat(chunks)) && states[|chunks|] == Segments(rule, Concat(chunks))
    decreases |chunks|
  {
    if chunks != [] {
      var n := |chunks| - 1;
      assert Fed(rule, states[n], chunks[n], states[n+1], es[n]);
      var through :| FedThrough(rule, chunks[n], through, es[n])
                     && through[0] == states[n] && through[|chunks[n]|] == states[n+1];
      FoldsGiveEmissions(rule, chunks[..n], states[..n+1], es[..n]);
      ChunkGivesEmissions(rule, Concat(chunks[..n]), chunks[n], through, es[n]);
    }
  }

  class TradeToTickBarDerived {
    const n: nat
    var current: Option<Bar>
    var count: nat
    var lastEmittedOpenTime: int
    ghost var segments: seq<seq<Trade>>

    ghost predicate Valid()
      reads this
    {
      && Tracks(Ticks(n), segments, current, lastEmittedOpenTime)
      && count == if current.Some? then current.value.trades else 0
    }

    constructor NewForKey(n: nat)
      ensures Valid() && segments == [] && this.n == n
    {
      this.n := n;
      current, count, lastEmittedOpenTime, segments := None, 0, 0, [];
    }

    method OnTrade(point: Trade) returns (emitted: Option<Bar>)
      requires Valid()
      modifies this
      ensures Valid()
      ensures n == 0 ==> emitted == None && segments == old(segments)
      ensures n > 0 ==> Folds(Ticks(n), old(segments), point, segments, emitted)
    {
      if n == 0 {
        return None;
      }
      if current == None {
        OpensSegment(Ticks(n), segments, current, lastEmittedOpenTime, point);
        var openTime := Max(point.ts, lastEmittedOpenTime + 1);
        lastEmittedOpenTime := openTime;
        current := Some(OpenBar(openTime, point));
        count := 1;
      } else {
        LengthensSegment(Ticks(n), segments, current, lastEmittedOpenTime, point);
        current := Some(UpdateBar(current.value, point));
        count := count + 1;
      }
      segments := Extend(Ticks(n), segments, point);
      emitted := current;
      if count >= n {
        current := None;
        count := 0;
      }
    }
  }

  class TradeToVolumeBarDerived {
    const threshold: real
    var current: Option<Bar>
    var lastEmittedOpenTime: int
    ghost var segments: seq<seq<Trade>>

    ghost predicate Valid()
      reads this
    {
      Tracks(Volume(threshold), segments, current, lastEmittedOpenTime)
    }

    constructor NewForKey(threshold: real)
      ensures Valid() && segments == [] && this.threshold == threshold
    {
      this.threshold := threshold;
      current, lastEmittedOpenTime, segments := None, 0, [];
    }

    method OnTrade(point: Trade) returns (emitted: Option<Bar>)
      requires Valid()
      modifies this
      ensures Valid()
      ensures threshold == 0.0 ==> emitted == None && segments == old(segments)
      ensures threshold != 0.0 ==> Folds(Volume(threshold), old(segments), point, segments, emitted)
    {
      if threshold == 0.0 {
        return None;
      }
      if current == None {
        OpensSegment(Volume(threshold), segments, current, lastEmittedOpenTime, point);
        var openTime := Max(point.ts, lastEmittedOpenTime + 1);
        lastEmittedOpenTime := openTime;
        current := Some(OpenBar(openTime, point));
      } else {
        LengthensSegment(Volume(threshold), segments, current, lastEmittedOpenTime, point);
        current := Some(UpdateBar(current.value, point));
      }
      segments := Extend(Volume(threshold), segments, point);
      emitted := current;
      if emitted.value.volume >= threshold {
        current := None;
      }
    }
  }

  class TradeToDollarBarDerived {
    const threshold: real
    var cumulativeDollars: real
    var current: Option<Bar>
    var lastEmittedOpenTime: int
    ghost var segments: seq<seq<Trade>>

    ghost predicate Valid()
      reads this
    {
      && Tracks(Dollars(threshold), segments, current, lastEmittedOpenTime)
      && cumulativeDollars == if current.Some? then current.value.quoteVolume else 0.0
    }

    constructor NewForKey(threshold: real)
      ensures Valid() && segments == [] && this.threshold == threshold
    {
      this.threshold := threshold;
      cumulativeDollars, current, lastEmittedOpenTime, segments := 0.0, None, 0, [];
    }

    method OnTrade(point: Trade) returns (emitted: Option<Bar>)
      requires Valid()
      modifies this
      ensures Valid()
      ensures threshold == 0.0 ==> emitted == None && segments == old(segments)
      ensures threshold != 0.0 ==> Folds(Dollars(threshold), old(segments), point, segments, emitted)
    {
      if threshold == 0.0 {
        return None;
      }
      if current == None {
        OpensSegment(Dollars(threshold), segments, current, lastEmittedOpenTime, point);
        var openTime := Max(point.ts, lastEmittedOpenTime + 1);
        lastEmittedOpenTime := openTime;
        current := Some(OpenBar(openTime, point));
        cumulativeDollars := point.price * point.quantity;
      } else {
        LengthensSegment(Dollars(threshold), segments, current, lastEmittedOpenTime, point);
        current := Some(UpdateBar(current.value, point));
        cumulativeDollars := cumulativeDollars + point.price * point.quantity;
      }
      segments := Extend(Dollars(threshold), segments, point);
      emitted := current;
      if cumulativeDollars >= threshold {
        current := None;
        cumulativeDollars := 0.0;
      }
    }
  }

  class TradeToRangeBarDerived {
    const range: real
    var current: Option<Bar>
    var lastEmittedOpenTime: int
    ghost var segments: seq<seq<Trade>>

    ghost predicate Valid()
      reads this
    {
      Tracks(Range(range), segments, current, lastEmittedOpenTime)
    }

    constructor NewForKey(range: real)
      ensures Valid() && segments == [] && this.range == range
    {
      this.range := range;
      current, lastEmittedOpenTime, segments := None, 0, [];
    }

    method OnTrade(point: Trade) returns (emitted: Option<Bar>)
      requires Valid()
      modifies this
      ensures Valid()
      ensures range == 0.0 ==> emitted == None && segments == old(segments)
      ensures range != 0.0 ==> Folds(Range(range), old(segments), point, segments, emitted)
    {
      if range == 0.0 {
        return None;
      }
      if current.Some? {
        if Abs(point.price - current.value.open) >= range {
          OpensSegment(Range(range), segments, current, lastEmittedOpenTime, point);
          var newOpenTime := Max(point.ts, lastEmittedOpenTime + 1);
          lastEmittedOpenTime := newOpenTime;
          current := Some(OpenBar(newOpenTime, point));
        } else {
          LengthensSegment(Range(range), segments, current, lastEmittedOpenTime, point);
          current := Some(UpdateBar(current.value, point));
        }
      } else {
        OpensSegment(Range(range), segments, current, lastEmittedOpenTime, point);
        var openTime := Max(point.ts, lastEmittedOpenTime + 1);
        lastEmittedOpenTime := openTime;
        current := Some(OpenBar(openTime, point));
      }
      segments := Extend(Range(range), segments, point);
      emitted := current;
    }
  }
}
