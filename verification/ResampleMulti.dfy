/** Several lanes on one bar grid: `resample_multi`. Every lane follows the fill policy on its
    own observations, and all lanes share the bars. */
module ResampleMulti {
  import opened Market
  import opened Resample

  datatype Lane = Lane(name: string)

  type Lanes = map<Lane, Float>

  type Row = Observation<Lanes>

  datatype MultiBar = MultiBar(openTime: int, lanes: Lanes, filled: bool)

  /** The observations that carry a lane. */
  function LaneOf(src: seq<Row>, lane: Lane): seq<Observation<Float>> {
    if src == [] then []
    else
      var before, o := LaneOf(src[..|src|-1], lane), src[|src|-1];
      if lane in o.value then before + [Observation(o.ts, o.value[lane])] else before
  }

  // ---------------------------------------------------------------------------
  // Naive definitions
  // ---------------------------------------------------------------------------

  predicate Known(src: seq<Row>, lane: Lane, close: int) {
    Latest(LaneOf(src, lane), close).Some?
  }

  predicate AnyKnown(src: seq<Row>, lanes: seq<Lane>, close: int) {
    lanes != [] && (AnyKnown(src, lanes[..|lanes|-1], close) || Known(src, lanes[|lanes|-1], close))
  }

  function ValueOr(o: Option<Observation<Float>>, missing: Float): Float {
    match o
    case None => missing
    case Some(p) => p.value
  }

  function ForwardLanes(src: seq<Row>, lanes: seq<Lane>, close: int): Lanes {
    if lanes == [] then map[]
    else
      var n := |lanes| - 1;
      ForwardLanes(src, lanes[..n], close)[lanes[n] := ValueOr(Latest(LaneOf(src, lanes[n]), close), NaN)]
  }

  function MultiForwardBar(src: seq<Row>, lanes: seq<Lane>, t: int, step: int): seq<MultiBar> {
    if AnyKnown(src, lanes, t + step) then
      [MultiBar(t, ForwardLanes(src, lanes, t + step), !Fresh(src, t, t + step))]
    else []
  }

  function MultiForwardBars(src: seq<Row>, lanes: seq<Lane>, t: int, end: int, step: int): seq<MultiBar>
    requires step > 0
    decreases end - t
  {
    if t >= end then [] else MultiForwardBar(src, lanes, t, step) + MultiForwardBars(src, lanes, t + step, end, step)
  }

  /** The observations that carry a number in a lane. */
  function NumbersOf(src: seq<Row>, lane: Lane): seq<Observation<Float>> {
    if src == [] then [] else NumbersOf(src[..|src|-1], lane) + NumberIn(src[|src|-1], lane)
  }

  function NumberIn(o: Row, lane: Lane): seq<Observation<Float>> {
    if lane in o.value && !o.value[lane].NaN? then [Observation(o.ts, o.value[lane])] else []
  }

  /** A lane that the schema names several times is added up several times. */
  function Occurrences(lanes: seq<Lane>, lane: Lane): nat {
    if lanes == [] then 0
    else Occurrences(lanes[..|lanes|-1], lane) + (if lanes[|lanes|-1] == lane then 1 else 0)
  }

  function Times(n: nat, f: Float): Float {
    if n == 0 then Num(0.0) else Plus(Times(n - 1, f), f)
  }

  /** A lane's total in a window, once for every time the schema names the lane. */
  function LaneFlow(src: seq<Row>, lanes: seq<Lane>, lane: Lane, t: int, close: int): Float {
    Times(Occurrences(lanes, lane), Sum(NumbersOf(src, lane), t, close))
  }

  function FlowsOf(src: seq<Row>, lanes: seq<Lane>, names: seq<Lane>, t: int, close: int): Lanes {
    if names == [] then map[]
    else
      var n := |names| - 1;
      FlowsOf(src, lanes, names[..n], t, close)[names[n] := LaneFlow(src, lanes, names[n], t, close)]
  }

  function FlowLanes(src: seq<Row>, lanes: seq<Lane>, t: int, close: int): Lanes {
    FlowsOf(src, lanes, lanes, t, close)
  }

  lemma {:induction false} TimesPlus(n: nat, f: Float, g: Float)
    ensures Times(n, Plus(f, g)) == Plus(Times(n, f), Times(n, g))
    decreases n
  {
    if n > 0 {
      TimesPlus(n - 1, f, g);
      PlusSwap(Times(n - 1, f), Times(n - 1, g), f, g);
    }
  }

  lemma {:induction false} TimesNothing(n: nat)
    ensures Times(n, Num(0.0)) == Num(0.0)
    decreases n
  {
    if n > 0 {
      TimesNothing(n - 1);
    }
  }

  function MultiFlowBars(src: seq<Row>, lanes: seq<Lane>, t: int, end: int, step: int): seq<MultiBar>
    requires step > 0
    decreases end - t
  {
    if t >= end then []
    else [MultiBar(t, FlowLanes(src, lanes, t, t + step), false)] + MultiFlowBars(src, lanes, t + step, end, step)
  }

  lemma {:induction false} AnyKnownIff(src: seq<Row>, lanes: seq<Lane>, close: int)
    ensures AnyKnown(src, lanes, close) <==> exists lane :: lane in lanes && Known(src, lane, close)
  {
    if lanes != [] {
      var n := |lanes| - 1;
      AnyKnownIff(src, lanes[..n], close);
      assert lanes == lanes[..n] + [lanes[n]];
    }
  }

  lemma {:induction false} ForwardLanesAre(src: seq<Row>, lanes: seq<Lane>, close: int)
    ensures var values := ForwardLanes(src, lanes, close);
            && (forall lane :: lane in values <==> lane in lanes)
            && forall lane :: lane in lanes ==> values[lane] == ValueOr(Latest(LaneOf(src, lane), close), NaN)
  {
    if lanes != [] {
      var n := |lanes| - 1;
      ForwardLanesAre(src, lanes[..n], close);
      assert lanes == lanes[..n] + [lanes[n]];
    }
  }

  lemma {:induction false} FlowsAre(src: seq<Row>, lanes: seq<Lane>, names: seq<Lane>, t: int, close: int)
    ensures var sums := FlowsOf(src, lanes, names, t, close);
            && (forall lane :: lane in sums <==> lane in names)
            && forall lane :: lane in names ==> sums[lane] == LaneFlow(src, lanes, lane, t, close)
  {
    if names != [] {
      var n := |names| - 1;
      FlowsAre(src, lanes, names[..n], t, close);
      assert names == names[..n] + [names[n]];
    }
  }

  // ---------------------------------------------------------------------------
  // Each lane is resampled as if it were alone
  // ---------------------------------------------------------------------------

  datatype Point = Point(openTime: int, value: Float)

  /** The bars without their filled flags. */
  function Points(bars: seq<ScalarBar>): seq<Point> {
    if bars == [] then [] else [Point(bars[0].openTime, bars[0].value)] + Points(bars[1..])
  }

  function ValueIn(bar: MultiBar, lane: Lane): Float {
    if lane in bar.lanes then bar.lanes[lane] else NaN
  }

  /** A lane's values, from the first bar whose close comes after an observation carrying the lane. */
  function Seen(bars: seq<MultiBar>, src: seq<Row>, lane: Lane, step: int): seq<Point> {
    if bars == [] then []
    else
      var rest := Seen(bars[1..], src, lane, step);
      if Known(src, lane, bars[0].openTime + step) then [Point(bars[0].openTime, ValueIn(bars[0], lane))] + rest
      else rest
  }

  lemma {:induction false} SeenAppend(a: seq<MultiBar>, b: seq<MultiBar>, src: seq<Row>, lane: Lane, step: int)
    ensures Seen(a + b, src, lane, step) == Seen(a, src, lane, step) + Seen(b, src, lane, step)
  {
    if a == [] {
      assert a + b == b;
    } else {
      assert (a + b)[1..] == a[1..] + b;
      SeenAppend(a[1..], b, src, lane, step);
    }
  }

  lemma {:induction false} PointsAppend(a: seq<ScalarBar>, b: seq<ScalarBar>)
    ensures Points(a + b) == Points(a) + Points(b)
  {
    if a == [] {
      assert a + b == b;
    } else {
      assert (a + b)[1..] == a[1..] + b;
      PointsAppend(a[1..], b);
    }
  }

  lemma ForwardBarLane(src: seq<Row>, lanes: seq<Lane>, lane: Lane, t: int, step: int)
    requires lane in lanes
    ensures Seen(MultiForwardBar(src, lanes, t, step), src, lane, step)
         == Points(ForwardBar(LaneOf(src, lane), t, step))
  {
    SeenInBar(src, lanes, lane, t, step);
    var latest := Latest(LaneOf(src, lane), t + step);
    if latest.Some? {
      PointsOne(ScalarBar(t, latest.value.value, !Fresh(LaneOf(src, lane), t, t + step)));
    }
  }

  lemma SeenInBar(src: seq<Row>, lanes: seq<Lane>, lane: Lane, t: int, step: int)
    requires lane in lanes
    ensures Seen(MultiForwardBar(src, lanes, t, step), src, lane, step)
         == match Latest(LaneOf(src, lane), t + step)
            case None => []
            case Some(o) => [Point(t, o.value)]
  {
    LaneIsKnown(src, lanes, lane, t + step);
    if AnyKnown(src, lanes, t + step) {
      SeenOne(MultiBar(t, ForwardLanes(src, lanes, t + step), !Fresh(src, t, t + step)), src, lane, step);
    }
  }

  lemma LaneIsKnown(src: seq<Row>, lanes: seq<Lane>, lane: Lane, close: int)
    requires lane in lanes
    ensures Known(src, lane, close) ==> AnyKnown(src, lanes, close)
    ensures lane in ForwardLanes(src, lanes, close)
    ensures ForwardLanes(src, lanes, close)[lane] == ValueOr(Latest(LaneOf(src, lane), close), NaN)
  {
    AnyKnownIff(src, lanes, close);
    ForwardLanesAre(src, lanes, close);
  }

  lemma SeenOne(bar: MultiBar, src: seq<Row>, lane: Lane, step: int)
    ensures Seen([bar], src, lane, step)
         == if Known(src, lane, bar.openTime + step) then [Point(bar.openTime, ValueIn(bar, lane))] else []
  {
    assert [bar][1..] == [];
  }

  lemma PointsOne(bar: ScalarBar)
    ensures Points([bar]) == [Point(bar.openTime, bar.value)]
  {
    assert [bar][1..] == [];
  }

  /** Forward filling: a lane of the shared grid is that lane resampled alone. */
  lemma {:induction false} ForwardLane(src: seq<Row>, lanes: seq<Lane>, lane: Lane, t: int, end: int, step: int)
    requires step > 0 && lane in lanes
    ensures Seen(MultiForwardBars(src, lanes, t, end, step), src, lane, step)
         == Points(ForwardBars(LaneOf(src, lane), t, end, step))
    decreases end - t
  {
    if t < end {
      ForwardLane(src, lanes, lane, t + step, end, step);
      ForwardBarLane(src, lanes, lane, t, step);
      SeenAppend(MultiForwardBar(src, lanes, t, step), MultiForwardBars(src, lanes, t + step, end, step),
                 src, lane, step);
      PointsAppend(ForwardBar(LaneOf(src, lane), t, step), ForwardBars(LaneOf(src, lane), t + step, end, step));
    }
  }

  /** ... and the bars before the lane's first observation hold no number. */
  lemma UnseenIsNaN(src: seq<Row>, lanes: seq<Lane>, lane: Lane, t: int, end: int, step: int, bar: MultiBar)
    requires step > 0 && lane in lanes && bar in MultiForwardBars(src, lanes, t, end, step)
    ensures forall l :: l in bar.lanes <==> l in lanes
    ensures Known(src, lane, bar.openTime + step)
         || (bar.lanes[lane] == NaN && forall o :: o in LaneOf(src, lane) ==> o.ts >= bar.openTime + step)
    ensures bar.filled ==> !Fresh(LaneOf(src, lane), bar.openTime, bar.openTime + step)
  {
    MultiBarsAre(src, lanes, t, end, step, bar);
    BarUnseen(src, lanes, lane, bar.openTime, step, bar);
  }

  lemma BarUnseen(src: seq<Row>, lanes: seq<Lane>, lane: Lane, t: int, step: int, bar: MultiBar)
    requires lane in lanes && bar in MultiForwardBar(src, lanes, t, step)
    ensures bar.openTime == t && forall l :: l in bar.lanes <==> l in lanes
    ensures Known(src, lane, t + step)
         || (bar.lanes[lane] == NaN && forall o :: o in LaneOf(src, lane) ==> o.ts >= t + step)
    ensures bar.filled ==> !Fresh(LaneOf(src, lane), t, t + step)
  {
    LatestIs(LaneOf(src, lane), t + step);
    ForwardLanesAre(src, lanes, t + step);
    if Fresh(LaneOf(src, lane), t, t + step) {
      FreshLane(src, lane, t, t + step);
    }
  }

  /** The bars of the grid are the bars made at its open times. */
  lemma {:induction false} MultiBarsAre(src: seq<Row>, lanes: seq<Lane>, first: int, end: int, step: int, bar: MultiBar)
    requires step > 0
    ensures bar in MultiForwardBars(src, lanes, first, end, step)
       <==> OnBars(bar.openTime, first, end, step) && bar in MultiForwardBar(src, lanes, bar.openTime, step)
    decreases end - first
  {
    if first < end {
      MultiBarsAre(src, lanes, first + step, end, step, bar);
      GridAfter(bar.openTime, first + step, end, step);
      InEither(MultiForwardBar(src, lanes, first, step), MultiForwardBars(src, lanes, first + step, end, step), bar);
    }
  }

  lemma {:induction false} LaneBarsAre(src: seq<Observation<Float>>, first: int, end: int, step: int, bar: ScalarBar)
    requires step > 0
    ensures bar in ForwardBars(src, first, end, step)
       <==> OnBars(bar.openTime, first, end, step) && bar in ForwardBar(src, bar.openTime, step)
    decreases end - first
  {
    if first < end {
      LaneBarsAre(src, first + step, end, step, bar);
      GridAfter(bar.openTime, first + step, end, step);
      InEither(ForwardBar(src, first, step), ForwardBars(src, first + step, end, step), bar);
    }
  }

  lemma {:induction false} GridAfter(t: int, first: int, end: int, step: int)
    requires step > 0
    ensures OnBars(t, first, end, step) ==> t >= first
    decreases end - first
  {
    if first < end && t != first {
      GridAfter(t, first + step, end, step);
    }
  }

  /** The shared grid and the lane alone mark the same bars as filled. */
  ghost predicate FlagsAgree(src: seq<Row>, lanes: seq<Lane>, lane: Lane, first: int, end: int, step: int)
    requires step > 0
  {
    forall bar, own | bar in MultiForwardBars(src, lanes, first, end, step)
                      && own in ForwardBars(LaneOf(src, lane), first, end, step) && bar.openTime == own.openTime ::
      bar.filled == own.filled
  }

  /** From the lane's first bar on, a bar window that holds any row holds one that carries the lane. */
  ghost predicate RowsCarry(src: seq<Row>, lane: Lane, first: int, end: int, step: int)
    requires step > 0
  {
    forall t :: OnBars(t, first, end, step) && Known(src, lane, t + step) && Fresh(src, t, t + step) ==>
      Fresh(LaneOf(src, lane), t, t + step)
  }

  ghost predicate FlagsAt(src: seq<Row>, lane: Lane, t: int, step: int, shared: bool, own: bool) {
    && Known(src, lane, t + step)
    && shared == !Fresh(src, t, t + step) && own == !Fresh(LaneOf(src, lane), t, t + step)
  }

  /** Exactly when there is a bar: from the first close on before which some lane was observed. */
  lemma BarIff(src: seq<Row>, lanes: seq<Lane>, first: int, end: int, step: int, t: int)
    requires step > 0
    ensures (exists bar :: bar in MultiForwardBars(src, lanes, first, end, step) && bar.openTime == t)
       <==> OnBars(t, first, end, step)
            && exists lane :: lane in lanes && exists o :: o in LaneOf(src, lane) && o.ts < t + step
  {
    AnyObserved(src, lanes, t + step);
    BarIfKnown(src, lanes, first, end, step, t);
  }

  lemma AnyObserved(src: seq<Row>, lanes: seq<Lane>, close: int)
    ensures AnyKnown(src, lanes, close)
       <==> exists lane :: lane in lanes && exists o :: o in LaneOf(src, lane) && o.ts < close
  {
    AnyKnownIff(src, lanes, close);
    forall lane ensures Known(src, lane, close) <==> exists o :: o in LaneOf(src, lane) && o.ts < close {
      KnownIff(src, lane, close);
    }
  }

  lemma KnownIff(src: seq<Row>, lane: Lane, close: int)
    ensures Known(src, lane, close) <==> exists o :: o in LaneOf(src, lane) && o.ts < close
  {
    LatestIs(LaneOf(src, lane), close);
  }

  lemma BarIfKnown(src: seq<Row>, lanes: seq<Lane>, first: int, end: int, step: int, t: int)
    requires step > 0
    ensures (exists bar :: bar in MultiForwardBars(src, lanes, first, end, step) && bar.openTime == t)
       <==> OnBars(t, first, end, step) && AnyKnown(src, lanes, t + step)
  {
    if bar :| bar in MultiForwardBars(src, lanes, first, end, step) && bar.openTime == t {
      MultiBarsAre(src, lanes, first, end, step, bar);
    }
    if OnBars(t, first, end, step) && AnyKnown(src, lanes, t + step) {
      var bar := MultiBar(t, ForwardLanes(src, lanes, t + step), !Fresh(src, t, t + step));
      assert bar in MultiForwardBar(src, lanes, t, step);
      MultiBarsAre(src, lanes, first, end, step, bar);
    }
  }

  /** Filled flags: the shared grid's are the lane's own if and only if no bar window holds rows
      without one that carries the lane. */
  lemma FilledFlagsAgreeIff(src: seq<Row>, lanes: seq<Lane>, lane: Lane, first: int, end: int, step: int)
    requires step > 0 && lane in lanes
    ensures FlagsAgree(src, lanes, lane, first, end, step) <==> RowsCarry(src, lane, first, end, step)
  {
    if RowsCarry(src, lane, first, end, step) {
      forall bar, own | bar in MultiForwardBars(src, lanes, first, end, step)
                        && own in ForwardBars(LaneOf(src, lane), first, end, step) && bar.openTime == own.openTime
        ensures bar.filled == own.filled
      {
        FlagsOf(src, lanes, lane, first, end, step, bar, own);
        FreshLaneIs(src, lane, bar.openTime, bar.openTime + step);
      }
    }
    if FlagsAgree(src, lanes, lane, first, end, step) {
      forall t | OnBars(t, first, end, step) && Known(src, lane, t + step) && Fresh(src, t, t + step)
        ensures Fresh(LaneOf(src, lane), t, t + step)
      {
        var bar, own := BarsAt(src, lanes, lane, first, end, step, t);
      }
    }
  }

  lemma FlagsOf(src: seq<Row>, lanes: seq<Lane>, lane: Lane, first: int, end: int, step: int, bar: MultiBar,
                own: ScalarBar)
    requires step > 0 && lane in lanes && bar.openTime == own.openTime
    requires bar in MultiForwardBars(src, lanes, first, end, step)
    requires own in ForwardBars(LaneOf(src, lane), first, end, step)
    ensures OnBars(bar.openTime, first, end, step) && FlagsAt(src, lane, bar.openTime, step, bar.filled, own.filled)
  {
    MultiBarsAre(src, lanes, first, end, step, bar);
    LaneBarsAre(LaneOf(src, lane), first, end, step, own);
  }

  lemma BarsAt(src: seq<Row>, lanes: seq<Lane>, lane: Lane, first: int, end: int, step: int, t: int)
    returns (bar: MultiBar, own: ScalarBar)
    requires step > 0 && lane in lanes && OnBars(t, first, end, step) && Known(src, lane, t + step)
    ensures bar in MultiForwardBars(src, lanes, first, end, step) && bar.openTime == t
    ensures own in ForwardBars(LaneOf(src, lane), first, end, step) && own.openTime == t
    ensures FlagsAt(src, lane, t, step, bar.filled, own.filled)
  {
    AnyKnownIff(src, lanes, t + step);
    bar, own := MultiForwardBar(src, lanes, t, step)[0], ForwardBar(LaneOf(src, lane), t, step)[0];
    MultiBarsAre(src, lanes, first, end, step, bar);
    LaneBarsAre(LaneOf(src, lane), first, end, step, own);
  }

  /** On every grid: one row per lane, a bar apart. The second bar is filled for lane `a` alone, but
      not on the shared grid. */
  lemma ApartFlagsDiffer(a: Lane, b: Lane, x: Float, y: Float, step: int)
    requires step > 0 && a != b
    ensures !FlagsAgree([Observation(0, map[a := x]), Observation(step, map[b := y])], [a, b], a, 0, step + step, step)
  {
    var first, second := Observation(0, map[a := x]), Observation(step, map[b := y]);
    var src := [first] + [second];
    assert src == [first, second];
    LaneOfTwo(first, second, a);
    assert OnBars(step, step, step + step, step) && OnBars(step, 0, step + step, step);
    FilledFlagsAgreeIff(src, [a, b], a, 0, step + step, step);
  }

  lemma LaneOfTwo(first: Row, second: Row, lane: Lane)
    requires lane in first.value && lane !in second.value
    ensures LaneOf([first] + [second], lane) == [Observation(first.ts, first.value[lane])]
    ensures forall close :: first.ts < close ==> Known([first] + [second], lane, close)
    ensures forall t, close ::
              Fresh(LaneOf([first] + [second], lane), t, close) <==> t <= first.ts < close
  {
    var own := Observation(first.ts, first.value[lane]);
    assert ([first] + [second])[..1] == [first] && [first][..0] == [] && [own][..0] == [];
    assert LaneOf([first], lane) == [own];
  }

  lemma FreshLaneIs(src: seq<Row>, lane: Lane, t: int, close: int)
    ensures Fresh(LaneOf(src, lane), t, close) ==> Fresh(src, t, close)
  {
    if Fresh(LaneOf(src, lane), t, close) {
      FreshLane(src, lane, t, close);
    }
  }

  lemma {:induction false} FreshLane(src: seq<Row>, lane: Lane, t: int, close: int)
    requires Fresh(LaneOf(src, lane), t, close)
    ensures Fresh(src, t, close)
  {
    var init, o := src[..|src|-1], src[|src|-1];
    if lane in o.value {
      var own := LaneOf(init, lane);
      assert (own + [Observation(o.ts, o.value[lane])])[..|own|] == own;
    }
    if !(t <= o.ts < close) {
      FreshLane(init, lane, t, close);
    }
  }

  /** Flows: a lane of the shared grid is the sum of that lane's numbers alone, bar by bar, once for
      every time the schema names it. */
  lemma {:induction false} FlowLane(src: seq<Row>, lanes: seq<Lane>, lane: Lane, t: int, end: int, step: int)
    requires step > 0 && lane in lanes
    ensures var bars := MultiFlowBars(src, lanes, t, end, step);
            var alone := ZeroFlowBars(NumbersOf(src, lane), t, end, step);
            && |bars| == |alone|
            && forall i :: 0 <= i < |bars| ==>
                 && lane in bars[i].lanes && bars[i].openTime == alone[i].openTime && bars[i].filled == alone[i].filled
                 && bars[i].lanes[lane] == Times(Occurrences(lanes, lane), alone[i].value)
    decreases end - t
  {
    if t < end {
      FlowsAre(src, lanes, lanes, t, t + step);
      FlowLane(src, lanes, lane, t + step, end, step);
    }
  }

  // ---------------------------------------------------------------------------
  // Order independence
  // ---------------------------------------------------------------------------

  ghost predicate CarriedBy(src: seq<Row>, lane: Lane, o: Observation<Float>) {
    exists p :: p in src && lane in p.value && o == Observation(p.ts, p.value[lane])
  }

  lemma {:induction false} LaneMembers(src: seq<Row>, lane: Lane, o: Observation<Float>)
    ensures o in LaneOf(src, lane) <==> CarriedBy(src, lane, o)
  {
    if src != [] {
      var init, p := src[..|src|-1], src[|src|-1];
      LaneMembers(init, lane, o);
      assert src == init + [p];
    }
  }

  lemma LaneByMembers(a: seq<Row>, b: seq<Row>, lane: Lane)
    requires SameMembers(a, b) && Distinct(a)
    ensures SameMembers(LaneOf(a, lane), LaneOf(b, lane)) && Distinct(LaneOf(a, lane))
  {
    forall o ensures o in LaneOf(a, lane) <==> o in LaneOf(b, lane) {
      LaneMembers(a, lane, o);
      LaneMembers(b, lane, o);
    }
    forall o, q | o in LaneOf(a, lane) && q in LaneOf(a, lane) && o.ts == q.ts ensures o == q {
      LaneMembers(a, lane, o);
      LaneMembers(a, lane, q);
    }
  }

  lemma {:induction false} ForwardLanesByMembers(a: seq<Row>, b: seq<Row>, lanes: seq<Lane>, close: int)
    requires SameMembers(a, b) && Distinct(a)
    ensures ForwardLanes(a, lanes, close) == ForwardLanes(b, lanes, close)
    ensures AnyKnown(a, lanes, close) <==> AnyKnown(b, lanes, close)
  {
    if lanes != [] {
      var n := |lanes| - 1;
      ForwardLanesByMembers(a, b, lanes[..n], close);
      assert lanes == lanes[..n] + [lanes[n]];
      LaneByMembers(a, b, lanes[n]);
      LatestByMembers(LaneOf(a, lanes[n]), LaneOf(b, lanes[n]), close);
    }
  }

  lemma ForwardBarByMembers(a: seq<Row>, b: seq<Row>, lanes: seq<Lane>, t: int, step: int)
    requires SameMembers(a, b) && Distinct(a)
    ensures MultiForwardBar(a, lanes, t, step) == MultiForwardBar(b, lanes, t, step)
  {
    ForwardLanesByMembers(a, b, lanes, t + step);
    FreshByMembers(a, b, t, t + step);
    SameForwardBar(a, b, lanes, t, step);
  }

  lemma SameForwardBar(a: seq<Row>, b: seq<Row>, lanes: seq<Lane>, t: int, step: int)
    requires AnyKnown(a, lanes, t + step) == AnyKnown(b, lanes, t + step)
    requires ForwardLanes(a, lanes, t + step) == ForwardLanes(b, lanes, t + step)
    requires Fresh(a, t, t + step) == Fresh(b, t, t + step)
    ensures MultiForwardBar(a, lanes, t, step) == MultiForwardBar(b, lanes, t, step)
  {
  }

  lemma {:induction false} ForwardBarsByMembers(a: seq<Row>, b: seq<Row>, lanes: seq<Lane>, t: int, end: int, step: int)
    requires step > 0 && SameMembers(a, b) && Distinct(a)
    ensures MultiForwardBars(a, lanes, t, end, step) == MultiForwardBars(b, lanes, t, end, step)
    decreases end - t
  {
    if t < end {
      ForwardBarByMembers(a, b, lanes, t, step);
      ForwardBarsByMembers(a, b, lanes, t + step, end, step);
    }
  }

  lemma {:induction false} NumbersAppend(a: seq<Row>, b: seq<Row>, lane: Lane)
    ensures NumbersOf(a + b, lane) == NumbersOf(a, lane) + NumbersOf(b, lane)
  {
    if b == [] {
      assert a + b == a;
    } else {
      assert (a + b)[..|a+b|-1] == a + b[..|b|-1];
      NumbersAppend(a, b[..|b|-1], lane);
    }
  }

  lemma NumbersOne(o: Row, lane: Lane)
    ensures NumbersOf([o], lane) == NumberIn(o, lane)
  {
    assert [o][..0] == [];
  }

  lemma NumbersWithout(s: seq<Row>, k: nat, lane: Lane)
    requires k < |s|
    ensures multiset(NumbersOf(s, lane))
         == multiset(NumbersOf(s[..k] + s[k+1..], lane)) + multiset(NumberIn(s[k], lane))
  {
    assert s == s[..k] + ([s[k]] + s[k+1..]);
    NumbersAppend(s[..k], [s[k]] + s[k+1..], lane);
    NumbersAppend([s[k]], s[k+1..], lane);
    NumbersOne(s[k], lane);
    NumbersAppend(s[..k], s[k+1..], lane);
  }

  lemma {:induction false} NumbersPermute(a: seq<Row>, b: seq<Row>, lane: Lane)
    requires multiset(a) == multiset(b)
    ensures multiset(NumbersOf(a, lane)) == multiset(NumbersOf(b, lane))
  {
    if a == [] {
      EmptyPermutation(a, b);
    } else {
      var init, o := a[..|a|-1], a[|a|-1];
      assert a == init + [o];
      assert o in multiset(b);
      var k :| 0 <= k < |b| && b[k] == o;
      var rest := b[..k] + b[k+1..];
      assert b == b[..k] + [b[k]] + b[k+1..];
      assert multiset(rest) == multiset(b) - multiset{o};
      NumbersPermute(init, rest, lane);
      NumbersWithout(b, k, lane);
    }
  }

  lemma {:induction false} FlowPermutes(a: seq<Row>, b: seq<Row>, lanes: seq<Lane>, names: seq<Lane>, t: int,
                                        close: int)
    requires multiset(a) == multiset(b)
    ensures FlowsOf(a, lanes, names, t, close) == FlowsOf(b, lanes, names, t, close)
    decreases names
  {
    if names != [] {
      var n := |names| - 1;
      FlowPermutes(a, b, lanes, names[..n], t, close);
      NumbersPermute(a, b, names[n]);
      SumPermutes(NumbersOf(a, names[n]), NumbersOf(b, names[n]), t, close);
    }
  }

  lemma {:induction false} FlowBarsPermute(a: seq<Row>, b: seq<Row>, lanes: seq<Lane>, t: int, end: int, step: int)
    requires step > 0 && multiset(a) == multiset(b)
    ensures MultiFlowBars(a, lanes, t, end, step) == MultiFlowBars(b, lanes, t, end, step)
    decreases end - t
  {
    if t < end {
      FlowPermutes(a, b, lanes, lanes, t, t + step);
      FlowBarsPermute(a, b, lanes, t + step, end, step);
      SameFlowBars(a, b, lanes, t, end, step);
    }
  }

  lemma SameFlowBars(a: seq<Row>, b: seq<Row>, lanes: seq<Lane>, t: int, end: int, step: int)
    requires step > 0 && t < end && FlowLanes(a, lanes, t, t + step) == FlowLanes(b, lanes, t, t + step)
    requires MultiFlowBars(a, lanes, t + step, end, step) == MultiFlowBars(b, lanes, t + step, end, step)
    ensures MultiFlowBars(a, lanes, t, end, step) == MultiFlowBars(b, lanes, t, end, step)
  {
  }

  // ---------------------------------------------------------------------------
  // Sorted sources
  // ---------------------------------------------------------------------------

  lemma {:induction false} LaneNotAfter(src: seq<Row>, lane: Lane, time: int)
    requires forall i :: 0 <= i < |src| ==> src[i].ts <= time
    ensures var own := LaneOf(src, lane); own != [] ==> own[|own|-1].ts <= time
  {
    if src != [] {
      LaneNotAfter(src[..|src|-1], lane, time);
    }
  }

  lemma {:induction false} LatestInLane(src: seq<Row>, idx: nat, lane: Lane, close: int)
    requires Sorted(src) && SplitAt(src, idx, close)
    ensures Latest(LaneOf(src, lane), close) == LastOf(LaneOf(src[..idx], lane))
  {
    if src == [] {
      assert src[..idx] == [];
    } else {
      var init, o := src[..|src|-1], src[|src|-1];
      var own := LaneOf(init, lane);
      if lane in o.value {
        assert (own + [Observation(o.ts, o.value[lane])])[..|own|] == own;
      }
      if idx < |src| {
        LatestInLane(init, idx, lane, close);
        assert init[..idx] == src[..idx];
      } else {
        LatestInLane(init, |init|, lane, close);
        assert init[..|init|] == init && src[..idx] == src;
        LaneNotAfter(init, lane, o.ts);
      }
    }
  }

  // ---------------------------------------------------------------------------
  // resample_multi
  // ---------------------------------------------------------------------------

  method ResampleMulti(src: seq<Row>, lanes: seq<Lane>, start: int, end: int, step: int, policy: FillPolicy)
    returns (out: seq<MultiBar>)
    requires step > 0
    ensures policy.ZeroFlow? ==> out == MultiFlowBars(src, lanes, FirstBar(start, step), end, step)
    ensures policy.ForwardFill? && Distinct(src) ==>
              out == MultiForwardBars(src, lanes, FirstBar(start, step), end, step)
    ensures policy.ForwardFill? ==>
      exists sorted :: SortOf(sorted, src) && out == MultiForwardBars(sorted, lanes, FirstBar(start, step), end, step)
  {
    var sorted := SortByTs(src);
    SortOfMembers(sorted, src);
    var first := FirstBar(start, step);
    match policy {
      case ForwardFill =>
        out := FillForward(sorted, lanes, first, end, step);
        if Distinct(src) {
          ForwardBarsByMembers(src, sorted, lanes, first, end, step);
        }
      case ZeroFlow =>
        out := FillFlow(sorted, lanes, first, end, step);
        FlowBarsPermute(sorted, src, lanes, first, end, step);
    }
  }

  /** The last value each lane has been given so far. */
  ghost function Carried(src: seq<Row>, lanes: seq<Lane>): Lanes {
    if lanes == [] then map[]
    else
      var n := |lanes| - 1;
      var rest, own := Carried(src, lanes[..n]), LaneOf(src, lanes[n]);
      if own == [] then rest else rest[lanes[n] := own[|own|-1].value]
  }

  lemma {:induction false} CarriedAre(src: seq<Row>, lanes: seq<Lane>)
    ensures var last := Carried(src, lanes);
            && (forall lane :: lane in last <==> lane in lanes && LaneOf(src, lane) != [])
            && forall lane :: lane in last ==> last[lane] == LaneOf(src, lane)[|LaneOf(src, lane)|-1].value
  {
    if lanes != [] {
      var n := |lanes| - 1;
      CarriedAre(src, lanes[..n]);
      assert lanes == lanes[..n] + [lanes[n]];
    }
  }

  method FillForward(src: seq<Row>, lanes: seq<Lane>, first: int, end: int, step: int) returns (out: seq<MultiBar>)
    requires step > 0 && Sorted(src)
    ensures out == MultiForwardBars(src, lanes, first, end, step)
  {
    out := [];
    var idx: nat, t := 0, first;
    var last: Lanes := map[];
    CarriedAre(src[..0], lanes);
    assert Carried(src[..0], lanes) == map[];
    while t < end
      invariant idx == 0 || SplitAt(src, idx, t)
      invariant idx <= |src| && last == Carried(src[..idx], lanes)
      invariant out + MultiForwardBars(src, lanes, t, end, step) == MultiForwardBars(src, lanes, first, end, step)
      decreases end - t
    {
      var bar;
      idx, last, bar := ReadBar(src, lanes, idx, last, t, t + step);
      AppendAssociates(out, bar, MultiForwardBars(src, lanes, t + step, end, step));
      out := out + bar;
      t := t + step;
    }
  }

  /** Take in everything before the close and make the bar, if any lane has a value to carry. */
  method ReadBar(src: seq<Row>, lanes: seq<Lane>, from: nat, before: Lanes, t: int, close: int)
    returns (idx: nat, last: Lanes, bar: seq<MultiBar>)
    requires Sorted(src) && from <= |src| && before == Carried(src[..from], lanes) && t <= close
    requires from == 0 || SplitAt(src, from, t)
    ensures SplitAt(src, idx, close) && last == Carried(src[..idx], lanes)
    ensures bar == MultiForwardBar(src, lanes, t, close - t)
  {
    idx, last := from, before;
    var isFresh := false;
    NothingFresh(src[..from], t, close);
    while idx < |src| && src[idx].ts < close
      invariant from <= idx <= |src| && last == Carried(src[..idx], lanes)
      invariant forall i :: 0 <= i < idx ==> src[i].ts < close
      invariant isFresh <==> Fresh(src[..idx], t, close)
    {
      last := Take(last, src[idx].value, lanes);
      CarriedSnoc(src, idx, lanes);
      FreshSnoc(src, idx, t, close);
      if src[idx].ts >= t {
        isFresh := true;
      }
      idx := idx + 1;
    }
    FreshOfSorted(src, idx, t, close);
    AnyCarried(src, idx, lanes, close);
    FilledIs(src, idx, lanes, close);
    if last != map[] {
      var values := Fill(last, lanes);
      bar := [MultiBar(t, values, !isFresh)];
    } else {
      bar := [];
    }
  }

  function Taken(last: Lanes, row: Lanes, lanes: seq<Lane>): Lanes {
    map lane | lane in last.Keys + (set l | l in lanes && l in row) ::
      if lane in lanes && lane in row then row[lane] else last[lane]
  }

  method Take(before: Lanes, row: Lanes, lanes: seq<Lane>) returns (last: Lanes)
    ensures last == Taken(before, row, lanes)
  {
    last := before;
    for n := 0 to |lanes|
      invariant last == Taken(before, row, lanes[..n])
    {
      if lanes[n] in row {
        last := last[lanes[n] := row[lanes[n]]];
      }
      assert lanes[..n+1] == lanes[..n] + [lanes[n]];
    }
    assert lanes[..|lanes|] == lanes;
  }

  lemma CarriedSnoc(src: seq<Row>, idx: nat, lanes: seq<Lane>)
    requires idx < |src|
    ensures Carried(src[..idx+1], lanes) == Taken(Carried(src[..idx], lanes), src[idx].value, lanes)
  {
    assert src[..idx+1][..idx] == src[..idx];
    CarriedAre(src[..idx+1], lanes);
    CarriedAre(src[..idx], lanes);
  }

  lemma CarriedIsKnown(src: seq<Row>, idx: nat, lanes: seq<Lane>, lane: Lane, close: int)
    requires Sorted(src) && SplitAt(src, idx, close)
    ensures var last := Carried(src[..idx], lanes);
            && (lane in last <==> lane in lanes && Known(src, lane, close))
            && (lane in last ==> last[lane] == ValueOr(Latest(LaneOf(src, lane), close), NaN))
  {
    CarriedAre(src[..idx], lanes);
    LatestInLane(src, idx, lane, close);
  }

  lemma AnyCarried(src: seq<Row>, idx: nat, lanes: seq<Lane>, close: int)
    requires Sorted(src) && SplitAt(src, idx, close)
    ensures AnyKnown(src, lanes, close) <==> Carried(src[..idx], lanes) != map[]
  {
    var last := Carried(src[..idx], lanes);
    AnyKnownIff(src, lanes, close);
    if AnyKnown(src, lanes, close) {
      var lane :| lane in lanes && Known(src, lane, close);
      CarriedIsKnown(src, idx, lanes, lane, close);
    }
    if last != map[] {
      assert last.Keys != {};
      var lane :| lane in last.Keys;
      CarriedIsKnown(src, idx, lanes, lane, close);
    }
  }

  lemma FilledIs(src: seq<Row>, idx: nat, lanes: seq<Lane>, close: int)
    requires Sorted(src) && SplitAt(src, idx, close)
    ensures Filled(Carried(src[..idx], lanes), lanes) == ForwardLanes(src, lanes, close)
  {
    var values := ForwardLanes(src, lanes, close);
    ForwardLanesAre(src, lanes, close);
    forall lane | lane in lanes ensures Filled(Carried(src[..idx], lanes), lanes)[lane] == values[lane] {
      CarriedIsKnown(src, idx, lanes, lane, close);
    }
  }

  function Filled(last: Lanes, lanes: seq<Lane>): Lanes {
    map lane | lane in lanes :: if lane in last then last[lane] else NaN
  }

  method Fill(last: Lanes, lanes: seq<Lane>) returns (values: Lanes)
    ensures values == Filled(last, lanes)
  {
    values := map[];
    for n := 0 to |lanes|
      invariant values == Filled(last, lanes[..n])
    {
      values := values[lanes[n] := if lanes[n] in last then last[lanes[n]] else NaN];
      assert lanes[..n+1] == lanes[..n] + [lanes[n]];
    }
    assert lanes[..|lanes|] == lanes;
  }

  method FillFlow(src: seq<Row>, lanes: seq<Lane>, first: int, end: int, step: int) returns (out: seq<MultiBar>)
    requires step > 0 && Sorted(src)
    ensures out == MultiFlowBars(src, lanes, first, end, step)
  {
    out := [];
    var idx: nat, t := 0, first;
    while t < end
      invariant idx <= |src| && (idx == 0 || SplitAt(src, idx, t))
      invariant out + MultiFlowBars(src, lanes, t, end, step) == MultiFlowBars(src, lanes, first, end, step)
      decreases end - t
    {
      var sums;
      idx, sums := SumBar(src, lanes, idx, t, t + step);
      var bar := [MultiBar(t, sums, false)];
      AppendAssociates(out, bar, MultiFlowBars(src, lanes, t + step, end, step));
      out := out + bar;
      t := t + step;
    }
  }

  /** Add up everything between the open and the close, lane by lane. */
  method SumBar(src: seq<Row>, lanes: seq<Lane>, from: nat, t: int, close: int) returns (idx: nat, sums: Lanes)
    requires Sorted(src) && from <= |src| && t <= close
    requires from == 0 || SplitAt(src, from, t)
    ensures SplitAt(src, idx, close)
    ensures sums == FlowLanes(src, lanes, t, close)
  {
    idx := from;
    sums := Zeros(lanes);
    NoFlow(src, lanes, from, t, close);
    while idx < |src| && src[idx].ts < close
      invariant idx <= |src|
      invariant forall i :: 0 <= i < idx ==> src[i].ts < close
      invariant sums == FlowLanes(src[..idx], lanes, t, close)
    {
      sums := AddRow(src, lanes, idx, sums, t, close);
      idx := idx + 1;
    }
    FlowOfSorted(src, idx, lanes, lanes, t, close);
  }

  /** The lane's numbers come from the rows, at their times. */
  lemma {:induction false} NumbersMembers(src: seq<Row>, lane: Lane, o: Observation<Float>)
    requires o in NumbersOf(src, lane)
    ensures exists i :: 0 <= i < |src| && src[i].ts == o.ts
  {
    var init, p := src[..|src|-1], src[|src|-1];
    if o in NumbersOf(init, lane) {
      NumbersMembers(init, lane, o);
      var i :| 0 <= i < |init| && init[i].ts == o.ts;
      assert src[i].ts == o.ts;
    }
  }

  lemma NumbersOutside(src: seq<Row>, lane: Lane, t: int, close: int)
    requires forall i :: 0 <= i < |src| ==> !(t <= src[i].ts < close)
    ensures Sum(NumbersOf(src, lane), t, close) == Num(0.0)
  {
    var own := NumbersOf(src, lane);
    forall i | 0 <= i < |own| ensures !(t <= own[i].ts < close) {
      NumbersMembers(src, lane, own[i]);
    }
    SumBefore(own, t, close);
  }

  method AddRow(src: seq<Row>, lanes: seq<Lane>, idx: nat, before: Lanes, t: int, close: int) returns (sums: Lanes)
    requires idx < |src| && src[idx].ts < close
    requires before == FlowLanes(src[..idx], lanes, t, close)
    ensures sums == FlowLanes(src[..idx+1], lanes, t, close)
  {
    FlowSnoc(src, idx, lanes, t, close);
    if src[idx].ts >= t {
      FlowsAre(src[..idx], lanes, lanes, t, close);
      sums := Add(before, src[idx].value, lanes);
    } else {
      sums := before;
    }
  }

  function Zeros(lanes: seq<Lane>): Lanes {
    map lane | lane in lanes :: Num(0.0)
  }

  lemma NoFlow(src: seq<Row>, lanes: seq<Lane>, from: nat, t: int, close: int)
    requires from <= |src| && (from == 0 || SplitAt(src, from, t))
    ensures FlowLanes(src[..from], lanes, t, close) == Zeros(lanes)
  {
    assert forall i :: 0 <= i < |src[..from]| ==> src[..from][i].ts < t;
    NoneFlows(src[..from], lanes, t, close);
  }

  lemma NoneFlows(none: seq<Row>, lanes: seq<Lane>, t: int, close: int)
    requires forall i :: 0 <= i < |none| ==> none[i].ts < t
    ensures FlowLanes(none, lanes, t, close) == Zeros(lanes)
  {
    FlowsAre(none, lanes, lanes, t, close);
    forall lane | lane in lanes ensures LaneFlow(none, lanes, lane, t, close) == Num(0.0) {
      NothingFlows(none, lanes, lane, t, close);
    }
  }

  lemma NothingFlows(src: seq<Row>, lanes: seq<Lane>, lane: Lane, t: int, close: int)
    requires forall i :: 0 <= i < |src| ==> src[i].ts < t
    ensures LaneFlow(src, lanes, lane, t, close) == Num(0.0)
  {
    NumbersOutside(src, lane, t, close);
    TimesNothing(Occurrences(lanes, lane));
  }

  lemma LaneOfSorted(src: seq<Row>, idx: nat, lane: Lane, t: int, close: int)
    requires SplitAt(src, idx, close)
    ensures Sum(NumbersOf(src, lane), t, close) == Sum(NumbersOf(src[..idx], lane), t, close)
  {
    var head, tail := src[..idx], src[idx..];
    assert src == head + tail;
    NumbersAppend(head, tail, lane);
    SumAppend(NumbersOf(head, lane), NumbersOf(tail, lane), t, close);
    forall i | 0 <= i < |tail| ensures tail[i].ts >= close {
      assert tail[i] == src[idx + i];
    }
    NumbersOutside(tail, lane, t, close);
    PlusNothing(Sum(NumbersOf(head, lane), t, close));
  }

  lemma PlusNothing(f: Float)
    ensures Plus(f, Num(0.0)) == f
  {
  }

  lemma {:induction false} FlowOfSorted(src: seq<Row>, idx: nat, lanes: seq<Lane>, names: seq<Lane>, t: int, close: int)
    requires SplitAt(src, idx, close)
    ensures FlowsOf(src, lanes, names, t, close) == FlowsOf(src[..idx], lanes, names, t, close)
    decreases names
  {
    if names != [] {
      var n := |names| - 1;
      FlowOfSorted(src, idx, lanes, names[..n], t, close);
      LaneOfSorted(src, idx, names[n], t, close);
    }
  }

  function Number(row: Lanes, lane: Lane): Float {
    if lane in row && !row[lane].NaN? then row[lane] else Num(0.0)
  }

  function Added(sums: Lanes, row: Lanes, lanes: seq<Lane>): Lanes {
    map lane | lane in sums :: Plus(sums[lane], Times(Occurrences(lanes, lane), Number(row, lane)))
  }

  method Add(before: Lanes, row: Lanes, lanes: seq<Lane>) returns (sums: Lanes)
    requires forall lane :: lane in lanes ==> lane in before
    ensures sums == Added(before, row, lanes)
  {
    sums := before;
    AddedNothing(before, row);
    for n := 0 to |lanes|
      invariant sums == Added(before, row, lanes[..n])
    {
      var lane := lanes[n];
      AddedSnoc(before, row, lanes, n);
      if lane in row && !row[lane].NaN? {
        sums := sums[lane := Plus(sums[lane], row[lane])];
      }
    }
    assert lanes[..|lanes|] == lanes;
  }

  lemma AddedNothing(sums: Lanes, row: Lanes)
    ensures Added(sums, row, []) == sums
  {
    forall lane | lane in sums ensures Added(sums, row, [])[lane] == sums[lane] {
      PlusNothing(sums[lane]);
    }
  }

  lemma AddedSnoc(before: Lanes, row: Lanes, lanes: seq<Lane>, n: nat)
    requires n < |lanes| && lanes[n] in before
    ensures var sums := Added(before, row, lanes[..n]);
            Added(before, row, lanes[..n+1]) == sums[lanes[n] := Plus(sums[lanes[n]], Number(row, lanes[n]))]
    ensures var sums := Added(before, row, lanes[..n]);
            Number(row, lanes[n]) == Num(0.0) ==> sums[lanes[n] := Plus(sums[lanes[n]], Num(0.0))] == sums
  {
    assert lanes[..n+1][..n] == lanes[..n];
    PlusNothing(Added(before, row, lanes[..n])[lanes[n]]);
  }

  lemma LaneSnoc(src: seq<Row>, idx: nat, lane: Lane, t: int, close: int)
    requires idx < |src| && src[idx].ts < close
    ensures Sum(NumbersOf(src[..idx+1], lane), t, close)
         == if src[idx].ts >= t then Plus(Sum(NumbersOf(src[..idx], lane), t, close), Number(src[idx].value, lane))
            else Sum(NumbersOf(src[..idx], lane), t, close)
  {
    assert src[..idx+1][..idx] == src[..idx];
    SumNumberIn(NumbersOf(src[..idx], lane), src[idx], lane, t, close);
  }

  lemma SumNumberIn(before: seq<Observation<Float>>, o: Row, lane: Lane, t: int, close: int)
    requires o.ts < close
    ensures Sum(before + NumberIn(o, lane), t, close)
         == if o.ts >= t then Plus(Sum(before, t, close), Number(o.value, lane)) else Sum(before, t, close)
  {
    SumAppend(before, NumberIn(o, lane), t, close);
    OneNumber(o, lane, t, close);
    PlusNothing(Sum(before, t, close));
  }

  lemma OneNumber(o: Row, lane: Lane, t: int, close: int)
    requires o.ts < close
    ensures Sum(NumberIn(o, lane), t, close) == if o.ts >= t then Number(o.value, lane) else Num(0.0)
  {
    if NumberIn(o, lane) != [] {
      SumOne(Observation(o.ts, o.value[lane]), t, close);
    }
  }

  lemma FlowSnoc(src: seq<Row>, idx: nat, lanes: seq<Lane>, t: int, close: int)
    requires idx < |src| && src[idx].ts < close
    ensures FlowLanes(src[..idx+1], lanes, t, close)
         == if src[idx].ts >= t then Added(FlowLanes(src[..idx], lanes, t, close), src[idx].value, lanes)
            else FlowLanes(src[..idx], lanes, t, close)
  {
    FlowsAre(src[..idx+1], lanes, lanes, t, close);
    FlowsAre(src[..idx], lanes, lanes, t, close);
    forall lane | lane in lanes
      ensures LaneFlow(src[..idx+1], lanes, lane, t, close)
           == if src[idx].ts >= t then LaneAdded(src[..idx], lanes, lane, src[idx].value, t, close)
              else LaneFlow(src[..idx], lanes, lane, t, close)
    {
      LaneSnoc(src, idx, lane, t, close);
      TimesPlus(Occurrences(lanes, lane), Sum(NumbersOf(src[..idx], lane), t, close), Number(src[idx].value, lane));
    }
  }

  function LaneAdded(src: seq<Row>, lanes: seq<Lane>, lane: Lane, row: Lanes, t: int, close: int): Float {
    Plus(LaneFlow(src, lanes, lane, t, close), Times(Occurrences(lanes, lane), Number(row, lane)))
  }
}
