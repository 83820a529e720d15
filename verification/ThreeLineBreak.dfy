/** Three-Line-Break charts: `TradeToThreeLineBreakDerived`. */
module ThreeLineBreak {
  import opened Market
  import opened Series

  /** Direction 0 is up, 1 is down. */
  datatype Line = Line(tsOpen: int, tsClose: int, open: real, close: real, volume: real, direction: nat) {
    function High(): real { if open >= close then open else close }
    function Low(): real { if open <= close then open else close }
  }

  /** Machine epsilon of a double, 2^-52: a smaller first move counts as none. */
  const EPSILON: real := 0.0000000000000002220446049250313080847263336181640625

  // ---------------------------------------------------------------------------
  // The rule, over the whole history and without direction
  // ---------------------------------------------------------------------------

  /** All lines printed so far and the one in the making. */
  datatype Chart = Chart(lines: seq<Line>, open: Option<real>, openTs: int, close: real, volume: real, lastOpenTs: int)

  const FRESH := Chart([], None, 0, 0.0, 0.0, 0)

  ghost predicate Above(price: real, lines: seq<Line>) {
    forall l :: l in lines ==> price > l.High()
  }

  ghost predicate Below(price: real, lines: seq<Line>) {
    forall l :: l in lines ==> price < l.Low()
  }

  /** The price leaves the envelope of the last `n` lines of the history; before the first line
      it only has to move. */
  ghost predicate Breaks(n: nat, c: Chart, price: real) {
    if c.lines == [] then c.open.Some? && Abs(price - c.open.value) >= EPSILON
    else Above(price, Tail(c.lines, n)) || Below(price, Tail(c.lines, n))
  }

  /** Print the line that runs from the current open to this trade. */
  function Printed(c: Chart, t: Trade): Line
    requires c.open.Some?
  {
    Line(Max(c.openTs, c.lastOpenTs + 1), t.ts, c.open.value, t.price, c.volume + t.quantity,
         if t.price > c.open.value then 0 else 1)
  }

  ghost function Step(n: nat, c: Chart, t: Trade): Chart {
    if c.open == None then Chart(c.lines, Some(t.price), t.ts, t.price, c.volume + t.quantity, c.lastOpenTs)
    else if Breaks(n, c, t.price) then
      var l := Printed(c, t);
      Chart(c.lines + [l], Some(t.price), t.ts, t.price, 0.0, l.tsOpen)
    else c.(close := t.price, volume := c.volume + t.quantity)
  }

  ghost function Run(n: nat, ts: seq<Trade>): Chart {
    if ts == [] then FRESH else Step(n, Run(n, ts[..|ts|-1]), ts[|ts|-1])
  }

  // ---------------------------------------------------------------------------
  // What every run keeps
  // ---------------------------------------------------------------------------

  ghost function LineVolume(lines: seq<Line>): real {
    if lines == [] then 0.0 else LineVolume(lines[..|lines|-1]) + lines[|lines|-1].volume
  }

  /** Line `i` continues the one before it, points where its close lies, and left the envelope
      of the `n` lines before it. */
  ghost predicate LineFits(n: nat, lines: seq<Line>, i: nat)
    requires i < |lines|
  {
    var l := lines[i];
    && l.open != l.close && l.direction == (if l.close > l.open then 0 else 1)
    && (i > 0 ==>
          && l.open == lines[i-1].close && lines[i-1].tsOpen < l.tsOpen
          && (Above(l.close, Tail(lines[..i], n)) || Below(l.close, Tail(lines[..i], n))))
  }

  ghost predicate Inv(n: nat, c: Chart) {
    && (forall i :: 0 <= i < |c.lines| ==> LineFits(n, c.lines, i))
    && (c.lines != [] ==> c.open == Some(c.lines[|c.lines|-1].close) && c.lastOpenTs == c.lines[|c.lines|-1].tsOpen)
  }

  lemma TailEndsAlike<T>(s: seq<T>, n: nat)
    requires n >= 1 && s != []
    ensures s[|s|-1] in Tail(s, n)
  {
    var t := Tail(s, n);
    assert t[|t|-1] == s[|s|-1];
  }

  lemma StepKeepsInv(n: nat, c: Chart, t: Trade)
    requires n >= 1 && Inv(n, c)
    ensures Inv(n, Step(n, c, t))
  {
    if c.open.Some? && Breaks(n, c, t.price) {
      var l := Printed(c, t);
      var lines := c.lines + [l];
      forall i | 0 <= i < |lines| ensures LineFits(n, lines, i) {
        if i < |c.lines| {
          assert LineFits(n, c.lines, i);
          assert lines[..i] == c.lines[..i];
        } else if i > 0 {
          assert lines[..i] == c.lines;
          TailEndsAlike(c.lines, n);
        }
      }
    }
  }

  lemma StepConserves(n: nat, c: Chart, t: Trade)
    ensures LineVolume(Step(n, c, t).lines) + Step(n, c, t).volume == LineVolume(c.lines) + c.volume + t.quantity
  {
    if c.open.Some? && Breaks(n, c, t.price) {
      assert (c.lines + [Printed(c, t)])[..|c.lines|] == c.lines;
    }
  }

  lemma {:induction false} RunConserves(n: nat, ts: seq<Trade>)
    ensures LineVolume(Run(n, ts).lines) + Run(n, ts).volume == Quantity(ts)
    decreases |ts|
  {
    if ts != [] {
      var init, t := ts[..|ts|-1], ts[|ts|-1];
      RunConserves(n, init);
      StepConserves(n, Run(n, init), t);
      assert ts == init + [t];
      QuantityAppend(init, [t]);
      assert Quantity([t]) == t.quantity by { assert [t][1..] == []; }
    }
  }

  lemma {:induction false} RunKeepsInv(n: nat, ts: seq<Trade>)
    requires n >= 1
    ensures Inv(n, Run(n, ts))
    decreases |ts|
  {
    if ts != [] {
      RunKeepsInv(n, ts[..|ts|-1]);
      StepKeepsInv(n, Run(n, ts[..|ts|-1]), ts[|ts|-1]);
    }
  }

  /** Over every run: each line opens at the close of the one before, its direction is the sign
      of its move, it was printed because its close left the envelope of the last `n` lines of
      the full history, open stamps strictly increase, and no volume is lost or counted twice. */
  lemma RunInvariant(n: nat, ts: seq<Trade>)
    requires n >= 1
    ensures Inv(n, Run(n, ts))
    ensures LineVolume(Run(n, ts).lines) + Run(n, ts).volume == Quantity(ts)
  {
    RunKeepsInv(n, ts);
    RunConserves(n, ts);
  }

  // ---------------------------------------------------------------------------
  // Exactly when a line is printed, and which
  // ---------------------------------------------------------------------------

  /** Where the line in the making starts: at the first trade, then where the last line ended. */
  ghost predicate OpenFits(c: Chart, ts: seq<Trade>)
    requires ts != []
  {
    if c.lines == [] then c.open == Some(ts[0].price) && c.openTs == ts[0].ts && c.lastOpenTs == 0
    else
      var last := c.lines[|c.lines|-1];
      c.open == Some(last.close) && c.openTs == last.tsClose && c.lastOpenTs == last.tsOpen
  }

  lemma {:induction false} RunOpens(n: nat, ts: seq<Trade>)
    requires ts != []
    ensures OpenFits(Run(n, ts), ts)
    decreases |ts|
  {
    var init := ts[..|ts|-1];
    if init != [] {
      RunOpens(n, init);
    }
  }

  /** The price leaves the envelope of the last `n` lines, on whichever side; before the first line it
      moves away from the first price. */
  ghost predicate Leaves(n: nat, lines: seq<Line>, first: Trade, price: real) {
    if lines == [] then Abs(price - first.price) >= EPSILON
    else Above(price, Tail(lines, n)) || Below(price, Tail(lines, n))
  }

  /** The line leads from where the last one ended to the trade, with the volume not yet printed. */
  ghost predicate LeadsTo(l: Line, lines: seq<Line>, first: Trade, t: Trade, unprinted: real) {
    && l.close == t.price && l.tsClose == t.ts && l.volume == unprinted
    && l.direction == (if l.close > l.open then 0 else 1)
    && if lines == [] then l.open == first.price && l.tsOpen == Max(first.ts, 1)
       else
         var last := lines[|lines|-1];
         l.open == last.close && l.tsOpen == Max(last.tsClose, last.tsOpen + 1)
  }

  lemma StepPrints(n: nat, c: Chart, ts: seq<Trade>, t: Trade)
    requires ts != [] && OpenFits(c, ts)
    ensures var after := Step(n, c, t).lines;
            if Leaves(n, c.lines, ts[0], t.price)
            then after == c.lines + [Printed(c, t)] && LeadsTo(Printed(c, t), c.lines, ts[0], t, c.volume + t.quantity)
            else after == c.lines
  {
  }

  /** The first trade prints nothing. From then on a trade prints a line if and only if its price leaves
      the envelope, and the line is that from the last one to the trade. */
  lemma PrintsIff(n: nat, ts: seq<Trade>, t: Trade)
    ensures Run(n, [t]).lines == []
    ensures ts != [] ==>
              var lines, after := Run(n, ts).lines, Run(n, ts + [t]).lines;
              if Leaves(n, lines, ts[0], t.price)
              then |after| == |lines| + 1 && after[..|lines|] == lines
                   && LeadsTo(after[|lines|], lines, ts[0], t, Quantity(ts + [t]) - LineVolume(lines))
              else after == lines
  {
    assert [t][..0] == [];
    if ts != [] {
      assert (ts + [t])[..|ts|] == ts;
      RunOpens(n, ts);
      RunConserves(n, ts);
      QuantityOne(ts, t);
      StepPrints(n, Run(n, ts), ts, t);
    }
  }

  lemma QuantityOne(ts: seq<Trade>, t: Trade)
    ensures Quantity(ts + [t]) == Quantity(ts) + t.quantity
  {
    QuantityAppend(ts, [t]);
    assert [t][1..] == [];
  }

  /** So the last price always lies inside the envelope of the last lines, borders included. */
  lemma LastPriceInside(n: nat, ts: seq<Trade>)
    requires n >= 1 && Run(n, ts).lines != []
    ensures var lines := Tail(Run(n, ts).lines, n);
            ts != [] && !Above(ts[|ts|-1].price, lines) && !Below(ts[|ts|-1].price, lines)
  {
    var init, t := ts[..|ts|-1], ts[|ts|-1];
    assert ts == init + [t];
    PrintsIff(n, init, t);
    TailEndsAlike(Run(n, ts).lines, n);
  }

  // ---------------------------------------------------------------------------
  // The fold, with a ring and a direction
  // ---------------------------------------------------------------------------

  class TradeToThreeLineBreakDerived {
    const linesBack: nat
    var lastLines: seq<Line>
    var currentOpen: Option<real>
    var currentOpenTs: int
    var currentClose: real
    var currentVolume: real
    var lastEmittedOpenTs: int
    /** Every line printed so far. */
    ghost var lines: seq<Line>

    ghost function View(): Chart
      reads this
    {
      Chart(lines, currentOpen, currentOpenTs, currentClose, currentVolume, lastEmittedOpenTs)
    }

    ghost predicate Valid()
      reads this
    {
      linesBack >= 1 && lastLines == Tail(lines, linesBack) && Inv(linesBack, View())
    }

    /** A key without a positive line count falls back to three. */
    constructor NewForKey(n: nat)
      ensures Valid() && View() == FRESH && linesBack == if n > 0 then n else 3
    {
      linesBack := if n > 0 then n else 3;
      lastLines, currentOpen, currentOpenTs, currentClose := [], None, 0, 0.0;
      currentVolume, lastEmittedOpenTs, lines := 0.0, 0, [];
    }

    /** Close the line in the making at the current close. */
    method EmitLine(direction: nat, tsClose: int) returns (point: Line)
      requires linesBack >= 1 && lastLines == Tail(lines, linesBack) && currentOpen.Some?
      modifies this
      ensures point == Line(Max(old(currentOpenTs), old(lastEmittedOpenTs) + 1), tsClose, old(currentOpen).value,
                            currentClose, old(currentVolume), direction)
      ensures View() == Chart(old(lines) + [point], Some(currentClose), tsClose, old(currentClose), 0.0, point.tsOpen)
      ensures lastLines == Tail(lines, linesBack)
    {
      var open, close := currentOpen.value, currentClose;
      var tsOpen := Max(currentOpenTs, lastEmittedOpenTs + 1);
      lastEmittedOpenTs := tsOpen;
      point := Line(tsOpen, tsClose, open, close, currentVolume, direction);
      lastLines := lastLines + [point];
      if |lastLines| > linesBack {
        lastLines := lastLines[1..];
      }
      TailPush(lines, point, linesBack);
      lines := lines + [point];
      currentOpen := Some(close);
      currentOpenTs := tsClose;
      currentVolume := 0.0;
    }

    method FoldTrade(point: Trade) returns (printed: Option<Line>)
      requires Valid()
      modifies this
      ensures Valid()
      ensures View() == Step(linesBack, old(View()), point)
      ensures printed == if |lines| > |old(lines)| then Some(lines[|lines|-1]) else None
    {
      ghost var c := View();
      StepKeepsInv(linesBack, c, point);
      if currentOpen == None {
        currentOpen := Some(point.price);
        currentOpenTs := point.ts;
        currentClose := point.price;
        currentVolume := currentVolume + point.quantity;
        return None;
      }
      currentClose := point.price;
      currentVolume := currentVolume + point.quantity;
      if lastLines == [] {
        var seedOpen := currentOpen.value;
        if Abs(currentClose - seedOpen) < EPSILON {
          return None;
        }
        var direction := if currentClose > seedOpen then 0 else 1;
        var first := EmitLine(direction, point.ts);
        return Some(first);
      }
      printed := BreakOut(c, point);
    }

    /** With lines on the chart: look for a continuation first, then for a reversal. */
    method BreakOut(ghost c: Chart, point: Trade) returns (printed: Option<Line>)
      requires linesBack >= 1 && lastLines == Tail(lines, linesBack) && lines != []
      requires c.open == Some(lines[|lines|-1].close)
      requires View() == c.(close := point.price, volume := c.volume + point.quantity)
      modifies this
      ensures lastLines == Tail(lines, linesBack)
      ensures View() == Step(linesBack, c, point)
      ensures printed == if |lines| > |c.lines| then Some(lines[|lines|-1]) else None
    {
      var direction := Direction(c, lastLines[|lastLines|-1].direction);
      if direction == None { return None; }
      var line := EmitLine(direction.value, point.ts);
      printed := Some(line);
    }

    /** Continuation of the last line's direction first, reversal second. */
    method Direction(ghost c: Chart, lastDir: nat) returns (d: Option<nat>)
      requires linesBack >= 1 && c.lines != [] && lastLines == Tail(c.lines, linesBack)
      requires c.open == Some(c.lines[|c.lines|-1].close)
      ensures d.Some? <==> Breaks(linesBack, c, currentClose)
      ensures d.Some? ==> d.value == if currentClose > c.open.value then 0 else 1
    {
      var maxHigh, minLow := Envelope(lastLines);
      EnvelopeDecides(linesBack, c, maxHigh, minLow, currentClose);
      if lastDir == 0 {
        if currentClose > maxHigh { return Some(0); }
        if currentClose < minLow { return Some(1); }
      } else {
        if currentClose < minLow { return Some(1); }
        if currentClose > maxHigh { return Some(0); }
      }
      d := None;
    }
  }

  ghost predicate IsEnvelope(lines: seq<Line>, maxHigh: real, minLow: real) {
    && (forall l :: l in lines ==> minLow <= l.Low() && l.High() <= maxHigh)
    && (exists l :: l in lines && l.High() == maxHigh)
    && (exists l :: l in lines && l.Low() == minLow)
  }

  method Envelope(lines: seq<Line>) returns (maxHigh: real, minLow: real)
    requires lines != []
    ensures IsEnvelope(lines, maxHigh, minLow)
  {
    maxHigh, minLow := lines[0].High(), lines[0].Low();
    for i := 1 to |lines|
      invariant forall j :: 0 <= j < i ==> minLow <= lines[j].Low() && lines[j].High() <= maxHigh
      invariant exists l :: l in lines && l.High() == maxHigh
      invariant exists l :: l in lines && l.Low() == minLow
    {
      if lines[i].High() > maxHigh { maxHigh := lines[i].High(); }
      if lines[i].Low() < minLow { minLow := lines[i].Low(); }
    }
  }

  /** The envelope of the ring decides the direction-free rule, and the side on which the price
      leaves it is the side of the last close. */
  lemma EnvelopeDecides(n: nat, c: Chart, maxHigh: real, minLow: real, price: real)
    requires n >= 1 && c.lines != [] && c.open == Some(c.lines[|c.lines|-1].close)
    requires IsEnvelope(Tail(c.lines, n), maxHigh, minLow)
    ensures minLow <= maxHigh
    ensures Breaks(n, c, price) <==> price > maxHigh || price < minLow
    ensures price > maxHigh ==> price > c.open.value
    ensures price < minLow ==> price < c.open.value
  {
    TailEndsAlike(c.lines, n);
  }
}
