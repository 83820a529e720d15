/** Point-and-Figure columns: `TradeToPnfBarDerived`. */
module PointAndFigure {
  import opened Market

  /** X columns rise, O columns fall. */
  datatype Column = Column(openTime: int, id: nat, isX: bool, bottom: real, top: real, volume: real, trades: nat)

  /** All columns so far; the last one is open. */
  datatype Chart = Chart(columns: seq<Column>, nextId: nat, lastOpen: int)

  const FRESH := Chart([], 1, 0)

  /** Whole boxes in a distance, rounded down. */
  function Boxes(box: real, distance: real): int
    requires box > 0.0
  {
    (distance / box).Floor
  }

  lemma ScaleLess(box: real, a: real, b: real)
    requires box > 0.0
    ensures a <= b ==> a * box <= b * box
    ensures a < b ==> a * box < b * box
  {
  }

  lemma DivideMultiply(box: real, distance: real)
    requires box > 0.0
    ensures (distance / box) * box == distance
  {
  }

  lemma FloorBounds(box: real, distance: real, q: real, k: real)
    requires box > 0.0 && k <= q < k + 1.0 && q == distance / box
    ensures k * box <= distance < k * box + box
  {
    DivideMultiply(box, distance);
    assert q * box == distance;
    ScaleLess(box, k, q);
    ScaleLess(box, q, k + 1.0);
    assert (k + 1.0) * box == k * box + box;
  }

  lemma BoxesBounds(box: real, distance: real, k: int)
    requires box > 0.0 && k == Boxes(box, distance)
    ensures k as real * box <= distance < k as real * box + box
  {
    var q := distance / box;
    var n := k as real;
    assert n <= q < n + 1.0;
    FloorBounds(box, distance, q, n);
  }

  /** The distance, rounded down to whole boxes. */
  function Whole(box: real, distance: real): (w: real)
    requires box > 0.0
    ensures w <= distance < w + box
  {
    BoxesBounds(box, distance, Boxes(box, distance));
    Boxes(box, distance) as real * box
  }

  /** The height of a reversal column whose price is that far past its first box. */
  function Height(box: real, distance: real): (h: real)
    requires box > 0.0
    ensures distance >= 0.0 ==> h == Whole(box, distance) + box && h > distance
  {
    var k := Boxes(box, distance) + 1;
    FirstBoxCounts(box, distance);
    Plus(box, (k - 1) as real, 1.0);
    AtLeastOne(k) as real * box
  }

  lemma FirstBoxCounts(box: real, distance: real)
    requires box > 0.0
    ensures distance >= 0.0 ==> Boxes(box, distance) >= 0
  {
    if distance >= 0.0 {
      assert distance / box >= 0.0;
    }
  }

  function AtLeastOne(k: int): int {
    if k > 1 then k else 1
  }

  // ---------------------------------------------------------------------------
  // One trade
  // ---------------------------------------------------------------------------

  function Seed(box: real, c: Chart, t: Trade): (col: Column)
    requires box > 0.0
    ensures col.bottom <= t.price < col.top && col.top == col.bottom + box
  {
    var bottom := Whole(box, t.price);
    Column(Max(t.ts, c.lastOpen + 1), c.nextId, true, bottom, bottom + box, t.quantity, 1)
  }

  /** A chart holding only a placeholder with an emitted column's span. */
  function Preset(bottom: real, top: real, isX: bool): Chart {
    Chart([Column(0, 0, isX, bottom, top, 0.0, 0)], 1, 0)
  }

  predicate Extends(box: real, col: Column, price: real) {
    if col.isX then price >= col.top + box else price <= col.bottom - box
  }

  /** The column grown by the whole boxes the price clears. */
  function Extended(box: real, col: Column, price: real): (e: Column)
    requires box > 0.0
    ensures Extends(box, col, price) ==>
      if col.isX then col.top < e.top <= price < e.top + box
      else e.bottom - box < price <= e.bottom < col.bottom
  {
    if col.isX then col.(top := col.top + Whole(box, price - col.top))
    else col.(bottom := col.bottom - Whole(box, col.bottom - price))
  }

  predicate Reverses(box: real, span: real, col: Column, price: real) {
    && !Extends(box, col, price)
    && if col.isX then price <= col.top - span else price >= col.bottom + span
  }

  /** The opposite column a reversal opens, one box inside the old terminal; it reaches at most
      one box past the price. */
  function Reversed(box: real, span: real, c: Chart, col: Column, t: Trade): (next: Column)
    requires box > 0.0
    ensures Reverses(box, span, col, t.price) && span >= box ==>
      && next.isX != col.isX && next.bottom < next.top
      && if col.isX then next.top == col.top - box && next.bottom < t.price <= next.bottom + box
         else next.bottom == col.bottom + box && next.top - box <= t.price < next.top
  {
    var open := Max(t.ts, c.lastOpen + 1);
    if col.isX then
      var top := col.top - box;
      Column(open, c.nextId, false, top - Height(box, (col.top - box) - t.price), top, 0.0, 0)
    else
      var bottom := col.bottom + box;
      Column(open, c.nextId, true, bottom, bottom + Height(box, t.price - (col.bottom + box)), 0.0, 0)
  }

  /** The trade counts for the column it finds open, even when it turns the chart around. */
  function Counted(col: Column, t: Trade): Column {
    col.(volume := col.volume + t.quantity, trades := col.trades + 1)
  }

  function Step(box: real, span: real, c: Chart, t: Trade): (r: Chart)
    requires box > 0.0
    ensures r.columns != []
  {
    if c.columns == [] then
      var col := Seed(box, c, t);
      Chart([col], c.nextId + 1, col.openTime)
    else
      var n := |c.columns| - 1;
      var col := Counted(c.columns[n], t);
      if Extends(box, col, t.price) then c.(columns := c.columns[n := Extended(box, col, t.price)])
      else if Reverses(box, span, col, t.price) then
        var next := Reversed(box, span, c, col, t);
        Chart(c.columns[n := col] + [next], c.nextId + 1, next.openTime)
      else c.(columns := c.columns[n := col])
  }

  function Open(c: Chart): Column
    requires c.columns != []
  {
    c.columns[|c.columns|-1]
  }

  function Run(box: real, span: real, c: Chart, ts: seq<Trade>): (r: Chart)
    requires box > 0.0
    ensures ts != [] ==> r.columns != []
    decreases |ts|
  {
    if ts == [] then c else Step(box, span, Run(box, span, c, ts[..|ts|-1]), ts[|ts|-1])
  }

  // ---------------------------------------------------------------------------
  // Geometry
  // ---------------------------------------------------------------------------

  /** Strictly within one box ahead of the column's terminal and the reversal distance behind. */
  ghost predicate InBand(box: real, span: real, col: Column, price: real) {
    if col.isX then col.top - span < price < col.top + box
    else col.bottom - box < price < col.bottom + span
  }

  lemma StepEndsInBand(box: real, span: real, c: Chart, t: Trade)
    requires box > 0.0 && span >= box + box
    ensures var r := Step(box, span, c, t);
            InBand(box, span, Open(r), t.price)
  {
    if c.columns == [] {
      assert Step(box, span, c, t).columns == [Seed(box, c, t)];
    }
  }

  lemma Ordered(box: real, a: real, b: real, x: real, y: real)
    requires box > 0.0 && x == a * box && y == b * box
    ensures a <= b <==> x <= y
  {
    ScaleLess(box, a, b);
    ScaleLess(box, b, a);
  }

  lemma OneBoxLess(box: real, n: real, span: real)
    requires span == n * box
    ensures span - box == (n - 1.0) * box
  {
  }

  lemma AtLeastAsMany(box: real, k: int, n: int, h: real, span: real)
    requires box > 0.0 && h == k as real * box && span == n as real * box && h > span - box
    ensures k >= n
  {
    var m := n as real - 1.0;
    OneBoxLess(box, n as real, span);
    Ordered(box, k as real, m, h, span - box);
    assert !(k as real <= m);
  }

  lemma WholeBoxesCover(box: real, k: int, n: int, h: real, span: real)
    requires box > 0.0 && h == k as real * box && span == n as real * box && h > span - box
    ensures h >= span
  {
    AtLeastAsMany(box, k, n, h, span);
    Ordered(box, n as real, k as real, span, h);
  }

  /** A reversal column is at least as many boxes high as a reversal takes. */
  lemma HeightCoversSpan(box: real, span: real, reversal: nat, distance: real)
    requires box > 0.0 && reversal >= 1 && span == reversal as real * box && distance >= span - box >= 0.0
    ensures Height(box, distance) >= span
  {
    var k := AtLeastOne(Boxes(box, distance) + 1);
    WholeBoxesCover(box, k, reversal, Height(box, distance), span);
  }

  lemma Minus(box: real, a: real, b: real)
    ensures (a - b) * box == a * box - b * box
  {
  }

  lemma SpanInBoxes(box: real, span: real, reversal: nat)
    requires box > 0.0 && reversal >= 1 && span == reversal as real * box
    ensures span >= box && (reversal >= 2 ==> span >= box + box)
  {
    var r := reversal as real;
    ScaleLess(box, 1.0, r);
    ScaleLess(box, 2.0, r);
    assert r * box == span;
  }

  /** Only the trade counts and volumes of two columns may differ. */
  ghost predicate SameShape(a: Column, b: Column) {
    a.isX == b.isX && a.bottom == b.bottom && a.top == b.top && a.id == b.id
  }

  ghost predicate SameGeometry(a: Chart, b: Chart) {
    && |a.columns| == |b.columns| && a.nextId == b.nextId
    && forall i :: 0 <= i < |a.columns| ==> SameShape(a.columns[i], b.columns[i])
  }

  /** Exactly one box behind the column's terminal. */
  predicate OnEdge(box: real, col: Column, price: real) {
    price == if col.isX then col.top - box else col.bottom + box
  }

  /** A repeated price changes no geometry, unless a single box reverses the chart and the price lies
      exactly one box behind the terminal of the column the first trade left open. */
  lemma RepeatedPriceIsQuietIff(box: real, span: real, c: Chart, t: Trade, again: Trade)
    requires box > 0.0 && span >= box && again.price == t.price
    ensures var r := Step(box, span, c, t);
            SameGeometry(r, Step(box, span, r, again)) <==> span > box || !OnEdge(box, Open(r), t.price)
  {
    var r := Step(box, span, c, t);
    var col := Counted(Open(r), again);
    assert !Extends(box, col, t.price);
    assert Reverses(box, span, col, t.price) <==> span == box && OnEdge(box, Open(r), t.price);
  }

  /** On a fresh chart with a reversal of one box, the first price sent again turns the chart if
      and only if it is a whole number of boxes. */
  lemma FreshRepeatTurnsIff(box: real, t: Trade, again: Trade)
    requires box > 0.0 && again.price == t.price
    ensures var r := Step(box, box, FRESH, t);
            !SameGeometry(r, Step(box, box, r, again)) <==> OnGrid(0.0, box, t.price)
  {
    RepeatedPriceIsQuietIff(box, box, FRESH, t, again);
    SeedOnEdge(box, t);
    WholeIffOnGrid(box, t.price);
  }

  lemma SeedOnEdge(box: real, t: Trade)
    requires box > 0.0
    ensures OnEdge(box, Open(Step(box, box, FRESH, t)), t.price) <==> t.price == Whole(box, t.price)
  {
    assert Step(box, box, FRESH, t).columns == [Seed(box, FRESH, t)];
  }

  lemma WholeIffOnGrid(box: real, x: real)
    requires box > 0.0
    ensures x == Whole(box, x) <==> OnGrid(0.0, box, x)
  {
    assert Whole(box, x) == GridLine(0.0, box, Boxes(box, x));
    if OnGrid(0.0, box, x) {
      var k: int :| x == GridLine(0.0, box, k);
      BoxesOf(box, x, k);
    }
  }

  lemma BoxesOf(box: real, x: real, k: int)
    requires box > 0.0 && x == k as real * box
    ensures Boxes(box, x) == k
  {
    Quotient(box, x, k as real);
  }

  lemma Quotient(box: real, x: real, q: real)
    requires box > 0.0 && x == q * box
    ensures x / box == q
  {
  }

  // ---------------------------------------------------------------------------
  // Invariants of whole runs
  // ---------------------------------------------------------------------------

  lemma OnGridMoved(origin: real, box: real, x: real, n: int, w: real)
    requires OnGrid(origin, box, x) && w == n as real * box
    ensures OnGrid(origin, box, x + w) && OnGrid(origin, box, x - w)
  {
    var k: int :| x == GridLine(origin, box, k);
    Plus(box, k as real, n as real);
    Minus(box, k as real, n as real);
    assert GridLine(origin, box, k + n) == x + w;
    assert GridLine(origin, box, k - n) == x - w;
  }

  lemma Plus(box: real, a: real, b: real)
    ensures (a + b) * box == a * box + b * box
  {
  }

  /** Columns lie on one grid and are not empty; neighbours alternate, with consecutive ids and
      increasing open times, each starting one box inside the terminal of the one before and
      at least a reversal high. */
  ghost predicate ColumnFits(box: real, span: real, origin: real, columns: seq<Column>, i: nat)
    requires i < |columns|
  {
    var col := columns[i];
    && col.bottom < col.top && OnGrid(origin, box, col.bottom) && OnGrid(origin, box, col.top)
    && (i > 0 ==>
          var before := columns[i-1];
          && col.isX != before.isX && col.id == before.id + 1 && col.openTime > before.openTime
          && (if col.isX then col.bottom == before.bottom + box else col.top == before.top - box)
          && col.top - col.bottom >= span)
  }

  ghost predicate Inv(box: real, span: real, origin: real, c: Chart) {
    && c.columns != []
    && (forall i :: 0 <= i < |c.columns| ==> ColumnFits(box, span, origin, c.columns, i))
    && c.nextId == c.columns[|c.columns|-1].id + 1
    && c.lastOpen == c.columns[|c.columns|-1].openTime
  }

  /** The open column may still grow at its terminal; what fits stays fitting. */
  lemma GrownFits(box: real, span: real, origin: real, c: Chart, col: Column)
    requires Inv(box, span, origin, c)
    requires var last := c.columns[|c.columns|-1];
             && col.isX == last.isX && col.id == last.id && col.openTime == last.openTime
             && OnGrid(origin, box, col.bottom) && OnGrid(origin, box, col.top)
             && (if col.isX then col.bottom == last.bottom && last.top <= col.top
                 else col.top == last.top && col.bottom <= last.bottom)
    ensures Inv(box, span, origin, c.(columns := c.columns[|c.columns|-1 := col]))
  {
    var n := |c.columns| - 1;
    var columns := c.columns[n := col];
    forall i | 0 <= i < |columns| ensures ColumnFits(box, span, origin, columns, i) {
      assert ColumnFits(box, span, origin, c.columns, i);
    }
  }

  lemma TurnedFits(box: real, span: real, origin: real, c: Chart, next: Column)
    requires Inv(box, span, origin, c)
    requires ColumnFits(box, span, origin, c.columns + [next], |c.columns|) && next.id == c.nextId
    ensures Inv(box, span, origin, Chart(c.columns + [next], c.nextId + 1, next.openTime))
  {
    var columns := c.columns + [next];
    forall i | 0 <= i < |columns| ensures ColumnFits(box, span, origin, columns, i) {
      if i < |c.columns| {
        assert ColumnFits(box, span, origin, c.columns, i);
      }
    }
  }

  lemma ExtendedOnGrid(box: real, origin: real, col: Column, price: real)
    requires box > 0.0
    requires OnGrid(origin, box, col.bottom) && OnGrid(origin, box, col.top)
    ensures var e := Extended(box, col, price);
            OnGrid(origin, box, e.bottom) && OnGrid(origin, box, e.top)
  {
    if col.isX {
      var d := price - col.top;
      OnGridMoved(origin, box, col.top, Boxes(box, d), Whole(box, d));
    } else {
      var d := col.bottom - price;
      OnGridMoved(origin, box, col.bottom, Boxes(box, d), Whole(box, d));
    }
  }

  lemma ReversedOnGrid(box: real, span: real, origin: real, c: Chart, col: Column, t: Trade)
    requires box > 0.0 && OnGrid(origin, box, col.bottom) && OnGrid(origin, box, col.top)
    ensures var next := Reversed(box, span, c, col, t);
            OnGrid(origin, box, next.bottom) && OnGrid(origin, box, next.top)
  {
    if col.isX {
      OnGridMoved(origin, box, col.top, 1, box);
      TurnOnGrid(origin, box, col.top - box, (col.top - box) - t.price);
    } else {
      OnGridMoved(origin, box, col.bottom, 1, box);
      TurnOnGrid(origin, box, col.bottom + box, t.price - (col.bottom + box));
    }
  }

  lemma TurnOnGrid(origin: real, box: real, x: real, d: real)
    requires box > 0.0 && OnGrid(origin, box, x)
    ensures OnGrid(origin, box, x + Height(box, d)) && OnGrid(origin, box, x - Height(box, d))
  {
    OnGridMoved(origin, box, x, AtLeastOne(Boxes(box, d) + 1), Height(box, d));
  }

  lemma StepKeepsInv(box: real, span: real, reversal: nat, origin: real, c: Chart, t: Trade)
    requires box > 0.0 && reversal >= 1 && span == reversal as real * box && Inv(box, span, origin, c)
    ensures Inv(box, span, origin, Step(box, span, c, t))
  {
    var n := |c.columns| - 1;
    var col := Counted(c.columns[n], t);
    assert ColumnFits(box, span, origin, c.columns, n);
    if Extends(box, col, t.price) {
      ExtendedOnGrid(box, origin, col, t.price);
      GrownFits(box, span, origin, c, Extended(box, col, t.price));
    } else {
      GrownFits(box, span, origin, c, col);
      if Reverses(box, span, col, t.price) {
        var counted := c.(columns := c.columns[n := col]);
        NextFits(box, span, reversal, origin, counted, t);
        TurnedFits(box, span, origin, counted, Reversed(box, span, c, col, t));
      }
    }
  }

  lemma NextFits(box: real, span: real, reversal: nat, origin: real, c: Chart, t: Trade)
    requires box > 0.0 && reversal >= 1 && span == reversal as real * box && Inv(box, span, origin, c)
    requires Reverses(box, span, c.columns[|c.columns|-1], t.price)
    ensures var next := Reversed(box, span, c, c.columns[|c.columns|-1], t);
            next.id == c.nextId && ColumnFits(box, span, origin, c.columns + [next], |c.columns|)
  {
    var n := |c.columns| - 1;
    var col := c.columns[n];
    assert ColumnFits(box, span, origin, c.columns, n);
    SpanInBoxes(box, span, reversal);
    HeightCoversSpan(box, span, reversal, if col.isX then (col.top - box) - t.price else t.price - (col.bottom + box));
    ReversedOnGrid(box, span, origin, c, col, t);
  }

  ghost function ColumnVolume(columns: seq<Column>): real {
    if columns == [] then 0.0 else ColumnVolume(columns[..|columns|-1]) + columns[|columns|-1].volume
  }

  lemma StepConserves(box: real, span: real, c: Chart, t: Trade)
    requires box > 0.0
    ensures ColumnVolume(Step(box, span, c, t).columns) == ColumnVolume(c.columns) + t.quantity
  {
    var r := Step(box, span, c, t);
    if c.columns != [] {
      var n := |c.columns| - 1;
      var col := Counted(c.columns[n], t);
      var counted := c.columns[n := col];
      assert counted[..n] == c.columns[..n];
      if Extends(box, col, t.price) {
        assert r.columns[..n] == c.columns[..n];
      } else if Reverses(box, span, col, t.price) {
        assert r.columns[..n+1] == counted;
      }
    } else {
      assert r.columns[..0] == [];
    }
  }

  lemma {:induction false} RunKeepsInv(box: real, span: real, reversal: nat, origin: real, c: Chart, ts: seq<Trade>)
    requires box > 0.0 && reversal >= 1 && span == reversal as real * box
    requires Inv(box, span, origin, c) || (c == FRESH && ts != [] && origin == Seed(box, FRESH, ts[0]).bottom)
    ensures Inv(box, span, origin, Run(box, span, c, ts))
    decreases |ts|
  {
    if ts != [] {
      var init, t := ts[..|ts|-1], ts[|ts|-1];
      if init == [] && c == FRESH {
        FirstColumnFits(box, span, t);
      } else {
        RunKeepsInv(box, span, reversal, origin, c, init);
        StepKeepsInv(box, span, reversal, origin, Run(box, span, c, init), t);
      }
    }
  }

  /** A fold preset from a live column of n boxes keeps to the live grid. */
  lemma PresetRunKeepsInv(box: real, span: real, reversal: nat, live: Column, n: int, ts: seq<Trade>)
    requires box > 0.0 && reversal >= 1 && span == reversal as real * box
    requires live.bottom < live.top == live.bottom + n as real * box
    ensures Inv(box, span, live.bottom, Run(box, span, Preset(live.bottom, live.top, live.isX), ts))
  {
    assert live.bottom == GridLine(live.bottom, box, 0);
    assert live.top == GridLine(live.bottom, box, n);
    RunKeepsInv(box, span, reversal, live.bottom, Preset(live.bottom, live.top, live.isX), ts);
  }

  lemma {:induction false} RunConserves(box: real, span: real, ts: seq<Trade>)
    requires box > 0.0
    ensures ColumnVolume(Run(box, span, FRESH, ts).columns) == Quantity(ts)
    decreases |ts|
  {
    if ts != [] {
      var init, t := ts[..|ts|-1], ts[|ts|-1];
      assert ts == init + [t];
      QuantityAppend(init, [t]);
      assert Quantity([t]) == t.quantity by { assert [t][1..] == []; }
      RunConserves(box, span, init);
      StepConserves(box, span, Run(box, span, FRESH, init), t);
    }
  }

  ghost function ColumnTrades(columns: seq<Column>): nat {
    if columns == [] then 0 else ColumnTrades(columns[..|columns|-1]) + columns[|columns|-1].trades
  }

  lemma StepCounts(box: real, span: real, c: Chart, t: Trade)
    requires box > 0.0
    ensures ColumnTrades(Step(box, span, c, t).columns) == ColumnTrades(c.columns) + 1
  {
    var r := Step(box, span, c, t);
    if c.columns != [] {
      var n := |c.columns| - 1;
      var col := Counted(c.columns[n], t);
      var counted := c.columns[n := col];
      assert counted[..n] == c.columns[..n];
      if Extends(box, col, t.price) {
        assert r.columns[..n] == c.columns[..n];
      } else if Reverses(box, span, col, t.price) {
        assert r.columns[..n+1] == counted;
      }
    } else {
      assert r.columns[..0] == [];
    }
  }

  /** Every trade is counted in exactly one column. */
  lemma {:induction false} RunCounts(box: real, span: real, ts: seq<Trade>)
    requires box > 0.0
    ensures ColumnTrades(Run(box, span, FRESH, ts).columns) == |ts|
    decreases |ts|
  {
    if ts != [] {
      var init := ts[..|ts|-1];
      RunCounts(box, span, init);
      StepCounts(box, span, Run(box, span, FRESH, init), ts[|ts|-1]);
    }
  }

  /** A trade opens a column, at its own time or, if that is taken, a millisecond after the column before,
      if and only if it is the first or lies the whole reversal distance behind the open column's terminal. */
  lemma OpensIff(box: real, span: real, c: Chart, t: Trade)
    requires box > 0.0 && span >= box && (c.columns != [] ==> Open(c).bottom < Open(c).top)
    ensures var r := Step(box, span, c, t);
            && (|r.columns| > |c.columns| <==>
                  c.columns == []
                  || (if Open(c).isX then t.price <= Open(c).top - span else t.price >= Open(c).bottom + span))
            && (|r.columns| > |c.columns| ==>
                  && |r.columns| == |c.columns| + 1 && Open(r).id == c.nextId
                  && Open(r).openTime == if t.ts > c.lastOpen then t.ts else c.lastOpen + 1)
  {
  }

  lemma RunEndsInBand(box: real, span: real, ts: seq<Trade>)
    requires box > 0.0 && span >= box + box && ts != []
    ensures InBand(box, span, Open(Run(box, span, FRESH, ts)), ts[|ts|-1].price)
  {
    StepEndsInBand(box, span, Run(box, span, FRESH, ts[..|ts|-1]), ts[|ts|-1]);
  }

  /** What holds of every run of at least one trade. */
  lemma RunInvariant(box: real, span: real, reversal: nat, ts: seq<Trade>)
    requires box > 0.0 && reversal >= 1 && span == reversal as real * box && ts != []
    ensures Inv(box, span, Seed(box, FRESH, ts[0]).bottom, Run(box, span, FRESH, ts))
    ensures ColumnVolume(Run(box, span, FRESH, ts).columns) == Quantity(ts)
    ensures ColumnTrades(Run(box, span, FRESH, ts).columns) == |ts|
    ensures reversal >= 2 ==> InBand(box, span, Open(Run(box, span, FRESH, ts)), ts[|ts|-1].price)
  {
    RunKeepsInv(box, span, reversal, Seed(box, FRESH, ts[0]).bottom, FRESH, ts);
    RunConserves(box, span, ts);
    RunCounts(box, span, ts);
    if reversal >= 2 {
      SpanInBoxes(box, span, reversal);
      RunEndsInBand(box, span, ts);
    }
  }

  lemma FirstColumnFits(box: real, span: real, t: Trade)
    requires box > 0.0
    ensures Inv(box, span, Seed(box, FRESH, t).bottom, Step(box, span, FRESH, t))
  {
    var col := Seed(box, FRESH, t);
    assert col.bottom == GridLine(col.bottom, box, 0);
    assert col.top == GridLine(col.bottom, box, 1);
  }

  // ---------------------------------------------------------------------------
  // The fold
  // ---------------------------------------------------------------------------

  class TradeToPnfBarDerived {
    const boxSize: real
    const reversalCount: nat
    var cur: Option<Column>
    var nextColumnId: nat
    var lastEmittedOpenTime: int
    /** Columns already turned away from. */
    ghost var closed: seq<Column>

    ghost function View(): Chart
      reads this
    {
      Chart(if cur.Some? then closed + [cur.value] else [], nextColumnId, lastEmittedOpenTime)
    }

    function Span(): real {
      reversalCount as real * boxSize
    }

    ghost predicate Valid()
      reads this
    {
      boxSize >= 0.0 && reversalCount >= 1 && (cur == None ==> closed == [])
    }

    constructor NewForKey(b: real, r: nat)
      ensures Valid() && View() == FRESH
      ensures boxSize == (if b > 0.0 then b else 0.0)
      ensures reversalCount == if b > 0.0 then (if r > 1 then r else 1) else 3
    {
      boxSize := if b > 0.0 then b else 0.0;
      reversalCount := if b > 0.0 then (if r > 1 then r else 1) else 3;
      cur, nextColumnId, lastEmittedOpenTime, closed := None, 1, 0, [];
    }

    /** Start from the span of an already emitted column, as a placeholder without trades. */
    method PresetGrid(bottom: real, top: real, isX: bool)
      requires Valid() && cur == None
      modifies this
      ensures Valid()
      ensures old(View()) == FRESH ==> View() == Preset(bottom, top, isX)
      ensures View() == old(View()).(columns := Preset(bottom, top, isX).columns)
    {
      cur := Some(Column(0, 0, isX, bottom, top, 0.0, 0));
    }

    method OnTrade(point: Trade) returns (emitted: Option<Column>)
      requires Valid()
      modifies this
      ensures Valid()
      ensures boxSize == 0.0 ==> emitted == None && View() == old(View())
      ensures boxSize > 0.0 ==>
                && View() == Step(boxSize, Span(), old(View()), point)
                && emitted == Some(View().columns[|View().columns|-1])
    {
      if boxSize == 0.0 {
        return None;
      }
      emitted := FoldTrade(point);
    }

    method FoldTrade(point: Trade) returns (emitted: Option<Column>)
      requires Valid() && boxSize > 0.0
      modifies this
      ensures Valid()
      ensures View() == Step(boxSize, Span(), old(View()), point)
      ensures emitted == Some(View().columns[|View().columns|-1])
    {
      if cur == None {
        var bottom := (point.price / boxSize).Floor as real * boxSize;
        var openTime := Max(point.ts, lastEmittedOpenTime + 1);
        lastEmittedOpenTime := openTime;
        cur := Some(Column(openTime, nextColumnId, true, bottom, bottom + boxSize, point.quantity, 1));
        nextColumnId := nextColumnId + 1;
        return cur;
      }
      if cur.value.isX {
        FoldRising(point, Span());
      } else {
        FoldFalling(point, Span());
      }
      emitted := cur;
    }

    /** An X column extends up, or turns down. */
    method FoldRising(point: Trade, span: real)
      requires Valid() && boxSize > 0.0 && cur.Some? && cur.value.isX
      modifies this
      ensures Valid() && cur.Some?
      ensures View() == Step(boxSize, span, old(View()), point)
    {
      var col := Counted(cur.value, point);
      cur := Some(col);
      if point.price >= col.top + boxSize {
        cur := Some(col.(top := col.top + Whole(boxSize, point.price - col.top)));
      } else if point.price <= col.top - span {
        var newTop := col.top - boxSize;
        Turn(point, false, newTop - Height(boxSize, (col.top - boxSize) - point.price), newTop);
      }
    }

    /** An O column extends down, or turns up. */
    method FoldFalling(point: Trade, span: real)
      requires Valid() && boxSize > 0.0 && cur.Some? && !cur.value.isX
      modifies this
      ensures Valid() && cur.Some?
      ensures View() == Step(boxSize, span, old(View()), point)
    {
      var col := Counted(cur.value, point);
      cur := Some(col);
      if point.price <= col.bottom - boxSize {
        cur := Some(col.(bottom := col.bottom - Whole(boxSize, col.bottom - point.price)));
      } else if point.price >= col.bottom + span {
        var newBot := col.bottom + boxSize;
        Turn(point, true, newBot, newBot + Height(boxSize, point.price - (col.bottom + boxSize)));
      }
    }

    /** Open the next column. */
    method Turn(point: Trade, isX: bool, bottom: real, top: real)
      requires Valid() && cur.Some?
      modifies this
      ensures Valid() && cur.Some? && closed == old(closed) + [old(cur).value]
      ensures cur.value == Column(Max(point.ts, old(lastEmittedOpenTime) + 1), old(nextColumnId), isX,
                                  bottom, top, 0.0, 0)
      ensures nextColumnId == old(nextColumnId) + 1 && lastEmittedOpenTime == cur.value.openTime
    {
      var openTime := Max(point.ts, lastEmittedOpenTime + 1);
      lastEmittedOpenTime := openTime;
      closed := closed + [cur.value];
      cur := Some(Column(openTime, nextColumnId, isX, bottom, top, 0.0, 0));
      nextColumnId := nextColumnId + 1;
    }
  }
}
