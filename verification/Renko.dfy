/** Renko bricks: `TradeToRenkoBarDerived`. */
module Renko {
  import opened Market

  /** Where the brick grid stands: the anchor price and the direction of the last brick. */
  datatype Grid = Grid(anchor: real, dir: Option<bool>)

  /** The geometry of a brick. */
  datatype Cell = Cell(bottom: real, top: real, up: bool)

  datatype Brick = Brick(openTime: int, bottom: real, top: real, up: bool, volume: real, trades: nat) {
    function Shape(): Cell {
      Cell(bottom, top, up)
    }
  }

  // ---------------------------------------------------------------------------
  // Geometry: what one price does to the grid
  // ---------------------------------------------------------------------------

  /** One turn of the brick loop, or None where the loop breaks. */
  function Next(box: real, span: real, g: Grid, price: real): Option<(Grid, Cell)> {
    var a := g.anchor;
    if price >= a + box then
      if g.dir == Some(false) then
        if price < a + span then None
        else Some((Grid(a + box + box, Some(true)), Cell(a + box, a + box + box, true)))
      else Some((Grid(a + box, Some(true)), Cell(a, a + box, true)))
    else if price <= a - box then
      if g.dir == Some(true) then
        if price > a - span then None
        else Some((Grid(a - box - box, Some(false)), Cell(a - box - box, a - box, false)))
      else Some((Grid(a - box, Some(false)), Cell(a - box, a, false)))
    else None
  }

  /** The prices on which a reversal of one box never settles. */
  predicate Cycles(box: real, span: real, g: Grid, price: real) {
    && span == box
    && ((g.dir == Some(false) && price == g.anchor + box) || (g.dir == Some(true) && price == g.anchor - box))
  }

  /** Whole boxes between the anchor and the price: the measure of the brick loop. */
  ghost function Distance(box: real, g: Grid, price: real): nat
    requires box > 0.0
  {
    var d := if price >= g.anchor then price - g.anchor else g.anchor - price;
    DistanceNonNegative(box, d);
    (d / box).Floor
  }

  lemma DistanceNonNegative(box: real, d: real)
    requires box > 0.0 && d >= 0.0
    ensures d / box >= 0.0
  {
  }

  lemma FloorDrops(box: real, d: real, e: real)
    requires box > 0.0 && 0.0 <= e <= d - box
    ensures (e / box).Floor < (d / box).Floor
  {
    assert d / box - e / box == (d - e) / box;
    assert (d - e) / box >= 1.0;
  }

  lemma FloorBetween(box: real, d: real, e: real)
    requires box > 0.0 && 0.0 <= e < box <= d
    ensures (e / box).Floor < (d / box).Floor
  {
    QuotientDifference(box, d, box);
    QuotientDifference(box, box, e);
    DistanceNonNegative(box, d - box);
    QuotientPositive(box, box - e);
  }

  lemma QuotientDifference(box: real, d: real, e: real)
    requires box > 0.0
    ensures d / box - e / box == (d - e) / box && box / box == 1.0
  {
  }

  lemma QuotientPositive(box: real, d: real)
    requires box > 0.0 && d > 0.0
    ensures d / box > 0.0
  {
  }

  /** Every turn of the loop brings the grid a whole box nearer to the price. */
  lemma NextDecreases(box: real, span: real, g: Grid, price: real)
    requires box > 0.0 && span >= box
    requires !Cycles(box, span, g, price) && Next(box, span, g, price).Some?
    ensures var g1 := Next(box, span, g, price).value.0;
            !Cycles(box, span, g1, price) && Distance(box, g1, price) < Distance(box, g, price)
  {
    var g1 := Next(box, span, g, price).value.0;
    var d := if price >= g.anchor then price - g.anchor else g.anchor - price;
    var e := if price >= g1.anchor then price - g1.anchor else g1.anchor - price;
    if e <= d - box {
      FloorDrops(box, d, e);
    } else {
      // a reversal of one box, by a price strictly between one and two boxes away
      FloorBetween(box, d, e);
    }
  }

  /** All bricks one price creates, and the grid it leaves behind. */
  function Drain(box: real, span: real, g: Grid, price: real): (r: (Grid, seq<Cell>))
    requires box > 0.0 && span >= box && !Cycles(box, span, g, price)
    decreases Distance(box, g, price)
  {
    match Next(box, span, g, price)
    case None => (g, [])
    case Some((g1, c)) =>
      NextDecreases(box, span, g, price);
      var (g2, cs) := Drain(box, span, g1, price);
      (g2, [c] + cs)
  }

  // ---------------------------------------------------------------------------
  // Termination: exactly which prices the loop settles on
  // ---------------------------------------------------------------------------

  /** The grid after `n` turns of the loop, None once the loop has broken. */
  ghost function Turn(box: real, span: real, g: Grid, price: real, n: nat): Option<Grid>
    decreases n
  {
    if n == 0 then Some(g)
    else
      match Next(box, span, g, price)
      case None => None
      case Some((g1, _)) => Turn(box, span, g1, price, n - 1)
  }

  ghost predicate Breaks(box: real, span: real, g: Grid, price: real) {
    exists n: nat :: Turn(box, span, g, price, n).None?
  }

  /** The brick loop ends on a price if and only if that price does not sit exactly on
      the far boundary of the last brick while a single box suffices to reverse. */
  lemma BreaksIffNoCycle(box: real, span: real, g: Grid, price: real)
    requires box > 0.0 && span >= box
    ensures Breaks(box, span, g, price) <==> !Cycles(box, span, g, price)
  {
    if Cycles(box, span, g, price) {
      forall n: nat ensures Turn(box, span, g, price, n).Some? {
        CycleGoesOn(box, g, price, n);
      }
    } else {
      var n := TurnsUntilBreak(box, span, g, price);
    }
  }

  lemma {:induction false} CycleGoesOn(box: real, g: Grid, price: real, n: nat)
    requires box > 0.0 && Cycles(box, box, g, price)
    ensures Turn(box, box, g, price, n).Some?
    decreases n
  {
    if n > 0 {
      var g1 := Next(box, box, g, price).value.0;
      CycleGoesOn(box, g1, price, n - 1);
    }
  }

  lemma {:induction false} TurnsUntilBreak(box: real, span: real, g: Grid, price: real) returns (n: nat)
    requires box > 0.0 && span >= box && !Cycles(box, span, g, price)
    ensures Turn(box, span, g, price, n).None?
    decreases Distance(box, g, price)
  {
    match Next(box, span, g, price) {
      case None =>
        n := 1;
      case Some((g1, _)) =>
        NextDecreases(box, span, g, price);
        var m := TurnsUntilBreak(box, span, g1, price);
        n := m + 1;
    }
  }

  // ---------------------------------------------------------------------------
  // What every drain keeps
  // ---------------------------------------------------------------------------

  /** The price is strictly within one box ahead of the anchor, and within the reversal
      distance behind it. */
  ghost predicate InBand(box: real, span: real, g: Grid, price: real) {
    match g.dir
    case None => g.anchor - box < price < g.anchor + box
    case Some(up) =>
      if up then g.anchor - span < price < g.anchor + box
      else g.anchor - box < price < g.anchor + span
  }

  lemma {:induction false} DrainEndsInBand(box: real, span: real, g: Grid, price: real)
    requires box > 0.0 && span >= box + box
    ensures InBand(box, span, Drain(box, span, g, price).0, price)
    decreases Distance(box, g, price)
  {
    match Next(box, span, g, price) {
      case None =>
      case Some((g1, _)) =>
        NextDecreases(box, span, g, price);
        DrainEndsInBand(box, span, g1, price);
    }
  }

  /** The prices that create bricks: a whole box ahead, or the whole reversal distance behind. */
  predicate Moves(box: real, span: real, g: Grid, price: real) {
    match g.dir
    case None => price >= g.anchor + box || price <= g.anchor - box
    case Some(up) =>
      if up then price >= g.anchor + box || price <= g.anchor - span
      else price <= g.anchor - box || price >= g.anchor + span
  }

  /** Exactly when a price creates bricks; they all point to where it lies. */
  lemma {:induction false} BricksIff(box: real, span: real, g: Grid, price: real)
    requires box > 0.0 && span >= box + box
    ensures var cells := Drain(box, span, g, price).1;
            && (cells != [] <==> Moves(box, span, g, price))
            && forall c :: c in cells ==> c.up == (price > g.anchor)
    decreases Distance(box, g, price)
  {
    match Next(box, span, g, price) {
      case None =>
      case Some((g1, c)) =>
        NextDecreases(box, span, g, price);
        BricksIff(box, span, g1, price);
        assert Drain(box, span, g, price).1 == [c] + Drain(box, span, g1, price).1;
        assert Drain(box, span, g1, price).1 != [] ==> (price > g1.anchor) == (price > g.anchor);
    }
  }

  /** No brick reaches past the price that made it. */
  ghost predicate WithinReach(c: Cell, price: real) {
    if c.up then c.top <= price else price <= c.bottom
  }

  /** A brick reaches past its price exactly when it reverses the direction on less than two
      boxes, which only a reversal of one box allows. */
  lemma NextWithinReachIff(box: real, span: real, g: Grid, price: real)
    requires box > 0.0 && span >= box && Next(box, span, g, price).Some?
    ensures var (g1, c) := Next(box, span, g, price).value;
            WithinReach(c, price) <==>
              g.dir == None || g.dir == g1.dir || price - g.anchor >= box + box || g.anchor - price >= box + box
  {
    var a := g.anchor;
    var (g1, c) := Next(box, span, g, price).value;
    match g.dir {
      case None =>
      case Some(up) =>
        if up == c.up {
          assert g.dir == g1.dir;
        } else {
          assert c.bottom == (if c.up then a + box else a - box - box) && c.top == c.bottom + box;
        }
    }
  }

  lemma {:induction false} DrainNeverOvershoots(box: real, span: real, g: Grid, price: real)
    requires box > 0.0 && span >= box + box
    ensures forall c :: c in Drain(box, span, g, price).1 ==> WithinReach(c, price)
    decreases Distance(box, g, price)
  {
    match Next(box, span, g, price) {
      case None =>
      case Some((g1, c)) =>
        NextDecreases(box, span, g, price);
        DrainNeverOvershoots(box, span, g1, price);
        assert WithinReach(c, price);
        assert Drain(box, span, g, price).1 == [c] + Drain(box, span, g1, price).1;
    }
  }

  /** Consecutive bricks share one boundary and nothing else: an up brick starts on the top
      of the brick before it, a down brick hangs from the bottom of the brick before it. */
  ghost predicate Chained(box: real, cells: seq<Cell>) {
    && (forall i :: 0 <= i < |cells| ==> cells[i].top == cells[i].bottom + box)
    && (forall i :: 0 < i < |cells| ==>
          if cells[i].up then cells[i].bottom == cells[i-1].top else cells[i].top == cells[i-1].bottom)
  }

  /** The grid stands at the leading edge of the last brick. */
  ghost predicate Anchored(g: Grid, cells: seq<Cell>) {
    if cells == [] then g.dir == None
    else
      var c := cells[|cells|-1];
      g.dir == Some(c.up) && g.anchor == if c.up then c.top else c.bottom
  }

  lemma {:induction false} DrainKeepsChain(box: real, span: real, g: Grid, price: real, before: seq<Cell>)
    requires box > 0.0 && span >= box && !Cycles(box, span, g, price)
    requires Chained(box, before) && Anchored(g, before)
    ensures var (g1, cells) := Drain(box, span, g, price);
            Chained(box, before + cells) && Anchored(g1, before + cells)
    decreases Distance(box, g, price)
  {
    match Next(box, span, g, price) {
      case None =>
        assert before + [] == before;
      case Some((g1, c)) =>
        NextDecreases(box, span, g, price);
        DrainKeepsChain(box, span, g1, price, before + [c]);
        var cells := Drain(box, span, g1, price).1;
        assert before + [c] + cells == before + ([c] + cells);
    }
  }

  lemma OnGridNeighbours(origin: real, box: real, x: real)
    requires OnGrid(origin, box, x)
    ensures OnGrid(origin, box, x + box) && OnGrid(origin, box, x - box)
  {
    var k: int :| x == GridLine(origin, box, k);
    assert GridLine(origin, box, k + 1) == x + box;
    assert GridLine(origin, box, k - 1) == x - box;
  }

  lemma {:induction false} DrainStaysOnGrid(box: real, span: real, g: Grid, price: real, origin: real)
    requires box > 0.0 && span >= box && !Cycles(box, span, g, price)
    requires OnGrid(origin, box, g.anchor)
    ensures var (g1, cells) := Drain(box, span, g, price);
            && OnGrid(origin, box, g1.anchor)
            && forall c :: c in cells ==> OnGrid(origin, box, c.bottom) && OnGrid(origin, box, c.top)
    decreases Distance(box, g, price)
  {
    var a := g.anchor;
    OnGridNeighbours(origin, box, a);
    OnGridNeighbours(origin, box, a + box);
    OnGridNeighbours(origin, box, a - box);
    match Next(box, span, g, price) {
      case None =>
      case Some((g1, _)) =>
        NextDecreases(box, span, g, price);
        DrainStaysOnGrid(box, span, g1, price, origin);
    }
  }

  // ---------------------------------------------------------------------------
  // Path refinement
  // ---------------------------------------------------------------------------

  /** A price on the way to `price` splits its drain in two: the bricks up to the waypoint,
      then the rest. */
  ghost predicate SplitsAt(box: real, span: real, g: Grid, waypoint: real, price: real)
    requires box > 0.0 && span >= box + box
  {
    var (g1, first) := Drain(box, span, g, waypoint);
    var (g2, rest) := Drain(box, span, g1, price);
    Drain(box, span, g, price) == (g2, first + rest)
  }

  lemma {:induction false} SplitRising(box: real, span: real, g: Grid, waypoint: real, price: real)
    requires box > 0.0 && span >= box + box && waypoint <= price
    requires waypoint > g.anchor - box || (g.dir == Some(true) && waypoint > g.anchor - span)
    ensures SplitsAt(box, span, g, waypoint, price)
    decreases Distance(box, g, waypoint)
  {
    match Next(box, span, g, waypoint) {
      case None =>
        assert Drain(box, span, g, waypoint) == (g, []);
        assert [] + Drain(box, span, g, price).1 == Drain(box, span, g, price).1;
      case Some((g1, c)) =>
        NextDecreases(box, span, g, waypoint);
        SplitRising(box, span, g1, waypoint, price);
        assert Next(box, span, g, price) == Some((g1, c));
        var (g2, first) := Drain(box, span, g1, waypoint);
        var rest := Drain(box, span, g2, price).1;
        assert [c] + first + rest == [c] + (first + rest);
    }
  }

  lemma {:induction false} SplitFalling(box: real, span: real, g: Grid, waypoint: real, price: real)
    requires box > 0.0 && span >= box + box && waypoint >= price
    requires waypoint < g.anchor + box || (g.dir == Some(false) && waypoint < g.anchor + span)
    ensures SplitsAt(box, span, g, waypoint, price)
    decreases Distance(box, g, waypoint)
  {
    match Next(box, span, g, waypoint) {
      case None =>
        assert Drain(box, span, g, waypoint) == (g, []);
        assert [] + Drain(box, span, g, price).1 == Drain(box, span, g, price).1;
      case Some((g1, c)) =>
        NextDecreases(box, span, g, waypoint);
        SplitFalling(box, span, g1, waypoint, price);
        assert Next(box, span, g, price) == Some((g1, c));
        var (g2, first) := Drain(box, span, g1, waypoint);
        var rest := Drain(box, span, g2, price).1;
        assert [c] + first + rest == [c] + (first + rest);
    }
  }

  ghost predicate Between(x: real, from: real, to: real) {
    from <= x <= to || to <= x <= from
  }

  lemma SplitOnPath(box: real, span: real, g: Grid, last: real, waypoint: real, price: real)
    requires box > 0.0 && span >= box + box && InBand(box, span, g, last)
    requires Between(waypoint, last, price)
    ensures SplitsAt(box, span, g, waypoint, price)
  {
    if last <= price {
      SplitRising(box, span, g, waypoint, price);
    } else {
      SplitFalling(box, span, g, waypoint, price);
    }
  }

  // ---------------------------------------------------------------------------
  // Whole trades and whole runs
  // ---------------------------------------------------------------------------

  /** Bricks with their volume and time: the first brick of a trade takes everything
      accumulated, the others nothing; they open on consecutive milliseconds. */
  function Stamp(cells: seq<Cell>, volume: real, trades: nat, firstOpen: int): (bricks: seq<Brick>)
    ensures |bricks| == |cells|
  {
    seq(|cells|, i requires 0 <= i < |cells| =>
      Brick(firstOpen + i, cells[i].bottom, cells[i].top, cells[i].up,
            if i == 0 then volume else 0.0, if i == 0 then trades else 0))
  }

  ghost function Shapes(bricks: seq<Brick>): seq<Cell> {
    seq(|bricks|, i requires 0 <= i < |bricks| => bricks[i].Shape())
  }

  lemma ShapesOfStamp(cells: seq<Cell>, volume: real, trades: nat, firstOpen: int)
    ensures Shapes(Stamp(cells, volume, trades, firstOpen)) == cells
  {
    forall i | 0 <= i < |cells| ensures Shapes(Stamp(cells, volume, trades, firstOpen))[i] == cells[i] {
    }
  }

  lemma ShapesAppend(xs: seq<Brick>, ys: seq<Brick>)
    ensures Shapes(xs + ys) == Shapes(xs) + Shapes(ys)
  {
  }

  /** All mutable fields of the fold. */
  datatype State = State(grid: Grid, volume: real, trades: nat, lastOpen: int, seeded: bool)

  const FRESH := State(Grid(0.0, None), 0.0, 0, 0, false)

  /** The first trade snaps the anchor down to a multiple of the box. */
  function Seeded(box: real, s: State, price: real): Grid
    requires box > 0.0
  {
    if s.seeded then s.grid else Grid((price / box).Floor as real * box, s.grid.dir)
  }

  /** A fresh fold anchors at the last multiple of the box up to its first price; a seeded one stays. */
  lemma SeededIs(box: real, s: State, price: real)
    requires box > 0.0
    ensures var g := Seeded(box, s, price);
            && (s.seeded ==> g == s.grid)
            && (!s.seeded ==> g.dir == s.grid.dir && OnGrid(0.0, box, g.anchor) && g.anchor <= price < g.anchor + box)
  {
    var k := (price / box).Floor;
    BoxesBelow(box, price, price / box, k as real);
    assert GridLine(0.0, box, k) == k as real * box;
  }

  lemma BoxesBelow(box: real, price: real, q: real, k: real)
    requires box > 0.0 && q == price / box && k <= q < k + 1.0
    ensures k * box <= price < k * box + box
  {
    assert q * box == price;
    Times(box, k, q);
    Times(box, q, k + 1.0);
    assert (k + 1.0) * box == k * box + box;
  }

  lemma Times(box: real, a: real, b: real)
    requires box > 0.0
    ensures a <= b ==> a * box <= b * box
    ensures a < b ==> a * box < b * box
  {
  }

  predicate Settles(box: real, span: real, s: State, price: real)
    requires box > 0.0
  {
    span >= box && !Cycles(box, span, Seeded(box, s, price), price)
  }

  /** The effect of one trade: the new state and the bricks created. */
  function Step(box: real, span: real, s: State, t: Trade): (State, seq<Brick>)
    requires box > 0.0 && Settles(box, span, s, t.price)
  {
    var (g, cells) := Drain(box, span, Seeded(box, s, t.price), t.price);
    var volume := s.volume + t.quantity;
    var open := Max(t.ts, s.lastOpen + 1);
    if cells == [] then (State(g, volume, s.trades + 1, s.lastOpen, true), [])
    else (State(g, 0.0, 0, open + |cells| - 1, true), Stamp(cells, volume, s.trades + 1, open))
  }

  /** Where one box reverses, the loop can be made to cycle on a fresh object of any box size:
      the price goes up one box and comes back. */
  lemma FreshCycles(box: real, t: Trade, up: Trade)
    requires box > 0.0 && t.price == box && up.price == box + box
    ensures Settles(box, box, FRESH, t.price)
    ensures var s1 := Step(box, box, FRESH, t).0;
            && Settles(box, box, s1, up.price)
            && var s2 := Step(box, box, s1, up).0;
               Cycles(box, box, Seeded(box, s2, t.price), t.price)
  {
    assert box / box == 1.0;
    var g := Grid(box, None);
    assert Next(box, box, g, box) == None && Drain(box, box, g, box) == (g, []);
    var top := Grid(box + box, Some(true));
    assert Next(box, box, top, box + box) == None && Drain(box, box, top, box + box) == (top, []);
    assert Drain(box, box, g, box + box).0 == top;
  }

  function Run(box: real, span: real, s: State, ts: seq<Trade>): (State, seq<Brick>)
    requires box > 0.0 && span >= box + box
    decreases |ts|
  {
    if ts == [] then (s, [])
    else
      var (s1, bricks) := Step(box, span, s, ts[0]);
      var (s2, more) := Run(box, span, s1, ts[1..]);
      (s2, bricks + more)
  }

  lemma {:induction false} RunAppend(box: real, span: real, s: State, xs: seq<Trade>, ys: seq<Trade>)
    requires box > 0.0 && span >= box + box
    ensures var (s1, first) := Run(box, span, s, xs);
            var (s2, rest) := Run(box, span, s1, ys);
            Run(box, span, s, xs + ys) == (s2, first + rest)
    decreases |xs|
  {
    if xs == [] {
      assert xs + ys == ys;
      assert [] + Run(box, span, s, ys).1 == Run(box, span, s, ys).1;
    } else {
      assert (xs + ys)[0] == xs[0] && (xs + ys)[1..] == xs[1..] + ys;
      var r := Step(box, span, s, xs[0]);
      RunAppend(box, span, r.0, xs[1..], ys);
      var more := Run(box, span, r.0, xs[1..]);
      var rest := Run(box, span, more.0, ys);
      assert r.1 + more.1 + rest.1 == r.1 + (more.1 + rest.1);
    }
  }

  /** Bricks and grid depend on prices alone, never on volume or time. */
  lemma {:induction false} RunGeometry(box: real, span: real, s: State, s': State, ts: seq<Trade>)
    requires box > 0.0 && span >= box + box && s.grid == s'.grid && s.seeded && s'.seeded
    ensures var (e, bricks) := Run(box, span, s, ts);
            var (e', bricks') := Run(box, span, s', ts);
            e.grid == e'.grid && Shapes(bricks) == Shapes(bricks')
    decreases |ts|
  {
    if ts != [] {
      var (s1, b) := Step(box, span, s, ts[0]);
      var (s1', b') := Step(box, span, s', ts[0]);
      StepGeometry(box, span, s, ts[0]);
      StepGeometry(box, span, s', ts[0]);
      RunGeometry(box, span, s1, s1', ts[1..]);
      ShapesAppend(b, Run(box, span, s1, ts[1..]).1);
      ShapesAppend(b', Run(box, span, s1', ts[1..]).1);
    }
  }

  lemma StepGeometry(box: real, span: real, s: State, t: Trade)
    requires box > 0.0 && Settles(box, span, s, t.price)
    ensures var (s1, bricks) := Step(box, span, s, t);
            s1.seeded && (s1.grid, Shapes(bricks)) == Drain(box, span, Seeded(box, s, t.price), t.price)
  {
    var (g, cells) := Drain(box, span, Seeded(box, s, t.price), t.price);
    ShapesOfStamp(cells, s.volume + t.quantity, s.trades + 1, Max(t.ts, s.lastOpen + 1));
  }

  /** Path refinement. From any state, inserting a trade whose price lies between the prices
      of two consecutive trades changes neither the bricks of the run nor the final grid. */
  lemma PathRefinement(box: real, span: real, s: State, xs: seq<Trade>, a: Trade, q: Trade, b: Trade, ys: seq<Trade>)
    requires box > 0.0 && span >= box + box
    requires Between(q.price, a.price, b.price)
    ensures var (e, bricks) := Run(box, span, s, xs + [a, b] + ys);
            var (e', bricks') := Run(box, span, s, xs + [a, q, b] + ys);
            e.grid == e'.grid && Shapes(bricks) == Shapes(bricks')
  {
    var s0 := Run(box, span, s, xs).0;
    var s1 := Step(box, span, s0, a).0;
    StepGeometry(box, span, s0, a);
    DrainEndsInBand(box, span, Seeded(box, s0, a.price), a.price);
    SplitOnPath(box, span, s1.grid, a.price, q.price, b.price);

    var (sd, direct) := Step(box, span, s1, b);
    var (sq, first) := Step(box, span, s1, q);
    var (sv, rest) := Step(box, span, sq, b);
    StepGeometry(box, span, s1, b);
    StepGeometry(box, span, s1, q);
    StepGeometry(box, span, sq, b);
    assert sd.grid == sv.grid && Shapes(direct) == Shapes(first) + Shapes(rest);

    RunGeometry(box, span, sd, sv, ys);
    RunSplit(box, span, s, xs, [a, b], ys);
    RunSplit(box, span, s, xs, [a, q, b], ys);
    RunTwo(box, span, s0, a, b);
    RunTwo(box, span, s1, q, b);
    var mid := Step(box, span, s0, a).1;
    assert [a, q, b][1..] == [q, b];
    assert Run(box, span, s0, [a, q, b]) == (sv, mid + (first + rest));
    ShapesAppend(first, rest);
    ShapesAppend(mid, direct);
    ShapesAppend(mid, first + rest);
  }

  lemma RunTwo(box: real, span: real, s: State, a: Trade, b: Trade)
    requires box > 0.0 && span >= box + box
    ensures var (s1, x) := Step(box, span, s, a);
            var (s2, y) := Step(box, span, s1, b);
            Run(box, span, s, [a, b]) == (s2, x + y)
  {
    var s1 := Step(box, span, s, a).0;
    assert [a, b][1..] == [b] && [b][1..] == [];
    var (s2, y) := Step(box, span, s1, b);
    assert Run(box, span, s1, [b]) == (s2, y + []);
    assert y + [] == y;
  }

  lemma RunSplit(box: real, span: real, s: State, xs: seq<Trade>, ms: seq<Trade>, ys: seq<Trade>)
    requires box > 0.0 && span >= box + box
    ensures var (s0, b0) := Run(box, span, s, xs);
            var (s1, b1) := Run(box, span, s0, ms);
            var (s2, b2) := Run(box, span, s1, ys);
            && Run(box, span, s, xs + ms + ys).0 == s2
            && Shapes(Run(box, span, s, xs + ms + ys).1) == Shapes(b0) + Shapes(b1) + Shapes(b2)
  {
    RunAppend(box, span, s, xs + ms, ys);
    RunAppend(box, span, s, xs, ms);
    var (s0, b0) := Run(box, span, s, xs);
    var (s1, b1) := Run(box, span, s0, ms);
    var (s2, b2) := Run(box, span, s1, ys);
    ShapesAppend(b0 + b1, b2);
    ShapesAppend(b0, b1);
  }

  // ---------------------------------------------------------------------------
  // Invariants of whole runs
  // ---------------------------------------------------------------------------

  ghost function BrickVolume(bricks: seq<Brick>): real {
    if bricks == [] then 0.0 else bricks[0].volume + BrickVolume(bricks[1..])
  }

  ghost function BrickTrades(bricks: seq<Brick>): nat {
    if bricks == [] then 0 else bricks[0].trades + BrickTrades(bricks[1..])
  }

  lemma BrickSumsAppend(xs: seq<Brick>, ys: seq<Brick>)
    ensures BrickVolume(xs + ys) == BrickVolume(xs) + BrickVolume(ys)
    ensures BrickTrades(xs + ys) == BrickTrades(xs) + BrickTrades(ys)
  {
    if xs == [] {
      assert xs + ys == ys;
    } else {
      assert (xs + ys)[1..] == xs[1..] + ys;
      BrickSumsAppend(xs[1..], ys);
    }
  }

  lemma EmptyBricks(bricks: seq<Brick>)
    requires forall b :: b in bricks ==> b.volume == 0.0 && b.trades == 0
    ensures BrickVolume(bricks) == 0.0 && BrickTrades(bricks) == 0
  {
  }

  lemma StepConserves(box: real, span: real, s: State, t: Trade)
    requires box > 0.0 && Settles(box, span, s, t.price)
    ensures var (s1, bricks) := Step(box, span, s, t);
            && BrickVolume(bricks) + s1.volume == s.volume + t.quantity
            && BrickTrades(bricks) + s1.trades == s.trades + 1
  {
    var bricks := Step(box, span, s, t).1;
    if bricks != [] {
      EmptyBricks(bricks[1..]);
    }
  }

  /** Volume and trade counts end up in exactly one brick or in the accumulator. */
  lemma {:induction false} RunConserves(box: real, span: real, s: State, ts: seq<Trade>)
    requires box > 0.0 && span >= box + box
    ensures var (e, bricks) := Run(box, span, s, ts);
            && BrickVolume(bricks) + e.volume == s.volume + Quantity(ts)
            && BrickTrades(bricks) + e.trades == s.trades + |ts|
    decreases |ts|
  {
    if ts != [] {
      var (s1, bricks) := Step(box, span, s, ts[0]);
      StepConserves(box, span, s, ts[0]);
      RunConserves(box, span, s1, ts[1..]);
      BrickSumsAppend(bricks, Run(box, span, s1, ts[1..]).1);
    }
  }

  /** The first brick of a trade opens at the trade's time, or, if that is taken, a millisecond after
      the last brick; the others follow millisecond by millisecond. */
  lemma StepStamps(box: real, span: real, s: State, t: Trade)
    requires box > 0.0 && Settles(box, span, s, t.price)
    ensures var (s1, bricks) := Step(box, span, s, t);
            if bricks == [] then s1.lastOpen == s.lastOpen
            else
              && bricks[0].openTime == (if t.ts > s.lastOpen then t.ts else s.lastOpen + 1)
              && (forall i :: 0 < i < |bricks| ==> bricks[i].openTime == bricks[i-1].openTime + 1)
              && s1.lastOpen == bricks[|bricks|-1].openTime
  {
  }

  /** Open times of bricks strictly increase, whatever the timestamps of the trades. */
  lemma {:induction false} RunOpensIncrease(box: real, span: real, s: State, ts: seq<Trade>)
    requires box > 0.0 && span >= box + box
    ensures var (e, bricks) := Run(box, span, s, ts);
            && s.lastOpen <= e.lastOpen
            && (forall i :: 0 <= i < |bricks| ==> s.lastOpen < bricks[i].openTime <= e.lastOpen)
            && (forall i, j :: 0 <= i < j < |bricks| ==> bricks[i].openTime < bricks[j].openTime)
    decreases |ts|
  {
    if ts != [] {
      var (s1, bricks) := Step(box, span, s, ts[0]);
      RunOpensIncrease(box, span, s1, ts[1..]);
    }
  }

  /** All bricks of a run form one chain. */
  lemma {:induction false} RunKeepsChain(box: real, span: real, s: State, ts: seq<Trade>, before: seq<Cell>)
    requires box > 0.0 && span >= box + box
    requires s.seeded && Chained(box, before) && Anchored(s.grid, before)
    ensures var (e, bricks) := Run(box, span, s, ts);
            Chained(box, before + Shapes(bricks)) && Anchored(e.grid, before + Shapes(bricks))
    decreases |ts|
  {
    if ts == [] {
      assert before + Shapes([]) == before;
    } else {
      var (s1, bricks) := Step(box, span, s, ts[0]);
      StepGeometry(box, span, s, ts[0]);
      DrainKeepsChain(box, span, s.grid, ts[0].price, before);
      RunKeepsChain(box, span, s1, ts[1..], before + Shapes(bricks));
      var more := Run(box, span, s1, ts[1..]).1;
      ShapesAppend(bricks, more);
      assert before + Shapes(bricks) + Shapes(more) == before + (Shapes(bricks) + Shapes(more));
    }
  }

  /** All bricks of a run lie on the grid of the first anchor. */
  lemma {:induction false} RunStaysOnGrid(box: real, span: real, s: State, ts: seq<Trade>, origin: real)
    requires box > 0.0 && span >= box + box
    requires s.seeded && OnGrid(origin, box, s.grid.anchor)
    ensures forall b :: b in Run(box, span, s, ts).1 ==> OnGrid(origin, box, b.bottom)
    decreases |ts|
  {
    if ts != [] {
      var (s1, bricks) := Step(box, span, s, ts[0]);
      StepGeometry(box, span, s, ts[0]);
      DrainStaysOnGrid(box, span, s.grid, ts[0].price, origin);
      forall b | b in bricks ensures OnGrid(origin, box, b.bottom) {
        assert b.Shape() in Shapes(bricks);
      }
      RunStaysOnGrid(box, span, s1, ts[1..], origin);
    }
  }

  /** A fold that has not made a brick yet: fresh, or with the anchor preset for a rewarm. */
  ghost predicate AtStart(s: State) {
    s.grid.dir == None && s.volume == 0.0 && s.trades == 0
  }

  /** The state just before trade `i` of a run. */
  function Before(box: real, span: real, s: State, ts: seq<Trade>, i: nat): State
    requires box > 0.0 && span >= box + box && i <= |ts|
  {
    Run(box, span, s, ts[..i]).0
  }

  lemma RunChainsFromStart(box: real, span: real, s: State, ts: seq<Trade>)
    requires box > 0.0 && span >= box + box && AtStart(s) && ts != []
    ensures var bricks := Run(box, span, s, ts).1;
            && Chained(box, Shapes(bricks))
            && forall b :: b in bricks ==> OnGrid(Seeded(box, s, ts[0].price).anchor, box, b.bottom)
  {
    var g := Seeded(box, s, ts[0].price);
    var s' := State(g, s.volume, s.trades, s.lastOpen, true);
    assert Step(box, span, s', ts[0]) == Step(box, span, s, ts[0]);
    assert g.anchor == GridLine(g.anchor, box, 0);
    RunKeepsChain(box, span, s', ts, []);
    RunStaysOnGrid(box, span, s', ts, g.anchor);
    var shapes := Shapes(Run(box, span, s, ts).1);
    assert [] + shapes == shapes;
  }

  lemma RunEndsInBand(box: real, span: real, s: State, ts: seq<Trade>)
    requires box > 0.0 && span >= box + box && ts != []
    ensures InBand(box, span, Run(box, span, s, ts).0.grid, ts[|ts|-1].price)
  {
    var last := |ts| - 1;
    var p := Before(box, span, s, ts, last);
    assert ts == ts[..last] + [ts[last]] && [ts[last]][1..] == [];
    RunAppend(box, span, s, ts[..last], [ts[last]]);
    assert Run(box, span, p, [ts[last]]).0 == Step(box, span, p, ts[last]).0;
    DrainEndsInBand(box, span, Seeded(box, p, ts[last].price), ts[last].price);
  }

  /** No brick made by a trade reaches past the price of that trade. */
  lemma StepNeverOvershoots(box: real, span: real, s: State, t: Trade, b: Brick)
    requires box > 0.0 && span >= box + box && b in Step(box, span, s, t).1
    ensures WithinReach(b.Shape(), t.price)
  {
    var (g, cells) := Drain(box, span, Seeded(box, s, t.price), t.price);
    DrainNeverOvershoots(box, span, Seeded(box, s, t.price), t.price);
    var bricks := Step(box, span, s, t).1;
    var i :| 0 <= i < |bricks| && bricks[i] == b;
    assert b.Shape() == cells[i];
  }

  /** What holds of every run of at least one trade. */
  lemma RunInvariant(box: real, span: real, s: State, ts: seq<Trade>)
    requires box > 0.0 && span >= box + box && AtStart(s) && ts != []
    ensures var (e, bricks) := Run(box, span, s, ts);
            && Chained(box, Shapes(bricks))
            && (forall b :: b in bricks ==> OnGrid(Seeded(box, s, ts[0].price).anchor, box, b.bottom))
            && BrickVolume(bricks) + e.volume == Quantity(ts)
            && BrickTrades(bricks) + e.trades == |ts|
            && (forall i, j :: 0 <= i < j < |bricks| ==> bricks[i].openTime < bricks[j].openTime)
            && InBand(box, span, e.grid, ts[|ts|-1].price)
    ensures forall i, b :: 0 <= i < |ts| && b in Step(box, span, Before(box, span, s, ts, i), ts[i]).1 ==>
              WithinReach(b.Shape(), ts[i].price)
  {
    RunConserves(box, span, s, ts);
    RunOpensIncrease(box, span, s, ts);
    RunChainsFromStart(box, span, s, ts);
    RunEndsInBand(box, span, s, ts);
    forall i, b | 0 <= i < |ts| && b in Step(box, span, Before(box, span, s, ts, i), ts[i]).1
      ensures WithinReach(b.Shape(), ts[i].price)
    {
      StepNeverOvershoots(box, span, Before(box, span, s, ts, i), ts[i], b);
    }
  }

  // ---------------------------------------------------------------------------
  // The emitted series
  // ---------------------------------------------------------------------------

  function LastOf(bricks: seq<Brick>): (last: Option<Brick>) {
    if bricks == [] then None else Some(bricks[|bricks|-1])
  }

  function Listed(emitted: Option<Brick>): seq<Brick> {
    if emitted.Some? then [emitted.value] else []
  }

  /** What a run emits: of the bricks each trade creates, the last. */
  function Emitted(box: real, span: real, s: State, ts: seq<Trade>): seq<Brick>
    requires box > 0.0 && span >= box + box
    decreases |ts|
  {
    if ts == [] then []
    else
      var (s1, bricks) := Step(box, span, s, ts[0]);
      Listed(LastOf(bricks)) + Emitted(box, span, s1, ts[1..])
  }

  /** The prices that create at most one brick: a turn of three boxes or more creates several. */
  predicate OneBrick(box: real, span: real, g: Grid, price: real) {
    var a := g.anchor;
    match g.dir
    case None => a - box - box < price < a + box + box
    case Some(up) =>
      if up then price < a + box + box && (price > a - span || price > a - box - box - box)
      else price > a - box - box && (price < a + span || price < a + box + box + box)
  }

  lemma OneBrickIff(box: real, span: real, g: Grid, price: real)
    requires box > 0.0 && span >= box + box
    ensures OneBrick(box, span, g, price) <==> |Drain(box, span, g, price).1| <= 1
  {
    match Next(box, span, g, price) {
      case None =>
      case Some((g1, c)) =>
        NextDecreases(box, span, g, price);
        var cells := Drain(box, span, g1, price).1;
        assert Drain(box, span, g, price).1 == [c] + cells;
        assert cells == [] <==> Next(box, span, g1, price) == None;
    }
  }

  /** A trade loses nothing of its volume if and only if it creates at most one brick. */
  lemma StepEmits(box: real, span: real, s: State, t: Trade)
    requires box > 0.0 && span >= box + box && s.volume >= 0.0 && t.quantity > 0.0
    ensures var (s1, bricks) := Step(box, span, s, t);
            && s1.volume >= 0.0
            && BrickVolume(Listed(LastOf(bricks))) <= BrickVolume(bricks)
            && (BrickVolume(Listed(LastOf(bricks))) == BrickVolume(bricks)
                <==> OneBrick(box, span, Seeded(box, s, t.price), t.price))
            && (Listed(LastOf(bricks)) == bricks <==> OneBrick(box, span, Seeded(box, s, t.price), t.price))
  {
    OneBrickIff(box, span, Seeded(box, s, t.price), t.price);
    StepConserves(box, span, s, t);
    var bricks := Step(box, span, s, t).1;
    if bricks != [] {
      var last := bricks[|bricks|-1];
      assert [last][1..] == [] && BrickVolume([last]) == last.volume;
      assert |bricks| == 1 ==> bricks == [last];
    }
  }

  /** No trade of the run creates two bricks. */
  ghost predicate OneBrickEach(box: real, span: real, s: State, ts: seq<Trade>)
    requires box > 0.0 && span >= box + box
  {
    forall i :: 0 <= i < |ts| ==>
      OneBrick(box, span, Seeded(box, Before(box, span, s, ts, i), ts[i].price), ts[i].price)
  }

  lemma BeforeLater(box: real, span: real, s: State, ts: seq<Trade>, i: nat)
    requires box > 0.0 && span >= box + box && 0 < i <= |ts|
    ensures Before(box, span, s, ts, i) == Before(box, span, Step(box, span, s, ts[0]).0, ts[1..], i - 1)
  {
    assert ts[..i][0] == ts[0] && ts[..i][1..] == ts[1..][..i-1];
  }

  lemma OneBrickEachIs(box: real, span: real, s: State, ts: seq<Trade>)
    requires box > 0.0 && span >= box + box && ts != []
    ensures OneBrickEach(box, span, s, ts)
       <==> OneBrick(box, span, Seeded(box, s, ts[0].price), ts[0].price)
            && OneBrickEach(box, span, Step(box, span, s, ts[0]).0, ts[1..])
  {
    var s1, rest := Step(box, span, s, ts[0]).0, ts[1..];
    assert ts[..0] == [] && Before(box, span, s, ts, 0) == s;
    forall i | 0 <= i < |rest|
      ensures Before(box, span, s, ts, i + 1) == Before(box, span, s1, rest, i) && rest[i] == ts[i+1]
    {
      BeforeLater(box, span, s, ts, i + 1);
    }
    if OneBrickEach(box, span, s, ts) {
      forall i | 0 <= i < |rest|
        ensures OneBrick(box, span, Seeded(box, Before(box, span, s1, rest, i), rest[i].price), rest[i].price)
      {
        assert OneBrick(box, span, Seeded(box, Before(box, span, s, ts, i + 1), ts[i+1].price), ts[i+1].price);
      }
    }
    if OneBrickEach(box, span, s1, rest)
       && OneBrick(box, span, Seeded(box, s, ts[0].price), ts[0].price) {
      forall i | 0 <= i < |ts|
        ensures OneBrick(box, span, Seeded(box, Before(box, span, s, ts, i), ts[i].price), ts[i].price)
      {
        if i > 0 {
          assert Before(box, span, s, ts, i - 1 + 1) == Before(box, span, s1, rest, i - 1) && rest[i-1] == ts[i];
        }
      }
    }
  }

  /** The emitted bricks and the accumulator hold at most the traded quantity. They hold all of it,
      and are all the bricks, if and only if no trade creates two. */
  lemma {:induction false} EmittedConservesIff(box: real, span: real, s: State, ts: seq<Trade>)
    requires box > 0.0 && span >= box + box
    requires s.volume >= 0.0 && forall i :: 0 <= i < |ts| ==> ts[i].quantity > 0.0
    ensures var (e, bricks) := Run(box, span, s, ts);
            var held := BrickVolume(Emitted(box, span, s, ts)) + e.volume;
            && held <= s.volume + Quantity(ts)
            && (held == s.volume + Quantity(ts) <==> OneBrickEach(box, span, s, ts))
            && (Emitted(box, span, s, ts) == bricks <==> OneBrickEach(box, span, s, ts))
    decreases |ts|
  {
    if ts != [] {
      var (s1, bricks) := Step(box, span, s, ts[0]);
      var rest, last := ts[1..], Listed(LastOf(bricks));
      StepEmits(box, span, s, ts[0]);
      StepConserves(box, span, s, ts[0]);
      EmittedConservesIff(box, span, s1, rest);
      OneBrickEachIs(box, span, s, ts);
      BrickSumsAppend(last, Emitted(box, span, s1, rest));
      FewerEmitted(box, span, s1, rest);
      SameSplit(last, Emitted(box, span, s1, rest), bricks, Run(box, span, s1, rest).1);
    }
  }

  lemma {:induction false} FewerEmitted(box: real, span: real, s: State, ts: seq<Trade>)
    requires box > 0.0 && span >= box + box
    ensures |Emitted(box, span, s, ts)| <= |Run(box, span, s, ts).1|
    decreases |ts|
  {
    if ts != [] {
      FewerEmitted(box, span, Step(box, span, s, ts[0]).0, ts[1..]);
    }
  }

  lemma SameSplit<T>(a: seq<T>, b: seq<T>, c: seq<T>, d: seq<T>)
    requires |a| <= |c| && |b| <= |d|
    ensures a + b == c + d <==> a == c && b == d
  {
    if a + b == c + d {
      assert |a + b| == |c + d|;
      assert (a + b)[..|a|] == a && (c + d)[..|c|] == c;
      assert (a + b)[|a|..] == b && (c + d)[|c|..] == d;
    }
  }

  /** A fresh object can lose everything: of the two bricks of one trade the empty one is emitted. */
  lemma FreshLoses(box: real, span: real, t: Trade, u: Trade)
    requires box > 0.0 && span >= box + box && t.price == box && u.price == box + box + box
    ensures var e := Run(box, span, FRESH, [t, u]).0;
            BrickVolume(Emitted(box, span, FRESH, [t, u])) == 0.0 && e.volume == 0.0
  {
    assert box / box == 1.0;
    var g := Grid(box, None);
    assert Drain(box, span, g, box) == (g, []);
    var s1 := State(g, t.quantity, 1, 0, true);
    assert Step(box, span, FRESH, t) == (s1, []);
    RunTwo(box, span, FRESH, t, u);
    assert [t, u][1..] == [u] && [u][1..] == [];
    var bricks := Step(box, span, s1, u).1;
    var mid, top := Grid(box + box, Some(true)), Grid(box + box + box, Some(true));
    assert Drain(box, span, top, u.price) == (top, []);
    assert |Drain(box, span, mid, u.price).1| == 1;
    assert |bricks| == 2 && bricks[1].volume == 0.0;
    assert Emitted(box, span, s1, [u]) == [bricks[1]] + [] && [bricks[1]][1..] == [];
    assert Emitted(box, span, FRESH, [t, u]) == [] + Emitted(box, span, s1, [u]);
  }

  // ---------------------------------------------------------------------------
  // The fold itself
  // ---------------------------------------------------------------------------

  class TradeToRenkoBarDerived {
    const boxSize: real
    const reversalCount: nat
    var anchor: real
    var lastDir: Option<bool>
    var volAcc: real
    var tcountAcc: nat
    var lastEmittedOpenTime: int
    var seeded: bool
    /** Every brick created so far; the fold returns only the last one of each trade. */
    ghost var created: seq<Brick>

    /** The opposing move that flips the direction. */
    ghost const span: real

    ghost predicate Valid()
      reads this
    {
      boxSize >= 0.0 && reversalCount >= 1 && span == boxSize * reversalCount as real
    }

    /** A reversal of two boxes or more settles on every price. */
    lemma TwoBoxesSettle(price: real)
      requires Valid() && boxSize > 0.0 && reversalCount >= 2
      ensures span >= boxSize + boxSize && Settles(boxSize, span, View(), price)
    {
      assert boxSize * (reversalCount - 2) as real >= 0.0;
      assert span == boxSize * 2.0 + boxSize * (reversalCount - 2) as real;
    }

    function Where(): Grid
      reads this
    {
      Grid(anchor, lastDir)
    }

    function View(): State
      reads this
    {
      State(Where(), volAcc, tcountAcc, lastEmittedOpenTime, seeded)
    }

    /** A box of zero or less disables the fold; the reversal count is at least one. */
    constructor NewForKey(b: real, r: nat)
      ensures Valid() && View() == FRESH && created == []
      ensures boxSize == (if b > 0.0 then b else 0.0)
      ensures reversalCount == (if b > 0.0 && r > 1 then r else 1)
    {
      var size := if b > 0.0 then b else 0.0;
      var count := if b > 0.0 && r > 1 then r else 1;
      boxSize, reversalCount, span := size, count, size * count as real;
      anchor, lastDir := 0.0, None;
      volAcc, tcountAcc := 0.0, 0;
      lastEmittedOpenTime, seeded := 0, false;
      created := [];
    }

    /** Continue on the grid of an already emitted brick. */
    method PresetGridAnchor(gridFloor: real)
      requires Valid()
      modifies this
      ensures Valid() && created == old(created)
      ensures View() == old(View()).(grid := Grid(gridFloor, old(lastDir)), seeded := true)
    {
      anchor := gridFloor;
      seeded := true;
    }

    method OnTrade(point: Trade) returns (emitted: Option<Brick>)
      requires Valid()
      requires boxSize > 0.0 ==> Settles(boxSize, span, View(), point.price)
      modifies this
      ensures Valid()
      ensures boxSize == 0.0 ==> View() == old(View()) && created == old(created) && emitted == None
      ensures boxSize > 0.0 ==>
                var (s, bricks) := Step(boxSize, span, old(View()), point);
                && View() == s
                && created == old(created) + bricks
                && emitted == LastOf(bricks)
    {
      if boxSize == 0.0 {
        return None;
      }
      emitted := FoldTrade(point);
    }

    /** The first trade snaps the anchor down to the grid, unless a preset came first. */
    method SeedAnchor(price: real)
      requires Valid() && boxSize > 0.0
      modifies this
      ensures Valid() && created == old(created)
      ensures View() == old(View()).(grid := Seeded(boxSize, old(View()), price), seeded := true)
    {
      if !seeded {
        anchor := (price / boxSize).Floor as real * boxSize;
        seeded := true;
      }
    }

    /** Close a brick ahead of the anchor and move the anchor to its far side. */
    method MakeBrick(point: Trade, up: bool) returns (brick: Brick)
      requires Valid()
      modifies this
      ensures Valid() && seeded == old(seeded)
      ensures anchor == (if up then old(anchor) + boxSize else old(anchor) - boxSize) && lastDir == Some(up)
      ensures brick == Brick(Max(point.ts, old(lastEmittedOpenTime) + 1),
                             if up then old(anchor) else anchor, if up then anchor else old(anchor),
                             up, old(volAcc), old(tcountAcc))
      ensures volAcc == 0.0 && tcountAcc == 0 && lastEmittedOpenTime == brick.openTime
      ensures created == old(created) + [brick]
    {
      var openTime := Max(point.ts, lastEmittedOpenTime + 1);
      lastEmittedOpenTime := openTime;
      brick := if up then Brick(openTime, anchor, anchor + boxSize, true, volAcc, tcountAcc)
               else Brick(openTime, anchor - boxSize, anchor, false, volAcc, tcountAcc);
      volAcc, tcountAcc := 0.0, 0;
      anchor := if up then anchor + boxSize else anchor - boxSize;
      lastDir := Some(up);
      created := created + [brick];
    }

    /** One turn of the brick loop; None where the loop breaks. */
    method Turn(point: Trade) returns (brick: Option<Brick>)
      requires Valid() && boxSize > 0.0
      modifies this
      ensures Valid()
      ensures brick == None ==>
                && Next(boxSize, span, old(Where()), point.price) == None
                && View() == old(View()) && created == old(created)
      ensures brick.Some? ==>
                && Next(boxSize, span, old(Where()), point.price) == Some((Where(), brick.value.Shape()))
                && brick.value.openTime == Max(point.ts, old(lastEmittedOpenTime) + 1)
                && brick.value.volume == old(volAcc) && brick.value.trades == old(tcountAcc)
                && View() == State(Where(), 0.0, 0, brick.value.openTime, old(seeded))
                && created == old(created) + [brick.value]
    {
      var upTarget := anchor + boxSize;
      var downTarget := anchor - boxSize;
      if point.price >= upTarget {
        if lastDir == Some(false) {
          var needed := anchor + boxSize * reversalCount as real;
          if point.price < needed { return None; }
          anchor := anchor + boxSize;
        }
        var up := MakeBrick(point, true);
        return Some(up);
      }
      if point.price <= downTarget {
        if lastDir == Some(true) {
          var needed := anchor - boxSize * reversalCount as real;
          if point.price > needed { return None; }
          anchor := anchor - boxSize;
        }
        var down := MakeBrick(point, false);
        return Some(down);
      }
      return None;
    }

    method FoldTrade(point: Trade) returns (lastEmitted: Option<Brick>)
      requires Valid() && boxSize > 0.0 && Settles(boxSize, span, View(), point.price)
      modifies this
      ensures Valid()
      ensures var (s, bricks) := Step(boxSize, span, old(View()), point);
              && View() == s
              && created == old(created) + bricks
              && lastEmitted == LastOf(bricks)
    {
      SeedAnchor(point.price);
      volAcc := volAcc + point.quantity;
      tcountAcc := tcountAcc + 1;
      ghost var cells: seq<Cell> := [];
      lastEmitted := None;
      ProgressStart(boxSize, span, old(View()), point, View());
      while true
        invariant Valid()
        invariant Progress(boxSize, span, old(View()), point, cells, View())
        invariant created == old(created) + Made(old(View()), point, cells)
        invariant lastEmitted == if cells == [] then None else Some(created[|created|-1])
        decreases Distance(boxSize, Where(), point.price)
      {
        ghost var v := View();
        var brick := Turn(point);
        if brick == None { break; }
        lastEmitted := brick;
        ProgressNext(boxSize, span, old(View()), point, cells, v, brick.value, View());
        cells := cells + [brick.value.Shape()];
      }
      ProgressEnd(boxSize, span, old(View()), point, cells, View());
    }
  }

  /** The brick loop has turned `start` into `g` and made `cells` on the way. */
  ghost predicate Drained(box: real, span: real, start: Grid, price: real, cells: seq<Cell>, g: Grid)
    requires box > 0.0
  {
    && span >= box
    && !Cycles(box, span, start, price) && !Cycles(box, span, g, price)
    && var (end, rest) := Drain(box, span, g, price);
       Drain(box, span, start, price) == (end, cells + rest)
  }

  lemma DrainedNext(box: real, span: real, start: Grid, price: real, cells: seq<Cell>, g: Grid)
    requires box > 0.0 && Drained(box, span, start, price, cells, g)
    requires Next(box, span, g, price).Some?
    ensures var (g1, c) := Next(box, span, g, price).value;
            && Drained(box, span, start, price, cells + [c], g1)
            && Distance(box, g1, price) < Distance(box, g, price)
  {
    NextDecreases(box, span, g, price);
    var (g1, c) := Next(box, span, g, price).value;
    var rest := Drain(box, span, g1, price).1;
    assert cells + [c] + rest == cells + ([c] + rest);
  }

  /** The bricks a trade stamps onto cells, in a fold that stood at `s`. */
  ghost function Made(s: State, t: Trade, cells: seq<Cell>): (bricks: seq<Brick>)
    ensures |bricks| == |cells|
  {
    Stamp(cells, s.volume + t.quantity, s.trades + 1, Max(t.ts, s.lastOpen + 1))
  }

  /** The brick loop on trade `t`, entered from `s`, has made `cells` and stands at `v`. */
  ghost predicate Progress(box: real, span: real, s: State, t: Trade, cells: seq<Cell>, v: State)
    requires box > 0.0
  {
    && v.seeded
    && Drained(box, span, Seeded(box, s, t.price), t.price, cells, v.grid)
    && v.volume == (if cells == [] then s.volume + t.quantity else 0.0)
    && v.trades == (if cells == [] then s.trades + 1 else 0)
    && v.lastOpen == (if cells == [] then s.lastOpen else Max(t.ts, s.lastOpen + 1) + |cells| - 1)
  }

  lemma ProgressStart(box: real, span: real, s: State, t: Trade, v: State)
    requires box > 0.0 && Settles(box, span, s, t.price)
    requires v == State(Seeded(box, s, t.price), s.volume + t.quantity, s.trades + 1, s.lastOpen, true)
    ensures Progress(box, span, s, t, [], v)
  {
    var rest := Drain(box, span, v.grid, t.price).1;
    assert [] + rest == rest;
  }

  lemma ProgressNext(box: real, span: real, s: State, t: Trade, cells: seq<Cell>, v: State, b: Brick, v1: State)
    requires box > 0.0 && Progress(box, span, s, t, cells, v)
    requires Next(box, span, v.grid, t.price) == Some((v1.grid, b.Shape()))
    requires b.openTime == Max(t.ts, v.lastOpen + 1) && b.volume == v.volume && b.trades == v.trades
    requires v1 == State(v1.grid, 0.0, 0, b.openTime, true)
    ensures Progress(box, span, s, t, cells + [b.Shape()], v1)
    ensures Made(s, t, cells + [b.Shape()]) == Made(s, t, cells) + [b]
    ensures Distance(box, v1.grid, t.price) < Distance(box, v.grid, t.price)
  {
    DrainedNext(box, span, Seeded(box, s, t.price), t.price, cells, v.grid);
    StampSnoc(cells, b.Shape(), s.volume + t.quantity, s.trades + 1, Max(t.ts, s.lastOpen + 1));
  }

  lemma ProgressEnd(box: real, span: real, s: State, t: Trade, cells: seq<Cell>, v: State)
    requires box > 0.0 && Settles(box, span, s, t.price) && Progress(box, span, s, t, cells, v)
    requires Next(box, span, v.grid, t.price) == None
    ensures Step(box, span, s, t) == (v, Made(s, t, cells))
  {
    assert cells + [] == cells;
  }

  lemma StampSnoc(cells: seq<Cell>, c: Cell, volume: real, trades: nat, firstOpen: int)
    ensures Stamp(cells + [c], volume, trades, firstOpen)
         == Stamp(cells, volume, trades, firstOpen)
            + [Brick(firstOpen + |cells|, c.bottom, c.top, c.up,
                     if cells == [] then volume else 0.0, if cells == [] then trades else 0)]
  {
  }
}
