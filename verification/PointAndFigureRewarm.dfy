/** What Point-and-Figure folds emit, and how a rewarm (`rewarm_pnf`) deepens a ring of it. */
module PointAndFigureRewarm {
  import opened Market
  import opened Series
  import opened PointAndFigure

  const STAMP: Column -> int := (c: Column) => c.openTime

  const ID: Column -> nat := (c: Column) => c.id

  /** Every trade emits the column it leaves open. */
  function Emissions(box: real, span: real, c: Chart, ts: seq<Trade>): seq<Column>
    requires box > 0.0
    decreases |ts|
  {
    if ts == [] then [] else Emissions(box, span, c, ts[..|ts|-1]) + [Open(Run(box, span, c, ts))]
  }

  /** The last emission of every column. */
  function Reduced(box: real, span: real, c: Chart, ts: seq<Trade>): seq<Column>
    requires box > 0.0
  {
    Dedup(Emissions(box, span, c, ts), ID)
  }

  lemma ReducedSnoc(box: real, span: real, c: Chart, ts: seq<Trade>)
    requires box > 0.0 && ts != []
    ensures Reduced(box, span, c, ts) == Merged(Reduced(box, span, c, ts[..|ts|-1]), Open(Run(box, span, c, ts)), ID)
  {
    DedupSnoc(Emissions(box, span, c, ts[..|ts|-1]), Open(Run(box, span, c, ts)), ID);
  }

  // ---------------------------------------------------------------------------
  // Columns and their last emissions
  // ---------------------------------------------------------------------------

  /** Every column comes after the first, in id and in stamp, and the counters follow the last. */
  ghost predicate Numbered(c: Chart) {
    && c.columns != [] && c.nextId == Open(c).id + 1 && c.lastOpen == Open(c).openTime
    && forall i :: 0 < i < |c.columns| ==>
         c.columns[i].id > c.columns[0].id && c.columns[i].openTime > c.columns[0].openTime
  }

  /** The first column keeps its place. */
  ghost predicate SameHead(a: Column, b: Column) {
    a.id == b.id && a.openTime == b.openTime
  }

  /** A step either updates the open column or opens the next. */
  lemma StepNumbers(box: real, span: real, c: Chart, t: Trade)
    requires box > 0.0 && Numbered(c)
    ensures var r := Step(box, span, c, t);
            && Numbered(r) && SameHead(r.columns[0], c.columns[0])
            && if Reverses(box, span, Open(c), t.price)
               then |r.columns| == |c.columns| + 1 && Open(r).id > Open(c).id && Open(r).volume == 0.0
               else |r.columns| == |c.columns| && SameHead(Open(r), Open(c))
                    && Open(r).volume == Open(c).volume + t.quantity
  {
  }

  /** The emissions of the run are those of its columns, the first `skip` of them never emitted. */
  ghost predicate Tracks(reduced: seq<Column>, c: Chart, skip: nat) {
    && Numbered(c) && skip + |reduced| == |c.columns| && reduced != []
    && reduced[|reduced|-1] == Open(c)
    && forall i :: 0 <= i < |reduced| ==> SameHead(reduced[i], c.columns[skip + i])
  }

  lemma StepTracks(box: real, span: real, reduced: seq<Column>, c: Chart, skip: nat, t: Trade)
    requires box > 0.0 && Tracks(reduced, c, skip)
    ensures Tracks(Merged(reduced, Open(Step(box, span, c, t)), ID), Step(box, span, c, t), skip)
    ensures ColumnVolume(Merged(reduced, Open(Step(box, span, c, t)), ID))
         == ColumnVolume(reduced) + (if Reverses(box, span, Open(c), t.price) then 0.0 else t.quantity)
  {
    StepNumbers(box, span, c, t);
    StepKeepsHeads(box, span, c, t);
    MergedTracks(reduced, c, Step(box, span, c, t), skip);
    MergedVolume(reduced, Open(Step(box, span, c, t)));
  }

  lemma MergedTracks(reduced: seq<Column>, c: Chart, r: Chart, skip: nat)
    requires Tracks(reduced, c, skip) && Numbered(r) && |c.columns| <= |r.columns|
    requires forall i :: 0 <= i < |c.columns| ==> SameHead(r.columns[i], c.columns[i])
    requires (|r.columns| == |c.columns| && SameHead(Open(r), Open(c)))
             || (|r.columns| == |c.columns| + 1 && Open(r).id > Open(c).id)
    ensures Tracks(Merged(reduced, Open(r), ID), r, skip)
  {
    var merged := Merged(reduced, Open(r), ID);
    forall i | 0 <= i < |merged| ensures SameHead(merged[i], r.columns[skip + i]) {
      if i < |reduced| {
        assert SameHead(reduced[i], c.columns[skip + i]);
      }
    }
  }

  lemma MergedVolume(reduced: seq<Column>, next: Column)
    requires reduced != []
    ensures ColumnVolume(Merged(reduced, next, ID))
         == ColumnVolume(reduced) + next.volume
            - (if ID(reduced[|reduced|-1]) == ID(next) then reduced[|reduced|-1].volume else 0.0)
  {
    var front := reduced[..|reduced|-1];
    assert reduced == front + [reduced[|reduced|-1]];
    assert (front + [next])[..|front|] == front && (reduced + [next])[..|reduced|] == reduced;
  }

  lemma StepKeepsHeads(box: real, span: real, c: Chart, t: Trade)
    requires box > 0.0 && Numbered(c)
    ensures var r := Step(box, span, c, t);
            |c.columns| <= |r.columns|
            && forall i :: 0 <= i < |c.columns| ==> SameHead(r.columns[i], c.columns[i])
  {
  }

  lemma ReducedOne(box: real, span: real, c: Chart, t: Trade)
    requires box > 0.0
    ensures Run(box, span, c, [t]) == Step(box, span, c, t)
    ensures Reduced(box, span, c, [t]) == [Open(Step(box, span, c, t))]
  {
    assert [t][..0] == [];
    assert Run(box, span, c, []) == c && Emissions(box, span, c, []) == [];
    ReducedSnoc(box, span, c, [t]);
  }

  /** A column's last emission comes before the trade that turns the chart, so the reduced emissions
      hold at most the traded quantity, and all of it if and only if the chart never turns. */
  lemma {:induction false} ReducedConservesIff(box: real, span: real, ts: seq<Trade>)
    requires box > 0.0 && ts != [] && forall i :: 0 <= i < |ts| ==> ts[i].quantity > 0.0
    ensures var reduced, run := Reduced(box, span, FRESH, ts), Run(box, span, FRESH, ts);
            && Tracks(reduced, run, 0)
            && ColumnVolume(reduced) <= Quantity(ts)
            && (ColumnVolume(reduced) == Quantity(ts) <==> |run.columns| == 1)
    decreases |ts|
  {
    var init, t := ts[..|ts|-1], ts[|ts|-1];
    assert ts == init + [t];
    QuantityAppend(init, [t]);
    assert [t][1..] == [];
    if init == [] {
      ReducedOne(box, span, FRESH, t);
      assert ts == [t];
      assert [Seed(box, FRESH, t)][..0] == [];
    } else {
      ReducedConservesIff(box, span, init);
      ReducedSnoc(box, span, FRESH, ts);
      StepTracks(box, span, Reduced(box, span, FRESH, init), Run(box, span, FRESH, init), 0, t);
      StepNumbers(box, span, Run(box, span, FRESH, init), t);
    }
  }

  // ---------------------------------------------------------------------------
  // Rewarm
  // ---------------------------------------------------------------------------

  function Placeholder(head: Column): Chart {
    Preset(head.bottom, head.top, head.isX)
  }

  /** What a rewarm prepends: the reduced emissions of a fold preset from the ring's first column. */
  function Rewarmed(box: real, span: real, ring: seq<Column>, ts: seq<Trade>): seq<Column>
    requires box > 0.0 && ring != []
  {
    Prepended(Reduced(box, span, Placeholder(ring[0]), ts), ring, STAMP, ID)
  }

  /** The placeholder is emitted unless the first trade turns away from it. */
  lemma {:induction false} PresetTracks(box: real, span: real, head: Column, ts: seq<Trade>)
    requires box > 0.0 && ts != []
    ensures var run := Run(box, span, Placeholder(head), ts);
            && Tracks(Reduced(box, span, Placeholder(head), ts), run,
                      if Reverses(box, span, head, ts[0].price) then 1 else 0)
            && run.columns[0].id == 0 && run.columns[0].openTime == 0
    decreases |ts|
  {
    var c, init, t := Placeholder(head), ts[..|ts|-1], ts[|ts|-1];
    if init == [] {
      assert ts == [t];
      ReducedOne(box, span, c, t);
      StepNumbers(box, span, c, t);
    } else {
      PresetTracks(box, span, head, init);
      ReducedSnoc(box, span, c, ts);
      var skip := if Reverses(box, span, head, ts[0].price) then 1 else 0;
      StepTracks(box, span, Reduced(box, span, c, init), Run(box, span, c, init), skip, t);
      StepNumbers(box, span, Run(box, span, c, init), t);
    }
  }

  /** The reduced emissions of a preset fold start with the placeholder, stamped zero, or hold only
      later columns. */
  lemma PresetStamps(box: real, span: real, head: Column, ts: seq<Trade>)
    requires box > 0.0 && ts != []
    ensures var reduced := Reduced(box, span, Placeholder(head), ts);
            && reduced != []
            && (forall i :: 0 < i < |reduced| ==> reduced[i].openTime >= 1 && reduced[i].id >= 1)
            && if Reverses(box, span, head, ts[0].price) then reduced[0].openTime >= 1 && reduced[0].id >= 1
               else reduced[0].openTime == 0 && reduced[0].id == 0
  {
    PresetTracks(box, span, head, ts);
    var reduced, run := Reduced(box, span, Placeholder(head), ts), Run(box, span, Placeholder(head), ts);
    var skip := if Reverses(box, span, head, ts[0].price) then 1 else 0;
    forall i | 0 <= i < |reduced| && skip + i > 0 ensures reduced[i].openTime >= 1 && reduced[i].id >= 1 {
      assert SameHead(reduced[i], run.columns[skip + i]);
    }
    assert SameHead(reduced[0], run.columns[skip]);
  }

  /** Behind a head stamped zero nothing is ever prepended. */
  lemma NothingBeforeZero(box: real, span: real, ring: seq<Column>, ts: seq<Trade>)
    requires box > 0.0 && ring != [] && ring[0].openTime == 0 && ring[0].id == 0
    ensures Rewarmed(box, span, ring, ts) == []
  {
    if ts != [] {
      PresetStamps(box, span, ring[0], ts);
      var reduced := Reduced(box, span, Placeholder(ring[0]), ts);
      OnlyFirstKept(reduced, ring);
    }
  }

  /** The points no later than a head that all but the first point are later than. */
  lemma {:induction false} OnlyFirstKept(reduced: seq<Column>, ring: seq<Column>)
    requires reduced != [] && ring != []
    requires forall i :: 0 < i < |reduced| ==> reduced[i].openTime > ring[0].openTime
    ensures NotAfterHead(reduced, ring, STAMP) == if reduced[0].openTime <= ring[0].openTime then [reduced[0]] else []
    decreases |reduced|
  {
    var n := |reduced| - 1;
    if n == 0 {
      assert NotAfterHead(reduced[..0], ring, STAMP) == [];
    } else {
      OnlyFirstKept(reduced[..n], ring);
    }
  }

  lemma {:induction false} FirstKept(reduced: seq<Column>, ring: seq<Column>)
    requires reduced != [] && ring != [] && reduced[0].openTime <= ring[0].openTime
    ensures NotAfterHead(reduced, ring, STAMP) != [] && NotAfterHead(reduced, ring, STAMP)[0] == reduced[0]
    decreases |reduced|
  {
    var n := |reduced| - 1;
    if n == 0 {
      assert NotAfterHead(reduced[..0], ring, STAMP) == [];
    } else {
      FirstKept(reduced[..n], ring);
    }
  }

  /** A column of the live fold or of a rewarm that turned away from its placeholder. */
  ghost predicate Dated(col: Column) {
    col.openTime >= 1 && col.id >= 1
  }

  /** What a rewarm puts in front of a dated head is dated itself, or is headed by the placeholder if
      and only if the first trade does not turn away from it. */
  lemma RewarmHead(box: real, span: real, ring: seq<Column>, ts: seq<Trade>)
    requires box > 0.0 && ring != [] && Dated(ring[0]) && ts != []
    ensures var merged := Rewarmed(box, span, ring, ts) + ring;
            if Reverses(box, span, ring[0], ts[0].price) then Dated(merged[0])
            else merged[0].openTime == 0 && merged[0].id == 0
  {
    PresetStamps(box, span, ring[0], ts);
    var reduced := Reduced(box, span, Placeholder(ring[0]), ts);
    var older, before := NotAfterHead(reduced, ring, STAMP), Rewarmed(box, span, ring, ts);
    NotAfterHeadMembers(reduced, ring, STAMP);
    if Reverses(box, span, ring[0], ts[0].price) {
      if before != [] {
        assert before[0] == older[0] && older[0] in older;
      }
    } else {
      FirstKept(reduced, ring);
      assert before != [] && before[0] == older[0];
    }
  }

  /** A rewarm of a ring with a dated head is the last one that can add anything, whatever is fetched
      later, if and only if the first trade does not turn away from the placeholder. */
  lemma RewarmEndsIff(box: real, span: real, ring: seq<Column>, ts: seq<Trade>)
    requires box > 0.0 && span > 0.0 && ring != [] && Dated(ring[0]) && ts != []
    ensures (forall more :: Rewarmed(box, span, Rewarmed(box, span, ring, ts) + ring, more) == [])
       <==> !Reverses(box, span, ring[0], ts[0].price)
  {
    var merged := Rewarmed(box, span, ring, ts) + ring;
    RewarmHead(box, span, ring, ts);
    if Reverses(box, span, ring[0], ts[0].price) {
      var head := merged[0];
      var more := [Trade(0, if head.isX then head.top else head.bottom, 0.0, 0)];
      assert !Reverses(box, span, head, more[0].price);
      RewarmHead(box, span, merged, more);
      assert Rewarmed(box, span, merged, more) != [];
    } else {
      forall more ensures Rewarmed(box, span, merged, more) == [] {
        NothingBeforeZero(box, span, merged, more);
      }
    }
  }

  /** The move that turns a fold of this configuration around. */
  function SpanOf(b: real, r: nat): real {
    (if r > 1 then r else 1) as real * b
  }

  /** The whole rewarm: a preset fold of the fetched trades, reduced and put in front of the ring. */
  method RewarmPnf(series: Series<Column>, b: real, r: nat, trades: seq<Trade>) returns (older: seq<Column>)
    requires series.Valid() && series.stamp == STAMP
    modifies series
    ensures series.Valid() && series.ring == older + old(series.ring)
    ensures b > 0.0 && old(series.ring) != [] ==>
              older == Rewarmed(b, SpanOf(b, r), old(series.ring), trades)
    ensures b <= 0.0 || old(series.ring) == [] ==> older == []
  {
    if series.ring == [] || trades == [] { return []; }
    var emissions := PresetFold(series.ring[0], b, r, trades);
    var rebuilt := RewarmDedup(emissions, ID);
    older := RewarmSplice(series, rebuilt, ID);
  }

  method PresetFold(head: Column, b: real, r: nat, trades: seq<Trade>) returns (emissions: seq<Column>)
    ensures b <= 0.0 ==> emissions == []
    ensures b > 0.0 ==> emissions == Emissions(b, SpanOf(b, r), Placeholder(head), trades)
  {
    var state := new TradeToPnfBarDerived.NewForKey(b, r);
    state.PresetGrid(head.bottom, head.top, head.isX);
    assert b > 0.0 ==> state.boxSize == b && state.reversalCount == (if r > 1 then r else 1);
    assert b > 0.0 ==> state.Span() == SpanOf(b, r);
    emissions := Fold(state, trades);
  }

  /** Feed the trades, collecting what is emitted. */
  method Fold(state: TradeToPnfBarDerived, trades: seq<Trade>) returns (emissions: seq<Column>)
    requires state.Valid()
    modifies state
    ensures state.boxSize == 0.0 ==> emissions == []
    ensures state.boxSize > 0.0 ==> emissions == Emissions(state.boxSize, state.Span(), old(state.View()), trades)
  {
    emissions := [];
    var i := 0;
    assert trades[..0] == [];
    while i < |trades|
      invariant 0 <= i <= |trades| && state.Valid()
      invariant state.boxSize == 0.0 ==> emissions == []
      invariant state.boxSize > 0.0 ==> FedSoFar(state, old(state.View()), trades[..i], emissions)
    {
      var emitted := state.OnTrade(trades[i]);
      if emitted.Some? { emissions := emissions + [emitted.value]; }
      assert trades[..i+1][..i] == trades[..i];
      i := i + 1;
    }
    assert trades[..|trades|] == trades;
  }

  ghost predicate FedSoFar(state: TradeToPnfBarDerived, start: Chart, trades: seq<Trade>, emissions: seq<Column>)
    reads state
    requires state.boxSize > 0.0
  {
    && state.View() == Run(state.boxSize, state.Span(), start, trades)
    && emissions == Emissions(state.boxSize, state.Span(), start, trades)
  }
}
