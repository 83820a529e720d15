/** Order-book replica from snapshots and chained deltas: `OrderBookTracker`. */
module OrderBook {
  import opened Market

  /** A wire number: a decimal, or a value the decimal conversion rejects. */
  datatype Number = Decimal(value: real) | NotDecimal

  datatype Level = Level(price: Number, size: Number)

  datatype Snapshot = Snapshot(bids: seq<Level>, asks: seq<Level>, lastUpdateId: Option<nat>, timestamp: int)

  datatype Delta = Delta(bids: seq<Level>, asks: seq<Level>,
                         prevUpdateId: Option<nat>, lastUpdateId: Option<nat>, timestamp: int)

  datatype BookError = SequenceGap(last: nat, got: nat) | NoSnapshot | InvalidDecimal

  datatype Outcome = Accepted | Rejected(error: BookError)

  /** One side of the book: size by price. */
  type Side = map<real, real>

  datatype Book = Book(bids: Side, asks: Side, lastUpdateId: Option<nat>, timestamp: int, hasSnapshot: bool)

  const EMPTY := Book(map[], map[], None, 0, false)

  // ---------------------------------------------------------------------------
  // What level lists mean, price by price
  // ---------------------------------------------------------------------------

  predicate Readable(l: Level) {
    l.price.Decimal? && l.size.Decimal?
  }

  predicate AllReadable(levels: seq<Level>) {
    forall l :: l in levels ==> Readable(l)
  }

  /** Number of levels before the first unreadable one. */
  function ReadablePrefix(levels: seq<Level>): (n: nat)
    ensures n <= |levels| && AllReadable(levels[..n])
    ensures n < |levels| ==> !Readable(levels[n])
  {
    if levels == [] || !Readable(levels[0]) then 0 else
      var n := 1 + ReadablePrefix(levels[1..]);
      assert levels[..n] == [levels[0]] + levels[1..][..n-1];
      n
  }

  /** The size the last level at this price gives, among the positive ones if so asked. */
  ghost function LastSize(levels: seq<Level>, price: real, positiveOnly: bool): Option<real>
    requires AllReadable(levels)
  {
    if levels == [] then None
    else
      var l := levels[|levels|-1];
      assert Readable(l);
      if l.price.value == price && (positiveOnly ==> l.size.value > 0.0) then Some(l.size.value)
      else LastSize(levels[..|levels|-1], price, positiveOnly)
  }

  ghost function Prices(levels: seq<Level>): set<real>
    requires AllReadable(levels)
  {
    set l | l in levels :: l.price.value
  }

  /** A snapshot side: at each price the last positive size listed. */
  ghost function SideFrom(levels: seq<Level>): Side
    requires AllReadable(levels)
  {
    map p | p in Prices(levels) && LastSize(levels, p, true).Some? :: LastSize(levels, p, true).value
  }

  /** A side after a delta: a price the delta mentions takes its last size, zero meaning
      absent; any other price keeps its size. */
  ghost function SideAfter(side: Side, levels: seq<Level>): Side
    requires AllReadable(levels)
  {
    map p | p in side.Keys + Prices(levels) && SizeAfter(side, levels, p) != 0.0 :: SizeAfter(side, levels, p)
  }

  ghost function SizeAfter(side: Side, levels: seq<Level>, p: real): real
    requires AllReadable(levels)
  {
    match LastSize(levels, p, false)
    case Some(q) => q
    case None => if p in side then side[p] else 0.0
  }

  /** Sides never hold a zero size. */
  ghost predicate NoZero(side: Side) {
    forall p :: p in side ==> side[p] != 0.0
  }

  lemma PricesSnoc(levels: seq<Level>, l: Level)
    requires AllReadable(levels) && Readable(l)
    ensures AllReadable(levels + [l])
    ensures Prices(levels + [l]) == Prices(levels) + {l.price.value}
  {
    var more := levels + [l];
    forall p ensures p in Prices(more) <==> p in Prices(levels) || p == l.price.value {
      if p == l.price.value { assert l in more; }
      if p in Prices(levels) { var k :| k in levels && k.price.value == p; assert k in more; }
    }
  }

  lemma SideFromSnoc(levels: seq<Level>, l: Level)
    requires AllReadable(levels) && Readable(l)
    ensures AllReadable(levels + [l])
    ensures SideFrom(levels + [l])
         == if l.size.value > 0.0 then SideFrom(levels)[l.price.value := l.size.value] else SideFrom(levels)
  {
    var more := levels + [l];
    assert more[..|more|-1] == levels;
    PricesSnoc(levels, l);
    LastSizePrices(levels, true);
  }

  /** Only listed prices have a last size. */
  lemma LastSizePrices(levels: seq<Level>, positiveOnly: bool)
    requires AllReadable(levels)
    ensures forall p :: LastSize(levels, p, positiveOnly).Some? ==> p in Prices(levels)
  {
    if levels != [] {
      LastSizePrices(levels[..|levels|-1], positiveOnly);
    }
  }

  lemma SideAfterSnoc(side: Side, levels: seq<Level>, l: Level)
    requires NoZero(side) && AllReadable(levels) && Readable(l)
    ensures AllReadable(levels + [l])
    ensures SideAfter(side, levels + [l])
         == if l.size.value == 0.0 then SideAfter(side, levels) - {l.price.value}
            else SideAfter(side, levels)[l.price.value := l.size.value]
  {
    var more := levels + [l];
    assert more[..|more|-1] == levels;
    PricesSnoc(levels, l);
  }

  // ---------------------------------------------------------------------------
  // Effect of one message
  // ---------------------------------------------------------------------------

  /** A snapshot replaces the book. An unreadable level stops it half way: the levels
      before it are in, and the identity of the old book stays. */
  ghost function AfterSnapshot(b: Book, s: Snapshot): (Book, Outcome) {
    var nb := ReadablePrefix(s.bids);
    var na := ReadablePrefix(s.asks);
    if nb < |s.bids| then
      (b.(bids := SideFrom(s.bids[..nb]), asks := map[]), Rejected(InvalidDecimal))
    else if na < |s.asks| then
      (b.(bids := SideFrom(s.bids[..nb]), asks := SideFrom(s.asks[..na])), Rejected(InvalidDecimal))
    else
      (Book(SideFrom(s.bids[..nb]), SideFrom(s.asks[..na]), s.lastUpdateId, s.timestamp, true), Accepted)
  }

  predicate IsGap(b: Book, d: Delta) {
    b.lastUpdateId.Some? && d.prevUpdateId.Some? && d.prevUpdateId != b.lastUpdateId
  }

  ghost function AfterDelta(b: Book, d: Delta): (Book, Outcome) {
    var nb := ReadablePrefix(d.bids);
    var na := ReadablePrefix(d.asks);
    if !b.hasSnapshot then (b, Rejected(NoSnapshot))
    else if IsGap(b, d) then (b, Rejected(SequenceGap(b.lastUpdateId.value, d.prevUpdateId.value)))
    else if nb < |d.bids| then
      (b.(bids := SideAfter(b.bids, d.bids[..nb])), Rejected(InvalidDecimal))
    else if na < |d.asks| then
      (b.(bids := SideAfter(b.bids, d.bids[..nb]), asks := SideAfter(b.asks, d.asks[..na])), Rejected(InvalidDecimal))
    else
      (Book(SideAfter(b.bids, d.bids[..nb]), SideAfter(b.asks, d.asks[..na]),
            if d.lastUpdateId.Some? then d.lastUpdateId else b.lastUpdateId, d.timestamp, true), Accepted)
  }

  class OrderBookTracker {
    var bids: Side
    var asks: Side
    var lastUpdateId: Option<nat>
    var lastTimestampMs: int
    var hasSnapshot: bool

    function View(): Book
      reads this
    {
      Book(bids, asks, lastUpdateId, lastTimestampMs, hasSnapshot)
    }

    ghost predicate Valid()
      reads this
    {
      NoZero(bids) && NoZero(asks)
    }

    constructor ()
      ensures Valid() && View() == EMPTY
    {
      bids, asks, lastUpdateId, lastTimestampMs, hasSnapshot := map[], map[], None, 0, false;
    }

    method ApplySnapshot(snapshot: Snapshot) returns (r: Outcome)
      requires Valid()
      modifies this
      ensures Valid()
      ensures (View(), r) == AfterSnapshot(old(View()), snapshot)
    {
      bids, asks := map[], map[];
      var ok;
      bids, ok := FillSide(snapshot.bids);
      if !ok { return Rejected(InvalidDecimal); }
      asks, ok := FillSide(snapshot.asks);
      if !ok { return Rejected(InvalidDecimal); }
      lastUpdateId := snapshot.lastUpdateId;
      lastTimestampMs := snapshot.timestamp;
      hasSnapshot := true;
      r := Accepted;
    }

    method ApplyDelta(delta: Delta) returns (r: Outcome)
      requires Valid()
      modifies this
      ensures Valid()
      ensures (View(), r) == AfterDelta(old(View()), delta)
    {
      if !hasSnapshot { return Rejected(NoSnapshot); }
      if lastUpdateId.Some? && delta.prevUpdateId.Some? {
        if delta.prevUpdateId.value != lastUpdateId.value {
          return Rejected(SequenceGap(lastUpdateId.value, delta.prevUpdateId.value));
        }
      }
      var ok;
      bids, ok := UpdateSide(bids, delta.bids);
      if !ok { return Rejected(InvalidDecimal); }
      asks, ok := UpdateSide(asks, delta.asks);
      if !ok { return Rejected(InvalidDecimal); }
      if delta.lastUpdateId.Some? {
        lastUpdateId := delta.lastUpdateId;
      }
      lastTimestampMs := delta.timestamp;
      r := Accepted;
    }

    /** The best bid and the best ask, if both sides have a level. */
    method Bbo() returns (best: Option<(real, real)>)
      ensures best == None <==> bids == map[] || asks == map[]
      ensures best.Some? ==>
                && best.value.0 in bids && (forall p :: p in bids ==> p <= best.value.0)
                && best.value.1 in asks && (forall p :: p in asks ==> best.value.1 <= p)
    {
      var b := Ladder(bids, true, 1);
      var a := Ladder(asks, false, 1);
      if b == [] || a == [] { return None; }
      best := Some((b[0].0, a[0].0));
    }

    method TopBids(n: nat) returns (levels: seq<(real, real)>)
      ensures IsLadder(bids, true, n, levels)
    {
      levels := Ladder(bids, true, n);
    }

    method TopAsks(n: nat) returns (levels: seq<(real, real)>)
      ensures IsLadder(asks, false, n, levels)
    {
      levels := Ladder(asks, false, n);
    }

    method Reset()
      modifies this
      ensures Valid() && View() == EMPTY
    {
      bids, asks, lastUpdateId, lastTimestampMs, hasSnapshot := map[], map[], None, 0, false;
    }
  }

  predicate Better(descending: bool, p: real, q: real) {
    if descending then p > q else p < q
  }

  /** The best `n` levels of a side, best first. */
  ghost predicate IsLadder(side: Side, descending: bool, n: nat, levels: seq<(real, real)>) {
    && |levels| == (if n <= |side| then n else |side|)
    && (forall i :: 0 <= i < |levels| ==> levels[i].0 in side && levels[i].1 == side[levels[i].0])
    && (forall i, j :: 0 <= i < j < |levels| ==> Better(descending, levels[i].0, levels[j].0))
    && (forall p, i :: p in side && 0 <= i < |levels| && (forall j :: 0 <= j < |levels| ==> levels[j].0 != p) ==>
          Better(descending, levels[i].0, p))
  }

  /** Walk a side in price order. */
  method Ladder(side: Side, descending: bool, n: nat) returns (levels: seq<(real, real)>)
    ensures IsLadder(side, descending, n, levels)
  {
    levels := [];
    var rest := side.Keys;
    while |levels| < n && rest != {}
      invariant |levels| <= n && |levels| + |rest| == |side| && rest <= side.Keys
      invariant forall i :: 0 <= i < |levels| ==> levels[i].0 in side && levels[i].1 == side[levels[i].0]
      invariant forall p :: p in side && p !in rest ==> exists i :: 0 <= i < |levels| && levels[i].0 == p
      invariant forall i, j :: 0 <= i < j < |levels| ==> Better(descending, levels[i].0, levels[j].0)
      invariant forall i, p :: 0 <= i < |levels| && p in rest ==> Better(descending, levels[i].0, p)
    {
      var best := Best(rest, descending);
      ghost var before := levels;
      levels := levels + [(best, side[best])];
      forall p | p in side && p !in rest - {best}
        ensures exists i :: 0 <= i < |levels| && levels[i].0 == p
      {
        if p != best {
          var i :| 0 <= i < |before| && before[i].0 == p;
          assert levels[i].0 == p;
        } else {
          assert levels[|before|].0 == p;
        }
      }
      rest := rest - {best};
    }
  }

  method Best(prices: set<real>, descending: bool) returns (best: real)
    requires prices != {}
    ensures best in prices && forall p :: p in prices ==> p == best || Better(descending, best, p)
  {
    ghost var some := Inhabitant(prices);
    best :| best in prices;
    var rest := prices - {best};
    while rest != {}
      invariant rest <= prices && best in prices
      invariant forall p :: p in prices && p !in rest ==> p == best || Better(descending, best, p)
      decreases rest
    {
      ghost var other := Inhabitant(rest);
      var p :| p in rest;
      if Better(descending, p, best) {
        best := p;
      }
      rest := rest - {p};
    }
  }

  method FillSide(levels: seq<Level>) returns (side: Side, ok: bool)
    ensures NoZero(side)
    ensures side == SideFrom(levels[..ReadablePrefix(levels)])
    ensures ok <==> ReadablePrefix(levels) == |levels|
  {
    side := map[];
    var i := 0;
    assert levels[..0] == [];
    while i < |levels|
      invariant 0 <= i <= ReadablePrefix(levels)
      invariant AllReadable(levels[..i]) && NoZero(side) && side == SideFrom(levels[..i])
    {
      var l := levels[i];
      if l.price == NotDecimal || l.size == NotDecimal {
        PrefixStopsAt(levels, i);
        return side, false;
      }
      SideFromSnoc(levels[..i], l);
      assert levels[..i+1] == levels[..i] + [l];
      if l.size.value > 0.0 {
        side := side[l.price.value := l.size.value];
      }
      i := i + 1;
    }
    ok := true;
  }

  method UpdateSide(before: Side, levels: seq<Level>) returns (side: Side, ok: bool)
    requires NoZero(before)
    ensures NoZero(side)
    ensures side == SideAfter(before, levels[..ReadablePrefix(levels)])
    ensures ok <==> ReadablePrefix(levels) == |levels|
  {
    side := before;
    var i := 0;
    assert levels[..0] == [];
    while i < |levels|
      invariant 0 <= i <= ReadablePrefix(levels)
      invariant AllReadable(levels[..i]) && NoZero(side) && side == SideAfter(before, levels[..i])
    {
      var l := levels[i];
      if l.price == NotDecimal || l.size == NotDecimal {
        PrefixStopsAt(levels, i);
        return side, false;
      }
      SideAfterSnoc(before, levels[..i], l);
      assert levels[..i+1] == levels[..i] + [l];
      if l.size.value == 0.0 {
        side := side - {l.price.value};
      } else {
        side := side[l.price.value := l.size.value];
      }
      i := i + 1;
    }
    ok := true;
  }

  lemma PrefixStopsAt(levels: seq<Level>, i: nat)
    requires i < |levels| && i <= ReadablePrefix(levels) && !Readable(levels[i])
    ensures ReadablePrefix(levels) == i
  {
    assert forall k :: 0 <= k < ReadablePrefix(levels) ==> levels[..ReadablePrefix(levels)][k] == levels[k];
  }

  // ---------------------------------------------------------------------------
  // The replica
  // ---------------------------------------------------------------------------

  /** The history of a venue's book: version `i` carries `ids[i]`, and `deltas[i]` leads from
      version `i` to version `i+1`. */
  datatype Venue = Venue(bids: seq<Side>, asks: seq<Side>, ids: seq<nat>, deltas: seq<Delta>) {
    ghost predicate Chained() {
      && |bids| == |asks| == |ids| == |deltas| + 1
      && (forall i, j :: 0 <= i < j < |ids| ==> ids[i] != ids[j])
      && (forall i :: 0 <= i < |deltas| ==> Leads(i))
    }

    /** Delta `i` is readable, names the version it leads to, names the one it comes from or no
        version at all, and changes version `i` into version `i+1`. */
    ghost predicate Leads(i: nat)
      requires |bids| == |asks| == |ids| == |deltas| + 1 && i < |deltas|
    {
      var d := deltas[i];
      && AllReadable(d.bids) && AllReadable(d.asks)
      && (d.prevUpdateId == None || d.prevUpdateId == Some(ids[i])) && d.lastUpdateId == Some(ids[i+1])
      && bids[i+1] == SideAfter(bids[i], d.bids)
      && asks[i+1] == SideAfter(asks[i], d.asks)
    }

    /** A snapshot that reports version `v`, with its id or without one. */
    ghost predicate Reports(s: Snapshot, v: nat)
      requires Chained()
    {
      && v < |ids|
      && AllReadable(s.bids) && AllReadable(s.asks)
      && (s.lastUpdateId == None || s.lastUpdateId == Some(ids[v]))
      && SideFrom(s.bids) == bids[v] && SideFrom(s.asks) == asks[v]
    }
  }

  /** What reaches the tracker. */
  datatype Message = SnapshotOf(version: nat, snapshot: Snapshot) | DeltaNo(index: nat) | Reset

  /** Any message of the venue: in any order, any number of times, or never. */
  ghost predicate FromVenue(v: Venue, m: Message)
    requires v.Chained()
  {
    match m
    case SnapshotOf(n, s) => v.Reports(s, n)
    case DeltaNo(i) => i < |v.deltas|
    case Reset => true
  }

  ghost function Deliver(v: Venue, b: Book, m: Message): Book
    requires v.Chained() && FromVenue(v, m)
  {
    match m
    case SnapshotOf(_, s) => AfterSnapshot(b, s).0
    case DeltaNo(i) => AfterDelta(b, v.deltas[i]).0
    case Reset => EMPTY
  }

  ghost function DeliverAll(v: Venue, b: Book, ms: seq<Message>): Book
    requires v.Chained() && forall m :: m in ms ==> FromVenue(v, m)
    decreases |ms|
  {
    if ms == [] then b else DeliverAll(v, Deliver(v, b, ms[0]), ms[1..])
  }

  /** The book is version `n` of the venue and, if it names a version at all, names that one. */
  ghost predicate IsVersion(v: Venue, b: Book, n: nat)
    requires v.Chained()
  {
    && n < |v.ids| && b.bids == v.bids[n] && b.asks == v.asks[n]
    && (b.lastUpdateId == None || b.lastUpdateId == Some(v.ids[n]))
  }

  ghost predicate Faithful(v: Venue, b: Book)
    requires v.Chained()
  {
    b.hasSnapshot ==> exists n: nat :: IsVersion(v, b, n)
  }

  lemma FullPrefix(levels: seq<Level>)
    requires AllReadable(levels)
    ensures ReadablePrefix(levels) == |levels| && levels[..|levels|] == levels
  {
    assert forall k :: 0 <= k < |levels| ==> levels[k] in levels;
  }

  /** The chain check compares nothing: the book or the delta lacks its id. */
  predicate Blind(b: Book, d: Delta) {
    b.lastUpdateId == None || d.prevUpdateId == None
  }

  /** A delta that meets a blind chain check comes next, or came last. */
  ghost predicate InStep(v: Venue, b: Book, m: Message)
    requires v.Chained() && FromVenue(v, m)
  {
    m.DeltaNo? && b.hasSnapshot && Blind(b, v.deltas[m.index]) ==>
      IsVersion(v, b, m.index) || IsVersion(v, b, m.index + 1)
  }

  ghost predicate AllInStep(v: Venue, b: Book, ms: seq<Message>)
    requires v.Chained() && forall m :: m in ms ==> FromVenue(v, m)
    decreases |ms|
  {
    ms == [] || (InStep(v, b, ms[0]) && AllInStep(v, Deliver(v, b, ms[0]), ms[1..]))
  }

  /** Applying the same levels twice is applying them once. */
  lemma AppliedTwice(side: Side, levels: seq<Level>)
    requires AllReadable(levels)
    ensures SideAfter(SideAfter(side, levels), levels) == SideAfter(side, levels)
  {
    LastSizePrices(levels, false);
    var once := SideAfter(side, levels);
    forall p ensures SizeAfter(once, levels, p) == SizeAfter(side, levels, p) {
      if p !in once && p in side && LastSize(levels, p, false) == None {
        assert SizeAfter(side, levels, p) == 0.0;
      }
    }
  }

  /** Delta `i` accepted onto version `i`, or again onto version `i + 1`, leads to version `i + 1`. */
  lemma DeltaLeads(v: Venue, b: Book, i: nat)
    requires v.Chained() && i < |v.deltas| && b.hasSnapshot && !IsGap(b, v.deltas[i])
    requires IsVersion(v, b, i) || IsVersion(v, b, i + 1)
    ensures AfterDelta(b, v.deltas[i]).1 == Accepted
    ensures IsVersion(v, Deliver(v, b, DeltaNo(i)), i + 1)
    ensures Deliver(v, b, DeltaNo(i)).lastUpdateId == Some(v.ids[i+1])
  {
    var d := v.deltas[i];
    assert v.Leads(i);
    FullPrefix(d.bids);
    FullPrefix(d.asks);
    AppliedTwice(v.bids[i], d.bids);
    AppliedTwice(v.asks[i], d.asks);
  }

  lemma SnapshotLeads(v: Venue, b: Book, n: nat, s: Snapshot)
    requires v.Chained() && v.Reports(s, n)
    ensures IsVersion(v, AfterSnapshot(b, s).0, n)
  {
    FullPrefix(s.bids);
    FullPrefix(s.asks);
  }

  lemma DeliverKeepsFaithful(v: Venue, b: Book, m: Message)
    requires v.Chained() && FromVenue(v, m) && Faithful(v, b) && InStep(v, b, m)
    ensures Faithful(v, Deliver(v, b, m))
  {
    match m {
      case SnapshotOf(n, s) => SnapshotLeads(v, b, n, s);
      case DeltaNo(i) =>
        assert v.Leads(i);
        if b.hasSnapshot && !IsGap(b, v.deltas[i]) {
          var n: nat :| IsVersion(v, b, n);
          DeltaLeads(v, b, i);
        }
      case Reset =>
    }
  }

  /** Replica safety. Whatever subset, order or repetition of a venue's snapshots and deltas
      arrives, with ids or without: as long as each delta that meets a blind chain check comes next
      or came last, a tracker that holds a snapshot holds exactly the venue's book, at the version
      its own last update id names. */
  lemma {:induction false} ReplicaSafety(v: Venue, b: Book, ms: seq<Message>)
    requires v.Chained() && (forall m :: m in ms ==> FromVenue(v, m)) && Faithful(v, b)
    requires AllInStep(v, b, ms)
    ensures Faithful(v, DeliverAll(v, b, ms))
    decreases |ms|
  {
    if ms != [] {
      DeliverKeepsFaithful(v, b, ms[0]);
      ReplicaSafety(v, Deliver(v, b, ms[0]), ms[1..]);
    }
  }

  /** The venue links all its deltas. */
  ghost predicate Linked(v: Venue) {
    forall i :: 0 <= i < |v.deltas| ==> v.deltas[i].prevUpdateId.Some?
  }

  ghost predicate Identified(m: Message) {
    m.SnapshotOf? ==> m.snapshot.lastUpdateId.Some?
  }

  /** Where everything carries its ids the chain check is never blind, and no message, however late,
      lost or repeated, leads the replica astray. */
  lemma {:induction false} LinkedReplicaSafety(v: Venue, b: Book, ms: seq<Message>)
    requires v.Chained() && (forall m :: m in ms ==> FromVenue(v, m)) && Faithful(v, b)
    requires Linked(v) && (forall m :: m in ms ==> Identified(m)) && (b.hasSnapshot ==> b.lastUpdateId.Some?)
    ensures AllInStep(v, b, ms) && Faithful(v, DeliverAll(v, b, ms))
    decreases |ms|
  {
    if ms != [] {
      assert Identified(ms[0]);
      DeliverKeepsFaithful(v, b, ms[0]);
      LinkedReplicaSafety(v, Deliver(v, b, ms[0]), ms[1..]);
    }
  }

  // ---------------------------------------------------------------------------
  // Blind chain checks
  // ---------------------------------------------------------------------------

  /** Where an id may be missing: in the snapshot the tracker started from, or in the deltas. */
  datatype Missing = InSnapshot | InDeltas

  /** A tracker holding version `n` whose chain check is blind to delta `i`. */
  ghost predicate BlindAt(v: Venue, b: Book, n: nat, i: nat, missing: Missing) {
    && v.Chained() && n < |v.ids| && i < |v.deltas| && b.hasSnapshot && IsVersion(v, b, n)
    && (missing == InSnapshot ==> Linked(v) && b.lastUpdateId == None)
    && (missing == InDeltas ==> b.lastUpdateId == Some(v.ids[n]) && v.deltas[i].prevUpdateId == None)
  }

  /** Delta `i` blindly applied to version `n` leaves the replica at the version its id names, on every
      venue, if and only if the delta is the next one or the last one again. Which id is missing
      makes no difference. */
  lemma BlindDeltaIsSafeIff(n: nat, i: nat, missing: Missing)
    ensures (forall v: Venue, b: Book ::
               BlindAt(v, b, n, i, missing) ==> IsVersion(v, Deliver(v, b, DeltaNo(i)), i + 1))
       <==> i == n || i + 1 == n
  {
    if i == n || i + 1 == n {
      forall v: Venue, b: Book | BlindAt(v, b, n, i, missing)
        ensures IsVersion(v, Deliver(v, b, DeltaNo(i)), i + 1)
      {
        DeltaLeads(v, b, i);
      }
    } else {
      var v, b := Astray(n, i, missing);
    }
  }

  /** A blind delta is accepted, whatever it skips. */
  lemma BlindDeltaIsAccepted(v: Venue, b: Book, n: nat, i: nat, missing: Missing)
    requires BlindAt(v, b, n, i, missing)
    ensures AfterDelta(b, v.deltas[i]).1 == Accepted && Deliver(v, b, DeltaNo(i)).lastUpdateId == Some(v.ids[i+1])
  {
    assert v.Leads(i);
    FullPrefix(v.deltas[i].bids);
    FullPrefix(v.deltas[i].asks);
  }

  /** A bid of size one at each of the prices 1 to `n`. */
  ghost function Stairs(n: nat): Side {
    if n == 0 then map[] else Stairs(n - 1)[n as real := 1.0]
  }

  ghost function Stair(i: nat, missing: Missing): Delta {
    var previous := if missing == InDeltas then None else Some(i);
    Delta([Level(Decimal((i + 1) as real), Decimal(1.0))], [], previous, Some(i + 1), 0)
  }

  /** A venue that adds one price with every version. */
  ghost function Staircase(size: nat, missing: Missing): Venue {
    Venue(seq(size + 1, n requires 0 <= n <= size => Stairs(n)), seq(size + 1, n => map[]),
          seq(size + 1, n requires 0 <= n <= size => n), seq(size, i requires 0 <= i < size => Stair(i, missing)))
  }

  lemma {:induction false} StairsAre(n: nat, k: nat)
    ensures (k as real in Stairs(n) <==> 1 <= k <= n) && NoZero(Stairs(n))
    decreases n
  {
    if n > 0 {
      StairsAre(n - 1, k);
    }
  }

  lemma OneLevel(side: Side, l: Level)
    requires NoZero(side) && Readable(l) && l.size.value != 0.0
    ensures SideAfter(side, [l]) == side[l.price.value := l.size.value]
  {
    assert SideAfter(side, []) == side;
    SideAfterSnoc(side, [], l);
    assert [] + [l] == [l];
  }

  lemma StaircaseIsChained(size: nat, missing: Missing)
    ensures Staircase(size, missing).Chained()
    ensures missing == InSnapshot ==> Linked(Staircase(size, missing))
  {
    var v := Staircase(size, missing);
    forall i | 0 <= i < |v.deltas| ensures v.Leads(i) {
      StairsAre(i, 0);
      OneLevel(Stairs(i), v.deltas[i].bids[0]);
      assert SideAfter(map[], []) == map[];
    }
  }

  /** A venue and a tracker that a blind delta out of step leads astray. */
  lemma Astray(n: nat, i: nat, missing: Missing) returns (v: Venue, b: Book)
    requires i != n && i + 1 != n
    ensures BlindAt(v, b, n, i, missing) && !IsVersion(v, Deliver(v, b, DeltaNo(i)), i + 1)
  {
    v := Staircase(if n > i then n else i + 1, missing);
    StaircaseIsChained(if n > i then n else i + 1, missing);
    b := Book(Stairs(n), map[], if missing == InSnapshot then None else Some(n), 0, true);
    BlindDeltaIsAccepted(v, b, n, i, missing);
    StairsAre(n, 0);
    FullPrefix(v.deltas[i].bids);
    OneLevel(Stairs(n), v.deltas[i].bids[0]);
    var gap := if n < i then n + 1 else i + 2;
    StairsAre(n, gap);
    StairsAre(i + 1, gap);
    assert gap as real in Deliver(v, b, DeltaNo(i)).bids <==> gap as real in Stairs(n);
  }

  ghost function DeltasFrom(from: nat, n: nat): seq<Message> {
    seq(n, i requires 0 <= i < n => DeltaNo(from + i))
  }

  ghost predicate Takes(v: Venue, b: Book, m: Message)
    requires v.Chained() && FromVenue(v, m)
  {
    match m
    case SnapshotOf(_, s) => AfterSnapshot(b, s).1 == Accepted
    case DeltaNo(i) => AfterDelta(b, v.deltas[i]).1 == Accepted
    case Reset => true
  }

  /** Every message is accepted. */
  ghost predicate TakesAll(v: Venue, b: Book, ms: seq<Message>)
    requires v.Chained() && forall m :: m in ms ==> FromVenue(v, m)
    decreases |ms|
  {
    ms != [] ==> Takes(v, b, ms[0]) && TakesAll(v, Deliver(v, b, ms[0]), ms[1..])
  }

  /** The tracker has a snapshot and holds version `n`. */
  ghost predicate Holds(v: Venue, b: Book, n: nat)
    requires v.Chained()
  {
    b.hasSnapshot && IsVersion(v, b, n)
  }

  /** A snapshot that the venue reports is taken by every tracker, whatever it held before. */
  lemma SnapshotIsTaken(v: Venue, b: Book, n: nat, s: Snapshot)
    requires v.Chained() && v.Reports(s, n)
    ensures Takes(v, b, SnapshotOf(n, s))
    ensures var after := Deliver(v, b, SnapshotOf(n, s));
            Holds(v, after, n) && after.lastUpdateId == s.lastUpdateId && after.timestamp == s.timestamp
  {
    FullPrefix(s.bids);
    FullPrefix(s.asks);
  }

  lemma NextIsTaken(v: Venue, b: Book, from: nat)
    requires v.Chained() && from < |v.deltas| && Holds(v, b, from)
    ensures Takes(v, b, DeltaNo(from))
    ensures var after := Deliver(v, b, DeltaNo(from));
            && Holds(v, after, from + 1) && after.lastUpdateId == Some(v.ids[from+1])
            && after.timestamp == v.deltas[from].timestamp
  {
    assert v.Leads(from);
    FullPrefix(v.deltas[from].bids);
    FullPrefix(v.deltas[from].asks);
  }

  /** In-order delivery loses nothing: the next `n` deltas are accepted and lead the tracker `n`
      versions on. */
  lemma {:induction false} ReplicaFollows(v: Venue, b: Book, from: nat, n: nat)
    requires v.Chained() && from + n < |v.ids| && Holds(v, b, from)
    ensures TakesAll(v, b, DeltasFrom(from, n))
    ensures var after := DeliverAll(v, b, DeltasFrom(from, n));
            && Holds(v, after, from + n)
            && (n > 0 ==> after.lastUpdateId == Some(v.ids[from+n])
                          && after.timestamp == v.deltas[from+n-1].timestamp)
    decreases n
  {
    if n > 0 {
      var ms := DeltasFrom(from, n);
      NextIsTaken(v, b, from);
      ReplicaFollows(v, Deliver(v, b, ms[0]), from + 1, n - 1);
      assert ms[1..] == DeltasFrom(from + 1, n - 1);
    }
  }

  /** End to end, from any book, the empty one included: the snapshot of version `n` and the next `k`
      deltas are all accepted, and leave a tracker that has a snapshot and holds version `n + k`. */
  lemma SnapshotThenDeltas(v: Venue, b: Book, s: Snapshot, n: nat, k: nat)
    requires v.Chained() && v.Reports(s, n) && n + k < |v.ids|
    ensures var ms := [SnapshotOf(n, s)] + DeltasFrom(n, k);
            && (forall m :: m in ms ==> FromVenue(v, m))
            && TakesAll(v, b, ms) && Holds(v, DeliverAll(v, b, ms), n + k)
  {
    var first := SnapshotOf(n, s);
    var ms := [first] + DeltasFrom(n, k);
    assert ms[0] == first && ms[1..] == DeltasFrom(n, k);
    SnapshotIsTaken(v, b, n, s);
    ReplicaFollows(v, Deliver(v, b, first), n, k);
  }

  /** What a delta is answered: without a snapshot nothing else is looked at, then the chain of ids is,
      then the levels are. */
  lemma OutcomeIs(b: Book, d: Delta)
    ensures AfterDelta(b, d).1 == Rejected(NoSnapshot) <==> !b.hasSnapshot
    ensures forall last: nat, got: nat :: AfterDelta(b, d).1 == Rejected(SequenceGap(last, got)) <==>
              b.hasSnapshot && b.lastUpdateId == Some(last) && d.prevUpdateId == Some(got) && last != got
    ensures AfterDelta(b, d).1 == Rejected(InvalidDecimal) <==>
              && b.hasSnapshot && Unreadable(d)
              && !(b.lastUpdateId.Some? && d.prevUpdateId.Some? && b.lastUpdateId != d.prevUpdateId)
  {
    PrefixIsFullIff(d.bids);
    PrefixIsFullIff(d.asks);
  }

  /** A delta that a snapshot-less or gapped tracker rejects changes nothing. */
  predicate StopsAtOnce(d: Delta) {
    if d.bids != [] then !Readable(d.bids[0]) else d.asks != [] && !Readable(d.asks[0])
  }

  predicate Unreadable(d: Delta) {
    !AllReadable(d.bids) || !AllReadable(d.asks)
  }

  /** Rejections for a missing snapshot or a gap change nothing. A delta rejected for an
      unreadable level is harmless on every book if and only if its very first level is the
      unreadable one; otherwise the levels before it stay applied on some book. */
  lemma RejectionIsHarmlessIff(d: Delta)
    ensures forall b: Book :: AfterDelta(b, d).1.Rejected? && AfterDelta(b, d).1.error != InvalidDecimal ==>
              AfterDelta(b, d).0 == b
    ensures Unreadable(d) ==>
              ((forall b: Book :: NoZero(b.bids) && NoZero(b.asks) && AfterDelta(b, d).1 == Rejected(InvalidDecimal) ==>
                  AfterDelta(b, d).0 == b)
               <==> StopsAtOnce(d))
  {
    if Unreadable(d) {
      if StopsAtOnce(d) {
        forall b: Book | NoZero(b.bids) && NoZero(b.asks) && AfterDelta(b, d).1 == Rejected(InvalidDecimal)
          ensures AfterDelta(b, d).0 == b
        {
          assert SideAfter(b.bids, []) == b.bids;
          assert SideAfter(b.asks, []) == b.asks;
        }
      } else {
        var b := Disturbed(d);
      }
    }
  }

  /** A book that a partly readable delta leaves changed. */
  lemma Disturbed(d: Delta) returns (b: Book)
    requires Unreadable(d) && !StopsAtOnce(d)
    ensures NoZero(b.bids) && NoZero(b.asks) && AfterDelta(b, d).1 == Rejected(InvalidDecimal)
    ensures AfterDelta(b, d).0 != b
  {
    if d.bids != [] {
      var side := Contrary(d.bids);
      b := Book(side, map[], None, 0, true);
    } else {
      var side := Contrary(d.asks);
      b := Book(map[], side, None, 0, true);
    }
    if AllReadable(d.bids) { FullPrefix(d.bids); }
    if AllReadable(d.asks) { FullPrefix(d.asks); }
  }

  /** A side that the readable prefix of the levels changes at its first price. */
  lemma Contrary(levels: seq<Level>) returns (side: Side)
    requires levels != [] && Readable(levels[0])
    ensures NoZero(side) && SideAfter(side, levels[..ReadablePrefix(levels)]) != side
  {
    var prefix := levels[..ReadablePrefix(levels)];
    assert levels[0] == prefix[0];
    var p := prefix[0].price.value;
    MentionedHasSize(prefix, prefix[0]);
    var q := LastSize(prefix, p, false).value;
    side := map[p := if q == 1.0 then 2.0 else 1.0];
    var after := SideAfter(side, prefix);
    assert SizeAfter(side, prefix, p) == q && p in side;
    assert q != 0.0 ==> p in after && after[p] == q;
    assert q == 0.0 ==> p !in after;
  }

  lemma MentionedHasSize(levels: seq<Level>, l: Level)
    requires AllReadable(levels) && l in levels
    ensures LastSize(levels, l.price.value, false).Some?
    decreases |levels|
  {
    if l != levels[|levels|-1] {
      MentionedHasSize(levels[..|levels|-1], l);
    }
  }

  /** A witness of a blind chain check: a lost delta goes unnoticed, and the replica no longer
      matches the version its id names. */
  lemma UnlinkedDeltaDiverges()
    ensures var first := Delta([Level(Decimal(1.0), Decimal(5.0))], [], None, Some(2), 0);
            var second := Delta([Level(Decimal(2.0), Decimal(7.0))], [], None, Some(3), 0);
            var start := Book(map[], map[], Some(1), 0, true);
            var (venueBook, _) := AfterDelta(AfterDelta(start, first).0, second);
            var (replica, outcome) := AfterDelta(start, second);
            && outcome == Accepted && replica.lastUpdateId == venueBook.lastUpdateId
            && 1.0 in venueBook.bids && 1.0 !in replica.bids
  {
    var l1, l2 := Level(Decimal(1.0), Decimal(5.0)), Level(Decimal(2.0), Decimal(7.0));
    FullPrefix([l1]);
    FullPrefix([l2]);
    MentionedHasSize([l1], l1);
    assert LastSize([l2], 1.0, false) == LastSize([], 1.0, false);
  }

  // ---------------------------------------------------------------------------
  // Rejected snapshots
  // ---------------------------------------------------------------------------

  predicate Broken(s: Snapshot) {
    !AllReadable(s.bids) || !AllReadable(s.asks)
  }

  /** The book a rejected snapshot leaves: what its levels list up to the unreadable one. Nothing
      is left on the asks when a bid is the unreadable one. */
  ghost function LeftBids(s: Snapshot): Side {
    SideFrom(s.bids[..ReadablePrefix(s.bids)])
  }

  ghost function LeftAsks(s: Snapshot): Side {
    if AllReadable(s.bids) then SideFrom(s.asks[..ReadablePrefix(s.asks)]) else map[]
  }

  /** A snapshot is rejected exactly when some level is unreadable, wherever it stands. The rejection
      leaves a book alone if and only if the book already is what the readable levels list. A
      tracker that names its version stays faithful exactly then too; one without a snapshot always
      does; one without an id does if what is left happens to be some version of the venue. */
  lemma BrokenSnapshotIsHarmlessIff(v: Venue, b: Book, s: Snapshot)
    requires v.Chained() && Faithful(v, b)
    ensures Broken(s) <==> AfterSnapshot(b, s).1 == Rejected(InvalidDecimal)
    ensures Broken(s) ==> (AfterSnapshot(b, s).0 == b <==> b.bids == LeftBids(s) && b.asks == LeftAsks(s))
    ensures Broken(s) ==>
              (Faithful(v, AfterSnapshot(b, s).0) <==>
                !b.hasSnapshot
                || (if b.lastUpdateId.Some? then b.bids == LeftBids(s) && b.asks == LeftAsks(s)
                    else exists n: nat :: n < |v.ids| && v.bids[n] == LeftBids(s) && v.asks[n] == LeftAsks(s)))
  {
    PrefixIsFullIff(s.bids);
    PrefixIsFullIff(s.asks);
    if Broken(s) && b.hasSnapshot {
      var left := AfterSnapshot(b, s).0;
      var m: nat :| IsVersion(v, b, m);
      assert left.bids == LeftBids(s) && left.asks == LeftAsks(s);
      if b.lastUpdateId.Some? {
        assert forall n: nat :: IsVersion(v, left, n) ==> n == m;
        assert IsVersion(v, left, m) <==> left.bids == b.bids && left.asks == b.asks;
      } else {
        assert forall n: nat :: n < |v.ids| && v.bids[n] == LeftBids(s) && v.asks[n] == LeftAsks(s) ==>
                 IsVersion(v, left, n);
      }
    }
  }

  lemma PrefixIsFullIff(levels: seq<Level>)
    ensures ReadablePrefix(levels) == |levels| <==> AllReadable(levels)
  {
    assert levels[..|levels|] == levels;
    assert ReadablePrefix(levels) < |levels| ==> levels[ReadablePrefix(levels)] in levels;
  }

  /** No rejected snapshot is harmless to every book: one whose bids hold a price the snapshot
      does not list is wiped, also under an id. */
  lemma BrokenSnapshotWipesSome(s: Snapshot) returns (b: Book)
    requires Broken(s)
    ensures NoZero(b.bids) && NoZero(b.asks) && b.hasSnapshot && b.lastUpdateId.Some?
    ensures AfterSnapshot(b, s).0 != b
  {
    PrefixIsFullIff(s.bids);
    PrefixIsFullIff(s.asks);
    var side := LeftBids(s);
    b := Book(if side == map[] then map[1.0 := 1.0] else map[], map[], Some(0), 0, true);
    assert side == map[] ==> 1.0 in b.bids && 1.0 !in side;
  }

  /** After a rejected snapshot the id is still the old one, so the next delta of the chain is
      accepted, onto whatever is left. */
  lemma BrokenSnapshotIsFollowed(b: Book, bad: Snapshot, d: Delta)
    requires b.hasSnapshot && b.lastUpdateId.Some? && d.prevUpdateId == b.lastUpdateId
    requires Broken(bad) && AllReadable(d.bids) && AllReadable(d.asks)
    ensures var (left, outcome) := AfterSnapshot(b, bad);
            && outcome == Rejected(InvalidDecimal) && left.bids == LeftBids(bad) && left.asks == LeftAsks(bad)
            && left.hasSnapshot && left.lastUpdateId == b.lastUpdateId
            && AfterDelta(left, d).1 == Accepted
  {
    PrefixIsFullIff(bad.bids);
    PrefixIsFullIff(bad.asks);
    FullPrefix(d.bids);
    FullPrefix(d.asks);
  }
}
