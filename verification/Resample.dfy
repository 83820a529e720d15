/** Two-pointer resampling onto a bar grid: `resample` and `resample_multi`. */
module Resample {
  import opened Market

  /** A float as far as resampling looks at it: not a number, or an exact value. */
  datatype Float = NaN | Num(value: real)

  function Plus(a: Float, b: Float): Float {
    if a.NaN? || b.NaN? then NaN else Num(a.value + b.value)
  }

  datatype Observation<T> = Observation(ts: int, value: T)

  datatype FillPolicy = ForwardFill | ZeroFlow

  datatype ScalarBar = ScalarBar(openTime: int, value: Float, filled: bool)

  ghost predicate Sorted<T>(src: seq<Observation<T>>) {
    forall i, j :: 0 <= i < j < |src| ==> src[i].ts <= src[j].ts
  }

  ghost predicate SortOf<T>(sorted: seq<Observation<T>>, src: seq<Observation<T>>) {
    Sorted(sorted) && multiset(sorted) == multiset(src)
  }

  /** No two different observations share a timestamp. */
  ghost predicate Distinct<T(!new)>(src: seq<Observation<T>>) {
    forall o, p :: o in src && p in src && o.ts == p.ts ==> o == p
  }

  ghost predicate SameMembers<T(!new)>(a: seq<Observation<T>>, b: seq<Observation<T>>) {
    forall o :: o in a <==> o in b
  }

  lemma SortOfMembers<T(!new)>(sorted: seq<Observation<T>>, src: seq<Observation<T>>)
    requires SortOf(sorted, src)
    ensures SameMembers(sorted, src)
  {
    forall o ensures o in sorted <==> o in src {
      assert o in sorted <==> o in multiset(sorted);
      assert o in src <==> o in multiset(src);
    }
  }

  /** Any order among equal timestamps will do, as with an unstable sort. */
  method SortByTs<T>(src: seq<Observation<T>>) returns (sorted: seq<Observation<T>>)
    ensures SortOf(sorted, src)
  {
    sorted := [];
    for n := 0 to |src|
      invariant SortOf(sorted, src[..n])
    {
      var k := Position(sorted, src[n].ts);
      assert src[..n+1] == src[..n] + [src[n]];
      InsertedSorted(sorted, src[..n], k, src[n]);
      sorted := sorted[..k] + [src[n]] + sorted[k..];
    }
    assert src[..|src|] == src;
  }

  method Position<T>(sorted: seq<Observation<T>>, ts: int) returns (k: nat)
    ensures k <= |sorted| && forall i :: 0 <= i < k ==> sorted[i].ts < ts
    ensures k < |sorted| ==> ts <= sorted[k].ts
  {
    k := 0;
    while k < |sorted| && sorted[k].ts < ts
      invariant k <= |sorted| && forall i :: 0 <= i < k ==> sorted[i].ts < ts
    {
      k := k + 1;
    }
  }

  lemma InsertedSorted<T>(sorted: seq<Observation<T>>, src: seq<Observation<T>>, k: nat, o: Observation<T>)
    requires SortOf(sorted, src) && k <= |sorted|
    requires forall i :: 0 <= i < k ==> sorted[i].ts < o.ts
    requires k < |sorted| ==> o.ts <= sorted[k].ts
    ensures SortOf(sorted[..k] + [o] + sorted[k..], src + [o])
  {
    StillSorted(sorted, k, o);
    StillSameElements(sorted, k, o);
  }

  lemma StillSameElements<T>(s: seq<T>, k: nat, o: T)
    requires k <= |s|
    ensures multiset(s[..k] + [o] + s[k..]) == multiset(s) + multiset{o}
  {
    assert s == s[..k] + s[k..];
  }

  lemma StillSorted<T>(sorted: seq<Observation<T>>, k: nat, o: Observation<T>)
    requires Sorted(sorted) && k <= |sorted|
    requires forall i :: 0 <= i < k ==> sorted[i].ts < o.ts
    requires k < |sorted| ==> o.ts <= sorted[k].ts
    ensures Sorted(sorted[..k] + [o] + sorted[k..])
  {
    var r := sorted[..k] + [o] + sorted[k..];
    assert forall m :: 0 <= m < |r| ==> r[m] == if m < k then sorted[m] else if m == k then o else sorted[m-1];
  }

  function FirstBar(start: int, step: int): (t: int)
    requires step > 0
    ensures t <= start < t + step && t % step == 0
  {
    var q := start / step;
    assert start == q * step + start % step;
    UniqueRemainder(q * step, step, q, 0);
    q * step
  }

  lemma UniqueRemainder(x: int, step: int, q: int, r: int)
    requires step > 0 && x == q * step + r && 0 <= r < step
    ensures x % step == r
  {
    var e := x / step - q;
    assert x / step * step + x % step == x;
    assert e * step == r - x % step;
    if e >= 1 {
      AtLeastStep(e, step);
    } else if e <= -1 {
      AtLeastStep(-e, step);
    }
  }

  lemma AtLeastStep(e: int, step: int)
    requires step > 0 && e >= 1
    ensures e * step >= step && (-e) * step == -(e * step)
  {
  }

  // ---------------------------------------------------------------------------
  // The naive definitions: every bar looks at every observation
  // ---------------------------------------------------------------------------

  /** The observation with the greatest timestamp before the close. */
  function Latest<T>(src: seq<Observation<T>>, close: int): Option<Observation<T>> {
    if src == [] then None
    else
      var before, o := Latest(src[..|src|-1], close), src[|src|-1];
      if o.ts < close && (before == None || before.value.ts <= o.ts) then Some(o) else before
  }

  predicate Fresh<T>(src: seq<Observation<T>>, t: int, close: int) {
    src != [] && (t <= src[|src|-1].ts < close || Fresh(src[..|src|-1], t, close))
  }

  function ForwardBar(src: seq<Observation<Float>>, t: int, step: int): seq<ScalarBar> {
    match Latest(src, t + step)
    case None => []
    case Some(o) => [ScalarBar(t, o.value, !Fresh(src, t, t + step))]
  }

  function ForwardBars(src: seq<Observation<Float>>, t: int, end: int, step: int): seq<ScalarBar>
    requires step > 0
    decreases end - t
  {
    if t >= end then [] else ForwardBar(src, t, step) + ForwardBars(src, t + step, end, step)
  }

  function ValueWithin(o: Observation<Float>, from: int, to: int): Float {
    if from <= o.ts < to then o.value else Num(0.0)
  }

  /** The total of the observations in a window. */
  function Sum(src: seq<Observation<Float>>, from: int, to: int): Float {
    if src == [] then Num(0.0) else Plus(Sum(src[..|src|-1], from, to), ValueWithin(src[|src|-1], from, to))
  }

  function ZeroFlowBars(src: seq<Observation<Float>>, t: int, end: int, step: int): seq<ScalarBar>
    requires step > 0
    decreases end - t
  {
    if t >= end then []
    else [ScalarBar(t, Sum(src, t, t + step), false)] + ZeroFlowBars(src, t + step, end, step)
  }

  // ---------------------------------------------------------------------------
  // Facts about the naive definitions
  // ---------------------------------------------------------------------------

  ghost predicate IsLatest<T(!new)>(src: seq<Observation<T>>, close: int, o: Observation<T>) {
    o in src && o.ts < close && forall p :: p in src && p.ts < close ==> p.ts <= o.ts
  }

  lemma {:induction false} LatestIs<T(!new)>(src: seq<Observation<T>>, close: int)
    ensures Latest(src, close).Some? ==> IsLatest(src, close, Latest(src, close).value)
    ensures Latest(src, close) == None ==> forall p :: p in src ==> p.ts >= close
  {
    if src != [] {
      var init, o := src[..|src|-1], src[|src|-1];
      LatestIs(init, close);
      assert forall p :: p in src ==> p in init || p == o;
    }
  }

  lemma LatestByMembers<T(!new)>(a: seq<Observation<T>>, b: seq<Observation<T>>, close: int)
    requires SameMembers(a, b) && Distinct(a)
    ensures Latest(a, close) == Latest(b, close)
  {
    LatestIs(a, close);
    LatestIs(b, close);
  }

  lemma {:induction false} FreshIff<T(!new)>(src: seq<Observation<T>>, t: int, close: int)
    ensures Fresh(src, t, close) <==> exists o :: o in src && t <= o.ts < close
  {
    if src != [] {
      var init, last := src[..|src|-1], src[|src|-1];
      FreshIff(init, t, close);
      assert src == init + [last];
    }
  }

  lemma FreshByMembers<T(!new)>(a: seq<Observation<T>>, b: seq<Observation<T>>, t: int, close: int)
    requires SameMembers(a, b)
    ensures Fresh(a, t, close) <==> Fresh(b, t, close)
  {
    FreshIff(a, t, close);
    FreshIff(b, t, close);
  }

  lemma ForwardBarByMembers(a: seq<Observation<Float>>, b: seq<Observation<Float>>, t: int, step: int)
    requires SameMembers(a, b) && Distinct(a)
    ensures ForwardBar(a, t, step) == ForwardBar(b, t, step)
  {
    LatestByMembers(a, b, t + step);
    FreshByMembers(a, b, t, t + step);
  }

  /** Forward filling depends on the observations, not on their order. */
  lemma {:induction false} ForwardBarsByMembers(a: seq<Observation<Float>>, b: seq<Observation<Float>>, t: int,
                                                end: int, step: int)
    requires step > 0 && SameMembers(a, b) && Distinct(a)
    ensures ForwardBars(a, t, end, step) == ForwardBars(b, t, end, step)
    decreases end - t
  {
    if t < end {
      ForwardBarByMembers(a, b, t, step);
      ForwardBarsByMembers(a, b, t + step, end, step);
    }
  }

  /** An open time of the grid. */
  ghost predicate OnBars(t: int, first: int, end: int, step: int)
    requires step > 0
    decreases end - first
  {
    first < end && (t == first || OnBars(t, first + step, end, step))
  }

  ghost predicate HasLatestValue(src: seq<Observation<Float>>, close: int, value: Float) {
    exists o :: IsLatest(src, close, o) && o.value == value
  }

  ghost predicate NoneWithin(src: seq<Observation<Float>>, t: int, close: int) {
    forall o :: o in src ==> !(t <= o.ts < close)
  }

  /** What a forward-filled bar is: its value is that of the latest observation before its close, and
      it is marked as filled exactly when no observation falls into it. */
  ghost predicate IsForwardBar(src: seq<Observation<Float>>, step: int, bar: ScalarBar) {
    && HasLatestValue(src, bar.openTime + step, bar.value)
    && (bar.filled <==> NoneWithin(src, bar.openTime, bar.openTime + step))
  }

  lemma LatestValueIs(src: seq<Observation<Float>>, close: int, value: Float)
    requires Distinct(src)
    ensures HasLatestValue(src, close, value) <==> Latest(src, close).Some? && Latest(src, close).value.value == value
  {
    LatestIs(src, close);
    if HasLatestValue(src, close, value) {
      var o :| IsLatest(src, close, o) && o.value == value;
      assert Latest(src, close).value == o;
    }
  }

  lemma NoneWithinIff(src: seq<Observation<Float>>, t: int, close: int)
    ensures NoneWithin(src, t, close) <==> !Fresh(src, t, close)
  {
    FreshIff(src, t, close);
  }

  lemma ForwardBarIs(src: seq<Observation<Float>>, t: int, step: int, bar: ScalarBar)
    requires Distinct(src)
    ensures bar in ForwardBar(src, t, step) <==> bar.openTime == t && IsForwardBar(src, step, bar)
  {
    LatestValueIs(src, t + step, bar.value);
    NoneWithinIff(src, t, t + step);
  }

  /** The forward-filled bars are exactly the bars on the grid that meet the description. */
  lemma {:induction false} ForwardBarsAre(src: seq<Observation<Float>>, first: int, end: int, step: int, bar: ScalarBar)
    requires step > 0 && Distinct(src)
    ensures bar in ForwardBars(src, first, end, step)
       <==> OnBars(bar.openTime, first, end, step) && IsForwardBar(src, step, bar)
    decreases end - first
  {
    if first < end {
      ForwardBarsAre(src, first + step, end, step, bar);
      ForwardBarIs(src, first, step, bar);
      InEither(ForwardBar(src, first, step), ForwardBars(src, first + step, end, step), bar);
    }
  }

  lemma InEither<T>(a: seq<T>, b: seq<T>, x: T)
    ensures x in a + b <==> x in a || x in b
  {
  }

  ghost predicate IncreasingFrom(bars: seq<ScalarBar>, first: int) {
    && (forall i :: 0 <= i < |bars| ==> bars[i].openTime >= first)
    && forall i, j :: 0 <= i < j < |bars| ==> bars[i].openTime < bars[j].openTime
  }

  lemma Chained(head: seq<ScalarBar>, rest: seq<ScalarBar>, first: int, step: int)
    requires step > 0 && IncreasingFrom(rest, first + step)
    requires head == [] || (|head| == 1 && head[0].openTime == first)
    ensures IncreasingFrom(head + rest, first)
  {
    var bars := head + rest;
    assert forall m :: 0 <= m < |bars| ==> bars[m] == if m < |head| then head[m] else rest[m-|head|];
  }

  lemma {:induction false} ForwardBarsIncrease(src: seq<Observation<Float>>, first: int, end: int, step: int)
    requires step > 0
    ensures IncreasingFrom(ForwardBars(src, first, end, step), first)
    decreases end - first
  {
    if first < end {
      ForwardBarsIncrease(src, first + step, end, step);
      Chained(ForwardBar(src, first, step), ForwardBars(src, first + step, end, step), first, step);
    }
  }

  // Sums

  lemma {:induction false} SumAppend(a: seq<Observation<Float>>, b: seq<Observation<Float>>, from: int, to: int)
    ensures Sum(a + b, from, to) == Plus(Sum(a, from, to), Sum(b, from, to))
  {
    if b == [] {
      assert a + b == a;
    } else {
      assert (a + b)[..|a+b|-1] == a + b[..|b|-1];
      SumAppend(a, b[..|b|-1], from, to);
    }
  }

  lemma SumSnoc(s: seq<Observation<Float>>, o: Observation<Float>, from: int, to: int)
    ensures Sum(s + [o], from, to) == Plus(Sum(s, from, to), ValueWithin(o, from, to))
  {
    assert (s + [o])[..|s|] == s;
  }

  lemma SumOne(o: Observation<Float>, from: int, to: int)
    ensures Sum([o], from, to) == Plus(Num(0.0), ValueWithin(o, from, to))
  {
    assert [o][..0] == [];
  }

  lemma SumWithout(s: seq<Observation<Float>>, k: nat, from: int, to: int)
    requires k < |s|
    ensures Sum(s, from, to) == Plus(Sum(s[..k] + s[k+1..], from, to), ValueWithin(s[k], from, to))
  {
    assert s == s[..k] + ([s[k]] + s[k+1..]);
    SumAppend(s[..k], [s[k]] + s[k+1..], from, to);
    SumAppend([s[k]], s[k+1..], from, to);
    SumOne(s[k], from, to);
    SumAppend(s[..k], s[k+1..], from, to);
  }

  /** Sums do not depend on the order of the observations. */
  lemma {:induction false} SumPermutes(a: seq<Observation<Float>>, b: seq<Observation<Float>>, from: int, to: int)
    requires multiset(a) == multiset(b)
    ensures Sum(a, from, to) == Sum(b, from, to)
  {
    if a == [] {
      EmptyPermutation(a, b);
    } else {
      var init, o := a[..|a|-1], a[|a|-1];
      assert a == init + [o];
      assert o in multiset(b);
      var k :| 0 <= k < |b| && b[k] == o;
      var rest := b[..k] + b[k+1..];
      assert b == b[..k] + [b[k]] + b[k+1..];
      assert multiset(rest) == multiset(b) - multiset{o};
      SumPermutes(init, rest, from, to);
      SumWithout(b, k, from, to);
    }
  }

  lemma EmptyPermutation<T>(a: seq<T>, b: seq<T>)
    requires a == [] && multiset(a) == multiset(b)
    ensures b == []
  {
    assert |multiset(b)| == |b|;
  }

  lemma {:induction false} ZeroFlowPermutes(a: seq<Observation<Float>>, b: seq<Observation<Float>>, t: int, end: int,
                                            step: int)
    requires step > 0 && multiset(a) == multiset(b)
    ensures ZeroFlowBars(a, t, end, step) == ZeroFlowBars(b, t, end, step)
    decreases end - t
  {
    if t < end {
      SumPermutes(a, b, t, t + step);
      ZeroFlowPermutes(a, b, t + step, end, step);
    }
  }

  lemma {:induction false} SumSplits(src: seq<Observation<Float>>, a: int, b: int, c: int)
    requires a <= b <= c
    ensures Sum(src, a, c) == Plus(Sum(src, a, b), Sum(src, b, c))
  {
    if src != [] {
      var init, o := src[..|src|-1], src[|src|-1];
      SumSplits(init, a, b, c);
      PlusSwap(Sum(init, a, b), ValueWithin(o, a, b), Sum(init, b, c), ValueWithin(o, b, c));
      WithinSplits(o, a, b, c);
    }
  }

  lemma WithinSplits(o: Observation<Float>, a: int, b: int, c: int)
    requires a <= b <= c
    ensures ValueWithin(o, a, c) == Plus(ValueWithin(o, a, b), ValueWithin(o, b, c))
  {
  }

  lemma PlusSwap(u: Float, v: Float, x: Float, y: Float)
    ensures Plus(Plus(u, v), Plus(x, y)) == Plus(Plus(u, x), Plus(v, y))
  {
  }

  ghost function Total(bars: seq<ScalarBar>): Float {
    if bars == [] then Num(0.0) else Plus(bars[0].value, Total(bars[1..]))
  }

  lemma TotalCons(bar: ScalarBar, rest: seq<ScalarBar>)
    ensures Total([bar] + rest) == Plus(bar.value, Total(rest))
  {
    assert ([bar] + rest)[1..] == rest;
  }

  /** Where the last bar of the grid closes. */
  function GridEnd(t: int, end: int, step: int): (close: int)
    requires step > 0
    ensures t <= close && (t <= end ==> end <= close < end + step)
    decreases end - t
  {
    if t >= end then t else GridEnd(t + step, end, step)
  }

  lemma {:induction false} EmptyWindow(src: seq<Observation<Float>>, t: int)
    ensures Sum(src, t, t) == Num(0.0)
  {
    if src != [] {
      EmptyWindow(src[..|src|-1], t);
    }
  }

  /** Bucketing loses nothing: the bars add up to all observations inside the grid's span. */
  lemma {:induction false} ZeroFlowConserves(src: seq<Observation<Float>>, t: int, end: int, step: int)
    requires step > 0
    ensures Total(ZeroFlowBars(src, t, end, step)) == Sum(src, t, GridEnd(t, end, step))
    decreases end - t
  {
    if t >= end {
      EmptyWindow(src, t);
    } else {
      ZeroFlowConserves(src, t + step, end, step);
      AddBar(src, t, t + step, GridEnd(t, end, step), ZeroFlowBars(src, t + step, end, step));
    }
  }

  lemma AddBar(src: seq<Observation<Float>>, t: int, close: int, to: int, rest: seq<ScalarBar>)
    requires t <= close <= to && Total(rest) == Sum(src, close, to)
    ensures Total([ScalarBar(t, Sum(src, t, close), false)] + rest) == Sum(src, t, to)
  {
    TotalCons(ScalarBar(t, Sum(src, t, close), false), rest);
    AddWindow(src, t, close, to, Total(rest));
  }

  lemma AddWindow(src: seq<Observation<Float>>, a: int, b: int, c: int, rest: Float)
    requires a <= b <= c && rest == Sum(src, b, c)
    ensures Plus(Sum(src, a, b), rest) == Sum(src, a, c)
  {
    SumSplits(src, a, b, c);
  }

  // ---------------------------------------------------------------------------
  // Sorted sources: what lies before a pointer
  // ---------------------------------------------------------------------------

  /** The pointer splits a sorted source at a time. */
  ghost predicate SplitAt<T>(src: seq<Observation<T>>, idx: nat, time: int) {
    && idx <= |src|
    && (forall i :: 0 <= i < idx ==> src[i].ts < time)
    && (forall i :: idx <= i < |src| ==> src[i].ts >= time)
  }

  function LastOf<T>(src: seq<T>): Option<T> {
    if src == [] then None else Some(src[|src|-1])
  }

  lemma {:induction false} LatestOfSorted<T>(src: seq<Observation<T>>, idx: nat, close: int)
    requires Sorted(src) && SplitAt(src, idx, close)
    ensures Latest(src, close) == LastOf(src[..idx])
  {
    if idx < |src| {
      var init := src[..|src|-1];
      LatestOfSorted(init, idx, close);
      assert init[..idx] == src[..idx];
    } else if src != [] {
      var init := src[..|src|-1];
      LatestOfSorted(init, |init|, close);
      assert init[..|init|] == init && src[..idx] == src;
    }
  }

  lemma {:induction false} SumBefore(src: seq<Observation<Float>>, from: int, to: int)
    requires forall i :: 0 <= i < |src| ==> !(from <= src[i].ts < to)
    ensures Sum(src, from, to) == Num(0.0)
  {
    if src != [] {
      SumBefore(src[..|src|-1], from, to);
    }
  }

  lemma SumOfSorted(src: seq<Observation<Float>>, idx: nat, t: int, close: int)
    requires SplitAt(src, idx, close)
    ensures Sum(src, t, close) == Sum(src[..idx], t, close)
  {
    var head, tail := src[..idx], src[idx..];
    assert src == head + tail;
    SumAppend(head, tail, t, close);
    forall i | 0 <= i < |tail| ensures tail[i].ts >= close {
      assert tail[i] == src[idx + i];
    }
    SumBefore(tail, t, close);
  }

  // ---------------------------------------------------------------------------
  // resample
  // ---------------------------------------------------------------------------

  method Resample(src: seq<Observation<Float>>, start: int, end: int, step: int, policy: FillPolicy)
    returns (out: seq<ScalarBar>)
    requires step > 0
    ensures policy.ZeroFlow? ==> out == ZeroFlowBars(src, FirstBar(start, step), end, step)
    ensures policy.ForwardFill? && Distinct(src) ==> out == ForwardBars(src, FirstBar(start, step), end, step)
    ensures policy.ForwardFill? ==>
      exists sorted :: SortOf(sorted, src) && out == ForwardBars(sorted, FirstBar(start, step), end, step)
  {
    var sorted := SortByTs(src);
    SortOfMembers(sorted, src);
    var first := FirstBar(start, step);
    match policy {
      case ForwardFill =>
        out := FillForward(sorted, first, end, step);
        if Distinct(src) {
          ForwardBarsByMembers(src, sorted, first, end, step);
        }
      case ZeroFlow =>
        out := FillFlow(sorted, first, end, step);
        ZeroFlowPermutes(sorted, src, first, end, step);
    }
  }

  method FillForward(src: seq<Observation<Float>>, first: int, end: int, step: int) returns (out: seq<ScalarBar>)
    requires step > 0 && Sorted(src)
    ensures out == ForwardBars(src, first, end, step)
  {
    out := [];
    var idx: nat, t := 0, first;
    var last: Option<Observation<Float>> := None;
    while t < end
      invariant idx == 0 || SplitAt(src, idx, t)
      invariant idx <= |src| && last == LastOf(src[..idx])
      invariant out + ForwardBars(src, t, end, step) == ForwardBars(src, first, end, step)
      decreases end - t
    {
      var isFresh;
      idx, last, isFresh := ReadBar(src, idx, last, t, t + step);
      AppendAssociates(out, ForwardBar(src, t, step), ForwardBars(src, t + step, end, step));
      out := out + (if last.Some? then [ScalarBar(t, last.value.value, !isFresh)] else []);
      t := t + step;
    }
  }

  lemma AppendAssociates<T>(a: seq<T>, b: seq<T>, c: seq<T>)
    ensures (a + b) + c == a + (b + c)
  {
  }

  /** Take in everything before the close. */
  method ReadBar(src: seq<Observation<Float>>, from: nat, before: Option<Observation<Float>>, t: int, close: int)
    returns (idx: nat, last: Option<Observation<Float>>, isFresh: bool)
    requires Sorted(src) && from <= |src| && before == LastOf(src[..from]) && t <= close
    requires from == 0 || SplitAt(src, from, t)
    ensures SplitAt(src, idx, close) && last == LastOf(src[..idx])
    ensures last == Latest(src, close)
    ensures isFresh <==> Fresh(src, t, close)
  {
    idx, last, isFresh := from, before, false;
    NothingFresh(src[..from], t, close);
    while idx < |src| && src[idx].ts < close
      invariant from <= idx <= |src| && last == LastOf(src[..idx])
      invariant forall i :: 0 <= i < idx ==> src[i].ts < close
      invariant isFresh <==> Fresh(src[..idx], t, close)
    {
      last := Some(src[idx]);
      FreshSnoc(src, idx, t, close);
      if src[idx].ts >= t {
        isFresh := true;
      }
      idx := idx + 1;
    }
    LatestOfSorted(src, idx, close);
    FreshOfSorted(src, idx, t, close);
  }

  lemma {:induction false} NothingFresh<T>(src: seq<Observation<T>>, t: int, close: int)
    requires forall i :: 0 <= i < |src| ==> src[i].ts < t
    ensures !Fresh(src, t, close)
  {
    if src != [] {
      NothingFresh(src[..|src|-1], t, close);
    }
  }

  lemma FreshSnoc<T>(src: seq<Observation<T>>, idx: nat, t: int, close: int)
    requires idx < |src|
    ensures Fresh(src[..idx+1], t, close) <==> Fresh(src[..idx], t, close) || t <= src[idx].ts < close
  {
    assert src[..idx+1][..idx] == src[..idx];
  }

  lemma {:induction false} FreshOfSorted<T>(src: seq<Observation<T>>, idx: nat, t: int, close: int)
    requires SplitAt(src, idx, close)
    ensures Fresh(src, t, close) <==> Fresh(src[..idx], t, close)
  {
    if idx < |src| {
      var init := src[..|src|-1];
      FreshOfSorted(init, idx, t, close);
      assert init[..idx] == src[..idx];
    } else {
      assert src[..idx] == src;
    }
  }

  method FillFlow(src: seq<Observation<Float>>, first: int, end: int, step: int) returns (out: seq<ScalarBar>)
    requires step > 0 && Sorted(src)
    ensures out == ZeroFlowBars(src, first, end, step)
  {
    out := [];
    var idx: nat, t := 0, first;
    while t < end
      invariant idx <= |src| && (idx == 0 || SplitAt(src, idx, t))
      invariant out + ZeroFlowBars(src, t, end, step) == ZeroFlowBars(src, first, end, step)
      decreases end - t
    {
      var sum;
      idx, sum := SumBar(src, idx, t, t + step);
      var bar := [ScalarBar(t, sum, false)];
      AppendAssociates(out, bar, ZeroFlowBars(src, t + step, end, step));
      out := out + bar;
      t := t + step;
    }
  }

  /** Add up everything between the open and the close. */
  lemma SumUpTo(src: seq<Observation<Float>>, idx: nat, t: int, close: int)
    requires idx < |src|
    ensures Sum(src[..idx+1], t, close) == Plus(Sum(src[..idx], t, close), ValueWithin(src[idx], t, close))
  {
    assert src[..idx+1][..idx] == src[..idx];
  }

  method SumBar(src: seq<Observation<Float>>, from: nat, t: int, close: int) returns (idx: nat, sum: Float)
    requires Sorted(src) && from <= |src| && t <= close
    requires from == 0 || SplitAt(src, from, t)
    ensures SplitAt(src, idx, close)
    ensures sum == Sum(src, t, close)
  {
    idx, sum := from, Num(0.0);
    SumBefore(src[..idx], t, close);
    while idx < |src| && src[idx].ts < close
      invariant idx <= |src|
      invariant forall i :: 0 <= i < idx ==> src[i].ts < close
      invariant sum == Sum(src[..idx], t, close)
    {
      SumUpTo(src, idx, t, close);
      if src[idx].ts >= t {
        sum := Plus(sum, src[idx].value);
      }
      idx := idx + 1;
    }
    SumOfSorted(src, idx, t, close);
  }
}
