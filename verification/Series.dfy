/** The bounded ring of points behind every stream, and how a rewarm splices older points in front of it. */
module Series {
  import opened Market

  /** The last `n` elements. */
  function Tail<T>(s: seq<T>, n: nat): (r: seq<T>)
    ensures |r| == if |s| <= n then |s| else n
  {
    if |s| <= n then s else s[|s|-n..]
  }

  /** Stamps strictly increase. */
  ghost predicate Increasing<T>(s: seq<T>, stamp: T -> int) {
    forall i, j :: 0 <= i < j < |s| ==> stamp(s[i]) < stamp(s[j])
  }

  ghost predicate NonDecreasing<T>(s: seq<T>, stamp: T -> int) {
    forall i, j :: 0 <= i < j < |s| ==> stamp(s[i]) <= stamp(s[j])
  }

  lemma LaterIsFurther<T>(s: seq<T>, i: nat, j: nat, stamp: T -> int)
    requires Increasing(s, stamp) && i < |s| && j < |s|
    ensures i < j <==> stamp(s[i]) < stamp(s[j])
  {
  }

  lemma PrefixIncreases<T>(s: seq<T>, n: nat, stamp: T -> int)
    requires Increasing(s, stamp) && n <= |s|
    ensures Increasing(s[..n], stamp)
  {
  }

  lemma ConcatIncreases<T>(a: seq<T>, b: seq<T>, border: int, stamp: T -> int)
    requires Increasing(a, stamp) && Increasing(b, stamp)
    requires forall p :: p in a ==> stamp(p) <= border
    requires forall p :: p in b ==> border < stamp(p)
    ensures Increasing(a + b, stamp)
  {
    var all := a + b;
    forall i, j | 0 <= i < j < |all| ensures stamp(all[i]) < stamp(all[j]) {
      if i < |a| <= j {
        assert all[i] in a && all[j] in b;
      }
    }
  }

  class Series<T> {
    const stamp: T -> int
    var capacity: nat
    var ring: seq<T>

    ghost predicate Valid()
      reads this
    {
      capacity >= 1 && |ring| <= capacity
    }

    constructor (capacity: nat, stamp: T -> int)
      ensures Valid() && ring == [] && this.stamp == stamp
      ensures this.capacity == if capacity >= 1 then capacity else 1
    {
      this.capacity := if capacity >= 1 then capacity else 1;
      this.stamp := stamp;
      ring := [];
    }

    /** Append; a full ring evicts its oldest point. */
    method Push(point: T)
      requires Valid()
      modifies this`ring
      ensures Valid()
      ensures ring == Tail(old(ring) + [point], capacity)
    {
      if |ring| == capacity {
        ring := ring[1..];
      }
      ring := ring + [point];
    }

    method Extend(points: seq<T>)
      requires Valid()
      modifies this`ring
      ensures Valid()
      ensures ring == Tail(old(ring) + points, capacity)
    {
      var i := 0;
      ghost var whole := ring;
      while i < |points|
        invariant 0 <= i <= |points| && Valid()
        invariant whole == old(ring) + points[..i] && ring == Tail(whole, capacity)
      {
        TailPush(whole, points[i], capacity);
        whole := whole + [points[i]];
        Push(points[i]);
        i := i + 1;
      }
    }

    /** Replace the newest point with the same stamp in place, or append. */
    method UpsertByTs(point: T)
      requires Valid()
      modifies this`ring
      ensures Valid()
      ensures ring == Tail(Upsert(old(ring), point, stamp), capacity)
    {
      var i := |ring|;
      while i > 0
        invariant 0 <= i <= |ring| && ring == old(ring)
        invariant forall k :: i <= k < |ring| ==> stamp(ring[k]) != stamp(point)
      {
        i := i - 1;
        if stamp(ring[i]) == stamp(point) {
          NewestIs(ring, i, stamp(point), stamp);
          ring := ring[i := point];
          return;
        }
      }
      NewestIs(ring, -1, stamp(point), stamp);
      Push(point);
    }
  }

  lemma TailPush<T>(s: seq<T>, point: T, n: nat)
    requires n >= 1
    ensures Tail(Tail(s, n) + [point], n) == Tail(s + [point], n)
  {
  }

  /** Index of the newest point with this stamp, -1 if there is none. */
  function Newest<T>(ring: seq<T>, ts: int, stamp: T -> int): (k: int)
    ensures -1 <= k < |ring|
  {
    if ring == [] then -1
    else if stamp(ring[|ring|-1]) == ts then |ring| - 1
    else Newest(ring[..|ring|-1], ts, stamp)
  }

  lemma {:induction false} NewestIs<T>(ring: seq<T>, k: int, ts: int, stamp: T -> int)
    requires -1 <= k < |ring|
    requires k >= 0 ==> stamp(ring[k]) == ts
    requires forall i :: k < i < |ring| ==> stamp(ring[i]) != ts
    ensures Newest(ring, ts, stamp) == k
  {
    if ring != [] && k < |ring| - 1 {
      NewestIs(ring[..|ring|-1], k, ts, stamp);
    }
  }

  /** An unbounded ring after an insert-or-replace by stamp. */
  function Upsert<T>(ring: seq<T>, point: T, stamp: T -> int): seq<T> {
    var k := Newest(ring, stamp(point), stamp);
    if k >= 0 then ring[k := point] else ring + [point]
  }

  function UpsertAll<T>(ring: seq<T>, points: seq<T>, stamp: T -> int): (r: seq<T>)
    ensures ring != [] || points != [] ==> r != []
    decreases |points|
  {
    if points == [] then ring
    else UpsertAll(Upsert(ring, points[0], stamp), points[1..], stamp)
  }

  // ---------------------------------------------------------------------------
  // Last emission per identity
  // ---------------------------------------------------------------------------

  /** What is left of an emission stream once each run of equal identities is reduced to its
      last element. */
  function Dedup<T, Id(==)>(emissions: seq<T>, ident: T -> Id): (r: seq<T>)
    ensures emissions != [] ==> r != [] && r[|r|-1] == emissions[|emissions|-1]
  {
    if emissions == [] then []
    else Merged(Dedup(emissions[..|emissions|-1], ident), emissions[|emissions|-1], ident)
  }

  function Merged<T, Id(==)>(before: seq<T>, p: T, ident: T -> Id): seq<T> {
    if before != [] && ident(before[|before|-1]) == ident(p) then before[..|before|-1] + [p] else before + [p]
  }

  lemma DedupSnoc<T, Id>(s: seq<T>, p: T, ident: T -> Id)
    ensures Dedup(s + [p], ident) == Merged(Dedup(s, ident), p, ident)
  {
    assert (s + [p])[..|s + [p]| - 1] == s;
  }

  lemma DedupUpTo<T, Id>(s: seq<T>, i: nat, ident: T -> Id)
    requires i < |s|
    ensures Dedup(s[..i+1], ident) == Merged(Dedup(s[..i], ident), s[i], ident)
  {
    assert s[..i+1] == s[..i] + [s[i]];
    DedupSnoc(s[..i], s[i], ident);
  }

  method RewarmDedup<T, Id(==)>(emissions: seq<T>, ident: T -> Id) returns (out: seq<T>)
    ensures out == Dedup(emissions, ident)
  {
    out := [];
    var i := 0;
    assert emissions[..0] == [];
    while i < |emissions|
      invariant 0 <= i <= |emissions|
      invariant out == Dedup(emissions[..i], ident)
    {
      var p := emissions[i];
      ghost var before := out;
      if out != [] && ident(out[|out|-1]) == ident(p) {
        out := out[|out|-1 := p];
      } else {
        out := out + [p];
      }
      assert out == Merged(before, p, ident);
      DedupUpTo(emissions, i, ident);
      i := i + 1;
    }
    assert emissions[..|emissions|] == emissions;
  }

  /** `p` is the last element with its stamp. */
  ghost predicate Survives<T>(s: seq<T>, p: T, stamp: T -> int) {
    exists i :: 0 <= i < |s| && s[i] == p && forall j :: i < j < |s| ==> stamp(s[j]) != stamp(p)
  }

  lemma SurvivesSnoc<T>(s: seq<T>, last: T, p: T, stamp: T -> int)
    ensures Survives(s + [last], p, stamp) <==> p == last || (Survives(s, p, stamp) && stamp(p) != stamp(last))
  {
    var more := s + [last];
    assert more[|s|] == last;
    if Survives(s, p, stamp) && stamp(p) != stamp(last) {
      var i :| 0 <= i < |s| && s[i] == p && forall j :: i < j < |s| ==> stamp(s[j]) != stamp(p);
      assert more[i] == p && forall j :: i < j < |more| ==> stamp(more[j]) != stamp(p);
    }
    if Survives(more, p, stamp) && p != last {
      var i :| 0 <= i < |more| && more[i] == p && forall j :: i < j < |more| ==> stamp(more[j]) != stamp(p);
      assert s[i] == p && forall j :: i < j < |s| ==> s[j] == more[j];
    }
  }

  /** On a stream whose stamps never go back, the reduction is strictly increasing. */
  lemma {:induction false} DedupIncreases<T>(emissions: seq<T>, stamp: T -> int)
    requires NonDecreasing(emissions, stamp)
    ensures Increasing(Dedup(emissions, stamp), stamp)
    decreases |emissions|
  {
    if emissions != [] {
      var n := |emissions| - 1;
      DedupIncreases(emissions[..n], stamp);
      assert n > 0 ==> emissions[..n][n-1] == emissions[n-1] && stamp(emissions[n-1]) <= stamp(emissions[n]);
      MergedIncreases(Dedup(emissions[..n], stamp), emissions[n], stamp);
    }
  }

  lemma MergedIncreases<T>(before: seq<T>, p: T, stamp: T -> int)
    requires Increasing(before, stamp) && (before != [] ==> stamp(before[|before|-1]) <= stamp(p))
    ensures Increasing(Merged(before, p, stamp), stamp)
  {
    if before != [] && stamp(before[|before|-1]) == stamp(p) {
      var init := before[..|before|-1];
      PrefixIncreases(before, |init|, stamp);
      forall q | q in init ensures stamp(q) < stamp(p) {
        var i :| 0 <= i < |init| && init[i] == q;
        LaterIsFurther(before, i, |init|, stamp);
      }
      SnocIncreases(init, p, stamp);
    } else {
      forall q | q in before ensures stamp(q) < stamp(p) {
        var i :| 0 <= i < |before| && before[i] == q;
        LaterIsFurther(before, i, |before| - 1, stamp);
      }
      SnocIncreases(before, p, stamp);
    }
  }

  lemma SnocIncreases<T>(s: seq<T>, p: T, stamp: T -> int)
    requires Increasing(s, stamp) && forall q :: q in s ==> stamp(q) < stamp(p)
    ensures Increasing(s + [p], stamp)
  {
    var more := s + [p];
    forall i, j | 0 <= i < j < |more| ensures stamp(more[i]) < stamp(more[j]) {
      if j < |s| {
        LaterIsFurther(s, i, j, stamp);
      } else {
        assert more[i] in s;
      }
    }
  }

  /** ... and it keeps exactly the last emission of every stamp. */
  lemma {:induction false} DedupKeepsLast<T>(emissions: seq<T>, p: T, stamp: T -> int)
    requires NonDecreasing(emissions, stamp)
    ensures p in Dedup(emissions, stamp) <==> Survives(emissions, p, stamp)
    decreases |emissions|
  {
    if emissions != [] {
      var n := |emissions| - 1;
      var init, last := emissions[..n], emissions[n];
      assert emissions == init + [last];
      DedupKeepsLast(init, p, stamp);
      DedupIncreases(init, stamp);
      SurvivesSnoc(init, last, p, stamp);
      var before := Dedup(init, stamp);
      if before != [] { LastIsLargest(before, p, stamp); }
      if before != [] && stamp(before[|before|-1]) == stamp(last) {
        var m := |before| - 1;
        assert Dedup(emissions, stamp) == before[..m] + [last];
      } else {
        assert Dedup(emissions, stamp) == before + [last];
      }
    }
  }

  lemma LastIsLargest<T>(s: seq<T>, p: T, stamp: T -> int)
    requires Increasing(s, stamp) && s != []
    ensures p in s <==> p in s[..|s|-1] || p == s[|s|-1]
    ensures p in s[..|s|-1] ==> stamp(p) < stamp(s[|s|-1])
  {
    assert s == s[..|s|-1] + [s[|s|-1]];
  }

  lemma {:induction false} DedupOfIncreasing<T>(s: seq<T>, stamp: T -> int)
    requires Increasing(s, stamp)
    ensures Dedup(s, stamp) == s
    decreases |s|
  {
    if s != [] {
      var n := |s| - 1;
      var init := s[..n];
      PrefixIncreases(s, n, stamp);
      DedupOfIncreasing(init, stamp);
      assert n > 0 ==> init[n-1] == s[n-1] && stamp(s[n-1]) < stamp(s[n]);
      assert Dedup(s, stamp) == init + [s[n]];
    }
  }

  lemma {:induction false} DedupTwice<T>(a: seq<T>, b: seq<T>, stamp: T -> int)
    requires NonDecreasing(a, stamp)
    ensures Dedup(Dedup(a, stamp) + b, stamp) == Dedup(a + b, stamp)
    decreases |b|
  {
    if b == [] {
      DedupIncreases(a, stamp);
      DedupOfIncreasing(Dedup(a, stamp), stamp);
      assert Dedup(a, stamp) + b == Dedup(a, stamp) && a + b == a;
    } else {
      DedupTwice(a, b[..|b|-1], stamp);
      DedupLast(Dedup(a, stamp), b, stamp);
      DedupLast(a, b, stamp);
    }
  }

  lemma DedupLast<T>(a: seq<T>, b: seq<T>, stamp: T -> int)
    requires b != []
    ensures Dedup(a + b, stamp) == Merged(Dedup(a + b[..|b|-1], stamp), b[|b|-1], stamp)
  {
    DedupSnoc(a + b[..|b|-1], b[|b|-1], stamp);
    AppendLast(a, b);
  }

  /** Where a stream ends in a stretch without repeated stamps, its reduction ends in that stretch. */
  lemma {:induction false} DedupEndsWith<T>(front: seq<T>, stretch: seq<T>, stamp: T -> int)
    requires stretch != [] && Increasing(stretch, stamp)
    ensures |Dedup(front + stretch, stamp)| >= |stretch|
    ensures Tail(Dedup(front + stretch, stamp), |stretch|) == stretch
    decreases |stretch|
  {
    var init, last := stretch[..|stretch|-1], stretch[|stretch|-1];
    var before := Dedup(front + init, stamp);
    assert stretch == init + [last];
    assert front + stretch == (front + init) + [last];
    DedupSnoc(front + init, last, stamp);
    if init != [] {
      PrefixIncreases(stretch, |init|, stamp);
      DedupEndsWith(front, init, stamp);
      LaterIsFurther(stretch, |init| - 1, |init|, stamp);
    }
    MergedEndsWith(before, init, last, stamp);
  }

  lemma MergedEndsWith<T>(before: seq<T>, stretch: seq<T>, p: T, stamp: T -> int)
    requires |before| >= |stretch| && Tail(before, |stretch|) == stretch
    requires stretch != [] ==> stamp(stretch[|stretch|-1]) < stamp(p)
    ensures |Merged(before, p, stamp)| > |stretch|
    ensures Tail(Merged(before, p, stamp), |stretch| + 1) == stretch + [p]
  {
    if stretch != [] {
      LastOfTail(before, |stretch|);
      TailSnoc(before, |stretch|, p);
    }
  }

  lemma LastOfTail<T>(s: seq<T>, n: nat)
    requires n >= 1 && s != []
    ensures Tail(s, n) != [] && Tail(s, n)[|Tail(s, n)|-1] == s[|s|-1]
  {
  }

  lemma TailSnoc<T>(s: seq<T>, n: nat, x: T)
    requires n <= |s|
    ensures Tail(s + [x], n + 1) == Tail(s, n) + [x]
  {
  }

  lemma EmptyOrMember<T>(s: seq<T>)
    ensures s == [] || s[0] in s
  {
  }

  /** Two rings with increasing stamps and the same points are the same ring. */
  lemma {:induction false} IncreasingUnique<T>(a: seq<T>, b: seq<T>, stamp: T -> int)
    requires Increasing(a, stamp) && Increasing(b, stamp)
    requires forall p :: p in a <==> p in b
    ensures a == b
    decreases |a|
  {
    if a == [] {
      EmptyOrMember(b);
    } else {
      var m := |a| - 1;
      assert a[m] in b;
      var n := |b| - 1;
      assert b[n] in a;
      assert a[m] == b[n];
      forall p ensures p in a[..m] <==> p in b[..n] {
        if p in a[..m] {
          var i :| 0 <= i < m && a[i] == p;
          assert a[i] in b;
        }
        if p in b[..n] {
          var i :| 0 <= i < n && b[i] == p;
          assert b[i] in a;
        }
      }
      IncreasingUnique(a[..m], b[..n], stamp);
      assert a == a[..m] + [a[m]] && b == b[..n] + [b[n]];
    }
  }

  /** The cold start's upserts and the rewarm's reduction agree on every stream whose stamps
      never go back. */
  lemma {:induction false} UpsertsAreDedup<T>(emissions: seq<T>, stamp: T -> int)
    requires NonDecreasing(emissions, stamp)
    ensures UpsertAll([], emissions, stamp) == Dedup(emissions, stamp)
    decreases |emissions|
  {
    if emissions != [] {
      var n := |emissions| - 1;
      var init := emissions[..n];
      UpsertsAreDedup(init, stamp);
      assert emissions == init + [emissions[n]];
      UpsertAllSnoc([], init, emissions[n], stamp);
      DedupIncreases(init, stamp);
      UpsertAtEnd(Dedup(init, stamp), emissions[n], stamp);
    }
  }

  /** An upsert that is no older than the ring touches at most the newest point. */
  lemma UpsertAtEnd<T>(ring: seq<T>, p: T, stamp: T -> int)
    requires Increasing(ring, stamp) && (ring != [] ==> stamp(ring[|ring|-1]) <= stamp(p))
    ensures Upsert(ring, p, stamp)
         == if ring != [] && stamp(ring[|ring|-1]) == stamp(p) then ring[..|ring|-1] + [p] else ring + [p]
  {
    if ring != [] && stamp(ring[|ring|-1]) == stamp(p) {
      NewestIs(ring, |ring| - 1, stamp(p), stamp);
    } else {
      NewestIs(ring, -1, stamp(p), stamp);
    }
  }

  /** An upsert no older than the ring keeps the stamps in order, and may as well come after an eviction. */
  lemma UpsertThenTail<T>(ring: seq<T>, p: T, n: nat, stamp: T -> int)
    requires n >= 1 && Increasing(ring, stamp) && (ring != [] ==> stamp(ring[|ring|-1]) <= stamp(p))
    ensures Tail(Upsert(Tail(ring, n), p, stamp), n) == Tail(Upsert(ring, p, stamp), n)
  {
    TailIncreases(ring, n, stamp);
    UpsertAtEnd(ring, p, stamp);
    UpsertAtEnd(Tail(ring, n), p, stamp);
    MergedThenTail(ring, p, n, stamp);
  }

  lemma MergedThenTail<T, Id>(ring: seq<T>, p: T, n: nat, ident: T -> Id)
    requires n >= 1
    ensures Tail(Merged(Tail(ring, n), p, ident), n) == Tail(Merged(ring, p, ident), n)
  {
    if ring != [] {
      LastOfTail(ring, n);
      TailThenSnoc(ring[..|ring|-1], p, n);
      FrontOfTail(ring, n);
      TailThenSnoc(Tail(ring, n)[..|Tail(ring, n)|-1], p, n);
    }
    TailThenSnoc(ring, p, n);
    TailThenSnoc(Tail(ring, n), p, n);
    TailOfTail(ring, n);
  }

  lemma TailThenSnoc<T>(s: seq<T>, p: T, n: nat)
    requires n >= 1
    ensures Tail(s + [p], n) == Tail(s, n - 1) + [p]
  {
  }

  lemma TailOfTail<T>(s: seq<T>, n: nat)
    requires n >= 1
    ensures Tail(Tail(s, n), n - 1) == Tail(s, n - 1)
  {
  }

  lemma FrontOfTail<T>(s: seq<T>, n: nat)
    requires s != [] && n >= 1
    ensures Tail(Tail(s, n)[..|Tail(s, n)|-1], n - 1) == Tail(s[..|s|-1], n - 1)
  {
    assert Tail(s, n)[..|Tail(s, n)|-1] == Tail(s[..|s|-1], n - 1);
  }

  lemma TailIncreases<T>(s: seq<T>, n: nat, stamp: T -> int)
    requires Increasing(s, stamp)
    ensures Increasing(Tail(s, n), stamp)
  {
    var tail := Tail(s, n);
    var from := |s| - |tail|;
    forall i, j | 0 <= i < j < |tail| ensures stamp(tail[i]) < stamp(tail[j]) {
      LaterIsFurther(s, from + i, from + j, stamp);
    }
  }

  lemma {:induction false} UpsertAllSnoc<T>(ring: seq<T>, points: seq<T>, p: T, stamp: T -> int)
    ensures UpsertAll(ring, points + [p], stamp) == Upsert(UpsertAll(ring, points, stamp), p, stamp)
    decreases |points|
  {
    if points == [] {
      assert points + [p] == [p] && [p][1..] == [];
    } else {
      assert (points + [p])[1..] == points[1..] + [p];
      UpsertAllSnoc(Upsert(ring, points[0], stamp), points[1..], p, stamp);
    }
  }

  // ---------------------------------------------------------------------------
  // Splice: path-dependent kinds, where the live ring wins
  // ---------------------------------------------------------------------------

  /** The points no newer than the head of the ring; all of them when the ring is empty. */
  function NotAfterHead<T>(rebuilt: seq<T>, existing: seq<T>, stamp: T -> int): seq<T> {
    if rebuilt == [] then []
    else
      var n := |rebuilt| - 1;
      var rest := NotAfterHead(rebuilt[..n], existing, stamp);
      if existing == [] || stamp(rebuilt[n]) <= stamp(existing[0]) then rest + [rebuilt[n]] else rest
  }

  lemma {:induction false} NotAfterHeadMembers<T(!new)>(rebuilt: seq<T>, existing: seq<T>, stamp: T -> int)
    ensures forall p :: p in NotAfterHead(rebuilt, existing, stamp) <==>
              p in rebuilt && (existing == [] || stamp(p) <= stamp(existing[0]))
    decreases |rebuilt|
  {
    if rebuilt != [] {
      var n := |rebuilt| - 1;
      NotAfterHeadMembers(rebuilt[..n], existing, stamp);
      assert rebuilt == rebuilt[..n] + [rebuilt[n]];
    }
  }

  lemma {:induction false} NotAfterHeadIncreases<T(!new)>(rebuilt: seq<T>, existing: seq<T>, stamp: T -> int)
    requires Increasing(rebuilt, stamp)
    ensures Increasing(NotAfterHead(rebuilt, existing, stamp), stamp)
    decreases |rebuilt|
  {
    if rebuilt != [] {
      var n := |rebuilt| - 1;
      var rest := NotAfterHead(rebuilt[..n], existing, stamp);
      NotAfterHeadIncreases(rebuilt[..n], existing, stamp);
      NotAfterHeadMembers(rebuilt[..n], existing, stamp);
      forall i | 0 <= i < |rest| ensures stamp(rest[i]) < stamp(rebuilt[n]) {
        assert rest[i] in rest;
      }
    }
  }

  /** What a splice prepends: the points no newer than the head, without a last one that has
      the identity of the head. */
  function Prepended<T, Id(==)>(rebuilt: seq<T>, existing: seq<T>, stamp: T -> int, ident: T -> Id): seq<T> {
    var older := NotAfterHead(rebuilt, existing, stamp);
    if older != [] && existing != [] && ident(older[|older|-1]) == ident(existing[0]) then older[..|older|-1]
    else older
  }

  /** Split off the part of a rebuilt window that goes in front of the ring, and put it there.
      The ring grows to hold everything. */
  method RewarmSplice<T, Id(==)>(series: Series<T>, rebuilt: seq<T>, ident: T -> Id) returns (older: seq<T>)
    requires series.Valid()
    modifies series
    ensures series.Valid()
    ensures older == Prepended(rebuilt, old(series.ring), series.stamp, ident)
    ensures series.ring == older + old(series.ring)
    ensures series.capacity == (if older == [] then old(series.capacity)
                                else Max(|series.ring|, old(series.capacity)))
  {
    if rebuilt == [] { return []; }
    var existing := series.ring;
    older := KeepNotAfterHead(rebuilt, existing, series.stamp);
    if older == [] { return []; }
    if existing != [] && ident(older[|older|-1]) == ident(existing[0]) {
      older := older[..|older|-1];
    }
    if older == [] { return []; }
    PutInFront(series, older);
  }

  /** Refill the ring with `older` ahead of what it holds, large enough to evict nothing. */
  method PutInFront<T>(series: Series<T>, older: seq<T>)
    requires series.Valid() && older != []
    modifies series
    ensures series.Valid() && series.ring == older + old(series.ring)
    ensures series.capacity == Max(|series.ring|, old(series.capacity))
  {
    var existing := series.ring;
    var mergedLen := |older| + |existing|;
    var merged := new Series(Max(mergedLen, series.capacity), series.stamp);
    merged.Extend(older);
    assert merged.ring == [] + older == older;
    merged.Extend(existing);
    series.capacity, series.ring := merged.capacity, merged.ring;
  }

  method KeepNotAfterHead<T>(rebuilt: seq<T>, existing: seq<T>, stamp: T -> int) returns (older: seq<T>)
    ensures older == NotAfterHead(rebuilt, existing, stamp)
  {
    older := [];
    var i := 0;
    assert rebuilt[..0] == [];
    while i < |rebuilt|
      invariant 0 <= i <= |rebuilt|
      invariant older == NotAfterHead(rebuilt[..i], existing, stamp)
    {
      assert rebuilt[..i+1][..i] == rebuilt[..i];
      if existing == [] || stamp(rebuilt[i]) <= stamp(existing[0]) {
        older := older + [rebuilt[i]];
      }
      i := i + 1;
    }
    assert rebuilt[..|rebuilt|] == rebuilt;
  }

  /** The newest rebuilt point that is not after the head, if it falls on the head's stamp,
      is recognised as the head. */
  ghost predicate SeamRecognised<T(!new), Id>(rebuilt: seq<T>, existing: seq<T>, stamp: T -> int, ident: T -> Id) {
    existing != [] ==>
      forall p :: p in rebuilt && stamp(p) == stamp(existing[0]) ==> ident(p) == ident(existing[0])
  }

  /** A splice of increasing windows stays increasing exactly when the seam is recognised, which
      identity by stamp guarantees and any other identity has to earn. */
  lemma SpliceIncreasingIff<T(!new), Id>(rebuilt: seq<T>, existing: seq<T>, stamp: T -> int, ident: T -> Id)
    requires Increasing(rebuilt, stamp) && Increasing(existing, stamp)
    ensures Increasing(Prepended(rebuilt, existing, stamp, ident) + existing, stamp)
            <==> SeamRecognised(rebuilt, existing, stamp, ident)
  {
    var older := NotAfterHead(rebuilt, existing, stamp);
    NotAfterHeadMembers(rebuilt, existing, stamp);
    NotAfterHeadIncreases(rebuilt, existing, stamp);
    if existing != [] {
      if SeamRecognised(rebuilt, existing, stamp, ident) {
        RecognisedSeamIncreases(rebuilt, existing, stamp, ident);
      } else {
        var p :| p in rebuilt && stamp(p) == stamp(existing[0]) && ident(p) != ident(existing[0]);
        var last := |older| - 1;
        var i :| 0 <= i <= last && older[i] == p;
        assert older[last] in older;
        LaterIsFurther(older, i, last, stamp);
        var merged := Prepended(rebuilt, existing, stamp, ident) + existing;
        assert merged[last] == p && merged[last+1] == existing[0];
      }
    }
  }

  lemma RecognisedSeamIncreases<T(!new), Id>(rebuilt: seq<T>, existing: seq<T>, stamp: T -> int, ident: T -> Id)
    requires Increasing(rebuilt, stamp) && Increasing(existing, stamp) && existing != []
    requires SeamRecognised(rebuilt, existing, stamp, ident)
    ensures Increasing(Prepended(rebuilt, existing, stamp, ident) + existing, stamp)
  {
    var older := NotAfterHead(rebuilt, existing, stamp);
    var before := Prepended(rebuilt, existing, stamp, ident);
    var h := stamp(existing[0]);
    NotAfterHeadMembers(rebuilt, existing, stamp);
    NotAfterHeadIncreases(rebuilt, existing, stamp);
    forall p | p in before ensures stamp(p) <= h - 1 {
      var i :| 0 <= i < |before| && before[i] == p;
      assert older[i] in older && older[|older|-1] in older;
      LaterIsFurther(older, i, |older| - 1, stamp);
    }
    forall p | p in existing ensures h - 1 < stamp(p) {
      var i :| 0 <= i < |existing| && existing[i] == p;
      LaterIsFurther(existing, 0, i, stamp);
    }
    ConcatIncreases(before, existing, h - 1, stamp);
  }

  /** Splicing the same window a second time prepends nothing. */
  lemma SpliceIsIdempotent<T(!new)>(rebuilt: seq<T>, existing: seq<T>, stamp: T -> int)
    requires Increasing(rebuilt, stamp) && Increasing(existing, stamp)
    ensures var merged := Prepended(rebuilt, existing, stamp, stamp) + existing;
            merged != [] ==> Prepended(rebuilt, merged, stamp, stamp) == []
  {
    var older := NotAfterHead(rebuilt, existing, stamp);
    var before := Prepended(rebuilt, existing, stamp, stamp);
    var merged := before + existing;
    NotAfterHeadMembers(rebuilt, existing, stamp);
    NotAfterHeadIncreases(rebuilt, existing, stamp);
    if before != [] {
      // the head is now the oldest rebuilt point, and only that one is not after it
      var again := NotAfterHead(rebuilt, merged, stamp);
      NotAfterHeadMembers(rebuilt, merged, stamp);
      NotAfterHeadIncreases(rebuilt, merged, stamp);
      assert older[0] in older;
      NothingOlder(rebuilt, older, stamp);
      forall i | 0 <= i < |again| ensures stamp(again[i]) == stamp(older[0]) {
        assert again[i] in again && again[i] in older;
      }
      assert older[0] in again;
      FirstBelowLast(again, stamp);
    } else {
      assert merged == existing;
    }
  }

  lemma FirstBelowLast<T>(s: seq<T>, stamp: T -> int)
    requires Increasing(s, stamp)
    ensures |s| >= 2 ==> stamp(s[0]) < stamp(s[|s|-1])
  {
  }

  lemma NothingOlder<T(!new)>(rebuilt: seq<T>, older: seq<T>, stamp: T -> int)
    requires Increasing(older, stamp) && older != []
    ensures forall p :: p in older ==> stamp(older[0]) <= stamp(p)
  {
  }

  // ---------------------------------------------------------------------------
  // Splice: time-bucketed kinds, where the rebuild wins
  // ---------------------------------------------------------------------------

  /** The ring after a splice where the rebuild wins: rebuilt points up to the head, and what
      the ring holds beyond a head that was rebuilt. */
  function SplicedOver<T>(rebuilt: seq<T>, existing: seq<T>, stamp: T -> int): seq<T> {
    var older := NotAfterHead(rebuilt, existing, stamp);
    if older == [] then existing
    else older + existing[if existing != [] && stamp(older[|older|-1]) == stamp(existing[0]) then 1 else 0..]
  }

  /** Splice a rebuilt window over the head of the ring, growing the ring to hold everything. */
  method SpliceOver<T>(series: Series<T>, rebuilt: seq<T>) returns (older: seq<T>)
    requires series.Valid()
    modifies series
    ensures series.Valid()
    ensures older == NotAfterHead(rebuilt, old(series.ring), series.stamp)
    ensures series.ring == SplicedOver(rebuilt, old(series.ring), series.stamp)
  {
    var existing := series.ring;
    older := KeepNotAfterHead(rebuilt, existing, series.stamp);
    if older == [] { return []; }
    var boundaryReplaced := existing != [] && series.stamp(older[|older|-1]) == series.stamp(existing[0]);
    series.ring := existing[if boundaryReplaced then 1 else 0..];
    PutInFront(series, older);
  }

  /** Behind its head, a ring that holds the newest of `points` holds exactly the later ones. */
  lemma BehindHead<T(!new)>(points: seq<T>, ring: seq<T>, stamp: T -> int)
    requires Increasing(points, stamp) && ring != [] && |ring| <= |points| && ring == points[|points|-|ring|..]
    ensures Increasing(ring[1..], stamp)
    ensures forall p :: p in ring[1..] <==> p in points && stamp(p) > stamp(ring[0])
  {
    var j := |points| - |ring|;
    SuffixIncreases(points, j + 1, stamp);
    assert ring[0] == points[j] && ring[1..] == points[j+1..];
    forall p ensures p in ring[1..] <==> p in points && stamp(p) > stamp(ring[0]) {
      AfterIs(points, j, p, stamp);
    }
  }

  lemma SuffixIncreases<T>(points: seq<T>, from: nat, stamp: T -> int)
    requires Increasing(points, stamp) && from <= |points|
    ensures Increasing(points[from..], stamp)
  {
    var rest := points[from..];
    forall i, k | 0 <= i < k < |rest| ensures stamp(rest[i]) < stamp(rest[k]) {
      LaterIsFurther(points, from + i, from + k, stamp);
    }
  }

  lemma AfterIs<T>(points: seq<T>, j: nat, p: T, stamp: T -> int)
    requires Increasing(points, stamp) && j < |points|
    ensures p in points[j+1..] <==> p in points && stamp(p) > stamp(points[j])
  {
    if p in points {
      var i :| 0 <= i < |points| && points[i] == p;
      if i > j {
        LaterIsFurther(points, j, i, stamp);
        assert points[j+1..][i-j-1] == p;
      } else if i < j {
        LaterIsFurther(points, i, j, stamp);
      }
    }
    if p in points[j+1..] {
      var k :| 0 <= k < |points[j+1..]| && points[j+1..][k] == p;
      LaterIsFurther(points, j, j + 1 + k, stamp);
    }
  }

  /** A window that rebuilds the head keeps it as the last of the points not after the head. */
  lemma {:induction false} HeadIsKept<T(!new)>(rebuilt: seq<T>, ring: seq<T>, head: T, stamp: T -> int)
    requires Increasing(rebuilt, stamp) && ring != [] && head in rebuilt && stamp(head) == stamp(ring[0])
    ensures var kept := NotAfterHead(rebuilt, ring, stamp);
            kept != [] && kept[|kept|-1] == head && Increasing(kept, stamp)
  {
    var kept := NotAfterHead(rebuilt, ring, stamp);
    NotAfterHeadIncreases(rebuilt, ring, stamp);
    NotAfterHeadMembers(rebuilt, ring, stamp);
    var i :| 0 <= i < |kept| && kept[i] == head;
    var last := |kept| - 1;
    assert kept[last] in kept;
    LaterIsFurther(kept, i, last, stamp);
  }

  /** A stamp that the ring repeats is still repeated after the splice. */
  lemma SplicedOverRepeats<T(!new)>(rebuilt: seq<T>, ring: seq<T>, head: T, i: nat, stamp: T -> int)
    requires Increasing(rebuilt, stamp) && i + 1 < |ring| && stamp(ring[i]) == stamp(ring[i+1])
    requires head in rebuilt && stamp(head) == stamp(ring[0])
    ensures !Increasing(SplicedOver(rebuilt, ring, stamp), stamp)
  {
    HeadIsKept(rebuilt, ring, head, stamp);
    var kept, rest := NotAfterHead(rebuilt, ring, stamp), ring[1..];
    var k := |kept| + i;
    var spliced := kept + rest;
    assert spliced[k] == rest[i] == ring[i+1];
    assert stamp(spliced[k-1]) == stamp(ring[i]) by {
      assert i > 0 ==> spliced[k-1] == rest[i-1];
    }
  }

  /** The spliced ring of a window that rebuilds the head: the rebuilt points up to the head,
      the live points after it, in order. */
  lemma SplicedOverMembers<T(!new)>(rebuilt: seq<T>, points: seq<T>, ring: seq<T>, head: T, stamp: T -> int)
    requires Increasing(rebuilt, stamp) && Increasing(points, stamp)
    requires ring != [] && |ring| <= |points| && ring == points[|points|-|ring|..]
    requires head in rebuilt && stamp(head) == stamp(ring[0])
    ensures Increasing(SplicedOver(rebuilt, ring, stamp), stamp)
    ensures forall p :: p in SplicedOver(rebuilt, ring, stamp) <==>
              if stamp(p) <= stamp(ring[0]) then p in rebuilt else p in points
  {
    HeadIsKept(rebuilt, ring, head, stamp);
    BehindHead(points, ring, stamp);
    NotAfterHeadMembers(rebuilt, ring, stamp);
    ConcatIncreases(NotAfterHead(rebuilt, ring, stamp), ring[1..], stamp(ring[0]), stamp);
  }
}
