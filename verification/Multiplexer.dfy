/** The reference-counted stream multiplexer: acquire, release, grace timers, forwarder exits. */
module Multiplexer {
  import opened Market

  type Key = nat
  type Timer = nat
  type ForwarderId = nat

  /** One running stream. `graceCancel` is the cancel channel of the pending grace timer. */
  datatype Mux = Mux(consumers: nat, graceCancel: Option<Timer>, forwarder: ForwarderId)

  /** `timers` are the grace tasks still alive with the key they watch, `cancelled` those whose
      cancel channel was used or dropped, `signalled` the forwarders told to shut down (or whose
      shutdown channel was dropped). */
  datatype Station = Station(grace: nat, muxes: map<Key, Mux>, timers: map<Timer, Key>,
                             cancelled: set<Timer>, nextTimer: Timer, signalled: set<ForwarderId>)

  /** Wrap-around of the consumer counter below zero. */
  const USIZE_MAX := 0xFFFF_FFFF_FFFF_FFFF

  // ---------------------------------------------------------------------------
  // The atomic sections of the station
  // ---------------------------------------------------------------------------

  /** Joining a running stream cancels its grace timer and counts one more consumer. */
  function Joined(st: Station, k: Key): Station
    requires k in st.muxes
  {
    var m := st.muxes[k];
    st.(muxes := st.muxes[k := m.(consumers := m.consumers + 1, graceCancel := None)],
        cancelled := st.cancelled + Slot(m.graceCancel))
  }

  function Slot(t: Option<Timer>): set<Timer> {
    if t.Some? then {t.value} else {}
  }

  function Inserted(st: Station, k: Key, f: ForwarderId): Station {
    st.(muxes := st.muxes[k := Mux(1, None, f)])
  }

  /** Dropping a mux drops its cancel channel and fires or drops its shutdown channel. */
  function Removed(st: Station, k: Key): Station
    requires k in st.muxes
  {
    var m := st.muxes[k];
    st.(muxes := st.muxes - {k}, cancelled := st.cancelled + Slot(m.graceCancel),
        signalled := st.signalled + {m.forwarder})
  }

  function Released(st: Station, k: Key): Station {
    if k !in st.muxes then st
    else
      var m := st.muxes[k];
      var left := if m.consumers == 0 then USIZE_MAX else m.consumers - 1;
      if m.consumers > 1 then st.(muxes := st.muxes[k := m.(consumers := left)])
      else if st.grace == 0 then Removed(st, k)
      else
        var t := st.nextTimer;
        st.(muxes := st.muxes[k := Mux(left, Some(t), m.forwarder)], timers := st.timers[t := k],
            cancelled := st.cancelled + Slot(m.graceCancel), nextTimer := t + 1)
  }

  function RemovedIfIdle(st: Station, k: Key): Station {
    if k in st.muxes && st.muxes[k].consumers == 0 then Removed(st, k) else st
  }

  function Fired(st: Station, t: Timer): Station
    requires t in st.timers
  {
    RemovedIfIdle(st.(timers := st.timers - {t}), st.timers[t])
  }

  function ReleasedAll(st: Station, ks: seq<Key>): Station {
    if ks == [] then st else Released(ReleasedAll(st, ks[..|ks|-1]), ks[|ks|-1])
  }

  class StationInner {
    const grace: nat
    var muxes: map<Key, Mux>
    var timers: map<Timer, Key>
    var nextTimer: Timer
    ghost var cancelled: set<Timer>
    ghost var signalled: set<ForwarderId>

    ghost function View(): Station
      reads this
    {
      Station(grace, muxes, timers, cancelled, nextTimer, signalled)
    }

    constructor (grace: nat)
      ensures View() == Station(grace, map[], map[], {}, 0, {})
    {
      this.grace := grace;
      muxes, timers, nextTimer, cancelled, signalled := map[], map[], 0, {}, {};
    }

    /** The reuse path of an acquire; false when the stream has to be spawned first. */
    method AcquireExisting(k: Key) returns (found: bool)
      modifies this
      ensures found <==> k in old(muxes)
      ensures View() == if found then Joined(old(View()), k) else old(View())
    {
      if k in muxes {
        var m := muxes[k];
        var cancel := m.graceCancel;
        m := m.(graceCancel := None);
        if cancel.Some? {
          cancelled := cancelled + {cancel.value};
        }
        muxes := muxes[k := m.(consumers := m.consumers + 1)];
        return true;
      }
      found := false;
    }

    method InsertMux(k: Key, f: ForwarderId)
      modifies this
      ensures View() == Inserted(old(View()), k, f)
    {
      muxes := muxes[k := Mux(1, None, f)];
    }

    method RemoveMux(k: Key)
      requires k in muxes
      modifies this
      ensures View() == Removed(old(View()), k)
    {
      var m := muxes[k];
      muxes := muxes - {k};
      cancelled := cancelled + Slot(m.graceCancel);
      signalled := signalled + {m.forwarder};
    }

    method ReleaseConsumer(k: Key)
      modifies this
      ensures View() == Released(old(View()), k)
    {
      if k !in muxes { return; }
      var m := muxes[k];
      var prev := m.consumers;
      m := m.(consumers := if prev == 0 then USIZE_MAX else prev - 1);
      muxes := muxes[k := m];
      var becameZero := prev <= 1;
      if !becameZero { return; }
      if grace == 0 {
        RemoveMux(k);
        return;
      }
      var t := nextTimer;
      cancelled := cancelled + Slot(m.graceCancel);
      muxes := muxes[k := m.(graceCancel := Some(t))];
      timers, nextTimer := timers[t := k], t + 1;
    }

    /** The grace timer won the race against its cancel channel. */
    method GraceExpired(t: Timer)
      requires t in timers
      modifies this
      ensures View() == Fired(old(View()), t)
    {
      var k := timers[t];
      timers := timers - {t};
      var stillZero := k in muxes && muxes[k].consumers == 0;
      if stillZero {
        RemoveMux(k);
      }
    }

    /** Teardown of a forwarder: release the upstreams, then its own idle mux. */
    method Teardown(k: Key, upstreams: seq<Key>)
      modifies this
      ensures View() == RemovedIfIdle(ReleasedAll(old(View()), upstreams), k)
    {
      var i := 0;
      assert upstreams[..0] == [];
      while i < |upstreams|
        invariant 0 <= i <= |upstreams| && View() == ReleasedAll(old(View()), upstreams[..i])
      {
        assert upstreams[..i+1][..i] == upstreams[..i];
        ReleaseConsumer(upstreams[i]);
        i := i + 1;
      }
      assert upstreams[..|upstreams|] == upstreams;
      var stillConsumers := if k in muxes then muxes[k].consumers else 0;
      if stillConsumers == 0 && k in muxes {
        RemoveMux(k);
      }
    }
  }

  // ---------------------------------------------------------------------------
  // The protocol
  // ---------------------------------------------------------------------------

  /** A first acquire in progress: who waits for it, and the upstreams it has joined so far. */
  datatype Spawn = Spawn(key: Key, requester: Option<Key>, held: seq<Key>)

  datatype Forwarder = Forwarder(id: ForwarderId, key: Key, upstreams: seq<Key>)

  /** The station and everything that holds on to its streams: live references, acquires that
      are counted but have not handed out their reference, spawns, and derived forwarders. */
  datatype System = System(st: Station, refs: multiset<Key>, acquiring: multiset<Key>,
                           spawns: seq<Spawn>, forwarders: seq<Forwarder>, nextForwarder: ForwarderId)

  datatype Action =
    | Join(k: Key)                     // acquire of a running stream by a subscriber
    | JoinFor(i: nat, k: Key)          // ... by spawn `i`, for a derived stream
    | BeginSpawn(k: Key)               // first acquire by a subscriber
    | BeginSpawnFor(i: nat, k: Key)    // ... by spawn `i`, of one of its upstreams
    | FinishSpawn(i: nat)
    | AbortSpawn(i: nat)
    | HandOut(k: Key)                  // a counted acquire pushes its reference
    | DropRef(k: Key)
    | TimerFires(t: Timer)
    | TimerQuits(t: Timer)             // the cancel channel won the race
    | ForwarderExits(i: nat)           // told to, or because its source ended

  ghost predicate Spawning(s: System, k: Key) {
    exists i :: 0 <= i < |s.spawns| && s.spawns[i].key == k
  }

  function SpawnIndex(spawns: seq<Spawn>, k: Key): (i: nat)
    ensures i <= |spawns|
    ensures i < |spawns| ==> spawns[i].key == k
    ensures i == |spawns| ==> forall j :: 0 <= j < |spawns| ==> spawns[j].key != k
  {
    if spawns == [] then 0 else if spawns[0].key == k then 0 else 1 + SpawnIndex(spawns[1..], k)
  }

  /** First acquires of one key never overlap; a spawn aborts only while it holds nothing. */
  ghost predicate Enabled(s: System, a: Action) {
    match a
    case Join(k) => k in s.st.muxes
    case JoinFor(i, k) => i < |s.spawns| && k in s.st.muxes
    case BeginSpawn(k) => k !in s.st.muxes && !Spawning(s, k)
    case BeginSpawnFor(i, k) => i < |s.spawns| && k !in s.st.muxes && !Spawning(s, k)
    case FinishSpawn(i) => i < |s.spawns| && (s.spawns[i].requester.Some? ==> Spawning(s, s.spawns[i].requester.value))
                           && s.spawns[i].requester != Some(s.spawns[i].key)
    case AbortSpawn(i) => i < |s.spawns| && s.spawns[i].held == []
    case HandOut(k) => k in s.acquiring
    case DropRef(k) => k in s.refs
    case TimerFires(t) => t in s.st.timers
    case TimerQuits(t) => t in s.st.timers && t in s.st.cancelled
    case ForwarderExits(i) => i < |s.forwarders|
  }

  function Without<T>(s: seq<T>, i: nat): seq<T>
    requires i < |s|
  {
    s[..i] + s[i+1..]
  }

  /** The hold on `k` goes to whoever waited for it. */
  function Credit(s: System, requester: Option<Key>, k: Key): System {
    match requester
    case None => s.(acquiring := s.acquiring + multiset{k})
    case Some(d) =>
      var j := SpawnIndex(s.spawns, d);
      if j < |s.spawns| then s.(spawns := s.spawns[j := s.spawns[j].(held := s.spawns[j].held + [k])]) else s
  }

  /** The system after a spawn is done, before its hold goes to anybody. */
  function Uncredited(s: System, i: nat): System
    requires i < |s.spawns|
  {
    var sp := s.spawns[i];
    var f := s.nextForwarder;
    s.(st := Inserted(s.st, sp.key, f), spawns := Without(s.spawns, i),
       forwarders := s.forwarders + [Forwarder(f, sp.key, sp.held)], nextForwarder := f + 1)
  }

  ghost function Next(s: System, a: Action): System
    requires Enabled(s, a)
  {
    match a
    case Join(k) => s.(st := Joined(s.st, k), acquiring := s.acquiring + multiset{k})
    case JoinFor(i, k) =>
      s.(st := Joined(s.st, k), spawns := s.spawns[i := s.spawns[i].(held := s.spawns[i].held + [k])])
    case BeginSpawn(k) => s.(spawns := s.spawns + [Spawn(k, None, [])])
    case BeginSpawnFor(i, k) => s.(spawns := s.spawns + [Spawn(k, Some(s.spawns[i].key), [])])
    case FinishSpawn(i) =>
      var sp := s.spawns[i];
      Credit(Uncredited(s, i), sp.requester, sp.key)
    case AbortSpawn(i) => s.(spawns := Without(s.spawns, i))
    case HandOut(k) => s.(acquiring := s.acquiring - multiset{k}, refs := s.refs + multiset{k})
    case DropRef(k) => s.(st := Released(s.st, k), refs := s.refs - multiset{k})
    case TimerFires(t) => s.(st := Fired(s.st, t))
    case TimerQuits(t) => s.(st := s.st.(timers := s.st.timers - {t}))
    case ForwarderExits(i) =>
      var f := s.forwarders[i];
      s.(st := RemovedIfIdle(ReleasedAll(s.st, f.upstreams), f.key), forwarders := Without(s.forwarders, i))
  }

  // ---------------------------------------------------------------------------
  // Who holds a stream
  // ---------------------------------------------------------------------------

  function Count(ks: seq<Key>, k: Key): nat {
    multiset(ks)[k]
  }

  function HeldBySpawns(spawns: seq<Spawn>, k: Key): nat {
    if spawns == [] then 0 else Count(spawns[0].held, k) + HeldBySpawns(spawns[1..], k)
  }

  function HeldByForwarders(fs: seq<Forwarder>, k: Key): nat {
    if fs == [] then 0 else Count(fs[0].upstreams, k) + HeldByForwarders(fs[1..], k)
  }

  function Holders(s: System, k: Key): nat {
    s.refs[k] + s.acquiring[k] + HeldBySpawns(s.spawns, k) + HeldByForwarders(s.forwarders, k)
  }

  function Consumers(st: Station, k: Key): nat {
    if k in st.muxes then st.muxes[k].consumers else 0
  }

  /** Every stream counts its holders and the releases still owed to it. */
  ghost predicate Balanced(s: System, owed: seq<Key>) {
    forall k :: Consumers(s.st, k) == Holders(s, k) + Count(owed, k)
  }

  /** Grace timers: only idle streams have one, and with a grace period every idle stream does. */
  ghost predicate TimersFit(st: Station) {
    && (forall t :: t in st.timers || t in st.cancelled ==> t < st.nextTimer)
    && forall k :: k in st.muxes ==> TimerFits(st, k)
  }

  ghost predicate TimerFits(st: Station, k: Key)
    requires k in st.muxes
  {
    var m := st.muxes[k];
    && (m.consumers == 0 <==> m.graceCancel.Some?)
    && (m.consumers == 0 ==> st.grace > 0)
    && (m.graceCancel.Some? ==>
          && m.graceCancel.value in st.timers && st.timers[m.graceCancel.value] == k
          && m.graceCancel.value !in st.cancelled)
  }

  /** First acquires run one per key, of keys that are not running. */
  ghost predicate SpawnsFit(s: System) {
    && (forall i :: 0 <= i < |s.spawns| ==> s.spawns[i].key !in s.st.muxes)
    && (forall i, j :: 0 <= i < j < |s.spawns| ==> s.spawns[i].key != s.spawns[j].key)
  }

  /** A live forwarder serves the mux of its key, or has been told to stop. */
  ghost predicate ForwardersFit(s: System) {
    forall i :: 0 <= i < |s.forwarders| ==> ForwarderFits(s.st, s.forwarders[i])
  }

  ghost predicate ForwarderFits(st: Station, f: Forwarder) {
    f.id in st.signalled || (f.key in st.muxes && st.muxes[f.key].forwarder == f.id)
  }

  ghost predicate Inv(s: System) {
    Balanced(s, []) && TimersFit(s.st) && SpawnsFit(s) && ForwardersFit(s)
  }

  // ---------------------------------------------------------------------------
  // Sums over spawns and forwarders
  // ---------------------------------------------------------------------------

  lemma CountAppend(xs: seq<Key>, ys: seq<Key>, k: Key)
    ensures Count(xs + ys, k) == Count(xs, k) + Count(ys, k)
  {
  }

  lemma {:induction false} HeldBySpawnsAppend(xs: seq<Spawn>, ys: seq<Spawn>, k: Key)
    ensures HeldBySpawns(xs + ys, k) == HeldBySpawns(xs, k) + HeldBySpawns(ys, k)
    decreases |xs|
  {
    if xs == [] {
      assert xs + ys == ys;
    } else {
      assert (xs + ys)[1..] == xs[1..] + ys;
      HeldBySpawnsAppend(xs[1..], ys, k);
    }
  }

  lemma {:induction false} HeldByForwardersAppend(xs: seq<Forwarder>, ys: seq<Forwarder>, k: Key)
    ensures HeldByForwarders(xs + ys, k) == HeldByForwarders(xs, k) + HeldByForwarders(ys, k)
    decreases |xs|
  {
    if xs == [] {
      assert xs + ys == ys;
    } else {
      assert (xs + ys)[1..] == xs[1..] + ys;
      HeldByForwardersAppend(xs[1..], ys, k);
    }
  }

  lemma OneSpawn(sp: Spawn, k: Key)
    ensures HeldBySpawns([sp], k) == Count(sp.held, k)
  {
    assert [sp][1..] == [];
  }

  lemma OneForwarder(f: Forwarder, k: Key)
    ensures HeldByForwarders([f], k) == Count(f.upstreams, k)
  {
    assert [f][1..] == [];
  }

  lemma SpawnsWithout(spawns: seq<Spawn>, i: nat, k: Key)
    requires i < |spawns|
    ensures HeldBySpawns(spawns, k) == HeldBySpawns(Without(spawns, i), k) + Count(spawns[i].held, k)
  {
    var sp := spawns[i];
    assert spawns == spawns[..i] + ([sp] + spawns[i+1..]);
    HeldBySpawnsAppend(spawns[..i], [sp] + spawns[i+1..], k);
    HeldBySpawnsAppend([sp], spawns[i+1..], k);
    HeldBySpawnsAppend(spawns[..i], spawns[i+1..], k);
    OneSpawn(sp, k);
  }

  lemma ForwardersWithout(fs: seq<Forwarder>, i: nat, k: Key)
    requires i < |fs|
    ensures HeldByForwarders(fs, k) == HeldByForwarders(Without(fs, i), k) + Count(fs[i].upstreams, k)
  {
    var f := fs[i];
    assert fs == fs[..i] + ([f] + fs[i+1..]);
    HeldByForwardersAppend(fs[..i], [f] + fs[i+1..], k);
    HeldByForwardersAppend([f], fs[i+1..], k);
    HeldByForwardersAppend(fs[..i], fs[i+1..], k);
    OneForwarder(f, k);
  }

  /** One more hold for spawn `i`. */
  lemma SpawnHoldsMore(spawns: seq<Spawn>, i: nat, u: Key, k: Key)
    requires i < |spawns|
    ensures var more := spawns[i := spawns[i].(held := spawns[i].held + [u])];
            HeldBySpawns(more, k) == HeldBySpawns(spawns, k) + (if k == u then 1 else 0)
  {
    var more := spawns[i := spawns[i].(held := spawns[i].held + [u])];
    assert Without(more, i) == Without(spawns, i);
    SpawnsWithout(spawns, i, k);
    SpawnsWithout(more, i, k);
    CountAppend(spawns[i].held, [u], k);
  }

  // ---------------------------------------------------------------------------
  // Every section of the station keeps its part of the invariant
  // ---------------------------------------------------------------------------

  lemma RemovalKeeps(s: System, owed: seq<Key>, k: Key)
    requires k in s.st.muxes && Holders(s, k) + Count(owed, k) == 0
    requires forall j :: j != k ==> Consumers(s.st, j) == Holders(s, j) + Count(owed, j)
    requires forall t :: t in s.st.timers || t in s.st.cancelled ==> t < s.st.nextTimer
    requires forall j :: j in s.st.muxes && j != k ==> TimerFits(s.st, j)
    requires s.st.muxes[k].graceCancel.Some? ==> var t := s.st.muxes[k].graceCancel.value;
               t < s.st.nextTimer && (t in s.st.timers ==> s.st.timers[t] == k)
    requires SpawnsFit(s) && ForwardersFit(s)
    ensures var s1 := s.(st := Removed(s.st, k));
            Balanced(s1, owed) && TimersFit(s1.st) && SpawnsFit(s1) && ForwardersFit(s1)
  {
    var s1 := s.(st := Removed(s.st, k));
    forall j ensures Consumers(s1.st, j) == Holders(s1, j) + Count(owed, j) {
      assert Holders(s1, j) == Holders(s, j);
    }
    forall i | 0 <= i < |s.forwarders| ensures ForwarderFits(s1.st, s.forwarders[i]) {
      assert ForwarderFits(s.st, s.forwarders[i]);
    }
    forall j | j in s1.st.muxes ensures TimerFits(s1.st, j) {
      assert TimerFits(s.st, j);
    }
  }

  lemma ReleaseKeeps(s: System, owed: seq<Key>, k: Key)
    requires Balanced(s, owed + [k]) && TimersFit(s.st) && SpawnsFit(s) && ForwardersFit(s)
    ensures var s1 := s.(st := Released(s.st, k));
            Balanced(s1, owed) && TimersFit(s1.st) && SpawnsFit(s1) && ForwardersFit(s1)
  {
    var st1 := Released(s.st, k);
    var s1 := s.(st := st1);
    CountAppend(owed, [k], k);
    assert Consumers(s.st, k) >= 1;
    assert TimerFits(s.st, k);
    forall j | j != k ensures Consumers(s.st, j) == Holders(s, j) + Count(owed, j) {
      CountAppend(owed, [k], j);
    }
    if s.st.muxes[k].consumers == 1 && s.st.grace == 0 {
      RemovalKeeps(s, owed, k);
    } else {
      forall j ensures Consumers(st1, j) == Holders(s1, j) + Count(owed, j) {
        assert Holders(s1, j) == Holders(s, j);
      }
      forall j | j in st1.muxes ensures TimerFits(st1, j) {
        assert TimerFits(s.st, j);
      }
      forall i | 0 <= i < |s.forwarders| ensures ForwarderFits(st1, s.forwarders[i]) {
        assert ForwarderFits(s.st, s.forwarders[i]);
      }
    }
  }

  lemma {:induction false} ReleaseAllKeeps(s: System, owed: seq<Key>, ks: seq<Key>)
    requires Balanced(s, owed + ks) && TimersFit(s.st) && SpawnsFit(s) && ForwardersFit(s)
    ensures var s1 := s.(st := ReleasedAll(s.st, ks));
            Balanced(s1, owed) && TimersFit(s1.st) && SpawnsFit(s1) && ForwardersFit(s1)
    decreases |ks|
  {
    if ks == [] {
      assert owed + ks == owed;
    } else {
      var init, last := ks[..|ks|-1], ks[|ks|-1];
      forall j ensures Count(owed + ks, j) == Count(owed + [last] + init, j) {
        assert ks == init + [last];
        CountAppend(owed, ks, j);
        CountAppend(init, [last], j);
        CountAppend(owed, [last], j);
        CountAppend(owed + [last], init, j);
      }
      assert Balanced(s, owed + [last] + init);
      ReleaseAllKeeps(s, owed + [last], init);
      ReleaseKeeps(s.(st := ReleasedAll(s.st, init)), owed, last);
    }
  }

  lemma RemoveIfIdleKeeps(s: System, k: Key)
    requires Inv(s)
    ensures Inv(s.(st := RemovedIfIdle(s.st, k)))
  {
    if k in s.st.muxes && s.st.muxes[k].consumers == 0 {
      assert TimerFits(s.st, k);
      RemovalKeeps(s, [], k);
    }
  }

  lemma JoinKeeps(s: System, s1: System, k: Key)
    requires Inv(s) && k in s.st.muxes && s1.st == Joined(s.st, k)
    requires s1.forwarders == s.forwarders && |s1.spawns| == |s.spawns|
    requires forall i :: 0 <= i < |s.spawns| ==> s1.spawns[i].key == s.spawns[i].key
    requires forall j :: Holders(s1, j) == Holders(s, j) + (if j == k then 1 else 0)
    ensures Inv(s1)
  {
    assert TimerFits(s.st, k);
    forall j | j in s1.st.muxes ensures TimerFits(s1.st, j) {
      assert TimerFits(s.st, j);
    }
    forall i | 0 <= i < |s1.forwarders| ensures ForwarderFits(s1.st, s1.forwarders[i]) {
      assert ForwarderFits(s.st, s.forwarders[i]);
    }
    forall j ensures Consumers(s1.st, j) == Holders(s1, j) + Count([], j) {
    }
  }

  /** Two systems on the same station with the same holders. */
  lemma SameHoldersKeep(s: System, s1: System)
    requires Inv(s) && s1.st == s.st && s1.forwarders == s.forwarders && SpawnsFit(s1)
    requires forall j :: Holders(s1, j) == Holders(s, j)
    ensures Inv(s1)
  {
    forall j ensures Consumers(s1.st, j) == Holders(s1, j) + Count([], j) {
    }
  }

  lemma UncreditedHolders(s: System, i: nat)
    requires i < |s.spawns|
    ensures forall j :: Holders(Uncredited(s, i), j) == Holders(s, j)
  {
    var sp := s.spawns[i];
    var f := Forwarder(s.nextForwarder, sp.key, sp.held);
    forall j ensures Holders(Uncredited(s, i), j) == Holders(s, j) {
      SpawnsWithout(s.spawns, i, j);
      HeldByForwardersAppend(s.forwarders, [f], j);
      OneForwarder(f, j);
    }
  }

  lemma UncreditedFits(s: System, i: nat)
    requires Inv(s) && i < |s.spawns|
    ensures var mid := Uncredited(s, i);
            TimersFit(mid.st) && SpawnsFit(mid) && ForwardersFit(mid)
  {
    var mid := Uncredited(s, i);
    var k := s.spawns[i].key;
    forall j | j in mid.st.muxes ensures TimerFits(mid.st, j) {
      if j != k { assert TimerFits(s.st, j); }
    }
    forall n | 0 <= n < |mid.forwarders| ensures ForwarderFits(mid.st, mid.forwarders[n]) {
      if n < |s.forwarders| { assert ForwarderFits(s.st, s.forwarders[n]); }
    }
  }

  lemma FinishKeeps(s: System, i: nat)
    requires Inv(s) && Enabled(s, FinishSpawn(i))
    ensures Inv(Next(s, FinishSpawn(i)))
  {
    var mid, s1 := Uncredited(s, i), Next(s, FinishSpawn(i));
    var k := s.spawns[i].key;
    UncreditedHolders(s, i);
    UncreditedFits(s, i);
    CreditCounts(s, mid, i);
    forall j ensures Consumers(s1.st, j) == Holders(s1, j) + Count([], j) {
      assert Consumers(s.st, j) == Holders(s, j) + Count([], j);
      assert Consumers(s1.st, j) == if j == k then 1 else Consumers(s.st, j);
      assert Holders(s1, j) == Holders(s, j) + if j == k then 1 else 0;
    }
  }

  /** The finished stream's one hold goes to the requester, and to nobody else. */
  lemma CreditCounts(s: System, mid: System, i: nat)
    requires i < |s.spawns| && mid.spawns == Without(s.spawns, i) && SpawnsFit(s)
    requires Enabled(s, FinishSpawn(i))
    ensures var s1 := Credit(mid, s.spawns[i].requester, s.spawns[i].key);
            && (forall j :: Holders(s1, j) == Holders(mid, j) + (if j == s.spawns[i].key then 1 else 0))
            && s1.st == mid.st && s1.forwarders == mid.forwarders
            && |s1.spawns| == |mid.spawns|
            && forall n :: 0 <= n < |s1.spawns| ==> s1.spawns[n].key == mid.spawns[n].key
  {
    var k, requester := s.spawns[i].key, s.spawns[i].requester;
    if requester.Some? {
      var j := RequesterWaits(s, i);
      forall x ensures HeldBySpawns(Credit(mid, requester, k).spawns, x)
                    == HeldBySpawns(mid.spawns, x) + (if x == k then 1 else 0) {
        SpawnHoldsMore(mid.spawns, j, k, x);
      }
    }
  }

  lemma RequesterWaits(s: System, i: nat) returns (j: nat)
    requires i < |s.spawns| && s.spawns[i].requester.Some? && Enabled(s, FinishSpawn(i))
    ensures j == SpawnIndex(Without(s.spawns, i), s.spawns[i].requester.value)
    ensures j < |s.spawns| - 1
  {
    var requester, rest := s.spawns[i].requester.value, Without(s.spawns, i);
    j := SpawnIndex(rest, requester);
    var n :| 0 <= n < |s.spawns| && s.spawns[n].key == requester;
    assert rest[if n < i then n else n - 1].key == requester;
  }

  /** Two overlapping first acquires of one key would both insert: the second insertion forgets
      the holders the stream has by then, and keeps the counts exact only if it has none. */
  lemma OverlapIsBalancedIff(s: System, k: Key, f: ForwarderId)
    requires Inv(s)
    ensures Balanced(s.(st := Inserted(s.st, k, f), acquiring := s.acquiring + multiset{k}), []) <==> Holders(s, k) == 0
  {
    var s1 := s.(st := Inserted(s.st, k, f), acquiring := s.acquiring + multiset{k});
    if Holders(s, k) == 0 {
      forall j ensures Consumers(s1.st, j) == Holders(s1, j) + Count([], j) {
        assert Consumers(s.st, j) == Holders(s, j) + Count([], j);
      }
    } else {
      assert Holders(s1, k) + Count([], k) != Consumers(s1.st, k);
    }
  }

  lemma TimerFiresKeeps(s: System, t: Timer)
    requires Inv(s) && t in s.st.timers
    ensures Inv(s.(st := Fired(s.st, t)))
  {
    var k := s.st.timers[t];
    var mid := s.(st := s.st.(timers := s.st.timers - {t}));
    if k in s.st.muxes && s.st.muxes[k].consumers == 0 {
      assert TimerFits(s.st, k);
      forall j | j in s.st.muxes && j != k ensures TimerFits(mid.st, j) {
        assert TimerFits(s.st, j);
      }
      forall j ensures Holders(mid, j) == Holders(s, j) {
      }
      RemovalKeeps(mid, [], k);
    } else {
      forall j | j in s.st.muxes ensures TimerFits(mid.st, j) {
        assert TimerFits(s.st, j);
      }
      forall j ensures Consumers(mid.st, j) == Holders(mid, j) + Count([], j) {
        assert Consumers(s.st, j) == Holders(s, j) + Count([], j);
      }
    }
  }

  lemma ForwarderExitKeeps(s: System, i: nat)
    requires Inv(s) && i < |s.forwarders|
    ensures Inv(Next(s, ForwarderExits(i)))
  {
    var f := s.forwarders[i];
    var mid := s.(forwarders := Without(s.forwarders, i));
    forall j ensures Consumers(mid.st, j) == Holders(mid, j) + Count([] + f.upstreams, j) {
      assert [] + f.upstreams == f.upstreams;
      assert Consumers(s.st, j) == Holders(s, j) + Count([], j);
      ForwardersWithout(s.forwarders, i, j);
    }
    forall n | 0 <= n < |mid.forwarders| ensures ForwarderFits(mid.st, mid.forwarders[n]) {
      assert mid.forwarders[n] == s.forwarders[if n < i then n else n + 1];
    }
    ReleaseAllKeeps(mid, [], f.upstreams);
    RemoveIfIdleKeeps(mid.(st := ReleasedAll(s.st, f.upstreams)), f.key);
  }

  lemma JoinForKeeps(s: System, i: nat, k: Key)
    requires Inv(s) && Enabled(s, JoinFor(i, k))
    ensures Inv(Next(s, JoinFor(i, k)))
  {
    var s1 := Next(s, JoinFor(i, k));
    forall j ensures Holders(s1, j) == Holders(s, j) + (if j == k then 1 else 0) {
      SpawnHoldsMore(s.spawns, i, k, j);
    }
    JoinKeeps(s, s1, k);
  }

  lemma DropKeeps(s: System, k: Key)
    requires Inv(s) && k in s.refs
    ensures Inv(Next(s, DropRef(k)))
  {
    var mid := s.(refs := s.refs - multiset{k});
    forall j ensures Consumers(mid.st, j) == Holders(mid, j) + Count([] + [k], j) {
      assert [] + [k] == [k];
      assert Consumers(s.st, j) == Holders(s, j) + Count([], j);
    }
    ReleaseKeeps(mid, [], k);
  }

  lemma TimerQuitsKeeps(s: System, t: Timer)
    requires Inv(s) && Enabled(s, TimerQuits(t))
    ensures Inv(Next(s, TimerQuits(t)))
  {
    var s1 := Next(s, TimerQuits(t));
    forall j | j in s.st.muxes ensures TimerFits(s1.st, j) {
      assert TimerFits(s.st, j);
    }
    forall j ensures Consumers(s1.st, j) == Holders(s1, j) + Count([], j) {
      assert Consumers(s.st, j) == Holders(s, j) + Count([], j);
    }
  }

  lemma BeginKeeps(s: System, sp: Spawn)
    requires Inv(s) && sp.held == [] && sp.key !in s.st.muxes && !Spawning(s, sp.key)
    ensures Inv(s.(spawns := s.spawns + [sp]))
  {
    var s1 := s.(spawns := s.spawns + [sp]);
    forall j ensures Holders(s1, j) == Holders(s, j) {
      HeldBySpawnsAppend(s.spawns, [sp], j);
      OneSpawn(sp, j);
    }
    SameHoldersKeep(s, s1);
  }

  lemma AbortKeeps(s: System, i: nat)
    requires Inv(s) && i < |s.spawns| && s.spawns[i].held == []
    ensures Inv(s.(spawns := Without(s.spawns, i)))
  {
    var s1 := s.(spawns := Without(s.spawns, i));
    forall j ensures Holders(s1, j) == Holders(s, j) {
      SpawnsWithout(s.spawns, i, j);
    }
    SameHoldersKeep(s, s1);
  }

  /** Every enabled step keeps the counts exact, the timers in place and the forwarders accounted for. */
  lemma StepKeepsInv(s: System, a: Action)
    requires Inv(s) && Enabled(s, a)
    ensures Inv(Next(s, a))
  {
    match a {
      case Join(k) => JoinKeeps(s, Next(s, a), k);
      case JoinFor(i, k) => JoinForKeeps(s, i, k);
      case BeginSpawn(k) => BeginKeeps(s, Spawn(k, None, []));
      case BeginSpawnFor(i, k) => BeginKeeps(s, Spawn(k, Some(s.spawns[i].key), []));
      case FinishSpawn(i) => FinishKeeps(s, i);
      case AbortSpawn(i) => AbortKeeps(s, i);
      case HandOut(k) => SameHoldersKeep(s, Next(s, a));
      case DropRef(k) => DropKeeps(s, k);
      case TimerFires(t) => TimerFiresKeeps(s, t);
      case TimerQuits(t) => TimerQuitsKeeps(s, t);
      case ForwarderExits(i) => ForwarderExitKeeps(s, i);
    }
  }

  // ---------------------------------------------------------------------------
  // Whole runs
  // ---------------------------------------------------------------------------

  ghost function Initial(grace: nat): System {
    System(Station(grace, map[], map[], {}, 0, {}), multiset{}, multiset{}, [], [], 0)
  }

  ghost predicate CanRun(s: System, actions: seq<Action>)
    decreases |actions|
  {
    actions == [] || (Enabled(s, actions[0]) && CanRun(Next(s, actions[0]), actions[1..]))
  }

  ghost function Run(s: System, actions: seq<Action>): System
    requires CanRun(s, actions)
    decreases |actions|
  {
    if actions == [] then s else Run(Next(s, actions[0]), actions[1..])
  }

  /** Every reachable state satisfies the invariant. */
  lemma {:induction false} RunKeepsInv(s: System, actions: seq<Action>)
    requires Inv(s) && CanRun(s, actions)
    ensures Inv(Run(s, actions))
    decreases |actions|
  {
    if actions != [] {
      StepKeepsInv(s, actions[0]);
      RunKeepsInv(Next(s, actions[0]), actions[1..]);
    }
  }

  /** Reference counting, over every run from an empty station: each stream's counter is the
      number of its holders, so a held stream is present; and a stream nobody holds is either
      gone, or, with a grace period, has a live timer whose expiry takes it down. Whether a
      present stream is still served is what `ServedUnlessExited` says. */
  lemma ReferenceCounting(grace: nat, actions: seq<Action>, k: Key)
    requires CanRun(Initial(grace), actions)
    ensures var s := Run(Initial(grace), actions);
            && Consumers(s.st, k) == Holders(s, k)
            && (Holders(s, k) > 0 ==> k in s.st.muxes)
            && (Holders(s, k) == 0 && k in s.st.muxes ==>
                  && grace > 0
                  && var t := s.st.muxes[k].graceCancel;
                     && t.Some? && t.value in s.st.timers && t.value !in s.st.cancelled
                     && k !in Fired(s.st, t.value).muxes)
  {
    Reached(grace, actions);
    var s := Run(Initial(grace), actions);
    assert Consumers(s.st, k) == Holders(s, k) + Count([], k);
    if k in s.st.muxes {
      assert TimerFits(s.st, k);
    }
  }

  lemma {:induction false} GraceNeverChanges(s: System, actions: seq<Action>)
    requires CanRun(s, actions)
    ensures Run(s, actions).st.grace == s.st.grace
    decreases |actions|
  {
    if actions != [] {
      if actions[0].ForwarderExits? {
        ReleasesKeepGrace(s.st, s.forwarders[actions[0].i].upstreams);
      }
      GraceNeverChanges(Next(s, actions[0]), actions[1..]);
    }
  }

  lemma ReleasesKeepGrace(st: Station, ks: seq<Key>)
    ensures ReleasedAll(st, ks).grace == st.grace
  {
  }

  /** A stream is never taken down while held: a step that removes it leaves no holder. */
  lemma NeverRemovedWhileHeld(s: System, a: Action, k: Key)
    requires Inv(s) && Enabled(s, a) && k in s.st.muxes && k !in Next(s, a).st.muxes
    ensures Holders(Next(s, a), k) == 0
  {
    StepKeepsInv(s, a);
    var s1 := Next(s, a);
    assert Consumers(s1.st, k) == Holders(s1, k) + Count([], k);
  }

  // ---------------------------------------------------------------------------
  // Grace
  // ---------------------------------------------------------------------------

  /** The expiry of a timer that watches the stream, or the end of a forwarder of it. */
  ghost predicate MayEnd(s: System, a: Action, k: Key)
    requires Enabled(s, a)
  {
    || (a.TimerFires? && s.st.timers[a.t] == k)
    || (a.ForwarderExits? && s.forwarders[a.i].key == k)
  }

  /** Exactly when a step takes a stream down: it leaves no holder, and there is no grace period, or
      a timer of the stream expires, or a forwarder of it ends. */
  lemma RemovedIff(s: System, a: Action, k: Key)
    requires Inv(s) && Enabled(s, a) && k in s.st.muxes
    ensures k !in Next(s, a).st.muxes <==> Holders(Next(s, a), k) == 0 && (s.st.grace == 0 || MayEnd(s, a, k))
  {
    HeldAfter(s, a, k);
    if s.st.grace > 0 && !MayEnd(s, a, k) {
      StaysUnlessEnded(s, a, k);
    }
  }

  /** After a step a held stream is present, and an idle one only with a grace period. */
  lemma HeldAfter(s: System, a: Action, k: Key)
    requires Inv(s) && Enabled(s, a)
    ensures Consumers(Next(s, a).st, k) == Holders(Next(s, a), k)
    ensures k in Next(s, a).st.muxes && Holders(Next(s, a), k) == 0 ==> s.st.grace > 0
  {
    var s1 := Next(s, a);
    StepKeepsInv(s, a);
    NextKeepsGrace(s, a);
    assert Consumers(s1.st, k) == Holders(s1, k) + Count([], k);
    assert k in s1.st.muxes ==> TimerFits(s1.st, k);
  }

  lemma NextKeepsGrace(s: System, a: Action)
    requires Enabled(s, a)
    ensures Next(s, a).st.grace == s.st.grace
  {
    if a.ForwarderExits? {
      ReleasesKeepGrace(s.st, s.forwarders[a.i].upstreams);
    }
  }

  /** The entry may change its counter and its timer, not its forwarder. */
  ghost predicate Stays(st: Station, st1: Station, k: Key) {
    k in st.muxes ==> k in st1.muxes && st1.muxes[k].forwarder == st.muxes[k].forwarder
  }

  lemma StaysUnlessEnded(s: System, a: Action, k: Key)
    requires Inv(s) && Enabled(s, a) && s.st.grace > 0 && !MayEnd(s, a, k)
    ensures Stays(s.st, Next(s, a).st, k)
  {
    if a.ForwarderExits? {
      ReleasesStay(s.st, s.forwarders[a.i].upstreams, k);
    }
  }

  lemma {:induction false} ReleasesStay(st: Station, ks: seq<Key>, k: Key)
    requires st.grace > 0
    ensures Stays(st, ReleasedAll(st, ks), k)
    decreases |ks|
  {
    if ks != [] {
      ReleasesStay(st, ks[..|ks|-1], k);
      ReleasesKeepGrace(st, ks[..|ks|-1]);
    }
  }

  /** No timer of the stream expires, and no forwarder of it ends. */
  ghost predicate Undisturbed(s: System, actions: seq<Action>, k: Key)
    requires CanRun(s, actions)
    decreases |actions|
  {
    actions != [] ==> !MayEnd(s, actions[0], k) && Undisturbed(Next(s, actions[0]), actions[1..], k)
  }

  lemma {:induction false} UndisturbedStays(s: System, actions: seq<Action>, k: Key)
    requires Inv(s) && CanRun(s, actions) && s.st.grace > 0 && Undisturbed(s, actions, k)
    ensures Stays(s.st, Run(s, actions).st, k)
    decreases |actions|
  {
    if actions != [] {
      StepKeepsInv(s, actions[0]);
      NextKeepsGrace(s, actions[0]);
      StaysUnlessEnded(s, actions[0], k);
      UndisturbedStays(Next(s, actions[0]), actions[1..], k);
    }
  }

  /** The grace period. Whatever is released in a run that no timer of the stream and no end of its
      forwarder disturbs, the stream stays under the same forwarder, which is not told to stop, and can
      be joined: its counter is then one more than its holders, and no timer is pending. */
  lemma GraceKeepsStream(grace: nat, before: seq<Action>, actions: seq<Action>, k: Key)
    requires grace > 0 && CanRun(Initial(grace), before)
    requires var s := Run(Initial(grace), before);
             k in s.st.muxes && CanRun(s, actions) && Undisturbed(s, actions, k)
    ensures var s := Run(Initial(grace), before);
            var e := Run(s, actions);
            && k in e.st.muxes && e.st.muxes[k].forwarder == s.st.muxes[k].forwarder
            && e.st.muxes[k].forwarder !in e.st.signalled
            && Enabled(e, Join(k))
            && var joined := Next(e, Join(k)).st;
               && joined.muxes[k] == Mux(Holders(e, k) + 1, None, s.st.muxes[k].forwarder)
               && joined.muxes[k].forwarder !in joined.signalled
  {
    Reached(grace, before);
    var s, exited := Run(Initial(grace), before), OwnExits(Initial(grace), before);
    UndisturbedStays(s, actions, k);
    RunServes(s, actions, exited);
    RunKeepsInv(s, actions);
    var e := Run(s, actions);
    assert ServedAt(e, exited + OwnExits(s, actions), k);
    assert Consumers(e.st, k) == Holders(e, k) + Count([], k);
  }

  /** What is known of every reachable state. */
  lemma Reached(grace: nat, actions: seq<Action>)
    requires CanRun(Initial(grace), actions)
    ensures var s := Run(Initial(grace), actions);
            Inv(s) && s.st.grace == grace && FreshIds(s) && Served(s, OwnExits(Initial(grace), actions))
            && OnlyPending(s.st)
  {
    var s0 := Initial(grace);
    forall j ensures Consumers(s0.st, j) == Holders(s0, j) + Count([], j) {
    }
    RunKeepsInv(s0, actions);
    GraceNeverChanges(s0, actions);
    RunServes(s0, actions, {});
    RunKeepsPending(s0, actions);
    assert {} + OwnExits(s0, actions) == OwnExits(s0, actions);
  }

  /** Releasing the last reference and joining again within the grace period: in between the stream is
      idle, then it has one consumer and the forwarder it had. */
  lemma ReleaseThenJoin(grace: nat, before: seq<Action>, k: Key)
    requires grace > 0 && CanRun(Initial(grace), before)
    requires var s := Run(Initial(grace), before); k in s.refs && Holders(s, k) == 1
    ensures var s := Run(Initial(grace), before);
            && k in s.st.muxes
            && var idle := Next(s, DropRef(k));
               && k in idle.st.muxes && idle.st.muxes[k].consumers == 0
               && Enabled(idle, Join(k))
               && var joined := Next(idle, Join(k)).st;
                  && joined.muxes[k] == Mux(1, None, s.st.muxes[k].forwarder)
                  && joined.muxes[k].forwarder !in joined.signalled
  {
    ReferenceCounting(grace, before, k);
    var s := Run(Initial(grace), before);
    var drop := [DropRef(k)];
    assert drop[1..] == [] && CanRun(Next(s, DropRef(k)), drop[1..]);
    assert Undisturbed(Next(s, DropRef(k)), drop[1..], k);
    GraceKeepsStream(grace, before, drop, k);
    DropLeavesNone(grace, before, k);
  }

  lemma DropLeavesNone(grace: nat, before: seq<Action>, k: Key)
    requires CanRun(Initial(grace), before)
    requires var s := Run(Initial(grace), before); k in s.refs && Holders(s, k) == 1
    ensures var idle := Next(Run(Initial(grace), before), DropRef(k));
            Holders(idle, k) == 0 && Consumers(idle.st, k) == 0
  {
    Reached(grace, before);
    var s := Run(Initial(grace), before);
    HeldAfter(s, DropRef(k), k);
  }

  /** A timer that still acts is the pending one of an idle stream: joining a stream, or starting a new
      period, does away with the old timer. */
  ghost predicate OnlyPending(st: Station) {
    && (forall t :: t in st.timers || t in st.cancelled ==> t < st.nextTimer)
    && (forall k :: k in st.muxes && st.muxes[k].graceCancel.Some? ==> st.muxes[k].graceCancel.value < st.nextTimer)
    && forall t :: t in st.timers && t !in st.cancelled ==>
         st.timers[t] in st.muxes && st.muxes[st.timers[t]].graceCancel == Some(t)
  }

  lemma {:induction false} ReleasesKeepPending(st: Station, ks: seq<Key>)
    requires OnlyPending(st)
    ensures OnlyPending(ReleasedAll(st, ks))
    decreases |ks|
  {
    if ks != [] {
      ReleasesKeepPending(st, ks[..|ks|-1]);
      ReleaseKeepsPending(ReleasedAll(st, ks[..|ks|-1]), ks[|ks|-1]);
    }
  }

  lemma ReleaseKeepsPending(st: Station, k: Key)
    requires OnlyPending(st)
    ensures OnlyPending(Released(st, k))
  {
    if k in st.muxes && st.muxes[k].consumers <= 1 && st.grace == 0 {
      RemovalKeepsPending(st, k);
    }
  }

  lemma RemovalKeepsPending(st: Station, k: Key)
    requires OnlyPending(st) && k in st.muxes
    ensures OnlyPending(Removed(st, k))
  {
  }

  lemma StepKeepsPending(s: System, a: Action)
    requires Inv(s) && Enabled(s, a) && OnlyPending(s.st)
    ensures OnlyPending(Next(s, a).st)
  {
    match a {
      case DropRef(k) => ReleaseKeepsPending(s.st, k);
      case FinishSpawn(i) =>
        assert Next(s, a).st == Inserted(s.st, s.spawns[i].key, s.nextForwarder);
      case TimerFires(t) => FiringKeepsPending(s.st, t);
      case ForwarderExits(i) =>
        var f := s.forwarders[i];
        ReleasesKeepPending(s.st, f.upstreams);
        IdleRemovalKeepsPending(ReleasedAll(s.st, f.upstreams), f.key);
      case _ =>
    }
  }

  lemma IdleRemovalKeepsPending(st: Station, k: Key)
    requires OnlyPending(st)
    ensures OnlyPending(RemovedIfIdle(st, k))
  {
    if k in st.muxes && st.muxes[k].consumers == 0 {
      RemovalKeepsPending(st, k);
    }
  }

  lemma FiringKeepsPending(st: Station, t: Timer)
    requires OnlyPending(st) && t in st.timers
    ensures OnlyPending(Fired(st, t))
  {
    IdleRemovalKeepsPending(st.(timers := st.timers - {t}), st.timers[t]);
  }

  /** ... over every run. */
  lemma {:induction false} RunKeepsPending(s: System, actions: seq<Action>)
    requires Inv(s) && CanRun(s, actions) && OnlyPending(s.st)
    ensures OnlyPending(Run(s, actions).st)
    decreases |actions|
  {
    if actions != [] {
      StepKeepsInv(s, actions[0]);
      StepKeepsPending(s, actions[0]);
      RunKeepsPending(Next(s, actions[0]), actions[1..]);
    }
  }

  /** Over every run: a timer that was not cancelled watches an idle stream, and is its only one. */
  lemma TimersArePending(grace: nat, actions: seq<Action>, t: Timer)
    requires CanRun(Initial(grace), actions)
    ensures var s := Run(Initial(grace), actions);
            t in s.st.timers && t !in s.st.cancelled ==>
              var k := s.st.timers[t];
              k in s.st.muxes && s.st.muxes[k].graceCancel == Some(t) && Holders(s, k) == 0
  {
    Reached(grace, actions);
    var s := Run(Initial(grace), actions);
    if t in s.st.timers && t !in s.st.cancelled {
      var k := s.st.timers[t];
      assert TimerFits(s.st, k);
      assert Consumers(s.st, k) == Holders(s, k) + Count([], k);
    }
  }

  // ---------------------------------------------------------------------------
  // Which present streams are served
  // ---------------------------------------------------------------------------

  ghost predicate Running(fs: seq<Forwarder>, id: ForwarderId) {
    exists i :: 0 <= i < |fs| && fs[i].id == id
  }

  /** A forwarder that ends although nobody told it to, while its stream is held. */
  ghost function OwnExit(s: System, a: Action): set<ForwarderId>
    requires Enabled(s, a)
  {
    if a.ForwarderExits? && s.forwarders[a.i].id !in s.st.signalled && Holders(Next(s, a), s.forwarders[a.i].key) > 0
    then {s.forwarders[a.i].id}
    else {}
  }

  ghost function OwnExits(s: System, actions: seq<Action>): set<ForwarderId>
    requires CanRun(s, actions)
    decreases |actions|
  {
    if actions == [] then {} else OwnExit(s, actions[0]) + OwnExits(Next(s, actions[0]), actions[1..])
  }

  /** Ids are given out once, and a present stream's forwarder runs unless it has exited. */
  ghost predicate Served(s: System, exited: set<ForwarderId>) {
    && (forall id :: id in exited ==> id < s.nextForwarder)
    && (forall i :: 0 <= i < |s.forwarders| ==> s.forwarders[i].id < s.nextForwarder)
    && (forall i, j :: 0 <= i < j < |s.forwarders| ==> s.forwarders[i].id != s.forwarders[j].id)
    && forall k :: k in s.st.muxes ==> ServedAt(s, exited, k)
  }

  ghost predicate ServedAt(s: System, exited: set<ForwarderId>, k: Key)
    requires k in s.st.muxes
  {
    var f := s.st.muxes[k].forwarder;
    && f < s.nextForwarder && f !in s.st.signalled
    && (forall j :: j in s.st.muxes && s.st.muxes[j].forwarder == f ==> j == k)
    && (forall i :: 0 <= i < |s.forwarders| && s.forwarders[i].id == f ==> s.forwarders[i].key == k)
    && (Running(s.forwarders, f) <==> f !in exited)
  }

  /** Streams may go, and then their forwarders are told; those that stay keep their forwarder. */
  ghost predicate OnlyRemoves(st: Station, st1: Station) {
    && (forall k :: k in st1.muxes ==> k in st.muxes && st1.muxes[k].forwarder == st.muxes[k].forwarder)
    && (forall f :: f in st1.signalled ==>
          f in st.signalled || exists k :: k in st.muxes && k !in st1.muxes && st.muxes[k].forwarder == f)
  }

  lemma OnlyRemovesThen(st: Station, st1: Station, st2: Station)
    requires OnlyRemoves(st, st1) && OnlyRemoves(st1, st2)
    ensures OnlyRemoves(st, st2)
  {
    forall f | f in st2.signalled
      ensures f in st.signalled || exists k :: k in st.muxes && k !in st2.muxes && st.muxes[k].forwarder == f
    {
      if f !in st1.signalled {
        var k :| k in st1.muxes && k !in st2.muxes && st1.muxes[k].forwarder == f;
        assert k in st.muxes && st.muxes[k].forwarder == f;
      }
    }
  }

  lemma RemovedOnlyRemoves(st: Station, k: Key)
    requires k in st.muxes
    ensures OnlyRemoves(st, Removed(st, k))
  {
  }

  lemma {:induction false} ReleasesOnlyRemove(st: Station, ks: seq<Key>)
    ensures OnlyRemoves(st, ReleasedAll(st, ks))
    decreases |ks|
  {
    if ks != [] {
      var mid := ReleasedAll(st, ks[..|ks|-1]);
      ReleasesOnlyRemove(st, ks[..|ks|-1]);
      ReleaseOnlyRemoves(mid, ks[|ks|-1]);
      OnlyRemovesThen(st, mid, ReleasedAll(st, ks));
    }
  }

  lemma ReleaseOnlyRemoves(st: Station, k: Key)
    ensures OnlyRemoves(st, Released(st, k))
  {
    if k in st.muxes && st.muxes[k].consumers <= 1 && st.grace == 0 {
      RemovedOnlyRemoves(st, k);
    }
  }

  /** With the same forwarders, a station that only removes keeps its streams served. */
  lemma SameForwardersServe(s: System, s1: System, exited: set<ForwarderId>)
    requires Served(s, exited) && OnlyRemoves(s.st, s1.st)
    requires s1.forwarders == s.forwarders && s1.nextForwarder == s.nextForwarder
    ensures Served(s1, exited)
  {
    forall k | k in s1.st.muxes ensures ServedAt(s1, exited, k) {
      assert ServedAt(s, exited, k);
    }
  }

  lemma NewForwarderServes(s: System, i: nat, exited: set<ForwarderId>)
    requires Inv(s) && Served(s, exited) && i < |s.spawns| && FreshIds(s)
    ensures Served(Uncredited(s, i), exited)
  {
    var s1, key := Uncredited(s, i), s.spawns[i].key;
    assert s1.forwarders[|s.forwarders|].id == s.nextForwarder;
    forall k | k in s1.st.muxes ensures ServedAt(s1, exited, k) {
      if k != key {
        assert ServedAt(s, exited, k);
        var f := s.st.muxes[k].forwarder;
        if Running(s.forwarders, f) {
          var n :| 0 <= n < |s.forwarders| && s.forwarders[n].id == f;
          assert s1.forwarders[n].id == f;
        }
        if Running(s1.forwarders, f) {
          var n :| 0 <= n < |s1.forwarders| && s1.forwarders[n].id == f;
          assert s.forwarders[n].id == f;
        }
      } else {
        assert forall j :: j in s.st.muxes ==> ServedAt(s, exited, j);
      }
    }
  }

  /** No id was told to stop before it was given out. */
  ghost predicate FreshIds(s: System) {
    forall f :: f in s.st.signalled ==> f < s.nextForwarder
  }

  lemma OnlyRemovesKeepsIds(s: System, s1: System, exited: set<ForwarderId>)
    requires Served(s, exited) && FreshIds(s) && OnlyRemoves(s.st, s1.st) && s1.nextForwarder == s.nextForwarder
    ensures FreshIds(s1)
  {
    forall f | f in s1.st.signalled ensures f < s1.nextForwarder {
      if f !in s.st.signalled {
        var k :| k in s.st.muxes && k !in s1.st.muxes && s.st.muxes[k].forwarder == f;
        assert ServedAt(s, exited, k);
      }
    }
  }

  lemma ExitServes(s: System, i: nat, exited: set<ForwarderId>)
    requires Inv(s) && Served(s, exited) && i < |s.forwarders|
    ensures Served(Next(s, ForwarderExits(i)), exited + OwnExit(s, ForwarderExits(i)))
    ensures OnlyRemoves(s.st, Next(s, ForwarderExits(i)).st)
  {
    ExitOnlyRemoves(s.st, s.forwarders[i]);
    var s1, more := Next(s, ForwarderExits(i)), exited + OwnExit(s, ForwarderExits(i));
    assert forall j :: 0 <= j < |s1.forwarders| ==> s1.forwarders[j] == s.forwarders[if j < i then j else j + 1];
    forall k | k in s1.st.muxes ensures ServedAt(s1, more, k) {
      ExitServesAt(s, i, exited, k);
    }
  }

  lemma ExitServesAt(s: System, i: nat, exited: set<ForwarderId>, k: Key)
    requires Inv(s) && Served(s, exited) && i < |s.forwarders|
    requires OnlyRemoves(s.st, Next(s, ForwarderExits(i)).st) && k in Next(s, ForwarderExits(i)).st.muxes
    ensures ServedAt(Next(s, ForwarderExits(i)), exited + OwnExit(s, ForwarderExits(i)), k)
  {
    assert ServedAt(s, exited, k);
    RunningWithout(s.forwarders, i, s.st.muxes[k].forwarder);
    if s.st.muxes[k].forwarder == s.forwarders[i].id {
      LeftIsHeld(s, i);
    }
  }

  lemma ExitOnlyRemoves(st: Station, f: Forwarder)
    ensures OnlyRemoves(st, RemovedIfIdle(ReleasedAll(st, f.upstreams), f.key))
  {
    var mid := ReleasedAll(st, f.upstreams);
    ReleasesOnlyRemove(st, f.upstreams);
    if f.key in mid.muxes && mid.muxes[f.key].consumers == 0 {
      RemovedOnlyRemoves(mid, f.key);
      OnlyRemovesThen(st, mid, Removed(mid, f.key));
    }
  }

  /** A stream that outlives its forwarder has holders. */
  lemma LeftIsHeld(s: System, i: nat)
    requires Inv(s) && i < |s.forwarders|
    ensures var s1 := Next(s, ForwarderExits(i));
            s.forwarders[i].key in s1.st.muxes ==> Holders(s1, s.forwarders[i].key) > 0
  {
    ForwarderExitKeeps(s, i);
    var s1, k := Next(s, ForwarderExits(i)), s.forwarders[i].key;
    assert Consumers(s1.st, k) == Holders(s1, k) + Count([], k);
  }

  lemma RunningWithout(fs: seq<Forwarder>, i: nat, id: ForwarderId)
    requires i < |fs| && forall m, n :: 0 <= m < n < |fs| ==> fs[m].id != fs[n].id
    ensures Running(Without(fs, i), id) <==> Running(fs, id) && id != fs[i].id
  {
    var rest := Without(fs, i);
    assert forall n :: 0 <= n < |rest| ==> rest[n] == fs[if n < i then n else n + 1];
    if Running(fs, id) && id != fs[i].id {
      var n :| 0 <= n < |fs| && fs[n].id == id;
      assert rest[if n < i then n else n - 1].id == id;
    }
  }

  lemma FinishServes(s: System, i: nat, exited: set<ForwarderId>)
    requires Inv(s) && Served(s, exited) && FreshIds(s) && Enabled(s, FinishSpawn(i))
    ensures Served(Next(s, FinishSpawn(i)), exited) && FreshIds(Next(s, FinishSpawn(i)))
  {
    NewForwarderServes(s, i, exited);
    CreditCounts(s, Uncredited(s, i), i);
    SameForwardersServe(Uncredited(s, i), Next(s, FinishSpawn(i)), exited);
  }

  lemma StepServes(s: System, a: Action, exited: set<ForwarderId>)
    requires Inv(s) && Served(s, exited) && FreshIds(s) && Enabled(s, a)
    ensures Served(Next(s, a), exited + OwnExit(s, a)) && FreshIds(Next(s, a))
  {
    if a.ForwarderExits? {
      ExitServes(s, a.i, exited);
      OnlyRemovesKeepsIds(s, Next(s, a), exited);
    } else {
      assert exited + OwnExit(s, a) == exited;
      if a.FinishSpawn? {
        FinishServes(s, a.i, exited);
      } else {
        StepOnlyRemoves(s, a);
        SameForwardersServe(s, Next(s, a), exited);
        OnlyRemovesKeepsIds(s, Next(s, a), exited);
      }
    }
  }

  lemma StepOnlyRemoves(s: System, a: Action)
    requires Enabled(s, a) && !a.FinishSpawn? && !a.ForwarderExits?
    ensures OnlyRemoves(s.st, Next(s, a).st)
    ensures Next(s, a).forwarders == s.forwarders && Next(s, a).nextForwarder == s.nextForwarder
  {
    match a {
      case DropRef(k) => ReleaseOnlyRemoves(s.st, k);
      case TimerFires(t) =>
      case _ =>
    }
  }

  lemma {:induction false} RunServes(s: System, actions: seq<Action>, exited: set<ForwarderId>)
    requires Inv(s) && Served(s, exited) && FreshIds(s) && CanRun(s, actions)
    ensures Served(Run(s, actions), exited + OwnExits(s, actions)) && FreshIds(Run(s, actions))
    decreases |actions|
  {
    if actions == [] {
      assert exited + OwnExits(s, actions) == exited;
    } else {
      var s1, more := Next(s, actions[0]), exited + OwnExit(s, actions[0]);
      StepKeepsInv(s, actions[0]);
      StepServes(s, actions[0], exited);
      RunServes(s1, actions[1..], more);
      assert more + OwnExits(s1, actions[1..]) == exited + OwnExits(s, actions);
    }
  }

  /** Over every run a present stream has a running forwarder if and only if its forwarder did not
      exit on its own while the stream was held. */
  lemma ServedUnlessExited(grace: nat, actions: seq<Action>, k: Key)
    requires CanRun(Initial(grace), actions) && k in Run(Initial(grace), actions).st.muxes
    ensures var s := Run(Initial(grace), actions);
            var f := s.st.muxes[k].forwarder;
            (Running(s.forwarders, f) <==> f !in OwnExits(Initial(grace), actions))
  {
    var s0 := Initial(grace);
    Reached(grace, actions);
    assert ServedAt(Run(s0, actions), OwnExits(s0, actions), k);
  }

  /** A stream can be held and joined although nothing runs for it: its source ended first. */
  lemma HeldButSilent(grace: nat, k: Key) returns (actions: seq<Action>)
    ensures CanRun(Initial(grace), actions)
    ensures var s := Run(Initial(grace), actions);
            Holders(s, k) == 1 && k in s.st.muxes && s.forwarders == [] && Enabled(s, Join(k))
  {
    actions := [BeginSpawn(k), FinishSpawn(0), HandOut(k), ForwarderExits(0)];
    var s0, joined := Initial(grace), Inserted(Initial(grace).st, k, 0);
    var s1 := s0.(spawns := [Spawn(k, None, [])]);
    var s2 := System(joined, multiset{}, multiset{k}, [], [Forwarder(0, k, [])], 1);
    var s3 := System(joined, multiset{k}, multiset{}, [], [Forwarder(0, k, [])], 1);
    var s4 := s3.(forwarders := []);
    SpawnOfOne(s0, k);
    FinishOfOne(s1, k);
    ExitOfOne(s3, k);
    assert Next(s2, HandOut(k)) == s3;
    FourSteps(s0, actions, s1, s2, s3, s4);
  }

  lemma SpawnOfOne(s: System, k: Key)
    requires s.spawns == [] && k !in s.st.muxes
    ensures Enabled(s, BeginSpawn(k)) && Next(s, BeginSpawn(k)) == s.(spawns := [Spawn(k, None, [])])
  {
  }

  lemma FinishOfOne(s: System, k: Key)
    requires s.spawns == [Spawn(k, None, [])] && s.forwarders == [] && s.acquiring == multiset{}
    ensures Enabled(s, FinishSpawn(0))
    ensures Next(s, FinishSpawn(0)) == System(Inserted(s.st, k, s.nextForwarder), s.refs, multiset{k}, [],
                                              [Forwarder(s.nextForwarder, k, [])], s.nextForwarder + 1)
  {
  }

  lemma ExitOfOne(s: System, k: Key)
    requires |s.forwarders| == 1 && s.forwarders[0].upstreams == [] && Consumers(s.st, s.forwarders[0].key) > 0
    ensures Enabled(s, ForwarderExits(0)) && Next(s, ForwarderExits(0)) == s.(forwarders := [])
  {
  }

  lemma FourSteps(s0: System, actions: seq<Action>, s1: System, s2: System, s3: System, s4: System)
    requires |actions| == 4 && Enabled(s0, actions[0]) && s1 == Next(s0, actions[0])
    requires Enabled(s1, actions[1]) && s2 == Next(s1, actions[1])
    requires Enabled(s2, actions[2]) && s3 == Next(s2, actions[2])
    requires Enabled(s3, actions[3]) && s4 == Next(s3, actions[3])
    ensures CanRun(s0, actions) && Run(s0, actions) == s4
  {
    var last := actions[3..];
    assert last[1..] == [] && CanRun(s3, last) && Run(s3, last) == s4;
    var two := actions[2..];
    assert two[1..] == last && CanRun(s2, two) && Run(s2, two) == s4;
    var three := actions[1..];
    assert three[1..] == two && CanRun(s1, three) && Run(s1, three) == s4;
  }

  /** No derived stream serves as an upstream. */
  ghost predicate NoDerivedOfDerived(s: System) {
    forall i, j :: 0 <= i < |s.forwarders| && 0 <= j < |s.forwarders| && s.forwarders[i].upstreams != [] ==>
      s.forwarders[i].key !in s.forwarders[j].upstreams
  }

  /** The cascade of a full release without grace: once every reference is gone, the only work
      left is that of derived forwarders already told to stop; when no derived forwarder is
      left, no stream is. */
  lemma FullReleaseDrains(s: System)
    requires Inv(s) && s.st.grace == 0 && NoDerivedOfDerived(s)
    requires s.refs == multiset{} && s.acquiring == multiset{} && s.spawns == []
    ensures forall i :: 0 <= i < |s.forwarders| && s.forwarders[i].upstreams != [] ==>
              s.forwarders[i].id in s.st.signalled
    ensures (forall i :: 0 <= i < |s.forwarders| ==> s.forwarders[i].upstreams == []) ==> s.st.muxes == map[]
  {
    forall i | 0 <= i < |s.forwarders| && s.forwarders[i].upstreams != []
      ensures s.forwarders[i].id in s.st.signalled
    {
      var k := s.forwarders[i].key;
      NotHeldByForwarders(s.forwarders, k);
      assert Consumers(s.st, k) == Holders(s, k) + Count([], k);
      assert k in s.st.muxes ==> TimerFits(s.st, k);
      assert ForwarderFits(s.st, s.forwarders[i]);
    }
    if forall i :: 0 <= i < |s.forwarders| ==> s.forwarders[i].upstreams == [] {
      forall k ensures k !in s.st.muxes {
        NotHeldByForwarders(s.forwarders, k);
        assert Consumers(s.st, k) == Holders(s, k) + Count([], k);
        assert k in s.st.muxes ==> TimerFits(s.st, k);
      }
      assert s.st.muxes.Keys == {};
    }
  }

  lemma {:induction false} NotHeldByForwarders(fs: seq<Forwarder>, k: Key)
    requires forall i :: 0 <= i < |fs| ==> k !in fs[i].upstreams
    ensures HeldByForwarders(fs, k) == 0
    decreases |fs|
  {
    if fs != [] {
      NotHeldByForwarders(fs[1..], k);
    }
  }

  /** A spawn may be given up if and only if it holds no upstream yet; otherwise the counters of
      the upstreams it joined stay above the number of their holders for good. */
  lemma AbortIsBalancedIff(s: System, i: nat)
    requires Inv(s) && i < |s.spawns|
    ensures Balanced(s.(spawns := Without(s.spawns, i)), []) <==> s.spawns[i].held == []
  {
    var s1 := s.(spawns := Without(s.spawns, i));
    if s.spawns[i].held == [] {
      AbortKeeps(s, i);
    } else {
      var u := s.spawns[i].held[0];
      SpawnsWithout(s.spawns, i, u);
      assert Consumers(s.st, u) == Holders(s, u) + Count([], u);
      assert u in multiset(s.spawns[i].held);
      assert Consumers(s1.st, u) != Holders(s1, u) + Count([], u);
    }
  }
}
