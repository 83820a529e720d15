/** The fixed-window rate limiter of a consumer's REST calls: `TokenBucket`. */
module TokenBucket {
  /** Times and durations are whole nanoseconds; refusals report whole milliseconds. */
  const NANOS_PER_MILLI := 1_000_000

  datatype Bucket = Bucket(available: nat, lastRefill: nat)

  datatype Reply = Granted | Refused(remainingMs: nat)

  /** Time since the last refill; a clock that went back counts as zero. */
  function Elapsed(b: Bucket, now: nat): nat {
    if now >= b.lastRefill then now - b.lastRefill else 0
  }

  function Consumed(capacity: nat, window: nat, b: Bucket, now: nat): (Bucket, Reply) {
    var elapsed := Elapsed(b, now);
    var b1 := if elapsed >= window then Bucket(capacity, now) else b;
    if b1.available > 0 then (b1.(available := b1.available - 1), Granted)
    else (b1, Refused((if window >= elapsed then window - elapsed else 0) / NANOS_PER_MILLI))
  }

  class TokenBucket {
    const capacity: nat
    const refillWindow: nat
    var available: nat
    var lastRefill: nat

    function View(): Bucket
      reads this
    {
      Bucket(available, lastRefill)
    }

    constructor (capacity: nat, window: nat, now: nat)
      ensures this.capacity == capacity && refillWindow == window && View() == Bucket(capacity, now)
    {
      this.capacity, refillWindow, available, lastRefill := capacity, window, capacity, now;
    }

    method TryConsume(now: nat) returns (reply: Reply)
      modifies this
      ensures (View(), reply) == Consumed(capacity, refillWindow, old(View()), now)
    {
      var elapsed := if now >= lastRefill then now - lastRefill else 0;
      if elapsed >= refillWindow {
        available := capacity;
        lastRefill := now;
      }
      if available > 0 {
        available := available - 1;
        reply := Granted;
      } else {
        var wait := if refillWindow >= elapsed then refillWindow - elapsed else 0;
        reply := Refused(wait / NANOS_PER_MILLI);
      }
    }
  }

  // ---------------------------------------------------------------------------
  // Rate bound
  // ---------------------------------------------------------------------------

  function AfterCalls(capacity: nat, window: nat, b: Bucket, times: seq<nat>): Bucket
    decreases |times|
  {
    if times == [] then b
    else AfterCalls(capacity, window, Consumed(capacity, window, b, times[0]).0, times[1..])
  }

  function Grants(capacity: nat, window: nat, b: Bucket, times: seq<nat>): nat
    decreases |times|
  {
    if times == [] then 0
    else
      var (b1, reply) := Consumed(capacity, window, b, times[0]);
      (if reply.Granted? then 1 else 0) + Grants(capacity, window, b1, times[1..])
  }

  ghost predicate Within(times: seq<nat>, from: nat, to: nat) {
    && (forall i :: 0 <= i < |times| ==> from <= times[i] <= to)
    && (forall i, j :: 0 <= i < j < |times| ==> times[i] <= times[j])
  }

  /** A full capacity for every whole window of the span. */
  ghost function Allowance(capacity: nat, window: nat, span: nat): nat
    requires window > 0
  {
    if span < window then 0 else capacity + Allowance(capacity, window, span - window)
  }

  lemma {:induction false} AllowanceGrows(capacity: nat, window: nat, near: nat, far: nat)
    requires window > 0 && near <= far
    ensures Allowance(capacity, window, near) <= Allowance(capacity, window, far)
    decreases far
  {
    if near >= window {
      AllowanceGrows(capacity, window, near - window, far - window);
    }
  }

  lemma {:induction false} AllowanceOfWindows(capacity: nat, window: nat, whole: nat, span: nat, left: nat)
    requires window > 0 && left < window && span == whole * window + left
    ensures Allowance(capacity, window, span) == capacity * whole
    decreases whole
  {
    if whole == 0 {
      assert span == left && capacity * whole == 0;
    } else {
      Peeled(whole, window);
      Peeled(whole, capacity);
      AllowanceOfWindows(capacity, window, whole - 1, span - window, left);
    }
  }

  lemma Peeled(n: nat, k: nat)
    requires n > 0
    ensures n * k == (n - 1) * k + k && k * n == k * (n - 1) + k
    ensures n * k >= k
  {
    assert (n - 1) * k >= 0;
  }

  /** After its last refill a bucket grants what it holds, and a full capacity for every whole
      window up to the end. */
  lemma {:induction false} GrantsSinceRefill(capacity: nat, window: nat, b: Bucket, times: seq<nat>, to: nat)
    requires window > 0 && b.lastRefill <= to && Within(times, b.lastRefill, to)
    ensures Grants(capacity, window, b, times) <= b.available + Allowance(capacity, window, to - b.lastRefill)
    decreases |times|
  {
    if times != [] {
      var now, rest := times[0], times[1..];
      var b1 := Consumed(capacity, window, b, now).0;
      assert forall i :: 0 <= i < |rest| ==> rest[i] == times[i+1] && now <= rest[i];
      GrantsSinceRefill(capacity, window, b1, rest, to);
      if now - b.lastRefill >= window {
        AllowanceGrows(capacity, window, to - now, to - b.lastRefill - window);
      }
    }
  }

  /** From any state: what the bucket holds, plus a full capacity for every window begun. */
  lemma {:induction false} GrantsInInterval(capacity: nat, window: nat, b: Bucket, times: seq<nat>, from: nat, to: nat)
    requires window > 0 && from <= to && Within(times, from, to)
    ensures Grants(capacity, window, b, times) <= b.available + capacity + Allowance(capacity, window, to - from)
    decreases |times|
  {
    if times != [] {
      var now, rest := times[0], times[1..];
      var b1 := Consumed(capacity, window, b, now).0;
      assert forall i :: 0 <= i < |rest| ==> rest[i] == times[i+1] && now <= rest[i];
      if Elapsed(b, now) >= window {
        GrantsSinceRefill(capacity, window, b1, rest, to);
        AllowanceGrows(capacity, window, to - now, to - from);
      } else {
        GrantsInInterval(capacity, window, b1, rest, from, to);
      }
    }
  }

  lemma {:induction false} NeverAboveCapacity(capacity: nat, window: nat, b: Bucket, times: seq<nat>)
    requires b.available <= capacity
    ensures AfterCalls(capacity, window, b, times).available <= capacity
    decreases |times|
  {
    if times != [] {
      NeverAboveCapacity(capacity, window, Consumed(capacity, window, b, times[0]).0, times[1..]);
    }
  }

  /** The rate bound: whatever calls came before, the calls of any time interval are granted at
      most capacity * (length / window + 2) times. */
  lemma RateBound(capacity: nat, window: nat, start: nat, earlier: seq<nat>, calls: seq<nat>, from: nat, to: nat)
    requires window > 0 && from <= to && Within(calls, from, to)
    ensures Grants(capacity, window, AfterCalls(capacity, window, Bucket(capacity, start), earlier), calls)
            <= capacity * ((to - from) / window + 2)
  {
    var b := AfterCalls(capacity, window, Bucket(capacity, start), earlier);
    NeverAboveCapacity(capacity, window, Bucket(capacity, start), earlier);
    GrantsInInterval(capacity, window, b, calls, from, to);
    var k := (to - from) / window;
    AllowanceOfWindows(capacity, window, k, to - from, (to - from) % window);
    Peeled(k + 1, capacity);
    Peeled(k + 2, capacity);
  }

  /** Within a window of the last refill exactly what the bucket holds is granted, to the first who ask. */
  lemma {:induction false} GrantsWithinWindow(capacity: nat, window: nat, b: Bucket, times: seq<nat>)
    requires window > 0 && forall i :: 0 <= i < |times| ==> times[i] < b.lastRefill + window
    ensures Grants(capacity, window, b, times) == if |times| <= b.available then |times| else b.available
    decreases |times|
  {
    if times != [] {
      var now, rest := times[0], times[1..];
      assert Elapsed(b, now) < window;
      assert forall i :: 0 <= i < |rest| ==> rest[i] == times[i+1];
      GrantsWithinWindow(capacity, window, Consumed(capacity, window, b, now).0, rest);
    }
  }

  /** The first call a full window after the last refill finds the bucket full: of that call and those
      in the window it begins, the first `capacity` are granted and no more. */
  lemma FullWindowRefills(capacity: nat, window: nat, b: Bucket, now: nat, times: seq<nat>)
    requires window > 0 && now >= b.lastRefill + window
    requires forall i :: 0 <= i < |times| ==> times[i] < now + window
    ensures Grants(capacity, window, b, [now] + times) == if |times| < capacity then 1 + |times| else capacity
  {
    assert ([now] + times)[1..] == times;
    GrantsWithinWindow(capacity, window, Consumed(capacity, window, b, now).0, times);
  }

  // ---------------------------------------------------------------------------
  // The reported wait
  // ---------------------------------------------------------------------------

  /** A refused caller that comes back after exactly the reported wait, with nobody in between,
      is granted if and only if the time left in the window was a whole number of milliseconds:
      the report drops the fraction, so it can be short by up to a millisecond. */
  lemma ReportedWaitSufficesIff(capacity: nat, window: nat, b: Bucket, now: nat)
    requires capacity >= 1 && b.lastRefill <= now
    requires Consumed(capacity, window, b, now).1.Refused?
    ensures var (b1, reply) := Consumed(capacity, window, b, now);
            Consumed(capacity, window, b1, now + reply.remainingMs * NANOS_PER_MILLI).1.Granted?
            <==> (window - (now - b.lastRefill)) % NANOS_PER_MILLI == 0
  {
  }

  lemma {:induction false} SpentAtOnce(capacity: nat, window: nat, b: Bucket, n: nat)
    requires window > 0 && n <= b.available
    ensures AfterCalls(capacity, window, b, seq(n, _ => b.lastRefill)) == b.(available := b.available - n)
    decreases n
  {
    var calls := seq(n, _ => b.lastRefill);
    if n > 0 {
      assert calls[1..] == seq(n - 1, _ => b.lastRefill);
      SpentAtOnce(capacity, window, b.(available := b.available - 1), n - 1);
    }
  }

  /** Every new bucket has a moment at which the report is short: spend it at once and ask again
      in the fraction of a millisecond. */
  lemma NewBucketReportsShort(capacity: nat, window: nat, start: nat) returns (now: nat)
    requires capacity >= 1 && window > 0
    ensures start <= now
    ensures var b := AfterCalls(capacity, window, Bucket(capacity, start), seq(capacity, _ => start));
            var (b1, reply) := Consumed(capacity, window, b, now);
            && reply.Refused?
            && Consumed(capacity, window, b1, now + reply.remainingMs * NANOS_PER_MILLI).1.Refused?
  {
    now := if window % NANOS_PER_MILLI == 0 then start + 1 else start;
    SpentAtOnce(capacity, window, Bucket(capacity, start), capacity);
    ReportedWaitSufficesIff(capacity, window, Bucket(0, start), now);
  }

  /** One millisecond more always suffices. */
  lemma WaitPlusOneSuffices(capacity: nat, window: nat, b: Bucket, now: nat)
    requires capacity >= 1 && b.lastRefill <= now
    requires Consumed(capacity, window, b, now).1.Refused?
    ensures var (b1, reply) := Consumed(capacity, window, b, now);
            Consumed(capacity, window, b1, now + (reply.remainingMs + 1) * NANOS_PER_MILLI).1.Granted?
  {
  }
}
