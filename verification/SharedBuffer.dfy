/** The bounded queue between sensor readers and aggregation workers, and its throughput telemetry. */
module SharedBuffer {
  import opened Wrappers

  /** The queue and its lifetime counters. */
  datatype Buffer<T> = Buffer(items: seq<T>, pushedTotal: nat, poppedTotal: nat, fullWaitsTotal: nat)

  /** One pass of `push` through the mutex: the reading goes in, or the producer will have to wait. */
  function Pushed<T>(b: Buffer<T>, capacity: nat, reading: T): Buffer<T> {
    if |b.items| < capacity then b.(items := b.items + [reading], pushedTotal := b.pushedTotal + 1)
    else b.(fullWaitsTotal := b.fullWaitsTotal + 1)
  }

  /** One pass of `pop_timeout`: the oldest reading comes out, if there is one. */
  function Popped<T>(b: Buffer<T>): Buffer<T> {
    if b.items == [] then b else b.(items := b.items[1..], poppedTotal := b.poppedTotal + 1)
  }

  /**
   One object per queue. Every method below is one critical section: what a thread does between
   taking the mutex and either letting it go or waiting on a condition variable.
   */
  class Queue<T> {
    const capacity: nat
    var items: seq<T>
    var pushedTotal: nat
    var poppedTotal: nat
    var fullWaitsTotal: nat

    ghost predicate Valid()
      reads this
    {
      |items| <= capacity && pushedTotal == poppedTotal + |items|
    }

    ghost function View(): Buffer<T>
      reads this
    {
      Buffer(items, pushedTotal, poppedTotal, fullWaitsTotal)
    }

    constructor (capacity: nat)
      ensures Valid() && this.capacity == capacity && View() == Buffer([], 0, 0, 0)
    {
      this.capacity := capacity;
      items := [];
      pushedTotal, poppedTotal, fullWaitsTotal := 0, 0, 0;
    }

    /** `push` from lock to unlock or to its next wait on `not_full`; `entered` calls for `not_empty.notify_one`. */
    method PushSection(reading: T) returns (entered: bool)
      requires Valid()
      modifies `items, `pushedTotal, `fullWaitsTotal
      ensures Valid() && View() == Pushed(old(View()), capacity, reading)
      ensures entered <==> |old(items)| < capacity
      ensures items == if entered then old(items) + [reading] else old(items)
      ensures pushedTotal == old(pushedTotal) + (if entered then 1 else 0)
      ensures fullWaitsTotal == old(fullWaitsTotal) + if entered then 0 else 1
    {
      if |items| >= capacity {
        fullWaitsTotal := fullWaitsTotal + 1;
        return false;
      }
      items := items + [reading];
      pushedTotal := pushedTotal + 1;
      return true;
    }

    /** `pop_timeout` from lock to unlock or to its next wait; a value calls for `not_full.notify_one`. */
    method PopSection() returns (r: Option<T>)
      requires Valid()
      modifies `items, `poppedTotal
      ensures Valid() && View() == Popped(old(View()))
      ensures r.None? <==> old(items) == []
      ensures r.Some? ==> [r.value] + items == old(items)
      ensures r.None? ==> items == []
      ensures poppedTotal == old(poppedTotal) + if r.Some? then 1 else 0
    {
      if items == [] {
        return None;
      }
      r := Some(items[0]);
      items := items[1..];
      poppedTotal := poppedTotal + 1;
    }

    method Len() returns (n: nat)
      ensures n == |items|
    {
      n := |items|;
    }
  }

  // ---------- throughput telemetry ----------

  /** Totals and time of the last sample that was published. */
  datatype Snapshot = Snapshot(pushed: nat, popped: nat, timeMs: nat)

  datatype Sample = Sample(pushed: nat, popped: nat, nowMs: nat)

  function SaturatingSub(a: nat, b: nat): nat {
    if a > b then a - b else 0
  }

  /** Whole events per second over `dt` milliseconds; nothing is published for less than a second. */
  function Rate(total: nat, last: nat, dt: nat): nat {
    if dt >= 1000 then (SaturatingSub(total, last) * 1000) / dt else 0
  }

  function NextSnapshot(last: Snapshot, s: Sample): Snapshot {
    if SaturatingSub(s.nowMs, last.timeMs) >= 1000 then Snapshot(s.pushed, s.popped, s.nowMs) else last
  }

  /** Events from `from` to `to` over `dt` milliseconds, per second, rounded down; none if the count went back. */
  ghost predicate IsRate(rate: nat, from: nat, to: nat, dt: nat) {
    if to < from then rate == 0 else rate * dt <= 1000 * (to - from) < (rate + 1) * dt
  }

  lemma RateIsRate(total: nat, last: nat, dt: nat)
    requires dt >= 1000
    ensures IsRate(Rate(total, last, dt), last, total, dt)
  {
    if total >= last {
      RateBounds(total, last, dt);
    }
  }

  class RateMeter {
    var last: Snapshot

    constructor (nowMs: nat)
      ensures last == Snapshot(0, 0, nowMs)
    {
      last := Snapshot(0, 0, nowMs);
    }

    /** Publishes integer rates since the last published sample, carrying short intervals over. */
    method UtilizationStats(s: Sample) returns (pushedPerSec: nat, poppedPerSec: nat)
      modifies this
      ensures var dt := SaturatingSub(s.nowMs, old(last).timeMs);
        pushedPerSec == Rate(s.pushed, old(last).pushed, dt) && poppedPerSec == Rate(s.popped, old(last).popped, dt)
      ensures last == NextSnapshot(old(last), s)
      ensures s.nowMs < old(last).timeMs + 1000 ==> pushedPerSec == poppedPerSec == 0 && last == old(last)
      ensures s.nowMs >= old(last).timeMs + 1000 ==>
                && last == Snapshot(s.pushed, s.popped, s.nowMs)
                && IsRate(pushedPerSec, old(last).pushed, s.pushed, s.nowMs - old(last).timeMs)
                && IsRate(poppedPerSec, old(last).popped, s.popped, s.nowMs - old(last).timeMs)
    {
      if s.nowMs >= last.timeMs + 1000 {
        RateIsRate(s.pushed, last.pushed, s.nowMs - last.timeMs);
        RateIsRate(s.popped, last.popped, s.nowMs - last.timeMs);
      }
      var dt := if s.nowMs > last.timeMs then s.nowMs - last.timeMs else 0;
      pushedPerSec := if dt >= 1000 then (SaturatingSub(s.pushed, last.pushed) * 1000) / dt else 0;
      poppedPerSec := if dt >= 1000 then (SaturatingSub(s.popped, last.popped) * 1000) / dt else 0;
      if dt >= 1000 {
        last := Snapshot(s.pushed, s.popped, s.nowMs);
      }
    }
  }

  /** What a run of samples published: rate times interval, summed, and the intervals themselves. */
  datatype Published = Published(last: Snapshot, pushedArea: nat, poppedArea: nat, elapsed: nat)

  function Publish(start: Snapshot, samples: seq<Sample>): Published {
    if samples == [] then Published(start, 0, 0, 0)
    else
      var p := Publish(start, samples[..|samples| - 1]);
      var s := samples[|samples| - 1];
      var dt := SaturatingSub(s.nowMs, p.last.timeMs);
      if dt >= 1000 then
        Published(NextSnapshot(p.last, s),
                  p.pushedArea + Rate(s.pushed, p.last.pushed, dt) * dt,
                  p.poppedArea + Rate(s.popped, p.last.popped, dt) * dt,
                  p.elapsed + dt)
      else p.(last := NextSnapshot(p.last, s))
  }

  /** A single caller sees the lifetime counters only grow; the clock may do anything. */
  ghost predicate TotalsGrow(start: Snapshot, samples: seq<Sample>) {
    && (forall i :: 0 <= i < |samples| ==> start.pushed <= samples[i].pushed && start.popped <= samples[i].popped)
    && (forall i, j :: 0 <= i < j < |samples| ==>
          samples[i].pushed <= samples[j].pushed && samples[i].popped <= samples[j].popped)
  }

  lemma RateBounds(total: nat, last: nat, dt: nat)
    requires total >= last && dt >= 1000
    ensures Rate(total, last, dt) * dt <= (total - last) * 1000 < (Rate(total, last, dt) + 1) * dt
  {
    var x := (total - last) * 1000;
    assert x == (x / dt) * dt + x % dt;
    assert (x / dt + 1) * dt == (x / dt) * dt + dt;
  }

  /** The last published sample is the start or one of the samples seen. */
  lemma {:induction false} LastIsSeen(start: Snapshot, samples: seq<Sample>)
    ensures var l := Publish(start, samples).last;
      || l == start
      || exists i :: 0 <= i < |samples| && l == Snapshot(samples[i].pushed, samples[i].popped, samples[i].nowMs)
  {
    if samples != [] {
      var n := |samples| - 1;
      LastIsSeen(start, samples[..n]);
      var l := Publish(start, samples[..n]).last;
      if l != start {
        var i :| 0 <= i < n && l == Snapshot(samples[..n][i].pushed, samples[..n][i].popped, samples[..n][i].nowMs);
        assert samples[..n][i] == samples[i];
      }
      assert samples[n] == samples[|samples| - 1];
    }
  }

  /**
   Nothing is lost to short intervals: published rate times interval, summed, comes to at most 1000 times
   the events up to the last published sample, and falls short of it by at most the elapsed milliseconds.
   */
  lemma {:induction false} RatesTelescope(start: Snapshot, samples: seq<Sample>)
    requires TotalsGrow(start, samples)
    ensures var p := Publish(start, samples);
      && start.pushed <= p.last.pushed && start.popped <= p.last.popped
      && p.pushedArea <= 1000 * (p.last.pushed - start.pushed) <= p.pushedArea + p.elapsed
      && p.poppedArea <= 1000 * (p.last.popped - start.popped) <= p.poppedArea + p.elapsed
  {
    if samples != [] {
      var n := |samples| - 1;
      var s, init := samples[n], samples[..n];
      RatesTelescope(start, init);
      LastIsSeen(start, init);
      var p := Publish(start, init);
      assert p.last.pushed <= s.pushed && p.last.popped <= s.popped;
      var dt := SaturatingSub(s.nowMs, p.last.timeMs);
      if dt >= 1000 {
        RateBounds(s.pushed, p.last.pushed, dt);
        RateBounds(s.popped, p.last.popped, dt);
        TelescopeStep(p.pushedArea, p.elapsed, p.last.pushed - start.pushed, s.pushed - p.last.pushed,
                      Rate(s.pushed, p.last.pushed, dt), dt);
        TelescopeStep(p.poppedArea, p.elapsed, p.last.popped - start.popped, s.popped - p.last.popped,
                      Rate(s.popped, p.last.popped, dt), dt);
      }
    }
  }

  lemma TelescopeStep(area: nat, elapsed: nat, before: nat, more: nat, rate: nat, dt: nat)
    requires area <= 1000 * before <= area + elapsed
    requires rate * dt <= more * 1000 < (rate + 1) * dt
    ensures area + rate * dt <= 1000 * (before + more) <= area + rate * dt + elapsed + dt
  {
    assert (rate + 1) * dt == rate * dt + dt;
  }

  /** A meter sampled over and over publishes what `Publish` sums up, so the bounds hold of the meter. */
  method SampleAll(m: RateMeter, samples: seq<Sample>) returns (pushedArea: nat, poppedArea: nat, elapsed: nat)
    modifies m
    ensures Published(m.last, pushedArea, poppedArea, elapsed) == Publish(old(m.last), samples)
  {
    pushedArea, poppedArea, elapsed := 0, 0, 0;
    for i := 0 to |samples|
      invariant Published(m.last, pushedArea, poppedArea, elapsed) == Publish(old(m.last), samples[..i])
    {
      assert samples[..i + 1][..i] == samples[..i];
      var dt := SaturatingSub(samples[i].nowMs, m.last.timeMs);
      var pushedPerSec, poppedPerSec := m.UtilizationStats(samples[i]);
      if dt >= 1000 {
        pushedArea := pushedArea + pushedPerSec * dt;
        poppedArea := poppedArea + poppedPerSec * dt;
        elapsed := elapsed + dt;
      }
    }
    assert samples[..|samples|] == samples;
  }
}
