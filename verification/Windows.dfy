/** Time windows: where a reading goes, when a window may be claimed, and what a window holds. */
module Windows {
  import opened Models
  import opened Arithmetic
  import opened Folds

  /** One window's readings, by sensor. */
  type Bucket = map<string, seq<SensorReading>>

  /** Open windows, keyed by start. */
  type Pending = map<nat, Bucket>

  datatype Window = Window(start: nat, bucket: Bucket)

  /** A window taken out of the pending map together with the frame id it was given. */
  datatype Claim = Claim(id: nat, window: Window)

  function WindowStart(timestampMs: nat, windowMs: nat): nat
    requires windowMs > 0
  {
    (timestampMs / windowMs) * windowMs
  }

  function GraceFor(windowMs: nat): nat {
    if windowMs / 2 > 50 then windowMs / 2 else 50
  }

  /** Old enough to be claimed. */
  predicate Ready(start: nat, now: nat, windowMs: nat) {
    now >= start + windowMs + GraceFor(windowMs)
  }

  /** A window is old enough once its end is half a window, and at least 50 ms, in the past. */
  lemma ReadyMeans(start: nat, now: nat, windowMs: nat)
    ensures Ready(start, now, windowMs) <==>
              now >= start + windowMs + 50 && 2 * now + 1 >= 2 * start + 3 * windowMs
  {
  }

  function BucketOf(p: Pending, start: nat): Bucket {
    if start in p then p[start] else map[]
  }

  function ReadingsOf(b: Bucket, sensorId: string): seq<SensorReading> {
    if sensorId in b then b[sensorId] else []
  }

  /** The pending map after one reading has been bucketed. */
  function Inserted(p: Pending, r: SensorReading, windowMs: nat): Pending
    requires windowMs > 0
  {
    var start := WindowStart(r.timestampMs, windowMs);
    var bucket := BucketOf(p, start);
    p[start := bucket[r.sensorId := ReadingsOf(bucket, r.sensorId) + [r]]]
  }

  // ---------- what windows hold ----------

  ghost function BatchReadings(sensorId: string, batch: seq<SensorReading>): multiset<SensorReading> {
    multiset(batch)
  }

  ghost function BucketReadings(b: Bucket): multiset<SensorReading> {
    Gather(b, BatchReadings)
  }

  ghost function EntryReadings(start: nat, b: Bucket): multiset<SensorReading> {
    BucketReadings(b)
  }

  ghost function PendingReadings(p: Pending): multiset<SensorReading> {
    Gather(p, EntryReadings)
  }

  ghost function WindowReadings(w: Window): multiset<SensorReading> {
    BucketReadings(w.bucket)
  }

  ghost function ClaimReadings(c: Claim): multiset<SensorReading> {
    WindowReadings(c.window)
  }

  lemma EmptyBucketHoldsNothing()
    ensures BucketReadings(map[]) == multiset{}
  {
  }

  lemma BatchAppendAddsOne(b: Bucket, r: SensorReading)
    ensures BucketReadings(b[r.sensorId := ReadingsOf(b, r.sensorId) + [r]]) == BucketReadings(b) + multiset{r}
  {
    var batch := ReadingsOf(b, r.sensorId);
    GatherUpdate(b, BatchReadings, r.sensorId, batch + [r]);
    assert multiset(batch + [r]) == multiset(batch) + multiset{r};
    var b' := b[r.sensorId := batch + [r]];
    CancelAdd(BucketReadings(b'), BucketReadings(b), multiset(batch), multiset{r});
  }

  /** Bucketing a reading adds it once and disturbs nothing else. */
  lemma InsertAddsOne(p: Pending, r: SensorReading, windowMs: nat)
    requires windowMs > 0
    ensures PendingReadings(Inserted(p, r, windowMs)) == PendingReadings(p) + multiset{r}
  {
    hide WindowStart, ReadingsOf, BucketReadings;
    var start := WindowStart(r.timestampMs, windowMs);
    var bucket := BucketOf(p, start);
    var bucket' := bucket[r.sensorId := ReadingsOf(bucket, r.sensorId) + [r]];
    BatchAppendAddsOne(bucket, r);
    EmptyBucketHoldsNothing();
    GatherUpdate(p, EntryReadings, start, bucket');
    var p' := p[start := bucket'];
    CancelAdd(PendingReadings(p'), PendingReadings(p), BucketReadings(bucket), multiset{r});
  }

  /** The reading goes to the end of its sensor's batch in its window; every other batch stays as it is. */
  lemma InsertAppends(p: Pending, r: SensorReading, windowMs: nat, start: nat, sensorId: string)
    requires windowMs > 0
    ensures var before, after := ReadingsOf(BucketOf(p, start), sensorId),
                                 ReadingsOf(BucketOf(Inserted(p, r, windowMs), start), sensorId);
      after == if start <= r.timestampMs < start + windowMs && start % windowMs == 0 && sensorId == r.sensorId
               then before + [r] else before
  {
    WindowStartBounds(r.timestampMs, windowMs);
    if start <= r.timestampMs < start + windowMs && start % windowMs == 0 {
      WindowsDisjoint(start, WindowStart(r.timestampMs, windowMs), r.timestampMs, windowMs);
    }
    hide WindowStart;
  }

  lemma RemoveTakes(p: Pending, start: nat)
    requires start in p
    ensures PendingReadings(p) == BucketReadings(p[start]) + PendingReadings(p - {start})
  {
    GatherRemove(p, EntryReadings, start);
  }

  // ---------- placement ----------

  /** Every reading lies inside the window, under its own sensor, and nothing is empty. */
  ghost predicate WellPlaced(start: nat, b: Bucket, windowMs: nat)
    requires windowMs > 0
  {
    && start % windowMs == 0
    && b != map[]
    && (forall id :: id in b ==> b[id] != [])
    && (forall id, i :: id in b && 0 <= i < |b[id]| ==>
          b[id][i].sensorId == id && Covers(start, windowMs, b[id][i].timestampMs))
  }

  ghost predicate PendingPlaced(p: Pending, windowMs: nat)
    requires windowMs > 0
  {
    forall start :: start in p ==> WellPlaced(start, p[start], windowMs)
  }

  /** The start of a window is a multiple of its length, at most one window before the timestamp. */
  lemma WindowStartBounds(t: nat, windowMs: nat)
    requires windowMs > 0
    ensures WindowStart(t, windowMs) % windowMs == 0
    ensures WindowStart(t, windowMs) <= t < WindowStart(t, windowMs) + windowMs
  {
    var start := WindowStart(t, windowMs);
    assert t == start + t % windowMs;
    DivModUnique(start, t / windowMs, 0, windowMs);
  }

  lemma InsertKeepsPlacement(p: Pending, r: SensorReading, windowMs: nat)
    requires windowMs > 0 && PendingPlaced(p, windowMs)
    ensures PendingPlaced(Inserted(p, r, windowMs), windowMs)
  {
    WindowStartBounds(r.timestampMs, windowMs);
    var start := WindowStart(r.timestampMs, windowMs);
    hide WindowStart;
    var p' := Inserted(p, r, windowMs);
    var bucket := BucketOf(p, start);
    assert forall id :: id in bucket ==> id in p'[start];
  }

  predicate Covers(start: nat, windowMs: nat, t: nat) {
    start <= t < start + windowMs
  }

  /** Two windows that share a moment are the same window. */
  lemma WindowsDisjoint(a: nat, b: nat, t: nat, windowMs: nat)
    requires windowMs > 0 && a % windowMs == 0 && b % windowMs == 0
    requires Covers(a, windowMs, t) && Covers(b, windowMs, t)
    ensures a == b
  {
    assert a - b == (a / windowMs - b / windowMs) * windowMs;
    MultipleSpread(a / windowMs - b / windowMs, windowMs);
  }

  // ---------- oldest first ----------

  predicate IsOldest(start: nat, p: Pending) {
    start in p && forall other :: other in p ==> start <= other
  }

  lemma {:induction false} OldestExists(p: Pending)
    requires p != map[]
    ensures exists start :: IsOldest(start, p)
    decreases |p|
  {
    var k :| k in p;
    if !IsOldest(k, p) {
      var rest := p - {k};
      assert rest != map[] by {
        var j :| j in p && j < k;
        assert j in rest;
      }
      OldestExists(rest);
      assert forall other :: other in p ==> other == k || other in rest;
      var m :| IsOldest(m, rest);
      assert IsOldest(m, p);
    }
  }

  ghost function Oldest(p: Pending): (start: nat)
    requires p != map[]
    ensures IsOldest(start, p)
  {
    OldestExists(p);
    var start :| IsOldest(start, p);
    start
  }

  /** The windows of `p` in ascending order of their start, as a `BTreeMap` yields them. */
  ghost function Ascending(p: Pending): (ws: seq<Window>)
    ensures |ws| == |p|
    decreases |p|
  {
    if p == map[] then []
    else var start := Oldest(p); [Window(start, p[start])] + Ascending(p - {start})
  }

  ghost predicate StartsAscend(ws: seq<Window>) {
    forall i, j :: 0 <= i < j < |ws| ==> ws[i].start < ws[j].start
  }

  /** `ws` lists exactly the entries of `p`, oldest first. */
  ghost predicate Lists(ws: seq<Window>, p: Pending) {
    && StartsAscend(ws)
    && (forall i :: 0 <= i < |ws| ==> ws[i].start in p && ws[i].bucket == p[ws[i].start])
    && (forall start :: start in p ==> exists i :: 0 <= i < |ws| && ws[i].start == start)
  }

  lemma {:induction false} AscendingLists(p: Pending)
    ensures Lists(Ascending(p), p)
    decreases |p|
  {
    if p != map[] {
      var start := Oldest(p);
      AscendingLists(p - {start});
      ListsCons(p, start, Ascending(p - {start}));
    }
  }

  lemma AscendCons(w: Window, tail: seq<Window>)
    requires StartsAscend(tail) && forall i :: 0 <= i < |tail| ==> w.start < tail[i].start
    ensures StartsAscend([w] + tail)
  {
    var ws := [w] + tail;
    assert forall i :: 0 < i < |ws| ==> ws[i] == tail[i - 1];
  }

  lemma ListsCons(p: Pending, start: nat, tail: seq<Window>)
    requires IsOldest(start, p) && Lists(tail, p - {start})
    ensures Lists([Window(start, p[start])] + tail, p)
  {
    var rest, w := p - {start}, Window(start, p[start]);
    var ws := [w] + tail;
    assert forall i :: 0 <= i < |tail| ==> tail[i].start in rest;
    AscendCons(w, tail);
    hide StartsAscend, IsOldest;
    assert forall i :: 0 < i < |ws| ==> ws[i] == tail[i - 1];
    forall s | s in p
      ensures exists i :: 0 <= i < |ws| && ws[i].start == s
    {
      EveryStartListed(p, start, tail, s);
    }
  }

  lemma EveryStartListed(p: Pending, start: nat, tail: seq<Window>, s: nat)
    requires start in p && Lists(tail, p - {start}) && s in p
    ensures var ws := [Window(start, p[start])] + tail; exists i :: 0 <= i < |ws| && ws[i].start == s
  {
    hide StartsAscend;
    var ws := [Window(start, p[start])] + tail;
    if s == start {
      assert ws[0].start == s;
    } else {
      assert s in p - {start};
      var i :| 0 <= i < |tail| && tail[i].start == s;
      assert ws[i + 1].start == s;
    }
  }

  lemma {:induction false} AscendingReadings(p: Pending)
    ensures GatherSeq(Ascending(p), WindowReadings) == PendingReadings(p)
    decreases |p|
  {
    if p != map[] {
      var start := Oldest(p);
      AscendingReadings(p - {start});
      GatherSeqHead(Ascending(p), WindowReadings);
      RemoveTakes(p, start);
    }
  }

  // ---------- claiming ----------

  ghost function Starts(cs: seq<Claim>): set<nat> {
    set i | 0 <= i < |cs| :: cs[i].window.start
  }

  /** `cs` are the oldest windows of `before`, ascending; `after` is the rest. */
  ghost predicate TakesInOrder(before: Pending, cs: seq<Claim>, after: Pending) {
    && after == before - Starts(cs)
    && (forall i :: 0 <= i < |cs| ==> cs[i].window.start in before && cs[i].window.bucket == before[cs[i].window.start])
    && (forall i, j :: 0 <= i < j < |cs| ==> cs[i].window.start < cs[j].window.start)
    && (forall i, k :: 0 <= i < |cs| && k in after ==> cs[i].window.start < k)
  }

  /** They are also numbered from `firstId`. */
  ghost predicate TakesOldest(before: Pending, cs: seq<Claim>, after: Pending, firstId: nat) {
    TakesInOrder(before, cs, after) && forall i :: 0 <= i < |cs| ==> cs[i].id == firstId + i
  }

  /** Among the windows of `before`, those claimed are exactly those ready. */
  ghost predicate TakesReady(before: Pending, cs: seq<Claim>, now: nat, windowMs: nat) {
    forall start :: start in before ==> (start in Starts(cs) <==> Ready(start, now, windowMs))
  }

  /** `cs` are exactly the windows of `before` that are ready, oldest first, numbered from `firstId`. */
  ghost predicate ClaimsExactlyReady(before: Pending, cs: seq<Claim>, after: Pending, firstId: nat,
                                     now: nat, windowMs: nat)
  {
    TakesOldest(before, cs, after, firstId) && TakesReady(before, cs, now, windowMs)
  }

  lemma TakeNone(before: Pending, firstId: nat)
    ensures TakesOldest(before, [], before, firstId) && Starts([]) == {}
  {
    assert before - {} == before;
  }

  /** Taking the oldest remaining window next keeps the claims in order. */
  lemma TakeOneMore(before: Pending, cs: seq<Claim>, after: Pending, c: Claim)
    requires TakesInOrder(before, cs, after)
    requires IsOldest(c.window.start, after) && c.window.bucket == after[c.window.start]
    ensures TakesInOrder(before, cs + [c], after - {c.window.start})
    ensures Starts(cs + [c]) == Starts(cs) + {c.window.start}
  {
    var cs' := cs + [c];
    assert Starts(cs') == Starts(cs) + {c.window.start} by {
      assert forall i :: 0 <= i < |cs| ==> cs'[i] == cs[i];
      assert cs'[|cs|] == c;
    }
    assert after - {c.window.start} == before - Starts(cs');
  }

  lemma TakeNext(before: Pending, cs: seq<Claim>, after: Pending, firstId: nat, start: nat)
    requires TakesOldest(before, cs, after, firstId) && IsOldest(start, after)
    ensures TakesOldest(before, cs + [Claim(firstId + |cs|, Window(start, after[start]))], after - {start}, firstId)
    ensures Starts(cs + [Claim(firstId + |cs|, Window(start, after[start]))]) == Starts(cs) + {start}
  {
    TakeOneMore(before, cs, after, Claim(firstId + |cs|, Window(start, after[start])));
    hide TakesInOrder, Starts, IsOldest;
  }

  /** Everything taken so far was ready and the oldest left over is not: no ready window is left behind. */
  lemma NoneReadyLeft(before: Pending, cs: seq<Claim>, after: Pending, now: nat, windowMs: nat)
    requires TakesInOrder(before, cs, after)
    requires forall start :: start in Starts(cs) ==> Ready(start, now, windowMs)
    requires after == map[] || exists start :: IsOldest(start, after) && !Ready(start, now, windowMs)
    ensures TakesReady(before, cs, now, windowMs)
  {
    forall start | start in before
      ensures start in Starts(cs) <==> Ready(start, now, windowMs)
    {
      if start !in Starts(cs) {
        assert start in after;
      }
    }
  }

  /** A window leaves the map exactly when its end is half a window, and at least 50 ms, in the past. */
  lemma GoneWhenDue(before: Pending, cs: seq<Claim>, after: Pending, now: nat, windowMs: nat)
    requires TakesInOrder(before, cs, after) && TakesReady(before, cs, now, windowMs)
    ensures forall start :: start in before ==>
              (start !in after <==> now >= start + windowMs + 50 && 2 * now + 1 >= 2 * start + 3 * windowMs)
  {
    hide Ready;
    forall start | start in before
      ensures start !in after <==> now >= start + windowMs + 50 && 2 * now + 1 >= 2 * start + 3 * windowMs
    {
      ReadyMeans(start, now, windowMs);
    }
  }

  /** So a claim loop that stops at the first window that is not ready is complete. */
  lemma StoppingIsComplete(before: Pending, cs: seq<Claim>, after: Pending, firstId: nat, now: nat, windowMs: nat)
    requires TakesOldest(before, cs, after, firstId)
    requires forall start :: start in Starts(cs) ==> Ready(start, now, windowMs)
    requires after == map[] || exists start :: IsOldest(start, after) && !Ready(start, now, windowMs)
    ensures ClaimsExactlyReady(before, cs, after, firstId, now, windowMs)
  {
    NoneReadyLeft(before, cs, after, now, windowMs);
  }
}
