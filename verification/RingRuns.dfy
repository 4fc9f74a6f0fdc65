/** Whole runs of a ring used by one thread at a time, in terms of what each call promises. */
module RingRuns {
  import opened Wrappers
  import opened Ring
  import opened Ledger

  datatype Call<T> = Write(value: T) | TryRead | ReadBatch(max: nat)

  /** The queue, and everything that went in and came out so far. */
  datatype Trace<T> = Trace(contents: seq<T>, written: seq<T>, taken: seq<T>, flagged: nat)

  /** The effect of one call; `Perform` shows that it is what a `RoundQueue` does. */
  function Step<T>(t: Trace<T>, call: Call<T>, capacity: nat): Trace<T>
    requires capacity > 0
  {
    match call
    case Write(v) =>
      Trace(Newest(t.contents + [v], capacity - 1), t.written + [v], t.taken,
            t.flagged + if |t.contents + [v]| > capacity - 1 then 1 else 0)
    case TryRead => Taking(t, 1)
    case ReadBatch(max) => Taking(t, max)
  }

  function Taking<T>(t: Trace<T>, max: nat): Trace<T> {
    var n := Min(max, |t.contents|);
    t.(contents := t.contents[n..], taken := t.taken + t.contents[..n])
  }

  function Replay<T>(calls: seq<Call<T>>, capacity: nat): Trace<T>
    requires capacity > 0
  {
    if calls == [] then Trace([], [], [], 0)
    else Step(Replay(calls[..|calls| - 1], capacity), calls[|calls| - 1], capacity)
  }

  /** `fates` explains a trace: what was read, what was flagged and what is queued. */
  ghost predicate Explains<T>(fates: seq<Fate>, t: Trace<T>) {
    && |fates| <= |t.written|
    && t.contents == t.written[|fates|..]
    && t.taken == Select(t.written, fates, Read)
    && t.flagged == Count(fates, Overwritten)
  }

  lemma TakeOneMore<T>(t: Trace<T>, max: nat)
    requires max > 0 && t.contents != []
    ensures Taking(t, 1).contents == t.contents[1..]
    ensures Taking(t, 1).taken == t.taken + [t.contents[0]]
    ensures Taking(Taking(t, 1), max - 1) == Taking(t, max)
  {
    var n := Min(max, |t.contents|);
    assert t.contents[..1] == [t.contents[0]];
    assert t.contents[..1] + t.contents[1..][..n - 1] == t.contents[..n];
    assert t.contents[1..][n - 1..] == t.contents[n..];
  }

  lemma ReadExplained<T>(t: Trace<T>, fates: seq<Fate>)
    requires Explains(fates, t) && t.contents != []
    ensures Explains(fates + [Read], Taking(t, 1))
  {
    TakeOneMore(t, 1);
    SelectExtend(t.written, fates, Read, Read);
    CountExtend(fates, Read, Overwritten);
  }

  /** Reading a batch adds one `Read` for every element taken. */
  lemma {:induction false} BatchExplained<T>(t: Trace<T>, fates: seq<Fate>, max: nat) returns (fates': seq<Fate>)
    requires Explains(fates, t)
    ensures Explains(fates', Taking(t, max))
    decreases max
  {
    if max == 0 || t.contents == [] {
      fates' := fates;
      assert Taking(t, max) == t;
    } else {
      ReadExplained(t, fates);
      hide Explains, Taking;
      fates' := BatchExplained(Taking(t, 1), fates + [Read], max - 1);
      TakeOneMore(t, max);
    }
  }

  /** A write that is flagged settles the fate of the oldest value still queued; others settle none. */
  lemma WriteExplained<T>(t: Trace<T>, fates: seq<Fate>, v: T, capacity: nat) returns (fates': seq<Fate>)
    requires Explains(fates, t) && |t.contents| < capacity
    ensures Explains(fates', Step(t, Write(v), capacity))
  {
    fates' := fates;
    SelectStable(t.written, [v], fates, Read);
    if |t.contents + [v]| > capacity - 1 {
      SelectExtend(t.written + [v], fates, Overwritten, Read);
      CountExtend(fates, Overwritten, Overwritten);
      fates' := fates + [Overwritten];
    }
  }

  lemma StepExplained<T>(t: Trace<T>, fates: seq<Fate>, call: Call<T>, capacity: nat) returns (fates': seq<Fate>)
    requires Explains(fates, t) && |t.contents| < capacity
    ensures Explains(fates', Step(t, call, capacity)) && |Step(t, call, capacity).contents| < capacity
  {
    match call
    case Write(v) => fates' := WriteExplained(t, fates, v, capacity);
    case TryRead => fates' := BatchExplained(t, fates, 1);
    case ReadBatch(max) => fates' := BatchExplained(t, fates, max);
  }

  /** Every sequence of calls delivers an in-order subsequence and flags exactly the values it drops. */
  lemma {:induction false} ReplayLedger<T>(calls: seq<Call<T>>, capacity: nat) returns (fates: seq<Fate>)
    requires capacity > 0
    ensures Explains(fates, Replay(calls, capacity))
    ensures |Replay(calls, capacity).contents| < capacity
    ensures SubsequenceVia(Replay(calls, capacity).taken, Replay(calls, capacity).written, Positions(fates, Read))
  {
    if calls == [] {
      fates := [];
    } else {
      var n := |calls| - 1;
      var earlier := ReplayLedger(calls[..n], capacity);
      hide Step;
      fates := StepExplained(Replay(calls[..n], capacity), earlier, calls[n], capacity);
    }
    SelectIsSubsequence(Replay(calls, capacity).written, fates, Read);
  }

  /** writes = reads + flagged writes + length. */
  lemma WritesBalance<T>(calls: seq<Call<T>>, capacity: nat)
    requires capacity > 0
    ensures var t := Replay(calls, capacity);
      |t.written| == |t.taken| + t.flagged + |t.contents|
  {
    var fates := ReplayLedger(calls, capacity);
    CountsPartition(fates);
  }

  /** One call on the ring has the effect `Step` says it has. */
  method PerformOne<T(0)>(q: RoundQueue<T>, call: Call<T>, ghost t: Trace<T>)
    returns (written: seq<T>, taken: seq<T>, flagged: bool)
    requires q.Valid() && q.Contents() == t.contents
    modifies q`readIdx, q`writeIdx, q.buffer
    ensures q.Valid()
    ensures Step(t, call, q.capacity)
         == Trace(q.Contents(), t.written + written, t.taken + taken, t.flagged + if flagged then 1 else 0)
  {
    written, taken, flagged := [], [], false;
    match call
    case Write(v) =>
      flagged := q.WriteOverwrite(v);
      written := [v];
    case TryRead =>
      var r := q.TryRead();
      match r {
        case Some(v) => taken := [v]; assert t.contents[..1] == [v] && t.contents[1..] == q.Contents();
        case None =>
      }
    case ReadBatch(max) =>
      taken := q.ReadBatch(max);
  }

  /**
   Any sequence of calls on an empty ring: contents, values written and taken and the number of true flags
   are those of `Replay`, so all that was proved of it holds of the ring.
   */
  method Perform<T(0)>(q: RoundQueue<T>, calls: seq<Call<T>>)
    returns (written: seq<T>, taken: seq<T>, flagged: nat)
    requires q.Valid() && q.Contents() == []
    modifies q`readIdx, q`writeIdx, q.buffer
    ensures q.Valid()
    ensures Trace(q.Contents(), written, taken, flagged) == Replay(calls, q.capacity)
    ensures |written| == |taken| + flagged + |q.Contents()|
  {
    hide Step;
    written, taken, flagged := [], [], 0;
    for i := 0 to |calls|
      invariant q.Valid()
      invariant Trace(q.Contents(), written, taken, flagged) == Replay(calls[..i], q.capacity)
    {
      assert calls[..i + 1][..i] == calls[..i];
      var w, t, f := PerformOne(q, calls[i], Trace(q.Contents(), written, taken, flagged));
      written, taken, flagged := written + w, taken + t, flagged + if f then 1 else 0;
    }
    assert calls[..|calls|] == calls;
    WritesBalance(calls, q.capacity);
  }
}
