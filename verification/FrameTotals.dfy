/** What the stored statistics add up to, against the readings that were pushed. */
module FrameTotals {
  import opened Models
  import opened Folds
  import opened Windows
  import opened Aggregation
  import opened Workers
  import opened WorkerShutdown
  import opened WorkerFrames
  import opened RealFacts

  /** Readings a frame accounts for: the sum of its per-sensor counts. */
  ghost function FrameCount(f: Frame): nat {
    Total(f.sensorStats, CountOf)
  }

  lemma {:induction false} CountsMatchClaims(frames: seq<Frame>, cs: seq<Claim>,
                                             windowMs: nat, t: real, sqrt: real -> real)
    requires AreFramesOf(frames, cs, windowMs, t, sqrt)
    ensures TotalSeq(frames, FrameCount) == |GatherSeq(cs, ClaimReadings)|
  {
    if frames != [] {
      var n := |frames| - 1;
      CountsMatchClaims(frames[..n], cs[..n], windowMs, t, sqrt);
      assert IsFrameOf(frames[n], cs[n], windowMs, t, sqrt);
      CountsAddUp(cs[n].window.bucket, frames[n].sensorStats, sqrt);
    }
  }

  /** Processed never exceeds ingested: at any moment the stored counts sum to at most the readings pushed. */
  lemma ProcessedWithinIngest(s: State, actions: seq<Action>, frames: seq<Frame>, t: real, sqrt: real -> real)
    requires Initial(s) && Feasible(s, actions)
    requires AreFramesOf(frames, Run(s, actions).written, s.windowMs, t, sqrt)
    ensures TotalSeq(frames, FrameCount) <= |Run(s, actions).pushed|
  {
    hide AreFramesOf;
    CountsMatchClaims(frames, Run(s, actions).written, s.windowMs, t, sqrt);
    PipelineConservation(s, actions);
    var e := Run(s, actions);
    assert |multiset(e.pushed)| == |e.pushed|;
  }

  /** After shutdown the two are equal. */
  lemma ProcessedEqualsIngest(s: State, actions: seq<Action>, frames: seq<Frame>, t: real, sqrt: real -> real)
    requires Initial(s) && Feasible(s, actions) && AllReturned(Run(s, actions))
    requires AreFramesOf(frames, Run(s, actions).written, s.windowMs, t, sqrt)
    ensures TotalSeq(frames, FrameCount) == |Run(s, actions).pushed|
  {
    hide AreFramesOf;
    CountsMatchClaims(frames, Run(s, actions).written, s.windowMs, t, sqrt);
    NothingLost(s, actions);
    assert |multiset(Run(s, actions).pushed)| == |Run(s, actions).pushed|;
  }

  /** In every run, no stored frame reports more anomalies than its readings over the squared threshold. */
  lemma StoredAnomaliesBounded(s: State, actions: seq<Action>, i: nat, frame: Frame, t: real, sqrt: real -> real)
    requires Initial(s) && Feasible(s, actions) && i < |Run(s, actions).written|
    requires IsSqrt(sqrt) && t > 0.0
    requires IsFrameOf(frame, Run(s, actions).written[i], s.windowMs, t, sqrt)
    ensures (|frame.anomalies| as real) * Sq(t) <= FrameCount(frame) as real
  {
    hide IsFrameOf, IsSqrt, Sq;
    WindowPlacement(s, actions);
    FrameAnomalyBound(frame, Run(s, actions).written[i], s.windowMs, t, sqrt);
  }

  /** In every run, a stored frame's interval is one window long, aligned, and covers each reading it reports. */
  lemma FramesCoverReadings(s: State, actions: seq<Action>, i: nat, frame: Frame, t: real, sqrt: real -> real)
    requires Initial(s) && Feasible(s, actions) && i < |Run(s, actions).written|
    requires IsFrameOf(frame, Run(s, actions).written[i], s.windowMs, t, sqrt)
    ensures frame.windowStart % s.windowMs == 0 && frame.windowEnd == frame.windowStart + s.windowMs
    ensures var b := Run(s, actions).written[i].window.bucket;
      && frame.sensorStats.Keys == b.Keys
      && forall id, j :: id in b && 0 <= j < |b[id]| ==>
           b[id][j].sensorId == id && frame.windowStart <= b[id][j].timestampMs < frame.windowEnd
  {
    hide IsFrameOf;
    WindowPlacement(s, actions);
    FrameHolds(frame, Run(s, actions).written[i], s.windowMs, t, sqrt);
  }
}
