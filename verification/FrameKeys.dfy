/** The worker pool never writes two frames under one key, which is what the refresh protocol relies on. */
module FrameKeys {
  import opened Models
  import opened Folds
  import opened Windows
  import opened Aggregation
  import opened Workers
  import opened WorkerFrames
  import opened FrameOrder
  import RefreshRuns

  lemma {:induction false} IdCounted(cs: seq<Claim>, i: nat)
    requires i < |cs|
    ensures GatherSeq(cs, ClaimId)[cs[i].id] >= 1
  {
    if i < |cs| - 1 {
      IdCounted(cs[..|cs| - 1], i);
    }
  }

  lemma {:induction false} IdCountedTwice(cs: seq<Claim>, i: nat, j: nat)
    requires i < j < |cs| && cs[i].id == cs[j].id
    ensures GatherSeq(cs, ClaimId)[cs[i].id] >= 2
  {
    var n := |cs| - 1;
    if j == n {
      IdCounted(cs[..n], i);
    } else {
      IdCountedTwice(cs[..n], i, j);
    }
  }

  /** In every reachable state, the frames written so far have pairwise different keys. */
  lemma WrittenKeysDiffer(s: State, actions: seq<Action>, frames: seq<Frame>, t: real, sqrt: real -> real)
    requires Initial(s) && Feasible(s, actions)
    requires AreFramesOf(frames, Run(s, actions).written, s.windowMs, t, sqrt)
    ensures UniqueKeys(frames)
  {
    var cs := Run(s, actions).written;
    forall i, j | 0 <= i < j < |frames|
      ensures KeyOf(frames[i]) != KeyOf(frames[j])
    {
      FrameIdsUnique(s, actions, cs[i].id);
      assert frames[i].frameId == cs[i].id && frames[j].frameId == cs[j].id by {
        IdsOfFrames(frames, cs, s.windowMs, t, sqrt);
      }
      if cs[i].id == cs[j].id {
        IdCountedTwice(cs, i, j);
      }
    }
  }

  lemma IdsOfFrames(frames: seq<Frame>, cs: seq<Claim>, windowMs: nat, t: real, sqrt: real -> real)
    requires AreFramesOf(frames, cs, windowMs, t, sqrt)
    ensures |frames| == |cs| && forall i :: 0 <= i < |cs| ==> frames[i].frameId == cs[i].id
  {
    hide StatsOf, MaxInternal, Gather, BatchAnomalies;
  }

  /**
   So a frame of the pool that has not reached the disk yet may always be written there: the condition the
   refresh protocol puts on writes never holds one back.
   */
  lemma PoolWritesAreEnabled(s: State, actions: seq<Action>, frames: seq<Frame>, t: real, sqrt: real -> real,
                             d: RefreshRuns.State, f: Frame)
    requires Initial(s) && Feasible(s, actions)
    requires AreFramesOf(frames, Run(s, actions).written, s.windowMs, t, sqrt)
    requires forall g :: g in d.gap + d.recorded ==> g in frames
    requires f in frames && f !in d.gap + d.recorded
    ensures RefreshRuns.Enabled(d, RefreshRuns.Write(f))
  {
    WrittenKeysDiffer(s, actions, frames, t, sqrt);
    hide AreFramesOf, Run, Feasible, Initial;
    forall g | g in d.gap + d.recorded
      ensures KeyOf(g) != KeyOf(f)
    {
      var i :| 0 <= i < |frames| && frames[i] == f;
      var j :| 0 <= j < |frames| && frames[j] == g;
    }
  }
}
