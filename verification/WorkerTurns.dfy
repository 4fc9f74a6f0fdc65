/** What one worker does in one turn of its loop, and in which order it writes, among any number of others. */
module WorkerTurns {
  import opened Wrappers
  import opened Models
  import opened Windows
  import opened Workers
  import opened WorkerShutdown
  import opened WorkerFrames
  import opened WorkerOrder

  // ---------- every turn looks at the clock and claims with it ----------

  /** Under way to the clock: popping, or filing what was popped. */
  predicate Early(x: Worker) {
    x.SeenShutdown? || x.Popping? || x.Holding? || x.ReadingClock?
  }

  predicate OwnStep(a: Action, w: nat) {
    a.Work? && a.worker == w
  }

  lemma OthersStand(s: State, a: Action, w: nat)
    requires s.windowMs > 0 && Enabled(s, a) && w < |s.workers| && !OwnStep(a, w)
    ensures Next(s, a).workers[w] == s.workers[w]
  {
    hide WorkStep;
    if a.Work? {
      OnlyOneMoves(s, a.worker, a.now);
    }
  }

  lemma QuietPhases(s: State, w: nat, now: nat)
    requires s.windowMs > 0 && Enabled(s, Work(w, now))
    ensures var x, x' := s.workers[w], WorkStep(s, w, now).workers[w];
      && (x.AtTop? ==> Early(x'))
      && (x.SeenShutdown? ==> Early(x') || x'.Draining?)
      && (x.ReadingClock? ==> x' == Waiting(now))
      && (x.Waiting? ==> x' == Claiming(x.now, []))
  {
    hide PopStep, InsertStep, ClaimStep, EmitStep, DrainStep, FlushStep, FlushEmitStep;
  }

  lemma QueuePhases(s: State, w: nat, now: nat)
    requires s.windowMs > 0 && Enabled(s, Work(w, now))
    ensures var x, x' := s.workers[w], WorkStep(s, w, now).workers[w];
      && (x.Popping? ==> Early(x'))
      && (x.Holding? ==> Early(x'))
  {
    hide ClaimStep, EmitStep, DrainStep, FlushStep, FlushEmitStep, Inserted, ArrivesLate;
  }

  lemma LeavingPhases(s: State, w: nat, now: nat)
    requires s.windowMs > 0 && Enabled(s, Work(w, now)) && Past(s.workers[w])
    ensures Past(WorkStep(s, w, now).workers[w])
  {
    StepsLeave(s, w);
    OnlyLeaversArePast(s.workers[w]);
    hide PopStep, InsertStep, ClaimStep, EmitStep, DrainStep, FlushStep, FlushEmitStep, Past;
  }

  lemma OnlyLeaversArePast(x: Worker)
    requires Past(x)
    ensures x.Draining? || x.Flushing? || x.FlushEmitting? || x.Returned?
  {
  }

  lemma StepsLeave(s: State, w: nat)
    requires w < |s.workers|
    ensures Past(DrainStep(s, w).workers[w])
    ensures forall ws :: Past(FlushStep(s, w, ws).workers[w])
    ensures forall c, ws :: Past(FlushEmitStep(s, w, c, ws).workers[w])
  {
    hide Ascending;
  }

  lemma {:induction false} PastForGood(s: State, actions: seq<Action>, w: nat)
    requires s.windowMs > 0 && Feasible(s, actions) && w < |s.workers| && Past(s.workers[w])
    ensures Past(Run(s, actions).workers[w])
    decreases |actions|
  {
    if actions != [] {
      if OwnStep(actions[0], w) {
        LeavingPhases(s, w, actions[0].now);
      } else {
        OthersStand(s, actions[0], w);
      }
      hide WorkStep, Enabled, Past;
      PastForGood(Next(s, actions[0]), actions[1..], w);
    }
  }

  /** After `k` steps of the run worker `w` stands at `x`. */
  ghost predicate StandsAt(s: State, actions: seq<Action>, k: nat, w: nat, x: Worker) {
    && s.windowMs > 0 && k <= |actions| && Feasible(s, actions[..k])
    && w < |s.workers| && Run(s, actions[..k]).workers[w] == x
  }

  lemma StandsLater(s: State, actions: seq<Action>, k: nat, w: nat, x: Worker)
    requires s.windowMs > 0 && actions != [] && Enabled(s, actions[0]) && w < |s.workers|
    requires StandsAt(Next(s, actions[0]), actions[1..], k, w, x)
    ensures StandsAt(s, actions, k + 1, w, x)
  {
    hide Next, Enabled;
    assert actions[..k + 1][1..] == actions[1..][..k];
    assert actions[..k + 1][0] == actions[0];
  }

  lemma StandsNow(s: State, actions: seq<Action>, w: nat)
    requires s.windowMs > 0 && w < |s.workers|
    ensures StandsAt(s, actions, 0, w, s.workers[w])
  {
  }

  /** A worker under way that comes back to the top has read the clock. */
  lemma {:induction false} FindClock(s: State, actions: seq<Action>, w: nat) returns (k: nat, now: nat)
    requires s.windowMs > 0 && Feasible(s, actions) && w < |s.workers| && Early(s.workers[w])
    requires Run(s, actions).workers[w] == AtTop
    ensures k < |actions| && actions[k] == Work(w, now)
    ensures StandsAt(s, actions, k, w, ReadingClock) && StandsAt(s, actions, k + 1, w, Waiting(now))
    decreases |actions|
  {
    var a := actions[0];
    var s' := Next(s, a);
    if OwnStep(a, w) {
      QuietPhases(s, w, a.now);
      QueuePhases(s, w, a.now);
    } else {
      OthersStand(s, a, w);
    }
    hide WorkStep, Enabled, StandsAt;
    if OwnStep(a, w) && s.workers[w].ReadingClock? {
      k, now := 0, a.now;
      StandsNow(s, actions, w);
      StandsNow(s', actions[1..], w);
      StandsLater(s, actions, 0, w, Waiting(now));
    } else {
      if s'.workers[w].Draining? {
        PastForGood(s', actions[1..], w);
      }
      k, now := FindClock(s', actions[1..], w);
      StandsLater(s, actions, k, w, ReadingClock);
      StandsLater(s, actions, k + 1, w, Waiting(now));
      k := k + 1;
    }
  }

  /** A worker waiting for the map that comes back to the top has taken it, with the time it read. */
  lemma {:induction false} FindTake(s: State, actions: seq<Action>, w: nat, now: nat) returns (k: nat)
    requires s.windowMs > 0 && Feasible(s, actions) && w < |s.workers| && s.workers[w] == Waiting(now)
    requires Run(s, actions).workers[w] == AtTop
    ensures k <= |actions| && StandsAt(s, actions, k, w, Claiming(now, []))
    decreases |actions|
  {
    var a := actions[0];
    var s' := Next(s, a);
    if OwnStep(a, w) {
      QuietPhases(s, w, a.now);
    } else {
      OthersStand(s, a, w);
    }
    hide WorkStep, Enabled, StandsAt;
    if OwnStep(a, w) {
      k := 0;
      StandsNow(s', actions[1..], w);
    } else {
      k := FindTake(s', actions[1..], w, now);
    }
    StandsLater(s, actions, k, w, Claiming(now, []));
    k := k + 1;
  }

  /** The run in two parts. */
  lemma {:induction false} SplitRun(s: State, a: seq<Action>, b: seq<Action>)
    requires s.windowMs > 0 && Feasible(s, a + b)
    ensures Feasible(s, a) && Feasible(Run(s, a), b) && Run(Run(s, a), b) == Run(s, a + b)
    decreases |a|
  {
    hide Next, Enabled;
    if a == [] {
      assert a + b == b;
    } else {
      assert (a + b)[0] == a[0] && (a + b)[1..] == a[1..] + b;
      SplitRun(Next(s, a[0]), a[1..], b);
    }
  }

  lemma StandsAfter(s: State, actions: seq<Action>, k: nat, m: nat, w: nat, x: Worker)
    requires s.windowMs > 0 && Feasible(s, actions) && k <= |actions|
    requires Feasible(s, actions[..k]) && StandsAt(Run(s, actions[..k]), actions[k..], m, w, x)
    ensures StandsAt(s, actions, k + m, w, x)
  {
    hide Next, Enabled;
    assert actions[..k + m] == actions[..k] + actions[k..][..m];
    RunConcat(s, actions[..k], actions[k..][..m]);
  }

  lemma StandsMeans(s: State, actions: seq<Action>, k: nat, w: nat, x: Worker)
    requires StandsAt(s, actions, k, w, x)
    ensures s.windowMs > 0 && k <= |actions| && Feasible(s, actions[..k])
    ensures w < |s.workers| && Run(s, actions[..k]).workers[w] == x
  {
  }

  /**
   No turn skips the claim: a worker that leaves the top of its loop and comes back to it has read the
   clock in between, and then taken the map to claim with exactly that reading.
   */
  lemma EveryTurnClaims(s: State, actions: seq<Action>, w: nat) returns (k: nat, m: nat, now: nat)
    requires s.windowMs > 0 && Feasible(s, actions) && w < |s.workers|
    requires Early(s.workers[w]) && Run(s, actions).workers[w] == AtTop
    ensures k < m <= |actions| && actions[k] == Work(w, now)
    ensures StandsAt(s, actions, k, w, ReadingClock) && StandsAt(s, actions, m, w, Claiming(now, []))
  {
    k, now := FindClock(s, actions, w);
    var head, tail := actions[..k + 1], actions[k + 1..];
    assert actions == head + tail;
    hide Feasible, Run, Early;
    SplitRun(s, head, tail);
    var t := Run(s, head);
    assert t.workers[w] == Waiting(now) by {
      StandsMeans(s, actions, k + 1, w, Waiting(now));
    }
    hide StandsAt;
    var n := FindTake(t, tail, w, now);
    m := k + 1 + n;
    StandsAfter(s, actions, k + 1, n, w, Claiming(now, []));
  }

  /** Leaving the top means popping, or looking at the queue on shutdown: the turn has begun. */
  lemma TurnBegins(s: State, w: nat, now: nat)
    requires s.windowMs > 0 && Enabled(s, Work(w, now)) && s.workers[w] == AtTop
    ensures Early(WorkStep(s, w, now).workers[w])
  {
    QuietPhases(s, w, now);
  }

  // ---------- each worker writes in the order of its ids ----------

  ghost function ClaimIds(cs: seq<Claim>): (ids: seq<nat>)
    ensures |ids| == |cs| && forall i :: 0 <= i < |cs| ==> ids[i] == cs[i].id
  {
    seq(|cs|, i requires 0 <= i < |cs| => cs[i].id)
  }

  /** Ids a worker holds and has not written a frame for. */
  ghost function Unwritten(x: Worker): seq<nat> {
    match x
    case Claiming(_, cs) => ClaimIds(cs)
    case Emitting(cs) => ClaimIds(cs)
    case FlushEmitting(c, _) => [c.id]
    case _ => []
  }

  /** The id a step of `w` takes, if it takes one. */
  ghost function TakesId(s: State, a: Action, w: nat): seq<nat>
    requires s.windowMs > 0 && Enabled(s, a)
  {
    if OwnStep(a, w) && Next(s, a).nextId > s.nextId then [s.nextId] else []
  }

  /** The ids of the frames a step of `w` writes. */
  ghost function WritesIds(s: State, a: Action, w: nat): seq<nat>
    requires s.windowMs > 0 && Enabled(s, a)
  {
    if OwnStep(a, w) && |Next(s, a).written| >= |s.written| then ClaimIds(Next(s, a).written[|s.written|..]) else []
  }

  ghost function TakenIds(s: State, actions: seq<Action>, w: nat): seq<nat>
    requires s.windowMs > 0 && Feasible(s, actions)
    decreases |actions|
  {
    if actions == [] then [] else TakesId(s, actions[0], w) + TakenIds(Next(s, actions[0]), actions[1..], w)
  }

  ghost function WrittenIdsBy(s: State, actions: seq<Action>, w: nat): seq<nat>
    requires s.windowMs > 0 && Feasible(s, actions)
    decreases |actions|
  {
    if actions == [] then [] else WritesIds(s, actions[0], w) + WrittenIdsBy(Next(s, actions[0]), actions[1..], w)
  }

  /** First in, first out: what was held and what is taken is what is written and what is held after. */
  ghost predicate Queues(x: Worker, taken: seq<nat>, written: seq<nat>, x': Worker) {
    Unwritten(x) + taken == written + Unwritten(x')
  }

  lemma ClaimQueues(s: State, w: nat, now: nat, cs: seq<Claim>)
    requires w < |s.workers| && s.workers[w] == Claiming(now, cs)
    ensures var s' := ClaimStep(s, w, now, cs);
      && s'.written == s.written && s.nextId <= s'.nextId
      && Queues(s.workers[w], if s'.nextId > s.nextId then [s.nextId] else [], [], s'.workers[w])
  {
    hide Ready;
  }

  lemma EmitQueues(s: State, w: nat, cs: seq<Claim>)
    requires w < |s.workers| && s.workers[w] == Emitting(cs)
    ensures var s' := EmitStep(s, w, cs);
      && |s'.written| >= |s.written| && s'.nextId == s.nextId
      && Queues(s.workers[w], [], ClaimIds(s'.written[|s.written|..]), s'.workers[w])
  {
    var s' := EmitStep(s, w, cs);
    NoIdsAtAll();
    if cs == [] {
      assert s'.written[|s.written|..] == [];
    } else {
      assert s'.written[|s.written|..] == [cs[0]];
      HeadId(cs);
    }
    hide ClaimIds;
  }

  lemma HeadId(cs: seq<Claim>)
    requires cs != []
    ensures ClaimIds(cs) == ClaimIds([cs[0]]) + ClaimIds(cs[1..])
  {
  }

  lemma FlushQueues(s: State, w: nat, ws: seq<Window>)
    requires w < |s.workers| && s.workers[w] == Flushing(ws)
    ensures var s' := FlushStep(s, w, ws);
      && s'.written == s.written && s.nextId <= s'.nextId
      && Queues(s.workers[w], if s'.nextId > s.nextId then [s.nextId] else [], [], s'.workers[w])
  {
  }

  lemma FlushEmitQueues(s: State, w: nat, c: Claim, ws: seq<Window>)
    requires w < |s.workers| && s.workers[w] == FlushEmitting(c, ws)
    ensures var s' := FlushEmitStep(s, w, c, ws);
      && |s'.written| >= |s.written| && s'.nextId == s.nextId
      && Queues(s.workers[w], [], ClaimIds(s'.written[|s.written|..]), s'.workers[w])
  {
    assert FlushEmitStep(s, w, c, ws).written[|s.written|..] == [c];
  }

  lemma LoopQueues(s: State, w: nat, now: nat)
    requires s.windowMs > 0 && Enabled(s, Work(w, now))
    requires var x := s.workers[w]; !x.Claiming? && !x.Emitting? && !x.Flushing? && !x.FlushEmitting?
    ensures var s' := WorkStep(s, w, now);
      s'.written == s.written && s'.nextId == s.nextId && Unwritten(s'.workers[w]) == Unwritten(s.workers[w]) == []
  {
    hide ClaimStep, EmitStep, FlushStep, FlushEmitStep, Inserted, ArrivesLate, Ascending;
    if s.workers[w].Holding? || s.workers[w].Draining? {
      hide PopStep;
    } else {
      hide InsertStep, DrainStep;
    }
  }

  lemma NoIdsAtAll()
    ensures ClaimIds([]) == []
  {
  }

  lemma OwnStepQueues(s: State, w: nat, now: nat)
    requires s.windowMs > 0 && Enabled(s, Work(w, now))
    ensures var a := Work(w, now);
      Queues(s.workers[w], TakesId(s, a, w), WritesIds(s, a, w), Next(s, a).workers[w])
  {
    NoIdsAtAll();
    assert s.written[|s.written|..] == [];
    hide PopStep, InsertStep, ClaimStep, EmitStep, DrainStep, FlushStep, FlushEmitStep, ClaimIds, Unwritten;
    match s.workers[w]
    case Claiming(t, cs) => ClaimQueues(s, w, t, cs);
    case Emitting(cs) => EmitQueues(s, w, cs);
    case Flushing(ws) => FlushQueues(s, w, ws);
    case FlushEmitting(c, ws) => FlushEmitQueues(s, w, c, ws);
    case _ => LoopQueues(s, w, now);
  }

  lemma StepQueues(s: State, a: Action, w: nat)
    requires s.windowMs > 0 && Enabled(s, a) && w < |s.workers|
    ensures Queues(s.workers[w], TakesId(s, a, w), WritesIds(s, a, w), Next(s, a).workers[w])
  {
    hide WorkStep, Unwritten;
    if OwnStep(a, w) {
      OwnStepQueues(s, w, a.now);
    } else {
      OthersStand(s, a, w);
    }
  }

  lemma QueuesOn(x: Worker, taken: seq<nat>, written: seq<nat>, x': Worker, more: seq<nat>, out: seq<nat>, x'': Worker)
    requires Queues(x, taken, written, x') && Queues(x', more, out, x'')
    ensures Queues(x, taken + more, written + out, x'')
  {
    hide Unwritten;
    assert Unwritten(x) + (taken + more) == (Unwritten(x) + taken) + more;
    assert (written + Unwritten(x')) + more == written + (Unwritten(x') + more);
    assert written + (out + Unwritten(x'')) == (written + out) + Unwritten(x'');
  }

  lemma {:induction false} RunQueues(s: State, actions: seq<Action>, w: nat)
    requires s.windowMs > 0 && Feasible(s, actions) && w < |s.workers|
    ensures Queues(s.workers[w], TakenIds(s, actions, w), WrittenIdsBy(s, actions, w), Run(s, actions).workers[w])
    decreases |actions|
  {
    if actions != [] {
      var a, s' := actions[0], Next(s, actions[0]);
      StepQueues(s, a, w);
      hide Next, Enabled, Queues, TakesId, WritesIds;
      RunQueues(s', actions[1..], w);
      QueuesOn(s.workers[w], TakesId(s, a, w), WritesIds(s, a, w), s'.workers[w],
               TakenIds(s', actions[1..], w), WrittenIdsBy(s', actions[1..], w), Run(s, actions).workers[w]);
    }
  }

  lemma IdsGrow(s: State, a: Action)
    requires s.windowMs > 0 && Enabled(s, a)
    ensures Next(s, a).nextId >= s.nextId
  {
    hide WorkStep;
    if a.Work? {
      OnlyOneMoves(s, a.worker, a.now);
    }
  }

  lemma {:induction false} TakenIdsRise(s: State, actions: seq<Action>, w: nat)
    requires s.windowMs > 0 && Feasible(s, actions)
    ensures Increasing(TakenIds(s, actions, w))
    ensures forall i :: 0 <= i < |TakenIds(s, actions, w)| ==> TakenIds(s, actions, w)[i] >= s.nextId
    decreases |actions|
  {
    if actions != [] {
      IdsGrow(s, actions[0]);
      hide WorkStep, Enabled;
      TakenIdsRise(Next(s, actions[0]), actions[1..], w);
    }
  }

  /**
   In every run, each worker writes its frames in the order in which it took their ids, and so with rising
   ids from start to return, claims and final flush together; what it has taken and not written it holds.
   */
  lemma WritesInIdOrder(s: State, actions: seq<Action>, w: nat)
    requires Initial(s) && Feasible(s, actions) && w < |s.workers|
    ensures TakenIds(s, actions, w) == WrittenIdsBy(s, actions, w) + Unwritten(Run(s, actions).workers[w])
    ensures Increasing(WrittenIdsBy(s, actions, w))
  {
    RunQueues(s, actions, w);
    TakenIdsRise(s, actions, w);
    var taken, written := TakenIds(s, actions, w), WrittenIdsBy(s, actions, w);
    hide TakenIds, WrittenIdsBy, Run, Feasible;
    assert Unwritten(s.workers[w]) + taken == taken;
    assert forall i :: 0 <= i < |written| ==> taken[i] == written[i];
  }
}
