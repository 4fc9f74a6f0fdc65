/** When frame ids follow window order, exactly; and what a worker's claim loop leaves behind. */
module WorkerOrder {
  import opened Wrappers
  import opened Models
  import opened Windows
  import opened Workers
  import opened WorkerShutdown
  import opened WorkerFrames

  /** Ids follow window order so far, and no pending window can spoil it. */
  ghost predicate InOrder(issued: seq<nat>, pending: Pending) {
    Increasing(issued) && AllBefore(issued, pending)
  }

  ghost predicate NoneLeft(workers: seq<Worker>) {
    forall i :: 0 <= i < |workers| ==> !Left(workers[i])
  }

  /** Only leaving workers flush, and until one leaves a late reading has spoilt the order for good. */
  ghost predicate LateShows(s: State) {
    && (s.flushing ==> !NoneLeft(s.workers))
    && (s.late && NoneLeft(s.workers) ==> !InOrder(s.issued, s.pending))
  }

  lemma LeavingIsFinal(s: State, w: nat, now: nat)
    requires s.windowMs > 0 && Enabled(s, Work(w, now)) && Left(s.workers[w])
    ensures Left(WorkStep(s, w, now).workers[w])
  {
  }

  lemma NoneLeftBefore(s: State, w: nat, now: nat)
    requires s.windowMs > 0 && Enabled(s, Work(w, now)) && NoneLeft(WorkStep(s, w, now).workers)
    ensures NoneLeft(s.workers)
  {
    var s' := WorkStep(s, w, now);
    if Left(s.workers[w]) {
      LeavingIsFinal(s, w, now);
    }
    OnlyOneMoves(s, w, now);
    hide WorkStep, Left;
    forall i | 0 <= i < |s.workers|
      ensures !Left(s.workers[i])
    {
      assert !Left(s'.workers[i]);
    }
  }

  /** A step of worker `w`: the others stand where they stood, ids are only added, frames only written. */
  ghost predicate LocalTo(s: State, s': State, w: nat) {
    && |s'.workers| == |s.workers|
    && (forall i :: 0 <= i < |s.workers| && i != w ==> s'.workers[i] == s.workers[i])
    && s.nextId <= s'.nextId
    && s.written <= s'.written
  }

  lemma MapStepsAreLocal(s: State, w: nat)
    requires s.windowMs > 0 && w < |s.workers|
    ensures LocalTo(s, PopStep(s, w), w) && LocalTo(s, DrainStep(s, w), w)
    ensures forall r :: LocalTo(s, InsertStep(s, w, r), w)
    ensures forall now, cs :: LocalTo(s, ClaimStep(s, w, now, cs), w)
  {
    hide Inserted, ArrivesLate, Ready, Ascending;
  }

  lemma EmitStepsAreLocal(s: State, w: nat)
    requires w < |s.workers|
    ensures forall cs :: LocalTo(s, EmitStep(s, w, cs), w)
    ensures forall ws :: LocalTo(s, FlushStep(s, w, ws), w)
    ensures forall c, ws :: LocalTo(s, FlushEmitStep(s, w, c, ws), w)
  {
  }

  lemma QuietStepsAreLocal(s: State, w: nat, now: nat)
    requires s.windowMs > 0 && Enabled(s, Work(w, now))
    requires var x := s.workers[w]; x.AtTop? || x.SeenShutdown? || x.ReadingClock? || x.Waiting?
    ensures LocalTo(s, WorkStep(s, w, now), w)
  {
    hide PopStep, InsertStep, ClaimStep, EmitStep, DrainStep, FlushStep, FlushEmitStep;
  }

  lemma OnlyOneMoves(s: State, w: nat, now: nat)
    requires s.windowMs > 0 && Enabled(s, Work(w, now))
    ensures LocalTo(s, WorkStep(s, w, now), w)
  {
    var x := s.workers[w];
    if x.AtTop? || x.SeenShutdown? || x.ReadingClock? || x.Waiting? {
      QuietStepsAreLocal(s, w, now);
    } else {
      MapStepsAreLocal(s, w);
      EmitStepsAreLocal(s, w);
      hide PopStep, InsertStep, ClaimStep, EmitStep, DrainStep, FlushStep, FlushEmitStep, LocalTo, Put;
    }
  }

  lemma InsertSpoils(issued: seq<nat>, p: Pending, r: SensorReading, windowMs: nat)
    requires windowMs > 0
    requires !InOrder(issued, p) || exists i :: 0 <= i < |issued| && WindowStart(r.timestampMs, windowMs) <= issued[i]
    ensures !InOrder(issued, Inserted(p, r, windowMs))
  {
    var p' := Inserted(p, r, windowMs);
    assert forall k :: k in p ==> k in p';
    assert WindowStart(r.timestampMs, windowMs) in p';
  }

  lemma ClaimKeepsSpoilt(issued: seq<nat>, p: Pending, start: nat)
    requires !InOrder(issued, p) && start in p
    ensures !InOrder(issued + [start], p - {start})
  {
    var log := issued + [start];
    assert forall i :: 0 <= i < |issued| ==> log[i] == issued[i];
    if InOrder(log, p - {start}) {
      forall i, k | 0 <= i < |issued| && k in p
        ensures issued[i] < k
      {
        assert log[i] < log[|issued|] && (k != start ==> k in p - {start});
      }
    }
  }

  lemma InsertKeepsLateShows(s: State, w: nat, r: SensorReading)
    requires s.windowMs > 0 && LateShows(s) && w < |s.workers| && s.workers[w] == Holding(r)
    requires NoneLeft(InsertStep(s, w, r).workers) ==> NoneLeft(s.workers)
    ensures LateShows(InsertStep(s, w, r))
  {
    hide InOrder, NoneLeft, Inserted;
    if NoneLeft(s.workers) && (s.late || ArrivesLate(s, r)) {
      InsertSpoils(s.issued, s.pending, r, s.windowMs);
    }
  }

  lemma ClaimKeepsLateShows(s: State, w: nat, now: nat, cs: seq<Claim>)
    requires LateShows(s) && w < |s.workers| && s.workers[w] == Claiming(now, cs)
    requires NoneLeft(ClaimStep(s, w, now, cs).workers) ==> NoneLeft(s.workers)
    ensures LateShows(ClaimStep(s, w, now, cs))
  {
    hide InOrder, NoneLeft, Ready;
    if s.pending != map[] && s.late && NoneLeft(s.workers) {
      ClaimKeepsSpoilt(s.issued, s.pending, Oldest(s.pending));
    }
  }

  lemma LeaverKeepsLateShows(s: State, w: nat, now: nat)
    requires s.windowMs > 0 && Enabled(s, Work(w, now)) && Past(s.workers[w])
    ensures LateShows(WorkStep(s, w, now))
  {
    var x := WorkStep(s, w, now).workers[w];
    assert Left(x);
  }

  lemma LoopKeepsLateShows(s: State, w: nat, now: nat)
    requires s.windowMs > 0 && Enabled(s, Work(w, now)) && LateShows(s)
    requires NoneLeft(WorkStep(s, w, now).workers) ==> NoneLeft(s.workers)
    requires !Past(s.workers[w]) && !s.workers[w].Holding? && !s.workers[w].Claiming?
    ensures LateShows(WorkStep(s, w, now))
  {
    hide InOrder, NoneLeft;
  }

  lemma StepKeepsLateShows(s: State, a: Action)
    requires s.windowMs > 0 && Enabled(s, a) && LateShows(s)
    ensures LateShows(Next(s, a))
  {
    hide InsertStep, ClaimStep, InOrder, NoneLeft;
    match a
    case Work(w, now) =>
      if NoneLeft(WorkStep(s, w, now).workers) {
        NoneLeftBefore(s, w, now);
      }
      match s.workers[w] {
        case Holding(r) => InsertKeepsLateShows(s, w, r);
        case Claiming(t, cs) => ClaimKeepsLateShows(s, w, t, cs);
        case Draining => LeaverKeepsLateShows(s, w, now);
        case Flushing(_) => LeaverKeepsLateShows(s, w, now);
        case FlushEmitting(_, _) => LeaverKeepsLateShows(s, w, now);
        case _ => LoopKeepsLateShows(s, w, now);
      }
    case _ =>
  }

  lemma {:induction false} RunKeepsLateShows(s: State, actions: seq<Action>)
    requires s.windowMs > 0 && LateShows(s) && Feasible(s, actions)
    ensures LateShows(Run(s, actions))
    decreases |actions|
  {
    hide LateShows, Next, Enabled;
    if actions != [] {
      StepKeepsLateShows(s, actions[0]);
      RunKeepsLateShows(Next(s, actions[0]), actions[1..]);
    }
  }

  /**
   Until a worker leaves on shutdown, ids follow window order, and no pending window can spoil that, if and
   only if no reading has arrived for a window at or below one already numbered.
   */
  lemma OrderExactlyWithoutLate(s: State, actions: seq<Action>)
    requires Initial(s) && Feasible(s, actions)
    requires forall i :: 0 <= i < |s.workers| ==> !Left(Run(s, actions).workers[i])
    ensures var t := Run(s, actions);
      !t.late <==> Increasing(t.issued) && AllBefore(t.issued, t.pending)
  {
    RunKeepsLateShows(s, actions);
    RunOrdered(s, actions);
    OrderedParts(Run(s, actions), 0);
    hide Run, Feasible, Initial, Increasing, AllBefore;
  }

  // ---------- the claim loop among other workers ----------

  /** Worker `w` holds the map through all of `actions` but the last. */
  ghost predicate HoldsThrough(s: State, actions: seq<Action>, w: nat)
    requires s.windowMs > 0 && Feasible(s, actions)
    decreases |actions|
  {
    && actions != [] && w < |s.workers| && s.workers[w].Claiming?
    && (|actions| == 1 || HoldsThrough(Next(s, actions[0]), actions[1..], w))
  }

  /** Whoever is not filing, claiming or draining leaves the map alone. */
  lemma OthersLeaveMap(s: State, w: nat, now: nat)
    requires s.windowMs > 0 && Enabled(s, Work(w, now))
    requires !s.workers[w].Holding? && !s.workers[w].Claiming? && !s.workers[w].Draining?
    ensures WorkStep(s, w, now).pending == s.pending
  {
    EmittersLeaveMap(s, w);
    hide InsertStep, ClaimStep, DrainStep, EmitStep, FlushStep, FlushEmitStep;
  }

  lemma EmittersLeaveMap(s: State, w: nat)
    requires w < |s.workers|
    ensures forall cs :: EmitStep(s, w, cs).pending == s.pending
    ensures forall ws :: FlushStep(s, w, ws).pending == s.pending
    ensures forall c, ws :: FlushEmitStep(s, w, c, ws).pending == s.pending
  {
  }

  /** While a worker holds the lock nobody else touches the map. */
  lemma MapIsHeld(s: State, a: Action, w: nat)
    requires s.windowMs > 0 && Enabled(s, a) && Locked(s) && w < |s.workers| && s.workers[w].Claiming?
    requires !(a.Work? && a.worker == w)
    ensures Next(s, a).pending == s.pending && Next(s, a).workers[w] == s.workers[w]
  {
    if a.Work? {
      assert s.lock == Some(w) && !s.workers[a.worker].Claiming?;
      OnlyOneMoves(s, a.worker, a.now);
      OthersLeaveMap(s, a.worker, a.now);
      hide WorkStep, Locked;
    }
  }

  /** The loop so far: everything claimed was the oldest and ready. */
  ghost predicate LoopSoFar(first: Pending, s: State, w: nat, now: nat, taken: seq<Claim>) {
    && s.windowMs > 0 && w < |s.workers| && s.workers[w] == Claiming(now, taken)
    && TakesInOrder(first, taken, s.pending)
    && (forall start :: start in Starts(taken) ==> Ready(start, now, s.windowMs))
  }

  lemma LoopTurn(first: Pending, s: State, w: nat, now: nat, taken: seq<Claim>)
    requires LoopSoFar(first, s, w, now, taken)
    ensures var s' := ClaimStep(s, w, now, taken);
      || (s'.workers[w].Claiming? && LoopSoFar(first, s', w, now, s'.workers[w].claimed))
      || (s'.workers[w] == Emitting(taken) && s'.pending == s.pending && TakesReady(first, taken, now, s.windowMs))
  {
    hide TakesInOrder, Starts, TakesReady, Ready;
    if s.pending != map[] && Ready(Oldest(s.pending), now, s.windowMs) {
      var start := Oldest(s.pending);
      TakeOneMore(first, taken, s.pending, Claim(s.nextId, Window(start, s.pending[start])));
    } else {
      NoneReadyLeft(first, taken, s.pending, now, s.windowMs);
    }
  }

  lemma {:induction false} LoopRuns(first: Pending, s: State, actions: seq<Action>, w: nat, now: nat,
                                    taken: seq<Claim>, cs: seq<Claim>)
    requires s.windowMs > 0 && Locked(s) && Feasible(s, actions) && HoldsThrough(s, actions, w)
    requires LoopSoFar(first, s, w, now, taken) && Run(s, actions).workers[w] == Emitting(cs)
    ensures TakesInOrder(first, cs, Run(s, actions).pending) && TakesReady(first, cs, now, s.windowMs)
    decreases |actions|
  {
    var a := actions[0];
    var s' := Next(s, a);
    StepKeepsLocked(s, a);
    hide Locked, TakesInOrder, TakesReady, Starts, Enabled, Ready;
    if a.Work? && a.worker == w {
      LoopTurn(first, s, w, now, taken);
      assert s' == ClaimStep(s, w, now, taken);
      if s'.workers[w].Claiming? {
        LoopRuns(first, s', actions[1..], w, now, s'.workers[w].claimed, cs);
      }
    } else {
      MapIsHeld(s, a, w);
      LoopRuns(first, s', actions[1..], w, now, taken, cs);
    }
  }

  /**
   In any run, whatever the other workers do meanwhile: between taking the map and letting it go, a worker
   claims exactly the windows that were in the map and ready at its clock reading, oldest first, with
   rising ids, and leaves the others.
   */
  lemma ClaimLoopComplete(s: State, actions: seq<Action>, loop: seq<Action>, w: nat, now: nat, cs: seq<Claim>)
    requires Initial(s) && Feasible(s, actions) && w < |s.workers| && Run(s, actions).workers[w] == Claiming(now, [])
    requires Feasible(Run(s, actions), loop) && HoldsThrough(Run(s, actions), loop, w)
    requires Run(Run(s, actions), loop).workers[w] == Emitting(cs)
    ensures TakesInOrder(Run(s, actions).pending, cs, Run(Run(s, actions), loop).pending)
    ensures TakesReady(Run(s, actions).pending, cs, now, s.windowMs)
    ensures forall start :: start in Run(s, actions).pending ==>
              (start !in Run(Run(s, actions), loop).pending <==>
                 now >= start + s.windowMs + 50 && 2 * now + 1 >= 2 * start + 3 * s.windowMs)
    ensures ClaimsAscend(cs)
  {
    var t := Run(s, actions);
    RunOrdered(s, actions);
    TakeNone(t.pending, 0);
    LoopRuns(t.pending, t, loop, w, now, [], cs);
    RunConcat(s, actions, loop);
    BatchesAscend(s, actions + loop, w);
    hide Run, Feasible, Initial;
    GoneWhenDue(t.pending, cs, Run(t, loop).pending, now, s.windowMs);
  }
}
