/** Shutdown of the worker pool: nothing is lost, nobody gets stuck, and it ends. */
module WorkerShutdown {
  import opened Wrappers
  import opened Models
  import opened Folds
  import opened Windows
  import opened Workers

  /** The worker has seen the flag raised and the queue empty. */
  predicate Past(w: Worker) {
    w.Draining? || Left(w)
  }

  /** The worker has taken the pending map for the last time. */
  predicate Left(w: Worker) {
    w.Flushing? || w.FlushEmitting? || w.Returned?
  }

  ghost predicate Locked(s: State) {
    && (forall i :: 0 <= i < |s.workers| ==> (s.workers[i].Claiming? <==> s.lock == Some(i)))
    && (s.lock.Some? ==> s.lock.value < |s.workers|)
  }

  /** Whoever leaves does so after the flag, with nothing queued; and somebody stays while windows are pending. */
  ghost predicate Guarded(s: State) {
    && (s.shutdown ==> s.readersDone)
    && (forall i :: 0 <= i < |s.workers| && s.workers[i].SeenShutdown? ==> s.shutdown)
    && (forall i :: 0 <= i < |s.workers| && Past(s.workers[i]) ==> s.shutdown && s.queue == [])
    && (s.pending != map[] ==> exists i :: 0 <= i < |s.workers| && !Left(s.workers[i]))
  }

  lemma WorkerStays(s': State, w: nat)
    requires w < |s'.workers| && !Left(s'.workers[w])
    ensures exists i :: 0 <= i < |s'.workers| && !Left(s'.workers[i])
  {
  }

  /** A step of one worker: guards need only be checked for that worker. */
  lemma GuardedStep(s: State, s': State, w: nat)
    requires Guarded(s) && w < |s.workers| == |s'.workers|
    requires s'.workers == s.workers[w := s'.workers[w]]
    requires s'.shutdown == s.shutdown && s'.readersDone == s.readersDone
    requires s.queue == [] ==> s'.queue == []
    requires s'.workers[w].SeenShutdown? ==> s.shutdown
    requires Past(s'.workers[w]) ==> s.shutdown && s'.queue == []
    requires Left(s'.workers[w]) ==> s'.pending == map[] || Left(s.workers[w])
    requires Left(s.workers[w]) ==> s'.pending == s.pending
    ensures Guarded(s')
  {
    forall i | 0 <= i < |s'.workers|
      ensures s'.workers[i].SeenShutdown? ==> s'.shutdown
      ensures Past(s'.workers[i]) ==> s'.shutdown && s'.queue == []
    {
      if i != w {
        assert s'.workers[i] == s.workers[i];
      }
    }
    if s'.pending != map[] {
      if Left(s'.workers[w]) {
        var i :| 0 <= i < |s.workers| && !Left(s.workers[i]);
        assert s'.workers[i] == s.workers[i];
      } else {
        WorkerStays(s', w);
      }
    }
  }

  lemma LoopKeepsGuarded(s: State, w: nat, now: nat)
    requires s.windowMs > 0 && Enabled(s, Work(w, now)) && Guarded(s)
    requires var x := s.workers[w]; x.AtTop? || x.SeenShutdown? || x.Popping? || x.ReadingClock? || x.Waiting?
    ensures Guarded(WorkStep(s, w, now))
  {
    GuardedAt(s, w);
    hide Guarded;
    GuardedStep(s, WorkStep(s, w, now), w);
  }

  lemma MapKeepsGuarded(s: State, w: nat, now: nat)
    requires s.windowMs > 0 && Enabled(s, Work(w, now)) && Guarded(s)
    requires var x := s.workers[w]; x.Holding? || x.Claiming? || x.Emitting?
    ensures Guarded(WorkStep(s, w, now))
  {
    hide Guarded, Inserted, Oldest, Ready, ArrivesLate;
    GuardedStep(s, WorkStep(s, w, now), w);
  }

  lemma FlushKeepsGuarded(s: State, w: nat, now: nat)
    requires s.windowMs > 0 && Enabled(s, Work(w, now)) && Guarded(s) && Past(s.workers[w])
    ensures Guarded(WorkStep(s, w, now))
  {
    GuardedAt(s, w);
    hide Guarded, Ascending;
    GuardedStep(s, WorkStep(s, w, now), w);
  }

  lemma WorkKeepsGuarded(s: State, w: nat, now: nat)
    requires s.windowMs > 0 && Enabled(s, Work(w, now)) && Guarded(s)
    ensures Guarded(WorkStep(s, w, now))
  {
    hide WorkStep, Guarded;
    var x := s.workers[w];
    if Past(x) {
      FlushKeepsGuarded(s, w, now);
    } else if x.Holding? || x.Claiming? || x.Emitting? {
      MapKeepsGuarded(s, w, now);
    } else {
      LoopKeepsGuarded(s, w, now);
    }
  }

  lemma GuardedAt(s: State, w: nat)
    requires Guarded(s) && w < |s.workers|
    ensures s.workers[w].SeenShutdown? ==> s.shutdown
    ensures Past(s.workers[w]) ==> s.shutdown && s.queue == []
  {
  }

  lemma StepKeepsGuarded(s: State, a: Action)
    requires s.windowMs > 0 && Enabled(s, a) && Guarded(s)
    ensures Guarded(Next(s, a))
  {
    hide WorkStep;
    match a
    case Work(w, now) => WorkKeepsGuarded(s, w, now);
    case _ =>
  }

  lemma LockedStep(s: State, s': State, w: nat)
    requires Locked(s) && w < |s.workers| == |s'.workers|
    requires s'.workers == s.workers[w := s'.workers[w]]
    requires s'.lock == s.lock || (s.lock == None && s'.lock == Some(w)) || (s.lock == Some(w) && s'.lock == None)
    requires s'.workers[w].Claiming? <==> s'.lock == Some(w)
    ensures Locked(s')
  {
    forall i | 0 <= i < |s'.workers|
      ensures s'.workers[i].Claiming? <==> s'.lock == Some(i)
    {
      if i != w {
        assert s'.workers[i] == s.workers[i];
      }
    }
  }

  lemma ClaimLoopKeepsLocked(s: State, w: nat, now: nat)
    requires s.windowMs > 0 && Enabled(s, Work(w, now)) && Locked(s)
    requires s.workers[w].Waiting? || s.workers[w].Claiming?
    ensures Locked(WorkStep(s, w, now))
  {
    assert s.workers[w].Claiming? <==> s.lock == Some(w);
    hide Locked;
    LockedStep(s, WorkStep(s, w, now), w);
  }

  lemma OthersKeepLocked(s: State, w: nat, now: nat)
    requires s.windowMs > 0 && Enabled(s, Work(w, now)) && Locked(s)
    requires !s.workers[w].Waiting? && !s.workers[w].Claiming?
    ensures Locked(WorkStep(s, w, now))
  {
    assert s.lock != Some(w);
    hide Locked, Inserted, Ascending, ClaimStep, ArrivesLate;
    if s.workers[w].Holding? || s.workers[w].Draining? {
      hide PopStep, EmitStep, FlushStep, FlushEmitStep;
      LockedStep(s, WorkStep(s, w, now), w);
    } else {
      hide InsertStep, DrainStep;
      QuietKeepsLocked(s, w, now);
    }
  }

  lemma QuietKeepsLocked(s: State, w: nat, now: nat)
    requires s.windowMs > 0 && Enabled(s, Work(w, now)) && Locked(s) && s.lock != Some(w)
    requires var x := s.workers[w]; !x.Waiting? && !x.Claiming? && !x.Holding? && !x.Draining?
    ensures Locked(WorkStep(s, w, now))
  {
    hide Locked, InsertStep, ClaimStep, DrainStep;
    LockedStep(s, WorkStep(s, w, now), w);
  }

  lemma StepKeepsLocked(s: State, a: Action)
    requires s.windowMs > 0 && Enabled(s, a) && Locked(s)
    ensures Locked(Next(s, a))
  {
    hide WorkStep;
    match a
    case Work(w, now) =>
      if s.workers[w].Waiting? || s.workers[w].Claiming? {
        ClaimLoopKeepsLocked(s, w, now);
      } else {
        OthersKeepLocked(s, w, now);
      }
    case _ =>
  }

  // ---------- whole runs ----------

  ghost predicate Consistent(s: State) {
    s.windowMs > 0 && Conserved(s) && Guarded(s) && Locked(s)
  }

  lemma {:induction false} NothingHeldAtTop(ws: seq<Worker>)
    requires forall i :: 0 <= i < |ws| ==> ws[i] == AtTop || ws[i] == Returned
    ensures GatherSeq(ws, WorkerReadings) == multiset{}
  {
    if ws != [] {
      NothingHeldAtTop(ws[..|ws| - 1]);
    }
  }

  lemma InitiallyConsistent(s: State)
    requires Initial(s)
    ensures Consistent(s)
  {
    NothingHeldAtTop(s.workers);
    NothingGathered();
  }

  lemma {:induction false} RunConsistent(s: State, actions: seq<Action>)
    requires Consistent(s) && Feasible(s, actions)
    ensures Consistent(Run(s, actions))
    decreases |actions|
  {
    hide Conserved, Guarded, Locked, Next, Enabled;
    if actions != [] {
      StepConserves(s, actions[0]);
      StepKeepsGuarded(s, actions[0]);
      StepKeepsLocked(s, actions[0]);
      RunConsistent(Next(s, actions[0]), actions[1..]);
    }
  }

  ghost predicate AllReturned(s: State) {
    forall i :: 0 <= i < |s.workers| ==> s.workers[i] == Returned
  }

  /** At every moment of every run, every pushed reading is in exactly one place. */
  lemma PipelineConservation(s: State, actions: seq<Action>)
    requires Initial(s) && Feasible(s, actions)
    ensures var t := Run(s, actions);
      multiset(t.pushed) == multiset(t.queue) + Held(t) + PendingReadings(t.pending) + Written(t)
  {
    InitiallyConsistent(s);
    RunConsistent(s, actions);
  }

  /**
   For any number of workers and any interleaving: once all workers have returned, the queue and the
   pending map are empty and the frames written hold exactly the readings pushed, each once.
   */
  lemma NothingLost(s: State, actions: seq<Action>)
    requires Initial(s) && Feasible(s, actions) && AllReturned(Run(s, actions))
    ensures var t := Run(s, actions);
      t.queue == [] && t.pending == map[] && Written(t) == multiset(t.pushed)
  {
    InitiallyConsistent(s);
    RunConsistent(s, actions);
    var t := Run(s, actions);
    NothingHeldAtTop(t.workers);
    NothingGathered();
    assert Past(t.workers[0]);
  }

  /** Until every worker has returned, some step is possible: the lock never wedges the pool. */
  lemma NeverStuck(s: State, actions: seq<Action>)
    requires Initial(s) && Feasible(s, actions) && !AllReturned(Run(s, actions))
    ensures exists w :: 0 <= w < |s.workers| && Enabled(Run(s, actions), Work(w, 0))
  {
    InitiallyConsistent(s);
    RunConsistent(s, actions);
    var t := Run(s, actions);
    if t.lock.Some? {
      assert Enabled(t, Work(t.lock.value, 0));
    } else {
      var w :| 0 <= w < |t.workers| && t.workers[w] != Returned;
      assert Enabled(t, Work(w, 0));
    }
  }

  // ---------- termination ----------

  /** Steps a worker may still take by itself once nothing is queued any more. */
  function RankIdle(w: Worker): nat {
    match w
    case Returned => 0
    case FlushEmitting(_, ws) => 2 * |ws| + 2
    case Flushing(ws) => 2 * |ws| + 1
    case Draining => 2
    case SeenShutdown => 3
    case AtTop => 4
    case Emitting(cs) => |cs| + 5
    case Claiming(_, cs) => |cs| + 6
    case Waiting(_) => 7
    case ReadingClock => 8
    case Popping => 9
    case Holding(_) => 12
  }

  /** The same while readings are still queued: the loop comes round to another pop. */
  function RankBusy(w: Worker): nat {
    match w
    case Returned => 0
    case FlushEmitting(_, ws) => 2 * |ws| + 2
    case Flushing(ws) => 2 * |ws| + 1
    case Draining => 2
    case Popping => 9
    case SeenShutdown => 10
    case AtTop => 11
    case Emitting(cs) => |cs| + 12
    case Claiming(_, cs) => |cs| + 13
    case Waiting(_) => 14
    case ReadingClock => 15
    case Holding(_) => 19
  }

  ghost function Ranks(s: State): nat {
    if s.queue == [] then TotalSeq(s.workers, RankIdle) else TotalSeq(s.workers, RankBusy)
  }

  ghost function Remaining(s: State): nat {
    20 * |s.queue| + Ranks(s) + 3 * |s.pending|
  }

  lemma {:induction false} IdleRanksLower(ws: seq<Worker>)
    ensures TotalSeq(ws, RankIdle) <= TotalSeq(ws, RankBusy)
  {
    if ws != [] {
      IdleRanksLower(ws[..|ws| - 1]);
    }
  }

  /** Enough for the ranks to fall: judged on the moving worker, the queue and the pending map alone. */
  lemma RemainingFalls(s: State, s': State, w: nat)
    requires w < |s.workers| == |s'.workers| && s'.workers == s.workers[w := s'.workers[w]]
    requires s'.queue == s.queue
    requires s.queue == [] ==> RankIdle(s'.workers[w]) + 3 * |s'.pending| < RankIdle(s.workers[w]) + 3 * |s.pending|
    requires s.queue != [] ==> RankBusy(s'.workers[w]) + 3 * |s'.pending| < RankBusy(s.workers[w]) + 3 * |s.pending|
    ensures Remaining(s') < Remaining(s)
  {
    hide RankIdle, RankBusy;
    TotalSeqUpdate(s.workers, w, s'.workers[w], RankIdle);
    TotalSeqUpdate(s.workers, w, s'.workers[w], RankBusy);
  }

  lemma PopShortens(s: State, w: nat)
    requires w < |s.workers| && s.workers[w].Popping?
    ensures Remaining(PopStep(s, w)) < Remaining(s)
  {
    var s' := PopStep(s, w);
    if s.queue == [] {
      RemainingFalls(s, s', w);
    } else {
      TotalSeqUpdate(s.workers, w, s'.workers[w], RankBusy);
      IdleRanksLower(s'.workers);
    }
  }

  lemma InsertShortens(s: State, w: nat, r: SensorReading)
    requires s.windowMs > 0 && w < |s.workers| && s.workers[w] == Holding(r)
    ensures Remaining(InsertStep(s, w, r)) < Remaining(s)
  {
    var s' := InsertStep(s, w, r);
    assert |s'.pending| <= |s.pending| + 1 by {
      InsertedSize(s.pending, r, s.windowMs);
    }
    hide Inserted;
    RemainingFalls(s, s', w);
  }

  lemma InsertedSize(p: Pending, r: SensorReading, windowMs: nat)
    requires windowMs > 0
    ensures |Inserted(p, r, windowMs)| <= |p| + 1
  {
    hide WindowStart;
    var p' := Inserted(p, r, windowMs);
    var start := WindowStart(r.timestampMs, windowMs);
    assert p'.Keys == p.Keys + {start};
    assert |p'| == |p'.Keys| && |p| == |p.Keys|;
  }

  lemma ClaimShortens(s: State, w: nat, now: nat, cs: seq<Claim>)
    requires w < |s.workers| && s.workers[w] == Claiming(now, cs)
    ensures Remaining(ClaimStep(s, w, now, cs)) < Remaining(s)
  {
    if s.pending != map[] {
      assert (s.pending - {Oldest(s.pending)}).Keys == s.pending.Keys - {Oldest(s.pending)};
      assert |s.pending - {Oldest(s.pending)}| == |(s.pending - {Oldest(s.pending)}).Keys|;
      assert |s.pending| == |s.pending.Keys|;
    }
    hide Ready, Remaining;
    RemainingFalls(s, ClaimStep(s, w, now, cs), w);
  }

  lemma LoopShortens(s: State, w: nat, now: nat)
    requires s.windowMs > 0 && s.shutdown && Enabled(s, Work(w, now))
    requires var x := s.workers[w]; x.AtTop? || x.SeenShutdown? || x.ReadingClock? || x.Waiting? || x.Emitting?
    ensures Remaining(WorkStep(s, w, now)) < Remaining(s)
  {
    hide Remaining;
    RemainingFalls(s, WorkStep(s, w, now), w);
  }

  lemma DrainShortens(s: State, w: nat)
    requires w < |s.workers| && s.workers[w].Draining?
    ensures Remaining(DrainStep(s, w)) < Remaining(s)
  {
    hide Remaining, Ascending;
    RemainingFalls(s, DrainStep(s, w), w);
  }

  lemma FlushShortens(s: State, w: nat, ws: seq<Window>)
    requires w < |s.workers| && s.workers[w] == Flushing(ws)
    ensures Remaining(FlushStep(s, w, ws)) < Remaining(s)
  {
    hide Remaining;
    RemainingFalls(s, FlushStep(s, w, ws), w);
  }

  lemma FlushEmitShortens(s: State, w: nat, c: Claim, ws: seq<Window>)
    requires w < |s.workers| && s.workers[w] == FlushEmitting(c, ws)
    ensures Remaining(FlushEmitStep(s, w, c, ws)) < Remaining(s)
  {
    hide Remaining;
    RemainingFalls(s, FlushEmitStep(s, w, c, ws), w);
  }

  /** After the flag is raised every step of every worker uses up part of what remains. */
  lemma WorkShortens(s: State, w: nat, now: nat)
    requires s.windowMs > 0 && s.shutdown && Enabled(s, Work(w, now))
    ensures Remaining(WorkStep(s, w, now)) < Remaining(s)
  {
    hide Remaining, InsertStep, PopStep, ClaimStep, EmitStep, DrainStep, FlushStep, FlushEmitStep;
    match s.workers[w]
    case Popping => PopShortens(s, w);
    case Holding(r) => InsertShortens(s, w, r);
    case Claiming(t, cs) => ClaimShortens(s, w, t, cs);
    case Draining => DrainShortens(s, w);
    case Flushing(ws) => FlushShortens(s, w, ws);
    case FlushEmitting(c, ws) => FlushEmitShortens(s, w, c, ws);
    case _ => LoopShortens(s, w, now);
  }

  /** Once the flag is up, no interleaving takes more than `Remaining` further steps. */
  lemma {:induction false} ShutdownTerminates(s: State, actions: seq<Action>)
    requires Consistent(s) && s.shutdown && Feasible(s, actions)
    ensures |actions| <= Remaining(s)
    decreases |actions|
  {
    hide Conserved, Guarded, Locked, Remaining;
    if actions != [] {
      assert s.readersDone by { ShutdownAfterReaders(s); }
      var a := actions[0];
      StepConserves(s, a);
      StepKeepsGuarded(s, a);
      StepKeepsLocked(s, a);
      WorkShortens(s, a.worker, a.now);
      assert Next(s, a).shutdown by { hide *; ShutdownStays(s, a); }
      ShutdownTerminates(Next(s, a), actions[1..]);
    }
  }

  lemma ShutdownAfterReaders(s: State)
    requires Guarded(s) && s.shutdown
    ensures s.readersDone
  {
  }

  lemma ShutdownStays(s: State, a: Action)
    requires s.windowMs > 0 && s.shutdown && Enabled(s, a)
    ensures Next(s, a).shutdown
  {
    hide Inserted, Ascending;
  }

  /** Joining the workers succeeds: any run that can be extended no further after the flag has all of them returned. */
  lemma ShutdownCompletes(s: State, before: seq<Action>, after: seq<Action>)
    requires Initial(s) && Feasible(s, before) && Run(s, before).shutdown
    requires Feasible(Run(s, before), after)
    requires forall a :: !Enabled(Run(Run(s, before), after), a)
    ensures |after| <= Remaining(Run(s, before))
    ensures AllReturned(Run(Run(s, before), after))
    ensures Written(Run(Run(s, before), after)) == multiset(Run(Run(s, before), after).pushed)
  {
    hide Conserved, Guarded, Locked, Remaining;
    InitiallyConsistent(s);
    RunConsistent(s, before);
    ShutdownTerminates(Run(s, before), after);
    RunConcat(s, before, after);
    if !AllReturned(Run(s, before + after)) {
      NeverStuck(s, before + after);
    } else {
      NothingLost(s, before + after);
    }
  }

  lemma {:induction false} RunConcat(s: State, a: seq<Action>, b: seq<Action>)
    requires s.windowMs > 0 && Feasible(s, a) && Feasible(Run(s, a), b)
    ensures Feasible(s, a + b) && Run(s, a + b) == Run(Run(s, a), b)
    decreases |a|
  {
    hide Next, Enabled;
    if a == [] {
      assert a + b == b;
    } else {
      assert (a + b)[1..] == a[1..] + b;
      RunConcat(Next(s, a[0]), a[1..], b);
    }
  }
}
