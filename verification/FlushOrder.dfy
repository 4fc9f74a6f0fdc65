/** Frame ids through the final flush: what one worker keeps, and what several do not. */
module FlushOrder {
  import opened Models
  import opened Windows
  import opened Workers
  import opened WorkerShutdown
  import opened WorkerFrames
  import opened WorkerOrder
  import opened OrderWitnesses

  /** The windows a leaving worker has still to number. */
  ghost function ToFlush(w: Worker): seq<Window> {
    match w
    case Flushing(ws) => ws
    case FlushEmitting(_, ws) => ws
    case _ => []
  }

  ghost function WindowStarts(ws: seq<Window>): (xs: seq<nat>)
    ensures |xs| == |ws| && forall i :: 0 <= i < |ws| ==> xs[i] == ws[i].start
  {
    seq(|ws|, i requires 0 <= i < |ws| => ws[i].start)
  }

  // ---------- the flush of one worker among any number ----------

  /** The claims worker `w` makes in its final flush along a run. */
  ghost function FlushTaken(s: State, actions: seq<Action>, w: nat): seq<Claim>
    requires s.windowMs > 0 && Feasible(s, actions) && w < |s.workers|
    decreases |actions|
  {
    if actions == [] then []
    else FlushTakes(s, actions[0], w) + FlushTaken(Next(s, actions[0]), actions[1..], w)
  }

  ghost function FlushTakes(s: State, a: Action, w: nat): seq<Claim>
    requires w < |s.workers|
  {
    if a.Work? && a.worker == w && s.workers[w].Flushing? && s.workers[w].windows != []
    then [Claim(s.nextId, s.workers[w].windows[0])]
    else []
  }

  lemma OthersStand(s: State, a: Action, w: nat)
    requires s.windowMs > 0 && Enabled(s, a) && w < |s.workers| && !(a.Work? && a.worker == w)
    ensures Next(s, a).workers[w] == s.workers[w] && s.nextId <= Next(s, a).nextId
  {
    hide WorkStep;
    if a.Work? {
      OnlyOneMoves(s, a.worker, a.now);
    }
  }

  /** What a step means for the flush of a worker that goes from `x` to `x'` and takes `taken`. */
  ghost predicate FlushMoves(x: Worker, x': Worker, taken: seq<Claim>, nextId: nat, nextId': nat) {
    && StartsAscend(ToFlush(x')) && nextId <= nextId'
    && (Left(x) ==> Left(x'))
    && (taken == [] ==> !Left(x) || ToFlush(x') == ToFlush(x))
    && (taken != [] ==>
          && Left(x) && ToFlush(x) != [] && taken == [Claim(nextId, ToFlush(x)[0])]
          && ToFlush(x') == ToFlush(x)[1..] && nextId' == nextId + 1)
  }

  lemma DrainMoves(s: State, w: nat)
    requires w < |s.workers| && s.workers[w].Draining?
    ensures FlushMoves(s.workers[w], DrainStep(s, w).workers[w], [], s.nextId, DrainStep(s, w).nextId)
  {
    AscendingLists(s.pending);
    hide Ascending;
  }

  lemma FlushStepMoves(s: State, w: nat, ws: seq<Window>, now: nat)
    requires w < |s.workers| && s.workers[w] == Flushing(ws) && StartsAscend(ws)
    ensures FlushMoves(s.workers[w], FlushStep(s, w, ws).workers[w], FlushTakes(s, Work(w, now), w),
                       s.nextId, FlushStep(s, w, ws).nextId)
  {
  }

  lemma ClaimMovesNothing(s: State, w: nat, now: nat, cs: seq<Claim>)
    requires w < |s.workers| && s.workers[w] == Claiming(now, cs)
    ensures FlushMoves(s.workers[w], ClaimStep(s, w, now, cs).workers[w], [], s.nextId, ClaimStep(s, w, now, cs).nextId)
  {
    hide Ready;
  }

  lemma PoppersMoveNothing(s: State, w: nat)
    requires s.windowMs > 0 && w < |s.workers| && !Left(s.workers[w])
    ensures FlushMoves(s.workers[w], PopStep(s, w).workers[w], [], s.nextId, PopStep(s, w).nextId)
    ensures forall r :: FlushMoves(s.workers[w], InsertStep(s, w, r).workers[w], [],
                                   s.nextId, InsertStep(s, w, r).nextId)
    ensures forall cs :: FlushMoves(s.workers[w], EmitStep(s, w, cs).workers[w], [],
                                    s.nextId, EmitStep(s, w, cs).nextId)
  {
    hide Inserted, ArrivesLate;
  }

  lemma LoopMoves(s: State, w: nat, now: nat)
    requires s.windowMs > 0 && Enabled(s, Work(w, now))
    requires var x := s.workers[w]; x.AtTop? || x.SeenShutdown? || x.ReadingClock? || x.Waiting?
    ensures FlushMoves(s.workers[w], WorkStep(s, w, now).workers[w], [], s.nextId, WorkStep(s, w, now).nextId)
  {
    hide PopStep, InsertStep, EmitStep, ClaimStep, DrainStep, FlushStep, FlushEmitStep, FlushMoves;
    StaysInLoop(s.workers[w], WorkStep(s, w, now).workers[w], s.nextId);
  }

  lemma StaysInLoop(x: Worker, x': Worker, nextId: nat)
    requires !Left(x) && !Left(x')
    ensures FlushMoves(x, x', [], nextId, nextId)
  {
  }

  lemma OwnStepMoves(s: State, w: nat, now: nat)
    requires s.windowMs > 0 && Enabled(s, Work(w, now)) && StartsAscend(ToFlush(s.workers[w]))
    ensures FlushMoves(s.workers[w], WorkStep(s, w, now).workers[w], FlushTakes(s, Work(w, now), w),
                       s.nextId, WorkStep(s, w, now).nextId)
  {
    hide PopStep, InsertStep, ClaimStep, EmitStep, DrainStep, FlushStep, StartsAscend, FlushMoves;
    match s.workers[w]
    case Draining => DrainMoves(s, w);
    case Flushing(ws) => FlushStepMoves(s, w, ws, now);
    case FlushEmitting(c, ws) => EmitMovesNothing(s, w, c, ws);
    case Claiming(t, cs) => ClaimMovesNothing(s, w, t, cs);
    case Popping => PoppersMoveNothing(s, w);
    case Holding(_) => PoppersMoveNothing(s, w);
    case Emitting(_) => PoppersMoveNothing(s, w);
    case _ => LoopMoves(s, w, now);
  }

  lemma EmitMovesNothing(s: State, w: nat, c: Claim, ws: seq<Window>)
    requires w < |s.workers| && s.workers[w] == FlushEmitting(c, ws) && StartsAscend(ws)
    ensures FlushMoves(s.workers[w], FlushEmitStep(s, w, c, ws).workers[w], [],
                       s.nextId, FlushEmitStep(s, w, c, ws).nextId)
  {
  }

  lemma StepMoves(s: State, a: Action, w: nat)
    requires s.windowMs > 0 && Enabled(s, a) && w < |s.workers| && StartsAscend(ToFlush(s.workers[w]))
    ensures FlushMoves(s.workers[w], Next(s, a).workers[w], FlushTakes(s, a, w), s.nextId, Next(s, a).nextId)
  {
    hide WorkStep, ToFlush, StartsAscend;
    if a.Work? && a.worker == w {
      OwnStepMoves(s, w, a.now);
    } else {
      OthersStand(s, a, w);
    }
  }

  /** Taken claims are numbered from `firstId` up, and list a leading part of `ws`. */
  ghost predicate TakesFrom(cs: seq<Claim>, ws: seq<Window>, firstId: nat) {
    && |cs| <= |ws|
    && (forall i :: 0 <= i < |cs| ==> cs[i].window == ws[i] && firstId <= cs[i].id)
  }

  lemma TakesFromCons(c: Claim, cs: seq<Claim>, ws: seq<Window>)
    requires ws != [] && c.window == ws[0] && StartsAscend(ws)
    requires TakesFrom(cs, ws[1..], c.id + 1) && ClaimsAscend(cs)
    ensures TakesFrom([c] + cs, ws, c.id) && ClaimsAscend([c] + cs)
  {
    var all := [c] + cs;
    assert forall i :: 0 < i < |all| ==> all[i] == cs[i - 1] && ws[i] == ws[1..][i - 1];
  }

  /** `cs` is what a worker at `x` takes in its flush: all of it once `done`. */
  ghost predicate FlushPlan(x: Worker, cs: seq<Claim>, firstId: nat, done: bool) {
    && ClaimsAscend(cs)
    && (Left(x) ==> TakesFrom(cs, ToFlush(x), firstId))
    && (Left(x) && done ==> |cs| == |ToFlush(x)|)
  }

  lemma PlanBack(x: Worker, x': Worker, taken: seq<Claim>, rest: seq<Claim>, id: nat, id': nat, done: bool)
    requires StartsAscend(ToFlush(x)) && FlushMoves(x, x', taken, id, id') && FlushPlan(x', rest, id', done)
    ensures FlushPlan(x, taken + rest, id, done)
  {
    hide ToFlush, StartsAscend, ClaimsAscend;
    if taken == [] {
      assert taken + rest == rest;
    } else {
      TakesFromCons(taken[0], rest, ToFlush(x));
    }
  }

  /** From any point of any interleaving, a flush takes its windows in order and their ids rise. */
  lemma {:induction false} FlushFollowsPlan(s: State, actions: seq<Action>, w: nat)
    requires s.windowMs > 0 && Feasible(s, actions) && w < |s.workers| && StartsAscend(ToFlush(s.workers[w]))
    ensures FlushPlan(s.workers[w], FlushTaken(s, actions, w), s.nextId, Run(s, actions).workers[w] == Returned)
    decreases |actions|
  {
    hide Next, Enabled, StartsAscend, ToFlush, FlushPlan, FlushMoves, FlushTakes;
    if actions == [] {
      NothingTaken(s.workers[w], s.nextId);
    } else {
      var a := actions[0];
      var s' := Next(s, a);
      StepMoves(s, a, w);
      MovesAscend(s.workers[w], s'.workers[w], FlushTakes(s, a, w), s.nextId, s'.nextId);
      FlushFollowsPlan(s', actions[1..], w);
      PlanBack(s.workers[w], s'.workers[w], FlushTakes(s, a, w), FlushTaken(s', actions[1..], w),
        s.nextId, s'.nextId, Run(s, actions).workers[w] == Returned);
    }
  }

  lemma MovesAscend(x: Worker, x': Worker, taken: seq<Claim>, id: nat, id': nat)
    requires FlushMoves(x, x', taken, id, id')
    ensures StartsAscend(ToFlush(x'))
  {
  }

  lemma NothingTaken(x: Worker, firstId: nat)
    ensures FlushPlan(x, [], firstId, x == Returned)
  {
  }

  /**
   For any number of workers and any interleaving: the ids one worker takes in its final flush rise with
   window start, although other workers take ids in between.
   */
  lemma FlushIdsRise(s: State, actions: seq<Action>, w: nat)
    requires Initial(s) && Feasible(s, actions) && w < |s.workers|
    ensures ClaimsAscend(FlushTaken(s, actions, w))
  {
    FlushFollowsPlan(s, actions, w);
  }

  /** A claim of the flush is on its way to storage, or there. */
  ghost predicate OutOrInHand(s: State, w: nat, c: Claim) {
    c in s.written || (w < |s.workers| && s.workers[w].FlushEmitting? && s.workers[w].claim == c)
  }

  lemma OwnStepKeepsInHand(s: State, w: nat, now: nat, c: Claim)
    requires s.windowMs > 0 && Enabled(s, Work(w, now))
    requires s.workers[w].Flushing? || s.workers[w].FlushEmitting?
    requires OutOrInHand(s, w, c) || c in FlushTakes(s, Work(w, now), w)
    ensures OutOrInHand(WorkStep(s, w, now), w, c)
  {
    hide PopStep, InsertStep, EmitStep, ClaimStep, DrainStep;
  }

  lemma StepKeepsInHand(s: State, a: Action, w: nat, c: Claim)
    requires s.windowMs > 0 && Enabled(s, a) && w < |s.workers|
    requires OutOrInHand(s, w, c) || c in FlushTakes(s, a, w)
    ensures OutOrInHand(Next(s, a), w, c)
  {
    hide WorkStep;
    if c in s.written {
      WrittenStays(s, a, c);
    } else if a.Work? && a.worker == w {
      OwnStepKeepsInHand(s, w, a.now, c);
    } else {
      OthersStand(s, a, w);
    }
  }

  lemma WrittenStays(s: State, a: Action, c: Claim)
    requires s.windowMs > 0 && Enabled(s, a) && c in s.written
    ensures c in Next(s, a).written
  {
    hide WorkStep;
    if a.Work? {
      OnlyOneMoves(s, a.worker, a.now);
      var i :| 0 <= i < |s.written| && s.written[i] == c;
      assert Next(s, a).written[i] == c;
    }
  }

  lemma {:induction false} RunKeepsInHand(s: State, actions: seq<Action>, w: nat, c: Claim)
    requires s.windowMs > 0 && Feasible(s, actions) && w < |s.workers|
    requires OutOrInHand(s, w, c) || c in FlushTaken(s, actions, w)
    ensures OutOrInHand(Run(s, actions), w, c)
    decreases |actions|
  {
    hide Next, Enabled, OutOrInHand, FlushTakes;
    if actions != [] {
      if OutOrInHand(s, w, c) || c in FlushTakes(s, actions[0], w) {
        StepKeepsInHand(s, actions[0], w, c);
      }
      RunKeepsInHand(Next(s, actions[0]), actions[1..], w, c);
    }
  }

  /**
   A worker that drains the map numbers those windows and no others, oldest first, whatever the other
   workers do; by its return all of them are numbered and written.
   */
  lemma FlushTakesAll(s: State, actions: seq<Action>, w: nat)
    requires s.windowMs > 0 && w < |s.workers| && s.workers[w].Draining? && Feasible(DrainStep(s, w), actions)
    ensures var t, ws := DrainStep(s, w), Ascending(s.pending);
      var cs := FlushTaken(t, actions, w);
      && ClaimsAscend(cs) && TakesFrom(cs, ws, s.nextId)
      && (Run(t, actions).workers[w] == Returned ==>
            |cs| == |ws| && forall i :: 0 <= i < |cs| ==> cs[i] in Run(t, actions).written)
  {
    var t := DrainStep(s, w);
    AscendingLists(s.pending);
    hide Ascending, Feasible, Run, FlushTaken;
    FlushFollowsPlan(t, actions, w);
    var cs := FlushTaken(t, actions, w);
    forall i | 0 <= i < |cs| && Run(t, actions).workers[w] == Returned
      ensures cs[i] in Run(t, actions).written
    {
      RunKeepsInHand(t, actions, w, cs[i]);
    }
  }

  // ---------- one worker ----------

  /** Ids given out so far and those the flush will give out follow window order, and so can all later ones. */
  ghost predicate OnCourse(s: State)
    requires |s.workers| == 1
  {
    s.late || InOrder(s.issued + WindowStarts(ToFlush(s.workers[0])), s.pending)
  }

  lemma PlanUnchanged(s: State, s': State)
    requires |s.workers| == |s'.workers| == 1 && OnCourse(s) && s'.late == s.late
    requires s'.pending == s.pending
    requires s'.issued + WindowStarts(ToFlush(s'.workers[0])) == s.issued + WindowStarts(ToFlush(s.workers[0]))
    ensures OnCourse(s')
  {
  }

  lemma InsertOnCourse(s: State, r: SensorReading)
    requires s.windowMs > 0 && |s.workers| == 1 && s.workers[0] == Holding(r) && OnCourse(s)
    ensures OnCourse(InsertStep(s, 0, r))
  {
    var s' := InsertStep(s, 0, r);
    assert s.issued + WindowStarts([]) == s.issued;
    hide WindowStart, ReadingsOf, BucketOf;
    assert s'.pending.Keys == s.pending.Keys + {WindowStart(r.timestampMs, s.windowMs)};
  }

  lemma ClaimOnCourse(s: State, now: nat, cs: seq<Claim>)
    requires |s.workers| == 1 && s.workers[0] == Claiming(now, cs) && OnCourse(s)
    ensures OnCourse(ClaimStep(s, 0, now, cs))
  {
    hide Ready;
    var s' := ClaimStep(s, 0, now, cs);
    assert s.issued + WindowStarts([]) == s.issued;
    assert s'.issued + WindowStarts([]) == s'.issued;
    if !s.late && s.pending != map[] {
      IssueExtends(s.issued, s.pending, Oldest(s.pending));
    }
  }

  lemma DrainOnCourse(s: State)
    requires |s.workers| == 1 && s.workers[0].Draining? && OnCourse(s)
    ensures OnCourse(DrainStep(s, 0))
  {
    assert s.issued + WindowStarts([]) == s.issued;
    if !s.late {
      AscendingLists(s.pending);
      FlushExtends(s.issued, s.pending, Ascending(s.pending));
    }
  }

  lemma FlushExtends(issued: seq<nat>, p: Pending, ws: seq<Window>)
    requires InOrder(issued, p) && Lists(ws, p)
    ensures InOrder(issued + WindowStarts(ws), map[])
  {
    var log := issued + WindowStarts(ws);
    forall i, j | 0 <= i < j < |log|
      ensures log[i] < log[j]
    {
      if j >= |issued| {
        assert log[j] == ws[j - |issued|].start;
        if i >= |issued| {
          assert log[i] == ws[i - |issued|].start;
        }
      }
    }
  }

  lemma FlushOnCourse(s: State, ws: seq<Window>)
    requires |s.workers| == 1 && s.workers[0] == Flushing(ws) && OnCourse(s)
    ensures OnCourse(FlushStep(s, 0, ws))
  {
    if ws != [] {
      StartsShift(s.issued, ws);
    }
    hide OnCourse, InOrder, WindowStarts;
    PlanUnchanged(s, FlushStep(s, 0, ws));
  }

  lemma StartsShift(issued: seq<nat>, ws: seq<Window>)
    requires ws != []
    ensures issued + [ws[0].start] + WindowStarts(ws[1..]) == issued + WindowStarts(ws)
  {
    assert WindowStarts(ws) == [ws[0].start] + WindowStarts(ws[1..]);
  }

  lemma EmitOnCourse(s: State)
    requires |s.workers| == 1 && OnCourse(s)
    ensures forall cs :: s.workers[0] == Emitting(cs) ==> OnCourse(EmitStep(s, 0, cs))
    ensures forall c, ws :: s.workers[0] == FlushEmitting(c, ws) ==> OnCourse(FlushEmitStep(s, 0, c, ws))
  {
    hide InOrder, WindowStarts;
  }

  lemma LoopOnCourse(s: State, now: nat)
    requires s.windowMs > 0 && |s.workers| == 1 && Enabled(s, Work(0, now)) && OnCourse(s)
    requires var x := s.workers[0]; x.AtTop? || x.SeenShutdown? || x.Popping? || x.ReadingClock? || x.Waiting?
    ensures OnCourse(WorkStep(s, 0, now))
  {
    hide OnCourse, InOrder, WindowStarts, InsertStep, ClaimStep, DrainStep, FlushStep, EmitStep, FlushEmitStep;
    PlanUnchanged(s, WorkStep(s, 0, now));
  }

  lemma StepOnCourse(s: State, a: Action)
    requires s.windowMs > 0 && |s.workers| == 1 && Enabled(s, a) && OnCourse(s)
    ensures OnCourse(Next(s, a))
  {
    hide InOrder, InsertStep, ClaimStep, DrainStep, FlushStep, FlushEmitStep, EmitStep, PopStep;
    match a
    case Work(w, now) =>
      hide OnCourse;
      match s.workers[0] {
        case Holding(r) => InsertOnCourse(s, r);
        case Claiming(t, cs) => ClaimOnCourse(s, t, cs);
        case Draining => DrainOnCourse(s);
        case Flushing(ws) => FlushOnCourse(s, ws);
        case Emitting(_) => EmitOnCourse(s);
        case FlushEmitting(_, _) => EmitOnCourse(s);
        case _ => LoopOnCourse(s, now);
      }
    case _ =>
  }

  lemma {:induction false} RunOnCourse(s: State, actions: seq<Action>)
    requires s.windowMs > 0 && |s.workers| == 1 && Feasible(s, actions) && OnCourse(s)
    ensures OnCourse(Run(s, actions))
    decreases |actions|
  {
    hide OnCourse, Next, Enabled;
    if actions != [] {
      StepOnCourse(s, actions[0]);
      RunOnCourse(Next(s, actions[0]), actions[1..]);
    }
  }

  /** With one worker and no late reading, ids follow window order to the end of the final flush. */
  lemma OneWorkerKeepsOrder(s: State, actions: seq<Action>)
    requires Initial(s) && |s.workers| == 1 && Feasible(s, actions) && !Run(s, actions).late
    ensures Increasing(Run(s, actions).issued)
    ensures forall c, d :: c in Run(s, actions).written && d in Run(s, actions).written ==>
              (c.id < d.id <==> c.window.start < d.window.start)
  {
    InitiallyOnCourse(s);
    assert s.windowMs > 0;
    hide *;
    RunOnCourse(s, actions);
    RunOrdered(s, actions);
    OrderedParts(Run(s, actions), 0);
    OnCourseIncreases(Run(s, actions));
    WrittenFollow(Run(s, actions).written, Run(s, actions).issued);
  }

  lemma InitiallyOnCourse(s: State)
    requires Initial(s) && |s.workers| == 1
    ensures OnCourse(s) && Ordered(s)
  {
  }

  lemma OnCourseIncreases(t: State)
    requires |t.workers| == 1 && OnCourse(t) && !t.late
    ensures Increasing(t.issued)
  {
    var log := t.issued + WindowStarts(ToFlush(t.workers[0]));
    forall i, j | 0 <= i < j < |t.issued|
      ensures t.issued[i] < t.issued[j]
    {
      assert log[i] < log[j];
    }
  }

  lemma WrittenFollow(written: seq<Claim>, issued: seq<nat>)
    requires AllRecorded(written, issued) && Increasing(issued)
    ensures forall c, d :: c in written && d in written ==> (c.id < d.id <==> c.window.start < d.window.start)
  {
    forall c | c in written
      ensures Recorded(c, issued)
    {
      var i :| 0 <= i < |written| && written[i] == c;
      assert Recorded(written[i], issued);
    }
  }

  // ---------- exactly when order survives the flush ----------

  ghost predicate KeepsWindowOrder(s: State, actions: seq<Action>)
    requires s.windowMs > 0 && Feasible(s, actions)
  {
    Run(s, actions).late || Increasing(Run(s, actions).issued)
  }

  /**
   Every run without a late reading keeps ids in window order through the final flush if and only if
   there is one worker.
   */
  lemma OrderSurvivesFlushExactlyAlone(s: State)
    requires Initial(s) && s.capacity >= 1
    ensures |s.workers| == 1 <==> forall actions :: Feasible(s, actions) ==> KeepsWindowOrder(s, actions)
  {
    if |s.workers| == 1 {
      forall actions | Feasible(s, actions)
        ensures KeepsWindowOrder(s, actions)
      {
        if !Run(s, actions).late {
          OneWorkerKeepsOrder(s, actions);
        }
      }
    } else {
      var newer, older := Thermo(0.0, "", s.windowMs, 0), Thermo(0.0, "", 0, 0);
      var actions := TwoFlushesRace(s, newer, older);
      FirstWindows(s.windowMs);
      hide Run, Feasible, WindowStart, Initial;
      var log := Run(s, actions).issued;
      assert log[0] == s.windowMs && log[1] == 0;
      assert Feasible(s, actions) && !KeepsWindowOrder(s, actions);
    }
  }

  lemma FirstWindows(windowMs: nat)
    requires windowMs > 0
    ensures WindowStart(0, windowMs) == 0 && WindowStart(windowMs, windowMs) == windowMs
  {
  }
}
