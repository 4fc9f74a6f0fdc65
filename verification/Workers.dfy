/**
 The aggregation workers as a state machine: any number of workers, each lock acquisition, flag load,
 id increment and frame write a separate step, interleaved with producers and with the stop sequence
 (readers are joined, then the shutdown flag is raised). A worker that waits simply does not step.
 */
module Workers {
  import opened Wrappers
  import opened Models
  import opened Folds
  import opened Windows

  /** Where a worker's loop stands; fields are what it holds there. */
  datatype Worker =
    | AtTop
    | SeenShutdown
    | Popping
    | Holding(reading: SensorReading)
    | ReadingClock
    | Waiting(now: nat)
    | Claiming(now: nat, claimed: seq<Claim>)
    | Emitting(claimed: seq<Claim>)
    | Draining
    | Flushing(windows: seq<Window>)
    | FlushEmitting(claim: Claim, windows: seq<Window>)
    | Returned

  /**
   `issued[id]` is the window that frame id `id` went to. `late` records that some reading arrived for
   a window at or below one already issued; `flushing`, that some worker numbered a frame of the final flush.
   */
  datatype State = State(
    windowMs: nat, capacity: nat,
    pushed: seq<SensorReading>, queue: seq<SensorReading>,
    readersDone: bool, shutdown: bool,
    pending: Pending, lock: Option<nat>, workers: seq<Worker>,
    nextId: nat, issued: seq<nat>, written: seq<Claim>,
    late: bool, flushing: bool)

  /** `Work(w, now)`: worker `w` takes its next step; `now` is what the clock shows if it looks. */
  datatype Action = Push(reading: SensorReading) | StopReaders | RaiseShutdown | Work(worker: nat, now: nat)

  ghost predicate Initial(s: State) {
    && s.windowMs > 0
    && s.pushed == [] && s.queue == []
    && !s.readersDone && !s.shutdown
    && s.pending == map[] && s.lock == None
    && s.workers != [] && (forall i :: 0 <= i < |s.workers| ==> s.workers[i] == AtTop)
    && s.nextId == 0 && s.issued == [] && s.written == []
    && !s.late && !s.flushing
  }

  predicate NeedsLock(w: Worker) {
    w.Holding? || w.Waiting? || w.Draining?
  }

  predicate Enabled(s: State, a: Action) {
    match a
    case Push(_) => !s.readersDone && |s.queue| < s.capacity
    case StopReaders => !s.readersDone
    case RaiseShutdown => s.readersDone && !s.shutdown
    case Work(w, _) =>
      w < |s.workers| && s.workers[w] != Returned && (NeedsLock(s.workers[w]) ==> s.lock == None)
  }

  function Put(s: State, w: nat, worker: Worker): (s': State)
    requires w < |s.workers|
    ensures s'.windowMs == s.windowMs && |s'.workers| == |s.workers|
  {
    s.(workers := s.workers[w := worker])
  }

  /** The reading belongs to a window no later than one that already has a frame id. */
  predicate ArrivesLate(s: State, r: SensorReading)
    requires s.windowMs > 0
  {
    exists i :: 0 <= i < |s.issued| && WindowStart(r.timestampMs, s.windowMs) <= s.issued[i]
  }

  function PopStep(s: State, w: nat): (s': State)
    requires w < |s.workers|
    ensures s'.windowMs == s.windowMs && |s'.workers| == |s.workers|
  {
    if s.queue == [] then Put(s, w, ReadingClock)
    else s.(workers := s.workers[w := Holding(s.queue[0])], queue := s.queue[1..])
  }

  function InsertStep(s: State, w: nat, r: SensorReading): (s': State)
    requires s.windowMs > 0 && w < |s.workers|
    ensures s'.windowMs == s.windowMs && |s'.workers| == |s.workers|
  {
    s.(workers := s.workers[w := ReadingClock],
       pending := Inserted(s.pending, r, s.windowMs), late := s.late || ArrivesLate(s, r))
  }

  /** One turn of the claim loop, under the lock: claim the oldest window if it is ready, else let go. */
  ghost function ClaimStep(s: State, w: nat, now: nat, claimed: seq<Claim>): (s': State)
    requires w < |s.workers|
    ensures s'.windowMs == s.windowMs && |s'.workers| == |s.workers|
  {
    if s.pending != map[] && Ready(Oldest(s.pending), now, s.windowMs) then
      var start := Oldest(s.pending);
      s.(workers := s.workers[w := Claiming(now, claimed + [Claim(s.nextId, Window(start, s.pending[start]))])],
         pending := s.pending - {start}, nextId := s.nextId + 1, issued := s.issued + [start])
    else
      s.(workers := s.workers[w := Emitting(claimed)], lock := None)
  }

  function EmitStep(s: State, w: nat, claimed: seq<Claim>): (s': State)
    requires w < |s.workers|
    ensures s'.windowMs == s.windowMs && |s'.workers| == |s.workers|
  {
    if claimed == [] then Put(s, w, AtTop)
    else s.(workers := s.workers[w := Emitting(claimed[1..])], written := s.written + [claimed[0]])
  }

  ghost function DrainStep(s: State, w: nat): (s': State)
    requires w < |s.workers|
    ensures s'.windowMs == s.windowMs && |s'.workers| == |s.workers|
  {
    s.(workers := s.workers[w := Flushing(Ascending(s.pending))], pending := map[])
  }

  function FlushStep(s: State, w: nat, ws: seq<Window>): (s': State)
    requires w < |s.workers|
    ensures s'.windowMs == s.windowMs && |s'.workers| == |s.workers|
  {
    if ws == [] then Put(s, w, Returned)
    else
      s.(workers := s.workers[w := FlushEmitting(Claim(s.nextId, ws[0]), ws[1..])],
         nextId := s.nextId + 1, issued := s.issued + [ws[0].start], flushing := true)
  }

  function FlushEmitStep(s: State, w: nat, c: Claim, ws: seq<Window>): (s': State)
    requires w < |s.workers|
    ensures s'.windowMs == s.windowMs && |s'.workers| == |s.workers|
  {
    s.(workers := s.workers[w := Flushing(ws)], written := s.written + [c])
  }

  ghost function WorkStep(s: State, w: nat, now: nat): (s': State)
    requires s.windowMs > 0 && w < |s.workers| && s.workers[w] != Returned
    ensures s'.windowMs == s.windowMs && |s'.workers| == |s.workers|
  {
    match s.workers[w]
    case AtTop => Put(s, w, if s.shutdown then SeenShutdown else Popping)
    case SeenShutdown => Put(s, w, if s.queue == [] then Draining else Popping)
    case Popping => PopStep(s, w)
    case Holding(r) => InsertStep(s, w, r)
    case ReadingClock => Put(s, w, Waiting(now))
    case Waiting(t) => Put(s, w, Claiming(t, [])).(lock := Some(w))
    case Claiming(t, cs) => ClaimStep(s, w, t, cs)
    case Emitting(cs) => EmitStep(s, w, cs)
    case Draining => DrainStep(s, w)
    case Flushing(ws) => FlushStep(s, w, ws)
    case FlushEmitting(c, ws) => FlushEmitStep(s, w, c, ws)
  }

  ghost function Next(s: State, a: Action): (s': State)
    requires s.windowMs > 0 && Enabled(s, a)
    ensures s'.windowMs == s.windowMs && |s'.workers| == |s.workers|
  {
    match a
    case Push(r) => s.(pushed := s.pushed + [r], queue := s.queue + [r])
    case StopReaders => s.(readersDone := true)
    case RaiseShutdown => s.(shutdown := true)
    case Work(w, now) => WorkStep(s, w, now)
  }

  ghost predicate Feasible(s: State, actions: seq<Action>)
    requires s.windowMs > 0
    decreases |actions|
  {
    actions == [] || (Enabled(s, actions[0]) && Feasible(Next(s, actions[0]), actions[1..]))
  }

  ghost function Run(s: State, actions: seq<Action>): (s': State)
    requires s.windowMs > 0 && Feasible(s, actions)
    ensures s'.windowMs == s.windowMs && |s'.workers| == |s.workers|
    decreases |actions|
  {
    if actions == [] then s else Run(Next(s, actions[0]), actions[1..])
  }

  // ---------- conservation of readings ----------

  ghost function WorkerReadings(w: Worker): multiset<SensorReading> {
    match w
    case Holding(r) => multiset{r}
    case Claiming(_, cs) => GatherSeq(cs, ClaimReadings)
    case Emitting(cs) => GatherSeq(cs, ClaimReadings)
    case Flushing(ws) => GatherSeq(ws, WindowReadings)
    case FlushEmitting(c, ws) => ClaimReadings(c) + GatherSeq(ws, WindowReadings)
    case _ => multiset{}
  }

  ghost function Held(s: State): multiset<SensorReading> {
    GatherSeq(s.workers, WorkerReadings)
  }

  ghost function Written(s: State): multiset<SensorReading> {
    GatherSeq(s.written, ClaimReadings)
  }

  /** pushed = queued + in workers' hands (popped, claimed or being flushed) + pending + written. */
  ghost predicate Conserved(s: State) {
    multiset(s.pushed) == multiset(s.queue) + Held(s) + PendingReadings(s.pending) + Written(s)
  }

  lemma TransferMultisets<E>(total: multiset<E>, q: multiset<E>, h: multiset<E>, p: multiset<E>, w: multiset<E>,
                             q': multiset<E>, h': multiset<E>, p': multiset<E>, w': multiset<E>,
                             x: multiset<E>, x': multiset<E>, moved: multiset<E>)
    requires total == q + h + p + w
    requires h' + x == h + x'
    requires || (q == q' + moved && p == p' && w == w' && x' == x + moved)
             || (q == q' && p == p' + moved && w == w' && x' == x + moved)
             || (q == q' && p' == p + moved && w == w' && x == x' + moved)
             || (q == q' && p == p' && w' == w + moved && x == x' + moved)
    ensures total == q' + h' + p' + w'
  {
    forall e
      ensures total[e] == (q' + h' + p' + w')[e]
    {
      assert (h' + x)[e] == (h + x')[e];
    }
  }

  /** A step that moves `moved` between one worker and one other place conserves the readings. */
  lemma LocalMoveConserves(s: State, s': State, w: nat, worker': Worker, moved: multiset<SensorReading>)
    requires Conserved(s) && w < |s.workers|
    requires s'.pushed == s.pushed && s'.workers == s.workers[w := worker']
    requires
      var q, p, d, x := multiset(s.queue), PendingReadings(s.pending), Written(s), WorkerReadings(s.workers[w]);
      var q', p', d', x' := multiset(s'.queue), PendingReadings(s'.pending), Written(s'), WorkerReadings(worker');
      || (q == q' + moved && p == p' && d == d' && x' == x + moved)
      || (q == q' && p == p' + moved && d == d' && x' == x + moved)
      || (q == q' && p' == p + moved && d == d' && x == x' + moved)
      || (q == q' && p == p' && d' == d + moved && x == x' + moved)
    ensures Conserved(s')
  {
    hide PendingReadings, GatherSeq, WorkerReadings;
    GatherSeqUpdate(s.workers, w, worker', WorkerReadings);
    TransferMultisets(multiset(s.pushed),
      multiset(s.queue), Held(s), PendingReadings(s.pending), Written(s),
      multiset(s'.queue), Held(s'), PendingReadings(s'.pending), Written(s'),
      WorkerReadings(s.workers[w]), WorkerReadings(worker'), moved);
  }

  lemma QuietMoveConserves(s: State, s': State, w: nat, worker': Worker)
    requires Conserved(s) && w < |s.workers|
    requires s'.pushed == s.pushed && s'.workers == s.workers[w := worker']
    requires s'.queue == s.queue && s'.pending == s.pending && s'.written == s.written
    requires WorkerReadings(worker') == WorkerReadings(s.workers[w])
    ensures Conserved(s')
  {
    hide PendingReadings, GatherSeq, WorkerReadings, Conserved;
    LocalMoveConserves(s, s', w, worker', multiset{});
  }

  lemma NothingGathered()
    ensures GatherSeq([], ClaimReadings) == multiset{} && GatherSeq([], WindowReadings) == multiset{}
    ensures PendingReadings(map[]) == multiset{}
  {
  }

  lemma PopConserves(s: State, w: nat)
    requires w < |s.workers| && s.workers[w].Popping? && Conserved(s)
    ensures Conserved(PopStep(s, w))
  {
    hide PendingReadings, GatherSeq, Conserved;
    var s' := PopStep(s, w);
    if s.queue == [] {
      QuietMoveConserves(s, s', w, ReadingClock);
    } else {
      var r := s.queue[0];
      assert s.queue == [r] + s'.queue;
      assert multiset(s.queue) == multiset(s'.queue) + multiset{r};
      LocalMoveConserves(s, s', w, Holding(r), multiset{r});
    }
  }

  lemma InsertConserves(s: State, w: nat, r: SensorReading)
    requires s.windowMs > 0 && w < |s.workers| && s.workers[w] == Holding(r) && Conserved(s)
    ensures Conserved(InsertStep(s, w, r))
  {
    hide PendingReadings, GatherSeq, Conserved, Inserted;
    InsertAddsOne(s.pending, r, s.windowMs);
    LocalMoveConserves(s, InsertStep(s, w, r), w, ReadingClock, multiset{r});
  }

  lemma ClaimConserves(s: State, w: nat, now: nat, cs: seq<Claim>)
    requires w < |s.workers| && s.workers[w] == Claiming(now, cs) && Conserved(s)
    ensures Conserved(ClaimStep(s, w, now, cs))
  {
    hide PendingReadings, GatherSeq, Conserved, BucketReadings;
    var s' := ClaimStep(s, w, now, cs);
    if s.pending != map[] && Ready(Oldest(s.pending), now, s.windowMs) {
      var start := Oldest(s.pending);
      var c := Claim(s.nextId, Window(start, s.pending[start]));
      RemoveTakes(s.pending, start);
      GatherSeqAppend(cs, c, ClaimReadings);
      LocalMoveConserves(s, s', w, Claiming(now, cs + [c]), ClaimReadings(c));
    } else {
      QuietMoveConserves(s, s', w, Emitting(cs));
    }
  }

  lemma EmitConserves(s: State, w: nat, cs: seq<Claim>)
    requires w < |s.workers| && s.workers[w] == Emitting(cs) && Conserved(s)
    ensures Conserved(EmitStep(s, w, cs))
  {
    hide PendingReadings, GatherSeq, Conserved, ClaimReadings;
    var s' := EmitStep(s, w, cs);
    NothingGathered();
    if cs == [] {
      QuietMoveConserves(s, s', w, AtTop);
    } else {
      GatherSeqHead(cs, ClaimReadings);
      GatherSeqAppend(s.written, cs[0], ClaimReadings);
      LocalMoveConserves(s, s', w, Emitting(cs[1..]), ClaimReadings(cs[0]));
    }
  }

  lemma DrainConserves(s: State, w: nat)
    requires w < |s.workers| && s.workers[w].Draining? && Conserved(s)
    ensures Conserved(DrainStep(s, w))
  {
    hide PendingReadings, GatherSeq, Conserved, WindowReadings;
    NothingGathered();
    AscendingReadings(s.pending);
    LocalMoveConserves(s, DrainStep(s, w), w, Flushing(Ascending(s.pending)), PendingReadings(s.pending));
  }

  lemma FlushConserves(s: State, w: nat, ws: seq<Window>)
    requires w < |s.workers| && s.workers[w] == Flushing(ws) && Conserved(s)
    ensures Conserved(FlushStep(s, w, ws))
  {
    hide PendingReadings, GatherSeq, Conserved, WindowReadings;
    var s' := FlushStep(s, w, ws);
    NothingGathered();
    if ws != [] {
      GatherSeqHead(ws, WindowReadings);
    }
    QuietMoveConserves(s, s', w, s'.workers[w]);
  }

  lemma FlushEmitConserves(s: State, w: nat, c: Claim, ws: seq<Window>)
    requires w < |s.workers| && s.workers[w] == FlushEmitting(c, ws) && Conserved(s)
    ensures Conserved(FlushEmitStep(s, w, c, ws))
  {
    hide PendingReadings, GatherSeq, Conserved, ClaimReadings;
    GatherSeqAppend(s.written, c, ClaimReadings);
    LocalMoveConserves(s, FlushEmitStep(s, w, c, ws), w, Flushing(ws), ClaimReadings(c));
  }

  lemma WorkConserves(s: State, w: nat, now: nat)
    requires s.windowMs > 0 && w < |s.workers| && s.workers[w] != Returned && Conserved(s)
    ensures Conserved(WorkStep(s, w, now))
  {
    hide PendingReadings, GatherSeq, Conserved;
    hide PopStep, InsertStep, ClaimStep, EmitStep, DrainStep, FlushStep, FlushEmitStep;
    match s.workers[w]
    case Popping => PopConserves(s, w);
    case Holding(r) => InsertConserves(s, w, r);
    case Claiming(t, cs) => ClaimConserves(s, w, t, cs);
    case Emitting(cs) => EmitConserves(s, w, cs);
    case Draining => DrainConserves(s, w);
    case Flushing(ws) => FlushConserves(s, w, ws);
    case FlushEmitting(c, ws) => FlushEmitConserves(s, w, c, ws);
    case _ => QuietConserves(s, w, now);
  }

  lemma QuietConserves(s: State, w: nat, now: nat)
    requires s.windowMs > 0 && w < |s.workers| && Conserved(s)
    requires var x := s.workers[w]; x.AtTop? || x.SeenShutdown? || x.ReadingClock? || x.Waiting?
    ensures Conserved(WorkStep(s, w, now))
  {
    hide PendingReadings, GatherSeq, Conserved;
    NothingGathered();
    var s' := WorkStep(s, w, now);
    QuietMoveConserves(s, s', w, s'.workers[w]);
  }

  lemma PushConserves(s: State, r: SensorReading)
    requires s.windowMs > 0 && Enabled(s, Push(r)) && Conserved(s)
    ensures Conserved(Next(s, Push(r)))
  {
    hide PendingReadings, GatherSeq, WorkStep;
    assert multiset(s.queue + [r]) == multiset(s.queue) + multiset{r};
    assert multiset(s.pushed + [r]) == multiset(s.pushed) + multiset{r};
  }

  /** Every step keeps the books balanced. */
  lemma StepConserves(s: State, a: Action)
    requires s.windowMs > 0 && Enabled(s, a) && Conserved(s)
    ensures Conserved(Next(s, a))
  {
    hide WorkStep, PendingReadings, GatherSeq;
    match a
    case Push(r) => PushConserves(s, r);
    case Work(w, now) => WorkConserves(s, w, now);
    case _ =>
  }
}
