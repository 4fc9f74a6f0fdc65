/** The queue in the worker pool is the shared buffer: the same pushes, the same pops. */
module PoolQueue {
  import opened Models
  import opened Folds
  import opened Windows
  import opened Workers
  import opened WorkerShutdown
  import opened SharedBuffer

  /** The buffer object behind a pool state; what is not queued has been popped. */
  function BufferOf(s: State, fullWaits: nat): Buffer<SensorReading>
    requires |s.queue| <= |s.pushed|
  {
    Buffer(s.queue, |s.pushed|, |s.pushed| - |s.queue|, fullWaits)
  }

  /** In every reachable state the queue holds no more than was pushed. */
  lemma QueueWithinPushed(s: State, actions: seq<Action>)
    requires Initial(s) && Feasible(s, actions)
    ensures |Run(s, actions).queue| <= |Run(s, actions).pushed|
  {
    PipelineConservation(s, actions);
    hide Run, Feasible, Initial, Held, PendingReadings, Written;
    var t := Run(s, actions);
    var rest := Held(t) + PendingReadings(t.pending) + Written(t);
    assert multiset(t.pushed) == multiset(t.queue) + rest;
    assert |multiset(t.queue)| == |t.queue| && |multiset(t.pushed)| == |t.pushed|;
  }

  /** A push of the pool is a push that finds room, and is possible exactly when the buffer takes it. */
  lemma PushIsPushed(s: State, r: SensorReading, fullWaits: nat)
    requires s.windowMs > 0 && |s.queue| <= |s.pushed|
    ensures Enabled(s, Push(r)) <==>
              !s.readersDone && Pushed(BufferOf(s, fullWaits), s.capacity, r).items != s.queue
    ensures Enabled(s, Push(r)) ==>
              BufferOf(Next(s, Push(r)), fullWaits) == Pushed(BufferOf(s, fullWaits), s.capacity, r)
  {
    assert |s.queue + [r]| != |s.queue|;
  }

  /** A pop of the pool takes what the buffer gives: the oldest reading, or nothing when empty. */
  lemma PopIsPopped(s: State, w: nat, fullWaits: nat)
    requires w < |s.workers| && |s.queue| <= |s.pushed|
    ensures BufferOf(PopStep(s, w), fullWaits) == Popped(BufferOf(s, fullWaits))
    ensures s.queue != [] ==>
              PopStep(s, w).workers[w].Holding? && [PopStep(s, w).workers[w].reading] + PopStep(s, w).queue == s.queue
  {
  }

  /** No other step of a worker touches the queue. */
  lemma OthersLeaveQueue(s: State, w: nat, now: nat)
    requires s.windowMs > 0 && Enabled(s, Work(w, now)) && !s.workers[w].Popping?
    ensures WorkStep(s, w, now).queue == s.queue && WorkStep(s, w, now).pushed == s.pushed
  {
    hide Inserted, ArrivesLate, Ready, Ascending, PopStep;
    if s.workers[w].Holding? || s.workers[w].Claiming? || s.workers[w].Draining? {
      hide EmitStep, FlushStep, FlushEmitStep;
    } else {
      hide InsertStep, ClaimStep, DrainStep;
    }
  }
}
