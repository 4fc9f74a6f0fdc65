/** Runs in which frame ids leave window order: after a late reading, and in the final flush without one. */
module OrderWitnesses {
  import opened Wrappers
  import opened Models
  import opened Windows
  import opened Workers
  import opened WorkerShutdown
  import opened WorkerFrames

  ghost predicate Reaches(s: State, t: State) {
    s.windowMs > 0 && exists actions :: Feasible(s, actions) && Run(s, actions) == t
  }

  lemma ReachesStep(s: State, a: Action)
    requires s.windowMs > 0 && Enabled(s, a)
    ensures Reaches(s, Next(s, a))
  {
    hide Next, Enabled;
    assert [a][1..] == [];
    assert Feasible(s, [a]) && Run(s, [a]) == Next(s, a);
  }

  lemma ReachesOn(s: State, t: State, u: State)
    requires Reaches(s, t) && Reaches(t, u)
    ensures Reaches(s, u)
  {
    hide Feasible, Run;
    var a :| Feasible(s, a) && Run(s, a) == t;
    var b :| Feasible(t, b) && Run(t, b) == u;
    RunConcat(s, a, b);
  }

  /** One more step of worker `w` after whatever led from `s` to `t`. */
  lemma ThenWork(s: State, t: State, w: nat, now: nat) returns (u: State)
    requires Reaches(s, t) && t.windowMs > 0 && Enabled(t, Work(w, now))
    ensures Reaches(s, u) && u == WorkStep(t, w, now)
  {
    hide WorkStep, Enabled, Reaches;
    u := Next(t, Work(w, now));
    ReachesStep(t, Work(w, now));
    ReachesOn(s, t, u);
  }

  /** Settings and flags are as they were. */
  ghost predicate Rest(s: State, t: State) {
    && t.windowMs == s.windowMs && t.capacity == s.capacity
    && t.readersDone == s.readersDone && t.shutdown == s.shutdown && t.flushing == s.flushing
  }

  /** A reading is pushed onto the empty queue and taken straight off by worker `w`. */
  lemma Deliver(s: State, w: nat, r: SensorReading) returns (t: State)
    requires s.windowMs > 0 && w < |s.workers| && s.workers[w] == AtTop
    requires s.capacity >= 1 && s.queue == [] && !s.readersDone && !s.shutdown
    ensures Reaches(s, t) && Rest(s, t) && t.workers == s.workers[w := Holding(r)]
    ensures t.queue == [] && t.lock == s.lock && t.pending == s.pending
    ensures t.nextId == s.nextId && t.issued == s.issued && t.late == s.late
  {
    t := Next(s, Push(r));
    ReachesStep(s, Push(r));
    hide Reaches;
    t := ThenWork(s, t, w, 0);
    t := ThenWork(s, t, w, 0);
  }

  /** Worker `w` files its reading, looks at the clock and takes the lock. */
  lemma File(s: State, w: nat, r: SensorReading, now: nat) returns (t: State)
    requires s.windowMs > 0 && w < |s.workers| && s.workers[w] == Holding(r) && s.lock == None
    ensures Reaches(s, t) && Rest(s, t) && t.workers == s.workers[w := Claiming(now, [])]
    ensures t.queue == s.queue && t.lock == Some(w) && t.pending == Inserted(s.pending, r, s.windowMs)
    ensures t.nextId == s.nextId && t.issued == s.issued && t.late == (s.late || ArrivesLate(s, r))
  {
    hide Inserted, ArrivesLate;
    t := Next(s, Work(w, now));
    ReachesStep(s, Work(w, now));
    hide Reaches;
    t := ThenWork(s, t, w, now);
    t := ThenWork(s, t, w, now);
  }

  /** With nothing ready, worker `w` lets the map go and comes back to the top of its loop. */
  lemma LetGo(s: State, w: nat, now: nat) returns (t: State)
    requires s.windowMs > 0 && w < |s.workers| && s.workers[w] == Claiming(now, [])
    requires s.pending == map[] || !Ready(Oldest(s.pending), now, s.windowMs)
    ensures Reaches(s, t) && Rest(s, t) && t.workers == s.workers[w := AtTop]
    ensures t.queue == s.queue && t.lock == None && t.pending == s.pending
    ensures t.nextId == s.nextId && t.issued == s.issued && t.late == s.late
  {
    hide Ready;
    t := Next(s, Work(w, now));
    ReachesStep(s, Work(w, now));
    hide Reaches;
    t := ThenWork(s, t, w, now);
  }

  /** With one window pending and ready, worker `w` claims it. */
  lemma TakeOnly(s: State, w: nat, now: nat, start: nat) returns (t: State)
    requires s.windowMs > 0 && w < |s.workers| && s.workers[w] == Claiming(now, [])
    requires s.pending.Keys == {start} && Ready(start, now, s.windowMs)
    ensures Reaches(s, t) && Rest(s, t) && t.queue == s.queue && t.late == s.late && t.pending == map[]
    ensures t.nextId == s.nextId + 1 && t.issued == s.issued + [start]
    ensures t.workers == s.workers[w := Claiming(now, [Claim(s.nextId, Window(start, s.pending[start]))])]
  {
    assert Oldest(s.pending) == start;
    var c := Claim(s.nextId, Window(start, s.pending[start]));
    assert [] + [c] == [c];
    hide Ready;
    t := Next(s, Work(w, now));
    ReachesStep(s, Work(w, now));
    assert t.pending.Keys == {};
  }

  /** It then finds nothing left, writes the frame and comes back to the top. */
  lemma WriteOnly(s: State, w: nat, now: nat, c: Claim) returns (t: State)
    requires s.windowMs > 0 && w < |s.workers| && s.workers[w] == Claiming(now, [c]) && s.pending == map[]
    ensures Reaches(s, t) && Rest(s, t) && t.workers == s.workers[w := AtTop]
    ensures t.queue == s.queue && t.lock == None && t.pending == map[]
    ensures t.nextId == s.nextId && t.issued == s.issued && t.late == s.late
  {
    hide Ready;
    t := Next(s, Work(w, now));
    ReachesStep(s, Work(w, now));
    hide Reaches;
    t := ThenWork(s, t, w, now);
    t := ThenWork(s, t, w, now);
  }

  /** With the flag up and the queue empty, worker `w` leaves with the whole map. */
  lemma Leave(s: State, w: nat) returns (t: State)
    requires s.windowMs > 0 && w < |s.workers| && s.workers[w] == AtTop
    requires s.shutdown && s.queue == [] && s.lock == None
    ensures Reaches(s, t) && Rest(s, t) && t.workers == s.workers[w := Flushing(Ascending(s.pending))]
    ensures t.queue == [] && t.lock == None && t.pending == map[]
    ensures t.nextId == s.nextId && t.issued == s.issued && t.late == s.late
  {
    hide Ascending;
    t := Next(s, Work(w, 0));
    ReachesStep(s, Work(w, 0));
    hide Reaches;
    t := ThenWork(s, t, w, 0);
    t := ThenWork(s, t, w, 0);
  }

  /** Worker `w` numbers the first window of its flush. */
  lemma NumberFirst(s: State, w: nat, ws: seq<Window>) returns (t: State)
    requires s.windowMs > 0 && w < |s.workers| && s.workers[w] == Flushing(ws) && ws != []
    ensures Reaches(s, t) && t.issued == s.issued + [ws[0].start] && t.late == s.late && t.windowMs == s.windowMs
    ensures |t.workers| == |s.workers| && forall i :: 0 <= i < |s.workers| && i != w ==> t.workers[i] == s.workers[i]
  {
    t := Next(s, Work(w, 0));
    ReachesStep(s, Work(w, 0));
  }

  // ---------- a late reading ----------

  /** One reading goes all the way: pushed, popped, filed, claimed at a late enough `now`, and written. */
  lemma FullTurn(s: State, r: SensorReading) returns (t: State)
    requires s.windowMs > 0 && s.workers != [] && s.workers[0] == AtTop && s.lock == None
    requires s.capacity >= 1 && s.queue == [] && s.pending == map[] && !s.readersDone && !s.shutdown
    ensures Reaches(s, t) && Rest(s, t) && t.workers == s.workers
    ensures t.queue == [] && t.lock == None && t.pending == map[]
    ensures t.issued == s.issued + [WindowStart(r.timestampMs, s.windowMs)]
    ensures t.late == (s.late || ArrivesLate(s, r))
  {
    var start := WindowStart(r.timestampMs, s.windowMs);
    var now := start + s.windowMs + GraceFor(s.windowMs);
    assert Inserted(map[], r, s.windowMs).Keys == {start};
    assert Ready(start, now, s.windowMs);
    hide Reaches, ArrivesLate, Inserted, Ready, GraceFor, WindowStart;
    var a := Deliver(s, 0, r);
    var b := File(a, 0, r, now);
    var c := TakeOnly(b, 0, now, start);
    t := WriteOnly(c, 0, now, Claim(b.nextId, Window(start, b.pending[start])));
    ReachesOn(s, a, b);
    ReachesOn(s, b, c);
    ReachesOn(s, c, t);
    LateFrom(s, a, r);
    assert t.workers == s.workers;
  }

  lemma LateFrom(s: State, t: State, r: SensorReading)
    requires s.windowMs > 0 && t.windowMs == s.windowMs && t.issued == s.issued
    ensures ArrivesLate(s, r) == ArrivesLate(t, r)
  {
  }

  /**
   From every start, two readings of which the second belongs to the same window or an earlier one can be
   late and spoil the order of ids, with no worker anywhere near shutdown.
   */
  lemma LateReadingSpoilsOrder(s: State, a: SensorReading, b: SensorReading) returns (actions: seq<Action>)
    requires Initial(s) && s.capacity >= 1
    requires WindowStart(b.timestampMs, s.windowMs) <= WindowStart(a.timestampMs, s.windowMs)
    ensures Feasible(s, actions)
    ensures var t := Run(s, actions);
      t.late && !Increasing(t.issued) && forall i :: 0 <= i < |t.workers| ==> !Left(t.workers[i])
  {
    hide Reaches, WindowStart;
    var t := FullTurn(s, a);
    var u := FullTurn(t, b);
    ReachesOn(s, t, u);
    assert t.issued[0] == WindowStart(a.timestampMs, s.windowMs);
    assert u.issued[0] > u.issued[1] || u.issued[0] == u.issued[1];
    actions := RunTo(s, u);
  }

  lemma RunTo(s: State, t: State) returns (actions: seq<Action>)
    requires Reaches(s, t)
    ensures Feasible(s, actions) && Run(s, actions) == t
  {
    hide Feasible, Run;
    actions :| Feasible(s, actions) && Run(s, actions) == t;
  }

  // ---------- two flushes ----------

  lemma RaiseFlag(s: State) returns (t: State)
    requires s.windowMs > 0 && !s.readersDone && !s.shutdown
    ensures Reaches(s, t) && t == s.(readersDone := true, shutdown := true)
  {
    var u := Next(s, StopReaders);
    ReachesStep(s, StopReaders);
    t := Next(u, RaiseShutdown);
    ReachesStep(u, RaiseShutdown);
    hide Reaches;
    ReachesOn(s, u, t);
  }

  /** After the flag, worker `w` files what it holds, claims nothing, and leaves with that one window. */
  lemma FileAndLeave(s: State, w: nat, r: SensorReading) returns (t: State)
    requires s.windowMs > 0 && w < |s.workers| && s.workers[w] == Holding(r) && s.lock == None
    requires s.pending == map[] && s.queue == [] && s.shutdown && s.issued == []
    ensures Reaches(s, t) && Rest(s, t) && t.queue == [] && t.lock == None && t.pending == map[]
    ensures t.issued == [] && t.late == s.late
    ensures |t.workers| == |s.workers| && t.workers[w].Flushing?
    ensures Heads(t.workers[w].windows, WindowStart(r.timestampMs, s.windowMs))
    ensures forall i :: 0 <= i < |s.workers| && i != w ==> t.workers[i] == s.workers[i]
  {
    var p := Inserted(map[], r, s.windowMs);
    OnlyWindow(r, s.windowMs);
    hide Reaches, Inserted, Ready, WindowStart, Ascending, Heads;
    assert !ArrivesLate(s, r);
    var a := File(s, w, r, 0);
    var b := LetGo(a, w, 0);
    t := Leave(b, w);
    ReachesOn(s, a, b);
    ReachesOn(s, b, t);
  }

  /** The list starts with the window at `start`. */
  ghost predicate Heads(ws: seq<Window>, start: nat) {
    ws != [] && ws[0].start == start
  }

  lemma OnlyWindow(r: SensorReading, windowMs: nat)
    requires windowMs > 0
    ensures var p := Inserted(map[], r, windowMs);
      p != map[] && !Ready(Oldest(p), 0, windowMs) && Heads(Ascending(p), WindowStart(r.timestampMs, windowMs))
  {
    var p := Inserted(map[], r, windowMs);
    assert WindowStart(r.timestampMs, windowMs) in p;
  }

  /** Workers 0 and 1 each hold a reading when the flag goes up. */
  lemma BothHold(s: State, a: SensorReading, b: SensorReading) returns (t: State)
    requires Initial(s) && s.capacity >= 1 && |s.workers| >= 2
    ensures Reaches(s, t) && t.windowMs == s.windowMs && t.workers == s.workers[0 := Holding(a)][1 := Holding(b)]
    ensures t.shutdown && t.queue == [] && t.pending == map[] && t.lock == None && t.issued == [] && !t.late
  {
    hide Reaches;
    var u := Deliver(s, 0, a);
    var v := Deliver(u, 1, b);
    t := RaiseFlag(v);
    ReachesOn(s, u, v);
    ReachesOn(s, v, t);
  }

  /**
   From every start with two workers or more, any two readings can end up in two flushes that number them
   in the order of the workers, whichever way round their windows are: no reading is late in this run.
   */
  lemma TwoFlushesRace(s: State, a: SensorReading, b: SensorReading) returns (actions: seq<Action>)
    requires Initial(s) && s.capacity >= 1 && |s.workers| >= 2
    ensures Feasible(s, actions) && !Run(s, actions).late
    ensures Run(s, actions).issued == [WindowStart(a.timestampMs, s.windowMs), WindowStart(b.timestampMs, s.windowMs)]
  {
    hide Reaches, WindowStart;
    var t := BothHold(s, a, b);
    var u := FileAndLeave(t, 0, a);
    var v := FileAndLeave(u, 1, b);
    var x := NumberFirst(v, 0, v.workers[0].windows);
    var y := NumberFirst(x, 1, x.workers[1].windows);
    ReachesOn(s, t, u);
    ReachesOn(s, u, v);
    ReachesOn(s, v, x);
    ReachesOn(s, x, y);
    actions := RunTo(s, y);
  }
}
