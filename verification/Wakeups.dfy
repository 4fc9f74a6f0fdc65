/**
 The bounded queue's condition variables as a state machine over any number of producers and
 consumers. Each step is one critical section, or a sleeper waking. A notification goes to one
 sleeping thread of the notifier's choice, if there is one; sleepers may also wake unprompted.
 */
module Wakeups {
  import opened Folds
  import opened SharedBuffer

  /** A producer inside `push`: asleep on `not_full`, or woken and on its way back to the mutex. */
  datatype Producer<T> = Outside | Asleep(reading: T) | Awake(reading: T)

  /** A consumer inside `pop_timeout`: asleep on `not_empty`, or woken; `expired` when its time is up. */
  datatype Consumer = Away | Dozing | Roused(expired: bool)

  datatype State<T> = State(
    capacity: nat, queue: seq<T>,
    producers: seq<Producer<T>>, consumers: seq<Consumer>,
    pushed: seq<T>, popped: seq<T>, fullWaits: nat)

  /** `wake` names the thread the notification goes to, if any is asleep there. */
  datatype Action<T> =
    | PushFresh(producer: nat, reading: T, wake: nat)
    | PushAgain(producer: nat, wake: nat)
    | PopFresh(consumer: nat, wake: nat)
    | PopAgain(consumer: nat, wake: nat)
    | StirProducer(producer: nat)
    | StirConsumer(consumer: nat, expired: bool)
    | WakeAll

  ghost predicate SomeAsleep<T>(ps: seq<Producer<T>>) {
    exists i :: 0 <= i < |ps| && ps[i].Asleep?
  }

  ghost predicate SomeDozing(cs: seq<Consumer>) {
    exists i :: 0 <= i < |cs| && cs[i].Dozing?
  }

  /** `notify_one` on `not_full`. */
  function NotifyProducer<T>(ps: seq<Producer<T>>, wake: nat): (ps': seq<Producer<T>>)
    ensures |ps'| == |ps|
  {
    if wake < |ps| && ps[wake].Asleep? then ps[wake := Awake(ps[wake].reading)] else ps
  }

  /** `notify_one` on `not_empty`. */
  function NotifyConsumer(cs: seq<Consumer>, wake: nat): (cs': seq<Consumer>)
    ensures |cs'| == |cs|
  {
    if wake < |cs| && cs[wake].Dozing? then cs[wake := Roused(false)] else cs
  }

  /** A notification is not swallowed: it reaches a sleeper whenever there is one. */
  ghost predicate WakesProducer<T>(ps: seq<Producer<T>>, wake: nat) {
    SomeAsleep(ps) ==> wake < |ps| && ps[wake].Asleep?
  }

  ghost predicate WakesConsumer(cs: seq<Consumer>, wake: nat) {
    SomeDozing(cs) ==> wake < |cs| && cs[wake].Dozing?
  }

  /** The thread is where the step starts. */
  predicate Possible<T>(s: State<T>, a: Action<T>) {
    match a
    case PushFresh(p, _, _) => p < |s.producers| && s.producers[p].Outside?
    case PushAgain(p, _) => p < |s.producers| && s.producers[p].Awake?
    case PopFresh(c, _) => c < |s.consumers| && s.consumers[c].Away?
    case PopAgain(c, _) => c < |s.consumers| && s.consumers[c].Roused?
    case StirProducer(p) => p < |s.producers| && s.producers[p].Asleep?
    case StirConsumer(c, _) => c < |s.consumers| && s.consumers[c].Dozing?
    case WakeAll => true
  }

  /** Whatever notification the step sends is delivered. */
  ghost predicate Delivers<T>(s: State<T>, a: Action<T>) {
    match a
    case PushFresh(_, _, wake) => WakesConsumer(s.consumers, wake)
    case PushAgain(_, wake) => WakesConsumer(s.consumers, wake)
    case PopFresh(_, wake) => WakesProducer(s.producers, wake)
    case PopAgain(_, wake) => WakesProducer(s.producers, wake)
    case _ => true
  }

  ghost predicate Enabled<T>(s: State<T>, a: Action<T>) {
    Possible(s, a) && Delivers(s, a)
  }

  /** Producer `p` holds the mutex with `reading` to push. */
  function PushSection<T>(s: State<T>, p: nat, reading: T, wake: nat): State<T>
    requires p < |s.producers|
  {
    if |s.queue| >= s.capacity then
      s.(producers := s.producers[p := Asleep(reading)], fullWaits := s.fullWaits + 1)
    else
      s.(producers := s.producers[p := Outside], queue := s.queue + [reading], pushed := s.pushed + [reading],
         consumers := NotifyConsumer(s.consumers, wake))
  }

  /** Consumer `c` holds the mutex; `expired` when it gives up on an empty queue instead of waiting. */
  function PopSection<T>(s: State<T>, c: nat, expired: bool, wake: nat): State<T>
    requires c < |s.consumers|
  {
    if s.queue == [] then
      s.(consumers := s.consumers[c := if expired then Away else Dozing])
    else
      s.(consumers := s.consumers[c := Away], queue := s.queue[1..], popped := s.popped + [s.queue[0]],
         producers := NotifyProducer(s.producers, wake))
  }

  function Rouse<T>(p: Producer<T>): Producer<T> {
    if p.Asleep? then Awake(p.reading) else p
  }

  function RouseConsumer(c: Consumer): Consumer {
    if c.Dozing? then Roused(false) else c
  }

  function Next<T>(s: State<T>, a: Action<T>): State<T>
    requires Possible(s, a)
  {
    match a
    case PushFresh(p, reading, wake) => PushSection(s, p, reading, wake)
    case PushAgain(p, wake) => PushSection(s, p, s.producers[p].reading, wake)
    case PopFresh(c, wake) => PopSection(s, c, false, wake)
    case PopAgain(c, wake) => PopSection(s, c, s.consumers[c].expired, wake)
    case StirProducer(p) => s.(producers := s.producers[p := Rouse(s.producers[p])])
    case StirConsumer(c, expired) => s.(consumers := s.consumers[c := Roused(expired)])
    case WakeAll =>
      s.(producers := seq(|s.producers|, i requires 0 <= i < |s.producers| => Rouse(s.producers[i])),
         consumers := seq(|s.consumers|, i requires 0 <= i < |s.consumers| => RouseConsumer(s.consumers[i])))
  }

  ghost predicate Feasible<T>(s: State<T>, actions: seq<Action<T>>)
    decreases |actions|
  {
    actions == [] || (Enabled(s, actions[0]) && Feasible(Next(s, actions[0]), actions[1..]))
  }

  ghost function Run<T>(s: State<T>, actions: seq<Action<T>>): State<T>
    requires Feasible(s, actions)
    decreases |actions|
  {
    if actions == [] then s else Run(Next(s, actions[0]), actions[1..])
  }

  ghost predicate Initial<T>(s: State<T>) {
    && s.queue == s.pushed == s.popped == []
    && (forall i :: 0 <= i < |s.producers| ==> s.producers[i].Outside?)
    && (forall i :: 0 <= i < |s.consumers| ==> s.consumers[i].Away?)
  }

  /** The queue object behind the state. */
  function BufferOf<T>(s: State<T>): Buffer<T> {
    Buffer(s.queue, |s.pushed|, |s.popped|, s.fullWaits)
  }

  /** The critical sections of the state machine do to the queue what those of the queue object do. */
  lemma SectionsAgree<T>(s: State<T>, thread: nat, reading: T, expired: bool, wake: nat)
    ensures thread < |s.producers| ==>
              BufferOf(PushSection(s, thread, reading, wake)) == Pushed(BufferOf(s), s.capacity, reading)
    ensures thread < |s.consumers| ==> BufferOf(PopSection(s, thread, expired, wake)) == Popped(BufferOf(s))
  {
  }

  // ---------- the invariant ----------

  function IsAwake<T>(p: Producer<T>): nat {
    if p.Awake? then 1 else 0
  }

  function IsRoused(c: Consumer): nat {
    if c.Roused? then 1 else 0
  }

  ghost function AwakeProducers<T>(ps: seq<Producer<T>>): nat {
    TotalSeq(ps, IsAwake<T>)
  }

  ghost function RousedConsumers(cs: seq<Consumer>): nat {
    TotalSeq(cs, IsRoused)
  }

  /** While a producer sleeps, every free slot has a producer awake and on its way; likewise for consumers. */
  ghost predicate NoLostWakeup<T>(s: State<T>) {
    && (SomeAsleep(s.producers) ==> s.capacity - |s.queue| <= AwakeProducers(s.producers))
    && (SomeDozing(s.consumers) ==> |s.queue| <= RousedConsumers(s.consumers))
  }

  /** The queue is bounded and first-in, first-out. */
  ghost predicate Fifo<T>(s: State<T>) {
    |s.queue| <= s.capacity && s.pushed == s.popped + s.queue
  }

  lemma ProducerMoves<T>(ps: seq<Producer<T>>, p: nat, x: Producer<T>)
    requires p < |ps|
    ensures AwakeProducers(ps[p := x]) + IsAwake(ps[p]) == AwakeProducers(ps) + IsAwake(x)
    ensures SomeAsleep(ps[p := x]) ==> SomeAsleep(ps) || x.Asleep?
  {
    TotalSeqUpdate(ps, p, x, IsAwake<T>);
    if SomeAsleep(ps[p := x]) && !x.Asleep? {
      var i :| 0 <= i < |ps| && ps[p := x][i].Asleep?;
      assert ps[i].Asleep?;
    }
  }

  lemma ConsumerMoves(cs: seq<Consumer>, c: nat, x: Consumer)
    requires c < |cs|
    ensures RousedConsumers(cs[c := x]) + IsRoused(cs[c]) == RousedConsumers(cs) + IsRoused(x)
    ensures SomeDozing(cs[c := x]) ==> SomeDozing(cs) || x.Dozing?
  {
    TotalSeqUpdate(cs, c, x, IsRoused);
    if SomeDozing(cs[c := x]) && !x.Dozing? {
      var i :| 0 <= i < |cs| && cs[c := x][i].Dozing?;
      assert cs[i].Dozing?;
    }
  }

  /** A notification puts one more sleeper on its way, if anybody sleeps. */
  lemma NotifyProducerHelps<T>(ps: seq<Producer<T>>, wake: nat)
    requires WakesProducer(ps, wake)
    ensures SomeAsleep(NotifyProducer(ps, wake)) ==>
              SomeAsleep(ps) && AwakeProducers(NotifyProducer(ps, wake)) == AwakeProducers(ps) + 1
  {
    if wake < |ps| && ps[wake].Asleep? {
      ProducerMoves(ps, wake, Awake(ps[wake].reading));
    }
  }

  lemma NotifyConsumerHelps(cs: seq<Consumer>, wake: nat)
    requires WakesConsumer(cs, wake)
    ensures SomeDozing(NotifyConsumer(cs, wake)) ==>
              SomeDozing(cs) && RousedConsumers(NotifyConsumer(cs, wake)) == RousedConsumers(cs) + 1
  {
    if wake < |cs| && cs[wake].Dozing? {
      ConsumerMoves(cs, wake, Roused(false));
    }
  }

  lemma PushKeepsWakeups<T>(s: State<T>, p: nat, reading: T, wake: nat)
    requires NoLostWakeup(s) && Fifo(s) && p < |s.producers| && !s.producers[p].Asleep?
    requires WakesConsumer(s.consumers, wake)
    ensures NoLostWakeup(PushSection(s, p, reading, wake)) && Fifo(PushSection(s, p, reading, wake))
  {
    hide SomeAsleep, SomeDozing, AwakeProducers, RousedConsumers, NotifyConsumer;
    if |s.queue| >= s.capacity {
      ProducerMoves(s.producers, p, Asleep(reading));
    } else {
      ProducerMoves(s.producers, p, Outside);
      NotifyConsumerHelps(s.consumers, wake);
    }
  }

  lemma PopKeepsWakeups<T>(s: State<T>, c: nat, expired: bool, wake: nat)
    requires NoLostWakeup(s) && Fifo(s) && c < |s.consumers| && !s.consumers[c].Dozing?
    requires WakesProducer(s.producers, wake)
    ensures NoLostWakeup(PopSection(s, c, expired, wake)) && Fifo(PopSection(s, c, expired, wake))
  {
    hide SomeAsleep, SomeDozing, AwakeProducers, RousedConsumers, NotifyProducer;
    if s.queue == [] {
      ConsumerMoves(s.consumers, c, if expired then Away else Dozing);
    } else {
      ConsumerMoves(s.consumers, c, Away);
      NotifyProducerHelps(s.producers, wake);
    }
  }

  lemma WakeAllKeepsWakeups<T>(s: State<T>)
    requires Fifo(s)
    ensures NoLostWakeup(Next(s, WakeAll)) && Fifo(Next(s, WakeAll))
  {
  }

  lemma StepKeepsWakeups<T>(s: State<T>, a: Action<T>)
    requires NoLostWakeup(s) && Fifo(s) && Enabled(s, a)
    ensures NoLostWakeup(Next(s, a)) && Fifo(Next(s, a))
  {
    hide SomeAsleep, SomeDozing, AwakeProducers, RousedConsumers, PushSection, PopSection;
    match a
    case PushFresh(p, reading, wake) => PushKeepsWakeups(s, p, reading, wake);
    case PushAgain(p, wake) => PushKeepsWakeups(s, p, s.producers[p].reading, wake);
    case PopFresh(c, wake) => PopKeepsWakeups(s, c, false, wake);
    case PopAgain(c, wake) => PopKeepsWakeups(s, c, s.consumers[c].expired, wake);
    case StirProducer(p) => ProducerMoves(s.producers, p, Rouse(s.producers[p]));
    case StirConsumer(c, expired) => ConsumerMoves(s.consumers, c, Roused(expired));
    case WakeAll => WakeAllKeepsWakeups(s);
  }

  lemma {:induction false} RunKeepsWakeups<T>(s: State<T>, actions: seq<Action<T>>)
    requires NoLostWakeup(s) && Fifo(s) && Feasible(s, actions)
    ensures NoLostWakeup(Run(s, actions)) && Fifo(Run(s, actions))
    decreases |actions|
  {
    hide NoLostWakeup, Fifo, Possible, Delivers, Next;
    if actions != [] {
      StepKeepsWakeups(s, actions[0]);
      RunKeepsWakeups(Next(s, actions[0]), actions[1..]);
    }
  }

  /** In every reachable state no wakeup has been lost, and values leave in the order they came. */
  lemma WakeupsNeverLost<T>(s: State<T>, actions: seq<Action<T>>)
    requires Initial(s) && Feasible(s, actions)
    ensures NoLostWakeup(Run(s, actions)) && Fifo(Run(s, actions))
  {
    RunKeepsWakeups(s, actions);
  }

  /** The next critical section of consumer `c` would pop. */
  ghost predicate ConsumerWillPop<T>(s: State<T>, c: nat) {
    c < |s.consumers| && !s.consumers[c].Dozing? && s.queue != []
  }

  /** The next critical section of producer `p`, which is already on its way, would push. */
  ghost predicate ProducerWillPush<T>(s: State<T>, p: nat) {
    p < |s.producers| && s.producers[p].Awake? && |s.queue| < s.capacity
  }

  lemma {:induction false} PositiveMeansSome<V>(xs: seq<V>, f: V -> nat)
    requires TotalSeq(xs, f) > 0
    ensures exists i :: 0 <= i < |xs| && f(xs[i]) > 0
  {
    var n := |xs| - 1;
    if f(xs[n]) == 0 {
      PositiveMeansSome(xs[..n], f);
      var i :| 0 <= i < |xs[..n]| && f(xs[..n][i]) > 0;
      assert f(xs[i]) > 0;
    }
  }

  ghost predicate SomeInside<T>(ps: seq<Producer<T>>) {
    exists i :: 0 <= i < |ps| && !ps[i].Outside?
  }

  /**
   A producer inside `push`, asleep or not, never leaves the system stuck: with room for one reading and one
   live worker, some thread that is not asleep moves a reading in its very next critical section.
   */
  lemma BlockedProducerNotStuck<T>(s: State<T>, actions: seq<Action<T>>)
    requires Initial(s) && Feasible(s, actions)
    requires Run(s, actions).capacity >= 1 && Run(s, actions).consumers != []
    requires SomeInside(Run(s, actions).producers)
    ensures (exists p :: ProducerWillPush(Run(s, actions), p)) || (exists c :: ConsumerWillPop(Run(s, actions), c))
  {
    WakeupsNeverLost(s, actions);
    hide Run, Feasible, Initial;
    NotStuck(Run(s, actions));
  }

  lemma NotStuck<T>(t: State<T>)
    requires NoLostWakeup(t) && Fifo(t) && t.capacity >= 1 && t.consumers != [] && SomeInside(t.producers)
    ensures (exists p :: ProducerWillPush(t, p)) || (exists c :: ConsumerWillPop(t, c))
  {
    if |t.queue| < t.capacity {
      var i :| 0 <= i < |t.producers| && !t.producers[i].Outside?;
      if t.producers[i].Awake? {
        assert ProducerWillPush(t, i);
      } else {
        PositiveMeansSome(t.producers, IsAwake<T>);
        var p :| 0 <= p < |t.producers| && IsAwake(t.producers[p]) > 0;
        assert ProducerWillPush(t, p);
      }
    } else if t.consumers[0].Dozing? {
      PositiveMeansSome(t.consumers, IsRoused);
      var c :| 0 <= c < |t.consumers| && IsRoused(t.consumers[c]) > 0;
      assert ConsumerWillPop(t, c);
    } else {
      assert ConsumerWillPop(t, 0);
    }
  }

  // ---------- joining the readers ----------

  function IsInside<T>(p: Producer<T>): nat {
    if p.Outside? then 0 else 1
  }

  /** Readings that can still move before every producer is out: each goes in once and comes out once. */
  ghost function Outstanding<T>(s: State<T>): nat {
    2 * TotalSeq(s.producers, IsInside<T>) + |s.queue|
  }

  /** Readings moved so far, in or out. */
  function Moves<T>(s: State<T>): nat {
    |s.pushed| + |s.popped|
  }

  lemma {:induction false} NotifyKeepsInside<T>(ps: seq<Producer<T>>, ps': seq<Producer<T>>)
    requires |ps'| == |ps| && forall i :: 0 <= i < |ps| ==> IsInside(ps'[i]) == IsInside(ps[i])
    ensures TotalSeq(ps', IsInside<T>) == TotalSeq(ps, IsInside<T>)
  {
    if ps != [] {
      NotifyKeepsInside(ps[..|ps| - 1], ps'[..|ps| - 1]);
    }
  }

  lemma PushUsesUp<T>(s: State<T>, p: nat, reading: T, wake: nat)
    requires p < |s.producers| && !s.producers[p].Outside?
    ensures var s' := PushSection(s, p, reading, wake);
      Outstanding(s') + Moves(s') == Outstanding(s) + Moves(s)
  {
    TotalSeqUpdate(s.producers, p, Asleep(reading), IsInside<T>);
    TotalSeqUpdate(s.producers, p, Outside, IsInside<T>);
    hide NotifyConsumer;
  }

  lemma PopUsesUp<T>(s: State<T>, c: nat, expired: bool, wake: nat)
    requires c < |s.consumers|
    ensures var s' := PopSection(s, c, expired, wake);
      Outstanding(s') + Moves(s') == Outstanding(s) + Moves(s)
  {
    NotifyKeepsInside(s.producers, NotifyProducer(s.producers, wake));
    hide NotifyProducer;
  }

  /** With nobody entering `push` afresh, every move of a reading uses up one of those outstanding. */
  lemma StepUsesUp<T>(s: State<T>, a: Action<T>)
    requires Possible(s, a) && !a.PushFresh?
    ensures Outstanding(Next(s, a)) + Moves(Next(s, a)) == Outstanding(s) + Moves(s)
  {
    hide PushSection, PopSection, Outstanding, Moves;
    match a
    case PushAgain(p, wake) => PushUsesUp(s, p, s.producers[p].reading, wake);
    case PopFresh(c, wake) => PopUsesUp(s, c, false, wake);
    case PopAgain(c, wake) => PopUsesUp(s, c, s.consumers[c].expired, wake);
    case StirProducer(p) => StirUsesNothing(s, a);
    case StirConsumer(_, _) => StirUsesNothing(s, a);
    case WakeAll => StirUsesNothing(s, a);
  }

  lemma StirUsesNothing<T>(s: State<T>, a: Action<T>)
    requires Possible(s, a) && (a.StirProducer? || a.StirConsumer? || a.WakeAll?)
    ensures Outstanding(Next(s, a)) + Moves(Next(s, a)) == Outstanding(s) + Moves(s)
  {
    NotifyKeepsInside(s.producers, Next(s, a).producers);
  }

  ghost predicate NoFreshPush<T>(actions: seq<Action<T>>) {
    forall i :: 0 <= i < |actions| ==> !actions[i].PushFresh?
  }

  lemma {:induction false} RunUsesUp<T>(s: State<T>, actions: seq<Action<T>>)
    requires Feasible(s, actions) && NoFreshPush(actions)
    ensures Outstanding(Run(s, actions)) + Moves(Run(s, actions)) == Outstanding(s) + Moves(s)
    decreases |actions|
  {
    hide Outstanding, Moves, Possible, Delivers, Next;
    if actions != [] {
      StepUsesUp(s, actions[0]);
      assert forall i :: 0 <= i < |actions| - 1 ==> actions[1..][i] == actions[i + 1];
      RunUsesUp(Next(s, actions[0]), actions[1..]);
    }
  }

  /**
   Joining the readers: once no producer starts a new `push`, at most twice the producers inside plus the
   queue length readings still move, in any interleaving; and as long as a producer is inside, some thread
   that is not asleep moves one next. When the bound is used up, every producer is out.
   */
  lemma ReadersCanBeJoined<T>(s: State<T>, before: seq<Action<T>>, after: seq<Action<T>>)
    requires Initial(s) && Feasible(s, before) && Feasible(Run(s, before), after) && NoFreshPush(after)
    requires s.capacity >= 1 && s.consumers != []
    ensures var t, u := Run(s, before), Run(Run(s, before), after);
      && Moves(u) - Moves(t) <= Outstanding(t)
      && (SomeInside(u.producers) ==>
            (exists p :: ProducerWillPush(u, p)) || (exists c :: ConsumerWillPop(u, c)))
      && (Moves(u) - Moves(t) == Outstanding(t) ==> !SomeInside(u.producers))
  {
    var t := Run(s, before);
    WakeupsNeverLost(s, before);
    RunKeepsWakeups(t, after);
    RunUsesUp(t, after);
    RunKeepsThreads(s, before);
    RunKeepsThreads(t, after);
    hide Run, Feasible, Initial, Fifo, NoLostWakeup;
    var u := Run(t, after);
    if SomeInside(u.producers) {
      NotStuck(u);
      InsideCounts(u.producers);
    }
  }

  lemma {:induction false} InsideCounts<T>(ps: seq<Producer<T>>)
    requires SomeInside(ps)
    ensures TotalSeq(ps, IsInside<T>) > 0
  {
    var i :| 0 <= i < |ps| && !ps[i].Outside?;
    TotalSeqUpdate(ps, i, Outside, IsInside<T>);
  }

  lemma {:induction false} RunKeepsThreads<T>(s: State<T>, actions: seq<Action<T>>)
    requires Feasible(s, actions)
    ensures Run(s, actions).capacity == s.capacity && |Run(s, actions).consumers| == |s.consumers|
    decreases |actions|
  {
    if actions != [] {
      StepKeepsThreads(s, actions[0]);
      hide Next, Possible, Delivers;
      RunKeepsThreads(Next(s, actions[0]), actions[1..]);
    }
  }

  lemma StepKeepsThreads<T>(s: State<T>, a: Action<T>)
    requires Possible(s, a)
    ensures Next(s, a).capacity == s.capacity && |Next(s, a).consumers| == |s.consumers|
  {
  }

  /** Until it takes the mutex itself, a producer on its way stays on its way. */
  lemma {:induction false} AwakeStays<T>(s: State<T>, actions: seq<Action<T>>, p: nat)
    requires Feasible(s, actions) && p < |s.producers| && s.producers[p].Awake?
    requires forall i :: 0 <= i < |actions| && actions[i].PushAgain? ==> actions[i].producer != p
    ensures p < |Run(s, actions).producers| && Run(s, actions).producers[p].Awake?
    decreases |actions|
  {
    if actions != [] {
      StepKeepsAwake(s, actions[0], p);
      assert forall i :: 0 <= i < |actions| - 1 ==> actions[1..][i] == actions[i + 1];
      hide Next, Possible, Delivers;
      AwakeStays(Next(s, actions[0]), actions[1..], p);
    }
  }

  lemma StepKeepsAwake<T>(s: State<T>, a: Action<T>, p: nat)
    requires Possible(s, a) && p < |s.producers| && s.producers[p].Awake?
    requires a.PushAgain? ==> a.producer != p
    ensures p < |Next(s, a).producers| && Next(s, a).producers[p].Awake?
  {
  }

  /**
   `wake_all` alone does not release a producer: whatever others do before it gets the mutex, it leaves
   `push` if there is a free slot by then, and otherwise sleeps again.
   */
  lemma WakeAllNeedsRoom<T>(s: State<T>, between: seq<Action<T>>, p: nat, wake: nat)
    requires p < |s.producers| && s.producers[p].Asleep? && Feasible(Next(s, WakeAll), between)
    requires forall i :: 0 <= i < |between| && between[i].PushAgain? ==> between[i].producer != p
    ensures var t := Run(Next(s, WakeAll), between);
      && p < |t.producers| && t.producers[p].Awake?
      && (Next(t, PushAgain(p, wake)).producers[p].Outside? <==> |t.queue| < t.capacity)
      && (Next(t, PushAgain(p, wake)).producers[p].Asleep? <==> |t.queue| >= t.capacity)
  {
    AwakeStays(Next(s, WakeAll), between, p);
    hide Run, Feasible;
  }

  /** After `wake_all` nobody is asleep on either condition variable. */
  lemma WakeAllWakesAll<T>(s: State<T>)
    ensures var t := Next(s, WakeAll); !SomeAsleep(t.producers) && !SomeDozing(t.consumers)
  {
  }

  // ---------- what a pop returns, and when ----------

  /** Consumer `c` is the one whose critical section this is. */
  predicate PopsBy<T>(a: Action<T>, c: nat) {
    (a.PopFresh? || a.PopAgain?) && a.consumer == c
  }

  /**
   On an empty queue a pop starts by waiting, and a woken one gives up if and only if its time is up;
   on any other queue it takes the oldest reading and is done.
   */
  lemma PopWaitsOrReturns<T>(s: State<T>, c: nat, wake: nat)
    requires c < |s.consumers|
    ensures s.consumers[c].Away? ==>
              var t := Next(s, PopFresh(c, wake));
              if s.queue == [] then t.consumers[c].Dozing? && t.popped == s.popped
              else t.consumers[c].Away? && t.popped == s.popped + [s.queue[0]]
    ensures s.consumers[c].Roused? ==>
              var t := Next(s, PopAgain(c, wake));
              if s.queue != [] then t.consumers[c].Away? && t.popped == s.popped + [s.queue[0]]
              else t.popped == s.popped && (t.consumers[c].Away? <==> s.consumers[c] == Roused(true))
                   && (t.consumers[c].Dozing? <==> s.consumers[c] == Roused(false))
  {
  }

  /** Its time ran out while it was asleep, and it has not had the mutex since. */
  ghost predicate TimedOut<T>(actions: seq<Action<T>>, c: nat, i: nat) {
    && i < |actions| && actions[i] == StirConsumer(c, true)
    && forall j :: i < j < |actions| ==> !PopsBy(actions[j], c)
  }

  lemma StepExpires<T>(s: State<T>, a: Action<T>, c: nat)
    requires Possible(s, a) && c < |s.consumers| && Next(s, a).consumers[c] == Roused(true)
    ensures a == StirConsumer(c, true) || (s.consumers[c] == Roused(true) && !PopsBy(a, c))
  {
    hide PushSection, NotifyProducer;
    if a.PushFresh? || a.PushAgain? {
      PushExpiresNobody(s, a.producer, if a.PushFresh? then a.reading else s.producers[a.producer].reading, a.wake, c);
    }
  }

  lemma PushExpiresNobody<T>(s: State<T>, p: nat, reading: T, wake: nat, c: nat)
    requires p < |s.producers| && c < |s.consumers|
    ensures PushSection(s, p, reading, wake).consumers[c] == Roused(true) ==> s.consumers[c] == Roused(true)
  {
  }

  /** A consumer whose time is up heard so from its own timer, in this very call. */
  lemma {:induction false} ExpiredByTimer<T>(s: State<T>, actions: seq<Action<T>>, c: nat)
    requires Feasible(s, actions) && c < |s.consumers| == |Run(s, actions).consumers|
    requires Run(s, actions).consumers[c] == Roused(true)
    ensures (exists i: nat :: TimedOut(actions, c, i))
         || (s.consumers[c] == Roused(true) && forall j :: 0 <= j < |actions| ==> !PopsBy(actions[j], c))
    decreases |actions|
  {
    if actions != [] {
      var a, rest := actions[0], actions[1..];
      StepKeepsThreads(s, a);
      assert forall j :: 0 < j < |actions| ==> actions[j] == rest[j - 1];
      hide Next, Possible, Delivers, PopsBy;
      ExpiredByTimer(Next(s, a), rest, c);
      if i: nat :| TimedOut(rest, c, i) {
        assert actions[i + 1] == rest[i];
        assert TimedOut(actions, c, i + 1);
      } else {
        StepExpires(s, a, c);
        if a == StirConsumer(c, true) {
          assert TimedOut(actions, c, 0);
        }
      }
    }
  }

  /**
   Over whole runs: a consumer that comes back from inside `pop_timeout` either took the oldest reading, or
   found the queue empty after its timer had gone off in that very call.
   */
  lemma PopReturnsRightly<T>(s: State<T>, actions: seq<Action<T>>, a: Action<T>, c: nat)
    requires Initial(s) && Feasible(s, actions) && Enabled(Run(s, actions), a)
    requires c < |Run(s, actions).consumers| == |Next(Run(s, actions), a).consumers|
    requires !Run(s, actions).consumers[c].Away? && Next(Run(s, actions), a).consumers[c].Away?
    ensures var t, u := Run(s, actions), Next(Run(s, actions), a);
      && PopsBy(a, c)
      && if t.queue != [] then u.popped == t.popped + [t.queue[0]]
         else u.popped == t.popped && exists i: nat :: TimedOut(actions, c, i)
  {
    RunKeepsThreads(s, actions);
    var t := Run(s, actions);
    hide Run, Feasible;
    ComesBackByPop(t, a, c);
    PopWaitsOrReturns(t, c, a.wake);
    if t.queue == [] {
      assert t.consumers[c] == Roused(true);
      ExpiredByTimer(s, actions, c);
    }
  }

  lemma ComesBackByPop<T>(s: State<T>, a: Action<T>, c: nat)
    requires Possible(s, a) && c < |s.consumers| == |Next(s, a).consumers|
    requires !s.consumers[c].Away? && Next(s, a).consumers[c].Away?
    ensures a.PopAgain? && a.consumer == c
  {
  }

  // ---------- readings in producers' hands ----------

  ghost function InHand<T>(p: Producer<T>): multiset<T> {
    if p.Outside? then multiset{} else multiset{p.reading}
  }

  /** Everything brought to `push`: what went in and what producers still hold. */
  ghost function Brought<T>(s: State<T>): multiset<T> {
    multiset(s.pushed) + GatherSeq(s.producers, InHand<T>)
  }

  lemma {:induction false} HandsUnchanged<T>(ps: seq<Producer<T>>, ps': seq<Producer<T>>)
    requires |ps'| == |ps| && forall i :: 0 <= i < |ps| ==> InHand(ps'[i]) == InHand(ps[i])
    ensures GatherSeq(ps', InHand<T>) == GatherSeq(ps, InHand<T>)
  {
    if ps != [] {
      HandsUnchanged(ps[..|ps| - 1], ps'[..|ps| - 1]);
    }
  }

  lemma AddAcross<E>(pushed: multiset<E>, hands: multiset<E>, hands': multiset<E>, x: multiset<E>, y: multiset<E>)
    requires hands' + x == hands + y
    ensures (pushed + hands') + x == (pushed + hands) + y
  {
    forall e
      ensures ((pushed + hands') + x)[e] == ((pushed + hands) + y)[e]
    {
      assert (hands' + x)[e] == (hands + y)[e];
    }
  }

  lemma PushDelivers<T>(s: State<T>, p: nat, reading: T, wake: nat)
    requires p < |s.producers|
    ensures Brought(PushSection(s, p, reading, wake)) + InHand(s.producers[p]) == Brought(s) + multiset{reading}
  {
    var s', hands := PushSection(s, p, reading, wake), GatherSeq(s.producers, InHand<T>);
    var x := InHand(s.producers[p]);
    if |s.queue| >= s.capacity {
      GatherSeqUpdate(s.producers, p, Asleep(reading), InHand<T>);
      hide GatherSeq;
      AddAcross(multiset(s.pushed), hands, GatherSeq(s'.producers, InHand<T>), x, multiset{reading});
    } else {
      GatherSeqUpdate(s.producers, p, Outside, InHand<T>);
      hide GatherSeq, NotifyConsumer;
      AddAcross(multiset(s'.pushed), hands, GatherSeq(s'.producers, InHand<T>), x, multiset{});
    }
  }

  /** A reading is pushed once and only for the producer that brought it; a waiting producer keeps its own. */
  lemma StepDelivers<T>(s: State<T>, a: Action<T>)
    requires Possible(s, a)
    ensures Brought(Next(s, a)) == Brought(s) + if a.PushFresh? then multiset{a.reading} else multiset{}
  {
    hide PushSection, PopSection, Brought;
    match a
    case PushFresh(p, reading, wake) => PushDelivers(s, p, reading, wake);
    case PushAgain(p, wake) =>
      var reading := s.producers[p].reading;
      PushDelivers(s, p, reading, wake);
      CancelAdd(Brought(Next(s, a)), Brought(s), multiset{reading}, multiset{});
    case PopFresh(c, wake) => PopDeliversNothing(s, c, false, wake);
    case PopAgain(c, wake) => PopDeliversNothing(s, c, s.consumers[c].expired, wake);
    case _ => StirDeliversNothing(s, a);
  }

  lemma PopDeliversNothing<T>(s: State<T>, c: nat, expired: bool, wake: nat)
    requires c < |s.consumers|
    ensures Brought(PopSection(s, c, expired, wake)) == Brought(s)
  {
    HandsUnchanged(s.producers, NotifyProducer(s.producers, wake));
    hide GatherSeq, NotifyProducer;
  }

  lemma StirDeliversNothing<T>(s: State<T>, a: Action<T>)
    requires Possible(s, a) && (a.StirProducer? || a.StirConsumer? || a.WakeAll?)
    ensures Brought(Next(s, a)) == Brought(s)
  {
    StirKeepsHands(s, a);
    hide Next, GatherSeq, InHand, Possible;
    HandsUnchanged(s.producers, Next(s, a).producers);
  }

  lemma StirKeepsHands<T>(s: State<T>, a: Action<T>)
    requires Possible(s, a) && (a.StirProducer? || a.StirConsumer? || a.WakeAll?)
    ensures Next(s, a).pushed == s.pushed && |Next(s, a).producers| == |s.producers|
    ensures forall i :: 0 <= i < |s.producers| ==> InHand(Next(s, a).producers[i]) == InHand(s.producers[i])
  {
  }

  /** The readings of the pushes begun along a run. */
  ghost function Begun<T>(actions: seq<Action<T>>): multiset<T> {
    if actions == [] then multiset{}
    else (if actions[0].PushFresh? then multiset{actions[0].reading} else multiset{}) + Begun(actions[1..])
  }

  lemma {:induction false} RunDelivers<T>(s: State<T>, actions: seq<Action<T>>)
    requires Feasible(s, actions)
    ensures Brought(Run(s, actions)) == Brought(s) + Begun(actions)
    decreases |actions|
  {
    if actions != [] {
      StepDelivers(s, actions[0]);
      hide Next, Possible, Delivers, Brought;
      RunDelivers(Next(s, actions[0]), actions[1..]);
    }
  }

  lemma {:induction false} NothingInHand<T>(ps: seq<Producer<T>>)
    requires forall i :: 0 <= i < |ps| ==> ps[i].Outside?
    ensures GatherSeq(ps, InHand<T>) == multiset{}
  {
    if ps != [] {
      NothingInHand(ps[..|ps| - 1]);
    }
  }

  /** In every run, the readings of all pushes begun are those pushed and those producers still hold, each once. */
  lemma PushesDeliver<T>(s: State<T>, actions: seq<Action<T>>)
    requires Initial(s) && Feasible(s, actions)
    ensures Begun(actions) == multiset(Run(s, actions).pushed) + GatherSeq(Run(s, actions).producers, InHand<T>)
  {
    NothingInHand(s.producers);
    RunDelivers(s, actions);
    hide Run, Feasible, Begun, GatherSeq;
  }
}
