/** What the workers' frames look like over whole runs: placement, numbering and order. */
module WorkerFrames {
  import opened Wrappers
  import opened Models
  import opened Folds
  import opened Windows
  import opened Workers
  import opened WorkerShutdown

  // ---------- placement ----------

  ghost predicate WindowsPlaced(ws: seq<Window>, windowMs: nat)
    requires windowMs > 0
  {
    forall i :: 0 <= i < |ws| ==> WellPlaced(ws[i].start, ws[i].bucket, windowMs)
  }

  ghost predicate ClaimsPlaced(cs: seq<Claim>, windowMs: nat)
    requires windowMs > 0
  {
    forall i :: 0 <= i < |cs| ==> WellPlaced(cs[i].window.start, cs[i].window.bucket, windowMs)
  }

  ghost predicate WorkerPlaced(w: Worker, windowMs: nat)
    requires windowMs > 0
  {
    match w
    case Claiming(_, cs) => ClaimsPlaced(cs, windowMs)
    case Emitting(cs) => ClaimsPlaced(cs, windowMs)
    case Flushing(ws) => WindowsPlaced(ws, windowMs)
    case FlushEmitting(c, ws) => ClaimsPlaced([c], windowMs) && WindowsPlaced(ws, windowMs)
    case _ => true
  }

  /** Every window anywhere in the pipeline holds only readings that belong to it. */
  ghost predicate Placed(s: State) {
    && s.windowMs > 0
    && PendingPlaced(s.pending, s.windowMs)
    && (forall i :: 0 <= i < |s.workers| ==> WorkerPlaced(s.workers[i], s.windowMs))
    && ClaimsPlaced(s.written, s.windowMs)
  }

  lemma PlacedStep(s: State, s': State, w: nat)
    requires Placed(s) && w < |s.workers| == |s'.workers| && s'.windowMs == s.windowMs
    requires s'.workers == s.workers[w := s'.workers[w]]
    requires PendingPlaced(s'.pending, s.windowMs)
    requires WorkerPlaced(s'.workers[w], s.windowMs)
    requires ClaimsPlaced(s'.written, s.windowMs)
    ensures Placed(s')
  {
    hide PendingPlaced, WorkerPlaced, ClaimsPlaced;
  }

  lemma InsertKeepsPlaced(s: State, w: nat, r: SensorReading)
    requires Placed(s) && w < |s.workers|
    ensures Placed(InsertStep(s, w, r))
  {
    PlacedParts(s, w);
    InsertKeepsPlacement(s.pending, r, s.windowMs);
    hide WellPlaced, Placed, PendingPlaced, Inserted, ArrivesLate;
    PlacedStep(s, InsertStep(s, w, r), w);
  }

  lemma ClaimKeepsPlaced(s: State, w: nat, now: nat, cs: seq<Claim>)
    requires Placed(s) && w < |s.workers| && s.workers[w] == Claiming(now, cs)
    ensures Placed(ClaimStep(s, w, now, cs))
  {
    PlacedParts(s, w);
    hide WellPlaced, Placed;
    PlacedStep(s, ClaimStep(s, w, now, cs), w);
  }

  lemma EmitKeepsPlaced(s: State, w: nat, cs: seq<Claim>)
    requires Placed(s) && w < |s.workers| && s.workers[w] == Emitting(cs)
    ensures Placed(EmitStep(s, w, cs))
  {
    PlacedParts(s, w);
    hide WellPlaced, Placed, PendingPlaced;
    PlacedStep(s, EmitStep(s, w, cs), w);
  }

  lemma DrainKeepsPlaced(s: State, w: nat)
    requires Placed(s) && w < |s.workers|
    ensures Placed(DrainStep(s, w))
  {
    PlacedParts(s, w);
    AscendingLists(s.pending);
    hide WellPlaced, Placed, Ascending;
    PlacedStep(s, DrainStep(s, w), w);
  }

  lemma FlushKeepsPlaced(s: State, w: nat, ws: seq<Window>)
    requires Placed(s) && w < |s.workers| && s.workers[w] == Flushing(ws)
    ensures Placed(FlushStep(s, w, ws))
  {
    PlacedParts(s, w);
    hide WellPlaced, Placed, PendingPlaced;
    PlacedStep(s, FlushStep(s, w, ws), w);
  }

  lemma FlushEmitKeepsPlaced(s: State, w: nat, c: Claim, ws: seq<Window>)
    requires Placed(s) && w < |s.workers| && s.workers[w] == FlushEmitting(c, ws)
    ensures Placed(FlushEmitStep(s, w, c, ws))
  {
    PlacedParts(s, w);
    hide WellPlaced, Placed, PendingPlaced;
    assert WellPlaced(c.window.start, c.window.bucket, s.windowMs) by {
      assert [c][0] == c;
    }
    PlacedStep(s, FlushEmitStep(s, w, c, ws), w);
  }

  lemma WorkKeepsPlaced(s: State, w: nat, now: nat)
    requires Placed(s) && Enabled(s, Work(w, now))
    ensures s.windowMs > 0 && Placed(WorkStep(s, w, now))
  {
    PlacedParts(s, w);
    PlacedSize(s);
    hide WellPlaced, Placed, PendingPlaced;
    hide InsertStep, ClaimStep, EmitStep, DrainStep, FlushStep, FlushEmitStep;
    match s.workers[w]
    case Holding(r) => InsertKeepsPlaced(s, w, r);
    case Claiming(t, cs) => ClaimKeepsPlaced(s, w, t, cs);
    case Emitting(cs) => EmitKeepsPlaced(s, w, cs);
    case Draining => DrainKeepsPlaced(s, w);
    case Flushing(ws) => FlushKeepsPlaced(s, w, ws);
    case FlushEmitting(c, ws) => FlushEmitKeepsPlaced(s, w, c, ws);
    case Returned =>
    case _ => PlacedStep(s, WorkStep(s, w, now), w);
  }

  lemma PlacedParts(s: State, w: nat)
    requires Placed(s) && w < |s.workers|
    ensures PendingPlaced(s.pending, s.windowMs) && WorkerPlaced(s.workers[w], s.windowMs)
    ensures ClaimsPlaced(s.written, s.windowMs)
  {
  }

  lemma StepKeepsPlaced(s: State, a: Action)
    requires Placed(s) && Enabled(s, a)
    ensures Placed(Next(s, a))
  {
    hide WorkStep, WellPlaced;
    match a
    case Work(w, now) => WorkKeepsPlaced(s, w, now);
    case _ =>
  }

  lemma {:induction false} RunPlaced(s: State, actions: seq<Action>)
    requires Placed(s) && Feasible(s, actions)
    ensures Placed(Run(s, actions))
    decreases |actions|
  {
    hide Placed, Next, Enabled;
    if actions != [] {
      PlacedSize(s);
      StepKeepsPlaced(s, actions[0]);
      RunPlaced(Next(s, actions[0]), actions[1..]);
    }
  }

  lemma PlacedSize(s: State)
    requires Placed(s)
    ensures s.windowMs > 0
  {
  }

  /**
   In every reachable state each pending or written window starts at a multiple of the window length and
   holds, under every sensor it lists, only that sensor's readings from its own time span, at least one;
   and a moment in time belongs to one pending window at most.
   */
  lemma WindowPlacement(s: State, actions: seq<Action>)
    requires Initial(s) && Feasible(s, actions)
    ensures var t := Run(s, actions);
      && (forall start :: start in t.pending ==> WellPlaced(start, t.pending[start], t.windowMs))
      && (forall i :: 0 <= i < |t.written| ==>
            WellPlaced(t.written[i].window.start, t.written[i].window.bucket, t.windowMs))
      && (forall a, b, time ::
            a in t.pending && b in t.pending && Covers(a, t.windowMs, time) && Covers(b, t.windowMs, time) ==> a == b)
  {
    RunPlaced(s, actions);
    hide Run, Feasible, WorkerPlaced, Covers;
    var t := Run(s, actions);
    forall a, b, time | a in t.pending && b in t.pending && Covers(a, t.windowMs, time) && Covers(b, t.windowMs, time)
      ensures a == b
    {
      WindowsDisjoint(a, b, time, t.windowMs);
    }
  }

  // ---------- numbering ----------

  ghost function ClaimId(c: Claim): multiset<nat> {
    multiset{c.id}
  }

  ghost function WorkerIds(w: Worker): multiset<nat> {
    match w
    case Claiming(_, cs) => GatherSeq(cs, ClaimId)
    case Emitting(cs) => GatherSeq(cs, ClaimId)
    case FlushEmitting(c, _) => ClaimId(c)
    case _ => multiset{}
  }

  /** The ids 0 to n - 1, each once. */
  ghost function Below(n: nat): multiset<nat> {
    if n == 0 then multiset{} else Below(n - 1) + multiset{n - 1}
  }

  lemma {:induction false} BelowCounts(n: nat, id: nat)
    ensures Below(n)[id] == if id < n then 1 else 0
  {
    if n > 0 {
      BelowCounts(n - 1, id);
    }
  }

  ghost function HeldIds(s: State): multiset<nat> {
    GatherSeq(s.workers, WorkerIds)
  }

  ghost function WrittenIds(s: State): multiset<nat> {
    GatherSeq(s.written, ClaimId)
  }

  /** Ids held by workers and ids on written frames are together exactly those issued, each once. */
  ghost predicate Numbered(s: State) {
    HeldIds(s) + WrittenIds(s) == Below(s.nextId)
  }

  lemma TransferIds<E>(total: multiset<E>, h: multiset<E>, w: multiset<E>, total': multiset<E>, h': multiset<E>,
                       w': multiset<E>, x: multiset<E>, x': multiset<E>, moved: multiset<E>)
    requires h + w == total && h' + x == h + x'
    requires || (total' == total && w' == w + moved && x == x' + moved)
             || (total' == total + moved && w' == w && x' == x + moved)
    ensures h' + w' == total'
  {
    forall e
      ensures (h' + w')[e] == total'[e]
    {
      assert (h' + x)[e] == (h + x')[e];
      assert (h + w)[e] == total[e];
    }
  }

  /** A worker writes a frame: its ids move from the worker to storage. */
  lemma IdsWritten(s: State, s': State, w: nat, moved: multiset<nat>)
    requires Numbered(s) && w < |s.workers| == |s'.workers| && s'.workers == s.workers[w := s'.workers[w]]
    requires s'.nextId == s.nextId
    requires WrittenIds(s') == WrittenIds(s) + moved
    requires WorkerIds(s.workers[w]) == WorkerIds(s'.workers[w]) + moved
    ensures Numbered(s')
  {
    hide WorkerIds, GatherSeq;
    GatherSeqUpdate(s.workers, w, s'.workers[w], WorkerIds);
    TransferIds(Below(s.nextId), HeldIds(s), WrittenIds(s), Below(s'.nextId), HeldIds(s'), WrittenIds(s'),
      WorkerIds(s.workers[w]), WorkerIds(s'.workers[w]), moved);
  }

  /** A worker takes the next id. */
  lemma IdIssued(s: State, s': State, w: nat)
    requires Numbered(s) && w < |s.workers| == |s'.workers| && s'.workers == s.workers[w := s'.workers[w]]
    requires s'.nextId == s.nextId + 1 && s'.written == s.written
    requires WorkerIds(s'.workers[w]) == WorkerIds(s.workers[w]) + multiset{s.nextId}
    ensures Numbered(s')
  {
    hide WorkerIds, GatherSeq;
    GatherSeqUpdate(s.workers, w, s'.workers[w], WorkerIds);
    TransferIds(Below(s.nextId), HeldIds(s), WrittenIds(s), Below(s'.nextId), HeldIds(s'), WrittenIds(s'),
      WorkerIds(s.workers[w]), WorkerIds(s'.workers[w]), multiset{s.nextId});
  }

  lemma IdsUntouched(s: State, s': State, w: nat)
    requires Numbered(s) && w < |s.workers| == |s'.workers| && s'.workers == s.workers[w := s'.workers[w]]
    requires s'.nextId == s.nextId && s'.written == s.written
    requires WorkerIds(s'.workers[w]) == WorkerIds(s.workers[w])
    ensures Numbered(s')
  {
    hide WorkerIds, GatherSeq, Numbered;
    IdsWritten(s, s', w, multiset{});
  }

  lemma NoIds()
    ensures GatherSeq([], ClaimId) == multiset{}
  {
  }

  lemma ClaimKeepsNumbered(s: State, w: nat, now: nat, cs: seq<Claim>)
    requires w < |s.workers| && s.workers[w] == Claiming(now, cs) && Numbered(s)
    ensures Numbered(ClaimStep(s, w, now, cs))
  {
    hide GatherSeq, Numbered;
    var s' := ClaimStep(s, w, now, cs);
    if s.pending != map[] && Ready(Oldest(s.pending), now, s.windowMs) {
      var start := Oldest(s.pending);
      GatherSeqAppend(cs, Claim(s.nextId, Window(start, s.pending[start])), ClaimId);
      IdIssued(s, s', w);
    } else {
      IdsUntouched(s, s', w);
    }
  }

  lemma EmitKeepsNumbered(s: State, w: nat, cs: seq<Claim>)
    requires w < |s.workers| && s.workers[w] == Emitting(cs) && Numbered(s)
    ensures Numbered(EmitStep(s, w, cs))
  {
    hide GatherSeq, Numbered, ClaimId;
    var s' := EmitStep(s, w, cs);
    NoIds();
    if cs == [] {
      IdsUntouched(s, s', w);
    } else {
      GatherSeqHead(cs, ClaimId);
      GatherSeqAppend(s.written, cs[0], ClaimId);
      IdsWritten(s, s', w, ClaimId(cs[0]));
    }
  }

  lemma FlushKeepsNumbered(s: State, w: nat, ws: seq<Window>)
    requires w < |s.workers| && s.workers[w] == Flushing(ws) && Numbered(s)
    ensures Numbered(FlushStep(s, w, ws))
  {
    hide GatherSeq, Numbered;
    var s' := FlushStep(s, w, ws);
    if ws == [] {
      IdsUntouched(s, s', w);
    } else {
      IdIssued(s, s', w);
    }
  }

  lemma FlushEmitKeepsNumbered(s: State, w: nat, c: Claim, ws: seq<Window>)
    requires w < |s.workers| && s.workers[w] == FlushEmitting(c, ws) && Numbered(s)
    ensures Numbered(FlushEmitStep(s, w, c, ws))
  {
    hide GatherSeq, Numbered, ClaimId;
    GatherSeqAppend(s.written, c, ClaimId);
    IdsWritten(s, FlushEmitStep(s, w, c, ws), w, ClaimId(c));
  }

  lemma OthersKeepNumbered(s: State, w: nat, now: nat)
    requires s.windowMs > 0 && Enabled(s, Work(w, now)) && Numbered(s)
    requires var x := s.workers[w]; !x.Claiming? && !x.Emitting? && !x.Flushing? && !x.FlushEmitting?
    ensures Numbered(WorkStep(s, w, now))
  {
    hide GatherSeq, Numbered, Inserted, Ascending, ArrivesLate, ClaimStep, EmitStep, FlushStep, FlushEmitStep;
    NoIds();
    if s.workers[w].Holding? || s.workers[w].Draining? {
      hide PopStep;
      IdsUntouched(s, WorkStep(s, w, now), w);
    } else {
      hide InsertStep, DrainStep;
      IdsUntouched(s, WorkStep(s, w, now), w);
    }
  }

  lemma StepKeepsNumbered(s: State, a: Action)
    requires s.windowMs > 0 && Enabled(s, a) && Numbered(s)
    ensures Numbered(Next(s, a))
  {
    hide GatherSeq, PopStep, InsertStep, ClaimStep, EmitStep, DrainStep, FlushStep, FlushEmitStep;
    match a
    case Work(w, now) =>
      match s.workers[w] {
        case Claiming(t, cs) => ClaimKeepsNumbered(s, w, t, cs);
        case Emitting(cs) => EmitKeepsNumbered(s, w, cs);
        case Flushing(ws) => FlushKeepsNumbered(s, w, ws);
        case FlushEmitting(c, ws) => FlushEmitKeepsNumbered(s, w, c, ws);
        case _ => OthersKeepNumbered(s, w, now);
      }
    case _ =>
  }

  lemma {:induction false} RunNumbered(s: State, actions: seq<Action>)
    requires s.windowMs > 0 && Numbered(s) && Feasible(s, actions)
    ensures Numbered(Run(s, actions))
    decreases |actions|
  {
    hide Numbered, Next, Enabled;
    if actions != [] {
      StepKeepsNumbered(s, actions[0]);
      RunNumbered(Next(s, actions[0]), actions[1..]);
    }
  }

  lemma {:induction false} NoIdsAtTop(ws: seq<Worker>)
    requires forall i :: 0 <= i < |ws| ==> ws[i] == AtTop || ws[i] == Returned
    ensures GatherSeq(ws, WorkerIds) == multiset{}
  {
    if ws != [] {
      NoIdsAtTop(ws[..|ws| - 1]);
    }
  }

  /** In every run each id below the counter is on exactly one frame, held or written; no other id is anywhere. */
  lemma FrameIdsUnique(s: State, actions: seq<Action>, id: nat)
    requires Initial(s) && Feasible(s, actions)
    ensures var t := Run(s, actions);
      (HeldIds(t) + WrittenIds(t))[id] == if id < t.nextId then 1 else 0
  {
    NoIdsAtTop(s.workers);
    NoIds();
    RunNumbered(s, actions);
    BelowCounts(Run(s, actions).nextId, id);
  }

  /** After shutdown the written frames carry exactly the ids 0 to n - 1. */
  lemma FrameIdsComplete(s: State, actions: seq<Action>)
    requires Initial(s) && Feasible(s, actions) && AllReturned(Run(s, actions))
    ensures var t := Run(s, actions);
      WrittenIds(t) == Below(t.nextId) && |t.written| == t.nextId
  {
    NoIdsAtTop(s.workers);
    NoIds();
    RunNumbered(s, actions);
    var t := Run(s, actions);
    NoIdsAtTop(t.workers);
    IdCount(t.written);
    BelowSize(t.nextId);
  }

  lemma {:induction false} IdCount(cs: seq<Claim>)
    ensures |GatherSeq(cs, ClaimId)| == |cs|
  {
    if cs != [] {
      IdCount(cs[..|cs| - 1]);
    }
  }

  lemma {:induction false} BelowSize(n: nat)
    ensures |Below(n)| == n
  {
    if n > 0 {
      BelowSize(n - 1);
    }
  }

  // ---------- order ----------

  ghost predicate Increasing(xs: seq<nat>) {
    forall i, j :: 0 <= i < j < |xs| ==> xs[i] < xs[j]
  }

  /** Every start on the left is before every start on the right. */
  ghost predicate AllBefore(xs: seq<nat>, p: Pending) {
    forall i, k :: 0 <= i < |xs| && k in p ==> xs[i] < k
  }

  ghost function ClaimStarts(cs: seq<Claim>): (xs: seq<nat>)
    ensures |xs| == |cs| && forall i :: 0 <= i < |cs| ==> xs[i] == cs[i].window.start
  {
    seq(|cs|, i requires 0 <= i < |cs| => cs[i].window.start)
  }

  /** The claim's id was given to the claim's window. */
  ghost predicate Recorded(c: Claim, issued: seq<nat>) {
    c.id < |issued| && issued[c.id] == c.window.start
  }

  /** Ids and starts rise together. */
  ghost predicate ClaimsAscend(cs: seq<Claim>) {
    forall i, j :: 0 <= i < j < |cs| ==> cs[i].id < cs[j].id && cs[i].window.start < cs[j].window.start
  }

  ghost predicate AllRecorded(cs: seq<Claim>, issued: seq<nat>) {
    forall i :: 0 <= i < |cs| ==> Recorded(cs[i], issued)
  }

  ghost predicate WorkerOrdered(w: Worker, issued: seq<nat>, pending: Pending) {
    match w
    case Claiming(_, cs) => ClaimsAscend(cs) && AllRecorded(cs, issued) && AllBefore(ClaimStarts(cs), pending)
    case Emitting(cs) => ClaimsAscend(cs) && AllRecorded(cs, issued)
    case FlushEmitting(c, _) => Recorded(c, issued)
    case _ => true
  }

  ghost predicate Ordered(s: State) {
    && Locked(s)
    && |s.issued| == s.nextId
    && (forall i :: 0 <= i < |s.workers| ==> WorkerOrdered(s.workers[i], s.issued, s.pending))
    && AllRecorded(s.written, s.issued)
    && (!s.late && !s.flushing ==> Increasing(s.issued) && AllBefore(s.issued, s.pending))
  }

  /** Issuing one more id, or shrinking the map, leaves every other worker in order. */
  lemma WorkerStaysOrdered(x: Worker, issued: seq<nat>, issued': seq<nat>, p: Pending, p': Pending)
    requires WorkerOrdered(x, issued, p) && issued <= issued'
    requires x.Claiming? ==> p'.Keys <= p.Keys
    ensures WorkerOrdered(x, issued', p')
  {
    assert forall i :: 0 <= i < |issued| ==> issued'[i] == issued[i];
  }

  lemma OrderedStep(s: State, s': State, w: nat)
    requires Ordered(s) && Locked(s') && w < |s.workers| == |s'.workers| && s'.workers == s.workers[w := s'.workers[w]]
    requires s.issued <= s'.issued && |s'.issued| == s'.nextId
    requires s'.pending.Keys <= s.pending.Keys || s.lock == None
    requires WorkerOrdered(s'.workers[w], s'.issued, s'.pending)
    requires s'.written == s.written || exists c :: s'.written == s.written + [c] && Recorded(c, s'.issued)
    requires !s'.late && !s'.flushing ==> Increasing(s'.issued) && AllBefore(s'.issued, s'.pending)
    ensures Ordered(s')
  {
    hide WorkerOrdered, Increasing, AllBefore;
    forall i | 0 <= i < |s'.workers|
      ensures WorkerOrdered(s'.workers[i], s'.issued, s'.pending)
    {
      if i != w {
        assert s'.workers[i] == s.workers[i];
        assert s.workers[i].Claiming? ==> s.lock != None;
        WorkerStaysOrdered(s.workers[i], s.issued, s'.issued, s.pending, s'.pending);
      }
    }
    assert forall i :: 0 <= i < |s.issued| ==> s'.issued[i] == s.issued[i];
  }

  lemma InsertKeepsOrdered(s: State, w: nat, r: SensorReading)
    requires s.windowMs > 0 && Ordered(s) && w < |s.workers| && s.workers[w] == Holding(r) && s.lock == None
    requires Locked(InsertStep(s, w, r))
    ensures Ordered(InsertStep(s, w, r))
  {
    hide WindowStart, Locked, ReadingsOf, BucketOf;
    var s' := InsertStep(s, w, r);
    var start := WindowStart(r.timestampMs, s.windowMs);
    assert s'.pending.Keys == s.pending.Keys + {start};
    assert !s'.late ==> forall i :: 0 <= i < |s.issued| ==> s.issued[i] < start;
    assert !s'.late && !s'.flushing ==> Increasing(s'.issued) && AllBefore(s'.issued, s'.pending);
    hide Ordered, Increasing, AllBefore, Inserted;
    OrderedStep(s, s', w);
  }

  lemma ClaimExtends(cs: seq<Claim>, issued: seq<nat>, p: Pending, start: nat)
    requires ClaimsAscend(cs) && AllRecorded(cs, issued) && AllBefore(ClaimStarts(cs), p) && IsOldest(start, p)
    ensures var c := Claim(|issued|, Window(start, p[start]));
      && ClaimsAscend(cs + [c]) && AllRecorded(cs + [c], issued + [start])
      && AllBefore(ClaimStarts(cs + [c]), p - {start})
  {
    var c := Claim(|issued|, Window(start, p[start]));
    var cs' := cs + [c];
    assert forall i :: 0 <= i < |cs| ==> cs'[i] == cs[i] && ClaimStarts(cs)[i] == cs[i].window.start;
  }

  /** Taking the oldest pending window next keeps an increasing issue log increasing. */
  lemma IssueExtends(issued: seq<nat>, p: Pending, start: nat)
    requires Increasing(issued) && AllBefore(issued, p) && IsOldest(start, p)
    ensures Increasing(issued + [start]) && AllBefore(issued + [start], p - {start})
  {
  }

  lemma ClaimKeepsOrdered(s: State, w: nat, now: nat, cs: seq<Claim>)
    requires Ordered(s) && w < |s.workers| && s.workers[w] == Claiming(now, cs)
    requires Locked(ClaimStep(s, w, now, cs))
    ensures Ordered(ClaimStep(s, w, now, cs))
  {
    OrderedParts(s, w);
    hide Ordered, Locked, Ready;
    var s' := ClaimStep(s, w, now, cs);
    if s.pending != map[] && Ready(Oldest(s.pending), now, s.windowMs) {
      var start := Oldest(s.pending);
      ClaimExtends(cs, s.issued, s.pending, start);
      if !s'.late && !s'.flushing {
        IssueExtends(s.issued, s.pending, start);
      }
    }
    hide Increasing, AllBefore, ClaimsAscend, AllRecorded;
    OrderedStep(s, s', w);
  }

  lemma OrderedParts(s: State, w: nat)
    requires Ordered(s) && w < |s.workers|
    ensures WorkerOrdered(s.workers[w], s.issued, s.pending) && |s.issued| == s.nextId
    ensures !s.late && !s.flushing ==> Increasing(s.issued) && AllBefore(s.issued, s.pending)
    ensures AllRecorded(s.written, s.issued)
  {
  }

  lemma EmitKeepsOrdered(s: State, w: nat, cs: seq<Claim>)
    requires Ordered(s) && w < |s.workers| && s.workers[w] == Emitting(cs)
    requires Locked(EmitStep(s, w, cs))
    ensures Ordered(EmitStep(s, w, cs))
  {
    OrderedParts(s, w);
    hide Ordered, Locked, Increasing, AllBefore;
    OrderedStep(s, EmitStep(s, w, cs), w);
  }

  lemma DrainKeepsOrdered(s: State, w: nat)
    requires Ordered(s) && w < |s.workers| && s.workers[w].Draining?
    requires Locked(DrainStep(s, w))
    ensures Ordered(DrainStep(s, w))
  {
    OrderedParts(s, w);
    hide Ordered, Locked, Increasing, Ascending;
    OrderedStep(s, DrainStep(s, w), w);
  }

  lemma FlushKeepsOrdered(s: State, w: nat, ws: seq<Window>)
    requires Ordered(s) && w < |s.workers| && s.workers[w] == Flushing(ws)
    requires Locked(FlushStep(s, w, ws))
    ensures Ordered(FlushStep(s, w, ws))
  {
    OrderedParts(s, w);
    hide Ordered, Locked, Increasing, AllBefore;
    OrderedStep(s, FlushStep(s, w, ws), w);
  }

  lemma FlushEmitKeepsOrdered(s: State, w: nat, c: Claim, ws: seq<Window>)
    requires Ordered(s) && w < |s.workers| && s.workers[w] == FlushEmitting(c, ws)
    requires Locked(FlushEmitStep(s, w, c, ws))
    ensures Ordered(FlushEmitStep(s, w, c, ws))
  {
    OrderedParts(s, w);
    hide Ordered, Locked, Increasing, AllBefore;
    OrderedStep(s, FlushEmitStep(s, w, c, ws), w);
  }

  lemma LoopKeepsOrdered(s: State, w: nat, now: nat)
    requires s.windowMs > 0 && Enabled(s, Work(w, now)) && Ordered(s) && Locked(WorkStep(s, w, now))
    requires var x := s.workers[w]; x.AtTop? || x.SeenShutdown? || x.Popping? || x.ReadingClock? || x.Waiting?
    ensures Ordered(WorkStep(s, w, now))
  {
    OrderedParts(s, w);
    hide Ordered, Locked, Increasing, AllRecorded;
    OrderedStep(s, WorkStep(s, w, now), w);
  }

  lemma StepKeepsOrdered(s: State, a: Action)
    requires s.windowMs > 0 && Enabled(s, a) && Ordered(s)
    ensures Ordered(Next(s, a))
  {
    StepKeepsLocked(s, a);
    hide InsertStep, PopStep, ClaimStep, EmitStep, DrainStep, FlushStep, FlushEmitStep, Locked;
    match a
    case Work(w, now) =>
      hide Ordered;
      match s.workers[w] {
        case Holding(r) => InsertKeepsOrdered(s, w, r);
        case Claiming(t, cs) => ClaimKeepsOrdered(s, w, t, cs);
        case Emitting(cs) => EmitKeepsOrdered(s, w, cs);
        case Draining => DrainKeepsOrdered(s, w);
        case Flushing(ws) => FlushKeepsOrdered(s, w, ws);
        case FlushEmitting(c, ws) => FlushEmitKeepsOrdered(s, w, c, ws);
        case _ => LoopKeepsOrdered(s, w, now);
      }
    case _ =>
  }

  lemma {:induction false} RunOrdered(s: State, actions: seq<Action>)
    requires s.windowMs > 0 && Ordered(s) && Feasible(s, actions)
    ensures Ordered(Run(s, actions))
    decreases |actions|
  {
    hide Ordered, Next, Enabled;
    if actions != [] {
      StepKeepsOrdered(s, actions[0]);
      RunOrdered(Next(s, actions[0]), actions[1..]);
    }
  }

  /** Each batch a worker claims has ids rising with window start, whatever the other workers do. */
  lemma BatchesAscend(s: State, actions: seq<Action>, w: nat)
    requires Initial(s) && Feasible(s, actions) && w < |s.workers|
    ensures var x := Run(s, actions).workers[w];
      x.Claiming? || x.Emitting? ==> ClaimsAscend(x.claimed)
  {
    RunOrdered(s, actions);
    OrderedParts(Run(s, actions), w);
  }

  /**
   As long as no reading arrived for a window at or below one already numbered and no final flush has
   begun, frames written by any workers have ids in the order of their windows.
   */
  lemma IdOrderIsWindowOrder(s: State, actions: seq<Action>, i: nat, j: nat)
    requires Initial(s) && Feasible(s, actions)
    requires !Run(s, actions).late && !Run(s, actions).flushing
    requires i < |Run(s, actions).written| && j < |Run(s, actions).written|
    ensures var c, d := Run(s, actions).written[i], Run(s, actions).written[j];
      c.id < d.id <==> c.window.start < d.window.start
  {
    RunOrdered(s, actions);
    OrderedParts(Run(s, actions), 0);
    hide Run, Feasible, Initial;
    var t := Run(s, actions);
    assert Recorded(t.written[i], t.issued) && Recorded(t.written[j], t.issued);
  }

  /**
   The proviso is exact: when the next window is claimed, the issue log stays increasing if and only if
   no pending window is at or below one already issued.
   */
  lemma ClaimOrderExact(s: State, w: nat, now: nat, cs: seq<Claim>)
    requires w < |s.workers| && s.pending != map[] && Ready(Oldest(s.pending), now, s.windowMs)
    ensures Increasing(ClaimStep(s, w, now, cs).issued) <==> Increasing(s.issued) && AllBefore(s.issued, s.pending)
  {
    var start := Oldest(s.pending);
    var log := s.issued + [start];
    if Increasing(s.issued) && AllBefore(s.issued, s.pending) {
      IssueExtends(s.issued, s.pending, start);
    }
    if Increasing(log) {
      assert forall i :: 0 <= i < |s.issued| ==> log[i] == s.issued[i] && log[i] < log[|s.issued|];
    }
  }
}
