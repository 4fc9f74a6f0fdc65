/**
 The refresh protocol over all interleavings: gateways writing frames to disk and then recording them,
 API requests starting loads, loads reading the disk while it grows, and loads being applied.
 */
module RefreshRuns {
  import opened Models
  import opened FrameOrder
  import opened FrameCache
  import opened LatestFrames
  import opened CacheCoverage
  import opened RefreshProtocol

  /** A disk load: reading since the disk was `start`, or done with a result not yet applied. */
  datatype Load = Reading(start: map<Key, Frame>) | Read(frames: seq<Frame>)

  /**
   `base` is the disk as the process found it; `gap` holds frames renamed into place whose recording has
   not yet taken the cache mutex; `recorded` those whose recording has.
   */
  datatype State = State(
    base: map<Key, Frame>, disk: map<Key, Frame>, gap: set<Frame>, recorded: set<Frame>,
    cache: Cache, loads: seq<Load>)

  datatype Action =
    | Write(frame: Frame)
    | Record(frame: Frame, nowMs: nat)
    | Ask(nowMs: nat)
    | FinishRead(load: nat, result: seq<Frame>)
    | Apply(load: nat, nowMs: nat)

  /** What a load may return: every file there at its start, as it was then or is now, and perhaps newer files. */
  ghost predicate LoadResult(start: map<Key, Frame>, disk: map<Key, Frame>, result: seq<Frame>) {
    && UniqueKeys(result)
    && (forall k :: k in start ==> k in KeySet(result))
    && (forall f :: f in result ==>
          KeyOf(f) in disk && (disk[KeyOf(f)] == f || (KeyOf(f) in start && start[KeyOf(f)] == f)))
  }

  /** Frame numbering makes the key of every frame written in a run new to that run. */
  ghost predicate Unwritten(s: State, k: Key) {
    forall f :: f in s.gap + s.recorded ==> KeyOf(f) != k
  }

  ghost predicate Enabled(s: State, a: Action) {
    match a
    case Write(f) => Unwritten(s, KeyOf(f))
    case Record(f, _) => f in s.gap
    case Ask(_) => true
    case FinishRead(i, result) => i < |s.loads| && s.loads[i].Reading? && LoadResult(s.loads[i].start, s.disk, result)
    case Apply(i, _) => i < |s.loads| && s.loads[i].Read?
  }

  ghost function Next(s: State, a: Action): State
    requires Enabled(s, a)
  {
    match a
    case Write(f) => s.(disk := s.disk[KeyOf(f) := f], gap := s.gap + {f})
    case Record(f, now) =>
      s.(gap := s.gap - {f}, recorded := s.recorded + {f}, cache := Recorded(s.cache, f, now))
    case Ask(now) =>
      if StartsLoad(s.cache, now) then
        s.(cache := s.cache.(refreshing := true), loads := s.loads + [Reading(s.disk)])
      else s
    case FinishRead(i, result) => s.(loads := s.loads[i := Read(result)])
    case Apply(i, now) =>
      s.(cache := Refreshed(s.cache, s.loads[i].frames, now), loads := s.loads[..i] + s.loads[i + 1..])
  }

  ghost predicate Initial(s: State) {
    Keyed(s.base) && s.disk == s.base && s.gap == {} && s.recorded == {} && s.cache == EMPTY_CACHE && s.loads == []
  }

  ghost predicate Feasible(s: State, actions: seq<Action>)
    decreases |actions|
  {
    actions == [] || (Enabled(s, actions[0]) && Feasible(Next(s, actions[0]), actions[1..]))
  }

  ghost function Run(s: State, actions: seq<Action>): State
    requires Feasible(s, actions)
    decreases |actions|
  {
    if actions == [] then s else Run(Next(s, actions[0]), actions[1..])
  }

  // ---------- single refresher ----------

  ghost predicate SingleRefresher(s: State) {
    && |s.loads| == (if s.cache.refreshing then 1 else 0)
    && (s.cache.pendingPushes != [] ==> s.cache.refreshing)
  }

  lemma StepKeepsSingle(s: State, a: Action)
    requires SingleRefresher(s) && Enabled(s, a)
    ensures SingleRefresher(Next(s, a))
  {
    hide Merged, MergedAll, LoadResult, Unwritten;
  }

  // ---------- the disk ----------

  /** Frames of this run are on disk as written; everything else on disk was there from the start. */
  ghost predicate DiskOk(s: State) {
    && Keyed(s.base) && Keyed(s.disk) && s.gap !! s.recorded
    && (forall k :: k in s.base ==> k in s.disk)
    && (forall f :: f in s.gap + s.recorded ==> KeyOf(f) in s.disk && s.disk[KeyOf(f)] == f)
    && (forall k :: k in s.disk ==>
          s.disk[k] in s.gap + s.recorded || (k in s.base && s.disk[k] == s.base[k]))
  }

  lemma StepKeepsDisk(s: State, a: Action)
    requires DiskOk(s) && Enabled(s, a)
    ensures DiskOk(Next(s, a))
  {
    hide Recorded, Refreshed, LoadResult, StartsLoad;
  }

  // ---------- cache contents against the disk ----------

  /**
   `f` is what the disk holds under its key; or it is an earlier run's version of a frame whose new
   version is on disk but not yet merged, being still unrecorded or set aside.
   */
  ghost predicate OnDisk(s: State, f: Frame) {
    var k := KeyOf(f);
    && k in s.disk
    && (s.disk[k] == f ||
        (k in s.base && s.base[k] == f && (s.disk[k] in s.gap || s.disk[k] in s.cache.pendingPushes)))
  }

  ghost predicate LoadOnDisk(s: State, load: Load) {
    match load
    case Reading(start) => Keyed(start) && forall k :: k in start ==> OnDisk(s, start[k])
    case Read(frames) => UniqueKeys(frames) && forall f :: f in frames ==> OnDisk(s, f)
  }

  ghost predicate ContentsOk(s: State) {
    && UniqueKeys(s.cache.frames)
    && (forall f :: f in s.cache.frames ==> OnDisk(s, f))
    && (forall f :: f in s.cache.pendingPushes ==> f in s.recorded)
    && (forall i :: 0 <= i < |s.loads| ==> LoadOnDisk(s, s.loads[i]))
  }

  // ---------- coverage of recorded frames ----------

  /** What the load will bring back of `f` is `f` itself. */
  ghost predicate LoadHas(load: Load, f: Frame) {
    match load
    case Reading(start) => KeyOf(f) in start && start[KeyOf(f)] == f
    case Read(frames) => f in frames
  }

  ghost predicate Accounted(s: State, f: Frame) {
    f in s.cache.pendingPushes ||
    (Covered(f, s.cache.frames) && forall i :: 0 <= i < |s.loads| ==> LoadHas(s.loads[i], f))
  }

  ghost predicate CoverageOk(s: State) {
    forall f :: f in s.recorded ==> Accounted(s, f)
  }

  ghost predicate Inv(s: State) {
    SingleRefresher(s) && DiskOk(s) && ContentsOk(s) && CoverageOk(s)
  }

  lemma InitialInv(s: State)
    requires Initial(s)
    ensures Inv(s)
  {
  }

  // ---------- one lemma per action ----------

  lemma WriteKeeps(s: State, f: Frame)
    requires Inv(s) && Unwritten(s, KeyOf(f))
    ensures ContentsOk(Next(s, Write(f))) && CoverageOk(Next(s, Write(f)))
  {
    var s' := Next(s, Write(f));
    hide Covered, UniqueKeys, LoadHas;
    forall g | OnDisk(s, g)
      ensures OnDisk(s', g)
    {
    }
    forall i | 0 <= i < |s'.loads|
      ensures LoadOnDisk(s', s'.loads[i])
    {
      assert LoadOnDisk(s, s.loads[i]);
    }
    forall g | g in s'.recorded
      ensures Accounted(s', g)
    {
      assert Accounted(s, g);
    }
  }

  lemma RecordOnDisk(s: State, f: Frame, now: nat, g: Frame)
    requires SingleRefresher(s) && DiskOk(s) && f in s.gap && OnDisk(s, g)
    requires s.cache.refreshing || g == f || KeyOf(g) != KeyOf(f)
    ensures OnDisk(Next(s, Record(f, now)), g)
  {
    hide Merged;
  }

  lemma RecordKeepsContents(s: State, f: Frame, now: nat)
    requires Inv(s) && f in s.gap
    ensures ContentsOk(Next(s, Record(f, now)))
  {
    var s' := Next(s, Record(f, now));
    hide Merged, UniqueKeys, CoverageOk, OnDisk, LoadResult;
    if s.cache.refreshing {
      forall g | OnDisk(s, g)
        ensures OnDisk(s', g)
      {
        RecordOnDisk(s, f, now, g);
      }
      forall i | 0 <= i < |s'.loads|
        ensures LoadOnDisk(s', s'.loads[i])
      {
        assert LoadOnDisk(s, s.loads[i]);
      }
    } else {
      MergeEntries(s.cache.frames, f);
      assert OnDisk(s, f) by {
        GapOnDisk(s, f);
      }
      forall g | g in s'.cache.frames
        ensures OnDisk(s', g)
      {
        RecordOnDisk(s, f, now, g);
      }
    }
  }

  lemma GapOnDisk(s: State, f: Frame)
    requires DiskOk(s) && f in s.gap + s.recorded
    ensures OnDisk(s, f)
  {
  }

  lemma RecordKeepsCoverage(s: State, f: Frame, now: nat)
    requires Inv(s) && f in s.gap
    ensures CoverageOk(Next(s, Record(f, now)))
  {
    var s' := Next(s, Record(f, now));
    hide Merged, UniqueKeys, Covered, LoadHas, OnDisk;
    forall g | g in s'.recorded
      ensures Accounted(s', g)
    {
      if !s.cache.refreshing {
        if g == f {
          MergeCovers(s.cache.frames, f);
        } else {
          assert Accounted(s, g);
          assert KeyOf(g) != KeyOf(f);
          MergeKeepsCovered(s.cache.frames, f, g);
        }
      } else if g != f {
        assert Accounted(s, g);
      }
    }
  }

  lemma AskKeeps(s: State, now: nat)
    requires Inv(s)
    ensures ContentsOk(Next(s, Ask(now))) && CoverageOk(Next(s, Ask(now)))
  {
    var s' := Next(s, Ask(now));
    hide UniqueKeys, Covered;
    if StartsLoad(s.cache, now) {
      assert s'.loads == [Reading(s.disk)];
      assert forall g :: OnDisk(s, g) ==> OnDisk(s', g);
      forall g | g in s'.recorded
        ensures Accounted(s', g)
      {
        assert Accounted(s, g);
      }
    }
  }

  lemma FinishKeepsContents(s: State, i: nat, result: seq<Frame>)
    requires Inv(s) && i < |s.loads| && s.loads[i].Reading? && LoadResult(s.loads[i].start, s.disk, result)
    ensures ContentsOk(Next(s, FinishRead(i, result)))
  {
    var s' := Next(s, FinishRead(i, result));
    hide UniqueKeys, CoverageOk;
    var start := s.loads[i].start;
    assert LoadOnDisk(s, s.loads[i]);
    forall f | f in result
      ensures OnDisk(s', f)
    {
      if s.disk[KeyOf(f)] != f {
        assert OnDisk(s, start[KeyOf(f)]);
      }
    }
    assert s'.loads == [Read(result)];
    assert forall g :: OnDisk(s, g) ==> OnDisk(s', g);
  }

  lemma FinishKeepsCoverage(s: State, i: nat, result: seq<Frame>)
    requires Inv(s) && i < |s.loads| && s.loads[i].Reading? && LoadResult(s.loads[i].start, s.disk, result)
    ensures CoverageOk(Next(s, FinishRead(i, result)))
  {
    var s' := Next(s, FinishRead(i, result));
    hide UniqueKeys, ContentsOk, Covered;
    assert s'.loads == [Read(result)];
    forall f | f in s'.recorded
      ensures Accounted(s', f)
    {
      assert Accounted(s, f);
      if f !in s.cache.pendingPushes {
        assert LoadHas(s.loads[i], f);
        assert KeyOf(f) in KeySet(result);
        var g :| g in result && KeyOf(g) == KeyOf(f);
        assert g == f;
      }
    }
  }

  lemma ApplyKeepsContents(s: State, i: nat, now: nat)
    requires Inv(s) && i < |s.loads| && s.loads[i].Read?
    ensures ContentsOk(Next(s, Apply(i, now)))
  {
    var s' := Next(s, Apply(i, now));
    var loaded := s.loads[i].frames;
    hide UniqueKeys, CoverageOk, MergedAll;
    assert LoadOnDisk(s, s.loads[i]);
    MergedAllEntries(loaded, s.cache.pendingPushes);
    forall f | f in s'.cache.frames
      ensures OnDisk(s', f)
    {
      if f in s.cache.pendingPushes {
        GapOnDisk(s', f);
      } else {
        assert OnDisk(s, f);
      }
    }
  }

  lemma ApplyKeepsCoverage(s: State, i: nat, now: nat)
    requires Inv(s) && i < |s.loads| && s.loads[i].Read?
    ensures CoverageOk(Next(s, Apply(i, now)))
  {
    var s' := Next(s, Apply(i, now));
    var loaded := s.loads[i].frames;
    hide UniqueKeys, MergedAll, OnDisk, Covered;
    assert LoadOnDisk(s, s.loads[i]);
    forall f | f in s'.recorded
      ensures Accounted(s', f)
    {
      assert Accounted(s, f);
      assert f in s.cache.pendingPushes || LoadHas(s.loads[i], f);
      MergedAllCovers(loaded, s.cache.pendingPushes, f);
    }
  }

  lemma StepKeepsInv(s: State, a: Action)
    requires Inv(s) && Enabled(s, a)
    ensures Inv(Next(s, a))
  {
    StepKeepsSingle(s, a);
    StepKeepsDisk(s, a);
    hide SingleRefresher, DiskOk, ContentsOk, CoverageOk, Next;
    match a
    case Write(f) => WriteKeeps(s, f);
    case Record(f, now) => RecordKeepsContents(s, f, now); RecordKeepsCoverage(s, f, now);
    case Ask(now) => AskKeeps(s, now);
    case FinishRead(i, result) => FinishKeepsContents(s, i, result); FinishKeepsCoverage(s, i, result);
    case Apply(i, now) => ApplyKeepsContents(s, i, now); ApplyKeepsCoverage(s, i, now);
  }

  lemma {:induction false} RunInv(s: State, actions: seq<Action>)
    requires Inv(s) && Feasible(s, actions)
    ensures Inv(Run(s, actions)) && Run(s, actions).base == s.base
    decreases |actions|
  {
    if actions != [] {
      StepKeepsInv(s, actions[0]);
      BaseStays(s, actions[0]);
      hide Inv, Next;
      RunInv(Next(s, actions[0]), actions[1..]);
    }
  }

  lemma BaseStays(s: State, a: Action)
    requires Enabled(s, a)
    ensures Next(s, a).base == s.base
  {
  }

  // ---------- what holds in every reachable state ----------

  /** Loads in flight are counted by the flag, and pushes are set aside only while a load is in flight. */
  lemma OneLoadAtMost(s: State, actions: seq<Action>)
    requires Initial(s) && Feasible(s, actions)
    ensures var t := Run(s, actions);
            |t.loads| == (if t.cache.refreshing then 1 else 0) && (t.cache.pendingPushes != [] ==> t.cache.refreshing)
  {
    InitialInv(s);
    RunInv(s, actions);
  }

  /**
   Everything cached or set aside is on disk. It is the very version on disk, unless the file was there
   before this run and the run's own version has not been merged yet.
   */
  lemma CacheIsOnDisk(s: State, actions: seq<Action>, f: Frame)
    requires Initial(s) && Feasible(s, actions)
    requires f in Run(s, actions).cache.frames || f in Run(s, actions).cache.pendingPushes
    ensures var t := Run(s, actions);
            var k := KeyOf(f);
            && k in t.disk
            && (t.disk[k] == f ||
                (k in s.base && s.base[k] == f && (t.disk[k] in t.gap || t.disk[k] in t.cache.pendingPushes)))
    ensures KeyOf(f) !in s.base ==> Run(s, actions).disk[KeyOf(f)] == f
  {
    InitialInv(s);
    RunInv(s, actions);
    hide Feasible, Run, Covered;
  }

  /** A recorded frame is cached, set aside, or crowded out by a full cache of newer frames. */
  lemma RecordedIsAccounted(s: State, actions: seq<Action>, f: Frame)
    requires Initial(s) && Feasible(s, actions) && f in Run(s, actions).recorded
    ensures f in Run(s, actions).cache.pendingPushes || Covered(f, Run(s, actions).cache.frames)
    ensures !Run(s, actions).cache.refreshing ==> Covered(f, Run(s, actions).cache.frames)
  {
    InitialInv(s);
    RunInv(s, actions);
    hide Feasible, Run, Covered;
    assert Accounted(Run(s, actions), f);
  }

  /**
   In every reachable state, load in flight or not, `/api/latest` shows a recorded frame or ten newer ones,
   unless the frame is set aside until the load is applied.
   */
  lemma LatestShowsRecorded(s: State, actions: seq<Action>, f: Frame)
    requires Initial(s) && Feasible(s, actions) && f in Run(s, actions).recorded
    requires f !in Run(s, actions).cache.pendingPushes
    ensures var latest := NewestNaive(Run(s, actions).cache.frames);
            f in latest || (|latest| == MAX_LATEST_FRAMES && forall g :: g in latest ==> Before(KeyOf(f), KeyOf(g)))
  {
    InitialInv(s);
    RunInv(s, actions);
    RecordedIsAccounted(s, actions, f);
    hide Feasible, Run, Covered, UniqueKeys, Before;
    LatestShowsCovered(Run(s, actions).cache.frames, f);
  }

  // ---------- rewriting a file of an earlier run ----------

  /** Every entry of a disk has a place in some load result. */
  lemma {:induction false} Listing(m: map<Key, Frame>) returns (list: seq<Frame>)
    requires Keyed(m)
    ensures UniqueKeys(list) && Entries(list, m) && forall k :: k in m ==> m[k] in list
    decreases |m|
  {
    list := [];
    if m != map[] {
      var k :| k in m;
      var rest := m - {k};
      var listed := Listing(rest);
      list := listed + [m[k]];
      assert forall x :: x in m ==> x == k || (x in rest && rest[x] == m[x]);
      forall i, j | 0 <= i < j < |list|
        ensures KeyOf(list[i]) != KeyOf(list[j])
      {
        assert list[i] in listed;
      }
    }
  }

  /**
   The exception is real: whenever a run replaces a file that was on disk before it with a different
   frame, there is a run after which the cache shows the old version and the disk holds the new one.
   */
  lemma OldVersionLingers(s: State, rewritten: Frame) returns (actions: seq<Action>)
    requires Initial(s) && KeyOf(rewritten) in s.base && s.base[KeyOf(rewritten)] != rewritten
    ensures Feasible(s, actions) && WritesOnly(actions, iset{rewritten})
    ensures var t := Run(s, actions);
            s.base[KeyOf(rewritten)] in t.cache.frames && (KeyOf(rewritten), rewritten) in t.disk.Items
  {
    var result := Listing(s.base);
    var s1 := Next(s, Ask(FRAMES_CACHE_TTL_MS + 1));
    assert forall k :: k in s.base ==> s.base[k] in result && KeyOf(s.base[k]) == k;
    assert LoadResult(s.base, s.disk, result);
    var s2 := Next(s1, FinishRead(0, result));
    var s3 := Next(s2, Apply(0, 0));
    hide LoadResult, UniqueKeys;
    actions := RunOfFour(s, Ask(FRAMES_CACHE_TTL_MS + 1), FinishRead(0, result), Apply(0, 0), Write(rewritten));
  }

  lemma RunOfFour(s: State, a: Action, b: Action, c: Action, d: Action) returns (actions: seq<Action>)
    requires Enabled(s, a) && Enabled(Next(s, a), b) && Enabled(Next(Next(s, a), b), c)
    requires Enabled(Next(Next(Next(s, a), b), c), d)
    ensures Feasible(s, actions) && Run(s, actions) == Next(Next(Next(Next(s, a), b), c), d)
    ensures actions == [a, b, c, d]
  {
    hide Enabled, Next;
    actions := [d];
    var s3 := Next(Next(Next(s, a), b), c);
    assert [d][1..] == [];
    assert Run(s3, [d]) == Next(s3, d);
    RunPrepend(Next(Next(s, a), b), c, [d]);
    RunPrepend(Next(s, a), b, [c] + [d]);
    RunPrepend(s, a, [b] + ([c] + [d]));
    actions := [a] + ([b] + ([c] + [d]));
  }

  lemma RunPrepend(s: State, a: Action, actions: seq<Action>)
    requires Enabled(s, a) && Feasible(Next(s, a), actions)
    ensures Feasible(s, [a] + actions) && Run(s, [a] + actions) == Run(Next(s, a), actions)
  {
    hide Enabled, Next;
    assert ([a] + actions)[1..] == actions;
  }

  // ---------- exactly when the cache matches the disk ----------

  /** Every frame written is one of `w`. */
  ghost predicate WritesOnly(actions: seq<Action>, w: iset<Frame>) {
    forall i :: 0 <= i < |actions| && actions[i].Write? ==> actions[i].frame in w
  }

  /** Everything cached or set aside is the version on disk. */
  ghost predicate MatchesDisk(t: State) {
    forall f :: f in t.cache.frames || f in t.cache.pendingPushes ==>
      KeyOf(f) in t.disk && t.disk[KeyOf(f)] == f
  }

  /** No frame of `w` replaces a file that was there before with something else. */
  ghost predicate RewritesNothing(base: map<Key, Frame>, w: iset<Frame>) {
    forall f :: f in w && KeyOf(f) in base ==> base[KeyOf(f)] == f
  }

  lemma {:induction false} OnlyThoseWritten(s: State, actions: seq<Action>, w: iset<Frame>)
    requires Feasible(s, actions) && WritesOnly(actions, w) && forall f :: f in s.gap + s.recorded ==> f in w
    ensures forall f :: f in Run(s, actions).gap + Run(s, actions).recorded ==> f in w
    decreases |actions|
  {
    if actions != [] {
      StepWrites(s, actions[0], w);
      assert forall i :: 0 <= i < |actions| - 1 ==> actions[1..][i] == actions[i + 1];
      hide Next, Enabled;
      OnlyThoseWritten(Next(s, actions[0]), actions[1..], w);
    }
  }

  lemma StepWrites(s: State, a: Action, w: iset<Frame>)
    requires Enabled(s, a) && (a.Write? ==> a.frame in w) && forall f :: f in s.gap + s.recorded ==> f in w
    ensures forall f :: f in Next(s, a).gap + Next(s, a).recorded ==> f in w
  {
    hide Recorded, Refreshed, StartsLoad, LoadResult, Unwritten;
  }

  /** With every write of the run in `w`, and none of `w` changing an older file, the cache matches the disk. */
  lemma ConsistentMatches(t: State, w: iset<Frame>)
    requires Inv(t) && RewritesNothing(t.base, w) && forall f :: f in t.gap + t.recorded ==> f in w
    ensures MatchesDisk(t)
  {
    hide Covered, UniqueKeys, CoverageOk, SingleRefresher;
    forall f | f in t.cache.frames || f in t.cache.pendingPushes
      ensures KeyOf(f) in t.disk && t.disk[KeyOf(f)] == f
    {
      if f in t.cache.frames {
        assert OnDisk(t, f);
      } else {
        GapOnDisk(t, f);
      }
    }
  }

  /**
   Whatever frames a process is going to write: the cache matches the disk in every state of every such run
   if and only if none of them replaces a file found at the start with a different frame.
   */
  lemma MatchesDiskExactly(s: State, w: iset<Frame>)
    requires Initial(s)
    ensures (forall actions :: Feasible(s, actions) && WritesOnly(actions, w) ==> MatchesDisk(Run(s, actions)))
        <==> RewritesNothing(s.base, w)
  {
    if RewritesNothing(s.base, w) {
      forall actions | Feasible(s, actions) && WritesOnly(actions, w)
        ensures MatchesDisk(Run(s, actions))
      {
        InitialInv(s);
        RunInv(s, actions);
        OnlyThoseWritten(s, actions, w);
        hide Feasible, Run, Inv, MatchesDisk, RewritesNothing;
        ConsistentMatches(Run(s, actions), w);
      }
    } else {
      var f :| f in w && KeyOf(f) in s.base && s.base[KeyOf(f)] != f;
      var actions := OldVersionLingers(s, f);
      hide Feasible, Run;
      assert WritesOnly(actions, w);
      assert KeyOf(s.base[KeyOf(f)]) == KeyOf(f);
      assert !MatchesDisk(Run(s, actions));
    }
  }

  // ---------- a frame set aside ----------

  lemma MergedAlone(f: Frame)
    ensures Merged([], f) == [f]
  {
    assert Retained([], KeyOf(f)) + [f] == [f];
    assert Sort([f], true) == [f];
  }

  /**
   A frame set aside can be missed: from every start, once an older frame is cached and has gone stale, a
   newer one recorded during the refresh is not shown until the load is applied.
   */
  lemma SetAsideIsMissed(s: State, older: Frame, newer: Frame) returns (actions: seq<Action>)
    requires Initial(s) && Before(KeyOf(older), KeyOf(newer))
    ensures Feasible(s, actions)
    ensures var t := Run(s, actions);
            && newer in t.recorded && newer in t.cache.pendingPushes && t.cache.frames == [older]
            && NewestNaive(t.cache.frames) == [older]
  {
    MergedAlone(older);
    assert Sort([older], false) == [older];
    var a, b, c := Write(older), Record(older, 0), Ask(FRAMES_CACHE_TTL_MS + 1);
    var s1 := Next(s, a);
    var s2 := Next(s1, b);
    assert s2.cache == Cache(0, false, [older], []);
    hide Merged, Sort;
    var s3 := Next(s2, c);
    assert s3.cache == Cache(0, true, [older], []);
    var s4 := Next(s3, Write(newer));
    var s5 := Next(s4, Record(newer, 0));
    hide Enabled, Next;
    var later := RunOfFour(s1, b, c, Write(newer), Record(newer, 0));
    RunPrepend(s, a, later);
    actions := [a] + later;
  }

  // ---------- how long the cache stays fresh ----------

  /** When the cache was last merged into or replaced along a run, by the times of its own actions. */
  ghost function LastStamp(s: State, actions: seq<Action>, before: nat): nat
    requires Feasible(s, actions)
    decreases |actions|
  {
    if actions == [] then before
    else LastStamp(Next(s, actions[0]), actions[1..], StampOf(s, actions[0], before))
  }

  ghost function StampOf(s: State, a: Action, before: nat): nat {
    match a
    case Record(_, t) => if s.cache.refreshing then before else t
    case Apply(_, t) => t
    case _ => before
  }

  /** The step puts one more load in flight. */
  ghost predicate Starts(s: State, a: Action)
    requires Enabled(s, a)
  {
    |Next(s, a).loads| == |s.loads| + 1
  }

  /** After a frame is merged at time `t`, requests start no load for 5000 ms, and the next one after that does. */
  lemma FreshAfterRecord(s: State, f: Frame, t: nat, now: nat)
    requires f in s.gap && !s.cache.refreshing
    ensures Starts(Next(s, Record(f, t)), Ask(now)) <==> now > t + 5000
  {
  }

  /** The same after a load is applied. */
  lemma FreshAfterApply(s: State, i: nat, t: nat, now: nat)
    requires i < |s.loads| && s.loads[i].Read?
    ensures Starts(Next(s, Apply(i, t)), Ask(now)) <==> now > t + 5000
  {
    hide MergedAll;
  }

  lemma {:induction false} StampIsKept(s: State, actions: seq<Action>)
    requires Feasible(s, actions)
    ensures Run(s, actions).cache.refreshedAtMs == LastStamp(s, actions, s.cache.refreshedAtMs)
    decreases |actions|
  {
    if actions != [] {
      StepStamps(s, actions[0]);
      hide Next, Enabled, StampOf;
      StampIsKept(Next(s, actions[0]), actions[1..]);
    }
  }

  lemma StepStamps(s: State, a: Action)
    requires Enabled(s, a)
    ensures Next(s, a).cache.refreshedAtMs == StampOf(s, a, s.cache.refreshedAtMs)
  {
    hide Merged, MergedAll, LoadResult, Unwritten;
  }

  /**
   In any run a request starts a load if and only if none is in flight and more than 5000 ms have passed
   since the last merge or the last applied load, or since time zero when there was neither.
   */
  lemma LoadStartsExactly(s: State, actions: seq<Action>, now: nat)
    requires Initial(s) && Feasible(s, actions)
    ensures Starts(Run(s, actions), Ask(now)) <==>
              Run(s, actions).loads == [] && now > LastStamp(s, actions, 0) + 5000
    ensures forall a :: Enabled(Run(s, actions), a) && Starts(Run(s, actions), a) ==> a.Ask?
  {
    OneLoadAtMost(s, actions);
    StampIsKept(s, actions);
    hide Feasible, Run, LastStamp;
  }
}
