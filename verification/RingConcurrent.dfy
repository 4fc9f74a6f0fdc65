/**
 The ring with its reader and its writer on separate threads. Every atomic load and store is one
 step, and so are the start and the end of the plain write to a slot; the plain read of a slot lasts
 from the step that enters `Reading` to the step that leaves it. Steps are sequentially consistent.
 */
module RingConcurrent {
  import opened Arithmetic
  import opened Ring
  import opened Ledger

  /** A slot is torn while the writer is half-way through storing into it. */
  datatype Cell<T> = Torn | Full(value: T)

  /** Where `try_read` stands; fields are its local variables. */
  datatype Reader<T> =
    | ReaderIdle
    | LoadedRead(readIdx: nat)
    | Reading(slot: nat)
    | HasValue(cell: Cell<T>)
    | CommittingRead(cell: Cell<T>, readIdx: nat)

  /** Where `write_overwrite(value)` stands. */
  datatype Writer<T> =
    | WriterIdle
    | LoadedWrite(value: T, writeIdx: nat)
    | Acquired(value: T, slot: nat, full: bool)
    | Storing(value: T, slot: nat, full: bool)
    | Stored(value: T, full: bool)
    | CommittingWrite(value: T, full: bool, writeIdx: nat)
    | Advancing(value: T, writeIdx: nat, readIdx: nat)
    | Publishing(value: T, full: bool, writeIdx: nat)

  /**
   The shared memory and both threads. The logs record what happened: `written` values published,
   `flags` returned by writes, `taken` returned by reads, and the `fates` of departed values, one for
   each store to the read index.
   */
  datatype State<T> = State(
    buf: seq<Cell<T>>, readIdx: nat, writeIdx: nat,
    reader: Reader<T>, writer: Writer<T>,
    written: seq<T>, flags: seq<bool>, taken: seq<Cell<T>>, fates: seq<Fate>)

  /** One step of a thread; the writer takes `value` along when it begins a new write. */
  datatype Action<T> = ReaderStep | WriterStep(value: T)

  ghost predicate InBounds<T>(s: State<T>) {
    && IsPowerOfTwo(|s.buf|)
    && s.readIdx < |s.buf|
    && s.writeIdx < |s.buf|
    && (s.reader.LoadedRead? || s.reader.CommittingRead? ==> s.reader.readIdx < |s.buf|)
    && (s.reader.Reading? ==> s.reader.slot < |s.buf|)
    && (s.writer.LoadedWrite? || s.writer.CommittingWrite? || s.writer.Publishing? ==> s.writer.writeIdx < |s.buf|)
    && (s.writer.Acquired? || s.writer.Storing? ==> s.writer.slot < |s.buf|)
    && (s.writer.Advancing? ==> s.writer.writeIdx < |s.buf| && s.writer.readIdx < |s.buf|)
  }

  function ReadStep<T>(s: State<T>): (s': State<T>)
    requires InBounds(s)
  {
    match s.reader
    case ReaderIdle =>
      s.(reader := LoadedRead(s.readIdx))
    case LoadedRead(r) =>
      if r == s.writeIdx then s.(reader := ReaderIdle) else s.(reader := Reading(r))
    case Reading(slot) =>
      s.(reader := HasValue(s.buf[slot]))
    case HasValue(cell) =>
      s.(reader := CommittingRead(cell, s.readIdx))
    case CommittingRead(cell, r) =>
      s.(reader := ReaderIdle, readIdx := NextIndex(r, |s.buf|), taken := s.taken + [cell], fates := s.fates + [Read])
  }

  function WriteStep<T>(s: State<T>, value: T): (s': State<T>)
    requires InBounds(s)
  {
    match s.writer
    case WriterIdle =>
      s.(writer := LoadedWrite(value, s.writeIdx))
    case LoadedWrite(v, w) =>
      s.(writer := Acquired(v, w, NextIndex(w, |s.buf|) == s.readIdx))
    case Acquired(v, slot, full) =>
      s.(writer := Storing(v, slot, full), buf := s.buf[slot := Torn])
    case Storing(v, slot, full) =>
      s.(writer := Stored(v, full), buf := s.buf[slot := Full(v)])
    case Stored(v, full) =>
      s.(writer := CommittingWrite(v, full, s.writeIdx))
    case CommittingWrite(v, full, w) =>
      if full then s.(writer := Advancing(v, w, s.readIdx)) else s.(writer := Publishing(v, full, w))
    case Advancing(v, w, r) =>
      s.(writer := Publishing(v, true, w), readIdx := NextIndex(r, |s.buf|), fates := s.fates + [Overwritten])
    case Publishing(v, full, w) =>
      s.(writer := WriterIdle, writeIdx := NextIndex(w, |s.buf|), written := s.written + [v], flags := s.flags + [full])
  }

  /** Indices stay inside the buffer whatever the two threads do, overlapping overwrites included. */
  function Next<T>(s: State<T>, a: Action<T>): (s': State<T>)
    requires InBounds(s)
    ensures InBounds(s') && |s'.buf| == |s.buf|
  {
    match a
    case ReaderStep => ReadStep(s)
    case WriterStep(v) => WriteStep(s, v)
  }

  function Run<T>(s: State<T>, actions: seq<Action<T>>): (s': State<T>)
    requires InBounds(s)
    ensures InBounds(s') && |s'.buf| == |s.buf|
    decreases |actions|
  {
    if actions == [] then s else Run(Next(s, actions[0]), actions[1..])
  }

  /** A ring fresh from `new`, seen by both handles. */
  ghost predicate Initial<T>(s: State<T>) {
    && IsPowerOfTwo(|s.buf|)
    && s.readIdx == s.writeIdx == 0
    && s.reader == ReaderIdle && s.writer == WriterIdle
    && s.written == [] && s.flags == [] && s.taken == [] && s.fates == []
    && (forall i :: 0 <= i < |s.buf| ==> s.buf[i].Full?)
  }

  /** The writer found the ring full and has not yet moved the read index. */
  predicate Overwriting<T>(w: Writer<T>) {
    match w
    case Acquired(_, _, full) => full
    case Storing(_, _, full) => full
    case Stored(_, full) => full
    case CommittingWrite(_, full, _) => full
    case Advancing(_, _, _) => true
    case _ => false
  }

  /** An overwriting write and a read are in flight together. */
  predicate Overlap<T>(s: State<T>) {
    Overwriting(s.writer) && s.reader != ReaderIdle
  }

  /** No state of the run, start included, has an overwriting write overlapping a read. */
  ghost predicate OverlapFree<T>(s: State<T>, actions: seq<Action<T>>)
    requires InBounds(s)
    decreases |actions|
  {
    !Overlap(s) && (actions == [] || OverlapFree(Next(s, actions[0]), actions[1..]))
  }

  // ---------- the refinement invariant ----------

  function Cells<T>(xs: seq<T>): (cs: seq<Cell<T>>)
    ensures |cs| == |xs| && forall i :: 0 <= i < |xs| ==> cs[i] == Full(xs[i])
  {
    seq(|xs|, i requires 0 <= i < |xs| => Full(xs[i]))
  }

  /** The slots from the read index to the write index hold the values that have not departed, in order. */
  ghost predicate RingInv<T>(s: State<T>) {
    && InBounds(s) && |s.buf| >= 2
    && |s.fates| <= |s.written|
    && Window(s.buf, s.readIdx, s.writeIdx) == Cells(s.written[|s.fates|..])
  }

  function Length<T>(s: State<T>): int {
    |s.written| - |s.fates|
  }

  ghost predicate ReaderInv<T>(s: State<T>)
    requires |s.fates| <= |s.written|
  {
    match s.reader
    case ReaderIdle => true
    case LoadedRead(r) => r == s.readIdx
    case Reading(slot) => slot == s.readIdx && Length(s) > 0
    case HasValue(cell) => Length(s) > 0 && cell == Full(s.written[|s.fates|])
    case CommittingRead(cell, r) => r == s.readIdx && Length(s) > 0 && cell == Full(s.written[|s.fates|])
  }

  /** How much room a write in flight may rely on. */
  ghost predicate Room<T>(s: State<T>, full: bool) {
    if full then Length(s) == |s.buf| - 1 else Length(s) < |s.buf| - 1
  }

  ghost predicate WriterInv<T>(s: State<T>)
    requires InBounds(s)
  {
    match s.writer
    case WriterIdle => true
    case LoadedWrite(_, w) => w == s.writeIdx
    case Acquired(_, slot, full) => slot == s.writeIdx && Room(s, full)
    case Storing(_, slot, full) => slot == s.writeIdx && Room(s, full)
    case Stored(v, full) => Room(s, full) && s.buf[s.writeIdx] == Full(v)
    case CommittingWrite(v, full, w) => w == s.writeIdx && Room(s, full) && s.buf[w] == Full(v)
    case Advancing(v, w, r) => w == s.writeIdx && r == s.readIdx && Room(s, true) && s.buf[w] == Full(v)
    case Publishing(v, _, w) => w == s.writeIdx && Room(s, false) && s.buf[w] == Full(v)
  }

  /** The overwrite flags returned, and about to be returned, count the overwritten values. */
  ghost predicate FlagInv<T>(s: State<T>) {
    && |s.flags| == |s.written|
    && Count(s.fates, Overwritten) == Trues(s.flags) + if s.writer.Publishing? && s.writer.full then 1 else 0
  }

  /** Exactly the values whose fate is `Read` were returned, in the order they were written. */
  ghost predicate ReadsInv<T>(s: State<T>)
    requires |s.fates| <= |s.written|
  {
    s.taken == Cells(Select(s.written, s.fates, Read))
  }

  ghost predicate Inv<T>(s: State<T>) {
    RingInv(s) && ReaderInv(s) && WriterInv(s) && FlagInv(s) && ReadsInv(s)
  }

  lemma InitialInv<T>(s: State<T>)
    requires Initial(s) && |s.buf| >= 2
    ensures Inv(s)
  {
  }

  /** Reading the slot at the read index yields the oldest value that has not departed. */
  lemma ReadingInv<T>(s: State<T>)
    requires Inv(s) && s.reader.Reading?
    ensures Inv(ReadStep(s))
  {
    ReadAdvances(s.buf, s.readIdx, s.writeIdx);
    assert Cells(s.written[|s.fates|..])[0] == Full(s.written[|s.fates|]);
  }

  lemma CommittingReadInv<T>(s: State<T>)
    requires Inv(s) && !Overlap(s) && s.reader.CommittingRead?
    ensures Inv(ReadStep(s))
  {
    ReadAdvances(s.buf, s.readIdx, s.writeIdx);
    SelectExtend(s.written, s.fates, Read, Read);
    CountExtend(s.fates, Read, Overwritten);
  }

  /** A step that moves only the reader's counter need only be checked for the reader. */
  lemma CounterInv<T>(s: State<T>, reader: Reader<T>)
    requires Inv(s) && InBounds(s.(reader := reader)) && ReaderInv(s.(reader := reader))
    ensures Inv(s.(reader := reader))
  {
    hide Window, Cells, Select, Count, Trues;
  }

  /** Loading an index, or finding the ring empty or not. */
  lemma LoadingInv<T>(s: State<T>)
    requires Inv(s) && (s.reader.ReaderIdle? || s.reader.LoadedRead? || s.reader.HasValue?)
    ensures Inv(ReadStep(s))
  {
    hide WriterInv, FlagInv, ReadsInv, Inv;
    assert InBounds(s) && RingInv(s) && ReaderInv(s) by { InvParts(s); }
    CounterInv(s, ReadStep(s).reader);
  }

  lemma InvParts<T>(s: State<T>)
    requires Inv(s)
    ensures RingInv(s) && ReaderInv(s)
  {
  }

  lemma ReadStepInv<T>(s: State<T>)
    requires Inv(s) && !Overlap(s)
    ensures Inv(ReadStep(s))
  {
    hide Inv, ReadStep;
    match s.reader
    case Reading(slot) => ReadingInv(s);
    case CommittingRead(cell, r) => CommittingReadInv(s);
    case _ => LoadingInv(s);
  }

  lemma AdvancingInv<T>(s: State<T>, value: T)
    requires Inv(s) && !Overlap(s) && s.writer.Advancing?
    ensures Inv(WriteStep(s, value))
  {
    ReadAdvances(s.buf, s.readIdx, s.writeIdx);
    SelectExtend(s.written, s.fates, Overwritten, Read);
    CountExtend(s.fates, Overwritten, Overwritten);
  }

  lemma PublishingInv<T>(s: State<T>, value: T)
    requires Inv(s) && !Overlap(s) && s.writer.Publishing?
    ensures Inv(WriteStep(s, value))
  {
    var v := s.writer.value;
    WriteAdvances(s.buf, s.readIdx, s.writeIdx);
    assert (s.written + [v])[|s.fates|..] == s.written[|s.fates|..] + [v];
    SelectStable(s.written, [v], s.fates, Read);
    TruesExtend(s.flags, s.writer.full);
  }

  lemma AcquireInv<T>(s: State<T>, value: T)
    requires Inv(s) && s.writer.LoadedWrite?
    ensures Inv(WriteStep(s, value))
  {
    FullTest(s.readIdx, s.writeIdx, |s.buf|);
    DistanceBounded(s.readIdx, s.writeIdx, |s.buf|);
  }

  lemma StoreInv<T>(s: State<T>, value: T)
    requires Inv(s) && (s.writer.Acquired? || s.writer.Storing?)
    ensures Inv(WriteStep(s, value))
  {
    ReservedSlotHidden(s.buf, s.readIdx, s.writeIdx, Torn);
    ReservedSlotHidden(s.buf, s.readIdx, s.writeIdx, Full(s.writer.value));
  }

  lemma WriteStepInv<T>(s: State<T>, value: T)
    requires Inv(s) && !Overlap(s)
    ensures Inv(WriteStep(s, value))
  {
    match s.writer
    case WriterIdle =>
    case LoadedWrite(v, w) => AcquireInv(s, value);
    case Acquired(v, slot, full) => StoreInv(s, value);
    case Storing(v, slot, full) => StoreInv(s, value);
    case Stored(v, full) =>
    case CommittingWrite(v, full, w) =>
    case Advancing(v, w, r) => AdvancingInv(s, value);
    case Publishing(v, full, w) => PublishingInv(s, value);
  }

  /** The invariant holds throughout every run in which overwriting writes do not overlap reads. */
  lemma {:induction false} RunInv<T>(s: State<T>, actions: seq<Action<T>>)
    requires Inv(s) && OverlapFree(s, actions)
    ensures Inv(Run(s, actions)) && !Overlap(Run(s, actions))
    decreases |actions|
  {
    if actions != [] {
      match actions[0] {
        case ReaderStep => ReadStepInv(s);
        case WriterStep(v) => WriteStepInv(s, v);
      }
      RunInv(Next(s, actions[0]), actions[1..]);
    }
  }

  // ---------- what every overlap-free run guarantees ----------

  /** Written values are read, overwritten or queued, and both the reader's values and the flags say so. */
  ghost predicate Accounted<T>(s: State<T>) {
    && InBounds(s)
    && |s.fates| <= |s.written|
    && s.taken == Cells(Select(s.written, s.fates, Read))
    && Window(s.buf, s.readIdx, s.writeIdx) == Cells(s.written[|s.fates|..])
    && (!s.writer.Publishing? ==> Trues(s.flags) == Count(s.fates, Overwritten))
  }

  /**
   In every overlap-free run the values read are an in-order, duplicate-free subsequence of those
   written; the missing ones are exactly the flagged ones and those still queued.
   */
  lemma ConcurrentRefinement<T>(s: State<T>, actions: seq<Action<T>>)
    requires Initial(s) && |s.buf| >= 2 && OverlapFree(s, actions)
    ensures var t := Run(s, actions);
      && Accounted(t)
      && SubsequenceVia(t.taken, Cells(t.written), Positions(t.fates, Read))
      && |t.written| == |t.taken| + Count(t.fates, Overwritten) + Distance(t.readIdx, t.writeIdx, |t.buf|)
  {
    InitialInv(s);
    RunInv(s, actions);
    var t := Run(s, actions);
    SelectIsSubsequence(t.written, t.fates, Read);
    CountsPartition(t.fates);
  }

  /** A read comes back empty-handed exactly when nothing is queued at its load of the write index. */
  lemma NoneExactlyWhenEmpty<T>(s: State<T>, actions: seq<Action<T>>)
    requires Initial(s) && |s.buf| >= 2 && OverlapFree(s, actions)
    ensures var t := Run(s, actions);
      t.reader.LoadedRead? ==>
        (ReadStep(t).reader == ReaderIdle <==> |t.fates| == |t.written|)
  {
    InitialInv(s);
    RunInv(s, actions);
    var t := Run(s, actions);
    assert |Window(t.buf, t.readIdx, t.writeIdx)| == |t.written| - |t.fates|;
  }

  /** The slot being read is never the slot being written, and its value is whole. */
  lemma NoSlotRace<T>(s: State<T>, actions: seq<Action<T>>)
    requires Initial(s) && |s.buf| >= 2 && OverlapFree(s, actions)
    ensures var t := Run(s, actions);
      t.reader.Reading? ==>
        && t.buf[t.reader.slot].Full?
        && (t.writer.Acquired? || t.writer.Storing? ==> t.writer.slot != t.reader.slot)
        && (t.writer.Stored? ==> t.writeIdx != t.reader.slot)
  {
    InitialInv(s);
    RunInv(s, actions);
    var t := Run(s, actions);
    if t.reader.Reading? {
      ReadAdvances(t.buf, t.readIdx, t.writeIdx);
    }
  }

  // ---------- every overlap can break the accounting ----------

  /** Both calls are over, and more values were reported read, flagged or queued than were written. */
  ghost predicate Overcounted<T>(s: State<T>) {
    && s.reader == ReaderIdle && s.writer == WriterIdle
    && |s.written| < |s.taken| + Trues(s.flags) + Distance(s.readIdx, s.writeIdx, |s.buf|)
  }

  lemma {:induction false} RunConcat<T>(s: State<T>, a: seq<Action<T>>, b: seq<Action<T>>)
    requires InBounds(s)
    ensures Run(s, a + b) == Run(Run(s, a), b)
    decreases |a|
  {
    if a == [] {
      assert a + b == b;
    } else {
      assert (a + b)[1..] == a[1..] + b;
      RunConcat(Next(s, a[0]), a[1..], b);
    }
  }

  /** Let the reader go on until it has loaded the read index it is about to advance. */
  lemma {:induction false} ReaderReachesCommit<T>(s: State<T>, n: nat) returns (actions: seq<Action<T>>)
    requires Inv(s) && Overlap(s)
    requires match s.reader case LoadedRead(_) => n == 3 case Reading(_) => n == 2
               case HasValue(_) => n == 1 case _ => n == 0
    ensures Inv(Run(s, actions)) && Run(s, actions).reader.CommittingRead?
    ensures Run(s, actions).writer == s.writer
    decreases n
  {
    if n == 0 {
      actions := [];
    } else {
      if s.reader.Reading? {
        ReadingInv(s);
      }
      var rest := ReaderReachesCommit(ReadStep(s), n - 1);
      actions := [ReaderStep] + rest;
      assert actions[1..] == rest;
    }
  }

  /** Let the writer go on until it is about to advance the read index over the reader's slot. */
  lemma {:induction false} WriterReachesAdvance<T>(s: State<T>, n: nat) returns (actions: seq<Action<T>>)
    requires Inv(s) && Overlap(s) && s.reader.CommittingRead?
    requires match s.writer case Acquired(_, _, _) => n == 4 case Storing(_, _, _) => n == 3
               case Stored(_, _) => n == 2 case CommittingWrite(_, _, _) => n == 1 case _ => n == 0
    ensures Inv(Run(s, actions)) && Run(s, actions).writer.Advancing?
    ensures Run(s, actions).reader == s.reader
    decreases n
  {
    if n == 0 {
      actions := [];
    } else {
      var v := s.writer.value;
      if s.writer.Acquired? || s.writer.Storing? {
        StoreInv(s, v);
      }
      var rest := WriterReachesAdvance(WriteStep(s, v), n - 1);
      actions := [WriterStep(v)] + rest;
      assert actions[1..] == rest;
    }
  }

  /** With both stores to the read index prepared, one advance is lost but two departures are reported. */
  lemma LostAdvance<T>(s: State<T>) returns (actions: seq<Action<T>>)
    requires Inv(s) && s.reader.CommittingRead? && s.writer.Advancing?
    ensures Overcounted(Run(s, actions))
  {
    var v := s.writer.value;
    var s1 := WriteStep(s, v);
    var s2 := WriteStep(s1, v);
    var s3 := ReadStep(s2);
    actions := RunOfThree(s, v);
    CountsPartition(s.fates);
    TruesExtend(s.flags, true);
    hide Select, Count, Trues, Window;
  }

  /** The writer twice, then the reader. */
  lemma RunOfThree<T>(s: State<T>, v: T) returns (actions: seq<Action<T>>)
    requires InBounds(s)
    ensures InBounds(WriteStep(s, v)) && InBounds(WriteStep(WriteStep(s, v), v))
    ensures Run(s, actions) == ReadStep(WriteStep(WriteStep(s, v), v))
  {
    var s1 := Next(s, WriterStep(v));
    var s2 := Next(s1, WriterStep(v));
    assert s1 == WriteStep(s, v) && s2 == WriteStep(s1, v);
    var s3 := Next(s2, ReaderStep);
    hide InBounds, WriteStep, ReadStep;
    actions := [WriterStep(v), WriterStep(v), ReaderStep];
    assert actions[1..] == [WriterStep(v), ReaderStep];
    assert actions[1..][1..] == [ReaderStep];
    assert actions[1..][1..][1..] == [];
    assert Run(s3, []) == s3;
    assert Run(s2, [ReaderStep]) == s3;
    assert Run(s1, actions[1..]) == s3;
  }

  /**
   The condition is tight: from every consistent state with an overlap, finishing just the two calls
   in flight can leave a value that was read and also flagged as overwritten, so that reads,
   flagged writes and queued values exceed the values written.
   */
  lemma OverlapBreaksAccounting<T>(s: State<T>) returns (actions: seq<Action<T>>)
    requires Inv(s) && Overlap(s)
    ensures Overcounted(Run(s, actions))
  {
    var a := ReaderReachesCommit(s, match s.reader
      case LoadedRead(_) => 3 case Reading(_) => 2 case HasValue(_) => 1 case _ => 0);
    var s1 := Run(s, a);
    var b := WriterReachesAdvance(s1, match s1.writer
      case Acquired(_, _, _) => 4 case Storing(_, _, _) => 3 case Stored(_, _) => 2
      case CommittingWrite(_, _, _) => 1 case _ => 0);
    var c := LostAdvance(Run(s1, b));
    RunConcat(s1, b, c);
    RunConcat(s, a, b + c);
    actions := a + (b + c);
  }

  /** The first overlap of a run happens in a state that is still consistent. */
  lemma {:induction false} FirstOverlapIsConsistent<T>(s: State<T>, actions: seq<Action<T>>) returns (k: nat)
    requires Inv(s) && !OverlapFree(s, actions)
    ensures k <= |actions| && Inv(Run(s, actions[..k])) && Overlap(Run(s, actions[..k]))
    decreases |actions|
  {
    if Overlap(s) {
      k := 0;
    } else {
      match actions[0] {
        case ReaderStep => ReadStepInv(s);
        case WriterStep(v) => WriteStepInv(s, v);
      }
      k := FirstOverlapIsConsistent(Next(s, actions[0]), actions[1..]);
      assert actions[..k + 1][1..] == actions[1..][..k];
      k := k + 1;
    }
  }

  /**
   Overlap-freedom is exactly what the accounting needs: an overlap-free run is accounted for, and
   any other run has a prefix that finishing the two calls in flight turns into an overcounted ring.
   */
  lemma OverlapFreeIsExact<T>(s: State<T>, actions: seq<Action<T>>) returns (k: nat, more: seq<Action<T>>)
    requires Initial(s) && |s.buf| >= 2
    ensures OverlapFree(s, actions) ==> Accounted(Run(s, actions)) && !Overcounted(Run(s, actions))
    ensures !OverlapFree(s, actions) ==> k <= |actions| && Overcounted(Run(s, actions[..k] + more))
  {
    InitialInv(s);
    k, more := 0, [];
    if OverlapFree(s, actions) {
      ConcurrentRefinement(s, actions);
    } else {
      k := FirstOverlapIsConsistent(s, actions);
      more := OverlapBreaksAccounting(Run(s, actions[..k]));
      RunConcat(s, actions[..k], more);
    }
  }

  // ---------- every interleaving, overlaps included ----------

  /** `len` stays below the capacity even when its two loads happen in different states. */
  lemma LenBounded<T>(s: State<T>, before: seq<Action<T>>, between: seq<Action<T>>)
    requires Initial(s)
    ensures var first, second := Run(s, before), Run(s, before + between);
      0 <= Distance(first.readIdx, second.writeIdx, |s.buf|) < |s.buf|
  {
    DistanceBounded(Run(s, before).readIdx, Run(s, before + between).writeIdx, |s.buf|);
  }

  /** A ring of capacity one, which `new` accepts, never yields a value in any interleaving. */
  lemma {:induction false} CapacityOneHoldsNothing<T>(s: State<T>, actions: seq<Action<T>>)
    requires InBounds(s) && |s.buf| == 1 && (s.reader.ReaderIdle? || s.reader.LoadedRead?) && s.taken == []
    ensures Run(s, actions).taken == []
    decreases |actions|
  {
    if actions != [] {
      CapacityOneHoldsNothing(Next(s, actions[0]), actions[1..]);
    }
  }
}
