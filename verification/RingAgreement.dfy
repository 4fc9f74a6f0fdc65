/** The two accounts of the ring agree: calls made of uninterrupted loads and stores do what `RingRuns` says. */
module RingAgreement {
  import opened Arithmetic
  import opened Ring
  import opened Ledger
  import opened RingConcurrent
  import RingRuns

  /** Both threads are between calls, and the state holds what the trace says. */
  ghost predicate Represents<T>(s: State<T>, t: RingRuns.Trace<T>) {
    && InBounds(s) && s.reader == ReaderIdle && s.writer == WriterIdle
    && Window(s.buf, s.readIdx, s.writeIdx) == Cells(t.contents)
    && s.written == t.written && s.taken == Cells(t.taken) && Trues(s.flags) == t.flagged
  }

  ghost predicate Reaches<T(!new)>(s: State<T>, t: State<T>) {
    InBounds(s) && exists actions :: Run(s, actions) == t
  }

  lemma ReachesSelf<T(!new)>(s: State<T>)
    requires InBounds(s)
    ensures Reaches(s, s)
  {
    assert Run(s, []) == s;
  }

  lemma ReachesOn<T(!new)>(s: State<T>, t: State<T>, u: State<T>)
    requires Reaches(s, t) && Reaches(t, u)
    ensures Reaches(s, u)
  {
    hide Run, InBounds;
    var a :| Run(s, a) == t;
    var b :| Run(t, b) == u;
    RunConcat(s, a, b);
  }

  lemma Then<T(!new)>(s: State<T>, t: State<T>, a: Action<T>) returns (u: State<T>)
    requires Reaches(s, t) && InBounds(t)
    ensures Reaches(s, u) && InBounds(u) && u == Next(t, a)
  {
    u := Next(t, a);
    assert Run(u, []) == u;
    assert [a][1..] == [];
    assert Run(t, [a]) == u;
    ReachesOn(s, t, u);
  }

  // ---------- a write ----------

  /** From the load of the write index to the stored value. */
  lemma StoreValue<T(!new)>(s: State<T>, v: T) returns (t: State<T>)
    requires InBounds(s) && s.writer == WriterIdle
    ensures Reaches(s, t) && InBounds(t)
    ensures t == s.(buf := s.buf[s.writeIdx := Full(v)],
                    writer := Stored(v, NextIndex(s.writeIdx, |s.buf|) == s.readIdx))
  {
    ReachesSelf(s);
    hide Reaches, InBounds;
    assert s.writeIdx < |s.buf| by { IndicesInBounds(s); }
    t := Then(s, s, WriterStep(v));
    t := Then(s, t, WriterStep(v));
    t := Then(s, t, WriterStep(v));
    t := Then(s, t, WriterStep(v));
    assert t.buf == s.buf[s.writeIdx := Full(v)];
  }

  lemma IndicesInBounds<T>(s: State<T>)
    requires InBounds(s)
    ensures s.writeIdx < |s.buf| && s.readIdx < |s.buf| && IsPowerOfTwo(|s.buf|)
  {
  }

  /** The commit of a write that found the ring full, or not. */
  lemma Commit<T(!new)>(s: State<T>, v: T, full: bool) returns (t: State<T>)
    requires InBounds(s) && s.writer == Stored(v, full)
    ensures Reaches(s, t) && InBounds(t) && |t.buf| == |s.buf|
    ensures t == s.(writer := WriterIdle, written := s.written + [v], flags := s.flags + [full],
                    writeIdx := NextIndex(s.writeIdx, |s.buf|),
                    readIdx := if full then NextIndex(s.readIdx, |s.buf|) else s.readIdx,
                    fates := if full then s.fates + [Overwritten] else s.fates)
  {
    ReachesSelf(s);
    hide Reaches, InBounds;
    assert |s.buf| > 0 by { IndicesInBounds(s); }
    hide NextIndex;
    t := Then(s, s, WriterStep(v));
    t := Then(s, t, WriterStep(v));
    if full {
      t := Then(s, t, WriterStep(v));
    }
    t := Then(s, t, WriterStep(v));
  }

  lemma NewestCells<T>(xs: seq<T>, v: T, n: nat)
    ensures Cells(Newest(xs + [v], n)) == Newest(Cells(xs) + [Full(v)], n)
  {
  }

  /** What a write does to the window, found full or not. */
  lemma WriteWindow<T>(buf: seq<T>, r: nat, w: nat, v: T)
    requires IsPowerOfTwo(|buf|) && r < |buf| && w < |buf|
    ensures var full, buf', w' := NextIndex(w, |buf|) == r, buf[w := v], NextIndex(w, |buf|);
      && w' < |buf| && NextIndex(r, |buf|) < |buf|
      && (full <==> |Window(buf, r, w) + [v]| > |buf| - 1)
      && Window(buf', if full then NextIndex(r, |buf|) else r, w') == Newest(Window(buf, r, w) + [v], |buf| - 1)
  {
    NextIndexWraps(w, |buf|);
    NextIndexWraps(r, |buf|);
    FullTest(r, w, |buf|);
    DistanceBounded(r, w, |buf|);
    ReservedSlotHidden(buf, r, w, v);
    hide Window, NextIndex;
    if NextIndex(w, |buf|) == r {
      OverwriteAdvances(buf[w := v], r, w);
    } else {
      WriteAdvances(buf[w := v], r, w);
    }
  }

  /** An uninterrupted write, as a whole. */
  lemma WriteRuns<T(!new)>(s: State<T>, v: T, full: bool) returns (t: State<T>)
    requires InBounds(s) && s.writer == WriterIdle && full == (NextIndex(s.writeIdx, |s.buf|) == s.readIdx)
    ensures Reaches(s, t) && InBounds(t) && |t.buf| == |s.buf| > 0 && t.reader == s.reader && t.writer == WriterIdle
    ensures t.buf == s.buf[s.writeIdx := Full(v)] && t.writeIdx == NextIndex(s.writeIdx, |s.buf|)
    ensures t.readIdx == if full then NextIndex(s.readIdx, |s.buf|) else s.readIdx
    ensures t.written == s.written + [v] && t.flags == s.flags + [full] && t.taken == s.taken
  {
    IndicesInBounds(s);
    var u := StoreValue(s, v);
    hide InBounds, NextIndex, Reaches;
    t := Commit(u, v, full);
    ReachesOn(s, u, t);
  }

  lemma WindowIs<T>(s: State<T>, tr: RingRuns.Trace<T>)
    requires Represents(s, tr)
    ensures s.writeIdx < |s.buf| && s.readIdx < |s.buf| && IsPowerOfTwo(|s.buf|)
    ensures Window(s.buf, s.readIdx, s.writeIdx) == Cells(tr.contents) && Trues(s.flags) == tr.flagged
    ensures InBounds(s) && s.written == tr.written && s.taken == Cells(tr.taken)
    ensures s.reader == ReaderIdle && s.writer == WriterIdle
  {
  }

  lemma IsRepresented<T>(s: State<T>, tr: RingRuns.Trace<T>)
    requires InBounds(s) && s.reader == ReaderIdle && s.writer == WriterIdle
    requires Window(s.buf, s.readIdx, s.writeIdx) == Cells(tr.contents) && Trues(s.flags) == tr.flagged
    requires s.written == tr.written && s.taken == Cells(tr.taken)
    ensures Represents(s, tr)
  {
  }

  /** The trace after a write, put together. */
  lemma StepOfWrite<T>(tr: RingRuns.Trace<T>, v: T, capacity: nat, full: bool)
    requires capacity > 0 && (full <==> |tr.contents + [v]| > capacity - 1)
    ensures RingRuns.Step(tr, RingRuns.Write(v), capacity)
         == RingRuns.Trace(Newest(tr.contents + [v], capacity - 1), tr.written + [v], tr.taken,
                           tr.flagged + if full then 1 else 0)
  {
  }

  /** An uninterrupted write does what the sequential account says, flag included. */
  lemma WriteAgrees<T(!new)>(s: State<T>, tr: RingRuns.Trace<T>, v: T) returns (t: State<T>)
    requires Represents(s, tr)
    ensures Reaches(s, t) && |t.buf| == |s.buf| > 0
    ensures Represents(t, RingRuns.Step(tr, RingRuns.Write(v), |s.buf|))
  {
    WindowIs(s, tr);
    hide *;
    WriteWindow(s.buf, s.readIdx, s.writeIdx, Full(v));
    var full := NextIndex(s.writeIdx, |s.buf|) == s.readIdx;
    t := WriteRuns(s, v, full);
    NewestCells(tr.contents, v, |s.buf| - 1);
    TruesExtend(s.flags, full);
    StepOfWrite(tr, v, |s.buf|, full);
    IsRepresented(t, RingRuns.Step(tr, RingRuns.Write(v), |s.buf|));
  }

  // ---------- a read ----------

  lemma LoadHead<T(!new)>(s: State<T>) returns (t: State<T>)
    requires InBounds(s) && s.reader == ReaderIdle
    ensures Reaches(s, t) && InBounds(t)
    ensures t == if s.readIdx == s.writeIdx then s else s.(reader := HasValue(s.buf[s.readIdx]))
  {
    ReachesSelf(s);
    hide Reaches, InBounds;
    assert s.readIdx < |s.buf| by { IndicesInBounds(s); }
    t := Then(s, s, ReaderStep);
    t := Then(s, t, ReaderStep);
    if s.readIdx != s.writeIdx {
      t := Then(s, t, ReaderStep);
    }
  }

  lemma CommitHead<T(!new)>(s: State<T>, cell: Cell<T>) returns (t: State<T>)
    requires InBounds(s) && s.reader == HasValue(cell)
    ensures Reaches(s, t) && InBounds(t) && |t.buf| == |s.buf| > 0
    ensures t == s.(reader := ReaderIdle, readIdx := NextIndex(s.readIdx, |s.buf|),
                    taken := s.taken + [cell], fates := s.fates + [Read])
  {
    ReachesSelf(s);
    assert |s.buf| > 0 by { IndicesInBounds(s); }
    hide Reaches, InBounds, NextIndex;
    t := Then(s, s, ReaderStep);
    t := Then(s, t, ReaderStep);
  }

  /** What a read does to the window. */
  lemma ReadWindow<T>(buf: seq<Cell<T>>, r: nat, w: nat, contents: seq<T>)
    requires IsPowerOfTwo(|buf|) && r < |buf| && w < |buf| && Window(buf, r, w) == Cells(contents)
    ensures NextIndex(r, |buf|) < |buf|
    ensures r == w <==> contents == []
    ensures r != w ==>
              buf[r] == Full(contents[0]) && Window(buf, NextIndex(r, |buf|), w) == Cells(contents[1..])
  {
    NextIndexWraps(r, |buf|);
    DistanceBounded(r, w, |buf|);
    if r == w {
      assert |Window(buf, r, w)| == 0;
    } else {
      assert |Window(buf, r, w)| > 0;
      ReadAdvances(buf, r, w);
      hide Window, NextIndex;
      assert Cells(contents)[1..] == Cells(contents[1..]);
    }
  }

  /** An uninterrupted read of a ring that is not empty, as a whole. */
  lemma ReadRuns<T(!new)>(s: State<T>) returns (t: State<T>)
    requires InBounds(s) && s.reader == ReaderIdle && s.readIdx != s.writeIdx
    ensures s.readIdx < |s.buf|
    ensures Reaches(s, t) && InBounds(t) && t.buf == s.buf && |s.buf| > 0
    ensures t.reader == ReaderIdle && t.writer == s.writer
    ensures t.readIdx == NextIndex(s.readIdx, |s.buf|) && t.writeIdx == s.writeIdx
    ensures t.written == s.written && t.flags == s.flags && t.taken == s.taken + [s.buf[s.readIdx]]
  {
    IndicesInBounds(s);
    var u := LoadHead(s);
    hide InBounds, NextIndex, Reaches;
    t := CommitHead(u, s.buf[s.readIdx]);
    ReachesOn(s, u, t);
  }

  lemma TakingOne<T>(tr: RingRuns.Trace<T>)
    ensures tr.contents == [] ==> RingRuns.Taking(tr, 1) == tr
    ensures tr.contents != [] ==>
              RingRuns.Taking(tr, 1) ==
              RingRuns.Trace(tr.contents[1..], tr.written, tr.taken + [tr.contents[0]], tr.flagged)
  {
    if tr.contents != [] {
      RingRuns.TakeOneMore(tr, 1);
    }
  }

  /** An uninterrupted read takes the oldest value, or nothing exactly when there is nothing. */
  lemma ReadAgrees<T(!new)>(s: State<T>, tr: RingRuns.Trace<T>) returns (t: State<T>)
    requires Represents(s, tr)
    ensures Reaches(s, t) && |t.buf| == |s.buf| > 0
    ensures Represents(t, RingRuns.Taking(tr, 1))
  {
    WindowIs(s, tr);
    hide *;
    ReadWindow(s.buf, s.readIdx, s.writeIdx, tr.contents);
    TakingOne(tr);
    if s.readIdx == s.writeIdx {
      t := LoadHead(s);
    } else {
      t := ReadRuns(s);
      assert Cells(tr.taken + [tr.contents[0]]) == Cells(tr.taken) + [Full(tr.contents[0])];
      IsRepresented(t, RingRuns.Taking(tr, 1));
    }
  }

  // ---------- whole call sequences ----------

  lemma {:induction false} BatchAgrees<T(!new)>(s: State<T>, tr: RingRuns.Trace<T>, max: nat) returns (t: State<T>)
    requires Represents(s, tr)
    ensures Reaches(s, t) && |t.buf| == |s.buf| > 0
    ensures Represents(t, RingRuns.Taking(tr, max))
    decreases max
  {
    if max == 0 || tr.contents == [] {
      ReachesSelf(s);
      IndicesInBounds(s);
      t := s;
      assert RingRuns.Taking(tr, max) == tr;
    } else {
      var u := ReadAgrees(s, tr);
      hide Represents, RingRuns.Taking, Reaches;
      t := BatchAgrees(u, RingRuns.Taking(tr, 1), max - 1);
      RingRuns.TakeOneMore(tr, max);
      ReachesOn(s, u, t);
    }
  }

  lemma CallAgrees<T(!new)>(s: State<T>, tr: RingRuns.Trace<T>, call: RingRuns.Call<T>) returns (t: State<T>)
    requires Represents(s, tr)
    ensures Reaches(s, t) && |t.buf| == |s.buf| > 0
    ensures Represents(t, RingRuns.Step(tr, call, |s.buf|))
  {
    match call
    case Write(v) => t := WriteAgrees(s, tr, v);
    case TryRead => t := BatchAgrees(s, tr, 1);
    case ReadBatch(max) => t := BatchAgrees(s, tr, max);
  }

  /**
   For every capacity, one included, and every sequence of calls there is a run of single loads and stores,
   one call after the other, that ends with the contents, writes, reads and flags of the replay.
   */
  lemma {:induction false} ReplayIsARun<T(!new)>(s: State<T>, calls: seq<RingRuns.Call<T>>) returns (t: State<T>)
    requires Initial(s)
    ensures Reaches(s, t) && |t.buf| == |s.buf| > 0 && Represents(t, RingRuns.Replay(calls, |s.buf|))
    decreases |calls|
  {
    if calls == [] {
      ReachesSelf(s);
      t := s;
    } else {
      var n := |calls| - 1;
      var u := ReplayIsARun(s, calls[..n]);
      hide Represents, Reaches, RingRuns.Step;
      t := CallAgrees(u, RingRuns.Replay(calls[..n], |s.buf|), calls[n]);
      ReachesOn(s, u, t);
    }
  }
}
