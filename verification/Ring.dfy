/** The overwrite-oldest ring `RWRoundQueue`, used by one thread at a time. */
module Ring {
  import opened Wrappers
  import opened Arithmetic

  datatype NewError = ZeroCapacity | NotPowerOfTwo

  /** Slot that follows `current`, by mask: the capacity is a power of two. */
  function NextIndex(current: nat, capacity: nat): (next: nat)
    requires capacity > 0
    ensures IsPowerOfTwo(capacity) && current < capacity ==>
              next == if current + 1 == capacity then 0 else current + 1
  {
    assert IsPowerOfTwo(capacity) && current < capacity ==>
        BitAnd(current + 1, capacity - 1) == if current + 1 == capacity then 0 else current + 1 by {
      if IsPowerOfTwo(capacity) && current < capacity {
        MaskWraps(current, capacity);
      }
    }
    BitAnd(current + 1, capacity - 1)
  }

  lemma MaskWraps(current: nat, capacity: nat)
    requires IsPowerOfTwo(capacity) && current < capacity
    ensures BitAnd(current + 1, capacity - 1) == if current + 1 == capacity then 0 else current + 1
  {
    MaskIsModulus(current + 1, capacity);
    if current + 1 < capacity {
      DivModUnique(current + 1, 0, current + 1, capacity);
    } else {
      DivModUnique(current + 1, 1, 0, capacity);
    }
  }

  /** The mask wraps exactly as a modulus does and stays inside the buffer. */
  lemma NextIndexWraps(current: nat, capacity: nat)
    requires IsPowerOfTwo(capacity)
    ensures NextIndex(current, capacity) == (current + 1) % capacity < capacity
  {
    MaskIsModulus(current + 1, capacity);
  }

  /** Number of queued elements between a read index and a write index. */
  function Distance(readIdx: nat, writeIdx: nat, capacity: nat): int {
    if writeIdx >= readIdx then writeIdx - readIdx else capacity - readIdx + writeIdx
  }

  /** Whatever two in-range indices are loaded, even at different moments, `len` stays below the capacity. */
  lemma DistanceBounded(readIdx: nat, writeIdx: nat, capacity: nat)
    requires readIdx < capacity && writeIdx < capacity
    ensures 0 <= Distance(readIdx, writeIdx, capacity) < capacity
    ensures (readIdx + Distance(readIdx, writeIdx, capacity)) % capacity == writeIdx
  {
    var n := Distance(readIdx, writeIdx, capacity);
    if writeIdx >= readIdx {
      DivModUnique(readIdx + n, 0, writeIdx, capacity);
    } else {
      DivModUnique(readIdx + n, 1, writeIdx, capacity);
    }
  }

  /** The `n` slots from `start` onwards, in reading order. */
  function Lap<T>(buf: seq<T>, start: nat, n: nat): (s: seq<T>)
    requires |buf| > 0
    ensures |s| == n
    ensures forall i :: 0 <= i < n ==> s[i] == buf[(start + i) % |buf|]
  {
    seq(n, i requires 0 <= i => buf[(start + i) % |buf|])
  }

  lemma LapExtend<T>(buf: seq<T>, start: nat, n: nat, v: T)
    requires start < |buf| && n < |buf|
    ensures Lap(buf[(start + n) % |buf| := v], start, n + 1) == Lap(buf, start, n) + [v]
  {
    var w := (start + n) % |buf|;
    var old', new' := Lap(buf, start, n), Lap(buf[w := v], start, n + 1);
    forall i | 0 <= i < n
      ensures new'[i] == old'[i]
    {
      ModDistinct(start + i, start + n, |buf|);
    }
  }

  lemma LapAdvance<T>(buf: seq<T>, start: nat, n: nat)
    requires start < |buf| && n > 0
    ensures Lap(buf, (start + 1) % |buf|, n - 1) == Lap(buf, start, n)[1..]
  {
    var all, rest := Lap(buf, start, n), Lap(buf, (start + 1) % |buf|, n - 1);
    forall i | 0 <= i < n - 1
      ensures rest[i] == all[1..][i]
    {
      ShiftMod(start + 1, i, |buf|);
    }
  }

  /** The queued slots, oldest first. */
  function Window<T>(buf: seq<T>, readIdx: nat, writeIdx: nat): (s: seq<T>)
    requires readIdx < |buf| && writeIdx < |buf|
    ensures |s| == Distance(readIdx, writeIdx, |buf|) < |buf|
  {
    DistanceBounded(readIdx, writeIdx, |buf|);
    Lap(buf, readIdx, Distance(readIdx, writeIdx, |buf|))
  }

  /** Advancing the read index gives up exactly the oldest element. */
  lemma ReadAdvances<T>(buf: seq<T>, r: nat, w: nat)
    requires IsPowerOfTwo(|buf|) && r < |buf| && w < |buf| && r != w
    ensures Window(buf, NextIndex(r, |buf|), w) == Window(buf, r, w)[1..]
    ensures Window(buf, r, w)[0] == buf[r]
  {
    var n := Distance(r, w, |buf|);
    NextIndexWraps(r, |buf|);
    LapAdvance(buf, r, n);
    DivModUnique(r, 0, r, |buf|);
  }

  /** Advancing the write index adds exactly the element in the reserved slot. */
  lemma WriteAdvances<T>(buf: seq<T>, r: nat, w: nat)
    requires IsPowerOfTwo(|buf|) && r < |buf| && w < |buf|
    requires Distance(r, w, |buf|) < |buf| - 1
    ensures Window(buf, r, NextIndex(w, |buf|)) == Window(buf, r, w) + [buf[w]]
  {
    var n := Distance(r, w, |buf|);
    DistanceBounded(r, w, |buf|);
    NextIndexWraps(w, |buf|);
    LapExtend(buf, r, n, buf[w]);
    assert buf[w := buf[w]] == buf;
  }

  /** On a full ring both indices advance: the oldest element goes, the reserved slot comes in. */
  lemma OverwriteAdvances<T>(buf: seq<T>, r: nat, w: nat)
    requires IsPowerOfTwo(|buf|) && r < |buf| && w < |buf|
    requires Distance(r, w, |buf|) == |buf| - 1
    ensures Window(buf, NextIndex(r, |buf|), NextIndex(w, |buf|)) == (Window(buf, r, w) + [buf[w]])[1..]
  {
    var n := |buf| - 1;
    DistanceBounded(r, w, |buf|);
    NextIndexWraps(r, |buf|);
    NextIndexWraps(w, |buf|);
    assert (r + n) % |buf| == w;
    LapExtend(buf, r, n, buf[w]);
    assert buf[w := buf[w]] == buf;
    LapAdvance(buf, r, n + 1);
    var r', w' := NextIndex(r, |buf|), NextIndex(w, |buf|);
    assert Distance(r', w', |buf|) == n;
  }

  /** A write to the reserved slot is invisible until it is published. */
  lemma ReservedSlotHidden<T>(buf: seq<T>, r: nat, w: nat, v: T)
    requires r < |buf| && w < |buf|
    ensures Window(buf[w := v], r, w) == Window(buf, r, w)
  {
    var n := Distance(r, w, |buf|);
    DistanceBounded(r, w, |buf|);
    LapExtend(buf, r, n, v);
    assert Lap(buf[w := v], r, n) == Lap(buf[w := v], r, n + 1)[..n];
  }

  /** The full test compares the successor of the write index with the read index. */
  lemma FullTest(r: nat, w: nat, capacity: nat)
    requires IsPowerOfTwo(capacity) && r < capacity && w < capacity
    ensures NextIndex(w, capacity) == r <==> Distance(r, w, capacity) == capacity - 1
  {
    NextIndexWraps(w, capacity);
  }

  /** The last `n` elements of `s`, or all of them. */
  function Newest<T>(s: seq<T>, n: nat): seq<T> {
    if |s| <= n then s else s[|s| - n..]
  }

  function Min(a: nat, b: nat): nat {
    if a < b then a else b
  }

  class RoundQueue<T(0)> {
    const capacity: nat
    const buffer: array<T>
    var readIdx: nat
    var writeIdx: nat

    ghost predicate Valid()
      reads this
    {
      && IsPowerOfTwo(capacity)
      && buffer.Length == capacity
      && readIdx < capacity
      && writeIdx < capacity
    }

    /** Queued elements, oldest first. */
    ghost function Contents(): (s: seq<T>)
      reads this, buffer
      requires Valid()
      ensures |s| == Distance(readIdx, writeIdx, capacity) < capacity
    {
      Window(buffer[..], readIdx, writeIdx)
    }

    constructor Alloc(capacity: nat)
      requires IsPowerOfTwo(capacity)
      ensures Valid() && this.capacity == capacity && fresh(buffer)
      ensures Contents() == []
    {
      this.capacity := capacity;
      buffer := new T[capacity];
      readIdx, writeIdx := 0, 0;
    }

    static method New(capacity: nat) returns (r: Result<RoundQueue<T>, NewError>)
      ensures r.Ok? <==> IsPowerOfTwo(capacity)
      ensures r.Ok? ==> fresh(r.value) && fresh(r.value.buffer)
                        && r.value.Valid() && r.value.capacity == capacity && r.value.Contents() == []
      ensures r.Err? ==> (r.error.ZeroCapacity? <==> capacity == 0)
    {
      if capacity == 0 {
        return Err(ZeroCapacity);
      }
      if !IsPowerOfTwo(capacity) {
        return Err(NotPowerOfTwo);
      }
      var q := new RoundQueue.Alloc(capacity);
      return Ok(q);
    }

    method AcquireReadPtr() returns (slot: Option<nat>)
      requires Valid()
      ensures slot.None? <==> Contents() == []
      ensures slot.Some? ==> slot.value < capacity && buffer[slot.value] == Contents()[0]
    {
      if readIdx == writeIdx {
        return None;
      }
      ReadAdvances(buffer[..], readIdx, writeIdx);
      return Some(readIdx);
    }

    method CommitRead()
      requires Valid()
      modifies `readIdx
      ensures Valid()
      ensures readIdx == NextIndex(old(readIdx), capacity)
      ensures old(Contents()) != [] ==> Contents() == old(Contents())[1..]
    {
      NextIndexWraps(readIdx, capacity);
      if readIdx != writeIdx {
        ReadAdvances(buffer[..], readIdx, writeIdx);
      }
      readIdx := NextIndex(readIdx, capacity);
    }

    method AcquireWritePtr() returns (slot: nat, wasFull: bool)
      requires Valid()
      ensures slot == writeIdx
      ensures wasFull <==> |Contents()| == capacity - 1
    {
      FullTest(readIdx, writeIdx, capacity);
      slot := writeIdx;
      wasFull := NextIndex(writeIdx, capacity) == readIdx;
    }

    /** Publishes the slot at `writeIdx`; when `wasFull`, gives up the oldest element first. */
    method CommitWrite(wasFull: bool)
      requires Valid()
      requires wasFull <==> |Contents()| == capacity - 1
      modifies `readIdx, `writeIdx
      ensures Valid()
      ensures Contents() == Newest(old(Contents() + [buffer[writeIdx]]), capacity - 1)
    {
      NextIndexWraps(writeIdx, capacity);
      NextIndexWraps(readIdx, capacity);
      var nextWrite := NextIndex(writeIdx, capacity);
      if wasFull {
        OverwriteAdvances(buffer[..], readIdx, writeIdx);
        readIdx := NextIndex(readIdx, capacity);
      } else {
        WriteAdvances(buffer[..], readIdx, writeIdx);
      }
      writeIdx := nextWrite;
    }

    method Len() returns (n: nat)
      requires Valid()
      ensures n == |Contents()|
    {
      DistanceBounded(readIdx, writeIdx, capacity);
      n := if writeIdx >= readIdx then writeIdx - readIdx else capacity - readIdx + writeIdx;
    }

    method TryRead() returns (r: Option<T>)
      requires Valid()
      modifies `readIdx
      ensures Valid()
      ensures r.None? <==> old(Contents()) == []
      ensures r.Some? ==> [r.value] + Contents() == old(Contents())
      ensures r.None? ==> Contents() == []
    {
      var slot := AcquireReadPtr();
      if slot.None? {
        return None;
      }
      var value := buffer[slot.value];
      CommitRead();
      return Some(value);
    }

    /** Keeps the newest `capacity - 1` elements; the flag says that one had to go. */
    method WriteOverwrite(value: T) returns (wasFull: bool)
      requires Valid()
      modifies this`readIdx, this`writeIdx, buffer
      ensures Valid()
      ensures Contents() == Newest(old(Contents()) + [value], capacity - 1)
      ensures wasFull <==> |old(Contents()) + [value]| > capacity - 1
    {
      var slot;
      slot, wasFull := AcquireWritePtr();
      ReservedSlotHidden(buffer[..], readIdx, writeIdx, value);
      ghost var updated := buffer[..][slot := value];
      buffer[slot] := value;
      assert buffer[..] == updated;
      CommitWrite(wasFull);
    }

    /** Up to `max` reads, stopping at the first empty one. */
    method ReadBatch(max: nat) returns (result: seq<T>)
      requires Valid()
      modifies `readIdx
      ensures Valid()
      ensures result == old(Contents())[..Min(max, |old(Contents())|)]
      ensures result + Contents() == old(Contents())
    {
      result := [];
      for i := 0 to max
        invariant Valid() && |result| == i
        invariant result + Contents() == old(Contents())
      {
        var item := TryRead();
        if item.None? {
          break;
        }
        result := result + [item.value];
      }
    }
  }
}
