/** The `/api/latest` selection: a bounded heap in place of a full sort. */
module LatestFrames {
  import opened Models
  import opened FrameOrder

  const MAX_LATEST_FRAMES: nat := 10

  /** The reference: newest first, then the first ten. */
  function NewestNaive(frames: seq<Frame>): seq<Frame> {
    var v := Sort(frames, false);
    if |v| <= MAX_LATEST_FRAMES then v else v[..MAX_LATEST_FRAMES]
  }

  /** `f` is less recent than `g`: its window ends earlier, or at the same time with a smaller id. */
  predicate Older(f: Frame, g: Frame) {
    f.windowEnd < g.windowEnd || (f.windowEnd == g.windowEnd && f.frameId < g.frameId)
  }

  /** `out` is ten of `frames`, or all if fewer, newest first; no frame left out is newer than one in it. */
  ghost predicate IsNewestTen(frames: seq<Frame>, out: seq<Frame>) {
    && |out| == (if |frames| < 10 then |frames| else 10)
    && multiset(out) <= multiset(frames)
    && (forall i, j :: 0 <= i < j < |out| ==> !Older(out[i], out[j]))
    && (forall x, y :: x in multiset(frames) - multiset(out) && y in out ==> !Older(y, x))
  }

  /** The frames at the indices in `chosen`, in input order. */
  ghost function At(frames: seq<Frame>, chosen: set<nat>): seq<Frame> {
    if frames == [] then []
    else
      var n := |frames| - 1;
      At(frames[..n], chosen) + if n in chosen then [frames[n]] else []
  }

  /** All positions smaller than `n`. */
  ghost function Below(n: nat): (positions: set<nat>)
    ensures forall i: nat :: i in positions <==> i < n
    ensures |positions| == n
  {
    if n == 0 then {} else Below(n - 1) + {n - 1}
  }

  lemma {:induction false} AtIgnores(frames: seq<Frame>, a: set<nat>, b: set<nat>)
    requires forall i: nat :: i < |frames| ==> (i in a <==> i in b)
    ensures At(frames, a) == At(frames, b)
  {
    if frames != [] {
      AtIgnores(frames[..|frames| - 1], a, b);
    }
  }

  lemma {:induction false} AtRemove(frames: seq<Frame>, chosen: set<nat>, c: nat)
    requires c in chosen && c < |frames|
    ensures multiset(At(frames, chosen)) == multiset(At(frames, chosen - {c})) + multiset{frames[c]}
  {
    var n := |frames| - 1;
    if c == n {
      AtIgnores(frames[..n], chosen, chosen - {c});
    } else {
      AtRemove(frames[..n], chosen, c);
    }
  }

  lemma {:induction false} AtContents(frames: seq<Frame>, chosen: set<nat>)
    ensures forall f :: f in At(frames, chosen) ==> exists i :: i in chosen && 0 <= i < |frames| && frames[i] == f
  {
    if frames != [] {
      var n := |frames| - 1;
      AtContents(frames[..n], chosen);
      forall f | f in At(frames, chosen)
        ensures exists i :: i in chosen && 0 <= i < |frames| && frames[i] == f
      {
        if f in At(frames[..n], chosen) {
          var i :| i in chosen && 0 <= i < n && frames[..n][i] == f;
          assert frames[i] == f;
        }
      }
    }
  }

  // ---------- keys of permuted frames ----------

  ghost function KeyBag(s: seq<Frame>): multiset<Key> {
    multiset(KeysOf(s))
  }

  lemma KeyBagAppend(s: seq<Frame>, f: Frame)
    ensures KeyBag(s + [f]) == KeyBag(s) + multiset{KeyOf(f)}
  {
    assert KeysOf(s + [f]) == KeysOf(s) + [KeyOf(f)];
  }

  lemma AtKeys(frames: seq<Frame>, chosen: set<nat>)
    requires frames != []
    ensures KeyBag(At(frames, chosen)) ==
            KeyBag(At(frames[..|frames| - 1], chosen)) +
            if |frames| - 1 in chosen then multiset{KeyOf(frames[|frames| - 1])} else multiset{}
  {
    var n := |frames| - 1;
    hide KeyBag;
    if n in chosen {
      KeyBagAppend(At(frames[..n], chosen), frames[n]);
    } else {
      assert At(frames, chosen) == At(frames[..n], chosen) + [] == At(frames[..n], chosen);
    }
  }

  lemma {:induction false} AtRemoveKeys(frames: seq<Frame>, chosen: set<nat>, c: nat)
    requires c in chosen && c < |frames|
    ensures KeyBag(At(frames, chosen)) == KeyBag(At(frames, chosen - {c})) + multiset{KeyOf(frames[c])}
  {
    hide KeyBag;
    var n := |frames| - 1;
    if c == n {
      AtIgnores(frames[..n], chosen, chosen - {c});
      AtKeys(frames, chosen);
      AtKeys(frames, chosen - {c});
    } else {
      AtRemoveKeys(frames[..n], chosen, c);
      AtKeys(frames, chosen);
      AtKeys(frames, chosen - {c});
    }
  }

  /** Chosen and unchosen frames make up the whole list, as far as keys go. */
  lemma {:induction false} SplitKeys(frames: seq<Frame>, chosen: set<nat>, others: set<nat>)
    requires forall i: nat :: i < |frames| ==> (i in chosen <==> i !in others)
    ensures KeyBag(frames) == KeyBag(At(frames, chosen)) + KeyBag(At(frames, others))
  {
    if frames == [] {
      assert KeysOf(frames) == [];
    } else {
      var n := |frames| - 1;
      hide KeyBag;
      SplitKeys(frames[..n], chosen, others);
      KeyBagAppend(frames[..n], frames[n]);
      assert frames == frames[..n] + [frames[n]];
      AtKeys(frames, chosen);
      AtKeys(frames, others);
    }
  }

  lemma SortedConcat(a: seq<Key>, b: seq<Key>)
    requires Sorted(a, false) && Sorted(b, false) && forall x, y :: x in a && y in b ==> !Before(x, y)
    ensures Sorted(a + b, false)
  {
    var all := a + b;
    forall i, j | 0 <= i < j < |all|
      ensures !Before(all[i], all[j])
    {
      if i < |a| <= j {
        assert all[i] in a && all[j] in b;
      }
    }
  }

  /** If nothing left out is newer than anything picked, sorting what was picked starts the full sort. */
  lemma PickedStartsSort(frames: seq<Frame>, picked: seq<Frame>, rest: seq<Frame>)
    requires KeyBag(frames) == KeyBag(picked) + KeyBag(rest)
    requires forall x, y :: x in picked && y in rest ==> !Before(KeyOf(x), KeyOf(y))
    ensures KeysOf(Sort(picked, false)) <= KeysOf(Sort(frames, false))
  {
    var a, b := KeysOf(Sort(picked, false)), KeysOf(Sort(rest, false));
    SortSorts(picked, false);
    SortSorts(rest, false);
    SortSorts(frames, false);
    hide Sort, Sorted;
    forall x, y | x in a && y in b
      ensures !Before(x, y)
    {
      SortedKeyComesFrom(picked, x);
      SortedKeyComesFrom(rest, y);
    }
    SortedConcat(a, b);
    SortedKeysUnique(a + b, KeysOf(Sort(frames, false)), false);
  }

  lemma SortedKeyComesFrom(s: seq<Frame>, k: Key)
    requires k in KeysOf(Sort(s, false))
    ensures exists f :: f in s && KeyOf(f) == k
  {
    SortSorts(s, false);
    hide Sort, Sorted;
    var i :| 0 <= i < |KeysOf(Sort(s, false))| && KeysOf(Sort(s, false))[i] == k;
    var f := Sort(s, false)[i];
    assert f in multiset(Sort(s, false));
    assert f in s && KeyOf(f) == k;
  }

  // ---------- the heap ----------

  /** Min-heap order on entries (window end, id, position): `Reverse` turns the max-heap over. */
  predicate HeapLess(frames: seq<Frame>, i: nat, j: nat)
    requires i < |frames| && j < |frames|
  {
    Before(KeyOf(frames[i]), KeyOf(frames[j])) || (KeyOf(frames[i]) == KeyOf(frames[j]) && i < j)
  }

  predicate IsTop(frames: seq<Frame>, heap: set<nat>, top: nat)
    requires forall i :: i in heap ==> i < |frames|
  {
    top in heap && forall i :: i in heap ==> !HeapLess(frames, i, top)
  }

  lemma {:induction false} TopExists(frames: seq<Frame>, heap: set<nat>) returns (top: nat)
    requires heap != {} && forall i :: i in heap ==> i < |frames|
    ensures IsTop(frames, heap, top)
    decreases |heap|
  {
    top :| top in heap;
    if heap != {top} {
      var rest := heap - {top};
      var other := TopExists(frames, rest);
      assert forall i :: i in heap ==> i == top || i in rest;
      if HeapLess(frames, other, top) {
        top := other;
      }
    }
  }

  /** The heap keeps positions seen so far, as many as fit; nothing passed over is newer than anything kept. */
  ghost predicate HeapKeeps(frames: seq<Frame>, heap: set<nat>, seen: nat) {
    && seen <= |frames|
    && (forall i :: i in heap ==> i < seen)
    && (if seen <= MAX_LATEST_FRAMES then heap == Below(seen) else |heap| == MAX_LATEST_FRAMES)
    && (forall i, j :: i in heap && 0 <= j < seen && j !in heap ==> !Before(KeyOf(frames[i]), KeyOf(frames[j])))
  }

  lemma HeapFills(frames: seq<Frame>, heap: set<nat>, i: nat)
    requires HeapKeeps(frames, heap, i) && i < |frames| && |heap| < MAX_LATEST_FRAMES
    ensures HeapKeeps(frames, heap + {i}, i + 1)
  {
    assert Below(i + 1) == Below(i) + {i};
  }

  lemma HeapTurns(frames: seq<Frame>, heap: set<nat>, i: nat, top: nat)
    requires HeapKeeps(frames, heap, i) && i < |frames| && |heap| == MAX_LATEST_FRAMES && IsTop(frames, heap, top)
    ensures Before(KeyOf(frames[top]), KeyOf(frames[i])) ==> HeapKeeps(frames, heap - {top} + {i}, i + 1)
    ensures !Before(KeyOf(frames[top]), KeyOf(frames[i])) ==> HeapKeeps(frames, heap, i + 1)
  {
    hide Below;
    var heap' := heap - {top} + {i};
    assert |heap'| == |heap|;
    assert forall j :: j in heap ==> !Before(KeyOf(frames[j]), KeyOf(frames[top]));
  }

  /** Up to ten newest frames, newest first, without sorting the whole list when it is long. */
  method NewestFramesBounded(frames: seq<Frame>) returns (out: seq<Frame>)
    ensures KeysOf(out) == KeysOf(NewestNaive(frames))
    ensures multiset(out) <= multiset(frames)
    ensures UniqueKeys(frames) ==> out == NewestNaive(frames)
    ensures |out| == if |frames| < 10 then |frames| else 10
    ensures forall i, j :: 0 <= i < j < |out| ==>
              out[i].windowEnd > out[j].windowEnd
              || (out[i].windowEnd == out[j].windowEnd && out[i].frameId >= out[j].frameId)
    ensures IsNewestTen(frames, out)
  {
    if frames == [] {
      return [];
    }
    if |frames| <= MAX_LATEST_FRAMES {
      SortedDescends(frames);
      SortSorts(frames, false);
      return Sort(frames, false);
    }
    var heap := FillHeap(frames);
    hide *;
    HeapBounds(frames, heap, |frames|);
    var picked := Drain(frames, heap);
    out := Sort(picked, false);
    HeapIsTopTen(frames, heap, picked);
    HeapIsNewestTen(frames, heap, picked);
    NewestTenParts(frames, out);
  }

  /** One pass: fill the heap, then let each newer frame turn out the oldest one kept. */
  method FillHeap(frames: seq<Frame>) returns (heap: set<nat>)
    ensures HeapKeeps(frames, heap, |frames|)
  {
    heap := {};
    EmptyHeap(frames);
    hide *;
    for i := 0 to |frames|
      invariant HeapKeeps(frames, heap, i)
    {
      HeapBounds(frames, heap, i);
      if |heap| < MAX_LATEST_FRAMES {
        HeapFills(frames, heap, i);
        heap := heap + {i};
      } else {
        var top := Peek(frames, heap);
        HeapTurns(frames, heap, i, top);
        if Before(KeyOf(frames[top]), KeyOf(frames[i])) {
          heap := heap - {top} + {i};
        }
      }
    }
  }

  /** The entry a min-heap has on top. */
  method Peek(frames: seq<Frame>, heap: set<nat>) returns (top: nat)
    requires heap != {} && forall i :: i in heap ==> i < |frames|
    ensures IsTop(frames, heap, top)
  {
    var found := TopExists(frames, heap);
    top :| top < |frames| && IsTop(frames, heap, top);
  }

  lemma EmptyHeap(frames: seq<Frame>)
    ensures HeapKeeps(frames, {}, 0)
  {
  }

  lemma HeapBounds(frames: seq<Frame>, heap: set<nat>, seen: nat)
    requires HeapKeeps(frames, heap, seen)
    ensures seen <= |frames| && |heap| <= MAX_LATEST_FRAMES && forall i :: i in heap ==> i < |frames|
    ensures seen >= MAX_LATEST_FRAMES ==> |heap| == MAX_LATEST_FRAMES
    ensures |heap| >= MAX_LATEST_FRAMES ==> heap != {}
  {
  }

  /** `into_iter`: the heap's frames in no particular order. */
  method Drain(frames: seq<Frame>, heap: set<nat>) returns (picked: seq<Frame>)
    requires forall i :: i in heap ==> i < |frames|
    ensures |picked| == |heap|
    ensures multiset(picked) == multiset(At(frames, heap))
    ensures KeyBag(picked) == KeyBag(At(frames, heap))
  {
    hide KeyBag, At;
    var left := heap;
    picked := [];
    NothingAt(frames);
    while left != {}
      invariant left <= heap && |picked| + |left| == |heap|
      invariant multiset(picked) + multiset(At(frames, left)) == multiset(At(frames, heap))
      invariant KeyBag(picked) + KeyBag(At(frames, left)) == KeyBag(At(frames, heap))
      decreases |left|
    {
      var i :| i in left;
      AtRemove(frames, left, i);
      AtRemoveKeys(frames, left, i);
      KeyBagAppend(picked, frames[i]);
      picked := picked + [frames[i]];
      left := left - {i};
    }
  }

  lemma {:induction false} NothingAt(frames: seq<Frame>)
    ensures At(frames, {}) == [] && KeyBag([]) == multiset{}
  {
    if frames == [] {
      assert KeysOf(frames) == [];
    } else {
      NothingAt(frames[..|frames| - 1]);
    }
  }

  /** What the heap passes over at the end is no newer than what it kept. */
  lemma PickedAreNewest(frames: seq<Frame>, heap: set<nat>, x: Frame, y: Frame)
    requires HeapKeeps(frames, heap, |frames|)
    requires x in At(frames, heap) && y in At(frames, Below(|frames|) - heap)
    ensures !Before(KeyOf(x), KeyOf(y))
  {
    AtContents(frames, heap);
    AtContents(frames, Below(|frames|) - heap);
    hide At, Before;
  }

  /** What the heap holds at the end, sorted, has the keys of the reference answer. */
  lemma HeapKeysAreTopTen(frames: seq<Frame>, heap: set<nat>, picked: seq<Frame>)
    requires HeapKeeps(frames, heap, |frames|) && |frames| > MAX_LATEST_FRAMES
    requires multiset(picked) == multiset(At(frames, heap)) && KeyBag(picked) == KeyBag(At(frames, heap))
    requires |picked| == |heap|
    ensures KeysOf(Sort(picked, false)) == KeysOf(NewestNaive(frames))
  {
    hide HeapKeeps, KeyBag, At, Sort, Sorted, Before, NewestNaive;
    var others := Below(|frames|) - heap;
    var rest := At(frames, others);
    SplitKeys(frames, heap, others);
    forall x, y | x in picked && y in rest
      ensures !Before(KeyOf(x), KeyOf(y))
    {
      assert x in multiset(picked) && x in multiset(At(frames, heap));
      PickedAreNewest(frames, heap, x, y);
    }
    PickedStartsSort(frames, picked, rest);
    HeapBounds(frames, heap, |frames|);
    NaiveKeys(frames);
  }

  lemma NaiveKeys(frames: seq<Frame>)
    requires |frames| > MAX_LATEST_FRAMES
    ensures KeysOf(NewestNaive(frames)) == KeysOf(Sort(frames, false))[..MAX_LATEST_FRAMES]
  {
    hide Sort;
  }

  lemma HeapIsTopTen(frames: seq<Frame>, heap: set<nat>, picked: seq<Frame>)
    requires HeapKeeps(frames, heap, |frames|) && |frames| > MAX_LATEST_FRAMES
    requires multiset(picked) == multiset(At(frames, heap)) && KeyBag(picked) == KeyBag(At(frames, heap))
    requires |picked| == |heap|
    ensures KeysOf(Sort(picked, false)) == KeysOf(NewestNaive(frames))
    ensures multiset(Sort(picked, false)) <= multiset(frames)
    ensures UniqueKeys(frames) ==> Sort(picked, false) == NewestNaive(frames)
  {
    HeapKeysAreTopTen(frames, heap, picked);
    PickedIsPart(frames, heap);
    SortSorts(picked, false);
    hide *;
    if UniqueKeys(frames) {
      SameKeysSameFrames(frames, Sort(picked, false), NewestNaive(frames));
    }
  }

  lemma NewestTenParts(frames: seq<Frame>, out: seq<Frame>)
    requires IsNewestTen(frames, out)
    ensures |out| == if |frames| < 10 then |frames| else 10
    ensures forall i, j :: 0 <= i < j < |out| ==>
              out[i].windowEnd > out[j].windowEnd
              || (out[i].windowEnd == out[j].windowEnd && out[i].frameId >= out[j].frameId)
  {
  }

  /** A descending sort puts no older frame before a newer one. */
  lemma SortedDescends(s: seq<Frame>)
    ensures var v := Sort(s, false); forall i, j :: 0 <= i < j < |v| ==> !Older(v[i], v[j])
  {
    SortSorts(s, false);
    hide Sort;
    var v := Sort(s, false);
    forall i, j | 0 <= i < j < |v|
      ensures !Older(v[i], v[j])
    {
      assert !Precedes(KeysOf(v)[j], KeysOf(v)[i], false);
    }
  }

  /** In a descending list nothing after the first `n` is newer than anything in them. */
  lemma LeftOutIsOlder(v: seq<Frame>, n: nat, x: Frame, y: Frame)
    requires n <= |v| && forall i, j :: 0 <= i < j < |v| ==> !Older(v[i], v[j])
    requires x in multiset(v) - multiset(v[..n]) && y in v[..n]
    ensures !Older(y, x)
  {
    hide Older;
    assert v == v[..n] + v[n..];
    assert multiset(v) == multiset(v[..n]) + multiset(v[n..]);
    assert x in v[n..];
    var i :| 0 <= i < n && v[..n][i] == y;
    var j :| 0 <= j < |v[n..]| && v[n..][j] == x;
    assert v[i] == y && v[n + j] == x;
  }

  lemma PrefixIsPart(v: seq<Frame>, n: nat)
    requires n <= |v|
    ensures multiset(v[..n]) <= multiset(v) && forall i :: 0 <= i < n ==> v[..n][i] == v[i]
  {
    assert v == v[..n] + v[n..];
  }

  /** The reference answers what it should, for any list. */
  lemma NaiveIsNewestTen(frames: seq<Frame>)
    ensures IsNewestTen(frames, NewestNaive(frames))
  {
    var v, out := Sort(frames, false), NewestNaive(frames);
    SortSorts(frames, false);
    SortedDescends(frames);
    hide Sort, Older, Sorted;
    assert out == v[..|out|];
    PrefixIsPart(v, |out|);
    hide NewestNaive;
    forall x, y | x in multiset(frames) - multiset(out) && y in out
      ensures !Older(y, x)
    {
      LeftOutIsOlder(v, |out|, x, y);
    }
  }

  /** Chosen and unchosen frames make up the whole list. */
  lemma {:induction false} SplitFrames(frames: seq<Frame>, chosen: set<nat>, others: set<nat>)
    requires forall i: nat :: i < |frames| ==> (i in chosen <==> i !in others)
    ensures multiset(frames) == multiset(At(frames, chosen)) + multiset(At(frames, others))
  {
    if frames != [] {
      var n := |frames| - 1;
      SplitFrames(frames[..n], chosen, others);
      assert frames == frames[..n] + [frames[n]];
    }
  }

  /** Nothing the heap passed over is newer than anything it kept. */
  lemma PassedOverIsOlder(frames: seq<Frame>, heap: set<nat>, out: seq<Frame>, x: Frame, y: Frame)
    requires HeapKeeps(frames, heap, |frames|) && multiset(out) == multiset(At(frames, heap))
    requires x in multiset(frames) - multiset(out) && y in out
    ensures !Older(y, x)
  {
    var others := Below(|frames|) - heap;
    assert forall i: nat :: i < |frames| ==> (i in heap <==> i !in others);
    SplitFrames(frames, heap, others);
    hide HeapKeeps, At, Older, Below;
    assert y in multiset(out);
    PickedAreNewest(frames, heap, y, x);
    OlderIsBefore(y, x);
  }

  lemma OlderIsBefore(f: Frame, g: Frame)
    ensures Older(f, g) <==> Before(KeyOf(f), KeyOf(g))
  {
  }

  lemma HeapIsNewestTen(frames: seq<Frame>, heap: set<nat>, picked: seq<Frame>)
    requires HeapKeeps(frames, heap, |frames|) && |frames| > MAX_LATEST_FRAMES
    requires multiset(picked) == multiset(At(frames, heap)) && |picked| == |heap|
    ensures IsNewestTen(frames, Sort(picked, false))
  {
    var out := Sort(picked, false);
    SortSorts(picked, false);
    SortedDescends(picked);
    PickedIsPart(frames, heap);
    HeapBounds(frames, heap, |frames|);
    hide HeapKeeps, At, Sort, Sorted, Older;
    forall x, y | x in multiset(frames) - multiset(out) && y in out
      ensures !Older(y, x)
    {
      PassedOverIsOlder(frames, heap, out, x, y);
    }
  }

  lemma {:induction false} PickedIsPart(frames: seq<Frame>, chosen: set<nat>)
    ensures multiset(At(frames, chosen)) <= multiset(frames)
  {
    if frames != [] {
      var n := |frames| - 1;
      PickedIsPart(frames[..n], chosen);
      assert frames == frames[..n] + [frames[n]];
    }
  }

  lemma SameKeysSameFrames(frames: seq<Frame>, a: seq<Frame>, b: seq<Frame>)
    requires UniqueKeys(frames) && KeysOf(a) == KeysOf(b)
    requires multiset(a) <= multiset(frames) && b == NewestNaive(frames)
    ensures a == b
  {
    SortSorts(frames, false);
    hide Sort, Sorted;
    assert |a| == |KeysOf(a)| == |KeysOf(b)| == |b|;
    forall i | 0 <= i < |a|
      ensures a[i] == b[i]
    {
      assert KeysOf(a)[i] == KeysOf(b)[i];
      assert a[i] in multiset(a) && a[i] in multiset(frames);
      assert b[i] in Sort(frames, false) && b[i] in multiset(Sort(frames, false));
      assert a[i] in frames && b[i] in frames;
    }
  }
}
