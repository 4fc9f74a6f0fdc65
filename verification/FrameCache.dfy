/** The dashboard's bounded frame cache: upsert by key, keep sorted, keep the newest. */
module FrameCache {
  import opened Models
  import opened FrameOrder

  const MAX_CACHED_FRAMES: nat := 65536

  /** `Vec::retain`: drops every frame with key `k`. */
  function Retained(s: seq<Frame>, k: Key): seq<Frame> {
    if s == [] then []
    else Retained(s[..|s| - 1], k) + if KeyOf(s[|s| - 1]) == k then [] else [s[|s| - 1]]
  }

  /** Drops from the front whatever exceeds `n`. */
  function Trimmed(s: seq<Frame>, n: nat): seq<Frame> {
    if |s| > n then s[|s| - n..] else s
  }

  /** The cache vector after one upsert. */
  function Merged(frames: seq<Frame>, frame: Frame): seq<Frame> {
    Trimmed(Sort(Retained(frames, KeyOf(frame)) + [frame], true), MAX_CACHED_FRAMES)
  }

  function MergedAll(frames: seq<Frame>, more: seq<Frame>): seq<Frame> {
    if more == [] then frames else Merged(MergedAll(frames, more[..|more| - 1]), more[|more| - 1])
  }

  /** The latest value for each key of a history, later entries winning. */
  ghost function StoreOf(history: seq<Frame>): map<Key, Frame> {
    if history == [] then map[]
    else StoreOf(history[..|history| - 1])[KeyOf(history[|history| - 1]) := history[|history| - 1]]
  }

  ghost predicate Keyed(m: map<Key, Frame>) {
    forall k :: k in m ==> KeyOf(m[k]) == k
  }

  /** `s` holds entries of `m`. */
  ghost predicate Entries(s: seq<Frame>, m: map<Key, Frame>) {
    forall f :: f in s ==> KeyOf(f) in m && m[KeyOf(f)] == f
  }

  /** `s` is full with entries newer than `k`. */
  ghost predicate Outranked(k: Key, s: seq<Frame>, n: nat) {
    |s| >= n && forall i :: |s| - n <= i < |s| ==> Before(k, KeyOf(s[i]))
  }

  /** `s` is exactly the `n` newest entries of `m`, strictly ascending. */
  ghost predicate IsNewest(s: seq<Frame>, m: map<Key, Frame>, n: nat) {
    && Strict(s) && |s| <= n && Entries(s, m)
    && (forall k :: k in m ==> m[k] in s || Outranked(k, s, n))
  }

  // ---------- one upsert ----------

  lemma {:induction false} RetainedKeeps(s: seq<Frame>, k: Key)
    ensures forall f :: f in Retained(s, k) <==> f in s && KeyOf(f) != k
  {
    if s != [] {
      var n := |s| - 1;
      RetainedKeeps(s[..n], k);
      assert s == s[..n] + [s[n]];
    }
  }

  lemma {:induction false} RetainedUnique(s: seq<Frame>, k: Key)
    requires UniqueKeys(s)
    ensures UniqueKeys(Retained(s, k))
    ensures |Retained(s, k)| + (if exists f :: f in s && KeyOf(f) == k then 1 else 0) == |s|
  {
    if s != [] {
      var n := |s| - 1;
      var init, last := s[..n], s[n];
      assert s == init + [last];
      RetainedUnique(init, k);
      RetainedKeeps(init, k);
      forall f | f in init
        ensures KeyOf(f) != KeyOf(last)
      {
        var i :| 0 <= i < n && s[i] == f;
      }
    }
  }

  lemma StrictIsUnique(s: seq<Frame>)
    requires Strict(s)
    ensures UniqueKeys(s)
  {
  }

  /** The vector just before trimming: strictly ascending, the retained frames and the new one. */
  lemma SortedUpsert(v: seq<Frame>, f: Frame) returns (s: seq<Frame>)
    requires UniqueKeys(v)
    ensures s == Sort(Retained(v, KeyOf(f)) + [f], true)
    ensures Strict(s) && forall g :: g in s <==> g == f || (g in v && KeyOf(g) != KeyOf(f))
    ensures |s| == |v| + if exists g :: g in v && KeyOf(g) == KeyOf(f) then 0 else 1
  {
    var r := Retained(v, KeyOf(f));
    RetainedKeeps(v, KeyOf(f));
    RetainedUnique(v, KeyOf(f));
    hide Retained, Sort;
    assert UniqueKeys(r + [f]) by {
      forall i, j | 0 <= i < j < |r + [f]|
        ensures KeyOf((r + [f])[i]) != KeyOf((r + [f])[j])
      {
        assert r[i] in r;
      }
    }
    SortUnique(r + [f]);
    s := Sort(r + [f], true);
  }

  /** Trimming from the front keeps the newest, and whatever it drops is outranked. */
  lemma TrimKeepsNewest(s: seq<Frame>, m: map<Key, Frame>, n: nat)
    requires n > 0 && Strict(s) && Entries(s, m) && Keyed(m)
    requires forall k :: k in m ==> m[k] in s || Outranked(k, s, n)
    ensures IsNewest(Trimmed(s, n), m, n)
  {
    var t := Trimmed(s, n);
    if |s| > n {
      var d := |s| - n;
      assert forall i :: 0 <= i < n ==> t[i] == s[d + i];
      forall k | k in m
        ensures m[k] in t || Outranked(k, t, n)
      {
        if m[k] in s {
          var i :| 0 <= i < |s| && s[i] == m[k];
          if i >= d {
            assert t[i - d] == m[k];
          }
        }
      }
    }
  }

  /** One merge into any key-unique vector leaves the newest of its entries and the new frame. */
  lemma FirstMerge(v: seq<Frame>, f: Frame)
    requires UniqueKeys(v)
    ensures IsNewest(Merged(v, f), StoreOf(v + [f]), MAX_CACHED_FRAMES)
  {
    var s := SortedUpsert(v, f);
    assert (v + [f])[..|v|] == v;
    StoreOfUnique(v);
    StoreKeys(v);
    var m := StoreOf(v + [f]);
    forall k | k in m
      ensures m[k] in s
    {
      if k != KeyOf(f) {
        assert k in StoreOf(v);
      }
    }
    TrimKeepsNewest(s, m, MAX_CACHED_FRAMES);
  }

  lemma {:induction false} StoreKeys(history: seq<Frame>)
    ensures Keyed(StoreOf(history)) && forall k :: k in StoreOf(history) ==> StoreOf(history)[k] in history
    ensures forall f :: f in history ==> KeyOf(f) in StoreOf(history)
  {
    if history != [] {
      var n := |history| - 1;
      StoreKeys(history[..n]);
      assert history == history[..n] + [history[n]];
    }
  }

  lemma {:induction false} StoreOfUnique(s: seq<Frame>)
    requires UniqueKeys(s)
    ensures Entries(s, StoreOf(s))
  {
    if s != [] {
      var n := |s| - 1;
      StoreOfUnique(s[..n]);
      assert s == s[..n] + [s[n]];
      forall f | f in s[..n]
        ensures KeyOf(f) != KeyOf(s[n])
      {
        var i :| 0 <= i < n && s[i] == f;
      }
    }
  }

  /** A key outranked before the merge is outranked after it. */
  lemma StillOutranked(v: seq<Frame>, f: Frame, s: seq<Frame>, k: Key, n: nat)
    requires Strict(v) && |v| == n && Outranked(k, v, n)
    requires Strict(s) && forall g :: g in s <==> g == f || (g in v && KeyOf(g) != KeyOf(f))
    requires |s| == |v| + if exists g :: g in v && KeyOf(g) == KeyOf(f) then 0 else 1
    ensures Outranked(k, s, n)
  {
    var d := |s| - n;
    forall i | d <= i < |s|
      ensures Before(k, KeyOf(s[i]))
    {
      assert s[i] in s;
      if s[i] == f {
        if d == 0 {
          var g :| g in v && KeyOf(g) == KeyOf(f);
          var j :| 0 <= j < |v| && v[j] == g;
        } else {
          assert s[i - 1] in s && s[i - 1] != f;
          var j :| 0 <= j < |v| && v[j] == s[i - 1];
        }
      } else {
        var j :| 0 <= j < |v| && v[j] == s[i];
      }
    }
  }

  /** Merging into the newest of a store gives the newest of the updated store: early trimming never matters. */
  lemma NextMerge(v: seq<Frame>, m: map<Key, Frame>, f: Frame)
    requires IsNewest(v, m, MAX_CACHED_FRAMES) && Keyed(m)
    ensures IsNewest(Merged(v, f), m[KeyOf(f) := f], MAX_CACHED_FRAMES)
  {
    StrictIsUnique(v);
    var s := SortedUpsert(v, f);
    hide Sort, Retained;
    var m' := m[KeyOf(f) := f];
    forall k | k in m'
      ensures m'[k] in s || Outranked(k, s, MAX_CACHED_FRAMES)
    {
      if k != KeyOf(f) && m[k] !in v {
        StillOutranked(v, f, s, k, MAX_CACHED_FRAMES);
      }
    }
    TrimKeepsNewest(s, m', MAX_CACHED_FRAMES);
  }

  lemma StoreOfAppend(history: seq<Frame>, f: Frame)
    ensures StoreOf(history + [f]) == StoreOf(history)[KeyOf(f) := f]
  {
    assert (history + [f])[..|history|] == history;
  }

  /**
   Any non-empty run of merges into a key-unique vector yields exactly the newest entries of the whole
   history, latest value per key: the incremental, early-trimmed cache is the batch definition.
   */
  lemma {:induction false} IncrementalIsBatch(base: seq<Frame>, more: seq<Frame>)
    requires UniqueKeys(base) && more != []
    ensures IsNewest(MergedAll(base, more), StoreOf(base + more), MAX_CACHED_FRAMES)
    decreases |more|
  {
    var n := |more| - 1;
    var init, f := more[..n], more[n];
    assert base + more == base + init + [f];
    if n == 0 {
      assert init == [] && base + init == base;
      FirstMerge(base, f);
    } else {
      IncrementalIsBatch(base, init);
      StoreKeys(base + init);
      StoreOfAppend(base + init, f);
      NextMerge(MergedAll(base, init), StoreOf(base + init), f);
    }
  }

  // ---------- the newest entries are determined ----------

  ghost function KeySet(s: seq<Frame>): set<Key> {
    set f | f in s :: KeyOf(f)
  }

  lemma {:induction false} StrictKeyCount(s: seq<Frame>)
    requires Strict(s)
    ensures |KeySet(s)| == |s|
  {
    if s != [] {
      var n := |s| - 1;
      StrictKeyCount(s[..n]);
      assert s == s[..n] + [s[n]];
      assert KeySet(s) == KeySet(s[..n]) + {KeyOf(s[n])};
      LastKeyIsNew(s);
    }
  }

  lemma LastKeyIsNew(s: seq<Frame>)
    requires Strict(s) && s != []
    ensures KeyOf(s[|s| - 1]) !in KeySet(s[..|s| - 1])
  {
    forall f | f in s[..|s| - 1]
      ensures KeyOf(f) != KeyOf(s[|s| - 1])
    {
      var i :| 0 <= i < |s| - 1 && s[i] == f;
    }
  }

  lemma SubsetSize<T>(a: set<T>, b: set<T>)
    requires a <= b
    ensures |a| <= |b|
  {
    assert b == a + (b - a);
  }

  /** Whatever is newer than a kept entry is kept. */
  lemma NewerIsKept(v: seq<Frame>, m: map<Key, Frame>, n: nat, f: Frame, g: Frame)
    requires IsNewest(v, m, n) && f in v
    requires KeyOf(g) in m && m[KeyOf(g)] == g && Before(KeyOf(f), KeyOf(g))
    ensures g in v
  {
    var j :| 0 <= j < |v| && v[j] == f;
    assert !Before(KeyOf(g), KeyOf(v[j]));
  }

  /** The newest entries of `m` are all in any other account of the newest entries. */
  lemma NewestContained(v: seq<Frame>, w: seq<Frame>, m: map<Key, Frame>, n: nat)
    requires IsNewest(v, m, n) && IsNewest(w, m, n) && Keyed(m)
    ensures forall f :: f in v ==> f in w
  {
    forall f | f in v
      ensures f in w
    {
      if f !in w {
        var k := KeyOf(f);
        assert m[k] == f && Outranked(k, w, n);
        forall g | g in w
          ensures g in v
        {
          var i :| 0 <= i < |w| && w[i] == g;
          NewerIsKept(v, m, n, f, g);
        }
        StrictKeyCount(v);
        StrictKeyCount(w);
        assert KeySet(w) + {k} <= KeySet(v);
        assert k !in KeySet(w);
        SubsetSize(KeySet(w) + {k}, KeySet(v));
      }
    }
  }

  lemma {:induction false} StrictSameElements(v: seq<Frame>, w: seq<Frame>)
    requires Strict(v) && Strict(w) && forall f :: f in v <==> f in w
    ensures v == w
  {
    assert |w| > 0 ==> w[0] in w;
    if v != [] {
      assert v[0] in w && w != [] && w[0] in v;
      var i :| 0 <= i < |w| && w[i] == v[0];
      var j :| 0 <= j < |v| && v[j] == w[0];
      assert v[0] == w[0];
      assert v == [v[0]] + v[1..] && w == [w[0]] + w[1..];
      StrictTail(v);
      StrictTail(w);
      forall f
        ensures f in v[1..] <==> f in w[1..]
      {
        assert f in v <==> f == v[0] || f in v[1..];
        assert f in w <==> f == w[0] || f in w[1..];
      }
      StrictSameElements(v[1..], w[1..]);
    }
  }

  lemma StrictTail(s: seq<Frame>)
    requires Strict(s) && s != []
    ensures Strict(s[1..]) && s[0] !in s[1..]
  {
    assert forall i :: 0 <= i < |s| - 1 ==> s[1..][i] == s[i + 1];
  }

  /** There is only one right answer: `IsNewest` pins the cache vector down completely. */
  lemma NewestUnique(v: seq<Frame>, w: seq<Frame>, m: map<Key, Frame>, n: nat)
    requires IsNewest(v, m, n) && IsNewest(w, m, n) && Keyed(m)
    ensures v == w
  {
    NewestContained(v, w, m, n);
    NewestContained(w, v, m, n);
    StrictSameElements(v, w);
  }
}
