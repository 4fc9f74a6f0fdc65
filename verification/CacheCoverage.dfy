/** Which frames a cache vector accounts for: those it holds, and those it holds enough newer ones than. */
module CacheCoverage {
  import opened Models
  import opened FrameOrder
  import opened FrameCache
  import opened LatestFrames

  ghost function NewerKeys(k: Key, v: seq<Frame>): set<Key> {
    set g | g in v && Before(k, KeyOf(g)) :: KeyOf(g)
  }

  /** `f` is held, or crowded out by a full cache's worth of newer frames. */
  ghost predicate Covered(f: Frame, v: seq<Frame>) {
    f in v || |NewerKeys(KeyOf(f), v)| >= MAX_CACHED_FRAMES
  }

  lemma OutrankedIsCrowdedOut(k: Key, v: seq<Frame>, n: nat)
    requires Strict(v) && Outranked(k, v, n)
    ensures |NewerKeys(k, v)| >= n
  {
    var last := v[|v| - n..];
    StrictKeyCount(last);
    assert forall g :: g in last ==> g in v;
    assert KeySet(last) <= NewerKeys(k, v);
    SubsetSize(KeySet(last), NewerKeys(k, v));
  }

  /** A merge under another key loses no coverage. */
  lemma MergeKeepsCovered(v: seq<Frame>, g: Frame, f: Frame)
    requires UniqueKeys(v) && Covered(f, v) && KeyOf(f) != KeyOf(g)
    ensures Covered(f, Merged(v, g))
  {
    var v' := Merged(v, g);
    var m := StoreOf(v + [g]);
    FirstMerge(v, g);
    StoreOfAppend(v, g);
    StoreOfUnique(v);
    StoreKeys(v);
    hide Merged, StoreOf, Before;
    var k := KeyOf(f);
    if Outranked(k, v', MAX_CACHED_FRAMES) {
      OutrankedIsCrowdedOut(k, v', MAX_CACHED_FRAMES);
    } else if f !in v {
      forall x | x in NewerKeys(k, v)
        ensures x in NewerKeys(k, v')
      {
        var h :| h in v && Before(k, KeyOf(h)) && KeyOf(h) == x;
        NewerEntryStays(v', m, k, x);
      }
      SubsetSize(NewerKeys(k, v), NewerKeys(k, v'));
    }
  }

  /** If `k` is not outranked, every entry newer than `k` is still there. */
  lemma NewerEntryStays(v: seq<Frame>, m: map<Key, Frame>, k: Key, x: Key)
    requires IsNewest(v, m, MAX_CACHED_FRAMES) && Keyed(m)
    requires x in m && Before(k, x) && !Outranked(k, v, MAX_CACHED_FRAMES)
    ensures x in NewerKeys(k, v)
  {
    assert m[x] in v ==> x in NewerKeys(k, v);
  }

  /** What was just merged is covered. */
  lemma MergeCovers(v: seq<Frame>, g: Frame)
    requires UniqueKeys(v)
    ensures Covered(g, Merged(v, g))
  {
    FirstMerge(v, g);
    StoreOfAppend(v, g);
    var v' := Merged(v, g);
    hide Merged, StoreOf, Before;
    if g !in v' {
      OutrankedIsCrowdedOut(KeyOf(g), v', MAX_CACHED_FRAMES);
    }
  }

  /** A merge brings in nothing but the merged frame, which replaces any under its key. */
  lemma MergeEntries(v: seq<Frame>, g: Frame)
    requires UniqueKeys(v)
    ensures UniqueKeys(Merged(v, g))
    ensures forall h :: h in Merged(v, g) ==> h == g || (h in v && KeyOf(h) != KeyOf(g))
  {
    FirstMerge(v, g);
    StoreKeys(v);
    StoreOfAppend(v, g);
    hide Merged, StoreOf, Before;
    StrictIsUnique(Merged(v, g));
  }

  lemma {:induction false} MergedAllEntries(base: seq<Frame>, more: seq<Frame>)
    requires UniqueKeys(base)
    ensures UniqueKeys(MergedAll(base, more))
    ensures forall h :: h in MergedAll(base, more) ==>
                          h in more || (h in base && forall g :: g in more ==> KeyOf(g) != KeyOf(h))
    decreases |more|
  {
    if more != [] {
      var n := |more| - 1;
      var init, last := more[..n], more[n];
      assert more == init + [last];
      MergedAllEntries(base, init);
      hide Merged, UniqueKeys;
      MergeEntries(MergedAll(base, init), last);
    }
  }

  /** A run of merges covers what it started from and what it merged, unless a later version replaced it. */
  lemma {:induction false} MergedAllCovers(base: seq<Frame>, more: seq<Frame>, f: Frame)
    requires UniqueKeys(base) && (f in base || f in more)
    requires forall g :: g in more && KeyOf(g) == KeyOf(f) ==> g == f
    ensures Covered(f, MergedAll(base, more))
    decreases |more|
  {
    if more != [] {
      var n := |more| - 1;
      var init, last := more[..n], more[n];
      assert more == init + [last];
      MergedAllEntries(base, init);
      hide Merged, UniqueKeys, Covered;
      if last == f {
        MergeCovers(MergedAll(base, init), f);
      } else {
        MergedAllCovers(base, init, f);
        MergeKeepsCovered(MergedAll(base, init), last, f);
      }
    }
  }

  // ---------- what the latest-frames answer shows ----------

  lemma KeysFromEarlier(v: seq<Frame>, k: Key, i: nat)
    requires i < |v| && Sorted(KeysOf(v), false) && !Before(k, KeyOf(v[i]))
    ensures |NewerKeys(k, v)| <= i
  {
    assert forall j :: i < j < |v| ==> !Before(KeysOf(v)[i], KeysOf(v)[j]);
    forall x | x in NewerKeys(k, v)
      ensures x in KeySet(v[..i])
    {
      var g :| g in v && Before(k, KeyOf(g)) && KeyOf(g) == x;
      var j :| 0 <= j < |v| && v[j] == g;
      assert j < i && v[..i][j] == g;
    }
    SubsetSize(NewerKeys(k, v), KeySet(v[..i]));
    KeySetSize(v[..i]);
  }

  lemma {:induction false} KeySetSize(s: seq<Frame>)
    ensures |KeySet(s)| <= |s|
  {
    if s == [] {
      assert KeySet(s) == {};
    } else {
      var n := |s| - 1;
      KeySetSize(s[..n]);
      assert s == s[..n] + [s[n]];
      assert KeySet(s) == KeySet(s[..n]) + {KeyOf(s[n])};
    }
  }

  /** A covered frame is in the latest-frames answer, or ten newer ones are. */
  lemma LatestShowsCovered(v: seq<Frame>, f: Frame)
    requires UniqueKeys(v) && Covered(f, v)
    ensures f in NewestNaive(v) ||
            (|NewestNaive(v)| == MAX_LATEST_FRAMES &&
             forall g :: g in NewestNaive(v) ==> Before(KeyOf(f), KeyOf(g)))
  {
    var all := Sort(v, false);
    SortSorts(v, false);
    hide Sort;
    assert forall g :: g in v <==> g in multiset(all);
    assert NewerKeys(KeyOf(f), all) == NewerKeys(KeyOf(f), v);
    KeySetSize(all);
    assert NewerKeys(KeyOf(f), all) <= KeySet(all);
    SubsetSize(NewerKeys(KeyOf(f), all), KeySet(all));
    if f !in NewestNaive(v) {
      assert f in v ==> f in all;
      forall g | g in NewestNaive(v)
        ensures Before(KeyOf(f), KeyOf(g))
      {
        var i :| 0 <= i < |NewestNaive(v)| && NewestNaive(v)[i] == g;
        assert all[i] == g;
        if f in v {
          LaterIsOlder(v, all, f, i);
        } else if !Before(KeyOf(f), KeyOf(g)) {
          KeysFromEarlier(all, KeyOf(f), i);
          assert false;
        }
      }
    }
  }

  lemma LaterIsOlder(v: seq<Frame>, all: seq<Frame>, f: Frame, i: nat)
    requires UniqueKeys(v) && multiset(all) == multiset(v) && Sorted(KeysOf(all), false)
    requires i < |all| && i < MAX_LATEST_FRAMES
    requires f in v && f !in (if |all| <= MAX_LATEST_FRAMES then all else all[..MAX_LATEST_FRAMES])
    ensures Before(KeyOf(f), KeyOf(all[i]))
  {
    assert f in multiset(all) && all[i] in multiset(v);
    var j :| 0 <= j < |all| && all[j] == f;
    assert |all| > MAX_LATEST_FRAMES;
    assert forall x :: 0 <= x < MAX_LATEST_FRAMES ==> all[..MAX_LATEST_FRAMES][x] == all[x];
    assert !Before(KeysOf(all)[i], KeysOf(all)[j]);
    assert all[i] != f;
  }
}
