/** The order of frames by recency, and the stable sort the dashboard relies on. */
module FrameOrder {
  import opened Models

  /** Frames are identified and ordered by window end, then id. */
  datatype Key = Key(windowEnd: nat, frameId: nat)

  function KeyOf(f: Frame): Key {
    Key(f.windowEnd, f.frameId)
  }

  predicate Before(a: Key, b: Key) {
    a.windowEnd < b.windowEnd || (a.windowEnd == b.windowEnd && a.frameId < b.frameId)
  }

  function KeysOf(s: seq<Frame>): (ks: seq<Key>)
    ensures |ks| == |s| && forall i :: 0 <= i < |s| ==> ks[i] == KeyOf(s[i])
  {
    seq(|s|, i requires 0 <= i < |s| => KeyOf(s[i]))
  }

  /** Oldest first when `ascending`, newest first otherwise. */
  predicate Precedes(a: Key, b: Key, ascending: bool) {
    if ascending then Before(a, b) else Before(b, a)
  }

  /** Puts `f` in front of the first frame that does not precede it. */
  function Insert(f: Frame, s: seq<Frame>, ascending: bool): (r: seq<Frame>)
    ensures |r| == |s| + 1
  {
    if s == [] || !Precedes(KeyOf(s[0]), KeyOf(f), ascending) then [f] + s
    else [s[0]] + Insert(f, s[1..], ascending)
  }

  /** The stable sort of the standard library, by key. */
  function Sort(s: seq<Frame>, ascending: bool): (r: seq<Frame>)
    ensures |r| == |s|
  {
    if s == [] then [] else Insert(s[0], Sort(s[1..], ascending), ascending)
  }

  ghost predicate Sorted(ks: seq<Key>, ascending: bool) {
    forall i, j :: 0 <= i < j < |ks| ==> !Precedes(ks[j], ks[i], ascending)
  }

  lemma HeadMultiset<T>(s: seq<T>)
    requires s != []
    ensures multiset(s) == multiset{s[0]} + multiset(s[1..])
  {
    assert s == [s[0]] + s[1..];
  }

  lemma {:induction false} InsertPermutes(f: Frame, s: seq<Frame>, ascending: bool)
    ensures multiset(Insert(f, s, ascending)) == multiset(s) + multiset{f}
  {
    hide Precedes;
    var r := Insert(f, s, ascending);
    HeadMultiset(r);
    if s == [] || !Precedes(KeyOf(s[0]), KeyOf(f), ascending) {
      assert r[1..] == s;
    } else {
      InsertPermutes(f, s[1..], ascending);
      HeadMultiset(s);
      assert r[1..] == Insert(f, s[1..], ascending);
    }
  }

  lemma KeysPrepend(f: Frame, s: seq<Frame>)
    ensures multiset(KeysOf([f] + s)) == multiset(KeysOf(s)) + multiset{KeyOf(f)}
  {
    var all := [f] + s;
    HeadMultiset(KeysOf(all));
    assert KeysOf(all)[1..] == KeysOf(s);
  }

  lemma {:induction false} InsertPermutesKeys(f: Frame, s: seq<Frame>, ascending: bool)
    ensures multiset(KeysOf(Insert(f, s, ascending))) == multiset(KeysOf(s)) + multiset{KeyOf(f)}
  {
    hide Precedes, KeysOf;
    if s == [] || !Precedes(KeyOf(s[0]), KeyOf(f), ascending) {
      KeysPrepend(f, s);
    } else {
      InsertPermutesKeys(f, s[1..], ascending);
      KeysPrepend(s[0], s[1..]);
      KeysPrepend(s[0], Insert(f, s[1..], ascending));
      assert s == [s[0]] + s[1..];
    }
  }

  lemma SortedTail(ks: seq<Key>, ascending: bool)
    requires Sorted(ks, ascending) && ks != []
    ensures Sorted(ks[1..], ascending)
    ensures forall k :: k in ks[1..] ==> !Precedes(k, ks[0], ascending)
  {
    assert forall i :: 0 <= i < |ks| - 1 ==> ks[1..][i] == ks[i + 1];
  }

  lemma {:induction false} InsertSorts(f: Frame, s: seq<Frame>, ascending: bool)
    requires Sorted(KeysOf(s), ascending)
    ensures Sorted(KeysOf(Insert(f, s, ascending)), ascending)
    decreases s, 1
  {
    if s == [] || !Precedes(KeyOf(s[0]), KeyOf(f), ascending) {
      SortedCons(KeyOf(f), KeysOf(s), ascending);
      assert KeysOf([f] + s) == [KeyOf(f)] + KeysOf(s);
    } else {
      InsertSortsLater(f, s, ascending);
    }
  }

  lemma {:induction false} InsertSortsLater(f: Frame, s: seq<Frame>, ascending: bool)
    requires Sorted(KeysOf(s), ascending) && s != [] && Precedes(KeyOf(s[0]), KeyOf(f), ascending)
    ensures Sorted(KeysOf([s[0]] + Insert(f, s[1..], ascending)), ascending)
    decreases s, 0
  {
    var tail := Insert(f, s[1..], ascending);
    SortedTail(KeysOf(s), ascending);
    assert KeysOf(s)[1..] == KeysOf(s[1..]);
    InsertSorts(f, s[1..], ascending);
    InsertPermutesKeys(f, s[1..], ascending);
    hide Sorted, Insert;
    forall k | k in KeysOf(tail)
      ensures !Precedes(k, KeyOf(s[0]), ascending)
    {
      assert k in multiset(KeysOf(tail));
      if k != KeyOf(f) {
        assert k in multiset(KeysOf(s[1..]));
      }
    }
    SortedPrepend(KeyOf(s[0]), KeysOf(tail), ascending);
    assert KeysOf([s[0]] + tail) == [KeyOf(s[0])] + KeysOf(tail);
  }

  lemma SortedCons(k: Key, ks: seq<Key>, ascending: bool)
    requires Sorted(ks, ascending) && (ks == [] || !Precedes(ks[0], k, ascending))
    ensures Sorted([k] + ks, ascending)
  {
    forall x | x in ks
      ensures !Precedes(x, k, ascending)
    {
      var i :| 0 <= i < |ks| && ks[i] == x;
      assert i > 0 ==> !Precedes(ks[i], ks[0], ascending);
    }
    SortedPrepend(k, ks, ascending);
  }

  lemma SortedPrepend(k: Key, ks: seq<Key>, ascending: bool)
    requires Sorted(ks, ascending) && forall x :: x in ks ==> !Precedes(x, k, ascending)
    ensures Sorted([k] + ks, ascending)
  {
    var all := [k] + ks;
    forall i, j | 0 <= i < j < |all|
      ensures !Precedes(all[j], all[i], ascending)
    {
      assert all[j] == ks[j - 1];
      if i > 0 {
        assert all[i] == ks[i - 1];
      }
    }
  }

  lemma {:induction false} SortPermutes(s: seq<Frame>, ascending: bool)
    ensures multiset(Sort(s, ascending)) == multiset(s)
  {
    if s != [] {
      SortPermutes(s[1..], ascending);
      InsertPermutes(s[0], Sort(s[1..], ascending), ascending);
      HeadMultiset(s);
    }
  }

  lemma {:induction false} SortPermutesKeys(s: seq<Frame>, ascending: bool)
    ensures multiset(KeysOf(Sort(s, ascending))) == multiset(KeysOf(s))
  {
    if s == [] {
      assert KeysOf(Sort(s, ascending)) == KeysOf(s);
    } else {
      SortPermutesKeys(s[1..], ascending);
      hide Insert;
      InsertPermutesKeys(s[0], Sort(s[1..], ascending), ascending);
      HeadMultiset(KeysOf(s));
      assert KeysOf(s)[1..] == KeysOf(s[1..]);
    }
  }

  lemma {:induction false} SortOrders(s: seq<Frame>, ascending: bool)
    ensures Sorted(KeysOf(Sort(s, ascending)), ascending)
  {
    if s != [] {
      SortOrders(s[1..], ascending);
      hide Sorted;
      InsertSorts(s[0], Sort(s[1..], ascending), ascending);
    }
  }

  /** The frames with key `k`, in the order they have in `s`. */
  function WithKey(s: seq<Frame>, k: Key): seq<Frame> {
    if s == [] then [] else (if KeyOf(s[0]) == k then [s[0]] else []) + WithKey(s[1..], k)
  }

  lemma {:induction false} InsertStable(f: Frame, s: seq<Frame>, ascending: bool, k: Key)
    ensures WithKey(Insert(f, s, ascending), k) == (if KeyOf(f) == k then [f] else []) + WithKey(s, k)
  {
    if s == [] || !Precedes(KeyOf(s[0]), KeyOf(f), ascending) {
      assert ([f] + s)[1..] == s;
    } else {
      InsertStable(f, s[1..], ascending, k);
      assert ([s[0]] + Insert(f, s[1..], ascending))[1..] == Insert(f, s[1..], ascending);
    }
  }

  /** Frames with equal keys keep their order: the sort is stable. */
  lemma {:induction false} SortStable(s: seq<Frame>, ascending: bool, k: Key)
    ensures WithKey(Sort(s, ascending), k) == WithKey(s, k)
  {
    if s != [] {
      SortStable(s[1..], ascending, k);
      InsertStable(s[0], Sort(s[1..], ascending), ascending, k);
    }
  }

  /** Sorting orders the keys and keeps every frame. */
  lemma SortSorts(s: seq<Frame>, ascending: bool)
    ensures Sorted(KeysOf(Sort(s, ascending)), ascending)
    ensures multiset(Sort(s, ascending)) == multiset(s)
    ensures multiset(KeysOf(Sort(s, ascending))) == multiset(KeysOf(s))
  {
    hide *;
    SortOrders(s, ascending);
    SortPermutes(s, ascending);
    SortPermutesKeys(s, ascending);
  }

  lemma SameTails<T>(a: seq<T>, b: seq<T>)
    requires multiset(a) == multiset(b) && a != [] && b != [] && a[0] == b[0]
    ensures multiset(a[1..]) == multiset(b[1..])
  {
    HeadMultiset(a);
    HeadMultiset(b);
    assert multiset(a[1..]) == multiset(a) - multiset{a[0]};
    assert multiset(b[1..]) == multiset(b) - multiset{b[0]};
  }

  lemma SameSizes<T>(a: seq<T>, b: seq<T>)
    requires multiset(a) == multiset(b)
    ensures |a| == |b|
  {
    assert |multiset(a)| == |a| && |multiset(b)| == |b|;
  }

  /** A multiset of keys can be put in order in one way only. */
  lemma {:induction false} SortedKeysUnique(a: seq<Key>, b: seq<Key>, ascending: bool)
    requires Sorted(a, ascending) && Sorted(b, ascending) && multiset(a) == multiset(b)
    ensures a == b
  {
    SameSizes(a, b);
    if a != [] {
      SortedHead(a, b, ascending);
      SortedHead(b, a, ascending);
      assert a[0] == b[0];
      SortedTail(a, ascending);
      SortedTail(b, ascending);
      hide *;
      SameTails(a, b);
      SortedKeysUnique(a[1..], b[1..], ascending);
      assert a == [a[0]] + a[1..] && b == [b[0]] + b[1..];
    }
  }

  lemma SortedHead(a: seq<Key>, b: seq<Key>, ascending: bool)
    requires Sorted(a, ascending) && a != [] && b != [] && multiset(a) == multiset(b)
    ensures !Precedes(b[0], a[0], ascending)
  {
    assert b[0] in multiset(b);
    var j :| 0 <= j < |a| && a[j] == b[0];
  }

  /** No two positions hold frames with the same key. */
  ghost predicate UniqueKeys(s: seq<Frame>) {
    forall i, j :: 0 <= i < j < |s| ==> KeyOf(s[i]) != KeyOf(s[j])
  }

  /** Keys rise strictly. */
  ghost predicate Strict(s: seq<Frame>) {
    forall i, j :: 0 <= i < j < |s| ==> Before(KeyOf(s[i]), KeyOf(s[j]))
  }

  /** Sorting frames with distinct keys gives a strictly ascending sequence of the same frames. */
  lemma {:induction false} SortUnique(s: seq<Frame>)
    requires UniqueKeys(s)
    ensures Strict(Sort(s, true))
    ensures forall f :: f in Sort(s, true) <==> f in s
  {
    if s != [] {
      assert s == [s[0]] + s[1..];
      assert forall i :: 0 <= i < |s| - 1 ==> s[1..][i] == s[i + 1];
      SortUnique(s[1..]);
      InsertStrict(s[0], Sort(s[1..], true));
    }
  }

  lemma {:induction false} InsertStrict(f: Frame, s: seq<Frame>)
    requires Strict(s) && forall g :: g in s ==> KeyOf(g) != KeyOf(f)
    ensures Strict(Insert(f, s, true))
    ensures forall g :: g in Insert(f, s, true) <==> g == f || g in s
  {
    if s == [] || !Before(KeyOf(s[0]), KeyOf(f)) {
      StrictPrepend(f, s);
    } else {
      assert s == [s[0]] + s[1..];
      var tail := Insert(f, s[1..], true);
      InsertStrict(f, s[1..]);
      forall g | g in tail
        ensures Before(KeyOf(s[0]), KeyOf(g))
      {
        if g != f {
          var i :| 0 <= i < |s[1..]| && s[1..][i] == g;
          assert s[i + 1] == g;
        }
      }
      StrictPrependAll(s[0], tail);
    }
  }

  lemma StrictPrepend(f: Frame, s: seq<Frame>)
    requires Strict(s) && (s != [] ==> !Before(KeyOf(s[0]), KeyOf(f)) && KeyOf(s[0]) != KeyOf(f))
    ensures Strict([f] + s)
  {
    forall g | g in s
      ensures Before(KeyOf(f), KeyOf(g))
    {
      var i :| 0 <= i < |s| && s[i] == g;
      assert i > 0 ==> Before(KeyOf(s[0]), KeyOf(s[i]));
    }
    StrictPrependAll(f, s);
  }

  lemma StrictPrependAll(f: Frame, s: seq<Frame>)
    requires Strict(s) && forall g :: g in s ==> Before(KeyOf(f), KeyOf(g))
    ensures Strict([f] + s)
  {
    var all := [f] + s;
    forall i, j | 0 <= i < j < |all|
      ensures Before(KeyOf(all[i]), KeyOf(all[j]))
    {
      assert all[j] == s[j - 1];
      if i > 0 {
        assert all[i] == s[i - 1];
      }
    }
  }
}
