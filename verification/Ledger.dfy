/** What became of each value handed to a ring, in the order the values went in. */
module Ledger {

  /** A value leaves the ring by being read or by being overwritten. */
  datatype Fate = Read | Overwritten

  /** The values of `xs` whose fate is `what`, in their original order. */
  function Select<T>(xs: seq<T>, fates: seq<Fate>, what: Fate): (s: seq<T>)
    requires |fates| <= |xs|
    ensures |s| == Count(fates, what)
  {
    if fates == [] then []
    else
      var n := |fates| - 1;
      Select(xs, fates[..n], what) + if fates[n] == what then [xs[n]] else []
  }

  function Count(fates: seq<Fate>, what: Fate): nat {
    if fates == [] then 0
    else Count(fates[..|fates| - 1], what) + if fates[|fates| - 1] == what then 1 else 0
  }

  function Trues(flags: seq<bool>): nat {
    if flags == [] then 0
    else Trues(flags[..|flags| - 1]) + if flags[|flags| - 1] then 1 else 0
  }

  lemma SelectExtend<T>(xs: seq<T>, fates: seq<Fate>, f: Fate, what: Fate)
    requires |fates| < |xs|
    ensures Select(xs, fates + [f], what) == Select(xs, fates, what) + if f == what then [xs[|fates|]] else []
  {
    assert (fates + [f])[..|fates|] == fates;
  }

  lemma CountExtend(fates: seq<Fate>, f: Fate, what: Fate)
    ensures Count(fates + [f], what) == Count(fates, what) + if f == what then 1 else 0
  {
    assert (fates + [f])[..|fates|] == fates;
  }

  lemma TruesExtend(flags: seq<bool>, b: bool)
    ensures Trues(flags + [b]) == Trues(flags) + if b then 1 else 0
  {
    assert (flags + [b])[..|flags|] == flags;
  }

  /** Later arrivals do not change what has already been selected. */
  lemma {:induction false} SelectStable<T>(xs: seq<T>, more: seq<T>, fates: seq<Fate>, what: Fate)
    requires |fates| <= |xs|
    ensures Select(xs + more, fates, what) == Select(xs, fates, what)
  {
    if fates != [] {
      SelectStable(xs, more, fates[..|fates| - 1], what);
    }
  }

  /** Every value is read, overwritten or not yet out: the three counts add up. */
  lemma {:induction false} CountsPartition(fates: seq<Fate>)
    ensures Count(fates, Read) + Count(fates, Overwritten) == |fates|
  {
    if fates != [] {
      CountsPartition(fates[..|fates| - 1]);
    }
  }

  /** `s` is `xs` with elements removed: position `pick[i]` of `xs` supplies element `i` of `s`. */
  ghost predicate SubsequenceVia<T>(s: seq<T>, xs: seq<T>, pick: seq<nat>) {
    && |pick| == |s|
    && (forall i :: 0 <= i < |pick| ==> pick[i] < |xs| && s[i] == xs[pick[i]])
    && (forall i, j :: 0 <= i < j < |pick| ==> pick[i] < pick[j])
  }

  /** The positions of `fates` that hold `what`, ascending. */
  function Positions(fates: seq<Fate>, what: Fate): (p: seq<nat>)
    ensures forall i :: 0 <= i < |p| ==> p[i] < |fates| && fates[p[i]] == what
    ensures forall i, j :: 0 <= i < j < |p| ==> p[i] < p[j]
    ensures forall k :: 0 <= k < |fates| && fates[k] == what ==> k in p
  {
    if fates == [] then []
    else
      var n := |fates| - 1;
      Positions(fates[..n], what) + if fates[n] == what then [n] else []
  }

  /** A selection is a strictly in-order, duplicate-free subsequence that misses nothing with that fate. */
  lemma {:induction false} SelectIsSubsequence<T>(xs: seq<T>, fates: seq<Fate>, what: Fate)
    requires |fates| <= |xs|
    ensures SubsequenceVia(Select(xs, fates, what), xs, Positions(fates, what))
  {
    if fates != [] {
      SelectIsSubsequence(xs, fates[..|fates| - 1], what);
    }
  }
}
