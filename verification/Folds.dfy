/** Multisets and totals gathered over maps and sequences, with one law for each kind of update. */
module Folds {

  lemma CancelAdd<E>(a: multiset<E>, b: multiset<E>, x: multiset<E>, d: multiset<E>)
    requires a + x == b + (x + d)
    ensures a == b + d
  {
    forall e
      ensures a[e] == (b + d)[e]
    {
      assert (a + x)[e] == (b + (x + d))[e];
    }
  }

  ghost function Pick<K, V>(m: map<K, V>): (k: K)
    requires m != map[]
    ensures k in m
  {
    var k :| k in m; k
  }

  /** Everything `f` finds in the entries of `m`. */
  ghost function Gather<K, V, E>(m: map<K, V>, f: (K, V) -> multiset<E>): multiset<E>
    decreases |m|
  {
    if m == map[] then multiset{}
    else var k := Pick(m); f(k, m[k]) + Gather(m - {k}, f)
  }

  /** Any entry may be taken out first. */
  lemma {:induction false} GatherRemove<K, V, E>(m: map<K, V>, f: (K, V) -> multiset<E>, k: K)
    requires k in m
    ensures Gather(m, f) == f(k, m[k]) + Gather(m - {k}, f)
    decreases |m|
  {
    var p := Pick(m);
    if p != k {
      GatherRemove(m - {p}, f, k);
      GatherRemove(m - {k}, f, p);
      assert m - {p} - {k} == m - {k} - {p};
    }
  }

  lemma GatherUpdate<K, V, E>(m: map<K, V>, f: (K, V) -> multiset<E>, k: K, v: V)
    ensures Gather(m[k := v], f) + (if k in m then f(k, m[k]) else multiset{}) == Gather(m, f) + f(k, v)
  {
    GatherRemove(m[k := v], f, k);
    assert m[k := v] - {k} == m - {k};
    if k in m {
      GatherRemove(m, f, k);
    } else {
      assert m - {k} == m;
    }
  }

  ghost function GatherSeq<V, E>(s: seq<V>, f: V -> multiset<E>): multiset<E> {
    if s == [] then multiset{} else GatherSeq(s[..|s| - 1], f) + f(s[|s| - 1])
  }

  lemma {:induction false} GatherSeqConcat<V, E>(s: seq<V>, t: seq<V>, f: V -> multiset<E>)
    ensures GatherSeq(s + t, f) == GatherSeq(s, f) + GatherSeq(t, f)
  {
    if t == [] {
      assert s + t == s;
    } else {
      assert (s + t)[..|s + t| - 1] == s + t[..|t| - 1];
      GatherSeqConcat(s, t[..|t| - 1], f);
    }
  }

  lemma GatherSeqOne<V, E>(v: V, f: V -> multiset<E>)
    ensures GatherSeq([v], f) == f(v)
  {
    assert [v][..0] == [];
  }

  lemma GatherSeqAppend<V, E>(s: seq<V>, v: V, f: V -> multiset<E>)
    ensures GatherSeq(s + [v], f) == GatherSeq(s, f) + f(v)
  {
    GatherSeqConcat(s, [v], f);
    GatherSeqOne(v, f);
  }

  lemma GatherSeqHead<V, E>(s: seq<V>, f: V -> multiset<E>)
    requires s != []
    ensures GatherSeq(s, f) == f(s[0]) + GatherSeq(s[1..], f)
  {
    assert s == [s[0]] + s[1..];
    GatherSeqConcat([s[0]], s[1..], f);
    GatherSeqOne(s[0], f);
  }

  lemma GatherSeqUpdate<V, E>(s: seq<V>, i: nat, v: V, f: V -> multiset<E>)
    requires i < |s|
    ensures GatherSeq(s[i := v], f) + f(s[i]) == GatherSeq(s, f) + f(v)
  {
    var a, b := s[..i], s[i + 1..];
    assert s == a + ([s[i]] + b) && s[i := v] == a + ([v] + b);
    GatherSeqConcat(a, [s[i]] + b, f);
    GatherSeqConcat(a, [v] + b, f);
    GatherSeqConcat([s[i]], b, f);
    GatherSeqConcat([v], b, f);
    GatherSeqOne(s[i], f);
    GatherSeqOne(v, f);
  }

  /** The sum of `f` over the entries of `m`. */
  ghost function Total<K, V>(m: map<K, V>, f: V -> nat): nat
    decreases |m|
  {
    if m == map[] then 0
    else var k := Pick(m); f(m[k]) + Total(m - {k}, f)
  }

  lemma {:induction false} TotalRemove<K, V>(m: map<K, V>, f: V -> nat, k: K)
    requires k in m
    ensures Total(m, f) == f(m[k]) + Total(m - {k}, f)
    decreases |m|
  {
    var p := Pick(m);
    if p != k {
      TotalRemove(m - {p}, f, k);
      TotalRemove(m - {k}, f, p);
      assert m - {p} - {k} == m - {k} - {p};
    }
  }

  ghost function TotalSeq<V>(s: seq<V>, f: V -> nat): nat {
    if s == [] then 0 else TotalSeq(s[..|s| - 1], f) + f(s[|s| - 1])
  }

  lemma {:induction false} TotalSeqUpdate<V>(s: seq<V>, i: nat, v: V, f: V -> nat)
    requires i < |s|
    ensures TotalSeq(s[i := v], f) + f(s[i]) == TotalSeq(s, f) + f(v)
  {
    var n := |s| - 1;
    if i < n {
      assert s[i := v][..n] == s[..n][i := v];
      TotalSeqUpdate(s[..n], i, v, f);
    } else {
      assert s[i := v][..n] == s[..n];
    }
  }
}
