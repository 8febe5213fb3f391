/** Sequences without repetition and the sizes of finite sets. */
module Finite {
  ghost predicate Distinct<T>(s: seq<T>) {
    forall i: nat, j: nat :: i < j < |s| ==> s[i] != s[j]
  }

  lemma {:induction false} InjectiveSize<A, B>(m: map<A, B>)
    requires forall x, y :: x in m && y in m && m[x] == m[y] ==> x == y
    ensures |m.Keys| == |m.Values|
    decreases |m|
  {
    if m.Keys != {} {
      var x :| x in m;
      var n := m - {x};
      assert n.Keys == m.Keys - {x};
      InjectiveSize(n);
      forall v | v in m.Values - {m[x]}
        ensures v in n.Values
      {
        var y :| y in m && m[y] == v;
        assert y in n && n[y] == v;
      }
      assert n.Values == m.Values - {m[x]};
    }
  }

  /** Sets that a one-to-one map takes to each other have the same size. */
  lemma SameSize<A, B>(s: set<A>, t: set<B>, m: map<A, B>)
    requires forall p :: p in s <==> p in m
    requires forall x, y :: x in m && y in m && m[x] == m[y] ==> x == y
    requires forall p :: p in m ==> m[p] in t
    requires forall k :: k in t ==> exists p :: p in m && m[p] == k
    ensures |s| == |t|
  {
    InjectiveSize(m);
    assert m.Keys == s && m.Values == t;
  }

  lemma SubsetSize<A>(s: set<A>, t: set<A>)
    requires s <= t
    ensures |s| <= |t|
  {
    assert t == s + (t - s);
  }
}
