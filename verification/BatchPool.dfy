/** Batched frees on a sound allocator: the lists that a batch leaves are those of a sound allocator again,
    in which exactly the uses of the batch ended. */
module BatchPool {
  import opened BatchFree
  import opened Finite
  import opened Machine
  import opened PageUses

  /** The part of the allocator that the freeing code touches. */
  ghost function ListsOf(v: Pool): Lists {
    Lists(v.mem, v.head, v.count)
  }

  /** The uses of the pages `ps`. */
  ghost function UsesOf(v: Pool, ps: seq<nat>): set<Use>
    requires forall p :: p in ps ==> p in v.owner
  {
    set p | p in ps :: v.owner[p]
  }

  lemma PoolShaped(v: Pool)
    requires PoolOk(v)
    ensures Shaped(ListsOf(v)) && v.mem.Keys == v.owner.Keys
  {
    hide PoolOk;
    PoolLengths(v);
    forall p | p in v.mem
      ensures |v.mem[p]| > 0
    {
      PageShape(v, p);
    }
  }

  /** Freeing distinct pages that are in use, one by one or in a batch, keeps every list on its side of the NUMA
      line and as long as its count, and ends exactly the uses of those pages. */
  lemma {:induction false} BatchReleases(v: Pool, ps: seq<nat>) returns (w: Pool)
    requires PoolOk(v) && Distinct(ps) && forall p :: p in ps ==> p in v.owner && !v.owner[p].Free?
    ensures PoolOk(w) && Released(v, w, UsesOf(v, ps)) && w.numa == v.numa
    ensures Shaped(ListsOf(v)) && (forall p :: p in ps ==> p in v.mem) && ListsOf(w) == FreeAll(v.numa, ListsOf(v), ps)
  {
    hide PoolOk, Released, Shaped, Pushed, UsesOf;
    PoolShaped(v);
    if ps == [] {
      w := v;
      ReleasedNothing(v);
      NoUses(v);
    } else {
      var n := |ps| - 1;
      var qs, p := ps[..n], ps[n];
      assert ps == qs + [p];
      var x := BatchReleases(v, qs);
      StillUsed(v, x, qs, p);
      PushedStep(v, x, qs, p);
      UsesMore(v, qs, p);
      w := Pushed(x, p);
    }
  }

  lemma PushedStep(v: Pool, x: Pool, qs: seq<nat>, p: nat)
    requires PoolOk(v) && PoolOk(x) && (forall q :: q in qs ==> q in v.owner) && Released(v, x, UsesOf(v, qs))
    requires p in v.owner && p in x.owner && x.owner[p] == v.owner[p] && !v.owner[p].Free? && x.numa == v.numa
    ensures |x.head| == |x.count| == 2 && p in x.mem && |x.mem[p]| > 0 && Shaped(ListsOf(x))
    ensures PoolOk(Pushed(x, p)) && Released(v, Pushed(x, p), UsesOf(v, qs) + {v.owner[p]})
    ensures ListsOf(Pushed(x, p)) == FreeOne(v.numa, ListsOf(x), p) && Pushed(x, p).numa == v.numa
  {
    hide PoolOk, Released;
    PoolShaped(x);
    PoolLengths(x);
    PageShape(x, p);
    PushReleases(x, p);
    ReleasedThen(v, x, Pushed(x, p), UsesOf(v, qs), {v.owner[p]});
  }

  lemma NoUses(v: Pool)
    ensures UsesOf(v, []) == {}
  {
  }

  lemma UsesMore(v: Pool, qs: seq<nat>, p: nat)
    requires p in v.owner && forall q :: q in qs ==> q in v.owner
    ensures UsesOf(v, qs + [p]) == UsesOf(v, qs) + {v.owner[p]}
  {
  }

  lemma StillUsed(v: Pool, x: Pool, qs: seq<nat>, p: nat)
    requires PoolOk(v) && PoolOk(x) && p in v.owner && !v.owner[p].Free? && p !in qs
    requires (forall q :: q in qs ==> q in v.owner) && Released(v, x, UsesOf(v, qs))
    ensures p in x.owner && x.owner[p] == v.owner[p]
  {
    assert v.at[v.owner[p]] == p;
    assert v.owner[p] !in UsesOf(v, qs);
    assert x.at[v.owner[p]] == p;
  }
}
