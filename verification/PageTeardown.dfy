/** Giving a whole tree of tables back: the bookkeeping of a teardown. */
module PageTeardown {
  import opened Machine
  import opened PageUses
  import opened PageScan
  import opened PageTakes

  /** All tables below `u` are in order. */
  ghost predicate SubtreeOk(v: Pool, u: Use) {
    forall t :: t in v.at && IsTable(t) && Below(u, t) ==> TableOk(v, t)
  }

  /** The children of `u` from `n` on are not reached by a scan of the first `n`. */
  lemma ScanToStops(at: map<Use, nat>, u: Use, n: nat, c: nat, x: Use)
    requires IsTable(u) && n <= c && Below(Child(u, c), x)
    ensures x !in ScanTo(at, u, n) && u !in ScanTo(at, u, n)
  {
    if x in ScanTo(at, u, n) {
      ScanToBelow(at, u, n, x);
    }
    if u in ScanTo(at, u, n) {
      ScanToBelow(at, u, n, u);
    }
  }

  /** A use that was not released is where it was, with the same contents. */
  lemma StillThere(v: Pool, w: Pool, s: set<Use>, x: Use)
    requires PoolOk(v) && PoolOk(w) && Released(v, w, s) && x in v.at && x !in s && !x.Free?
    ensures x in w.at && w.at[x] == v.at[x] && v.at[x] in v.mem && w.at[x] in w.mem && w.mem[w.at[x]] == v.mem[v.at[x]]
    ensures IsPage(w.at[x]) && |w.mem[w.at[x]]| == PTRS_PER_TABLE
    ensures w.at[x] in w.owner && w.owner[w.at[x]] == x
  {
    assert w.owner[w.at[x]] == x;
  }

  /** Halfway through the scan of table `u`: the next child is untouched, and so is its subtree. */
  lemma NextChild(v: Pool, w: Pool, u: Use, n: nat)
    requires PoolOk(v) && PoolOk(w) && IsTable(u) && u in v.at && n < PTRS_PER_TABLE
    requires TableOk(v, u) && Released(v, w, ScanTo(v.at, u, n))
    ensures u in w.at && w.at[u] == v.at[u] && w.at[u] in w.mem && |w.mem[w.at[u]]| == PTRS_PER_TABLE
    ensures w.mem[w.at[u]][n] == Entry(v, Child(u, n))
    ensures w.mem[w.at[u]][n] == 0 <==> Child(u, n) !in v.at
    ensures Child(u, n) in v.at ==>
              && Child(u, n) in w.at && w.at[Child(u, n)] == v.at[Child(u, n)] && w.at[Child(u, n)] in w.owner
              && w.owner[w.at[Child(u, n)]] == Child(u, n)
              && Frame(w.mem[w.at[u]][n]) == w.at[Child(u, n)] && w.mem[w.at[u]][n] % PAGE_SIZE != 0
              && (IsTable(Child(u, n)) ==> PageMask(w.mem[w.at[u]][n]) == w.at[Child(u, n)])
  {
    hide PoolOk, Released;
    ScanToStops(v.at, u, n, n, Child(u, n));
    StillThere(v, w, ScanTo(v.at, u, n), u);
    assert v.mem[v.at[u]][n] == Entry(v, Child(u, n));
    if Child(u, n) in v.at {
      StillThere(v, w, ScanTo(v.at, u, n), Child(u, n));
      EntryFrames(v.at[Child(u, n)]);
    }
  }

  lemma NextSubtree(v: Pool, w: Pool, u: Use, n: nat)
    requires PoolOk(v) && PoolOk(w) && IsTable(u) && n < PTRS_PER_TABLE && IsTable(Child(u, n))
    requires SubtreeOk(v, u) && Released(v, w, ScanTo(v.at, u, n))
    ensures SubtreeOk(w, Child(u, n)) && Scan(w.at, Child(u, n)) == Scan(v.at, Child(u, n))
  {
    var c := Child(u, n);
    hide PoolOk, Scan, ScanTo;
    forall x | Below(c, x)
      ensures x in v.at <==> x in w.at
      ensures x in v.at ==> w.at[x] == v.at[x]
    {
      ScanToStops(v.at, u, n, n, x);
    }
    ScanFrame(w.at, v.at, c);
    forall t | t in w.at && IsTable(t) && Below(c, t)
      ensures TableOk(w, t)
    {
      hide Released;
      ScanToStops(v.at, u, n, n, t);
      assert t in v.at && Below(u, t) && TableOk(v, t);
      StillThere(v, w, ScanTo(v.at, u, n), t);
      SameTable(v, w, c, t);
    }
  }

  lemma SameTable(v: Pool, w: Pool, c: Use, t: Use)
    requires t in v.at && t in w.at && IsTable(t) && Below(c, t) && TableOk(v, t) && w.at[t] == v.at[t]
    requires w.at[t] in w.mem && w.mem[w.at[t]] == v.mem[v.at[t]]
    requires forall x :: Below(c, x) ==> (x in v.at <==> x in w.at)
    requires forall x :: Below(c, x) && x in v.at ==> w.at[x] == v.at[x]
    ensures TableOk(w, t)
  {
    forall i: nat | i < PTRS_PER_TABLE
      ensures w.mem[w.at[t]][i] == Entry(w, Child(t, i))
    {
      assert v.mem[v.at[t]][i] == Entry(v, Child(t, i));
      assert Below(c, Child(t, i));
    }
  }

  lemma SubtreeTable(v: Pool, u: Use)
    requires PoolOk(v) && SubtreeOk(v, u) && IsTable(u) && u in v.at
    ensures TableOk(v, u)
  {
  }

  lemma ScanStart(v: Pool, u: Use)
    requires PoolOk(v) && IsTable(u) && u in v.at && TableOk(v, u)
    ensures Released(v, v, ScanTo(v.at, u, 0))
    ensures v.at[u] in v.mem && |v.mem[v.at[u]]| == PTRS_PER_TABLE
    ensures v.mem[v.at[u]][0] == 0 <==> Child(u, 0) !in v.at
  {
    ReleasedNothing(v);
    assert v.mem[v.at[u]][0] == Entry(v, Child(u, 0));
  }

  /** One more child of table `u` was given back. */
  lemma ScanMore(v: Pool, w: Pool, x: Pool, u: Use, n: nat)
    requires PoolOk(v) && PoolOk(w) && PoolOk(x) && IsTable(u)
    requires Released(v, w, ScanTo(v.at, u, n)) && Released(w, x, Scan(v.at, Child(u, n)))
    ensures Released(v, x, ScanTo(v.at, u, n + 1))
  {
    hide PoolOk, Released;
    ReleasedThen(v, w, x, ScanTo(v.at, u, n), Scan(v.at, Child(u, n)));
  }

  lemma LeafScan(at: map<Use, nat>, u: Use)
    requires u.Data?
    ensures Scan(at, u) == {u}
  {
  }

  /** The scan of table `u` stopped at its first gap. */
  lemma EndOfScan(v: Pool, w: Pool, u: Use, n: nat)
    requires PoolOk(v) && PoolOk(w) && IsTable(u) && u in v.at && Released(v, w, ScanTo(v.at, u, n))
    requires n <= PTRS_PER_TABLE
    requires forall j: nat :: j < n ==> Child(u, j) in v.at
    requires n < PTRS_PER_TABLE ==> Child(u, n) !in v.at
    ensures Gap(v.at, u) == n && u in w.at && w.at[u] == v.at[u] && w.at[u] in w.owner && w.owner[w.at[u]] == u
  {
    hide PoolOk, Released;
    GapIs(v.at, u, n);
    ScanToStops(v.at, u, n, n, Child(u, n));
    StillThere(v, w, ScanTo(v.at, u, n), u);
  }

  lemma ScanLast(v: Pool, w: Pool, x: Pool, u: Use, n: nat)
    requires PoolOk(v) && PoolOk(w) && PoolOk(x) && IsTable(u) && n == Gap(v.at, u)
    requires Released(v, w, ScanTo(v.at, u, n)) && Released(w, x, {u})
    ensures Released(v, x, Scan(v.at, u))
  {
    hide PoolOk, Released;
    ReleasedThen(v, w, x, ScanTo(v.at, u, n), {u});
  }

  // ----- the end of an inode's tables -----

  /** The pool after the pages still used by inode `ino` are given up. */
  ghost function Abandoned(v: Pool, ino: Ino): Pool {
    v.(owner := map p | p in v.owner :: if Owned(v.owner[p], ino) then Held(p) else v.owner[p],
       at := (map u | u in v.at && !Owned(u, ino) :: v.at[u])
             + (map p | p in v.owner && Owned(v.owner[p], ino) :: Held(p) := p))
  }

  lemma AbandonKeepsPool(v: Pool, ino: Ino)
    requires PoolOk(v)
    ensures PoolOk(Abandoned(v, ino))
  {
    AbandonBijective(v, ino);
    AbandonHeld(v, ino);
    hide Bijective, ListOk, Abandoned, Owned;
    forall r: nat | r < 2
      ensures ListOk(Abandoned(v, ino), r)
    {
      AbandonList(v, ino, r);
    }
    forall r: nat, h: nat | Free(r, h) in Abandoned(v, ino).at
      ensures r < 2
    {
      AbandonUses(v, ino, Free(r, h));
    }
  }

  lemma AbandonHeld(v: Pool, ino: Ino)
    requires Bijective(v) && forall p :: Held(p) in v.at ==> v.at[Held(p)] == p
    ensures var w := Abandoned(v, ino); forall p :: Held(p) in w.at ==> w.at[Held(p)] == p
    ensures Abandoned(v, ino).owner.Keys == v.owner.Keys
  {
  }

  lemma AbandonList(v: Pool, ino: Ino, r: nat)
    requires |v.head| == |v.count| == |v.tail| == 2 && r < 2 && ListOk(v, r)
    ensures var w := Abandoned(v, ino); w.head == v.head && w.count == v.count && w.tail == v.tail && ListOk(w, r)
  {
    var w := Abandoned(v, ino);
    forall h: nat
      ensures Free(r, h) in w.at <==> Free(r, h) in v.at
      ensures Free(r, h) in v.at ==> w.at[Free(r, h)] == v.at[Free(r, h)]
    {
      AbandonUses(v, ino, Free(r, h));
    }
    assert w.mem == v.mem && w.numa == v.numa && w.head == v.head && w.count == v.count && w.tail == v.tail;
    hide Abandoned;
    assert forall h: nat :: Free(r, h) in v.at ==> v.at[Free(r, h)] in v.mem;
    hide ListOk;
    ListFrame(v, w, r);
  }

  lemma AbandonBijective(v: Pool, ino: Ino)
    requires Bijective(v) && forall p :: Held(p) in v.at ==> v.at[Held(p)] == p
    ensures Bijective(Abandoned(v, ino))
  {
  }

  lemma AbandonUses(v: Pool, ino: Ino, u: Use)
    requires !u.Held?
    ensures var w := Abandoned(v, ino);
            && (u in w.at <==> u in v.at && !Owned(u, ino))
            && (u in w.at ==> w.at[u] == v.at[u])
  {
  }

  /** What is left of a forest after the tables of `ino` were scanned and the rest given up. */
  lemma TeardownForest(v: Pool, w: Pool, s: set<Use>, ino: Ino)
    requires PoolOk(v) && PoolOk(w) && Forest(v) && Released(v, w, s) && forall x :: x in s ==> Owned(x, ino)
    ensures Forest(Abandoned(w, ino))
  {
    hide *;
    forall other: Ino
      ensures TreeOk(Abandoned(w, ino), other)
    {
      if other == ino {
        AbandonedTree(w, ino);
      } else {
        TeardownTree(v, w, s, ino, other);
      }
    }
    AllTrees(Abandoned(w, ino));
  }

  lemma AllTrees(v: Pool)
    requires forall ino: Ino :: TreeOk(v, ino)
    ensures Forest(v)
  {
  }

  lemma AbandonedTree(v: Pool, ino: Ino)
    ensures TreeOk(Abandoned(v, ino), ino)
  {
    forall u: Use | Owned(u, ino)
      ensures u !in Abandoned(v, ino).at
    {
      AbandonUses(v, ino, u);
    }
  }

  lemma TeardownTree(v: Pool, w: Pool, s: set<Use>, ino: Ino, other: Ino)
    requires PoolOk(v) && PoolOk(w) && Forest(v) && Released(v, w, s) && forall x :: x in s ==> Owned(x, ino)
    requires other != ino
    ensures TreeOk(Abandoned(w, ino), other)
  {
    hide PoolOk, Abandoned, Released, TreeOk, TreeCore, Scan;
    var x := Abandoned(w, ino);
    AbandonMem(w, ino);
    forall u: Use | Owned(u, other)
      ensures u in x.at <==> u in v.at
      ensures u in x.at ==> x.at[u] == v.at[u]
      ensures u in v.at ==> v.at[u] in v.mem && v.at[u] in x.mem && x.mem[v.at[u]] == v.mem[v.at[u]]
    {
      AbandonUses(w, ino, u);
      ReleasedUse(v, w, s, u);
      if u in v.at {
        StillThere(v, w, s, u);
      }
    }
    assert TreeOk(v, other);
    TreeParts(v, other);
    TreeFrame(v, x, other);
  }

  lemma TreeParts(v: Pool, ino: Ino)
    requires TreeOk(v, ino)
    ensures TreeCore(v, ino)
  {
  }

  lemma ReleasedUse(v: Pool, w: Pool, s: set<Use>, u: Use)
    requires PoolOk(v) && PoolOk(w) && Released(v, w, s) && !u.Free?
    ensures u in w.at <==> u in v.at && u !in s
    ensures u in w.at ==> w.at[u] == v.at[u]
  {
  }

  lemma AbandonMem(v: Pool, ino: Ino)
    ensures var w := Abandoned(v, ino); w.mem == v.mem && w.numa == v.numa && w.head == v.head && w.count == v.count
  {
  }

  /** From `v` to `w` the tables of inode `ino` were torn down: the pages its scan reached are
      free, its other pages are lost, and every other page has the use it had and, unless it is free, the contents. */
  ghost predicate TornDown(v: Pool, w: Pool, ino: Ino) {
    && w.owner.Keys == v.owner.Keys
    && (forall p :: p in v.owner ==>
          if !Owned(v.owner[p], ino) then w.owner[p] == v.owner[p]
          else if v.owner[p] in Scan(v.at, Root(ino)) then w.owner[p].Free?
          else w.owner[p] == Held(p))
    && (forall p :: p in v.owner && !Owned(v.owner[p], ino) && !v.owner[p].Free? ==>
          p in v.mem && p in w.mem && w.mem[p] == v.mem[p])
  }

  lemma TornDownBy(v: Pool, w: Pool, ino: Ino)
    requires PoolOk(v) && PoolOk(w) && Released(v, w, Scan(v.at, Root(ino))) && w.owner.Keys == v.owner.Keys
    ensures TornDown(v, Abandoned(w, ino), ino)
    ensures forall x :: x in Scan(v.at, Root(ino)) ==> Owned(x, ino)
  {
    hide Scan, PoolOk, Released, Abandoned, Bijective;
    var s := Scan(v.at, Root(ino));
    forall x | x in s
      ensures Owned(x, ino)
    {
      ScanBelow(v.at, Root(ino), x);
    }
    AbandonOwner(w, ino);
    AbandonMem(w, ino);
    PoolParts(v);
    PoolParts(w);
    forall p | p in v.owner
      ensures p in w.owner && if v.owner[p] in s then w.owner[p].Free? else w.owner[p] == v.owner[p]
      ensures !w.owner[p].Free? ==> w.mem[p] == v.mem[p]
    {
      ReleasedPage(v, w, s, p);
    }
  }

  lemma ReleasedPage(v: Pool, w: Pool, s: set<Use>, p: nat)
    requires PoolOk(v) && PoolOk(w) && Released(v, w, s) && p in v.owner
    ensures p in w.owner && if v.owner[p] in s then w.owner[p].Free? else w.owner[p] == v.owner[p]
    ensures w.owner.Keys == v.owner.Keys && v.mem.Keys == w.mem.Keys == v.owner.Keys
    ensures !w.owner[p].Free? ==> w.mem[p] == v.mem[p]
  {
    var u := v.owner[p];
    assert u in v.at && v.at[u] == p;
    if u !in s {
      assert u in w.at && w.at[u] == p;
    }
  }

  lemma AbandonOwner(v: Pool, ino: Ino)
    ensures var w := Abandoned(v, ino);
            && w.owner.Keys == v.owner.Keys
            && forall p :: p in v.owner ==> w.owner[p] == if Owned(v.owner[p], ino) then Held(p) else v.owner[p]
  {
  }

  /** A teardown gives all pages of the inode back exactly when its tables have no gap. */
  lemma TeardownConservesIffGapFree(v: Pool, w: Pool, ino: Ino)
    requires PoolOk(v) && TreeOk(v, ino) && Root(ino) in v.at && TornDown(v, w, ino)
    ensures FreePages(w) == FreePages(v) + OwnedPages(v, ino) <==> GapFree(v, ino)
    ensures HeldPages(w) == HeldPages(v) <==> GapFree(v, ino)
    ensures OwnedPages(w, ino) == {}
  {
    hide Scan, TreeOk, PoolOk, GapFree;
    ScanIsEverythingIffGapFree(v, ino);
    PoolParts(v);
    forall x | x in v.at && Owned(x, ino) && x !in Scan(v.at, Root(ino))
      ensures v.at[x] in HeldPages(w) && v.at[x] !in HeldPages(v) && v.at[x] !in FreePages(w)
      ensures v.at[x] in OwnedPages(v, ino)
    {
      assert v.owner[v.at[x]] == x;
    }
    assert forall p :: p in v.owner && Owned(v.owner[p], ino) ==> v.owner[p] in v.at;
  }
}
