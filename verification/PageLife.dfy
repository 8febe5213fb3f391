/** What the page tables of an inode hold after any run of block allocations, when that agrees with
    a plain sequence of pages, and what a whole life of an inode does to the free lists. */
module PageLife {
  import opened Machine
  import opened PageUses
  import opened PageTakes
  import opened PageScan
  import opened PageSlots
  import opened PageTeardown
  import opened PageStore

  /** Block `k` of an inode whose block `i` was inserted at virtual base `bases[i]`. */
  ghost function Block(ino: Ino, bases: seq<nat>, k: nat): Use
    requires k < |bases|
  {
    BlockUse(ino, InsertSlot(bases[k], k))
  }

  /** The inode owns exactly its first tables, the blocks inserted at `bases`, which are the pages
      `pages`, and the tables above them. */
  ghost predicate FilledBy(v: Pool, ino: Ino, bases: seq<nat>, pages: seq<nat>) {
    && |pages| == |bases|
    && (forall u :: Owned(u, ino) && u in v.at ==>
          FirstTable(u, ino) || exists k: nat :: k < |bases| && OnPath(u, Block(ino, bases, k)))
    && (forall u :: FirstTable(u, ino) ==> u in v.at)
    && (forall k: nat :: k < |bases| ==> Block(ino, bases, k) in v.at && v.at[Block(ino, bases, k)] == pages[k])
  }

  /** All blocks were inserted from areas of the inode's kind, in range. */
  ghost predicate InRange(m: Mode, bases: seq<nat>) {
    |bases| <= BlockLimit(m) && forall k: nat :: k < |bases| ==> AreaBase(m, bases[k])
  }

  /** No block but the first was inserted from the last directory area. */
  ghost predicate NoneStray(bases: seq<nat>) {
    forall k: nat :: 0 < k < |bases| ==> bases[k] != LAST_DIR_AREA
  }

  /** The page tables agree with the sequence `pages`: looking block `k` up gives `pages[k]`. */
  ghost predicate Represents(v: Pool, ino: Ino, pages: seq<nat>) {
    forall k: nat :: k < |pages| ==>
      BlockUse(ino, LookupSlot(k)) in v.at && v.at[BlockUse(ino, LookupSlot(k))] == pages[k]
  }

  ghost function Repeat(x: nat, n: nat): (s: seq<nat>)
    ensures |s| == n && forall i: nat :: i < n ==> s[i] == x
  {
    seq(n, _ => x)
  }

  lemma FreshInode(v: Pool, w: Pool, ino: Ino)
    requires PoolOk(v) && PoolOk(w) && Takes(v, w, {}, {Root(ino), Pmd(ino, 0), Pte(ino, 0, 0)})
    requires forall u :: u in v.at ==> !Owned(u, ino)
    ensures FilledBy(w, ino, [], [])
  {
    hide PoolOk, Takes;
    PoolParts(v);
    PoolParts(w);
    HeldKeys(v);
    var news := {Root(ino), Pmd(ino, 0), Pte(ino, 0, 0)};
    forall u | Owned(u, ino)
      ensures u in w.at <==> u in news
    {
      TakesUses(v, w, {}, news, u);
    }
  }

  lemma BlockOf(ino: Ino, bases: seq<nat>, vaddr: nat, n: nat, k: nat)
    requires k < |bases| + n
    ensures var b2 := bases + Repeat(vaddr, n);
            Block(ino, b2, k) ==
            if k < |bases| then Block(ino, bases, k) else NthBlock(ino, vaddr, |bases|, k - |bases|)
  {
  }

  lemma FilledMoreUse(v: Pool, w: Pool, ino: Ino, bases: seq<nat>, pages: seq<nat>, vaddr: nat, ps: seq<nat>,
                      news: set<Use>, u: Use)
    requires PoolOk(v) && PoolOk(w) && FilledBy(v, ino, bases, pages) && Takes(v, w, {}, news)
    requires NewBlocks(ino, vaddr, |bases|, |ps|, news) && Owned(u, ino) && u in w.at
    ensures var b2 := bases + Repeat(vaddr, |ps|);
            FirstTable(u, ino) || exists k: nat :: k < |b2| && OnPath(u, Block(ino, b2, k))
  {
    hide PoolOk, Takes, InsertSlot;
    PoolParts(v);
    PoolParts(w);
    HeldKeys(v);
    hide Bijective;
    TakesUses(v, w, {}, news, u);
    var n := |bases|;
    var b2 := bases + Repeat(vaddr, |ps|);
    if !FirstTable(u, ino) {
      if u in news {
        var i: nat :| i < |ps| && OnPath(u, NthBlock(ino, vaddr, n, i));
        BlockOf(ino, bases, vaddr, |ps|, n + i);
        assert OnPath(u, Block(ino, b2, n + i));
      } else {
        var k: nat :| k < n && OnPath(u, Block(ino, bases, k));
        BlockOf(ino, bases, vaddr, |ps|, k);
        assert OnPath(u, Block(ino, b2, k));
      }
    }
  }

  lemma TakesKeeps(v: Pool, w: Pool, news: set<Use>, u: Use)
    requires PoolOk(v) && PoolOk(w) && Takes(v, w, {}, news) && u in v.at && !u.Free? && !u.Held?
    ensures u in w.at && w.at[u] == v.at[u]
  {
    hide PoolOk, Takes;
    PoolParts(v);
    PoolParts(w);
    HeldKeys(v);
    TakesUses(v, w, {}, news, u);
    TakesFresh(v, w, {}, news, u);
  }

  /** A successful allocation of blocks extends what the inode holds by exactly these blocks. */
  lemma FilledMore(v: Pool, w: Pool, ino: Ino, bases: seq<nat>, pages: seq<nat>, vaddr: nat, ps: seq<nat>,
                   news: set<Use>)
    requires PoolOk(v) && PoolOk(w) && FilledBy(v, ino, bases, pages) && Takes(v, w, {}, news)
    requires NewBlocks(ino, vaddr, |bases|, |ps|, news) && BlocksAt(w.at, ino, vaddr, |bases|, ps)
    ensures FilledBy(w, ino, bases + Repeat(vaddr, |ps|), pages + ps)
  {
    hide PoolOk, Takes, NewBlocks;
    var n := |bases|;
    var b2 := bases + Repeat(vaddr, |ps|);
    forall u | Owned(u, ino) && u in w.at
      ensures FirstTable(u, ino) || exists k: nat :: k < |b2| && OnPath(u, Block(ino, b2, k))
    {
      hide FilledBy;
      FilledMoreUse(v, w, ino, bases, pages, vaddr, ps, news, u);
    }
    forall u | FirstTable(u, ino)
      ensures u in w.at
    {
      TakesKeeps(v, w, news, u);
    }
    forall k: nat | k < |b2|
      ensures Block(ino, b2, k) in w.at && w.at[Block(ino, b2, k)] == (pages + ps)[k]
    {
      hide Block;
      BlockOf(ino, bases, vaddr, |ps|, k);
      if k < n {
        assert Block(ino, bases, k) in v.at;
        IsBlock(ino, bases, k);
        TakesKeeps(v, w, news, Block(ino, bases, k));
      }
    }
  }

  lemma IsBlock(ino: Ino, bases: seq<nat>, k: nat)
    requires k < |bases|
    ensures Block(ino, bases, k).Data?
  {
  }

  // ----- agreement with a plain sequence -----

  lemma StrayIsSmall(m: Mode)
    requires AreaBase(m, LAST_DIR_AREA)
    ensures Small(m)
  {
  }

  /** After any allocations, the tables agree with the sequence of pages that was inserted exactly
      when no block but the first was inserted from the last directory area. */
  lemma RepresentsIffNoneStray(v: Pool, ino: Ino, m: Mode, bases: seq<nat>, pages: seq<nat>)
    requires PoolOk(v) && FilledBy(v, ino, bases, pages) && InRange(m, bases)
    ensures Represents(v, ino, pages) <==> NoneStray(bases)
  {
    PoolParts(v);
    hide PoolOk, InsertSlot, LookupSlot, AreaBase, BlockLimit;
    forall k: nat | k < |bases|
      ensures Block(ino, bases, k) == BlockUse(ino, LookupSlot(k)) <==> !(bases[k] == LAST_DIR_AREA && k > 0)
    {
      InsertMeetsLookupIff(m, bases[k], k);
    }
    if Represents(v, ino, pages) {
      forall k: nat | 0 < k < |bases|
        ensures bases[k] != LAST_DIR_AREA
      {
        assert v.at[Block(ino, bases, k)] == pages[k] == v.at[BlockUse(ino, LookupSlot(k))];
        assert v.owner[pages[k]] == Block(ino, bases, k) == BlockUse(ino, LookupSlot(k));
      }
    }
    if NoneStray(bases) {
      forall k: nat | k < |pages|
        ensures BlockUse(ino, LookupSlot(k)) in v.at && v.at[BlockUse(ino, LookupSlot(k))] == pages[k]
      {
        assert Block(ino, bases, k) in v.at;
      }
    }
  }

  // ----- no gaps -----

  lemma AncestorsIn(v: Pool, ino: Ino, d: Use)
    requires TreeOk(v, ino) && d.Data? && d.ino == ino && d in v.at
    ensures Parent(d) in v.at && Parent(Parent(d)) in v.at
    ensures d.a < PTRS_PER_TABLE && d.b < PTRS_PER_TABLE && d.c < PTRS_PER_TABLE
  {
    assert Index(Parent(Parent(d))) == d.a;
  }

  /** With no stray block, an entry is used as soon as a later one of its table is. */
  lemma EarlierEntry(v: Pool, ino: Ino, m: Mode, bases: seq<nat>, pages: seq<nat>, u: Use, i: nat, j: nat)
    requires TreeOk(v, ino) && FilledBy(v, ino, bases, pages) && InRange(m, bases) && NoneStray(bases)
    requires IsTable(u) && u.ino == ino && i < j && Child(u, j) in v.at
    ensures Child(u, i) in v.at
  {
    hide InsertSlot, AreaBase, TreeOk, LookupSlot, SlotNumber, BlockLimit;
    var x := Child(u, j);
    assert Owned(x, ino) && !FirstTable(x, ino);
    var k: nat :| k < |bases| && OnPath(x, Block(ino, bases, k));
    InsertMeetsLookupIff(m, bases[k], k);
    var s := LookupSlot(k);
    var t := match u
      case Root(_) => Slot(i, 0, 0)
      case Pmd(_, a) => Slot(a, i, 0)
      case Pte(_, a, b) => Slot(a, b, i);
    assert Below3(t, s);
    KindLimit(m, |bases|);
    EarlierSlot(t, s, k);
    var k1 := SlotNumber(t);
    InsertMeetsLookupIff(m, bases[k1], k1);
    var d := Block(ino, bases, k1);
    assert d in v.at;
    AncestorsIn(v, ino, d);
    assert d == BlockUse(ino, t);
  }

  /** `t` comes before `s` in table order. */
  ghost predicate Below3(t: Slot, s: Slot) {
    || (t.a < s.a && t.b == t.c == 0)
    || (t.a == s.a && t.b < s.b && t.c == 0)
    || (t.a == s.a && t.b == s.b && t.c < s.c)
  }

  lemma KindLimit(m: Mode, n: nat)
    requires n <= BlockLimit(m)
    ensures n <= PTRS_PER_TABLE * BLOCKS_PER_PUD
  {
  }

  lemma EarlierSlot(t: Slot, s: Slot, k: nat)
    requires Below3(t, s) && s == LookupSlot(k) && k < PTRS_PER_TABLE * BLOCKS_PER_PUD
    ensures SlotNumber(t) < k && LookupSlot(SlotNumber(t)) == t
  {
    LookupSlotNumber(k);
    SlotNumberLookup(t);
  }

  /** The tables of an inode have no gap exactly when no block is stray. */
  lemma GapFreeIffNoneStray(v: Pool, ino: Ino, m: Mode, bases: seq<nat>, pages: seq<nat>)
    requires TreeOk(v, ino) && FilledBy(v, ino, bases, pages) && InRange(m, bases)
    ensures GapFree(v, ino) <==> NoneStray(bases)
  {
    if NoneStray(bases) {
      forall u, i: nat, j: nat | IsTable(u) && u.ino == ino && i < j && Child(u, j) in v.at
        ensures Child(u, i) in v.at
      {
        EarlierEntry(v, ino, m, bases, pages, u, i, j);
      }
    }
    if GapFree(v, ino) {
      forall k: nat | 0 < k < |bases|
        ensures bases[k] != LAST_DIR_AREA
      {
        if bases[k] == LAST_DIR_AREA {
          StrayLeavesGap(v, ino, m, bases, pages, k);
        }
      }
    }
  }

  lemma SmallSlot(m: Mode, vaddr: nat, k: nat)
    requires AreaBase(m, vaddr) && k < BlockLimit(m) && Small(m)
    ensures var s := InsertSlot(vaddr, k);
            s.a == 0 && s.c == k && s.b == if vaddr == LAST_DIR_AREA && k > 0 then 511 else 0
  {
    InsertMeetsLookupIff(m, vaddr, k);
  }

  lemma StrayLeavesGap(v: Pool, ino: Ino, m: Mode, bases: seq<nat>, pages: seq<nat>, k: nat)
    requires TreeOk(v, ino) && FilledBy(v, ino, bases, pages) && InRange(m, bases)
    requires 0 < k < |bases| && bases[k] == LAST_DIR_AREA
    ensures !GapFree(v, ino)
  {
    hide InsertSlot, AreaBase, TreeOk;
    StrayIsSmall(m);
    SmallSlot(m, bases[k], k);
    assert Block(ino, bases, k) == Data(ino, 0, 511, k);
    AncestorsIn(v, ino, Block(ino, bases, k));
    var u := Pmd(ino, 0);
    assert Child(u, 511) in v.at;
    forall k1: nat | k1 < |bases|
      ensures !OnPath(Pte(ino, 0, 1), Block(ino, bases, k1))
    {
      SmallSlot(m, bases[k1], k1);
    }
    assert Child(u, 1) == Pte(ino, 0, 1) && Owned(Pte(ino, 0, 1), ino) && !FirstTable(Pte(ino, 0, 1), ino);
  }

  // ----- conservation -----

  /** Pages taken for an inode come off the lists and go nowhere else. */
  lemma TakesConserve(v: Pool, w: Pool, news: set<Use>, ino: Ino)
    requires PoolOk(v) && PoolOk(w) && Takes(v, w, {}, news) && forall u :: u in news ==> Owned(u, ino)
    ensures FreePages(w) + OwnedPages(w, ino) == FreePages(v) + OwnedPages(v, ino)
    ensures HeldPages(w) == HeldPages(v)
    ensures forall p :: p in v.owner && !v.owner[p].Free? && !Owned(v.owner[p], ino) ==> w.owner[p] == v.owner[p]
  {
  }

  /** The free pages of one region. */
  ghost function RegionPages(v: Pool, r: nat): set<nat> {
    set p | p in v.owner && v.owner[p].Free? && v.owner[p].region == r
  }

  ghost function LowPages(v: Pool, r: nat, n: nat): set<nat>
    requires PoolOk(v) && r < 2 && n <= v.count[r]
  {
    assert ListOk(v, r);
    set h | 0 <= h < n :: v.at[Free(r, h)]
  }

  lemma HeightsDiffer(v: Pool, r: nat, h: nat, g: nat)
    requires PoolOk(v) && r < 2 && h < g < v.count[r]
    ensures Free(r, h) in v.at && Free(r, g) in v.at && v.at[Free(r, h)] != v.at[Free(r, g)]
  {
    assert ListOk(v, r);
    assert v.owner[v.at[Free(r, h)]] == Free(r, h) && v.owner[v.at[Free(r, g)]] == Free(r, g);
  }

  lemma {:induction false} LowPagesCount(v: Pool, r: nat, n: nat)
    requires PoolOk(v) && r < 2 && n <= v.count[r]
    ensures |LowPages(v, r, n)| == n
  {
    hide PoolOk;
    if n > 0 {
      LowPagesCount(v, r, n - 1);
      ListHas(v, r);
      var p := v.at[Free(r, n - 1)];
      forall h: nat | h < n - 1
        ensures v.at[Free(r, h)] != p
      {
        HeightsDiffer(v, r, h, n - 1);
      }
      assert LowPages(v, r, n) == LowPages(v, r, n - 1) + {p};
    }
  }

  lemma ListHas(v: Pool, r: nat)
    requires PoolOk(v) && r < 2
    ensures forall h: nat :: h < v.count[r] ==> Free(r, h) in v.at
  {
    assert ListOk(v, r);
  }

  /** The count of a region is the number of its free pages, all of which lie on its side of the
      NUMA line. */
  lemma CountsAreSizes(v: Pool, r: nat)
    requires PoolOk(v) && r < 2
    ensures |RegionPages(v, r)| == v.count[r]
    ensures RegionPages(v, r) == set p | p in FreePages(v) && Side(v.numa, p) == r
  {
    assert ListOk(v, r);
    LowPagesCount(v, r, v.count[r]);
    forall p | p in RegionPages(v, r)
      ensures p in LowPages(v, r, v.count[r])
    {
      assert v.owner[p] in v.at && v.at[v.owner[p]] == p;
      assert v.owner[p] == Free(r, v.owner[p].height);
    }
    assert RegionPages(v, r) == LowPages(v, r, v.count[r]);
    forall p | p in FreePages(v) && Side(v.numa, p) == r
      ensures p in RegionPages(v, r)
    {
      var u := v.owner[p];
      assert u in v.at && v.at[u] == p && u == Free(u.region, u.height);
      assert ListOk(v, u.region);
    }
  }

  /** Pools with the same free pages have the same counts. */
  lemma SameFreeSameCounts(v: Pool, w: Pool)
    requires PoolOk(v) && PoolOk(w) && v.numa == w.numa && FreePages(v) == FreePages(w)
    ensures v.count == w.count
  {
    hide PoolOk;
    PoolLengths(v);
    PoolLengths(w);
    forall r: nat | r < 2
      ensures v.count[r] == w.count[r]
    {
      CountsAreSizes(v, r);
      CountsAreSizes(w, r);
    }
    assert v.count == [v.count[0], v.count[1]] && w.count == [w.count[0], w.count[1]];
  }

  // ----- runs over many inodes -----

  /** One operation of a run.  `Grow` allocates `num` blocks while the inode is mapped at `vaddr`. */
  datatype Op =
    | Start(ino: Ino)
    | Grow(ino: Ino, vaddr: nat, num: nat, clear: bool)
    | Drop(ino: Ino)

  /** Where the blocks of an inode were inserted from, and which pages they are. */
  datatype Fill = Fill(bases: seq<nat>, pages: seq<nat>)

  /** Every inode with tables holds exactly the blocks recorded for it. */
  ghost predicate Tracked(v: Pool, inodes: map<Ino, Inode>, fills: map<Ino, Fill>) {
    && (forall ino :: ino in inodes ==> (inodes[ino].pgAddr != 0 <==> ino in fills))
    && (forall ino :: ino in fills ==>
          && ino in inodes && FilledBy(v, ino, fills[ino].bases, fills[ino].pages)
          && InRange(inodes[ino].mode, fills[ino].bases) && |fills[ino].bases| == inodes[ino].blocks)
    && (forall ino :: ino in inodes && ino !in fills ==> inodes[ino].blocks == 0)
  }

  /** What an inode holds is not touched by steps that keep its uses. */
  lemma FilledFrame(v: Pool, w: Pool, ino: Ino, bases: seq<nat>, pages: seq<nat>)
    requires FilledBy(v, ino, bases, pages)
    requires forall u :: Owned(u, ino) ==> (u in v.at <==> u in w.at) && (u in v.at ==> w.at[u] == v.at[u])
    ensures FilledBy(w, ino, bases, pages)
  {
    forall k: nat | k < |bases|
      ensures Block(ino, bases, k) in w.at && w.at[Block(ino, bases, k)] == pages[k]
    {
      assert Owned(Block(ino, bases, k), ino);
    }
  }

  lemma OthersKept(v: Pool, w: Pool, news: set<Use>, ino: Ino, other: Ino, u: Use)
    requires PoolOk(v) && PoolOk(w) && Takes(v, w, {}, news) && other != ino && Owned(u, other)
    requires forall x :: x in news ==> Owned(x, ino)
    ensures (u in v.at <==> u in w.at) && (u in v.at ==> w.at[u] == v.at[u])
  {
    hide PoolOk, Takes;
    PoolParts(v);
    PoolParts(w);
    HeldKeys(v);
    TakesUses(v, w, {}, news, u);
  }

  lemma TornDownOthers(v: Pool, w: Pool, ino: Ino, other: Ino, u: Use)
    requires PoolOk(v) && PoolOk(w) && TornDown(v, w, ino) && other != ino && Owned(u, other)
    ensures (u in v.at <==> u in w.at) && (u in v.at ==> w.at[u] == v.at[u])
  {
    if u in v.at {
      assert v.owner[v.at[u]] == u && w.owner[v.at[u]] == u;
    }
    if u in w.at {
      assert w.owner[w.at[u]] == u;
      assert v.owner[w.at[u]] == u;
    }
  }

  lemma NewBlocksOwned(ino: Ino, vaddr: nat, k: nat, n: nat, news: set<Use>)
    requires NewBlocks(ino, vaddr, k, n, news)
    ensures forall u :: u in news ==> Owned(u, ino)
  {
  }

  ghost predicate KeepsOthers(v: Pool, w: Pool, ino: Ino) {
    forall u: Use :: !u.Free? && !u.Held? && u.ino != ino ==>
      (u in v.at <==> u in w.at) && (u in v.at ==> w.at[u] == v.at[u])
  }

  lemma TakesKeepsOthers(v: Pool, w: Pool, news: set<Use>, ino: Ino)
    requires PoolOk(v) && PoolOk(w) && Takes(v, w, {}, news) && forall x :: x in news ==> Owned(x, ino)
    ensures KeepsOthers(v, w, ino)
  {
    hide PoolOk, Takes;
    forall u: Use | !u.Free? && !u.Held? && u.ino != ino
      ensures (u in v.at <==> u in w.at) && (u in v.at ==> w.at[u] == v.at[u])
    {
      OthersKept(v, w, news, ino, u.ino, u);
    }
  }

  lemma TornDownKeepsOthers(v: Pool, w: Pool, ino: Ino)
    requires PoolOk(v) && PoolOk(w) && TornDown(v, w, ino)
    ensures KeepsOthers(v, w, ino)
  {
    hide PoolOk, TornDown;
    forall u: Use | !u.Free? && !u.Held? && u.ino != ino
      ensures (u in v.at <==> u in w.at) && (u in v.at ==> w.at[u] == v.at[u])
    {
      TornDownOthers(v, w, ino, u.ino, u);
    }
  }

  /** The records of the other inodes stay right when one inode changes. */
  lemma TrackedOthers(v: Pool, w: Pool, was: map<Ino, Inode>, fills: map<Ino, Fill>, ino: Ino)
    requires Tracked(v, was, fills) && ino in was && KeepsOthers(v, w, ino)
    ensures forall other: Ino :: other in fills && other != ino ==>
              && other in was && FilledBy(w, other, fills[other].bases, fills[other].pages)
              && InRange(was[other].mode, fills[other].bases) && |fills[other].bases| == was[other].blocks
  {
    forall other: Ino | other in fills && other != ino
      ensures FilledBy(w, other, fills[other].bases, fills[other].pages)
    {
      FilledFrame(v, w, other, fills[other].bases, fills[other].pages);
    }
  }

  lemma TrackedWithout(v: Pool, w: Pool, was: map<Ino, Inode>, i: Inode, fills: map<Ino, Fill>, ino: Ino)
    requires Tracked(v, was, fills) && ino in was && KeepsOthers(v, w, ino) && i.pgAddr == 0 && i.blocks == 0
    ensures Tracked(w, was[ino := i], fills - {ino})
  {
    TrackedOthers(v, w, was, fills, ino);
    hide FilledBy, InRange, KeepsOthers;
  }

  lemma TrackedWith(v: Pool, w: Pool, was: map<Ino, Inode>, i: Inode, fills: map<Ino, Fill>, ino: Ino, f: Fill)
    requires Tracked(v, was, fills) && ino in was && KeepsOthers(v, w, ino) && i.pgAddr != 0
    requires FilledBy(w, ino, f.bases, f.pages) && InRange(i.mode, f.bases) && |f.bases| == i.blocks
    ensures Tracked(w, was[ino := i], fills[ino := f])
  {
    TrackedOthers(v, w, was, fills, ino);
    hide FilledBy, InRange, KeepsOthers;
  }

  lemma TrackGrow(v: Pool, w: Pool, was: map<Ino, Inode>, i: Inode, fills: map<Ino, Fill>, ino: Ino,
                  vaddr: nat, ps: seq<nat>, news: set<Use>)
    requires PoolOk(v) && PoolOk(w) && Tracked(v, was, fills) && ino in fills && Takes(v, w, {}, news)
    requires NewBlocks(ino, vaddr, was[ino].blocks, |ps|, news) && BlocksAt(w.at, ino, vaddr, was[ino].blocks, ps)
    requires AreaBase(was[ino].mode, vaddr) && was[ino].blocks + |ps| <= BlockLimit(was[ino].mode)
    requires i == was[ino].(blocks := was[ino].blocks + |ps|, pgAddr := i.pgAddr) && i.pgAddr != 0
    ensures var f := Fill(fills[ino].bases + Repeat(vaddr, |ps|), fills[ino].pages + ps);
            Tracked(w, was[ino := i], fills[ino := f])
    ensures HeldPages(w) == HeldPages(v)
  {
    hide PoolOk, Takes, FilledBy, NewBlocks, BlocksAt, AreaBase, BlockLimit, HeldPages, KeepsOthers;
    FilledMore(v, w, ino, fills[ino].bases, fills[ino].pages, vaddr, ps, news);
    NewBlocksOwned(ino, vaddr, was[ino].blocks, |ps|, news);
    TakesConserve(v, w, news, ino);
    TakesKeepsOthers(v, w, news, ino);
    var f := Fill(fills[ino].bases + Repeat(vaddr, |ps|), fills[ino].pages + ps);
    assert InRange(i.mode, f.bases);
    hide Tracked;
    TrackedWith(v, w, was, i, fills, ino, f);
  }

  lemma TrackStart(v: Pool, w: Pool, was: map<Ino, Inode>, i: Inode, fills: map<Ino, Fill>, ino: Ino)
    requires PoolOk(v) && PoolOk(w) && Forest(v) && Tracked(v, was, fills) && InodesOk(v.at, was)
    requires ino in was && was[ino].pgAddr == 0
    requires Takes(v, w, {}, {Root(ino), Pmd(ino, 0), Pte(ino, 0, 0)})
    requires i == was[ino].(pgAddr := i.pgAddr) && i.pgAddr != 0
    ensures Tracked(w, was[ino := i], fills[ino := Fill([], [])]) && HeldPages(w) == HeldPages(v)
  {
    hide PoolOk, Takes, FilledBy, HeldPages, Forest, InodesOk, KeepsOthers;
    NoRoot(v, was, ino);
    NoOwned(v, ino);
    var news := {Root(ino), Pmd(ino, 0), Pte(ino, 0, 0)};
    FreshInode(v, w, ino);
    TakesConserve(v, w, news, ino);
    TakesKeepsOthers(v, w, news, ino);
    assert i.blocks == 0;
    assert InRange(i.mode, Fill([], []).bases);
    hide Tracked;
    TrackedWith(v, w, was, i, fills, ino, Fill([], []));
  }

  lemma NoOwned(v: Pool, ino: Ino)
    requires Forest(v) && Root(ino) !in v.at
    ensures forall u :: u in v.at ==> !Owned(u, ino)
  {
    assert TreeOk(v, ino);
  }

  lemma TrackDrop(v: Pool, w: Pool, was: map<Ino, Inode>, fills: map<Ino, Fill>, ino: Ino)
    requires PoolOk(v) && PoolOk(w) && Forest(v) && Tracked(v, was, fills) && ino in fills && TornDown(v, w, ino)
    ensures Tracked(w, was[ino := was[ino].(pgAddr := 0, blocks := 0)], fills - {ino})
    ensures NoneStray(fills[ino].bases) <==> HeldPages(w) == HeldPages(v)
    ensures HeldPages(v) <= HeldPages(w)
  {
    assert TreeOk(v, ino);
    TornDownHolds(v, w, ino);
    hide PoolOk, Forest, TreeOk, HeldPages, TornDown, FilledBy, KeepsOthers, InRange, GapFree, NoneStray;
    GapFreeIffNoneStray(v, ino, was[ino].mode, fills[ino].bases, fills[ino].pages);
    FilledRoot(v, ino, fills[ino].bases, fills[ino].pages);
    TeardownConservesIffGapFree(v, w, ino);
    TornDownKeepsOthers(v, w, ino);
    TrackedWithout(v, w, was, was[ino].(pgAddr := 0, blocks := 0), fills, ino);
  }

  lemma SameByTeardown(v: Pool, w: Pool, ino: Ino)
    requires PoolOk(v) && TornDown(v, w, ino)
    ensures w.numa == v.numa ==> SameFrame(v, w)
  {
  }

  lemma TornDownHolds(v: Pool, w: Pool, ino: Ino)
    requires TornDown(v, w, ino)
    ensures HeldPages(v) <= HeldPages(w)
  {
  }

  lemma FilledRoot(v: Pool, ino: Ino, bases: seq<nat>, pages: seq<nat>)
    requires FilledBy(v, ino, bases, pages)
    ensures Root(ino) in v.at
  {
    assert FirstTable(Root(ino), ino);
  }

  /** With no inode holding tables, a page is free or held. */
  lemma IdlePool(v: Pool, inodes: map<Ino, Inode>)
    requires PoolOk(v) && Forest(v) && InodesOk(v.at, inodes) && forall ino :: ino in inodes ==> inodes[ino].pgAddr == 0
    ensures FreePages(v) == v.owner.Keys - HeldPages(v)
  {
    forall p | p in v.owner
      ensures v.owner[p].Free? || v.owner[p].Held?
    {
      var u := v.owner[p];
      assert u in v.at;
      if !u.Free? && !u.Held? {
        if u.ino in inodes {
          NoRoot(v, inodes, u.ino);
        }
        NoOwned(v, u.ino);
      }
    }
  }

  ghost predicate Idle(inodes: map<Ino, Inode>) {
    forall ino :: ino in inodes ==> inodes[ino].pgAddr == 0 && inodes[ino].blocks == 0
  }

  ghost predicate NoLastArea(ops: seq<Op>) {
    forall i: nat :: i < |ops| && ops[i].Grow? ==> ops[i].vaddr != LAST_DIR_AREA
  }

  // ----- what a run does to the bases, from its operations alone -----

  ghost function ModesOf(inodes: map<Ino, Inode>): map<Ino, Mode> {
    map ino | ino in inodes :: inodes[ino].mode
  }

  ghost function BasesOf(b: map<Ino, seq<nat>>, ino: Ino): seq<nat> {
    if ino in b then b[ino] else []
  }

  /** The inodes that have tables after the operations, and where their blocks were inserted from. */
  ghost function BasesAfter(modes: map<Ino, Mode>, ops: seq<Op>): map<Ino, seq<nat>> {
    if ops == [] then map[] else StepBases(modes, BasesAfter(modes, ops[..|ops| - 1]), ops[|ops| - 1])
  }

  ghost function StepBases(modes: map<Ino, Mode>, b: map<Ino, seq<nat>>, op: Op): map<Ino, seq<nat>> {
    var s := BasesOf(b, op.ino);
    if op.ino !in modes then b else
      match op
      case Start(ino) => b[ino := s]
      case Drop(ino) => b - {ino}
      case Grow(ino, vaddr, num, clear) =>
        if AreaBase(modes[ino], vaddr) && |s| + num <= BlockLimit(modes[ino])
        then b[ino := s + Repeat(vaddr, num)] else b
  }

  /** Operation `n` drops the blocks of an inode that has a stray one. */
  ghost predicate DropsStray(modes: map<Ino, Mode>, ops: seq<Op>, n: nat)
    requires n < |ops|
  {
    ops[n].Drop? && !NoneStray(BasesOf(BasesAfter(modes, ops[..n]), ops[n].ino))
  }

  ghost predicate LosesPages(modes: map<Ino, Mode>, ops: seq<Op>) {
    exists n: nat :: n < |ops| && DropsStray(modes, ops, n)
  }

  lemma OneMoreOp(modes: map<Ino, Mode>, ops: seq<Op>, i: nat)
    requires i < |ops|
    ensures BasesAfter(modes, ops[..i + 1]) == StepBases(modes, BasesAfter(modes, ops[..i]), ops[i])
    ensures LosesPages(modes, ops[..i + 1]) <==> LosesPages(modes, ops[..i]) || DropsStray(modes, ops, i)
  {
    var was, now := ops[..i], ops[..i + 1];
    assert now[..i] == was && now[i] == ops[i];
    hide NoneStray, StepBases;
    forall n: nat | n < i
      ensures DropsStray(modes, now, n) == DropsStray(modes, was, n)
    {
      assert now[..n] == was[..n];
    }
    assert DropsStray(modes, now, i) == DropsStray(modes, ops, i);
    if LosesPages(modes, was) {
      var n: nat :| n < |was| && DropsStray(modes, was, n);
      assert DropsStray(modes, now, n);
    }
  }

  /** A run that never grows an inode mapped in the last directory area loses nothing. */
  lemma NoLastAreaLosesNothing(modes: map<Ino, Mode>, ops: seq<Op>)
    requires NoLastArea(ops)
    ensures !LosesPages(modes, ops)
  {
    forall n: nat | n < |ops|
      ensures !DropsStray(modes, ops, n)
    {
      BasesStayClear(modes, ops[..n], ops[n].ino);
    }
  }

  lemma {:induction false} BasesStayClear(modes: map<Ino, Mode>, ops: seq<Op>, ino: Ino)
    requires NoLastArea(ops)
    ensures NoneStray(BasesOf(BasesAfter(modes, ops), ino))
  {
    if ops != [] {
      BasesStayClear(modes, ops[..|ops| - 1], ino);
    }
  }

  /** A directory that grew by two blocks in the last directory area loses pages when it is truncated. */
  lemma StrayIsLost(modes: map<Ino, Mode>, ino: Ino, clear: bool)
    requires ino in modes && modes[ino].Directory?
    ensures LosesPages(modes, [Grow(ino, LAST_DIR_AREA, 2, clear), Drop(ino)])
  {
    var ops := [Grow(ino, LAST_DIR_AREA, 2, clear), Drop(ino)];
    OneMoreOp(modes, ops, 0);
    assert ops[..0] == [] && ops[..1] == [ops[0]];
    var b := BasesAfter(modes, ops[..1]);
    assert b == StepBases(modes, map[], ops[0]);
    assert AreaBase(modes[ino], LAST_DIR_AREA) && 2 <= BlockLimit(modes[ino]);
    assert BasesOf(b, ino) == [] + Repeat(LAST_DIR_AREA, 2);
    assert BasesOf(b, ino)[1] == LAST_DIR_AREA;
    assert DropsStray(modes, ops, 1);
  }

  // ----- what a run costs -----

  /** The pages that an operation takes at most from each list. */
  function Cost(op: Op): nat {
    match op
    case Start(_) => 3
    case Grow(_, _, num, _) => 3 + 3 * num
    case Drop(_) => 0
  }

  function Costs(ops: seq<Op>): nat {
    if ops == [] then 0 else Cost(ops[0]) + Costs(ops[1..])
  }

  lemma PlentyNext(numa: bool, was: seq<nat>, now: seq<nat>, ops: seq<Op>, i: nat)
    requires i < |ops|
    ensures Plenty(numa, was, Costs(ops[i..])) ==> Plenty(numa, was, Cost(ops[i]))
    ensures Plenty(numa, was, Costs(ops[i..])) && AtMostTaken(was, now, Cost(ops[i])) ==>
              Plenty(numa, now, Costs(ops[i + 1..]))
  {
    assert ops[i..][1..] == ops[i + 1..];
  }

  // ----- the run -----

  /** The records hold the bases that the operations tell. */
  ghost predicate Agrees(fills: map<Ino, Fill>, b: map<Ino, seq<nat>>) {
    fills.Keys == b.Keys && forall ino :: ino in b ==> fills[ino].bases == b[ino]
  }

  /** The state of a run after the first `i` operations. */
  ghost predicate RunOk(v0: Pool, v: Pool, inodes: map<Ino, Inode>, modes: map<Ino, Mode>, ops: seq<Op>, i: nat,
                        fills: map<Ino, Fill>)
    requires i <= |ops|
  {
    && SameFrame(v0, v) && ModesOf(inodes) == modes && Tracked(v, inodes, fills)
    && Agrees(fills, BasesAfter(modes, ops[..i]))
    && HeldPages(v0) <= HeldPages(v) && (HeldPages(v) == HeldPages(v0) <==> !LosesPages(modes, ops[..i]))
  }

  /** Any run of table creations, block allocations and truncations over any inodes.  As long as no call fails, every
      inode holds the blocks that the operations gave it, and pages are lost exactly when the operations truncate an
      inode with a stray block; otherwise an idle file system has all its pages back on the lists they came from. */
  method RunOps(st: Store, ops: seq<Op>, cpus: (nat, nat) -> nat) returns (ok: bool, ghost fills: map<Ino, Fill>)
    requires st.Valid() && Idle(st.inodes)
    modifies st
    ensures st.Valid()
    ensures ok ==> Tracked(st.pool, st.inodes, fills) && Agrees(fills, BasesAfter(ModesOf(old(st.inodes)), ops))
    ensures ok ==> (HeldPages(st.pool) == old(HeldPages(st.pool)) <==> !LosesPages(ModesOf(old(st.inodes)), ops))
    ensures ok && Idle(st.inodes) ==>
              (FreePages(st.pool) == old(FreePages(st.pool)) <==> !LosesPages(ModesOf(old(st.inodes)), ops))
    ensures ok && Idle(st.inodes) && !LosesPages(ModesOf(old(st.inodes)), ops) ==> st.count == old(st.count)
    ensures Plenty(st.numa, old(st.count), Costs(ops)) ==> ok
  {
    hide RunOk, PoolOk, Forest, InodesOk, HeldPages, FreePages, LosesPages, BasesAfter, Tracked, Agrees, Idle, ModesOf,
         Plenty, AtMostTaken, Costs, Cost;
    ghost var v0, modes := st.pool, ModesOf(st.inodes);
    fills, ok := map[], true;
    NothingRun(v0, st.inodes, ops);
    assert ops[0..] == ops;
    var i := 0;
    while i < |ops|
      invariant i <= |ops| && st.Valid() && ok && RunOk(v0, st.pool, st.inodes, modes, ops, i, fills)
      invariant Plenty(st.numa, old(st.count), Costs(ops)) ==> Plenty(st.numa, st.count, Costs(ops[i..]))
    {
      ghost var before := st.count;
      ok, fills := RunOne(st, ops, i, cpus, v0, modes, fills);
      PlentyNext(st.numa, before, st.count, ops, i);
      if !ok {
        return;
      }
      i := i + 1;
    }
    assert ops[..i] == ops;
    RunEnds(v0, old(st.inodes), st.pool, st.inodes, modes, ops, fills);
  }

  /** One operation of a run. */
  method RunOne(st: Store, ops: seq<Op>, i: nat, cpus: (nat, nat) -> nat, ghost v0: Pool, ghost modes: map<Ino, Mode>,
                ghost fills: map<Ino, Fill>) returns (ok: bool, ghost now: map<Ino, Fill>)
    requires st.Valid() && i < |ops| && RunOk(v0, st.pool, st.inodes, modes, ops, i, fills)
    modifies st
    ensures st.Valid() && (ok ==> RunOk(v0, st.pool, st.inodes, modes, ops, i + 1, now))
    ensures Plenty(st.numa, old(st.count), Cost(ops[i])) ==> ok
    ensures ok ==> AtMostTaken(old(st.count), st.count, Cost(ops[i]))
  {
    hide PoolOk, Forest, InodesOk, RunOk, Takes, Tracked, NewBlocks, BlocksAt, TornDown, AreaBase, Lost, Spends, Plenty,
         AtMostTaken, Enough, Left, AllocAsks, CpuRegion;
    PoolLengths(st.pool);
    TakenNone(st.count, Cost(ops[i]));
    ok, now := true, fills;
    var op := ops[i];
    var ino := op.ino;
    ghost var v, was := st.pool, st.inodes;
    RunFacts(v0, v, was, modes, ops, i, fills, ino);
    if ino !in st.inodes {
      RunSkips(v0, v, was, modes, ops, i, fills);
    } else if op.Start? && st.inodes[ino].pgAddr == 0 {
      if Plenty(st.numa, st.count, 3) {
        PlentyInit(st.numa, st.count, st.inodes[ino], (k: nat) => cpus(i, k));
      }
      var err := st.InitPgTable(ino, cpus(i, 0), cpus(i, 1), cpus(i, 2));
      if err != OK {
        return false, fills;
      }
      RootIsPage(st.pool, st.inodes, ino);
      RunStarts(v0, v, st.pool, was, st.inodes, modes, ops, i, fills);
      now := fills[ino := Fill([], [])];
    } else if op.Drop? && st.inodes[ino].pgAddr != 0 {
      st.TruncateBlocks(ino);
      RunDrops(v0, v, st.pool, was, st.inodes, modes, ops, i, fills);
      now := fills - {ino};
    } else if op.Grow? && AreaBase(st.inodes[ino].mode, op.vaddr) &&
              st.inodes[ino].blocks + op.num <= BlockLimit(st.inodes[ino].mode) {
      ok, now := RunGrow(st, ops, i, cpus, v0, modes, fills);
    } else {
      RunSkips(v0, v, was, modes, ops, i, fills);
    }
  }

  /** An allocation of a run. */
  method RunGrow(st: Store, ops: seq<Op>, i: nat, cpus: (nat, nat) -> nat, ghost v0: Pool, ghost modes: map<Ino, Mode>,
                 ghost fills: map<Ino, Fill>) returns (ok: bool, ghost now: map<Ino, Fill>)
    requires st.Valid() && i < |ops| && RunOk(v0, st.pool, st.inodes, modes, ops, i, fills)
    requires ops[i].Grow? && ops[i].ino in st.inodes && AreaBase(st.inodes[ops[i].ino].mode, ops[i].vaddr)
    requires st.inodes[ops[i].ino].blocks + ops[i].num <= BlockLimit(st.inodes[ops[i].ino].mode)
    modifies st
    ensures st.Valid() && (ok ==> RunOk(v0, st.pool, st.inodes, modes, ops, i + 1, now))
    ensures Plenty(st.numa, old(st.count), Cost(ops[i])) ==> ok
    ensures ok ==> AtMostTaken(old(st.count), st.count, Cost(ops[i]))
  {
    hide PoolOk, Forest, InodesOk, RunOk, Takes, Tracked, NewBlocks, BlocksAt, AreaBase, BlockLimit, Spends, Plenty,
         AtMostTaken, Enough, Left, AllocAsks, CpuRegion;
    var op := ops[i];
    var ino, r := op.ino, InodeRegion(st.numa, op.ino);
    ghost var v, was := st.pool, st.inodes;
    PoolLengths(st.pool);
    var run := (k: nat) => cpus(i, k);
    if Plenty(st.numa, st.count, 3 + 3 * op.num) {
      PlentyAlloc(st.numa, st.count, st.pool.at.Keys, st.inodes[ino], ino, op.vaddr, op.num, run);
    }
    if st.count[r] < op.num + if st.inodes[ino].pgAddr == 0 then 3 else 0 {
      return false, fills;
    }
    var err;
    ghost var ps, news;
    err, ps, news := st.AllocBlocks(ino, op.vaddr, op.num, op.clear, run);
    if err != OK || st.inodes[ino].pgAddr == 0 {
      return false, fills;
    }
    RunGrows(v0, v, st.pool, was, st.inodes, modes, ops, i, fills, ps, news);
    ok := true;
    now := fills[ino := Fill(FillOf(fills, ino).bases + Repeat(op.vaddr, op.num), FillOf(fills, ino).pages + ps)];
  }

  ghost function FillOf(fills: map<Ino, Fill>, ino: Ino): Fill {
    if ino in fills then fills[ino] else Fill([], [])
  }

  lemma RunFacts(v0: Pool, v: Pool, inodes: map<Ino, Inode>, modes: map<Ino, Mode>, ops: seq<Op>, i: nat,
                 fills: map<Ino, Fill>, ino: Ino)
    requires i <= |ops| && RunOk(v0, v, inodes, modes, ops, i, fills)
    ensures ino in inodes <==> ino in modes
    ensures ino in inodes ==> inodes[ino].mode == modes[ino] && (inodes[ino].pgAddr != 0 <==> ino in fills)
    ensures ino in inodes ==> inodes[ino].blocks == |FillOf(fills, ino).bases|
    ensures FillOf(fills, ino).bases == BasesOf(BasesAfter(modes, ops[..i]), ino)
    ensures ino in fills <==> ino in BasesAfter(modes, ops[..i])
  {
    hide BasesAfter, FilledBy, LosesPages, HeldPages;
  }

  lemma NothingRun(v: Pool, inodes: map<Ino, Inode>, ops: seq<Op>)
    requires Idle(inodes)
    ensures RunOk(v, v, inodes, ModesOf(inodes), ops, 0, map[])
  {
    NothingTracked(v, inodes);
    assert ops[..0] == [];
  }

  lemma RunSkips(v0: Pool, v: Pool, inodes: map<Ino, Inode>, modes: map<Ino, Mode>, ops: seq<Op>, i: nat,
                 fills: map<Ino, Fill>)
    requires i < |ops| && RunOk(v0, v, inodes, modes, ops, i, fills)
    requires var op := ops[i];
             op.ino in inodes ==>
               && (op.Start? ==> inodes[op.ino].pgAddr != 0)
               && (op.Drop? ==> inodes[op.ino].pgAddr == 0)
               && (op.Grow? ==> !(AreaBase(inodes[op.ino].mode, op.vaddr) &&
                                  inodes[op.ino].blocks + op.num <= BlockLimit(inodes[op.ino].mode)))
    ensures RunOk(v0, v, inodes, modes, ops, i + 1, fills)
  {
    RunFacts(v0, v, inodes, modes, ops, i, fills, ops[i].ino);
    OneMoreOp(modes, ops, i);
    hide BasesAfter, Tracked, LosesPages, HeldPages, AreaBase, BlockLimit;
    assert BasesAfter(modes, ops[..i + 1]) == BasesAfter(modes, ops[..i]);
  }

  lemma RunStarts(v0: Pool, v: Pool, w: Pool, was: map<Ino, Inode>, inodes: map<Ino, Inode>, modes: map<Ino, Mode>,
                  ops: seq<Op>, i: nat, fills: map<Ino, Fill>)
    requires PoolOk(v) && PoolOk(w) && Forest(v) && InodesOk(v.at, was)
    requires i < |ops| && RunOk(v0, v, was, modes, ops, i, fills) && ops[i].Start?
    requires var ino := ops[i].ino;
             && ino in was && was[ino].pgAddr == 0 && ino in inodes && inodes[ino].pgAddr != 0
             && inodes == was[ino := was[ino].(pgAddr := inodes[ino].pgAddr)]
             && Takes(v, w, {}, {Root(ino), Pmd(ino, 0), Pte(ino, 0, 0)})
    ensures RunOk(v0, w, inodes, modes, ops, i + 1, fills[ops[i].ino := Fill([], [])])
  {
    hide PoolOk, Forest, InodesOk, Takes, Tracked, LosesPages, HeldPages, BasesAfter;
    var ino := ops[i].ino;
    RunFacts(v0, v, was, modes, ops, i, fills, ino);
    OneMoreOp(modes, ops, i);
    SameByTakes(v, w, {}, {Root(ino), Pmd(ino, 0), Pte(ino, 0, 0)});
    TrackStart(v, w, was, inodes[ino], fills, ino);
  }

  lemma RunDrops(v0: Pool, v: Pool, w: Pool, was: map<Ino, Inode>, inodes: map<Ino, Inode>, modes: map<Ino, Mode>,
                 ops: seq<Op>, i: nat, fills: map<Ino, Fill>)
    requires PoolOk(v) && PoolOk(w) && Forest(v) && w.numa == v.numa
    requires i < |ops| && RunOk(v0, v, was, modes, ops, i, fills) && ops[i].Drop?
    requires var ino := ops[i].ino;
             && ino in was && was[ino].pgAddr != 0 && TornDown(v, w, ino)
             && inodes == was[ino := was[ino].(pgAddr := 0, blocks := 0)]
    ensures RunOk(v0, w, inodes, modes, ops, i + 1, fills - {ops[i].ino})
  {
    hide PoolOk, Forest, TornDown, Tracked, LosesPages, HeldPages, BasesAfter, NoneStray;
    var ino := ops[i].ino;
    RunFacts(v0, v, was, modes, ops, i, fills, ino);
    OneMoreOp(modes, ops, i);
    SameByTeardown(v, w, ino);
    TrackDrop(v, w, was, fills, ino);
  }

  lemma RunGrows(v0: Pool, v: Pool, w: Pool, was: map<Ino, Inode>, inodes: map<Ino, Inode>, modes: map<Ino, Mode>,
                 ops: seq<Op>, i: nat, fills: map<Ino, Fill>, ps: seq<nat>, news: set<Use>)
    requires PoolOk(v) && PoolOk(w) && Forest(v) && Forest(w) && InodesOk(v.at, was) && InodesOk(w.at, inodes)
    requires i < |ops| && RunOk(v0, v, was, modes, ops, i, fills) && ops[i].Grow? && |ps| == ops[i].num
    requires var ino, vaddr := ops[i].ino, ops[i].vaddr;
             && ino in was && ino in inodes && inodes[ino].pgAddr != 0
             && AreaBase(was[ino].mode, vaddr) && was[ino].blocks + |ps| <= BlockLimit(was[ino].mode)
             && inodes == was[ino := was[ino].(blocks := was[ino].blocks + |ps|, pgAddr := inodes[ino].pgAddr)]
             && Takes(v, w, {}, news) && NewBlocks(ino, vaddr, was[ino].blocks, |ps|, news)
             && BlocksAt(w.at, ino, vaddr, was[ino].blocks, ps)
    ensures var ino := ops[i].ino;
            RunOk(v0, w, inodes, modes, ops, i + 1,
                  fills[ino := Fill(FillOf(fills, ino).bases + Repeat(ops[i].vaddr, ops[i].num),
                                    FillOf(fills, ino).pages + ps)])
  {
    hide PoolOk, Forest, InodesOk, Takes, NewBlocks, BlocksAt, Tracked, LosesPages, HeldPages, BasesAfter, AreaBase,
         BlockLimit;
    var ino, vaddr := ops[i].ino, ops[i].vaddr;
    RunFacts(v0, v, was, modes, ops, i, fills, ino);
    OneMoreOp(modes, ops, i);
    SameByTakes(v, w, {}, news);
    if ino in fills {
      TrackGrow(v, w, was, inodes[ino], fills, ino, vaddr, ps, news);
    } else {
      TrackFirst(v, w, was, inodes, fills, ino, vaddr, ps, news);
    }
  }

  /** The first blocks of an inode bring its tables with them. */
  lemma TrackFirst(v: Pool, w: Pool, was: map<Ino, Inode>, inodes: map<Ino, Inode>, fills: map<Ino, Fill>, ino: Ino,
                   vaddr: nat, ps: seq<nat>, news: set<Use>)
    requires PoolOk(v) && PoolOk(w) && Forest(v) && Forest(w) && InodesOk(v.at, was) && InodesOk(w.at, inodes)
    requires Tracked(v, was, fills) && ino in was && ino !in fills && Takes(v, w, {}, news)
    requires NewBlocks(ino, vaddr, was[ino].blocks, |ps|, news) && BlocksAt(w.at, ino, vaddr, was[ino].blocks, ps)
    requires AreaBase(was[ino].mode, vaddr) && was[ino].blocks + |ps| <= BlockLimit(was[ino].mode)
    requires ino in inodes && inodes[ino].pgAddr != 0
    requires inodes[ino] == was[ino].(blocks := was[ino].blocks + |ps|, pgAddr := inodes[ino].pgAddr)
    ensures Tracked(w, was[ino := inodes[ino]], fills[ino := Fill([] + Repeat(vaddr, |ps|), [] + ps)])
    ensures HeldPages(w) == HeldPages(v)
  {
    hide PoolOk, Takes, FilledBy, NewBlocks, BlocksAt, AreaBase, BlockLimit, HeldPages, KeepsOthers, Forest, InodesOk;
    NoRoot(v, was, ino);
    NoOwned(v, ino);
    FilledFirst(v, w, inodes, ino, vaddr, ps, news);
    NewBlocksOwned(ino, vaddr, 0, |ps|, news);
    TakesConserve(v, w, news, ino);
    TakesKeepsOthers(v, w, news, ino);
    var f := Fill([] + Repeat(vaddr, |ps|), [] + ps);
    assert InRange(was[ino].mode, f.bases);
    hide Tracked;
    TrackedWith(v, w, was, inodes[ino], fills, ino, f);
  }

  lemma FilledFirst(v: Pool, w: Pool, inodes: map<Ino, Inode>, ino: Ino, vaddr: nat, ps: seq<nat>, news: set<Use>)
    requires PoolOk(v) && PoolOk(w) && Forest(w) && InodesOk(w.at, inodes) && ino in inodes && inodes[ino].pgAddr != 0
    requires (forall u :: u in v.at ==> !Owned(u, ino)) && Takes(v, w, {}, news)
    requires NewBlocks(ino, vaddr, 0, |ps|, news) && BlocksAt(w.at, ino, vaddr, 0, ps)
    ensures FilledBy(w, ino, [] + Repeat(vaddr, |ps|), [] + ps)
  {
    hide PoolOk, Takes, InodesOk, Forest, NewBlocks, OnPath, Block, NthBlock, Owned, FirstTable, BlocksAt, Repeat,
         FilledBy;
    FirstTablesIn(w, inodes, ino);
    var b := [] + Repeat(vaddr, |ps|);
    forall k: nat | k < |b|
      ensures Block(ino, b, k) in w.at && w.at[Block(ino, b, k)] == ([] + ps)[k]
    {
      BlockOf(ino, [], vaddr, |ps|, k);
      FirstBlock(w.at, ino, vaddr, ps, k);
    }
    forall u | Owned(u, ino) && u in w.at
      ensures FirstTable(u, ino) || exists k: nat :: k < |b| && OnPath(u, Block(ino, b, k))
    {
      FirstUse(v, w, ino, vaddr, |ps|, news, u);
    }
    FilledParts(w, ino, b, [] + ps);
  }

  lemma FilledParts(v: Pool, ino: Ino, bases: seq<nat>, pages: seq<nat>)
    requires |pages| == |bases| && (forall u :: FirstTable(u, ino) ==> u in v.at)
    requires forall u :: Owned(u, ino) && u in v.at ==>
               FirstTable(u, ino) || exists k: nat :: k < |bases| && OnPath(u, Block(ino, bases, k))
    requires forall k: nat :: k < |bases| ==> Block(ino, bases, k) in v.at && v.at[Block(ino, bases, k)] == pages[k]
    ensures FilledBy(v, ino, bases, pages)
  {
    hide OnPath, Block, Owned, FirstTable;
  }

  lemma FirstBlock(at: map<Use, nat>, ino: Ino, vaddr: nat, ps: seq<nat>, k: nat)
    requires BlocksAt(at, ino, vaddr, 0, ps) && k < |ps|
    ensures NthBlock(ino, vaddr, 0, k) in at && at[NthBlock(ino, vaddr, 0, k)] == ps[k]
  {
    hide NthBlock;
  }

  lemma FirstTablesIn(w: Pool, inodes: map<Ino, Inode>, ino: Ino)
    requires Forest(w) && InodesOk(w.at, inodes) && ino in inodes && inodes[ino].pgAddr != 0
    ensures forall u :: FirstTable(u, ino) ==> u in w.at
  {
    assert TreeOk(w, ino) && Root(ino) in w.at;
  }

  lemma FirstUse(v: Pool, w: Pool, ino: Ino, vaddr: nat, n: nat, news: set<Use>, u: Use)
    requires PoolOk(v) && PoolOk(w) && Takes(v, w, {}, news) && NewBlocks(ino, vaddr, 0, n, news)
    requires Owned(u, ino) && u in w.at && u !in v.at
    ensures var b := [] + Repeat(vaddr, n);
            FirstTable(u, ino) || exists k: nat :: k < |b| && OnPath(u, Block(ino, b, k))
  {
    hide PoolOk, Takes, OnPath, NthBlock, FirstTable, Block, Repeat;
    PoolParts(v);
    PoolParts(w);
    HeldKeys(v);
    hide Bijective;
    TakesUses(v, w, {}, news, u);
    if !FirstTable(u, ino) {
      var k: nat :| k < n && OnPath(u, NthBlock(ino, vaddr, 0, k));
      BlockOf(ino, [], vaddr, n, k);
      assert OnPath(u, Block(ino, [] + Repeat(vaddr, n), k));
    }
  }

  lemma RunEnds(v0: Pool, was: map<Ino, Inode>, w: Pool, now: map<Ino, Inode>, modes: map<Ino, Mode>, ops: seq<Op>,
                fills: map<Ino, Fill>)
    requires PoolOk(v0) && Forest(v0) && InodesOk(v0.at, was) && Idle(was)
    requires PoolOk(w) && Forest(w) && InodesOk(w.at, now) && ops[..|ops|] == ops
    requires RunOk(v0, w, now, modes, ops, |ops|, fills)
    ensures Tracked(w, now, fills) && Agrees(fills, BasesAfter(modes, ops))
    ensures HeldPages(w) == HeldPages(v0) <==> !LosesPages(modes, ops)
    ensures Idle(now) ==> (FreePages(w) == FreePages(v0) <==> !LosesPages(modes, ops))
    ensures Idle(now) && !LosesPages(modes, ops) ==> w.count == v0.count
  {
    hide PoolOk, Forest, InodesOk, Tracked, Agrees, LosesPages, HeldPages, FreePages, Idle;
    IdleEnds(v0, was, w, now);
  }

  /** The pool is made of the same pages. */
  ghost predicate SameFrame(v: Pool, w: Pool) {
    w.numa == v.numa && w.owner.Keys == v.owner.Keys
  }

  lemma SameByTakes(v: Pool, w: Pool, from: set<nat>, news: set<Use>)
    requires Takes(v, w, from, news)
    ensures SameFrame(v, w)
  {
  }

  lemma NothingTracked(v: Pool, inodes: map<Ino, Inode>)
    requires Idle(inodes)
    ensures Tracked(v, inodes, map[])
  {
  }

  lemma RootIsPage(v: Pool, inodes: map<Ino, Inode>, ino: Ino)
    requires PoolOk(v) && InodesOk(v.at, inodes) && ino in inodes && Root(ino) in v.at
    ensures inodes[ino].pgAddr != 0
  {
    UseShape(v, Root(ino));
  }

  lemma IdleEnds(v: Pool, was: map<Ino, Inode>, w: Pool, now: map<Ino, Inode>)
    requires PoolOk(v) && Forest(v) && InodesOk(v.at, was) && Idle(was) && SameFrame(v, w)
    requires PoolOk(w) && Forest(w) && InodesOk(w.at, now)
    ensures Idle(now) ==> (FreePages(w) == FreePages(v) <==> HeldPages(w) == HeldPages(v))
    ensures Idle(now) && HeldPages(w) == HeldPages(v) ==> w.count == v.count
  {
    hide PoolOk, Forest, InodesOk;
    if Idle(now) {
      IdlePool(v, was);
      IdlePool(w, now);
      if FreePages(w) == FreePages(v) {
        SameFreeSameCounts(v, w);
      }
    }
  }
}
