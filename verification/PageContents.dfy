/** What is in the pages that an allocation hands out: cleared pages are zero throughout, the others hold what they held
    on the free list. */
module PageContents {
  import opened Machine
  import opened PageUses
  import opened PageTakes

  function ZeroPage(): (page: seq<Word>)
    ensures |page| == PTRS_PER_TABLE && Zeroed(page)
  {
    seq(PTRS_PER_TABLE, _ => 0)
  }

  /** Pages that are free in `w` hold what they held in `v`. */
  ghost predicate FreeKept(v: Pool, w: Pool) {
    forall p :: p in w.owner && w.owner[p].Free? ==> p in v.mem && p in w.mem && w.mem[p] == v.mem[p]
  }

  /** Of the pages `ps` the first `n` are zero throughout when they were to be cleared, and all others are as before. */
  ghost predicate Contents(ps: seq<nat>, clear: bool, n: nat, was: map<nat, seq<Word>>, now: map<nat, seq<Word>>) {
    forall j: nat :: j < |ps| ==>
      ps[j] in was && ps[j] in now && now[ps[j]] == if clear && j < n then ZeroPage() else was[ps[j]]
  }

  lemma ZeroKeepsFree(v: Pool, w: Pool, x: Pool, page: nat)
    requires FreeKept(v, w) && w.mem.Keys == w.owner.Keys && (if page == 0 then x == w else Zeroing(w, x, page))
    ensures FreeKept(v, x)
  {
    if page != 0 {
      forall p | p in x.owner && x.owner[p].Free?
        ensures p in v.mem && p in x.mem && x.mem[p] == v.mem[p]
      {
        assert p != page && w.owner[p] == x.owner[p];
      }
    }
  }

  /** Three pages taken for tables, or as many as there were. */
  lemma ThreeKeepFree(v: Pool, v1: Pool, v2: Pool, v3: Pool, p: nat, q: nat, r: nat)
    requires PoolOk(v) && PoolOk(v1) && PoolOk(v2)
    requires (if p == 0 then v1 == v else Zeroing(v, v1, p)) && (if q == 0 then v2 == v1 else Zeroing(v1, v2, q))
    requires if r == 0 then v3 == v2 else Zeroing(v2, v3, r)
    ensures FreeKept(v, v3)
  {
    hide PoolOk, Zeroing;
    PoolParts(v);
    PoolParts(v1);
    PoolParts(v2);
    assert FreeKept(v, v);
    hide FreeKept;
    ZeroKeepsFree(v, v, v1, p);
    ZeroKeepsFree(v, v1, v2, q);
    ZeroKeepsFree(v, v2, v3, r);
  }

  lemma AttachKeepsFree(v: Pool, w: Pool, p: nat, u: Use)
    requires PoolOk(w) && HasParent(u) && Parent(u) in w.at && Index(u) < PTRS_PER_TABLE && !Parent(u).Free? && !u.Free?
    requires FreeKept(v, w)
    ensures FreeKept(v, Attached(w, p, u))
  {
    PoolParts(w);
    hide PoolOk;
    var x := Attached(w, p, u);
    forall q | q in x.owner && x.owner[q].Free?
      ensures q in v.mem && q in x.mem && x.mem[q] == v.mem[q]
    {
      assert w.owner[q] == x.owner[q] && q != w.at[Parent(u)];
    }
  }

  /** The first tables of an inode are entered in the three pages. */
  lemma TablesKeepFree(v: Pool, w: Pool, pud: nat, pmd: nat, pte: nat, ino: Ino)
    requires PoolOk(w) && Forest(w) && {Held(pud), Held(pmd), Held(pte)} <= w.at.Keys && pud != pmd && pmd != pte
    requires pud != pte && Zeroed(w.mem[pud]) && Root(ino) !in w.at && FreeKept(v, w)
    ensures FreeKept(v, FirstTables(w, pud, pmd, pte, ino))
  {
    RootKeeps(w, pud, ino);
    var w1 := Rooted(w, pud, ino);
    assert FreeKept(v, w1) by {
      hide PoolOk, Forest, ForestBut;
    }
    assert Held(pmd) in w1.at && Pmd(ino, 0) !in w1.at;
    AttachKeepsPool(w1, pmd, Pmd(ino, 0));
    var w2 := Attached(w1, pmd, Pmd(ino, 0));
    hide PoolOk, Forest, ForestBut, FreeKept;
    AttachKeepsFree(v, w1, pmd, Pmd(ino, 0));
    AttachKeepsFree(v, w2, pte, Pte(ino, 0, 0));
  }

  /** A page that stays held keeps its contents, also when another page gets an entry for it. */
  lemma HeldKeeps(v: Pool, w: Pool, news: set<Use>, u: Use, p: nat)
    requires PoolOk(v) && PoolOk(w) && Takes(v, w, {}, news) && Held(p) in v.at
    requires HasParent(u) && Parent(u) in w.at
    ensures p in v.mem && p in w.mem && w.mem[p] == v.mem[p] && w.at[Parent(u)] != p
  {
    PoolParts(v);
    PoolParts(w);
    PageOfHold(v, p);
    hide PoolOk;
    assert v.owner[p] == Held(p);
  }

  lemma PageOfHold(v: Pool, p: nat)
    requires PoolOk(v) && Held(p) in v.at
    ensures v.at[Held(p)] == p
  {
  }

  /** One more page: the others are waiting or are blocks already, and keep their contents. */
  lemma OneMorePage(ps: seq<nat>, clear: bool, i: nat, was: map<nat, seq<Word>>, w: Pool, x: Pool, more: set<Use>)
    requires PoolOk(w) && i < |ps| && Contents(ps, clear, i, was, w.mem) && Takes(w, x, {ps[i]}, more)
    requires forall j: nat :: j < |ps| && j != i ==>
               ps[j] != ps[i] && ps[j] in w.owner && (w.owner[ps[j]].Held? || w.owner[ps[j]].Data?)
    requires ps[i] in x.mem && ps[i] in w.mem && x.mem[ps[i]] == if clear then ZeroPage() else w.mem[ps[i]]
    ensures Contents(ps, clear, i + 1, was, x.mem)
  {
    hide PoolOk, ZeroPage;
    forall j: nat | j < |ps|
      ensures ps[j] in was && ps[j] in x.mem
      ensures x.mem[ps[j]] == if clear && j < i + 1 then ZeroPage() else was[ps[j]]
    {
      if j != i {
        assert x.owner[ps[j]] == w.owner[ps[j]];
      }
    }
  }
}
