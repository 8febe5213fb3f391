/** Taking pages: what leaves the free lists, and for which uses. */
module PageTakes {
  import opened Machine
  import opened PageUses

  /** From `v` to `w` exactly the uses `news` began, each on a page that came off a free list or
      was one of the held pages `from`, all of which found a use.  Every other page kept its
      use, and held pages and file blocks that did so kept their contents. */
  ghost predicate Takes(v: Pool, w: Pool, from: set<nat>, news: set<Use>) {
    && w.numa == v.numa && w.tail == v.tail && w.owner.Keys == v.owner.Keys
    && (forall p :: p in v.owner ==>
          w.owner[p] == v.owner[p] || (w.owner[p] in news && (v.owner[p].Free? || p in from)))
    && (forall u :: u in news ==> !u.Free? && !u.Held? && u in w.at && u !in v.at)
    && (forall p :: p in from ==> p in v.owner && v.owner[p] == Held(p) && w.owner[p] in news)
    && (forall p :: p in v.owner && (v.owner[p].Held? || v.owner[p].Data?) && w.owner[p] == v.owner[p] ==>
          p in v.mem && p in w.mem && w.mem[p] == v.mem[p])
  }

  lemma TakesNothing(v: Pool)
    requires v.mem.Keys == v.owner.Keys
    ensures Takes(v, v, {}, {})
  {
  }

  lemma TakesThen(v: Pool, w: Pool, x: Pool, from1: set<nat>, news1: set<Use>, from2: set<nat>, news2: set<Use>)
    requires Bijective(v) && Bijective(w) && Bijective(x)
    requires Takes(v, w, from1, news1) && Takes(w, x, from2, news2)
    requires forall p :: p in from2 ==> p in v.owner && v.owner[p] == Held(p)
    ensures Takes(v, x, from1 + from2, news1 + news2)
  {
    forall u | u in news1 + news2
      ensures u in x.at && u !in v.at
    {
      hide *;
      TakesThenUse(v, w, x, from1, news1, from2, news2, u);
    }
    hide Bijective;
  }

  lemma TakesThenUse(v: Pool, w: Pool, x: Pool, from1: set<nat>, news1: set<Use>, from2: set<nat>, news2: set<Use>,
                     u: Use)
    requires Bijective(v) && Bijective(w) && Bijective(x)
    requires Takes(v, w, from1, news1) && Takes(w, x, from2, news2) && u in news1 + news2
    ensures u in x.at && u !in v.at
  {
    if u in news1 {
      assert w.owner[w.at[u]] == u;
      assert x.owner[w.at[u]] == u;
    }
  }

  /** Uses in terms of `at`: nothing but the new uses and the ended holds differs. */
  lemma TakesUses(v: Pool, w: Pool, from: set<nat>, news: set<Use>, u: Use)
    requires Bijective(v) && Bijective(w) && Takes(v, w, from, news) && !u.Free?
    requires forall p :: Held(p) in v.at ==> v.at[Held(p)] == p
    ensures u in w.at <==> u in news || (u in v.at && !(u.Held? && u.page in from))
    ensures u in v.at && u in w.at && u !in news ==> w.at[u] == v.at[u]
  {
    if u in v.at {
      assert v.owner[v.at[u]] == u;
    }
    if u in w.at {
      assert w.owner[w.at[u]] == u;
    }
  }

  /** From `v` to `w` a free page was taken and cleared. */
  ghost predicate Zeroing(v: Pool, w: Pool, page: nat) {
    && w.numa == v.numa && w.tail == v.tail
    && page in v.owner && v.owner[page].Free? && w.owner == v.owner[page := Held(page)]
    && page in v.mem && w.mem.Keys == v.mem.Keys && Zeroed(w.mem[page])
    && (forall p :: p in v.mem && p != page ==> w.mem[p] == v.mem[p])
  }

  /** From `v` to `w` some free pages were lost: taken off the lists for no use. */
  ghost predicate Lost(v: Pool, w: Pool) {
    && w.numa == v.numa && w.tail == v.tail && w.owner.Keys == v.owner.Keys
    && (forall p :: p in v.owner ==> w.owner[p] == v.owner[p] || (v.owner[p].Free? && w.owner[p] == Held(p)))
    && (forall p :: p in v.owner && !v.owner[p].Free? ==> p in v.mem && p in w.mem && w.mem[p] == v.mem[p])
  }

  lemma ZeroingLoses(v: Pool, w: Pool, x: Pool, page: nat)
    requires v.mem.Keys == v.owner.Keys && w.mem.Keys == w.owner.Keys && Lost(v, w) && Zeroing(w, x, page)
    ensures Lost(v, x)
  {
  }

  lemma LostNothing(v: Pool)
    requires v.mem.Keys == v.owner.Keys
    ensures Lost(v, v)
  {
  }

  /** Three cleared pages become the first tables of an inode. */
  lemma FirstTablesTake(v: Pool, v1: Pool, v2: Pool, v3: Pool, pud: nat, pmd: nat, pte: nat, ino: Ino)
    requires PoolOk(v) && PoolOk(v1) && PoolOk(v2) && PoolOk(v3) && Forest(v3) && Root(ino) !in v.at && Forest(v)
    requires Zeroing(v, v1, pud) && Zeroing(v1, v2, pmd) && Zeroing(v2, v3, pte)
    ensures {Held(pud), Held(pmd), Held(pte)} <= v3.at.Keys && pud != pmd && pmd != pte && pud != pte
    ensures Zeroed(v3.mem[pud]) && Zeroed(v3.mem[pmd]) && Zeroed(v3.mem[pte]) && Root(ino) !in v3.at
    ensures var w := FirstTables(v3, pud, pmd, pte, ino);
            && PoolOk(w) && Forest(w) && Takes(v, w, {}, {Root(ino), Pmd(ino, 0), Pte(ino, 0, 0)})
            && Root(ino) in w.at && w.at[Root(ino)] == pud
            && w.mem == v3.mem[pmd := Put(v3.mem[pmd], 0, pte + PAGE_TABLE)]
                              [pud := Put(v3.mem[pud], 0, pmd + PAGE_TABLE)]
            && w.head == v3.head && w.count == v3.count && w.numa == v3.numa
  {
    hide PoolOk, Forest, FirstTables, Zeroing, Takes;
    PoolParts(v);
    PoolParts(v3);
    HeldThree(v, v1, v2, v3, pud, pmd, pte, ino);
    FirstTablesKeep(v3, pud, pmd, pte, ino);
    FirstTablesOwner(v3, pud, pmd, pte, ino);
    var w := FirstTables(v3, pud, pmd, pte, ino);
    PoolParts(w);
    PageShape(v3, pmd);
    PageShape(v3, pud);
    NoTables(v, ino);
    hide Bijective, Zeroed, Put;
    ThreeOwners(v, v3, w, pud, pmd, pte, ino);
    ThreeMem(v, v3, w, pud, pmd, pte, Put(v3.mem[pmd], 0, pte + PAGE_TABLE), Put(v3.mem[pud], 0, pmd + PAGE_TABLE));
    ThreeTake(v, w, pud, pmd, pte, ino);
  }

  lemma NoTables(v: Pool, ino: Ino)
    requires Forest(v) && Root(ino) !in v.at
    ensures Pmd(ino, 0) !in v.at && Pte(ino, 0, 0) !in v.at
  {
    assert TreeOk(v, ino);
    assert Parent(Pmd(ino, 0)) == Root(ino) && Parent(Pte(ino, 0, 0)) == Pmd(ino, 0);
  }

  lemma ThreeTake(v: Pool, w: Pool, pud: nat, pmd: nat, pte: nat, ino: Ino)
    requires v.mem.Keys == v.owner.Keys == w.owner.Keys == w.mem.Keys && Bijective(w)
    requires pud in v.owner && v.owner[pud].Free? && w.owner[pud] == Root(ino)
    requires pmd in v.owner && v.owner[pmd].Free? && w.owner[pmd] == Pmd(ino, 0)
    requires pte in v.owner && v.owner[pte].Free? && w.owner[pte] == Pte(ino, 0, 0)
    requires w.numa == v.numa && w.tail == v.tail
    requires forall p :: p in v.owner && p != pud && p != pmd && p != pte ==>
               w.owner[p] == v.owner[p] && w.mem[p] == v.mem[p]
    requires Root(ino) !in v.at && Pmd(ino, 0) !in v.at && Pte(ino, 0, 0) !in v.at
    ensures Takes(v, w, {}, {Root(ino), Pmd(ino, 0), Pte(ino, 0, 0)})
  {
    assert Root(ino) in w.at && Pmd(ino, 0) in w.at && Pte(ino, 0, 0) in w.at;
    hide Bijective;
  }

  lemma ThreeOwners(v: Pool, v3: Pool, w: Pool, pud: nat, pmd: nat, pte: nat, ino: Ino)
    requires pud in v.owner && pmd in v.owner && pte in v.owner && pud != pmd && pmd != pte && pud != pte
    requires v3.owner == v.owner[pud := Held(pud)][pmd := Held(pmd)][pte := Held(pte)]
    requires w.owner == v3.owner[pud := Root(ino)][pmd := Pmd(ino, 0)][pte := Pte(ino, 0, 0)]
    ensures w.owner.Keys == v.owner.Keys
    ensures w.owner[pud] == Root(ino) && w.owner[pmd] == Pmd(ino, 0) && w.owner[pte] == Pte(ino, 0, 0)
    ensures forall p :: p in v.owner && p != pud && p != pmd && p != pte ==> w.owner[p] == v.owner[p]
  {
  }

  lemma ThreeMem(v: Pool, v3: Pool, w: Pool, pud: nat, pmd: nat, pte: nat, a: seq<Word>, b: seq<Word>)
    requires v3.mem.Keys == v.mem.Keys && pud in v.mem && pmd in v.mem && w.mem == v3.mem[pmd := a][pud := b]
    requires forall p :: p in v.mem && p != pud && p != pmd && p != pte ==> v3.mem[p] == v.mem[p]
    ensures w.mem.Keys == v.mem.Keys
    ensures forall p :: p in v.mem && p != pud && p != pmd && p != pte ==> w.mem[p] == v.mem[p]
  {
  }

  lemma HeldThree(v: Pool, v1: Pool, v2: Pool, v3: Pool, pud: nat, pmd: nat, pte: nat, ino: Ino)
    requires Bijective(v) && Bijective(v3) && Root(ino) !in v.at
    requires Zeroing(v, v1, pud) && Zeroing(v1, v2, pmd) && Zeroing(v2, v3, pte)
    ensures {Held(pud), Held(pmd), Held(pte)} <= v3.at.Keys && pud != pmd && pmd != pte && pud != pte
    ensures pud in v3.mem && pmd in v3.mem && pte in v3.mem
    ensures Zeroed(v3.mem[pud]) && Zeroed(v3.mem[pmd]) && Zeroed(v3.mem[pte]) && Root(ino) !in v3.at
    ensures v3.owner == v.owner[pud := Held(pud)][pmd := Held(pmd)][pte := Held(pte)]
    ensures pud in v.owner && pmd in v.owner && pte in v.owner
    ensures v.owner[pud].Free? && v.owner[pmd].Free? && v.owner[pte].Free?
    ensures v3.numa == v.numa && v3.tail == v.tail && v3.mem.Keys == v.mem.Keys
    ensures forall p :: p in v.mem && p != pud && p != pmd && p != pte ==> v3.mem[p] == v.mem[p]
  {
    assert v3.owner[pud] == Held(pud) && v3.owner[pmd] == Held(pmd) && v3.owner[pte] == Held(pte);
  }

  lemma FirstTablesOwner(v: Pool, pud: nat, pmd: nat, pte: nat, ino: Ino)
    requires PoolOk(v) && Forest(v) && {Held(pud), Held(pmd), Held(pte)} <= v.at.Keys && pud != pmd && pmd != pte
    requires pud != pte
    requires Zeroed(v.mem[pud]) && Root(ino) !in v.at
    ensures var w := FirstTables(v, pud, pmd, pte, ino);
            && w.owner == v.owner[pud := Root(ino)][pmd := Pmd(ino, 0)][pte := Pte(ino, 0, 0)]
            && Root(ino) in w.at && w.at[Root(ino)] == pud
            && w.mem == v.mem[pmd := Put(v.mem[pmd], 0, pte + PAGE_TABLE)][pud := Put(v.mem[pud], 0, pmd + PAGE_TABLE)]
            && w.head == v.head && w.count == v.count && w.numa == v.numa && w.tail == v.tail
  {
  }

  /** Entering a held page in a table. */
  lemma AttachTakes(v: Pool, p: nat, u: Use)
    requires PoolOk(v) && HasParent(u) && Parent(u) in v.at && Index(u) < PTRS_PER_TABLE
    requires Held(p) in v.at && u !in v.at
    ensures Takes(v, Attached(v, p, u), {p}, {u})
  {
    var w := Attached(v, p, u);
    assert v.owner[p] == Held(p);
    assert v.owner[v.at[Parent(u)]] == Parent(u);
  }

  /** Taking a cleared page and entering it in a table. */
  lemma ZeroAttachTakes(v: Pool, v1: Pool, page: nat, u: Use)
    requires PoolOk(v) && PoolOk(v1) && Zeroing(v, v1, page)
    requires HasParent(u) && Parent(u) in v1.at && Index(u) < PTRS_PER_TABLE && u !in v.at
    ensures Held(page) in v1.at && u !in v1.at
    ensures Takes(v, Attached(v1, page, u), {}, {u})
  {
    assert v1.owner[page] == Held(page);
    AttachTakes(v1, page, u);
  }

  lemma TakesMore(v: Pool, w: Pool, x: Pool, from: set<nat>, news: set<Use>, more: set<Use>)
    requires PoolOk(v) && PoolOk(w) && PoolOk(x) && Takes(v, w, from, news) && Takes(w, x, {}, more)
    ensures Takes(v, x, from, news + more)
  {
    hide PoolOk, Takes, Bijective;
    PoolParts(v);
    PoolParts(w);
    PoolParts(x);
    TakesThen(v, w, x, from, news, {}, more);
    assert from + {} == from;
  }

  lemma TakesLast(v: Pool, w: Pool, x: Pool, news: set<Use>, p: nat, u: Use)
    requires PoolOk(v) && PoolOk(w) && PoolOk(x) && Takes(v, w, {}, news) && Takes(w, x, {p}, {u}) && Held(p) in v.at
    ensures Takes(v, x, {p}, news + {u})
  {
    hide PoolOk, Takes, Bijective;
    HeldOwner(v, p);
    PoolParts(v);
    PoolParts(w);
    PoolParts(x);
    TakesThen(v, w, x, {}, news, {p}, {u});
    assert {} + {p} == {p};
  }

  lemma HeldOwner(v: Pool, p: nat)
    requires PoolOk(v) && Held(p) in v.at
    ensures p in v.owner && v.owner[p] == Held(p)
  {
  }

  /** What a held page and an unused slot find when tables were added above them. */
  lemma TakesLeaves(v: Pool, w: Pool, news: set<Use>, u: Use, p: nat)
    requires PoolOk(v) && PoolOk(w) && Takes(v, w, {}, news) && Held(p) in v.at && u !in v.at && u !in news && u.Data?
    ensures Held(p) in w.at && u !in w.at
  {
    TakesUses(v, w, {}, news, Held(p));
    TakesUses(v, w, {}, news, u);
  }

  lemma AttachFacts(v: Pool, p: nat, u: Use)
    requires PoolOk(v) && HasParent(u) && Parent(u) in v.at && Index(u) < PTRS_PER_TABLE
    ensures var w := Attached(v, p, u); var t := v.at[Parent(u)];
            && t in v.mem && |v.mem[t]| == PTRS_PER_TABLE && w.mem == v.mem[t := Put(v.mem[t], Index(u), p + Flags(u))]
            && w.numa == v.numa && w.head == v.head && w.count == v.count
            && u in w.at && w.at[u] == p
  {
  }

  // ----- a run of pages off one list -----

  /** From `v` to `w` exactly the first `n` pages of list `r` became held and no memory
      changed. */
  ghost predicate Detached(v: Pool, w: Pool, r: nat, n: nat) {
    && r < 2 && |v.count| == 2 && n <= v.count[r]
    && w.numa == v.numa && w.mem == v.mem && w.tail == v.tail && w.owner.Keys == v.owner.Keys
    && w.count == v.count[r := v.count[r] - n]
    && (forall p :: p in v.owner ==> w.owner[p] == if TopOf(v.owner[p], r, v.count[r] - n) then Held(p) else v.owner[p])
  }

  /** A free page of list `r` at height `h` or above. */
  ghost predicate TopOf(u: Use, r: nat, h: int) {
    u.Free? && u.region == r && u.height >= h
  }

  /** `ps` are the first pages of list `r` in list order; each holds the address of the next,
      and the last one holds `rest`. */
  ghost predicate ChainOf(v: Pool, r: nat, ps: seq<nat>, rest: nat) {
    && r < 2 && |v.head| == |v.count| == 2 && |ps| <= v.count[r]
    && (forall i: nat :: i < |ps| ==> ps[i] in v.owner && v.owner[ps[i]] == Free(r, v.count[r] - 1 - i))
    && (forall i: nat {:trigger LinkOf(v, ps[i])} :: i < |ps| ==>
          LinkOf(v, ps[i]) == if i + 1 < |ps| then ps[i + 1] else rest)
    && (if |ps| > 0 then ps[0] else rest) == v.head[r]
  }

  /** The first word of a page. */
  ghost function LinkOf(v: Pool, p: nat): nat {
    if p in v.mem && |v.mem[p]| > 0 then v.mem[p][0] else 0
  }

  lemma PopFacts(v: Pool, r: nat)
    requires PoolOk(v) && Forest(v) && r < 2 && v.count[r] > 0
    ensures PoolOk(Popped(v, r)) && Forest(Popped(v, r))
    ensures |v.head| == 2 && v.head[r] in v.owner && v.head[r] in v.mem && |v.mem[v.head[r]]| > 0
    ensures Popped(v, r).head[r] == v.mem[v.head[r]][0]
  {
    PopKeeps(v, r);
    PopKeepsForest(v, r);
  }

  lemma DetachNone(v: Pool, r: nat)
    requires PoolOk(v) && r < 2
    ensures Detached(v, v, r, 0) && ChainOf(v, r, [], v.head[r])
  {
    assert ListOk(v, r);
    forall p | p in v.owner
      ensures !TopOf(v.owner[p], r, v.count[r])
    {
      assert v.owner[p] in v.at;
    }
  }

  lemma DetachOneMore(v: Pool, w: Pool, r: nat, n: nat)
    requires PoolOk(w) && Detached(v, w, r, n) && w.count[r] > 0
    ensures Detached(v, Popped(w, r), r, n + 1)
  {
    PopKeepsBijection(w, r);
    var p := w.head[r];
    assert w.owner[p] == Free(r, w.count[r] - 1);
    hide PoolOk, ListOk;
    DetachStep(v, w, Popped(w, r), r, n, p);
  }

  lemma DetachStep(v: Pool, w: Pool, x: Pool, r: nat, n: nat, p: nat)
    requires Detached(v, w, r, n) && n < v.count[r] && Bijective(w)
    requires p in w.owner && w.owner[p] == Free(r, v.count[r] - n - 1)
    requires x.numa == w.numa && x.mem == w.mem && x.tail == w.tail && x.owner == w.owner[p := Held(p)]
    requires x.count == w.count[r := v.count[r] - n - 1]
    ensures Detached(v, x, r, n + 1)
  {
    forall q | q in v.owner
      ensures x.owner[q] == if TopOf(v.owner[q], r, v.count[r] - n - 1) then Held(q) else v.owner[q]
    {
      assert w.at[w.owner[q]] == q && w.at[w.owner[p]] == p;
    }
  }

  lemma ChainOneMore(v: Pool, w: Pool, r: nat, ps: seq<nat>)
    requires PoolOk(w) && |v.head| == 2 && Detached(v, w, r, |ps|) && w.count[r] > 0
    requires ChainOf(v, r, ps, w.head[r])
    ensures ChainOf(v, r, ps + [w.head[r]], Popped(w, r).head[r])
  {
    PopKeepsBijection(w, r);
    var p := w.head[r];
    assert w.owner[p] == Free(r, w.count[r] - 1);
    assert v.owner[p] == w.owner[p];
    ChainGrows(v, r, ps, p);
  }

  lemma ChainGrows(v: Pool, r: nat, ps: seq<nat>, p: nat)
    requires ChainOf(v, r, ps, p) && |ps| < v.count[r] && p in v.owner && v.owner[p] == Free(r, v.count[r] - 1 - |ps|)
    ensures ChainOf(v, r, ps + [p], LinkOf(v, p))
  {
    var qs := ps + [p];
    forall i: nat | i < |qs|
      ensures LinkOf(v, qs[i]) == if i + 1 < |qs| then qs[i + 1] else LinkOf(v, p)
    {
      if i < |ps| {
        assert LinkOf(v, ps[i]) == if i + 1 < |ps| then ps[i + 1] else p;
      }
    }
  }

  lemma FirstIsPage(v: Pool, r: nat)
    requires PoolOk(v) && r < 2
    ensures |v.head| == |v.count| == 2 && (v.count[r] > 0 ==> v.head[r] > 0)
  {
    if v.count[r] > 0 {
      PopKeepsBijection(v, r);
    }
  }

  lemma ChainStart(v: Pool, r: nat, ps: seq<nat>, rest: nat)
    requires ChainOf(v, r, ps, rest) && |ps| == 1
    ensures ps == [v.head[r]]
  {
  }

  lemma DetachAndClear(v: Pool, w: Pool, r: nat, page: nat, zeros: seq<Word>)
    requires PoolOk(v) && PoolOk(w) && Detached(v, w, r, 1) && ChainOf(v, r, [page], w.head[r]) && Zeroed(zeros)
    ensures Zeroing(v, Rewritten(w, page, zeros), page) && Held(page) in w.at
  {
    assert [page][0] == page;
    assert v.owner[page] == Free(r, v.count[r] - 1);
    assert w.owner[page] == Held(page);
    forall q | q in v.owner && q != page
      ensures w.owner[q] == v.owner[q]
    {
      assert ListOk(v, r);
      assert v.owner[q] in v.at;
    }
  }

  // ----- filling a file from a chain -----

  ghost function Pages(ps: seq<nat>): set<nat> {
    set i | 0 <= i < |ps| :: ps[i]
  }

  /** Rewriting the page that is about to be used changes nothing about who uses what. */
  lemma TakesRewritten(v: Pool, p: nat, page: seq<Word>, x: Pool, news: set<Use>)
    requires PoolOk(v) && Held(p) in v.at && Takes(Rewritten(v, p, page), x, {p}, news)
    ensures Takes(v, x, {p}, news)
  {
    assert v.owner[p] == Held(p);
  }

  /** The next page of the chain found its use. */
  lemma TakesNext(v: Pool, w: Pool, x: Pool, ps: seq<nat>, i: nat, news: set<Use>, more: set<Use>)
    requires PoolOk(v) && PoolOk(w) && PoolOk(x) && i < |ps|
    requires Takes(v, w, Pages(ps[..i]), news) && Takes(w, x, {ps[i]}, more) && Held(ps[i]) in v.at
    ensures Takes(v, x, Pages(ps[..i + 1]), news + more)
  {
    hide PoolOk, Takes, Bijective;
    HeldOwner(v, ps[i]);
    PoolParts(v);
    PoolParts(w);
    PoolParts(x);
    TakesThen(v, w, x, Pages(ps[..i]), news, {ps[i]}, more);
    assert Pages(ps[..i + 1]) == Pages(ps[..i]) + {ps[i]} by {
      assert ps[..i + 1] == ps[..i] + [ps[i]];
    }
  }

  /** The rest of the chain is still held and linked. */
  lemma ChainWaits(v: Pool, w: Pool, from: set<nat>, news: set<Use>, p: nat)
    requires PoolOk(v) && PoolOk(w) && Takes(v, w, from, news) && Held(p) in v.at && p !in from
    ensures Held(p) in w.at && LinkOf(w, p) == LinkOf(v, p)
  {
    TakesUses(v, w, from, news, Held(p));
    assert v.owner[p] == Held(p) && w.owner[p] == Held(p);
  }

  lemma ChainHeld(v: Pool, w: Pool, r: nat, ps: seq<nat>, rest: nat)
    requires PoolOk(w) && Detached(v, w, r, |ps|) && ChainOf(v, r, ps, rest)
    ensures forall i: nat :: i < |ps| ==> Held(ps[i]) in w.at
    ensures forall i: nat, j: nat :: i < j < |ps| ==> ps[i] != ps[j]
    ensures forall i: nat {:trigger LinkOf(w, ps[i])} :: i + 1 < |ps| ==> LinkOf(w, ps[i]) == ps[i + 1]
    ensures |v.head| == 2 && (|ps| > 0 ==> ps[0] == v.head[r])
  {
    forall i: nat | i < |ps|
      ensures Held(ps[i]) in w.at
    {
      assert TopOf(v.owner[ps[i]], r, v.count[r] - |ps|);
      assert w.owner[ps[i]] == Held(ps[i]);
    }
    forall i: nat | i + 1 < |ps|
      ensures LinkOf(w, ps[i]) == ps[i + 1]
    {
      assert LinkOf(w, ps[i]) == LinkOf(v, ps[i]);
    }
  }

  /** A chain that left the list and was used up, seen as one step from the list to the uses. */
  lemma ChainTaken(v: Pool, w: Pool, x: Pool, r: nat, ps: seq<nat>, rest: nat, news: set<Use>)
    requires PoolOk(v) && PoolOk(w) && PoolOk(x)
    requires Detached(v, w, r, |ps|) && ChainOf(v, r, ps, rest) && Takes(w, x, Pages(ps), news)
    ensures Takes(v, x, {}, news)
  {
    hide PoolOk, Detached, ChainOf, Takes;
    PoolParts(v);
    PoolParts(w);
    DetachedIsChain(v, w, r, ps, rest);
    TakesFromList(v, w, x, Pages(ps), news);
  }

  lemma DetachedIsChain(v: Pool, w: Pool, r: nat, ps: seq<nat>, rest: nat)
    requires PoolOk(v) && Detached(v, w, r, |ps|) && ChainOf(v, r, ps, rest)
    ensures w.mem == v.mem && w.owner.Keys == v.owner.Keys && w.numa == v.numa && w.tail == v.tail
    ensures forall p :: p in v.owner ==>
              w.owner[p] == v.owner[p] || (v.owner[p].Free? && w.owner[p] == Held(p) && p in Pages(ps))
    ensures forall p :: p in Pages(ps) ==> p in v.owner && v.owner[p].Free?
  {
    forall p | p in v.owner && TopOf(v.owner[p], r, v.count[r] - |ps|)
      ensures p in Pages(ps)
    {
      assert ListOk(v, r);
      assert v.owner[p] in v.at;
      ChainHas(v, r, ps, rest, p);
    }
  }

  lemma TakesFromList(v: Pool, w: Pool, x: Pool, from: set<nat>, news: set<Use>)
    requires Bijective(v) && Bijective(w) && v.mem.Keys == v.owner.Keys && Takes(w, x, from, news)
    requires w.mem == v.mem && w.owner.Keys == v.owner.Keys && w.numa == v.numa && w.tail == v.tail
    requires forall p :: p in v.owner ==>
               w.owner[p] == v.owner[p] || (v.owner[p].Free? && w.owner[p] == Held(p) && p in from)
    requires forall p :: p in from ==> p in v.owner && v.owner[p].Free?
    ensures Takes(v, x, {}, news)
  {
    forall u | u in news
      ensures u !in v.at
    {
      assert forall p :: p in v.owner && v.owner[p] == u ==> w.owner[p] == u;
    }
  }

  lemma ChainHas(v: Pool, r: nat, ps: seq<nat>, rest: nat, p: nat)
    requires Bijective(v) && ChainOf(v, r, ps, rest) && p in v.owner && TopOf(v.owner[p], r, v.count[r] - |ps|)
    requires v.owner[p].height < v.count[r]
    ensures p in Pages(ps)
  {
    var i := v.count[r] - 1 - v.owner[p].height;
    assert v.owner[ps[i]] == v.owner[p];
    assert v.at[v.owner[p]] == p && v.at[v.owner[ps[i]]] == ps[i];
  }

  lemma HeldKeys(v: Pool)
    requires PoolOk(v)
    ensures forall p :: Held(p) in v.at ==> v.at[Held(p)] == p
  {
  }
}
