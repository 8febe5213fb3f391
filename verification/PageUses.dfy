/** What every page of the pool is used for, as a bijection between pages and uses, and what
    the memory image has to look like for that bijection. */
module PageUses {
  import opened Machine

  /** The use of one page.  A free page sits at a height of its region's list (the head is the
      top); `Root`, `Pmd`, `Pte` are the three table levels of an inode and `Data` its blocks,
      named by their indices in the tables above; `Held` pages are out of the list and in no
      table (in a caller's hands, or lost). */
  datatype Use =
    | Free(region: nat, height: nat)
    | Root(ino: Ino)
    | Pmd(ino: Ino, a: nat)
    | Pte(ino: Ino, a: nat, b: nat)
    | Data(ino: Ino, a: nat, b: nat, c: nat)
    | Held(page: nat)

  ghost predicate IsTable(u: Use) {
    u.Root? || u.Pmd? || u.Pte?
  }

  ghost predicate Owned(u: Use, ino: Ino) {
    (u.Root? || u.Pmd? || u.Pte? || u.Data?) && u.ino == ino
  }

  ghost function Child(u: Use, i: nat): Use
    requires IsTable(u)
  {
    match u
    case Root(ino) => Pmd(ino, i)
    case Pmd(ino, a) => Pte(ino, a, i)
    case Pte(ino, a, b) => Data(ino, a, b, i)
  }

  ghost predicate HasParent(u: Use) {
    u.Pmd? || u.Pte? || u.Data?
  }

  ghost function Parent(u: Use): Use
    requires HasParent(u)
  {
    match u
    case Pmd(ino, _) => Root(ino)
    case Pte(ino, a, _) => Pmd(ino, a)
    case Data(ino, a, b, _) => Pte(ino, a, b)
  }

  ghost function Index(u: Use): nat
    requires HasParent(u)
  {
    match u
    case Pmd(_, a) => a
    case Pte(_, _, b) => b
    case Data(_, _, _, c) => c
  }

  ghost function Flags(u: Use): Word {
    if u.Data? then PAGE_KERNEL else PAGE_TABLE
  }

  /** A snapshot of the allocator: the memory of the pool, the two list heads and counts, and
      the bookkeeping that says what each page is used for.  `tail[r]` is the link stored in
      the bottom page of list `r`; it is never a page of the list. */
  datatype Pool = Pool(
    numa: bool,
    mem: map<nat, seq<Word>>,
    head: seq<nat>,
    count: seq<nat>,
    owner: map<nat, Use>,
    at: map<Use, nat>,
    tail: seq<nat>)

  ghost predicate Bijective(v: Pool) {
    && (forall p :: p in v.owner ==> v.owner[p] in v.at && v.at[v.owner[p]] == p)
    && (forall u :: u in v.at ==> v.at[u] in v.owner && v.owner[v.at[u]] == u)
  }

  /** The page under height `h` of list `r`. */
  ghost function Link(v: Pool, r: nat, h: nat): nat
    requires r < 2 && |v.tail| == 2
    requires h > 0 ==> Free(r, h - 1) in v.at
  {
    if h == 0 then v.tail[r] else v.at[Free(r, h - 1)]
  }

  ghost predicate ListOk(v: Pool, r: nat)
    requires r < 2 && |v.head| == |v.count| == |v.tail| == 2
  {
    && (forall h: nat :: Free(r, h) in v.at <==> h < v.count[r])
    && (forall h: nat :: h < v.count[r] ==>
          && v.at[Free(r, h)] in v.mem && |v.mem[v.at[Free(r, h)]]| == PTRS_PER_TABLE
          && Side(v.numa, v.at[Free(r, h)]) == r)
    && (forall h: nat {:trigger Link(v, r, h)} :: h < v.count[r] ==> v.mem[v.at[Free(r, h)]][0] == Link(v, r, h))
    && v.head[r] == Link(v, r, v.count[r])
  }

  /** The allocator's invariant: every page has exactly one use, list `r` threads exactly the
      free pages of side `r` of the NUMA line, and its count is its length. */
  ghost predicate PoolOk(v: Pool) {
    && |v.head| == |v.count| == |v.tail| == 2
    && v.mem.Keys == v.owner.Keys
    && (forall p :: p in v.mem ==> IsPage(p) && |v.mem[p]| == PTRS_PER_TABLE)
    && Bijective(v)
    && (forall p :: Held(p) in v.at ==> v.at[Held(p)] == p)
    && (forall r: nat, h: nat :: Free(r, h) in v.at ==> r < 2)
    && (forall r: nat :: r < 2 ==> ListOk(v, r))
  }

  lemma PoolLengths(v: Pool)
    requires PoolOk(v)
    ensures |v.head| == |v.count| == |v.tail| == 2 && v.mem.Keys == v.owner.Keys
  {
  }

  lemma PageShape(v: Pool, p: nat)
    requires PoolOk(v) && p in v.owner
    ensures p in v.mem && IsPage(p) && |v.mem[p]| == PTRS_PER_TABLE
  {
  }

  lemma UseShape(v: Pool, u: Use)
    requires PoolOk(v) && u in v.at
    ensures v.at[u] in v.owner && v.owner[v.at[u]] == u
    ensures v.at[u] in v.mem && IsPage(v.at[u]) && |v.mem[v.at[u]]| == PTRS_PER_TABLE
  {
  }

  /** The table entry a use is entitled to: its page with the flags of its level, or none. */
  ghost function Entry(v: Pool, u: Use): Word {
    if u in v.at then v.at[u] + Flags(u) else 0
  }

  /** Table `u` holds exactly the entries of its children. */
  ghost predicate TableOk(v: Pool, u: Use)
    requires IsTable(u) && u in v.at
  {
    && v.at[u] in v.mem && |v.mem[v.at[u]]| == PTRS_PER_TABLE
    && forall i: nat :: i < PTRS_PER_TABLE ==> v.mem[v.at[u]][i] == Entry(v, Child(u, i))
  }

  /** The page tables of inode `ino` are a tree, each table holding exactly its children. */
  ghost predicate TreeCore(v: Pool, ino: Ino) {
    && (forall u :: u in v.at && IsTable(u) && u.ino == ino ==> TableOk(v, u))
    && (forall u :: u in v.at && HasParent(u) && u.ino == ino ==>
          Parent(u) in v.at && Index(u) < PTRS_PER_TABLE)
  }

  /** Inode `ino` has no pages, or its page tables are a tree that starts with one table of
      every level. */
  ghost predicate TreeOk(v: Pool, ino: Ino) {
    && TreeCore(v, ino)
    && (Root(ino) in v.at ==> Pmd(ino, 0) in v.at && Pte(ino, 0, 0) in v.at)
  }

  ghost predicate Forest(v: Pool) {
    forall ino: Ino :: TreeOk(v, ino)
  }

  /** As `Forest`, but inode `ino` may still lack its first tables. */
  ghost predicate ForestBut(v: Pool, ino: Ino) {
    TreeCore(v, ino) && forall other: Ino :: other != ino ==> TreeOk(v, other)
  }

  // ----- giving pages back -----

  ghost function FreePages(v: Pool): set<nat> {
    set p | p in v.owner && v.owner[p].Free?
  }

  ghost function HeldPages(v: Pool): set<nat> {
    set p | p in v.owner && v.owner[p].Held?
  }

  ghost function OwnedPages(v: Pool, ino: Ino): set<nat> {
    set p | p in v.owner && Owned(v.owner[p], ino)
  }

  /** From `v` to `w` exactly the uses `s` ended and their pages went onto the lists; every
      other use kept its page, and every page not on a list kept its contents. */
  ghost predicate Released(v: Pool, w: Pool, s: set<Use>)
    requires PoolOk(v) && PoolOk(w)
  {
    && w.numa == v.numa && w.tail == v.tail && w.owner.Keys == v.owner.Keys
    && (forall u :: u in s ==> u in v.at && !u.Free? && u !in w.at && w.owner[v.at[u]].Free?)
    && (forall u :: u in v.at && u !in s ==> u in w.at && w.at[u] == v.at[u])
    && (forall u :: u in w.at && !u.Free? ==> u in v.at && u !in s)
    && (forall p :: p in w.owner && !w.owner[p].Free? ==> w.mem[p] == v.mem[p])
  }

  lemma ReleasedNothing(v: Pool)
    requires PoolOk(v)
    ensures Released(v, v, {})
  {
  }

  lemma ReleasedThen(v: Pool, w: Pool, x: Pool, s: set<Use>, t: set<Use>)
    requires PoolOk(v) && PoolOk(w) && PoolOk(x)
    requires Released(v, w, s) && Released(w, x, t)
    ensures Released(v, x, s + t)
  {
    forall u | u in s
      ensures u in v.at && !u.Free? && u !in x.at && x.owner[v.at[u]].Free?
    {
      var p := v.at[u];
      assert w.owner[p].Free?;
      assert w.owner[p] in x.at && x.at[w.owner[p]] == p;
    }
  }

  /** The pool after one page goes back on the list of its side. */
  ghost function Pushed(v: Pool, p: nat): Pool
    requires |v.head| == |v.count| == 2 && p in v.owner && p in v.mem && |v.mem[p]| > 0
  {
    var r := Side(v.numa, p);
    var u := Free(r, v.count[r]);
    v.(mem := v.mem[p := v.mem[p][0 := v.head[r]]],
       head := v.head[r := p],
       count := v.count[r := v.count[r] + 1],
       owner := v.owner[p := u],
       at := (v.at - {v.owner[p]})[u := p])
  }

  lemma PushKeepsBijection(v: Pool, p: nat)
    requires PoolOk(v) && p in v.owner && !v.owner[p].Free?
    ensures Bijective(Pushed(v, p))
    ensures var w := Pushed(v, p);
            && (forall u :: u in w.at <==>
                  u == Free(Side(v.numa, p), v.count[Side(v.numa, p)]) || (u in v.at && u != v.owner[p]))
            && (forall u :: u in v.at && u != v.owner[p] ==> w.at[u] == v.at[u] && w.at[u] != p)
  {
    var w := Pushed(v, p);
    var r := Side(v.numa, p);
    var top := Free(r, v.count[r]);
    assert ListOk(v, r);
    assert top !in v.at;
    forall u | u in v.at && u != v.owner[p]
      ensures w.at[u] == v.at[u] && w.at[u] != p
    {
    }
  }

  lemma PushKeepsList(v: Pool, p: nat, s: nat)
    requires |v.head| == |v.count| == |v.tail| == 2 && s < 2 && p in v.mem && |v.mem[p]| == PTRS_PER_TABLE
    requires p in v.owner && v.owner[p] in v.at && !v.owner[p].Free? && ListOk(v, s)
    requires forall u :: u in v.at && u != v.owner[p] ==> v.at[u] != p
    ensures ListOk(Pushed(v, p), s)
  {
    var w := Pushed(v, p);
    assert forall h: nat :: h < v.count[s] ==> Free(s, h) in w.at && w.at[Free(s, h)] == v.at[Free(s, h)] != p;
    if s == Side(v.numa, p) {
      PushOnTop(v, w, p, s);
    } else {
      ListFrame(v, w, s);
    }
  }

  lemma PushOnTop(v: Pool, w: Pool, p: nat, r: nat)
    requires |v.head| == |v.count| == |v.tail| == 2 && r < 2 && ListOk(v, r) && w.numa == v.numa && w.tail == v.tail
    requires |w.head| == |w.count| == 2 && w.head[r] == p && w.count[r] == v.count[r] + 1 && Side(v.numa, p) == r
    requires p in w.mem && |w.mem[p]| == PTRS_PER_TABLE && w.mem[p][0] == v.head[r]
    requires forall h: nat :: Free(r, h) in w.at <==> h < w.count[r]
    requires Free(r, v.count[r]) in w.at && w.at[Free(r, v.count[r])] == p
    requires forall h: nat :: h < v.count[r] ==> SamePlace(v, w, Free(r, h))
    ensures ListOk(w, r)
  {
    hide ListOk, SamePlace, OnList, Side, Link;
    forall h: nat | h < w.count[r]
      ensures OnList(w, r, h)
    {
      PushedAt(v, w, p, r, h);
    }
    PushedTop(w, r);
    ListOf(w, r);
  }

  /** The page at height `h` of list `r` belongs there, and points to the one below. */
  ghost predicate OnList(v: Pool, r: nat, h: nat)
    requires r < 2 && |v.tail| == 2 && (h > 0 ==> Free(r, h - 1) in v.at) && Free(r, h) in v.at
  {
    var q := v.at[Free(r, h)];
    q in v.mem && |v.mem[q]| == PTRS_PER_TABLE && Side(v.numa, q) == r && v.mem[q][0] == Link(v, r, h)
  }

  lemma PushedAt(v: Pool, w: Pool, p: nat, r: nat, h: nat)
    requires |v.head| == |v.count| == |v.tail| == 2 && r < 2 && ListOk(v, r) && w.numa == v.numa && w.tail == v.tail
    requires h <= v.count[r] && Free(r, h) in w.at && Side(v.numa, p) == r
    requires p in w.mem && |w.mem[p]| == PTRS_PER_TABLE && w.mem[p][0] == v.head[r]
    requires if h < v.count[r] then SamePlace(v, w, Free(r, h)) else w.at[Free(r, h)] == p
    requires h > 0 ==> SamePlace(v, w, Free(r, h - 1))
    ensures OnList(w, r, h)
  {
    hide Side;
    assert Link(w, r, h) == Link(v, r, h);
    if h < v.count[r] {
      assert v.mem[v.at[Free(r, h)]][0] == Link(v, r, h);
    }
  }

  lemma PushedTop(w: Pool, r: nat)
    requires r < 2 && |w.tail| == |w.head| == |w.count| == 2 && w.count[r] > 0 && Free(r, w.count[r] - 1) in w.at
    requires w.at[Free(r, w.count[r] - 1)] == w.head[r]
    ensures w.head[r] == Link(w, r, w.count[r])
  {
  }

  lemma ListOf(v: Pool, r: nat)
    requires |v.head| == |v.count| == |v.tail| == 2 && r < 2
    requires forall h: nat :: Free(r, h) in v.at <==> h < v.count[r]
    requires forall h: nat :: h < v.count[r] ==> OnList(v, r, h)
    requires v.head[r] == Link(v, r, v.count[r])
    ensures ListOk(v, r)
  {
    hide Side, Link;
    forall h: nat | h < v.count[r]
      ensures var q := v.at[Free(r, h)];
              q in v.mem && |v.mem[q]| == PTRS_PER_TABLE && Side(v.numa, q) == r && v.mem[q][0] == Link(v, r, h)
    {
      assert OnList(v, r, h);
    }
  }

  ghost predicate SamePlace(v: Pool, w: Pool, u: Use) {
    && u in v.at && u in w.at && w.at[u] == v.at[u]
    && v.at[u] in v.mem && v.at[u] in w.mem && w.mem[v.at[u]] == v.mem[v.at[u]]
  }

  lemma PushReleases(v: Pool, p: nat)
    requires PoolOk(v) && p in v.owner && !v.owner[p].Free?
    ensures PoolOk(Pushed(v, p)) && Released(v, Pushed(v, p), {v.owner[p]})
  {
    PushKeepsBijection(v, p);
    forall s: nat | s < 2
      ensures ListOk(Pushed(v, p), s)
    {
      assert ListOk(v, s);
      PushKeepsList(v, p, s);
    }
  }

  // ----- taking pages off a list -----

  /** The pool after the top page of list `r` is taken off it. */
  ghost function Popped(v: Pool, r: nat): Pool
    requires PoolOk(v) && r < 2 && v.count[r] > 0
  {
    assert ListOk(v, r);
    var n := v.count[r] - 1;
    var p := v.at[Free(r, n)];
    v.(head := v.head[r := Link(v, r, n)],
       count := v.count[r := n],
       owner := v.owner[p := Held(p)],
       at := (v.at - {Free(r, n)})[Held(p) := p])
  }

  lemma PopKeepsBijection(v: Pool, r: nat)
    requires PoolOk(v) && r < 2 && v.count[r] > 0
    ensures ListOk(v, r) && v.head[r] == v.at[Free(r, v.count[r] - 1)] && Popped(v, r).head[r] == v.mem[v.head[r]][0]
    ensures Bijective(Popped(v, r))
    ensures Held(v.head[r]) !in v.at
  {
    assert ListOk(v, r);
    var n := v.count[r] - 1;
    var p := v.at[Free(r, n)];
    assert Held(p) !in v.at;
    assert Link(v, r, n + 1) == p;
    assert v.mem[p][0] == Link(v, r, n);
  }

  lemma PopKeepsList(v: Pool, w: Pool, r: nat, s: nat)
    requires |v.head| == |v.count| == |v.tail| == 2 && r < 2 && s < 2 && v.count[r] > 0
    requires ListOk(v, r) && ListOk(v, s)
    requires var n := v.count[r] - 1; var p := v.at[Free(r, n)];
             w == v.(head := v.head[r := Link(v, r, n)], count := v.count[r := n],
                     owner := v.owner[p := Held(p)], at := (v.at - {Free(r, n)})[Held(p) := p])
    ensures ListOk(w, s)
  {
    assert forall h: nat :: Free(s, h) in w.at <==> h < w.count[s] by {
      forall h: nat
        ensures Free(s, h) in w.at <==> h < w.count[s]
      {
        assert Free(s, h) in v.at <==> h < v.count[s];
      }
    }
    forall h: nat | h < w.count[s]
      ensures w.mem[w.at[Free(s, h)]][0] == Link(w, s, h)
    {
      assert h > 0 ==> Free(s, h - 1) in v.at;
      assert Link(w, s, h) == Link(v, s, h);
      assert v.mem[v.at[Free(s, h)]][0] == Link(v, s, h);
    }
    var m := w.count[s];
    assert m > 0 ==> Free(s, m - 1) in v.at;
    assert Link(w, s, m) == Link(v, s, m);
  }

  lemma PopKeeps(v: Pool, r: nat)
    requires PoolOk(v) && r < 2 && v.count[r] > 0
    ensures PoolOk(Popped(v, r))
    ensures ListOk(v, r) && v.head[r] == v.at[Free(r, v.count[r] - 1)] && Popped(v, r).head[r] == v.mem[v.head[r]][0]
  {
    PopKeepsBijection(v, r);
    forall s: nat | s < 2
      ensures ListOk(Popped(v, r), s)
    {
      assert ListOk(v, s);
      PopKeepsList(v, Popped(v, r), r, s);
    }
  }

  // ----- entering pages in tables -----

  ghost predicate Zeroed(page: seq<Word>) {
    forall i: nat :: i < |page| ==> page[i] == 0
  }

  /** The pool after held page `p` becomes the child `u` of a table, and is entered there. */
  ghost function Attached(v: Pool, p: nat, u: Use): Pool
    requires PoolOk(v) && HasParent(u) && Parent(u) in v.at && Index(u) < PTRS_PER_TABLE
  {
    var t := v.at[Parent(u)];
    v.(mem := v.mem[t := Put(v.mem[t], Index(u), p + Flags(u))],
       owner := v.owner[p := u],
       at := (v.at - {Held(p)})[u := p])
  }

  /** List `r` only depends on its own pages, so it survives any change elsewhere. */
  lemma ListFrame(v: Pool, w: Pool, r: nat)
    requires |v.head| == |v.count| == |v.tail| == 2 && r < 2 && ListOk(v, r)
    requires |w.head| == |w.count| == 2 && w.numa == v.numa && w.tail == v.tail
    requires w.head[r] == v.head[r] && w.count[r] == v.count[r]
    requires forall h: nat :: (Free(r, h) in w.at <==> Free(r, h) in v.at)
    requires forall h: nat :: Free(r, h) in v.at ==> w.at[Free(r, h)] == v.at[Free(r, h)]
    requires forall h: nat :: Free(r, h) in v.at ==>
               v.at[Free(r, h)] in w.mem && w.mem[v.at[Free(r, h)]] == v.mem[v.at[Free(r, h)]]
    ensures ListOk(w, r)
  {
    forall h: nat | h < w.count[r]
      ensures w.mem[w.at[Free(r, h)]][0] == Link(w, r, h)
    {
      assert h > 0 ==> Free(r, h - 1) in v.at;
      assert Link(w, r, h) == Link(v, r, h);
      assert v.mem[v.at[Free(r, h)]][0] == Link(v, r, h);
    }
    var m := w.count[r];
    assert m > 0 ==> Free(r, m - 1) in v.at;
    assert Link(w, r, m) == Link(v, r, m);
  }

  lemma PoolParts(v: Pool)
    requires PoolOk(v)
    ensures Bijective(v) && v.mem.Keys == v.owner.Keys
  {
  }

  lemma AttachKeepsPool(v: Pool, p: nat, u: Use)
    requires PoolOk(v) && HasParent(u) && Parent(u) in v.at && Index(u) < PTRS_PER_TABLE
    requires Held(p) in v.at && u !in v.at
    ensures PoolOk(Attached(v, p, u))
  {
    var w := Attached(v, p, u);
    AttachBijective(v, p, u);
    hide Bijective, ListOk;
    forall r: nat | r < 2
      ensures ListOk(w, r)
    {
      AttachKeepsList(v, p, u, r);
    }
  }

  lemma AttachBijective(v: Pool, p: nat, u: Use)
    requires PoolOk(v) && HasParent(u) && Parent(u) in v.at && Index(u) < PTRS_PER_TABLE
    requires Held(p) in v.at && u !in v.at
    ensures Bijective(Attached(v, p, u))
  {
    assert v.at[Held(p)] == p;
    PoolParts(v);
    hide PoolOk;
    assert v.owner[p] == Held(p);
    Reused(v, Attached(v, p, u), p, u);
  }

  /** A page that changes its use. */
  lemma Reused(v: Pool, w: Pool, p: nat, u: Use)
    requires Bijective(v) && p in v.owner && u !in v.at
    requires w.owner == v.owner[p := u] && w.at == (v.at - {v.owner[p]})[u := p]
    ensures Bijective(w)
  {
    forall q | q in w.owner
      ensures w.owner[q] in w.at && w.at[w.owner[q]] == q
    {
      assert q in v.owner;
    }
    forall x | x in w.at
      ensures w.at[x] in w.owner && w.owner[w.at[x]] == x
    {
      assert x != u ==> x in v.at && x != v.owner[p];
    }
  }

  lemma AttachKeepsList(v: Pool, p: nat, u: Use, r: nat)
    requires PoolOk(v) && HasParent(u) && Parent(u) in v.at && Index(u) < PTRS_PER_TABLE
    requires Held(p) in v.at && u !in v.at && r < 2
    ensures ListOk(Attached(v, p, u), r)
  {
    var w, t := Attached(v, p, u), v.at[Parent(u)];
    assert ListOk(v, r);
    forall h: nat | Free(r, h) in v.at
      ensures v.at[Free(r, h)] in v.mem && v.at[Free(r, h)] != t
    {
      assert v.owner[v.at[Free(r, h)]] == Free(r, h) && v.owner[t] == Parent(u);
    }
    hide PoolOk, Bijective, ListOk;
    ListFrame(v, w, r);
  }

  lemma AttachKeepsTable(v: Pool, w: Pool, p: nat, u: Use, t: Use)
    requires HasParent(u) && Parent(u) in v.at && Index(u) < PTRS_PER_TABLE && u !in v.at
    requires IsTable(t) && t in v.at && TableOk(v, t) && TableOk(v, Parent(u))
    requires v.at[t] == v.at[Parent(u)] ==> t == Parent(u)
    requires w.at == (v.at - {Held(p)})[u := p]
    requires w.mem == v.mem[v.at[Parent(u)] := Put(v.mem[v.at[Parent(u)]], Index(u), p + Flags(u))]
    ensures TableOk(w, t)
  {
    forall i: nat | i < PTRS_PER_TABLE
      ensures w.mem[w.at[t]][i] == Entry(w, Child(t, i))
    {
      assert v.mem[v.at[t]][i] == Entry(v, Child(t, i));
      assert Child(t, i) == u <==> t == Parent(u) && i == Index(u);
    }
  }

  lemma AttachKeepsTree(v: Pool, p: nat, u: Use, ino: Ino)
    requires PoolOk(v) && HasParent(u) && Parent(u) in v.at && Index(u) < PTRS_PER_TABLE
    requires Held(p) in v.at && u !in v.at
    requires IsTable(u) ==> Zeroed(v.mem[p])
    requires TreeCore(v, ino) && TreeCore(v, u.ino)
    ensures TreeCore(Attached(v, p, u), ino)
  {
    var w := Attached(v, p, u);
    assert v.owner[p] == Held(p);
    forall t | t in w.at && IsTable(t) && t.ino == ino
      ensures TableOk(w, t)
    {
      if t == u {
        assert forall i: nat :: Child(t, i) !in v.at by {
          forall i: nat
            ensures Child(t, i) !in v.at
          {
            assert Parent(Child(t, i)) == u;
          }
        }
      } else {
        assert v.owner[v.at[t]] == t;
        AttachKeepsTable(v, w, p, u, t);
      }
    }
  }

  /** The tables of an inode only depend on its own pages. */
  lemma TreeFrame(v: Pool, w: Pool, ino: Ino)
    requires TreeCore(v, ino)
    requires forall u :: Owned(u, ino) ==> (u in w.at <==> u in v.at)
    requires forall u :: Owned(u, ino) && u in v.at ==> w.at[u] == v.at[u]
    requires forall u :: Owned(u, ino) && IsTable(u) && u in v.at ==>
               v.at[u] in w.mem && w.mem[v.at[u]] == v.mem[v.at[u]]
    ensures TreeCore(w, ino) && (TreeOk(v, ino) ==> TreeOk(w, ino))
  {
    forall t | t in w.at && IsTable(t) && t.ino == ino
      ensures TableOk(w, t)
    {
      assert Owned(t, ino) && TableOk(v, t);
      forall i: nat | i < PTRS_PER_TABLE
        ensures w.mem[w.at[t]][i] == Entry(w, Child(t, i))
      {
        assert v.mem[v.at[t]][i] == Entry(v, Child(t, i));
        assert Owned(Child(t, i), ino);
      }
    }
    forall u | u in w.at && HasParent(u) && u.ino == ino
      ensures Parent(u) in w.at && Index(u) < PTRS_PER_TABLE
    {
      assert Owned(u, ino) && Owned(Parent(u), ino);
    }
    assert Owned(Root(ino), ino) && Owned(Pmd(ino, 0), ino) && Owned(Pte(ino, 0, 0), ino);
  }

  /** The pool after the contents of a held page change. */
  ghost function Rewritten(v: Pool, p: nat, page: seq<Word>): Pool {
    v.(mem := v.mem[p := page])
  }

  lemma RewriteKeeps(v: Pool, p: nat, page: seq<Word>)
    requires PoolOk(v) && Forest(v) && Held(p) in v.at && |page| == PTRS_PER_TABLE
    ensures PoolOk(Rewritten(v, p, page)) && Forest(Rewritten(v, p, page))
  {
    var w := Rewritten(v, p, page);
    assert v.owner[p] == Held(p);
    forall r: nat | r < 2
      ensures ListOk(w, r)
    {
      assert ListOk(v, r);
      ListFrame(v, w, r);
    }
    forall ino: Ino
      ensures TreeOk(w, ino)
    {
      assert TreeOk(v, ino);
      TreeFrame(v, w, ino);
    }
  }

  lemma PopKeepsForest(v: Pool, r: nat)
    requires PoolOk(v) && Forest(v) && r < 2 && v.count[r] > 0
    ensures Forest(Popped(v, r))
  {
    PopKeepsBijection(v, r);
    forall ino: Ino
      ensures TreeOk(Popped(v, r), ino)
    {
      assert TreeOk(v, ino);
      TreeFrame(v, Popped(v, r), ino);
    }
  }

  lemma AttachKeepsBut(v: Pool, p: nat, u: Use)
    requires PoolOk(v) && HasParent(u) && Parent(u) in v.at && Index(u) < PTRS_PER_TABLE
    requires ForestBut(v, u.ino) && Held(p) in v.at && u !in v.at
    requires IsTable(u) ==> Zeroed(v.mem[p])
    ensures PoolOk(Attached(v, p, u)) && ForestBut(Attached(v, p, u), u.ino)
  {
    hide PoolOk, TreeCore, TableOk;
    AttachKeepsPool(v, p, u);
    AttachKeepsTree(v, p, u, u.ino);
    forall other: Ino | other != u.ino
      ensures TreeOk(Attached(v, p, u), other)
    {
      assert TreeOk(v, other);
      AttachKeepsTree(v, p, u, other);
    }
  }

  lemma AttachKeeps(v: Pool, p: nat, u: Use)
    requires PoolOk(v) && Forest(v) && HasParent(u) && Parent(u) in v.at && Index(u) < PTRS_PER_TABLE
    requires Held(p) in v.at && u !in v.at
    requires IsTable(u) ==> Zeroed(v.mem[p])
    ensures PoolOk(Attached(v, p, u)) && Forest(Attached(v, p, u))
  {
    hide PoolOk;
    assert TreeOk(v, u.ino);
    AttachKeepsBut(v, p, u);
    StemKeeps(v, Attached(v, p, u), u.ino);
  }

  lemma StemKeeps(v: Pool, w: Pool, ino: Ino)
    requires ForestBut(w, ino) && Root(ino) in v.at && TreeOk(v, ino)
    requires forall x :: x in v.at && !x.Held? ==> x in w.at
    ensures Forest(w)
  {
    forall other: Ino
      ensures TreeOk(w, other)
    {
    }
  }

  // ----- the first tables of an inode -----

  /** The pool after held page `p` becomes the top table of an inode. */
  ghost function Rooted(v: Pool, p: nat, ino: Ino): Pool {
    v.(owner := v.owner[p := Root(ino)], at := (v.at - {Held(p)})[Root(ino) := p])
  }

  lemma RootKeeps(v: Pool, p: nat, ino: Ino)
    requires PoolOk(v) && Forest(v) && Held(p) in v.at && Zeroed(v.mem[p]) && Root(ino) !in v.at
    ensures PoolOk(Rooted(v, p, ino)) && ForestBut(Rooted(v, p, ino), ino)
    ensures forall x :: x in v.at ==> !Owned(x, ino)
  {
    RootKeepsPool(v, p, ino);
    hide PoolOk;
    RootKeepsTrees(v, p, ino);
  }

  lemma RootKeepsPool(v: Pool, p: nat, ino: Ino)
    requires PoolOk(v) && Held(p) in v.at && Root(ino) !in v.at
    ensures PoolOk(Rooted(v, p, ino)) && v.owner[p] == Held(p)
  {
    var w := Rooted(v, p, ino);
    assert v.owner[p] == Held(p);
    forall r: nat | r < 2
      ensures ListOk(w, r)
    {
      assert ListOk(v, r);
      ListFrame(v, w, r);
    }
  }

  lemma RootKeepsTrees(v: Pool, p: nat, ino: Ino)
    requires Forest(v) && Held(p) in v.at && Root(ino) !in v.at
    requires p in v.mem && |v.mem[p]| == PTRS_PER_TABLE && Zeroed(v.mem[p])
    ensures ForestBut(Rooted(v, p, ino), ino)
    ensures forall x :: x in v.at ==> !Owned(x, ino)
  {
    var w := Rooted(v, p, ino);
    assert TreeOk(v, ino);
    forall x | x in v.at
      ensures !Owned(x, ino)
    {
    }
    forall other: Ino | other != ino
      ensures TreeOk(w, other)
    {
      assert TreeOk(v, other);
      TreeFrame(v, w, other);
    }
  }

  /** The pool after three held pages become the first table of each level. */
  ghost function FirstTables(v: Pool, pud: nat, pmd: nat, pte: nat, ino: Ino): Pool
    requires PoolOk(v) && Forest(v) && {Held(pud), Held(pmd), Held(pte)} <= v.at.Keys && pud != pmd && pmd != pte
    requires pud != pte
    requires Zeroed(v.mem[pud]) && Root(ino) !in v.at
  {
    RootKeeps(v, pud, ino);
    var w1 := Rooted(v, pud, ino);
    assert Held(pmd) in w1.at && Pmd(ino, 0) !in w1.at;
    AttachKeepsPool(w1, pmd, Pmd(ino, 0));
    Attached(Attached(w1, pmd, Pmd(ino, 0)), pte, Pte(ino, 0, 0))
  }

  lemma FirstTablesKeep(v: Pool, pud: nat, pmd: nat, pte: nat, ino: Ino)
    requires PoolOk(v) && Forest(v) && {Held(pud), Held(pmd), Held(pte)} <= v.at.Keys && pud != pmd && pmd != pte
    requires pud != pte
    requires Zeroed(v.mem[pud]) && Zeroed(v.mem[pmd]) && Zeroed(v.mem[pte]) && Root(ino) !in v.at
    ensures var w := FirstTables(v, pud, pmd, pte, ino); PoolOk(w) && Forest(w)
  {
    RootKeeps(v, pud, ino);
    var w1 := Rooted(v, pud, ino);
    AttachKeepsBut(w1, pmd, Pmd(ino, 0));
    var w2 := Attached(w1, pmd, Pmd(ino, 0));
    AttachKeepsBut(w2, pte, Pte(ino, 0, 0));
    var w := Attached(w2, pte, Pte(ino, 0, 0));
    assert Pmd(ino, 0) in w.at && Pte(ino, 0, 0) in w.at;
    forall other: Ino
      ensures TreeOk(w, other)
    {
    }
  }
}
