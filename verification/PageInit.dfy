/** The free lists a region starts with: `rdfs_init_free_block_list_offset` threads the pages of a
    region in address order. */
module PageInit {
  import opened Machine
  import opened PageUses

  /** The `i`-th page of an area. */
  function Nth(start: nat, i: nat): nat {
    start + i * PAGE_SIZE
  }

  /** The page areas of the two regions lie on their sides of the NUMA line, and are all there is. */
  ghost predicate Areas(numa: bool, mem: map<nat, seq<Word>>, start: seq<nat>, n: seq<nat>) {
    && |start| == |n| == 2
    && (forall r: nat :: r < 2 ==> start[r] % PAGE_SIZE == 0 && start[r] > 0 && Nth(start[r], n[r]) < NX_BIT)
    && (forall r: nat, i: nat :: r < 2 && i < n[r] ==> Nth(start[r], i) in mem && Side(numa, Nth(start[r], i)) == r)
    && (forall p :: p in mem ==>
          && |mem[p]| == PTRS_PER_TABLE
          && var r := Side(numa, p); start[r] <= p < Nth(start[r], n[r]) && p % PAGE_SIZE == 0)
  }

  /** `rdfs_init_free_block_list_offset`. */
  method ThreadPages(mem: map<nat, seq<Word>>, start: nat, n: nat) returns (out: map<nat, seq<Word>>)
    requires forall i: nat :: i < n ==> Nth(start, i) in mem && |mem[Nth(start, i)]| > 0
    ensures out.Keys == mem.Keys
    ensures forall i: nat :: i < n ==> out[Nth(start, i)] == Put(mem[Nth(start, i)], 0, Nth(start, i + 1))
    ensures forall p :: p in mem && (forall i: nat :: i < n ==> p != Nth(start, i)) ==> out[p] == mem[p]
  {
    out := mem;
    var temp: nat, next: nat, i: nat := start, start + PAGE_SIZE, 0;
    NthStep(start, 0);
    assert temp == Nth(start, 0);
    hide Nth, Put;
    while i < n
      invariant i <= n && temp == Nth(start, i) && next == Nth(start, i + 1) && out.Keys == mem.Keys
      invariant forall j: nat :: j < i ==> out[Nth(start, j)] == Put(mem[Nth(start, j)], 0, Nth(start, j + 1))
      invariant forall p :: p in mem && (forall j: nat :: j < i ==> p != Nth(start, j)) ==> out[p] == mem[p]
    {
      NthStep(start, i);
      NthStep(start, i + 1);
      out := out[temp := Put(out[temp], 0, next)];
      next := next + PAGE_SIZE;
      temp := temp + PAGE_SIZE;
      i := i + 1;
    }
  }

  lemma NthStep(start: nat, i: nat)
    ensures Nth(start, i + 1) == Nth(start, i) + PAGE_SIZE
    ensures forall j: nat :: j < i ==> Nth(start, j) != Nth(start, i)
  {
  }

  /** The height of page `p` on the first list of its region: the lowest address is on top. */
  ghost function FirstHeight(numa: bool, start: seq<nat>, n: seq<nat>, p: nat): nat
    requires |start| == |n| == 2
  {
    var r := Side(numa, p);
    var h := n[r] - 1 - (p - start[r]) / PAGE_SIZE;
    if h >= 0 then h else 0
  }

  ghost function FirstList(start: nat, n: nat, r: nat): (m: map<Use, nat>)
    ensures forall u :: u in m <==> u.Free? && u.region == r && u.height < n
    ensures forall h: nat :: h < n ==> m[Free(r, h)] == Nth(start, n - 1 - h)
  {
    map h: nat | h < n :: Free(r, h) := Nth(start, n - 1 - h)
  }

  /** The bookkeeping of freshly threaded regions. */
  ghost function FreshPool(numa: bool, mem: map<nat, seq<Word>>, start: seq<nat>, n: seq<nat>): Pool
    requires |start| == |n| == 2
  {
    Pool(numa, mem, start, n,
         map p | p in mem :: Free(Side(numa, p), FirstHeight(numa, start, n, p)),
         FirstList(start[0], n[0], 0) + FirstList(start[1], n[1], 1),
         [Nth(start[0], n[0]), Nth(start[1], n[1])])
  }

  lemma FirstHeightIs(numa: bool, mem: map<nat, seq<Word>>, start: seq<nat>, n: seq<nat>, p: nat)
    requires |start| == |n| == 2 && Areas(numa, mem, start, n) && p in mem
    ensures var r := Side(numa, p); var h := FirstHeight(numa, start, n, p);
            h < n[r] && p == Nth(start[r], n[r] - 1 - h) && IsPage(p)
  {
    var r := Side(numa, p);
    assert start[r] % PAGE_SIZE == 0 && start[r] <= p < Nth(start[r], n[r]) && p % PAGE_SIZE == 0;
    hide Areas;
    PagesApart(start[r], p, n[r]);
  }

  lemma PagesApart(s: nat, p: nat, n: nat)
    requires s % PAGE_SIZE == 0 && p % PAGE_SIZE == 0 && s <= p < s + n * PAGE_SIZE
    ensures (p - s) / PAGE_SIZE * PAGE_SIZE == p - s && (p - s) / PAGE_SIZE < n
  {
  }

  lemma HeightOfNth(numa: bool, mem: map<nat, seq<Word>>, start: seq<nat>, n: seq<nat>, r: nat, h: nat)
    requires |start| == |n| == 2 && Areas(numa, mem, start, n) && r < 2 && h < n[r]
    ensures var p := Nth(start[r], n[r] - 1 - h); p in mem && Side(numa, p) == r && FirstHeight(numa, start, n, p) == h
  {
    var i: nat := n[r] - 1 - h;
    assert Nth(start[r], i) in mem;
    assert (Nth(start[r], i) - start[r]) / PAGE_SIZE == i;
  }

  /** Every page of region `r` holds the address of the next one. */
  ghost predicate Threaded(mem: map<nat, seq<Word>>, start: nat, n: nat) {
    forall i: nat :: i < n ==>
      Nth(start, i) in mem && |mem[Nth(start, i)]| > 0 && mem[Nth(start, i)][0] == Nth(start, i + 1)
  }

  lemma FreshAt(numa: bool, mem: map<nat, seq<Word>>, start: seq<nat>, n: seq<nat>, u: Use)
    requires |start| == |n| == 2
    ensures var v := FreshPool(numa, mem, start, n);
            && (u in v.at <==> u.Free? && u.region < 2 && u.height < n[u.region])
            && (u in v.at ==> v.at[u] == Nth(start[u.region], n[u.region] - 1 - u.height))
  {
    hide Nth;
    if u.Free? && u.region < 2 && u.height < n[u.region] {
      assert u == Free(u.region, u.height);
    }
  }

  lemma FreshOwner(numa: bool, mem: map<nat, seq<Word>>, start: seq<nat>, n: seq<nat>, p: nat)
    requires |start| == |n| == 2 && Areas(numa, mem, start, n) && p in mem
    ensures var v := FreshPool(numa, mem, start, n);
            && v.owner.Keys == mem.Keys && v.owner[p] == Free(Side(numa, p), FirstHeight(numa, start, n, p))
            && v.owner[p] in v.at && v.at[v.owner[p]] == p && IsPage(p)
  {
    hide Areas, Nth, FirstHeight, FirstList;
    FirstHeightIs(numa, mem, start, n, p);
    FreshAt(numa, mem, start, n, Free(Side(numa, p), FirstHeight(numa, start, n, p)));
  }

  lemma FreshUse(numa: bool, mem: map<nat, seq<Word>>, start: seq<nat>, n: seq<nat>, u: Use)
    requires |start| == |n| == 2 && Areas(numa, mem, start, n) && u in FreshPool(numa, mem, start, n).at
    ensures var v := FreshPool(numa, mem, start, n);
            v.at[u] in mem && v.owner[v.at[u]] == u && Side(numa, v.at[u]) == u.region
  {
    hide Areas, Nth, FirstHeight, FirstList, Side;
    FreshAt(numa, mem, start, n, u);
    HeightOfNth(numa, mem, start, n, u.region, u.height);
    FreshOwner(numa, mem, start, n, FreshPool(numa, mem, start, n).at[u]);
  }

  lemma FreshBijective(numa: bool, mem: map<nat, seq<Word>>, start: seq<nat>, n: seq<nat>)
    requires |start| == |n| == 2 && Areas(numa, mem, start, n)
    ensures Bijective(FreshPool(numa, mem, start, n)) && FreshPool(numa, mem, start, n).owner.Keys == mem.Keys
  {
    hide Areas;
    var v := FreshPool(numa, mem, start, n);
    assert v.owner.Keys == mem.Keys;
    hide FreshPool;
    forall p | p in v.owner
      ensures v.owner[p] in v.at && v.at[v.owner[p]] == p
    {
      FreshOwner(numa, mem, start, n, p);
    }
    forall u | u in v.at
      ensures v.at[u] in v.owner && v.owner[v.at[u]] == u
    {
      FreshUse(numa, mem, start, n, u);
    }
  }

  lemma FreshList(numa: bool, mem: map<nat, seq<Word>>, start: seq<nat>, n: seq<nat>, r: nat)
    requires |start| == |n| == 2 && Areas(numa, mem, start, n) && r < 2 && Threaded(mem, start[r], n[r])
    ensures ListOk(FreshPool(numa, mem, start, n), r)
  {
    hide Areas, FirstHeight, FirstList, Side, FreshPool, Link, Threaded;
    var v := FreshPool(numa, mem, start, n);
    PageSizes(numa, mem, start, n);
    forall h: nat
      ensures Free(r, h) in v.at <==> h < n[r]
    {
      FreshAt(numa, mem, start, n, Free(r, h));
    }
    forall h: nat | h < n[r]
      ensures v.at[Free(r, h)] in mem && Side(numa, v.at[Free(r, h)]) == r
    {
      FreshUse(numa, mem, start, n, Free(r, h));
    }
    forall h: nat | h < n[r]
      ensures v.mem[v.at[Free(r, h)]][0] == Link(v, r, h)
    {
      FreshLink(numa, mem, start, n, r, h);
    }
    FreshTop(numa, mem, start, n, r);
  }

  lemma PageSizes(numa: bool, mem: map<nat, seq<Word>>, start: seq<nat>, n: seq<nat>)
    requires |start| == |n| == 2 && Areas(numa, mem, start, n)
    ensures var v := FreshPool(numa, mem, start, n);
            && |v.head| == |v.count| == |v.tail| == 2
            && v.count == n && v.head == start && v.mem == mem && v.numa == numa
    ensures forall p :: p in mem ==> |mem[p]| == PTRS_PER_TABLE
  {
  }

  lemma FreshLink(numa: bool, mem: map<nat, seq<Word>>, start: seq<nat>, n: seq<nat>, r: nat, h: nat)
    requires |start| == |n| == 2 && r < 2 && h < n[r] && Threaded(mem, start[r], n[r])
    ensures var v := FreshPool(numa, mem, start, n);
            && Free(r, h) in v.at && (h > 0 ==> Free(r, h - 1) in v.at)
            && v.at[Free(r, h)] in mem && |mem[v.at[Free(r, h)]]| > 0 && mem[v.at[Free(r, h)]][0] == Link(v, r, h)
  {
    hide FirstList, Side, FirstHeight;
    FreshAt(numa, mem, start, n, Free(r, h));
    if h > 0 {
      FreshAt(numa, mem, start, n, Free(r, h - 1));
    }
    assert mem[Nth(start[r], n[r] - 1 - h)][0] == Nth(start[r], n[r] - 1 - h + 1);
  }

  lemma FreshTop(numa: bool, mem: map<nat, seq<Word>>, start: seq<nat>, n: seq<nat>, r: nat)
    requires |start| == |n| == 2 && r < 2
    ensures var v := FreshPool(numa, mem, start, n);
            (n[r] > 0 ==> Free(r, n[r] - 1) in v.at) && v.head[r] == Link(v, r, n[r])
  {
    hide FirstList, Side, FirstHeight;
    if n[r] > 0 {
      FreshAt(numa, mem, start, n, Free(r, n[r] - 1));
    }
  }

  /** Freshly threaded regions are a sound allocator with every page free. */
  lemma FreshPoolOk(numa: bool, mem: map<nat, seq<Word>>, start: seq<nat>, n: seq<nat>)
    requires |start| == |n| == 2 && Areas(numa, mem, start, n)
    requires forall r: nat :: r < 2 ==> Threaded(mem, start[r], n[r])
    ensures var v := FreshPool(numa, mem, start, n);
            && PoolOk(v) && Forest(v) && FreePages(v) == mem.Keys && (forall u :: u in v.at ==> u.Free?)
            && v.count == n && v.head == start && v.mem == mem && v.numa == numa
  {
    hide Areas, FirstHeight, FirstList, Side, FreshPool, Nth, ListOk, Bijective, Threaded;
    var v := FreshPool(numa, mem, start, n);
    PageSizes(numa, mem, start, n);
    FreshBijective(numa, mem, start, n);
    forall r: nat | r < 2
      ensures ListOk(v, r)
    {
      FreshList(numa, mem, start, n, r);
    }
    forall p | p in mem
      ensures IsPage(p) && v.owner[p].Free?
    {
      FreshOwner(numa, mem, start, n, p);
    }
    forall u | u in v.at
      ensures u.Free? && u.region < 2
    {
      FreshAt(numa, mem, start, n, u);
    }
  }

  /** The first list of a region holds its pages in address order. */
  lemma FreshOrder(numa: bool, mem: map<nat, seq<Word>>, start: seq<nat>, n: seq<nat>, r: nat, i: nat)
    requires |start| == |n| == 2 && Areas(numa, mem, start, n) && r < 2 && i < n[r]
    ensures var v := FreshPool(numa, mem, start, n); var p := Nth(start[r], i);
            p in v.owner && v.owner[p] == Free(r, n[r] - 1 - i)
  {
    hide Areas, FirstHeight, FirstList, FreshPool, Nth;
    HeightOfNth(numa, mem, start, n, r, n[r] - 1 - i);
    FreshOwner(numa, mem, start, n, Nth(start[r], i));
  }

  /** Threading the area of one region leaves the other as it was. */
  lemma ThreadKeeps(numa: bool, mem: map<nat, seq<Word>>, out: map<nat, seq<Word>>, start: seq<nat>, n: seq<nat>,
                    r: nat)
    requires |start| == |n| == 2 && Areas(numa, mem, start, n) && r < 2 && out.Keys == mem.Keys
    requires forall i: nat :: i < n[r] ==> out[Nth(start[r], i)] == Put(mem[Nth(start[r], i)], 0, Nth(start[r], i + 1))
    requires forall p :: p in mem && (forall i: nat :: i < n[r] ==> p != Nth(start[r], i)) ==> out[p] == mem[p]
    ensures Areas(numa, out, start, n) && Threaded(out, start[r], n[r])
    ensures Threaded(mem, start[1 - r], n[1 - r]) ==> Threaded(out, start[1 - r], n[1 - r])
  {
    forall p | p in mem
      ensures |out[p]| == PTRS_PER_TABLE
    {
      if i: nat :| i < n[r] && p == Nth(start[r], i) {
        assert out[Nth(start[r], i)] == Put(mem[Nth(start[r], i)], 0, Nth(start[r], i + 1));
      }
    }
    var first, m := start[1 - r], n[1 - r];
    forall i: nat | i < m
      ensures Nth(first, i) in mem && out[Nth(first, i)] == mem[Nth(first, i)]
    {
      assert Side(numa, Nth(first, i)) == 1 - r;
      assert forall j: nat :: j < n[r] ==> Side(numa, Nth(start[r], j)) == r;
    }
  }

  lemma AreasUsable(numa: bool, mem: map<nat, seq<Word>>, start: seq<nat>, n: seq<nat>)
    requires Areas(numa, mem, start, n)
    ensures |start| == |n| == 2
    ensures forall i: nat :: i < n[0] ==> Nth(start[0], i) in mem && |mem[Nth(start[0], i)]| > 0
    ensures forall i: nat :: i < n[1] ==> Nth(start[1], i) in mem && |mem[Nth(start[1], i)]| > 0
  {
  }

  /** Both areas threaded, one after the other. */
  method ThreadRegions(numa: bool, image: map<nat, seq<Word>>, start: seq<nat>, n: seq<nat>)
      returns (out: map<nat, seq<Word>>)
    requires |start| == |n| == 2 && Areas(numa, image, start, n)
    ensures out.Keys == image.Keys && Areas(numa, out, start, n)
    ensures Threaded(out, start[0], n[0]) && Threaded(out, start[1], n[1])
  {
    hide Areas, Nth, Threaded, Put;
    AreasUsable(numa, image, start, n);
    var first := ThreadPages(image, start[0], n[0]);
    ThreadKeeps(numa, image, first, start, n, 0);
    AreasUsable(numa, first, start, n);
    out := ThreadPages(first, start[1], n[1]);
    ThreadKeeps(numa, first, out, start, n, 1);
  }

  /** Every page of freshly threaded areas is free, and each list is in address order. */
  lemma FreshStore(numa: bool, mem: map<nat, seq<Word>>, start: seq<nat>, n: seq<nat>)
    requires |start| == |n| == 2 && Areas(numa, mem, start, n)
    requires Threaded(mem, start[0], n[0]) && Threaded(mem, start[1], n[1])
    ensures var v := FreshPool(numa, mem, start, n);
            && PoolOk(v) && Forest(v) && FreePages(v) == mem.Keys && (forall u :: u in v.at ==> u.Free?)
            && v.count == n && v.head == start && v.mem == mem && v.numa == numa
            && forall r: nat, i: nat :: r < 2 && i < n[r] ==>
                 Nth(start[r], i) in v.owner && v.owner[Nth(start[r], i)] == Free(r, n[r] - 1 - i)
  {
    hide PoolOk, Forest, Areas, Nth, Threaded, FreshPool, FreePages;
    FreshPoolOk(numa, mem, start, n);
    forall r: nat, i: nat | r < 2 && i < n[r]
      ensures var v := FreshPool(numa, mem, start, n);
              Nth(start[r], i) in v.owner && v.owner[Nth(start[r], i)] == Free(r, n[r] - 1 - i)
    {
      FreshOrder(numa, mem, start, n, r, i);
    }
  }
}
