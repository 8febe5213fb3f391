/** Freeing pages one by one (`rdfs_free_block`) and in a batch (`rdfs_pre_free_block` for each page,
    then one `rdfs_pre_free_list`). */
module BatchFree {
  import opened Finite
  import opened Machine

  /** The allocator as the C code sees it: memory, and the head and length of the two lists. */
  datatype Lists = Lists(mem: map<nat, seq<Word>>, head: seq<nat>, count: seq<nat>)

  /** One `__pre_free_struct`. */
  datatype Part = Part(start: nat, end: nat, count: nat)

  ghost predicate Shaped(l: Lists) {
    |l.head| == |l.count| == 2 && forall p :: p in l.mem ==> |l.mem[p]| > 0
  }

  function SetLink(mem: map<nat, seq<Word>>, p: nat, to: nat): (m: map<nat, seq<Word>>)
    requires p in mem && |mem[p]| > 0
    ensures m.Keys == mem.Keys
  {
    mem[p := Put(mem[p], 0, to)]
  }

  /** `rdfs_free_block`. */
  function FreeOne(numa: bool, l: Lists, p: nat): (k: Lists)
    requires Shaped(l) && p in l.mem
    ensures Shaped(k) && k.mem.Keys == l.mem.Keys
  {
    var r := Side(numa, p);
    Lists(SetLink(l.mem, p, l.head[r]), l.head[r := p], l.count[r := l.count[r] + 1])
  }

  /** Freeing the pages of `ps` in turn. */
  function FreeAll(numa: bool, l: Lists, ps: seq<nat>): (k: Lists)
    requires Shaped(l) && forall p :: p in ps ==> p in l.mem
    ensures Shaped(k) && k.mem.Keys == l.mem.Keys
  {
    if ps == [] then l else FreeOne(numa, FreeAll(numa, l, ps[..|ps| - 1]), ps[|ps| - 1])
  }

  /** The pages of `ps` on one side of the NUMA line, in order. */
  function OfSide(numa: bool, r: nat, ps: seq<nat>): (qs: seq<nat>)
    ensures forall q :: q in qs ==> q in ps && Side(numa, q) == r
  {
    if ps == [] then []
    else OfSide(numa, r, ps[..|ps| - 1]) + if Side(numa, ps[|ps| - 1]) == r then [ps[|ps| - 1]] else []
  }

  /** The link page `qs[i]` gets when `qs` are pushed in order onto a list with head `h`. */
  ghost function LinkUnder(h: nat, qs: seq<nat>, i: nat): nat
    requires i <= |qs|
  {
    if i == 0 then h else qs[i - 1]
  }

  /** Page `qs[i]` of `l` once `qs` are pushed in order onto a list with head `h`. */
  ghost function PageAfter(l: Lists, h: nat, qs: seq<nat>, i: nat): seq<Word>
    requires i < |qs|
  {
    if qs[i] in l.mem && |l.mem[qs[i]]| > 0 then Put(l.mem[qs[i]], 0, LinkUnder(h, qs, i)) else []
  }

  /** From `l` to `k` the pages of `ps` went onto the lists of their sides, in order: list contents,
      counts and the whole memory are settled. */
  ghost predicate Freed(numa: bool, l: Lists, ps: seq<nat>, k: Lists)
    requires Shaped(l) && forall p :: p in ps ==> p in l.mem
  {
    && |k.head| == |k.count| == 2 && k.mem.Keys == l.mem.Keys
    && (forall r: nat :: r < 2 ==>
          var qs := OfSide(numa, r, ps); k.head[r] == LinkUnder(l.head[r], qs, |qs|) && k.count[r] == l.count[r] + |qs|)
    && (forall p :: p in l.mem && p !in ps ==> k.mem[p] == l.mem[p])
    && (forall r: nat, i: nat :: r < 2 && i < |OfSide(numa, r, ps)| ==>
          OfSide(numa, r, ps)[i] in k.mem &&
          k.mem[OfSide(numa, r, ps)[i]] == PageAfter(l, l.head[r], OfSide(numa, r, ps), i))
  }

  lemma {:induction false} SidesCover(numa: bool, ps: seq<nat>, p: nat)
    requires p in ps
    ensures p in OfSide(numa, Side(numa, p), ps)
  {
    var n := |ps| - 1;
    if p != ps[n] {
      assert ps == ps[..n] + [ps[n]];
      SidesCover(numa, ps[..n], p);
    }
  }

  /** `Freed` leaves no freedom. */
  lemma FreedUnique(numa: bool, l: Lists, ps: seq<nat>, k: Lists, k': Lists)
    requires Shaped(l) && (forall p :: p in ps ==> p in l.mem) && Freed(numa, l, ps, k) && Freed(numa, l, ps, k')
    ensures k == k'
  {
    forall p | p in l.mem
      ensures k.mem[p] == k'.mem[p]
    {
      if p in ps {
        var r := Side(numa, p);
        SidesCover(numa, ps, p);
        var i: nat :| i < |OfSide(numa, r, ps)| && OfSide(numa, r, ps)[i] == p;
      }
    }
    assert k.mem == k'.mem;
    forall r: nat | r < 2
      ensures k.head[r] == k'.head[r] && k.count[r] == k'.count[r]
    {
    }
    assert k.head == [k.head[0], k.head[1]] && k'.head == [k'.head[0], k'.head[1]];
    assert k.count == [k.count[0], k.count[1]] && k'.count == [k'.count[0], k'.count[1]];
  }

  /** Freeing one by one. */
  lemma {:induction false} OneByOne(numa: bool, l: Lists, ps: seq<nat>)
    requires Shaped(l) && (forall p :: p in ps ==> p in l.mem) && Distinct(ps)
    ensures Freed(numa, l, ps, FreeAll(numa, l, ps))
  {
    if ps != [] {
      var n := |ps| - 1;
      var qs := ps[..n];
      OneByOne(numa, l, qs);
      OneMore(numa, l, qs, FreeAll(numa, l, qs), ps[n]);
      assert ps == qs + [ps[n]];
    }
  }

  lemma SideMore(numa: bool, r: nat, ps: seq<nat>, p: nat)
    ensures OfSide(numa, r, ps + [p]) == OfSide(numa, r, ps) + if Side(numa, p) == r then [p] else []
  {
    assert (ps + [p])[..|ps|] == ps;
  }

  lemma OneMoreSide(numa: bool, l: Lists, ps: seq<nat>, k: Lists, p: nat, r: nat)
    requires Shaped(l) && Shaped(k) && k.mem.Keys == l.mem.Keys && p in l.mem && r < 2
    requires (forall q :: q in ps ==> q in l.mem) && Freed(numa, l, ps, k) && p !in ps
    ensures SideFreed(l, OfSide(numa, r, ps + [p]), FreeOne(numa, k, p), r)
  {
    hide Freed, OfSide, SideFreed;
    SideMore(numa, r, ps, p);
    FreedSide(numa, l, ps, k, r);
    FreedOther(numa, l, ps, k, p);
    var old' := OfSide(numa, r, ps);
    assert p !in old';
    if Side(numa, p) == r {
      PushSide(l, old', k, FreeOne(numa, k, p), r, p);
    } else {
      assert old' + [] == old';
      SideFreedFrame(l, old', k, r, p, k.head[Side(numa, p)], FreeOne(numa, k, p));
    }
  }

  /** List `r` went from `l` to `k` by pushing the pages `qs` in order. */
  ghost predicate SideFreed(l: Lists, qs: seq<nat>, k: Lists, r: nat)
    requires |l.head| == |l.count| == 2 && r < 2
  {
    && |k.head| == |k.count| == 2 && k.head[r] == LinkUnder(l.head[r], qs, |qs|) && k.count[r] == l.count[r] + |qs|
    && forall i: nat :: i < |qs| ==> qs[i] in k.mem && k.mem[qs[i]] == PageAfter(l, l.head[r], qs, i)
  }

  lemma PushSide(l: Lists, qs: seq<nat>, k: Lists, x: Lists, r: nat, p: nat)
    requires |l.head| == |l.count| == 2 && r < 2 && SideFreed(l, qs, k, r) && p !in qs
    requires p in k.mem && p in l.mem && |l.mem[p]| > 0 && k.mem[p] == l.mem[p]
    requires x == Lists(SetLink(k.mem, p, k.head[r]), k.head[r := p], k.count[r := k.count[r] + 1])
    ensures SideFreed(l, qs + [p], x, r)
  {
    var rs := qs + [p];
    forall i: nat | i < |rs|
      ensures rs[i] in x.mem && x.mem[rs[i]] == PageAfter(l, l.head[r], rs, i)
    {
      if i < |qs| {
        assert qs[i] in qs;
        assert PageAfter(l, l.head[r], rs, i) == PageAfter(l, l.head[r], qs, i);
      }
    }
  }

  lemma FreedSide(numa: bool, l: Lists, ps: seq<nat>, k: Lists, r: nat)
    requires Shaped(l) && (forall q :: q in ps ==> q in l.mem) && Freed(numa, l, ps, k) && r < 2
    ensures SideFreed(l, OfSide(numa, r, ps), k, r)
  {
  }

  lemma FreedOther(numa: bool, l: Lists, ps: seq<nat>, k: Lists, p: nat)
    requires Shaped(l) && (forall q :: q in ps ==> q in l.mem) && Freed(numa, l, ps, k) && p in l.mem && p !in ps
    ensures k.mem[p] == l.mem[p]
  {
  }

  lemma OneMore(numa: bool, l: Lists, ps: seq<nat>, k: Lists, p: nat)
    requires Shaped(l) && Shaped(k) && k.mem.Keys == l.mem.Keys && p in l.mem
    requires (forall q :: q in ps ==> q in l.mem) && Freed(numa, l, ps, k) && p !in ps
    ensures (forall q :: q in ps + [p] ==> q in l.mem) && Freed(numa, l, ps + [p], FreeOne(numa, k, p))
  {
    var x := FreeOne(numa, k, p);
    assert forall q :: q in l.mem && q !in ps + [p] ==> x.mem[q] == l.mem[q];
    hide FreeOne, Freed, SideFreed;
    forall r: nat | r < 2
      ensures SideFreed(l, OfSide(numa, r, ps + [p]), x, r)
    {
      OneMoreSide(numa, l, ps, k, p, r);
    }
    FreedBySides(numa, l, ps + [p], x);
  }

  lemma FreedBySides(numa: bool, l: Lists, ps: seq<nat>, k: Lists)
    requires Shaped(l) && k.mem.Keys == l.mem.Keys && forall q :: q in ps ==> q in l.mem
    requires forall q :: q in l.mem && q !in ps ==> k.mem[q] == l.mem[q]
    requires |k.head| == |k.count| == 2 && forall r: nat :: r < 2 ==> SideFreed(l, OfSide(numa, r, ps), k, r)
    ensures Freed(numa, l, ps, k)
  {
    forall r: nat | r < 2
      ensures var qs := OfSide(numa, r, ps);
              k.head[r] == LinkUnder(l.head[r], qs, |qs|) && k.count[r] == l.count[r] + |qs|
    {
      assert SideFreed(l, OfSide(numa, r, ps), k, r);
    }
    forall r: nat, i: nat | r < 2 && i < |OfSide(numa, r, ps)|
      ensures OfSide(numa, r, ps)[i] in k.mem
      ensures k.mem[OfSide(numa, r, ps)[i]] == PageAfter(l, l.head[r], OfSide(numa, r, ps), i)
    {
      assert SideFreed(l, OfSide(numa, r, ps), k, r);
    }
  }

  lemma {:induction false} SideDistinct(numa: bool, r: nat, ps: seq<nat>)
    requires Distinct(ps)
    ensures Distinct(OfSide(numa, r, ps))
  {
    if ps != [] {
      SideDistinct(numa, r, ps[..|ps| - 1]);
      assert ps[|ps| - 1] !in ps[..|ps| - 1];
    }
  }

  /** One batch is the chain of the pages `qs`, newest first, still without the link of its oldest
      page; the other words of these pages are as in `l`. */
  ghost predicate Chained(l: Lists, mem: map<nat, seq<Word>>, part: Part, qs: seq<nat>) {
    && part.count == |qs|
    && (qs != [] ==>
          && part.start == qs[|qs| - 1] && part.end == qs[0] && part.end in l.mem && |l.mem[part.end]| > 0
          && part.end in mem && mem[part.end] == l.mem[part.end])
    && forall i: nat :: 0 < i < |qs| ==> qs[i] in mem && mem[qs[i]] == PageAfter(l, 0, qs, i)
  }

  /** Chaining one more page, which is still as in `l`. */
  lemma ChainMore(l: Lists, mem: map<nat, seq<Word>>, part: Part, qs: seq<nat>, p: nat)
    requires Chained(l, mem, part, qs) && p in l.mem && |l.mem[p]| > 0 && p in mem && mem[p] == l.mem[p] && p !in qs
    ensures qs == [] ==> Chained(l, mem, Part(p, p, 1), qs + [p])
    ensures qs != [] ==> Chained(l, SetLink(mem, p, part.start), Part(p, part.end, part.count + 1), qs + [p])
  {
    if qs != [] {
      var rs := qs + [p];
      var m := SetLink(mem, p, part.start);
      assert part.end in qs;
      forall i: nat | 0 < i < |rs|
        ensures rs[i] in m && m[rs[i]] == PageAfter(l, 0, rs, i)
      {
        if i < |qs| {
          assert qs[i] in qs;
          assert PageAfter(l, 0, rs, i) == PageAfter(l, 0, qs, i);
        }
      }
    }
  }

  lemma ChainFrame(l: Lists, mem: map<nat, seq<Word>>, part: Part, qs: seq<nat>, p: nat, to: nat)
    requires Chained(l, mem, part, qs) && p !in qs && p in mem && |mem[p]| > 0
    ensures Chained(l, SetLink(mem, p, to), part, qs)
  {
    assert qs != [] ==> part.end in qs;
    forall i: nat | i < |qs|
      ensures qs[i] != p
    {
      assert qs[i] in qs;
    }
  }

  /** Linking the oldest page of a batch to the list makes the whole batch part of it. */
  lemma ChainLinked(l: Lists, mem: map<nat, seq<Word>>, part: Part, qs: seq<nat>, k: Lists, r: nat)
    requires |l.head| == |l.count| == 2 && r < 2 && Chained(l, mem, part, qs) && Distinct(qs)
    requires |k.head| == |k.count| == 2
    requires if qs == [] then k.head[r] == l.head[r] && k.count[r] == l.count[r]
             else k.mem == SetLink(mem, part.end, l.head[r]) && k.head[r] == part.start &&
                  k.count[r] == l.count[r] + part.count
    ensures SideFreed(l, qs, k, r)
  {
    if qs != [] {
      forall i: nat | i < |qs|
        ensures qs[i] in k.mem && k.mem[qs[i]] == PageAfter(l, l.head[r], qs, i)
      {
        if i > 0 {
          assert qs[i] != qs[0];
          assert PageAfter(l, 0, qs, i) == PageAfter(l, l.head[r], qs, i);
        }
      }
    }
  }

  lemma SideFreedFrame(l: Lists, qs: seq<nat>, k: Lists, r: nat, p: nat, to: nat, x: Lists)
    requires |l.head| == |l.count| == 2 && r < 2 && SideFreed(l, qs, k, r) && p !in qs && p in k.mem && |k.mem[p]| > 0
    requires x.mem == SetLink(k.mem, p, to) && |x.head| == |x.count| == 2 && x.head[r] == k.head[r]
    requires x.count[r] == k.count[r]
    ensures SideFreed(l, qs, x, r)
  {
    forall i: nat | i < |qs|
      ensures qs[i] != p
    {
      assert qs[i] in qs;
    }
  }

  class Batcher {
    const numa: bool
    var mem: map<nat, seq<Word>>
    var head: seq<nat>
    var count: seq<nat>
    var part: seq<Part>

    ghost function Now(): Lists
      reads this
    {
      Lists(mem, head, count)
    }

    /** The pages `ps` were handed in since the allocator was in state `l`. */
    ghost predicate Batched(l: Lists, ps: seq<nat>)
      reads this
    {
      && |part| == 2 && head == l.head && count == l.count && mem.Keys == l.mem.Keys
      && (forall r: nat :: r < 2 ==> Chained(l, mem, part[r], OfSide(numa, r, ps)))
      && (forall p :: p in l.mem && p !in ps ==> mem[p] == l.mem[p])
    }

    /** `rdfs_pre_free_init`. */
    constructor (numa: bool, l: Lists)
      ensures Now() == l && this.numa == numa && Batched(l, []) && part == [Part(0, 0, 0), Part(0, 0, 0)]
    {
      this.numa := numa;
      mem, head, count := l.mem, l.head, l.count;
      part := [Part(0, 0, 0), Part(0, 0, 0)];
    }

    /** `rdfs_pre_free_block`. */
    method PreFreeBlock(p: nat, ghost l: Lists, ghost ps: seq<nat>)
      requires Shaped(l) && Batched(l, ps) && p in l.mem && p !in ps
      modifies this`mem, this`part
      ensures Batched(l, ps + [p])
    {
      hide Chained, OfSide;
      var r := Side(numa, p);
      ghost var qs, others := OfSide(numa, r, ps), OfSide(numa, 1 - r, ps);
      assert Chained(l, mem, part[r], qs) && Chained(l, mem, part[1 - r], others);
      SideMore(numa, r, ps, p);
      SideMore(numa, 1 - r, ps, p);
      ChainMore(l, mem, part[r], qs, p);
      ChainLength(l, mem, part[r], qs);
      if part[r].count == 0 {
        part := part[r := Part(p, p, 1)];
      } else {
        ChainFrame(l, mem, part[1 - r], others, p, part[r].start);
        mem := SetLink(mem, p, part[r].start);
        part := part[r := Part(p, part[r].end, part[r].count + 1)];
      }
      forall s: nat | s < 2
        ensures Chained(l, mem, part[s], OfSide(numa, s, ps + [p]))
      {
        if s != r {
          assert s == 1 - r && others + [] == others;
        }
      }
    }

    /** One turn of the loop of `rdfs_pre_free_list`. */
    method FlushPart(i: nat, ghost l: Lists, ghost qs: seq<nat>, ghost others: seq<nat>)
      requires i < 2 && |part| == 2 && |head| == |count| == |l.head| == |l.count| == 2
      requires Chained(l, mem, part[i], qs) && Distinct(qs) && (forall q :: q in qs ==> q !in others)
      requires head[i] == l.head[i] && count[i] == l.count[i]
      modifies this`mem, this`head, this`count
      ensures |head| == |count| == 2 && SideFreed(l, qs, Now(), i) && mem.Keys == old(mem).Keys
      ensures head[1 - i] == old(head)[1 - i] && count[1 - i] == old(count)[1 - i]
      ensures forall p :: p in mem && p !in qs ==> mem[p] == old(mem[p])
      ensures Chained(l, old(mem), part[1 - i], others) ==> Chained(l, mem, part[1 - i], others)
      ensures SideFreed(l, others, old(Now()), 1 - i) ==> SideFreed(l, others, Now(), 1 - i)
    {
      hide Chained, SideFreed;
      ghost var was := Now();
      ChainLength(l, mem, part[i], qs);
      if part[i].count != 0 {
        ghost var p := part[i].end;
        assert p in qs;
        if Chained(l, mem, part[1 - i], others) {
          ChainFrame(l, mem, part[1 - i], others, p, head[i]);
        }
        mem := SetLink(mem, part[i].end, head[i]);
        head := head[i := part[i].start];
        count := count[i := count[i] + part[i].count];
        if SideFreed(l, others, was, 1 - i) {
          SideFreedFrame(l, others, was, 1 - i, p, was.head[i], Now());
        }
      } else {
        SideFreedSame(l, others, was, Now(), 1 - i);
      }
      ChainLinked(l, was.mem, part[i], qs, Now(), i);
    }

    /** `rdfs_pre_free_list`: both batches go in front of their lists, which leaves memory, heads and
        counts exactly as if each page had been given to `rdfs_free_block` in turn. */
    method PreFreeList(ghost l: Lists, ghost ps: seq<nat>)
      requires Shaped(l) && Batched(l, ps) && Distinct(ps) && forall p :: p in ps ==> p in l.mem
      modifies this`mem, this`head, this`count
      ensures Now() == FreeAll(numa, l, ps)
    {
      hide Chained, SideFreed, FreeAll, Freed, OfSide;
      SideDistinct(numa, 0, ps);
      SideDistinct(numa, 1, ps);
      var i := 0;
      while i < 2
        invariant 0 <= i <= 2 && mem.Keys == l.mem.Keys && |head| == |count| == 2 && |part| == 2
        invariant forall r: nat :: i <= r < 2 ==>
                    Chained(l, mem, part[r], OfSide(numa, r, ps)) && head[r] == l.head[r] && count[r] == l.count[r]
        invariant forall r: nat :: r < i ==> SideFreed(l, OfSide(numa, r, ps), Now(), r)
        invariant forall p :: p in l.mem && p !in ps ==> mem[p] == l.mem[p]
      {
        FlushPart(i, l, OfSide(numa, i, ps), OfSide(numa, 1 - i, ps));
        i := i + 1;
      }
      FreedBySides(numa, l, ps, Now());
      OneByOne(numa, l, ps);
      FreedUnique(numa, l, ps, Now(), FreeAll(numa, l, ps));
    }

    /** Any distinct pages handed in one after the other on a fresh structure, then the list. */
    method FreeBatch(ps: seq<nat>, ghost l: Lists)
      requires Shaped(l) && Batched(l, []) && (forall p :: p in ps ==> p in l.mem) && Distinct(ps)
      modifies this
      ensures Now() == FreeAll(numa, l, ps)
    {
      hide Shaped, FreeAll, Chained, OfSide, Batched, Now;
      var n := 0;
      while n < |ps|
        invariant n <= |ps| && Batched(l, ps[..n])
      {
        assert ps[..n + 1] == ps[..n] + [ps[n]];
        PreFreeBlock(ps[n], l, ps[..n]);
        n := n + 1;
      }
      assert ps[..n] == ps;
      PreFreeList(l, ps);
    }
  }

  lemma SideFreedSame(l: Lists, qs: seq<nat>, k: Lists, x: Lists, r: nat)
    requires |l.head| == |l.count| == 2 && r < 2 && x == k
    ensures SideFreed(l, qs, k, r) ==> SideFreed(l, qs, x, r)
  {
  }

  lemma ChainLength(l: Lists, mem: map<nat, seq<Word>>, part: Part, qs: seq<nat>)
    requires Chained(l, mem, part, qs)
    ensures part.count == |qs| && (qs != [] ==> part.end == qs[0] && part.end in mem && |mem[part.end]| > 0)
  {
  }
}
