/** The virtual area allocator (nvmalloc.c) and the mapping counts that use it (pgtable.c). */
module Areas {
  import opened Finite
  import opened Machine

  /** One kind of area: the free and used lists, by address, and their counters. */
  datatype Pool = Pool(free: seq<nat>, used: seq<nat>, freeCnt: int, usedCnt: int)

  /** What `rdfs_establish_mapping` keeps per inode; address 0 is no address. */
  datatype Info = Info(mode: Mode, count: int, addr: nat)

  // ----- the areas -----

  /** `n` areas of `size` bytes from `base`. */
  function Range(base: nat, size: nat, n: nat): set<nat> {
    set k: nat | k < n :: base + size * k
  }

  /** The same, lowest first. */
  function InOrder(base: nat, size: nat, n: nat): (l: seq<nat>)
    ensures |l| == n && forall k: nat :: k < n ==> l[k] == base + size * k
  {
    seq(n, k => base + size * k)
  }

  const DIR_AREAS := 16384
  const FILE_AREAS := 958

  ghost function DirAreas(): set<nat> {
    Range(RDFS_START, MAX_DIR_SIZE, DIR_AREAS)
  }

  ghost function FileAreas(): set<nat> {
    Range(RDFS_START + DIR_AREA_SIZE, MAX_FILE_SIZE, FILE_AREAS)
  }

  /** Different areas of a range do not overlap, and all lie between its ends. */
  lemma RangeApart(base: nat, size: nat, n: nat, a: nat, b: nat)
    requires a in Range(base, size, n) && b in Range(base, size, n) && a != b
    ensures a + size <= b || b + size <= a
    ensures base <= a && a + size <= base + size * n
  {
    var i: nat :| i < n && a == base + size * i;
    var j: nat :| j < n && b == base + size * j;
    if i < j {
      Spaced(size, i, j);
    } else {
      Spaced(size, j, i);
    }
    Spaced(size, i, n);
  }

  lemma {:induction false} Spaced(size: nat, i: nat, j: nat)
    requires i < j
    ensures size * i + size <= size * j
  {
    if i + 1 < j {
      Spaced(size, i, j - 1);
    }
    assert size * j == size * (j - 1) + size;
  }

  /** Directory areas and file areas do not meet, and none starts at address 0 or leaves the region. */
  lemma KindsApart(a: nat)
    ensures a in DirAreas() ==> RDFS_START <= a && a + MAX_DIR_SIZE <= RDFS_START + DIR_AREA_SIZE
    ensures a in FileAreas() ==> RDFS_START + DIR_AREA_SIZE <= a && a + MAX_FILE_SIZE <= RDFS_END
  {
  }

  // ----- one pool -----

  /** Free and used lists partition the areas, and the counters are their lengths. */
  ghost predicate PoolOk(p: Pool, all: set<nat>) {
    && multiset(p.free) + multiset(p.used) == multiset(all)
    && p.freeCnt == |p.free| && p.usedCnt == |p.used|
  }

  function Taken(p: Pool): Pool
    requires p.free != []
  {
    Pool(p.free[1..], [p.free[0]] + p.used, p.freeCnt - 1, p.usedCnt + 1)
  }

  /** The area at place `k` of the used list goes back to the front of the free list. */
  function Given(p: Pool, k: nat): Pool
    requires k < |p.used|
  {
    Pool([p.used[k]] + p.free, p.used[..k] + p.used[k + 1..], p.freeCnt + 1, p.usedCnt - 1)
  }

  lemma TakenOk(p: Pool, all: set<nat>)
    requires PoolOk(p, all) && p.free != []
    ensures PoolOk(Taken(p), all) && p.free[0] in all && p.free[0] !in p.used
    ensures multiset(Taken(p).used) == multiset(p.used) + multiset{p.free[0]}
  {
    assert p.free == [p.free[0]] + p.free[1..];
    assert multiset(p.free)[p.free[0]] >= 1;
    assert (multiset(p.free) + multiset(p.used))[p.free[0]] == multiset(all)[p.free[0]] == 1;
  }

  lemma GivenOk(p: Pool, all: set<nat>, k: nat)
    requires PoolOk(p, all) && k < |p.used|
    ensures PoolOk(Given(p, k), all)
    ensures multiset(Given(p, k).used) == multiset(p.used) - multiset{p.used[k]}
  {
    assert p.used == p.used[..k] + [p.used[k]] + p.used[k + 1..];
  }

  /** Giving the area that was taken last back undoes the taking: lists, their order and counters. */
  lemma GiveUndoesTake(p: Pool)
    requires p.free != []
    ensures Taken(p).used != [] && Taken(p).used[0] == p.free[0] && Given(Taken(p), 0) == p
  {
    assert p.free == [p.free[0]] + p.free[1..];
    assert ([p.free[0]] + p.used)[1..] == p.used;
  }

  lemma UsedOnce(p: Pool, all: set<nat>, a: nat)
    requires PoolOk(p, all)
    ensures multiset(p.used)[a] <= 1 && (a in p.used ==> a in all)
  {
    assert (multiset(p.free) + multiset(p.used))[a] == multiset(all)[a];
  }

  // ----- inodes and their areas -----

  /** Directories and symbolic links take directory areas. */
  function PoolOf(dir: Pool, reg: Pool, m: Mode): Pool {
    if m.Regular? then reg else dir
  }

  /** An inode has an address exactly while its mapping count is positive, and then a used area is its own. */
  ghost predicate InodeOk(infos: map<nat, Info>, holder: map<nat, nat>, dir: Pool, reg: Pool, i: nat) {
    i in infos ==>
      && infos[i].count >= 0 && (infos[i].addr != 0 <==> infos[i].count > 0)
      && (infos[i].addr != 0 ==> infos[i].addr in PoolOf(dir, reg, infos[i].mode).used &&
                                 infos[i].addr in holder && holder[infos[i].addr] == i)
  }

  ghost predicate AreaOk(infos: map<nat, Info>, holder: map<nat, nat>, dir: Pool, reg: Pool, a: nat) {
    && (a in dir.used || a in reg.used ==> a in holder)
    && (a in holder ==> holder[a] in infos && infos[holder[a]].addr == a && a != 0)
  }

  ghost predicate Ok(infos: map<nat, Info>, holder: map<nat, nat>, dir: Pool, reg: Pool) {
    && PoolOk(dir, DirAreas()) && PoolOk(reg, FileAreas())
    && (forall i: nat :: InodeOk(infos, holder, dir, reg, i))
    && (forall a: nat :: AreaOk(infos, holder, dir, reg, a))
  }

  /** No two inodes share an area. */
  lemma NoSharing(infos: map<nat, Info>, holder: map<nat, nat>, dir: Pool, reg: Pool, i: nat, j: nat)
    requires Ok(infos, holder, dir, reg) && i in infos && j in infos && i != j && infos[i].addr != 0
    ensures infos[i].addr != infos[j].addr
  {
    assert InodeOk(infos, holder, dir, reg, i) && InodeOk(infos, holder, dir, reg, j);
  }

  lemma AddressKind(infos: map<nat, Info>, holder: map<nat, nat>, dir: Pool, reg: Pool, a: nat)
    requires Ok(infos, holder, dir, reg)
    ensures a in dir.used || a in dir.free ==> RDFS_START <= a < RDFS_START + DIR_AREA_SIZE
    ensures a in reg.used || a in reg.free ==> RDFS_START + DIR_AREA_SIZE <= a < RDFS_END
  {
    hide DirAreas, FileAreas;
    KindsApart(a);
    assert (multiset(dir.free) + multiset(dir.used))[a] == multiset(DirAreas())[a];
    assert (multiset(reg.free) + multiset(reg.used))[a] == multiset(FileAreas())[a];
  }

  /** An inode without an address takes the area `a`. */
  lemma TakeOk(infos: map<nat, Info>, holder: map<nat, nat>, dir: Pool, reg: Pool, i: nat)
    requires Ok(infos, holder, dir, reg) && i in infos && infos[i].addr == 0
    requires PoolOf(dir, reg, infos[i].mode).free != []
    ensures var m, p := infos[i].mode, PoolOf(dir, reg, infos[i].mode);
            Ok(infos[i := Info(m, 1, p.free[0])], holder[p.free[0] := i],
               if m.Regular? then dir else Taken(dir), if m.Regular? then Taken(reg) else reg)
  {
    hide DirAreas, FileAreas;
    var m, p := infos[i].mode, PoolOf(dir, reg, infos[i].mode);
    var a := p.free[0];
    TakenOk(p, if m.Regular? then FileAreas() else DirAreas());
    AddressKind(infos, holder, dir, reg, a);
    var infos', holder' := infos[i := Info(m, 1, a)], holder[a := i];
    var dir', reg' := if m.Regular? then dir else Taken(dir), if m.Regular? then Taken(reg) else reg;
    hide PoolOk;
    assert InodeOk(infos, holder, dir, reg, i);
    assert AreaOk(infos, holder, dir, reg, a);
    forall j: nat
      ensures InodeOk(infos', holder', dir', reg', j)
    {
      assert InodeOk(infos, holder, dir, reg, j);
    }
    forall b: nat
      ensures AreaOk(infos', holder', dir', reg', b)
    {
      assert AreaOk(infos, holder, dir, reg, b);
    }
  }

  /** An inode gives its area, at place `k` of the used list, back. */
  lemma GiveOk(infos: map<nat, Info>, holder: map<nat, nat>, dir: Pool, reg: Pool, i: nat, k: nat)
    requires Ok(infos, holder, dir, reg) && i in infos && infos[i].addr != 0
    requires var p := PoolOf(dir, reg, infos[i].mode); k < |p.used| && p.used[k] == infos[i].addr
    ensures var m := infos[i].mode;
            Ok(infos[i := Info(m, 0, 0)], holder - {infos[i].addr},
               if m.Regular? then dir else Given(dir, k), if m.Regular? then Given(reg, k) else reg)
  {
    hide DirAreas, FileAreas;
    var m, p, a := infos[i].mode, PoolOf(dir, reg, infos[i].mode), infos[i].addr;
    var all := if m.Regular? then FileAreas() else DirAreas();
    GivenOk(p, all, k);
    UsedOnce(p, all, a);
    AddressKind(infos, holder, dir, reg, a);
    var infos', holder' := infos[i := Info(m, 0, 0)], holder - {a};
    var dir', reg' := if m.Regular? then dir else Given(dir, k), if m.Regular? then Given(reg, k) else reg;
    UsedAfter(p, all, k);
    hide PoolOk, Given;
    forall j: nat
      ensures InodeOk(infos', holder', dir', reg', j)
    {
      assert InodeOk(infos, holder, dir, reg, j) && InodeOk(infos, holder, dir, reg, i);
    }
    forall b: nat
      ensures AreaOk(infos', holder', dir', reg', b)
    {
      assert AreaOk(infos, holder, dir, reg, b);
    }
  }

  lemma UsedAfter(p: Pool, all: set<nat>, k: nat)
    requires PoolOk(p, all) && k < |p.used|
    ensures forall b: nat :: b in Given(p, k).used <==> b in p.used && b != p.used[k]
  {
    forall b: nat
      ensures b in Given(p, k).used <==> b in p.used && b != p.used[k]
    {
      GivenOk(p, all, k);
      UsedOnce(p, all, b);
      assert b in Given(p, k).used <==> b in multiset(Given(p, k).used);
      assert b in p.used <==> b in multiset(p.used);
    }
  }

  /** Counting further mappings up or down. */
  lemma BumpOk(infos: map<nat, Info>, holder: map<nat, nat>, dir: Pool, reg: Pool, i: nat, count: int)
    requires Ok(infos, holder, dir, reg) && i in infos && infos[i].addr != 0 && count > 0
    ensures Ok(infos[i := infos[i].(count := count)], holder, dir, reg)
  {
    hide PoolOk;
    var infos' := infos[i := infos[i].(count := count)];
    forall j: nat
      ensures InodeOk(infos', holder, dir, reg, j)
    {
      assert InodeOk(infos, holder, dir, reg, j);
    }
    forall b: nat
      ensures AreaOk(infos', holder, dir, reg, b)
    {
      assert AreaOk(infos, holder, dir, reg, b);
    }
  }

  // ----- the object -----

  class AreaTable {
    var dir: Pool
    var reg: Pool
    var infos: map<nat, Info>
    ghost var holder: map<nat, nat>

    ghost predicate Valid()
      reads this
    {
      Ok(infos, holder, dir, reg)
    }

    /** `nvmalloc_init`, with inodes `modes` that have no mapping yet. */
    constructor (modes: map<nat, Mode>)
      ensures Valid() && infos.Keys == modes.Keys && forall i :: i in modes ==> infos[i] == Info(modes[i], 0, 0)
      ensures dir.used == reg.used == [] && dir.free == InOrder(RDFS_START, MAX_DIR_SIZE, DIR_AREAS)
      ensures reg.free == InOrder(RDFS_START + DIR_AREA_SIZE, MAX_FILE_SIZE, FILE_AREAS)
    {
      var dirs := AreaList(RDFS_START, MAX_DIR_SIZE, RDFS_START + DIR_AREA_SIZE, DIR_AREAS);
      var regs := AreaList(RDFS_START + DIR_AREA_SIZE, MAX_FILE_SIZE, RDFS_END, FILE_AREAS);
      dir, reg := Pool(dirs, [], |dirs|, 0), Pool(regs, [], |regs|, 0);
      infos := map i | i in modes :: Info(modes[i], 0, 0);
      holder := map[];
      new;
      assert forall i: nat :: InodeOk(infos, holder, dir, reg, i);
      assert forall a: nat :: AreaOk(infos, holder, dir, reg, a);
    }

    /** `nvmalloc`: an area of the mode's kind, or 0 when none is left. */
    method NvMalloc(m: Mode) returns (addr: nat)
      requires PoolOf(dir, reg, m).freeCnt == |PoolOf(dir, reg, m).free|
      modifies this`dir, this`reg
      ensures var p := old(PoolOf(dir, reg, m));
              if p.free == [] then addr == 0 && dir == old(dir) && reg == old(reg)
              else && addr == p.free[0]
                   && dir == (if m.Regular? then old(dir) else Taken(p))
                   && reg == (if m.Regular? then Taken(p) else old(reg))
    {
      var p := PoolOf(dir, reg, m);
      if p.freeCnt <= 0 {
        return 0;
      }
      var used := if p.used == [] then [p.free[0]] else [p.free[0]] + p.used;
      p := Pool(p.free[1..], used, p.freeCnt - 1, p.usedCnt + 1);
      addr := used[0];
      if m.Regular? {
        reg := p;
      } else {
        dir := p;
      }
    }

    /** `nvfree`: the range tells the kind; the first used area with that address goes to the free list. */
    method NvFree(addr: nat)
      requires RDFS_START <= addr < RDFS_START + DIR_AREA_SIZE ==> dir.used != []
      requires RDFS_START + DIR_AREA_SIZE <= addr < RDFS_END ==> reg.used != []
      modifies this`dir, this`reg
      ensures if RDFS_START <= addr < RDFS_START + DIR_AREA_SIZE then reg == old(reg) && Freed(old(dir), dir, addr)
              else if RDFS_START + DIR_AREA_SIZE <= addr < RDFS_END then dir == old(dir) && Freed(old(reg), reg, addr)
              else dir == old(dir) && reg == old(reg)
    {
      if RDFS_START <= addr < RDFS_START + DIR_AREA_SIZE {
        dir := Unuse(dir, addr);
      } else if RDFS_START + DIR_AREA_SIZE <= addr < RDFS_END {
        reg := Unuse(reg, addr);
      }
    }

    /** `rdfs_establish_mapping`, up to the kernel page tables.  The invariant is kept exactly when the inode has an
        address already or an area is left; otherwise the count goes up without an address. */
    method Establish(i: nat) returns (ok: bool)
      requires Valid() && i in infos
      modifies this
      ensures infos.Keys == old(infos).Keys && infos[i].count == old(infos[i].count) + 1
      ensures infos[i].mode == old(infos[i].mode)
      ensures forall j :: j in infos && j != i ==> infos[j] == old(infos)[j]
      ensures Valid() <==> old(infos[i].addr) != 0 || old(PoolOf(dir, reg, infos[i].mode)).free != []
      ensures ok <==> infos[i].addr != 0
      ensures old(infos[i].addr) != 0 ==> infos[i].addr == old(infos[i].addr) && dir == old(dir) && reg == old(reg)
      ensures old(infos[i].addr) == 0 ==>
                var p, m := old(PoolOf(dir, reg, infos[i].mode)), infos[i].mode;
                if p.free == [] then infos[i].addr == 0 && dir == old(dir) && reg == old(reg)
                else && infos[i].addr == p.free[0] && PoolOf(dir, reg, m) == Taken(p)
                     && (if m.Regular? then dir == old(dir) else reg == old(reg))
    {
      hide DirAreas, FileAreas;
      assert InodeOk(infos, holder, dir, reg, i);
      var m := infos[i].mode;
      if infos[i].addr == 0 {
        if PoolOf(dir, reg, m).free != [] {
          TakeOk(infos, holder, dir, reg, i);
          TakenOk(PoolOf(dir, reg, m), if m.Regular? then FileAreas() else DirAreas());
          AddressKind(infos, holder, dir, reg, PoolOf(dir, reg, m).free[0]);
        }
        var count := infos[i].count + 1;
        var a := NvMalloc(m);
        infos := infos[i := Info(m, count, a)];
        if a != 0 {
          holder := holder[a := i];
        } else {
          assert !InodeOk(infos, holder, dir, reg, i);
        }
      } else {
        BumpOk(infos, holder, dir, reg, i, infos[i].count + 1);
        infos := infos[i := infos[i].(count := infos[i].count + 1)];
      }
      ok := infos[i].addr != 0;
    }

    /** `rdfs_destroy_mapping`, up to the kernel page tables. */
    method Destroy(i: nat)
      requires Valid() && i in infos
      modifies this
      ensures Valid() && infos.Keys == old(infos).Keys && infos[i].mode == old(infos[i].mode)
      ensures forall j :: j in infos && j != i ==> infos[j] == old(infos)[j]
      ensures infos[i].count == if old(infos[i].count) > 0 then old(infos[i].count) - 1 else 0
      ensures infos[i].addr == if old(infos[i].count) > 1 then old(infos[i].addr) else 0
      ensures old(infos[i].count) != 1 ==> dir == old(dir) && reg == old(reg)
      ensures old(infos[i].count) == 1 ==>
                var m := infos[i].mode;
                && Freed(old(PoolOf(dir, reg, infos[i].mode)), PoolOf(dir, reg, m), old(infos[i].addr))
                && (if m.Regular? then dir == old(dir) else reg == old(reg))
    {
      hide Ok, Given;
      HeldArea(infos, holder, dir, reg, i);
      if infos[i].addr == 0 {
        return;
      }
      if infos[i].count - 1 > 0 {
        BumpOk(infos, holder, dir, reg, i, infos[i].count - 1);
        infos := infos[i := infos[i].(count := infos[i].count - 1)];
        return;
      }
      ghost var infos0, holder0, dir0, reg0 := infos, holder, dir, reg;
      var m, a := infos[i].mode, infos[i].addr;
      NvFree(a);
      ghost var k: nat;
      if m.Regular? {
        k :| k < |reg0.used| && reg0.used[k] == a && reg == Given(reg0, k);
      } else {
        k :| k < |dir0.used| && dir0.used[k] == a && dir == Given(dir0, k);
      }
      GiveOk(infos0, holder0, dir0, reg0, i, k);
      infos := infos[i := Info(m, 0, 0)];
      holder := holder - {a};
    }

    /** A run of establish and destroy, up to the first establish that finds no area left: the `n` calls before it.
        Which call that is follows from the calls and the counts at the start. */
    method Run(calls: seq<MapCall>) returns (done: bool, n: nat)
      requires Valid() && forall c :: c in calls ==> c.i in infos
      modifies this
      ensures Valid() && SameModes(old(infos), infos) && n <= |calls|
      ensures Follows(old(infos), infos, calls[..n])
      ensures forall k: nat :: k < n ==> FindsArea(old(infos), calls, k)
      ensures done <==> n == |calls|
      ensures n < |calls| ==> !FindsArea(old(infos), calls, n)
      ensures done <==> forall k: nat :: k < |calls| ==> FindsArea(old(infos), calls, k)
    {
      hide Ok, PoolOf, FindsArea, Follows, SameModes;
      n := 0;
      NoCalls(infos, calls);
      while n < |calls|
        invariant n <= |calls| && Valid() && SameModes(old(infos), infos) && Follows(old(infos), infos, calls[..n])
        invariant forall k: nat :: k < n ==> FindsArea(old(infos), calls, k)
      {
        var c := calls[n];
        assert c in calls;
        ghost var before := infos;
        SameKeys(old(infos), infos);
        HeldArea(infos, holder, dir, reg, c.i);
        FindsAreaIff(old(infos), infos, holder, dir, reg, calls, n);
        if c.Up? {
          if infos[c.i].addr == 0 && PoolOf(dir, reg, infos[c.i].mode).free == [] {
            return false, n;
          }
          var _ := Establish(c.i);
        } else {
          Destroy(c.i);
        }
        OneMoreCall(old(infos), before, infos, calls, n);
        n := n + 1;
      }
      return true, n;
    }
  }

  /** The same inodes, of the same kinds. */
  ghost predicate SameModes(was: map<nat, Info>, now: map<nat, Info>) {
    now.Keys == was.Keys && forall i :: i in now ==> now[i].mode == was[i].mode
  }

  /** Every mapping count is the one that the calls lead to. */
  ghost predicate Follows(was: map<nat, Info>, now: map<nat, Info>, calls: seq<MapCall>) {
    now.Keys == was.Keys && forall i :: i in now ==> now[i].count == CountAfter(was[i].count, calls, i)
  }

  lemma NoCalls(infos: map<nat, Info>, calls: seq<MapCall>)
    ensures SameModes(infos, infos) && Follows(infos, infos, calls[..0])
  {
  }

  lemma SameKeys(was: map<nat, Info>, now: map<nat, Info>)
    requires SameModes(was, now)
    ensures now.Keys == was.Keys
  {
  }

  lemma OneMoreCall(was: map<nat, Info>, before: map<nat, Info>, now: map<nat, Info>, calls: seq<MapCall>, n: nat)
    requires n < |calls| && SameModes(was, before) && Follows(was, before, calls[..n]) && calls[n].i in before
    requires now.Keys == before.Keys && (forall i :: i in now && i != calls[n].i ==> now[i] == before[i])
    requires var i, m := now[calls[n].i], before[calls[n].i];
             i.mode == m.mode &&
             i.count == if calls[n].Up? then m.count + 1 else if m.count > 0 then m.count - 1 else 0
    ensures SameModes(was, now) && Follows(was, now, calls[..n + 1])
  {
    assert calls[..n + 1][..n] == calls[..n];
  }

  /** The inodes of one kind that have a mapping. */
  ghost function Mapped(infos: map<nat, Info>, regular: bool): set<nat> {
    set i | i in infos && infos[i].mode.Regular? == regular && infos[i].count > 0
  }

  /** The same after the calls, from the counts at the start. */
  ghost function MappedAfter(infos: map<nat, Info>, calls: seq<MapCall>, regular: bool): set<nat> {
    set i | i in infos && infos[i].mode.Regular? == regular && CountAfter(infos[i].count, calls, i) > 0
  }

  function AreasOf(regular: bool): nat {
    if regular then FILE_AREAS else DIR_AREAS
  }

  /** Call `n` does not ask for an area, or fewer inodes of its kind have a mapping than there are areas. */
  ghost predicate FindsArea(infos: map<nat, Info>, calls: seq<MapCall>, n: nat)
    requires n < |calls|
  {
    var i := calls[n].i;
    calls[n].Up? && i in infos && CountAfter(infos[i].count, calls[..n], i) == 0 ==>
      var regular := infos[i].mode.Regular?; |MappedAfter(infos, calls[..n], regular)| < AreasOf(regular)
  }

  ghost function AsSet(s: seq<nat>): set<nat> {
    set a | a in s
  }

  lemma RangeSize(base: nat, size: nat, n: nat)
    requires size > 0
    ensures |Range(base, size, n)| == n
  {
    RangeList(base, size, n);
    assert |multiset(seq(n, k => base + size * k))| == n;
    assert |multiset(Range(base, size, n))| == |Range(base, size, n)|;
  }

  /** As many areas are used as inodes of the kind have a mapping. */
  lemma UsedSize(infos: map<nat, Info>, holder: map<nat, nat>, dir: Pool, reg: Pool, regular: bool)
    requires Ok(infos, holder, dir, reg)
    ensures var p := if regular then reg else dir;
            |p.used| == |Mapped(infos, regular)| && |p.free| + |p.used| == AreasOf(regular)
  {
    var p, all := if regular then reg else dir, if regular then FileAreas() else DirAreas();
    RangeSize(RDFS_START, MAX_DIR_SIZE, DIR_AREAS);
    RangeSize(RDFS_START + DIR_AREA_SIZE, MAX_FILE_SIZE, FILE_AREAS);
    assert |all| == AreasOf(regular);
    hide DirAreas, FileAreas;
    PoolSize(p, all);
    var s, t := Mapped(infos, regular), AsSet(p.used);
    var m := map i | i in s :: infos[i].addr;
    forall i | i in s
      ensures m[i] in t
    {
      HeldArea(infos, holder, dir, reg, i);
    }
    forall x, y | x in m && y in m && m[x] == m[y]
      ensures x == y
    {
      HeldArea(infos, holder, dir, reg, x);
      HeldArea(infos, holder, dir, reg, y);
      if x != y {
        NoSharing(infos, holder, dir, reg, x, y);
      }
    }
    forall a | a in t
      ensures exists i :: i in m && m[i] == a
    {
      UsedHolder(infos, holder, dir, reg, regular, a);
      assert m[holder[a]] == a;
    }
    SameSize(s, t, m);
  }

  lemma UsedHolder(infos: map<nat, Info>, holder: map<nat, nat>, dir: Pool, reg: Pool, regular: bool, a: nat)
    requires Ok(infos, holder, dir, reg) && a in (if regular then reg else dir).used
    ensures a in holder && holder[a] in Mapped(infos, regular) && infos[holder[a]].addr == a
  {
    hide DirAreas, FileAreas;
    assert AreaOk(infos, holder, dir, reg, a);
    AddressKind(infos, holder, dir, reg, a);
    HeldArea(infos, holder, dir, reg, holder[a]);
  }

  lemma PoolSize(p: Pool, all: set<nat>)
    requires PoolOk(p, all)
    ensures |p.free| + |p.used| == |all| && |AsSet(p.used)| == |p.used|
  {
    assert |multiset(p.free) + multiset(p.used)| == |multiset(all)| == |all|;
    var t := AsSet(p.used);
    forall a
      ensures multiset(p.used)[a] == multiset(t)[a]
    {
      UsedOnce(p, all, a);
      assert a in p.used <==> a in multiset(p.used);
    }
    assert multiset(p.used) == multiset(t);
  }

  lemma FindsAreaIff(was: map<nat, Info>, infos: map<nat, Info>, holder: map<nat, nat>, dir: Pool, reg: Pool,
                     calls: seq<MapCall>, n: nat)
    requires Ok(infos, holder, dir, reg) && SameModes(was, infos) && n < |calls| && calls[n].i in infos
    requires Follows(was, infos, calls[..n])
    ensures var i := infos[calls[n].i];
            FindsArea(was, calls, n) <==> !(calls[n].Up? && i.addr == 0 && PoolOf(dir, reg, i.mode).free == [])
  {
    hide Ok, CountAfter;
    var i := infos[calls[n].i];
    HeldArea(infos, holder, dir, reg, calls[n].i);
    UsedSize(infos, holder, dir, reg, i.mode.Regular?);
    assert Mapped(infos, i.mode.Regular?) == MappedAfter(was, calls[..n], i.mode.Regular?);
  }

  datatype MapCall = Up(i: nat) | Down(i: nat)

  /** The mapping count of inode `i` after the calls. */
  function CountAfter(count: int, calls: seq<MapCall>, i: nat): int {
    if calls == [] then count else
      var n, c := CountAfter(count, calls[..|calls| - 1], i), calls[|calls| - 1];
      if c.i != i then n else if c.Up? then n + 1 else if n > 0 then n - 1 else 0
  }

  /** The used areas are those that inodes hold; when no inode has a mapping, every area is free again. */
  lemma IdleAllFree(infos: map<nat, Info>, holder: map<nat, nat>, dir: Pool, reg: Pool)
    requires Ok(infos, holder, dir, reg) && forall i :: i in infos ==> infos[i].count == 0
    ensures dir.used == [] && reg.used == [] && multiset(dir.free) == multiset(DirAreas())
    ensures multiset(reg.free) == multiset(FileAreas())
  {
    hide DirAreas, FileAreas;
    forall a: nat
      ensures a !in dir.used && a !in reg.used
    {
      assert AreaOk(infos, holder, dir, reg, a);
      assert InodeOk(infos, holder, dir, reg, if a in holder then holder[a] else a);
    }
    EmptyOrNot(dir.used);
    EmptyOrNot(reg.used);
    assert multiset(dir.used) == multiset{} && multiset(reg.used) == multiset{};
  }

  lemma EmptyOrNot(s: seq<nat>)
    ensures s == [] || exists a: nat :: a in s
  {
    assert s != [] ==> s[0] in s;
  }

  /** What an inode holds: no address and no count, or a used area of its kind. */
  lemma HeldArea(infos: map<nat, Info>, holder: map<nat, nat>, dir: Pool, reg: Pool, i: nat)
    requires Ok(infos, holder, dir, reg) && i in infos
    ensures infos[i].count >= 0 && (infos[i].addr != 0 <==> infos[i].count > 0)
    ensures infos[i].addr != 0 && infos[i].mode.Regular? ==>
              infos[i].addr in reg.used && RDFS_START + DIR_AREA_SIZE <= infos[i].addr < RDFS_END
    ensures infos[i].addr != 0 && !infos[i].mode.Regular? ==>
              infos[i].addr in dir.used && RDFS_START <= infos[i].addr < RDFS_START + DIR_AREA_SIZE
  {
    assert InodeOk(infos, holder, dir, reg, i);
    AddressKind(infos, holder, dir, reg, infos[i].addr);
  }

  /** The building loop of `nvmalloc_init`: areas of `size` from `base`, as long as the last byte is below `limit`. */
  method AreaList(base: nat, size: nat, limit: nat, ghost n: nat) returns (list: seq<nat>)
    requires n > 0 && size > 0 && base + size * n - 1 < limit <= base + size * (n + 1) - 1
    ensures list == InOrder(base, size, n) && multiset(list) == multiset(Range(base, size, n))
  {
    list := [base];
    var addr := base + size;
    while addr + size - 1 < limit
      invariant 0 < |list| <= n && addr == base + size * |list|
      invariant list == seq(|list|, k => base + size * k)
      decreases limit - addr
    {
      Spaced(size, |list|, n + 1);
      list := list + [addr];
      addr := addr + size;
    }
    if |list| < n {
      Spaced(size, |list|, n);
    }
    RangeList(base, size, n);
  }

  lemma {:induction false} RangeList(base: nat, size: nat, n: nat)
    requires size > 0
    ensures multiset(seq(n, k => base + size * k)) == multiset(Range(base, size, n))
  {
    var l := seq(n, k => base + size * k);
    if n > 0 {
      var m := n - 1;
      RangeList(base, size, m);
      var a := base + size * m;
      assert l == seq(m, k => base + size * k) + [a];
      assert Range(base, size, n) == Range(base, size, m) + {a};
      assert a !in Range(base, size, m) by {
        NotBefore(base, size, m);
      }
    }
  }

  lemma NotBefore(base: nat, size: nat, m: nat)
    requires size > 0
    ensures base + size * m !in Range(base, size, m)
  {
    forall k: nat | k < m
      ensures base + size * k != base + size * m
    {
      Spaced(size, k, m);
    }
  }

  /** What freeing an address does to a pool: the area found goes to the free list; none found, nothing changes. */
  ghost predicate Freed(p: Pool, q: Pool, a: nat) {
    if a in p.used then exists k: nat :: k < |p.used| && p.used[k] == a && q == Given(p, k) else q == p
  }

  /** The search of `nvfree`: the head first, then the rest of the list. */
  method Unuse(p: Pool, a: nat) returns (q: Pool)
    requires p.used != []
    ensures Freed(p, q, a)
  {
    if p.used[0] == a {
      q := Pool([a] + p.free, p.used[1..], p.freeCnt + 1, p.usedCnt - 1);
      assert p.used[..0] + p.used[1..] == p.used[1..];
      assert q == Given(p, 0);
      return;
    }
    var k := 1;
    while k < |p.used|
      invariant 0 < k <= |p.used| && forall j: nat :: j < k ==> p.used[j] != a
    {
      if p.used[k] == a {
        q := Pool([a] + p.free, p.used[..k] + p.used[k + 1..], p.freeCnt + 1, p.usedCnt - 1);
        assert q == Given(p, k);
        return;
      }
      k := k + 1;
    }
    q := p;
  }
}
