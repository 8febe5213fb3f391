/** The page allocator (balloc.c) and the per-inode page tables built from its pages
    (pgtable.c, and the block allocation and lookup of inode.c), as one object that updates
    memory in place. */
module PageStore {
  import opened Machine
  import opened PageUses
  import opened PageTakes
  import opened PageScan
  import opened PageSlots
  import opened PageTeardown
  import opened PageInit
  import opened PageContents

  /** The fields of an inode that the page tables use: its kind, the address of its top table
      (0 when it has none) and its block count. */
  datatype Inode = Inode(mode: Mode, pgAddr: nat, blocks: nat)

  const OK: int := 0
  const FAIL: int := -1
  const ENOMEM: int := -12
  const PGFAILD: int := 0x10003

  /** The recorded top tables are the ones in use, and the blocks of an inode sit in slots that
      block numbers below its block count were given. */
  ghost predicate InodesOk(at: map<Use, nat>, inodes: map<Ino, Inode>) {
    && (forall ino :: ino in inodes ==> inodes[ino].pgAddr == if Root(ino) in at then at[Root(ino)] else 0)
    && (forall ino :: Root(ino) in at ==> ino in inodes)
    && (forall ino, a, b, c :: Data(ino, a, b, c) in at && ino in inodes ==> TakenSlot(inodes[ino], Slot(a, b, c)))
    && (forall ino :: ino in inodes ==> inodes[ino].blocks <= BlockLimit(inodes[ino].mode))
  }

  ghost predicate TakenSlot(i: Inode, s: Slot) {
    SlotNumber(s) < i.blocks || (Small(i.mode) && s.a == 0 && s.b == 511 && s.c < i.blocks)
  }

  ghost function BlockUse(ino: Ino, s: Slot): Use {
    Data(ino, s.a, s.b, s.c)
  }

  /** The use of the block that gets number `k + i`. */
  ghost function NthBlock(ino: Ino, vaddr: nat, k: nat, i: nat): Use {
    BlockUse(ino, InsertSlot(vaddr, k + i))
  }

  /** The one table of every level that an inode starts with. */
  ghost predicate FirstTable(u: Use, ino: Ino) {
    u == Root(ino) || u == Pmd(ino, 0) || u == Pte(ino, 0, 0)
  }

  /** `u` is block `d` or one of the two tables directly above it. */
  ghost predicate OnPath(u: Use, d: Use) {
    d.Data? && (u == d || u == Parent(d) || u == Parent(Parent(d)))
  }

  /** Every use begun for `n` blocks from number `k` is one of these blocks, a table on the way to
      one, or a first table. */
  ghost predicate NewBlocks(ino: Ino, vaddr: nat, k: nat, n: nat, news: set<Use>) {
    forall u :: u in news ==> FirstTable(u, ino) || exists i: nat :: i < n && OnPath(u, NthBlock(ino, vaddr, k, i))
  }

  /** Blocks `k`, `k + 1`, ... of the inode are the pages `ps`, where their addresses put them. */
  ghost predicate BlocksAt(at: map<Use, nat>, ino: Ino, vaddr: nat, k: nat, ps: seq<nat>) {
    forall i: nat :: i < |ps| ==> NthBlock(ino, vaddr, k, i) in at && at[NthBlock(ino, vaddr, k, i)] == ps[i]
  }

  /** From `v` to `w` only free pages and the held pages `from` changed their use, and only to
      serve inode `ino` or to be held; the file blocks there were kept their contents. */
  ghost predicate Spends(v: Pool, w: Pool, from: set<nat>, ino: Ino) {
    && w.owner.Keys == v.owner.Keys
    && (forall p :: p in v.owner ==>
          w.owner[p] == v.owner[p] ||
          ((v.owner[p].Free? || p in from) && (Owned(w.owner[p], ino) || w.owner[p] == Held(p))))
    && (forall p :: p in v.owner && v.owner[p].Data? && w.owner[p] == v.owner[p] ==>
          p in v.mem && p in w.mem && w.mem[p] == v.mem[p])
  }

  /** Each list lost at most `n` pages. */
  ghost predicate AtMostTaken(was: seq<nat>, now: seq<nat>, n: nat) {
    |was| == |now| == 2 && was[0] <= now[0] + n && was[1] <= now[1] + n
  }

  /** Each list holds the pages asked of it. */
  ghost predicate Enough(count: seq<nat>, asks: multiset<nat>) {
    |count| == 2 && asks[0] <= count[0] && asks[1] <= count[1]
  }

  /** What the lists hold after the pages were taken. */
  ghost function Left(count: seq<nat>, asks: multiset<nat>): (left: seq<nat>)
    requires Enough(count, asks)
    ensures |left| == 2
  {
    [count[0] - asks[0], count[1] - asks[1]]
  }

  /** A table that is missing is asked of list `r`. */
  ghost function Ask(at: set<Use>, u: Use, r: nat): multiset<nat> {
    if u in at then multiset{} else multiset{r}
  }

  /** The pages for the tables above slot `s`. */
  ghost function SlotAsks(numa: bool, at: set<Use>, ino: Ino, s: Slot, cpu1: nat, cpu2: nat): multiset<nat> {
    Ask(at, Pmd(ino, s.a), CpuRegion(numa, cpu1)) + Ask(at, Pte(ino, s.a, s.b), CpuRegion(numa, cpu2))
  }

  /** Every list that is in use holds at least `n` pages. */
  ghost predicate Plenty(numa: bool, count: seq<nat>, n: nat) {
    |count| == 2 && count[0] >= n && (numa ==> count[1] >= n)
  }

  /** The tables `at` and those above `n` blocks from number `k`. */
  ghost function TablesFor(at: set<Use>, ino: Ino, vaddr: nat, k: nat, n: nat): set<Use> {
    if n == 0 then at else
      var s := InsertSlot(vaddr, k + n - 1);
      TablesFor(at, ino, vaddr, k, n - 1) + {Pmd(ino, s.a), Pte(ino, s.a, s.b)}
  }

  /** The pages for the tables above `n` blocks from number `k`, where the tables `at` are in place; `cpus` from place
      `from` on are the processors that run. */
  ghost function FillAsks(numa: bool, at: set<Use>, ino: Ino, vaddr: nat, k: nat, n: nat, cpus: nat -> nat, from: nat)
      : multiset<nat>
  {
    if n == 0 then multiset{} else
      FillAsks(numa, at, ino, vaddr, k, n - 1, cpus, from) + NthAsks(numa, at, ino, vaddr, k, n - 1, cpus, from)
  }

  ghost function NthAsks(numa: bool, at: set<Use>, ino: Ino, vaddr: nat, k: nat, i: nat, cpus: nat -> nat, from: nat)
      : multiset<nat>
  {
    SlotAsks(numa, TablesFor(at, ino, vaddr, k, i), ino, InsertSlot(vaddr, k + i), cpus(from + 2 * i),
             cpus(from + 2 * i + 1))
  }

  /** The pages that the allocation of `num` blocks takes: three first tables when the inode has none, the blocks, and
      the missing tables above them. */
  ghost function AllocAsks(numa: bool, at: set<Use>, i: Inode, ino: Ino, vaddr: nat, num: nat, cpus: nat -> nat)
      : multiset<nat>
  {
    InitAsks(numa, i, cpus) + BlockAsks(numa, ino, num) +
    FillAsks(numa, InitTables(at, i, ino), ino, vaddr, i.blocks, num, cpus, 3)
  }

  ghost function InitAsks(numa: bool, i: Inode, cpus: nat -> nat): multiset<nat> {
    if i.pgAddr != 0 then multiset{}
    else multiset{CpuRegion(numa, cpus(0)), CpuRegion(numa, cpus(1)), CpuRegion(numa, cpus(2))}
  }

  ghost function BlockAsks(numa: bool, ino: Ino, num: nat): multiset<nat> {
    multiset{}[InodeRegion(numa, ino) := num]
  }

  ghost function InitTables(at: set<Use>, i: Inode, ino: Ino): set<Use> {
    if i.pgAddr != 0 then at else at + {Pmd(ino, 0), Pte(ino, 0, 0)}
  }

  /** The tables of `ino` below its top table are the same. */
  ghost predicate SameTables(a: set<Use>, b: set<Use>, ino: Ino) {
    forall u: Use :: (u.Pmd? || u.Pte?) && u.ino == ino ==> (u in a <==> u in b)
  }

  /** The same pages are free, and every other page has the same use and contents. */
  ghost predicate Restored(v: Pool, w: Pool) {
    && w.numa == v.numa && w.owner.Keys == v.owner.Keys && v.mem.Keys == w.mem.Keys == v.owner.Keys
    && forall p :: p in v.owner ==>
         && (w.owner[p].Free? <==> v.owner[p].Free?)
         && (!v.owner[p].Free? ==> w.owner[p] == v.owner[p] && w.mem[p] == v.mem[p])
  }

  class Store {
    const numa: bool
    var mem: map<nat, seq<Word>>
    var head: seq<nat>
    var count: seq<nat>
    var inodes: map<Ino, Inode>
    ghost var pool: Pool

    /** The bookkeeping describes the memory and the lists as they are, and is sound. */
    ghost predicate Sound()
      reads this
    {
      && pool.numa == numa && pool.mem == mem && pool.head == head && pool.count == count
      && PoolOk(pool) && Forest(pool)
    }

    ghost predicate Valid()
      reads this
    {
      Sound() && InodesOk(pool.at, inodes)
    }

    /** Both regions after `rdfs_init_numa`: all pages are free, and each list holds the pages of its
        area in address order. */
    constructor (numa: bool, image: map<nat, seq<Word>>, start: seq<nat>, n: seq<nat>, inodes: map<Ino, Inode>)
      requires Areas(numa, image, start, n)
      requires forall ino :: ino in inodes ==> inodes[ino].pgAddr == 0 && inodes[ino].blocks == 0
      ensures Valid() && this.numa == numa && this.inodes == inodes && count == n && FreePages(pool) == image.Keys
      ensures forall r: nat, i: nat :: r < 2 && i < n[r] ==>
                Nth(start[r], i) in pool.owner && pool.owner[Nth(start[r], i)] == Free(r, n[r] - 1 - i)
    {
      hide PoolOk, Forest, Areas, Nth, Threaded, FreshPool, FreePages, Side;
      AreasUsable(numa, image, start, n);
      var m := ThreadRegions(numa, image, start, n);
      FreshStore(numa, m, start, n);
      this.numa, this.inodes := numa, inodes;
      mem, head, count, pool := m, start, n, FreshPool(numa, m, start, n);
    }

    /** `rdfs_free_block`. */
    method FreeBlock(phys: nat)
      requires pool.numa == numa && pool.mem == mem && pool.head == head && pool.count == count
      requires PoolOk(pool) && phys in pool.owner && !pool.owner[phys].Free?
      modifies this`mem, this`head, this`count, this`pool
      ensures pool.numa == numa && pool.mem == mem && pool.head == head && pool.count == count
      ensures PoolOk(pool) && Released(old(pool), pool, {old(pool.owner[phys])})
      ensures pool == Pushed(old(pool), phys) && AtMostTaken(old(count), count, 0)
    {
      hide PoolOk, Released;
      PushReleases(pool, phys);
      PoolLengths(pool);
      PageShape(pool, phys);
      var r := Side(numa, phys);
      pool := Pushed(pool, phys);
      mem := mem[phys := Put(mem[phys], 0, head[r])];
      head := head[r := phys];
      count := count[r := count[r] + 1];
    }

    /** `rdfs_new_block` on region `r`: the first `num` pages of the list, as a chain that
        starts at the returned address. */
    method NewBlock(num: nat, r: nat) returns (err: int, phys: nat, ghost ps: seq<nat>)
      requires Sound() && r < 2
      modifies this`head, this`count, this`pool
      ensures Sound()
      ensures err == (if old(count[r]) < num then FAIL else OK)
      ensures err != OK ==> pool == old(pool) && phys == 0
      ensures err == OK ==> |ps| == num && phys == old(head[r]) && Detached(old(pool), pool, r, num)
      ensures err == OK ==> ChainOf(old(pool), r, ps, head[r]) && count == old(count)[r := old(count[r]) - num]
    {
      hide PoolOk, Forest, Detached, ChainOf;
      PoolLengths(pool);
      phys, ps := 0, [];
      if count[r] < num {
        return FAIL, 0, [];
      }
      phys := head[r];
      var next := head[r];
      var i := 0;
      ghost var v, w := pool, pool;
      DetachNone(v, r);
      while i < num
        invariant i <= num && |ps| == i
        invariant head == v.head && count == v.count && mem == v.mem && |v.head| == |v.count| == 2 && num <= v.count[r]
        invariant w.numa == v.numa && w.mem == mem && w.count == count[r := count[r] - i] && w.head == head[r := next]
        invariant PoolOk(w) && Forest(w) && Detached(v, w, r, i) && ChainOf(v, r, ps, next)
      {
        PopFacts(w, r);
        DetachOneMore(v, w, r, i);
        ChainOneMore(v, w, r, ps);
        PoolLengths(w);
        PageShape(w, next);
        ps := ps + [next];
        next := mem[next][0];
        w := Popped(w, r);
        i := i + 1;
      }
      count := count[r := count[r] - num];
      head := head[r := next];
      pool := w;
      err := OK;
    }

    /** `rdfs_get_zeroed_page`: one page of the running processor's region, cleared; 0 when the
        region has none. */
    method GetZeroedPage(cpu: nat) returns (page: nat)
      requires Sound()
      modifies this`mem, this`head, this`count, this`pool
      ensures Sound()
      ensures page == 0 <==> old(count[CpuRegion(numa, cpu)]) == 0
      ensures page == 0 ==> pool == old(pool)
      ensures page != 0 ==> Zeroing(old(pool), pool, page)
      ensures var asks := multiset{CpuRegion(numa, cpu)};
              && (page != 0 <==> Enough(old(count), asks))
              && count == if page != 0 then Left(old(count), asks) else old(count)
    {
      hide PoolOk, Forest, Zeroing, Detached, ChainOf, Enough, Left;
      PoolLengths(pool);
      AskOne(count, CpuRegion(numa, cpu));
      var err;
      ghost var ps;
      ghost var v := pool;
      var r := CpuRegion(numa, cpu);
      FirstIsPage(v, r);
      err, page, ps := NewBlock(1, r);
      if page != 0 {
        PoolLengths(pool);
        ChainStart(v, r, ps, head[r]);
        DetachAndClear(v, pool, r, page, ZeroPage());
        RewriteKeeps(pool, page, ZeroPage());
        mem := mem[page := ZeroPage()];
        pool := Rewritten(pool, page, ZeroPage());
      }
    }

    /** `__rdfs_pmd_alloc` and `__rdfs_pte_alloc`: a cleared page becomes the table under entry `i` of table `t`, or
        goes back where it came from when the entry has a table already. */
    method TableAlloc(t: nat, i: nat, cpu: nat, ghost u: Use) returns (err: int)
      requires Sound() && IsTable(u) && HasParent(u) && Parent(u) in pool.at
      requires t == pool.at[Parent(u)] && i == Index(u) < PTRS_PER_TABLE
      modifies this`mem, this`head, this`count, this`pool
      ensures Sound()
      ensures err == (if old(count[CpuRegion(numa, cpu)]) == 0 then ENOMEM else OK)
      ensures err != OK ==> pool == old(pool)
      ensures err == OK && u !in old(pool.at) ==> Takes(old(pool), pool, {}, {u})
      ensures err == OK && u in old(pool.at) ==> Restored(old(pool), pool)
      ensures var asks := Ask(old(pool.at.Keys), u, CpuRegion(numa, cpu));
              u !in old(pool.at) ==> (err == OK <==> Enough(old(count), asks)) &&
                                     (err == OK ==> count == Left(old(count), asks))
      ensures AtMostTaken(old(count), count, 1)
    {
      hide PoolOk, Forest, Zeroing, Takes, Restored, Enough, Left, CpuRegion;
      PoolLengths(pool);
      AskRegion(count, numa, cpu);
      ghost var v := pool;
      var page := GetZeroedPage(cpu);
      if page == 0 {
        return ENOMEM;
      }
      EnterTable(t, i, page, u, v);
      err := OK;
    }

    /** The end of both, under the lock: the cleared page goes into the entry, unless it is present. */
    method EnterTable(t: nat, i: nat, page: nat, ghost u: Use, ghost v: Pool)
      requires Sound() && PoolOk(v) && Forest(v) && Zeroing(v, pool, page)
      requires IsTable(u) && HasParent(u) && Parent(u) in v.at && t == v.at[Parent(u)] && i == Index(u) < PTRS_PER_TABLE
      modifies this`mem, this`head, this`count, this`pool
      ensures Sound() && AtMostTaken(old(count), count, 0)
      ensures u !in v.at ==> Takes(v, pool, {}, {u}) && count == old(count)
      ensures u in v.at ==> Restored(v, pool)
    {
      hide PoolOk, Forest, Zeroing, Takes, Restored;
      PoolLengths(pool);
      ghost var v1 := pool;
      TakesParent(v, v1, page, u);
      UseShape(v1, Parent(u));
      EntryPresent(v, v1, page, u);
      if mem[t][i] % 2 == 1 {
        ZeroedIsHeld(v, v1, page);
        FreeBlock(page);
        GivenBack(v, v1, pool, page);
      } else {
        ZeroAttachTakes(v, v1, page, u);
        AttachKeeps(v1, page, u);
        mem := mem[t := Put(mem[t], i, page + PAGE_TABLE)];
        pool := Attached(pool, page, u);
      }
    }

    /** `rdfs_init_pg_table`: one empty table of every level.  When a page is missing the inode
        keeps no table, and the pages that were found are lost. */
    method InitPgTable(ino: Ino, cpu1: nat, cpu2: nat, cpu3: nat) returns (err: int)
      requires Valid() && ino in inodes && inodes[ino].pgAddr == 0
      modifies this`mem, this`head, this`count, this`pool, this`inodes
      ensures Valid()
      ensures err == OK ==> Takes(old(pool), pool, {}, {Root(ino), Pmd(ino, 0), Pte(ino, 0, 0)})
      ensures err == OK ==>
                Root(ino) in pool.at && inodes == old(inodes)[ino := old(inodes[ino]).(pgAddr := pool.at[Root(ino)])]
      ensures err != OK ==> err == -PGFAILD && inodes == old(inodes) && Lost(old(pool), pool)
      ensures var asks := multiset{CpuRegion(numa, cpu1), CpuRegion(numa, cpu2), CpuRegion(numa, cpu3)};
              (err == OK <==> Enough(old(count), asks)) && (err == OK ==> count == Left(old(count), asks))
      ensures AtMostTaken(old(count), count, 3) && FreeKept(old(pool), pool)
    {
      hide PoolOk, Forest, Zeroing, Zeroed, Takes, Lost, InodesOk, FirstTables, Put, Enough, Left, AtMostTaken,
           CpuRegion, FreeKept;
      ghost var v := pool;
      PoolLengths(v);
      NoRoot(v, inodes, ino);
      var pud: nat := GetZeroedPage(cpu1);
      ghost var v1 := pool;
      var pmd: nat := GetZeroedPage(cpu2);
      ghost var v2 := pool;
      var pte: nat := GetZeroedPage(cpu3);
      ghost var v3 := pool;
      AskThree(v.count, v1.count, v2.count, v3.count, numa, cpu1, cpu2, cpu3, pud != 0, pmd != 0, pte != 0);
      ThreeKeepFree(v, v1, v2, v3, pud, pmd, pte);
      if pud == 0 || pmd == 0 || pte == 0 {
        LosesThree(v, v1, v2, v3, pud, pmd, pte);
        LostInodes(v, v3, inodes);
        return -PGFAILD;
      }
      InitTakes(v, v1, v2, v3, pud, pmd, pte, inodes, ino);
      TablesKeepFree(v, v3, pud, pmd, pte, ino);
      mem := mem[pmd := Put(mem[pmd], 0, pte + PAGE_TABLE)];
      mem := mem[pud := Put(mem[pud], 0, pmd + PAGE_TABLE)];
      pool := FirstTables(v3, pud, pmd, pte, ino);
      inodes := inodes[ino := inodes[ino].(pgAddr := pud)];
      err := OK;
    }

    /** `rdfs_pte_alloc`, and `rdfs_pmd_alloc` outside the directory areas: the table under entry
        `i` of table `t`, allocated when the entry is empty. */
    method TableUnder(t: nat, i: nat, cpu: nat, ghost u: Use) returns (err: int, page: nat, ghost news: set<Use>)
      requires Sound() && IsTable(u) && HasParent(u) && Parent(u) in pool.at
      requires t == pool.at[Parent(u)] && i == Index(u) < PTRS_PER_TABLE
      modifies this`mem, this`head, this`count, this`pool
      ensures Sound() && Takes(old(pool), pool, {}, news)
      ensures news == if err == OK && u !in old(pool.at) then {u} else {}
      ensures err == OK ==> u in pool.at && page == pool.at[u]
      ensures err != OK ==> u !in pool.at
      ensures var asks := Ask(old(pool.at.Keys), u, CpuRegion(numa, cpu));
              (err == OK <==> Enough(old(count), asks)) && (err == OK ==> count == Left(old(count), asks))
      ensures AtMostTaken(old(count), count, 1)
    {
      PoolLengths(pool);
      hide PoolOk, Forest, Takes;
      err, page, news := OK, 0, {};
      ghost var v := pool;
      EntryOf(pool, u);
      PoolParts(pool);
      TakesNothing(pool);
      if mem[t][i] == 0 {
        err := TableAlloc(t, i, cpu, u);
        if err != OK {
          return;
        }
        news := {u};
        TakesPlaces(v, pool, {}, news, u);
        EntryOf(pool, u);
      }
      page := Frame(mem[t][i]);
    }

    /** `rdfs_pmd_alloc`: the pmd table that entry `nr` of the top table leads to, and the index
        of the address in it.  In the directory areas it is the first entry of the table in
        place; elsewhere the table is allocated when missing. */
    method PmdAlloc(ino: Ino, pud: nat, nr: nat, addr: nat, cpu: nat)
        returns (err: int, pmd: nat, b: nat, ghost news: set<Use>)
      requires Sound() && Root(ino) in pool.at && pud == pool.at[Root(ino)] && nr < PTRS_PER_TABLE
      requires InDirAreas(addr) ==> nr == 0
      modifies this`mem, this`head, this`count, this`pool
      ensures Sound() && Takes(old(pool), pool, {}, news) && news <= {Pmd(ino, nr)}
      ensures err == OK ==> Pmd(ino, nr) in pool.at && pmd == pool.at[Pmd(ino, nr)]
      ensures b == if InDirAreas(addr) then 0 else PmdIndex(addr)
      ensures var asks := Ask(old(pool.at.Keys), Pmd(ino, nr), CpuRegion(numa, cpu));
              (err == OK <==> Enough(old(count), asks)) && (err == OK ==> count == Left(old(count), asks))
      ensures AtMostTaken(old(count), count, 1)
    {
      PoolLengths(pool);
      hide PoolOk, Forest, Takes;
      b := if InDirAreas(addr) then 0 else PmdIndex(addr);
      if InDirAreas(addr) {
        PoolParts(pool);
        TakesNothing(pool);
        RootAt(pool, ino);
        EntryOf(pool, Pmd(ino, 0));
        err, pmd, news := OK, PageMask(mem[pud][nr]), {};
      } else {
        err, pmd, news := TableUnder(pud, nr, cpu, Pmd(ino, nr));
      }
    }

    /** `rdfs_insert_page`: the held page `phys` becomes the newest block of the inode, in the
        slot its virtual address selects. */
    method InsertPage(ino: Ino, vaddr: nat, phys: nat, cpu1: nat, cpu2: nat) returns (err: int, ghost news: set<Use>)
      requires Sound() && ino in inodes && inodes[ino].blocks > 0
      requires inodes[ino].pgAddr == if Root(ino) in pool.at then pool.at[Root(ino)] else 0
      requires inodes[ino].blocks <= BlockLimit(inodes[ino].mode) && AreaBase(inodes[ino].mode, vaddr)
      requires Held(phys) in pool.at
      requires BlockUse(ino, InsertSlot(vaddr, inodes[ino].blocks - 1)) !in pool.at
      modifies this`mem, this`head, this`count, this`pool
      ensures Sound() && (err == OK || err == FAIL)
      ensures var s := InsertSlot(vaddr, inodes[ino].blocks - 1);
              && news <= {Pmd(ino, s.a), Pte(ino, s.a, s.b), BlockUse(ino, s)}
              && (err == OK ==>
                    Takes(old(pool), pool, {phys}, news) && BlockUse(ino, s) in pool.at &&
                    pool.at[BlockUse(ino, s)] == phys)
              && (err != OK ==> Takes(old(pool), pool, {}, news) && BlockUse(ino, s) !in news)
      ensures err == OK ==> phys in mem && phys in old(mem) && mem[phys] == old(mem[phys])
      ensures var asks := SlotAsks(numa, old(pool.at.Keys), ino, InsertSlot(vaddr, inodes[ino].blocks - 1), cpu1, cpu2);
              && (err == OK <==> inodes[ino].pgAddr != 0 && Enough(old(count), asks))
              && (err == OK ==> count == Left(old(count), asks))
      ensures AtMostTaken(old(count), count, 2)
    {
      hide PoolOk, Forest, Takes, Attached, AreaBase, BlockLimit, PmdIndex, PteIndex, InDirAreas, ForestBut, Enough,
           Left,
           Ask, AtMostTaken;
      news := {};
      ghost var v := pool;
      PoolLengths(v);
      TakenNone(count, 2);
      var k := inodes[ino].blocks - 1;
      var addr := vaddr + k * PAGE_SIZE;
      var nr := k / BLOCKS_PER_PUD;
      var pud := inodes[ino].pgAddr;
      ghost var s := InsertSlot(vaddr, k);
      SlotBounds(inodes[ino].mode, vaddr, k);
      if pud == 0 {
        PoolParts(v);
        TakesNothing(v);
        return FAIL, {};
      }
      var pmd, b, pte;
      err, pmd, b, news := PmdAlloc(ino, pud, nr, addr, cpu1);
      ghost var v1 := pool;
      SlotAsk(v, v1, numa, ino, s, cpu1, cpu2, news);
      TakenNone(v1.count, 1);
      TakenBoth(v.count, v1.count, v1.count, 1, 1);
      if err != OK {
        return FAIL, news;
      }
      ghost var more;
      err, pte, more := TableUnder(pmd, b, cpu2, Pte(ino, nr, b));
      ghost var v2 := pool;
      TakenBoth(v.count, v1.count, v2.count, 1, 1);
      TakesMore(v, v1, v2, {}, news, more);
      news := news + more;
      if err != OK {
        return FAIL, news;
      }
      ghost var u := BlockUse(ino, s);
      InsertLast(v, v2, news, u, phys);
      HeldKeeps(v, v2, news, u, phys);
      mem := mem[pte := Put(mem[pte], PteIndex(addr), phys + PAGE_KERNEL)];
      pool := Attached(v2, phys, u);
      news := news + {u};
      err := OK;
    }

    /** One turn of the loop of `rdfs_alloc_blocks`: the page is cleared unless the caller asked
        otherwise, the block count grows, and the page is inserted. */
    method AddBlock(ino: Ino, vaddr: nat, temp: nat, clear: bool, cpu1: nat, cpu2: nat)
        returns (err: int, ghost more: set<Use>)
      requires Valid() && ino in inodes && Held(temp) in pool.at
      requires AreaBase(inodes[ino].mode, vaddr) && inodes[ino].blocks < BlockLimit(inodes[ino].mode)
      modifies this`mem, this`head, this`count, this`pool, this`inodes
      ensures Valid() && CountedTo(old(inodes), inodes, ino, old(inodes[ino]).blocks + 1)
      ensures var s := InsertSlot(vaddr, old(inodes[ino]).blocks);
              && more <= {Pmd(ino, s.a), Pte(ino, s.a, s.b), BlockUse(ino, s)}
              && (err == OK ==> BlockUse(ino, s) in pool.at && pool.at[BlockUse(ino, s)] == temp)
      ensures err == OK ==> Takes(old(pool), pool, {temp}, more) && inodes[ino].pgAddr != 0
      ensures err == OK ==> temp in mem && temp in old(mem) && mem[temp] == if clear then ZeroPage() else old(mem[temp])
      ensures err != OK ==> Spends(old(pool), pool, {}, ino)
      ensures var s := InsertSlot(vaddr, old(inodes[ino]).blocks);
              var asks := SlotAsks(numa, old(pool.at.Keys), ino, s, cpu1, cpu2);
              && (err == OK <==> old(inodes[ino]).pgAddr != 0 && Enough(old(count), asks))
              && (err == OK ==> count == Left(old(count), asks))
      ensures AtMostTaken(old(count), count, 2)
    {
      hide PoolOk, Forest, Takes, InodesOk, AreaBase, BlockLimit, InsertSlot, Rewritten, Spends, SlotAsks, Enough, Left,
           AtMostTaken;
      ghost var w := pool;
      HeldShapes(w, temp);
      if clear {
        RewriteKeeps(w, temp, ZeroPage());
        RewriteFacts(w, temp, ZeroPage());
        mem := mem[temp := ZeroPage()];
        pool := Rewritten(w, temp, ZeroPage());
      }
      ghost var w1 := pool;
      FreshSlot(w1.at, inodes, ino, vaddr);
      RootIs(w1.at, inodes, ino);
      inodes := inodes[ino := inodes[ino].(blocks := inodes[ino].blocks + 1)];
      err, more := InsertPage(ino, vaddr, temp, cpu1, cpu2);
      InsertInodes(w1, pool, old(inodes), inodes, ino, vaddr, temp, more, err == OK);
      if err != OK {
        SpendsTables(w1, pool, more, ino);
        SpendsSame(w, w1, pool, ino, temp);
      } else if clear {
        TakesRewritten(w, temp, ZeroPage(), pool, more);
      }
    }

    /** The loop of `rdfs_alloc_blocks` over freshly detached pages: it walks their chain and adds
        each page. */
    method FillBlocks(ino: Ino, vaddr: nat, num: nat, phys: nat, clear: bool, cpus: nat -> nat, from: nat,
                      ghost ps: seq<nat>)
        returns (err: int, ghost news: set<Use>)
      requires Valid() && ino in inodes && |ps| == num
      requires AreaBase(inodes[ino].mode, vaddr) && inodes[ino].blocks + num <= BlockLimit(inodes[ino].mode)
      requires forall i: nat :: i < num ==> Held(ps[i]) in pool.at
      requires forall i: nat, j: nat :: i < j < num ==> ps[i] != ps[j]
      requires forall i: nat {:trigger LinkOf(pool, ps[i])} :: i + 1 < num ==> LinkOf(pool, ps[i]) == ps[i + 1]
      requires num > 0 ==> phys == ps[0]
      modifies this`mem, this`head, this`count, this`pool, this`inodes
      ensures Valid()
      ensures err == OK ==> inodes == old(inodes)[ino := old(inodes[ino]).(blocks := old(inodes[ino]).blocks + num)]
      ensures err == OK ==> Takes(old(pool), pool, Pages(ps), news)
      ensures err == OK ==> BlocksAt(pool.at, ino, vaddr, old(inodes[ino]).blocks, ps)
      ensures err == OK ==> NewBlocks(ino, vaddr, old(inodes[ino]).blocks, num, news)
      ensures err == OK ==> Contents(ps, clear, num, old(mem), mem)
      ensures err == OK && num > 0 ==> inodes[ino].pgAddr != 0
      ensures err != OK ==> inodes.Keys == old(inodes).Keys && Spends(old(pool), pool, Pages(ps), ino)
      ensures var asks := FillAsks(numa, old(pool.at.Keys), ino, vaddr, old(inodes[ino]).blocks, num, cpus, from);
              && (err == OK <==> num == 0 || (old(inodes[ino]).pgAddr != 0 && Enough(old(count), asks)))
              && (err == OK ==> Enough(old(count), asks) && count == Left(old(count), asks))
      ensures AtMostTaken(old(count), count, 2 * num)
    {
      hide PoolOk, Forest, Takes, InodesOk, AreaBase, NewBlocks, Spends, InsertSlot, Rewritten, LinkOf, BlocksAt, Pages,
           BlockLimit, BlockUse, CountedTo, SlotAsks, FillAsks, Enough, Left, AtMostTaken, Turned, Contents,
           ZeroPage;
      ghost var job := Job(numa, ino, vaddr, ps, clear, cpus, from, pool, inodes);
      TurnStarts(job);
      news := {};
      err := OK;
      var p, i := phys, 0;
      while i < num
        invariant i <= num && (i < num ==> p == ps[i]) && err == OK
        invariant pool.numa == numa && pool.mem == mem && pool.head == head && pool.count == count
        invariant Turned(job, i, pool, inodes, news)
      {
        ghost var w, was := pool, inodes;
        TurnReady(job, i, w, was, news);
        var temp := p;
        p := mem[temp][0];
        ghost var more;
        err, more := AddBlock(ino, vaddr, temp, clear, cpus(from + 2 * i), cpus(from + 2 * i + 1));
        if err != OK {
          TurnFails(job, i, w, was, news, pool, inodes);
          return;
        }
        TurnNext(job, i, w, was, news, pool, inodes, more);
        news := news + more;
        i := i + 1;
      }
      TurnEnds(job, pool, inodes, news);
    }

    /** The start of `rdfs_alloc_blocks`: an inode without tables gets its first ones, and goes without when a page is
        missing, because the code ignores the answer of `rdfs_init_pg_table`. */
    method StartTables(ino: Ino, cpus: nat -> nat) returns (ghost made: bool, ghost tables: set<Use>)
      requires Valid() && ino in inodes
      modifies this`mem, this`head, this`count, this`pool, this`inodes
      ensures Valid() && inodes.Keys == old(inodes).Keys && inodes == old(inodes)[ino := inodes[ino]]
      ensures inodes[ino] == old(inodes[ino]).(pgAddr := inodes[ino].pgAddr) && (made <==> inodes[ino].pgAddr != 0)
      ensures old(inodes[ino]).pgAddr != 0 ==> made && pool == old(pool)
      ensures Readied(old(pool), pool, numa, old(inodes[ino]), ino, cpus, made)
      ensures made ==> tables <= {Root(ino), Pmd(ino, 0), Pte(ino, 0, 0)} && Takes(old(pool), pool, {}, tables)
      ensures Spends(old(pool), pool, {}, ino) && FreeKept(old(pool), pool)
    {
      hide PoolOk, Forest, Takes, InodesOk, Spends, Lost, Enough, Left, AtMostTaken, Readied, CpuRegion, FreeKept;
      made, tables := true, {};
      ghost var v0, i0 := pool, inodes[ino];
      PoolParts(v0);
      TakesNothing(v0);
      SpendsTables(v0, v0, {}, ino);
      if inodes[ino].pgAddr == 0 {
        var e := InitPgTable(ino, cpus(0), cpus(1), cpus(2));
        made := e == OK;
        ReadyMade(v0, pool, numa, i0, ino, cpus, made);
        if e == OK {
          tables := {Root(ino), Pmd(ino, 0), Pte(ino, 0, 0)};
          SpendsTables(v0, pool, tables, ino);
          RootNotNull(pool, ino);
        } else {
          SpendsLost(v0, pool, ino);
        }
      } else {
        ReadyAlready(v0, numa, i0, ino, cpus);
        SameKeepsFree(v0);
      }
    }

    /** `rdfs_alloc_blocks` with `ALLOC_PAGE`: the first `num` pages of the inode's region become
        its next blocks.  The pages for tables may run out, and then the call fails; the pages for
        the blocks may not, because the code ignores the answer of `rdfs_new_block`. */
    method AllocBlocks(ino: Ino, vaddr: nat, num: nat, clear: bool, cpus: nat -> nat)
        returns (err: int, ghost ps: seq<nat>, ghost news: set<Use>)
      requires Valid() && ino in inodes
      requires AreaBase(inodes[ino].mode, vaddr) && inodes[ino].blocks + num <= BlockLimit(inodes[ino].mode)
      requires count[InodeRegion(numa, ino)] >= num + if inodes[ino].pgAddr == 0 then 3 else 0
      modifies this`mem, this`head, this`count, this`pool, this`inodes
      ensures Valid() && inodes.Keys == old(inodes).Keys
      ensures err == OK && (num > 0 || old(inodes[ino]).pgAddr != 0) ==> inodes[ino].pgAddr != 0
      ensures err == OK && inodes[ino].pgAddr != 0 ==>
                && |ps| == num
                && inodes[ino] == old(inodes[ino]).(blocks := old(inodes[ino]).blocks + num,
                                                     pgAddr := inodes[ino].pgAddr)
                && inodes == old(inodes)[ino := inodes[ino]]
                && Takes(old(pool), pool, {}, news)
                && BlocksAt(pool.at, ino, vaddr, old(inodes[ino]).blocks, ps)
                && NewBlocks(ino, vaddr, old(inodes[ino]).blocks, num, news)
      ensures err == OK ==> Contents(ps, clear, num, old(mem), mem)
      ensures err == OK && old(inodes[ino]).pgAddr != 0 ==>
                exists rest :: ChainOf(old(pool), InodeRegion(numa, ino), ps, rest)
      ensures err != OK ==> Spends(old(pool), pool, {}, ino)
      ensures var asks := AllocAsks(numa, old(pool.at.Keys), old(inodes[ino]), ino, vaddr, num, cpus);
              && (err == OK <==> num == 0 || Enough(old(count), asks))
              && (err == OK && inodes[ino].pgAddr != 0 <==> Enough(old(count), asks))
              && (Enough(old(count), asks) ==> count == Left(old(count), asks))
      ensures AtMostTaken(old(count), count, 3 + 3 * num)
    {
      hide PoolOk, Forest, Takes, InodesOk, AreaBase, NewBlocks, Spends, InsertSlot, BlocksAt, Pages, Detached, ChainOf,
           Lost, LinkOf, FillAsks, AllocAsks, Enough, Left, AtMostTaken, Readied, CpuRegion, Contents, FreeKept,
           ZeroPage, BlockLimit;
      ghost var v0, i0 := pool, inodes[ino];
      var r := InodeRegion(numa, ino);
      ghost var made, tables := StartTables(ino, cpus);
      ghost var v := pool;
      EnoughBlocks(v0, v, r, num, made, numa, i0, ino, cpus);
      var e, phys;
      e, phys, ps := NewBlock(num, r);
      ghost var w := pool;
      PoolLengths(w);
      ghost var rest := head[r];
      ChainHeld(v, w, r, ps, rest);
      AfterDetach(v, w, r, ps, rest, inodes);
      err, news := FillBlocks(ino, vaddr, num, phys, clear, cpus, 3, ps);
      AllocAnswer(v0, v, w, numa, i0, ino, vaddr, num, cpus, made, err == OK, count);
      if err == OK {
        ChainTaken(v, w, pool, r, ps, rest, news);
        ChainContents(v0, v, r, ps, rest, clear, num, mem);
        if inodes[ino].pgAddr != 0 {
          TakesMore(v0, v, pool, {}, tables, news);
          NewTables(ino, vaddr, i0.blocks, num, tables, news);
          news := tables + news;
        }
      } else {
        SpendsChain(v0, v, w, pool, r, ps, rest, ino);
      }
    }

    /** `rdfs_find_data_block`: the leaf entry of a block whose pte table exists. */
    method FindDataBlock(ino: Ino, k: nat) returns (bp: Word)
      requires Valid() && ino in inodes
      requires Pte(ino, LookupSlot(k).a, LookupSlot(k).b) in pool.at
      ensures bp == Entry(pool, BlockUse(ino, LookupSlot(k)))
      ensures BlockUse(ino, LookupSlot(k)) in pool.at ==>
                bp == pool.at[BlockUse(ino, LookupSlot(k))] + PAGE_KERNEL &&
                Frame(bp) == pool.at[BlockUse(ino, LookupSlot(k))]
      ensures BlockUse(ino, LookupSlot(k)) !in pool.at ==> bp == 0
    {
      hide PoolOk, Forest, InodesOk;
      var s := LookupSlot(k);
      RootIs(pool.at, inodes, ino);
      PathTo(pool, ino, s);
      var first := inodes[ino].pgAddr;
      var second := PageMask(mem[first][s.a]);
      var third := PageMask(mem[second][s.b]);
      bp := mem[third][s.c];
    }

    /** `rdfs_rm_pte_range`: the blocks of a pte table up to its first empty entry, then the table. */
    method RmPteRange(p: nat, ghost u: Use)
      requires pool.numa == numa && pool.mem == mem && pool.head == head && pool.count == count && PoolOk(pool)
      requires u.Pte? && u in pool.at && p == pool.at[u] && SubtreeOk(pool, u)
      modifies this`mem, this`head, this`count, this`pool
      ensures pool.numa == numa && pool.mem == mem && pool.head == head && pool.count == count && PoolOk(pool)
      ensures Released(old(pool), pool, Scan(old(pool.at), u)) && AtMostTaken(old(count), count, 0)
    {
      hide PoolOk, Released, Scan, ScanTo, TableOk, AtMostTaken;
      ghost var v := pool;
      NoneTaken(v);
      SubtreeTable(v, u);
      ScanStart(v, u);
      var cnt := 0;
      while cnt < PTRS_PER_TABLE && mem[p][cnt] != 0
        invariant cnt <= PTRS_PER_TABLE && PoolOk(pool) && Released(v, pool, ScanTo(v.at, u, cnt))
        invariant AtMostTaken(v.count, count, 0)
        invariant pool.numa == numa && pool.mem == mem && pool.head == head && pool.count == count
        invariant forall j: nat :: j < cnt ==> Child(u, j) in v.at
        invariant cnt < PTRS_PER_TABLE ==>
                    p in mem && |mem[p]| == PTRS_PER_TABLE && (mem[p][cnt] == 0 <==> Child(u, cnt) !in v.at)
      {
        NextChild(v, pool, u, cnt);
        ghost var w := pool;
        var phys := Frame(mem[p][cnt]);
        if mem[p][cnt] % PAGE_SIZE == 0 {
          // an entry without flags would be a disk sector; page entries always have flags
          assert false;
        } else {
          FreeBlock(phys);
        }
        LeafScan(v.at, Child(u, cnt));
        TakenBoth(v.count, w.count, count, 0, 0);
        ScanMore(v, w, pool, u, cnt);
        cnt := cnt + 1;
        if cnt < PTRS_PER_TABLE {
          NextChild(v, pool, u, cnt);
        }
      }
      EndOfScan(v, pool, u, cnt);
      ghost var w := pool;
      FreeBlock(p);
      TakenBoth(v.count, w.count, count, 0, 0);
      ScanLast(v, w, pool, u, cnt);
    }

    /** `rdfs_rm_pmd_range`: the pte tables of a pmd table up to its first empty entry, then the table. */
    method RmPmdRange(p: nat, ghost u: Use)
      requires pool.numa == numa && pool.mem == mem && pool.head == head && pool.count == count && PoolOk(pool)
      requires u.Pmd? && u in pool.at && p == pool.at[u] && SubtreeOk(pool, u)
      modifies this`mem, this`head, this`count, this`pool
      ensures pool.numa == numa && pool.mem == mem && pool.head == head && pool.count == count && PoolOk(pool)
      ensures Released(old(pool), pool, Scan(old(pool.at), u)) && AtMostTaken(old(count), count, 0)
    {
      hide PoolOk, Released, Scan, ScanTo, TableOk, SubtreeOk, AtMostTaken;
      ghost var v := pool;
      NoneTaken(v);
      SubtreeTable(v, u);
      ScanStart(v, u);
      var cnt := 0;
      while cnt < PTRS_PER_TABLE && mem[p][cnt] != 0
        invariant cnt <= PTRS_PER_TABLE && PoolOk(pool) && Released(v, pool, ScanTo(v.at, u, cnt))
        invariant AtMostTaken(v.count, count, 0)
        invariant pool.numa == numa && pool.mem == mem && pool.head == head && pool.count == count
        invariant forall j: nat :: j < cnt ==> Child(u, j) in v.at
        invariant cnt < PTRS_PER_TABLE ==>
                    p in mem && |mem[p]| == PTRS_PER_TABLE && (mem[p][cnt] == 0 <==> Child(u, cnt) !in v.at)
      {
        NextChild(v, pool, u, cnt);
        NextSubtree(v, pool, u, cnt);
        ghost var w := pool;
        RmPteRange(PageMask(mem[p][cnt]), Child(u, cnt));
        TakenBoth(v.count, w.count, count, 0, 0);
        ScanMore(v, w, pool, u, cnt);
        cnt := cnt + 1;
        if cnt < PTRS_PER_TABLE {
          NextChild(v, pool, u, cnt);
        }
      }
      EndOfScan(v, pool, u, cnt);
      ghost var w := pool;
      FreeBlock(p);
      TakenBoth(v.count, w.count, count, 0, 0);
      ScanLast(v, w, pool, u, cnt);
    }

    /** `rdfs_rm_pg_table`: the pmd tables of the inode up to the first empty entry, then the top
        table; the inode has no tables afterwards. */
    method RmPgTable(ino: Ino)
      requires Valid() && ino in inodes && inodes[ino].pgAddr != 0
      modifies this`mem, this`head, this`count, this`pool, this`inodes
      ensures Valid() && inodes == old(inodes)[ino := old(inodes[ino]).(pgAddr := 0)]
      ensures TornDown(old(pool), pool, ino) && AtMostTaken(old(count), count, 0)
    {
      hide PoolOk, Forest, Released, Scan, ScanTo, TableOk, SubtreeOk, InodesOk, TornDown, Abandoned, AtMostTaken;
      ghost var v := pool;
      NoneTaken(v);
      ghost var u := Root(ino);
      RootIs(pool.at, inodes, ino);
      WholeTree(v, ino);
      SubtreeTable(v, u);
      ScanStart(v, u);
      var p := inodes[ino].pgAddr;
      var cnt := 0;
      while cnt < PTRS_PER_TABLE && mem[p][cnt] != 0
        invariant cnt <= PTRS_PER_TABLE && PoolOk(pool) && Released(v, pool, ScanTo(v.at, u, cnt))
        invariant AtMostTaken(v.count, count, 0)
        invariant pool.numa == numa && pool.mem == mem && pool.head == head && pool.count == count
        invariant inodes == old(inodes)
        invariant forall j: nat :: j < cnt ==> Child(u, j) in v.at
        invariant cnt < PTRS_PER_TABLE ==>
                    p in mem && |mem[p]| == PTRS_PER_TABLE && (mem[p][cnt] == 0 <==> Child(u, cnt) !in v.at)
      {
        NextChild(v, pool, u, cnt);
        NextSubtree(v, pool, u, cnt);
        ghost var w := pool;
        RmPmdRange(PageMask(mem[p][cnt]), Child(u, cnt));
        TakenBoth(v.count, w.count, count, 0, 0);
        ScanMore(v, w, pool, u, cnt);
        cnt := cnt + 1;
        if cnt < PTRS_PER_TABLE {
          NextChild(v, pool, u, cnt);
        }
      }
      EndOfScan(v, pool, u, cnt);
      ghost var w := pool;
      FreeBlock(p);
      TakenBoth(v.count, w.count, count, 0, 0);
      ScanLast(v, w, pool, u, cnt);
      ReleasedKeys(v, pool, Scan(v.at, u));
      Teardown(v, pool, old(inodes), ino);
      pool := Abandoned(pool, ino);
      inodes := inodes[ino := inodes[ino].(pgAddr := 0)];
    }

    /** `__rdfs_truncate_blocks`, once it decides to drop the blocks. */
    method TruncateBlocks(ino: Ino)
      requires Valid() && ino in inodes
      modifies this`mem, this`head, this`count, this`pool, this`inodes
      ensures Valid()
      ensures old(inodes[ino]).pgAddr == 0 ==> pool == old(pool) && inodes == old(inodes)
      ensures old(inodes[ino]).pgAddr != 0 ==>
                && TornDown(old(pool), pool, ino)
                && inodes == old(inodes)[ino := old(inodes[ino]).(pgAddr := 0, blocks := 0)]
      ensures AtMostTaken(old(count), count, 0)
    {
      hide PoolOk, Forest, InodesOk, TornDown, AtMostTaken;
      NoneTaken(pool);
      if inodes[ino].pgAddr == 0 {
        return;
      }
      RmPgTable(ino);
      ResetBlocks(pool, inodes, ino);
      inodes := inodes[ino := inodes[ino].(blocks := 0)];
    }
  }

  lemma AskOne(count: seq<nat>, r: nat)
    requires |count| == 2 && r < 2
    ensures Enough(count, multiset{r}) <==> count[r] > 0
    ensures count[r] > 0 ==> Left(count, multiset{r}) == count[r := count[r] - 1]
    ensures count[r] > 0 ==> AtMostTaken(count, Left(count, multiset{r}), 1)
  {
  }

  lemma AskRegion(count: seq<nat>, numa: bool, cpu: nat)
    requires |count| == 2
    ensures var r := CpuRegion(numa, cpu);
            && r < 2 && (Enough(count, multiset{r}) <==> count[r] > 0) && AtMostTaken(count, count, 1)
            && (count[r] > 0 ==> AtMostTaken(count, Left(count, multiset{r}), 1))
  {
  }

  /** Three pages in turn, each if there is one. */
  lemma AskThree(c0: seq<nat>, c1: seq<nat>, c2: seq<nat>, c3: seq<nat>, numa: bool, cpu1: nat, cpu2: nat, cpu3: nat,
                 got1: bool, got2: bool, got3: bool)
    requires |c0| == |c1| == |c2| == |c3| == 2
    requires var a := multiset{CpuRegion(numa, cpu1)};
             (got1 <==> Enough(c0, a)) && c1 == if got1 then Left(c0, a) else c0
    requires var a := multiset{CpuRegion(numa, cpu2)};
             (got2 <==> Enough(c1, a)) && c2 == if got2 then Left(c1, a) else c1
    requires var a := multiset{CpuRegion(numa, cpu3)};
             (got3 <==> Enough(c2, a)) && c3 == if got3 then Left(c2, a) else c2
    ensures var asks := multiset{CpuRegion(numa, cpu1), CpuRegion(numa, cpu2), CpuRegion(numa, cpu3)};
            (got1 && got2 && got3 <==> Enough(c0, asks)) && (got1 && got2 && got3 ==> c3 == Left(c0, asks))
    ensures AtMostTaken(c0, c3, 3)
  {
    hide Enough, Left, AtMostTaken, CpuRegion;
    var a, b, c := multiset{CpuRegion(numa, cpu1)}, multiset{CpuRegion(numa, cpu2)}, multiset{CpuRegion(numa, cpu3)};
    assert multiset{CpuRegion(numa, cpu1), CpuRegion(numa, cpu2), CpuRegion(numa, cpu3)} == a + b + c;
    AskMore(c0, a, b);
    AskMore(c0, a + b, c);
    AskRegion(c0, numa, cpu1);
    AskRegion(c1, numa, cpu2);
    AskRegion(c2, numa, cpu3);
    TakenBoth(c0, c1, c2, 1, 1);
    TakenBoth(c0, c2, c3, 2, 1);
  }

  lemma NoneTaken(v: Pool)
    requires PoolOk(v)
    ensures AtMostTaken(v.count, v.count, 0)
  {
  }

  lemma TakenNone(count: seq<nat>, n: nat)
    requires |count| == 2
    ensures AtMostTaken(count, count, n)
  {
  }

  /** Whether the lower table is missing does not depend on the upper one. */
  lemma SlotAsk(v: Pool, w: Pool, numa: bool, ino: Ino, s: Slot, cpu1: nat, cpu2: nat, news: set<Use>)
    requires PoolOk(v) && PoolOk(w) && Takes(v, w, {}, news) && news <= {Pmd(ino, s.a)}
    ensures var a, b := Ask(v.at.Keys, Pmd(ino, s.a), CpuRegion(numa, cpu1)),
                        Ask(w.at.Keys, Pte(ino, s.a, s.b), CpuRegion(numa, cpu2));
            && |v.count| == 2 && |w.count| == 2
            && SlotAsks(numa, v.at.Keys, ino, s, cpu1, cpu2) == a + b
            && (Enough(v.count, a + b) ==> Enough(v.count, a))
            && (Enough(v.count, a) ==> (Enough(Left(v.count, a), b) <==> Enough(v.count, a + b)))
            && (Enough(v.count, a + b) ==> Left(Left(v.count, a), b) == Left(v.count, a + b))
  {
    hide PoolOk, Takes, Bijective, Enough, Left;
    PoolLengths(v);
    PoolLengths(w);
    PoolParts(v);
    PoolParts(w);
    HeldKeys(v);
    TakesUses(v, w, {}, news, Pte(ino, s.a, s.b));
    AskMore(v.count, Ask(v.at.Keys, Pmd(ino, s.a), CpuRegion(numa, cpu1)),
            Ask(w.at.Keys, Pte(ino, s.a, s.b), CpuRegion(numa, cpu2)));
  }

  /** After `i` blocks from `v` to `w`: what was asked was there, and the tables above them are in place. */
  ghost predicate Filled(v: Pool, w: Pool, numa: bool, ino: Ino, vaddr: nat, k: nat, i: nat, cpus: nat -> nat,
                         from: nat)
  {
    var asks := FillAsks(numa, v.at.Keys, ino, vaddr, k, i, cpus, from);
    && Enough(v.count, asks) && w.count == Left(v.count, asks) && AtMostTaken(v.count, w.count, 2 * i)
    && SameTables(w.at.Keys, TablesFor(v.at.Keys, ino, vaddr, k, i), ino)
  }

  lemma FillStart(v: Pool, numa: bool, ino: Ino, vaddr: nat, k: nat, cpus: nat -> nat, from: nat, n: nat)
    requires PoolOk(v)
    ensures Filled(v, v, numa, ino, vaddr, k, 0, cpus, from) && AtMostTaken(v.count, v.count, n)
  {
    hide PoolOk;
    PoolLengths(v);
  }

  lemma FillStep(v: Pool, w: Pool, numa: bool, ino: Ino, vaddr: nat, k: nat, i: nat, num: nat, cpus: nat -> nat,
                 from: nat)
    requires i < num && Filled(v, w, numa, ino, vaddr, k, i, cpus, from)
    ensures var s := InsertSlot(vaddr, k + i);
            var asks := SlotAsks(numa, w.at.Keys, ino, s, cpus(from + 2 * i), cpus(from + 2 * i + 1));
            var sum := FillAsks(numa, v.at.Keys, ino, vaddr, k, i + 1, cpus, from);
            && (Enough(w.count, asks) <==> Enough(v.count, sum))
            && (Enough(w.count, asks) ==> Left(w.count, asks) == Left(v.count, sum))
            && (Enough(v.count, FillAsks(numa, v.at.Keys, ino, vaddr, k, num, cpus, from)) ==> Enough(v.count, sum))
  {
    NthSame(w, numa, v.at.Keys, ino, vaddr, k, i, cpus, from);
    hide Enough, Left, AtMostTaken, InsertSlot, NthAsks, SlotAsks;
    var was := FillAsks(numa, v.at.Keys, ino, vaddr, k, i, cpus, from);
    EnoughTwo(v.count, was);
    AskMore(v.count, was, NthAsks(numa, v.at.Keys, ino, vaddr, k, i, cpus, from));
    FillMono(v, numa, ino, vaddr, k, i + 1, num, cpus, from);
    hide FillAsks;
  }

  lemma NthSame(w: Pool, numa: bool, at: set<Use>, ino: Ino, vaddr: nat, k: nat, i: nat, cpus: nat -> nat, from: nat)
    requires SameTables(w.at.Keys, TablesFor(at, ino, vaddr, k, i), ino)
    ensures SlotAsks(numa, w.at.Keys, ino, InsertSlot(vaddr, k + i), cpus(from + 2 * i), cpus(from + 2 * i + 1)) ==
              NthAsks(numa, at, ino, vaddr, k, i, cpus, from)
  {
    hide InsertSlot, TablesFor, CpuRegion;
  }

  lemma FillTaken(v: Pool, w: Pool, count: seq<nat>, numa: bool, ino: Ino, vaddr: nat, k: nat, i: nat, num: nat,
                  cpus: nat -> nat, from: nat)
    requires i < num && Filled(v, w, numa, ino, vaddr, k, i, cpus, from) && AtMostTaken(w.count, count, 2)
    ensures AtMostTaken(v.count, count, 2 * (i + 1)) && AtMostTaken(v.count, count, 2 * num)
  {
    hide FillAsks, SameTables, TablesFor, Enough, Left;
  }

  lemma FillEnds(v: Pool, w: Pool, numa: bool, ino: Ino, vaddr: nat, k: nat, n: nat, cpus: nat -> nat, from: nat)
    requires Filled(v, w, numa, ino, vaddr, k, n, cpus, from)
    ensures var asks := FillAsks(numa, v.at.Keys, ino, vaddr, k, n, cpus, from);
            Enough(v.count, asks) && w.count == Left(v.count, asks) && AtMostTaken(v.count, w.count, 2 * n)
  {
    hide FillAsks, Enough, Left, AtMostTaken;
  }

  lemma EnoughTwo(count: seq<nat>, asks: multiset<nat>)
    requires Enough(count, asks)
    ensures |count| == 2
  {
  }

  lemma {:induction false} FillMono(v: Pool, numa: bool, ino: Ino, vaddr: nat, k: nat, i: nat, n: nat, cpus: nat -> nat,
                                    from: nat)
    requires i <= n && |v.count| == 2
    ensures Enough(v.count, FillAsks(numa, v.at.Keys, ino, vaddr, k, n, cpus, from)) ==>
              Enough(v.count, FillAsks(numa, v.at.Keys, ino, vaddr, k, i, cpus, from))
    decreases n
  {
    hide Enough, NthAsks;
    if i < n {
      FillMono(v, numa, ino, vaddr, k, i, n - 1, cpus, from);
      FillUnfold(numa, v.at.Keys, ino, vaddr, k, n - 1, cpus, from);
      hide FillAsks;
      AskLess(v.count, FillAsks(numa, v.at.Keys, ino, vaddr, k, n - 1, cpus, from),
              NthAsks(numa, v.at.Keys, ino, vaddr, k, n - 1, cpus, from));
    }
  }

  lemma FillUnfold(numa: bool, at: set<Use>, ino: Ino, vaddr: nat, k: nat, n: nat, cpus: nat -> nat, from: nat)
    ensures FillAsks(numa, at, ino, vaddr, k, n + 1, cpus, from) ==
              FillAsks(numa, at, ino, vaddr, k, n, cpus, from) + NthAsks(numa, at, ino, vaddr, k, n, cpus, from)
  {
    hide NthAsks;
  }

  lemma AskLess(count: seq<nat>, a: multiset<nat>, b: multiset<nat>)
    ensures Enough(count, a + b) ==> Enough(count, a)
  {
  }

  lemma FillNext(v: Pool, w: Pool, x: Pool, numa: bool, ino: Ino, vaddr: nat, k: nat, i: nat, cpus: nat -> nat,
                 from: nat,
                 temp: nat, more: set<Use>)
    requires PoolOk(w) && PoolOk(x) && Forest(x) && Filled(v, w, numa, ino, vaddr, k, i, cpus, from)
    requires Takes(w, x, {temp}, more) && AtMostTaken(v.count, x.count, 2 * (i + 1))
    requires var asks := FillAsks(numa, v.at.Keys, ino, vaddr, k, i + 1, cpus, from);
             Enough(v.count, asks) && x.count == Left(v.count, asks)
    requires var s := InsertSlot(vaddr, k + i);
             more <= {Pmd(ino, s.a), Pte(ino, s.a, s.b), BlockUse(ino, s)} && BlockUse(ino, s) in x.at
    ensures Filled(v, x, numa, ino, vaddr, k, i + 1, cpus, from)
  {
    hide PoolOk, Takes, Bijective, Forest, FillAsks, Enough, Left, AtMostTaken, InsertSlot;
    PoolParts(w);
    PoolParts(x);
    HeldKeys(w);
    var s := InsertSlot(vaddr, k + i);
    TablesAbove(x, ino, s);
    var was, now := TablesFor(v.at.Keys, ino, vaddr, k, i), TablesFor(v.at.Keys, ino, vaddr, k, i + 1);
    assert now == was + {Pmd(ino, s.a), Pte(ino, s.a, s.b)};
    forall u: Use | (u.Pmd? || u.Pte?) && u.ino == ino
      ensures u in x.at <==> u in now
    {
      TakesUses(w, x, {temp}, more, u);
    }
  }

  lemma TablesAbove(v: Pool, ino: Ino, s: Slot)
    requires Forest(v) && BlockUse(ino, s) in v.at
    ensures Pte(ino, s.a, s.b) in v.at && Pmd(ino, s.a) in v.at
  {
    assert TreeOk(v, ino);
    assert Parent(BlockUse(ino, s)) == Pte(ino, s.a, s.b) && Parent(Pte(ino, s.a, s.b)) == Pmd(ino, s.a);
  }

  /** What the loop over the detached pages is given, and the state it starts from. */
  datatype Job = Job(numa: bool, ino: Ino, vaddr: nat, ps: seq<nat>, clear: bool, cpus: nat -> nat, from: nat,
                     v: Pool, was: map<Ino, Inode>)

  ghost predicate JobOk(j: Job) {
    && PoolOk(j.v) && j.ino in j.was && AreaBase(j.was[j.ino].mode, j.vaddr)
    && j.was[j.ino].blocks + |j.ps| <= BlockLimit(j.was[j.ino].mode)
    && (forall i: nat :: i < |j.ps| ==> Held(j.ps[i]) in j.v.at)
    && (forall a: nat, b: nat :: a < b < |j.ps| ==> j.ps[a] != j.ps[b])
    && (forall i: nat {:trigger LinkOf(j.v, j.ps[i])} :: i + 1 < |j.ps| ==> LinkOf(j.v, j.ps[i]) == j.ps[i + 1])
  }

  /** The state of the loop after `i` turns. */
  ghost predicate Turned(j: Job, i: nat, w: Pool, now: map<Ino, Inode>, news: set<Use>) {
    && JobOk(j) && i <= |j.ps| && PoolOk(w) && Forest(w) && InodesOk(w.at, now)
    && var k := j.was[j.ino].blocks;
       && CountedTo(j.was, now, j.ino, k + i)
       && Takes(j.v, w, Pages(j.ps[..i]), news) && NewBlocks(j.ino, j.vaddr, k, i, news)
       && BlocksAt(w.at, j.ino, j.vaddr, k, j.ps[..i])
       && (forall n: nat :: i <= n < |j.ps| ==> j.ps[n] !in Pages(j.ps[..i]))
       && (i > 0 ==> j.was[j.ino].pgAddr != 0)
       && Filled(j.v, w, j.numa, j.ino, j.vaddr, k, i, j.cpus, j.from)
       && Contents(j.ps, j.clear, i, j.v.mem, w.mem)
  }

  lemma TurnStarts(j: Job)
    requires JobOk(j) && Forest(j.v) && InodesOk(j.v.at, j.was)
    ensures Turned(j, 0, j.v, j.was, {})
  {
    hide PoolOk, Forest, Takes, InodesOk, NewBlocks, BlocksAt, Pages, CountedTo, Filled, AreaBase, BlockLimit, LinkOf;
    var k := j.was[j.ino].blocks;
    PoolParts(j.v);
    CountedStart(j.was, j.ino);
    FillStart(j.v, j.numa, j.ino, j.vaddr, k, j.cpus, j.from, 0);
    NoBlocksYet(j.v, j.ino, j.vaddr, k, j.ps);
    ContentsStart(j);
  }

  lemma TurnReady(j: Job, i: nat, w: Pool, now: map<Ino, Inode>, news: set<Use>)
    requires Turned(j, i, w, now, news) && i < |j.ps|
    ensures PoolOk(w) && Forest(w) && InodesOk(w.at, now)
    ensures j.ino in now && j.ino in j.was && now[j.ino].blocks == j.was[j.ino].blocks + i
    ensures now[j.ino].pgAddr == j.was[j.ino].pgAddr
    ensures AreaBase(now[j.ino].mode, j.vaddr) && now[j.ino].blocks < BlockLimit(now[j.ino].mode)
    ensures var p := j.ps[i];
            && Held(p) in w.at && p in w.mem && |w.mem[p]| == PTRS_PER_TABLE
            && (i + 1 < |j.ps| ==> w.mem[p][0] == j.ps[i + 1])
  {
    hide PoolOk, Forest, Takes, InodesOk, NewBlocks, BlocksAt, Pages, CountedTo, Filled, AreaBase, BlockLimit, LinkOf;
    CountedFacts(j.was, now, j.ino, j.was[j.ino].blocks + i);
    ChainWaits(j.v, w, Pages(j.ps[..i]), news, j.ps[i]);
    HeldShapes(w, j.ps[i]);
    LinkIs(w, j.ps[i]);
  }

  /** What an added block leaves. */
  lemma TurnNext(j: Job, i: nat, w: Pool, now: map<Ino, Inode>, news: set<Use>, x: Pool, next: map<Ino, Inode>,
                 more: set<Use>)
    requires Turned(j, i, w, now, news) && i < |j.ps| && PoolOk(x) && Forest(x) && InodesOk(x.at, next)
    requires j.ino in now && CountedTo(now, next, j.ino, now[j.ino].blocks + 1) && now[j.ino].pgAddr != 0
    requires Takes(w, x, {j.ps[i]}, more) && AtMostTaken(w.count, x.count, 2)
    requires j.ps[i] in x.mem && j.ps[i] in w.mem
    requires x.mem[j.ps[i]] == if j.clear then ZeroPage() else w.mem[j.ps[i]]
    requires var s := InsertSlot(j.vaddr, now[j.ino].blocks);
             && more <= {Pmd(j.ino, s.a), Pte(j.ino, s.a, s.b), BlockUse(j.ino, s)}
             && BlockUse(j.ino, s) in x.at && x.at[BlockUse(j.ino, s)] == j.ps[i]
             && var asks := SlotAsks(j.numa, w.at.Keys, j.ino, s, j.cpus(j.from + 2 * i), j.cpus(j.from + 2 * i + 1));
                Enough(w.count, asks) && x.count == Left(w.count, asks)
    ensures Turned(j, i + 1, x, next, news + more)
  {
    hide PoolOk, Forest, Takes, InodesOk, NewBlocks, BlocksAt, Pages, CountedTo, Filled, AreaBase, BlockLimit, LinkOf,
         SlotAsks, FillAsks, Enough, Left, AtMostTaken, InsertSlot, BlockUse, Contents, ZeroPage;
    var k := j.was[j.ino].blocks;
    ContentsNext(j, i, w, now, news, x, more);
    CountedFacts(j.was, now, j.ino, k + i);
    FillStep(j.v, w, j.numa, j.ino, j.vaddr, k, i, |j.ps|, j.cpus, j.from);
    FillTaken(j.v, w, x.count, j.numa, j.ino, j.vaddr, k, i, |j.ps|, j.cpus, j.from);
    FillNext(j.v, w, x, j.numa, j.ino, j.vaddr, k, i, j.cpus, j.from, j.ps[i], more);
    TakesNext(j.v, w, x, j.ps, i, news, more);
    NewBlocksNext(w, x, j.ino, j.vaddr, k, j.ps, i, news, more);
    CountedMore(j.was, now, next, j.ino, k + i);
  }

  lemma TurnFails(j: Job, i: nat, w: Pool, now: map<Ino, Inode>, news: set<Use>, x: Pool, next: map<Ino, Inode>)
    requires Turned(j, i, w, now, news) && i < |j.ps| && Spends(w, x, {}, j.ino)
    requires j.ino in now && CountedTo(now, next, j.ino, now[j.ino].blocks + 1) && AtMostTaken(w.count, x.count, 2)
    requires now[j.ino].pgAddr != 0 ==>
               var s := InsertSlot(j.vaddr, now[j.ino].blocks);
               var asks := SlotAsks(j.numa, w.at.Keys, j.ino, s, j.cpus(j.from + 2 * i), j.cpus(j.from + 2 * i + 1));
               !Enough(w.count, asks)
    ensures j.ino in j.was && next.Keys == j.was.Keys && Spends(j.v, x, Pages(j.ps), j.ino)
    ensures AtMostTaken(j.v.count, x.count, 2 * |j.ps|)
    ensures var asks := FillAsks(j.numa, j.v.at.Keys, j.ino, j.vaddr, j.was[j.ino].blocks, |j.ps|, j.cpus, j.from);
            j.was[j.ino].pgAddr == 0 || !Enough(j.v.count, asks)
  {
    hide PoolOk, Forest, Takes, InodesOk, NewBlocks, BlocksAt, Pages, CountedTo, Filled, AreaBase, BlockLimit, LinkOf,
         SlotAsks, FillAsks, Enough, Left, AtMostTaken, InsertSlot, Spends;
    var k := j.was[j.ino].blocks;
    CountedFacts(j.was, now, j.ino, k + i);
    CountedFacts(now, next, j.ino, k + i + 1);
    FillStep(j.v, w, j.numa, j.ino, j.vaddr, k, i, |j.ps|, j.cpus, j.from);
    FillTaken(j.v, w, x.count, j.numa, j.ino, j.vaddr, k, i, |j.ps|, j.cpus, j.from);
    SpendsSome(j.v, w, x, j.ps, i, news, j.ino, j.vaddr, k);
  }

  lemma ContentsStart(j: Job)
    requires JobOk(j)
    ensures Contents(j.ps, j.clear, 0, j.v.mem, j.v.mem)
  {
    forall i: nat | i < |j.ps|
      ensures j.ps[i] in j.v.mem
    {
      assert Held(j.ps[i]) in j.v.at;
      HeldShapes(j.v, j.ps[i]);
    }
  }

  lemma ContentsNext(j: Job, i: nat, w: Pool, now: map<Ino, Inode>, news: set<Use>, x: Pool, more: set<Use>)
    requires Turned(j, i, w, now, news) && i < |j.ps| && Takes(w, x, {j.ps[i]}, more)
    requires j.ps[i] in x.mem && j.ps[i] in w.mem
    requires x.mem[j.ps[i]] == if j.clear then ZeroPage() else w.mem[j.ps[i]]
    ensures Contents(j.ps, j.clear, i + 1, j.v.mem, x.mem)
  {
    hide PoolOk, Forest, Takes, InodesOk, NewBlocks, Pages, CountedTo, Filled, AreaBase, BlockLimit, LinkOf, ZeroPage,
         Contents, InsertSlot;
    forall n: nat | n < |j.ps| && n != i
      ensures j.ps[n] != j.ps[i] && j.ps[n] in w.owner && (w.owner[j.ps[n]].Held? || w.owner[j.ps[n]].Data?)
    {
      PoolParts(w);
      if n < i {
        assert j.ps[..i][n] == j.ps[n];
        var u := NthBlock(j.ino, j.vaddr, j.was[j.ino].blocks, n);
        assert u in w.at && w.at[u] == j.ps[n];
      } else {
        ChainWaits(j.v, w, Pages(j.ps[..i]), news, j.ps[n]);
        PageOfHold(w, j.ps[n]);
      }
    }
    hide Turned;
    OneMorePage(j.ps, j.clear, i, j.v.mem, w, x, more);
  }

  lemma SameKeepsFree(v: Pool)
    requires PoolOk(v)
    ensures FreeKept(v, v)
  {
    PoolParts(v);
  }

  /** The detached pages were free all along. */
  lemma ChainContents(v0: Pool, v: Pool, r: nat, ps: seq<nat>, rest: nat, clear: bool, n: nat,
                      now: map<nat, seq<Word>>)
    requires FreeKept(v0, v) && ChainOf(v, r, ps, rest) && Contents(ps, clear, n, v.mem, now)
    ensures Contents(ps, clear, n, v0.mem, now)
  {
    forall j: nat | j < |ps|
      ensures ps[j] in v0.mem && v0.mem[ps[j]] == v.mem[ps[j]]
    {
      assert v.owner[ps[j]].Free?;
    }
  }

  lemma TurnEnds(j: Job, w: Pool, now: map<Ino, Inode>, news: set<Use>)
    requires Turned(j, |j.ps|, w, now, news)
    ensures PoolOk(w) && Forest(w) && InodesOk(w.at, now) && j.ino in j.was && j.ino in now
    ensures var k, n := j.was[j.ino].blocks, |j.ps|;
            && now == j.was[j.ino := j.was[j.ino].(blocks := k + n)] && (n > 0 ==> now[j.ino].pgAddr != 0)
            && now[j.ino].pgAddr == j.was[j.ino].pgAddr
            && Takes(j.v, w, Pages(j.ps), news) && NewBlocks(j.ino, j.vaddr, k, n, news)
            && BlocksAt(w.at, j.ino, j.vaddr, k, j.ps) && Contents(j.ps, j.clear, n, j.v.mem, w.mem)
            && var asks := FillAsks(j.numa, j.v.at.Keys, j.ino, j.vaddr, k, n, j.cpus, j.from);
               Enough(j.v.count, asks) && w.count == Left(j.v.count, asks) && AtMostTaken(j.v.count, w.count, 2 * n)
  {
    hide PoolOk, Forest, Takes, InodesOk, NewBlocks, BlocksAt, Pages, CountedTo, Filled, AreaBase, BlockLimit, LinkOf,
         FillAsks, Enough, Left, AtMostTaken;
    var k, n := j.was[j.ino].blocks, |j.ps|;
    assert j.ps[..n] == j.ps;
    CountedFacts(j.was, now, j.ino, k + n);
    FillEnds(j.v, w, j.numa, j.ino, j.vaddr, k, n, j.cpus, j.from);
  }

  /** From `v` to `w` the first tables were made, if there were pages and the inode had none. */
  ghost predicate Readied(v: Pool, w: Pool, numa: bool, i: Inode, ino: Ino, cpus: nat -> nat, made: bool) {
    var asks := InitAsks(numa, i, cpus);
    && (made <==> Enough(v.count, asks)) && AtMostTaken(v.count, w.count, 3)
    && (made ==> w.count == Left(v.count, asks) && SameTables(w.at.Keys, InitTables(v.at.Keys, i, ino), ino))
  }

  lemma ReadyAlready(v: Pool, numa: bool, i: Inode, ino: Ino, cpus: nat -> nat)
    requires PoolOk(v) && i.pgAddr != 0
    ensures Readied(v, v, numa, i, ino, cpus, true)
  {
    hide PoolOk;
    PoolLengths(v);
    AskNone(v.count);
  }

  lemma ReadyMade(v: Pool, w: Pool, numa: bool, i: Inode, ino: Ino, cpus: nat -> nat, made: bool)
    requires PoolOk(v) && PoolOk(w) && i.pgAddr == 0 && AtMostTaken(v.count, w.count, 3)
    requires made ==> Takes(v, w, {}, {Root(ino), Pmd(ino, 0), Pte(ino, 0, 0)})
    requires var asks := multiset{CpuRegion(numa, cpus(0)), CpuRegion(numa, cpus(1)), CpuRegion(numa, cpus(2))};
             (made <==> Enough(v.count, asks)) && (made ==> w.count == Left(v.count, asks))
    ensures Readied(v, w, numa, i, ino, cpus, made)
  {
    hide PoolOk, Takes, Bijective, Enough, Left, AtMostTaken, CpuRegion;
    if made {
      PoolParts(v);
      PoolParts(w);
      HeldKeys(v);
      forall u: Use | (u.Pmd? || u.Pte?) && u.ino == ino
        ensures u in w.at <==> u in InitTables(v.at.Keys, i, ino)
      {
        TakesUses(v, w, {}, {Root(ino), Pmd(ino, 0), Pte(ino, 0, 0)}, u);
      }
    }
  }

  lemma RootNotNull(v: Pool, ino: Ino)
    requires PoolOk(v) && Root(ino) in v.at
    ensures v.at[Root(ino)] != 0
  {
    UseShape(v, Root(ino));
  }

  lemma DetachCounts(v: Pool, w: Pool, r: nat, n: nat)
    requires Detached(v, w, r, n)
    ensures r < 2 && |v.count| == 2 && v.count[r] >= n && w.count == v.count[r := v.count[r] - n]
  {
  }

  lemma DetachTables(v: Pool, w: Pool, r: nat, n: nat, ino: Ino)
    requires PoolOk(v) && PoolOk(w) && Detached(v, w, r, n)
    ensures SameTables(w.at.Keys, v.at.Keys, ino)
  {
    hide PoolOk;
    PoolParts(v);
    PoolParts(w);
    forall u: Use | (u.Pmd? || u.Pte?) && u.ino == ino
      ensures u in w.at <==> u in v.at
    {
      if u in v.at {
        assert v.owner[v.at[u]] == u && w.owner[v.at[u]] == u;
      }
      if u in w.at {
        assert w.owner[w.at[u]] == u && v.owner[w.at[u]] == u;
      }
    }
  }

  lemma {:induction false} FillSame(numa: bool, a: set<Use>, b: set<Use>, ino: Ino, vaddr: nat, k: nat, n: nat,
                                    cpus: nat -> nat, from: nat)
    requires SameTables(a, b, ino)
    ensures FillAsks(numa, a, ino, vaddr, k, n, cpus, from) == FillAsks(numa, b, ino, vaddr, k, n, cpus, from)
    ensures SameTables(TablesFor(a, ino, vaddr, k, n), TablesFor(b, ino, vaddr, k, n), ino)
    decreases n
  {
    if n > 0 {
      var i := n - 1;
      FillSame(numa, a, b, ino, vaddr, k, i, cpus, from);
      FillUnfold(numa, a, ino, vaddr, k, i, cpus, from);
      FillUnfold(numa, b, ino, vaddr, k, i, cpus, from);
      hide FillAsks, InsertSlot, SlotAsks, CpuRegion;
      SlotSame(numa, TablesFor(a, ino, vaddr, k, i), TablesFor(b, ino, vaddr, k, i), ino, InsertSlot(vaddr, k + i),
               cpus(from + 2 * i), cpus(from + 2 * i + 1));
    }
  }

  lemma SlotSame(numa: bool, a: set<Use>, b: set<Use>, ino: Ino, s: Slot, cpu1: nat, cpu2: nat)
    requires SameTables(a, b, ino)
    ensures SlotAsks(numa, a, ino, s, cpu1, cpu2) == SlotAsks(numa, b, ino, s, cpu1, cpu2)
  {
    hide CpuRegion;
  }

  lemma EnoughBlocks(v: Pool, w: Pool, r: nat, num: nat, made: bool, numa: bool, i: Inode, ino: Ino, cpus: nat -> nat)
    requires PoolOk(v) && PoolOk(w) && Readied(v, w, numa, i, ino, cpus, made) && r < 2
    requires v.count[r] >= num + if i.pgAddr == 0 then 3 else 0
    ensures |w.count| == 2 && w.count[r] >= num
  {
    hide PoolOk, CpuRegion;
    PoolLengths(v);
    PoolLengths(w);
  }

  lemma AskBlocks(count: seq<nat>, numa: bool, ino: Ino, num: nat)
    requires |count| == 2 && count[InodeRegion(numa, ino)] >= num
    ensures Enough(count, BlockAsks(numa, ino, num))
    ensures var r := InodeRegion(numa, ino); Left(count, BlockAsks(numa, ino, num)) == count[r := count[r] - num]
    ensures AtMostTaken(count, Left(count, BlockAsks(numa, ino, num)), num)
  {
  }

  lemma {:induction false} FillBound(numa: bool, at: set<Use>, ino: Ino, vaddr: nat, k: nat, n: nat, cpus: nat -> nat,
                                     from: nat)
    ensures var asks := FillAsks(numa, at, ino, vaddr, k, n, cpus, from);
            asks[0] <= 2 * n && asks[1] <= if numa then 2 * n else 0
    decreases n
  {
    hide NthAsks, TablesFor;
    if n > 0 {
      FillBound(numa, at, ino, vaddr, k, n - 1, cpus, from);
      FillUnfold(numa, at, ino, vaddr, k, n - 1, cpus, from);
      NthBound(numa, at, ino, vaddr, k, n - 1, cpus, from);
      hide FillAsks;
    }
  }

  lemma NthBound(numa: bool, at: set<Use>, ino: Ino, vaddr: nat, k: nat, i: nat, cpus: nat -> nat, from: nat)
    ensures var asks := NthAsks(numa, at, ino, vaddr, k, i, cpus, from);
            asks[0] <= 2 && asks[1] <= if numa then 2 else 0
  {
    hide TablesFor, InsertSlot;
  }

  /** With enough pages on every list the first tables can be made. */
  lemma PlentyInit(numa: bool, count: seq<nat>, i: Inode, cpus: nat -> nat)
    requires Plenty(numa, count, 3)
    ensures Enough(count, multiset{CpuRegion(numa, cpus(0)), CpuRegion(numa, cpus(1)), CpuRegion(numa, cpus(2))})
    ensures Enough(count, InitAsks(numa, i, cpus))
  {
  }

  /** With enough pages on every list an allocation succeeds. */
  lemma PlentyAlloc(numa: bool, count: seq<nat>, at: set<Use>, i: Inode, ino: Ino, vaddr: nat, num: nat,
                    cpus: nat -> nat)
    requires Plenty(numa, count, 3 + 3 * num)
    ensures Enough(count, AllocAsks(numa, at, i, ino, vaddr, num, cpus))
    ensures count[InodeRegion(numa, ino)] >= num + 3
  {
    var a, b := InitAsks(numa, i, cpus), BlockAsks(numa, ino, num);
    var c := FillAsks(numa, InitTables(at, i, ino), ino, vaddr, i.blocks, num, cpus, 3);
    FillBound(numa, InitTables(at, i, ino), ino, vaddr, i.blocks, num, cpus, 3);
    assert a[0] <= 3 && a[1] <= if numa then 3 else 0;
    assert b[0] <= num && b[1] <= if numa then num else 0;
    hide InitAsks, BlockAsks, FillAsks, InitTables;
  }

  /** When an allocation succeeds, from its three parts. */
  lemma AllocAnswer(v0: Pool, v: Pool, w: Pool, numa: bool, i: Inode, ino: Ino, vaddr: nat, num: nat, cpus: nat -> nat,
                    made: bool, ok: bool, count: seq<nat>)
    requires PoolOk(v0) && PoolOk(v) && PoolOk(w) && Readied(v0, v, numa, i, ino, cpus, made)
    requires Detached(v, w, InodeRegion(numa, ino), num)
    requires var asks := FillAsks(numa, w.at.Keys, ino, vaddr, i.blocks, num, cpus, 3);
             && (ok <==> num == 0 || (made && Enough(w.count, asks)))
             && (ok ==> Enough(w.count, asks) && count == Left(w.count, asks))
    requires AtMostTaken(w.count, count, 2 * num)
    ensures var asks := AllocAsks(numa, v0.at.Keys, i, ino, vaddr, num, cpus);
            && (ok <==> num == 0 || Enough(v0.count, asks)) && (ok && made <==> Enough(v0.count, asks))
            && (Enough(v0.count, asks) ==> count == Left(v0.count, asks))
    ensures AtMostTaken(v0.count, count, 3 + 3 * num)
  {
    hide PoolOk, Detached, Enough, Left, AtMostTaken, FillAsks, InitAsks, BlockAsks, SameTables, InodeRegion,
         InitTables;
    var at, r := InitTables(v0.at.Keys, i, ino), InodeRegion(numa, ino);
    PoolLengths(v0);
    PoolLengths(v);
    DetachCounts(v, w, r, num);
    DetachTables(v, w, r, num, ino);
    if made {
      SameTablesThen(w.at.Keys, v.at.Keys, at, ino);
      FillSame(numa, w.at.Keys, at, ino, vaddr, i.blocks, num, cpus, 3);
    }
    AskBlocks(v.count, numa, ino, num);
    AllocCounts(v0.count, v.count, w.count, count, InitAsks(numa, i, cpus), BlockAsks(numa, ino, num),
                FillAsks(numa, at, ino, vaddr, i.blocks, num, cpus, 3),
                FillAsks(numa, w.at.Keys, ino, vaddr, i.blocks, num, cpus, 3), made, ok, num);
  }

  lemma SameTablesThen(a: set<Use>, b: set<Use>, c: set<Use>, ino: Ino)
    requires SameTables(a, b, ino) && SameTables(b, c, ino)
    ensures SameTables(a, c, ino)
  {
  }

  lemma AllocCounts(c0: seq<nat>, c1: seq<nat>, c2: seq<nat>, c3: seq<nat>, a: multiset<nat>, b: multiset<nat>,
                    c: multiset<nat>, d: multiset<nat>, made: bool, ok: bool, num: nat)
    requires |c0| == 2 && (made <==> Enough(c0, a)) && (made ==> c1 == Left(c0, a) && c == d) && AtMostTaken(c0, c1, 3)
    requires Enough(c1, b) && c2 == Left(c1, b) && AtMostTaken(c1, c2, num)
    requires (ok <==> num == 0 || (made && Enough(c2, d))) && (ok ==> Enough(c2, d) && c3 == Left(c2, d))
    requires AtMostTaken(c2, c3, 2 * num)
    ensures (ok <==> num == 0 || Enough(c0, a + b + c)) && (ok && made <==> Enough(c0, a + b + c))
    ensures Enough(c0, a + b + c) ==> c3 == Left(c0, a + b + c)
    ensures AtMostTaken(c0, c3, 3 + 3 * num)
  {
    hide Enough, Left, AtMostTaken;
    AskLess(c0, a, b);
    AskLess(c0, a + b, c);
    AskMore(c0, a, b);
    AskMore(c0, a + b, c);
    TakenBoth(c0, c1, c2, 3, num);
    TakenBoth(c0, c2, c3, 3 + num, 2 * num);
    assert 3 + num + 2 * num == 3 + 3 * num;
  }

  lemma TakenBoth(a: seq<nat>, b: seq<nat>, c: seq<nat>, m: nat, n: nat)
    requires AtMostTaken(a, b, m) && AtMostTaken(b, c, n)
    ensures AtMostTaken(a, c, m + n)
  {
  }

  /** Asking twice is asking for the sum. */
  lemma AskMore(count: seq<nat>, a: multiset<nat>, b: multiset<nat>)
    requires |count| == 2
    ensures Enough(count, a + b) ==> Enough(count, a)
    ensures Enough(count, a) ==> (Enough(Left(count, a), b) <==> Enough(count, a + b))
    ensures Enough(count, a + b) ==> Left(Left(count, a), b) == Left(count, a + b)
  {
  }

  lemma AskNone(count: seq<nat>)
    requires |count| == 2
    ensures Enough(count, multiset{}) && Left(count, multiset{}) == count
  {
  }

  lemma NoRoot(v: Pool, inodes: map<Ino, Inode>, ino: Ino)
    requires PoolOk(v) && InodesOk(v.at, inodes) && ino in inodes && inodes[ino].pgAddr == 0
    ensures Root(ino) !in v.at
  {
  }

  lemma Losing(v: Pool, w: Pool, x: Pool, page: nat)
    requires PoolOk(w) && PoolOk(v) && Lost(v, w) && (if page == 0 then x == w else Zeroing(w, x, page))
    ensures Lost(v, x)
  {
    if page != 0 {
      ZeroingLoses(v, w, x, page);
    }
  }

  lemma HeldShapes(v: Pool, p: nat)
    requires PoolOk(v) && Held(p) in v.at
    ensures p in v.mem && |v.mem[p]| == PTRS_PER_TABLE && p in v.owner && v.owner[p] == Held(p)
  {
  }

  /** The uses other than free and held ones are the same after a loss. */
  lemma LostUses(v: Pool, w: Pool, u: Use)
    requires Bijective(v) && Bijective(w) && Lost(v, w) && !u.Free? && !u.Held?
    ensures (u in v.at <==> u in w.at) && (u in v.at ==> w.at[u] == v.at[u])
  {
    if u in v.at {
      assert v.owner[v.at[u]] == u;
    }
    if u in w.at {
      assert w.owner[w.at[u]] == u;
    }
  }

  lemma LostInodes(v: Pool, w: Pool, inodes: map<Ino, Inode>)
    requires PoolOk(v) && PoolOk(w) && Lost(v, w) && InodesOk(v.at, inodes)
    ensures InodesOk(w.at, inodes)
  {
    forall u: Use | !u.Free? && !u.Held?
      ensures (u in v.at <==> u in w.at) && (u in v.at ==> w.at[u] == v.at[u])
    {
      LostUses(v, w, u);
    }
  }

  /** The inodes when `ino` has `n` blocks. */
  ghost function Counted(m: map<Ino, Inode>, ino: Ino, n: nat): (r: map<Ino, Inode>)
    requires ino in m
    ensures r.Keys == m.Keys && r[ino].blocks == n && r[ino].mode == m[ino].mode && r[ino].pgAddr == m[ino].pgAddr
  {
    m[ino := m[ino].(blocks := n)]
  }

  ghost predicate CountedTo(was: map<Ino, Inode>, now: map<Ino, Inode>, ino: Ino, n: nat) {
    ino in was && now == Counted(was, ino, n)
  }

  lemma CountedStart(m: map<Ino, Inode>, ino: Ino)
    requires ino in m
    ensures CountedTo(m, m, ino, m[ino].blocks)
  {
  }

  lemma CountedFacts(was: map<Ino, Inode>, now: map<Ino, Inode>, ino: Ino, n: nat)
    requires CountedTo(was, now, ino, n)
    ensures ino in was && now.Keys == was.Keys && now == was[ino := was[ino].(blocks := n)]
    ensures now[ino].blocks == n && now[ino].mode == was[ino].mode && now[ino].pgAddr == was[ino].pgAddr
  {
  }

  lemma CountedMore(was: map<Ino, Inode>, now: map<Ino, Inode>, next: map<Ino, Inode>, ino: Ino, n: nat)
    requires CountedTo(was, now, ino, n) && CountedTo(now, next, ino, n + 1)
    ensures CountedTo(was, next, ino, n + 1)
  {
  }

  lemma LosesThree(v: Pool, v1: Pool, v2: Pool, v3: Pool, p: nat, q: nat, r: nat)
    requires PoolOk(v) && PoolOk(v1) && PoolOk(v2)
    requires (if p == 0 then v1 == v else Zeroing(v, v1, p)) && (if q == 0 then v2 == v1 else Zeroing(v1, v2, q))
    requires if r == 0 then v3 == v2 else Zeroing(v2, v3, r)
    ensures Lost(v, v3)
  {
    hide PoolOk, Zeroing, Lost;
    PoolParts(v);
    LostNothing(v);
    Losing(v, v, v1, p);
    Losing(v, v1, v2, q);
    Losing(v, v2, v3, r);
  }

  lemma InitTakes(v: Pool, v1: Pool, v2: Pool, v3: Pool, pud: nat, pmd: nat, pte: nat, inodes: map<Ino, Inode>,
                  ino: Ino)
    requires PoolOk(v) && PoolOk(v1) && PoolOk(v2) && PoolOk(v3) && Forest(v3) && Root(ino) !in v.at && Forest(v)
    requires Zeroing(v, v1, pud) && Zeroing(v1, v2, pmd) && Zeroing(v2, v3, pte) && InodesOk(v.at, inodes)
    requires ino in inodes
    ensures {Held(pud), Held(pmd), Held(pte)} <= v3.at.Keys && pud != pmd && pmd != pte && pud != pte
    ensures pmd in v3.mem && |v3.mem[pmd]| == PTRS_PER_TABLE && pud in v3.mem && |v3.mem[pud]| == PTRS_PER_TABLE
    ensures Zeroed(v3.mem[pud]) && Root(ino) !in v3.at
    ensures var w := FirstTables(v3, pud, pmd, pte, ino);
            && PoolOk(w) && Forest(w) && Takes(v, w, {}, {Root(ino), Pmd(ino, 0), Pte(ino, 0, 0)})
            && Root(ino) in w.at && w.at[Root(ino)] == pud && InodesOk(w.at, inodes[ino := inodes[ino].(pgAddr := pud)])
            && w.mem == v3.mem[pmd := Put(v3.mem[pmd], 0, pte + PAGE_TABLE)]
                              [pud := Put(v3.mem[pud], 0, pmd + PAGE_TABLE)]
            && w.head == v3.head && w.count == v3.count && w.numa == v3.numa
  {
    hide PoolOk, Forest, Zeroing, Zeroed, Takes, InodesOk, FirstTables, Put;
    FirstTablesTake(v, v1, v2, v3, pud, pmd, pte, ino);
    HeldShapes(v3, pmd);
    HeldShapes(v3, pud);
    InitInodes(v, FirstTables(v3, pud, pmd, pte, ino), inodes, inodes[ino := inodes[ino].(pgAddr := pud)], ino, pud);
  }

  lemma InitInodes(v: Pool, w: Pool, was: map<Ino, Inode>, now: map<Ino, Inode>, ino: Ino, pud: nat)
    requires PoolOk(v) && PoolOk(w) && InodesOk(v.at, was) && ino in was
    requires Takes(v, w, {}, {Root(ino), Pmd(ino, 0), Pte(ino, 0, 0)})
    requires Root(ino) in w.at && w.at[Root(ino)] == pud && now == was[ino := was[ino].(pgAddr := pud)]
    ensures InodesOk(w.at, now)
  {
    hide PoolOk, Bijective, Takes, InodesOk;
    PoolParts(v);
    PoolParts(w);
    HeldKeys(v);
    forall u: Use | u.Root? || u.Data?
      ensures u in w.at <==> u == Root(ino) || u in v.at
      ensures u in v.at && u != Root(ino) ==> w.at[u] == v.at[u]
    {
      TakesUses(v, w, {}, {Root(ino), Pmd(ino, 0), Pte(ino, 0, 0)}, u);
    }
    RootedInodes(v.at, w.at, was, now, ino, pud);
  }

  lemma RootedInodes(at: map<Use, nat>, bt: map<Use, nat>, was: map<Ino, Inode>, now: map<Ino, Inode>, ino: Ino,
                     pud: nat)
    requires InodesOk(at, was) && ino in was && now == was[ino := was[ino].(pgAddr := pud)]
    requires Root(ino) in bt && bt[Root(ino)] == pud
    requires forall u: Use :: u.Root? || u.Data? ==> (u in bt <==> u == Root(ino) || u in at)
    requires forall u: Use :: (u.Root? || u.Data?) && u in at && u != Root(ino) ==> bt[u] == at[u]
    ensures InodesOk(bt, now)
  {
  }

  /** The entry of a use in its table is empty exactly when the use does not exist, and gives
      its page otherwise. */
  lemma EntryOf(v: Pool, u: Use)
    requires PoolOk(v) && Forest(v) && HasParent(u) && IsTable(u) && Parent(u) in v.at && Index(u) < PTRS_PER_TABLE
    ensures v.at[Parent(u)] in v.mem && |v.mem[v.at[Parent(u)]]| == PTRS_PER_TABLE
    ensures var e := v.mem[v.at[Parent(u)]][Index(u)];
            && (e == 0 <==> u !in v.at)
            && (u in v.at ==> Frame(e) == PageMask(e) == v.at[u])
  {
    var t := Parent(u);
    assert TreeOk(v, t.ino) && TableOk(v, t);
    assert v.mem[v.at[t]][Index(u)] == Entry(v, Child(t, Index(u)));
    if u in v.at {
      EntryFrames(v.at[u]);
    }
  }

  lemma TakesPlaces(v: Pool, w: Pool, from: set<nat>, news: set<Use>, u: Use)
    requires PoolOk(v) && PoolOk(w) && Takes(v, w, from, news) && u in news && HasParent(u) && Parent(u) in v.at
    ensures u in w.at && Parent(u) in w.at && w.at[Parent(u)] == v.at[Parent(u)]
  {
    TakesUses(v, w, from, news, Parent(u));
  }

  lemma RootAt(v: Pool, ino: Ino)
    requires PoolOk(v) && Forest(v) && Root(ino) in v.at
    ensures Pmd(ino, 0) in v.at && Pte(ino, 0, 0) in v.at && v.at[Root(ino)] in v.mem
    ensures |v.mem[v.at[Root(ino)]]| == PTRS_PER_TABLE
  {
    assert TreeOk(v, ino);
  }

  lemma SlotBounds(m: Mode, vaddr: nat, k: nat)
    requires AreaBase(m, vaddr) && k < BlockLimit(m)
    ensures var s := InsertSlot(vaddr, k);
            && s.a < PTRS_PER_TABLE && s.b < PTRS_PER_TABLE && s.c < PTRS_PER_TABLE
            && (InDirAreas(vaddr + k * PAGE_SIZE) ==> s.a == 0 && s.b == 0)
  {
    if !Small(m) && vaddr != 0 {
      InsertMeetsLookupIff(m, vaddr, k);
      var j := (vaddr - RDFS_START) / MAX_FILE_SIZE;
      assert vaddr == RDFS_START + j * MAX_FILE_SIZE;
      FileAddress(j, k);
    }
  }

  lemma InsertLast(v: Pool, w: Pool, news: set<Use>, u: Use, p: nat)
    requires PoolOk(v) && PoolOk(w) && Forest(w) && Takes(v, w, {}, news) && Held(p) in v.at
    requires u.Data? && u !in v.at && u !in news && Parent(u) in w.at && Index(u) < PTRS_PER_TABLE
    ensures var x := Attached(w, p, u); var t := w.at[Parent(u)];
            && t in w.mem && |w.mem[t]| == PTRS_PER_TABLE
            && x.mem == w.mem[t := Put(w.mem[t], Index(u), p + PAGE_KERNEL)]
            && x.numa == w.numa && x.head == w.head && x.count == w.count && u in x.at && x.at[u] == p
            && PoolOk(x) && Forest(x) && Takes(v, x, {p}, news + {u})
  {
    hide PoolOk, Forest, Takes, Attached;
    TakesLeaves(v, w, news, u, p);
    AttachKeeps(w, p, u);
    AttachTakes(w, p, u);
    AttachFacts(w, p, u);
    TakesLast(v, w, Attached(w, p, u), news, p, u);
  }

  lemma NoBlocksYet(v: Pool, ino: Ino, vaddr: nat, k: nat, ps: seq<nat>)
    requires v.mem.Keys == v.owner.Keys
    ensures Takes(v, v, Pages(ps[..0]), {}) && NewBlocks(ino, vaddr, k, 0, {}) && BlocksAt(v.at, ino, vaddr, k, ps[..0])
    ensures forall j: nat :: j < |ps| ==> ps[j] !in Pages(ps[..0])
  {
    assert Pages(ps[..0]) == {};
    TakesNothing(v);
  }

  lemma LinkIs(v: Pool, p: nat)
    requires p in v.mem && |v.mem[p]| == PTRS_PER_TABLE
    ensures LinkOf(v, p) == v.mem[p][0]
  {
  }

  lemma RewriteFacts(v: Pool, p: nat, page: seq<Word>)
    ensures var w := Rewritten(v, p, page);
            w.mem == v.mem[p := page] && w.numa == v.numa && w.head == v.head && w.count == v.count &&
            w.at == v.at && w.owner == v.owner
  {
  }

  /** The slot of the next block is not in use. */
  lemma FreshSlot(at: map<Use, nat>, inodes: map<Ino, Inode>, ino: Ino, vaddr: nat)
    requires InodesOk(at, inodes) && ino in inodes && AreaBase(inodes[ino].mode, vaddr)
    requires inodes[ino].blocks < BlockLimit(inodes[ino].mode)
    ensures BlockUse(ino, InsertSlot(vaddr, inodes[ino].blocks)) !in at
  {
    NewSlot(inodes[ino].mode, vaddr, inodes[ino].blocks);
  }

  lemma NewSlot(m: Mode, vaddr: nat, k: nat)
    requires AreaBase(m, vaddr) && k < BlockLimit(m)
    ensures !TakenSlot(Inode(m, 0, k), InsertSlot(vaddr, k))
    ensures TakenSlot(Inode(m, 0, k + 1), InsertSlot(vaddr, k))
  {
    InsertMeetsLookupIff(m, vaddr, k);
    LookupSlotNumber(k);
  }

  lemma RootIs(at: map<Use, nat>, inodes: map<Ino, Inode>, ino: Ino)
    requires InodesOk(at, inodes) && ino in inodes
    ensures inodes[ino].pgAddr == if Root(ino) in at then at[Root(ino)] else 0
  {
  }

  lemma InsertInodes(v: Pool, w: Pool, was: map<Ino, Inode>, now: map<Ino, Inode>, ino: Ino, vaddr: nat, p: nat,
                     more: set<Use>, ok: bool)
    requires PoolOk(v) && PoolOk(w) && Forest(w) && InodesOk(v.at, was) && ino in was
    requires AreaBase(was[ino].mode, vaddr) && was[ino].blocks < BlockLimit(was[ino].mode)
    requires now == was[ino := was[ino].(blocks := was[ino].blocks + 1)]
    requires Takes(v, w, if ok then {p} else {}, more)
    requires var s := InsertSlot(vaddr, was[ino].blocks);
             more <= {Pmd(ino, s.a), Pte(ino, s.a, s.b), BlockUse(ino, s)} && (ok ==> BlockUse(ino, s) in w.at)
    ensures InodesOk(w.at, now)
    ensures ok ==> now[ino].pgAddr != 0
  {
    hide PoolOk, Bijective, Takes, InodesOk, AreaBase, BlockLimit, InsertSlot, Forest, ListOk;
    PoolParts(v);
    PoolParts(w);
    HeldKeys(v);
    var s := InsertSlot(vaddr, was[ino].blocks);
    forall u: Use | u.Root? || u.Data?
      ensures u in w.at ==> u in v.at || u == BlockUse(ino, s)
      ensures u in v.at && u != BlockUse(ino, s) ==> u in w.at && w.at[u] == v.at[u]
    {
      TakesUses(v, w, if ok then {p} else {}, more, u);
    }
    FreshSlot(v.at, was, ino, vaddr);
    NewSlot(was[ino].mode, vaddr, was[ino].blocks);
    GrownInodes(v.at, w.at, was, now, ino, s);
    if ok {
      HasRoot(w, BlockUse(ino, s));
      RootIs(w.at, now, ino);
    }
  }

  lemma HasRoot(v: Pool, u: Use)
    requires PoolOk(v) && Forest(v) && u.Data? && u in v.at
    ensures Root(u.ino) in v.at && v.at[Root(u.ino)] != 0
  {
    assert TreeOk(v, u.ino);
    assert Parent(Parent(Parent(u))) == Root(u.ino);
    assert v.at[Root(u.ino)] in v.mem;
  }

  lemma GrownInodes(at: map<Use, nat>, bt: map<Use, nat>, was: map<Ino, Inode>, now: map<Ino, Inode>, ino: Ino, s: Slot)
    requires InodesOk(at, was) && ino in was && was[ino].blocks < BlockLimit(was[ino].mode)
    requires now == was[ino := was[ino].(blocks := was[ino].blocks + 1)]
    requires forall u: Use :: (u.Root? || u.Data?) && u in bt ==> u in at || u == BlockUse(ino, s)
    requires forall u: Use :: (u.Root? || u.Data?) && u in at && u != BlockUse(ino, s) ==> u in bt && bt[u] == at[u]
    requires TakenSlot(Inode(was[ino].mode, 0, was[ino].blocks + 1), s)
    ensures InodesOk(bt, now)
  {
  }

  lemma SpendsTables(v: Pool, w: Pool, more: set<Use>, ino: Ino)
    requires Takes(v, w, {}, more) && forall u :: u in more ==> Owned(u, ino)
    ensures Spends(v, w, {}, ino)
  {
  }

  lemma SpendsSame(v: Pool, v1: Pool, w: Pool, ino: Ino, p: nat)
    requires Spends(v1, w, {}, ino) && v1.owner == v.owner && p in v.owner && v.owner[p].Held?
    requires v1.mem.Keys == v.mem.Keys && forall q :: q in v.mem && q != p ==> v1.mem[q] == v.mem[q]
    ensures Spends(v, w, {}, ino)
  {
  }

  lemma SpendsSome(v: Pool, w: Pool, x: Pool, ps: seq<nat>, i: nat, news: set<Use>, ino: Ino, vaddr: nat, k: nat)
    requires i <= |ps| && Takes(v, w, Pages(ps[..i]), news) && Spends(w, x, {}, ino)
    requires NewBlocks(ino, vaddr, k, i, news)
    ensures Spends(v, x, Pages(ps), ino)
  {
    forall p | p in Pages(ps[..i])
      ensures p in Pages(ps)
    {
      var j: nat :| j < i && ps[..i][j] == p;
      assert ps[j] == p;
    }
  }

  lemma NewBlocksNext(w: Pool, x: Pool, ino: Ino, vaddr: nat, k: nat, ps: seq<nat>, i: nat, news: set<Use>,
                      more: set<Use>)
    requires PoolOk(w) && PoolOk(x) && i < |ps| && NewBlocks(ino, vaddr, k, i, news)
    requires BlocksAt(w.at, ino, vaddr, k, ps[..i])
    requires Takes(w, x, {ps[i]}, more)
    requires forall a: nat, b: nat :: a < b < |ps| ==> ps[a] != ps[b]
    requires var s := InsertSlot(vaddr, k + i);
             && more <= {Pmd(ino, s.a), Pte(ino, s.a, s.b), BlockUse(ino, s)}
             && BlockUse(ino, s) in x.at && x.at[BlockUse(ino, s)] == ps[i]
    ensures NewBlocks(ino, vaddr, k, i + 1, news + more) && BlocksAt(x.at, ino, vaddr, k, ps[..i + 1])
    ensures forall j: nat :: i + 1 <= j < |ps| ==> ps[j] !in Pages(ps[..i + 1])
  {
    hide PoolOk, Takes, Bijective, InsertSlot;
    PoolParts(w);
    PoolParts(x);
    HeldKeys(w);
    var s := InsertSlot(vaddr, k + i);
    assert NthBlock(ino, vaddr, k, i) == BlockUse(ino, s);
    forall j: nat | j < i
      ensures NthBlock(ino, vaddr, k, j) in x.at && x.at[NthBlock(ino, vaddr, k, j)] == ps[j]
    {
      var u := NthBlock(ino, vaddr, k, j);
      assert u in w.at && w.at[u] == ps[..i][j];
      TakesUses(w, x, {ps[i]}, more, u);
      TakesFresh(w, x, {ps[i]}, more, u);
    }
    forall u | u in news + more
      ensures FirstTable(u, ino) || exists j: nat :: j < i + 1 && OnPath(u, NthBlock(ino, vaddr, k, j))
    {
      if u !in news {
        assert OnPath(u, NthBlock(ino, vaddr, k, i));
      }
    }
  }

  lemma TakesFresh(v: Pool, w: Pool, from: set<nat>, news: set<Use>, u: Use)
    requires Takes(v, w, from, news) && u in v.at
    ensures u !in news
  {
  }

  lemma PathTo(v: Pool, ino: Ino, s: Slot)
    requires PoolOk(v) && Forest(v) && Pte(ino, s.a, s.b) in v.at && s.c < PTRS_PER_TABLE
    ensures Root(ino) in v.at && Pmd(ino, s.a) in v.at && s.a < PTRS_PER_TABLE && s.b < PTRS_PER_TABLE
    ensures var t := v.at[Root(ino)];
            t in v.mem && |v.mem[t]| == PTRS_PER_TABLE && PageMask(v.mem[t][s.a]) == v.at[Pmd(ino, s.a)]
    ensures var t := v.at[Pmd(ino, s.a)];
            t in v.mem && |v.mem[t]| == PTRS_PER_TABLE && PageMask(v.mem[t][s.b]) == v.at[Pte(ino, s.a, s.b)]
    ensures var t := v.at[Pte(ino, s.a, s.b)];
            t in v.mem && |v.mem[t]| == PTRS_PER_TABLE && v.mem[t][s.c] == Entry(v, BlockUse(ino, s))
    ensures BlockUse(ino, s) in v.at ==> Frame(Entry(v, BlockUse(ino, s))) == v.at[BlockUse(ino, s)]
  {
    var u := Pte(ino, s.a, s.b);
    assert TreeOk(v, ino);
    assert Parent(u) == Pmd(ino, s.a) && Parent(Pmd(ino, s.a)) == Root(ino);
    EntryOf(v, u);
    EntryOf(v, Pmd(ino, s.a));
    assert TableOk(v, u);
    assert Child(u, s.c) == BlockUse(ino, s);
    assert v.mem[v.at[u]][s.c] == Entry(v, Child(u, s.c));
    if BlockUse(ino, s) in v.at {
      EntryFrames(v.at[BlockUse(ino, s)]);
    }
  }

  lemma WholeTree(v: Pool, ino: Ino)
    requires Forest(v) && Root(ino) in v.at
    ensures SubtreeOk(v, Root(ino))
  {
    assert TreeOk(v, ino);
  }

  lemma Teardown(v: Pool, w: Pool, inodes: map<Ino, Inode>, ino: Ino)
    requires PoolOk(v) && PoolOk(w) && Forest(v) && InodesOk(v.at, inodes) && ino in inodes
    requires Released(v, w, Scan(v.at, Root(ino))) && w.owner.Keys == v.owner.Keys
    ensures var x := Abandoned(w, ino);
            && PoolOk(x) && Forest(x) && TornDown(v, x, ino) && InodesOk(x.at, inodes[ino := inodes[ino].(pgAddr := 0)])
            && x.mem == w.mem && x.numa == w.numa && x.head == w.head && x.count == w.count
  {
    hide PoolOk, Forest, Released, Scan, InodesOk, TornDown, Abandoned;
    TornDownBy(v, w, ino);
    AbandonKeepsPool(w, ino);
    TeardownForest(v, w, Scan(v.at, Root(ino)), ino);
    AbandonMem(w, ino);
    var x := Abandoned(w, ino);
    forall u: Use | u.Root? || u.Data?
      ensures u in x.at <==> u in v.at && u.ino != ino
      ensures u in x.at ==> x.at[u] == v.at[u]
    {
      AbandonUses(w, ino, u);
      ReleasedUse(v, w, Scan(v.at, Root(ino)), u);
    }
    EmptiedInodes(v.at, x.at, inodes, ino);
  }

  lemma EmptiedInodes(at: map<Use, nat>, bt: map<Use, nat>, inodes: map<Ino, Inode>, ino: Ino)
    requires InodesOk(at, inodes) && ino in inodes
    requires forall u: Use :: u.Root? || u.Data? ==> (u in bt <==> u in at && u.ino != ino)
    requires forall u: Use :: (u.Root? || u.Data?) && u in bt ==> bt[u] == at[u]
    ensures InodesOk(bt, inodes[ino := inodes[ino].(pgAddr := 0)])
  {
  }

  lemma ResetBlocks(v: Pool, inodes: map<Ino, Inode>, ino: Ino)
    requires PoolOk(v) && Forest(v) && InodesOk(v.at, inodes) && ino in inodes && inodes[ino].pgAddr == 0
    ensures InodesOk(v.at, inodes[ino := inodes[ino].(blocks := 0)])
  {
    NoRoot(v, inodes, ino);
    forall u: Use | u.Data? && u.ino == ino
      ensures u !in v.at
    {
      assert TreeOk(v, ino);
      assert Parent(Parent(Parent(u))) == Root(ino);
    }
  }

  lemma SpendsLost(v: Pool, w: Pool, ino: Ino)
    requires Lost(v, w)
    ensures Spends(v, w, {}, ino)
  {
  }

  lemma SpendsChain(v: Pool, w: Pool, x: Pool, y: Pool, r: nat, ps: seq<nat>, rest: nat, ino: Ino)
    requires PoolOk(w) && Spends(v, w, {}, ino) && Detached(w, x, r, |ps|) && ChainOf(w, r, ps, rest)
    requires Spends(x, y, Pages(ps), ino)
    ensures Spends(v, y, {}, ino)
  {
    hide Detached, ChainOf, PoolOk;
    DetachedIsChain(w, x, r, ps, rest);
  }

  lemma NewTables(ino: Ino, vaddr: nat, k: nat, n: nat, tables: set<Use>, news: set<Use>)
    requires NewBlocks(ino, vaddr, k, n, news) && tables <= {Root(ino), Pmd(ino, 0), Pte(ino, 0, 0)}
    ensures NewBlocks(ino, vaddr, k, n, tables + news)
  {
  }

  lemma AfterDetach(v: Pool, w: Pool, r: nat, ps: seq<nat>, rest: nat, inodes: map<Ino, Inode>)
    requires PoolOk(v) && PoolOk(w) && Detached(v, w, r, |ps|) && ChainOf(v, r, ps, rest) && InodesOk(v.at, inodes)
    ensures InodesOk(w.at, inodes)
  {
    hide Detached, ChainOf, InodesOk, PoolOk;
    DetachedIsChain(v, w, r, ps, rest);
    PoolParts(v);
    DetachedLoses(v, w, Pages(ps));
    LostInodes(v, w, inodes);
  }

  lemma DetachedLoses(v: Pool, w: Pool, from: set<nat>)
    requires w.mem == v.mem && v.mem.Keys == v.owner.Keys && w.owner.Keys == v.owner.Keys && w.numa == v.numa
    requires w.tail == v.tail
    requires forall p :: p in v.owner ==>
               w.owner[p] == v.owner[p] || (v.owner[p].Free? && w.owner[p] == Held(p) && p in from)
    ensures Lost(v, w)
  {
  }

  lemma ReleasedKeys(v: Pool, w: Pool, s: set<Use>)
    requires PoolOk(v) && PoolOk(w) && Released(v, w, s)
    ensures w.owner.Keys == v.owner.Keys
  {
  }

  lemma TakesParent(v: Pool, v1: Pool, page: nat, u: Use)
    requires PoolOk(v) && PoolOk(v1) && Forest(v) && Zeroing(v, v1, page)
    requires HasParent(u) && IsTable(u) && Parent(u) in v.at && Index(u) < PTRS_PER_TABLE
    ensures Parent(u) in v1.at && v1.at[Parent(u)] == v.at[Parent(u)]
    ensures u !in v.at ==> v1.mem[v.at[Parent(u)]][Index(u)] == 0
    ensures page in v1.mem && Zeroed(v1.mem[page])
  {
    var t := Parent(u);
    assert v.owner[v.at[t]] == t;
    assert v1.owner[v.at[t]] == t;
    assert TreeOk(v, t.ino) && TableOk(v, t);
    assert v.mem[v.at[t]][Index(u)] == Entry(v, Child(t, Index(u)));
  }

  lemma ZeroedIsHeld(v: Pool, w: Pool, page: nat)
    requires Zeroing(v, w, page)
    ensures page in w.owner && w.owner[page] == Held(page)
  {
  }

  /** The entry of a table is present exactly when its use exists, also after a page was taken. */
  lemma EntryPresent(v: Pool, w: Pool, page: nat, u: Use)
    requires PoolOk(v) && PoolOk(w) && Forest(v) && Forest(w) && Zeroing(v, w, page) && IsTable(u) && HasParent(u)
    requires Parent(u) in w.at && Index(u) < PTRS_PER_TABLE && w.at[Parent(u)] in w.mem
    requires |w.mem[w.at[Parent(u)]]| == PTRS_PER_TABLE
    ensures w.mem[w.at[Parent(u)]][Index(u)] % 2 == 1 <==> u in v.at
    ensures u in w.at <==> u in v.at
  {
    SameUse(v, w, page, u);
    EntryOdd(w, u);
  }

  lemma EntryOdd(v: Pool, u: Use)
    requires PoolOk(v) && Forest(v) && HasParent(u) && IsTable(u) && Parent(u) in v.at && Index(u) < PTRS_PER_TABLE
    requires v.at[Parent(u)] in v.mem && |v.mem[v.at[Parent(u)]]| == PTRS_PER_TABLE
    ensures v.mem[v.at[Parent(u)]][Index(u)] % 2 == 1 <==> u in v.at
  {
    var t := Parent(u);
    assert TreeOk(v, t.ino) && TableOk(v, t);
    assert v.mem[v.at[t]][Index(u)] == Entry(v, Child(t, Index(u)));
    if u in v.at {
      UseShape(v, u);
    }
    hide PoolOk, Forest, TreeOk, TableOk;
    if u in v.at {
      OddEntry(v.at[u]);
    }
  }

  lemma OddEntry(p: nat)
    requires IsPage(p)
    ensures (p + PAGE_TABLE) % 2 == 1
  {
  }

  lemma SameUse(v: Pool, w: Pool, page: nat, u: Use)
    requires PoolOk(v) && PoolOk(w) && Zeroing(v, w, page) && !u.Free? && !u.Held?
    ensures (u in w.at <==> u in v.at) && (u in v.at ==> w.at[u] == v.at[u])
  {
    if u in v.at {
      assert v.owner[v.at[u]] == u && w.owner[v.at[u]] == u;
    }
    if u in w.at {
      assert w.owner[w.at[u]] == u && v.owner[w.at[u]] == u;
    }
  }

  /** A page that was taken and cleared is freed again: nothing else changed. */
  lemma GivenBack(v: Pool, x: Pool, w: Pool, page: nat)
    requires PoolOk(v) && PoolOk(x) && PoolOk(w) && Forest(x) && Zeroing(v, x, page)
    requires page in x.owner && Released(x, w, {x.owner[page]})
    ensures Forest(w) && Restored(v, w)
  {
    PoolLengths(v);
    PoolLengths(w);
    forall p | p in v.owner
      ensures w.owner[p].Free? <==> v.owner[p].Free?
      ensures !v.owner[p].Free? ==> w.owner[p] == v.owner[p] && w.mem[p] == v.mem[p]
    {
      ReleasedKeeps(x, w, page, p);
    }
    forall ino: Ino
      ensures TreeOk(w, ino)
    {
      assert TreeOk(x, ino);
      ReleasedTree(x, w, page, ino);
    }
  }

  lemma ReleasedKeeps(x: Pool, w: Pool, page: nat, p: nat)
    requires PoolOk(x) && PoolOk(w) && page in x.owner && !x.owner[page].Free? && Released(x, w, {x.owner[page]})
    requires p in x.owner
    ensures p == page ==> w.owner[p].Free?
    ensures p != page ==> (w.owner[p].Free? <==> x.owner[p].Free?)
    ensures p != page && !x.owner[p].Free? ==> w.owner[p] == x.owner[p] && w.mem[p] == x.mem[p]
  {
    assert x.at[x.owner[p]] == p && x.at[x.owner[page]] == page;
    if p != page {
      assert w.at[x.owner[p]] == p;
    }
  }

  lemma ReleasedTree(x: Pool, w: Pool, page: nat, ino: Ino)
    requires PoolOk(x) && PoolOk(w) && TreeOk(x, ino) && page in x.owner && x.owner[page].Held?
    requires Released(x, w, {x.owner[page]})
    ensures TreeOk(w, ino)
  {
    forall u | Owned(u, ino)
      ensures (u in w.at <==> u in x.at) && (u in x.at ==> w.at[u] == x.at[u])
      ensures u in x.at ==> x.at[u] in w.mem && w.mem[x.at[u]] == x.mem[x.at[u]]
    {
      ReleasedOther(x, w, page, u);
    }
    hide PoolOk, Released, Owned, TreeOk;
    TreeFrame(x, w, ino);
  }

  lemma ReleasedOther(x: Pool, w: Pool, page: nat, u: Use)
    requires PoolOk(x) && PoolOk(w) && page in x.owner && x.owner[page].Held? && Released(x, w, {x.owner[page]})
    requires !u.Held? && !u.Free?
    ensures (u in w.at <==> u in x.at) && (u in x.at ==> w.at[u] == x.at[u])
    ensures u in x.at ==> x.at[u] in w.mem && w.mem[x.at[u]] == x.mem[x.at[u]]
  {
    hide PoolOk;
    if u in x.at {
      UseShape(x, u);
      UseShape(w, u);
    }
  }
}
