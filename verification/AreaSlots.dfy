/** Which areas the blocks of an inode can be inserted from: the addresses that nvmalloc.c hands out are bases for the
    page tables of pgtable.c, and the one whose blocks go astray is handed out last. */
module AreaSlots {
  import opened Areas
  import opened Finite
  import opened Machine
  import opened PageSlots

  /** Every area of a kind is a base for blocks of that kind. */
  lemma AreasAreBases(m: Mode, a: nat)
    requires a in if m.Regular? then FileAreas() else DirAreas()
    ensures AreaBase(m, a) && a != 0
  {
    if m.Regular? {
      var k: nat :| k < FILE_AREAS && a == RDFS_START + DIR_AREA_SIZE + MAX_FILE_SIZE * k;
      assert a - RDFS_START == MAX_FILE_SIZE * (k + 1);
    } else {
      var k: nat :| k < DIR_AREAS && a == RDFS_START + MAX_DIR_SIZE * k;
      assert a - RDFS_START == MAX_DIR_SIZE * k;
    }
  }

  /** The last directory area is at the end of the free list. */
  predicate Bottom(p: Pool) {
    p.free != [] && p.free[|p.free| - 1] == LAST_DIR_AREA
  }

  lemma FirstBottom()
    ensures var l := InOrder(RDFS_START, MAX_DIR_SIZE, DIR_AREAS); l[|l| - 1] == LAST_DIR_AREA
  {
  }

  lemma TakenBottom(p: Pool)
    requires Bottom(p) && |p.free| >= 2
    ensures Bottom(Taken(p))
  {
  }

  lemma GivenBottom(p: Pool, q: Pool, a: nat)
    requires Bottom(p) && Freed(p, q, a)
    ensures Bottom(q)
  {
  }

  /** While it is there no inode has it. */
  lemma BottomUnused(infos: map<nat, Info>, holder: map<nat, nat>, dir: Pool, reg: Pool, i: nat)
    requires Ok(infos, holder, dir, reg) && Bottom(dir) && i in infos
    ensures infos[i].addr != LAST_DIR_AREA
  {
    hide DirAreas, FileAreas;
    HeldArea(infos, holder, dir, reg, i);
    if infos[i].addr == LAST_DIR_AREA {
      AddressKind(infos, holder, dir, reg, LAST_DIR_AREA);
      FreeNotUsed(dir, DirAreas(), |dir.free| - 1);
    }
  }

  lemma FreeNotUsed(p: Pool, all: set<nat>, k: nat)
    requires PoolOk(p, all) && k < |p.free|
    ensures p.free[k] !in p.used
  {
    var a := p.free[k];
    assert a in multiset(p.free);
    assert (multiset(p.free) + multiset(p.used))[a] == multiset(all)[a] <= 1;
  }

  /** Fewer directories and symbolic links are mapped after the first `n` calls than there are areas. */
  ghost predicate Spare(infos: map<nat, Info>, calls: seq<MapCall>, n: nat)
    requires n <= |calls|
  {
    |MappedAfter(infos, calls[..n], false)| < DIR_AREAS
  }

  /** When a directory is mapped and one area stays over, there were two. */
  lemma TwoLeft(was: map<nat, Info>, infos: map<nat, Info>, holder: map<nat, nat>, dir: Pool, reg: Pool,
                calls: seq<MapCall>, n: nat)
    requires Ok(infos, holder, dir, reg) && SameModes(was, infos) && n < |calls| && calls[n].i in infos
    requires Follows(was, infos, calls[..n]) && Spare(was, calls, n + 1)
    requires calls[n].Up? && infos[calls[n].i].addr == 0 && !infos[calls[n].i].mode.Regular?
    ensures |dir.free| >= 2
  {
    hide Ok, CountAfter;
    var i := calls[n].i;
    HeldArea(infos, holder, dir, reg, i);
    UsedSize(infos, holder, dir, reg, false);
    var s, t := Mapped(infos, false), MappedAfter(was, calls[..n + 1], false);
    forall j | j in s + {i}
      ensures j in t
    {
      MapsOn(was, infos, calls, n, j);
    }
    assert s + {i} <= t;
    SubsetSize(s + {i}, t);
  }

  lemma MapsOn(was: map<nat, Info>, infos: map<nat, Info>, calls: seq<MapCall>, n: nat, j: nat)
    requires SameModes(was, infos) && n < |calls| && Follows(was, infos, calls[..n]) && calls[n].Up?
    requires j in infos && infos[j].count >= 0 && (infos[j].count > 0 || j == calls[n].i)
    ensures CountAfter(was[j].count, calls[..n + 1], j) > 0
  {
    assert calls[..n + 1][..n] == calls[..n];
  }

  /** Inodes of the given kinds, none of them mapped. */
  function Unmapped(modes: map<nat, Mode>): map<nat, Info> {
    map i | i in modes :: Info(modes[i], 0, 0)
  }

  /** From a new table, as long as never all 16384 directory areas are in use at once, every call finds its area and no
      inode is mapped in the last directory area; so no block goes astray. */
  method RunClear(modes: map<nat, Mode>, calls: seq<MapCall>) returns (t: AreaTable)
    requires forall c :: c in calls ==> c.i in modes
    requires forall n: nat :: n < |calls| ==> FindsArea(Unmapped(modes), calls, n)
    requires forall n: nat :: n <= |calls| ==> Spare(Unmapped(modes), calls, n)
    ensures fresh(t) && t.Valid() && t.infos.Keys == modes.Keys
    ensures Follows(Unmapped(modes), t.infos, calls)
    ensures forall i :: i in t.infos ==> t.infos[i].addr != LAST_DIR_AREA
  {
    hide Ok, FindsArea, Follows, SameModes, Spare;
    t := new AreaTable(modes);
    ghost var infos := Unmapped(modes);
    assert t.infos == infos;
    FirstBottom();
    NoCalls(infos, calls);
    var n := 0;
    while n < |calls|
      invariant n <= |calls| && fresh(t) && t.Valid() && SameModes(infos, t.infos)
      invariant Follows(infos, t.infos, calls[..n])
      invariant t.infos.Keys == modes.Keys && Bottom(t.dir)
    {
      var c := calls[n];
      assert c in calls;
      ghost var before := t.infos;
      HeldArea(t.infos, t.holder, t.dir, t.reg, c.i);
      FindsAreaIff(infos, t.infos, t.holder, t.dir, t.reg, calls, n);
      if c.Up? {
        Mapping(infos, t, calls, n);
        var _ := t.Establish(c.i);
      } else {
        Unmapping(t, c.i);
        t.Destroy(c.i);
      }
      OneMoreCall(infos, before, t.infos, calls, n);
      n := n + 1;
    }
    assert calls[..n] == calls;
    forall i | i in t.infos
      ensures t.infos[i].addr != LAST_DIR_AREA
    {
      BottomUnused(t.infos, t.holder, t.dir, t.reg, i);
    }
  }

  lemma Mapping(infos: map<nat, Info>, t: AreaTable, calls: seq<MapCall>, n: nat)
    requires t.Valid() && Bottom(t.dir) && SameModes(infos, t.infos) && n < |calls| && calls[n].i in t.infos
    requires Follows(infos, t.infos, calls[..n]) && Spare(infos, calls, n + 1) && calls[n].Up?
    ensures var i := t.infos[calls[n].i]; i.addr == 0 && !i.mode.Regular? ==> Bottom(Taken(t.dir))
  {
    hide Ok, Follows, SameModes, Spare;
    var i := t.infos[calls[n].i];
    if i.addr == 0 && !i.mode.Regular? {
      TwoLeft(infos, t.infos, t.holder, t.dir, t.reg, calls, n);
      TakenBottom(t.dir);
    }
  }

  lemma Unmapping(t: AreaTable, i: nat)
    requires t.Valid() && Bottom(t.dir) && i in t.infos
    ensures forall q :: Freed(t.dir, q, t.infos[i].addr) ==> Bottom(q)
  {
    forall q | Freed(t.dir, q, t.infos[i].addr)
      ensures Bottom(q)
    {
      GivenBottom(t.dir, q, t.infos[i].addr);
    }
  }
}
