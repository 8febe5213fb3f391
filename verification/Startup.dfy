/** `rdfs_nvm_init` (super.c): the memory of the file system is cut into one region, or into two at the NUMA line,
    and every region gets its free pages and free inodes. */
module Startup {
  import opened Machine
  import opened RegionLayout
  import PageInit
  import PageUses
  import PageStore
  import InodeIds

  /** Both regions are used unless all the memory lies on one side of the NUMA line. */
  predicate TwoRegions(phys: nat, size: nat) {
    !(phys + size < NUMA_LINE || phys > NUMA_LINE)
  }

  /** What `rdfs_init_numa` makes of the first region, which begins behind the descriptors of the block devices. */
  function First(phys: nat, first: nat, size: nat, percentage: nat): Outcome {
    InitNuma(first, if TwoRegions(phys, size) then NUMA_LINE else phys + size, percentage)
  }

  function Second(phys: nat, size: nat, percentage: nat): Outcome {
    if TwoRegions(phys, size) then InitNuma(NUMA_LINE, phys + size, percentage)
    else Made(Layout(0, 0, PAGE_SIZE, 0))
  }

  /** Every region that is used is laid out properly. */
  ghost predicate Sound(phys: nat, first: nat, size: nat, percentage: nat) {
    && 0 < phys <= first <= phys + size < NX_BIT
    && var o, p := First(phys, first, size, percentage), Second(phys, size, percentage);
       && o.Made? && p.Made?
       && Fits(first, if TwoRegions(phys, size) then NUMA_LINE else phys + size, o.layout)
       && (TwoRegions(phys, size) ==> Fits(NUMA_LINE, phys + size, p.layout))
  }

  function Inodes(numa: bool, first: nat, l: Layout, k: Layout): InodeIds.Regions {
    InodeIds.Regions(numa, first, l.inodeCount + 1, NUMA_LINE, if numa then k.inodeCount + 1 else 0)
  }

  /** Exactly the pages of the two page areas. */
  ghost predicate Pages(image: map<nat, seq<Word>>, l: Layout, k: Layout) {
    && (forall i: nat :: i < l.pageCount ==> PageInit.Nth(l.pagePhys, i) in image)
    && (forall i: nat :: i < k.pageCount ==> PageInit.Nth(k.pagePhys, i) in image)
    && (forall p :: p in image ==>
          && |image[p]| == PTRS_PER_TABLE && p % PAGE_SIZE == 0
          && (l.pagePhys <= p < PageInit.Nth(l.pagePhys, l.pageCount) ||
              k.pagePhys <= p < PageInit.Nth(k.pagePhys, k.pageCount)))
  }

  /** The list of region `r` begins at the inode area of the layout, has its slots, and ends before the pages. */
  predicate Listed(g: InodeIds.Regions, r: nat, l: Layout) {
    InodeIds.FirstOf(g, r) == l.inodePhys && InodeIds.Listed(g, r) == l.inodeCount && InodeIds.EndOf(g, r) <= l.pagePhys
  }

  /** The inode areas are on their sides, and end before the page areas begin. */
  lemma InodesFit(phys: nat, first: nat, size: nat, percentage: nat)
    requires Sound(phys, first, size, percentage)
    ensures var l, k := First(phys, first, size, percentage).layout, Second(phys, size, percentage).layout;
            var g := Inodes(TwoRegions(phys, size), first, l, k);
            && InodeIds.RegionsOk(g) && Listed(g, 0, l)
            && (TwoRegions(phys, size) ==> Listed(g, 1, k))
  {
    hide InitNuma;
  }

  /** The page areas are on their sides, and are all the allocator has. */
  lemma PagesFit(phys: nat, first: nat, size: nat, percentage: nat, image: map<nat, seq<Word>>)
    requires Sound(phys, first, size, percentage)
    requires Pages(image, First(phys, first, size, percentage).layout, Second(phys, size, percentage).layout)
    ensures var l, k := First(phys, first, size, percentage).layout, Second(phys, size, percentage).layout;
            PageInit.Areas(TwoRegions(phys, size), image, [l.pagePhys, k.pagePhys], [l.pageCount, k.pageCount])
  {
    hide InitNuma;
  }

  /** A region from `start` to `end` gets at least two inode slots and its page area starts inside. */
  predicate Ample(start: nat, end: nat, percentage: nat) {
    && start <= end && Slots(start, end, percentage) >= 2
    && PageUp(start + DESCRIPTOR_SIZE + INODE_SIZE + (Slots(start, end, percentage) - 1) * INODE_SIZE) <= end
  }

  /** The start is sound exactly when every region that is used is ample; the code does not test it.  Memory that ends
      at the NUMA line, or begins there, is cut in two although one region is empty. */
  lemma SoundIff(phys: nat, first: nat, size: nat, percentage: nat)
    requires 0 < phys <= first <= phys + size < NX_BIT && size * percentage < WORD_LIMIT
    ensures Sound(phys, first, size, percentage) <==>
            if phys <= NUMA_LINE <= phys + size
            then Ample(first, NUMA_LINE, percentage) && Ample(NUMA_LINE, phys + size, percentage)
            else Ample(first, phys + size, percentage)
  {
    hide InitNuma, Fits, PageUp, Slots;
    var end := phys + size;
    if TwoRegions(phys, size) {
      RegionIff(first, NUMA_LINE, size, percentage);
      RegionIff(NUMA_LINE, end, size, percentage);
    } else {
      RegionIff(first, end, size, percentage);
    }
  }

  lemma RegionIff(start: nat, end: nat, size: nat, percentage: nat)
    requires end < NX_BIT && end - start <= size && size * percentage < WORD_LIMIT
    ensures var o := InitNuma(start, end, percentage);
            (o.Made? && Fits(start, end, o.layout)) <==> Ample(start, end, percentage)
  {
    if start <= end {
      Within(end - start, size, percentage);
      InitNumaFitsIff(start, end, percentage);
    }
  }

  lemma Within(n: nat, size: nat, percentage: nat)
    requires n <= size
    ensures n * percentage <= size * percentage
  {
  }

  /** A sound start: an allocator in which exactly the pages of the page areas are free, and inode lists that hold every
      slot but the reserved ones, none of which overlaps a page. */
  method Format(phys: nat, first: nat, size: nat, percentage: nat, image: map<nat, seq<Word>>, inodes: map<Ino,
                PageStore.Inode>)
      returns (store: PageStore.Store, ids: InodeIds.InodePool)
    requires Sound(phys, first, size, percentage)
    requires Pages(image, First(phys, first, size, percentage).layout, Second(phys, size, percentage).layout)
    requires forall ino :: ino in inodes ==> inodes[ino].pgAddr == 0 && inodes[ino].blocks == 0
    ensures fresh(store) && store.Valid() && PageUses.FreePages(store.pool) == image.Keys
    ensures fresh(ids) && ids.Valid() && ids.live == {}
    ensures var l, k := First(phys, first, size, percentage).layout, Second(phys, size, percentage).layout;
            && store.count == [l.pageCount, k.pageCount]
            && ids.g == Inodes(TwoRegions(phys, size), first, l, k)
            && Listed(ids.g, 0, l) && (ids.g.numa ==> Listed(ids.g, 1, k))
            && ids.stack == [InodeIds.Slots(ids.g, 0), InodeIds.Slots(ids.g, 1)]
  {
    InodesFit(phys, first, size, percentage);
    PagesFit(phys, first, size, percentage, image);
    hide InitNuma, Fits, InodeIds.RegionsOk, PageInit.Areas;
    var numa := TwoRegions(phys, size);
    var l, k := First(phys, first, size, percentage).layout, Second(phys, size, percentage).layout;
    store := new PageStore.Store(numa, image, [l.pagePhys, k.pagePhys], [l.pageCount, k.pageCount], inodes);
    ids := new InodeIds.InodePool(Inodes(numa, first, l, k));
  }
}
