/** How `rdfs_init_numa` cuts a region [start, end) of physical memory into its descriptor, an inode
    area and a page area (balloc.c), in unsigned 64-bit arithmetic. */
module RegionLayout {
  import opened Machine

  /** The fields of `struct numa_des`. */
  datatype Layout = Layout(inodePhys: nat, inodeCount: nat, pagePhys: nat, pageCount: nat)

  datatype Outcome = Rejected | Made(layout: Layout)

  function U64(x: int): nat {
    x % WORD_LIMIT
  }

  function PageUp(x: nat): (y: nat)
    ensures y % PAGE_SIZE == 0 && x <= y < x + PAGE_SIZE
  {
    (x + PAGE_SIZE - 1) / PAGE_SIZE * PAGE_SIZE
  }

  /** `rdfs_init_numa`. */
  function InitNuma(start: nat, end: nat, percentage: nat): Outcome {
    if end < start then Rejected else Lay(start, end, U64((end - start) * percentage) / 100 / INODE_SIZE)
  }

  /** The rest of `rdfs_init_numa`, for `slots` inode slots. */
  function Lay(start: nat, end: nat, slots: nat): Outcome {
    var inodePhys := U64(start + DESCRIPTOR_SIZE + INODE_SIZE);
    var inodeCount := U64(slots - 1);
    if inodeCount == 0 then Rejected else
      var pagePhys := U64(PageUp(U64(inodePhys + U64(inodeCount * INODE_SIZE))));
      Made(Layout(inodePhys, inodeCount, pagePhys, U64(end - pagePhys) / PAGE_SIZE))
  }

  /** Descriptor with its reserved inode slot, inode area and page area lie in this order inside the
      region without overlap, the pages are aligned and none is left over. */
  ghost predicate Fits(start: nat, end: nat, l: Layout) {
    && start + DESCRIPTOR_SIZE + INODE_SIZE == l.inodePhys
    && l.inodeCount > 0
    && l.inodePhys + l.inodeCount * INODE_SIZE <= l.pagePhys
    && l.pagePhys % PAGE_SIZE == 0
    && l.pagePhys + l.pageCount * PAGE_SIZE <= end < l.pagePhys + (l.pageCount + 1) * PAGE_SIZE
  }

  /** All slots but the reserved one are for inodes, and the pages begin on the first page boundary behind them. */
  predicate Tight(q: nat, l: Layout) {
    l.inodeCount == q - 1 && l.pagePhys < l.inodePhys + l.inodeCount * INODE_SIZE + PAGE_SIZE
  }

  /** The number of inode slots asked for. */
  function Slots(start: nat, end: nat, percentage: nat): nat
    requires start <= end
  {
    (end - start) * percentage / 100 / INODE_SIZE
  }

  /** A region is laid out properly exactly when at least two inode slots are asked for and the page
      area still starts inside it.  With one slot it is rejected; with none the unsigned count
      wraps around and the result does not fit. */
  lemma InitNumaFitsIff(start: nat, end: nat, percentage: nat)
    requires start <= end < NX_BIT && (end - start) * percentage < WORD_LIMIT
    ensures var o := InitNuma(start, end, percentage); var q := Slots(start, end, percentage);
            && ((o.Made? && Fits(start, end, o.layout)) <==>
                (q >= 2 && PageUp(start + DESCRIPTOR_SIZE + INODE_SIZE + (q - 1) * INODE_SIZE) <= end))
            && (o.Made? && Fits(start, end, o.layout) ==> Tight(q, o.layout))
  {
    hide Lay, Fits, PageUp, U64, Tight;
    var q := Slots(start, end, percentage);
    var size := (end - start) * percentage;
    SlotLimit(size);
    assert InitNuma(start, end, percentage) == Lay(start, end, q);
    LayOne(start, end);
    if q == 0 {
      LayNone(start, end);
    } else if q > 1 {
      LaySome(start, end, q);
    }
  }

  lemma SlotLimit(size: nat)
    requires size < WORD_LIMIT
    ensures U64(size) == size && size / 100 / INODE_SIZE < WORD_LIMIT / 1000
  {
  }

  lemma LayNone(start: nat, end: nat)
    requires start <= end < NX_BIT
    ensures var o := Lay(start, end, 0); o.Made? && o.layout.inodeCount == WORD_LIMIT - 1 && !Fits(start, end, o.layout)
  {
    assert U64(-1) == WORD_LIMIT - 1;
  }

  lemma LayOne(start: nat, end: nat)
    ensures Lay(start, end, 1) == Rejected
  {
  }

  lemma LaySome(start: nat, end: nat, q: nat)
    requires start <= end < NX_BIT && 2 <= q < WORD_LIMIT / 1000
    ensures var o := Lay(start, end, q);
            && o.Made?
            && (Fits(start, end, o.layout) <==>
                  PageUp(start + DESCRIPTOR_SIZE + INODE_SIZE + (q - 1) * INODE_SIZE) <= end)
            && Tight(q, o.layout)
  {
    var area := start + DESCRIPTOR_SIZE + INODE_SIZE + (q - 1) * INODE_SIZE;
    assert area + PAGE_SIZE < WORD_LIMIT;
    assert U64(q - 1) == q - 1 && U64((q - 1) * INODE_SIZE) == (q - 1) * INODE_SIZE;
    assert U64(start + DESCRIPTOR_SIZE + INODE_SIZE) == start + DESCRIPTOR_SIZE + INODE_SIZE;
    assert U64(area) == area && U64(PageUp(area)) == PageUp(area);
    if PageUp(area) <= end {
      assert U64(end - PageUp(area)) == end - PageUp(area);
    }
  }

  /** Every region of at least 450 000 bytes is laid out properly for every percentage below 100 that
      asks for two slots. */
  lemma LargeRegionsFit(start: nat, end: nat, percentage: nat)
    requires start + 450_000 <= end < NX_BIT && percentage < 100 && (end - start) * percentage < WORD_LIMIT
    requires Slots(start, end, percentage) >= 2
    ensures var o := InitNuma(start, end, percentage); o.Made? && Fits(start, end, o.layout)
  {
    InitNumaFitsIff(start, end, percentage);
    var n := end - start;
    Share(n, percentage);
  }

  lemma Share(n: nat, percentage: nat)
    requires percentage < 100
    ensures n * percentage / 100 / INODE_SIZE * INODE_SIZE * 100 <= n * 99
  {
    var k := n * percentage / 100;
    assert k * 100 <= n * percentage <= n * 99;
    assert k / INODE_SIZE * INODE_SIZE <= k;
  }
}
