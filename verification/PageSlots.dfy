/** Where block `k` of a file is entered in its page tables (`rdfs_insert_page`, by the virtual
    address of the block) and where it is looked up (`rdfs_find_data_block`, by its number). */
module PageSlots {
  import opened Machine

  datatype Slot = Slot(a: nat, b: nat, c: nat)

  const BLOCKS_PER_PUD := 0x4_0000
  const BLOCKS_PER_PMD := 512
  const LAST_DIR_AREA := RDFS_START + DIR_AREA_SIZE - MAX_DIR_SIZE

  /** Directories and symbolic links are mapped in directory areas, files in file areas. */
  predicate Small(m: Mode) {
    m != Regular
  }

  function BlockLimit(m: Mode): nat {
    if Small(m) then MAX_DIR_SIZE / PAGE_SIZE else MAX_FILE_SIZE / PAGE_SIZE
  }

  /** An address an inode can have: none yet, or the start of an area of its kind. */
  predicate AreaBase(m: Mode, vaddr: nat) {
    || vaddr == 0
    || (Small(m) && RDFS_START <= vaddr < RDFS_START + DIR_AREA_SIZE && (vaddr - RDFS_START) % MAX_DIR_SIZE == 0)
    || (!Small(m) && RDFS_START + DIR_AREA_SIZE <= vaddr < RDFS_END && (vaddr - RDFS_START) % MAX_FILE_SIZE == 0)
  }

  /** The test `rdfs_pmd_alloc` makes on the address of the new block. */
  predicate InDirAreas(addr: nat) {
    addr >= RDFS_START && addr + MAX_DIR_SIZE - 1 < RDFS_START + DIR_AREA_SIZE
  }

  function PmdIndex(addr: nat): nat {
    addr / 0x20_0000 % PTRS_PER_TABLE
  }

  function PteIndex(addr: nat): nat {
    addr / PAGE_SIZE % PTRS_PER_TABLE
  }

  function InsertSlot(vaddr: nat, k: nat): Slot {
    var addr := vaddr + k * PAGE_SIZE;
    Slot(k / BLOCKS_PER_PUD, if InDirAreas(addr) then 0 else PmdIndex(addr), PteIndex(addr))
  }

  function LookupSlot(k: nat): Slot {
    Slot(k / BLOCKS_PER_PUD % PTRS_PER_TABLE, k / BLOCKS_PER_PMD % PTRS_PER_TABLE, k % PTRS_PER_TABLE)
  }

  /** The block number a slot stands for. */
  function SlotNumber(s: Slot): nat {
    (s.a * PTRS_PER_TABLE + s.b) * PTRS_PER_TABLE + s.c
  }

  lemma LookupSlotNumber(k: nat)
    requires k < PTRS_PER_TABLE * BLOCKS_PER_PUD
    ensures SlotNumber(LookupSlot(k)) == k
    ensures var s := LookupSlot(k); s.a < PTRS_PER_TABLE && s.b < PTRS_PER_TABLE && s.c < PTRS_PER_TABLE
  {
  }

  lemma SlotNumberLookup(s: Slot)
    requires s.a < PTRS_PER_TABLE && s.b < PTRS_PER_TABLE && s.c < PTRS_PER_TABLE
    ensures LookupSlot(SlotNumber(s)) == s && SlotNumber(s) < PTRS_PER_TABLE * BLOCKS_PER_PUD
  {
    var k, m := SlotNumber(s), s.a * PTRS_PER_TABLE + s.b;
    Digit(m, s.c);
    Digit(s.a, s.b);
    assert k / BLOCKS_PER_PUD == m / PTRS_PER_TABLE;
  }

  lemma Digit(m: nat, c: nat)
    requires c < PTRS_PER_TABLE
    ensures (m * PTRS_PER_TABLE + c) / PTRS_PER_TABLE == m && (m * PTRS_PER_TABLE + c) % PTRS_PER_TABLE == c
  {
  }

  /** A block goes where it will be looked up, except every block but the first of an inode
      mapped in the last directory area: the range test is made on the block's own address, so
      those blocks take the path for files and land in pmd entry 511. */
  lemma InsertMeetsLookupIff(m: Mode, vaddr: nat, k: nat)
    requires AreaBase(m, vaddr) && k < BlockLimit(m)
    ensures InsertSlot(vaddr, k) == LookupSlot(k) <==> !(vaddr == LAST_DIR_AREA && k > 0)
    ensures vaddr == LAST_DIR_AREA && k > 0 ==> InsertSlot(vaddr, k) == Slot(0, 511, k)
  {
    if vaddr == 0 {
      UnmappedSlot(k);
    } else if Small(m) {
      SmallSlots((vaddr - RDFS_START) / MAX_DIR_SIZE, k);
    } else {
      FileSlots((vaddr - RDFS_START) / MAX_FILE_SIZE, k);
    }
  }

  lemma UnmappedSlot(k: nat)
    requires k < 0x80_0000
    ensures InsertSlot(0, k) == LookupSlot(k)
  {
    assert !InDirAreas(k * PAGE_SIZE);
    assert k * PAGE_SIZE / 0x20_0000 == k / 512;
    assert k * PAGE_SIZE / PAGE_SIZE == k;
  }

  lemma SmallSlots(j: nat, k: nat)
    requires k < 512 && j < 0x4000
    ensures var vaddr := RDFS_START + j * MAX_DIR_SIZE;
            && LookupSlot(k) == Slot(0, 0, k)
            && InsertSlot(vaddr, k) == Slot(0, if vaddr == LAST_DIR_AREA && k > 0 then 511 else 0, k)
  {
    SmallAddress(j, k);
  }

  lemma FileSlots(j: nat, k: nat)
    requires k < 0x80_0000 && 1 <= j
    ensures InsertSlot(RDFS_START + j * MAX_FILE_SIZE, k) == LookupSlot(k)
    ensures RDFS_START + j * MAX_FILE_SIZE != LAST_DIR_AREA
  {
    FileAddress(j, k);
  }

  lemma SmallAddress(j: nat, k: nat)
    requires k < 512 && j < 0x4000
    ensures var addr := RDFS_START + j * MAX_DIR_SIZE + k * PAGE_SIZE;
            PteIndex(addr) == k && PmdIndex(addr) == j % 512 && (InDirAreas(addr) <==> j < 0x3fff || k == 0)
  {
    var addr := RDFS_START + j * MAX_DIR_SIZE + k * PAGE_SIZE;
    assert RDFS_START == 0x7ff_fe58_0000 * MAX_DIR_SIZE;
    assert addr / PAGE_SIZE == (0x7ff_fe58_0000 + j) * 512 + k;
    assert addr / MAX_DIR_SIZE == 0x7ff_fe58_0000 + j;
  }

  lemma FileAddress(j: nat, k: nat)
    requires k < 0x80_0000 && 1 <= j
    ensures var addr := RDFS_START + j * MAX_FILE_SIZE + k * PAGE_SIZE;
            PteIndex(addr) == k % 512 && PmdIndex(addr) == k / 512 % 512 && !InDirAreas(addr)
  {
    var addr := RDFS_START + j * MAX_FILE_SIZE + k * PAGE_SIZE;
    var n := 0x1fff_f960 + j;
    assert addr == n * MAX_FILE_SIZE + k * PAGE_SIZE;
    PageNumber(addr, n * 0x80_0000 + k);
    AreaNumber(addr, n * 0x4000 + k / 512, k % 512 * PAGE_SIZE);
    ModShift(n * 0x4000, k);
    ModShift(n * 32, k / 512);
  }

  lemma PageNumber(x: nat, q: nat)
    requires x == q * PAGE_SIZE
    ensures x / PAGE_SIZE == q
  {
  }

  lemma AreaNumber(x: nat, q: nat, r: nat)
    requires x == q * MAX_DIR_SIZE + r && r < MAX_DIR_SIZE
    ensures x / MAX_DIR_SIZE == q
  {
  }

  lemma ModShift(q: nat, k: nat)
    ensures (q * 512 + k) % 512 == k % 512
  {
  }
}
