/** Constants, address arithmetic and page-table entry encoding shared by the page allocator
    and the per-file page tables (rdfs.h, rdfs_const.h, macro_cfg.h and the x86-64 values of
    the kernel's page-table macros). */
module Machine {
  type Ino = nat
  type Word = nat

  const PAGE_SIZE := 4096
  const PTRS_PER_TABLE := 512
  const WORD_LIMIT := 0x1_0000_0000_0000_0000
  const NX_BIT := 0x8000_0000_0000_0000

  // flag words of a leaf entry and of an entry that points at a lower table
  const PAGE_KERNEL := 0x8000_0000_0000_0163
  const PAGE_TABLE := 0x67

  const NUMA_LINE := 0x18_8000_0000

  const RDFS_START := 0xffff_cb00_0000_0000
  const RDFS_END := 0xffff_e8ff_ffff_ffff
  const DIR_AREA_SIZE := 0x8_0000_0000
  const MAX_DIR_SIZE := 0x20_0000
  const MAX_FILE_SIZE := 0x8_0000_0000

  const INODE_SIZE := 128
  const DESCRIPTOR_SIZE := 128

  /** The kinds of inodes that get mapped. */
  datatype Mode = Directory | Symlink | Regular

  /** A page frame: page aligned, not null, and clear of the no-execute bit. */
  ghost predicate IsPage(p: int) {
    0 < p < NX_BIT && p % PAGE_SIZE == 0
  }

  /** One word of a page is overwritten. */
  function Put(page: seq<Word>, i: nat, w: Word): seq<Word>
    requires i < |page|
  {
    page[i := w]
  }

  // `w & PAGE_MASK`
  function PageMask(w: Word): Word {
    w - w % PAGE_SIZE
  }

  // `w & 0x7ffffffffffff000`
  function Frame(w: Word): Word {
    var u := w % NX_BIT;
    u - u % PAGE_SIZE
  }

  lemma EntryFrames(p: int)
    requires IsPage(p)
    ensures Frame(p + PAGE_KERNEL) == p && p + PAGE_KERNEL < WORD_LIMIT
    ensures Frame(p + PAGE_TABLE) == PageMask(p + PAGE_TABLE) == p
    ensures (p + PAGE_KERNEL) % PAGE_SIZE != 0
  {
    assert (p + PAGE_KERNEL) % NX_BIT == p + 0x163;
    assert (p + PAGE_TABLE) % NX_BIT == p + PAGE_TABLE;
  }

  /** `rdfs_get_phys_numa_id`: the side of the NUMA line a physical address lies on. */
  function Side(numa: bool, p: int): nat {
    if numa && p > NUMA_LINE then 1 else 0
  }

  /** `get_cpu_numa`: the region of the processor that runs (NUMA_MASK holds processors 6-11
      and 18-23). */
  function CpuRegion(numa: bool, cpu: nat): nat {
    if numa && (6 <= cpu <= 11 || 18 <= cpu <= 23) then 1 else 0
  }

  /** The processors of region 1, as a mask of their numbers. */
  function RegionMask(n: nat): nat {
    if n == 0 then 0 else RegionMask(n - 1) + if CpuRegion(true, n - 1) == 1 then Pow2(n - 1) else 0
  }

  function Pow2(n: nat): nat {
    if n == 0 then 1 else 2 * Pow2(n - 1)
  }

  /** The processors of region 1 are the bits of NUMA_NODE1_MASK, and without NUMA there are none. */
  lemma CpuRegionMask(cpu: nat)
    ensures RegionMask(24) == 0xfc0fc0 && (cpu >= 24 ==> CpuRegion(true, cpu) == 0) && CpuRegion(false, cpu) == 0
  {
    assert RegionMask(6) == 0 && Pow2(6) == 64;
    assert RegionMask(12) == 0xfc0 && Pow2(12) == 4096;
    assert RegionMask(18) == 0xfc0 && Pow2(18) == 0x4_0000;
  }

  /** `rdfs_get_numa_by_inode`: odd inodes live in region 0, even ones in region 1
      (`InodeIds.InodeRegionIsSide` proves this of the inodes' addresses). */
  function InodeRegion(numa: bool, ino: Ino): nat {
    if numa && ino % 2 == 0 then 1 else 0
  }
}
