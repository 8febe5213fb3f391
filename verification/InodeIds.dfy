/** Inode numbers and the slots of the inode areas (rdfs.h), and the lists of free inodes
    (`rdfs_new_inode` and `rdfs_free_inode`, inode.c). */
module InodeIds {
  import opened Machine

  /** Where the regions' descriptors lie, and how many inode slots follow each of them. */
  datatype Regions = Regions(numa: bool, des0: nat, slots0: nat, des1: nat, slots1: nat)

  /** The areas lie on their sides of the NUMA line; without NUMA there is only the first. */
  ghost predicate RegionsOk(g: Regions) {
    && (g.numa ==> g.des1 == NUMA_LINE && g.des0 + DESCRIPTOR_SIZE + g.slots0 * INODE_SIZE <= NUMA_LINE)
    && (!g.numa ==> g.slots1 == 0)
  }

  /** The slot of an inode in its region's area. */
  function SlotOf(g: Regions, ino: Ino): int {
    if g.numa then (if ino % 2 == 1 then (ino - 1) / 2 else (ino - 2) / 2) else ino - 1
  }

  ghost predicate HasSlot(g: Regions, ino: Ino) {
    ino > 0 && SlotOf(g, ino) < if InodeRegion(g.numa, ino) == 0 then g.slots0 else g.slots1
  }

  /** `get_rdfs_inode`, as a physical address. */
  function InodePhys(g: Regions, ino: Ino): int {
    if g.numa then
      if ino % 2 == 1 then g.des0 + DESCRIPTOR_SIZE + (ino - 1) / 2 * INODE_SIZE
      else g.des1 + DESCRIPTOR_SIZE + (ino - 2) / 2 * INODE_SIZE
    else g.des0 + DESCRIPTOR_SIZE + (ino - 1) * INODE_SIZE
  }

  /** `get_rdfs_inodenr`. */
  function InodeNumber(g: Regions, phys: int): int {
    if g.numa then
      if phys > NUMA_LINE then (phys - g.des1 - DESCRIPTOR_SIZE) / INODE_SIZE * 2 + 2
      else (phys - g.des0 - DESCRIPTOR_SIZE) / INODE_SIZE * 2 + 1
    else (phys - g.des0 - DESCRIPTOR_SIZE) / INODE_SIZE + 1
  }

  /** The side of the NUMA line an inode lies on follows from its parity. */
  lemma InodeRegionIsSide(g: Regions, ino: Ino)
    requires RegionsOk(g) && HasSlot(g, ino)
    ensures Side(g.numa, InodePhys(g, ino)) == InodeRegion(g.numa, ino) < 2
  {
  }

  /** Number to address and back. */
  lemma NumberOfPhys(g: Regions, ino: Ino)
    requires RegionsOk(g) && HasSlot(g, ino)
    ensures InodeNumber(g, InodePhys(g, ino)) == ino
  {
    InodeRegionIsSide(g, ino);
    var s := SlotOf(g, ino);
    assert s * INODE_SIZE / INODE_SIZE == s;
  }

  /** Address to number and back, for every slot of either area. */
  lemma PhysOfNumber(g: Regions, r: nat, s: nat)
    requires RegionsOk(g) && r < 2 && s < if r == 0 then g.slots0 else g.slots1
    ensures var phys := (if r == 0 then g.des0 else g.des1) + DESCRIPTOR_SIZE + s * INODE_SIZE;
            var ino := InodeNumber(g, phys);
            ino > 0 && HasSlot(g, ino) && InodePhys(g, ino) == phys &&
            InodeRegion(g.numa, ino) == r && SlotOf(g, ino) == s
  {
    assert s * INODE_SIZE / INODE_SIZE == s;
  }

  /** The first slot of each area belongs to a root inode and is never on a list. */
  predicate Reserved(g: Regions, ino: Ino) {
    SlotOf(g, ino) == 0
  }

  /** The link stored in the inode at height `h` of a list with the given bottom link. */
  ghost function Under(g: Regions, stack: seq<Ino>, tail: int, h: nat): int
    requires h <= |stack|
  {
    if h == 0 then tail else InodePhys(g, stack[h - 1])
  }

  /** A list of free inodes of region `r`: distinct, on its side, chained through their links. */
  ghost predicate ListOk(g: Regions, r: nat, stack: seq<Ino>, tail: int, head: int, link: map<int, int>) {
    && RegionsOk(g)
    && head == Under(g, stack, tail, |stack|)
    && (forall h: nat :: h < |stack| ==>
          && HasSlot(g, stack[h]) && !Reserved(g, stack[h]) && InodeRegion(g.numa, stack[h]) == r
          && InodePhys(g, stack[h]) in link)
    && (forall h: nat {:trigger Under(g, stack, tail, h)} ::
          h < |stack| ==> link[InodePhys(g, stack[h])] == Under(g, stack, tail, h))
    && (forall h: nat, i: nat :: h < i < |stack| ==> stack[h] != stack[i])
  }

  /** An inode that is not on the list keeps it in order, whatever its link becomes. */
  lemma LinkElsewhere(g: Regions, r: nat, stack: seq<Ino>, tail: int, head: int, link: map<int, int>, ino: Ino, to: int)
    requires ListOk(g, r, stack, tail, head, link) && HasSlot(g, ino) && ino !in stack
    ensures ListOk(g, r, stack, tail, head, link[InodePhys(g, ino) := to])
  {
    NumberOfPhys(g, ino);
    hide InodePhys, InodeNumber;
    var link' := link[InodePhys(g, ino) := to];
    forall h: nat | h < |stack|
      ensures InodePhys(g, stack[h]) != InodePhys(g, ino)
    {
      NumberOfPhys(g, stack[h]);
      assert stack[h] in stack;
    }
    forall h: nat | h < |stack|
      ensures link'[InodePhys(g, stack[h])] == Under(g, stack, tail, h)
    {
      assert link[InodePhys(g, stack[h])] == Under(g, stack, tail, h);
    }
  }

  lemma Push(g: Regions, r: nat, stack: seq<Ino>, tail: int, head: int, link: map<int, int>, ino: Ino)
    requires ListOk(g, r, stack, tail, head, link) && HasSlot(g, ino) && !Reserved(g, ino) && ino !in stack
    requires InodeRegion(g.numa, ino) == r && InodePhys(g, ino) in link && link[InodePhys(g, ino)] == head
    ensures ListOk(g, r, stack + [ino], tail, InodePhys(g, ino), link)
  {
    hide InodePhys, HasSlot, RegionsOk, InodeRegion;
    var s := stack + [ino];
    forall h: nat | h < |s|
      ensures link[InodePhys(g, s[h])] == Under(g, s, tail, h)
    {
      assert Under(g, s, tail, h) == Under(g, stack, tail, h);
      if h < |stack| {
        assert link[InodePhys(g, stack[h])] == Under(g, stack, tail, h);
      }
    }
  }

  lemma PushLinked(g: Regions, r: nat, stack: seq<Ino>, tail: int, head: int, link: map<int, int>, ino: Ino)
    requires ListOk(g, r, stack, tail, head, link) && HasSlot(g, ino) && !Reserved(g, ino) && ino !in stack
    requires InodeRegion(g.numa, ino) == r
    ensures ListOk(g, r, stack + [ino], tail, InodePhys(g, ino), link[InodePhys(g, ino) := head])
  {
    hide ListOk, InodePhys, HasSlot, Reserved, InodeRegion;
    LinkElsewhere(g, r, stack, tail, head, link, ino, head);
    Push(g, r, stack, tail, head, link[InodePhys(g, ino) := head], ino);
  }

  lemma Pop(g: Regions, r: nat, stack: seq<Ino>, tail: int, head: int, link: map<int, int>)
    requires ListOk(g, r, stack, tail, head, link) && stack != []
    ensures var n := |stack| - 1;
            && head == InodePhys(g, stack[n]) && head in link && InodeNumber(g, head) == stack[n]
            && stack[n] !in stack[..n]
            && ListOk(g, r, stack[..n], tail, link[head], link)
  {
    hide InodePhys, InodeNumber, HasSlot, RegionsOk, InodeRegion, SlotOf, Reserved;
    var n := |stack| - 1;
    NumberOfPhys(g, stack[n]);
    var s := stack[..n];
    forall h: nat | h < n
      ensures link[InodePhys(g, s[h])] == Under(g, s, tail, h)
    {
      assert Under(g, s, tail, h) == Under(g, stack, tail, h);
      assert link[InodePhys(g, stack[h])] == Under(g, stack, tail, h);
    }
    assert link[InodePhys(g, stack[n])] == Under(g, stack, tail, n) == Under(g, s, tail, n);
  }

  ghost predicate ListsOk(g: Regions, count: seq<nat>, stack: seq<seq<Ino>>, tail: seq<int>, head: seq<int>,
                          link: map<int, int>)
    requires |head| == |count| == |stack| == |tail| == 2
  {
    forall r: nat :: r < 2 ==> count[r] == |stack[r]| && ListOk(g, r, stack[r], tail[r], head[r], link)
  }

  lemma ListsPut(g: Regions, count: seq<nat>, stack: seq<seq<Ino>>, tail: seq<int>, head: seq<int>, link: map<int, int>,
                 r: nat, s: seq<Ino>, h: int)
    requires |head| == |count| == |stack| == |tail| == 2 && r < 2 && count[1 - r] == |stack[1 - r]|
    requires ListOk(g, r, s, tail[r], h, link) && ListOk(g, 1 - r, stack[1 - r], tail[1 - r], head[1 - r], link)
    ensures ListsOk(g, count[r := |s|], stack[r := s], tail, head[r := h], link)
  {
    hide ListOk;
  }

  /** The numbers that are not reserved are live or on the list of their region, and not both. */
  ghost predicate Parted(g: Regions, stack: seq<seq<Ino>>, live: set<Ino>)
    requires |stack| == 2
  {
    && (forall ino: Ino, r: nat :: r < 2 && ino in stack[r] ==> ino !in live)
    && (forall ino: Ino :: HasSlot(g, ino) && !Reserved(g, ino) ==>
          ino in live || ino in stack[InodeRegion(g.numa, ino)])
  }

  lemma TakeParted(g: Regions, stack: seq<seq<Ino>>, live: set<Ino>, r: nat, s: seq<Ino>, ino: Ino)
    requires |stack| == 2 && Parted(g, stack, live) && r < 2 && stack[r] == s + [ino]
    requires ino !in s && ino !in stack[1 - r]
    ensures ino !in live && Parted(g, stack[r := s], live + {ino})
  {
    hide HasSlot, Reserved;
    assert ino in stack[r];
    assert forall x: Ino :: x in stack[r] <==> x in s || x == ino;
  }

  lemma GiveParted(g: Regions, stack: seq<seq<Ino>>, live: set<Ino>, r: nat, ino: Ino)
    requires |stack| == 2 && Parted(g, stack, live) && r < 2 && ino in live && InodeRegion(g.numa, ino) == r
    ensures ino !in stack[r] && ino !in stack[1 - r] && Parted(g, stack[r := stack[r] + [ino]], live - {ino})
  {
    hide HasSlot, Reserved;
    var s := stack[r := stack[r] + [ino]];
    assert ino in s[r];
    assert forall x: Ino :: x in s[r] <==> x in stack[r] || x == ino;
  }

  class InodePool {
    const g: Regions
    var head: seq<int>
    var count: seq<nat>
    var link: map<int, int>
    var turn: nat
    ghost var stack: seq<seq<Ino>>
    ghost var tail: seq<int>
    ghost var live: set<Ino>
    ghost var lost: set<Ino>

    /** Every inode number with a slot is reserved, on exactly one list, or live.  The lost ones are those that no
        inode has, because its creation failed after its number was taken. */
    ghost predicate Valid()
      reads this
    {
      && RegionsOk(g) && |head| == |count| == |stack| == |tail| == 2
      && ListsOk(g, count, stack, tail, head, link)
      && (forall ino :: ino in live ==> HasSlot(g, ino) && !Reserved(g, ino) && InodePhys(g, ino) in link)
      && Parted(g, stack, live) && lost <= live
    }

    /** `rdfs_init_free_inode_list_offset` on every region: all slots but the first, lowest first. */
    constructor (regions: Regions)
      requires RegionsOk(regions) && regions.slots0 > 0 && (regions.numa ==> regions.slots1 > 0)
      ensures Valid() && g == regions && live == lost == {} && turn == 0
      ensures stack == [Slots(regions, 0), Slots(regions, 1)]
    {
      hide ListOk, HasSlot, RegionsOk, InodePhys, InodeNumber, SlotOf, Reserved, Slots, Base, Listed;
      g, turn, live, lost := regions, 0, {}, {};
      head := [FirstOf(regions, 0), FirstOf(regions, 1)];
      count := [Listed(regions, 0), Listed(regions, 1)];
      var threaded := Threads(regions);
      link := threaded;
      stack := [Slots(regions, 0), Slots(regions, 1)];
      tail := [EndOf(regions, 0), EndOf(regions, 1)];
      new;
      forall ino: Ino | HasSlot(g, ino) && !Reserved(g, ino)
        ensures ino in stack[InodeRegion(g.numa, ino)]
      {
        SlotListed(g, ino);
      }
    }

    /** The list part of `rdfs_new_inode`, with the region `get_a_numa` picks: the number `num` taken is neither live
        nor reserved; 0 when that region has none left, and when a later step `fails`, which loses the number. */
    method NewInode(fails: bool) returns (ino: Ino, ghost num: Ino)
      requires Valid()
      modifies this`head, this`count, this`link, this`turn, this`stack, this`live, this`lost
      ensures Valid()
      ensures var r := if g.numa then (old(turn) + 1) % 2 else 0;
              && (num == 0 <==> old(count)[r] == 0)
              && (num != 0 ==> InodeRegion(g.numa, num) == r && count == old(count)[r := old(count)[r] - 1])
      ensures num == 0 ==> live == old(live) && count == old(count) && stack == old(stack)
      ensures turn == old(turn) + if g.numa then 1 else 0
      ensures num != 0 ==>
                var r := InodeRegion(g.numa, num);
                && InodePhys(g, num) == old(head)[r]
                && old(stack)[r] == stack[r] + [num] && stack[1 - r] == old(stack)[1 - r]
      ensures num != 0 ==> HasSlot(g, num) && !Reserved(g, num) && num !in old(live) && live == old(live) + {num}
      ensures ino == (if fails then 0 else num) && lost == if fails && num != 0 then old(lost) + {num} else old(lost)
    {
      hide ListsOk, HasSlot, RegionsOk, Reserved, Parted, InodeRegion;
      var r := 0;
      if g.numa {
        turn := turn + 1;
        r := turn % 2;
      }
      ino, num := 0, 0;
      if count[r] > 0 {
        ino := Take(r);
        num := ino;
        if fails {
          lost := lost + {ino};
          ino := 0;
        }
      }
    }

    /** The first number of the list of region `r`. */
    method Take(r: nat) returns (ino: Ino)
      requires Valid() && r < 2 && count[r] > 0
      modifies this`head, this`count, this`link, this`stack, this`live
      ensures Valid() && count == old(count)[r := old(count)[r] - 1] && live == old(live) + {ino}
      ensures ino > 0 && HasSlot(g, ino) && !Reserved(g, ino) && InodeRegion(g.numa, ino) == r && ino !in old(live)
      ensures InodePhys(g, ino) == old(head)[r]
      ensures old(stack)[r] == stack[r] + [ino] && stack[1 - r] == old(stack)[1 - r]
    {
      hide ListOk, HasSlot, RegionsOk, InodePhys, InodeNumber, SlotOf, Reserved, Parted, InodeRegion;
      assert ListOk(g, r, stack[r], tail[r], head[r], link);
      Pop(g, r, stack[r], tail[r], head[r], link);
      TopOk(g, r, stack[r], tail[r], head[r], link);
      var phys := head[r];
      ino := InodeNumber(g, phys);
      ghost var s := stack[r][..|stack[r]| - 1];
      LinkElsewhere(g, r, s, tail[r], link[phys], link, ino, 0);
      assert ino !in stack[1 - r] by {
        NotOther(g, 1 - r, stack[1 - r], tail[1 - r], head[1 - r], link, ino, r);
      }
      LinkElsewhere(g, 1 - r, stack[1 - r], tail[1 - r], head[1 - r], link, ino, 0);
      TakeParted(g, stack, live, r, s, ino);
      ListsPut(g, count, stack, tail, head, link[phys := 0], r, s, link[phys]);
      head := head[r := link[phys]];
      link := link[phys := 0];
      count := count[r := count[r] - 1];
      stack := stack[r := s];
      live := live + {ino};
    }

    /** The list part of `rdfs_free_inode`: the inode goes back on the list of its region. */
    method FreeInode(ino: Ino)
      requires Valid() && ino in live - lost
      modifies this`head, this`count, this`link, this`stack, this`live
      ensures Valid() && live == old(live) - {ino}
      ensures var r := InodeRegion(g.numa, ino);
              && head[r] == InodePhys(g, ino) && count == old(count)[r := old(count)[r] + 1]
              && stack[r] == old(stack)[r] + [ino] && stack[1 - r] == old(stack)[1 - r]
    {
      hide ListOk, HasSlot, RegionsOk, InodePhys, InodeNumber, SlotOf, Reserved, Parted, Side, InodeRegion;
      InodeRegionIsSide(g, ino);
      var phys := InodePhys(g, ino);
      var r := Side(g.numa, phys);
      GiveParted(g, stack, live, r, ino);
      assert ListOk(g, r, stack[r], tail[r], head[r], link);
      assert ListOk(g, 1 - r, stack[1 - r], tail[1 - r], head[1 - r], link);
      LinkElsewhere(g, 1 - r, stack[1 - r], tail[1 - r], head[1 - r], link, ino, head[r]);
      PushLinked(g, r, stack[r], tail[r], head[r], link, ino);
      ListsPut(g, count, stack, tail, head, link[phys := head[r]], r, stack[r] + [ino], phys);
      link := link[phys := head[r]];
      head := head[r := phys];
      count := count[r := count[r] + 1];
      stack := stack[r := stack[r] + [ino]];
      live := live - {ino};
    }
  }

  lemma TopOk(g: Regions, r: nat, stack: seq<Ino>, tail: int, head: int, link: map<int, int>)
    requires ListOk(g, r, stack, tail, head, link) && stack != []
    ensures var ino := stack[|stack| - 1];
            ino > 0 && HasSlot(g, ino) && !Reserved(g, ino) && InodeRegion(g.numa, ino) == r
  {
  }

  lemma NotOther(g: Regions, r: nat, stack: seq<Ino>, tail: int, head: int, link: map<int, int>, ino: Ino, s: nat)
    requires ListOk(g, r, stack, tail, head, link) && InodeRegion(g.numa, ino) == s != r
    ensures ino !in stack
  {
  }

  // ----- the initial lists -----

  /** The slots of region `r` that go on its list. */
  function Listed(g: Regions, r: nat): nat {
    if r == 0 then (if g.slots0 > 0 then g.slots0 - 1 else 0) else if g.numa && g.slots1 > 0 then g.slots1 - 1 else 0
  }

  function NumberAt(g: Regions, r: nat, s: nat): Ino {
    if g.numa then 2 * s + 1 + r else s + 1
  }

  function Base(g: Regions, r: nat): nat {
    (if r == 0 then g.des0 else g.des1) + DESCRIPTOR_SIZE
  }

  /** The inode numbers of a fresh list, bottom first: the last slot down to slot 1. */
  function Slots(g: Regions, r: nat): (l: seq<Ino>)
    ensures |l| == Listed(g, r) && forall h: nat :: h < |l| ==> l[h] == NumberAt(g, r, |l| - h)
  {
    seq(Listed(g, r), h requires 0 <= h < Listed(g, r) => NumberAt(g, r, Listed(g, r) - h))
  }

  lemma NumberAtSlot(g: Regions, r: nat, s: nat)
    requires RegionsOk(g) && r < 2 && 0 < s <= Listed(g, r)
    ensures var ino := NumberAt(g, r, s);
            HasSlot(g, ino) && !Reserved(g, ino) && InodeRegion(g.numa, ino) == r &&
            InodePhys(g, ino) == Base(g, r) + s * INODE_SIZE
  {
  }

  /** The loop that links every slot to the next. */
  method Thread(first: nat, n: nat) returns (link: map<int, int>)
    ensures forall k: nat :: k < n ==> Next(link, first + k * INODE_SIZE)
    ensures forall a :: a in link ==> first <= a < first + n * INODE_SIZE
  {
    link := map[];
    var i := 0;
    while i < n
      invariant i <= n && (forall k: nat :: k < i ==> Next(link, first + k * INODE_SIZE))
      invariant forall a :: a in link ==> first <= a < first + i * INODE_SIZE
    {
      link := link[first + i * INODE_SIZE := first + i * INODE_SIZE + INODE_SIZE];
      i := i + 1;
    }
  }

  predicate Next(link: map<int, int>, a: int) {
    a in link && link[a] == a + INODE_SIZE
  }

  /** The address of slot 1 of region `r`, and that behind its last slot. */
  function FirstOf(g: Regions, r: nat): nat {
    Base(g, r) + INODE_SIZE
  }

  function EndOf(g: Regions, r: nat): nat {
    Base(g, r) + INODE_SIZE * (Listed(g, r) + 1)
  }

  /** Both lists are threaded. */
  method Threads(g: Regions) returns (link: map<int, int>)
    requires RegionsOk(g)
    ensures ListOk(g, 0, Slots(g, 0), EndOf(g, 0), FirstOf(g, 0), link)
    ensures ListOk(g, 1, Slots(g, 1), EndOf(g, 1), FirstOf(g, 1), link)
  {
    hide ListOk, RegionsOk, Slots, Base, Listed;
    var l0 := Thread(FirstOf(g, 0), Listed(g, 0));
    var l1 := Thread(FirstOf(g, 1), Listed(g, 1));
    ThreadsApart(g, l0, l1);
    link := l0 + l1;
    ThreadOk(g, 0, l0, link);
    ThreadOk(g, 1, l1, link);
  }

  /** The areas of the two regions do not meet. */
  lemma ThreadsApart(g: Regions, l0: map<int, int>, l1: map<int, int>)
    requires RegionsOk(g)
    requires forall a :: a in l0 ==> Base(g, 0) + INODE_SIZE <= a < Base(g, 0) + INODE_SIZE + Listed(g, 0) * INODE_SIZE
    requires forall a :: a in l1 ==> Base(g, 1) + INODE_SIZE <= a < Base(g, 1) + INODE_SIZE + Listed(g, 1) * INODE_SIZE
    ensures forall a :: a in l0 ==> a in l0 + l1 && (l0 + l1)[a] == l0[a]
    ensures forall a :: a in l1 ==> a in l0 + l1 && (l0 + l1)[a] == l1[a]
  {
  }

  /** The fresh list of region `r`, in a memory that holds its links. */
  lemma ThreadOk(g: Regions, r: nat, own: map<int, int>, link: map<int, int>)
    requires RegionsOk(g) && r < 2
    requires forall k: nat :: k < Listed(g, r) ==> Next(own, Base(g, r) + INODE_SIZE + k * INODE_SIZE)
    requires forall a :: a in own ==> a in link && link[a] == own[a]
    ensures ListOk(g, r, Slots(g, r), Base(g, r) + INODE_SIZE * (Listed(g, r) + 1), Base(g, r) + INODE_SIZE, link)
  {
    var n, l, tail := Listed(g, r), Slots(g, r), Base(g, r) + INODE_SIZE * (Listed(g, r) + 1);
    hide HasSlot, RegionsOk, InodePhys, SlotOf, Reserved, InodeRegion, Slots, Base, Listed;
    forall h: nat | h < n
      ensures HasSlot(g, l[h]) && !Reserved(g, l[h]) && InodeRegion(g.numa, l[h]) == r
      ensures InodePhys(g, l[h]) == Base(g, r) + (n - h) * INODE_SIZE && Next(link, InodePhys(g, l[h]))
    {
      NumberAtSlot(g, r, n - h);
      assert Next(own, Base(g, r) + INODE_SIZE + (n - h - 1) * INODE_SIZE);
    }
    forall h: nat | h < n
      ensures link[InodePhys(g, l[h])] == Under(g, l, tail, h)
    {
      assert Next(link, InodePhys(g, l[h]));
    }
  }

  lemma SlotListed(g: Regions, ino: Ino)
    requires RegionsOk(g) && HasSlot(g, ino) && !Reserved(g, ino)
    ensures ino in Slots(g, InodeRegion(g.numa, ino))
  {
    var r, s := InodeRegion(g.numa, ino), SlotOf(g, ino);
    var l := Slots(g, r);
    assert l[|l| - s] == NumberAt(g, r, s) == ino;
  }
}
