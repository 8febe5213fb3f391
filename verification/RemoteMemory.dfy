/** A slave's registered memory as blocks: the address that `rdfs_rdma_block_rw` (server.c) computes, which bytes of the
    memory a transfer touches, and which granted blocks lie in it. */
module RemoteMemory {
  import opened Bytes
  import opened Chunks
  import opened Machine
  import opened SplitIo

  /** Location `l` is in the `total` pages that its slave registered at `base`. */
  predicate InMemory(base: nat -> nat, total: nat, l: Loc) {
    base(l.slave) <= l.address < base(l.slave) + total * PAGE_SIZE
  }

  /** Block 0 begins where the memory does, the bytes of a block follow each other, and each block begins where the one
      before it ends. */
  lemma BlocksFollow(base: nat -> nat, s: nat, k: nat, off: nat)
    ensures At(base, Block(s, 0), 0) == Loc(s, base(s))
    ensures At(base, Block(s, k), off + 1) == Loc(s, At(base, Block(s, k), off).address + 1)
    ensures At(base, Block(s, k + 1), 0) == Loc(s, At(base, Block(s, k), PAGE_SIZE - 1).address + 1)
  {
    assert (k + 1) * PAGE_SIZE == k * PAGE_SIZE + PAGE_SIZE;
  }

  /** The block and offset of an address. */
  function Where(base: nat -> nat, l: Loc): (Block, nat)
    requires base(l.slave) <= l.address
  {
    var x := l.address - base(l.slave);
    (Block(l.slave, x / PAGE_SIZE), x % PAGE_SIZE)
  }

  /** The blocks 0 to `total - 1` of a slave tile its memory: offsets within such blocks are addresses of the memory,
      and every address of the memory is exactly one block and offset. */
  lemma BlocksTile(base: nat -> nat, total: nat, l: Loc, b: Block, off: nat)
    requires off < PAGE_SIZE
    ensures InMemory(base, total, At(base, b, off)) <==> b.id < total
    ensures base(b.slave) <= At(base, b, off).address && Where(base, At(base, b, off)) == (b, off)
    ensures InMemory(base, total, l) ==>
              var (c, o) := Where(base, l); c.slave == l.slave && c.id < total && o < PAGE_SIZE && At(base, c, o) == l
  {
    Scaled(b.id, off, total);
    if InMemory(base, total, l) {
      var x := l.address - base(l.slave);
      Scaled(x / PAGE_SIZE, x % PAGE_SIZE, total);
    }
  }

  lemma Scaled(k: nat, off: nat, total: nat)
    requires off < PAGE_SIZE
    ensures k * PAGE_SIZE + off < total * PAGE_SIZE <==> k < total
    ensures (k * PAGE_SIZE + off) / PAGE_SIZE == k && (k * PAGE_SIZE + off) % PAGE_SIZE == off
  {
  }

  /** A transfer that stays in its block changes only bytes of that block. */
  lemma SentInBlock(remote: map<Loc, Byte>, base: nat -> nat, b: Block, off: nat, data: seq<Byte>, l: Loc)
    requires off + |data| <= PAGE_SIZE && base(l.slave) <= l.address
    requires Fetch(Sent(remote, base, b, off, data), l) != Fetch(remote, l)
    ensures Where(base, l).0 == b && off <= Where(base, l).1 < off + |data|
    ensures Fetch(Sent(remote, base, b, off, data), l) == data[Where(base, l).1 - off]
  {
    hide Sent, Fetch;
    SentIs(remote, base, b, off, data, l);
    Scaled(b.id, l.address - base(l.slave) - b.id * PAGE_SIZE, b.id + 1);
  }

  /** Nor does it change anything before the memory. */
  lemma SentFromBase(remote: map<Loc, Byte>, base: nat -> nat, b: Block, off: nat, data: seq<Byte>, l: Loc)
    requires l.address < base(l.slave)
    ensures Fetch(Sent(remote, base, b, off, data), l) == Fetch(remote, l)
  {
    hide Sent, Fetch;
    SentIs(remote, base, b, off, data, l);
  }

  /** A transfer of a block below `total` leaves everything outside the slave's memory as it was. */
  lemma SentInMemory(remote: map<Loc, Byte>, base: nat -> nat, b: Block, off: nat, data: seq<Byte>, total: nat, l: Loc)
    requires off + |data| <= PAGE_SIZE && b.id < total
    requires !(l.slave == b.slave && InMemory(base, total, l))
    ensures Fetch(Sent(remote, base, b, off, data), l) == Fetch(remote, l)
  {
    hide Sent, Fetch;
    if l.address < base(l.slave) {
      SentFromBase(remote, base, b, off, data, l);
    } else if Fetch(Sent(remote, base, b, off, data), l) != Fetch(remote, l) {
      SentInBlock(remote, base, b, off, data, l);
      var (c, o) := Where(base, l);
      BlocksTile(base, total, l, c, o);
    }
  }

  // ----- granted blocks -----

  /** Over any run of grants with room, every byte of every granted block is a byte of its slave's memory. */
  lemma GrantsInMemory(st: State, asks: seq<Ask>, base: nat -> nat, i: nat, off: nat)
    requires Ok(st) && FirstGranted(st) && Picks(st, asks) && RoomForAll(st, asks)
    requires i < |st.log| + |asks| && off < PAGE_SIZE
    ensures var r := Run(st, asks); var b := r.log[i];
            b.slave < |r.slaves| && InMemory(base, r.slaves[b.slave].total, At(base, b, off))
  {
    hide Ok, FirstGranted, RoomForAll, Run;
    RunOk(st, asks);
    var r := Run(st, asks);
    assert r.log[i].slave < |r.slaves| && r.log[i].id < r.slaves[r.log[i].slave].total;
    BlocksTile(base, r.slaves[r.log[i].slave].total, At(base, r.log[i], off), r.log[i], off);
  }

  /** The address as the 64-bit word that goes into the request. */
  function WordAt(base: nat -> nat, b: Block, off: nat): Loc {
    Loc(b.slave, At(base, b, off).address % WORD_LIMIT)
  }

  /** A transfer of a granted block lies in the slave's memory if and only if there was room for the grant: otherwise
      the address wraps to the page before the memory. */
  lemma GrantInMemoryIff(st: State, f: nat, pick: nat, base: nat -> nat, off: nat)
    requires Ok(st) && pick < |st.slaves| && off < PAGE_SIZE
    requires forall s: nat :: s < |st.slaves| ==> base(s) + (st.slaves[s].total + 1) * PAGE_SIZE <= WORD_LIMIT
    ensures var b := Granted(st, f, pick).1; var l := WordAt(base, b, off);
            && b.slave < |st.slaves|
            && (InMemory(base, st.slaves[b.slave].total, l) <==> Roomy(st, f, pick))
            && (Roomy(st, f, pick) ==> l == At(base, b, off))
            && (!Roomy(st, f, pick) ==> l.address == (base(pick) - PAGE_SIZE + off) % WORD_LIMIT)
  {
    hide Ok, Roomy, Granted;
    GrantInRangeIff(st, f, pick);
    var b := Granted(st, f, pick).1;
    var total := st.slaves[b.slave].total;
    assert base(b.slave) + (total + 1) * PAGE_SIZE <= WORD_LIMIT;
    BlocksTile(base, total, At(base, b, off), b, off);
    if !Roomy(st, f, pick) {
      PageBefore(base(pick), off, total);
    }
  }

  lemma PageBefore(base: nat, off: nat, total: nat)
    requires off < PAGE_SIZE && base + (total + 1) * PAGE_SIZE <= WORD_LIMIT
    ensures (base + (WORD_LIMIT - 1) * PAGE_SIZE + off) % WORD_LIMIT == (base - PAGE_SIZE + off) % WORD_LIMIT
    ensures !(base <= (base - PAGE_SIZE + off) % WORD_LIMIT < base + total * PAGE_SIZE)
  {
    var x := base - PAGE_SIZE + off;
    assert base + (WORD_LIMIT - 1) * PAGE_SIZE + off == x + PAGE_SIZE * WORD_LIMIT;
    if x < 0 {
      assert x % WORD_LIMIT == x + WORD_LIMIT;
    } else {
      assert x % WORD_LIMIT == x;
    }
  }
}
