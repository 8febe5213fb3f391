/** Remote blocks (memory.c): each slave's memory is a list of 64-block chunks; a file takes a chunk and
    hands out its blocks one by one. */
module Chunks {
  import opened Finite
  import opened Machine

  const CHUNK := 64

  /** `struct slave_info`: the free chunks by their first block, `free_block_nums`, `total_block_nums`. */
  datatype Slave = Slave(chunks: seq<nat>, free: int, total: nat)

  /** `struct pre_alloc_bitmap`. */
  datatype Pre = NoPre | Pre(start: nat, bits: seq<bool>, slave: nat, index: nat)

  /** The chunk a file allocates from, and the chunks it has used up. */
  datatype File = File(pre: Pre, used: seq<Chunk>)

  datatype Chunk = Chunk(slave: nat, number: nat)

  datatype Block = Block(slave: nat, id: nat)

  /** Slaves and files; `log` are the blocks granted so far and `owner` the files that took the chunks. */
  datatype State = State(slaves: seq<Slave>, files: map<nat, File>, log: seq<Block>, owner: map<Chunk, nat>)

  function FileOf(files: map<nat, File>, f: nat): File {
    if f in files then files[f] else File(NoPre, [])
  }

  /** Chunks that slave `s` has given away. */
  function Taken(s: Slave): int {
    s.total / CHUNK - |s.chunks|
  }

  // ----- the invariant -----

  /** The list holds the chunks not yet taken, in order, and the count of free blocks is 64 per chunk plus
      the blocks that make up no whole chunk. */
  ghost predicate SlaveOk(s: Slave) {
    && 0 <= Taken(s) && s.total < WORD_LIMIT / 2
    && s.free == CHUNK * |s.chunks| + s.total % CHUNK
    && forall j: nat :: j < |s.chunks| ==> s.chunks[j] == CHUNK * (Taken(s) + j)
  }

  ghost predicate Owns(st: State, f: nat, c: Chunk) {
    c.slave < |st.slaves| && c.number < Taken(st.slaves[c.slave]) && c in st.owner && st.owner[c] == f
  }

  /** The bitmap of a file is exactly the low `index` bits. */
  ghost predicate PreOk(st: State, f: nat) {
    var p := FileOf(st.files, f).pre;
    p.Pre? ==>
      && p.start % CHUNK == 0 && Owns(st, f, Chunk(p.slave, p.start / CHUNK))
      && p.index <= CHUNK && |p.bits| == CHUNK && forall j: nat :: j < CHUNK ==> (p.bits[j] <==> j < p.index)
  }

  /** A granted block lies in a chunk of its file, below the index if the file still allocates from it. */
  ghost predicate BlockOk(st: State, b: Block) {
    && b.slave < |st.slaves| && b.id < st.slaves[b.slave].total
    && var c := Chunk(b.slave, b.id / CHUNK);
       && c in st.owner && Owns(st, st.owner[c], c)
       && var p := FileOf(st.files, st.owner[c]).pre;
          p.Pre? && (p.slave == b.slave && p.start == CHUNK * (b.id / CHUNK) ==> b.id % CHUNK < p.index)
  }

  function Current(p: Pre): Chunk
    requires p.Pre?
  {
    Chunk(p.slave, p.start / CHUNK)
  }

  function BlockOf(c: Chunk, k: nat): Block {
    Block(c.slave, CHUNK * c.number + k)
  }

  /** The first `n` blocks of chunk `c` were granted. */
  ghost predicate Full(log: seq<Block>, c: Chunk, n: nat) {
    forall k: nat :: k < n ==> BlockOf(c, k) in log
  }

  /** The chunks of a file are the one it allocates from, granted up to the index, and those it has used up, once each
      and granted whole. */
  ghost predicate UsedOk(st: State, f: nat) {
    var file := FileOf(st.files, f);
    && (forall i: nat :: i < |file.used| ==> Owns(st, f, file.used[i]) && Full(st.log, file.used[i], CHUNK))
    && (forall i: nat, j: nat :: i < j < |file.used| ==> file.used[i] != file.used[j])
    && (forall c :: c in st.owner && st.owner[c] == f ==> file.pre.Pre? && (c == Current(file.pre) || c in file.used))
    && (file.pre.Pre? ==> Full(st.log, Current(file.pre), file.pre.index) && Current(file.pre) !in file.used)
    && (file.pre.NoPre? ==> file.used == [])
  }

  ghost predicate Ok(st: State) {
    && (forall s: nat :: s < |st.slaves| ==> SlaveOk(st.slaves[s]))
    && (forall c :: c in st.owner ==> c.slave < |st.slaves| && c.number < Taken(st.slaves[c.slave]))
    && (forall f: nat :: PreOk(st, f) && UsedOk(st, f))
    && (forall i: nat :: i < |st.log| ==> BlockOk(st, st.log[i]))
    && Distinct(st.log)
  }

  // ----- one grant -----

  /** Whether the file's chunk has a block left, or slave `pick` a chunk. */
  predicate Roomy(st: State, f: nat, pick: nat)
    requires pick < |st.slaves|
  {
    (FileOf(st.files, f).pre.Pre? && FileOf(st.files, f).pre.index < CHUNK) || st.slaves[pick].chunks != []
  }

  /** `rdfs_alloc_slave_memory_bitmap`: the first chunk, or -1. */
  function FirstChunk(s: Slave): (Slave, nat) {
    if s.free == 0 || s.chunks == [] then (s, WORD_LIMIT - 1)
    else (s.(chunks := s.chunks[1..], free := s.free - CHUNK), s.chunks[0])
  }

  /** The file with a chunk to allocate from; `pick` is the slave `rdfs_select_slave` chose. */
  function Prepared(st: State, f: nat, pick: nat): (r: State)
    requires pick < |st.slaves|
    ensures FileOf(r.files, f).pre.Pre? && |r.slaves| == |st.slaves| && r.log == st.log
  {
    var file := FileOf(st.files, f);
    if file.pre.NoPre? || file.pre.index == CHUNK then
      var (s, start) := FirstChunk(st.slaves[pick]);
      var used := if file.pre.NoPre? then file.used else [Chunk(file.pre.slave, file.pre.start / CHUNK)] + file.used;
      var pre := Pre(start, seq(CHUNK, _ => false), pick, 0);
      State(st.slaves[pick := s], st.files[f := File(pre, used)], st.log, st.owner[Chunk(pick, start / CHUNK) := f])
    else st
  }

  /** The bit at the index is set and the index moves on. */
  function Advanced(p: Pre): Pre
    requires p.Pre?
  {
    p.(bits := if p.index < |p.bits| then p.bits[p.index := true] else p.bits, index := p.index + 1)
  }

  /** `rdfs_alloc_slave_bitmap_memory`. */
  function Granted(st: State, f: nat, pick: nat): (State, Block)
    requires pick < |st.slaves|
  {
    var st' := Prepared(st, f, pick);
    var p := FileOf(st'.files, f).pre;
    var b := Block(p.slave, (p.index + p.start) % WORD_LIMIT);
    var file := File(Advanced(p), FileOf(st'.files, f).used);
    (st'.(files := st.files[f := file], log := st'.log + [b]), b)
  }

  lemma TakeOk(s: Slave)
    requires SlaveOk(s) && s.chunks != []
    ensures var (t, start) := FirstChunk(s);
            SlaveOk(t) && start == CHUNK * Taken(s) && Taken(t) == Taken(s) + 1 && t.total == s.total
  {
  }

  lemma PreparedParts(st: State, f: nat, pick: nat)
    requires Ok(st) && pick < |st.slaves| && st.slaves[pick].chunks != []
    requires FileOf(st.files, f).pre.NoPre? || FileOf(st.files, f).pre.index == CHUNK
    ensures var st', file, c := Prepared(st, f, pick), FileOf(st.files, f), Chunk(pick, Taken(st.slaves[pick]));
            && c !in st.owner && st'.owner == st.owner[c := f] && |st'.slaves| == |st.slaves|
            && (forall s: nat :: s < |st.slaves| ==>
                  Taken(st'.slaves[s]) == Taken(st.slaves[s]) + if s == pick then 1 else 0)
            && (forall g: nat :: g != f ==> FileOf(st'.files, g) == FileOf(st.files, g))
            && var file' := FileOf(st'.files, f);
               && file'.pre.Pre? && file'.pre.index == 0 && Current(file'.pre) == c
               && file'.used == if file.pre.NoPre? then file.used else [Current(file.pre)] + file.used
  {
    assert SlaveOk(st.slaves[pick]);
    TakeOk(st.slaves[pick]);
    hide SlaveOk, PreOk, UsedOk, BlockOk, FirstChunk;
  }

  lemma PreparedUsed(st: State, f: nat, pick: nat, g: nat)
    requires Ok(st) && pick < |st.slaves| && st.slaves[pick].chunks != []
    requires FileOf(st.files, f).pre.NoPre? || FileOf(st.files, f).pre.index == CHUNK
    ensures UsedOk(Prepared(st, f, pick), g)
  {
    PreparedParts(st, f, pick);
    assert PreOk(st, f) && UsedOk(st, f) && UsedOk(st, g);
    var st', c := Prepared(st, f, pick), Chunk(pick, Taken(st.slaves[pick]));
    forall x | Owns(st, g, x)
      ensures Owns(st', g, x) && x != c
    {
      hide Ok, PreOk, UsedOk, Prepared;
    }
    hide Ok, PreOk, UsedOk, Prepared, Full, Owns, Taken;
    if g != f {
      UsedOther(st, st', f, g, c);
    } else {
      OwnsCurrent(st, f);
      UsedMore(st, st', f, c);
    }
  }

  lemma OwnsCurrent(st: State, f: nat)
    requires PreOk(st, f)
    ensures var p := FileOf(st.files, f).pre; p.Pre? ==> Owns(st, f, Current(p))
  {
  }

  lemma UsedOther(st: State, st': State, f: nat, g: nat, c: Chunk)
    requires UsedOk(st, g) && g != f && c !in st.owner && st'.owner == st.owner[c := f] && st'.log == st.log
    requires FileOf(st'.files, g) == FileOf(st.files, g) && forall x :: Owns(st, g, x) ==> Owns(st', g, x)
    ensures UsedOk(st', g)
  {
    hide Full, Owns, FileOf, Current;
  }

  lemma UsedMore(st: State, st': State, f: nat, c: Chunk)
    requires UsedOk(st, f) && c !in st.owner && st'.owner == st.owner[c := f] && st'.log == st.log
    requires forall x :: Owns(st, f, x) ==> Owns(st', f, x) && x != c
    requires var file, file' := FileOf(st.files, f), FileOf(st'.files, f);
             && file'.pre.Pre? && file'.pre.index == 0 && Current(file'.pre) == c
             && (file.pre.Pre? ==> Owns(st, f, Current(file.pre)) && file.pre.index == CHUNK)
             && file'.used == if file.pre.NoPre? then file.used else [Current(file.pre)] + file.used
    ensures UsedOk(st', f)
  {
    var file, file' := FileOf(st.files, f), FileOf(st'.files, f);
    assert Full(st'.log, c, 0);
    if file.pre.Pre? {
      UsedFront(st, f, Current(file.pre));
      hide UsedOk, Full, Owns, FileOf, Current;
      UsedBuild(st', f, c);
    } else {
      hide Full, Owns, FileOf, Current;
    }
  }

  /** The current chunk of a file in front of its used ones: all owned, granted whole, different, and all it has. */
  lemma UsedFront(st: State, f: nat, cur: Chunk)
    requires UsedOk(st, f)
    requires var p := FileOf(st.files, f).pre; p.Pre? && cur == Current(p) && Owns(st, f, cur) && p.index == CHUNK
    ensures var used := [cur] + FileOf(st.files, f).used;
            && (forall x :: x in used ==> Owns(st, f, x) && Full(st.log, x, CHUNK))
            && (forall i: nat, j: nat :: i < j < |used| ==> used[i] != used[j])
            && (forall x :: x in st.owner && st.owner[x] == f ==> x in used)
  {
    hide Full, Owns;
    var file := FileOf(st.files, f);
    hide FileOf;
    forall x | x in [cur] + file.used
      ensures Owns(st, f, x) && Full(st.log, x, CHUNK)
    {
      if x in file.used {
        var i: nat :| i < |file.used| && file.used[i] == x;
      }
    }
  }

  lemma UsedBuild(st: State, f: nat, c: Chunk)
    requires var file := FileOf(st.files, f);
             && file.pre.Pre? && file.pre.index == 0 && Current(file.pre) == c && c !in file.used
             && (forall x :: x in file.used ==> Owns(st, f, x) && Full(st.log, x, CHUNK))
             && (forall i: nat, j: nat :: i < j < |file.used| ==> file.used[i] != file.used[j])
             && (forall x :: x in st.owner && st.owner[x] == f ==> x == c || x in file.used)
    requires Full(st.log, c, 0)
    ensures UsedOk(st, f)
  {
    hide Full, Owns, FileOf, Current;
  }

  lemma FillUsed(st: State, f: nat, g: nat)
    requires Ok(st) && FileOf(st.files, f).pre.Pre? && FileOf(st.files, f).pre.index < CHUNK
    ensures var p := FileOf(st.files, f).pre;
            && p.index < |p.bits|
            && UsedOk(st.(files := st.files[f := File(Advanced(p), FileOf(st.files, f).used)],
                          log := st.log + [Block(p.slave, p.index + p.start)]), g)
  {
    assert PreOk(st, f) && UsedOk(st, f) && UsedOk(st, g);
    hide Ok, PreOk, SlaveOk, BlockOk;
    var p := FileOf(st.files, f).pre;
    assert BlockOf(Current(p), p.index) == Block(p.slave, p.index + p.start);
  }

  lemma PreparedOk(st: State, f: nat, pick: nat)
    requires Ok(st) && pick < |st.slaves| && Roomy(st, f, pick)
    ensures var st' := Prepared(st, f, pick);
            && Ok(st') && st'.log == st.log && |st'.slaves| == |st.slaves|
            && FileOf(st'.files, f).pre.Pre? && FileOf(st'.files, f).pre.index < CHUNK
            && forall s: nat :: s < |st.slaves| ==> st'.slaves[s].total == st.slaves[s].total
  {
    hide UsedOk;
    var st' := Prepared(st, f, pick);
    assert PreOk(st, f);
    var pre := FileOf(st.files, f).pre;
    if pre.NoPre? || pre.index == CHUNK {
      TakeOk(st.slaves[pick]);
      hide SlaveOk, Distinct, PreOk, BlockOk;
      forall g: nat
        ensures PreOk(st', g) && UsedOk(st', g)
      {
        PreparedPre(st, f, pick, g);
        PreparedUsed(st, f, pick, g);
      }
      forall i: nat | i < |st'.log|
        ensures BlockOk(st', st'.log[i])
      {
        PreparedBlock(st, f, pick, st.log[i]);
      }
    }
  }

  lemma PreparedPre(st: State, f: nat, pick: nat, g: nat)
    requires Ok(st) && pick < |st.slaves| && st.slaves[pick].chunks != []
    requires FileOf(st.files, f).pre.NoPre? || FileOf(st.files, f).pre.index == CHUNK
    ensures PreOk(Prepared(st, f, pick), g)
  {
    assert PreOk(st, g);
    assert SlaveOk(st.slaves[pick]);
    TakeOk(st.slaves[pick]);
    PreparedParts(st, f, pick);
    hide Ok, SlaveOk;
    if g != f {
      hide Prepared, Taken;
    } else {
      hide Taken;
    }
  }

  lemma PreparedBlock(st: State, f: nat, pick: nat, b: Block)
    requires Ok(st) && pick < |st.slaves| && st.slaves[pick].chunks != [] && BlockOk(st, b)
    requires FileOf(st.files, f).pre.NoPre? || FileOf(st.files, f).pre.index == CHUNK
    ensures BlockOk(Prepared(st, f, pick), b)
  {
    assert SlaveOk(st.slaves[pick]);
    TakeOk(st.slaves[pick]);
    PreparedParts(st, f, pick);
    hide Ok, SlaveOk;
  }

  lemma PreparedElse(st: State, f: nat, pick: nat, x: File)
    requires pick < |st.slaves|
    ensures Prepared(st, f, pick).files[f := x] == st.files[f := x]
  {
  }

  /** A grant while there is room: a block that was never granted, below the slave's block count. */
  lemma GrantOk(st: State, f: nat, pick: nat)
    requires Ok(st) && pick < |st.slaves| && Roomy(st, f, pick)
    ensures var (st', b) := Granted(st, f, pick);
            && Ok(st') && st'.log == st.log + [b] && b !in st.log
            && |st'.slaves| == |st.slaves| && b.slave < |st.slaves| && b.id < st.slaves[b.slave].total
  {
    hide Ok, Roomy;
    PreparedOk(st, f, pick);
    var st1 := Prepared(st, f, pick);
    hide Prepared;
    FillOk(st1, f);
    var p := FileOf(st1.files, f).pre;
    PreparedElse(st, f, pick, File(Advanced(p), FileOf(st1.files, f).used));
  }

  /** The next block of a file's chunk: in range, and not granted yet. */
  lemma NextBlock(st: State, f: nat)
    requires Ok(st) && FileOf(st.files, f).pre.Pre? && FileOf(st.files, f).pre.index < CHUNK
    ensures var p := FileOf(st.files, f).pre; var id := p.index + p.start;
            && p.index < |p.bits| && p.slave < |st.slaves| && id < st.slaves[p.slave].total && id % WORD_LIMIT == id
            && id / CHUNK == p.start / CHUNK && id % CHUNK == p.index && p.start == CHUNK * (id / CHUNK)
            && Owns(st, f, Chunk(p.slave, id / CHUNK)) && Block(p.slave, id) !in st.log
  {
    hide UsedOk;
    var p := FileOf(st.files, f).pre;
    assert PreOk(st, f);
    assert SlaveOk(st.slaves[p.slave]);
  }

  lemma FillOk(st: State, f: nat)
    requires Ok(st) && FileOf(st.files, f).pre.Pre? && FileOf(st.files, f).pre.index < CHUNK
    ensures var p := FileOf(st.files, f).pre;
            && p.index < |p.bits| && p.slave < |st.slaves|
            && var b := Block(p.slave, (p.index + p.start) % WORD_LIMIT);
               && b !in st.log && b.id < st.slaves[b.slave].total && b.id == p.index + p.start
               && Ok(st.(files := st.files[f := File(Advanced(p), FileOf(st.files, f).used)],
                         log := st.log + [b]))
  {
    hide UsedOk, SlaveOk;
    NextBlock(st, f);
    var p := FileOf(st.files, f).pre;
    var b := Block(p.slave, p.index + p.start);
    var st' := st.(files := st.files[f := File(Advanced(p), FileOf(st.files, f).used)],
                   log := st.log + [b]);
    forall g: nat
      ensures PreOk(st', g) && UsedOk(st', g)
    {
      assert PreOk(st, g);
      FillUsed(st, f, g);
    }
    forall i: nat | i < |st'.log|
      ensures BlockOk(st', st'.log[i])
    {
      FillBlock(st, f, st', i);
    }
  }

  lemma FillBlock(st: State, f: nat, st': State, i: nat)
    requires Ok(st) && FileOf(st.files, f).pre.Pre? && FileOf(st.files, f).pre.index < CHUNK
    requires var p := FileOf(st.files, f).pre;
             st' == st.(files := st'.files, log := st.log + [Block(p.slave, p.index + p.start)]) && f in st'.files &&
             st'.files == st.files[f := st'.files[f]] && st'.files[f].pre.Pre? && st'.files[f].pre.slave == p.slave &&
             st'.files[f].pre.start == p.start && st'.files[f].pre.index == p.index + 1
    requires i < |st'.log|
    ensures BlockOk(st', st'.log[i])
  {
    NextBlock(st, f);
    hide UsedOk, SlaveOk, PreOk;
    if i < |st.log| {
      assert BlockOk(st, st.log[i]);
    }
  }

  /** Without room the block id is 2^64 - 1, which no slave has; so a grant is in range exactly when there
      is room. */
  lemma GrantInRangeIff(st: State, f: nat, pick: nat)
    requires Ok(st) && pick < |st.slaves|
    ensures var b := Granted(st, f, pick).1;
            && b.slave < |st.slaves|
            && (b.id < st.slaves[b.slave].total <==> Roomy(st, f, pick))
            && (!Roomy(st, f, pick) ==> b == Block(pick, WORD_LIMIT - 1))
  {
    assert PreOk(st, f);
    assert SlaveOk(st.slaves[pick]);
    if Roomy(st, f, pick) {
      GrantOk(st, f, pick);
    }
  }

  // ----- runs -----

  datatype Ask = Ask(file: nat, pick: nat)

  predicate Picks(st: State, asks: seq<Ask>) {
    forall i: nat :: i < |asks| ==> asks[i].pick < |st.slaves|
  }

  /** The state after the asks, whether there was room for them or not. */
  ghost function Run(st: State, asks: seq<Ask>): (r: State)
    requires Picks(st, asks)
    ensures |r.slaves| == |st.slaves| && |r.log| == |st.log| + |asks|
  {
    if asks == [] then st else
      var n, a := |asks| - 1, asks[|asks| - 1];
      Granted(Run(st, asks[..n]), a.file, a.pick).0
  }

  /** There is room for ask `n` when it is made. */
  ghost predicate RoomFor(st: State, asks: seq<Ask>, n: nat)
    requires Picks(st, asks) && n < |asks|
  {
    Roomy(Run(st, asks[..n]), asks[n].file, asks[n].pick)
  }

  ghost predicate RoomForAll(st: State, asks: seq<Ask>)
    requires Picks(st, asks)
  {
    forall n: nat :: n < |asks| ==> RoomFor(st, asks, n)
  }

  ghost predicate AllInRange(st: State) {
    forall i: nat :: i < |st.log| ==> st.log[i].slave < |st.slaves| && st.log[i].id < st.slaves[st.log[i].slave].total
  }

  /** The slaves at the start: all whole chunks free. */
  function Fresh(totals: seq<nat>): State {
    State(seq(|totals|, s requires 0 <= s < |totals| =>
            Slave(seq(totals[s] / CHUNK, i => CHUNK * i), totals[s], totals[s])),
          map[], [], map[])
  }

  lemma FreshOk(totals: seq<nat>)
    requires forall s: nat :: s < |totals| ==> totals[s] < WORD_LIMIT / 2
    ensures Ok(Fresh(totals)) && FirstGranted(Fresh(totals))
    ensures var st := Fresh(totals);
            && |st.slaves| == |totals| && st.log == []
            && forall s: nat :: s < |totals| ==>
                 st.slaves[s].total == totals[s] && |st.slaves[s].chunks| == totals[s] / CHUNK
  {
    var st := Fresh(totals);
    forall s: nat | s < |st.slaves|
      ensures SlaveOk(st.slaves[s])
    {
      assert Taken(st.slaves[s]) == 0;
    }
    assert forall f: nat :: PreOk(st, f);
  }

  lemma RoomBefore(st: State, asks: seq<Ask>)
    requires Picks(st, asks) && asks != []
    ensures var n := |asks| - 1;
            RoomForAll(st, asks) <==> RoomForAll(st, asks[..n]) && Roomy(Run(st, asks[..n]), asks[n].file, asks[n].pick)
  {
    hide Roomy, Run;
    var n := |asks| - 1;
    var before := asks[..n];
    forall m: nat | m < n
      ensures RoomFor(st, before, m) == RoomFor(st, asks, m)
    {
      assert before[..m] == asks[..m];
    }
    if RoomForAll(st, asks) {
      assert RoomFor(st, asks, n);
    } else {
      var m: nat :| m < |asks| && !RoomFor(st, asks, m);
      assert m < n ==> !RoomFor(st, before, m);
    }
  }

  /** Over any interleaving of files, while there is room, no block is granted twice, every block id is below
      the slave's block count, each bitmap is the low bits, and free counts are 64 per chunk plus the rest. */
  lemma {:induction false} RunOk(st: State, asks: seq<Ask>)
    requires Ok(st) && FirstGranted(st) && Picks(st, asks) && RoomForAll(st, asks)
    ensures var r := Run(st, asks); Ok(r) && FirstGranted(r) && Distinct(r.log) && AllInRange(r)
  {
    hide Roomy, RoomForAll, FirstGranted, Granted, SlaveOk, PreOk, UsedOk;
    if asks != [] {
      var before, a := asks[..|asks| - 1], asks[|asks| - 1];
      RoomBefore(st, asks);
      RunOk(st, before);
      GrantOk(Run(st, before), a.file, a.pick);
      GrantKeepsFirst(Run(st, before), a.file, a.pick);
    }
    OkInRange(Run(st, asks));
  }

  lemma OkInRange(st: State)
    requires Ok(st)
    ensures AllInRange(st) && Distinct(st.log)
  {
    forall i: nat | i < |st.log|
      ensures st.log[i].slave < |st.slaves| && st.log[i].id < st.slaves[st.log[i].slave].total
    {
      assert BlockOk(st, st.log[i]);
    }
  }

  /** A grant adds one block to the log and changes no slave's block count. */
  lemma GrantAppends(st: State, f: nat, pick: nat)
    requires pick < |st.slaves|
    ensures var (r, b) := Granted(st, f, pick);
            r.log == st.log + [b] && |r.slaves| == |st.slaves| &&
            forall s: nat :: s < |st.slaves| ==> r.slaves[s].total == st.slaves[s].total
  {
  }

  /** The blocks of a run are all in range and all different if and only if there was room at every ask. */
  lemma {:induction false} RunGoodIff(st: State, asks: seq<Ask>)
    requires Ok(st) && FirstGranted(st) && Picks(st, asks)
    ensures AllInRange(Run(st, asks)) && Distinct(Run(st, asks).log) <==> RoomForAll(st, asks)
  {
    hide Ok, Roomy, RoomForAll, FirstGranted, Granted;
    if RoomForAll(st, asks) {
      RunOk(st, asks);
    } else if asks == [] {
      NoAsks(st);
    } else {
      var n := |asks| - 1;
      var before, a := asks[..n], asks[n];
      var was := Run(st, before);
      RoomBefore(st, asks);
      GrantAppends(was, a.file, a.pick);
      RunGoodIff(st, before);
      if RoomForAll(st, before) {
        RunOk(st, before);
        GrantInRangeIff(was, a.file, a.pick);
        assert Run(st, asks).log[|was.log|] == Granted(was, a.file, a.pick).1;
      } else {
        StaysBad(was, Run(st, asks));
      }
    }
  }

  lemma NoAsks(st: State)
    ensures RoomForAll(st, [])
  {
  }

  lemma StaysBad(was: State, now: State)
    requires was.log <= now.log && |now.slaves| == |was.slaves|
    requires forall s: nat :: s < |was.slaves| ==> now.slaves[s].total == was.slaves[s].total
    ensures AllInRange(now) && Distinct(now.log) ==> AllInRange(was) && Distinct(was.log)
  {
    if AllInRange(now) && Distinct(now.log) {
      forall i: nat | i < |was.log|
        ensures was.log[i].slave < |was.slaves| && was.log[i].id < was.slaves[was.log[i].slave].total
      {
        assert now.log[i] == was.log[i];
      }
    }
  }

  // ----- what follows an ask without room -----

  /** The first block of every chunk taken was granted. */
  ghost predicate FirstGranted(st: State) {
    forall s: nat, c: nat :: s < |st.slaves| && c < Taken(st.slaves[s]) ==> BlockOf(Chunk(s, c), 0) in st.log
  }

  lemma GrantKeepsFirst(st: State, f: nat, pick: nat)
    requires Ok(st) && FirstGranted(st) && pick < |st.slaves| && Roomy(st, f, pick)
    ensures FirstGranted(Granted(st, f, pick).0)
  {
    assert PreOk(st, f) && SlaveOk(st.slaves[pick]);
    var (r, b) := Granted(st, f, pick);
    GrantAppends(st, f, pick);
    forall s: nat, c: nat | s < |r.slaves| && c < Taken(r.slaves[s])
      ensures BlockOf(Chunk(s, c), 0) in r.log
    {
      if c < Taken(st.slaves[s]) {
        assert BlockOf(Chunk(s, c), 0) in st.log;
      } else {
        NewChunk(st, f, pick, s, c);
      }
    }
  }

  /** The chunk a grant takes is the next one of the slave, and its first block is the one granted. */
  lemma NewChunk(st: State, f: nat, pick: nat, s: nat, c: nat)
    requires Ok(st) && pick < |st.slaves| && Roomy(st, f, pick) && s < |st.slaves|
    requires Taken(st.slaves[s]) <= c < Taken(Granted(st, f, pick).0.slaves[s])
    ensures Granted(st, f, pick).1 == BlockOf(Chunk(s, c), 0)
  {
    assert PreOk(st, f) && SlaveOk(st.slaves[pick]);
    if st.slaves[pick].chunks != [] {
      TakeOk(st.slaves[pick]);
    }
  }

  /** The chunk that an ask without room leaves in a file's hands: it begins at 2^64 - 1. */
  predicate Bogus(p: Pre, slave: nat, index: nat) {
    p.Pre? && p.start == WORD_LIMIT - 1 && p.slave == slave && p.index == index
  }

  lemma EmptyHanded(st: State, f: nat, pick: nat)
    requires Ok(st) && pick < |st.slaves| && !Roomy(st, f, pick)
    ensures var (r, b) := Granted(st, f, pick);
            b == Block(pick, WORD_LIMIT - 1) && Bogus(FileOf(r.files, f).pre, pick, 1)
  {
    assert PreOk(st, f);
    hide Ok, PreOk;
  }

  lemma BogusGrant(st: State, f: nat, pick: nat)
    requires pick < |st.slaves| && FileOf(st.files, f).pre.Pre?
    requires var p := FileOf(st.files, f).pre; 0 < p.index < CHUNK && Bogus(p, p.slave, p.index)
    ensures var (r, b) := Granted(st, f, pick); var p := FileOf(st.files, f).pre;
            b == Block(p.slave, p.index - 1) && Bogus(FileOf(r.files, f).pre, p.slave, p.index + 1)
  {
  }

  function AsksOf(f: nat, picks: seq<nat>): seq<Ask> {
    seq(|picks|, i requires 0 <= i < |picks| => Ask(f, picks[i]))
  }

  /** After an ask without room the next asks of the file are not refused: they get the blocks 0, 1, 2, ... of the
      slave. */
  lemma {:induction false} AfterExhaustion(st: State, f: nat, picks: seq<nat>)
    requires Ok(st) && 0 < |picks| <= CHUNK && Picks(st, AsksOf(f, picks)) && !Roomy(st, f, AsksOf(f, picks)[0].pick)
    ensures var r := Run(st, AsksOf(f, picks));
            && Bogus(FileOf(r.files, f).pre, picks[0], |picks|)
            && r.log[|r.log| - 1] == Block(picks[0], if |picks| == 1 then WORD_LIMIT - 1 else |picks| - 2)
  {
    hide Ok, Roomy, Granted, Bogus;
    var n := |picks| - 1;
    var asks := AsksOf(f, picks);
    assert asks[..n] == AsksOf(f, picks[..n]);
    var was := Run(st, asks[..n]);
    assert asks[n].pick == picks[n];
    GrantAppends(was, f, picks[n]);
    if n == 0 {
      assert asks[..n] == [];
      EmptyHanded(st, f, picks[0]);
    } else {
      AfterExhaustion(st, f, picks[..n]);
      BogusIs(was, f, picks[0], n);
      BogusGrant(was, f, picks[n]);
    }
  }

  lemma BogusIs(st: State, f: nat, slave: nat, index: nat)
    requires Bogus(FileOf(st.files, f).pre, slave, index)
    ensures var p := FileOf(st.files, f).pre;
            p.Pre? && p.slave == slave && p.index == index && Bogus(p, p.slave, p.index)
  {
  }

  /** The ask after one without room repeats a block, on every slave that has a chunk. */
  lemma ExhaustionRepeats(st: State, f: nat, pick: nat, next: nat)
    requires Ok(st) && FirstGranted(st) && pick < |st.slaves| && next < |st.slaves|
    requires !Roomy(st, f, pick) && st.slaves[pick].total >= CHUNK
    ensures var b := Granted(Granted(st, f, pick).0, f, next).1; b == Block(pick, 0) && b in st.log
  {
    assert SlaveOk(st.slaves[pick]);
    hide Ok, Granted;
    EmptyHanded(st, f, pick);
    GrantAppends(st, f, pick);
    BogusGrant(Granted(st, f, pick).0, f, next);
    assert BlockOf(Chunk(pick, 0), 0) == Block(pick, 0);
  }

  // ----- the object -----

  class ChunkStore {
    var slaves: seq<Slave>
    var files: map<nat, File>
    ghost var log: seq<Block>
    ghost var owner: map<Chunk, nat>

    ghost function St(): State
      reads this
    {
      State(slaves, files, log, owner)
    }

    /** `rdfs_init_slave_memory_bitmap_list`, for each slave. */
    constructor (totals: seq<nat>)
      requires forall s: nat :: s < |totals| ==> totals[s] < WORD_LIMIT / 2
      ensures Ok(St()) && St() == Fresh(totals)
    {
      var ss: seq<Slave> := [];
      while |ss| < |totals|
        invariant |ss| <= |totals| && ss == Fresh(totals).slaves[..|ss|]
      {
        var total := totals[|ss|];
        var list: seq<nat> := [];
        var i := 0;
        while i < total / CHUNK
          invariant i <= total / CHUNK && list == seq(i, k => CHUNK * k)
        {
          list := list + [i * CHUNK];
          i := i + 1;
        }
        ss := ss + [Slave(list, total, total)];
      }
      slaves, files, log, owner := ss, map[], [], map[];
      FreshOk(totals);
    }

    /** `rdfs_alloc_slave_memory_bitmap`. */
    method TakeChunk(s: nat) returns (start: nat)
      requires s < |slaves|
      modifies this`slaves
      ensures (slaves, start) == (old(slaves)[s := FirstChunk(old(slaves[s])).0], FirstChunk(old(slaves[s])).1)
      ensures SlaveOk(old(slaves[s])) ==> SlaveOk(slaves[s])
      ensures SlaveOk(old(slaves[s])) ==>
                if old(slaves[s]).chunks == [] then start == WORD_LIMIT - 1 && slaves == old(slaves)
                else start == CHUNK * Taken(old(slaves[s])) && Taken(slaves[s]) == Taken(old(slaves[s])) + 1
    {
      if slaves[s].free == 0 || slaves[s].chunks == [] {
        assert slaves[s := slaves[s]] == slaves;
        return WORD_LIMIT - 1;
      }
      var use := slaves[s].chunks[0];
      slaves := slaves[s := slaves[s].(chunks := slaves[s].chunks[1..], free := slaves[s].free - CHUNK)];
      return use;
    }

    /** `rdfs_alloc_slave_bitmap_memory`: a block for file `f`.  It is new and in range exactly when the file
        or the chosen slave has room. */
    method AllocBlock(f: nat, pick: nat) returns (block: nat, slave: nat)
      requires Ok(St()) && pick < |slaves|
      modifies this
      ensures (St(), Block(slave, block)) == Granted(old(St()), f, pick)
      ensures slave < |slaves| && |slaves| == |old(slaves)|
      ensures Roomy(old(St()), f, pick) ==>
                Ok(St()) && Block(slave, block) !in old(log) && log == old(log) + [Block(slave, block)]
      ensures block < old(slaves)[slave].total <==> Roomy(old(St()), f, pick)
    {
      hide Ok, PreOk;
      GrantInRangeIff(St(), f, pick);
      if Roomy(St(), f, pick) {
        GrantOk(St(), f, pick);
      }
      FilePre(St(), f);
      var file := FileOf(files, f);
      if file.pre.NoPre? {
        var start := TakeChunk(pick);
        file := file.(pre := Pre(start, seq(CHUNK, _ => false), pick, 0));
        owner := owner[Chunk(pick, start / CHUNK) := f];
      }
      if file.pre.index == CHUNK {
        var used := [Chunk(file.pre.slave, file.pre.start / CHUNK)] + file.used;
        var start := TakeChunk(pick);
        file := File(Pre(start, seq(CHUNK, _ => false), pick, 0), used);
        owner := owner[Chunk(pick, start / CHUNK) := f];
      }
      var p := file.pre;
      block := (p.index + p.start) % WORD_LIMIT;
      slave := p.slave;
      file := file.(pre := Advanced(p));
      files := files[f := file];
      log := log + [Block(slave, block)];
    }
  }

  lemma FilePre(st: State, f: nat)
    requires Ok(st)
    ensures var p := FileOf(st.files, f).pre; p.Pre? ==> |p.bits| == CHUNK && p.index <= CHUNK
  {
    assert PreOk(st, f);
  }
}
