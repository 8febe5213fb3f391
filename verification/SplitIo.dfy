/** Reads and writes (file.c) as remote transfers: the byte range is cut at block boundaries, and each piece
    goes to the slave and block that the file's placement names. */
module SplitIo {
  import opened Bytes
  import opened Chunks
  import opened Finite
  import opened Machine

  /** A byte of remote memory: slave, and address there. */
  datatype Loc = Loc(slave: nat, address: nat)

  datatype Write = Write(offset: nat, data: seq<Byte>)

  // ----- where a file's bytes are -----

  /** `rem_addr + block_id * RDFS_BLOCK_SIZE + block_offset` on the slave of block `b`. */
  function At(base: nat -> nat, b: Block, off: nat): Loc {
    Loc(b.slave, base(b.slave) + b.id * PAGE_SIZE + off)
  }

  function Fetch(remote: map<Loc, Byte>, l: Loc): Byte {
    if l in remote then remote[l] else 0
  }

  /** The byte at position `p` of a file placed at `place`. */
  function ByteAt(remote: map<Loc, Byte>, base: nat -> nat, place: seq<Block>, p: nat): Byte
    requires p < |place| * PAGE_SIZE
  {
    Fetch(remote, At(base, place[p / PAGE_SIZE], p % PAGE_SIZE))
  }

  ghost function Content(remote: map<Loc, Byte>, base: nat -> nat, place: seq<Block>): (c: seq<Byte>)
    ensures |c| == |place| * PAGE_SIZE
  {
    seq(|place| * PAGE_SIZE, p requires 0 <= p < |place| * PAGE_SIZE => ByteAt(remote, base, place, p))
  }

  lemma ContentAt(remote: map<Loc, Byte>, base: nat -> nat, place: seq<Block>, p: nat)
    requires p < |place| * PAGE_SIZE
    ensures Content(remote, base, place)[p] == ByteAt(remote, base, place, p)
  {
  }

  // ----- what writes mean -----

  predicate Covers(w: Write, p: nat) {
    w.offset <= p < w.offset + |w.data|
  }

  /** The contents after one write. */
  function Overlaid(c: seq<Byte>, w: Write): (d: seq<Byte>)
    requires w.offset + |w.data| <= |c|
    ensures |d| == |c|
  {
    c[..w.offset] + w.data + c[w.offset + |w.data|..]
  }

  lemma OverlaidAt(c: seq<Byte>, w: Write, p: nat)
    requires w.offset + |w.data| <= |c| && p < |c|
    ensures Overlaid(c, w)[p] == if Covers(w, p) then w.data[p - w.offset] else c[p]
  {
  }

  // ----- one transfer -----

  /** Remote memory after bytes `data` go to block `b` at `off`. */
  ghost function Sent(remote: map<Loc, Byte>, base: nat -> nat, b: Block, off: nat, data: seq<Byte>): map<Loc, Byte> {
    if data == [] then remote else
      var n: nat := |data| - 1;
      Sent(remote, base, b, off, data[..n])[At(base, b, off + n) := data[n]]
  }

  /** The bytes arrive in order at the block's address, and nothing else changes. */
  lemma {:induction false} SentIs(remote: map<Loc, Byte>, base: nat -> nat, b: Block, off: nat, data: seq<Byte>, l: Loc)
    ensures var i := l.address - At(base, b, off).address;
            Fetch(Sent(remote, base, b, off, data), l) ==
            if l.slave == b.slave && 0 <= i < |data| then data[i] else Fetch(remote, l)
  {
    if data != [] {
      SentIs(remote, base, b, off, data[..|data| - 1], l);
    }
  }

  lemma SentNothing(remote: map<Loc, Byte>, base: nat -> nat, b: Block, off: nat)
    ensures Sent(remote, base, b, off, []) == remote
  {
  }

  lemma SentMore(remote: map<Loc, Byte>, base: nat -> nat, b: Block, off: nat, data: seq<Byte>, x: Byte)
    ensures Sent(remote, base, b, off, data + [x]) == Sent(remote, base, b, off, data)[At(base, b, off + |data|) := x]
  {
    assert (data + [x])[..|data|] == data;
  }

  /** A transfer within one block overlays the file's contents, wherever the blocks lie. */
  lemma SentOverlays(remote: map<Loc, Byte>, base: nat -> nat, place: seq<Block>, i: nat, data: seq<Byte>)
    requires Distinct(place) && i / PAGE_SIZE < |place| && i % PAGE_SIZE + |data| <= PAGE_SIZE
    ensures i + |data| <= |place| * PAGE_SIZE
    ensures Content(Sent(remote, base, place[i / PAGE_SIZE], i % PAGE_SIZE, data), base, place) ==
            Overlaid(Content(remote, base, place), Write(i, data))
  {
    var b, off := place[i / PAGE_SIZE], i % PAGE_SIZE;
    var r := Sent(remote, base, b, off, data);
    var c, d := Content(remote, base, place), Content(r, base, place);
    BlockEnds(i, |data|, |place|);
    forall p: nat | p < |c|
      ensures d[p] == Overlaid(c, Write(i, data))[p]
    {
      SentByte(remote, base, place, i, data, p);
      OverlaidAt(c, Write(i, data), p);
    }
  }

  lemma BlockEnds(i: nat, n: nat, blocks: nat)
    requires i / PAGE_SIZE < blocks && i % PAGE_SIZE + n <= PAGE_SIZE
    ensures i + n <= blocks * PAGE_SIZE
  {
  }

  lemma SentByte(remote: map<Loc, Byte>, base: nat -> nat, place: seq<Block>, i: nat, data: seq<Byte>, p: nat)
    requires Distinct(place) && i / PAGE_SIZE < |place| && i % PAGE_SIZE + |data| <= PAGE_SIZE
    requires p < |place| * PAGE_SIZE
    ensures ByteAt(Sent(remote, base, place[i / PAGE_SIZE], i % PAGE_SIZE, data), base, place, p) ==
            if Covers(Write(i, data), p) then data[p - i] else ByteAt(remote, base, place, p)
  {
    hide Sent, Fetch;
    var b, off := place[i / PAGE_SIZE], i % PAGE_SIZE;
    SentIs(remote, base, b, off, data, At(base, place[p / PAGE_SIZE], p % PAGE_SIZE));
    if p / PAGE_SIZE == i / PAGE_SIZE {
      assert p - i == p % PAGE_SIZE - off;
    } else {
      assert place[p / PAGE_SIZE] != b;
    }
  }

  lemma OverlayTwice(c: seq<Byte>, start: nat, d: seq<Byte>, e: seq<Byte>)
    requires start + |d| + |e| <= |c|
    ensures Overlaid(Overlaid(c, Write(start, d)), Write(start + |d|, e)) == Overlaid(c, Write(start, d + e))
  {
  }

  // ----- runs of writes -----

  ghost predicate InRange(ws: seq<Write>, n: nat) {
    forall i: nat :: i < |ws| ==> ws[i].offset + |ws[i].data| <= n
  }

  ghost function AfterWrites(c: seq<Byte>, ws: seq<Write>): (d: seq<Byte>)
    requires InRange(ws, |c|)
    ensures |d| == |c|
  {
    if ws == [] then c else Overlaid(AfterWrites(c, ws[..|ws| - 1]), ws[|ws| - 1])
  }

  /** The last write that covers position `p`; -1 when none does. */
  function LastWriter(ws: seq<Write>, p: nat): (i: int)
    ensures -1 <= i < |ws| && (i >= 0 ==> Covers(ws[i], p)) && forall j: nat :: i < j < |ws| ==> !Covers(ws[j], p)
  {
    if ws == [] then -1
    else if Covers(ws[|ws| - 1], p) then |ws| - 1
    else LastWriter(ws[..|ws| - 1], p)
  }

  /** After any run of writes every position holds the byte that the last write covering it put there. */
  lemma {:induction false} LastByteWins(c: seq<Byte>, ws: seq<Write>, p: nat)
    requires InRange(ws, |c|) && p < |c|
    ensures var i := LastWriter(ws, p); AfterWrites(c, ws)[p] == if i >= 0 then ws[i].data[p - ws[i].offset] else c[p]
  {
    if ws != [] {
      LastByteWins(c, ws[..|ws| - 1], p);
      OverlaidAt(AfterWrites(c, ws[..|ws| - 1]), ws[|ws| - 1], p);
    }
  }

  // ----- the loops -----

  class Transfer {
    const base: nat -> nat
    const buffer: array<Byte>
    var remote: map<Loc, Byte>

    constructor (rem: nat -> nat)
      ensures base == rem && buffer.Length == PAGE_SIZE && remote == map[]
    {
      base := rem;
      buffer := new Byte[PAGE_SIZE];
      remote := map[];
    }

    /** `rdfs_rdma_block_rw` with `RDFS_WRITE`: buffer bytes from `rw` go to block `b`. */
    method SendBlock(rw: nat, b: Block, off: nat, size: nat)
      requires rw + size <= buffer.Length
      modifies this`remote
      ensures remote == Sent(old(remote), base, b, off, buffer[rw..rw + size])
    {
      var j := 0;
      ghost var data, was := buffer[rw..rw + size], remote;
      SentNothing(was, base, b, off);
      hide Sent, At;
      while j < size
        invariant j <= size && remote == Sent(was, base, b, off, data[..j])
      {
        SentMore(was, base, b, off, data[..j], data[j]);
        assert data[..j + 1] == data[..j] + [data[j]];
        remote := remote[At(base, b, off + j) := buffer[rw + j]];
        j := j + 1;
      }
      assert data[..size] == data;
    }

    /** `rdfs_rdma_block_rw` with `RDFS_READ`. */
    method FetchBlock(rw: nat, b: Block, off: nat, size: nat)
      requires rw + size <= buffer.Length
      modifies buffer
      ensures forall j: nat :: j < buffer.Length ==>
                buffer[j] == if rw <= j < rw + size then Fetch(remote, At(base, b, off + (j - rw))) else old(buffer[j])
    {
      var k := 0;
      while k < size
        invariant k <= size
        invariant forall j: nat :: j < buffer.Length ==>
                    buffer[j] == if rw <= j < rw + k then Fetch(remote, At(base, b, off + (j - rw))) else old(buffer[j])
      {
        buffer[rw + k] := Fetch(remote, At(base, b, off + k));
        k := k + 1;
      }
    }

    /** The loop of `rdfs_local_file_write`: the buffer goes to positions `start` to `end` of the file. */
    method SendRange(start: nat, end: nat, place: seq<Block>)
      requires Distinct(place) && start <= end <= |place| * PAGE_SIZE && end - start <= buffer.Length
      modifies this`remote
      ensures Content(remote, base, place) ==
                Overlaid(old(Content(remote, base, place)), Write(start, buffer[..end - start]))
    {
      hide Content, Sent, Distinct, Overlaid;
      var i, rw := start, 0;
      ghost var c := Content(remote, base, place);
      NoOverlay(c, start);
      assert buffer[..0] == [];
      while i < end
        invariant i <= end ==> rw == i - start
        invariant i >= end ==> rw == end - start
        invariant start <= i && rw <= buffer.Length && start + rw <= |c| == |place| * PAGE_SIZE
        invariant Content(remote, base, place) == Overlaid(c, Write(start, buffer[..rw]))
      {
        var off := i % PAGE_SIZE;
        var size := PAGE_SIZE - off;
        if i + size > end {
          size := end - i;
        }
        SentOverlays(remote, base, place, i, buffer[rw..rw + size]);
        OverlayTwice(c, start, buffer[..rw], buffer[rw..rw + size]);
        assert buffer[..rw] + buffer[rw..rw + size] == buffer[..rw + size];
        SendBlock(rw, place[i / PAGE_SIZE], off, size);
        rw := rw + size;
        i := i + (PAGE_SIZE - off);
      }
    }

    /** The loop of `rdfs_local_file_read`: positions `start` to `end` of the file come into the buffer. */
    method FetchRange(start: nat, end: nat, place: seq<Block>)
      requires start <= end <= |place| * PAGE_SIZE && end - start <= buffer.Length
      modifies buffer
      ensures buffer[..end - start] == Content(remote, base, place)[start..end]
    {
      hide Content, Fetch;
      var i, rw := start, 0;
      ghost var c := Content(remote, base, place);
      while i < end
        invariant i <= end ==> rw == i - start
        invariant i >= end ==> rw == end - start
        invariant start <= i && rw <= buffer.Length
        invariant forall j: nat :: j < rw ==> buffer[j] == c[start + j]
      {
        var off := i % PAGE_SIZE;
        var size := PAGE_SIZE - off;
        if i + size > end {
          size := end - i;
        }
        FetchBlock(rw, place[i / PAGE_SIZE], off, size);
        forall j: nat | rw <= j < rw + size
          ensures buffer[j] == c[start + j]
        {
          InBlock(i, j - rw);
          ContentAt(remote, base, place, start + j);
        }
        rw := rw + size;
        i := i + (PAGE_SIZE - off);
      }
    }
  }

  lemma InBlock(i: nat, k: nat)
    requires i % PAGE_SIZE + k < PAGE_SIZE
    ensures (i + k) / PAGE_SIZE == i / PAGE_SIZE && (i + k) % PAGE_SIZE == i % PAGE_SIZE + k
  {
  }

  lemma NoOverlay(c: seq<Byte>, start: nat)
    requires start <= |c|
    ensures Overlaid(c, Write(start, [])) == c
  {
  }

  // ----- the pieces of a range -----

  /** One segment of the answer to a client: `size` bytes of `block`, from `off`. */
  datatype Piece = Piece(block: Block, off: nat, size: nat)

  /** Piece `q` of the range from `start` to `end` lies in the q-th block of the range, begins where the block or
      the range does, and ends where the block or the range does. */
  predicate PieceOf(place: seq<Block>, start: nat, end: nat, q: nat, p: Piece)
  {
    var k := start / PAGE_SIZE + q;
    && k < |place| && p.block == place[k] && p.size > 0
    && k * PAGE_SIZE + p.off == (if q == 0 then start else k * PAGE_SIZE)
    && k * PAGE_SIZE + p.off + p.size == (if end < (k + 1) * PAGE_SIZE then end else (k + 1) * PAGE_SIZE)
  }

  /** The blocks that a range touches. */
  function Pieces(start: nat, end: nat): int {
    if start < end then (end + PAGE_SIZE - 1) / PAGE_SIZE - start / PAGE_SIZE else 0
  }

  /** The loop of `rdfs_client_search_metadata`: the range, cut at block boundaries. */
  method Cut(start: nat, end: nat, place: seq<Block>) returns (pieces: seq<Piece>)
    requires start <= end <= |place| * PAGE_SIZE
    ensures |pieces| == Pieces(start, end)
    ensures forall q: nat :: q < |pieces| ==> PieceOf(place, start, end, q, pieces[q])
  {
    pieces := [];
    var i := start;
    while i < end
      invariant start <= i && forall q: nat :: q < |pieces| ==> PieceOf(place, start, end, q, pieces[q])
      invariant if pieces == [] then i == start else i == (start / PAGE_SIZE + |pieces|) * PAGE_SIZE
      invariant pieces != [] ==> start < end && (start / PAGE_SIZE + |pieces| - 1) * PAGE_SIZE < end
    {
      var off := i % PAGE_SIZE;
      var size := PAGE_SIZE - off;
      if i + size > end {
        size := end - i;
      }
      pieces := pieces + [Piece(place[i / PAGE_SIZE], off, size)];
      i := i + (PAGE_SIZE - off);
    }
    if start < end {
      Ceiling(end, start / PAGE_SIZE + |pieces|);
    }
  }

  lemma Ceiling(n: nat, m: nat)
    requires 0 < m && (m - 1) * PAGE_SIZE < n <= m * PAGE_SIZE
    ensures (n + PAGE_SIZE - 1) / PAGE_SIZE == m
  {
  }

  /** What a client reads through its pieces is the file: every byte of the range is the one in its piece's block. */
  lemma PiecesRead(remote: map<Loc, Byte>, base: nat -> nat, place: seq<Block>, start: nat, end: nat,
                   pieces: seq<Piece>, p: nat)
    requires start <= p < end <= |place| * PAGE_SIZE && |pieces| == Pieces(start, end)
    requires forall q: nat :: q < |pieces| ==> PieceOf(place, start, end, q, pieces[q])
    ensures var q, x := p / PAGE_SIZE - start / PAGE_SIZE, p % PAGE_SIZE;
            && 0 <= q < |pieces| && pieces[q].off <= x < pieces[q].off + pieces[q].size
            && Content(remote, base, place)[p] == Fetch(remote, At(base, pieces[q].block, x))
  {
    hide PieceOf;
    CutExact(place, start, end, pieces, p / PAGE_SIZE, p % PAGE_SIZE);
    var q := p / PAGE_SIZE - start / PAGE_SIZE;
    PieceBlock(place, start, end, q, pieces[q]);
    ContentAt(remote, base, place, p);
  }

  lemma PieceBlock(place: seq<Block>, start: nat, end: nat, q: nat, p: Piece)
    requires PieceOf(place, start, end, q, p)
    ensures start / PAGE_SIZE + q < |place| && p.block == place[start / PAGE_SIZE + q]
  {
  }

  /** The pieces are the range, without gap or overlap: byte `x` of block `k` is in the range exactly when it is in
      the piece of that block. */
  lemma CutExact(place: seq<Block>, start: nat, end: nat, pieces: seq<Piece>, k: nat, x: nat)
    requires start <= end <= |place| * PAGE_SIZE && |pieces| == Pieces(start, end) && x < PAGE_SIZE
    requires forall q: nat :: q < |pieces| ==> PieceOf(place, start, end, q, pieces[q])
    ensures start <= k * PAGE_SIZE + x < end <==>
            var q := k - start / PAGE_SIZE; 0 <= q < |pieces| && pieces[q].off <= x < pieces[q].off + pieces[q].size
  {
    var q := k - start / PAGE_SIZE;
    if 0 <= q < |pieces| {
      assert PieceOf(place, start, end, q, pieces[q]);
    }
  }
}
