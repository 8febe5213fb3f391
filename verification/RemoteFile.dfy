/** A file whose data lives on the slaves: `rdfs_local_file_write` and `rdfs_local_file_read` (file.c). */
module RemoteFile {
  import opened Bytes
  import opened Chunks
  import opened Finite
  import opened Machine
  import opened SplitIo

  /** Blocks that cover the first `n` bytes. */
  function BlocksFor(n: nat): nat {
    (n + PAGE_SIZE - 1) / PAGE_SIZE
  }

  /** `pages_to_alloc`, when positive. */
  function Missing(isize: nat, w: Write): nat {
    var needed, exist := BlocksFor(w.offset + |w.data|), BlocksFor(isize);
    if needed > exist then needed - exist else 0
  }

  /** The blocks a file has after a run of writes. */
  function BlocksAfter(isize: nat, blocks: nat, ws: seq<Write>): nat
    decreases |ws|
  {
    if ws == [] then blocks
    else BlocksAfter(ws[0].offset + |ws[0].data|, blocks + Missing(isize, ws[0]), ws[1..])
  }

  lemma {:induction false} BlocksGrow(isize: nat, blocks: nat, ws: seq<Write>)
    ensures blocks <= BlocksAfter(isize, blocks, ws)
    decreases |ws|
  {
    if ws != [] {
      BlocksGrow(ws[0].offset + |ws[0].data|, blocks + Missing(isize, ws[0]), ws[1..]);
    }
  }

  lemma BlocksStep(isize: nat, blocks: nat, ws: seq<Write>, i: nat)
    requires i < |ws|
    ensures BlocksAfter(isize, blocks, ws[i..]) ==
              BlocksAfter(ws[i].offset + |ws[i].data|, blocks + Missing(isize, ws[i]), ws[i + 1..])
    ensures blocks + Missing(isize, ws[i]) <= BlocksAfter(isize, blocks, ws[i..])
  {
    assert ws[i..][0] == ws[i] && ws[i..][1..] == ws[i + 1..];
    BlocksGrow(ws[i].offset + |ws[i].data|, blocks + Missing(isize, ws[i]), ws[i + 1..]);
  }

  lemma NoWrites(isize: nat, blocks: nat)
    ensures BlocksAfter(isize, blocks, []) == blocks
  {
  }

  lemma NoneYet(c: seq<Byte>, ws: seq<Write>)
    ensures InRange(ws[..0], |c|) && AfterWrites(c, ws[..0]) == c && ws[0..] == ws
  {
  }

  lemma OneMore(c: seq<Byte>, ws: seq<Write>, i: nat)
    requires i < |ws| && InRange(ws[..i], |c|) && ws[i].offset + |ws[i].data| <= |c|
    ensures InRange(ws[..i + 1], |c|) && AfterWrites(c, ws[..i + 1]) == Overlaid(AfterWrites(c, ws[..i]), ws[i])
  {
    hide Overlaid;
    var s := ws[..i + 1];
    assert s[|s| - 1] == ws[i] && s[..|s| - 1] == ws[..i];
    InRangeMore(ws, i, |c|);
  }

  lemma InRangeMore(ws: seq<Write>, i: nat, n: nat)
    requires i < |ws| && InRange(ws[..i], n) && ws[i].offset + |ws[i].data| <= n
    ensures InRange(ws[..i + 1], n)
  {
    forall j: nat | j < i + 1
      ensures ws[j].offset + |ws[j].data| <= n
    {
      if j < i {
        assert ws[..i][j] == ws[j];
      }
    }
  }

  /** If the blocks cover the size, then after the allocation they cover the write, which becomes the size. */
  lemma BlocksSuffice(isize: nat, blocks: nat, w: Write)
    requires isize <= blocks * PAGE_SIZE
    ensures w.offset + |w.data| <= (blocks + Missing(isize, w)) * PAGE_SIZE
  {
    assert BlocksFor(isize) <= blocks;
  }

  // ----- no block too many -----

  /** `c` blocks cover the first `n` bytes, and no fewer do. */
  predicate LeastCover(c: nat, n: nat) {
    n <= c * PAGE_SIZE && (c > 0 ==> (c - 1) * PAGE_SIZE < n)
  }

  lemma LeastIsBlocksFor(c: nat, n: nat)
    ensures LeastCover(c, n) <==> c == BlocksFor(n)
  {
  }

  /** A write takes blocks only to cover what lies behind the blocks of the size, and the last one it takes is needed:
      up to the size it takes none, and blocks that were the least cover of the size are the least cover of what is
      written when that reaches as far. */
  lemma GrowthLeast(isize: nat, w: Write, c: nat)
    requires LeastCover(c, isize)
    ensures var g, end := Missing(isize, w), w.offset + |w.data|;
            && (g == 0 <==> end <= c * PAGE_SIZE) && (end <= isize ==> g == 0)
            && (g > 0 ==> (c + g - 1) * PAGE_SIZE < end <= (c + g) * PAGE_SIZE)
            && (end >= isize ==> LeastCover(c + g, end))
  {
    LeastIsBlocksFor(c, isize);
    var end := w.offset + |w.data|;
    LeastIsBlocksFor(BlocksFor(end), end);
  }

  lemma WriteGrowth(isize: nat, blocks: nat, w: Write)
    ensures var g, end := Missing(isize, w), w.offset + |w.data|;
            && (end <= isize ==> g == 0)
            && (LeastCover(blocks, isize) && end >= isize ==> LeastCover(blocks + g, end))
  {
    LeastIsBlocksFor(BlocksFor(isize), isize);
    GrowthLeast(isize, w, BlocksFor(isize));
    if LeastCover(blocks, isize) {
      GrowthLeast(isize, w, blocks);
    }
  }

  /** The size before write `i` of a run, which is where the write before it ended. */
  function SizeBefore(isize: nat, ws: seq<Write>, i: nat): nat
    requires i <= |ws|
  {
    if i == 0 then isize else ws[i - 1].offset + |ws[i - 1].data|
  }

  /** Write `i` of a run ends a whole block or more before the blocks of the size do. */
  predicate Shrinks(isize: nat, ws: seq<Write>, i: nat)
    requires i < |ws|
  {
    ws[i].offset + |ws[i].data| <= (BlocksFor(SizeBefore(isize, ws, i)) - 1) * PAGE_SIZE
  }

  lemma ShrinkIff(isize: nat, ws: seq<Write>)
    requires ws != []
    ensures Shrinks(isize, ws, 0) <==> BlocksFor(ws[0].offset + |ws[0].data|) < BlocksFor(isize)
  {
    var end := ws[0].offset + |ws[0].data|;
    LeastIsBlocksFor(BlocksFor(end), end);
  }

  lemma ShrinkNext(isize: nat, ws: seq<Write>, i: nat)
    requires 0 < i < |ws|
    ensures Shrinks(isize, ws, i) == Shrinks(ws[0].offset + |ws[0].data|, ws[1..], i - 1)
  {
  }

  /** Each block too many stays too many. */
  lemma {:induction false} WasteStays(isize: nat, blocks: nat, ws: seq<Write>)
    requires blocks > BlocksFor(isize)
    ensures BlocksAfter(isize, blocks, ws) > BlocksFor(SizeBefore(isize, ws, |ws|))
    decreases |ws|
  {
    if ws != [] {
      WasteStays(ws[0].offset + |ws[0].data|, blocks + Missing(isize, ws[0]), ws[1..]);
      assert SizeBefore(isize, ws, |ws|) == SizeBefore(ws[0].offset + |ws[0].data|, ws[1..], |ws| - 1);
    }
  }

  /** After a run of writes the blocks are the least cover of the size if and only if no write of the run shrank the
      size by a whole block: the blocks behind the new size stay with the file, and the next write that grows past it
      takes blocks for them again. */
  lemma {:induction false} RunLeastIff(isize: nat, blocks: nat, ws: seq<Write>)
    requires LeastCover(blocks, isize)
    ensures LeastCover(BlocksAfter(isize, blocks, ws), SizeBefore(isize, ws, |ws|)) <==>
            forall i: nat :: i < |ws| ==> !Shrinks(isize, ws, i)
    decreases |ws|
  {
    LeastIsBlocksFor(blocks, isize);
    if ws != [] {
      var end, more := ws[0].offset + |ws[0].data|, blocks + Missing(isize, ws[0]);
      assert SizeBefore(isize, ws, |ws|) == SizeBefore(end, ws[1..], |ws| - 1);
      ShrinkIff(isize, ws);
      hide Shrinks, LeastCover;
      LeastIsBlocksFor(BlocksAfter(isize, blocks, ws), SizeBefore(isize, ws, |ws|));
      if Shrinks(isize, ws, 0) {
        WasteStays(end, more, ws[1..]);
      } else {
        LeastIsBlocksFor(more, end);
        RunLeastIff(end, more, ws[1..]);
        ShrinksLater(isize, ws, end, ws[1..]);
      }
    }
  }

  lemma ShrinksLater(isize: nat, ws: seq<Write>, end: nat, rest: seq<Write>)
    requires ws != [] && !Shrinks(isize, ws, 0) && end == ws[0].offset + |ws[0].data| && rest == ws[1..]
    ensures (forall i: nat :: i < |ws| ==> !Shrinks(isize, ws, i)) <==>
            forall i: nat :: i < |rest| ==> !Shrinks(end, rest, i)
  {
    hide Shrinks;
    forall i: nat | i < |rest|
      ensures Shrinks(isize, ws, i + 1) == Shrinks(end, rest, i)
    {
      ShrinkNext(isize, ws, i + 1);
    }
    if forall i: nat :: i < |rest| ==> !Shrinks(end, rest, i) {
      forall i: nat | i < |ws|
        ensures !Shrinks(isize, ws, i)
      {
        if i > 0 {
          assert !Shrinks(end, rest, i - 1);
        }
      }
    }
  }

  /** One byte written to block 2 of a new file, one to block 0 and one to block 2 again: two blocks are wasted. */
  lemma RewriteWastes(x: Byte)
    ensures var ws := [Write(8192, [x]), Write(0, [x]), Write(8192, [x])];
            BlocksAfter(0, 0, ws) == 5 && LeastCover(3, SizeBefore(0, ws, 3)) && Shrinks(0, ws, 1)
  {
    var a, b := Write(8192, [x]), Write(0, [x]);
    assert [a, b, a][1..] == [b, a] && [b, a][1..] == [a] && [a][1..] == [];
    assert BlocksAfter(8193, 5, []) == 5;
    assert BlocksAfter(1, 3, [a]) == 5;
    assert BlocksAfter(8193, 3, [b, a]) == 5;
  }

  class File {
    const io: Transfer
    /** The blocks that are granted to the file, in the order of the grants; it has the first `blocks`. */
    const place: seq<Block>
    var blocks: nat
    var isize: nat

    ghost predicate Valid()
      reads this
    {
      Distinct(place) && io.buffer.Length == PAGE_SIZE && blocks <= |place| && isize <= blocks * PAGE_SIZE
    }

    ghost function Bytes(): seq<Byte>
      reads this, io
    {
      Content(io.remote, io.base, place)
    }

    constructor (t: Transfer, grants: seq<Block>)
      requires Distinct(grants) && t.buffer.Length == PAGE_SIZE
      ensures Valid() && io == t && place == grants && blocks == 0 && isize == 0
    {
      io, place, blocks, isize := t, grants, 0, 0;
    }

    /** `rdfs_local_file_write` of less than a buffer: the bytes are overlaid, and the blocks cover them. */
    method Write(w: Write) returns (n: nat)
      requires Valid() && |w.data| < PAGE_SIZE && blocks + Missing(isize, w) <= |place|
      modifies this, io, io.buffer
      ensures Valid() && n == |w.data| && isize == w.offset + |w.data| && blocks == old(blocks + Missing(isize, w))
      ensures w.offset + |w.data| <= |place| * PAGE_SIZE && Bytes() == Overlaid(old(Bytes()), w)
      ensures io.buffer[..|w.data|] == w.data && io.buffer[|w.data|] == 0
      ensures isize <= old(isize) ==> blocks == old(blocks)
      ensures old(LeastCover(blocks, isize)) && isize >= old(isize) ==> LeastCover(blocks, isize)
    {
      hide Content, Overlaid, Distinct, LeastCover;
      BlocksSuffice(isize, blocks, w);
      WriteGrowth(isize, blocks, w);
      var needed, exist := BlocksFor(w.offset + |w.data|), BlocksFor(isize);
      if needed > exist {
        blocks := blocks + (needed - exist);
      }
      Fill(w.data);
      io.buffer[|w.data|] := 0;
      assert io.buffer[..|w.data|] == w.data;
      io.SendRange(w.offset, w.offset + |w.data|, place);
      isize := w.offset + |w.data|;
      n := |w.data|;
    }

    /** `__copy_from_user`. */
    method Fill(data: seq<Byte>)
      requires |data| <= io.buffer.Length
      modifies io.buffer
      ensures io.buffer[..|data|] == data
    {
      var j := 0;
      while j < |data|
        invariant j <= |data| && io.buffer[..j] == data[..j]
      {
        io.buffer[j] := data[j];
        j := j + 1;
      }
    }

    /** `rdfs_local_file_read`: the bytes up to the size.  A file of size zero answers with the length asked for and no
        bytes; behind the size the unsigned length wraps around, and no byte is fetched. */
    method Read(pos: nat, length: nat) returns (n: nat, data: seq<Byte>)
      requires Valid() && length <= PAGE_SIZE
      modifies io.buffer
      ensures isize == 0 ==> n == length && data == []
      ensures 0 < isize < pos ==> n == (isize - pos) % WORD_LIMIT && data == [] && io.buffer[..] == old(io.buffer[..])
      ensures isize > 0 && pos <= isize ==> n == (if pos + length > isize then isize - pos else length)
      ensures isize > 0 && pos <= isize ==> pos + n <= isize <= |place| * PAGE_SIZE && data == Bytes()[pos..pos + n]
    {
      hide Content, Distinct;
      if isize == 0 {
        return length, [];
      }
      n := length;
      if pos + length > isize {
        if pos > isize {
          return (isize - pos) % WORD_LIMIT, [];
        }
        n := isize - pos;
      }
      io.FetchRange(pos, pos + n, place);
      data := io.buffer[..n];
    }

    /** A run of writes. */
    method WriteAll(ws: seq<Write>)
      requires Valid() && BlocksAfter(isize, blocks, ws) <= |place|
      requires forall i: nat :: i < |ws| ==> |ws[i].data| < PAGE_SIZE
      modifies this, io, io.buffer
      ensures Valid() && InRange(ws, |place| * PAGE_SIZE) && Bytes() == AfterWrites(old(Bytes()), ws)
      ensures isize == if ws == [] then old(isize) else ws[|ws| - 1].offset + |ws[|ws| - 1].data|
      ensures blocks == BlocksAfter(old(isize), old(blocks), ws)
    {
      hide Content, Overlaid, Distinct, Missing, BlocksAfter, AfterWrites, LeastCover;
      var i := 0;
      NoneYet(Bytes(), ws);
      while i < |ws|
        invariant i <= |ws| && Valid()
        invariant BlocksAfter(isize, blocks, ws[i..]) == BlocksAfter(old(isize), old(blocks), ws)
        invariant InRange(ws[..i], |place| * PAGE_SIZE) && Bytes() == AfterWrites(old(Bytes()), ws[..i])
        invariant isize == if i == 0 then old(isize) else ws[i - 1].offset + |ws[i - 1].data|
      {
        BlocksStep(isize, blocks, ws, i);
        var _ := Write(ws[i]);
        OneMore(old(Bytes()), ws, i);
        i := i + 1;
      }
      assert ws[..i] == ws && ws[i..] == [];
      NoWrites(isize, blocks);
    }

    /** A read after any run of writes sees, at each position, the byte of the last write that covers it. */
    method ReadBack(ws: seq<Write>, pos: nat, length: nat) returns (n: nat, data: seq<Byte>)
      requires Valid() && BlocksAfter(isize, blocks, ws) <= |place|
      requires forall i: nat :: i < |ws| ==> |ws[i].data| < PAGE_SIZE
      requires ws != [] && pos < ws[|ws| - 1].offset + |ws[|ws| - 1].data| && length <= PAGE_SIZE
      modifies this, io, io.buffer
      ensures Valid() && |data| == n && pos + n <= isize == ws[|ws| - 1].offset + |ws[|ws| - 1].data|
      ensures n == if pos + length > isize then isize - pos else length
      ensures forall j: nat :: j < n ==>
                var i := LastWriter(ws, pos + j);
                if i >= 0 then data[j] == ws[i].data[pos + j - ws[i].offset]
                else pos + j < |place| * PAGE_SIZE && data[j] == old(Bytes())[pos + j]
    {
      hide Content, Distinct, AfterWrites, Missing, LastWriter;
      ghost var c := Bytes();
      WriteAll(ws);
      n, data := Read(pos, length);
      forall j: nat | j < n
        ensures data[j] ==
                  var i := LastWriter(ws, pos + j); if i >= 0 then ws[i].data[pos + j - ws[i].offset] else c[pos + j]
      {
        LastByteWins(c, ws, pos + j);
      }
    }
  }
}
