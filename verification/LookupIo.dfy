/** Reads and writes through the recorded placements: what the split loops see when every block is looked up with
    `rdfs_search_metadata`, for a file that makes all the placements. */
module LookupIo {
  import RemoteFile
  import opened Bytes
  import opened Chunks
  import opened Finite
  import opened Machine
  import opened Metadata
  import opened SplitIo

  /** What lookup answers for block `k`. */
  function LookupAt(st: Meta, f: nat, k: nat): Block {
    if k / PTES < |Mapped(st, f)| && Address(st, f, k) in st.mem then Decode(st.mem[Address(st, f, k)]) else Block(0, 0)
  }

  /** The blocks that the split loops use for the first `n` blocks of a file. */
  function Looked(st: Meta, f: nat, n: nat): (place: seq<Block>)
    ensures |place| == n && forall k: nat :: k < n ==> place[k] == LookupAt(st, f, k)
  {
    seq(n, k requires k >= 0 => LookupAt(st, f, k))
  }

  /** File `f` made all the placements. */
  ghost predicate Sole(st: Meta, f: nat) {
    MetaOk(st) && Distinct(st.log) && Ats(st, f) == UpTo(|st.log|)
  }

  lemma SoleLookup(st: Meta, f: nat, k: nat)
    requires Sole(st, f) && k < |st.log|
    ensures var g := k / PTES / PTES * PTES + k % PTES; g < |st.log| && LookupAt(st, f, k) == st.log[g]
  {
    LookupReads(st, f, k);
    var g := Seen(Ats(st, f), k);
    hide MetaOk;
    assert g == k / PTES / PTES * PTES + k % PTES;
    WordRoundTrip(st.log[g]);
  }

  /** Up to 512 blocks the loops use the blocks granted to the file. */
  lemma LookedIsLog(st: Meta, f: nat, n: nat)
    requires Sole(st, f) && n <= |st.log| && n <= PTES
    ensures Looked(st, f, n) == st.log[..n] && Distinct(Looked(st, f, n))
  {
    forall k: nat | k < n
      ensures LookupAt(st, f, k) == st.log[k]
    {
      SoleLookup(st, f, k);
    }
  }

  /** The blocks used are all different exactly up to 512 of them: block 512 is looked up as block 0. */
  lemma LookedDistinctIff(st: Meta, f: nat, n: nat)
    requires Sole(st, f) && n <= |st.log|
    ensures Distinct(Looked(st, f, n)) <==> n <= PTES
    ensures n > PTES ==> Looked(st, f, n)[PTES] == Looked(st, f, n)[0] == st.log[0]
  {
    if n <= PTES {
      LookedIsLog(st, f, n);
    } else {
      SoleLookup(st, f, 0);
      SoleLookup(st, f, PTES);
    }
  }

  /** Bytes written to block 512 arrive in block 0. */
  lemma Block512OverwritesBlock0(st: Meta, f: nat, n: nat, remote: map<Loc, Byte>, base: nat -> nat, off: nat,
                                 data: seq<Byte>, x: nat)
    requires Sole(st, f) && PTES < n <= |st.log| && off <= x < off + |data| <= PAGE_SIZE
    ensures ByteAt(Sent(remote, base, Looked(st, f, n)[PTES], off, data), base, Looked(st, f, n), x) == data[x - off]
  {
    LookedDistinctIff(st, f, n);
    assert x / PAGE_SIZE == 0 && x % PAGE_SIZE == x;
    hide Sole, Looked, Sent, Fetch, Distinct, At;
    var place := Looked(st, f, n);
    SentIs(remote, base, place[PTES], off, data, At(base, place[0], x));
  }

  /** Looking up the first `n` blocks. */
  method LookAll(table: MetaTable, f: nat, n: nat) returns (place: seq<Block>)
    requires table.Valid() && Sole(table.St(), f) && n <= |table.log| && n <= PTES
    ensures place == table.log[..n]
  {
    hide Sole, MetaOk;
    place := [];
    while |place| < n
      invariant |place| <= n && place == table.log[..|place|]
    {
      SoleMapped(table.St(), f);
      var slave, block := table.SearchMetadata(f, |place| * PAGE_SIZE);
      place := place + [Block(slave, block)];
    }
  }

  lemma SoleMapped(st: Meta, f: nat)
    requires Sole(st, f)
    ensures |Mapped(st, f)| == |st.log| && Ats(st, f) == UpTo(|st.log|)
  {
    assert FileOk(st, f);
  }

  /** A file that makes all the placements, up to 512 blocks: a read after any run of writes, both through lookups, sees
      at each position the byte of the last write that covers it. */
  method ReadBack(table: MetaTable, t: Transfer, f: nat, blocks: nat, ws: seq<Write>, pos: nat, length: nat)
      returns (n: nat, data: seq<Byte>)
    requires table.Valid() && Sole(table.St(), f) && blocks == |table.log| <= PTES && t.buffer.Length == PAGE_SIZE
    requires RemoteFile.BlocksAfter(0, 0, ws) <= |table.log| && forall i: nat :: i < |ws| ==> |ws[i].data| < PAGE_SIZE
    requires ws != [] && pos < ws[|ws| - 1].offset + |ws[|ws| - 1].data| && length <= PAGE_SIZE
    modifies t, t.buffer
    ensures |data| == n
    ensures var end := ws[|ws| - 1].offset + |ws[|ws| - 1].data|; n == if pos + length > end then end - pos else length
    ensures forall j: nat :: j < n ==>
              var i := LastWriter(ws, pos + j);
              if i >= 0 then data[j] == ws[i].data[pos + j - ws[i].offset]
              else pos + j < |table.log| * PAGE_SIZE && data[j] == old(Content(t.remote, t.base, table.log))[pos + j]
  {
    LookedIsLog(table.St(), f, |table.log|);
    hide Sole, Content, LastWriter, RemoteFile.BlocksAfter, Looked;
    var place := LookAll(table, f, blocks);
    assert place == table.log;
    var file := new RemoteFile.File(t, place);
    n, data := file.ReadBack(ws, pos, length);
  }
}
