/** Directory records as bytes: the little-endian image of one record, and regions of a buffer that
    a list of records tiles. */
module DirBytes {
  import opened Bytes
  import opened DirRecords
  import opened DirRuns
  import opened Machine

  const LE32 := 0x1_0000_0000

  // ----- little-endian numbers -----

  function Pow256(n: nat): (p: nat)
    ensures p > 0
  {
    if n == 0 then 1 else 256 * Pow256(n - 1)
  }

  function Le(v: nat, n: nat): (b: seq<Byte>)
    ensures |b| == n
  {
    if n == 0 then [] else [v % 256] + Le(v / 256, n - 1)
  }

  function FromLe(b: seq<Byte>): nat {
    if b == [] then 0 else b[0] + 256 * FromLe(b[1..])
  }

  /** Storing a number in `n` bytes and loading it again gives the number modulo 256 to the `n`. */
  lemma {:induction false} LeRoundTrip(v: nat, n: nat)
    ensures FromLe(Le(v, n)) == v % Pow256(n)
  {
    if n > 0 {
      LeRoundTrip(v / 256, n - 1);
      assert Le(v, n)[1..] == Le(v / 256, n - 1);
      ModSplit(v, Pow256(n - 1));
    }
  }

  /** Byte `k` of a stored number is its digit of weight 256 to the `k`: the least significant byte comes first. */
  lemma {:induction false} LeByte(v: nat, n: nat, k: nat)
    requires k < n
    ensures Le(v, n)[k] == v / Pow256(k) % 256
    decreases k
  {
    if k > 0 {
      LeByte(v / 256, n - 1, k - 1);
      DivTwice(v, Pow256(k - 1));
    }
  }

  lemma DivTwice(v: nat, p: nat)
    requires p > 0
    ensures v / 256 / p == v / (256 * p)
  {
    var q, r := v / 256, v % 256;
    var d, m := q / p, q % p;
    assert v == d * (256 * p) + (256 * m + r) && 256 * m + r < 256 * p;
    DivOf(d, 256 * p, 256 * m + r);
  }

  lemma DivOf(d: nat, k: nat, x: nat)
    requires x < k
    ensures (d * k + x) / k == d
  {
    ModOf(d, k, x);
    var e := (d * k + x) / k;
    assert d * k + x == e * k + x;
    assert (e - d) * k == 0;
  }

  lemma ModSplit(v: nat, p: nat)
    requires p > 0
    ensures v % (256 * p) == v % 256 + 256 * ((v / 256) % p)
  {
    var q, r := v / 256, v % 256;
    var d, m := q / p, q % p;
    assert v == 256 * (d * p + m) + r == d * (256 * p) + (256 * m + r);
    assert 256 * m + r < 256 * p;
    ModOf(d, 256 * p, 256 * m + r);
  }

  lemma ModOf(d: nat, k: nat, x: nat)
    requires x < k
    ensures (d * k + x) % k == x
  {
    var v := d * k + x;
    var e := v / k;
    assert v == e * k + v % k;
    assert (e - d) * k == x - v % k;
    assert e - d >= 1 ==> (e - d) * k >= k;
    assert e - d <= -1 ==> (e - d) * k <= 0 - (k as int);
  }

  lemma Powers()
    ensures Pow256(2) == REC_LEN_LIMIT && Pow256(8) == WORD_LIMIT
  {
    assert Pow256(2) == REC_LEN_LIMIT;
    assert Pow256(4) == 256 * 256 * Pow256(2);
    assert Pow256(6) == 256 * 256 * Pow256(4);
    assert Pow256(8) == 256 * 256 * Pow256(6);
  }

  lemma Loads(v: nat)
    ensures v < WORD_LIMIT ==> FromLe(Le(v, 8)) == v
    ensures v < REC_LEN_LIMIT ==> FromLe(Le(v, 2)) == v
  {
    hide FromLe, Le, Pow256;
    Powers();
    LeRoundTrip(v, 8);
    LeRoundTrip(v, 2);
  }

  // ----- one record -----

  /** The bytes of `struct rdfs_dir_entry` up to the end of the name. */
  function Image(r: Rec): (b: seq<Byte>)
    requires |r.name| <= MAX_NAME
    ensures |b| == HEADER + |r.name|
  {
    Le(r.ino, 8) + Le(r.recLen, 2) + [|r.name|, r.ftype] + r.name
  }

  /** Record `r` lies at offset `o`. */
  ghost predicate Holds(b: seq<Byte>, o: nat, r: Rec) {
    && |r.name| <= MAX_NAME && r.ino < WORD_LIMIT && r.recLen < REC_LEN_LIMIT
    && o + HEADER + |r.name| <= |b|
    && b[o..o + HEADER + |r.name|] == Image(r)
  }

  /** The stretches of the image, field by field. */
  lemma BytesOf(b: seq<Byte>, o: nat, r: Rec)
    requires Holds(b, o, r)
    ensures b[o..o + 8] == Le(r.ino, 8) && b[o + 8..o + 10] == Le(r.recLen, 2)
    ensures b[o + 10] == |r.name| && b[o + 11] == r.ftype && b[o + 12..o + 12 + |r.name|] == r.name
  {
    hide Le;
    var c := b[o..o + HEADER + |r.name|];
    var p, q := Le(r.ino, 8), Le(r.recLen, 2);
    assert c == p + q + [|r.name|, r.ftype] + r.name;
    assert forall j: nat :: j < |c| ==> b[o + j] == c[j];
    assert b[o..o + 8] == c[..8] == p;
    assert c[8] == q[0] && c[9] == q[1];
    assert b[o + 8..o + 10] == q;
    assert b[o + 12..o + 12 + |r.name|] == c[12..] == r.name;
  }

  /** The fields a reader finds at the offset of a record are those of the record. */
  lemma FieldsOf(b: seq<Byte>, o: nat, r: Rec)
    requires Holds(b, o, r)
    ensures FromLe(b[o..o + 8]) == r.ino && FromLe(b[o + 8..o + 10]) == r.recLen
    ensures b[o + 10] == |r.name| && b[o + 11] == r.ftype
    ensures b[o + 12..o + 12 + |r.name|] == r.name
  {
    hide FromLe, Le;
    BytesOf(b, o, r);
    Loads(r.ino);
    Loads(r.recLen);
  }

  /** Bytes that read as the fields of a record are the record. */
  lemma HoldsIf(b: seq<Byte>, o: nat, r: Rec)
    requires |r.name| <= MAX_NAME && r.ino < WORD_LIMIT && r.recLen < REC_LEN_LIMIT && o + HEADER + |r.name| <= |b|
    requires b[o..o + 8] == Le(r.ino, 8) && b[o + 8..o + 10] == Le(r.recLen, 2)
    requires b[o + 10] == |r.name| && b[o + 11] == r.ftype && b[o + 12..o + 12 + |r.name|] == r.name
    ensures Holds(b, o, r)
  {
    var c := b[o..o + HEADER + |r.name|];
    assert c == b[o..o + 8] + b[o + 8..o + 10] + [b[o + 10], b[o + 11]] + b[o + 12..o + 12 + |r.name|];
  }

  /** A record stays where it lies as long as its bytes do. */
  lemma HoldsStill(b: seq<Byte>, c: seq<Byte>, o: nat, r: Rec)
    requires Holds(b, o, r) && |c| == |b|
    requires forall i: nat :: o <= i < o + HEADER + |r.name| ==> c[i] == b[i]
    ensures Holds(c, o, r)
  {
    assert c[o..o + HEADER + |r.name|] == b[o..o + HEADER + |r.name|];
  }

  // ----- regions -----

  ghost predicate HoldsAt(b: seq<Byte>, rs: seq<Rec>, i: nat)
    requires i < |rs|
  {
    Holds(b, Off(rs, i), rs[i])
  }

  /** Record `j` of a stretch that begins at offset `o`. */
  ghost predicate HoldsFrom(b: seq<Byte>, o: nat, mid: seq<Rec>, j: nat)
    requires j < |mid|
  {
    Holds(b, o + Off(mid, j), mid[j])
  }

  /** The records tile the first `size` bytes. */
  ghost predicate Tiles(b: seq<Byte>, size: nat, rs: seq<Rec>) {
    && AllOk(rs) && Size(rs) == size <= |b|
    && forall i: nat :: i < |rs| ==> HoldsAt(b, rs, i)
  }

  /** Where the records before, in and behind a replaced stretch of the same length lie. */
  lemma OffBefore(rs: seq<Rec>, at: nat, tail: seq<Rec>, i: nat)
    requires i <= at <= |rs|
    ensures Off(rs[..at] + tail, i) == Off(rs, i)
  {
    assert rs == rs[..at] + rs[at..];
    OffPrefix(rs[..at], tail, i);
    OffPrefix(rs[..at], rs[at..], i);
  }

  lemma OffIn(rs: seq<Rec>, at: nat, mid: seq<Rec>, tail: seq<Rec>, j: nat)
    requires at <= |rs| && j <= |mid|
    ensures Off(rs[..at] + mid + tail, at + j) == Off(rs, at) + Off(mid, j)
  {
    assert rs[..at] + mid + tail == rs[..at] + (mid + tail);
    OffSuffix(rs[..at], mid + tail, j);
    OffPrefix(mid, tail, j);
    OffBefore(rs, at, [], at);
    assert rs[..at] + [] == rs[..at];
  }

  lemma OffBehind(rs: seq<Rec>, at: nat, mid: seq<Rec>, n: nat, i: nat)
    requires at + n <= i <= |rs| && Size(mid) == Size(rs[at..at + n])
    ensures Off(rs[..at] + mid + rs[at + n..], i - n + |mid|) == Off(rs, i)
  {
    var t: nat := i - (at + n);
    OffSuffix(rs[..at] + mid, rs[at + n..], t);
    OffSuffix(rs[..at] + rs[at..at + n], rs[at + n..], t);
    assert rs == rs[..at] + rs[at..at + n] + rs[at + n..];
    SizeSplit(rs[..at], rs[at..at + n]);
    SizeSplit(rs[..at], mid);
  }

  /** Replacing a stretch of records by others of the same total length, writing only inside it,
      keeps the region tiled. */
  lemma TilesAround(b: seq<Byte>, c: seq<Byte>, size: nat, rs: seq<Rec>, at: nat, mid: seq<Rec>, n: nat)
    requires Tiles(b, size, rs) && |c| == |b| && at + n <= |rs|
    requires AllOk(mid) && Size(mid) == Size(rs[at..at + n])
    requires forall j: nat :: j < |mid| ==> HoldsFrom(c, Off(rs, at), mid, j)
    requires forall i: nat :: i < |b| && !(Off(rs, at) <= i < Off(rs, at + n)) ==> c[i] == b[i]
    ensures Tiles(c, size, rs[..at] + mid + rs[at + n..])
  {
    hide Holds, Off, HoldsAt, HoldsFrom, AllOk, Size;
    var rs' := rs[..at] + mid + rs[at + n..];
    SizeAround(rs, at, mid, n);
    OffGrows(rs, at, at + n);
    AllOkAround(rs, at, mid, n);
    forall i: nat | i < |rs'|
      ensures HoldsAt(c, rs', i)
    {
      if i < at {
        assert HoldsAt(b, rs, i);
        HoldsBefore(b, c, rs, at, mid, n, i);
      } else if i < at + |mid| {
        assert HoldsFrom(c, Off(rs, at), mid, i - at);
        HoldsIn(c, rs, at, mid, n, i);
      } else {
        assert HoldsAt(b, rs, i - |mid| + n);
        HoldsBehind(b, c, rs, at, mid, n, i - |mid| + n);
      }
    }
  }

  lemma AllOkAround(rs: seq<Rec>, at: nat, mid: seq<Rec>, n: nat)
    requires AllOk(rs) && AllOk(mid) && at + n <= |rs|
    ensures AllOk(rs[..at] + mid + rs[at + n..])
  {
  }

  lemma HoldsBefore(b: seq<Byte>, c: seq<Byte>, rs: seq<Rec>, at: nat, mid: seq<Rec>, n: nat, i: nat)
    requires i < at <= at + n <= |rs| && AllOk(rs) && HoldsAt(b, rs, i) && |c| == |b|
    requires forall j: nat :: j < |b| && j < Off(rs, at) ==> c[j] == b[j]
    ensures HoldsAt(c, rs[..at] + mid + rs[at + n..], i)
  {
    hide Holds, Off;
    assert rs[..at] + mid + rs[at + n..] == rs[..at] + (mid + rs[at + n..]);
    OffBefore(rs, at, mid + rs[at + n..], i);
    StillBefore(b, c, rs, at, i);
  }

  lemma HoldsIn(c: seq<Byte>, rs: seq<Rec>, at: nat, mid: seq<Rec>, n: nat, i: nat)
    requires at + n <= |rs| && at <= i < at + |mid| && HoldsFrom(c, Off(rs, at), mid, i - at)
    ensures HoldsAt(c, rs[..at] + mid + rs[at + n..], i)
  {
    hide Holds, Off;
    OffIn(rs, at, mid, rs[at + n..], i - at);
  }

  lemma HoldsBehind(b: seq<Byte>, c: seq<Byte>, rs: seq<Rec>, at: nat, mid: seq<Rec>, n: nat, k: nat)
    requires at + n <= k < |rs| && HoldsAt(b, rs, k) && |c| == |b| && Size(mid) == Size(rs[at..at + n])
    requires forall j: nat :: j < |b| && j >= Off(rs, at + n) ==> c[j] == b[j]
    ensures HoldsAt(c, rs[..at] + mid + rs[at + n..], k - n + |mid|)
  {
    hide Holds, Off;
    OffBehind(rs, at, mid, n, k);
    StillBehind(b, c, rs, at + n, k);
  }

  lemma StillBefore(b: seq<Byte>, c: seq<Byte>, rs: seq<Rec>, at: nat, i: nat)
    requires i < at <= |rs| && AllOk(rs) && HoldsAt(b, rs, i) && |c| == |b|
    requires forall j: nat :: j < |b| && j < Off(rs, at) ==> c[j] == b[j]
    ensures Holds(c, Off(rs, i), rs[i])
  {
    var o, n := Off(rs, i), HEADER + |rs[i].name|;
    assert Off(rs, i + 1) == o + rs[i].recLen;
    OffGrows(rs, i + 1, at);
    assert RecOk(rs[i]);
    assert o + n <= Off(rs, at) && o + n <= |b|;
    hide Off, Holds, AllOk;
    HoldsStill(b, c, o, rs[i]);
  }

  lemma StillBehind(b: seq<Byte>, c: seq<Byte>, rs: seq<Rec>, from: nat, i: nat)
    requires from <= i < |rs| && HoldsAt(b, rs, i) && |c| == |b|
    requires forall j: nat :: j < |b| && j >= Off(rs, from) ==> c[j] == b[j]
    ensures Holds(c, Off(rs, i), rs[i])
  {
    OffGrows(rs, from, i);
    HoldsStill(b, c, Off(rs, i), rs[i]);
  }

  /** A new record on a page of its own extends the region. */
  lemma TilesMore(b: seq<Byte>, c: seq<Byte>, size: nat, rs: seq<Rec>, r: Rec)
    requires Tiles(b, size, rs) && |c| == |b| && RecOk(r) && size + r.recLen <= |b|
    requires Holds(c, size, r) && forall i: nat :: i < size ==> c[i] == b[i]
    ensures Tiles(c, size + r.recLen, rs + [r])
  {
    var rs' := rs + [r];
    SizeSplit(rs, [r]);
    SizeOfOne(r);
    forall i: nat | i < |rs'|
      ensures HoldsAt(c, rs', i)
    {
      OffPrefix(rs, [r], i);
      if i < |rs| {
        StillBefore(b, c, rs, |rs|, i);
      }
    }
  }

  /** A region is tiled in at most one way: the bytes determine the records. */
  lemma {:induction false} TilingUnique(b: seq<Byte>, size: nat, rs: seq<Rec>, qs: seq<Rec>, i: nat)
    requires Tiles(b, size, rs) && Tiles(b, size, qs) && i <= |rs|
    ensures i <= |qs| && rs[..i] == qs[..i] && Off(rs, i) == Off(qs, i)
  {
    if i > 0 {
      var k: nat := i - 1;
      TilingUnique(b, size, rs, qs, k);
      SameRecord(b, size, rs, qs, k);
      hide Off, Tiles;
      assert rs[..i] == rs[..k] + [rs[k]] && qs[..i] == qs[..k] + [qs[k]];
    }
  }

  lemma SameRecord(b: seq<Byte>, size: nat, rs: seq<Rec>, qs: seq<Rec>, k: nat)
    requires Tiles(b, size, rs) && Tiles(b, size, qs) && k < |rs| && k <= |qs| && Off(rs, k) == Off(qs, k)
    ensures k < |qs| && rs[k] == qs[k] && Off(rs, k + 1) == Off(qs, k + 1)
  {
    assert RecOk(rs[k]) && HoldsAt(b, rs, k);
    OffGrows(rs, k + 1, |rs|);
    assert k < |qs| && HoldsAt(b, qs, k);
    assert Off(rs, k + 1) == Off(rs, k) + rs[k].recLen && Off(qs, k + 1) == Off(qs, k) + qs[k].recLen;
    hide Tiles, Off, AllOk, RecLen;
    FieldsOf(b, Off(rs, k), rs[k]);
    FieldsOf(b, Off(qs, k), qs[k]);
  }
}
