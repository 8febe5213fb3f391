/** A directory as dir.c keeps it: a byte buffer that its procedures walk and patch in place. */
module Directory {
  import opened Bytes
  import opened DirBytes
  import opened DirRecords
  import opened DirRuns
  import opened Machine

  /** `b` with the bytes `s` written at `o`. */
  function Patched(b: seq<Byte>, o: nat, s: seq<Byte>): (c: seq<Byte>)
    requires o + |s| <= |b|
    ensures |c| == |b| && c[o..o + |s|] == s
    ensures forall i: nat :: i < |b| ==> c[i] == if o <= i < o + |s| then s[i - o] else b[i]
  {
    b[..o] + s + b[o + |s|..]
  }

  /** Writing the other fields of a record whose length is already stored lays its image. */
  lemma PatchLays(b: seq<Byte>, o: nat, r: Rec)
    requires |r.name| <= MAX_NAME && r.ino < WORD_LIMIT && r.recLen < REC_LEN_LIMIT && o + HEADER + |r.name| <= |b|
    requires b[o + 8..o + 10] == Le(r.recLen, 2)
    ensures var c := Patched(Patched(Patched(Patched(b, o + 10, [|r.name|]), o + 12, r.name),
                             o, Le(r.ino, 8)), o + 11, [r.ftype]);
            && Holds(c, o, r)
            && forall i: nat :: i < |b| && !(o <= i < o + HEADER + |r.name|) ==> c[i] == b[i]
  {
    hide Le, FromLe, Patched;
    var e := Le(r.ino, 8);
    var c1 := Patched(b, o + 10, [|r.name|]);
    var c2 := Patched(c1, o + 12, r.name);
    var c3 := Patched(c2, o, e);
    var c4 := Patched(c3, o + 11, [r.ftype]);
    assert c4[o..o + 8] == c3[o..o + 8] == e;
    assert c4[o + 8..o + 10] == b[o + 8..o + 10];
    assert c4[o + 12..o + 12 + |r.name|] == c2[o + 12..o + 12 + |r.name|] == r.name;
    HoldsIf(c4, o, r);
  }

  /** Writing the length of a record, or its inode and type, changes just that. */
  lemma PatchLen(b: seq<Byte>, o: nat, r: Rec, len: nat)
    requires Holds(b, o, r) && len < REC_LEN_LIMIT
    ensures Holds(Patched(b, o + 8, Le(len, 2)), o, r.(recLen := len))
  {
    hide Le, Patched;
    BytesOf(b, o, r);
    var c := Patched(b, o + 8, Le(len, 2));
    assert c[o..o + 8] == b[o..o + 8];
    assert c[o + 12..o + 12 + |r.name|] == b[o + 12..o + 12 + |r.name|];
    HoldsIf(c, o, r.(recLen := len));
  }

  lemma PatchIno(b: seq<Byte>, o: nat, r: Rec, ino: nat, ftype: Byte)
    requires Holds(b, o, r) && ino < WORD_LIMIT
    ensures Holds(Patched(Patched(b, o, Le(ino, 8)), o + 11, [ftype]), o, r.(ino := ino, ftype := ftype))
  {
    hide Le, Patched;
    BytesOf(b, o, r);
    var c := Patched(Patched(b, o, Le(ino, 8)), o + 11, [ftype]);
    assert c[o..o + 8] == Le(ino, 8);
    assert c[o + 8..o + 10] == b[o + 8..o + 10];
    assert c[o + 12..o + 12 + |r.name|] == b[o + 12..o + 12 + |r.name|];
    HoldsIf(c, o, r.(ino := ino, ftype := ftype));
  }

  lemma KthRecord(b: seq<Byte>, size: nat, rs: seq<Rec>, k: nat)
    requires Tiles(b, size, rs) && k < |rs|
    ensures Holds(b, Off(rs, k), rs[k]) && RecOk(rs[k]) && Off(rs, k) + rs[k].recLen == Off(rs, k + 1) <= size <= |b|
  {
    assert HoldsAt(b, rs, k);
    OffGrows(rs, k + 1, |rs|);
  }

  lemma WalkEnds(b: seq<Byte>, size: nat, rs: seq<Rec>, k: nat)
    requires Tiles(b, size, rs) && k <= |rs|
    ensures Off(rs, k) <= size <= |b| && (k == |rs| <==> Off(rs, k) == size)
  {
    if k < |rs| {
      KthRecord(b, size, rs, k);
    }
  }

  /** Splitting a record: its head keeps everything but the length, and the length of the tail stays. */
  lemma SplitHead(b: seq<Byte>, c: seq<Byte>, d: seq<Byte>, o: nat, r: Rec, own: nat, l: seq<Byte>)
    requires Holds(b, o, r) && own == RecLen(|r.name|) && |l| == 2 && o + own + 10 <= |b|
    requires c == Patched(b, o + own + 8, l) && d == Patched(c, o + 8, Le(own, 2))
    ensures Holds(d, o, r.(recLen := own)) && d[o + own + 8..o + own + 10] == l
    ensures forall i: nat :: i < |b| && !(o <= i < o + own + 10) ==> d[i] == b[i]
  {
    hide Le, Patched;
    HoldsStill(b, c, o, r);
    PatchLen(c, o, r, own);
    assert d[o + own + 8..o + own + 10] == c[o + own + 8..o + own + 10];
  }

  lemma SplitTiles(b: seq<Byte>, d: seq<Byte>, e: seq<Byte>, size: nat, rs: seq<Rec>, k: nat, r: Rec)
    requires Tiles(b, size, rs) && k < |rs| && Live(rs[k]) && |b| == |d| == |e| && RecOk(r)
    requires RecLen(|rs[k].name|) + r.recLen == rs[k].recLen
    requires Holds(d, Off(rs, k), rs[k].(recLen := RecLen(|rs[k].name|)))
    requires Holds(e, Off(rs, k) + RecLen(|rs[k].name|), r)
    requires forall i: nat :: i < |b| && !(Off(rs, k) <= i < Off(rs, k) + rs[k].recLen) ==> d[i] == b[i]
    requires var o := Off(rs, k) + RecLen(|rs[k].name|);
             forall i: nat :: i < |b| && !(o <= i < o + HEADER + |r.name|) ==> e[i] == d[i]
    ensures Tiles(e, size, Inserted(rs, k, r.name, r.ino, r.ftype))
  {
    hide Holds, Tiles, Off, Size;
    KthRecord(b, size, rs, k);
    var o, own := Off(rs, k), RecLen(|rs[k].name|);
    var h := rs[k].(recLen := own);
    HoldsStill(d, e, o, h);
    SizeOfTwo(h, r);
    SizeOfOne(rs[k]);
    assert rs[k..k + 1] == [rs[k]];
    var mid := [h, r];
    assert AllOk(mid);
    hide RecLen;
    assert mid[1] == r && o + Off(mid, 1) == o + own;
    assert HoldsFrom(e, o, mid, 0) && HoldsFrom(e, o, mid, 1);
    TilesAround(b, e, size, rs, k, mid, 1);
  }

  /** Rewriting one record within its own bytes keeps the region tiled. */
  lemma SwapTiles(b: seq<Byte>, e: seq<Byte>, size: nat, rs: seq<Rec>, k: nat, r: Rec)
    requires Tiles(b, size, rs) && k < |rs| && |b| == |e| && RecOk(r)
    requires r.recLen == rs[k].recLen && Holds(e, Off(rs, k), r)
    requires forall i: nat :: i < |b| && !(Off(rs, k) <= i < Off(rs, k) + rs[k].recLen) ==> e[i] == b[i]
    ensures Tiles(e, size, rs[k := r])
  {
    hide Tiles, Off, Holds, RecLen;
    KthRecord(b, size, rs, k);
    SizeOfOne(r);
    SizeOfOne(rs[k]);
    assert rs[k..k + 1] == [rs[k]];
    OneHolds(e, Off(rs, k), r);
    hide HoldsFrom, RecOk;
    TilesAround(b, e, size, rs, k, [r], 1);
    assert rs[k := r] == rs[..k] + [r] + rs[k + 1..];
  }

  lemma OneHolds(b: seq<Byte>, o: nat, r: Rec)
    requires Holds(b, o, r)
    ensures HoldsFrom(b, o, [r], 0)
  {
    assert Off([r], 0) == 0;
  }

  lemma ReuseTiles(b: seq<Byte>, e: seq<Byte>, size: nat, rs: seq<Rec>, k: nat, r: Rec)
    requires Tiles(b, size, rs) && k < |rs| && !Live(rs[k]) && |b| == |e| && RecOk(r)
    requires r.recLen == rs[k].recLen && Holds(e, Off(rs, k), r)
    requires forall i: nat :: i < |b| && !(Off(rs, k) <= i < Off(rs, k) + rs[k].recLen) ==> e[i] == b[i]
    ensures Tiles(e, size, Inserted(rs, k, r.name, r.ino, r.ftype))
  {
    SwapTiles(b, e, size, rs, k, r);
  }

  lemma Start(rs: seq<Rec>)
    ensures Off(rs, 0) == 0
  {
  }

  /** Killing a record leaves the one before it as it was. */
  lemma KeptLen(b: seq<Byte>, c: seq<Byte>, o: nat, prev: nat, r: Rec, z: seq<Byte>)
    requires Holds(b, prev, r) && prev + HEADER + |r.name| <= o && o + |z| <= |b| && c == Patched(b, o, z)
    ensures Holds(c, prev, r) && c[prev + 8..prev + 10] == b[prev + 8..prev + 10]
  {
    hide Patched, Le;
    HoldsStill(b, c, prev, r);
  }

  /** What `rdfs_delete_entry` makes of the records. */
  function Deleted(rs: seq<Rec>, at: nat): seq<Rec>
    requires at < |rs|
  {
    if at == 0
      then rs[0 := rs[0].(ino := 0, recLen := (rs[0].recLen + rs[0].recLen) % REC_LEN_LIMIT)]
      else Removed(rs, at)
  }

  /** Deleting the first record doubles its length, so the records no longer fill the directory. */
  lemma FirstKilledSize(rs: seq<Rec>)
    requires rs != [] && 0 < rs[0].recLen < REC_LEN_LIMIT
    ensures Size(Deleted(rs, 0)) != Size(rs)
  {
    var r := Deleted(rs, 0)[0];
    assert Deleted(rs, 0) == rs[..0] + [r] + rs[1..];
    SizeAround(rs, 0, [r], 1);
    assert rs[0..1] == [rs[0]];
    SizeOfOne(r);
    SizeOfOne(rs[0]);
  }

  /** After the victim's inode is cleared, its predecessor still has its length; so has a victim that is its own. */
  lemma KilledLen(b: seq<Byte>, c: seq<Byte>, rs: seq<Rec>, k: nat, de: nat, prev: nat, q: Rec)
    requires k < |rs| && de == Off(rs, k) && prev == Off(rs, if k == 0 then 0 else k - 1) && de + 8 <= |b|
    requires q == rs[if k == 0 then 0 else k - 1] && Holds(b, prev, q) && RecOk(q) && c == Patched(b, de, Le(0, 8))
    requires k > 0 ==> Off(rs, k) == prev + q.recLen
    ensures Holds(c, prev, if k == 0 then q.(ino := 0) else q)
  {
    if k == 0 {
      hide Le, Patched;
      BytesOf(b, de, q);
      assert c[de + 8..de + 10] == b[de + 8..de + 10];
      assert c[de + 12..de + 12 + |q.name|] == b[de + 12..de + 12 + |q.name|];
      HoldsIf(c, de, q.(ino := 0));
    } else {
      KeptLen(b, c, de, prev, q, Le(0, 8));
    }
  }

  lemma MergeTiles(b: seq<Byte>, c: seq<Byte>, d: seq<Byte>, size: nat, rs: seq<Rec>, k: nat, o: nat, prev: nat,
                   sum: nat)
    requires Tiles(b, size, rs) && 0 < k < |rs| && sum == rs[k - 1].recLen + rs[k].recLen < REC_LEN_LIMIT
    requires o == Off(rs, k) && prev == Off(rs, k - 1) && o + 8 <= |b| && prev + 10 <= |b|
    requires c == Patched(b, o, Le(0, 8)) && d == Patched(c, prev + 8, Le(sum, 2))
    requires Holds(d, prev, rs[k - 1].(recLen := sum))
    ensures Tiles(d, size, Removed(rs, k))
  {
    hide Holds, Tiles, Patched, Le, Off, Size, HoldsFrom;
    KthRecord(b, size, rs, k - 1);
    KthRecord(b, size, rs, k);
    var m := rs[k - 1].(recLen := rs[k - 1].recLen + rs[k].recLen);
    SizeOfOne(m);
    SizeOfTwo(rs[k - 1], rs[k]);
    assert rs[k - 1..k - 1 + 2] == [rs[k - 1], rs[k]];
    OneHolds(d, Off(rs, k - 1), m);
    assert AllOk([m]);
    hide RecLen, AllOk;
    TilesAround(b, d, size, rs, k - 1, [m], 2);
  }

  /** A delete keeps the tiling exactly when there is a record before the victim and the lengths add up in 16 bits. */
  lemma DeletedTiles(b: seq<Byte>, c: seq<Byte>, d: seq<Byte>, size: nat, rs: seq<Rec>, k: nat, de: nat, prev: nat,
                     temp: nat)
    requires Tiles(b, size, rs) && k < |rs| && de == Off(rs, k) && de + 8 <= |b| && prev + 10 <= |b|
    requires prev == Off(rs, if k == 0 then 0 else k - 1)
    requires var q := rs[if k == 0 then 0 else k - 1];
             temp == (q.recLen + rs[k].recLen) % REC_LEN_LIMIT && Holds(c, prev, if k == 0 then q.(ino := 0) else q)
    requires c == Patched(b, de, Le(0, 8)) && d == Patched(c, prev + 8, Le(temp, 2))
    ensures Tiles(d, size, Deleted(rs, k)) <==> k > 0 && rs[k - 1].recLen + rs[k].recLen < REC_LEN_LIMIT
    ensures k == 0 ==> Holds(d, 0, Deleted(rs, k)[0])
    ensures k == 0 ==> forall i: nat :: HEADER <= i < |b| ==> d[i] == b[i]
  {
    hide Holds, Le, Patched, Tiles, Off, Removed, RecLen, AllOk, Size;
    KthRecord(b, size, rs, k);
    Start(rs);
    if k == 0 {
      PatchLen(c, prev, rs[0].(ino := 0), temp);
      FirstKilledSize(rs);
    } else {
      if temp == rs[k - 1].recLen + rs[k].recLen {
        PatchLen(c, prev, rs[k - 1], temp);
        MergeTiles(b, c, d, size, rs, k, de, prev, temp);
      }
      RemoveSizeIff(rs, k);
    }
    TilesSize(b, d, size, rs, Deleted(rs, k));
  }

  lemma NoLonger(b: seq<Byte>, size: nat, rs: seq<Rec>)
    requires Tiles(b, size, rs)
    ensures !Tiles(b, size + PAGE_SIZE, rs)
  {
  }

  lemma TilesSize(b: seq<Byte>, c: seq<Byte>, size: nat, rs: seq<Rec>, rs': seq<Rec>)
    requires Tiles(b, size, rs)
    ensures Tiles(c, size, rs') ==> Size(rs') == Size(rs)
  {
  }

  lemma RelinkTiles(b: seq<Byte>, c: seq<Byte>, size: nat, rs: seq<Rec>, k: nat, ino: nat, ftype: Byte)
    requires Tiles(b, size, rs) && k < |rs| && Off(rs, k) + HEADER <= |b|
    requires c == Patched(Patched(b, Off(rs, k), Le(ino, 8)), Off(rs, k) + 11, [ftype])
    requires Holds(c, Off(rs, k), rs[k].(ino := ino, ftype := ftype))
    ensures Tiles(c, size, Relinked(rs, k, ino, ftype))
  {
    hide Holds, Tiles, Patched, Le;
    KthRecord(b, size, rs, k);
    SwapTiles(b, c, size, rs, k, rs[k].(ino := ino, ftype := ftype));
  }

  /** The two records of a new directory tile its page. */
  lemma EmptyTiles(b: seq<Byte>, c: seq<Byte>, d: seq<Byte>, self: nat, parent: nat)
    requires |b| == |c| == |d| == MAX_DIR_SIZE
    requires Holds(b, 0, EmptyDir(self, parent)[0]) && Holds(d, RecLen(1), EmptyDir(self, parent)[1])
    requires forall i: nat :: i < RecLen(1) ==> c[i] == b[i] && d[i] == c[i]
    ensures Tiles(d, PAGE_SIZE, EmptyDir(self, parent))
  {
    var rs := EmptyDir(self, parent);
    assert Off(rs, 0) == 0 && Off(rs, 1) == RecLen(1) && Off(rs, 2) == PAGE_SIZE;
    HoldsStill(b, d, 0, rs[0]);
    hide Holds, Off;
    assert HoldsAt(d, rs, 0) && HoldsAt(d, rs, 1);
  }

  /** What `rdfs_empty_dir` lets pass: dead records, "." naming the directory itself, and "..". */
  predicate Plain(r: Rec, self: nat) {
    r.ino == 0 || (r.name == DOT && r.ino == self) || r.name == DOTDOT
  }

  lemma PlainTest(r: Rec, self: nat)
    requires |r.name| > 0
    ensures Plain(r, self) <==> r.ino == 0 || !(r.name[0] != 46 || |r.name| > 2 || (|r.name| < 2 && r.ino != self) ||
                                                (|r.name| == 2 && r.name[1] != 46))
  {
    assert |r.name| == 1 ==> r.name == [r.name[0]];
    assert |r.name| == 2 ==> r.name == [r.name[0], r.name[1]];
  }

  lemma NotPlain(rs: seq<Rec>, self: nat, k: nat)
    requires DirOk(rs) && rs[0].ino == self && k < |rs| && !Plain(rs[k], self)
    ensures Entries(rs).Keys != {DOT, DOTDOT}
  {
    assert Live(rs[k]) && rs[k].name in Entries(rs).Keys;
    assert k != 0;
    assert rs[k].name != rs[0].name;
  }

  lemma AllPlain(rs: seq<Rec>, self: nat)
    requires DirOk(rs) && forall k: nat :: k < |rs| ==> Plain(rs[k], self)
    ensures Entries(rs).Keys == {DOT, DOTDOT}
  {
    hide Size, AllOk, Unique, RecLen;
    assert Live(rs[0]) && Live(rs[1]);
    forall n | n in Entries(rs).Keys
      ensures n in {DOT, DOTDOT}
    {
      var i: nat :| i < |rs| && Live(rs[i]) && rs[i].name == n;
      assert Plain(rs[i], self);
    }
  }

  lemma EmptyMeans(rs: seq<Rec>, self: nat)
    ensures DirOk(rs) && rs[0].ino == self ==>
              ((forall k: nat :: k < |rs| ==> Plain(rs[k], self)) <==> Entries(rs).Keys == {DOT, DOTDOT})
  {
    hide Entries, Unique, Plain, AllOk, Size, RecLen;
    if DirOk(rs) && rs[0].ino == self {
      if k: nat :| k < |rs| && !Plain(rs[k], self) {
        NotPlain(rs, self, k);
      } else {
        AllPlain(rs, self);
      }
    }
  }

  class Dir {
    const buf: array<Byte>
    var size: nat
    ghost var recs: seq<Rec>

    ghost predicate Valid()
      reads this, buf
    {
      buf.Length == MAX_DIR_SIZE && Tiles(buf[..], size, recs)
    }

    constructor ()
      ensures Valid() && size == 0 && recs == [] && fresh(buf)
    {
      buf := new Byte[MAX_DIR_SIZE];
      size := 0;
      recs := [];
    }

    /** Stores `s` at `o`; the assignments and `memcpy` calls of dir.c. */
    method Put(o: nat, s: seq<Byte>)
      requires o + |s| <= buf.Length
      modifies buf
      ensures buf[..] == Patched(old(buf[..]), o, s)
    {
      var i := 0;
      while i < |s|
        invariant i <= |s|
        invariant buf[..] == Patched(old(buf[..]), o, s[..i])
      {
        buf[o + i] := s[i];
        assert s[..i + 1] == s[..i] + [s[i]];
        i := i + 1;
      }
      assert s[..i] == s;
    }

    // ----- reading one record -----

    function InoAt(o: nat): nat
      requires o + HEADER <= buf.Length
      reads buf
    {
      FromLe(buf[o..o + 8])
    }

    function LenAt(o: nat): nat
      requires o + HEADER <= buf.Length
      reads buf
    {
      FromLe(buf[o + 8..o + 10])
    }

    /** `rdfs_match`. */
    predicate MatchAt(o: nat, name: Name)
      requires o + HEADER <= buf.Length
      reads buf
    {
      |name| == buf[o + 10] && InoAt(o) != 0 && o + HEADER + |name| <= buf.Length &&
      buf[o + 12..o + 12 + |name|] == name
    }

    /** Walking: record `k` lies inside the directory, its fields read back, and the next one follows. */
    lemma Reads(k: nat)
      requires Valid() && k <= |recs|
      ensures Off(recs, k) <= size <= MAX_DIR_SIZE
      ensures k == |recs| <==> Off(recs, k) == size
      ensures k < |recs| ==>
                var o, r := Off(recs, k), recs[k];
                && HEADER < RecLen(|r.name|) <= r.recLen && Off(recs, k + 1) == o + r.recLen <= size
                && InoAt(o) == r.ino && LenAt(o) == r.recLen && buf[o + 10] == |r.name|
                && buf[o + 12..o + 12 + |r.name|] == r.name
                && forall name: Name :: MatchAt(o, name) <==> Match(r, name)
    {
      hide Tiles, FromLe, Holds, Off, RecLen;
      WalkEnds(buf[..], size, recs, k);
      if k < |recs| {
        var o, r := Off(recs, k), recs[k];
        KthRecord(buf[..], size, recs, k);
        FieldsOf(buf[..], o, r);
        assert buf[o..o + 8] == buf[..][o..o + 8] && buf[o + 8..o + 10] == buf[..][o + 8..o + 10];
        assert buf[o + 12..o + 12 + |r.name|] == buf[..][o + 12..o + 12 + |r.name|];
      }
    }

    // ----- lookup -----

    /** `rdfs_find_entry2`: the record and its predecessor. */
    method FindEntry2(name: Name) returns (found: bool, de: nat, prev: nat)
      requires Valid()
      ensures var k := Find(recs, name);
              && (found <==> k < |recs|)
              && (found ==> de == Off(recs, k) && prev == Off(recs, if k == 0 then 0 else k - 1))
    {
      found, de, prev := false, 0, 0;
      ghost var k := 0;
      Start(recs);
      hide Tiles, FromLe, Off, Match, MatchAt, LenAt, InoAt, RecLen, FindFrom;
      while de < size
        invariant k <= |recs| && de == Off(recs, k) && de <= size
        invariant FindFrom(recs, name, k) == Find(recs, name)
        invariant prev == Off(recs, if k == 0 then 0 else k - 1)
        decreases size - de
      {
        Reads(k);
        FindUnfold(recs, name, k);
        if MatchAt(de, name) {
          return true, de, prev;
        }
        prev := de;
        de := de + LenAt(de);
        k := k + 1;
      }
      Reads(k);
      FindUnfold(recs, name, k);
    }

    // ----- insert -----

    /** The end of `rdfs_add_link`: name, inode and type of a record whose length is stored. */
    method Lay(o: nat, ghost len: nat, name: Name, ino: nat, ftype: Byte)
      requires |name| <= MAX_NAME && ino < WORD_LIMIT && len < REC_LEN_LIMIT && o + HEADER + |name| <= buf.Length
      requires buf[..][o + 8..o + 10] == Le(len, 2)
      modifies buf
      ensures Holds(buf[..], o, Rec(ino, len, ftype, name))
      ensures forall i: nat :: i < buf.Length && !(o <= i < o + HEADER + |name|) ==> buf[i] == old(buf[i])
    {
      hide Holds, Le, Patched;
      ghost var b := buf[..];
      Put(o + 10, [|name|]);
      Put(o + 12, name);
      Put(o, Le(ino, 8));
      Put(o + 11, [ftype]);
      PatchLays(b, o, Rec(ino, len, ftype, name));
      assert forall i: nat :: i < buf.Length ==> buf[i] == buf[..][i];
    }

    /** `rdfs_add_link` from `need_new_block`: a page of its own for the new record. */
    method Append(name: Name, ino: nat, ftype: Byte)
      requires Valid() && 0 < |name| <= MAX_NAME && 0 < ino < WORD_LIMIT && size + PAGE_SIZE <= MAX_DIR_SIZE
      modifies this, buf
      ensures Valid() && recs == Inserted(old(recs), |old(recs)|, name, ino, ftype)
    {
      hide Holds, Le, Patched, AllOk;
      ghost var b := buf[..];
      var o := size;
      size := size + PAGE_SIZE;
      Put(o + 8, Le(PAGE_SIZE, 2));
      Put(o, Le(0, 8));
      assert buf[..][o + 8..o + 10] == Le(PAGE_SIZE, 2);
      ghost var c := buf[..];
      assert forall i: nat :: i < o ==> c[i] == b[i];
      Lay(o, PAGE_SIZE, name, ino, ftype);
      ghost var r := Rec(ino, PAGE_SIZE, ftype, name);
      assert forall i: nat :: i < o ==> buf[..][i] == b[i];
      TilesMore(b, buf[..], o, recs, r);
      recs := recs + [r];
    }

    /** `rdfs_add_link` from `got_it`, at a live record: split off its slack. */
    method Split(de: nat, len: nat, own: nat, name: Name, ino: nat, ftype: Byte, ghost k: nat)
      requires Valid() && k < |recs| && de == Off(recs, k) && len == recs[k].recLen && own == RecLen(|recs[k].name|)
      requires Live(recs[k]) && len >= own + RecLen(|name|) && 0 < |name| <= MAX_NAME && 0 < ino < WORD_LIMIT
      modifies this, buf
      ensures Valid() && size == old(size) && recs == Inserted(old(recs), k, name, ino, ftype)
    {
      hide Holds, Le, Patched, Tiles, Off;
      ghost var b, r := buf[..], recs[k];
      KthRecord(b, size, recs, k);
      Put(de + own + 8, Le(len - own, 2));
      ghost var c := buf[..];
      Put(de + 8, Le(own, 2));
      ghost var d := buf[..];
      SplitHead(b, c, d, de, r, own, Le(len - own, 2));
      Lay(de + own, len - own, name, ino, ftype);
      SplitTiles(b, d, buf[..], size, recs, k, Rec(ino, len - own, ftype, name));
      recs := Inserted(recs, k, name, ino, ftype);
    }

    /** `rdfs_add_link` from `got_it`, at a dead record: reuse it. */
    method Reuse(de: nat, name: Name, ino: nat, ftype: Byte, ghost k: nat)
      requires Valid() && k < |recs| && de == Off(recs, k) && recs[k].recLen >= RecLen(|name|)
      requires !Live(recs[k]) && 0 < |name| <= MAX_NAME && 0 < ino < WORD_LIMIT
      modifies this, buf
      ensures Valid() && size == old(size) && recs == Inserted(old(recs), k, name, ino, ftype)
    {
      hide Holds, Le, Patched, Tiles, Off;
      ghost var b, r := buf[..], recs[k];
      KthRecord(b, size, recs, k);
      BytesOf(b, de, r);
      Lay(de, r.recLen, name, ino, ftype);
      ReuseTiles(b, buf[..], size, recs, k, Rec(ino, r.recLen, ftype, name));
      recs := Inserted(recs, k, name, ino, ftype);
    }

    /** `rdfs_add_link`; `supply` is what the allocation of a page for the directory answers.  When it is needed and
        fails, the size has grown all the same, and the records no longer fill the directory. */
    method AddLink(name: Name, ino: nat, ftype: Byte, supply: Error) returns (err: Error)
      requires Valid() && 0 < |name| <= MAX_NAME && 0 < ino < WORD_LIMIT
      modifies this, buf
      ensures var grows := Scan(old(recs), name).AtEnd? && old(size) + PAGE_SIZE <= MAX_DIR_SIZE;
              && (supply == OK || !grows ==>
                    Valid() && Outcome(err, recs) == DirRuns.AddLink(old(recs), name, ino, ftype))
              && (supply != OK && grows ==>
                    && !Valid() && err == supply && recs == old(recs) && buf[..] == old(buf[..])
                    && size == old(size) + PAGE_SIZE)
    {
      hide Tiles, FromLe, Le, Inserted, AllOk, ScanFrom, Off, RecLen, Match, MatchAt, InoAt, LenAt;
      var need := RecLen(|name|);
      var de, i := 0, 0;
      ghost var k := 0;
      ghost var p := Scan(recs, name);
      Start(recs);
      Reads(|recs|);
      while i <= size / PAGE_SIZE
        invariant Valid() && unchanged(this) && unchanged(buf)
        invariant k <= |recs| && de == Off(recs, k) <= size
        invariant p == if i <= size / PAGE_SIZE then ScanFrom(recs, name, k, de, de + PAGE_SIZE - need, i) else GaveUp
      {
        var end := de + PAGE_SIZE - need;
        while de <= end
          invariant Valid() && unchanged(this) && unchanged(buf)
          invariant k <= |recs| && de == Off(recs, k) <= size
          invariant p == ScanFrom(recs, name, k, de, end, i)
          decreases size - de, if k < |recs| then 1 else 0
        {
          Reads(k);
          ScanUnfold(recs, name, k, de, end, i);
          if de == size {
            if size + PAGE_SIZE <= MAX_DIR_SIZE {
              if supply != OK {
                NoLonger(buf[..], size, recs);
                size := size + PAGE_SIZE;
                return supply;
              }
              Append(name, ino, ftype);
              return OK;
            } else {
              return EIO;
            }
          }
          if MatchAt(de, name) {
            return EEXIST;
          }
          var own, len := RecLen(buf[de + 10] as int), LenAt(de);
          assert len != 0;
          if (InoAt(de) == 0 && len >= need) || len >= own + need {
            if InoAt(de) != 0 {
              Split(de, len, own, name, ino, ftype, k);
            } else {
              Reuse(de, name, ino, ftype, k);
            }
            return OK;
          }
          de := de + len;
          k := k + 1;
        }
        ScanUnfold(recs, name, k, de, end, i);
        i := i + 1;
      }
      return EINVAL;
    }

    // ----- delete, relink, make, test -----

    /** `rdfs_delete_entry`: kill record `k` and give its bytes to the one before, which for the first record is the
        record itself.  The directory stays tiled exactly when there is one before and the two lengths fit 16 bits. */
    method DeleteEntry(de: nat, prev: nat, ghost k: nat)
      requires Valid() && k < |recs| && de == Off(recs, k) && prev == Off(recs, if k == 0 then 0 else k - 1)
      modifies this, buf
      ensures recs == Deleted(old(recs), k) && size == old(size)
      ensures Valid() <==> k > 0 && old(recs)[k - 1].recLen + old(recs)[k].recLen < REC_LEN_LIMIT
      ensures k == 0 ==> Holds(buf[..], 0, recs[0])
      ensures k == 0 ==> forall i: nat :: HEADER <= i < buf.Length ==> buf[i] == old(buf[i])
    {
      hide Holds, Le, Patched, Tiles, Off, FromLe, Removed, RecLen, AllOk;
      ghost var b, r, q := buf[..], recs[k], recs[if k == 0 then 0 else k - 1];
      KthRecord(b, size, recs, k);
      KthRecord(b, size, recs, if k == 0 then 0 else k - 1);
      var len := LoadLen(de, r);
      Put(de, Le(0, 8));
      ghost var c := buf[..];
      KilledLen(b, c, recs, k, de, prev, q);
      var temp := LoadLen(prev, if k == 0 then q.(ino := 0) else q);
      temp := (temp + len) % REC_LEN_LIMIT;
      Put(prev + 8, Le(temp, 2));
      DeletedTiles(b, c, buf[..], size, recs, k, de, prev, temp);
      assert forall i: nat :: i < buf.Length ==> buf[i] == buf[..][i];
      recs := Deleted(recs, k);
    }

    method LoadLen(o: nat, ghost r: Rec) returns (len: nat)
      requires Holds(buf[..], o, r)
      ensures len == r.recLen
    {
      FieldsOf(buf[..], o, r);
      assert buf[o + 8..o + 10] == buf[..][o + 8..o + 10];
      len := LenAt(o);
    }

    /** `rdfs_set_link`. */
    method SetLink(de: nat, ino: nat, ftype: Byte, ghost k: nat)
      requires Valid() && k < |recs| && de == Off(recs, k) && ino < WORD_LIMIT
      modifies this, buf
      ensures Valid() && recs == Relinked(old(recs), k, ino, ftype) && size == old(size)
    {
      hide Holds, Le, Patched, Tiles, Off;
      ghost var b := buf[..];
      KthRecord(b, size, recs, k);
      Put(de, Le(ino, 8));
      Put(de + 11, [ftype]);
      PatchIno(b, de, recs[k], ino, ftype);
      RelinkTiles(b, buf[..], size, recs, k, ino, ftype);
      recs := Relinked(recs, k, ino, ftype);
    }

    /** `rdfs_make_empty`; inode numbers go through 32 bits.  A directory that is not empty is left alone, but the error
        is overwritten by the result of the unmapping. */
    method MakeEmpty(self: nat, parent: nat) returns (err: Error)
      requires Valid()
      modifies this, buf
      ensures Valid() && err == OK
      ensures recs == if old(size) == 0 then EmptyDir(self % LE32, parent % LE32) else old(recs)
    {
      if size != 0 {
        return OK;
      }
      hide Holds, Le, Patched;
      size := PAGE_SIZE;
      ghost var rs := EmptyDir(self % LE32, parent % LE32);
      Put(8, Le(RecLen(1), 2));
      Lay(0, RecLen(1), DOT, self % LE32, FT_DIR);
      ghost var b := buf[..];
      Put(RecLen(1) + 8, Le(PAGE_SIZE - RecLen(1), 2));
      ghost var c := buf[..];
      Lay(RecLen(1), PAGE_SIZE - RecLen(1), DOTDOT, parent % LE32, FT_DIR);
      recs := rs;
      EmptyTiles(b, c, buf[..], self % LE32, parent % LE32);
      return OK;
    }

    /** `rdfs_dotdot`: the second record. */
    method DotDot() returns (de: nat)
      requires Valid() && recs != []
      ensures de == Off(recs, 1)
    {
      Reads(0);
      Start(recs);
      de := LenAt(0);
    }

    /** `rdfs_inode_by_name`: the inode number, cut to 32 bits; 0 when there is none. */
    method InodeByName(name: Name) returns (ino: nat)
      requires Valid() && Unique(recs)
      ensures ino == if name in Entries(recs) then Entries(recs)[name] % LE32 else 0
    {
      hide Tiles, Entries, Unique;
      var found, de, prev := FindEntry2(name);
      FindReadsEntries(recs, name);
      if found {
        Reads(Find(recs, name));
        return InoAt(de) % LE32;
      }
      return 0;
    }

    /** The tests of `rdfs_empty_dir` on one record. */
    predicate PassesAt(o: nat, self: nat)
      requires o + RecLen(1) <= buf.Length
      reads buf
    {
      InoAt(o) == 0 ||
      (buf[o + 12] == 46 && buf[o + 10] <= 2 && if buf[o + 10] < 2 then InoAt(o) == self % LE32 else buf[o + 13] == 46)
    }

    lemma PassesIff(k: nat, self: nat)
      requires Valid() && k < |recs|
      ensures Off(recs, k) + RecLen(1) <= size <= buf.Length
      ensures PassesAt(Off(recs, k), self) <==> Plain(recs[k], self % LE32)
    {
      hide Tiles, FromLe, Off, Match;
      Reads(k);
      PlainTest(recs[k], self % LE32);
      var o := Off(recs, k);
      assert buf[o + 12] == recs[k].name[0];
      assert |recs[k].name| >= 2 ==> buf[o + 13] == recs[k].name[1];
    }

    /** `rdfs_empty_dir`: whether all records pass its tests, which in a proper directory means that nothing but "." and
        ".." is bound. */
    method Empty(self: nat) returns (empty: bool)
      requires Valid()
      ensures empty <==> forall k: nat :: k < |recs| ==> Plain(recs[k], self % LE32)
      ensures DirOk(recs) && recs[0].ino == self % LE32 ==> (empty <==> Entries(recs).Keys == {DOT, DOTDOT})
    {
      hide Tiles, FromLe, Entries, Unique, Off, Plain, PassesAt, DirOk, Match, MatchAt, LenAt, InoAt;
      EmptyMeans(recs, self % LE32);
      var de := 0;
      ghost var k := 0;
      Start(recs);
      Reads(0);
      while de + RecLen(1) <= size
        invariant k <= |recs| && de == Off(recs, k) <= size
        invariant forall j: nat :: j < k ==> Plain(recs[j], self % LE32)
        decreases size - de
      {
        Reads(k);
        PassesIff(k, self);
        if !PassesAt(de, self) {
          return false;
        }
        de := de + LenAt(de);
        k := k + 1;
      }
      if k < |recs| {
        PassesIff(k, self);
      }
      return true;
    }

    /** `i_size = 0`. */
    method Clear()
      requires Valid()
      modifies this`size, this`recs
      ensures Valid() && size == 0 && recs == []
    {
      size, recs := 0, [];
    }
  }
}
