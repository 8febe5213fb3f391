/** Directories beyond 16 pages: a run of inserts leads to one, and from every such directory deletes lead to one
    whose merge overflows. */
module DirOverflow {
  import opened Bytes
  import opened DirGivesUp
  import opened DirRecords
  import opened DirRuns
  import opened Machine

  ghost predicate AllLive(rs: seq<Rec>) {
    forall i: nat :: i < |rs| ==> Live(rs[i])
  }

  /** Deleting `name` breaks the tiling of a directory that was a proper one until then. */
  ghost predicate Breaks(rs: seq<Rec>, name: Name) {
    && DirOk(rs) && name != DOT && name != DOTDOT && name in Entries(rs)
    && Size(DeleteEntry(rs, name).rs) != Size(rs)
  }

  // ----- runs in parts -----

  lemma {:induction false} RunParts(rs: seq<Rec>, a: seq<Call>, b: seq<Call>)
    ensures Run(rs, a + b) == Run(Run(rs, a), b)
    decreases |b|
  {
    if b == [] {
      assert a + b == a;
    } else {
      var n := |b| - 1;
      RunParts(rs, a, b[..n]);
      assert (a + b)[..|a + b| - 1] == a + b[..n];
    }
  }

  lemma RunOne(rs: seq<Rec>, c: Call)
    ensures Run(rs, [c]) == Step(rs, c)
  {
    assert [c][..0] == [];
    assert Run(rs, []) == rs;
  }

  // ----- deletes -----

  lemma ThirdRecord(rs: seq<Rec>)
    requires DirOk(rs) && AllLive(rs) && |rs| > 2
    ensures var name := rs[2].name;
            && Find(rs, name) == 2 && name != DOT && name != DOTDOT && 0 < |name| <= MAX_NAME && name in Entries(rs)
            && DeleteEntry(rs, name) == Outcome(OK, Removed(rs, 2))
  {
    hide Entries, Size, RecLen;
    var name := rs[2].name;
    assert RecOk(rs[2]) && Live(rs[2]) && Live(rs[0]) && Live(rs[1]);
    FindUnfold(rs, name, 0);
    FindUnfold(rs, name, 1);
    FindUnfold(rs, name, 2);
  }

  /** Two records fill at most 16 pages. */
  lemma TwoRecordsFit(rs: seq<Rec>)
    requires DirOk(rs) && |rs| == 2
    ensures Size(rs) <= 16 * PAGE_SIZE
  {
    assert rs == [rs[0], rs[1]];
    SizeOfTwo(rs[0], rs[1]);
    assert RecOk(rs[1]);
  }

  lemma BreaksHere(rs: seq<Rec>)
    requires DirOk(rs) && AllLive(rs) && |rs| > 2 && rs[1].recLen + rs[2].recLen >= REC_LEN_LIMIT
    ensures Breaks(rs, rs[2].name)
  {
    ThirdRecord(rs);
    RemoveSizeIff(rs, 2);
    hide DirOk, AllLive, Size, Find, Removed, Entries, Unique, DeleteEntry;
  }

  lemma DeleteThird(rs: seq<Rec>) returns (c: Call, q: seq<Rec>)
    requires DirOk(rs) && AllLive(rs) && |rs| > 2 && rs[1].recLen + rs[2].recLen < REC_LEN_LIMIT
    ensures c.Delete? && Run(rs, [c]) == q && DirOk(q) && AllLive(q) && Size(q) == Size(rs) && |q| == |rs| - 1
  {
    c, q := Delete(rs[2].name), Removed(rs, 2);
    ThirdRecord(rs);
    RemovedLive(rs);
    RunOne(rs, c);
    assert Live(rs[2]);
    hide AllLive, Size, Removed, Run, Entries, Unique, AllOk;
    RemoveKeepsDirectory(rs, 2);
  }

  /** From every directory beyond 16 pages a run of deletes leads to a delete that breaks the tiling. */
  lemma {:induction false} DeletesBreak(rs: seq<Rec>) returns (cs: seq<Call>, name: Name)
    requires DirOk(rs) && AllLive(rs) && Size(rs) > 16 * PAGE_SIZE
    ensures (forall i: nat :: i < |cs| ==> cs[i].Delete?) && Breaks(Run(rs, cs), name)
    ensures Size(Run(rs, cs)) == Size(rs)
    decreases |rs|
  {
    DirSize(rs);
    hide DirOk, AllLive, Size, Breaks, Unique, AllOk;
    if |rs| == 2 {
      TwoRecordsFit(rs);
      assert false;
    }
    if rs[1].recLen + rs[2].recLen >= REC_LEN_LIMIT {
      BreaksHere(rs);
      cs, name := [], rs[2].name;
    } else {
      var c, q := DeleteThird(rs);
      cs, name := DeletesBreak(q);
      hide Run;
      RunParts(rs, [c], cs);
      cs := [c] + cs;
    }
  }

  lemma RemovedLive(rs: seq<Rec>)
    requires AllLive(rs) && |rs| > 2
    ensures AllLive(Removed(rs, 2)) && |Removed(rs, 2)| == |rs| - 1
  {
  }

  // ----- inserts -----

  /** A directory that binds the first `j` two-byte names. */
  ghost predicate Grown(rs: seq<Rec>, j: nat) {
    && DirOk(rs) && AllLive(rs) && |rs| == j + 2
    && forall i: nat :: i < |rs| ==> Known(rs[i].name, j)
  }

  ghost predicate Known(name: Name, j: nat) {
    name == DOT || name == DOTDOT || exists m: nat :: m < j && m < 0x1_0000 && name == NameAt(m)
  }

  /** Every record takes at least 16 bytes. */
  lemma {:induction false} SixteenEach(rs: seq<Rec>, i: nat)
    requires AllOk(rs) && i <= |rs|
    ensures Off(rs, i) >= 16 * i
  {
    if i > 0 {
      SixteenEach(rs, i - 1);
      assert RecOk(rs[i - 1]);
    }
  }

  /** A name of two bytes never makes the insert give up, up to 16 pages. */
  lemma ShortNamesFit(rs: seq<Rec>, name: Name)
    requires Size(rs) % PAGE_SIZE == 0 && Size(rs) <= 16 * PAGE_SIZE && |name| == 2
    ensures !Scan(rs, name).GaveUp?
  {
    var n := Size(rs) / PAGE_SIZE;
    assert RecLen(2) == 16;
    assert Passed(n + 1, 16) == (n + 1) * 4081;
    ScanReachesEnd(rs, name, 0, 0, PAGE_SIZE - RecLen(|name|), 0);
  }

  lemma NextIsAbsent(rs: seq<Rec>, j: nat)
    requires Grown(rs, j) && j < 4096
    ensures Absent(rs, NameAt(j)) && Find(rs, NameAt(j)) == |rs| && NameAt(j) != DOT && NameAt(j) != DOTDOT
  {
    hide DirOk;
    NamesDiffer(j, j + 1);
    forall i: nat | i < |rs|
      ensures rs[i].name != NameAt(j)
    {
      assert Known(rs[i].name, j);
      if rs[i].name != DOT && rs[i].name != DOTDOT {
        var m: nat :| m < j && m < 0x1_0000 && rs[i].name == NameAt(m);
        NamesDiffer(m, j);
      }
    }
  }

  lemma InsertedKnown(rs: seq<Rec>, at: nat, j: nat, ino: nat, ftype: Byte)
    requires AllLive(rs) && ino != 0 && at <= |rs| && j < 4096 && forall i: nat :: i < |rs| ==> Known(rs[i].name, j)
    ensures var q := Inserted(rs, at, NameAt(j), ino, ftype);
            AllLive(q) && |q| == |rs| + 1 && forall i: nat :: i < |q| ==> Known(q[i].name, j + 1)
  {
    hide RecLen;
    var q := Inserted(rs, at, NameAt(j), ino, ftype);
    forall i: nat | i < |q|
      ensures Known(q[i].name, j + 1)
    {
      if q[i].name != NameAt(j) {
        KnownStill(rs[if i <= at && i < |rs| then i else i - 1].name, j);
      }
    }
  }

  lemma KnownStill(name: Name, j: nat)
    requires Known(name, j)
    ensures Known(name, j + 1)
  {
  }

  /** One more name; the directory has the same pages or one more. */
  lemma GrowOne(rs: seq<Rec>, j: nat) returns (c: Call, q: seq<Rec>)
    requires Grown(rs, j) && Size(rs) <= 16 * PAGE_SIZE
    ensures j < 4096 && c.Add? && Run(rs, [c]) == q && Grown(q, j + 1)
    ensures Size(q) == Size(rs) || Size(q) == Size(rs) + PAGE_SIZE
  {
    FewNames(rs, j);
    NextIsAbsent(rs, j);
    var name := NameAt(j);
    var at := AddShort(rs, name, 5, 1);
    c, q := Add(name, 5, 1), Inserted(rs, at, name, 5, 1);
    RunOne(rs, c);
    hide DirOk, Size, Inserted, AllLive, Run, Find, Entries, Unique, AllOk, Absent, HasRoom, Known, AddLink;
    InsertedKnown(rs, at, j, 5, 1);
    InsertKeepsDirectory(rs, at, name, 5, 1);
  }

  lemma FewNames(rs: seq<Rec>, j: nat)
    requires Grown(rs, j) && Size(rs) <= 16 * PAGE_SIZE
    ensures j < 4096
  {
    SixteenEach(rs, |rs|);
  }

  lemma AddShort(rs: seq<Rec>, name: Name, ino: nat, ftype: Byte) returns (at: nat)
    requires DirOk(rs) && Size(rs) <= 16 * PAGE_SIZE && |name| == 2 && Absent(rs, name)
    ensures at <= |rs| && (at < |rs| ==> HasRoom(rs[at], RecLen(|name|)))
    ensures AddLink(rs, name, ino, ftype) == Outcome(OK, Inserted(rs, at, name, ino, ftype))
  {
    DirSize(rs);
    ShortNamesFit(rs, name);
    ScanFinds(rs, name, 0, 0, PAGE_SIZE - RecLen(|name|), 0);
    var p := Scan(rs, name);
    assert !p.Exists?;
    hide DirOk, Size, Inserted, Unique, AllOk, Absent, HasRoom, ScanFrom, RecLen;
    at := if p.Fit? then p.at else |rs|;
  }

  /** Inserts lead from every directory of this kind to one of 17 pages. */
  lemma {:induction false} GrowOn(rs: seq<Rec>, j: nat) returns (cs: seq<Call>)
    requires Grown(rs, j) && Size(rs) <= 16 * PAGE_SIZE
    ensures Size(Run(rs, cs)) == 17 * PAGE_SIZE && DirOk(Run(rs, cs)) && AllLive(Run(rs, cs))
    decreases if j < 4096 then 4096 - j else 0
  {
    assert DirOk(rs);
    DirSize(rs);
    var c, q := GrowOne(rs, j);
    assert DirOk(q) && AllLive(q);
    DirSize(q);
    hide Grown, DirOk, AllLive, Size, Run, Unique, AllOk;
    if Size(q) > 16 * PAGE_SIZE {
      cs := [c];
    } else {
      cs := GrowOn(q, j + 1);
      RunParts(rs, [c], cs);
      cs := [c] + cs;
    }
  }

  lemma EmptyGrown(self: nat, parent: nat)
    requires self != 0 && parent != 0
    ensures Grown(EmptyDir(self, parent), 0) && Size(EmptyDir(self, parent)) == PAGE_SIZE
  {
    EmptyDirOk(self, parent);
  }

  /** Every new directory reaches, by inserts and then deletes, a state of 17 pages in which a delete breaks it. */
  lemma OverflowReached(self: nat, parent: nat) returns (cs: seq<Call>, name: Name)
    requires self != 0 && parent != 0
    ensures var rs := Run(EmptyDir(self, parent), cs); Size(rs) == 17 * PAGE_SIZE && Breaks(rs, name)
  {
    hide DirOk, AllLive, Size, Run, Breaks, Grown, EmptyDir;
    var rs := EmptyDir(self, parent);
    EmptyGrown(self, parent);
    var ins := GrowOn(rs, 0);
    var dels;
    dels, name := DeletesBreak(Run(rs, ins));
    cs := ins + dels;
    RunParts(rs, ins, dels);
  }
}
