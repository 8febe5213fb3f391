/** Directories over whole runs of inserts and deletes: the records always tile the directory, "." and
    ".." stay in front, and the map changes by exactly the binding each call names. */
module DirRuns {
  import opened Bytes
  import opened DirRecords
  import opened Machine

  const DOT: Name := [46]
  const DOTDOT: Name := [46, 46]
  const FT_DIR: Byte := 2

  /** `rdfs_make_empty`: the records of a new directory. */
  function EmptyDir(self: nat, parent: nat): seq<Rec> {
    [Rec(self, RecLen(1), FT_DIR, DOT), Rec(parent, PAGE_SIZE - RecLen(1), FT_DIR, DOTDOT)]
  }

  /** What every directory looks like: whole pages, records with room for their names, distinct names,
      and in front "." with no slack, then "..". */
  ghost predicate DirOk(rs: seq<Rec>) {
    && |rs| >= 2 && AllOk(rs) && Unique(rs)
    && rs[0].name == DOT && rs[0].ino != 0 && rs[0].recLen == RecLen(1)
    && rs[1].name == DOTDOT && rs[1].ino != 0
    && Size(rs) % PAGE_SIZE == 0
  }

  lemma EmptyDirOk(self: nat, parent: nat)
    requires self != 0 && parent != 0
    ensures DirOk(EmptyDir(self, parent)) && Size(EmptyDir(self, parent)) == PAGE_SIZE
    ensures Entries(EmptyDir(self, parent)) == map[DOT := self, DOTDOT := parent]
  {
    var rs := EmptyDir(self, parent);
    assert Off(rs, 0) == 0 && Off(rs, 1) == RecLen(1) && Off(rs, 2) == PAGE_SIZE;
    assert Unique(rs);
    assert Live(rs[0]) && Live(rs[1]);
    EntriesAre(rs, map[DOT := self, DOTDOT := parent]);
  }

  // ----- sizes -----

  lemma {:induction false} OffPrefix(a: seq<Rec>, b: seq<Rec>, i: nat)
    requires i <= |a|
    ensures Off(a + b, i) == Off(a, i)
  {
    if i > 0 {
      OffPrefix(a, b, i - 1);
    }
  }

  lemma {:induction false} OffSuffix(a: seq<Rec>, b: seq<Rec>, i: nat)
    requires i <= |b|
    ensures Off(a + b, |a| + i) == Size(a) + Off(b, i)
  {
    if i == 0 {
      OffPrefix(a, b, |a|);
    } else {
      OffSuffix(a, b, i - 1);
    }
  }

  lemma SizeSplit(a: seq<Rec>, b: seq<Rec>)
    ensures Size(a + b) == Size(a) + Size(b)
  {
    OffSuffix(a, b, |b|);
  }

  lemma SizeAround(rs: seq<Rec>, at: nat, mid: seq<Rec>, n: nat)
    requires at + n <= |rs|
    ensures Size(rs[..at] + mid + rs[at + n..]) == Size(rs) - Size(rs[at..at + n]) + Size(mid)
    ensures Off(rs, at) == Size(rs[..at]) && Off(rs, at + n) == Size(rs[..at]) + Size(rs[at..at + n])
  {
    SizeSplit(rs[..at] + mid, rs[at + n..]);
    SizeSplit(rs[..at], mid);
    SizeSplit(rs[..at] + rs[at..at + n], rs[at + n..]);
    SizeSplit(rs[..at], rs[at..at + n]);
    assert rs == rs[..at] + rs[at..at + n] + rs[at + n..];
    assert rs == rs[..at] + rs[at..];
    OffPrefix(rs[..at], rs[at..], at);
    assert rs == rs[..at + n] + rs[at + n..];
    OffPrefix(rs[..at + n], rs[at + n..], at + n);
    assert rs[..at + n] == rs[..at] + rs[at..at + n];
  }

  lemma SizeOfOne(r: Rec)
    ensures Size([r]) == r.recLen
  {
    var rs := [r];
    assert Off(rs, 0) == 0;
    assert Off(rs, 1) == Off(rs, 0) + rs[0].recLen;
  }

  lemma SizeOfTwo(r: Rec, q: Rec)
    ensures Size([r, q]) == r.recLen + q.recLen && Off([r, q], 0) == 0 && Off([r, q], 1) == r.recLen
  {
    var rs := [r, q];
    assert Off(rs, 0) == 0;
    assert Off(rs, 1) == Off(rs, 0) + rs[0].recLen;
    assert Off(rs, 2) == Off(rs, 1) + rs[1].recLen;
  }

  /** An insert keeps the directory tiled: it stays as long as it was, or grows by one page. */
  lemma InsertSize(rs: seq<Rec>, at: nat, name: Name, ino: nat, ftype: Byte)
    requires AllOk(rs) && at <= |rs|
    ensures Size(Inserted(rs, at, name, ino, ftype)) == Size(rs) + if at == |rs| then PAGE_SIZE else 0
  {
    hide Off, Size, RecLen;
    if at == |rs| {
      var r := Rec(ino, PAGE_SIZE, ftype, name);
      SizeSplit(rs, [r]);
      SizeOfOne(r);
    } else if rs[at].ino == 0 {
      var r := Rec(ino, rs[at].recLen, ftype, name);
      assert rs[at := r] == rs[..at] + [r] + rs[at + 1..];
      SizeAround(rs, at, [r], 1);
      assert rs[at..at + 1] == [rs[at]];
      SizeOfOne(r);
      SizeOfOne(rs[at]);
    } else {
      var own := RecLen(|rs[at].name|);
      var a, b := rs[at].(recLen := own),
                  Rec(ino, if rs[at].recLen >= own then rs[at].recLen - own else 0, ftype, name);
      SizeAround(rs, at, [a, b], 1);
      assert rs[at..at + 1] == [rs[at]];
      SizeOfTwo(a, b);
      SizeOfOne(rs[at]);
    }
  }

  /** A delete keeps the directory tiled exactly when the merged length fits 16 bits. */
  lemma RemoveSizeIff(rs: seq<Rec>, at: nat)
    requires 0 < at < |rs|
    ensures Size(Removed(rs, at)) == Size(rs) <==> rs[at - 1].recLen + rs[at].recLen < REC_LEN_LIMIT
  {
    hide Off, Size;
    var sum := rs[at - 1].recLen + rs[at].recLen;
    var a := rs[at - 1].(recLen := sum % REC_LEN_LIMIT);
    SizeAround(rs, at - 1, [a], 2);
    assert rs[at - 1..at - 1 + 2] == [rs[at - 1], rs[at]];
    SizeOfTwo(rs[at - 1], rs[at]);
    SizeOfOne(a);
  }

  /** In a directory of at most 16 pages no merge behind ".." can overflow, because "." keeps its 16
      bytes to itself. */
  lemma MergeFits(rs: seq<Rec>, at: nat)
    requires DirOk(rs) && Size(rs) <= 16 * PAGE_SIZE && 2 <= at < |rs|
    ensures rs[at - 1].recLen + rs[at].recLen <= 16 * PAGE_SIZE - RecLen(1) < REC_LEN_LIMIT
  {
    SizeAround(rs, at - 1, [], 2);
    assert rs[at - 1..at - 1 + 2] == [rs[at - 1], rs[at]];
    SizeOfTwo(rs[at - 1], rs[at]);
    OffGrows(rs, at + 1, |rs|);
    assert Off(rs, 1) == Off(rs, 0) + rs[0].recLen;
    OffGrows(rs, 1, at - 1);
  }

  /** With one page more there is a directory where a delete breaks the tiling. */
  lemma SeventeenPagesOverflow()
    ensures exists rs: seq<Rec> :: DirOk(rs) && Size(rs) == 17 * PAGE_SIZE && |rs| ==
              3 && Size(Removed(rs, 2)) != Size(rs)
  {
    var rs := [Rec(1, 16, FT_DIR, DOT), Rec(1, 65520, FT_DIR, DOTDOT), Rec(5, 4096, 1, [97])];
    assert Off(rs, 1) == 16 && Off(rs, 2) == 65536 && Off(rs, 3) == 69632;
    assert AllOk(rs) && Unique(rs);
    RemoveSizeIff(rs, 2);
  }

  // ----- the calls -----

  datatype Error = OK | EEXIST | EIO | EINVAL | ENOENT | ENOSPC | ENOTEMPTY | ENAMETOOLONG

  datatype Outcome = Outcome(err: Error, rs: seq<Rec>)

  /** `rdfs_add_link`. */
  function AddLink(rs: seq<Rec>, name: Name, ino: nat, ftype: Byte): Outcome {
    match Scan(rs, name)
    case Exists(_) => Outcome(EEXIST, rs)
    case GaveUp => Outcome(EINVAL, rs)
    case Fit(at) => if at < |rs| then Outcome(OK, Inserted(rs, at, name, ino, ftype)) else Outcome(EIO, rs)
    case AtEnd =>
      if Size(rs) + PAGE_SIZE <= MAX_DIR_SIZE then Outcome(OK, Inserted(rs, |rs|, name, ino, ftype))
      else Outcome(EIO, rs)
  }

  /** `rdfs_find_entry2` and `rdfs_delete_entry` on a name. */
  function DeleteEntry(rs: seq<Rec>, name: Name): Outcome {
    var k := Find(rs, name);
    if 0 < k < |rs| then Outcome(OK, Removed(rs, k)) else Outcome(ENOENT, rs)
  }

  /** An insert at `at` keeps the directory and adds the binding. */
  lemma InsertKeepsDirectory(rs: seq<Rec>, at: nat, name: Name, ino: nat, ftype: Byte)
    requires DirOk(rs) && 0 < |name| <= MAX_NAME && Absent(rs, name) && ino != 0
    requires at <= |rs| && (at < |rs| ==> HasRoom(rs[at], RecLen(|name|)))
    ensures var rs' := Inserted(rs, at, name, ino, ftype);
            && DirOk(rs') && rs'[0] == rs[0] && rs'[1].ino == rs[1].ino
            && Entries(rs') == Entries(rs)[name := ino]
            && Size(rs') == Size(rs) + if at == |rs| then PAGE_SIZE else 0
  {
    hide AllOk, Unique, Inserted, Entries, Size, Absent, HasRoom;
    InsertKeepsOk(rs, at, name, ino, ftype);
    InsertEntries(rs, at, name, ino, ftype);
    InsertSize(rs, at, name, ino, ftype);
    FrontKept(rs, at, name, ino, ftype);
  }

  /** An insert of an absent name binds it, or fails and changes nothing; up to 14 pages it binds it. */
  lemma AddLinkRefines(rs: seq<Rec>, name: Name, ino: nat, ftype: Byte)
    requires DirOk(rs) && Size(rs) <= MAX_DIR_SIZE && 0 < |name| <= MAX_NAME && Absent(rs, name) && ino != 0
    ensures var o := AddLink(rs, name, ino, ftype);
            && DirOk(o.rs) && Size(rs) <= Size(o.rs) <= MAX_DIR_SIZE && o.rs[0] == rs[0] && o.rs[1].ino == rs[1].ino
            && (o.err == OK ==> Entries(o.rs) == Entries(rs)[name := ino])
            && (o.err != OK ==> o.rs == rs && o.err in {EIO, EINVAL})
            && (Size(rs) <= 14 * PAGE_SIZE ==> o.err == OK)
  {
    ScanFinds(rs, name, 0, 0, PAGE_SIZE - RecLen(|name|), 0);
    var p := Scan(rs, name);
    assert !p.Exists?;
    if Size(rs) <= 14 * PAGE_SIZE {
      DirSize(rs);
      SmallDirectoriesNeverGiveUp(rs, name);
    }
    hide DirOk, Scan, Inserted, Entries, Size, Absent, HasRoom;
    if p.Fit? {
      InsertKeepsDirectory(rs, p.at, name, ino, ftype);
    } else if p.AtEnd? && Size(rs) + PAGE_SIZE <= MAX_DIR_SIZE {
      InsertKeepsDirectory(rs, |rs|, name, ino, ftype);
    }
  }

  lemma DirSize(rs: seq<Rec>)
    requires DirOk(rs)
    ensures Size(rs) % PAGE_SIZE == 0 && Unique(rs) && AllOk(rs) && |rs| >= 2
  {
  }

  /** "." has no slack and ".." keeps its place, so an insert never moves them. */
  lemma FrontKept(rs: seq<Rec>, at: nat, name: Name, ino: nat, ftype: Byte)
    requires DirOk(rs) && 0 < |name| && at <= |rs| && (at < |rs| ==> HasRoom(rs[at], RecLen(|name|)))
    ensures var rs' := Inserted(rs, at, name, ino, ftype);
            |rs'| >= 2 && rs'[0] == rs[0] && rs'[1].ino == rs[1].ino && rs'[1].name == rs[1].name && at >= 1
  {
  }

  /** A delete of a name other than "." and ".." unbinds it, in a directory where the merge fits. */
  lemma DeleteRefines(rs: seq<Rec>, name: Name)
    requires DirOk(rs) && name != DOT && name != DOTDOT
    requires var k := Find(rs, name); 0 < k < |rs| ==> rs[k - 1].recLen + rs[k].recLen < REC_LEN_LIMIT
    ensures var o := DeleteEntry(rs, name);
            && DirOk(o.rs) && Size(o.rs) == Size(rs) && o.rs[0] == rs[0] && o.rs[1].ino == rs[1].ino
            && (o.err == OK <==> name in Entries(rs))
            && Entries(o.rs) == Entries(rs) - {name}
            && (o.err != OK ==> o.err == ENOENT && o.rs == rs)
  {
    hide DirOk, Find, Removed, Entries, Size, Unique, AllOk, Absent;
    DirSize(rs);
    var k := Find(rs, name);
    FindReadsEntries(rs, name);
    if k < |rs| {
      VictimBehindFront(rs, name);
      RemoveKeepsDirectory(rs, k);
    }
  }

  /** A name other than "." and ".." is never found in the first two records. */
  lemma VictimBehindFront(rs: seq<Rec>, name: Name)
    requires DirOk(rs) && name != DOT && name != DOTDOT
    ensures Find(rs, name) >= 2
    ensures Find(rs, name) < |rs| ==> Match(rs[Find(rs, name)], name)
  {
  }

  lemma RemoveKeepsDirectory(rs: seq<Rec>, at: nat)
    requires DirOk(rs) && 2 <= at < |rs| && Live(rs[at]) && rs[at - 1].recLen + rs[at].recLen < REC_LEN_LIMIT
    ensures var rs' := Removed(rs, at);
            && DirOk(rs') && Size(rs') == Size(rs) && rs'[0] == rs[0] && rs'[1].ino == rs[1].ino
            && Entries(rs') == Entries(rs) - {rs[at].name}
  {
    hide AllOk, Unique, Removed, Entries, Size;
    RemoveEntries(rs, at);
    RemoveSizeIff(rs, at);
    RemovedShape(rs, at);
  }

  lemma RemovedShape(rs: seq<Rec>, at: nat)
    requires AllOk(rs) && 2 <= at < |rs| && rs[at - 1].recLen + rs[at].recLen < REC_LEN_LIMIT
    ensures var rs' := Removed(rs, at);
            AllOk(rs') && |rs'| >= 2 && rs'[0] == rs[0] && rs'[1].ino == rs[1].ino && rs'[1].name == rs[1].name
  {
  }

  // ----- runs -----

  datatype Call = Add(name: Name, ino: nat, ftype: Byte) | Delete(name: Name)

  /** The calls a run may make: the VFS passes proper names, only inserts absent ones, and never names
      "." or ".." itself. */
  predicate Allowed(rs: seq<Rec>, c: Call) {
    && 0 < |c.name| <= MAX_NAME && c.name != DOT && c.name != DOTDOT
    && (c.Add? ==> c.ino != 0 && Find(rs, c.name) == |rs|)
  }

  function Step(rs: seq<Rec>, c: Call): seq<Rec> {
    if !Allowed(rs, c) then rs else
      match c
      case Add(name, ino, ftype) => AddLink(rs, name, ino, ftype).rs
      case Delete(name) => DeleteEntry(rs, name).rs
  }

  function Run(rs: seq<Rec>, cs: seq<Call>): seq<Rec> {
    if cs == [] then rs else Step(Run(rs, cs[..|cs| - 1]), cs[|cs| - 1])
  }

  /** The states a run goes through. */
  ghost predicate StaysSmall(rs: seq<Rec>, cs: seq<Call>) {
    forall n: nat :: n <= |cs| ==> Size(Run(rs, cs[..n])) <= 16 * PAGE_SIZE
  }

  /** Over any run of inserts and deletes that stays within 16 pages the records always tile the
      directory, no merge overflows, and "." and ".." keep their inodes. */
  lemma {:induction false} RunKeepsDirectory(rs: seq<Rec>, cs: seq<Call>)
    requires DirOk(rs) && StaysSmall(rs, cs)
    ensures DirOk(Run(rs, cs)) && Run(rs, cs)[0] == rs[0] && Run(rs, cs)[1].ino == rs[1].ino
  {
    if cs != [] {
      var n := |cs| - 1;
      var before, c := cs[..n], cs[n];
      assert StaysSmall(rs, before) by {
        forall m: nat | m <= n
          ensures Size(Run(rs, before[..m])) <= 16 * PAGE_SIZE
        {
          assert before[..m] == cs[..m];
        }
      }
      RunKeepsDirectory(rs, before);
      assert cs[..n] == before;
      StepRefines(Run(rs, before), c);
    }
  }

  /** The map after one call: the named binding is added or dropped, or nothing changes. */
  lemma StepRefines(rs: seq<Rec>, c: Call)
    requires DirOk(rs) && Size(rs) <= 16 * PAGE_SIZE
    ensures var rs' := Step(rs, c);
            && DirOk(rs') && rs'[0] == rs[0] && rs'[1].ino == rs[1].ino
            && (c.Delete? && Allowed(rs, c) ==> Entries(rs') == Entries(rs) - {c.name} && Size(rs') == Size(rs))
            && (c.Add? ==> rs' == rs || Entries(rs') == Entries(rs)[c.name := c.ino])
            && (c.Add? && Allowed(rs, c) && Size(rs) <= 14 * PAGE_SIZE ==> Entries(rs') == Entries(rs)[c.name := c.ino])
  {
    FindReadsEntries(rs, c.name);
    if Allowed(rs, c) {
      match c
      case Add(name, ino, ftype) =>
        AddLinkRefines(rs, name, ino, ftype);
      case Delete(name) =>
        var k := Find(rs, name);
        if k < |rs| {
          assert k >= 2;
          MergeFits(rs, k);
        }
        DeleteRefines(rs, name);
    }
  }
}
