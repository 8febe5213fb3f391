/** The file types in a directory: what each call of dir.c leaves as the inode and the type of the record that a lookup
    finds, for the name it is about and for every other name. */
module DirTypes {
  import opened Bytes
  import opened DirRecords
  import opened DirRuns

  /** A lookup of `n` finds a record with inode `i` and file type `t`. */
  predicate Typed(rs: seq<Rec>, n: Name, i: nat, t: Byte) {
    var k := Find(rs, n);
    k < |rs| && rs[k].ino == i && rs[k].ftype == t
  }

  /** A live record is the one that a lookup of its name finds. */
  lemma RecordTyped(rs: seq<Rec>, k: nat)
    requires Unique(rs) && k < |rs| && Live(rs[k])
    ensures Find(rs, rs[k].name) == k
  {
    assert Match(rs[k], rs[k].name);
  }

  /** Every live record of `rs` but those named `name` is in `qs` too. */
  ghost predicate KeepsOthers(rs: seq<Rec>, qs: seq<Rec>, name: Name) {
    forall k: nat :: k < |rs| && Live(rs[k]) && rs[k].name != name ==>
      exists j: nat :: j < |qs| && qs[j].ino == rs[k].ino && qs[j].ftype == rs[k].ftype && qs[j].name == rs[k].name
  }

  lemma KeptTyped(rs: seq<Rec>, qs: seq<Rec>, name: Name, n: Name, i: nat, t: Byte)
    requires Unique(qs) && KeepsOthers(rs, qs, name) && n != name && Typed(rs, n, i, t)
    ensures Typed(qs, n, i, t)
  {
    hide Unique;
    var k := Find(rs, n);
    assert Match(rs[k], n);
    var j: nat :| j < |qs| && qs[j].ino == rs[k].ino && qs[j].ftype == rs[k].ftype && qs[j].name == rs[k].name;
    RecordTyped(qs, j);
  }

  lemma SameTyped(rs: seq<Rec>, qs: seq<Rec>, name: Name, n: Name, i: nat, t: Byte)
    requires Unique(rs) && Unique(qs) && KeepsOthers(rs, qs, name) && KeepsOthers(qs, rs, name) && n != name
    ensures Typed(rs, n, i, t) <==> Typed(qs, n, i, t)
  {
    hide Unique, KeepsOthers, Typed;
    if Typed(rs, n, i, t) {
      KeptTyped(rs, qs, name, n, i, t);
    }
    if Typed(qs, n, i, t) {
      KeptTyped(qs, rs, name, n, i, t);
    }
  }

  lemma InsertOthers(rs: seq<Rec>, at: nat, name: Name, ino: nat, ftype: Byte)
    requires at <= |rs|
    ensures var rs' := Inserted(rs, at, name, ino, ftype); KeepsOthers(rs, rs', name) && KeepsOthers(rs', rs, name)
  {
    var rs' := Inserted(rs, at, name, ino, ftype);
    var split := at < |rs| && rs[at].ino != 0;
    forall k: nat | k < |rs| && Live(rs[k]) && rs[k].name != name
      ensures exists j: nat ::
                j < |rs'| && rs'[j].ino == rs[k].ino && rs'[j].ftype == rs[k].ftype && rs'[j].name == rs[k].name
    {
      var j := if split && k > at then k + 1 else k;
      assert rs'[j].ino == rs[k].ino && rs'[j].ftype == rs[k].ftype && rs'[j].name == rs[k].name;
    }
    forall k: nat | k < |rs'| && Live(rs'[k]) && rs'[k].name != name
      ensures exists j: nat ::
                j < |rs| && rs[j].ino == rs'[k].ino && rs[j].ftype == rs'[k].ftype && rs[j].name == rs'[k].name
    {
      var j := if split && k > at then k - 1 else k;
      assert rs[j].ino == rs'[k].ino && rs[j].ftype == rs'[k].ftype && rs[j].name == rs'[k].name;
    }
  }

  lemma RemoveOthers(rs: seq<Rec>, at: nat)
    requires 0 < at < |rs|
    ensures var rs' := Removed(rs, at); KeepsOthers(rs, rs', rs[at].name) && KeepsOthers(rs', rs, rs[at].name)
  {
    var rs' := Removed(rs, at);
    forall k: nat | k < |rs| && Live(rs[k]) && rs[k].name != rs[at].name
      ensures exists j: nat ::
                j < |rs'| && rs'[j].ino == rs[k].ino && rs'[j].ftype == rs[k].ftype && rs'[j].name == rs[k].name
    {
      var j := if k < at then k else k - 1;
      assert rs'[j].ino == rs[k].ino && rs'[j].ftype == rs[k].ftype && rs'[j].name == rs[k].name;
    }
    forall k: nat | k < |rs'| && Live(rs'[k]) && rs'[k].name != rs[at].name
      ensures exists j: nat ::
                j < |rs| && rs[j].ino == rs'[k].ino && rs[j].ftype == rs'[k].ftype && rs[j].name == rs'[k].name
    {
      var j := if k < at then k else k + 1;
      assert rs[j].ino == rs'[k].ino && rs[j].ftype == rs'[k].ftype && rs[j].name == rs'[k].name;
    }
  }

  lemma RelinkOthers(rs: seq<Rec>, at: nat, ino: nat, ftype: Byte)
    requires at < |rs|
    ensures var rs' := Relinked(rs, at, ino, ftype);
            KeepsOthers(rs, rs', rs[at].name) && KeepsOthers(rs', rs, rs[at].name)
  {
    var rs' := Relinked(rs, at, ino, ftype);
    forall k: nat | k < |rs| && rs[k].name != rs[at].name
      ensures rs'[k] == rs[k]
    {
    }
  }

  // ----- the calls -----

  /** An insert that succeeds gives the new name its inode and type, and every other name keeps its own. */
  lemma AddTyped(rs: seq<Rec>, name: Name, ino: nat, ftype: Byte, n: Name, i: nat, t: Byte)
    requires Unique(rs) && Absent(rs, name) && ino != 0 && AddLink(rs, name, ino, ftype).err == OK
    ensures var rs' := AddLink(rs, name, ino, ftype).rs;
            Typed(rs', n, i, t) <==> if n == name then i == ino && t == ftype else Typed(rs, n, i, t)
  {
    var at := match Scan(rs, name) case Fit(at) => at case _ => |rs|;
    hide Unique, Absent, Inserted, Entries, Scan, KeepsOthers;
    InsertEntries(rs, at, name, ino, ftype);
    FoundAfterInsert(rs, at, name, ino, ftype);
    if n != name {
      InsertOthers(rs, at, name, ino, ftype);
      SameTyped(rs, Inserted(rs, at, name, ino, ftype), name, n, i, t);
    }
  }

  /** After a delete that succeeds the name is not found, and every other name keeps its inode and type. */
  lemma DeleteTyped(rs: seq<Rec>, name: Name, n: Name, i: nat, t: Byte)
    requires Unique(rs) && DeleteEntry(rs, name).err == OK
    ensures var rs' := DeleteEntry(rs, name).rs;
            Typed(rs', n, i, t) <==> n != name && Typed(rs, n, i, t)
  {
    var at := Find(rs, name);
    assert Match(rs[at], name);
    hide Unique, Removed, Entries, KeepsOthers;
    RemoveEntries(rs, at);
    var rs' := Removed(rs, at);
    if n != name {
      RemoveOthers(rs, at);
      SameTyped(rs, rs', name, n, i, t);
    } else {
      FindReadsEntries(rs', name);
    }
  }

  /** A delete succeeds exactly on the bound names, except that of the first record. */
  lemma DeleteSucceedsIff(rs: seq<Rec>, name: Name)
    requires Unique(rs) && rs != []
    ensures DeleteEntry(rs, name).err == OK <==> name in Entries(rs) && !Match(rs[0], name)
  {
    hide Unique, Entries, Removed, Absent;
    FindReadsEntries(rs, name);
    FindUnfold(rs, name, 0);
  }

  /** Relinking a live record gives its name the inode and type, and every other name keeps its own. */
  lemma RelinkTyped(rs: seq<Rec>, at: nat, ino: nat, ftype: Byte, n: Name, i: nat, t: Byte)
    requires Unique(rs) && at < |rs| && Live(rs[at]) && ino != 0
    ensures var rs' := Relinked(rs, at, ino, ftype);
            Typed(rs', n, i, t) <==> if n == rs[at].name then i == ino && t == ftype else Typed(rs, n, i, t)
  {
    var rs' := Relinked(rs, at, ino, ftype);
    RelinkUnique(rs, at, ino, ftype);
    hide Unique, KeepsOthers;
    if n == rs[at].name {
      RecordTyped(rs', at);
    } else {
      RelinkOthers(rs, at, ino, ftype);
      hide Relinked;
      SameTyped(rs, rs', rs[at].name, n, i, t);
    }
  }
}
