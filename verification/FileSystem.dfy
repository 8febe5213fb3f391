/** The file system as an object: the calls of namei.c, updating the bytes of the directories and the link counts in
    place, take exactly the steps of NameOps. */
module FileSystem {
  import opened Bytes
  import opened DirBytes
  import opened DirRecords
  import opened DirRuns
  import opened DirTable
  import opened Directory
  import opened Machine
  import opened NameGraph
  import opened Namespace
  import opened NameOps
  import opened NameSpec
  import opened VfsRuns

  class MountedFs {
    const root: nat
    const table: Table
    var nlink: map<nat, nat>
    ghost var names: Names
    ghost var home: map<nat, Key>

    ghost function State(): Fs
      reads this, table
    {
      Fs(table.dirs, nlink, names, home)
    }

    ghost predicate Valid()
      reads this, table, table.Repr
    {
      this !in table.Repr && table.Valid() && Ok(State(), root)
    }

    constructor (r: nat)
      requires 0 < r < INO_LIMIT
      ensures Valid() && root == r && State() == Fresh(r) && fresh(table) && fresh(table.Repr)
    {
      hide EmptyDir, Ok;
      root := r;
      table := new Table(r);
      nlink := map[r := 2];
      names, home := map[Key(r, Self) := r, Key(r, Up) := r], map[];
      FreshOk(r);
    }

    /** `rdfs_lookup`: the inode that the name is bound to, 0 when it is not; a name that is too long is refused. */
    method Lookup(d: nat, n: Name) returns (err: Error, ino: nat)
      requires Valid() && LiveDir(State().dirs, nlink, d)
      ensures err == (if |n| > MAX_NAME then ENAMETOOLONG else OK)
      ensures ino == if Key(d, Lab(n)) in names && |n| <= MAX_NAME then names[Key(d, Lab(n))] else 0
    {
      hide Ok, Entries, Unique, Table.Valid;
      if |n| > MAX_NAME {
        return ENAMETOOLONG, 0;
      }
      LookupMeans(State(), root, d, n);
      ino := table.Lookup(d, n);
      err := OK;
    }

    /** `rdfs_create`; the error of the insert is overwritten by that of the unmapping. */
    method Create(d: nat, n: Name, i: nat, ftype: Byte, avail: bool) returns (err: Error)
      requires Valid() && Permitted(State(), OpCreate(d, n, i, ftype, avail))
      modifies this, table, table.Repr
      ensures Valid() && fresh(table.Repr - old(table.Repr))
      ensures (State(), err) == NameOps.Create(old(State()), d, n, i, ftype, avail)
    {
      hide Ok, AddLink, Table.Valid, Permitted;
      CreateOk(State(), root, d, n, i, ftype, avail);
      MayAdd(State(), root, OpCreate(d, n, i, ftype, avail));
      if !avail {
        return ENOSPC;
      }
      table.Forget(i);
      nlink := nlink[i := 1];
      var e := table.Add(d, n, i, ftype);
      if e != OK {
        nlink := Dec(nlink, i);
      } else {
        names := names[Key(d, Child(n)) := i];
      }
      return OK;
    }

    /** `rdfs_link`. */
    method Link(d: nat, n: Name, i: nat, ftype: Byte) returns (err: Error)
      requires Valid() && Permitted(State(), OpLink(d, n, i, ftype))
      modifies this, table, table.Repr
      ensures Valid() && fresh(table.Repr - old(table.Repr))
      ensures (State(), err) == NameOps.Link(old(State()), d, n, i, ftype)
    {
      hide Ok, AddLink, Table.Valid, Permitted;
      LinkOk(State(), root, d, n, i, ftype);
      MayAdd(State(), root, OpLink(d, n, i, ftype));
      nlink := Inc(nlink, i);
      err := table.Add(d, n, i, ftype);
      if err == OK {
        names := names[Key(d, Child(n)) := i];
        return;
      }
      nlink := Dec(nlink, i);
    }

    /** The body of `rdfs_unlink`, which `rdfs_rmdir` shares. */
    method Drop(d: nat, n: Name, i: nat) returns (err: Error)
      requires this !in table.Repr && table.Valid() && d in table.dirs
      modifies this`nlink, table.Repr
      ensures table.Repr == old(table.Repr) && nlink == if err == OK then Dec(old(nlink), i) else old(nlink)
      ensures var rs := old(table.dirs[d]); var k := Find(rs, n);
              && err == (if k < |rs| then OK else ENOENT)
              && table.dirs == (if err == OK then old(table.dirs)[d := Deleted(rs, k)] else old(table.dirs))
              && (table.Valid() <==> (err == OK ==> k > 0 && rs[k - 1].recLen + rs[k].recLen < REC_LEN_LIMIT))
      ensures var rs := old(table.dirs[d]);
              DirOk(rs) && Proper(n) && Fits(rs, n) ==>
                && table.Valid() && DirOk(table.dirs[d]) && Size(table.dirs[d]) == Size(rs)
                && (err == OK <==> n in Entries(rs)) && Entries(table.dirs[d]) == Entries(rs) - {n}
                && err == DeleteEntry(rs, n).err && table.dirs == old(table.dirs)[d := DeleteEntry(rs, n).rs]
    {
      DropMeans(table.dirs, d, n);
      hide DirOk, Size, Entries, Unique, DeleteEntry, Proper, Find, Deleted, Fits;
      err := table.Delete(d, n);
      if err == OK {
        nlink := Dec(nlink, i);
      }
    }

    /** `rdfs_unlink`. */
    method Unlink(d: nat, n: Name, i: nat) returns (err: Error)
      requires Valid() && Permitted(State(), OpUnlink(d, n, i))
      modifies this, table, table.Repr
      ensures Valid() && fresh(table.Repr - old(table.Repr)) && (State(), err) == NameOps.Unlink(old(State()), d, n, i)
    {
      hide Ok, DeleteEntry, Fits, DirOk, Proper, Find, Deleted, Entries, Table.Valid, Permitted;
      UnlinkOk(State(), root, d, n, i);
      MayDrop(State(), root, OpUnlink(d, n, i));
      err := Drop(d, n, i);
      if err == OK {
        names := names - {Key(d, Child(n))};
      }
    }

    /** `rdfs_mkdir`. */
    method Mkdir(d: nat, n: Name, i: nat, avail: bool) returns (err: Error)
      requires Valid() && Permitted(State(), OpMkdir(d, n, i, avail))
      modifies this, table, table.Repr
      ensures Valid() && fresh(table.Repr - old(table.Repr)) && (State(), err) == MakeDir(old(State()), d, n, i, avail)
    {
      hide Ok, AddLink, EmptyDir, Dec, Inc, Table.Valid, Permitted;
      MakeDirOk(State(), root, d, n, i, avail);
      MayAdd(State(), root, OpMkdir(d, n, i, avail));
      nlink := Inc(nlink, d);
      if !avail {
        nlink := Dec(nlink, d);
        return ENOSPC;
      }
      nlink := nlink[i := 1];
      nlink := Inc(nlink, i);
      table.Make(i, d);
      err := table.Add(d, n, i, FT_DIR);
      if err != OK {
        nlink := Dec(nlink, i);
        nlink := Dec(nlink, i);
        nlink := Dec(nlink, d);
        return;
      }
      names, home := NameGraph.Mkdir(names, d, n, i), home[i := Key(d, Child(n))];
      assert State() == MakeDir(old(State()), d, n, i, avail).0;
      return OK;
    }

    /** `rdfs_rmdir`. */
    method Rmdir(d: nat, n: Name, i: nat) returns (err: Error)
      requires Valid() && Permitted(State(), OpRmdir(d, n, i))
      modifies this, table, table.Repr
      ensures Valid() && fresh(table.Repr - old(table.Repr)) && (State(), err) == RemoveDir(old(State()), root, d, n, i)
    {
      hide Ok, DeleteEntry, Fits, DirOk, Proper, Find, Deleted, Entries, Dec, Table.Valid, Permitted, Plain;
      RemoveDirOk(State(), root, d, n, i);
      MayDrop(State(), root, OpRmdir(d, n, i));
      err := ENOTEMPTY;
      var empty := table.Empty(i);
      if empty {
        err := Drop(d, n, i);
        if err == OK {
          table.Clear(i);
          nlink := Dec(nlink, i);
          nlink := Dec(nlink, d);
          names := NameGraph.Rmdir(names, Key(d, Child(n)));
          assert State() == RemoveDir(old(State()), root, d, n, i).0;
        }
      }
    }

    /** The middle of `rdfs_rename`: the new name is entered. */
    method Enter(d: nat, n: Name, nd: nat, nn: Name, i: nat, ftype: Byte, exist: bool, t: nat, isdir: bool)
        returns (err: Error)
      requires d in table.dirs && nd in table.dirs && (exist && isdir ==> t in table.dirs)
      requires Valid() && Permitted(State(), OpRename(d, n, nd, nn, i, ftype, exist, t)) && isdir == (i in table.dirs)
      requires Find(table.dirs[d], n) < |table.dirs[d]|
      modifies this`nlink, table.Repr
      ensures table.Valid() && table.Repr == old(table.Repr)
      ensures var dirs := old(table.dirs);
              err == (if exist then
                        if isdir && !EmptyRecs(dirs[t], t) then ENOTEMPTY
                        else if Find(dirs[nd], nn) < |dirs[nd]| then OK else ENOENT
                      else AddLink(dirs[nd], nn, i, ftype).err)
      ensures err != OK ==> table.dirs == old(table.dirs) && nlink == old(nlink)
      ensures err == OK ==>
                && (exist ==> Find(old(table.dirs[nd]), nn) < |old(table.dirs[nd])|)
                && table.dirs == Entered(old(table.dirs), nd, nn, exist, i, ftype)
                && nlink == if isdir && exist then Dec(Dec(old(nlink), t), t)
                            else if isdir then Inc(old(nlink), nd)
                            else if exist then Dec(old(nlink), t) else old(nlink)
    {
      hide Ok, AddLink, Fits, Find, Relinked, DirOk, Plain, Table.Valid, Permitted;
      Entering(State(), root, d, n, nd, nn, i, ftype, exist, t);
      if exist {
        if isdir {
          var empty := table.Empty(t);
          if !empty {
            return ENOTEMPTY;
          }
        }
        var found, at := table.Has(nd, nn);
        if !found {
          return ENOENT;
        }
        table.SetLink(nd, at, i, ftype, Find(table.dirs[nd], nn));
        if isdir {
          nlink := Dec(nlink, t);
        }
        nlink := Dec(nlink, t);
        return OK;
      }
      err := table.Add(nd, nn, i, ftype);
      if err == OK && isdir {
        nlink := Inc(nlink, nd);
      }
    }

    /** The end of `rdfs_rename`: the old name is deleted, and ".." of a directory that moved is turned. */
    method Leave(d: nat, n: Name, nd: nat, i: nat, isdir: bool, dirDe: nat)
      requires this !in table.Repr && table.Valid() && d in table.dirs && Shrinks(table.dirs[d], n)
      requires isdir && d != nd ==>
                 && i in table.dirs && i != d && |table.dirs[i]| >= 2 && dirDe == Off(table.dirs[i], 1)
                 && nd < WORD_LIMIT
      modifies table.Repr
      ensures table.Valid() && table.Repr == old(table.Repr) && table.dirs == After(old(table.dirs), d, n, nd, i, isdir)
    {
      hide Table.Valid, Find, Deleted, DeleteEntry, Relinked, Off;
      DeletesRest(table.dirs, d, n);
      var _ := table.Delete(d, n);
      if isdir && d != nd {
        table.SetLink(i, dirDe, nd, FT_DIR, 1);
      }
    }

    /** `rdfs_rename`. */
    method Rename(d: nat, n: Name, nd: nat, nn: Name, i: nat, ftype: Byte, exist: bool, t: nat) returns (err: Error)
      requires Valid() && Permitted(State(), OpRename(d, n, nd, nn, i, ftype, exist, t))
      modifies this, table, table.Repr
      ensures Valid() && fresh(table.Repr - old(table.Repr))
      ensures (State(), err) == Move(old(State()), root, d, n, nd, nn, i, ftype, exist, t)
    {
      hide Ok, AddLink, Fits, EmptyRecs, Find, Moved, Cleared, Renames, DeleteEntry, Relinked, Deleted, DirOk, Entered,
           Renamed, After, Shrinks, Off, Dec, Inc, Table.Valid, Permitted;
      MoveOk(State(), root, d, n, nd, nn, i, ftype, exist, t);
      ghost var fs := State();
      MayMove(fs, OpRename(d, n, nd, nn, i, ftype, exist, t));
      var found, _ := table.Has(d, n);
      if !found {
        return ENOENT;
      }
      var isdir := table.IsDir(i);
      var dirDe := 0;
      if isdir {
        MovedDir(fs, root, d, n, nd, nn, i, ftype, exist, t);
        dirDe := table.DotDot(i);
      }
      err := Enter(d, n, nd, nn, i, ftype, exist, t, isdir);
      if err != OK {
        return;
      }
      MoveReady(fs, root, d, n, nd, nn, i, ftype, exist, t);
      Leaving(fs, root, d, n, nd, nn, i, ftype, exist, t);
      Leave(d, n, nd, i, isdir, dirDe);
      if isdir {
        nlink := Dec(nlink, d);
        home := home[i := Key(nd, Child(nn))];
      }
      names := Moved(Cleared(names, Key(nd, Child(nn))), Key(d, Child(n)), Key(nd, Child(nn)));
      assert State() == Move(fs, root, d, n, nd, nn, i, ftype, exist, t).0;
      return OK;
    }
  }

  // ----- whole runs, down to the bytes -----

  /** One call. */
  method Do(fs: MountedFs, op: Op) returns (err: Error)
    requires fs.Valid() && Permitted(fs.State(), op)
    modifies fs, fs.table, fs.table.Repr
    ensures fs.Valid() && fresh(fs.table.Repr - old(fs.table.Repr))
    ensures (fs.State(), err) == NameOps.Step(old(fs.State()), fs.root, op)
  {
    hide Ok, Permitted, Table.Valid, NameOps.Create, NameOps.Link, NameOps.Unlink, MakeDir, RemoveDir, Move;
    match op
    case OpCreate(d, n, i, ftype, avail) => err := fs.Create(d, n, i, ftype, avail);
    case OpLink(d, n, i, ftype) => err := fs.Link(d, n, i, ftype);
    case OpUnlink(d, n, i) => err := fs.Unlink(d, n, i);
    case OpMkdir(d, n, i, avail) => err := fs.Mkdir(d, n, i, avail);
    case OpRmdir(d, n, i) => err := fs.Rmdir(d, n, i);
    case OpRename(d, n, nd, nn, i, ftype, exist, t) => err := fs.Rename(d, n, nd, nn, i, ftype, exist, t);
  }

  /** Every run that the VFS makes from a new file system, within 16 pages: the bytes of every directory are those of
      the records that the run leads to, and every link count is the number of records that name the inode. */
  method DoAll(root: nat, ops: seq<Op>) returns (fs: MountedFs)
    requires 0 < root < INO_LIMIT && VfsRun(root, ops)
    ensures fresh(fs) && fs.Valid() && fs.root == root && fs.State() == NameOps.Run(root, ops)
    ensures forall i: nat :: i != 0 ==> Count(fs.nlink, i) == |RecordRefs(fs.State(), i)|
  {
    hide Ok, Permitted, VfsRun, Table.Valid, NameOps.Step, RecordRefs, Count, Fresh;
    fs := new MountedFs(root);
    NothingDone(root, ops);
    var n := 0;
    while n < |ops|
      invariant n <= |ops| && fresh(fs) && fresh(fs.table) && fresh(fs.table.Repr) && fs.Valid() && fs.root == root
      invariant fs.State() == NameOps.Run(root, ops[..n])
    {
      VfsRunLinkCounts(root, ops, n, 1);
      var _ := Do(fs, ops[n]);
      n := n + 1;
    }
    assert ops[..n] == ops;
    forall i: nat | i != 0
      ensures Count(fs.nlink, i) == |RecordRefs(fs.State(), i)|
    {
      LinkCountIsRecords(fs.State(), root, i);
    }
  }

  /** What a record says is what the names say. */
  lemma LookupMeans(fs: Fs, root: nat, d: nat, n: Name)
    requires Ok(fs, root) && LiveDir(fs.dirs, fs.nlink, d)
    ensures var rs, k := fs.dirs[d], Key(d, Lab(n));
            && Unique(rs) && (n in Entries(rs) <==> k in fs.names)
            && (n in Entries(rs) ==> Entries(rs)[n] == fs.names[k] < LE32)
  {
    hide Links, Tree, MatchDir, Entries, Unique;
    DirFacts(fs.dirs, fs.nlink, fs.names, fs.home, root, d);
    EntryIff(fs.dirs[d], fs.names, d, n);
  }

  /** After every run that the VFS makes in which the directories inserted into have at most 14 pages, a lookup in the
      bytes of any directory gives what the run of the namespace alone binds the name to. */
  method LookAfter(root: nat, ops: seq<Op>, d: nat, n: Name) returns (ino: nat)
    requires 0 < root < INO_LIMIT && VfsRun(root, ops) && |n| <= MAX_NAME
    requires forall m: nat :: m < |ops| ==> SmallInsert(NameOps.Run(root, ops[..m]), ops[m])
    requires NameGraph.IsDir(SpecRun(root, ops), d)
    ensures var b, k := SpecRun(root, ops), Key(d, Lab(n)); ino == if k in b then b[k] else 0
  {
    hide Ok, VfsRun, SmallInsert, SpecRun, Table.Valid;
    var fs := DoAll(root, ops);
    RunIsSpec(root, ops);
    Lives(fs.State(), root, d);
    var err;
    err, ino := fs.Lookup(d, n);
  }

  lemma Lives(fs: Fs, root: nat, d: nat)
    requires Ok(fs, root) && NameGraph.IsDir(fs.names, d)
    ensures LiveDir(fs.dirs, fs.nlink, d)
  {
    DirFacts(fs.dirs, fs.nlink, fs.names, fs.home, root, d);
  }

  lemma NothingDone(root: nat, ops: seq<Op>)
    requires 0 < root < INO_LIMIT
    ensures NameOps.Run(root, ops[..0]) == Fresh(root)
  {
    assert ops[..0] == [];
  }

  /** What a deletion in a proper directory comes to. */
  lemma DropMeans(dirs: map<nat, seq<Rec>>, d: nat, n: Name)
    requires d in dirs
    ensures var rs := dirs[d]; var k := Find(rs, n);
            DirOk(rs) && Proper(n) && Fits(rs, n) ==>
              && (k < |rs| ==> k > 0 && rs[k - 1].recLen + rs[k].recLen < REC_LEN_LIMIT && k < |rs|)
              && var q := if k < |rs| then Deleted(rs, k) else rs;
                 && DirOk(q) && Size(q) == Size(rs)
                 && (k < |rs| <==> n in Entries(rs)) && Entries(q) == Entries(rs) - {n}
                 && DeleteEntry(rs, n) == Outcome(if k < |rs| then OK else ENOENT, q)
                 && (k >= |rs| ==> dirs == dirs[d := q])
  {
    var rs := dirs[d];
    if DirOk(rs) && Proper(n) && Fits(rs, n) {
      DeleteRefines(rs, n);
      VictimBehindFront(rs, n);
      hide DirOk, Size, Entries, Unique, Removed;
    }
  }

  lemma MayAdd(fs: Fs, root: nat, op: Op)
    requires Ok(fs, root) && Permitted(fs, op) && (op.OpLink? || op.OpCreate? || op.OpMkdir?)
    ensures op.d in fs.dirs && op.d < INO_LIMIT && 0 < |op.n| <= MAX_NAME && 0 < op.i < INO_LIMIT
    ensures !op.OpLink? ==> op.d != op.i
  {
    hide Ok, DirOk, Fits, Above;
    LiveNumber(fs, root, op.d);
  }

  lemma MayMove(fs: Fs, op: Op)
    requires Permitted(fs, op) && op.OpRename?
    ensures op.d in fs.dirs && op.nd in fs.dirs && (op.exist && op.i in fs.dirs ==> op.t in fs.dirs)
  {
    hide Fits, Above, Find, Proper;
  }

  lemma MayDrop(fs: Fs, root: nat, op: Op)
    requires Ok(fs, root) && Permitted(fs, op) && (op.OpUnlink? || op.OpRmdir?)
    ensures op.d in fs.dirs && DirOk(fs.dirs[op.d]) && Proper(op.n) && Fits(fs.dirs[op.d], op.n)
    ensures op.OpRmdir? ==> op.i in fs.dirs && 0 < op.i < INO_LIMIT
    ensures var o := DeleteEntry(fs.dirs[op.d], op.n);
            && (o.err == OK <==> Key(op.d, Child(op.n)) in fs.names)
            && (o.err != OK ==> fs.dirs[op.d := o.rs] == fs.dirs)
  {
    hide Ok, DirOk, Fits, MatchDir, Proper, Find, Above, DeleteEntry;
    LiveDirOk(fs, root, op.d);
    Deletes(fs, root, op.d, op.n);
    if op.OpRmdir? {
      LiveNumber(fs, root, op.i);
    }
  }

  lemma LiveNumber(fs: Fs, root: nat, d: nat)
    requires Ok(fs, root) && LiveDir(fs.dirs, fs.nlink, d)
    ensures DirOk(fs.dirs[d]) && fs.dirs[d] != [] && 0 < d < INO_LIMIT
  {
    hide MatchDir;
    LiveDirOk(fs, root, d);
    DirFacts(fs.dirs, fs.nlink, fs.names, fs.home, root, d);
  }

  lemma MovedDir(fs: Fs, root: nat, d: nat, n: Name, nd: nat, nn: Name, i: nat, ftype: Byte, exist: bool, t: nat)
    requires Ok(fs, root) && Permitted(fs, OpRename(d, n, nd, nn, i, ftype, exist, t))
    requires Find(fs.dirs[d], n) < |fs.dirs[d]| && i in fs.dirs
    ensures fs.dirs[i] != []
  {
    hide MatchDir, Matches, Links, Tree, Fits, AddLink, Find;
    LiveDirOk(fs, root, d);
    FindIff(fs.dirs[d], fs.names, d, n);
    KindOf(fs, root, Key(d, Child(n)));
    LiveNumber(fs, root, i);
  }

  /** What entering the new name needs. */
  lemma Entering(fs: Fs, root: nat, d: nat, n: Name, nd: nat, nn: Name, i: nat, ftype: Byte, exist: bool, t: nat)
    requires Ok(fs, root) && Permitted(fs, OpRename(d, n, nd, nn, i, ftype, exist, t))
    requires Find(fs.dirs[d], n) < |fs.dirs[d]|
    ensures nd in fs.dirs && 0 < |nn| <= MAX_NAME && 0 < i < INO_LIMIT
    ensures exist && i in fs.dirs ==> t in fs.dirs && t < INO_LIMIT
    ensures !exist && AddLink(fs.dirs[nd], nn, i, ftype).err != OK ==>
              fs.dirs[nd := AddLink(fs.dirs[nd], nn, i, ftype).rs] == fs.dirs
  {
    hide MatchDir, Matches, Links, Tree, Fits, AddLink, Find;
    LiveDirOk(fs, root, d);
    FindIff(fs.dirs[d], fs.names, d, n);
    KindOf(fs, root, Key(d, Child(n)));
    if exist && i in fs.dirs {
      LiveNumber(fs, root, t);
    }
    if !exist && AddLink(fs.dirs[nd], nn, i, ftype).err != OK {
      AddFails(fs, root, nd, nn, i, ftype);
    }
  }

  /** Deleting the name keeps the tiling. */
  ghost predicate Shrinks(rs: seq<Rec>, n: Name) {
    var k := Find(rs, n);
    k < |rs| ==> k > 0 && rs[k - 1].recLen + rs[k].recLen < REC_LEN_LIMIT
  }

  lemma DeletesRest(dirs: map<nat, seq<Rec>>, d: nat, n: Name)
    requires d in dirs && Shrinks(dirs[d], n)
    ensures var rs := dirs[d]; var k := Find(rs, n);
            (if k < |rs| then dirs[d := Deleted(rs, k)] else dirs) == dirs[d := DeleteEntry(rs, n).rs]
  {
    hide Find, Removed;
  }

  /** The directories once the old name is gone and ".." is turned. */
  ghost function After(dirs: map<nat, seq<Rec>>, d: nat, n: Name, nd: nat, i: nat, isdir: bool): map<nat, seq<Rec>>
    requires d in dirs && (isdir && d != nd ==> i in dirs && i != d && |dirs[i]| >= 2)
  {
    var rest := dirs[d := DeleteEntry(dirs[d], n).rs];
    if isdir && d != nd then rest[i := Relinked(rest[i], 1, nd, FT_DIR)] else rest
  }

  /** What leaving the old name needs and comes to. */
  lemma Leaving(fs: Fs, root: nat, d: nat, n: Name, nd: nat, nn: Name, i: nat, ftype: Byte, exist: bool, t: nat)
    requires Ok(fs, root) && Permitted(fs, OpRename(d, n, nd, nn, i, ftype, exist, t))
    requires Find(fs.dirs[d], n) < |fs.dirs[d]| && (exist ==> Find(fs.dirs[nd], nn) < |fs.dirs[nd]|)
    requires i in fs.dirs ==> |fs.dirs[i]| >= 2 && i != d && i != nd
    ensures d in fs.dirs && nd in fs.dirs && nd < INO_LIMIT
    ensures var dirs := Entered(fs.dirs, nd, nn, exist, i, ftype);
            && d in dirs && Shrinks(dirs[d], n) && (i in fs.dirs ==> i in dirs && dirs[i] == fs.dirs[i])
            && Renamed(fs.dirs, d, n, nd, nn, exist, i, ftype, i in fs.dirs) == After(dirs, d, n, nd, i, i in fs.dirs)
  {
    hide Ok, AddLink, Find, DirOk, Relinked, Deleted, DeleteEntry, Proper, Above;
    LiveNumber(fs, root, nd);
    EnteredOk(fs, root, OpRename(d, n, nd, nn, i, ftype, exist, t));
    DropMeans(Entered(fs.dirs, nd, nn, exist, i, ftype), d, n);
  }
}
