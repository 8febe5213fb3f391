/** Runs of namei.c: each call as a step of a file system, what every step and every run keeps, and what a
    rename does. */
module NameOps {
  import opened Bytes
  import opened Finite
  import opened DirRecords
  import opened DirRuns
  import opened Directory
  import opened NameGraph
  import opened Namespace

  /** Directories by inode number, link counts, the names they stand for, and the place of each directory. */
  datatype Fs = Fs(dirs: map<nat, seq<Rec>>, nlink: map<nat, nat>, names: Names, home: map<nat, Key>)

  ghost predicate Ok(fs: Fs, root: nat) {
    FsOk(fs.dirs, fs.nlink, fs.names, fs.home, root)
  }

  /** One call from the VFS.  `avail`: whether the free-inode list had an inode `i`; `exist`: whether the
      new name of a rename is bound, to inode `t`. */
  datatype Op =
    | OpCreate(d: nat, n: Name, i: nat, ftype: Byte, avail: bool)
    | OpLink(d: nat, n: Name, i: nat, ftype: Byte)
    | OpUnlink(d: nat, n: Name, i: nat)
    | OpMkdir(d: nat, n: Name, i: nat, avail: bool)
    | OpRmdir(d: nat, n: Name, i: nat)
    | OpRename(d: nat, n: Name, nd: nat, nn: Name, i: nat, ftype: Byte, exist: bool, t: nat)

  /** `rdfs_empty_dir`. */
  predicate EmptyRecs(rs: seq<Rec>, self: nat) {
    forall k: nat :: k < |rs| ==> Plain(rs[k], self)
  }

  /** What the VFS has checked before it calls: live directories and proper names, an inode that the dentry names, a
      free inode number, no directory linked or unlinked as a file, none moved below itself. */
  ghost predicate VfsAllows(fs: Fs, op: Op) {
    && LiveDir(fs.dirs, fs.nlink, op.d) && Proper(op.n)
    && var k := Key(op.d, Child(op.n));
       match op
       case OpCreate(d, n, i, ftype, avail) => k !in fs.names && 0 < i < INO_LIMIT && Count(fs.nlink, i) == 0
       case OpMkdir(d, n, i, avail) => k !in fs.names && 0 < i < INO_LIMIT && Count(fs.nlink, i) == 0
       case OpLink(d, n, i, ftype) => k !in fs.names && 0 < i < INO_LIMIT && Count(fs.nlink, i) > 0 && i !in fs.dirs
       case OpUnlink(d, n, i) => k in fs.names ==> i == fs.names[k] && i !in fs.dirs
       case OpRmdir(d, n, i) => LiveDir(fs.dirs, fs.nlink, i) && (k in fs.names ==> i == fs.names[k])
       case OpRename(d, n, nd, nn, i, ftype, exist, t) =>
         var to := Key(nd, Child(nn));
         && LiveDir(fs.dirs, fs.nlink, nd) && Proper(nn)
         && (k in fs.names ==> i == fs.names[k] && i != d && i != nd && (i in fs.dirs ==> !Above(fs.names, i, nd)))
         && (if exist then
               && (to in fs.names ==> t == fs.names[to])
               && Count(fs.nlink, t) > 0 && t != i && (t in fs.dirs <==> i in fs.dirs)
             else to !in fs.names)
  }

  /** The merge of the delete that a call comes to fits the 16-bit record length; the VFS knows nothing of it. */
  ghost predicate MergesFit(fs: Fs, op: Op) {
    match op
    case OpUnlink(d, n, i) => d in fs.dirs ==> Fits(fs.dirs[d], n)
    case OpRmdir(d, n, i) => d in fs.dirs ==> Fits(fs.dirs[d], n)
    case OpRename(d, n, nd, nn, i, ftype, exist, t) =>
      d in fs.dirs && nd in fs.dirs && Find(fs.dirs[d], n) < |fs.dirs[d]| &&
      (exist ==> Find(fs.dirs[nd], nn) < |fs.dirs[nd]|) ==>
        Fits(Entered(fs.dirs, nd, nn, exist, i, ftype)[d], n)
    case _ => true
  }

  ghost predicate Permitted(fs: Fs, op: Op) {
    VfsAllows(fs, op) && MergesFit(fs, op)
  }

  // ----- the steps -----

  ghost function Create(fs: Fs, d: nat, n: Name, i: nat, ftype: Byte, avail: bool): (Fs, Error)
    requires Permitted(fs, OpCreate(d, n, i, ftype, avail))
  {
    if !avail then (fs, ENOSPC) else
      var dirs := fs.dirs - {i};
      assert d != i;
      var o := AddLink(dirs[d], n, i, ftype);
      if o.err == OK then
        (Fs(dirs[d := o.rs], fs.nlink[i := 1], fs.names[Key(d, Child(n)) := i], fs.home), OK)
      else
        (Fs(dirs[d := o.rs], Dec(fs.nlink[i := 1], i), fs.names, fs.home), OK)
  }

  ghost function Link(fs: Fs, d: nat, n: Name, i: nat, ftype: Byte): (Fs, Error)
    requires Permitted(fs, OpLink(d, n, i, ftype))
  {
    var o := AddLink(fs.dirs[d], n, i, ftype);
    var dirs := fs.dirs[d := o.rs];
    if o.err == OK then (Fs(dirs, Inc(fs.nlink, i), fs.names[Key(d, Child(n)) := i], fs.home), OK)
    else (Fs(dirs, Dec(Inc(fs.nlink, i), i), fs.names, fs.home), o.err)
  }

  ghost function Unlink(fs: Fs, d: nat, n: Name, i: nat): (Fs, Error)
    requires Permitted(fs, OpUnlink(d, n, i))
  {
    var o := DeleteEntry(fs.dirs[d], n);
    if o.err == OK then (Fs(fs.dirs[d := o.rs], Dec(fs.nlink, i), fs.names - {Key(d, Child(n))}, fs.home), OK)
    else (fs, o.err)
  }

  ghost function MakeDir(fs: Fs, d: nat, n: Name, i: nat, avail: bool): (Fs, Error)
    requires Permitted(fs, OpMkdir(d, n, i, avail))
  {
    var nl := Inc(fs.nlink, d);
    if !avail then (fs.(nlink := Dec(nl, d)), ENOSPC) else
      var nl1 := Inc(nl[i := 1], i);
      assert d != i;
      var dirs := fs.dirs[i := EmptyDir(i, d)];
      var o := AddLink(dirs[d], n, i, FT_DIR);
      if o.err == OK then
        (Fs(dirs[d := o.rs], nl1, Mkdir(fs.names, d, n, i), fs.home[i := Key(d, Child(n))]), OK)
      else
        (Fs(dirs[d := o.rs], Dec(Dec(Dec(nl1, i), i), d), fs.names, fs.home), o.err)
  }

  ghost function RemoveDir(fs: Fs, root: nat, d: nat, n: Name, i: nat): (Fs, Error)
    requires Ok(fs, root) && Permitted(fs, OpRmdir(d, n, i))
  {
    var k := Key(d, Child(n));
    if !EmptyRecs(fs.dirs[i], i) then (fs, ENOTEMPTY) else
      var o := DeleteEntry(fs.dirs[d], n);
      Deletes(fs, root, d, n);
      if o.err == OK then
        (Fs(fs.dirs[d := o.rs][i := []], Dec(Dec(Dec(fs.nlink, i), i), d), Rmdir(fs.names, k), fs.home), OK)
      else
        (fs, o.err)
  }

  ghost function Move(fs: Fs, root: nat, d: nat, n: Name, nd: nat, nn: Name, i: nat, ftype: Byte, exist: bool,
                      t: nat): (Fs, Error)
    requires Ok(fs, root) && Permitted(fs, OpRename(d, n, nd, nn, i, ftype, exist, t))
  {
    var from, to, isdir := Key(d, Child(n)), Key(nd, Child(nn)), i in fs.dirs;
    if Find(fs.dirs[d], n) >= |fs.dirs[d]| then (fs, ENOENT)
    else if exist && isdir && !EmptyRecs(fs.dirs[t], t) then (fs, ENOTEMPTY)
    else if exist && Find(fs.dirs[nd], nn) >= |fs.dirs[nd]| then (fs, ENOENT)
    else if !exist && AddLink(fs.dirs[nd], nn, i, ftype).err != OK then (fs, AddLink(fs.dirs[nd], nn, i, ftype).err)
    else
      var nl := if isdir && exist then Dec(Dec(Dec(fs.nlink, t), t), d)
                else if isdir then Dec(Inc(fs.nlink, nd), d)
                else if exist then Dec(fs.nlink, t) else fs.nlink;
      MoveReady(fs, root, d, n, nd, nn, i, ftype, exist, t);
      (Fs(Renamed(fs.dirs, d, n, nd, nn, exist, i, ftype, isdir), nl, Moved(Cleared(fs.names, to), from, to),
          if isdir then fs.home[i := to] else fs.home), OK)
  }

  ghost function Step(fs: Fs, root: nat, op: Op): (Fs, Error)
    requires Ok(fs, root) && Permitted(fs, op)
  {
    match op
    case OpCreate(d, n, i, ftype, avail) => Create(fs, d, n, i, ftype, avail)
    case OpLink(d, n, i, ftype) => Link(fs, d, n, i, ftype)
    case OpUnlink(d, n, i) => Unlink(fs, d, n, i)
    case OpMkdir(d, n, i, avail) => MakeDir(fs, d, n, i, avail)
    case OpRmdir(d, n, i) => RemoveDir(fs, root, d, n, i)
    case OpRename(d, n, nd, nn, i, ftype, exist, t) => Move(fs, root, d, n, nd, nn, i, ftype, exist, t)
  }

  // ----- every step keeps the file system -----

  lemma Deletes(fs: Fs, root: nat, d: nat, n: Name)
    requires Ok(fs, root) && LiveDir(fs.dirs, fs.nlink, d) && Proper(n) && Fits(fs.dirs[d], n)
    ensures var o := DeleteEntry(fs.dirs[d], n);
            && (o.err == OK <==> Key(d, Child(n)) in fs.names)
            && (o.err != OK ==> o.err == ENOENT && o.rs == fs.dirs[d])
  {
    hide MatchDir, DeleteEntry, Fits, Matches, Tree, Links;
    DirFacts(fs.dirs, fs.nlink, fs.names, fs.home, root, d);
    MatchDelete(fs.dirs[d], fs.names, d, n);
  }

  /** A live inode with records is a directory in the names. */
  lemma KindOf(fs: Fs, root: nat, k: Key)
    requires Ok(fs, root) && k in fs.names
    ensures fs.names[k] in fs.dirs <==> IsDir(fs.names, fs.names[k])
    ensures Count(fs.nlink, fs.names[k]) > 0 && 0 < fs.names[k] < INO_LIMIT
  {
    hide MatchDir;
    Named(fs.names, fs.nlink, k);
    DirFacts(fs.dirs, fs.nlink, fs.names, fs.home, root, fs.names[k]);
  }

  lemma EmptyTest(fs: Fs, root: nat, d: nat)
    requires Ok(fs, root) && LiveDir(fs.dirs, fs.nlink, d)
    ensures EmptyRecs(fs.dirs[d], d) <==> NoChildren(fs.names, d)
  {
    hide MatchDir;
    DirFacts(fs.dirs, fs.nlink, fs.names, fs.home, root, d);
    EmptyIff(fs.dirs[d], fs.names, d);
  }

  /** A rename that passes its tests is one that keeps the file system. */
  lemma MoveReady(fs: Fs, root: nat, d: nat, n: Name, nd: nat, nn: Name, i: nat, ftype: Byte, exist: bool, t: nat)
    requires Ok(fs, root) && Permitted(fs, OpRename(d, n, nd, nn, i, ftype, exist, t))
    requires Find(fs.dirs[d], n) < |fs.dirs[d]|
    requires exist ==> Find(fs.dirs[nd], nn) < |fs.dirs[nd]| && (i in fs.dirs ==> EmptyRecs(fs.dirs[t], t))
    requires !exist ==> AddLink(fs.dirs[nd], nn, i, ftype).err == OK
    ensures Renames(fs.dirs, fs.nlink, fs.names, d, n, nd, nn, i, ftype)
    ensures Key(d, Child(n)) in Cleared(fs.names, Key(nd, Child(nn)))
    ensures Key(d, Child(n)) in fs.names && i == fs.names[Key(d, Child(n))]
    ensures exist <==> Key(nd, Child(nn)) in fs.names
    ensures i in fs.dirs <==> IsDir(fs.names, i)
    ensures exist ==> t == fs.names[Key(nd, Child(nn))]
    ensures i in fs.dirs ==> |fs.dirs[i]| >= 2 && i != d && i != nd
  {
    hide MatchDir, Matches, Links, Tree, Fits, AddLink, Find, EmptyRecs;
    var from, to := Key(d, Child(n)), Key(nd, Child(nn));
    DirFacts(fs.dirs, fs.nlink, fs.names, fs.home, root, d);
    DirFacts(fs.dirs, fs.nlink, fs.names, fs.home, root, nd);
    FindIff(fs.dirs[d], fs.names, d, n);
    FindIff(fs.dirs[nd], fs.names, nd, nn);
    KindOf(fs, root, from);
    if i in fs.dirs {
      DirFacts(fs.dirs, fs.nlink, fs.names, fs.home, root, i);
      TwoRecords(fs.dirs[i], fs.names, i);
    }
    if exist {
      KindOf(fs, root, to);
      if i in fs.dirs {
        EmptyTest(fs, root, t);
      }
    }
    ReplacedGone(fs.names, fs.nlink, fs.home, root, from, to);
  }

  lemma TwoRecords(rs: seq<Rec>, b: Names, d: nat)
    requires MatchDir(rs, b, d)
    ensures |rs| >= 2
  {
  }

  lemma CreateOk(fs: Fs, root: nat, d: nat, n: Name, i: nat, ftype: Byte, avail: bool)
    requires Ok(fs, root) && Permitted(fs, OpCreate(d, n, i, ftype, avail))
    ensures Ok(Create(fs, d, n, i, ftype, avail).0, root)
  {
    hide MatchDir, Matches, Links, Tree, AddLink;
    if avail {
      var dirs := fs.dirs - {i};
      Retouch(fs.dirs, fs.nlink, fs.names, fs.home, root, dirs, fs.nlink);
      var o := AddLink(dirs[d], n, i, ftype);
      if o.err == OK {
        BindOk(dirs, fs.nlink, fs.names, fs.home, root, d, n, i, ftype);
        assert fs.nlink[i := 1] == Inc(fs.nlink, i);
      } else {
        AddFails(Fs(dirs, fs.nlink, fs.names, fs.home), root, d, n, i, ftype);
        assert dirs[d := o.rs] == dirs;
        Retouch(dirs, fs.nlink, fs.names, fs.home, root, dirs, Dec(fs.nlink[i := 1], i));
      }
    }
  }

  /** An insert that fails leaves the directory as it was. */
  lemma AddFails(fs: Fs, root: nat, d: nat, n: Name, i: nat, ftype: Byte)
    requires Ok(fs, root) && LiveDir(fs.dirs, fs.nlink, d) && Proper(n) && Key(d, Child(n)) !in fs.names && i != 0
    requires AddLink(fs.dirs[d], n, i, ftype).err != OK
    ensures AddLink(fs.dirs[d], n, i, ftype).rs == fs.dirs[d]
  {
    hide MatchDir, Matches, Links, Tree, AddLink;
    DirFacts(fs.dirs, fs.nlink, fs.names, fs.home, root, d);
    MatchAdd(fs.dirs[d], fs.names, d, n, i, ftype);
  }

  lemma LinkOk(fs: Fs, root: nat, d: nat, n: Name, i: nat, ftype: Byte)
    requires Ok(fs, root) && Permitted(fs, OpLink(d, n, i, ftype))
    ensures Ok(Link(fs, d, n, i, ftype).0, root)
  {
    hide MatchDir, Matches, Links, Tree, AddLink;
    if AddLink(fs.dirs[d], n, i, ftype).err == OK {
      BindOk(fs.dirs, fs.nlink, fs.names, fs.home, root, d, n, i, ftype);
    } else {
      AddFails(fs, root, d, n, i, ftype);
      assert fs.dirs[d := fs.dirs[d]] == fs.dirs;
      Retouch(fs.dirs, fs.nlink, fs.names, fs.home, root, fs.dirs, Dec(Inc(fs.nlink, i), i));
    }
  }

  lemma UnlinkOk(fs: Fs, root: nat, d: nat, n: Name, i: nat)
    requires Ok(fs, root) && Permitted(fs, OpUnlink(d, n, i))
    ensures Ok(Unlink(fs, d, n, i).0, root)
  {
    hide MatchDir, Matches, Links, Tree, DeleteEntry, Fits;
    Deletes(fs, root, d, n);
    if Key(d, Child(n)) in fs.names {
      KindOf(fs, root, Key(d, Child(n)));
      UnbindOk(fs.dirs, fs.nlink, fs.names, fs.home, root, d, n);
    }
  }

  lemma MakeDirOk(fs: Fs, root: nat, d: nat, n: Name, i: nat, avail: bool)
    requires Ok(fs, root) && Permitted(fs, OpMkdir(d, n, i, avail))
    ensures Ok(MakeDir(fs, d, n, i, avail).0, root)
  {
    hide MatchDir, Matches, Links, Tree, AddLink, EmptyDir;
    var nl := Inc(fs.nlink, d);
    if !avail {
      Retouch(fs.dirs, fs.nlink, fs.names, fs.home, root, fs.dirs, Dec(nl, d));
    } else {
      var nl1 := Inc(nl[i := 1], i);
      if AddLink(fs.dirs[d], n, i, FT_DIR).err == OK {
        MkdirOk(fs.dirs, fs.nlink, fs.names, fs.home, root, d, n, i);
        assert nl1 == Inc(Inc(nl, i), i);
      } else {
        AddFails(fs, root, d, n, i, FT_DIR);
        var dirs := fs.dirs[i := EmptyDir(i, d)];
        assert dirs[d := fs.dirs[d]] == dirs;
        Retouch(fs.dirs, fs.nlink, fs.names, fs.home, root, dirs, Dec(Dec(Dec(nl1, i), i), d));
      }
    }
  }

  lemma RemoveDirOk(fs: Fs, root: nat, d: nat, n: Name, i: nat)
    requires Ok(fs, root) && Permitted(fs, OpRmdir(d, n, i))
    ensures Ok(RemoveDir(fs, root, d, n, i).0, root)
  {
    hide MatchDir, Matches, Links, Tree, DeleteEntry, Fits, EmptyRecs;
    var k := Key(d, Child(n));
    Deletes(fs, root, d, n);
    if EmptyRecs(fs.dirs[i], i) && k in fs.names {
      EmptyTest(fs, root, i);
      KindOf(fs, root, k);
      RmdirOk(fs.dirs, fs.nlink, fs.names, fs.home, root, d, n);
      var dirs, nl := fs.dirs[d := DeleteEntry(fs.dirs[d], n).rs], Dec(Dec(Dec(fs.nlink, i), i), d);
      Retouch(dirs, nl, Rmdir(fs.names, k), fs.home, root, dirs[i := []], nl);
    }
  }

  lemma MoveOk(fs: Fs, root: nat, d: nat, n: Name, nd: nat, nn: Name, i: nat, ftype: Byte, exist: bool, t: nat)
    requires Ok(fs, root) && Permitted(fs, OpRename(d, n, nd, nn, i, ftype, exist, t))
    ensures Ok(Move(fs, root, d, n, nd, nn, i, ftype, exist, t).0, root)
  {
    hide MatchDir, Matches, Links, Tree, AddLink, Fits, EmptyRecs, Find, Renamed, Entered, Moved, Cleared, Renames;
    if Find(fs.dirs[d], n) < |fs.dirs[d]| &&
       (exist ==> Find(fs.dirs[nd], nn) < |fs.dirs[nd]| && (i in fs.dirs ==> EmptyRecs(fs.dirs[t], t))) &&
       (!exist ==> AddLink(fs.dirs[nd], nn, i, ftype).err == OK) {
      MoveReady(fs, root, d, n, nd, nn, i, ftype, exist, t);
      RenameOk(fs.dirs, fs.nlink, fs.names, fs.home, root, d, n, nd, nn, i, ftype);
    }
  }

  lemma StepOk(fs: Fs, root: nat, op: Op)
    requires Ok(fs, root) && Permitted(fs, op)
    ensures Ok(Step(fs, root, op).0, root)
  {
    hide Ok, Permitted, Create, Link, Unlink, MakeDir, RemoveDir, Move;
    match op
    case OpCreate(d, n, i, ftype, avail) => CreateOk(fs, root, d, n, i, ftype, avail);
    case OpLink(d, n, i, ftype) => LinkOk(fs, root, d, n, i, ftype);
    case OpUnlink(d, n, i) => UnlinkOk(fs, root, d, n, i);
    case OpMkdir(d, n, i, avail) => MakeDirOk(fs, root, d, n, i, avail);
    case OpRmdir(d, n, i) => RemoveDirOk(fs, root, d, n, i);
    case OpRename(d, n, nd, nn, i, ftype, exist, t) => MoveOk(fs, root, d, n, nd, nn, i, ftype, exist, t);
  }

  /** Two file systems with the same names, link counts, and records of live directories. */
  ghost predicate Same(fs: Fs, fs': Fs) {
    && fs'.names == fs.names && fs'.home == fs.home
    && (forall i: nat :: Count(fs'.nlink, i) == Count(fs.nlink, i))
    && (forall d: nat :: LiveDir(fs.dirs, fs.nlink, d) ==> d in fs'.dirs && fs'.dirs[d] == fs.dirs[d])
  }

  /** A call whose insert fails, and every call that reports an error, is rolled back.  Creation reports no error when
      its insert fails. */
  lemma FailureRollsBack(fs: Fs, root: nat, op: Op)
    requires Ok(fs, root) && Permitted(fs, op)
    requires Step(fs, root, op).1 != OK || (op.OpCreate? && AddLink(fs.dirs[op.d], op.n, op.i, op.ftype).err != OK)
    ensures Same(fs, Step(fs, root, op).0)
  {
    hide Ok, AddLink, DeleteEntry, Fits, EmptyRecs, EmptyDir, Find;
    match op
    case OpCreate(d, n, i, ftype, avail) =>
      if avail {
        AddFails(fs, root, d, n, i, ftype);
      }
    case OpLink(d, n, i, ftype) =>
      AddFails(fs, root, d, n, i, ftype);
    case OpUnlink(d, n, i) =>
    case OpMkdir(d, n, i, avail) =>
      if avail {
        AddFails(fs, root, d, n, i, FT_DIR);
      }
    case OpRmdir(d, n, i) =>
    case OpRename(d, n, nd, nn, i, ftype, exist, t) =>
  }

  // ----- runs -----

  /** A new file system: the root directory alone. */
  ghost function Fresh(root: nat): Fs {
    Fs(map[root := EmptyDir(root, root)], map[root := 2], map[Key(root, Self) := root, Key(root, Up) := root], map[])
  }

  lemma FreshOk(root: nat)
    requires 0 < root < INO_LIMIT
    ensures Ok(Fresh(root), root)
  {
    hide EmptyDir, MatchDir;
    var fs := Fresh(root);
    MatchNew(fs.names, root, root);
    forall i: nat
      ensures Count(fs.nlink, i) == |Refs(fs.names, i)|
    {
      assert Refs(fs.names, i) == if i == root then {Key(root, Self), Key(root, Up)} else {};
    }
    assert forall d: nat :: DirMatches(fs.dirs, fs.nlink, fs.names, d);
  }

  /** The file system after a run: calls that the VFS would refuse are not made. */
  ghost function Run(root: nat, ops: seq<Op>): (fs: Fs)
    requires 0 < root < INO_LIMIT
    ensures Ok(fs, root)
  {
    if ops == [] then
      FreshOk(root);
      Fresh(root)
    else
      var fs := Run(root, ops[..|ops| - 1]);
      var op := ops[|ops| - 1];
      if Permitted(fs, op) then
        StepOk(fs, root, op);
        Step(fs, root, op).0
      else fs
  }

  /** The live records that name inode `i`, in live directories. */
  ghost function RecordRefs(fs: Fs, i: nat): set<(nat, nat)> {
    set d: nat, k: nat | d in fs.dirs && k < |fs.dirs[d]| && Count(fs.nlink, d) > 0 && fs.dirs[d][k].ino == i :: (d, k)
  }

  function KeyOf(fs: Fs, p: (nat, nat)): Key
    requires p.0 in fs.dirs && p.1 < |fs.dirs[p.0]|
  {
    Key(p.0, Lab(fs.dirs[p.0][p.1].name))
  }

  lemma InRecords(fs: Fs, i: nat, p: (nat, nat))
    requires p in RecordRefs(fs, i)
    ensures p.0 in fs.dirs && p.1 < |fs.dirs[p.0]| && Count(fs.nlink, p.0) > 0 && fs.dirs[p.0][p.1].ino == i
  {
  }

  /** Each such record is one key of the names. */
  lemma RecordIsKey(fs: Fs, root: nat, i: nat, p: (nat, nat))
    requires Ok(fs, root) && i != 0 && p in RecordRefs(fs, i)
    ensures p.0 in fs.dirs && p.1 < |fs.dirs[p.0]| && KeyOf(fs, p) in Refs(fs.names, i)
  {
    hide RecordRefs, MatchDir, Matches, Links, Tree;
    InRecords(fs, i, p);
    var rs := fs.dirs[p.0];
    DirFacts(fs.dirs, fs.nlink, fs.names, fs.home, root, p.0);
    EntryIff(rs, fs.names, p.0, rs[p.1].name);
    assert Live(rs[p.1]);
  }

  lemma RecordsDiffer(fs: Fs, root: nat, i: nat, p: (nat, nat), q: (nat, nat))
    requires Ok(fs, root) && i != 0 && p in RecordRefs(fs, i) && q in RecordRefs(fs, i) && KeyOf(fs, p) == KeyOf(fs, q)
    ensures p == q
  {
    hide RecordRefs, MatchDir, Matches, Links, Tree, Unique, Entries;
    InRecords(fs, i, p);
    InRecords(fs, i, q);
    var rs := fs.dirs[p.0];
    DirFacts(fs.dirs, fs.nlink, fs.names, fs.home, root, p.0);
    EntryIff(rs, fs.names, p.0, rs[p.1].name);
    SameName(rs, p.1, q.1);
  }

  lemma SameName(rs: seq<Rec>, j: nat, k: nat)
    requires Unique(rs) && j < |rs| && k < |rs| && Live(rs[j]) && Live(rs[k]) && rs[j].name == rs[k].name
    ensures j == k
  {
  }

  lemma KeyHasRecord(fs: Fs, root: nat, i: nat, k: Key)
    requires Ok(fs, root) && i != 0 && k in Refs(fs.names, i)
    ensures exists p :: p in RecordRefs(fs, i) && KeyOf(fs, p) == k
  {
    assert LiveDir(fs.dirs, fs.nlink, k.dir);
    DirFacts(fs.dirs, fs.nlink, fs.names, fs.home, root, k.dir);
    var rs, n := fs.dirs[k.dir], NameOf(k.lab);
    assert Lab(n) == k.lab;
    EntryIff(rs, fs.names, k.dir, n);
    FindReadsEntries(rs, n);
    var p := (k.dir, Find(rs, n));
    hide Ok, MatchDir, Entries, Unique;
    assert p in RecordRefs(fs, i) && KeyOf(fs, p) == k;
  }

  /** In a consistent file system the link count of an inode is the number of records that name it. */
  lemma LinkCountIsRecords(fs: Fs, root: nat, i: nat)
    requires Ok(fs, root) && i != 0
    ensures Count(fs.nlink, i) == |RecordRefs(fs, i)|
  {
    assert Count(fs.nlink, i) == |Refs(fs.names, i)|;
    hide Ok, RecordRefs, Refs, Count, KeyOf;
    var s := RecordRefs(fs, i);
    forall p | p in s
      ensures p.0 in fs.dirs && p.1 < |fs.dirs[p.0]| && KeyOf(fs, p) in Refs(fs.names, i)
    {
      RecordIsKey(fs, root, i, p);
    }
    var m: map<(nat, nat), Key> := map p | p in s :: KeyOf(fs, p);
    forall x, y | x in m && y in m && m[x] == m[y]
      ensures x == y
    {
      RecordsDiffer(fs, root, i, x, y);
    }
    forall k | k in Refs(fs.names, i)
      ensures exists p :: p in m && m[p] == k
    {
      KeyHasRecord(fs, root, i, k);
      var p :| p in s && KeyOf(fs, p) == k;
      assert m[p] == k;
    }
    SameSize(s, Refs(fs.names, i), m);
  }

  /** Over every run of calls, the link count of every inode is the number of live records that name it in
      live directories, "." and ".." included. */
  lemma RunLinkCounts(root: nat, ops: seq<Op>, i: nat)
    requires 0 < root < INO_LIMIT && i != 0
    ensures Count(Run(root, ops).nlink, i) == |RecordRefs(Run(root, ops), i)|
  {
    LinkCountIsRecords(Run(root, ops), root, i);
  }

  // ----- what a rename does -----

  /** The second record of a directory is "..", and names the parent. */
  lemma SecondRecord(fs: Fs, root: nat, d: nat)
    requires Ok(fs, root) && IsDir(fs.names, d)
    ensures d in fs.dirs && |fs.dirs[d]| >= 2 && Key(d, Up) in fs.names
    ensures fs.dirs[d][1].name == DOTDOT && fs.dirs[d][1].ino == fs.names[Key(d, Up)]
  {
    DirFacts(fs.dirs, fs.nlink, fs.names, fs.home, root, d);
    FrontEntries(fs.dirs[d]);
    EntryIff(fs.dirs[d], fs.names, d, DOTDOT);
  }

  /** A successful rename binds the new name to the inode and drops the old name; a moved directory's second
      record is ".." and names the new parent; a replaced directory loses its names; every other binding is
      what it was.  The two directories may be the same. */
  lemma MoveEffect(fs: Fs, root: nat, d: nat, n: Name, nd: nat, nn: Name, i: nat, ftype: Byte, exist: bool, t: nat,
                   k: Key)
    requires Ok(fs, root) && Permitted(fs, OpRename(d, n, nd, nn, i, ftype, exist, t))
    requires Move(fs, root, d, n, nd, nn, i, ftype, exist, t).1 == OK
    ensures var from, to, fs' :=
              Key(d, Child(n)), Key(nd, Child(nn)), Move(fs, root, d, n, nd, nn, i, ftype, exist, t).0;
            && Ok(fs', root) && from in fs.names && fs.names[from] == i
            && from !in fs'.names && to in fs'.names && fs'.names[to] == i
            && (i in fs.dirs ==>
                  i in fs'.dirs && |fs'.dirs[i]| >= 2 && fs'.dirs[i][1].name == DOTDOT && fs'.dirs[i][1].ino == nd)
            && (!Touched(fs.names, from, to, k) ==>
                  (k in fs'.names <==> k in fs.names) && (k in fs.names ==> fs'.names[k] == fs.names[k]))
  {
    hide MatchDir, Matches, Links, Tree, AddLink, Fits, EmptyRecs, Find, Renamed, Entered, Moved, Cleared, Renames;
    var from, to := Key(d, Child(n)), Key(nd, Child(nn));
    MoveReady(fs, root, d, n, nd, nn, i, ftype, exist, t);
    MoveOk(fs, root, d, n, nd, nn, i, ftype, exist, t);
    var fs' := Move(fs, root, d, n, nd, nn, i, ftype, exist, t).0;
    MovableOf(fs, d, n, nd, nn, i, ftype);
    RenameEffect(fs.names, fs.home, root, from, to, from);
    RenameEffect(fs.names, fs.home, root, from, to, to);
    RenameEffect(fs.names, fs.home, root, from, to, k);
    if i in fs.dirs {
      RenameEffect(fs.names, fs.home, root, from, to, Key(i, Up));
      UpIsDir(fs', root, i);
      SecondRecord(fs', root, i);
    }
  }

  lemma MovableOf(fs: Fs, d: nat, n: Name, nd: nat, nn: Name, i: nat, ftype: Byte)
    requires Renames(fs.dirs, fs.nlink, fs.names, d, n, nd, nn, i, ftype)
    ensures Movable(fs.names, Key(d, Child(n)), Key(nd, Child(nn)))
  {
  }

  lemma UpIsDir(fs: Fs, root: nat, d: nat)
    requires Ok(fs, root) && Key(d, Up) in fs.names
    ensures IsDir(fs.names, d)
  {
    assert KeyOk(fs.names, fs.home, root, Key(d, Up));
  }
}
