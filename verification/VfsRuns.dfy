/** What holds of every run that the VFS makes, as long as directories stay within 16 pages: no call is lost to the
    16-bit record length, link counts are right, and every directory reaches the root. */
module VfsRuns {
  import opened Bytes
  import opened DirRecords
  import opened DirRuns
  import opened Directory
  import opened Machine
  import opened NameGraph
  import opened NameOps
  import opened Namespace

  const LIMIT := 16 * PAGE_SIZE

  // ----- merges fit -----

  /** Live directories have at most 16 pages, and so has the directory of a rename once the new name is in it. */
  ghost predicate Within(fs: Fs, op: Op) {
    && (forall d: nat :: LiveDir(fs.dirs, fs.nlink, d) ==> Size(fs.dirs[d]) <= LIMIT)
    && (op.OpRename? && op.d == op.nd && op.d in fs.dirs &&
        (op.exist ==> Find(fs.dirs[op.nd], op.nn) < |fs.dirs[op.nd]|) ==>
          Size(Entered(fs.dirs, op.nd, op.nn, op.exist, op.i, op.ftype)[op.d]) <= LIMIT)
  }

  lemma FitsWithin(rs: seq<Rec>, n: Name)
    requires DirOk(rs) && Size(rs) <= LIMIT && Proper(n)
    ensures Fits(rs, n)
  {
    hide DirOk, Size, Find;
    VictimBehindFront(rs, n);
    var k := Find(rs, n);
    if k < |rs| {
      MergeFits(rs, k);
    }
  }

  lemma LiveDirOk(fs: Fs, root: nat, d: nat)
    requires Ok(fs, root) && LiveDir(fs.dirs, fs.nlink, d)
    ensures MatchDir(fs.dirs[d], fs.names, d) && DirOk(fs.dirs[d])
  {
    DirFacts(fs.dirs, fs.nlink, fs.names, fs.home, root, d);
  }

  /** The directory that a rename deletes from is a proper one. */
  lemma EnteredOk(fs: Fs, root: nat, op: Op)
    requires Ok(fs, root) && VfsAllows(fs, op) && op.OpRename? && Find(fs.dirs[op.d], op.n) < |fs.dirs[op.d]|
    requires op.exist ==> Find(fs.dirs[op.nd], op.nn) < |fs.dirs[op.nd]|
    ensures DirOk(Entered(fs.dirs, op.nd, op.nn, op.exist, op.i, op.ftype)[op.d])
  {
    hide Ok, MatchDir, DirOk, Find, AddLink, Relinked;
    LiveDirOk(fs, root, op.d);
    LiveDirOk(fs, root, op.nd);
    FindIff(fs.dirs[op.d], fs.names, op.d, op.n);
    FindIff(fs.dirs[op.nd], fs.names, op.nd, op.nn);
    KindOf(fs, root, Key(op.d, Child(op.n)));
    if op.d == op.nd {
      if op.exist || AddLink(fs.dirs[op.nd], op.nn, op.i, op.ftype).err == OK {
        EnterMatches(fs.dirs[op.nd], fs.names, op.nd, op.nn, op.exist, op.i, op.ftype);
        MatchIsOk(Entered(fs.dirs, op.nd, op.nn, op.exist, op.i, op.ftype)[op.d],
                  fs.names[Key(op.nd, Child(op.nn)) := op.i], op.nd);
      } else {
        AddFails(fs, root, op.nd, op.nn, op.i, op.ftype);
      }
    }
  }

  lemma MatchIsOk(rs: seq<Rec>, b: Names, d: nat)
    requires MatchDir(rs, b, d)
    ensures DirOk(rs)
  {
  }

  /** Within 16 pages the checks of the VFS suffice. */
  lemma VfsSuffices(fs: Fs, root: nat, op: Op)
    requires Ok(fs, root) && VfsAllows(fs, op) && Within(fs, op)
    ensures Permitted(fs, op)
  {
    hide Ok, DirOk, Find, Size, Fits, AddLink, Relinked;
    LiveDirOk(fs, root, op.d);
    if op.OpUnlink? || op.OpRmdir? {
      FitsWithin(fs.dirs[op.d], op.n);
    } else if op.OpRename? && Find(fs.dirs[op.d], op.n) < |fs.dirs[op.d]| &&
              (op.exist ==> Find(fs.dirs[op.nd], op.nn) < |fs.dirs[op.nd]|) {
      EnteredOk(fs, root, op);
      FitsWithin(Entered(fs.dirs, op.nd, op.nn, op.exist, op.i, op.ftype)[op.d], op.n);
    }
  }

  // ----- runs -----

  /** Every call of the run passes the checks of the VFS, and directories stay within 16 pages. */
  ghost predicate VfsRun(root: nat, ops: seq<Op>)
    requires 0 < root < INO_LIMIT
  {
    forall n: nat :: n < |ops| ==> VfsCall(root, ops, n)
  }

  ghost predicate VfsCall(root: nat, ops: seq<Op>, n: nat)
    requires 0 < root < INO_LIMIT && n < |ops|
  {
    VfsAllows(NameOps.Run(root, ops[..n]), ops[n]) && Within(NameOps.Run(root, ops[..n]), ops[n])
  }

  /** Over every such run each call is made, and the link count of every inode is the number of live records that name
      it in live directories. */
  lemma VfsRunLinkCounts(root: nat, ops: seq<Op>, n: nat, i: nat)
    requires 0 < root < INO_LIMIT && VfsRun(root, ops) && n < |ops| && i != 0
    ensures Permitted(NameOps.Run(root, ops[..n]), ops[n])
    ensures NameOps.Run(root, ops[..n + 1]) == NameOps.Step(NameOps.Run(root, ops[..n]), root, ops[n]).0
    ensures Count(NameOps.Run(root, ops[..n + 1]).nlink, i) == |RecordRefs(NameOps.Run(root, ops[..n + 1]), i)|
  {
    hide VfsAllows, Within, Permitted, NameOps.Step, Ok, RecordRefs;
    assert VfsCall(root, ops, n);
    VfsSuffices(NameOps.Run(root, ops[..n]), root, ops[n]);
    var now := ops[..n + 1];
    assert now[..|now| - 1] == ops[..n] && now[|now| - 1] == ops[n];
    RunLinkCounts(root, now, i);
  }

  // ----- every directory reaches the root -----

  lemma StepRooted(fs: Fs, root: nat, op: Op)
    requires Ok(fs, root) && Permitted(fs, op) && Rooted(fs.names, root)
    ensures Rooted(NameOps.Step(fs, root, op).0.names, root)
  {
    hide Rooted, MatchDir, Matches, Links, Tree, AddLink, DeleteEntry, EmptyRecs, Above, Fits, EmptyDir;
    match op
    case OpCreate(d, n, i, ftype, avail) =>
      RootedSame(fs.names, fs.names[Key(d, Child(n)) := i], root);
    case OpLink(d, n, i, ftype) =>
      RootedSame(fs.names, fs.names[Key(d, Child(n)) := i], root);
    case OpUnlink(d, n, i) =>
      RootedSame(fs.names, fs.names - {Key(d, Child(n))}, root);
    case OpMkdir(d, n, i, avail) =>
      Unnamed(fs.names, fs.nlink, fs.home, root, i);
      DirFacts(fs.dirs, fs.nlink, fs.names, fs.home, root, d);
      MkdirRooted(fs.names, root, d, n, i);
    case OpRmdir(d, n, i) =>
      RemoveRooted(fs, root, d, n, i);
    case OpRename(d, n, nd, nn, i, ftype, exist, t) =>
      MoveRootedStep(fs, root, d, n, nd, nn, i, ftype, exist, t);
  }

  lemma RemoveRooted(fs: Fs, root: nat, d: nat, n: Name, i: nat)
    requires Ok(fs, root) && Permitted(fs, OpRmdir(d, n, i)) && Rooted(fs.names, root)
    ensures Rooted(RemoveDir(fs, root, d, n, i).0.names, root)
  {
    hide Rooted, MatchDir, Matches, Links, Tree, DeleteEntry, EmptyRecs, Above, Fits;
    var k := Key(d, Child(n));
    Deletes(fs, root, d, n);
    if EmptyRecs(fs.dirs[i], i) && k in fs.names {
      EmptyTest(fs, root, i);
      KindOf(fs, root, k);
      RmdirRooted(fs.names, fs.home, root, k);
    }
  }

  lemma MoveRootedStep(fs: Fs, root: nat, d: nat, n: Name, nd: nat, nn: Name, i: nat, ftype: Byte, exist: bool, t: nat)
    requires Ok(fs, root) && Permitted(fs, OpRename(d, n, nd, nn, i, ftype, exist, t)) && Rooted(fs.names, root)
    ensures Rooted(Move(fs, root, d, n, nd, nn, i, ftype, exist, t).0.names, root)
  {
    hide Rooted, MatchDir, Matches, Links, Tree, AddLink, Fits, EmptyRecs, Find, Renamed, Entered, Moved, Cleared,
         Renames, Above;
    if Move(fs, root, d, n, nd, nn, i, ftype, exist, t).1 == OK {
      MoveReady(fs, root, d, n, nd, nn, i, ftype, exist, t);
      MovableOf(fs, d, n, nd, nn, i, ftype);
      RenameRooted(fs.names, fs.home, root, fs.nlink, Key(d, Child(n)), Key(nd, Child(nn)));
    }
  }

  lemma FreshRooted(root: nat)
    requires 0 < root < INO_LIMIT
    ensures Rooted(Fresh(root).names, root)
  {
    forall d: nat | IsDir(Fresh(root).names, d)
      ensures Above(Fresh(root).names, root, d)
    {
      assert Climb(Fresh(root).names, d, 0) == root;
    }
  }

  /** Over every run each directory reaches the root through "..". */
  lemma {:induction false} RunRooted(root: nat, ops: seq<Op>)
    requires 0 < root < INO_LIMIT
    ensures Rooted(NameOps.Run(root, ops).names, root)
  {
    hide Rooted, Ok, Permitted, NameOps.Step;
    if ops == [] {
      FreshRooted(root);
    } else {
      var before := ops[..|ops| - 1];
      RunRooted(root, before);
      if Permitted(NameOps.Run(root, before), ops[|ops| - 1]) {
        StepRooted(NameOps.Run(root, before), root, ops[|ops| - 1]);
      }
    }
  }
}
