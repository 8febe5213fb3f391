/** The namespace by itself: every call as an update of a map from names to inodes, without records, offsets or link
    counts, and the proof that runs of namei.c are runs of it. */
module NameSpec {
  import opened Bytes
  import opened DirRecords
  import opened DirRuns
  import opened Directory
  import opened Machine
  import opened NameEffects
  import opened NameGraph
  import opened NameOps
  import opened Namespace
  import opened VfsRuns

  /** The names after `from` is renamed to `to`: the keys of a replaced directory go with it, and the ".." of a moved
      directory names its new parent. */
  function Rebound(b: Names, from: Key, to: Key): Names
    requires from in b
  {
    var i := b[from];
    (map k | k in b && k != from && !(to in b && IsDir(b, b[to]) && k.dir == b[to]) ::
       if IsDir(b, i) && k == Key(i, Up) then to.dir else b[k])[to := i]
  }

  /** The names after a call and its answer.  `ins` is what the insert of the call answers. */
  ghost function SpecStep(b: Names, op: Op, ins: Error): (Names, Error) {
    var k := Key(op.d, Child(op.n));
    match op
    case OpCreate(d, n, i, ftype, avail) =>
      if !avail then (b, ENOSPC) else (if ins == OK then b[k := i] else b, OK)
    case OpLink(d, n, i, ftype) => (if ins == OK then b[k := i] else b, ins)
    case OpUnlink(d, n, i) => if k in b then (b - {k}, OK) else (b, ENOENT)
    case OpMkdir(d, n, i, avail) =>
      if !avail then (b, ENOSPC)
      else (if ins == OK then b + map[k := i, Key(i, Self) := i, Key(i, Up) := d] else b, ins)
    case OpRmdir(d, n, i) =>
      if !NoChildren(b, i) then (b, ENOTEMPTY)
      else if k in b then (b - {k, Key(i, Self), Key(i, Up)}, OK)
      else (b, ENOENT)
    case OpRename(d, n, nd, nn, i, ftype, exist, t) =>
      var to := Key(nd, Child(nn));
      if k !in b then (b, ENOENT)
      else if exist && IsDir(b, i) && !NoChildren(b, t) then (b, ENOTEMPTY)
      else if exist && to !in b then (b, ENOENT)
      else if !exist && ins != OK then (b, ins)
      else (Rebound(b, k, to), OK)
  }

  /** What the insert of a call answers: it goes into the directory of the new name. */
  function InsertAnswer(fs: Fs, op: Op): Error {
    var into := if op.OpRename? then op.nd else op.d;
    if into !in fs.dirs then OK else
      match op
      case OpCreate(d, n, i, ftype, avail) => AddLink(fs.dirs[d], n, i, ftype).err
      case OpLink(d, n, i, ftype) => AddLink(fs.dirs[d], n, i, ftype).err
      case OpMkdir(d, n, i, avail) => AddLink(fs.dirs[d], n, i, FT_DIR).err
      case OpRename(d, n, nd, nn, i, ftype, exist, t) => AddLink(fs.dirs[nd], nn, i, ftype).err
      case _ => OK
  }

  lemma MoveRebinds(fs: Fs, root: nat, d: nat, n: Name, nd: nat, nn: Name, i: nat, ftype: Byte, exist: bool, t: nat)
    requires Ok(fs, root) && Permitted(fs, OpRename(d, n, nd, nn, i, ftype, exist, t))
    requires Move(fs, root, d, n, nd, nn, i, ftype, exist, t).1 == OK
    ensures var from := Key(d, Child(n));
            from in fs.names &&
            Move(fs, root, d, n, nd, nn, i, ftype, exist, t).0.names == Rebound(fs.names, from, Key(nd, Child(nn)))
  {
    hide MatchDir, Matches, Links, AddLink, Fits, EmptyRecs, Find, Renamed, Entered, Moved, Cleared, Renames, Above,
         Tree;
    var from, to := Key(d, Child(n)), Key(nd, Child(nn));
    MoveReady(fs, root, d, n, nd, nn, i, ftype, exist, t);
    MovableOf(fs, d, n, nd, nn, i, ftype);
    Rebinds(fs.names, fs.home, root, from, to);
  }

  lemma Rebinds(b: Names, home: map<nat, Key>, root: nat, from: Key, to: Key)
    requires Tree(b, home, root) && Movable(b, from, to) && from in Cleared(b, to)
    ensures Moved(Cleared(b, to), from, to) == Rebound(b, from, to)
  {
    var e, f := Moved(Cleared(b, to), from, to), Rebound(b, from, to);
    UpBound(b, home, root, from);
    forall k: Key
      ensures (k in e <==> k in f) && (k in e ==> e[k] == f[k])
    {
      hide Moved, Cleared, Tree, Movable;
      RenameEffect(b, home, root, from, to, k);
    }
  }

  lemma UpBound(b: Names, home: map<nat, Key>, root: nat, from: Key)
    requires Tree(b, home, root) && from in b
    ensures IsDir(b, b[from]) ==> Key(b[from], Up) in b
  {
    assert UpOk(b, home, root, b[from]);
  }

  /** Every step of the file system is the step of its names. */
  lemma StepIsSpec(fs: Fs, root: nat, op: Op)
    requires Ok(fs, root) && Permitted(fs, op)
    ensures var (fs', err) := NameOps.Step(fs, root, op);
            (fs'.names, err) == SpecStep(fs.names, op, InsertAnswer(fs, op))
  {
    hide Ok, AddLink, Create, Link, Unlink, MakeDir, RemoveDir, Move, NoChildren, Rebound, Fits, Find, EmptyRecs, Above,
         Says, Keeps, OnlyCounts, Size, Entered;
    var l := Key(op.d, Self);
    match op
    case OpCreate(d, n, i, ftype, avail) => CreateEffect(fs, root, d, n, i, ftype, avail, l);
    case OpLink(d, n, i, ftype) => LinkEffect(fs, root, d, n, i, ftype, l);
    case OpUnlink(d, n, i) => UnlinkEffect(fs, root, d, n, i, l);
    case OpMkdir(d, n, i, avail) => MakeDirEffect(fs, root, d, n, i, avail, l);
    case OpRmdir(d, n, i) => RemoveDirEffect(fs, root, d, n, i, l);
    case OpRename(d, n, nd, nn, i, ftype, exist, t) => RenameIsSpec(fs, root, op);
  }

  lemma RenameIsSpec(fs: Fs, root: nat, op: Op)
    requires op.OpRename? && Ok(fs, root) && Permitted(fs, op)
    ensures var (fs', err) := Move(fs, root, op.d, op.n, op.nd, op.nn, op.i, op.ftype, op.exist, op.t);
            (fs'.names, err) == SpecStep(fs.names, op, InsertAnswer(fs, op))
  {
    hide Ok, AddLink, NoChildren, Rebound, Fits, Find, EmptyRecs, Above, Size, Entered, Renamed, Moved, Cleared,
         Renames;
    MoveAnswers(fs, root, op.d, op.n, op.nd, op.nn, op.i, op.ftype, op.exist, op.t);
    if Move(fs, root, op.d, op.n, op.nd, op.nn, op.i, op.ftype, op.exist, op.t).1 == OK {
      MoveRebinds(fs, root, op.d, op.n, op.nd, op.nn, op.i, op.ftype, op.exist, op.t);
    }
  }

  // ----- runs -----

  /** The names after a run in which every insert succeeds. */
  ghost function SpecRun(root: nat, ops: seq<Op>): Names {
    if ops == [] then map[Key(root, Self) := root, Key(root, Up) := root]
    else SpecStep(SpecRun(root, ops[..|ops| - 1]), ops[|ops| - 1], OK).0
  }

  /** The directory that a call inserts into has at most 14 pages. */
  ghost predicate SmallInsert(fs: Fs, op: Op) {
    var into := if op.OpRename? then op.nd else op.d;
    into in fs.dirs ==> Size(fs.dirs[into]) <= 14 * PAGE_SIZE
  }

  lemma SmallAnswersOk(fs: Fs, root: nat, op: Op)
    requires Ok(fs, root) && Permitted(fs, op) && SmallInsert(fs, op)
    ensures SpecStep(fs.names, op, InsertAnswer(fs, op)) == SpecStep(fs.names, op, OK)
  {
    hide Ok, AddLink, Size, Fits, Find, EmptyRecs, Above, NoChildren, Entered, Rebound;
    match op
    case OpCreate(d, n, i, ftype, avail) => SmallInserts(fs, root, d, n, i, ftype);
    case OpLink(d, n, i, ftype) => SmallInserts(fs, root, d, n, i, ftype);
    case OpMkdir(d, n, i, avail) => SmallInserts(fs, root, d, n, i, FT_DIR);
    case OpRename(d, n, nd, nn, i, ftype, exist, t) =>
      if !exist && Key(d, Child(n)) in fs.names {
        KindOf(fs, root, Key(d, Child(n)));
        SmallInserts(fs, root, nd, nn, i, ftype);
      }
    case _ =>
  }

  /** Over every run that the VFS makes in which the directories inserted into have at most 14 pages, the names are
      those of the run of the namespace alone, and so is every answer. */
  lemma {:induction false} RunIsSpec(root: nat, ops: seq<Op>)
    requires 0 < root < INO_LIMIT && VfsRun(root, ops)
    requires forall n: nat :: n < |ops| ==> SmallInsert(NameOps.Run(root, ops[..n]), ops[n])
    ensures NameOps.Run(root, ops).names == SpecRun(root, ops)
    ensures forall n: nat :: n < |ops| ==> SameAnswer(root, ops, n)
  {
    hide Ok, Permitted, VfsAllows, Within, NameOps.Step, SmallInsert, SpecStep, InsertAnswer;
    if ops != [] {
      var n := |ops| - 1;
      var before := ops[..n];
      RunBefore(root, ops);
      RunIsSpec(root, before);
      VfsRunLinkCounts(root, ops, n, 1);
      assert ops[..n + 1] == ops;
      var fs := NameOps.Run(root, before);
      StepIsSpec(fs, root, ops[n]);
      SmallAnswersOk(fs, root, ops[n]);
      forall m: nat | m < |ops|
        ensures SameAnswer(root, ops, m)
      {
        if m < n {
          assert SameAnswer(root, before, m) && before[..m] == ops[..m];
        }
      }
    }
  }

  /** Call `n` of a run answers as in the run of the namespace. */
  ghost predicate SameAnswer(root: nat, ops: seq<Op>, n: nat)
    requires 0 < root < INO_LIMIT && n < |ops|
  {
    var fs := NameOps.Run(root, ops[..n]);
    Permitted(fs, ops[n]) && NameOps.Step(fs, root, ops[n]).1 == SpecStep(SpecRun(root, ops[..n]), ops[n], OK).1
  }

  lemma RunBefore(root: nat, ops: seq<Op>)
    requires 0 < root < INO_LIMIT && VfsRun(root, ops) && ops != []
    requires forall n: nat :: n < |ops| ==> SmallInsert(NameOps.Run(root, ops[..n]), ops[n])
    ensures var before := ops[..|ops| - 1];
            && VfsRun(root, before)
            && forall n: nat :: n < |before| ==> SmallInsert(NameOps.Run(root, before[..n]), before[n])
  {
    hide VfsAllows, Within, NameOps.Run, SmallInsert;
    var before := ops[..|ops| - 1];
    forall n: nat | n < |before|
      ensures VfsCall(root, before, n) && SmallInsert(NameOps.Run(root, before[..n]), before[n])
    {
      assert before[..n] == ops[..n] && before[n] == ops[n];
      assert VfsCall(root, ops, n);
    }
  }
}
