/** The mapping counts that the calls of namei.c leave behind: which inodes each call maps and unmaps, on every one
    of its paths. */
module MapCalls {
  import opened DirRecords
  import opened DirRuns
  import NameEffects
  import NameGraph
  import opened Namespace
  import opened NameOps
  import opened Areas

  function Ups(us: seq<nat>): seq<MapCall> {
    if us == [] then [] else Ups(us[..|us| - 1]) + [Up(us[|us| - 1])]
  }

  function Downs(ds: seq<nat>): seq<MapCall> {
    if ds == [] then [] else Downs(ds[..|ds| - 1]) + [Down(ds[|ds| - 1])]
  }

  lemma OneMoreCall(c: int, calls: seq<MapCall>, call: MapCall, j: nat)
    ensures var n := CountAfter(c, calls, j);
            CountAfter(c, calls + [call], j) ==
            if call.i != j then n else if call.Up? then n + 1 else if n > 0 then n - 1 else 0
  {
    assert (calls + [call])[..|calls|] == calls;
  }

  lemma {:induction false} OnlyUps(c: nat, us: seq<nat>, j: nat)
    ensures CountAfter(c, Ups(us), j) == c + multiset(us)[j]
  {
    if us != [] {
      var m := |us| - 1;
      OnlyUps(c, us[..m], j);
      assert us == us[..m] + [us[m]];
      OneMoreCall(c, Ups(us[..m]), Up(us[m]), j);
    }
  }

  /** Mappings of `us`, then unmappings of `ds`, on a count of `c`. */
  lemma {:induction false} UpsThenDowns(c: nat, us: seq<nat>, ds: seq<nat>, j: nat)
    ensures var n := c + multiset(us)[j] - multiset(ds)[j];
            CountAfter(c, Ups(us) + Downs(ds), j) == if n > 0 then n else 0
    decreases |ds|
  {
    hide CountAfter;
    OnlyUps(c, us, j);
    if ds == [] {
      assert Ups(us) + [] == Ups(us);
    } else {
      var m := |ds| - 1;
      UpsThenDowns(c, us, ds[..m], j);
      assert ds == ds[..m] + [ds[m]];
      var calls := Ups(us) + Downs(ds[..m]);
      assert Ups(us) + Downs(ds) == calls + [Down(ds[m])];
      OneMoreCall(c, calls, Down(ds[m]), j);
    }
  }

  /** How far a rename gets. */
  datatype Stage = NotFound | NotEmpty | NotEntered | Done

  ghost function StageOf(fs: Fs, op: Op): Stage
    requires op.OpRename? && Permitted(fs, op)
  {
    if Find(fs.dirs[op.d], op.n) >= |fs.dirs[op.d]| then NotFound
    else if op.exist && op.i in fs.dirs && !EmptyRecs(fs.dirs[op.t], op.t) then NotEmpty
    else if (op.exist && Find(fs.dirs[op.nd], op.nn) >= |fs.dirs[op.nd]|) ||
            (!op.exist && AddLink(fs.dirs[op.nd], op.nn, op.i, op.ftype).err != OK) then NotEntered
    else Done
  }

  /** The inodes that a rename maps, and those it unmaps: the old directory `d`, a moved directory, a replaced inode,
      and the new directory `nd`, as far as it gets. */
  function RenameMaps(stage: Stage, d: nat, nd: nat, moved: seq<nat>, replaced: seq<nat>): (m: (seq<nat>, seq<nat>))
    ensures multiset(m.0) == multiset(m.1)
  {
    match stage
    case NotFound => ([d], [d])
    case NotEmpty => ([d] + moved + replaced, replaced + moved + [d])
    case NotEntered => ([d] + moved + replaced + [nd], [nd] + replaced + moved + [d])
    case Done => ([d] + moved + replaced + [nd], replaced + moved + [d] + [nd])
  }

  /** The inodes that a call maps, and those it unmaps. */
  ghost function Maps(fs: Fs, op: Op): (seq<nat>, seq<nat>)
    requires Permitted(fs, op)
  {
    match op
    case OpCreate(d, n, i, ftype, avail) => if avail then ([d], [d]) else ([], [])
    case OpLink(d, n, i, ftype) => ([d], [d])
    case OpUnlink(d, n, i) => ([d], [d])
    case OpMkdir(d, n, i, avail) => if avail then ([d, i], [i, d]) else ([], [d])
    case OpRmdir(d, n, i) => if EmptyRecs(fs.dirs[i], i) then ([i, d], [d, i]) else ([i], [i])
    case OpRename(d, n, nd, nn, i, ftype, exist, t) =>
      RenameMaps(StageOf(fs, op), d, nd, if i in fs.dirs then [i] else [], if exist then [t] else [])
  }

  /** A call leaves every mapping count as it was, except that a directory creation that finds no free inode takes a
      mapping away from a directory that others have mapped. */
  lemma CallBalancedIff(fs: Fs, op: Op, c: nat, j: nat)
    requires Permitted(fs, op)
    ensures CountAfter(c, Ups(Maps(fs, op).0) + Downs(Maps(fs, op).1), j) == c <==>
            !(op.OpMkdir? && !op.avail && j == op.d && c > 0)
  {
    hide Permitted, StageOf, RenameMaps, EmptyRecs, Ups, Downs, CountAfter;
    var (us, ds) := Maps(fs, op);
    UpsThenDowns(c, us, ds, j);
  }

  // ----- what is mapped is what is used -----

  /** The stage that a rename gets to is its answer. */
  lemma StageIsAnswer(fs: Fs, root: nat, op: Op)
    requires op.OpRename? && NameOps.Ok(fs, root) && Permitted(fs, op)
    ensures var err := NameOps.Step(fs, root, op).1;
            match StageOf(fs, op)
            case NotFound => err == ENOENT
            case NotEmpty => err == ENOTEMPTY
            case NotEntered =>
              err != OK && err == if op.exist then ENOENT else AddLink(fs.dirs[op.nd], op.nn, op.i, op.ftype).err
            case Done => err == OK
  {
    hide NameOps.Ok, AddLink, EmptyRecs, Find, NameGraph.Moved, NameGraph.Cleared, Renames, Renamed, Entered,
         NameGraph.Above, Fits;
  }

  lemma RenameFails(fs: Fs, root: nat, op: Op)
    requires op.OpRename? && NameOps.Ok(fs, root) && Permitted(fs, op) && NameOps.Step(fs, root, op).1 != OK
    ensures NameOps.Step(fs, root, op).0 == fs
  {
    hide NameOps.Ok, AddLink, EmptyRecs, Find, NameGraph.Moved, NameGraph.Cleared, Renames, Renamed, Entered,
         NameGraph.Above, Fits;
  }

  lemma RenameMapped(fs: Fs, op: Op)
    requires op.OpRename? && Permitted(fs, op) && StageOf(fs, op).Done?
    ensures op.d in Maps(fs, op).0 && op.nd in Maps(fs, op).0 && (op.i in fs.dirs ==> op.i in Maps(fs, op).0)
  {
    hide StageOf, Permitted;
  }

  lemma RenameChanges(fs: Fs, root: nat, op: Op, x: nat)
    requires op.OpRename? && NameOps.Ok(fs, root) && Permitted(fs, op) && x in fs.dirs
    ensures var fs' := NameOps.Step(fs, root, op).0;
            x in fs'.dirs && fs'.dirs[x] != fs.dirs[x] ==> x in Maps(fs, op).0
  {
    hide NameOps.Ok, Permitted, Move, StageOf, Maps;
    if NameOps.Step(fs, root, op).1 == OK {
      StageIsAnswer(fs, root, op);
      RenameMapped(fs, op);
      if x != op.d && x != op.nd && x != op.i {
        NameEffects.RenamedElsewhere(fs, root, op.d, op.n, op.nd, op.nn, op.i, op.ftype, op.exist, op.t, x);
      }
    } else {
      RenameFails(fs, root, op);
    }
  }

  /** Every directory whose records a call changes is among those it maps. */
  lemma ChangedIsMapped(fs: Fs, root: nat, op: Op, x: nat)
    requires NameOps.Ok(fs, root) && Permitted(fs, op) && x in fs.dirs
    ensures var fs' := NameOps.Step(fs, root, op).0;
            x in fs'.dirs && fs'.dirs[x] != fs.dirs[x] ==> x in Maps(fs, op).0
  {
    if op.OpRename? {
      hide *;
      RenameChanges(fs, root, op, x);
    } else {
      hide NameOps.Ok, AddLink, EmptyRecs, EmptyDir, DeleteEntry, Fits, NameGraph.Mkdir, NameGraph.Rmdir;
    }
  }

  /** File systems that differ in the records of directories other than `us`. */
  ghost predicate AgreeOn(fs: Fs, fs': Fs, us: seq<nat>) {
    && fs'.nlink == fs.nlink && fs'.names == fs.names && fs'.home == fs.home && fs'.dirs.Keys == fs.dirs.Keys
    && forall x :: x in us && x in fs.dirs ==> fs'.dirs[x] == fs.dirs[x]
  }

  lemma RenameReads(fs: Fs, fs': Fs, op: Op)
    requires op.OpRename? && Permitted(fs, op) && Permitted(fs', op) && AgreeOn(fs, fs', Maps(fs, op).0)
    ensures StageOf(fs', op) == StageOf(fs, op) && Maps(fs', op) == Maps(fs, op)
  {
    hide AddLink, EmptyRecs, Find, NameGraph.Above, Fits, MergesFit;
    var us := Maps(fs, op).0;
    assert op.d in us;
    if !StageOf(fs, op).NotFound? {
      assert op.exist ==> op.t in us;
      assert !StageOf(fs, op).NotEmpty? ==> op.nd in us;
    }
  }

  /** What a call answers and how far it gets depends on no records but those of the directories that it maps. */
  lemma ReadIsMapped(fs: Fs, fs': Fs, op: Op)
    requires Permitted(fs, op) && Permitted(fs', op) && AgreeOn(fs, fs', Maps(fs, op).0)
    ensures Maps(fs', op) == Maps(fs, op)
    ensures match op
            case OpCreate(d, n, i, ftype, avail) =>
              Create(fs', d, n, i, ftype, avail).1 == Create(fs, d, n, i, ftype, avail).1 &&
              Create(fs', d, n, i, ftype, avail).0.names == Create(fs, d, n, i, ftype, avail).0.names
            case OpLink(d, n, i, ftype) => Link(fs', d, n, i, ftype).1 == Link(fs, d, n, i, ftype).1
            case OpUnlink(d, n, i) => Unlink(fs', d, n, i).1 == Unlink(fs, d, n, i).1
            case OpMkdir(d, n, i, avail) => MakeDir(fs', d, n, i, avail).1 == MakeDir(fs, d, n, i, avail).1
            case OpRmdir(d, n, i) =>
              EmptyRecs(fs'.dirs[i], i) == EmptyRecs(fs.dirs[i], i) &&
              (EmptyRecs(fs.dirs[i], i) ==> DeleteEntry(fs'.dirs[d], n) == DeleteEntry(fs.dirs[d], n))
            case OpRename(_, _, _, _, _, _, _, _) => StageOf(fs', op) == StageOf(fs, op)
  {
    hide AddLink, EmptyRecs, EmptyDir, DeleteEntry, Fits, Find, NameGraph.Mkdir, NameGraph.Above;
    var us := Maps(fs, op).0;
    match op
    case OpCreate(d, n, i, ftype, avail) => assert avail ==> d in us;
    case OpLink(d, n, i, ftype) => assert d in us;
    case OpUnlink(d, n, i) => assert d in us;
    case OpMkdir(d, n, i, avail) => assert avail ==> d in us;
    case OpRmdir(d, n, i) => assert i in us && (EmptyRecs(fs.dirs[i], i) ==> d in us);
    case OpRename(_, _, _, _, _, _, _, _) => RenameReads(fs, fs', op);
  }
}
