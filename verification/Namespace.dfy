/** namei.c: the operations on names, over directories kept as records (dir.c) and link counts. */
module Namespace {
  import opened Bytes
  import opened DirRecords
  import opened DirRuns
  import opened Directory
  import opened Machine
  import opened NameGraph

  const INO_LIMIT := 0x1_0000_0000

  function Lab(n: Name): Label {
    if n == DOT then Self else if n == DOTDOT then Up else Child(n)
  }

  function NameOf(l: Label): Name {
    match l
    case Self => DOT
    case Up => DOTDOT
    case Child(n) => n
  }

  predicate Proper(n: Name) {
    n != DOT && n != DOTDOT && 0 < |n| <= MAX_NAME
  }

  // ----- directories and names -----

  /** The map `m` holds the names of directory `d` in `b`. */
  ghost predicate MapMatches(m: map<Name, nat>, b: Names, d: nat) {
    && (forall n :: n in m ==> Key(d, Lab(n)) in b && b[Key(d, Lab(n))] == m[n])
    && (forall k :: k in b && k.dir == d ==> NameOf(k.lab) in m && Lab(NameOf(k.lab)) == k.lab)
  }

  /** The records `rs` are those of directory `d` in the names `b`. */
  ghost predicate MatchDir(rs: seq<Rec>, b: Names, d: nat) {
    DirOk(rs) && Size(rs) <= MAX_DIR_SIZE && MapMatches(Entries(rs), b, d)
  }

  predicate LiveDir(dirs: map<nat, seq<Rec>>, nl: map<nat, nat>, d: nat) {
    d in dirs && Count(nl, d) > 0
  }

  ghost predicate DirMatches(dirs: map<nat, seq<Rec>>, nl: map<nat, nat>, b: Names, d: nat) {
    LiveDir(dirs, nl, d) ==> MatchDir(dirs[d], b, d)
  }

  /** The live directories hold exactly the names. */
  ghost predicate Matches(dirs: map<nat, seq<Rec>>, nl: map<nat, nat>, b: Names) {
    && (forall d: nat :: DirMatches(dirs, nl, b, d))
    && (forall k :: k in b ==> LiveDir(dirs, nl, k.dir) && 0 < b[k] < INO_LIMIT)
  }

  lemma MapIff(m: map<Name, nat>, b: Names, d: nat, n: Name)
    requires MapMatches(m, b, d)
    ensures n in m <==> Key(d, Lab(n)) in b
    ensures n in m ==> m[n] == b[Key(d, Lab(n))]
  {
    var k := Key(d, Lab(n));
    if k in b {
      assert NameOf(k.lab) == n;
    }
  }

  lemma MapBind(m: map<Name, nat>, b: Names, d: nat, n: Name, i: nat)
    requires MapMatches(m, b, d)
    ensures MapMatches(m[n := i], b[Key(d, Lab(n)) := i], d)
  {
    assert NameOf(Lab(n)) == n;
  }

  lemma MapDrop(m: map<Name, nat>, b: Names, d: nat, n: Name)
    requires MapMatches(m, b, d)
    ensures MapMatches(m - {n}, b - {Key(d, Lab(n))}, d)
  {
    assert NameOf(Lab(n)) == n;
  }

  lemma MapOther(m: map<Name, nat>, b: Names, c: Names, d: nat)
    requires MapMatches(m, b, d)
    requires forall k: Key :: k.dir == d ==> (k in b <==> k in c) && (k in b ==> c[k] == b[k])
    ensures MapMatches(m, c, d)
  {
    forall n | n in m
      ensures Key(d, Lab(n)) in c && c[Key(d, Lab(n))] == m[n]
    {
      assert Key(d, Lab(n)) in b;
    }
  }

  lemma EntryIff(rs: seq<Rec>, b: Names, d: nat, n: Name)
    requires MatchDir(rs, b, d)
    ensures Unique(rs) && (n in Entries(rs) <==> Key(d, Lab(n)) in b)
    ensures n in Entries(rs) ==> Entries(rs)[n] == b[Key(d, Lab(n))]
  {
    hide Entries, Unique, Size, MapMatches;
    MapIff(Entries(rs), b, d, n);
  }

  /** Names of other directories do not matter. */
  lemma MatchOther(rs: seq<Rec>, b: Names, c: Names, d: nat)
    requires MatchDir(rs, b, d)
    requires forall k: Key :: k.dir == d ==> (k in b <==> k in c) && (k in b ==> c[k] == b[k])
    ensures MatchDir(rs, c, d)
  {
    hide Entries, Unique, Size, MapMatches;
    MapOther(Entries(rs), b, c, d);
  }

  lemma MatchAdd(rs: seq<Rec>, b: Names, d: nat, n: Name, i: nat, ftype: Byte)
    requires MatchDir(rs, b, d) && Proper(n) && Key(d, Child(n)) !in b && i != 0
    ensures var o := AddLink(rs, n, i, ftype);
            if o.err == OK then MatchDir(o.rs, b[Key(d, Child(n)) := i], d) else o.rs == rs
  {
    hide DirOk, Entries, Size, AddLink, MapMatches, Unique, Absent;
    DirSize(rs);
    EntryIff(rs, b, d, n);
    FindReadsEntries(rs, n);
    AddLinkRefines(rs, n, i, ftype);
    MapBind(Entries(rs), b, d, n, i);
  }

  /** The merge of a delete fits the 16-bit length. */
  predicate Fits(rs: seq<Rec>, n: Name) {
    var k := Find(rs, n);
    0 < k < |rs| ==> rs[k - 1].recLen + rs[k].recLen < REC_LEN_LIMIT
  }

  lemma MatchDelete(rs: seq<Rec>, b: Names, d: nat, n: Name)
    requires MatchDir(rs, b, d) && Proper(n) && Fits(rs, n)
    ensures var o := DeleteEntry(rs, n);
            && MatchDir(o.rs, b - {Key(d, Child(n))}, d)
            && (o.err == OK <==> Key(d, Child(n)) in b)
            && (o.err != OK ==> o.err == ENOENT && o.rs == rs)
  {
    hide DirOk, Entries, Size, DeleteEntry, MapMatches, Unique, Find;
    DirSize(rs);
    EntryIff(rs, b, d, n);
    DeleteRefines(rs, n);
    MapDrop(Entries(rs), b, d, n);
  }

  lemma MatchRelink(rs: seq<Rec>, b: Names, d: nat, at: nat, i: nat, ftype: Byte)
    requires MatchDir(rs, b, d) && 0 < at < |rs| && Live(rs[at]) && i != 0
    ensures MatchDir(Relinked(rs, at, i, ftype), b[Key(d, Lab(rs[at].name)) := i], d)
  {
    hide DirOk, Entries, Size, Relinked, MapMatches, Unique;
    DirSize(rs);
    RelinkKeeps(rs, at, i, ftype);
    MapBind(Entries(rs), b, d, rs[at].name, i);
  }

  lemma RelinkKeeps(rs: seq<Rec>, at: nat, i: nat, ftype: Byte)
    requires DirOk(rs) && 0 < at < |rs| && Live(rs[at]) && i != 0
    ensures var rs' := Relinked(rs, at, i, ftype);
            DirOk(rs') && Size(rs') == Size(rs) && Entries(rs') == Entries(rs)[rs[at].name := i]
  {
    hide Entries, Unique, Off, AllOk;
    var rs' := Relinked(rs, at, i, ftype);
    RelinkEntries(rs, at, i, ftype);
    RelinkOk(rs, at, i, ftype);
    SameOffsets(rs, rs', |rs|);
  }

  lemma RelinkOk(rs: seq<Rec>, at: nat, i: nat, ftype: Byte)
    requires AllOk(rs) && at < |rs| && i != 0
    ensures AllOk(Relinked(rs, at, i, ftype))
  {
    hide RecLen;
  }

  lemma {:induction false} SameOffsets(rs: seq<Rec>, qs: seq<Rec>, i: nat)
    requires |rs| == |qs| && i <= |rs| && forall j: nat :: j < |rs| ==> rs[j].recLen == qs[j].recLen
    ensures Off(rs, i) == Off(qs, i)
  {
    if i > 0 {
      SameOffsets(rs, qs, i - 1);
    }
  }

  lemma MatchNew(b: Names, d: nat, up: nat)
    requires d != 0 && up != 0 && Key(d, Self) in b && b[Key(d, Self)] == d && Key(d, Up) in b && b[Key(d, Up)] == up
    requires NoChildren(b, d)
    ensures MatchDir(EmptyDir(d, up), b, d)
  {
    hide DirOk, Entries, Size, EmptyDir, Unique;
    EmptyDirOk(d, up);
    DirSize(EmptyDir(d, up));
  }

  /** The test of `rdfs_empty_dir` asks whether the directory has children. */
  lemma EmptyIff(rs: seq<Rec>, b: Names, d: nat)
    requires MatchDir(rs, b, d) && Key(d, Self) in b && b[Key(d, Self)] == d
    ensures (forall k: nat :: k < |rs| ==> Plain(rs[k], d)) <==> NoChildren(b, d)
  {
    EntryIff(rs, b, d, DOT);
    FrontEntries(rs);
    if forall k: nat :: k < |rs| ==> Plain(rs[k], d) {
      AllPlain(rs, d);
      hide DirOk, Entries;
      forall k | k in b && k.dir == d
        ensures !k.lab.Child?
      {
        assert NameOf(k.lab) in Entries(rs).Keys;
      }
    } else {
      var k: nat :| k < |rs| && !Plain(rs[k], d);
      NotPlain(rs, d, k);
      hide DirOk, Entries;
      var n :| n in Entries(rs) && n != DOT && n != DOTDOT;
      assert Key(d, Lab(n)) in b;
    }
  }

  lemma FrontEntries(rs: seq<Rec>)
    requires DirOk(rs)
    ensures DOT in Entries(rs) && DOTDOT in Entries(rs) && Entries(rs)[DOT] == rs[0].ino
    ensures Entries(rs)[DOTDOT] == rs[1].ino
  {
    assert Live(rs[0]) && Live(rs[1]);
  }

  // ----- file systems -----

  /** Directories, link counts and names agree, and the names form a tree. */
  ghost predicate FsOk(dirs: map<nat, seq<Rec>>, nl: map<nat, nat>, b: Names, home: map<nat, Key>, root: nat) {
    Matches(dirs, nl, b) && Links(b, nl) && Tree(b, home, root)
  }

  /** The names of directory `d` are the same in `b` and `c`. */
  ghost predicate SameNames(b: Names, c: Names, d: nat) {
    forall k: Key :: k.dir == d ==> (k in b <==> k in c) && (k in b ==> c[k] == b[k])
  }

  /** Directories that an operation does not touch still match. */
  lemma StillMatches(dirs: map<nat, seq<Rec>>, nl: map<nat, nat>, b: Names,
                     dirs': map<nat, seq<Rec>>, nl': map<nat, nat>, c: Names, d: nat)
    requires Matches(dirs, nl, b)
    requires LiveDir(dirs', nl', d) ==> LiveDir(dirs, nl, d) && dirs'[d] == dirs[d] && SameNames(b, c, d)
    ensures DirMatches(dirs', nl', c, d)
  {
    hide MatchDir;
    assert DirMatches(dirs, nl, b, d);
    if LiveDir(dirs', nl', d) {
      MatchOther(dirs[d], b, c, d);
    }
  }

  lemma DirFacts(dirs: map<nat, seq<Rec>>, nl: map<nat, nat>, b: Names, home: map<nat, Key>, root: nat, d: nat)
    requires FsOk(dirs, nl, b, home, root)
    ensures LiveDir(dirs, nl, d) <==> IsDir(b, d)
    ensures IsDir(b, d) ==> MatchDir(dirs[d], b, d) && b[Key(d, Self)] == d && 0 < d < INO_LIMIT
  {
    assert DirMatches(dirs, nl, b, d);
    if LiveDir(dirs, nl, d) {
      FrontEntries(dirs[d]);
      EntryIff(dirs[d], b, d, DOT);
    }
    assert KeyOk(b, home, root, Key(d, Self));
  }

  /** An inode without links can be made anything. */
  lemma Unnamed(b: Names, nl: map<nat, nat>, home: map<nat, Key>, root: nat, i: nat)
    requires Links(b, nl) && Tree(b, home, root) && Count(nl, i) == 0
    ensures Refs(b, i) == {} && !IsDir(b, i) && (forall k :: k in b ==> k.dir != i && b[k] != i)
  {
    assert Count(nl, i) == |Refs(b, i)|;
    forall k | k in b
      ensures k.dir != i && b[k] != i
    {
      assert k !in Refs(b, i);
      assert KeyOk(b, home, root, k);
      assert Key(k.dir, Self) !in Refs(b, i);
    }
  }

  /** Link counts that agree, and other records for an inode without links, change nothing. */
  lemma Retouch(dirs: map<nat, seq<Rec>>, nl: map<nat, nat>, b: Names, home: map<nat, Key>, root: nat,
                dirs': map<nat, seq<Rec>>, nl': map<nat, nat>)
    requires FsOk(dirs, nl, b, home, root) && forall i: nat :: Count(nl', i) == Count(nl, i)
    requires forall d: nat :: Count(nl, d) > 0 ==> (d in dirs' <==> d in dirs) && (d in dirs ==> dirs'[d] == dirs[d])
    ensures FsOk(dirs', nl', b, home, root)
  {
    hide Links, Tree;
    LinksAgree(b, nl, nl');
    forall d: nat
      ensures DirMatches(dirs', nl', b, d)
    {
      assert Count(nl', d) == Count(nl, d);
      StillMatches(dirs, nl, b, dirs', nl', b, d);
    }
    assert forall k :: k in b ==> Count(nl', k.dir) == Count(nl, k.dir);
  }

  /** A new entry for inode `i`, which is no directory. */
  lemma BindOk(dirs: map<nat, seq<Rec>>, nl: map<nat, nat>, b: Names, home: map<nat, Key>, root: nat,
               d: nat, n: Name, i: nat, ftype: Byte)
    requires FsOk(dirs, nl, b, home, root) && LiveDir(dirs, nl, d) && Proper(n) && Key(d, Child(n)) !in b
    requires 0 < i < INO_LIMIT && i !in dirs && AddLink(dirs[d], n, i, ftype).err == OK
    ensures FsOk(dirs[d := AddLink(dirs[d], n, i, ftype).rs], Inc(nl, i), b[Key(d, Child(n)) := i], home, root)
  {
    hide Links, Tree, MatchDir, AddLink;
    var k, rs := Key(d, Child(n)), AddLink(dirs[d], n, i, ftype).rs;
    var dirs', nl', c := dirs[d := rs], Inc(nl, i), b[k := i];
    DirFacts(dirs, nl, b, home, root, d);
    DirFacts(dirs, nl, b, home, root, i);
    MatchAdd(dirs[d], b, d, n, i, ftype);
    LinksAdd(b, nl, k, i);
    BindTree(b, home, root, k, i);
    forall e: nat
      ensures DirMatches(dirs', nl', c, e)
    {
      if e != d {
        StillMatches(dirs, nl, b, dirs', nl', c, e);
      }
    }
  }

  /** An entry of directory `d` for an inode that is no directory goes. */
  lemma UnbindOk(dirs: map<nat, seq<Rec>>, nl: map<nat, nat>, b: Names, home: map<nat, Key>, root: nat, d: nat, n: Name)
    requires FsOk(dirs, nl, b, home, root) && LiveDir(dirs, nl, d) && Proper(n) && Fits(dirs[d], n)
    requires Key(d, Child(n)) in b && !IsDir(b, b[Key(d, Child(n))])
    ensures var k := Key(d, Child(n));
            FsOk(dirs[d := DeleteEntry(dirs[d], n).rs], Dec(nl, b[k]), b - {k}, home, root)
  {
    hide Links, Tree, MatchDir, DeleteEntry, Fits;
    var k, rs := Key(d, Child(n)), DeleteEntry(dirs[d], n).rs;
    var dirs', nl', c := dirs[d := rs], Dec(nl, b[k]), b - {k};
    DirFacts(dirs, nl, b, home, root, d);
    DirFacts(dirs, nl, b, home, root, b[k]);
    MatchDelete(dirs[d], b, d, n);
    LinksDrop(b, nl, k);
    UnbindTree(b, home, root, k);
    forall e: nat
      ensures DirMatches(dirs', nl', c, e)
    {
      if e != d {
        StillMatches(dirs, nl, b, dirs', nl', c, e);
      }
    }
    forall l | l in c
      ensures LiveDir(dirs', nl', l.dir)
    {
      DirFacts(dirs, nl, b, home, root, l.dir);
    }
  }

  lemma MkdirOk(dirs: map<nat, seq<Rec>>, nl: map<nat, nat>, b: Names, home: map<nat, Key>, root: nat,
                d: nat, n: Name, i: nat)
    requires FsOk(dirs, nl, b, home, root) && LiveDir(dirs, nl, d) && Proper(n) && Key(d, Child(n)) !in b
    requires 0 < i < INO_LIMIT && Count(nl, i) == 0 && AddLink(dirs[d], n, i, FT_DIR).err == OK
    ensures FsOk(dirs[i := EmptyDir(i, d)][d := AddLink(dirs[d], n, i, FT_DIR).rs], Inc(Inc(Inc(nl, d), i), i),
                 Mkdir(b, d, n, i), home[i := Key(d, Child(n))], root)
  {
    hide Links, Tree, MatchDir, AddLink, EmptyDir;
    var rs := AddLink(dirs[d], n, i, FT_DIR).rs;
    var dirs', nl', c := dirs[i := EmptyDir(i, d)][d := rs], Inc(Inc(Inc(nl, d), i), i), Mkdir(b, d, n, i);
    DirFacts(dirs, nl, b, home, root, d);
    Unnamed(b, nl, home, root, i);
    LinksMkdir(b, nl, d, n, i);
    MkdirTree(b, home, root, d, n, i);
    MatchAdd(dirs[d], b, d, n, i, FT_DIR);
    MatchOther(rs, b[Key(d, Child(n)) := i], c, d);
    MatchNew(c, i, d);
    forall e: nat
      ensures DirMatches(dirs', nl', c, e)
    {
      if e != d && e != i {
        StillMatches(dirs, nl, b, dirs', nl', c, e);
      }
    }
  }

  lemma RmdirOk(dirs: map<nat, seq<Rec>>, nl: map<nat, nat>, b: Names, home: map<nat, Key>, root: nat, d: nat, n: Name)
    requires FsOk(dirs, nl, b, home, root) && LiveDir(dirs, nl, d) && Proper(n) && Fits(dirs[d], n)
    requires var k := Key(d, Child(n)); k in b && IsDir(b, b[k]) && NoChildren(b, b[k])
    ensures var k := Key(d, Child(n));
            && FsOk(dirs[d := DeleteEntry(dirs[d], n).rs], Dec(Dec(Dec(nl, b[k]), b[k]), d), Rmdir(b, k), home, root)
            && b[k] != d && Count(Dec(Dec(nl, b[k]), b[k]), b[k]) == 0
  {
    hide Links, Tree, MatchDir, DeleteEntry, Fits;
    var k, rs := Key(d, Child(n)), DeleteEntry(dirs[d], n).rs;
    var i := b[k];
    var dirs', nl', c := dirs[d := rs], Dec(Dec(Dec(nl, i), i), d), Rmdir(b, k);
    assert i != d;
    DirFacts(dirs, nl, b, home, root, d);
    LinksRmdir(b, nl, home, root, k);
    RmdirTree(b, home, root, k);
    RmdirCounts(b, nl, home, root, k);
    MatchDelete(dirs[d], b, d, n);
    MatchOther(rs, b - {k}, c, d);
    forall e: nat
      ensures DirMatches(dirs', nl', c, e)
    {
      if e != d && e != i {
        StillMatches(dirs, nl, b, dirs', nl', c, e);
      }
    }
    forall l | l in c
      ensures LiveDir(dirs', nl', l.dir)
    {
      DirFacts(dirs, nl, b, home, root, l.dir);
      RmdirCountsOther(b, nl, home, root, k, l);
    }
  }

  /** Removing an empty directory leaves it without links. */
  lemma RmdirCounts(b: Names, nl: map<nat, nat>, home: map<nat, Key>, root: nat, k: Key)
    requires Links(b, nl) && Tree(b, home, root) && k in b && k.lab.Child? && IsDir(b, b[k]) && NoChildren(b, b[k])
    ensures Count(nl, b[k]) == 2 && b[k] != k.dir
  {
    EmptyRefs(b, home, root, k);
    assert Count(nl, b[k]) == |Refs(b, b[k])|;
  }

  /** Directories that still hold a name after a removal still have links. */
  lemma RmdirCountsOther(b: Names, nl: map<nat, nat>, home: map<nat, Key>, root: nat, k: Key, l: Key)
    requires Links(b, nl) && Tree(b, home, root) && k in b && k.lab.Child? && IsDir(b, b[k]) && NoChildren(b, b[k])
    requires l in Rmdir(b, k)
    ensures Count(Dec(Dec(Dec(nl, b[k]), b[k]), k.dir), l.dir) > 0
  {
    LinksRmdir(b, nl, home, root, k);
    RmdirTree(b, home, root, k);
    var c := Rmdir(b, k);
    assert KeyOk(c, home, root, l);
    Named(c, Dec(Dec(Dec(nl, b[k]), b[k]), k.dir), Key(l.dir, Self));
  }

  // ----- rename -----

  /** The records of the new directory once the new name is there. */
  function Entered(dirs: map<nat, seq<Rec>>, nd: nat, nn: Name, exist: bool, i: nat, ftype: Byte): map<nat, seq<Rec>>
    requires nd in dirs && (exist ==> Find(dirs[nd], nn) < |dirs[nd]|)
  {
    dirs[nd := if exist then Relinked(dirs[nd], Find(dirs[nd], nn), i, ftype) else AddLink(dirs[nd], nn, i, ftype).rs]
  }

  /** The directories after a rename: enter the new name, delete the old one, relink "..". */
  function Renamed(dirs: map<nat, seq<Rec>>, od: nat, on: Name, nd: nat, nn: Name, exist: bool, i: nat, ftype: Byte,
                   isdir: bool): map<nat, seq<Rec>>
    requires nd in dirs && od in dirs && (exist ==> Find(dirs[nd], nn) < |dirs[nd]|)
    requires isdir ==> i in dirs && |dirs[i]| >= 2 && i != nd && i != od
  {
    var dirs1 := Entered(dirs, nd, nn, exist, i, ftype);
    var dirs2 := dirs1[od := DeleteEntry(dirs1[od], on).rs];
    if isdir && od != nd then dirs2[i := Relinked(dirs2[i], 1, nd, FT_DIR)] else dirs2
  }

  /** The new directory, once the new name is there. */
  lemma EnterMatches(rs: seq<Rec>, b: Names, nd: nat, nn: Name, exist: bool, i: nat, ftype: Byte)
    requires MatchDir(rs, b, nd) && Proper(nn) && i != 0 && (exist <==> Key(nd, Child(nn)) in b)
    requires exist ==> Find(rs, nn) < |rs|
    requires !exist ==> AddLink(rs, nn, i, ftype).err == OK
    ensures MatchDir(Entered(map[nd := rs], nd, nn, exist, i, ftype)[nd], b[Key(nd, Child(nn)) := i], nd)
  {
    hide MatchDir, AddLink, Relinked;
    if exist {
      FoundBehind(rs, b, nd, nn);
      MatchRelink(rs, b, nd, Find(rs, nn), i, ftype);
    } else {
      MatchAdd(rs, b, nd, nn, i, ftype);
    }
  }

  lemma FoundBehind(rs: seq<Rec>, b: Names, d: nat, n: Name)
    requires MatchDir(rs, b, d) && Proper(n) && Find(rs, n) < |rs|
    ensures var k := Find(rs, n); k >= 2 && Live(rs[k]) && rs[k].name == n
  {
    VictimBehindFront(rs, n);
  }

  lemma FindIff(rs: seq<Rec>, b: Names, d: nat, n: Name)
    requires MatchDir(rs, b, d) && Proper(n)
    ensures Find(rs, n) <= |rs| && (Find(rs, n) < |rs| <==> Key(d, Child(n)) in b)
  {
    EntryIff(rs, b, d, n);
    FindReadsEntries(rs, n);
  }

  /** Both directories of a rename, once the new name is there and the old one gone. */
  lemma EndsMatch(dirs: map<nat, seq<Rec>>, b: Names, od: nat, on: Name, nd: nat, nn: Name, exist: bool, i: nat,
                  ftype: Byte)
    requires od in dirs && nd in dirs && MatchDir(dirs[od], b, od) && MatchDir(dirs[nd], b, nd)
    requires Proper(on) && Proper(nn) && i != 0 && (exist <==> Key(nd, Child(nn)) in b)
    requires exist ==> Find(dirs[nd], nn) < |dirs[nd]|
    requires !exist ==> AddLink(dirs[nd], nn, i, ftype).err == OK
    requires Fits(Entered(dirs, nd, nn, exist, i, ftype)[od], on)
    ensures var dirs1 := Entered(dirs, nd, nn, exist, i, ftype);
            var dirs2, b2 :=
              dirs1[od := DeleteEntry(dirs1[od], on).rs], b[Key(nd, Child(nn)) := i] - {Key(od, Child(on))};
            MatchDir(dirs2[od], b2, od) && MatchDir(dirs2[nd], b2, nd)
  {
    hide MatchDir, AddLink, Relinked, Fits, DeleteEntry;
    EnterMatches(dirs[nd], b, nd, nn, exist, i, ftype);
    var dirs1, b1 := Entered(dirs, nd, nn, exist, i, ftype), b[Key(nd, Child(nn)) := i];
    if od != nd {
      MatchOther(dirs[od], b, b1, od);
    }
    MatchDelete(dirs1[od], b1, od, on);
    if od != nd {
      MatchOther(dirs1[nd], b1, b1 - {Key(od, Child(on))}, nd);
    }
  }

  /** The second record of a directory is "..", so relinking it changes the parent. */
  lemma UpMatches(rs: seq<Rec>, b: Names, d: nat, up: nat)
    requires MatchDir(rs, b, d) && up != 0
    ensures |rs| >= 2 && MatchDir(Relinked(rs, 1, up, FT_DIR), b[Key(d, Up) := up], d)
  {
    assert Live(rs[1]) && rs[1].name == DOTDOT;
    MatchRelink(rs, b, d, 1, up, FT_DIR);
  }

  /** What `dirs2` and `dirs'` are in a rename of `from` to `to`: the two ends are done, and then ".." is. */
  ghost predicate Ends(dirs: map<nat, seq<Rec>>, b: Names, dirs2: map<nat, seq<Rec>>, dirs': map<nat, seq<Rec>>,
                       from: Key, to: Key)
    requires from in b
  {
    && from.dir in dirs2 && MatchDir(dirs2[from.dir], b[to := b[from]] - {from}, from.dir)
    && to.dir in dirs2 && MatchDir(dirs2[to.dir], b[to := b[from]] - {from}, to.dir)
    && (forall d: nat :: d != from.dir && d != to.dir ==>
          (d in dirs2 <==> d in dirs) && (d in dirs ==> dirs2[d] == dirs[d]))
    && if IsDir(b, b[from]) && from.dir != to.dir
       then b[from] in dirs2 && |dirs2[b[from]]| >= 2 &&
            dirs' == dirs2[b[from] := Relinked(dirs2[b[from]], 1, to.dir, FT_DIR)]
       else dirs' == dirs2
  }

  lemma RenamedMatches(dirs: map<nat, seq<Rec>>, nl: map<nat, nat>, b: Names, home: map<nat, Key>, root: nat,
                       dirs2: map<nat, seq<Rec>>, dirs': map<nat, seq<Rec>>, from: Key, to: Key, d: nat)
    requires FsOk(dirs, nl, b, home, root) && Movable(b, from, to) && Ends(dirs, b, dirs2, dirs', from, to)
    ensures from in Cleared(b, to)
    ensures DirMatches(dirs', Recounted(b, nl, from, to), Moved(Cleared(b, to), from, to), d)
  {
    hide MatchDir, Relinked, Links, Tree, Matches;
    var i := b[from];
    ReplacedGone(b, nl, home, root, from, to);
    var e, nl' := Moved(Cleared(b, to), from, to), Recounted(b, nl, from, to);
    if to in b && IsDir(b, b[to]) && d == b[to] {
      assert Count(nl', d) == 0;
    } else if IsDir(b, i) && from.dir != to.dir && d == i {
      MovedMatches(dirs, nl, b, home, root, dirs2, dirs', from, to);
    } else if d == from.dir || d == to.dir {
      MatchOther(dirs2[d], b[to := i] - {from}, e, d);
    } else {
      StillMatches(dirs, nl, b, dirs', nl', e, d);
    }
  }

  /** The directory that moves. */
  lemma MovedMatches(dirs: map<nat, seq<Rec>>, nl: map<nat, nat>, b: Names, home: map<nat, Key>, root: nat,
                     dirs2: map<nat, seq<Rec>>, dirs': map<nat, seq<Rec>>, from: Key, to: Key)
    requires FsOk(dirs, nl, b, home, root) && Movable(b, from, to) && Ends(dirs, b, dirs2, dirs', from, to)
    requires IsDir(b, b[from]) && from.dir != to.dir && from in Cleared(b, to)
    requires to in b && IsDir(b, b[to]) ==> b[from] != b[to]
    ensures DirMatches(dirs', Recounted(b, nl, from, to), Moved(Cleared(b, to), from, to), b[from])
  {
    hide MatchDir, Relinked, Links, Tree, Matches;
    var i, e := b[from], Moved(Cleared(b, to), from, to);
    DirFacts(dirs, nl, b, home, root, i);
    DirFacts(dirs, nl, b, home, root, to.dir);
    UpMatches(dirs[i], b, i, to.dir);
    MatchOther(dirs'[i], b[Key(i, Up) := to.dir], e, i);
  }

  /** A directory that a rename replaces loses both its links. */
  lemma ReplacedGone(b: Names, nl: map<nat, nat>, home: map<nat, Key>, root: nat, from: Key, to: Key)
    requires Links(b, nl) && Tree(b, home, root) && Movable(b, from, to)
    ensures from in Cleared(b, to) && from != to
    ensures to in b && IsDir(b, b[to]) ==> Count(nl, b[to]) == 2 && b[to] != to.dir && b[to] != from.dir
  {
    if to in b && IsDir(b, b[to]) {
      RmdirCounts(b, nl, home, root, to);
    }
  }

  lemma RenamedLive(dirs: map<nat, seq<Rec>>, nl: map<nat, nat>, b: Names, home: map<nat, Key>, root: nat,
                    dirs2: map<nat, seq<Rec>>, dirs': map<nat, seq<Rec>>, from: Key, to: Key, k: Key)
    requires FsOk(dirs, nl, b, home, root) && Movable(b, from, to) && Ends(dirs, b, dirs2, dirs', from, to)
    requires from in Cleared(b, to) && k in Moved(Cleared(b, to), from, to)
    ensures LiveDir(dirs', Recounted(b, nl, from, to), k.dir) && 0 < Moved(Cleared(b, to), from, to)[k] < INO_LIMIT
  {
    hide MatchDir, Relinked, Links;
    var e, nl' := Moved(Cleared(b, to), from, to), Recounted(b, nl, from, to);
    RenameKeeps(b, nl, home, root, from, to);
    var h := if IsDir(b, b[from]) then home[b[from] := to] else home;
    assert KeyOk(e, h, root, k);
    Named(e, nl', Key(k.dir, Self));
    DirFacts(dirs, nl, b, home, root, k.dir);
    DirFacts(dirs, nl, b, home, root, to.dir);
  }

  /** The operands of a rename, as the VFS hands them down. */
  ghost predicate Renames(dirs: map<nat, seq<Rec>>, nl: map<nat, nat>, b: Names,
                          od: nat, on: Name, nd: nat, nn: Name, i: nat, ftype: Byte)
  {
    && LiveDir(dirs, nl, od) && LiveDir(dirs, nl, nd) && Proper(on) && Proper(nn)
    && Movable(b, Key(od, Child(on)), Key(nd, Child(nn))) && i == b[Key(od, Child(on))]
    && (if Key(nd, Child(nn)) in b then Find(dirs[nd], nn) < |dirs[nd]| else AddLink(dirs[nd], nn, i, ftype).err == OK)
    && Fits(Entered(dirs, nd, nn, Key(nd, Child(nn)) in b, i, ftype)[od], on)
    && (IsDir(b, i) ==> i in dirs && |dirs[i]| >= 2)
  }

  lemma RenameEnds(dirs: map<nat, seq<Rec>>, nl: map<nat, nat>, b: Names, home: map<nat, Key>, root: nat,
                   od: nat, on: Name, nd: nat, nn: Name, i: nat, ftype: Byte)
    requires FsOk(dirs, nl, b, home, root) && Renames(dirs, nl, b, od, on, nd, nn, i, ftype)
    ensures var from, to := Key(od, Child(on)), Key(nd, Child(nn));
            var dirs1 := Entered(dirs, nd, nn, to in b, i, ftype);
            Ends(dirs, b, dirs1[od := DeleteEntry(dirs1[od], on).rs],
                 Renamed(dirs, od, on, nd, nn, to in b, i, ftype, IsDir(b, i)), from, to)
  {
    hide MatchDir, AddLink, Relinked, Fits, DeleteEntry, Find;
    DirFacts(dirs, nl, b, home, root, od);
    DirFacts(dirs, nl, b, home, root, nd);
    EndsMatch(dirs, b, od, on, nd, nn, Key(nd, Child(nn)) in b, i, ftype);
  }

  /** A rename keeps directories, link counts and names in step. */
  lemma RenameOk(dirs: map<nat, seq<Rec>>, nl: map<nat, nat>, b: Names, home: map<nat, Key>, root: nat,
                 od: nat, on: Name, nd: nat, nn: Name, i: nat, ftype: Byte)
    requires FsOk(dirs, nl, b, home, root) && Renames(dirs, nl, b, od, on, nd, nn, i, ftype)
    ensures var from, to := Key(od, Child(on)), Key(nd, Child(nn));
            && from in Cleared(b, to)
            && FsOk(Renamed(dirs, od, on, nd, nn, to in b, i, ftype, IsDir(b, i)), Recounted(b, nl, from, to),
                    Moved(Cleared(b, to), from, to), if IsDir(b, i) then home[i := to] else home, root)
  {
    hide MatchDir, AddLink, Relinked, Fits, DeleteEntry, Links, Tree, Find;
    var from, to := Key(od, Child(on)), Key(nd, Child(nn));
    RenameKeeps(b, nl, home, root, from, to);
    RenameEnds(dirs, nl, b, home, root, od, on, nd, nn, i, ftype);
    var e, nl' := Moved(Cleared(b, to), from, to), Recounted(b, nl, from, to);
    var dirs1 := Entered(dirs, nd, nn, to in b, i, ftype);
    var dirs2 := dirs1[od := DeleteEntry(dirs1[od], on).rs];
    var dirs' := Renamed(dirs, od, on, nd, nn, to in b, i, ftype, IsDir(b, i));
    hide Ends, Renamed, Entered, Moved, Cleared, Recounted;
    forall d: nat
      ensures DirMatches(dirs', nl', e, d)
    {
      RenamedMatches(dirs, nl, b, home, root, dirs2, dirs', from, to, d);
    }
    forall k | k in e
      ensures LiveDir(dirs', nl', k.dir) && 0 < e[k] < INO_LIMIT
    {
      RenamedLive(dirs, nl, b, home, root, dirs2, dirs', from, to, k);
    }
  }
}
