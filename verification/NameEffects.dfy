/** What each call of namei.c answers and does, in terms of names: exactly when it succeeds, the condition of each
    error, which names are bound afterwards to which inodes with which file types, and the link counts. */
module NameEffects {
  import opened Bytes
  import opened DirRecords
  import opened DirRuns
  import opened DirTypes
  import opened Directory
  import opened Machine
  import opened NameGraph
  import opened NameOps
  import opened Namespace

  /** A lookup of name `k` finds a record with inode `i` and file type `t`. */
  predicate Says(fs: Fs, k: Key, i: nat, t: Byte) {
    k.dir in fs.dirs && Typed(fs.dirs[k.dir], NameOf(k.lab), i, t)
  }

  /** A lookup of name `k` finds the same inode and file type as before. */
  ghost predicate Keeps(fs: Fs, fs': Fs, k: Key) {
    forall i: nat, t: Byte :: Says(fs', k, i, t) <==> Says(fs, k, i, t)
  }

  /** Every link count but those of the inodes `which` is what it was. */
  ghost predicate OnlyCounts(fs: Fs, fs': Fs, which: set<nat>) {
    forall j: nat :: j !in which ==> Count(fs'.nlink, j) == Count(fs.nlink, j)
  }

  lemma DirUnique(fs: Fs, root: nat, d: nat)
    requires Ok(fs, root) && LiveDir(fs.dirs, fs.nlink, d)
    ensures Unique(fs.dirs[d])
    ensures forall n :: Proper(n) && Key(d, Child(n)) !in fs.names ==> Absent(fs.dirs[d], n)
  {
    hide Matches, Links, Tree, MatchDir;
    DirFacts(fs.dirs, fs.nlink, fs.names, fs.home, root, d);
    EntryIff(fs.dirs[d], fs.names, d, DOT);
    hide Unique, Entries, Absent;
    forall n | Proper(n) && Key(d, Child(n)) !in fs.names
      ensures Absent(fs.dirs[d], n)
    {
      EntryIff(fs.dirs[d], fs.names, d, n);
      FindReadsEntries(fs.dirs[d], n);
    }
  }

  /** A new name in directory `d`: it is found with its inode and type, and the other names keep theirs. */
  lemma AddSays(fs: Fs, root: nat, fs': Fs, d: nat, n: Name, i: nat, ftype: Byte, l: Key)
    requires Ok(fs, root) && LiveDir(fs.dirs, fs.nlink, d) && Proper(n) && Key(d, Child(n)) !in fs.names && i != 0
    requires AddLink(fs.dirs[d], n, i, ftype).err == OK
    requires d in fs'.dirs && fs'.dirs[d] == AddLink(fs.dirs[d], n, i, ftype).rs
    requires l in fs.names && l.dir != d ==> SameDir(fs, fs', l.dir)
    ensures Says(fs', Key(d, Child(n)), i, ftype)
    ensures l in fs.names ==> Keeps(fs, fs', l)
  {
    DirUnique(fs, root, d);
    hide Ok, AddLink, Unique, Absent, Typed;
    AddTyped(fs.dirs[d], n, i, ftype, n, i, ftype);
    if l in fs.names && l.dir == d {
      var m := NameOf(l.lab);
      NameLab(fs, root, l);
      forall j: nat, t: Byte
        ensures Says(fs', l, j, t) <==> Says(fs, l, j, t)
      {
        AddTyped(fs.dirs[d], n, i, ftype, m, j, t);
      }
    }
  }

  /** The records of directory `d` are what they were. */
  predicate SameDir(fs: Fs, fs': Fs, d: nat) {
    d in fs.dirs && d in fs'.dirs && fs'.dirs[d] == fs.dirs[d]
  }

  /** The label of a bound name is that of its bytes. */
  lemma NameLab(fs: Fs, root: nat, k: Key)
    requires Ok(fs, root) && k in fs.names
    ensures Lab(NameOf(k.lab)) == k.lab && LiveDir(fs.dirs, fs.nlink, k.dir)
  {
    hide Links, Tree;
    assert LiveDir(fs.dirs, fs.nlink, k.dir);
    assert DirMatches(fs.dirs, fs.nlink, fs.names, k.dir);
  }

  lemma SmallInserts(fs: Fs, root: nat, d: nat, n: Name, i: nat, ftype: Byte)
    requires Ok(fs, root) && LiveDir(fs.dirs, fs.nlink, d) && Proper(n) && Key(d, Child(n)) !in fs.names && i != 0
    ensures var o := AddLink(fs.dirs[d], n, i, ftype);
            (o.err != OK ==> o.err in {EIO, EINVAL}) && (Size(fs.dirs[d]) <= 14 * PAGE_SIZE ==> o.err == OK)
  {
    hide Links, Tree, Matches, AddLink, Entries, Unique, Absent;
    DirFacts(fs.dirs, fs.nlink, fs.names, fs.home, root, d);
    DirUnique(fs, root, d);
    AddLinkRefines(fs.dirs[d], n, i, ftype);
  }

  // ----- create and link -----

  lemma CreateSays(fs: Fs, root: nat, d: nat, n: Name, i: nat, ftype: Byte, avail: bool, l: Key)
    requires Ok(fs, root) && Permitted(fs, OpCreate(d, n, i, ftype, avail))
    ensures var fs' := Create(fs, d, n, i, ftype, avail).0;
            && (avail && AddLink(fs.dirs[d], n, i, ftype).err == OK ==> Says(fs', Key(d, Child(n)), i, ftype))
            && (l in fs.names ==> Keeps(fs, fs', l))
  {
    hide Ok, AddLink, Says;
    var fs' := Create(fs, d, n, i, ftype, avail).0;
    if l in fs.names {
      NameLab(fs, root, l);
    }
    if avail {
      assert SameDir(fs, Fs(fs.dirs - {i}, fs.nlink, fs.names, fs.home), d);
      if AddLink(fs.dirs[d], n, i, ftype).err == OK {
        AddSays(fs, root, fs', d, n, i, ftype, l);
      } else {
        AddFails(fs, root, d, n, i, ftype);
      }
    }
    hide Create;
    if l in fs.names && SameDir(fs, fs', l.dir) {
      SameSays(fs, fs', l);
    }
  }

  lemma SameSays(fs: Fs, fs': Fs, k: Key)
    requires SameDir(fs, fs', k.dir)
    ensures Keeps(fs, fs', k)
  {
  }

  lemma LinkSays(fs: Fs, root: nat, d: nat, n: Name, i: nat, ftype: Byte, l: Key)
    requires Ok(fs, root) && Permitted(fs, OpLink(d, n, i, ftype))
    ensures var (fs', err) := Link(fs, d, n, i, ftype);
            && (err == OK ==> Says(fs', Key(d, Child(n)), i, ftype))
            && (l in fs.names ==> Keeps(fs, fs', l))
  {
    hide Ok, AddLink, Says;
    var (fs', err) := Link(fs, d, n, i, ftype);
    if l in fs.names {
      NameLab(fs, root, l);
    }
    if err == OK {
      AddSays(fs, root, fs', d, n, i, ftype, l);
    } else {
      AddFails(fs, root, d, n, i, ftype);
      if l in fs.names {
        SameSays(fs, fs', l);
      }
    }
  }

  /** A link succeeds exactly when its insert does, which up to 14 pages is always, and answers the insert's error
      otherwise.  Then exactly the one name is added, and the inode has one link more. */
  lemma LinkEffect(fs: Fs, root: nat, d: nat, n: Name, i: nat, ftype: Byte, l: Key)
    requires Ok(fs, root) && Permitted(fs, OpLink(d, n, i, ftype))
    ensures var (fs', err) := Link(fs, d, n, i, ftype); var k := Key(d, Child(n));
            && err == AddLink(fs.dirs[d], n, i, ftype).err
            && (Size(fs.dirs[d]) <= 14 * PAGE_SIZE ==> err == OK)
            && fs'.names == (if err == OK then fs.names[k := i] else fs.names)
            && Count(fs'.nlink, i) == Count(fs.nlink, i) + (if err == OK then 1 else 0) && OnlyCounts(fs, fs', {i})
            && (err == OK ==> Says(fs', k, i, ftype))
            && (l in fs.names ==> Keeps(fs, fs', l))
  {
    SmallInserts(fs, root, d, n, i, ftype);
    LinkSays(fs, root, d, n, i, ftype, l);
    hide Ok, AddLink, Says, Keeps, Size;
  }

  /** Creation answers without error exactly when it found an inode.  When besides the insert succeeds, which in a
      directory of at most 14 pages it does, the name is bound to the inode, with the file type and one link;
      otherwise no name changes. */
  lemma CreateEffect(fs: Fs, root: nat, d: nat, n: Name, i: nat, ftype: Byte, avail: bool, l: Key)
    requires Ok(fs, root) && Permitted(fs, OpCreate(d, n, i, ftype, avail))
    ensures var (fs', err) := Create(fs, d, n, i, ftype, avail); var k := Key(d, Child(n));
            var bound := avail && AddLink(fs.dirs[d], n, i, ftype).err == OK;
            && (err == OK <==> avail) && (err != OK ==> err == ENOSPC)
            && (avail && Size(fs.dirs[d]) <= 14 * PAGE_SIZE ==> bound)
            && fs'.names == (if bound then fs.names[k := i] else fs.names)
            && Count(fs'.nlink, i) == (if bound then 1 else 0) && OnlyCounts(fs, fs', {i})
            && (bound ==> Says(fs', k, i, ftype))
            && (l in fs.names ==> Keeps(fs, fs', l))
  {
    SmallInserts(fs, root, d, n, i, ftype);
    CreateSays(fs, root, d, n, i, ftype, avail, l);
    hide Ok, AddLink, Says, Keeps, Size;
    assert avail ==> (fs.dirs - {i})[d] == fs.dirs[d];
  }

  // ----- unlink -----

  /** A name gone from directory `d`: the other names keep their inodes and types. */
  lemma DropSays(fs: Fs, root: nat, fs': Fs, d: nat, n: Name, l: Key)
    requires Ok(fs, root) && LiveDir(fs.dirs, fs.nlink, d) && DeleteEntry(fs.dirs[d], n).err == OK
    requires d in fs'.dirs && fs'.dirs[d] == DeleteEntry(fs.dirs[d], n).rs
    requires l in fs.names && l != Key(d, Lab(n)) && (l.dir != d ==> SameDir(fs, fs', l.dir))
    ensures Keeps(fs, fs', l)
  {
    if l.dir == d {
      DirUnique(fs, root, d);
      NameLab(fs, root, l);
      hide Ok, DeleteEntry, Unique, Typed;
      forall j: nat, t: Byte
        ensures Says(fs', l, j, t) <==> Says(fs, l, j, t)
      {
        DeleteTyped(fs.dirs[d], n, NameOf(l.lab), j, t);
      }
    }
  }

  /** An unlink succeeds exactly when the name is bound.  Then exactly that name goes, and the inode has one link
      less. */
  lemma UnlinkEffect(fs: Fs, root: nat, d: nat, n: Name, i: nat, l: Key)
    requires Ok(fs, root) && Permitted(fs, OpUnlink(d, n, i))
    ensures var (fs', err) := Unlink(fs, d, n, i); var k := Key(d, Child(n));
            && (err == OK <==> k in fs.names) && (err != OK ==> err == ENOENT && fs' == fs)
            && fs'.names == fs.names - {k}
            && (err == OK ==> Count(fs'.nlink, i) == Count(fs.nlink, i) - 1) && OnlyCounts(fs, fs', {i})
            && (l in fs'.names ==> Keeps(fs, fs', l))
  {
    hide DeleteEntry, Fits, Ok, Keeps;
    Deletes(fs, root, d, n);
    var k := Key(d, Child(n));
    var fs' := Unlink(fs, d, n, i).0;
    if k in fs.names {
      KindOf(fs, root, k);
    }
    if l in fs'.names {
      NameLab(fs, root, l);
      if k in fs.names {
        DropSays(fs, root, fs', d, n, l);
      } else {
        SameSays(fs, fs', l);
      }
    }
  }

  // ----- mkdir -----

  /** The records of a new directory. */
  lemma NewSays(fs: Fs, i: nat, d: nat)
    requires i in fs.dirs && fs.dirs[i] == EmptyDir(i, d) && i != 0 && d != 0
    ensures Says(fs, Key(i, Self), i, FT_DIR) && Says(fs, Key(i, Up), d, FT_DIR)
  {
    var rs := EmptyDir(i, d);
    EmptyDirOk(i, d);
    assert Match(rs[0], DOT) && Match(rs[1], DOTDOT);
  }

  lemma MakeDirSays(fs: Fs, root: nat, d: nat, n: Name, i: nat, avail: bool, l: Key)
    requires Ok(fs, root) && Permitted(fs, OpMkdir(d, n, i, avail))
    ensures var (fs', err) := MakeDir(fs, d, n, i, avail);
            && (err == OK ==> Says(fs', Key(d, Child(n)), i, FT_DIR) && Says(fs', Key(i, Self), i, FT_DIR))
            && (err == OK ==> Says(fs', Key(i, Up), d, FT_DIR))
            && (l in fs.names ==> Keeps(fs, fs', l))
  {
    hide Ok, AddLink, Says, EmptyDir;
    var (fs', err) := MakeDir(fs, d, n, i, avail);
    if l in fs.names {
      NameLab(fs, root, l);
    }
    if err == OK {
      LiveNonzero(fs, root, d);
      NewSays(fs', i, d);
      AddSays(fs, root, fs', d, n, i, FT_DIR, l);
    } else {
      if avail {
        AddFails(fs, root, d, n, i, FT_DIR);
      }
      if l in fs.names {
        SameSays(fs, fs', l);
      }
    }
  }

  lemma LiveNonzero(fs: Fs, root: nat, d: nat)
    requires Ok(fs, root) && LiveDir(fs.dirs, fs.nlink, d)
    ensures 0 < d < INO_LIMIT
  {
    hide Links, Tree, Matches, MatchDir;
    DirFacts(fs.dirs, fs.nlink, fs.names, fs.home, root, d);
  }

  lemma MakeDirCounts(fs: Fs, d: nat, n: Name, i: nat, avail: bool)
    requires Permitted(fs, OpMkdir(d, n, i, avail))
    ensures var (fs', err) := MakeDir(fs, d, n, i, avail);
            && Count(fs'.nlink, i) == (if err == OK then 2 else 0)
            && Count(fs'.nlink, d) == Count(fs.nlink, d) + (if err == OK then 1 else 0) && OnlyCounts(fs, fs', {i, d})
  {
    hide AddLink, EmptyDir, Mkdir;
  }

  lemma MakeDirNames(fs: Fs, d: nat, n: Name, i: nat, avail: bool)
    requires Permitted(fs, OpMkdir(d, n, i, avail))
    ensures var (fs', err) := MakeDir(fs, d, n, i, avail);
            && err == (if avail then AddLink(fs.dirs[d], n, i, FT_DIR).err else ENOSPC)
            && fs'.names ==
               (if err == OK then fs.names + map[Key(d, Child(n)) := i, Key(i, Self) := i, Key(i, Up) := d]
                else fs.names)
  {
    hide AddLink, EmptyDir, Inc, Dec;
  }

  /** Making a directory succeeds exactly when there is an inode and the insert succeeds, which up to 14 pages it does.
      Then exactly three names are added: the child and its "." name the new inode, its ".." names the parent.  The new
      directory has two links and its parent one more. */
  lemma MakeDirEffect(fs: Fs, root: nat, d: nat, n: Name, i: nat, avail: bool, l: Key)
    requires Ok(fs, root) && Permitted(fs, OpMkdir(d, n, i, avail))
    ensures var (fs', err) := MakeDir(fs, d, n, i, avail); var k := Key(d, Child(n));
            && err == (if avail then AddLink(fs.dirs[d], n, i, FT_DIR).err else ENOSPC)
            && (avail && Size(fs.dirs[d]) <= 14 * PAGE_SIZE ==> err == OK)
            && fs'.names ==
               (if err == OK then fs.names + map[k := i, Key(i, Self) := i, Key(i, Up) := d] else fs.names)
            && Count(fs'.nlink, i) == (if err == OK then 2 else 0)
            && Count(fs'.nlink, d) == Count(fs.nlink, d) + (if err == OK then 1 else 0) && OnlyCounts(fs, fs', {i, d})
            && (err == OK ==> Says(fs', k, i, FT_DIR) && Says(fs', Key(i, Self), i, FT_DIR))
            && (err == OK ==> Says(fs', Key(i, Up), d, FT_DIR))
            && (l in fs.names ==> Keeps(fs, fs', l))
  {
    SmallInserts(fs, root, d, n, i, FT_DIR);
    MakeDirSays(fs, root, d, n, i, avail, l);
    MakeDirCounts(fs, d, n, i, avail);
    MakeDirNames(fs, d, n, i, avail);
    hide Ok, Permitted, AddLink, Says, Keeps, Size, OnlyCounts, MakeDir;
  }

  // ----- rmdir -----

  /** Removing a directory succeeds exactly when the name is bound and the directory has no children.  Then exactly its
      three names go: the child, "." and "..".  It has no links left and its parent one less. */
  lemma RemoveDirEffect(fs: Fs, root: nat, d: nat, n: Name, i: nat, l: Key)
    requires Ok(fs, root) && Permitted(fs, OpRmdir(d, n, i))
    ensures var (fs', err) := RemoveDir(fs, root, d, n, i); var k := Key(d, Child(n));
            && (err == OK <==> k in fs.names && NoChildren(fs.names, i))
            && (err == ENOTEMPTY <==> !NoChildren(fs.names, i))
            && (err != OK && err != ENOTEMPTY ==> err == ENOENT) && (err != OK ==> fs' == fs)
            && (err == OK ==>
                  && {k, Key(i, Self), Key(i, Up)} <= fs.names.Keys
                  && fs'.names == fs.names - {k, Key(i, Self), Key(i, Up)} && i in fs'.dirs && fs'.dirs[i] == []
                  && Count(fs'.nlink, i) == 0 && Count(fs'.nlink, d) == Count(fs.nlink, d) - 1
                  && OnlyCounts(fs, fs', {i, d}))
            && (l in fs'.names ==> Keeps(fs, fs', l))
  {
    hide Ok, Fits, DeleteEntry, EmptyRecs, Keeps, NoChildren;
    var k := Key(d, Child(n));
    EmptyTest(fs, root, i);
    Deletes(fs, root, d, n);
    if k in fs.names && NoChildren(fs.names, i) {
      RemoveDirCounts(fs, root, d, n, i);
      RemoveDirSays(fs, root, d, n, i, l);
    } else if l in fs.names {
      NameLab(fs, root, l);
      SameSays(fs, fs, l);
    }
  }

  lemma RemoveDirCounts(fs: Fs, root: nat, d: nat, n: Name, i: nat)
    requires Ok(fs, root) && Permitted(fs, OpRmdir(d, n, i)) && Key(d, Child(n)) in fs.names && NoChildren(fs.names, i)
    ensures IsDir(fs.names, i) && Key(i, Up) in fs.names && i != d && Count(fs.nlink, i) == 2 && Count(fs.nlink, d) > 0
  {
    hide MatchDir, Matches, Links;
    var k := Key(d, Child(n));
    KindOf(fs, root, k);
    RmdirCounts(fs.names, fs.nlink, fs.home, root, k);
    assert UpOk(fs.names, fs.home, root, i);
  }

  lemma RemoveDirSays(fs: Fs, root: nat, d: nat, n: Name, i: nat, l: Key)
    requires Ok(fs, root) && Permitted(fs, OpRmdir(d, n, i)) && Key(d, Child(n)) in fs.names && NoChildren(fs.names, i)
    ensures var fs' := RemoveDir(fs, root, d, n, i).0; l in fs'.names ==> Keeps(fs, fs', l)
  {
    hide Ok, MergesFit, DeleteEntry, RemoveDir, Keeps, NoChildren;
    RemoveDirNow(fs, root, d, n, i);
    var fs' := RemoveDir(fs, root, d, n, i).0;
    if l in fs'.names {
      NameLab(fs, root, l);
      DropSays(fs, root, fs', d, n, l);
    }
  }

  lemma RemoveDirNow(fs: Fs, root: nat, d: nat, n: Name, i: nat)
    requires Ok(fs, root) && Permitted(fs, OpRmdir(d, n, i)) && Key(d, Child(n)) in fs.names && NoChildren(fs.names, i)
    ensures var fs' := RemoveDir(fs, root, d, n, i).0; var o := DeleteEntry(fs.dirs[d], n);
            && i != d && o.err == OK && fs'.dirs == fs.dirs[d := o.rs][i := []]
            && (forall l: Key :: l in fs'.names ==> l in fs.names && l.dir != i && l != Key(d, Child(n)))
  {
    EmptyTest(fs, root, i);
    Deletes(fs, root, d, n);
    RemoveDirCounts(fs, root, d, n, i);
    hide Ok, DeleteEntry, Fits, EmptyRecs;
  }

  // ----- rename -----

  /** Exactly when a rename succeeds, and the condition of each error: the old name must be bound; with `exist` the new
      name must be bound too, and to a directory without children when a directory moves; otherwise the insert in the
      new directory must succeed, which up to 14 pages it does. */
  lemma MoveAnswers(fs: Fs, root: nat, d: nat, n: Name, nd: nat, nn: Name, i: nat, ftype: Byte, exist: bool, t: nat)
    requires Ok(fs, root) && Permitted(fs, OpRename(d, n, nd, nn, i, ftype, exist, t))
    ensures var err := Move(fs, root, d, n, nd, nn, i, ftype, exist, t).1;
            var from, to := Key(d, Child(n)), Key(nd, Child(nn));
            var full := exist && IsDir(fs.names, i) && !NoChildren(fs.names, t);
            && (err == OK <==>
                  && from in fs.names
                  && (exist ==> to in fs.names && !full)
                  && (!exist ==> AddLink(fs.dirs[nd], nn, i, ftype).err == OK))
            && (err == ENOTEMPTY <==> from in fs.names && full)
            && (err == ENOENT <==> from !in fs.names || (exist && !full && to !in fs.names))
            && (err !in {OK, ENOTEMPTY, ENOENT} ==> !exist && err == AddLink(fs.dirs[nd], nn, i, ftype).err)
            && (!exist && from in fs.names && Size(fs.dirs[nd]) <= 14 * PAGE_SIZE ==> err == OK)
  {
    hide Ok, Fits, AddLink, EmptyRecs, Find, Renamed, Entered, Moved, Cleared, Renames, Size, NoChildren, Above;
    var from, to := Key(d, Child(n)), Key(nd, Child(nn));
    FoundIff(fs, root, d, n);
    FoundIff(fs, root, nd, nn);
    if from in fs.names {
      KindOf(fs, root, from);
      if exist && i in fs.dirs {
        EmptyTest(fs, root, t);
      }
      if !exist {
        SmallInserts(fs, root, nd, nn, i, ftype);
      }
    }
  }

  lemma FoundIff(fs: Fs, root: nat, d: nat, n: Name)
    requires Ok(fs, root) && LiveDir(fs.dirs, fs.nlink, d) && Proper(n)
    ensures Find(fs.dirs[d], n) <= |fs.dirs[d]|
    ensures Find(fs.dirs[d], n) < |fs.dirs[d]| <==> Key(d, Child(n)) in fs.names
  {
    hide Links, Tree, Matches, MatchDir;
    DirFacts(fs.dirs, fs.nlink, fs.names, fs.home, root, d);
    FindIff(fs.dirs[d], fs.names, d, n);
  }

  /** The first half of a rename: the new name is found with the inode and type, and every other name of the new
      directory keeps its own. */
  lemma EnterTyped(fs: Fs, root: nat, nd: nat, nn: Name, exist: bool, i: nat, ftype: Byte, m: Name, j: nat, u: Byte)
    requires Ok(fs, root) && LiveDir(fs.dirs, fs.nlink, nd) && Proper(nn) && i != 0
    requires exist <==> Key(nd, Child(nn)) in fs.names
    requires exist ==> Find(fs.dirs[nd], nn) < |fs.dirs[nd]|
    requires !exist ==> AddLink(fs.dirs[nd], nn, i, ftype).err == OK
    ensures var rs' := Entered(fs.dirs, nd, nn, exist, i, ftype)[nd];
            && Unique(rs')
            && (Typed(rs', m, j, u) <==> if m == nn then j == i && u == ftype else Typed(fs.dirs[nd], m, j, u))
  {
    var rs := fs.dirs[nd];
    DirUnique(fs, root, nd);
    if exist {
      assert Match(rs[Find(rs, nn)], nn);
      hide Ok, Unique, Absent, Typed, Relinked, Find;
      RelinkTyped(rs, Find(rs, nn), i, ftype, m, j, u);
      RelinkUnique(rs, Find(rs, nn), i, ftype);
    } else {
      EnterUnique(fs, root, nd, nn, i, ftype);
      hide Ok, Unique, Absent, Typed, AddLink;
      AddTyped(rs, nn, i, ftype, m, j, u);
    }
  }

  lemma EnterUnique(fs: Fs, root: nat, nd: nat, nn: Name, i: nat, ftype: Byte)
    requires Ok(fs, root) && LiveDir(fs.dirs, fs.nlink, nd) && Proper(nn) && i != 0
    requires Key(nd, Child(nn)) !in fs.names && AddLink(fs.dirs[nd], nn, i, ftype).err == OK
    ensures Unique(AddLink(fs.dirs[nd], nn, i, ftype).rs)
  {
    hide Links, Tree, Matches, AddLink, Entries, Unique, Absent;
    DirFacts(fs.dirs, fs.nlink, fs.names, fs.home, root, nd);
    DirUnique(fs, root, nd);
    AddLinkRefines(fs.dirs[nd], nn, i, ftype);
    DirSize(AddLink(fs.dirs[nd], nn, i, ftype).rs);
  }

  /** The second half: the old name is still there to be deleted. */
  lemma EnteredDeletes(fs: Fs, root: nat, d: nat, n: Name, nd: nat, nn: Name, i: nat, ftype: Byte, exist: bool)
    requires Ok(fs, root) && LiveDir(fs.dirs, fs.nlink, d) && LiveDir(fs.dirs, fs.nlink, nd) && Proper(n) && Proper(nn)
    requires i != 0 && Key(d, Child(n)) in fs.names && (exist <==> Key(nd, Child(nn)) in fs.names)
    requires exist ==> Find(fs.dirs[nd], nn) < |fs.dirs[nd]|
    requires !exist ==> AddLink(fs.dirs[nd], nn, i, ftype).err == OK
    requires Fits(Entered(fs.dirs, nd, nn, exist, i, ftype)[d], n)
    ensures var rs := Entered(fs.dirs, nd, nn, exist, i, ftype)[d]; Unique(rs) && DeleteEntry(rs, n).err == OK
  {
    hide Links, Tree, Matches, MatchDir, AddLink, Fits, DeleteEntry, Find, Unique;
    var b1 := fs.names[Key(nd, Child(nn)) := i];
    DirFacts(fs.dirs, fs.nlink, fs.names, fs.home, root, d);
    DirFacts(fs.dirs, fs.nlink, fs.names, fs.home, root, nd);
    var rs := Entered(fs.dirs, nd, nn, exist, i, ftype)[d];
    if d == nd {
      EnterMatches(fs.dirs[nd], fs.names, nd, nn, exist, i, ftype);
    } else {
      MatchOther(fs.dirs[d], fs.names, b1, d);
    }
    EntryIff(rs, b1, d, n);
    MatchDelete(rs, b1, d, n);
  }

  /** What a lookup finds in directory `x` after a rename. */
  lemma RenamedTyped(fs: Fs, root: nat, d: nat, n: Name, nd: nat, nn: Name, i: nat, ftype: Byte, exist: bool, t: nat,
                     m: Name, j: nat, u: Byte)
    requires Ok(fs, root) && Permitted(fs, OpRename(d, n, nd, nn, i, ftype, exist, t))
    requires Move(fs, root, d, n, nd, nn, i, ftype, exist, t).1 == OK
    ensures var dirs' := Move(fs, root, d, n, nd, nn, i, ftype, exist, t).0.dirs;
            && d in dirs' && nd in dirs'
            && (Typed(dirs'[nd], m, j, u) <==>
                  if m == nn then j == i && u == ftype else (d != nd || m != n) && Typed(fs.dirs[nd], m, j, u))
            && (d != nd ==> (Typed(dirs'[d], m, j, u) <==> m != n && Typed(fs.dirs[d], m, j, u)))
  {
    hide Ok, AddLink, EmptyRecs, Find, Typed, Moved, Cleared, Renames, Relinked, DeleteEntry, Above;
    MoveReady(fs, root, d, n, nd, nn, i, ftype, exist, t);
    KindOf(fs, root, Key(d, Child(n)));
    var rs := Entered(fs.dirs, nd, nn, exist, i, ftype)[d];
    EnteredDeletes(fs, root, d, n, nd, nn, i, ftype, exist);
    DeleteTyped(rs, n, m, j, u);
    EnterTyped(fs, root, nd, nn, exist, i, ftype, m, j, u);
  }

  /** A moved directory's ".." names the new parent, and its other names keep their inodes and types. */
  lemma UpTyped(fs: Fs, root: nat, d: nat, n: Name, nd: nat, nn: Name, i: nat, ftype: Byte, exist: bool, t: nat,
                m: Name, j: nat, u: Byte)
    requires Ok(fs, root) && Permitted(fs, OpRename(d, n, nd, nn, i, ftype, exist, t))
    requires Move(fs, root, d, n, nd, nn, i, ftype, exist, t).1 == OK && i in fs.dirs && d != nd
    ensures var dirs' := Move(fs, root, d, n, nd, nn, i, ftype, exist, t).0.dirs;
            i in dirs' && (Typed(dirs'[i], m, j, u) <==>
                             if m == DOTDOT then j == nd && u == FT_DIR else Typed(fs.dirs[i], m, j, u))
  {
    hide Ok, AddLink, EmptyRecs, Find, Typed, Moved, Cleared, Renames, Relinked, DeleteEntry, Above, Fits;
    MoveReady(fs, root, d, n, nd, nn, i, ftype, exist, t);
    KindOf(fs, root, Key(d, Child(n)));
    LiveNonzero(fs, root, nd);
    SecondRecord(fs, root, i);
    SecondLive(fs, root, i);
    DirUnique(fs, root, i);
    RelinkTyped(fs.dirs[i], 1, nd, FT_DIR, m, j, u);
  }

  lemma SecondLive(fs: Fs, root: nat, d: nat)
    requires Ok(fs, root) && LiveDir(fs.dirs, fs.nlink, d)
    ensures |fs.dirs[d]| >= 2 && Live(fs.dirs[d][1])
  {
    DirFacts(fs.dirs, fs.nlink, fs.names, fs.home, root, d);
  }

  /** A name after a rename was there before, but for the new name and the ".." of a directory with a new parent. */
  lemma NamesFrom(b: Names, from: Key, to: Key, l: Key)
    requires from in Cleared(b, to) && from in b && l in Moved(Cleared(b, to), from, to) && l != to
    requires l != Key(b[from], Up) || from.dir == to.dir
    ensures l in b && l != from
  {
  }

  /** A directory that a rename does not touch. */
  lemma RenamedElsewhere(fs: Fs, root: nat, d: nat, n: Name, nd: nat, nn: Name, i: nat, ftype: Byte, exist: bool,
                         t: nat, x: nat)
    requires Ok(fs, root) && Permitted(fs, OpRename(d, n, nd, nn, i, ftype, exist, t))
    requires Move(fs, root, d, n, nd, nn, i, ftype, exist, t).1 == OK
    requires x in fs.dirs && x != d && x != nd && (x == i ==> d == nd)
    ensures SameDir(fs, Move(fs, root, d, n, nd, nn, i, ftype, exist, t).0, x)
  {
    hide Ok, AddLink, EmptyRecs, Find, Moved, Cleared, Renames, Relinked, DeleteEntry, Above, Fits;
  }

  lemma MoveKeeps(fs: Fs, root: nat, d: nat, n: Name, nd: nat, nn: Name, i: nat, ftype: Byte, exist: bool, t: nat,
                  l: Key)
    requires Ok(fs, root) && Permitted(fs, OpRename(d, n, nd, nn, i, ftype, exist, t))
    requires Move(fs, root, d, n, nd, nn, i, ftype, exist, t).1 == OK
    requires l in fs.names && l != Key(d, Child(n)) && l != Key(nd, Child(nn)) && (l != Key(i, Up) || d == nd)
    ensures Keeps(fs, Move(fs, root, d, n, nd, nn, i, ftype, exist, t).0, l)
  {
    hide Ok, MergesFit, Move, Typed, Above;
    var fs', m := Move(fs, root, d, n, nd, nn, i, ftype, exist, t).0, NameOf(l.lab);
    NameLab(fs, root, l);
    if l.dir == d || l.dir == nd {
      forall j: nat, u: Byte
        ensures Says(fs', l, j, u) <==> Says(fs, l, j, u)
      {
        RenamedTyped(fs, root, d, n, nd, nn, i, ftype, exist, t, m, j, u);
      }
    } else if l.dir == i && d != nd {
      forall j: nat, u: Byte
        ensures Says(fs', l, j, u) <==> Says(fs, l, j, u)
      {
        UpTyped(fs, root, d, n, nd, nn, i, ftype, exist, t, m, j, u);
      }
    } else {
      RenamedElsewhere(fs, root, d, n, nd, nn, i, ftype, exist, t, l.dir);
      SameSays(fs, fs', l);
    }
  }

  /** After a rename the new name is found with the inode and file type, the ".." of a directory that changed its parent
      with the new parent, and every other name that is left with the inode and type it had. */
  lemma MoveSays(fs: Fs, root: nat, d: nat, n: Name, nd: nat, nn: Name, i: nat, ftype: Byte, exist: bool, t: nat,
                 l: Key)
    requires Ok(fs, root) && Permitted(fs, OpRename(d, n, nd, nn, i, ftype, exist, t))
    requires Move(fs, root, d, n, nd, nn, i, ftype, exist, t).1 == OK
    ensures var fs' := Move(fs, root, d, n, nd, nn, i, ftype, exist, t).0; var to := Key(nd, Child(nn));
            && Says(fs', to, i, ftype)
            && (IsDir(fs.names, i) && d != nd ==> Says(fs', Key(i, Up), nd, FT_DIR))
            && (l in fs'.names && l != to && (l != Key(i, Up) || d == nd) ==> l in fs.names && Keeps(fs, fs', l))
  {
    hide Ok, AddLink, EmptyRecs, Find, Typed, Moved, Cleared, Renames, Renamed, Entered, Above, Fits, Keeps;
    var fs' := Move(fs, root, d, n, nd, nn, i, ftype, exist, t).0;
    MoveReady(fs, root, d, n, nd, nn, i, ftype, exist, t);
    RenamedTyped(fs, root, d, n, nd, nn, i, ftype, exist, t, nn, i, ftype);
    if i in fs.dirs && d != nd {
      UpTyped(fs, root, d, n, nd, nn, i, ftype, exist, t, DOTDOT, nd, FT_DIR);
    }
    if l in fs'.names && l != Key(nd, Child(nn)) && (l != Key(i, Up) || d == nd) {
      NamesFrom(fs.names, Key(d, Child(n)), Key(nd, Child(nn)), l);
      MoveKeeps(fs, root, d, n, nd, nn, i, ftype, exist, t, l);
    }
  }
}
