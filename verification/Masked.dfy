/** What `rdfs_create` answers: the result of its last call, whatever became of the insert. */
module Masked {
  import opened Bytes
  import opened DirGivesUp
  import opened DirRecords
  import opened DirRuns
  import opened Machine
  import opened NameGraph
  import opened NameOps
  import opened Namespace

  /** Creation answers without error exactly when it found an inode; the name is bound exactly when, besides, the insert
      succeeded. */
  lemma CreateAnswers(fs: Fs, d: nat, n: Name, i: nat, ftype: Byte, avail: bool)
    requires Permitted(fs, OpCreate(d, n, i, ftype, avail))
    ensures var (fs', err) := Create(fs, d, n, i, ftype, avail);
            && (err == OK <==> avail)
            && (Key(d, Child(n)) in fs'.names <==> avail && AddLink(fs.dirs[d], n, i, ftype).err == OK)
            && fs'.names == (if Key(d, Child(n)) in fs'.names then fs.names[Key(d, Child(n)) := i] else fs.names)
  {
    assert avail ==> (fs.dirs - {i})[d] == fs.dirs[d];
  }

  // ----- a file system with one directory -----

  ghost function NamesOf(rs: seq<Rec>, d: nat): (b: Names)
    requires Unique(rs)
    ensures forall k :: k in b <==> k.dir == d && NameOf(k.lab) in Entries(rs) && Lab(NameOf(k.lab)) == k.lab
    ensures forall k :: k in b ==> b[k] == Entries(rs)[NameOf(k.lab)]
  {
    LabRoundTrip();
    map k | k in Labelled(Entries(rs).Keys, d) :: Entries(rs)[NameOf(k.lab)]
  }

  ghost function Labelled(ns: set<Name>, d: nat): (keys: set<Key>)
    ensures forall k :: k in keys <==> k.dir == d && NameOf(k.lab) in ns && Lab(NameOf(k.lab)) == k.lab
  {
    LabRoundTrip();
    var keys := set n | n in ns :: Key(d, Lab(n));
    assert forall k: Key :: k.dir == d && Lab(NameOf(k.lab)) == k.lab ==> k == Key(d, Lab(NameOf(k.lab)));
    keys
  }

  lemma LabRoundTrip()
    ensures forall n :: NameOf(Lab(n)) == n
  {
  }

  /** The root directory `rs`, whose proper names are all links to the file `f`. */
  ghost function OneDirectory(rs: seq<Rec>, root: nat, f: nat): Fs
    requires Unique(rs)
  {
    var b := NamesOf(rs, root);
    Fs(map[root := rs], map[root := 2, f := |Refs(b, f)|], b, map[])
  }

  /** One directory, whose "." and ".." name itself and whose other names all name `f`. */
  ghost predicate Star(b: Names, root: nat, f: nat) {
    && Key(root, Self) in b && Key(root, Up) in b
    && forall k :: k in b ==> k.dir == root && b[k] == if k.lab.Child? then f else root
  }

  lemma StarOk(b: Names, root: nat, f: nat)
    requires Star(b, root, f) && root != f
    ensures Tree(b, map[], root) && Links(b, map[root := 2, f := |Refs(b, f)|])
  {
    var nl := map[root := 2, f := |Refs(b, f)|];
    forall i: nat
      ensures Count(nl, i) == |Refs(b, i)|
    {
      if i == root {
        assert Refs(b, i) == {Key(root, Self), Key(root, Up)};
      } else if i != f {
        assert Refs(b, i) == {};
      }
    }
    assert forall k :: KeyOk(b, map[], root, k);
    assert forall d: nat :: UpOk(b, map[], root, d);
  }

  lemma NamesMatch(rs: seq<Rec>, d: nat)
    requires Unique(rs)
    ensures MapMatches(Entries(rs), NamesOf(rs, d), d)
  {
    hide Entries, Unique, NamesOf;
    forall n | n in Entries(rs)
      ensures Key(d, Lab(n)) in NamesOf(rs, d)
    {
      assert NameOf(Lab(n)) == n;
    }
  }

  lemma NamesStar(rs: seq<Rec>, root: nat, f: nat)
    requires DirOk(rs) && rs[0].ino == root && rs[1].ino == root && forall k: nat :: 2 <= k < |rs| ==> rs[k].ino == f
    ensures Star(NamesOf(rs, root), root, f)
  {
    FrontEntries(rs);
    OtherEntries(rs, f);
    hide DirOk, Entries, Unique, NamesOf;
    DirSize(rs);
    var b := NamesOf(rs, root);
    assert NameOf(Self) == DOT && NameOf(Up) == DOTDOT && Lab(DOT) == Self && Lab(DOTDOT) == Up;
    forall k | k in b
      ensures b[k] == if k.lab.Child? then f else root
    {
      assert k.lab.Child? ==> NameOf(k.lab) != DOT && NameOf(k.lab) != DOTDOT;
    }
  }

  lemma OneDirectoryOk(rs: seq<Rec>, root: nat, f: nat)
    requires DirOk(rs) && Size(rs) <= MAX_DIR_SIZE && 0 < root < INO_LIMIT && 0 < f < INO_LIMIT && root != f
    requires rs[0].ino == root && rs[1].ino == root && forall k: nat :: 2 <= k < |rs| ==> rs[k].ino == f
    ensures Ok(OneDirectory(rs, root, f), root)
  {
    NamesStar(rs, root, f);
    NamesMatch(rs, root);
    var b := NamesOf(rs, root);
    assert MatchDir(rs, b, root);
    hide Star, NamesOf, Unique, Tree, Links, Matches, MatchDir, DirOk, Size;
    StarOk(b, root, f);
    StarMatches(rs, b, root, f, |Refs(b, f)|);
  }

  lemma StarMatches(rs: seq<Rec>, b: Names, root: nat, f: nat, links: nat)
    requires MatchDir(rs, b, root) && Star(b, root, f) && 0 < root < INO_LIMIT && 0 < f < INO_LIMIT && root != f
    ensures Matches(map[root := rs], map[root := 2, f := links], b)
  {
    hide MatchDir;
    var dirs, nl := map[root := rs], map[root := 2, f := links];
    assert LiveDir(dirs, nl, root);
    assert forall d: nat :: DirMatches(dirs, nl, b, d);
  }

  lemma OtherEntries(rs: seq<Rec>, f: nat)
    requires DirOk(rs) && forall k: nat :: 2 <= k < |rs| ==> rs[k].ino == f
    ensures forall n :: n in Entries(rs) && n != DOT && n != DOTDOT ==> Entries(rs)[n] == f
  {
    hide Entries, Unique, AllOk, Size, RecLen;
    forall n | n in Entries(rs) && n != DOT && n != DOTDOT
      ensures Entries(rs)[n] == f
    {
      var i: nat :| i < |rs| && Live(rs[i]) && rs[i].name == n;
      assert i >= 2;
    }
  }

  /** A creation whose insert fails, so that the name is not bound, and that answers without error. */
  ghost predicate Masks(fs: Fs, root: nat, op: Op) {
    && op.OpCreate? && Ok(fs, root) && Permitted(fs, op)
    && AddLink(fs.dirs[op.d], op.n, op.i, op.ftype).err == EINVAL
    && var (fs', err) := Create(fs, op.d, op.n, op.i, op.ftype, op.avail);
       err == OK && Key(op.d, Child(op.n)) !in fs'.names
  }

  lemma CrowdedMasks(rs: seq<Rec>, name: Name)
    requires DirOk(rs) && Size(rs) <= MAX_DIR_SIZE && rs[0].ino == 1 && rs[1].ino == 1
    requires forall k: nat :: 2 <= k < |rs| ==> rs[k].ino == 2
    requires Proper(name) && Absent(rs, name) && Scan(rs, name) == GaveUp
    ensures Unique(rs) && Masks(OneDirectory(rs, 1, 2), 1, OpCreate(1, name, 3, 1, true))
  {
    hide Ok, Entries, Unique, Scan, Absent, DirOk, Size, NamesOf, Refs, Permitted, Create, AddLink;
    DirSize(rs);
    OneDirectoryOk(rs, 1, 2);
    NameFree(rs, name);
    GaveUpError(rs, name, 3, 1);
    CreateAnswers(OneDirectory(rs, 1, 2), 1, name, 3, 1, true);
  }

  lemma NameFree(rs: seq<Rec>, name: Name)
    requires Unique(rs) && Proper(name) && Absent(rs, name)
    ensures Permitted(OneDirectory(rs, 1, 2), OpCreate(1, name, 3, 1, true))
  {
    hide Entries, Unique, Absent, NamesOf, Refs;
    FindReadsEntries(rs, name);
  }

  lemma GaveUpError(rs: seq<Rec>, name: Name, ino: nat, ftype: Byte)
    requires Scan(rs, name) == GaveUp
    ensures AddLink(rs, name, ino, ftype).err == EINVAL
  {
  }

  /** In a full directory of 15 pages the insert of a creation fails, and the creation answers without error. */
  lemma FailedCreateAnswersOk()
    ensures exists fs: Fs, root: nat, op: Op :: Masks(fs, root, op)
  {
    var rs, name := Crowded(15, 1, 2), LongName();
    CrowdedOk(15, 1, 2);
    CrowdedGivesUp(15, 1, 2);
    CrowdedLinks(15, 1, 2);
    hide Crowded, LongName, Scan, Absent, DirOk, Masks;
    CrowdedMasks(rs, name);
  }

  lemma CrowdedLinks(n: nat, self: nat, ino: nat)
    requires 15 <= n <= 512
    ensures var rs := Crowded(n, self, ino);
            rs[0].ino == self && rs[1].ino == self && forall k: nat :: 2 <= k < |rs| ==> rs[k].ino == ino
  {
    forall k: nat | 2 <= k < |Crowded(n, self, ino)|
      ensures Crowded(n, self, ino)[k].ino == ino
    {
      CrowdedAt(n, self, ino, k);
    }
  }
}
