/** The directories of a mounted file system, each in its own buffer, by inode number. */
module DirTable {
  import opened Bytes
  import opened DirBytes
  import opened DirRecords
  import opened DirRuns
  import opened Directory
  import opened Machine

  /** A directory in a buffer of its own. */
  method NewDir(self: nat, parent: nat) returns (dir: Dir)
    requires self < LE32 && parent < LE32
    ensures fresh(dir) && fresh(dir.buf) && dir.Valid() && dir.recs == EmptyDir(self, parent)
  {
    hide Tiles, EmptyDir;
    dir := new Dir();
    var _ := dir.MakeEmpty(self, parent);
  }

  class Table {
    var objs: map<nat, Dir>
    ghost var dirs: map<nat, seq<Rec>>
    ghost var Repr: set<object>

    /** No two directories share memory, and the bytes of each are those of its records. */
    ghost predicate Valid()
      reads this, Repr
    {
      && this in Repr && objs.Keys == dirs.Keys
      && (forall d :: d in objs ==> objs[d] in Repr && objs[d].buf in Repr)
      && (forall d :: d in objs ==> objs[d].Valid() && objs[d].recs == dirs[d])
      && (forall d, e :: d in objs && e in objs && d != e ==> objs[d] != objs[e] && objs[d].buf != objs[e].buf)
    }

    /** The root directory of a new file system. */
    constructor (root: nat)
      requires root < LE32
      ensures Valid() && dirs == map[root := EmptyDir(root, root)] && fresh(Repr)
    {
      hide Tiles, EmptyDir;
      var dir := NewDir(root, root);
      objs := map[root := dir];
      dirs := map[root := EmptyDir(root, root)];
      Repr := {this, dir, dir.buf};
    }

    /** A new directory for inode `i`. */
    method Make(i: nat, parent: nat)
      requires Valid() && i < LE32 && parent < LE32
      modifies this
      ensures Valid() && fresh(Repr - old(Repr)) && dirs == old(dirs)[i := EmptyDir(i, parent)]
    {
      hide Dir.Valid, EmptyDir;
      var dir := NewDir(i, parent);
      assert forall d :: d in objs ==> objs[d].Valid() && objs[d].recs == dirs[d];
      objs := objs[i := dir];
      dirs := dirs[i := dir.recs];
      Repr := Repr + {dir, dir.buf};
    }

    /** Inode number `i` is no directory's any more. */
    method Forget(i: nat)
      requires Valid()
      modifies this
      ensures Valid() && Repr == old(Repr) && dirs == old(dirs) - {i}
    {
      objs := objs - {i};
      dirs := dirs - {i};
    }

    method Clear(d: nat)
      requires Valid() && d in dirs
      modifies Repr
      ensures Valid() && Repr == old(Repr) && dirs == old(dirs)[d := []]
    {
      hide Tiles;
      objs[d].Clear();
      dirs := dirs[d := objs[d].recs];
    }

    method Add(d: nat, name: Name, ino: nat, ftype: Byte) returns (err: Error)
      requires Valid() && d in dirs && 0 < |name| <= MAX_NAME && 0 < ino < WORD_LIMIT
      modifies Repr
      ensures Valid() && Repr == old(Repr)
      ensures var o := AddLink(old(dirs[d]), name, ino, ftype); err == o.err && dirs == old(dirs)[d := o.rs]
    {
      hide Tiles, AddLink;
      err := objs[d].AddLink(name, ino, ftype, OK);
      dirs := dirs[d := objs[d].recs];
    }

    /** Lookup and deletion of a name; the bytes stay those of records exactly when the merge fits. */
    method Delete(d: nat, name: Name) returns (err: Error)
      requires Valid() && d in dirs
      modifies Repr
      ensures Repr == old(Repr)
      ensures var rs := old(dirs[d]); var k := Find(rs, name);
              && err == (if k < |rs| then OK else ENOENT)
              && dirs == (if k < |rs| then old(dirs)[d := Deleted(rs, k)] else old(dirs))
              && (Valid() <==> (k < |rs| ==> k > 0 && rs[k - 1].recLen + rs[k].recLen < REC_LEN_LIMIT))
    {
      hide Dir.Valid, Find, Deleted, Off;
      var found, de, prev := objs[d].FindEntry2(name);
      if !found {
        return ENOENT;
      }
      DeleteAt(d, de, prev, Find(dirs[d], name));
      return OK;
    }

    method DeleteAt(d: nat, de: nat, prev: nat, ghost k: nat)
      requires Valid() && d in dirs && k < |dirs[d]|
      requires de == Off(dirs[d], k) && prev == Off(dirs[d], if k == 0 then 0 else k - 1)
      modifies Repr
      ensures Repr == old(Repr) && dirs == old(dirs)[d := Deleted(old(dirs[d]), k)]
      ensures var rs := old(dirs[d]); Valid() <==> k > 0 && rs[k - 1].recLen + rs[k].recLen < REC_LEN_LIMIT
    {
      hide Dir.Valid, Deleted, Off, Holds;
      var dir := objs[d];
      dir.DeleteEntry(de, prev, k);
      dirs := dirs[d := dir.recs];
      assert Valid() ==> dir.Valid();
    }

    method IsDir(i: nat) returns (isdir: bool)
      requires Valid()
      ensures isdir <==> i in dirs
    {
      isdir := i in objs;
    }

    method Has(d: nat, name: Name) returns (found: bool, de: nat)
      requires Valid() && d in dirs
      ensures var k := Find(dirs[d], name); (found <==> k < |dirs[d]|) && (found ==> de == Off(dirs[d], k))
    {
      var prev;
      found, de, prev := objs[d].FindEntry2(name);
    }

    method Lookup(d: nat, name: Name) returns (ino: nat)
      requires Valid() && d in dirs && Unique(dirs[d])
      ensures ino == if name in Entries(dirs[d]) then Entries(dirs[d])[name] % LE32 else 0
    {
      hide Dir.Valid, Entries, Unique;
      ino := objs[d].InodeByName(name);
    }

    method DotDot(d: nat) returns (de: nat)
      requires Valid() && d in dirs && dirs[d] != []
      ensures de == Off(dirs[d], 1)
    {
      de := objs[d].DotDot();
    }

    method SetLink(d: nat, de: nat, ino: nat, ftype: Byte, ghost k: nat)
      requires Valid() && d in dirs && k < |dirs[d]| && de == Off(dirs[d], k) && ino < WORD_LIMIT
      modifies Repr
      ensures Valid() && Repr == old(Repr) && dirs == old(dirs)[d := Relinked(old(dirs[d]), k, ino, ftype)]
    {
      hide Tiles, Relinked, Off;
      objs[d].SetLink(de, ino, ftype, k);
      dirs := dirs[d := objs[d].recs];
    }

    method Empty(d: nat) returns (empty: bool)
      requires Valid() && d in dirs && d < LE32
      ensures empty <==> forall k: nat :: k < |dirs[d]| ==> Plain(dirs[d][k], d)
    {
      empty := objs[d].Empty(d);
    }
  }
}
