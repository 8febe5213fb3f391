/** The namespace as one finite map from (directory, label) to inode, with "." and ".." among the
    labels: link counts against it, and the shape of a directory tree. */
module NameGraph {
  import opened DirRecords

  /** ".", "..", or a proper name. */
  datatype Label = Self | Up | Child(name: Name)

  datatype Key = Key(dir: nat, lab: Label)

  type Names = map<Key, nat>

  // ----- link counts -----

  function Count(nl: map<nat, nat>, i: nat): nat {
    if i in nl then nl[i] else 0
  }

  function Inc(nl: map<nat, nat>, i: nat): map<nat, nat> {
    nl[i := Count(nl, i) + 1]
  }

  /** `inode_dec_link_count`; a count that is zero stays zero. */
  function Dec(nl: map<nat, nat>, i: nat): map<nat, nat> {
    nl[i := if Count(nl, i) > 0 then Count(nl, i) - 1 else 0]
  }

  /** The records that name inode `i`. */
  ghost function Refs(b: Names, i: nat): set<Key> {
    set k | k in b && b[k] == i
  }

  /** Every link count is the number of records that name the inode. */
  ghost predicate Links(b: Names, nl: map<nat, nat>) {
    forall i: nat :: Count(nl, i) == |Refs(b, i)|
  }

  lemma RefsAdd(b: Names, k: Key, i: nat, j: nat)
    requires k !in b
    ensures |Refs(b[k := i], j)| == |Refs(b, j)| + if j == i then 1 else 0
  {
    assert Refs(b[k := i], j) == if j == i then Refs(b, j) + {k} else Refs(b, j);
  }

  lemma RefsDrop(b: Names, k: Key, j: nat)
    requires k in b
    ensures |Refs(b - {k}, j)| == |Refs(b, j)| - if j == b[k] then 1 else 0
  {
    assert Refs(b - {k}, j) == if j == b[k] then Refs(b, j) - {k} else Refs(b, j);
  }

  lemma LinksAdd(b: Names, nl: map<nat, nat>, k: Key, i: nat)
    requires Links(b, nl) && k !in b
    ensures Links(b[k := i], Inc(nl, i))
  {
    hide Refs;
    forall j: nat
      ensures Count(Inc(nl, i), j) == |Refs(b[k := i], j)|
    {
      RefsAdd(b, k, i, j);
      assert Count(nl, j) == |Refs(b, j)|;
    }
  }

  lemma LinksDrop(b: Names, nl: map<nat, nat>, k: Key)
    requires Links(b, nl) && k in b
    ensures Links(b - {k}, Dec(nl, b[k])) && Count(nl, b[k]) > 0
  {
    Named(b, nl, k);
    hide Refs;
    forall j: nat
      ensures Count(Dec(nl, b[k]), j) == |Refs(b - {k}, j)|
    {
      RefsDrop(b, k, j);
      assert Count(nl, j) == |Refs(b, j)|;
    }
  }

  lemma LinksAgree(b: Names, nl: map<nat, nat>, nl': map<nat, nat>)
    requires Links(b, nl) && forall i: nat :: Count(nl', i) == Count(nl, i)
    ensures Links(b, nl')
  {
    hide Refs;
    forall i: nat
      ensures Count(nl', i) == |Refs(b, i)|
    {
      assert Count(nl', i) == Count(nl, i);
    }
  }

  lemma Named(b: Names, nl: map<nat, nat>, k: Key)
    requires Links(b, nl) && k in b
    ensures Count(nl, b[k]) > 0
  {
    assert k in Refs(b, b[k]);
    assert Count(nl, b[k]) == |Refs(b, b[k])|;
  }

  // ----- the tree -----

  predicate IsDir(b: Names, d: nat) {
    Key(d, Self) in b
  }

  function Home(home: map<nat, Key>, d: nat): Key {
    if d in home then home[d] else Key(d, Self)
  }

  /** A key belongs to a directory whose "." names itself, and if it is a proper name of a directory it
      is that directory's only one. */
  ghost predicate KeyOk(b: Names, home: map<nat, Key>, root: nat, k: Key) {
    k in b ==>
      && Key(k.dir, Self) in b && b[Key(k.dir, Self)] == k.dir
      && (k.lab.Child? && IsDir(b, b[k]) ==> b[k] != root && k == Home(home, b[k]))
  }

  /** Every directory has a ".." that names a directory, and all but the root have a proper name there. */
  ghost predicate UpOk(b: Names, home: map<nat, Key>, root: nat, d: nat) {
    IsDir(b, d) ==>
      && Key(d, Up) in b && IsDir(b, b[Key(d, Up)])
      && (d != root ==> Home(home, d).lab.Child? && Home(home, d) in b && b[Home(home, d)] == d &&
                        b[Key(d, Up)] == Home(home, d).dir)
  }

  /** The names form a tree; `home` gives the one proper name of every directory but the root. */
  ghost predicate Tree(b: Names, home: map<nat, Key>, root: nat) {
    && (forall k :: KeyOk(b, home, root, k))
    && (forall d: nat :: UpOk(b, home, root, d))
    && IsDir(b, root) && Key(root, Up) in b && b[Key(root, Up)] == root
  }

  ghost predicate NoChildren(b: Names, d: nat) {
    forall k :: k in b && k.dir == d ==> !k.lab.Child?
  }

  /** An empty directory is named twice: by its "." and by its parent. */
  lemma EmptyRefs(b: Names, home: map<nat, Key>, root: nat, k: Key)
    requires Tree(b, home, root) && k in b && k.lab.Child? && IsDir(b, b[k]) && NoChildren(b, b[k])
    ensures Refs(b, b[k]) == {k, Key(b[k], Self)}
  {
    var d := b[k];
    assert KeyOk(b, home, root, k);
    assert KeyOk(b, home, root, Key(d, Self));
    forall l | l in Refs(b, d)
      ensures l in {k, Key(d, Self)}
    {
      assert KeyOk(b, home, root, l);
      assert UpOk(b, home, root, l.dir);
      assert KeyOk(b, home, root, Home(home, l.dir));
    }
  }

  // ----- what the operations do to the names -----

  function Mkdir(b: Names, d: nat, n: Name, i: nat): Names {
    b[Key(i, Self) := i][Key(i, Up) := d][Key(d, Child(n)) := i]
  }

  function Rmdir(b: Names, k: Key): Names
    requires k in b
  {
    b - {k} - {Key(b[k], Self)} - {Key(b[k], Up)}
  }

  /** The names without what the new name of a rename is bound to. */
  function Cleared(b: Names, k: Key): Names {
    if k !in b then b else if IsDir(b, b[k]) then Rmdir(b, k) else b - {k}
  }

  /** One binding moves, and the ".." of a directory that changed its parent names the new one. */
  function Moved(b: Names, from: Key, to: Key): Names
    requires from in b
  {
    var e := b[to := b[from]] - {from};
    if IsDir(b, b[from]) && from.dir != to.dir then e[Key(b[from], Up) := to.dir] else e
  }

  // ----- the tree is kept -----

  /** Binding a name to an inode that is not a directory. */
  lemma BindTree(b: Names, home: map<nat, Key>, root: nat, k: Key, i: nat)
    requires Tree(b, home, root) && IsDir(b, k.dir) && k.lab.Child? && !IsDir(b, i)
    requires k in b ==> !IsDir(b, b[k])
    ensures Tree(b[k := i], home, root)
  {
    var c := b[k := i];
    forall l
      ensures KeyOk(c, home, root, l)
    {
      assert KeyOk(b, home, root, l);
      assert KeyOk(b, home, root, Key(k.dir, Self));
    }
    forall d: nat
      ensures UpOk(c, home, root, d)
    {
      assert UpOk(b, home, root, d);
    }
  }

  lemma UnbindTree(b: Names, home: map<nat, Key>, root: nat, k: Key)
    requires Tree(b, home, root) && k in b && k.lab.Child? && !IsDir(b, b[k])
    ensures Tree(b - {k}, home, root)
  {
    var c := b - {k};
    forall l
      ensures KeyOk(c, home, root, l)
    {
      assert KeyOk(b, home, root, l);
    }
    forall d: nat
      ensures UpOk(c, home, root, d)
    {
      assert UpOk(b, home, root, d);
    }
  }

  lemma MkdirTree(b: Names, home: map<nat, Key>, root: nat, d: nat, n: Name, i: nat)
    requires Tree(b, home, root) && IsDir(b, d) && Key(d, Child(n)) !in b && Refs(b, i) == {} && !IsDir(b, i)
    ensures Tree(Mkdir(b, d, n, i), home[i := Key(d, Child(n))], root)
  {
    var c, h := Mkdir(b, d, n, i), home[i := Key(d, Child(n))];
    forall l
      ensures KeyOk(c, h, root, l)
    {
      assert KeyOk(b, home, root, l);
      assert KeyOk(b, home, root, Key(d, Self));
      assert l in b ==> (b[l] == i ==> l in Refs(b, i));
    }
    forall e: nat
      ensures UpOk(c, h, root, e)
    {
      assert UpOk(b, home, root, e);
    }
  }

  lemma RmdirTree(b: Names, home: map<nat, Key>, root: nat, k: Key)
    requires Tree(b, home, root) && k in b && k.lab.Child? && IsDir(b, b[k]) && NoChildren(b, b[k])
    ensures Tree(Rmdir(b, k), home, root) && Refs(Rmdir(b, k), b[k]) == {}
  {
    var c, i := Rmdir(b, k), b[k];
    EmptyRefs(b, home, root, k);
    assert KeyOk(b, home, root, k);
    forall l
      ensures l !in Refs(c, i)
    {
      assert l in Refs(c, i) ==> l in Refs(b, i);
    }
    forall l
      ensures KeyOk(c, home, root, l)
    {
      assert KeyOk(b, home, root, l);
    }
    forall e: nat
      ensures UpOk(c, home, root, e)
    {
      assert UpOk(b, home, root, e);
      assert Key(e, Up) in b && b[Key(e, Up)] == i ==> Key(e, Up) in Refs(b, i);
    }
  }

  lemma MoveTree(b: Names, home: map<nat, Key>, root: nat, from: Key, to: Key)
    requires Tree(b, home, root) && from in b && from.lab.Child?
    requires to !in b && to.lab.Child? && IsDir(b, to.dir) && to.dir != b[from]
    ensures Tree(Moved(b, from, to), if IsDir(b, b[from]) then home[b[from] := to] else home, root)
  {
    var c, i := Moved(b, from, to), b[from];
    var h := if IsDir(b, i) then home[i := to] else home;
    assert KeyOk(b, home, root, from);
    assert KeyOk(b, home, root, Key(to.dir, Self));
    assert UpOk(b, home, root, i);
    forall l
      ensures KeyOk(c, h, root, l)
    {
      assert KeyOk(b, home, root, l);
    }
    forall e: nat
      ensures UpOk(c, h, root, e)
    {
      assert UpOk(b, home, root, e);
    }
  }

  // ----- the link counts are kept -----

  lemma LinksMkdir(b: Names, nl: map<nat, nat>, d: nat, n: Name, i: nat)
    requires Links(b, nl) && Key(d, Child(n)) !in b && !IsDir(b, i) && Key(i, Up) !in b && i != d
    ensures Links(Mkdir(b, d, n, i), Inc(Inc(Inc(nl, d), i), i))
  {
    LinksAdd(b, nl, Key(i, Self), i);
    var b1, nl1 := b[Key(i, Self) := i], Inc(nl, i);
    LinksAdd(b1, nl1, Key(i, Up), d);
    var b2, nl2 := b1[Key(i, Up) := d], Inc(nl1, d);
    LinksAdd(b2, nl2, Key(d, Child(n)), i);
    LinksAgree(Mkdir(b, d, n, i), Inc(nl2, i), Inc(Inc(Inc(nl, d), i), i));
  }

  lemma LinksRmdir(b: Names, nl: map<nat, nat>, home: map<nat, Key>, root: nat, k: Key)
    requires Links(b, nl) && Tree(b, home, root) && k in b && k.lab.Child? && IsDir(b, b[k])
    ensures Links(Rmdir(b, k), Dec(Dec(Dec(nl, b[k]), b[k]), k.dir))
  {
    var i := b[k];
    assert KeyOk(b, home, root, k);
    assert KeyOk(b, home, root, Key(i, Self));
    assert UpOk(b, home, root, i);
    LinksDrop(b, nl, k);
    LinksDrop(b - {k}, Dec(nl, i), Key(i, Self));
    LinksDrop(b - {k} - {Key(i, Self)}, Dec(Dec(nl, i), i), Key(i, Up));
  }

  lemma LinksMove(b: Names, nl: map<nat, nat>, home: map<nat, Key>, root: nat, from: Key, to: Key)
    requires Links(b, nl) && Tree(b, home, root) && from in b && from.lab.Child? && to !in b && to.lab.Child?
    ensures Links(Moved(b, from, to), if IsDir(b, b[from]) then Dec(Inc(nl, to.dir), from.dir) else nl)
  {
    var i := b[from];
    assert KeyOk(b, home, root, from);
    assert UpOk(b, home, root, i);
    LinksAdd(b, nl, to, i);
    LinksDrop(b[to := i], Inc(nl, i), from);
    var e, nl1 := b[to := i] - {from}, Dec(Inc(nl, i), i);
    LinksAgree(e, nl1, nl);
    if IsDir(b, i) {
      var up := Key(i, Up);
      if from.dir != to.dir {
        LinksDrop(e, nl, up);
        LinksAdd(e - {up}, Dec(nl, from.dir), up, to.dir);
        assert e[up := to.dir] == (e - {up})[up := to.dir];
        LinksAgree(e[up := to.dir], Inc(Dec(nl, from.dir), to.dir), Dec(Inc(nl, to.dir), from.dir));
      } else {
        LinksAgree(e, nl, Dec(Inc(nl, to.dir), from.dir));
      }
    }
  }

  // ----- rename -----

  /** What a rename may be asked for: proper names in directories, a moved directory not into itself,
      and a target of the same kind that, if a directory, is empty. */
  ghost predicate Movable(b: Names, from: Key, to: Key) {
    && from in b && from.lab.Child? && to.lab.Child? && IsDir(b, to.dir) && to.dir != b[from] && from.dir != b[from]
    && (to in b ==> b[to] != b[from] && (IsDir(b, b[to]) <==> IsDir(b, b[from])) &&
                    (IsDir(b, b[to]) ==> NoChildren(b, b[to])))
  }

  /** The link counts `rdfs_rename` leaves. */
  function Recounted(b: Names, nl: map<nat, nat>, from: Key, to: Key): map<nat, nat>
    requires from in b
  {
    if IsDir(b, b[from]) then
      if to in b then Dec(Dec(Dec(nl, b[to]), b[to]), from.dir) else Dec(Inc(nl, to.dir), from.dir)
    else
      if to in b then Dec(nl, b[to]) else nl
  }

  lemma ClearOk(b: Names, nl: map<nat, nat>, home: map<nat, Key>, root: nat, from: Key, to: Key)
    requires Links(b, nl) && Tree(b, home, root) && Movable(b, from, to) && to in b
    ensures var c := Cleared(b, to);
            && Tree(c, home, root) && to !in c && from in c && c[from] == b[from] && IsDir(c, to.dir)
            && (IsDir(c, b[from]) <==> IsDir(b, b[from]))
            && Links(c, if IsDir(b, b[to]) then Dec(Dec(Dec(nl, b[to]), b[to]), to.dir) else Dec(nl, b[to]))
  {
    if IsDir(b, b[to]) {
      assert KeyOk(b, home, root, from);
      LinksRmdir(b, nl, home, root, to);
      RmdirTree(b, home, root, to);
    } else {
      LinksDrop(b, nl, to);
      UnbindTree(b, home, root, to);
    }
  }

  /** A rename keeps the link counts and the tree. */
  lemma RenameKeeps(b: Names, nl: map<nat, nat>, home: map<nat, Key>, root: nat, from: Key, to: Key)
    requires Links(b, nl) && Tree(b, home, root) && Movable(b, from, to)
    ensures var c, i := Cleared(b, to), b[from];
            && from in c && Links(Moved(c, from, to), Recounted(b, nl, from, to))
            && Tree(Moved(c, from, to), if IsDir(b, i) then home[i := to] else home, root)
  {
    hide Links, Tree;
    var c, i := Cleared(b, to), b[from];
    if to in b {
      ClearOk(b, nl, home, root, from, to);
      MoveTree(c, home, root, from, to);
      Named(b, nl, to);
      if IsDir(b, i) {
        var nl1 := Dec(Dec(Dec(nl, b[to]), b[to]), to.dir);
        LinksMove(c, nl1, home, root, from, to);
        ToDirNamed(b, nl, home, root, to);
        LinksAgree(Moved(c, from, to), Dec(Inc(nl1, to.dir), from.dir), Recounted(b, nl, from, to));
      } else {
        LinksMove(c, Dec(nl, b[to]), home, root, from, to);
      }
    } else {
      LinksMove(b, nl, home, root, from, to);
      MoveTree(b, home, root, from, to);
    }
  }

  /** The parent of an empty directory is another directory, with a link. */
  lemma ToDirNamed(b: Names, nl: map<nat, nat>, home: map<nat, Key>, root: nat, k: Key)
    requires Links(b, nl) && Tree(b, home, root) && k in b && k.lab.Child? && NoChildren(b, b[k])
    ensures Count(nl, k.dir) > 0 && k.dir != b[k]
  {
    assert KeyOk(b, home, root, k);
    Named(b, nl, Key(k.dir, Self));
  }

  /** The keys a rename may change: the two names, the ".." of a moved directory, and the names of a
      replaced one. */
  predicate Touched(b: Names, from: Key, to: Key, k: Key)
    requires from in b
  {
    || k == to || k == from
    || (IsDir(b, b[from]) && k == Key(b[from], Up))
    || (to in b && IsDir(b, b[to]) && k.dir == b[to])
  }

  /** What a rename does, read off the map. */
  lemma RenameEffect(b: Names, home: map<nat, Key>, root: nat, from: Key, to: Key, k: Key)
    requires Tree(b, home, root) && Movable(b, from, to)
    ensures from in Cleared(b, to)
    ensures var e, i := Moved(Cleared(b, to), from, to), b[from];
            && (k == to ==> k in e && e[k] == i)
            && (k == from ==> k !in e)
            && (IsDir(b, i) && k == Key(i, Up) ==> k in e && e[k] == to.dir)
            && (to in b && IsDir(b, b[to]) && k.dir == b[to] ==> k !in e)
            && (!Touched(b, from, to, k) ==> (k in e <==> k in b) && (k in e ==> e[k] == b[k]))
  {
    assert KeyOk(b, home, root, from);
    assert UpOk(b, home, root, b[from]);
  }

  // ----- every directory reaches the root -----

  function UpOf(b: Names, d: nat): nat {
    if Key(d, Up) in b then b[Key(d, Up)] else d
  }

  /** Where `n` steps through ".." lead. */
  ghost function Climb(b: Names, d: nat, n: nat): nat
    decreases n
  {
    if n == 0 then d else Climb(b, UpOf(b, d), n - 1)
  }

  /** `a` is `d` or a directory above it. */
  ghost predicate Above(b: Names, a: nat, d: nat) {
    exists n: nat :: Climb(b, d, n) == a
  }

  /** From every directory ".." leads to the root, so the tree has no cycle. */
  ghost predicate Rooted(b: Names, root: nat) {
    forall d: nat :: IsDir(b, d) ==> Above(b, root, d)
  }

  lemma AboveStep(b: Names, a: nat, d: nat)
    requires Above(b, a, UpOf(b, d))
    ensures Above(b, a, d)
  {
    var n: nat :| Climb(b, UpOf(b, d), n) == a;
    assert Climb(b, d, n + 1) == a;
  }

  lemma NotAboveStep(b: Names, a: nat, d: nat)
    requires !Above(b, a, d)
    ensures a != d && !Above(b, a, UpOf(b, d))
  {
    assert Climb(b, d, 0) == d;
    if Above(b, a, UpOf(b, d)) {
      AboveStep(b, a, d);
    }
  }

  /** Ways that do not pass `i` stay the same when only the ".." of `i` changes. */
  lemma {:induction false} ClimbPast(b: Names, c: Names, i: nat, d: nat, n: nat)
    requires !Above(b, i, d) && forall e: nat :: e != i ==> UpOf(c, e) == UpOf(b, e)
    ensures Climb(c, d, n) == Climb(b, d, n)
    decreases n
  {
    if n > 0 {
      NotAboveStep(b, i, d);
      ClimbPast(b, c, i, UpOf(b, d), n - 1);
    }
  }

  lemma AbovePast(b: Names, c: Names, i: nat, a: nat, d: nat)
    requires !Above(b, i, d) && forall e: nat :: e != i ==> UpOf(c, e) == UpOf(b, e)
    ensures Above(c, a, d) <==> Above(b, a, d)
  {
    if Above(b, a, d) {
      var n: nat :| Climb(b, d, n) == a;
      ClimbPast(b, c, i, d, n);
    }
    if Above(c, a, d) {
      var n: nat :| Climb(c, d, n) == a;
      ClimbPast(b, c, i, d, n);
    }
  }

  /** Ways that pass `i` lead to the root if the way from `i` does. */
  lemma {:induction false} Rerouted(b: Names, c: Names, root: nat, i: nat, d: nat, n: nat)
    requires Climb(b, d, n) == root && Above(c, root, i) && forall e: nat :: e != i ==> UpOf(c, e) == UpOf(b, e)
    ensures Above(c, root, d)
    decreases n
  {
    if n == 0 {
      assert Climb(c, d, 0) == root;
    } else if d != i {
      Rerouted(b, c, root, i, UpOf(b, d), n - 1);
      AboveStep(c, root, d);
    }
  }

  /** A directory that no ".." names is above itself alone. */
  lemma {:induction false} NothingBelow(b: Names, i: nat, d: nat, n: nat)
    requires d != i && forall e: nat :: e != i ==> UpOf(b, e) != i
    ensures Climb(b, d, n) != i
    decreases n
  {
    if n > 0 {
      NothingBelow(b, i, UpOf(b, d), n - 1);
    }
  }

  lemma NotAbove(b: Names, i: nat, d: nat)
    requires d != i && forall e: nat :: e != i ==> UpOf(b, e) != i
    ensures !Above(b, i, d)
  {
    forall n: nat
      ensures Climb(b, d, n) != i
    {
      NothingBelow(b, i, d, n);
    }
  }

  /** Names other than ".." do not matter. */
  lemma RootedSame(b: Names, c: Names, root: nat)
    requires Rooted(b, root) && forall e: nat :: UpOf(c, e) == UpOf(b, e) && (IsDir(c, e) ==> IsDir(b, e))
    ensures Rooted(c, root)
  {
    forall d: nat | IsDir(c, d)
      ensures Above(c, root, d)
    {
      var n: nat :| Climb(b, d, n) == root;
      ClimbSame(b, c, d, n);
    }
  }

  lemma {:induction false} ClimbSame(b: Names, c: Names, d: nat, n: nat)
    requires forall e: nat :: UpOf(c, e) == UpOf(b, e)
    ensures Climb(c, d, n) == Climb(b, d, n)
    decreases n
  {
    if n > 0 {
      ClimbSame(b, c, UpOf(b, d), n - 1);
    }
  }

  lemma MkdirRooted(b: Names, root: nat, d: nat, n: Name, i: nat)
    requires Rooted(b, root) && IsDir(b, d) && d != i && forall k :: k in b ==> k.dir != i && b[k] != i
    ensures Rooted(Mkdir(b, d, n, i), root)
  {
    var c := Mkdir(b, d, n, i);
    forall e: nat | IsDir(c, e)
      ensures Above(c, root, e)
    {
      NotAbove(b, i, d);
      AbovePast(b, c, i, root, d);
      AboveStep(c, root, i);
      if e != i {
        assert Above(b, root, e);
        var m: nat :| Climb(b, e, m) == root;
        Rerouted(b, c, root, i, e, m);
      }
    }
  }

  lemma RmdirRooted(b: Names, home: map<nat, Key>, root: nat, k: Key)
    requires Tree(b, home, root) && Rooted(b, root)
    requires k in b && k.lab.Child? && IsDir(b, b[k]) && NoChildren(b, b[k])
    ensures Rooted(Rmdir(b, k), root)
    ensures forall a: nat, d: nat :: d != b[k] ==> (Above(Rmdir(b, k), a, d) <==> Above(b, a, d))
  {
    var c, i := Rmdir(b, k), b[k];
    EmptyRefs(b, home, root, k);
    forall e: nat | e != i
      ensures UpOf(b, e) != i && UpOf(c, e) == UpOf(b, e)
    {
      assert Key(e, Up) in b && b[Key(e, Up)] == i ==> Key(e, Up) in Refs(b, i);
    }
    forall a: nat, d: nat | d != i
      ensures Above(c, a, d) <==> Above(b, a, d)
    {
      NotAbove(b, i, d);
      AbovePast(b, c, i, a, d);
    }
  }

  /** A directory may move anywhere but below itself. */
  lemma MoveRooted(b: Names, home: map<nat, Key>, root: nat, from: Key, to: Key)
    requires Tree(b, home, root) && Rooted(b, root) && from in b && from.lab.Child? && to.lab.Child?
    requires IsDir(b, to.dir) && (IsDir(b, b[from]) ==> !Above(b, b[from], to.dir))
    ensures Rooted(Moved(b, from, to), root)
  {
    var c, i := Moved(b, from, to), b[from];
    if IsDir(b, i) && from.dir != to.dir {
      assert UpOk(b, home, root, i);
      AbovePast(b, c, i, root, to.dir);
      AboveStep(c, root, i);
      forall d: nat | IsDir(c, d)
        ensures Above(c, root, d)
      {
        assert Above(b, root, d);
        var n: nat :| Climb(b, d, n) == root;
        Rerouted(b, c, root, i, d, n);
      }
    } else {
      RootedSame(b, c, root);
    }
  }

  /** A rename that does not move a directory below itself keeps every directory below the root. */
  lemma RenameRooted(b: Names, home: map<nat, Key>, root: nat, nl: map<nat, nat>, from: Key, to: Key)
    requires Links(b, nl) && Tree(b, home, root) && Rooted(b, root) && Movable(b, from, to)
    requires IsDir(b, b[from]) ==> !Above(b, b[from], to.dir)
    ensures from in Cleared(b, to) && Rooted(Moved(Cleared(b, to), from, to), root)
  {
    hide Above, Rooted;
    if to in b {
      ClearOk(b, nl, home, root, from, to);
      if IsDir(b, b[to]) {
        RmdirRooted(b, home, root, to);
      } else {
        RootedSame(b, b - {to}, root);
      }
    }
    MoveRooted(Cleared(b, to), home, root, from, to);
  }
}
