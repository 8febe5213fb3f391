/** The pages a teardown of an inode's page tables visits: each level is scanned from its first
    entry up to the first empty one. */
module PageScan {
  import opened Machine
  import opened PageUses

  ghost function Level(u: Use): nat {
    match u
    case Root(_) => 3
    case Pmd(_, _) => 2
    case Pte(_, _, _) => 1
    case _ => 0
  }

  /** `x` is `u` itself or lies in the subtree of tables and blocks under `u`. */
  ghost predicate Below(u: Use, x: Use) {
    match u
    case Root(ino) => Owned(x, ino)
    case Pmd(ino, a) => (x.Pmd? || x.Pte? || x.Data?) && x.ino == ino && x.a == a
    case Pte(ino, a, b) => (x.Pte? || x.Data?) && x.ino == ino && x.a == a && x.b == b
    case _ => x == u
  }

  /** The index of the first empty entry of table `u`, at or after `i`. */
  ghost function GapFrom(at: map<Use, nat>, u: Use, i: nat): (g: nat)
    requires IsTable(u) && i <= PTRS_PER_TABLE
    ensures i <= g <= PTRS_PER_TABLE
    ensures forall j: nat :: i <= j < g ==> Child(u, j) in at
    ensures g < PTRS_PER_TABLE ==> Child(u, g) !in at
    decreases PTRS_PER_TABLE - i
  {
    if i < PTRS_PER_TABLE && Child(u, i) in at then GapFrom(at, u, i + 1) else i
  }

  ghost function Gap(at: map<Use, nat>, u: Use): nat
    requires IsTable(u)
  {
    GapFrom(at, u, 0)
  }

  /** The uses below the first `n` children of table `u` that the teardown reaches. */
  ghost function ScanTo(at: map<Use, nat>, u: Use, n: nat): set<Use>
    requires IsTable(u)
    decreases Level(u), 0, n
  {
    if n == 0 then {} else ScanTo(at, u, n - 1) + Scan(at, Child(u, n - 1))
  }

  /** The uses the teardown of `u` reaches. */
  ghost function Scan(at: map<Use, nat>, u: Use): set<Use>
    decreases Level(u), 1
  {
    if IsTable(u) then ScanTo(at, u, Gap(at, u)) + {u} else {u}
  }

  lemma GapIs(at: map<Use, nat>, u: Use, g: nat)
    requires IsTable(u) && g <= PTRS_PER_TABLE
    requires forall j: nat :: j < g ==> Child(u, j) in at
    requires g < PTRS_PER_TABLE ==> Child(u, g) !in at
    ensures Gap(at, u) == g
  {
  }

  lemma {:induction false} ScanToBelow(at: map<Use, nat>, u: Use, n: nat, x: Use)
    requires IsTable(u) && x in ScanTo(at, u, n)
    ensures HasParent(x) && Below(u, x) && x != u
    ensures exists i: nat :: i < n && Below(Child(u, i), x) && x in Scan(at, Child(u, i))
    decreases Level(u), 0, n
  {
    if x in ScanTo(at, u, n - 1) {
      ScanToBelow(at, u, n - 1, x);
    } else {
      ScanBelow(at, Child(u, n - 1), x);
    }
  }

  lemma {:induction false} ScanBelow(at: map<Use, nat>, u: Use, x: Use)
    requires x in Scan(at, u)
    ensures Below(u, x)
    decreases Level(u), 1
  {
    if IsTable(u) && x != u {
      ScanToBelow(at, u, Gap(at, u), x);
    }
  }

  /** What a scan reaches depends only on the uses below its table. */
  lemma {:induction false} ScanToFrame(at: map<Use, nat>, bt: map<Use, nat>, u: Use, n: nat)
    requires IsTable(u) && n <= PTRS_PER_TABLE
    requires forall x :: Below(u, x) ==> (x in at <==> x in bt)
    ensures ScanTo(at, u, n) == ScanTo(bt, u, n)
    decreases Level(u), 0, n
  {
    if n > 0 {
      ScanToFrame(at, bt, u, n - 1);
      assert forall x :: Below(Child(u, n - 1), x) ==> Below(u, x);
      ScanFrame(at, bt, Child(u, n - 1));
    }
  }

  lemma {:induction false} ScanFrame(at: map<Use, nat>, bt: map<Use, nat>, u: Use)
    requires forall x :: Below(u, x) ==> (x in at <==> x in bt)
    ensures Scan(at, u) == Scan(bt, u)
    decreases Level(u), 1
  {
    if IsTable(u) {
      assert forall i: nat :: Below(u, Child(u, i));
      GapIs(bt, u, Gap(at, u));
      ScanToFrame(at, bt, u, Gap(at, u));
    }
  }

  /** No table of inode `ino` has an empty entry before a used one. */
  ghost predicate GapFree(v: Pool, ino: Ino) {
    forall u, i: nat, j: nat :: IsTable(u) && u.ino == ino && i < j && Child(u, j) in v.at ==> Child(u, i) in v.at
  }

  lemma {:induction false} ScanToHolds(at: map<Use, nat>, u: Use, n: nat, i: nat, x: Use)
    requires IsTable(u) && i < n && x in Scan(at, Child(u, i))
    ensures x in ScanTo(at, u, n)
    decreases n
  {
    hide Scan, Child, IsTable;
    if i < n - 1 {
      ScanToHolds(at, u, n - 1, i, x);
    }
  }

  /** A used child of a gap-free table is scanned with it. */
  lemma ScanReaches(v: Pool, ino: Ino, u: Use, i: nat, x: Use)
    requires TreeOk(v, ino) && GapFree(v, ino) && IsTable(u) && u.ino == ino
    requires Child(u, i) in v.at && x in Scan(v.at, Child(u, i))
    ensures x in Scan(v.at, u)
  {
    var g := Gap(v.at, u);
    assert HasParent(Child(u, i)) && Index(Child(u, i)) == i;
    assert i < PTRS_PER_TABLE;
    assert forall k: nat :: k <= i ==> Child(u, k) in v.at;
    assert i < g;
    ScanToHolds(v.at, u, g, i, x);
  }

  lemma SelfScanned(at: map<Use, nat>, u: Use)
    ensures u in Scan(at, u)
  {
  }

  /** The teardown reaches every page of an inode exactly when its tables have no gap. */
  lemma {:induction false} ScanIsEverythingIffGapFree(v: Pool, ino: Ino)
    requires TreeOk(v, ino) && Root(ino) in v.at
    ensures (forall x :: x in v.at && Owned(x, ino) ==> x in Scan(v.at, Root(ino))) <==> GapFree(v, ino)
  {
    if GapFree(v, ino) {
      forall x | x in v.at && Owned(x, ino)
        ensures x in Scan(v.at, Root(ino))
      {
        ScanReachesUse(v, ino, x);
      }
    }
    if forall x :: x in v.at && Owned(x, ino) ==> x in Scan(v.at, Root(ino)) {
      forall u, i: nat, j: nat | IsTable(u) && u.ino == ino && i < j && Child(u, j) in v.at
        ensures Child(u, i) in v.at
      {
        ScannedSiblings(v.at, Root(ino), u, i, j);
      }
    }
  }

  lemma {:induction false} ScanReachesUse(v: Pool, ino: Ino, x: Use)
    requires TreeOk(v, ino) && GapFree(v, ino) && x in v.at && Owned(x, ino)
    ensures x in Scan(v.at, Root(ino))
  {
    SelfScanned(v.at, x);
    var u := x;
    while HasParent(u)
      invariant u in v.at && Owned(u, ino) && x in Scan(v.at, u)
      decreases 3 - Level(u)
    {
      var t := Parent(u);
      assert Child(t, Index(u)) == u;
      ScanReaches(v, ino, t, Index(u), x);
      u := t;
    }
  }

  lemma {:induction false} ScannedSiblings(at: map<Use, nat>, t: Use, u: Use, i: nat, j: nat)
    requires IsTable(t) && IsTable(u) && i < j && Below(t, u)
    requires Child(u, j) in Scan(at, t)
    ensures Child(u, i) in at
    decreases Level(t)
  {
    var x := Child(u, j);
    ScanToBelow(at, t, Gap(at, t), x);
    var k: nat :| k < Gap(at, t) && Below(Child(t, k), x) && x in Scan(at, Child(t, k));
    if t != u {
      assert Below(Child(t, k), u);
      ScannedSiblings(at, Child(t, k), u, i, j);
    }
  }
}
