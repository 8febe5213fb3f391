/** Directories in which `rdfs_add_link` gives up before it reaches the end: every turn of its outer loop begins where
    the last one stopped and passes less than a page, so from 15 pages on the turns may not reach the end. */
module DirGivesUp {
  import opened DirRecords
  import opened DirRuns
  import opened Machine

  /** A name of two bytes for each number below 65536. */
  function NameAt(j: nat): Name
    requires j < 0x1_0000
  {
    [j / 256, j % 256]
  }

  /** Records of 240 bytes that the turns over `n` pages pass. */
  function Passing(n: nat): nat {
    16 * n + 15
  }

  /** Record `j` behind "..": 240 bytes where the turns pass, and 256 bytes in the rest of the pages. */
  function FileAt(n: nat, ino: nat, j: nat): Rec
    requires j < 0x1_0000
  {
    Rec(ino, if j < Passing(n) then 240 else 256, 1, NameAt(j))
  }

  /** A directory of `n` pages, full of links to inode `ino`. */
  function Crowded(n: nat, self: nat, ino: nat): (rs: seq<Rec>)
    requires 15 <= n <= 512
    ensures |rs| == 2 + Passing(n) + (n - 15)
  {
    [Rec(self, 16, FT_DIR, DOT), Rec(self, 224, FT_DIR, DOTDOT)] +
    seq(Passing(n) + (n - 15), j requires 0 <= j < Passing(n) + (n - 15) => FileAt(n, ino, j))
  }

  lemma CrowdedAt(n: nat, self: nat, ino: nat, k: nat)
    requires 15 <= n <= 512 && 2 <= k < |Crowded(n, self, ino)|
    ensures Crowded(n, self, ino)[k] == FileAt(n, ino, k - 2)
  {
  }

  lemma {:induction false} CrowdedOff(n: nat, self: nat, ino: nat, k: nat)
    requires 15 <= n <= 512 && 2 <= k <= |Crowded(n, self, ino)|
    ensures Off(Crowded(n, self, ino), k) ==
            if k - 2 <= Passing(n) then 240 * (k - 1) else 240 * (Passing(n) + 1) + 256 * (k - 2 - Passing(n))
  {
    var rs := Crowded(n, self, ino);
    if k == 2 {
      assert Off(rs, 0) == 0;
      assert Off(rs, 1) == 16;
    } else {
      CrowdedOff(n, self, ino, k - 1);
      CrowdedAt(n, self, ino, k - 1);
    }
  }

  lemma NamesDiffer(i: nat, j: nat)
    requires i < j < 11822
    ensures NameAt(i) != NameAt(j) && NameAt(i) != DOTDOT && NameAt(j) != DOTDOT
  {
    assert i == i / 256 * 256 + i % 256 && j == j / 256 * 256 + j % 256;
  }

  lemma CrowdedOk(n: nat, self: nat, ino: nat)
    requires 15 <= n <= 512 && self != 0 && ino != 0
    ensures DirOk(Crowded(n, self, ino)) && Size(Crowded(n, self, ino)) == n * PAGE_SIZE
  {
    var rs := Crowded(n, self, ino);
    CrowdedOff(n, self, ino, |rs|);
    FrontIs(n, self, ino);
    CrowdedRecords(n, self, ino);
    CrowdedUnique(n, self, ino);
    hide Crowded, AllOk, Unique, RecOk, Off;
  }

  lemma CrowdedRecords(n: nat, self: nat, ino: nat)
    requires 15 <= n <= 512
    ensures AllOk(Crowded(n, self, ino))
  {
    var rs := Crowded(n, self, ino);
    FrontIs(n, self, ino);
    hide Crowded;
    forall i: nat | i < |rs|
      ensures RecOk(rs[i])
    {
      if i >= 2 {
        CrowdedAt(n, self, ino, i);
      }
    }
  }

  lemma CrowdedUnique(n: nat, self: nat, ino: nat)
    requires 15 <= n <= 512
    ensures Unique(Crowded(n, self, ino))
  {
    var rs := Crowded(n, self, ino);
    hide Crowded;
    forall i: nat, j: nat | i < j < |rs|
      ensures rs[i].name != rs[j].name
    {
      CrowdedNames(n, self, ino, i, j);
    }
  }

  lemma FrontIs(n: nat, self: nat, ino: nat)
    requires 15 <= n <= 512
    ensures Crowded(n, self, ino)[0] == Rec(self, 16, FT_DIR, DOT)
    ensures Crowded(n, self, ino)[1] == Rec(self, 224, FT_DIR, DOTDOT)
  {
  }

  lemma CrowdedNames(n: nat, self: nat, ino: nat, i: nat, j: nat)
    requires 15 <= n <= 512 && i < j < |Crowded(n, self, ino)|
    ensures Crowded(n, self, ino)[i].name != Crowded(n, self, ino)[j].name
  {
    FrontIs(n, self, ino);
    if j >= 2 {
      CrowdedAt(n, self, ino, j);
      if i >= 2 {
        CrowdedAt(n, self, ino, i);
        NamesDiffer(i - 2, j - 2);
      } else {
        NamesDiffer(j - 2, 11821);
      }
    }
  }

  // ----- the scan -----

  /** A name too long for the slack of any record. */
  function LongName(): (name: Name)
    ensures |name| == MAX_NAME && RecLen(|name|) == 268
  {
    seq(MAX_NAME, _ => 97)
  }

  lemma PassedBy(n: nat, self: nat, ino: nat, k: nat)
    requires 15 <= n <= 512 && k < |Crowded(n, self, ino)|
    ensures var r := Crowded(n, self, ino)[k]; !Match(r, LongName()) && !HasRoom(r, 268) && |r.name| < MAX_NAME
    ensures k >= 2 ==> Crowded(n, self, ino)[k].recLen == if k - 2 < Passing(n) then 240 else 256
  {
    if k >= 2 {
      CrowdedAt(n, self, ino, k);
    }
  }

  /** Within turn `t` the scan runs from record `k` to the first one past the limit. */
  lemma {:induction false} WithinTurn(n: nat, self: nat, ino: nat, t: nat, k: nat)
    requires 15 <= n <= 512 && t <= n && 16 * t + 1 <= k <= 16 * t + 17 && k >= 2
    ensures var rs := Crowded(n, self, ino); var limit := 3840 * t + 3828;
            16 * t + 17 <= |rs| &&
            ScanFrom(rs, LongName(), k, 240 * (k - 1), limit, t) ==
            ScanFrom(rs, LongName(), 16 * t + 17, 3840 * (t + 1), limit, t)
    decreases 16 * t + 17 - k
  {
    hide ScanFrom, Crowded, LongName;
    if k < 16 * t + 17 {
      PassedBy(n, self, ino, k);
      ScanUnfold(Crowded(n, self, ino), LongName(), k, 240 * (k - 1), 3840 * t + 3828, t);
      WithinTurn(n, self, ino, t, k + 1);
    }
  }

  /** From turn `t` on the scan gives up. */
  lemma {:induction false} TurnsRunOut(n: nat, self: nat, ino: nat, t: nat, k: nat)
    requires 15 <= n <= 512 && t <= n && k == (if t == 0 then 2 else 16 * t + 1)
    ensures var rs := Crowded(n, self, ino);
            k <= |rs| && ScanFrom(rs, LongName(), k, 240 * (k - 1), 3840 * t + 3828, t) == GaveUp
    decreases n - t
  {
    hide ScanFrom, Crowded, LongName;
    var rs := Crowded(n, self, ino);
    CrowdedOff(n, self, ino, |rs|);
    assert Size(rs) / PAGE_SIZE == n;
    WithinTurn(n, self, ino, t, k);
    ScanUnfold(rs, LongName(), 16 * t + 17, 3840 * (t + 1), 3840 * t + 3828, t);
    if t < n {
      TurnsRunOut(n, self, ino, t + 1, 16 * t + 17);
    }
  }

  /** In a crowded directory an absent name is not inserted, whatever its inode. */
  lemma CrowdedGivesUp(n: nat, self: nat, ino: nat)
    requires 15 <= n <= 512 && self != 0 && ino != 0
    ensures var rs := Crowded(n, self, ino); Absent(rs, LongName()) && Scan(rs, LongName()) == GaveUp
  {
    hide ScanFrom, Crowded, LongName;
    var rs, name := Crowded(n, self, ino), LongName();
    PassedBy(n, self, ino, 0);
    PassedBy(n, self, ino, 1);
    FrontIs(n, self, ino);
    ScanUnfold(rs, name, 0, 0, 3828, 0);
    ScanUnfold(rs, name, 1, 16, 3828, 0);
    TurnsRunOut(n, self, ino, 0, 2);
    forall k: nat | k < |rs|
      ensures rs[k].name != name
    {
      PassedBy(n, self, ino, k);
    }
  }

  /** Some directory of `n` pages, up to the largest, refuses an absent name that way if and only if it has at least
      15 pages. */
  lemma GivesUpIff(n: nat)
    requires 0 < n && n * PAGE_SIZE <= MAX_DIR_SIZE
    ensures (exists rs: seq<Rec>, name: Name ::
               DirOk(rs) && Size(rs) == n * PAGE_SIZE && 0 < |name| <= MAX_NAME && Absent(rs, name) &&
               Scan(rs, name).GaveUp?)
            <==> n >= 15
  {
    if n >= 15 {
      var rs, name := Crowded(n, 1, 2), LongName();
      CrowdedOk(n, 1, 2);
      CrowdedGivesUp(n, 1, 2);
      hide Crowded, LongName, DirOk, Size, Absent, Scan;
      assert DirOk(rs) && Size(rs) == n * PAGE_SIZE && 0 < |name| <= MAX_NAME && Absent(rs, name) &&
             Scan(rs, name).GaveUp?;
    } else {
      forall rs: seq<Rec>, name: Name | DirOk(rs) && Size(rs) == n * PAGE_SIZE && 0 < |name| <= MAX_NAME
        ensures !Scan(rs, name).GaveUp?
      {
        DirSize(rs);
        SmallDirectoriesNeverGiveUp(rs, name);
      }
    }
  }
}
