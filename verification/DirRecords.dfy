/** Directory records as a list: what lookup, insert and delete (dir.c) do to the records that tile a
    directory, and to the finite map from names to inodes that the live ones stand for. */
module DirRecords {
  import opened Bytes
  import opened Machine

  type Name = seq<Byte>

  const HEADER := 12
  const MAX_NAME := 255
  const REC_LEN_LIMIT := 0x1_0000

  /** One record: inode number (0 when dead), length in bytes, file type and name. */
  datatype Rec = Rec(ino: nat, recLen: nat, ftype: Byte, name: Name)

  /** `RDFS_DIR_REC_LEN`: header and name, rounded up to four. */
  function RecLen(n: nat): (l: nat)
    ensures l % 4 == 0 && HEADER + n <= l <= HEADER + n + 3
  {
    (n + HEADER + 3) / 4 * 4
  }

  predicate Live(r: Rec) {
    r.ino != 0
  }

  /** `rdfs_match`. */
  predicate Match(r: Rec, name: Name) {
    |r.name| == |name| && r.ino != 0 && r.name == name
  }

  /** The offset of record `i`. */
  function Off(rs: seq<Rec>, i: nat): nat
    requires i <= |rs|
  {
    if i == 0 then 0 else Off(rs, i - 1) + rs[i - 1].recLen
  }

  function Size(rs: seq<Rec>): nat {
    Off(rs, |rs|)
  }

  /** A record has room for its own header and name, and a length that its field can hold. */
  predicate RecOk(r: Rec) {
    0 < |r.name| <= MAX_NAME && RecLen(|r.name|) <= r.recLen < REC_LEN_LIMIT
  }

  ghost predicate AllOk(rs: seq<Rec>) {
    forall i: nat :: i < |rs| ==> RecOk(rs[i])
  }

  /** No two live records have the same name. */
  ghost predicate Unique(rs: seq<Rec>) {
    forall i: nat, j: nat :: i < j < |rs| && Live(rs[i]) && Live(rs[j]) ==> rs[i].name != rs[j].name
  }

  /** The directory as a finite map: the live records, by name. */
  ghost function Entries(rs: seq<Rec>): (m: map<Name, nat>)
    requires Unique(rs)
    ensures forall i: nat :: i < |rs| && Live(rs[i]) ==> rs[i].name in m && m[rs[i].name] == rs[i].ino
    ensures forall n :: n in m ==> exists i: nat :: i < |rs| && Live(rs[i]) && rs[i].name == n
  {
    if rs == [] then map[] else
      var last := |rs| - 1;
      var m := Entries(rs[..last]);
      assert forall i: nat :: i < last ==> rs[..last][i] == rs[i];
      if Live(rs[last]) then m[rs[last].name := rs[last].ino] else m
  }

  /** A map with the live records as its bindings is the directory's map. */
  lemma EntriesAre(rs: seq<Rec>, m: map<Name, nat>)
    requires Unique(rs)
    requires forall i: nat :: i < |rs| && Live(rs[i]) ==> rs[i].name in m && m[rs[i].name] == rs[i].ino
    requires forall n :: n in m ==> exists i: nat :: i < |rs| && Live(rs[i]) && rs[i].name == n
    ensures Entries(rs) == m
  {
    hide Entries, Unique, Live;
    forall n | n in m
      ensures n in Entries(rs) && Entries(rs)[n] == m[n]
    {
      var i: nat :| i < |rs| && Live(rs[i]) && rs[i].name == n;
    }
    forall n | n in Entries(rs)
      ensures n in m
    {
      var i: nat :| i < |rs| && Live(rs[i]) && rs[i].name == n;
    }
  }

  ghost predicate Absent(rs: seq<Rec>, name: Name) {
    forall i: nat :: i < |rs| && Live(rs[i]) ==> rs[i].name != name
  }

  // ----- lookup -----

  /** The index of the record `rdfs_find_entry2` stops at; `|rs|` when there is none. */
  function FindFrom(rs: seq<Rec>, name: Name, i: nat): (k: nat)
    requires i <= |rs|
    ensures i <= k <= |rs|
    ensures k < |rs| ==> Match(rs[k], name)
    ensures forall j: nat :: i <= j < k ==> !Match(rs[j], name)
    decreases |rs| - i
  {
    if i == |rs| || Match(rs[i], name) then i else FindFrom(rs, name, i + 1)
  }

  function Find(rs: seq<Rec>, name: Name): nat {
    FindFrom(rs, name, 0)
  }

  lemma FindUnfold(rs: seq<Rec>, name: Name, i: nat)
    requires i <= |rs|
    ensures FindFrom(rs, name, i) == if i == |rs| || Match(rs[i], name) then i else FindFrom(rs, name, i + 1)
  {
    hide Match;
  }

  /** Lookup reads the map. */
  lemma FindReadsEntries(rs: seq<Rec>, name: Name)
    requires Unique(rs)
    ensures var k := Find(rs, name);
            && k <= |rs|
            && (k < |rs| <==> name in Entries(rs))
            && (k < |rs| ==> Entries(rs)[name] == rs[k].ino && rs[k].ino != 0)
            && (k == |rs| <==> Absent(rs, name))
  {
    var k := Find(rs, name);
    if name in Entries(rs) {
      var i: nat :| i < |rs| && Live(rs[i]) && rs[i].name == name;
      assert Match(rs[i], name);
    }
  }

  // ----- insert -----

  /** Record `r` can take a new record of `need` bytes. */
  predicate HasRoom(r: Rec, need: nat) {
    (r.ino == 0 && r.recLen >= need) || r.recLen >= RecLen(|r.name|) + need
  }

  datatype Probe = Exists(at: nat) | Fit(at: nat) | AtEnd | GaveUp

  /** The scan of `rdfs_add_link` from record `k` at offset `o`.  The outer loop runs at most once
      more than the directory has pages; each turn looks at records up to `limit`. */
  function ScanFrom(rs: seq<Rec>, name: Name, k: nat, o: nat, limit: int, turn: nat): Probe
    requires k <= |rs|
    decreases |rs| - k, if turn <= Size(rs) / PAGE_SIZE then Size(rs) / PAGE_SIZE + 1 - turn else 0
  {
    var need := RecLen(|name|);
    if o > limit then
      if turn >= Size(rs) / PAGE_SIZE then GaveUp
      else ScanFrom(rs, name, k, o, o + PAGE_SIZE - need, turn + 1)
    else if k == |rs| then AtEnd
    else if Match(rs[k], name) then Exists(k)
    else if HasRoom(rs[k], need) then Fit(k)
    else ScanFrom(rs, name, k + 1, o + rs[k].recLen, limit, turn)
  }

  function Scan(rs: seq<Rec>, name: Name): Probe {
    ScanFrom(rs, name, 0, 0, PAGE_SIZE - RecLen(|name|), 0)
  }

  /** One turn of the scan. */
  lemma ScanUnfold(rs: seq<Rec>, name: Name, k: nat, o: nat, limit: int, turn: nat)
    requires k <= |rs|
    ensures var need, p := RecLen(|name|), ScanFrom(rs, name, k, o, limit, turn);
            if o > limit then
              p == if turn >= Size(rs) / PAGE_SIZE then GaveUp
                   else ScanFrom(rs, name, k, o, o + PAGE_SIZE - need, turn + 1)
            else if k == |rs| then p == AtEnd
            else if Match(rs[k], name) then p == Exists(k)
            else if HasRoom(rs[k], need) then p == Fit(k)
            else p == ScanFrom(rs, name, k + 1, o + rs[k].recLen, limit, turn)
  {
  }

  /** What the scan finds: the first record that matches or has room, or the end when there is none. */
  lemma {:induction false} ScanFinds(rs: seq<Rec>, name: Name, k: nat, o: nat, limit: int, turn: nat)
    requires k <= |rs|
    requires forall j: nat :: j < k ==> !Match(rs[j], name) && !HasRoom(rs[j], RecLen(|name|))
    ensures var p := ScanFrom(rs, name, k, o, limit, turn);
            && (p.Exists? ==> p.at < |rs| && Match(rs[p.at], name))
            && (p.Fit? ==> p.at < |rs| && HasRoom(rs[p.at], RecLen(|name|)) && !Match(rs[p.at], name))
            && (p.Exists? || p.Fit? ==>
                  forall j: nat :: j < p.at ==> !Match(rs[j], name) && !HasRoom(rs[j], RecLen(|name|)))
            && (p.AtEnd? ==> forall j: nat :: j < |rs| ==> !Match(rs[j], name) && !HasRoom(rs[j], RecLen(|name|)))
    decreases |rs| - k, if turn <= Size(rs) / PAGE_SIZE then Size(rs) / PAGE_SIZE + 1 - turn else 0
  {
    if o > limit {
      if turn < Size(rs) / PAGE_SIZE {
        ScanFinds(rs, name, k, o, o + PAGE_SIZE - RecLen(|name|), turn + 1);
      }
    } else if k < |rs| && !Match(rs[k], name) && !HasRoom(rs[k], RecLen(|name|)) {
      ScanFinds(rs, name, k + 1, o + rs[k].recLen, limit, turn);
    }
  }

  /** The scan gives up only in directories so large that a window per page does not reach the end:
      each turn passes more than a page less the new record, so up to 14 pages it always does. */
  lemma {:induction false} ScanReachesEnd(rs: seq<Rec>, name: Name, k: nat, o: nat, limit: int, turn: nat)
    requires k <= |rs| && o == Off(rs, k) && turn <= Size(rs) / PAGE_SIZE && |name| <= MAX_NAME
    requires limit >= Passed(turn, RecLen(|name|)) + PAGE_SIZE - RecLen(|name|)
    requires Passed(Size(rs) / PAGE_SIZE + 1, RecLen(|name|)) > Size(rs)
    ensures !ScanFrom(rs, name, k, o, limit, turn).GaveUp?
    decreases |rs| - k, if turn <= Size(rs) / PAGE_SIZE then Size(rs) / PAGE_SIZE + 1 - turn else 0
  {
    hide Passed, Match, HasRoom;
    var need := RecLen(|name|);
    OffGrows(rs, k, |rs|);
    PassedNext(turn, need);
    hide RecLen;
    if o > limit {
      if turn < Size(rs) / PAGE_SIZE {
        ScanReachesEnd(rs, name, k, o, o + PAGE_SIZE - need, turn + 1);
      }
    } else if k < |rs| && !Match(rs[k], name) && !HasRoom(rs[k], need) {
      ScanReachesEnd(rs, name, k + 1, o + rs[k].recLen, limit, turn);
    }
  }

  /** What `turn` turns pass at least. */
  function Passed(turn: nat, need: int): int {
    turn * (PAGE_SIZE + 1 - need)
  }

  lemma PassedNext(turn: nat, need: int)
    ensures Passed(turn + 1, need) == Passed(turn, need) + PAGE_SIZE + 1 - need
  {
  }

  lemma {:induction false} OffGrows(rs: seq<Rec>, i: nat, j: nat)
    requires i <= j <= |rs|
    ensures Off(rs, i) <= Off(rs, j)
    decreases j - i
  {
    if i < j {
      OffGrows(rs, i, j - 1);
    }
  }

  /** Up to 14 pages an insert never gives up. */
  lemma SmallDirectoriesNeverGiveUp(rs: seq<Rec>, name: Name)
    requires Size(rs) % PAGE_SIZE == 0 && Size(rs) <= 14 * PAGE_SIZE && |name| <= MAX_NAME
    ensures !Scan(rs, name).GaveUp?
  {
    var n := Size(rs) / PAGE_SIZE;
    assert RecLen(|name|) <= 268;
    assert Passed(n + 1, RecLen(|name|)) >= (n + 1) * 3829;
    ScanReachesEnd(rs, name, 0, 0, PAGE_SIZE - RecLen(|name|), 0);
  }

  /** The records after a new one goes into record `at`, or onto a new page when `at` is the end. */
  function Inserted(rs: seq<Rec>, at: nat, name: Name, ino: nat, ftype: Byte): seq<Rec>
    requires at <= |rs|
  {
    if at == |rs| then rs + [Rec(ino, PAGE_SIZE, ftype, name)]
    else if rs[at].ino == 0 then rs[at := Rec(ino, rs[at].recLen, ftype, name)]
    else
      var own := RecLen(|rs[at].name|);
      rs[..at] +
      [rs[at].(recLen := own), Rec(ino, if rs[at].recLen >= own then rs[at].recLen - own else 0, ftype, name)] +
      rs[at + 1..]
  }

  // ----- delete and relink -----

  /** `rdfs_delete_entry`: the predecessor takes over the bytes, in a 16-bit length. */
  function Removed(rs: seq<Rec>, at: nat): seq<Rec>
    requires 0 < at < |rs|
  {
    rs[..at - 1] + [rs[at - 1].(recLen := (rs[at - 1].recLen + rs[at].recLen) % REC_LEN_LIMIT)] + rs[at + 1..]
  }

  /** `rdfs_set_link`. */
  function Relinked(rs: seq<Rec>, at: nat, ino: nat, ftype: Byte): seq<Rec>
    requires at < |rs|
  {
    rs[at := rs[at].(ino := ino, ftype := ftype)]
  }

  // ----- what the operations do to the map -----

  lemma InsertKeepsOk(rs: seq<Rec>, at: nat, name: Name, ino: nat, ftype: Byte)
    requires AllOk(rs) && at <= |rs| && 0 < |name| <= MAX_NAME && (at < |rs| ==> HasRoom(rs[at], RecLen(|name|)))
    ensures AllOk(Inserted(rs, at, name, ino, ftype))
  {
  }

  /** The bindings of the live records. */
  ghost function Pairs(rs: seq<Rec>): set<(Name, nat)> {
    set i: nat | i < |rs| && Live(rs[i]) :: (rs[i].name, rs[i].ino)
  }

  lemma PairsSplit(a: seq<Rec>, b: seq<Rec>)
    ensures Pairs(a + b) == Pairs(a) + Pairs(b)
  {
    var c := a + b;
    forall p | p in Pairs(a) + Pairs(b)
      ensures p in Pairs(c)
    {
      if p in Pairs(a) {
        var i: nat :| i < |a| && Live(a[i]) && p == (a[i].name, a[i].ino);
        assert c[i] == a[i];
      } else {
        var i: nat :| i < |b| && Live(b[i]) && p == (b[i].name, b[i].ino);
        assert c[|a| + i] == b[i];
      }
    }
    forall p | p in Pairs(c)
      ensures p in Pairs(a) + Pairs(b)
    {
      var i: nat :| i < |c| && Live(c[i]) && p == (c[i].name, c[i].ino);
      if i < |a| {
        assert a[i] == c[i];
      } else {
        assert b[i - |a|] == c[i];
      }
    }
  }

  lemma PairsAround(rs: seq<Rec>, at: nat, mid: seq<Rec>, n: nat)
    requires at + n <= |rs|
    ensures Pairs(rs[..at] + mid + rs[at + n..]) == Pairs(rs[..at]) + Pairs(mid) + Pairs(rs[at + n..])
    ensures Pairs(rs) == Pairs(rs[..at]) + Pairs(rs[at..at + n]) + Pairs(rs[at + n..])
  {
    hide Pairs;
    PairsSplit(rs[..at] + mid, rs[at + n..]);
    PairsSplit(rs[..at], mid);
    PairsSplit(rs[..at] + rs[at..at + n], rs[at + n..]);
    PairsSplit(rs[..at], rs[at..at + n]);
    assert rs == rs[..at] + rs[at..at + n] + rs[at + n..];
  }

  lemma PairsOfOne(r: Rec)
    ensures Pairs([r]) == if Live(r) then {(r.name, r.ino)} else {}
  {
    if Live(r) {
      assert [r][0] == r;
    }
  }

  lemma PairsOfTwo(r: Rec, q: Rec)
    ensures Pairs([r, q]) == Pairs([r]) + Pairs([q])
  {
    PairsSplit([r], [q]);
    assert [r, q] == [r] + [q];
  }

  /** The map and the bindings say the same. */
  lemma EntriesArePairs(rs: seq<Rec>, n: Name, i: nat)
    requires Unique(rs)
    ensures (n, i) in Pairs(rs) <==> n in Entries(rs) && Entries(rs)[n] == i
  {
    if n in Entries(rs) && Entries(rs)[n] == i {
      var k: nat :| k < |rs| && Live(rs[k]) && rs[k].name == n;
      assert (rs[k].name, rs[k].ino) == (n, i);
    }
  }

  /** Directories whose bindings are those of `m` have the map `m`. */
  lemma EntriesByPairs(rs: seq<Rec>, m: map<Name, nat>)
    requires Unique(rs) && forall n: Name, i: nat :: (n, i) in Pairs(rs) <==> n in m && m[n] == i
    ensures Entries(rs) == m
  {
    forall n: Name
      ensures n in Entries(rs) <==> n in m
      ensures n in m ==> n in Entries(rs) && Entries(rs)[n] == m[n]
    {
      if n in m {
        assert (n, m[n]) in Pairs(rs);
        EntriesArePairs(rs, n, m[n]);
      }
      if n in Entries(rs) {
        EntriesArePairs(rs, n, Entries(rs)[n]);
      }
    }
  }

  lemma InsertPairs(rs: seq<Rec>, at: nat, name: Name, ino: nat, ftype: Byte)
    requires at <= |rs| && ino != 0
    ensures Pairs(Inserted(rs, at, name, ino, ftype)) == Pairs(rs) + {(name, ino)}
  {
    hide Pairs;
    if at == |rs| {
      var r := Rec(ino, PAGE_SIZE, ftype, name);
      PairsSplit(rs, [r]);
      PairsOfOne(r);
    } else if rs[at].ino == 0 {
      var r := Rec(ino, rs[at].recLen, ftype, name);
      assert rs[at := r] == rs[..at] + [r] + rs[at + 1..];
      assert rs[at..at + 1] == [rs[at]];
      PairsAround(rs, at, [r], 1);
      PairsOfOne(r);
      PairsOfOne(rs[at]);
    } else {
      var own := RecLen(|rs[at].name|);
      var a, b := rs[at].(recLen := own),
                  Rec(ino, if rs[at].recLen >= own then rs[at].recLen - own else 0, ftype, name);
      assert rs[at..at + 1] == [rs[at]];
      PairsAround(rs, at, [a, b], 1);
      PairsOfTwo(a, b);
      PairsOfOne(a);
      PairsOfOne(b);
      PairsOfOne(rs[at]);
    }
  }

  lemma InsertUnique(rs: seq<Rec>, at: nat, name: Name, ino: nat, ftype: Byte)
    requires Unique(rs) && at <= |rs| && Absent(rs, name) && ino != 0
    ensures Unique(Inserted(rs, at, name, ino, ftype))
  {
  }

  /** An insert of an absent name adds one binding and keeps all others. */
  lemma InsertEntries(rs: seq<Rec>, at: nat, name: Name, ino: nat, ftype: Byte)
    requires Unique(rs) && at <= |rs| && Absent(rs, name) && ino != 0
    ensures var rs' := Inserted(rs, at, name, ino, ftype); Unique(rs') && Entries(rs') == Entries(rs)[name := ino]
  {
    InsertUnique(rs, at, name, ino, ftype);
    InsertPairs(rs, at, name, ino, ftype);
    assert name !in Entries(rs);
    hide Inserted, Pairs, Unique, Entries;
    var rs' := Inserted(rs, at, name, ino, ftype);
    var m := Entries(rs)[name := ino];
    forall n: Name, i: nat
      ensures (n, i) in Pairs(rs') <==> n in m && m[n] == i
    {
      EntriesArePairs(rs, n, i);
    }
    EntriesByPairs(rs', m);
  }

  /** Lookup after an insert finds a record with the new inode and type. */
  lemma FoundAfterInsert(rs: seq<Rec>, at: nat, name: Name, ino: nat, ftype: Byte)
    requires Unique(rs) && at <= |rs| && Absent(rs, name) && ino != 0
    ensures var rs' := Inserted(rs, at, name, ino, ftype); var k := Find(rs', name);
            k < |rs'| && rs'[k].ino == ino && rs'[k].ftype == ftype && rs'[k].name == name
  {
    InsertEntries(rs, at, name, ino, ftype);
    var rs' := Inserted(rs, at, name, ino, ftype);
    FindReadsEntries(rs', name);
    var n := if at == |rs| || rs[at].ino == 0 then at else at + 1;
    assert Match(rs'[n], name) && rs'[n].ftype == ftype;
    var k := Find(rs', name);
    hide Entries, Inserted, Find;
    assert k == n;
  }

  lemma RemovePairs(rs: seq<Rec>, at: nat)
    requires Unique(rs) && 0 < at < |rs| && Live(rs[at])
    ensures Unique(Removed(rs, at))
    ensures Pairs(rs) == Pairs(Removed(rs, at)) + {(rs[at].name, rs[at].ino)}
  {
    hide Pairs;
    var a := rs[at - 1].(recLen := (rs[at - 1].recLen + rs[at].recLen) % REC_LEN_LIMIT);
    PairsAround(rs, at - 1, [a], 2);
    assert rs[at - 1..at - 1 + 2] == [rs[at - 1], rs[at]];
    PairsOfTwo(rs[at - 1], rs[at]);
    PairsOfOne(rs[at - 1]);
    PairsOfOne(rs[at]);
    PairsOfOne(a);
  }

  /** A delete of a live record that is not the first drops its binding and keeps all others. */
  lemma RemoveEntries(rs: seq<Rec>, at: nat)
    requires Unique(rs) && 0 < at < |rs| && Live(rs[at])
    ensures var rs' := Removed(rs, at); Unique(rs') && Entries(rs') == Entries(rs) - {rs[at].name}
  {
    RemovePairs(rs, at);
    var rs' := Removed(rs, at);
    var name := rs[at].name;
    RemovedAbsent(rs, at);
    AbsentPairs(rs', name);
    hide Removed, Pairs, Unique, Entries, Absent;
    var m := Entries(rs) - {name};
    forall n: Name, i: nat
      ensures (n, i) in Pairs(rs') <==> n in m && m[n] == i
    {
      EntriesArePairs(rs, n, i);
    }
    EntriesByPairs(rs', m);
  }

  lemma RemovedAbsent(rs: seq<Rec>, at: nat)
    requires Unique(rs) && 0 < at < |rs| && Live(rs[at])
    ensures Absent(Removed(rs, at), rs[at].name)
  {
    var rs' := Removed(rs, at);
    forall k: nat | k < |rs'| && Live(rs'[k])
      ensures rs'[k].name != rs[at].name
    {
      var i := if k < at then k else k + 1;
      assert rs'[k].name == rs[i].name && Live(rs[i]);
    }
  }

  lemma AbsentPairs(rs: seq<Rec>, name: Name)
    requires Absent(rs, name)
    ensures forall i: nat :: (name, i) !in Pairs(rs)
  {
  }

  /** Relinking a live record rebinds its name. */
  lemma RelinkEntries(rs: seq<Rec>, at: nat, ino: nat, ftype: Byte)
    requires Unique(rs) && at < |rs| && Live(rs[at]) && ino != 0
    ensures var rs' := Relinked(rs, at, ino, ftype); Unique(rs') && Entries(rs') == Entries(rs)[rs[at].name := ino]
  {
    var rs' := Relinked(rs, at, ino, ftype);
    RelinkUnique(rs, at, ino, ftype);
    hide Entries;
    var m := Entries(rs)[rs[at].name := ino];
    forall n | n in m
      ensures exists k: nat :: k < |rs'| && Live(rs'[k]) && rs'[k].name == n
    {
      if n == rs[at].name {
        assert Live(rs'[at]);
      } else {
        var i: nat :| i < |rs| && Live(rs[i]) && rs[i].name == n;
        assert Live(rs'[i]);
      }
    }
    forall i: nat | i < |rs'| && Live(rs'[i])
      ensures rs'[i].name in m && m[rs'[i].name] == rs'[i].ino
    {
      assert i != at ==> rs'[i] == rs[i] && rs[i].name != rs[at].name;
    }
    hide Unique, Relinked;
    EntriesAre(rs', m);
  }

  lemma RelinkUnique(rs: seq<Rec>, at: nat, ino: nat, ftype: Byte)
    requires Unique(rs) && at < |rs| && Live(rs[at]) && ino != 0
    ensures Unique(Relinked(rs, at, ino, ftype))
  {
    var rs' := Relinked(rs, at, ino, ftype);
    assert forall i: nat :: i < |rs| ==> rs'[i].name == rs[i].name && (Live(rs'[i]) <==> Live(rs[i]));
  }
}
