/** Where `rdfs_add_link` (dir.c) puts a record, and exactly when it fails: the bytes a record can spare, the windows
    that the turns of the outer loop look at, and what the insert leaves of the space. */
module DirPlace {
  import opened Bytes
  import opened DirRecords
  import opened DirRuns
  import opened Machine

  // ----- space -----

  /** The bytes that a record does not need: all of a dead one, what lies behind the name of a live one. */
  function Slack(r: Rec): int {
    r.recLen - if Live(r) then RecLen(|r.name|) else 0
  }

  function TotalSlack(rs: seq<Rec>): int {
    if rs == [] then 0 else TotalSlack(rs[..|rs| - 1]) + Slack(rs[|rs| - 1])
  }

  lemma HasRoomIff(r: Rec, need: nat)
    ensures HasRoom(r, need) <==> Slack(r) >= need
  {
  }

  lemma {:induction false} SlackSplit(a: seq<Rec>, b: seq<Rec>)
    ensures TotalSlack(a + b) == TotalSlack(a) + TotalSlack(b)
    decreases |b|
  {
    if b == [] {
      assert a + b == a;
    } else {
      var n := |b| - 1;
      SlackSplit(a, b[..n]);
      assert (a + b)[..|a| + n] == a + b[..n];
    }
  }

  lemma SlackOf(r: Rec, q: Rec)
    ensures TotalSlack([r]) == Slack(r) && TotalSlack([r, q]) == Slack(r) + Slack(q)
  {
    hide Slack;
    assert [r][..0] == [] && [r, q][..1] == [r];
  }

  lemma SlackAround(rs: seq<Rec>, at: nat, mid: seq<Rec>, n: nat)
    requires at + n <= |rs|
    ensures TotalSlack(rs[..at] + mid + rs[at + n..]) == TotalSlack(rs) - TotalSlack(rs[at..at + n]) + TotalSlack(mid)
  {
    hide TotalSlack;
    SlackSplit(rs[..at] + mid, rs[at + n..]);
    SlackSplit(rs[..at], mid);
    SlackSplit(rs[..at] + rs[at..at + n], rs[at + n..]);
    SlackSplit(rs[..at], rs[at..at + n]);
    assert rs == rs[..at] + rs[at..at + n] + rs[at + n..];
  }

  /** An insert uses exactly the bytes of its record, besides the page that it adds at the end.  A live record that is
      split keeps nothing to spare, and every record before it stays as it was. */
  lemma InsertUses(rs: seq<Rec>, at: nat, name: Name, ino: nat, ftype: Byte)
    requires at <= |rs| && ino != 0 && (at < |rs| ==> Slack(rs[at]) >= RecLen(|name|))
    ensures var rs', need := Inserted(rs, at, name, ino, ftype), RecLen(|name|);
            && TotalSlack(rs') == TotalSlack(rs) - need + (if at == |rs| then PAGE_SIZE else 0)
            && |rs'| == |rs| + (if at == |rs| || Live(rs[at]) then 1 else 0) && rs'[..at] == rs[..at]
            && (at < |rs| && Live(rs[at]) ==> Slack(rs'[at]) == 0 && rs'[at].name == rs[at].name)
  {
    hide TotalSlack, RecLen;
    if at == |rs| {
      var r := Rec(ino, PAGE_SIZE, ftype, name);
      SlackSplit(rs, [r]);
      SlackOf(r, r);
    } else if rs[at].ino == 0 {
      var r := Rec(ino, rs[at].recLen, ftype, name);
      assert rs[at := r] == rs[..at] + [r] + rs[at + 1..];
      assert rs[at..at + 1] == [rs[at]];
      SlackAround(rs, at, [r], 1);
      SlackOf(r, r);
      SlackOf(rs[at], r);
    } else {
      var own := RecLen(|rs[at].name|);
      var a, b := rs[at].(recLen := own),
                  Rec(ino, if rs[at].recLen >= own then rs[at].recLen - own else 0, ftype, name);
      assert rs[at..at + 1] == [rs[at]];
      SlackAround(rs, at, [a, b], 1);
      SlackOf(a, b);
      SlackOf(rs[at], b);
    }
  }

  /** A delete whose merge fits gives exactly the bytes of its record back. */
  lemma RemoveReturns(rs: seq<Rec>, at: nat)
    requires 0 < at < |rs| && Live(rs[at]) && rs[at - 1].recLen + rs[at].recLen < REC_LEN_LIMIT
    ensures TotalSlack(Removed(rs, at)) == TotalSlack(rs) + RecLen(|rs[at].name|)
  {
    hide TotalSlack, RecLen;
    var a := rs[at - 1].(recLen := rs[at - 1].recLen + rs[at].recLen);
    assert rs[at - 1..at - 1 + 2] == [rs[at - 1], rs[at]];
    SlackAround(rs, at - 1, [a], 2);
    SlackOf(a, a);
    SlackOf(rs[at - 1], rs[at]);
  }

  // ----- how far the scan gets -----

  /** Record `k` is the first that has the name or can take the new record; the end when there is none. */
  ghost predicate Stops(rs: seq<Rec>, name: Name, k: nat) {
    && k <= |rs| && (forall j: nat :: j < k ==> !Match(rs[j], name) && Slack(rs[j]) < RecLen(|name|))
    && (k < |rs| ==> Match(rs[k], name) || Slack(rs[k]) >= RecLen(|name|))
  }

  /** The offset of the first record from `k` on that lies behind `x`; the size when none does. */
  function Beyond(rs: seq<Rec>, k: nat, x: int): nat
    requires k <= |rs|
    decreases |rs| - k
  {
    if k == |rs| || Off(rs, k) > x then Off(rs, k) else Beyond(rs, k + 1, x)
  }

  /** The last offset that turn `t` looks at: each turn begins at the first record behind the one before it, and looks
      as far as a page less the new record. */
  function Reach(rs: seq<Rec>, need: nat, t: nat): int {
    (if t == 0 then 0 else Beyond(rs, 0, Reach(rs, need, t - 1))) + PAGE_SIZE - need
  }

  lemma {:induction false} BeyondIs(rs: seq<Rec>, j: nat, k: nat, x: int)
    requires j <= k <= |rs| && Off(rs, k) > x && (k > 0 ==> Off(rs, k - 1) <= x)
    ensures Beyond(rs, j, x) == Off(rs, k)
    decreases k - j
  {
    if j < k {
      OffGrows(rs, j, k - 1);
      BeyondIs(rs, j + 1, k, x);
    }
  }

  lemma {:induction false} BeyondGrows(rs: seq<Rec>, k: nat, x: int)
    requires k <= |rs|
    ensures Beyond(rs, k, x) > x || Beyond(rs, k, x) == Size(rs)
    decreases |rs| - k
  {
    if !(k == |rs| || Off(rs, k) > x) {
      BeyondGrows(rs, k + 1, x);
    }
  }

  lemma {:induction false} ReachGrows(rs: seq<Rec>, need: nat, t: nat, n: nat, x: nat)
    requires t <= n && need <= PAGE_SIZE && x <= Size(rs) && x <= Reach(rs, need, t)
    ensures x <= Reach(rs, need, n)
    decreases n - t
  {
    if t < n {
      hide Beyond, Off;
      BeyondGrows(rs, 0, Reach(rs, need, t));
      ReachGrows(rs, need, t + 1, n, x);
    }
  }

  lemma {:induction false} GivesUpFrom(rs: seq<Rec>, name: Name, k: nat, limit: int, turn: nat, stop: nat)
    requires Stops(rs, name, stop) && k <= stop && turn <= Size(rs) / PAGE_SIZE && RecLen(|name|) <= PAGE_SIZE
    requires limit == Reach(rs, RecLen(|name|), turn) && (k > 0 ==> Off(rs, k - 1) <= limit)
    ensures ScanFrom(rs, name, k, Off(rs, k), limit, turn) ==
            if Off(rs, stop) > Reach(rs, RecLen(|name|), Size(rs) / PAGE_SIZE) then GaveUp
            else if stop == |rs| then AtEnd
            else if Match(rs[stop], name) then Exists(stop) else Fit(stop)
    decreases |rs| - k, Size(rs) / PAGE_SIZE - turn
  {
    var need, n := RecLen(|name|), Size(rs) / PAGE_SIZE;
    OffGrows(rs, k, stop);
    OffGrows(rs, stop, |rs|);
    ScanUnfold(rs, name, k, Off(rs, k), limit, turn);
    hide ScanFrom, RecLen, Match;
    if Off(rs, k) > limit {
      if turn < n {
        BeyondIs(rs, 0, k, limit);
        GivesUpFrom(rs, name, k, Off(rs, k) + PAGE_SIZE - need, turn + 1, stop);
      }
    } else if k == stop {
      ReachGrows(rs, need, turn, n, Off(rs, stop));
      if k < |rs| {
        HasRoomIff(rs[k], need);
      }
    } else {
      HasRoomIff(rs[k], need);
      GivesUpFrom(rs, name, k + 1, limit, turn, stop);
    }
  }

  /** Exactly what an insert answers and does.  Let `stop` be the first record that has the name or space for the new
      one.  The insert gives up if and only if that lies behind the windows of one turn more than the directory has
      pages; otherwise it refuses a name that is there, fails at the end of a directory of the largest size, and
      succeeds in all other cases, at that record. */
  lemma AddLinkExact(rs: seq<Rec>, name: Name, ino: nat, ftype: Byte, stop: nat)
    requires Stops(rs, name, stop) && |name| <= MAX_NAME
    ensures var o := AddLink(rs, name, ino, ftype);
            if Off(rs, stop) > Reach(rs, RecLen(|name|), Size(rs) / PAGE_SIZE) then o == Outcome(EINVAL, rs)
            else if stop < |rs| && Match(rs[stop], name) then o == Outcome(EEXIST, rs)
            else if stop == |rs| && Size(rs) + PAGE_SIZE > MAX_DIR_SIZE then o == Outcome(EIO, rs)
            else o == Outcome(OK, Inserted(rs, stop, name, ino, ftype))
  {
    assert stop <= |rs|;
    hide ScanFrom, Stops, Off, Reach, Match;
    FirstReach(rs, RecLen(|name|));
    GivesUpFrom(rs, name, 0, PAGE_SIZE - RecLen(|name|), 0, stop);
  }

  lemma FirstReach(rs: seq<Rec>, need: nat)
    ensures Reach(rs, need, 0) == PAGE_SIZE - need && Off(rs, 0) == 0
  {
  }

  /** There is exactly one such record. */
  lemma StopsOnce(rs: seq<Rec>, name: Name)
    ensures exists k: nat :: Stops(rs, name, k)
    ensures forall j: nat, k: nat :: Stops(rs, name, j) && Stops(rs, name, k) ==> j == k
  {
    var k := 0;
    while k < |rs| && !Match(rs[k], name) && Slack(rs[k]) < RecLen(|name|)
      invariant k <= |rs| && forall j: nat :: j < k ==> !Match(rs[j], name) && Slack(rs[j]) < RecLen(|name|)
    {
      k := k + 1;
    }
    assert Stops(rs, name, k);
  }
}
