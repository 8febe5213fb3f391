/** Where a file's blocks were placed: words of slave and block number that `rdfs_new_page_pte` appends to
    metadata pages, and that `rdfs_search_metadata` reads back through the file's mapping. */
module Metadata {
  import opened Chunks
  import opened Finite
  import opened Machine

  const PTES := 512
  const BLOCK_SHIFT_FACTOR := 0x1000
  const SLAVE_SHIFT_FACTOR := 0x10_0000_0000_0000
  const BLOCK_IDS := 0x100_0000_0000
  const SLAVE_IDS := 0x1000

  // ----- one word -----

  predicate Encodable(b: Block) {
    b.slave < SLAVE_IDS && b.id < BLOCK_IDS
  }

  /** `(s_id << 52) | (block_id << 12)`; the fields do not overlap. */
  function Encode(b: Block): (w: nat)
    requires Encodable(b)
    ensures w < WORD_LIMIT
  {
    b.slave * SLAVE_SHIFT_FACTOR + b.id * BLOCK_SHIFT_FACTOR
  }

  /** The two masks and shifts of `rdfs_search_metadata`. */
  function Decode(w: nat): Block {
    Block(w / SLAVE_SHIFT_FACTOR, w % SLAVE_SHIFT_FACTOR / BLOCK_SHIFT_FACTOR)
  }

  /** The words of a slave begin at its number times 2 to the 52, and those of its blocks lie 4096 apart, so the low
      twelve bits are clear. */
  lemma WordLayout(s: nat, k: nat)
    requires s < SLAVE_IDS && k + 1 < BLOCK_IDS
    ensures Encode(Block(s, 0)) == s * 0x10_0000_0000_0000
    ensures Encode(Block(s, k + 1)) == Encode(Block(s, k)) + 4096
    ensures Encode(Block(s, k)) % 4096 == 0
  {
    assert s * SLAVE_SHIFT_FACTOR == s * 0x100_0000_0000 * 4096;
  }

  lemma WordRoundTrip(b: Block)
    requires Encodable(b)
    ensures Decode(Encode(b)) == b
  {
    assert b.id * BLOCK_SHIFT_FACTOR < SLAVE_SHIFT_FACTOR;
  }

  // ----- the invariant -----

  /** `log`: all placements in order; `pages`: the metadata pages in order; `at`: which placements are a
      file's blocks; `mem`: the words written; `mapped`: the page mapped at each block of a file. */
  datatype Meta = Meta(log: seq<Block>, pages: seq<nat>, at: map<nat, seq<nat>>, mem: map<nat, nat>,
                       mapped: map<nat, seq<nat>>)

  function Ats(st: Meta, f: nat): seq<nat> {
    if f in st.at then st.at[f] else []
  }

  function Mapped(st: Meta, f: nat): seq<nat> {
    if f in st.mapped then st.mapped[f] else []
  }

  ghost predicate Aligned(pages: seq<nat>) {
    && (forall i: nat :: i < |pages| ==> pages[i] % PAGE_SIZE == 0)
    && (forall i: nat, j: nat :: i < j < |pages| ==> pages[i] != pages[j])
  }

  /** Placement `g` lies in word `g % 512` of page `g / 512`. */
  ghost predicate WordOk(st: Meta, g: nat) {
    g < |st.log| ==>
      && g / PTES < |st.pages| && Encodable(st.log[g])
      && var a := st.pages[g / PTES] + 8 * (g % PTES); a in st.mem && st.mem[a] == Encode(st.log[g])
  }

  /** A file's blocks are placements in increasing order, each mapped to the page of its word. */
  ghost predicate FileOk(st: Meta, f: nat) {
    Charted(Ats(st, f), Mapped(st, f), |st.log|, st.pages)
  }

  ghost predicate Charted(at: seq<nat>, mapped: seq<nat>, n: nat, pages: seq<nat>) {
    && |mapped| == |at|
    && (forall k: nat :: k < |at| ==> at[k] < n && at[k] / PTES < |pages| && mapped[k] == pages[at[k] / PTES])
    && (forall j: nat, k: nat :: j < k < |at| ==> at[j] < at[k])
  }

  lemma ChartedMore(at: seq<nat>, mapped: seq<nat>, n: nat, pages: seq<nat>, more: seq<nat>)
    requires Charted(at, mapped, n, pages) && pages <= more && |more| == n / PTES + 1
    ensures Charted(at, mapped, n + 1, more) && Charted(at + [n], mapped + [more[n / PTES]], n + 1, more)
  {
  }

  ghost predicate MetaOk(st: Meta) {
    && |st.pages| == (|st.log| + PTES - 1) / PTES && Aligned(st.pages)
    && (forall g: nat :: WordOk(st, g))
    && (forall f: nat :: FileOk(st, f))
  }

  // ----- placing -----

  /** The state after file `f`'s next block is placed at `b`, with a page `extra` at hand. */
  function Placed(st: Meta, f: nat, b: Block, extra: nat): Meta
    requires Encodable(b)
  {
    var g := |st.log|;
    var pages := if g % PTES == 0 then st.pages + [extra] else st.pages;
    if pages == [] then st else
      var page := pages[|pages| - 1];
      Meta(st.log + [b], pages, st.at[f := Ats(st, f) + [g]], st.mem[page + 8 * (g % PTES) := Encode(b)],
            st.mapped[f := Mapped(st, f) + [page]])
  }

  /** The page at hand is a new one, when one is needed. */
  ghost predicate Supplies(st: Meta, extra: nat) {
    |st.log| % PTES == 0 ==> extra % PAGE_SIZE == 0 && extra !in st.pages
  }

  /** `pte_cnt` after `n` placements: full at the start and after every 512. */
  function Counter(n: nat): nat {
    if n == 0 then PTES else (n - 1) % PTES + 1
  }

  lemma CounterIs(n: nat)
    ensures Counter(n) == PTES <==> n % PTES == 0
    ensures n % PTES != 0 ==> Counter(n) == n % PTES
    ensures Counter(n + 1) == n % PTES + 1
  {
  }

  lemma PlacedPages(st: Meta, extra: nat)
    requires MetaOk(st) && Supplies(st, extra)
    ensures var g, pages := |st.log|, if |st.log| % PTES == 0 then st.pages + [extra] else st.pages;
            && |pages| == (g + PTES) / PTES && Aligned(pages) && g / PTES == |pages| - 1
            && st.pages <= pages
  {
  }

  lemma OtherWord(pages: seq<nat>, g: nat, h: nat)
    requires Aligned(pages) && g < h && h / PTES < |pages|
    ensures g / PTES < |pages| && pages[g / PTES] + 8 * (g % PTES) != pages[h / PTES] + 8 * (h % PTES)
  {
    var p, q := pages[g / PTES], pages[h / PTES];
    assert p % PAGE_SIZE == 0 && q % PAGE_SIZE == 0;
    if g / PTES != h / PTES {
      assert p != q;
      assert p / PAGE_SIZE != q / PAGE_SIZE;
    }
  }

  lemma PlacedWord(st: Meta, f: nat, b: Block, extra: nat, g: nat)
    requires MetaOk(st) && Encodable(b) && Supplies(st, extra)
    ensures WordOk(Placed(st, f, b, extra), g)
  {
    hide Aligned, Encode, Ats, Mapped, FileOk, Encodable, Supplies;
    PlacedPages(st, extra);
    var st' := Placed(st, f, b, extra);
    assert WordOk(st, g);
    hide MetaOk;
    NewWord(st, st', b, g);
  }

  lemma NewWord(st: Meta, st': Meta, b: Block, g: nat)
    requires WordOk(st, g) && st.pages <= st'.pages && st'.log == st.log + [b] && Aligned(st'.pages) && Encodable(b)
    requires |st'.pages| == |st.log| / PTES + 1
    requires st'.mem == st.mem[st'.pages[|st.log| / PTES] + 8 * (|st.log| % PTES) := Encode(b)]
    ensures WordOk(st', g)
  {
    hide Aligned, Encode, Encodable;
    if g < |st.log| {
      OtherWord(st'.pages, g, |st.log|);
    }
  }

  lemma PlacedFile(st: Meta, f: nat, b: Block, extra: nat, e: nat)
    requires MetaOk(st) && Encodable(b) && Supplies(st, extra)
    ensures FileOk(Placed(st, f, b, extra), e)
  {
    hide Aligned, Encode, WordOk, Charted, Encodable, Supplies;
    PlacedPages(st, extra);
    assert FileOk(st, e);
    hide MetaOk;
    var st' := Placed(st, f, b, extra);
    FileRows(st, f, b, extra, e);
    hide Ats, Mapped, Placed;
    ChartedMore(Ats(st, e), Mapped(st, e), |st.log|, st.pages, st'.pages);
  }

  lemma FileRows(st: Meta, f: nat, b: Block, extra: nat, e: nat)
    requires Encodable(b)
    ensures var st', n := Placed(st, f, b, extra), |st.log|;
            n / PTES == |st'.pages| - 1 ==>
              && st'.log == st.log + [b] && st'.pages == (if n % PTES == 0 then st.pages + [extra] else st.pages)
              && Ats(st', e) == Ats(st, e) + (if e == f then [n] else [])
              && Mapped(st', e) == Mapped(st, e) + (if e == f then [st'.pages[n / PTES]] else [])
  {
    hide Encode, Encodable;
  }

  /** Placing a block keeps everything recorded so far. */
  lemma PlacedOk(st: Meta, f: nat, b: Block, extra: nat)
    requires MetaOk(st) && Encodable(b) && Supplies(st, extra)
    ensures MetaOk(Placed(st, f, b, extra)) && Placed(st, f, b, extra).log == st.log + [b]
    ensures Ats(Placed(st, f, b, extra), f) == Ats(st, f) + [|st.log|]
  {
    PlacedPages(st, extra);
    var st' := Placed(st, f, b, extra);
    hide Aligned, Encode, WordOk, FileOk;
    forall g: nat
      ensures WordOk(st', g)
    {
      PlacedWord(st, f, b, extra, g);
    }
    forall e: nat
      ensures FileOk(st', e)
    {
      PlacedFile(st, f, b, extra, e);
    }
  }

  // ----- looking up -----

  /** The address `rdfs_search_metadata` reads for block `k`: word `k % 512` of the page mapped at the file's
      block `k / 512`. */
  function Address(st: Meta, f: nat, k: nat): nat
    requires k / PTES < |Mapped(st, f)|
  {
    Mapped(st, f)[k * 8 / PAGE_SIZE] + k * 8 % PAGE_SIZE
  }

  /** The placement whose word that is. */
  function Seen(at: seq<nat>, k: nat): nat
    requires k / PTES < |at|
  {
    at[k / PTES] / PTES * PTES + k % PTES
  }

  lemma {:induction false} Gaps(at: seq<nat>, j: nat, k: nat)
    requires j <= k < |at| && forall i: nat, l: nat :: i < l < |at| ==> at[i] < at[l]
    ensures at[k] >= at[j] + (k - j)
    decreases k
  {
    if j < k {
      Gaps(at, j, k - 1);
    }
  }

  /** Lookup of block `k` of a file reads the word of placement `Seen`, which is already written. */
  lemma LookupReads(st: Meta, f: nat, k: nat)
    requires MetaOk(st) && k < |Ats(st, f)|
    ensures k / PTES < |Mapped(st, f)| && k / PTES < |Ats(st, f)| && k * 8 / PAGE_SIZE == k / PTES
    ensures var g := Seen(Ats(st, f), k); g < |st.log| && g <= Ats(st, f)[k] && Encodable(st.log[g])
    ensures var a := Address(st, f, k); a in st.mem && st.mem[a] == Encode(st.log[Seen(Ats(st, f), k)])
  {
    assert FileOk(st, f);
    var at := Ats(st, f);
    Gaps(at, k / PTES, k);
    var g := Seen(at, k);
    assert g / PTES == at[k / PTES] / PTES && g % PTES == k % PTES;
    assert k * 8 / PAGE_SIZE == k / PTES && k * 8 % PAGE_SIZE == 8 * (k % PTES);
    assert WordOk(st, g);
  }

  /** Lookup returns the placement of block `k` exactly when the word it reads is that block's. */
  lemma LookupRightIff(st: Meta, f: nat, k: nat)
    requires MetaOk(st) && Distinct(st.log) && k < |Ats(st, f)|
    ensures k / PTES < |Mapped(st, f)| && k / PTES < |Ats(st, f)| && Address(st, f, k) in st.mem
    ensures Ats(st, f)[k] < |st.log|
    ensures Decode(st.mem[Address(st, f, k)]) == st.log[Ats(st, f)[k]] <==> Seen(Ats(st, f), k) == Ats(st, f)[k]
  {
    LookupReads(st, f, k);
    assert FileOk(st, f);
    WordRoundTrip(st.log[Seen(Ats(st, f), k)]);
  }

  /** The numbers below `n`. */
  function UpTo(n: nat): (s: seq<nat>)
    ensures |s| == n && forall i: nat :: i < n ==> s[i] == i
  {
    seq(n, i => i)
  }

  lemma UpToMore(n: nat)
    ensures UpTo(n) + [n] == UpTo(n + 1)
  {
  }

  /** When one file makes all the placements, that is so exactly for the first 512 blocks. */
  lemma SoleFileRightIff(st: Meta, f: nat, k: nat)
    requires MetaOk(st) && Distinct(st.log) && k < |st.log|
    requires Ats(st, f) == UpTo(|st.log|)
    ensures k / PTES < |Mapped(st, f)| && Address(st, f, k) in st.mem
    ensures Decode(st.mem[Address(st, f, k)]) == st.log[k] <==> k < PTES
  {
    LookupRightIff(st, f, k);
  }

  // ----- a run in which one file makes all the placements -----

  /** The placements `log` of file `f`, recorded one after the other on pages of `supply`. */
  ghost function Recorded(log: seq<Block>, f: nat, supply: seq<nat>): (st: Meta)
    requires Aligned(supply) && |log| <= PTES * |supply| && forall g: nat :: g < |log| ==> Encodable(log[g])
    ensures MetaOk(st) && st.log == log && st.pages <= supply && Ats(st, f) == UpTo(|log|)
  {
    hide MetaOk, Aligned, Ats, Placed, UpTo, Encodable;
    if log == [] then
      NothingRecorded(f);
      Meta([], [], map[], map[], map[])
    else
      var n: nat := |log| - 1;
      var st := Recorded(log[..n], f, supply);
      RecordNext(st, log, f, supply);
      Placed(st, f, log[n], supply[n / PTES])
  }

  lemma RecordNext(st: Meta, log: seq<Block>, f: nat, supply: seq<nat>)
    requires log != [] && MetaOk(st) && st.log == log[..|log| - 1] && Encodable(log[|log| - 1]) && Aligned(supply)
    requires st.pages <= supply && |log| <= PTES * |supply| && Ats(st, f) == UpTo(|log| - 1)
    ensures var n := |log| - 1;
            && n / PTES < |supply|
            && var st' := Placed(st, f, log[n], supply[n / PTES]);
               MetaOk(st') && st'.log == log && st'.pages <= supply && Ats(st', f) == UpTo(|log|)
  {
    hide MetaOk, Aligned, Ats, Placed, UpTo, Encodable;
    var n := |log| - 1;
    SupplyNext(st, f, log[n], supply);
    PlacedOk(st, f, log[n], supply[n / PTES]);
    assert log[..n] + [log[n]] == log;
    UpToMore(n);
  }

  lemma NothingRecorded(f: nat)
    ensures var st := Meta([], [], map[], map[], map[]); MetaOk(st) && Ats(st, f) == []
  {
    var st := Meta([], [], map[], map[], map[]);
    assert forall g: nat :: WordOk(st, g);
    assert forall e: nat :: FileOk(st, e);
  }

  /** The next page of the supply is a new one when one is needed, and the pages stay a prefix of it. */
  lemma SupplyNext(st: Meta, f: nat, b: Block, supply: seq<nat>)
    requires MetaOk(st) && Encodable(b) && Aligned(supply) && st.pages <= supply && |st.log| < PTES * |supply|
    ensures |st.log| / PTES < |supply| && Supplies(st, supply[|st.log| / PTES])
    ensures Placed(st, f, b, supply[|st.log| / PTES]).pages <= supply
  {
    if |st.log| % PTES == 0 {
      assert |st.pages| == |st.log| / PTES;
    }
  }

  /** In a run where one file asks for all the blocks, lookup at block `k` returns the k-th block granted to it
      exactly for k below 512. */
  lemma SoleFileRun(totals: seq<nat>, asks: seq<Ask>, f: nat, supply: seq<nat>, k: nat)
    requires |totals| <= SLAVE_IDS && forall s: nat :: s < |totals| ==> totals[s] <= BLOCK_IDS
    requires Picks(Fresh(totals), asks) && RoomForAll(Fresh(totals), asks) && k < |asks|
    requires Aligned(supply) && |asks| <= PTES * |supply|
    ensures var log := Run(Fresh(totals), asks).log;
            && |log| == |asks| && (forall g: nat :: g < |log| ==> Encodable(log[g]))
            && var st := Recorded(log, f, supply);
               && k / PTES < |Mapped(st, f)| && Address(st, f, k) in st.mem
               && (Decode(st.mem[Address(st, f, k)]) == log[k] <==> k < PTES)
  {
    FreshOk(totals);
    RunOk(Fresh(totals), asks);
    RunTotals(Fresh(totals), asks);
    var st0 := Run(Fresh(totals), asks);
    forall g: nat | g < |st0.log|
      ensures Encodable(st0.log[g])
    {
      assert BlockOk(st0, st0.log[g]);
    }
    SoleFileRightIff(Recorded(st0.log, f, supply), f, k);
  }

  /** Grants do not change how many blocks a slave has. */
  lemma {:induction false} RunTotals(st: State, asks: seq<Ask>)
    requires Picks(st, asks)
    ensures var r := Run(st, asks); forall s: nat :: s < |st.slaves| ==> r.slaves[s].total == st.slaves[s].total
  {
    if asks != [] {
      var before, a := asks[..|asks| - 1], asks[|asks| - 1];
      RunTotals(st, before);
      GrantAppends(Run(st, before), a.file, a.pick);
    }
  }

  /** What placing a block writes, in terms of the current page. */
  lemma PlacedParts(st: Meta, f: nat, b: Block, extra: nat, page: nat)
    requires MetaOk(st) && Encodable(b) && Supplies(st, extra)
    requires st.log != [] ==> st.pages != [] && page == st.pages[|st.pages| - 1]
    ensures var st', p, g := Placed(st, f, b, extra), if |st.log| % PTES == 0 then extra else page, |st.log|;
            && st'.mem == st.mem[p + 8 * (g % PTES) := Encode(b)]
            && st'.mapped == st.mapped[f := Mapped(st, f) + [p]]
            && st'.pages != [] && st'.pages[|st'.pages| - 1] == p && g / PTES == |st'.pages| - 1
  {
    hide Encode, Encodable, WordOk, FileOk, Aligned, Mapped, Ats;
    PlacedPages(st, extra);
    hide MetaOk;
  }

  // ----- the object -----

  class MetaTable {
    var cnt: nat
    var page: nat
    var mem: map<nat, nat>
    var mapped: map<nat, seq<nat>>
    ghost var log: seq<Block>
    ghost var pages: seq<nat>
    ghost var at: map<nat, seq<nat>>

    ghost function St(): Meta
      reads this
    {
      Meta(log, pages, at, mem, mapped)
    }

    ghost predicate Valid()
      reads this
    {
      && MetaOk(St()) && cnt == Counter(|log|)
      && (log != [] ==> pages != [] && page == pages[|pages| - 1])
    }

    constructor ()
      ensures Valid() && log == [] && at == map[]
    {
      cnt, page, mem, mapped := PTES, 0, map[], map[];
      log, pages, at := [], [], map[];
      new;
      assert forall g: nat :: WordOk(St(), g);
      assert forall e: nat :: FileOk(St(), e);
    }

    /** `rdfs_new_page_pte`, and the insertion of the page it names as the next page of file `f`.  `b` is the
        block granted; `extra` the page `rdfs_new_block` would give. */
    method NewPagePte(f: nat, b: Block, extra: nat) returns (phys: nat)
      requires Valid() && Encodable(b) && Supplies(St(), extra)
      modifies this
      ensures Valid() && St() == Placed(old(St()), f, b, extra) && log == old(log) + [b]
      ensures phys == pages[(|log| - 1) / PTES]
    {
      hide MetaOk, Encode, Counter, Encodable, Placed;
      PlacedParts(St(), f, b, extra, page);
      PlacedOk(St(), f, b, extra);
      CounterIs(|log|);
      ghost var st := Placed(St(), f, b, extra);
      if cnt == PTES {
        page := extra;
        cnt := 0;
      }
      phys := page;
      mem := mem[page + 8 * cnt := Encode(b)];
      cnt := cnt + 1;
      mapped := mapped[f := (if f in mapped then mapped[f] else []) + [phys]];
      log, pages, at := st.log, st.pages, st.at;
    }

    /** `rdfs_search_metadata`, at a block of the file. */
    method SearchMetadata(f: nat, offset: nat) returns (slave: nat, block: nat)
      requires Valid() && offset / PAGE_SIZE < |Mapped(St(), f)|
      ensures var k := offset / PAGE_SIZE;
              && |Ats(St(), f)| == |Mapped(St(), f)| && Seen(Ats(St(), f), k) < |log|
              && Block(slave, block) == log[Seen(Ats(St(), f), k)]
    {
      var k := offset / PAGE_SIZE;
      assert |Ats(St(), f)| == |Mapped(St(), f)| by {
        assert FileOk(St(), f);
      }
      hide MetaOk, Encode, Decode, Encodable, Seen;
      LookupReads(St(), f, k);
      var pages := if f in mapped then mapped[f] else [];
      var w := mem[pages[k * 8 / PAGE_SIZE] + k * 8 % PAGE_SIZE];
      WordRoundTrip(log[Seen(Ats(St(), f), k)]);
      slave, block := Decode(w).slave, Decode(w).id;
    }
  }
}
