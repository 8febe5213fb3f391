/** The request-id protocol of server.c: posters take a cyclic six-bit id, set its bit in the slave's lock
    word, post, and wait for the bit; the completion handler finds slave and id in the completed word and
    clears the bit.  Requests of one slave are numbered in the order of their grants. */
module RequestIds {
  import opened Machine

  const IDS := 64
  const SLAVES := 10
  const SLAVE_ID_SHIFT_FACTOR := 0x10_0000_0000_0000

  /** Where a poster stands.  `Broken`: the completion reported a failure; `Refused`: the post failed. */
  datatype Phase = Granted | Locked | Posted | Handled | Broken | Returned | Refused

  datatype Req = Req(id: nat, phase: Phase)

  /** `struct rdfs_req_id` of one slave, and the posters that took an id from it. */
  datatype Ctx = Ctx(current: nat, bits: seq<bool>, reqs: seq<Req>)

  type State = seq<Ctx>

  datatype Step =
    | Grant(s: nat)
    | SetBit(s: nat, n: nat)
    | Post(s: nat, n: nat)
    | PostFails(s: nat, n: nat)
    | Complete(s: nat, n: nat)
    | CompleteFails(s: nat, n: nat)
    | Return(s: nat, n: nat)

  // ----- the completion word -----

  /** `(s_id << 52) | req_id`. */
  function WrId(s: nat, id: nat): nat {
    (s * SLAVE_ID_SHIFT_FACTOR + id) % WORD_LIMIT
  }

  function SlaveOf(w: nat): nat {
    w / SLAVE_ID_SHIFT_FACTOR
  }

  function IdOf(w: nat): nat {
    w % SLAVE_ID_SHIFT_FACTOR
  }

  /** The handler reads back what the poster wrote: twelve bits of slave and 52 bits of id fill the word. */
  lemma WrIdRoundTrip(s: nat, id: nat)
    requires s < 0x1000 && id < 0x10_0000_0000_0000
    ensures SlaveOf(WrId(s, id)) == s && IdOf(WrId(s, id)) == id
  {
    assert s * SLAVE_ID_SHIFT_FACTOR + id < WORD_LIMIT;
  }

  // ----- steps -----

  predicate Finished(p: Phase) {
    p.Returned? || p.Refused?
  }

  predicate Bounds(c: Ctx) {
    c.current < IDS && |c.bits| == IDS && forall n: nat :: n < |c.reqs| ==> c.reqs[n].id < IDS
  }

  predicate Shaped(st: State) {
    |st| <= SLAVES && forall s: nat :: s < |st| ==> Bounds(st[s])
  }

  /** A grant waits until at most `w - 1` grants have followed that of any request still out. */
  ghost predicate Window(c: Ctx, w: nat) {
    forall m: nat :: m < |c.reqs| && m + w <= |c.reqs| ==> Finished(c.reqs[m].phase)
  }

  /** The request of a step stands where the step starts. */
  predicate At(st: State, step: Step, p: Phase)
    requires !step.Grant?
  {
    step.s < |st| && step.n < |st[step.s].reqs| && st[step.s].reqs[step.n].phase == p
  }

  /** `wait_on_bit_lock` returns once the bit is clear: whoever cleared it. */
  ghost predicate Enabled(st: State, w: nat, step: Step)
    requires Shaped(st)
  {
    match step
    case Grant(s) => s < |st| && Window(st[s], w)
    case SetBit(s, n) => At(st, step, Granted)
    case Post(s, n) => At(st, step, Locked)
    case PostFails(s, n) => At(st, step, Locked)
    case Complete(s, n) => At(st, step, Posted)
    case CompleteFails(s, n) => At(st, step, Posted)
    case Return(s, n) =>
      (At(st, step, Posted) || At(st, step, Handled) || At(st, step, Broken)) && !st[s].bits[st[s].reqs[n].id]
  }

  function Moved(c: Ctx, n: nat, p: Phase): Ctx
    requires n < |c.reqs|
  {
    c.(reqs := c.reqs[n := c.reqs[n].(phase := p)])
  }

  function WithBit(c: Ctx, id: nat, v: bool): Ctx
    requires id < |c.bits|
  {
    c.(bits := c.bits[id := v])
  }

  /** The completion handler clears the bit that the completed word names. */
  function Cleared(st: State, w: nat): State
    requires Shaped(st)
  {
    if SlaveOf(w) < |st| && IdOf(w) < IDS then st[SlaveOf(w) := WithBit(st[SlaveOf(w)], IdOf(w), false)] else st
  }

  ghost function Next(st: State, w: nat, step: Step): State
    requires Shaped(st) && Enabled(st, w, step)
  {
    var c := st[step.s];
    match step
    case Grant(s) => st[s := Ctx((c.current + 1) % IDS, c.bits, c.reqs + [Req(c.current, Granted)])]
    case SetBit(s, n) => st[s := WithBit(Moved(c, n, Locked), c.reqs[n].id, true)]
    case Post(s, n) => st[s := Moved(c, n, Posted)]
    case PostFails(s, n) => st[s := Moved(c, n, Refused)]
    case Complete(s, n) => Cleared(st[s := Moved(c, n, Handled)], WrId(s, c.reqs[n].id))
    case CompleteFails(s, n) => st[s := Moved(c, n, Broken)]
    case Return(s, n) => st[s := WithBit(Moved(c, n, Returned), c.reqs[n].id, true)]
  }

  // ----- what can go wrong -----

  /** A request returns without its completion, or a completion clears the bit another request waits for. */
  ghost predicate Safe(st: State, step: Step)
    requires Shaped(st)
  {
    match step
    case Return(s, n) => At(st, step, Handled)
    case Complete(s, n) =>
      At(st, step, Posted) ==>
        forall r: nat, m: nat :: r < |st| && m < |st[r].reqs| && (r, m) != (s, n) && Waits(st[r].reqs[m].phase) ==>
          (r, st[r].reqs[m].id) != (SlaveOf(WrId(s, st[s].reqs[n].id)), IdOf(WrId(s, st[s].reqs[n].id)))
    case _ => true
  }

  predicate Waits(p: Phase) {
    p.Locked? || p.Posted? || p.Broken?
  }

  // ----- the invariant -----

  /** A request out of at most 64 has its own id, and its bit tells whether its completion was handled. */
  ghost predicate ReqOk(c: Ctx, n: nat)
    requires Bounds(c)
  {
    n < |c.reqs| ==>
      && c.reqs[n].id == n % IDS
      && (Waits(c.reqs[n].phase) ==> c.bits[n % IDS])
      && (c.reqs[n].phase.Handled? ==> !c.bits[n % IDS])
      && (n + IDS < |c.reqs| ==> Finished(c.reqs[n].phase))
  }

  ghost predicate CtxOk(c: Ctx) {
    Bounds(c) && c.current == |c.reqs| % IDS && forall n: nat :: ReqOk(c, n)
  }

  ghost predicate Ok(st: State) {
    |st| <= SLAVES && forall s: nat :: s < |st| ==> CtxOk(st[s])
  }

  /** Two requests of a slave that are not both finished have different ids. */
  lemma DistinctIds(c: Ctx, m: nat, n: nat)
    requires CtxOk(c) && m < |c.reqs| && n < |c.reqs| && m != n
    requires !Finished(c.reqs[m].phase) && !Finished(c.reqs[n].phase)
    ensures c.reqs[m].id != c.reqs[n].id
  {
    assert ReqOk(c, m) && ReqOk(c, n);
    var i, j := if m < n then m else n, if m < n then n else m;
    CloseIds(i, j - i);
  }

  lemma CloseIds(i: nat, k: nat)
    requires 0 < k < IDS
    ensures i % IDS != (i + k) % IDS
  {
  }

  /** One request moves on, and only its own bit changes. */
  lemma MoveOk(c: Ctx, c': Ctx, n: nat, p: Phase)
    requires CtxOk(c) && n < |c.reqs| && !Finished(c.reqs[n].phase)
    requires c'.current == c.current && c'.reqs == Moved(c, n, p).reqs && |c'.bits| == IDS
    requires forall j: nat :: j < IDS && j != c.reqs[n].id ==> c'.bits[j] == c.bits[j]
    requires Waits(p) ==> c'.bits[c.reqs[n].id]
    requires p.Handled? ==> !c'.bits[c.reqs[n].id]
    ensures CtxOk(c')
  {
    forall m: nat
      ensures ReqOk(c', m)
    {
      assert ReqOk(c, m) && ReqOk(c, n);
      if m < |c.reqs| && m != n && !Finished(c.reqs[m].phase) {
        DistinctIds(c, m, n);
      }
    }
  }

  lemma GrantOk(c: Ctx, w: nat)
    requires CtxOk(c) && Window(c, w) && w <= IDS
    ensures CtxOk(Ctx((c.current + 1) % IDS, c.bits, c.reqs + [Req(c.current, Granted)]))
  {
    var n, c' := |c.reqs|, Ctx((c.current + 1) % IDS, c.bits, c.reqs + [Req(c.current, Granted)]);
    NextId(n);
    forall m: nat
      ensures ReqOk(c', m)
    {
      assert ReqOk(c, m);
      assert m < n ==> c'.reqs[m] == c.reqs[m] && (m + IDS <= n ==> Finished(c.reqs[m].phase));
    }
  }

  lemma NextId(n: nat)
    ensures (n % IDS + 1) % IDS == (n + 1) % IDS
  {
  }

  lemma AfterOk(st: State, s: nat, c: Ctx)
    requires Ok(st) && s < |st| && CtxOk(c)
    ensures Ok(st[s := c])
  {
  }

  /** Under a window of 64 every step keeps the invariant. */
  lemma StepOk(st: State, w: nat, step: Step)
    requires Ok(st) && Shaped(st) && Enabled(st, w, step) && w <= IDS
    ensures Ok(Next(st, w, step))
  {
    hide Ok, Shaped;
    var c := st[step.s];
    assert CtxOk(c) by { SlaveOk(st, step.s); }
    if step.Grant? {
      GrantOk(c, w);
      AfterOk(st, step.s, Ctx((c.current + 1) % IDS, c.bits, c.reqs + [Req(c.current, Granted)]));
    } else {
      assert ReqOk(c, step.n);
      var id := c.reqs[step.n].id;
      match step
      case SetBit(s, n) => {
        MoveOk(c, WithBit(Moved(c, n, Locked), id, true), n, Locked);
        AfterOk(st, s, WithBit(Moved(c, n, Locked), id, true));
      }
      case Post(s, n) => { MoveOk(c, Moved(c, n, Posted), n, Posted); AfterOk(st, s, Moved(c, n, Posted)); }
      case PostFails(s, n) => { MoveOk(c, Moved(c, n, Refused), n, Refused); AfterOk(st, s, Moved(c, n, Refused)); }
      case CompleteFails(s, n) => { MoveOk(c, Moved(c, n, Broken), n, Broken); AfterOk(st, s, Moved(c, n, Broken)); }
      case Return(s, n) => {
        MoveOk(c, WithBit(Moved(c, n, Returned), id, true), n, Returned);
        AfterOk(st, s, WithBit(Moved(c, n, Returned), id, true));
      }
      case Complete(s, n) => CompleteOk(st, s, n);
    }
  }

  lemma SlaveOk(st: State, s: nat)
    requires Ok(st) && s < |st|
    ensures CtxOk(st[s]) && |st| <= SLAVES
  {
  }

  lemma CompleteOk(st: State, s: nat, n: nat)
    requires Ok(st) && s < |st| && n < |st[s].reqs| && st[s].reqs[n].phase == Posted
    ensures Shaped(st[s := Moved(st[s], n, Handled)])
    ensures Ok(Cleared(st[s := Moved(st[s], n, Handled)], WrId(s, st[s].reqs[n].id)))
  {
    var c := st[s];
    var id := c.reqs[n].id;
    assert ReqOk(c, n);
    WrIdRoundTrip(s, id);
    hide WrId, SlaveOf, IdOf;
    var c' := WithBit(Moved(c, n, Handled), id, false);
    MoveOk(c, c', n, Handled);
    AfterOk(st, s, c');
    assert st[s := Moved(c, n, Handled)][s := c'] == st[s := c'];
  }

  /** In such a state no request returns early, and no completion clears another request's bit. */
  lemma StepSafe(st: State, w: nat, step: Step)
    requires Ok(st) && Shaped(st) && Enabled(st, w, step)
    ensures Safe(st, step)
  {
    if step.Return? {
      assert ReqOk(st[step.s], step.n);
    } else if step.Complete? {
      var s, n := step.s, step.n;
      assert CtxOk(st[s]) && ReqOk(st[s], n);
      WrIdRoundTrip(s, st[s].reqs[n].id);
      forall r: nat, m: nat | r < |st| && m < |st[r].reqs| && (r, m) != (s, n) && Waits(st[r].reqs[m].phase)
        ensures (r, st[r].reqs[m].id) != (s, st[s].reqs[n].id)
      {
        if r == s {
          DistinctIds(st[s], m, n);
        }
      }
    }
  }

  /** A request whose completion was handled can return. */
  lemma HandledReturns(st: State, w: nat, s: nat, n: nat)
    requires Ok(st) && Shaped(st) && At(st, Return(s, n), Handled)
    ensures Enabled(st, w, Return(s, n))
  {
    assert CtxOk(st[s]) && ReqOk(st[s], n);
  }

  // ----- the lock word -----

  /** The newest request with id `j`; -1 when there is none yet. */
  function Newest(c: Ctx, j: nat): int
    requires j < IDS
  {
    if |c.reqs| <= j then -1 else (|c.reqs| - 1 - j) / IDS * IDS + j
  }

  lemma NewestIs(c: Ctx, j: nat)
    requires j < IDS
    ensures var n := Newest(c, j);
            if n < 0 then |c.reqs| <= j else n < |c.reqs| && n % IDS == j && |c.reqs| <= n + IDS
  {
  }

  /** Bit `j` of the lock word: clear until the id is first used, clear between the completion of its newest request and
      the return of that request, and set at all other times. */
  predicate BitOk(c: Ctx, j: nat)
    requires Bounds(c) && j < IDS
  {
    var n := Newest(c, j);
    c.bits[j] == (n >= 0 && n < |c.reqs| && !c.reqs[n].phase.Handled? && (c.reqs[n].phase.Granted? ==> n >= IDS))
  }

  ghost predicate WordExact(c: Ctx) {
    Bounds(c) && forall j: nat :: j < IDS ==> BitOk(c, j)
  }

  /** A request that is not finished is the newest of its id. */
  lemma OutIsNewest(c: Ctx, n: nat)
    requires CtxOk(c) && n < |c.reqs| && !Finished(c.reqs[n].phase)
    ensures Newest(c, n % IDS) == n
  {
    assert ReqOk(c, n);
    NewestIs(c, n % IDS);
  }

  lemma GrantBit(c: Ctx, c': Ctx, j: nat)
    requires Bounds(c) && Bounds(c') && j < IDS && BitOk(c, j) && c'.bits == c.bits && |c'.reqs| == |c.reqs| + 1
    requires forall m: nat :: m < |c.reqs| ==> c'.reqs[m] == c.reqs[m]
    requires c'.reqs[|c.reqs|].phase == Granted
    requires var m := Newest(c, j); m >= 0 && m + IDS == |c.reqs| ==> m < |c.reqs| && Finished(c.reqs[m].phase)
    ensures BitOk(c', j)
  {
    NewestIs(c, j);
    NewestIs(c', j);
    var m, n := Newest(c, j), Newest(c', j);
    hide Newest, Bounds;
    assert n < |c.reqs| ==> n == m;
  }

  lemma GrantExact(c: Ctx, w: nat)
    requires CtxOk(c) && WordExact(c) && Window(c, w) && w <= IDS
    ensures WordExact(Ctx((c.current + 1) % IDS, c.bits, c.reqs + [Req(c.current, Granted)]))
  {
    hide BitOk, Newest, ReqOk;
    var c' := Ctx((c.current + 1) % IDS, c.bits, c.reqs + [Req(c.current, Granted)]);
    forall j: nat | j < IDS
      ensures BitOk(c', j)
    {
      NewestIs(c, j);
      GrantBit(c, c', j);
    }
  }

  /** One request moves on, and its bit is set unless the move is to `Handled`. */
  lemma MoveExact(c: Ctx, c': Ctx, n: nat, p: Phase)
    requires CtxOk(c) && WordExact(c) && n < |c.reqs| && !Finished(c.reqs[n].phase)
    requires c'.current == c.current && c'.reqs == Moved(c, n, p).reqs && |c'.bits| == IDS && !p.Granted?
    requires forall j: nat :: j < IDS && j != n % IDS ==> c'.bits[j] == c.bits[j]
    requires c'.bits[n % IDS] == !p.Handled?
    ensures WordExact(c')
  {
    assert Bounds(c');
    OutIsNewest(c, n);
    hide CtxOk;
    forall j: nat | j < IDS
      ensures BitOk(c', j)
    {
      assert BitOk(c, j);
      NewestIs(c, j);
      assert Newest(c', j) == Newest(c, j);
    }
  }

  /** The bit of a request that is out, in terms of its phase. */
  lemma OutBit(c: Ctx, n: nat)
    requires CtxOk(c) && WordExact(c) && n < |c.reqs| && !Finished(c.reqs[n].phase)
    ensures c.bits[n % IDS] == !(c.reqs[n].phase.Handled? || (c.reqs[n].phase.Granted? && n < IDS))
  {
    OutIsNewest(c, n);
    assert BitOk(c, n % IDS);
  }

  ghost predicate Exact(st: State) {
    forall s: nat :: s < |st| ==> WordExact(st[s])
  }

  lemma AfterExact(st: State, s: nat, c: Ctx)
    requires Exact(st) && s < |st| && WordExact(c)
    ensures Exact(st[s := c])
  {
  }

  /** Under a window of 64 every step keeps the lock words exact. */
  lemma StepExact(st: State, w: nat, step: Step)
    requires Ok(st) && Exact(st) && Shaped(st) && Enabled(st, w, step) && w <= IDS
    ensures Exact(Next(st, w, step))
  {
    hide Ok, Shaped, WordExact;
    var s, c := step.s, st[step.s];
    assert CtxOk(c) by { SlaveOk(st, step.s); }
    if step.Grant? {
      GrantExact(c, w);
      AfterExact(st, s, Ctx((c.current + 1) % IDS, c.bits, c.reqs + [Req(c.current, Granted)]));
    } else {
      var n := step.n;
      assert ReqOk(c, n);
      OutBit(c, n);
      hide CtxOk;
      match step
      case SetBit(_, _) => MovedExact(st, s, WithBit(Moved(c, n, Locked), n % IDS, true), n, Locked);
      case Post(_, _) => MovedExact(st, s, Moved(c, n, Posted), n, Posted);
      case PostFails(_, _) => MovedExact(st, s, Moved(c, n, Refused), n, Refused);
      case CompleteFails(_, _) => MovedExact(st, s, Moved(c, n, Broken), n, Broken);
      case Return(_, _) => MovedExact(st, s, WithBit(Moved(c, n, Returned), n % IDS, true), n, Returned);
      case Complete(_, _) => CompleteExact(st, s, n);
    }
  }

  lemma MovedExact(st: State, s: nat, c': Ctx, n: nat, p: Phase)
    requires Exact(st) && s < |st| && CtxOk(st[s]) && n < |st[s].reqs| && !Finished(st[s].reqs[n].phase)
    requires c'.current == st[s].current && c'.reqs == Moved(st[s], n, p).reqs && |c'.bits| == IDS && !p.Granted?
    requires forall j: nat :: j < IDS && j != n % IDS ==> c'.bits[j] == st[s].bits[j]
    requires c'.bits[n % IDS] == !p.Handled?
    ensures Exact(st[s := c'])
  {
    hide CtxOk, WordExact;
    MoveExact(st[s], c', n, p);
    AfterExact(st, s, c');
  }

  lemma CompleteExact(st: State, s: nat, n: nat)
    requires Ok(st) && Exact(st) && s < |st| && n < |st[s].reqs| && st[s].reqs[n].phase == Posted
    ensures Shaped(st[s := Moved(st[s], n, Handled)])
    ensures Exact(Cleared(st[s := Moved(st[s], n, Handled)], WrId(s, st[s].reqs[n].id)))
  {
    CompleteOk(st, s, n);
    var c := st[s];
    assert ReqOk(c, n);
    WrIdRoundTrip(s, n % IDS);
    hide WrId, SlaveOf, IdOf;
    var c' := WithBit(Moved(c, n, Handled), n % IDS, false);
    MovedExact(st, s, c', n, Handled);
    assert st[s := Moved(c, n, Handled)][s := c'] == st[s := c'];
  }

  // ----- runs -----

  function Init(slaves: nat): State {
    seq(slaves, _ => Ctx(0, seq(IDS, _ => false), []))
  }

  /** `sts` are the states of a run of `steps`: any interleaving of posters and handler, over all slaves. */
  ghost predicate Runs(slaves: nat, w: nat, steps: seq<Step>, sts: seq<State>) {
    && |sts| == |steps| + 1 && sts[0] == Init(slaves)
    && forall i: nat :: i < |steps| ==> Follows(w, steps, sts, i)
  }

  ghost predicate Follows(w: nat, steps: seq<Step>, sts: seq<State>, i: nat)
    requires i < |steps| && |sts| == |steps| + 1
  {
    Shaped(sts[i]) && Enabled(sts[i], w, steps[i]) && sts[i + 1] == Next(sts[i], w, steps[i])
  }

  ghost predicate SafeRun(steps: seq<Step>, sts: seq<State>) {
    |sts| == |steps| + 1 && forall i: nat :: i < |steps| ==> Shaped(sts[i]) && Safe(sts[i], steps[i])
  }

  lemma {:induction false} RunOk(slaves: nat, w: nat, steps: seq<Step>, sts: seq<State>, i: nat)
    requires slaves <= SLAVES && w <= IDS && Runs(slaves, w, steps, sts) && i <= |steps|
    ensures Ok(sts[i])
  {
    if i > 0 {
      RunOk(slaves, w, steps, sts, i - 1);
      assert Follows(w, steps, sts, i - 1);
      StepOk(sts[i - 1], w, steps[i - 1]);
    }
  }

  /** Over every interleaving under a window of at most 64, every bit of every lock word is the one that the newest
      request of its id calls for. */
  lemma {:induction false} RunExact(slaves: nat, w: nat, steps: seq<Step>, sts: seq<State>, i: nat)
    requires slaves <= SLAVES && w <= IDS && Runs(slaves, w, steps, sts) && i <= |steps|
    ensures Exact(sts[i])
  {
    if i > 0 {
      RunExact(slaves, w, steps, sts, i - 1);
      RunOk(slaves, w, steps, sts, i - 1);
      assert Follows(w, steps, sts, i - 1);
      hide Ok, Exact, Runs;
      StepExact(sts[i - 1], w, steps[i - 1]);
    }
  }

  lemma RunSafe(slaves: nat, w: nat, steps: seq<Step>, sts: seq<State>)
    requires slaves <= SLAVES && w <= IDS && Runs(slaves, w, steps, sts)
    ensures SafeRun(steps, sts)
  {
    forall i: nat | i < |steps|
      ensures Shaped(sts[i]) && Safe(sts[i], steps[i])
    {
      RunOk(slaves, w, steps, sts, i);
      assert Follows(w, steps, sts, i);
      StepSafe(sts[i], w, steps[i]);
    }
  }

  // ----- a wider window is not safe -----

  lemma Extend(slaves: nat, w: nat, steps: seq<Step>, sts: seq<State>, step: Step)
      returns (steps': seq<Step>, sts': seq<State>)
    requires Runs(slaves, w, steps, sts) && Shaped(sts[|steps|]) && Enabled(sts[|steps|], w, step)
    ensures Runs(slaves, w, steps', sts') && |steps'| == |steps| + 1 && steps'[|steps|] == step
    ensures sts'[|steps|] == sts[|steps|] && sts'[|steps'|] == Next(sts[|steps|], w, step)
  {
    steps', sts' := steps + [step], sts + [Next(sts[|steps|], w, step)];
    hide Shaped, Next, Enabled;
    forall i: nat | i < |steps'|
      ensures Follows(w, steps', sts', i)
    {
      if i < |steps| {
        assert Follows(w, steps, sts, i);
      }
    }
  }

  /** One request posted, and `j` more granted after it. */
  ghost predicate Behind(st: State, slaves: nat, j: nat) {
    && |st| == slaves && Shaped(st) && slaves > 0
    && var c := st[0];
       && |c.reqs| == j + 1 && c.current == (j + 1) % IDS && c.reqs[0] == Req(0, Posted)
       && forall m: nat :: 0 < m <= j ==> c.reqs[m] == Req(m % IDS, Granted)
  }

  lemma OneOut(slaves: nat, w: nat) returns (steps: seq<Step>, sts: seq<State>)
    requires 0 < slaves <= SLAVES
    ensures Runs(slaves, w, steps, sts) && Behind(sts[|steps|], slaves, 0)
  {
    steps, sts := [], [Init(slaves)];
    steps, sts := Extend(slaves, w, steps, sts, Grant(0));
    steps, sts := Extend(slaves, w, steps, sts, SetBit(0, 0));
    steps, sts := Extend(slaves, w, steps, sts, Post(0, 0));
  }

  lemma OneBehind(slaves: nat, w: nat, steps: seq<Step>, sts: seq<State>, j: nat)
      returns (steps': seq<Step>, sts': seq<State>)
    requires Runs(slaves, w, steps, sts) && Behind(sts[|steps|], slaves, j) && w > j + 1
    ensures Runs(slaves, w, steps', sts') && Behind(sts'[|steps'|], slaves, j + 1)
  {
    GrantBehind(sts[|steps|], slaves, w, j);
    hide Runs, Behind, Next, Enabled;
    steps', sts' := Extend(slaves, w, steps, sts, Grant(0));
  }

  lemma GrantBehind(st: State, slaves: nat, w: nat, j: nat)
    requires Behind(st, slaves, j) && w > j + 1
    ensures Shaped(st) && Enabled(st, w, Grant(0)) && Behind(Next(st, w, Grant(0)), slaves, j + 1)
  {
    NextId(j + 1);
    var c, c' := st[0], Next(st, w, Grant(0))[0];
    assert c'.reqs == c.reqs + [Req(c.current, Granted)] && c'.current == (j + 2) % IDS;
    assert forall m: nat :: m < |c.reqs| ==> c'.reqs[m] == c.reqs[m];
  }

  lemma ManyBehind(slaves: nat, w: nat, j: nat) returns (steps: seq<Step>, sts: seq<State>)
    requires 0 < slaves <= SLAVES && w > j
    ensures Runs(slaves, w, steps, sts) && Behind(sts[|steps|], slaves, j)
  {
    hide Runs, Behind;
    if j == 0 {
      steps, sts := OneOut(slaves, w);
    } else {
      steps, sts := ManyBehind(slaves, w, j - 1);
      steps, sts := OneBehind(slaves, w, steps, sts, j - 1);
    }
  }

  /** Two requests posted with the same id. */
  ghost predicate Clash(st: State) {
    && st != [] && Shaped(st) && |st[0].reqs| == IDS + 1
    && st[0].reqs[0] == Req(0, Posted) && st[0].reqs[IDS] == Req(0, Posted)
  }

  lemma OneTooMany(slaves: nat, w: nat) returns (steps: seq<Step>, sts: seq<State>)
    requires 0 < slaves <= SLAVES && w > IDS
    ensures Runs(slaves, w, steps, sts) && Clash(sts[|steps|])
  {
    hide Runs;
    steps, sts := ManyBehind(slaves, w, IDS);
    steps, sts := Extend(slaves, w, steps, sts, SetBit(0, IDS));
    steps, sts := Extend(slaves, w, steps, sts, Post(0, IDS));
  }

  /** With a 65th request out, its id is that of the first, whose completion clears its bit; so it returns although its
      own transfer is not done. */
  lemma WiderIsUnsafe(slaves: nat, w: nat) returns (steps: seq<Step>, sts: seq<State>)
    requires 0 < slaves <= SLAVES && w > IDS
    ensures Runs(slaves, w, steps, sts) && !SafeRun(steps, sts)
    ensures var k := |steps| - 1; k >= 0 && steps[k] == Return(0, IDS) && At(sts[k], steps[k], Posted)
  {
    steps, sts := OneTooMany(slaves, w);
    ClashReturns(sts[|steps|], w);
    hide Clash, Next, Enabled, Safe, Follows;
    steps, sts := Extend(slaves, w, steps, sts, Complete(0, 0));
    steps, sts := Extend(slaves, w, steps, sts, Return(0, IDS));
  }

  lemma ClashReturns(st: State, w: nat)
    requires Clash(st)
    ensures Shaped(st) && Enabled(st, w, Complete(0, 0))
    ensures var st' := Next(st, w, Complete(0, 0)); var step := Return(0, IDS);
            Shaped(st') && Enabled(st', w, step) && At(st', step, Posted) && !Safe(st', step)
  {
    WrIdRoundTrip(0, 0);
    hide WrId, SlaveOf, IdOf;
  }

  // ----- the protocol does not stop -----

  /** Slave 0 has granted `n` requests, and all of them returned. */
  ghost predicate AllReturned(st: State, n: nat) {
    st != [] && Shaped(st) && |st[0].reqs| == n && forall m: nat :: m < n ==> st[0].reqs[m].phase == Returned
  }

  /** Request `n` of slave 0 is in phase `p`, with its bit as given, and all before it returned. */
  ghost predicate Underway(st: State, n: nat, p: Phase, bit: bool) {
    && st != [] && Shaped(st) && |st[0].reqs| == n + 1
    && st[0].reqs[n].phase == p && st[0].bits[st[0].reqs[n].id] == bit
    && forall m: nat :: m < n ==> st[0].reqs[m].phase == Returned
  }

  lemma GrantsNext(st: State, w: nat, n: nat)
    requires AllReturned(st, n) && w > 0
    ensures Shaped(st) && Enabled(st, w, Grant(0))
    ensures exists bit :: Underway(Next(st, w, Grant(0)), n, Granted, bit)
  {
    var st' := Next(st, w, Grant(0));
    assert Underway(st', n, Granted, st'[0].bits[st'[0].reqs[n].id]);
  }

  lemma LocksNext(st: State, w: nat, n: nat, bit: bool)
    requires Underway(st, n, Granted, bit)
    ensures Shaped(st) && Enabled(st, w, SetBit(0, n)) && Underway(Next(st, w, SetBit(0, n)), n, Locked, true)
  {
  }

  lemma PostsNext(st: State, w: nat, n: nat)
    requires Underway(st, n, Locked, true)
    ensures Shaped(st) && Enabled(st, w, Post(0, n)) && Underway(Next(st, w, Post(0, n)), n, Posted, true)
  {
  }

  lemma CompletesNext(st: State, w: nat, n: nat)
    requires Underway(st, n, Posted, true)
    ensures Shaped(st) && Enabled(st, w, Complete(0, n)) && Underway(Next(st, w, Complete(0, n)), n, Handled, false)
  {
    WrIdRoundTrip(0, st[0].reqs[n].id);
    hide WrId, SlaveOf, IdOf;
  }

  lemma ReturnsNext(st: State, w: nat, n: nat)
    requires Underway(st, n, Handled, false)
    ensures Shaped(st) && Enabled(st, w, Return(0, n)) && AllReturned(Next(st, w, Return(0, n)), n + 1)
  {
  }

  /** Under every window but that of none there are runs with any number of requests, all of which return. */
  lemma {:induction false} GoesOn(slaves: nat, w: nat, n: nat) returns (steps: seq<Step>, sts: seq<State>)
    requires 0 < slaves <= SLAVES && w > 0
    ensures Runs(slaves, w, steps, sts) && AllReturned(sts[|steps|], n)
  {
    if n == 0 {
      steps, sts := [], [Init(slaves)];
    } else {
      hide Runs, AllReturned, Underway, Next, Enabled;
      steps, sts := GoesOn(slaves, w, n - 1);
      GrantsNext(sts[|steps|], w, n - 1);
      steps, sts := Extend(slaves, w, steps, sts, Grant(0));
      var bit :| Underway(sts[|steps|], n - 1, Granted, bit);
      LocksNext(sts[|steps|], w, n - 1, bit);
      steps, sts := Extend(slaves, w, steps, sts, SetBit(0, n - 1));
      PostsNext(sts[|steps|], w, n - 1);
      steps, sts := Extend(slaves, w, steps, sts, Post(0, n - 1));
      CompletesNext(sts[|steps|], w, n - 1);
      steps, sts := Extend(slaves, w, steps, sts, Complete(0, n - 1));
      ReturnsNext(sts[|steps|], w, n - 1);
      steps, sts := Extend(slaves, w, steps, sts, Return(0, n - 1));
    }
  }

  /** Every run is safe exactly when fewer than 64 ids are granted between a request's grant and its return. */
  lemma SafeIffWindow(slaves: nat, w: nat)
    requires 0 < slaves <= SLAVES
    ensures (forall steps: seq<Step>, sts: seq<State> :: Runs(slaves, w, steps, sts) ==> SafeRun(steps, sts))
            <==> w <= IDS
  {
    if w <= IDS {
      forall steps: seq<Step>, sts: seq<State> | Runs(slaves, w, steps, sts)
        ensures SafeRun(steps, sts)
      {
        RunSafe(slaves, w, steps, sts);
      }
    } else {
      var steps, sts := WiderIsUnsafe(slaves, w);
    }
  }
}
