/** Whole runs of the block machine reduce to "apply each decided block to the last committed store". */
module BlockRuns {
  import opened Prelude
  import opened Store
  import opened Gas
  import opened RunTx
  import opened BlockMachine

  // ---------- what a run should mean ----------

  /** Steps `n` and later of a block, on the map the branch reads as. */
  function BlockFrom(env: Env, req: Req, n: nat, view: KV, meter: Meter): Option<KV>
    requires n <= Phases(req)
    decreases Phases(req) - n
  {
    if n == Phases(req) then Some(view)
    else
      match env.phase(req, n, view, meter)
      case Fails => None
      case Does(w, m) => BlockFrom(env, req, n + 1, View(view, w), m)
  }

  /** A decided block as a partial function on stores. */
  function ApplyBlock(env: Env, base: KV, req: Req): Option<KV> {
    BlockFrom(env, req, 0, base, Infinite(0))
  }

  /** The chain as its users see it: only genesis, decided blocks and commits exist. */
  datatype Chain = Chain(
    alive: bool, started: bool, committed: KV, base: KV, height: int, initialHeight: int,
    pending: Option<(Req, KV)>, genesis: KV, ledger: seq<Req>)

  const NO_CHAIN := Chain(true, false, map[], map[], 0, 0, None, map[], [])

  function NextHeight(a: Chain): int {
    if a.height == 0 && a.initialHeight > 1 then a.initialHeight else a.height + 1
  }

  predicate Accepts(env: Env, a: Chain, req: Req) {
    !env.halts(req.height, req.time) && req.height >= 1 && req.height == NextHeight(a) && ApplyBlock(env, a.base, req).Some?
  }

  function ChainStep(env: Env, a: Chain, c: Call): Chain {
    if !a.alive then a
    else
      match c
      case InitChain(init) =>
        (match env.init(init, a.committed)
         case None => a.(alive := false)
         case Some(w) =>
           a.(started := true, base := View(a.committed, w), genesis := View(a.committed, w),
              initialHeight := if init.initialHeight == 0 then 1 else init.initialHeight))
      case FinalizeBlock(req, _) =>
        if Accepts(env, a, req) then a.(pending := Some((req, ApplyBlock(env, a.base, req).value)))
        else a.(alive := false)
      case Commit =>
        if a.pending.None? then a
        else
          var (req, v) := a.pending.value;
          a.(committed := v, base := v, height := NextHeight(a), pending := None, ledger := a.ledger + [req])
      case _ => a
  }

  function ChainRun(env: Env, a: Chain, calls: seq<Call>): Chain
    decreases |calls|
  {
    if calls == [] then a else ChainRun(env, ChainStep(env, a, calls[0]), calls[1..])
  }

  // ---------- legal runs ----------

  /** The order CometBFT keeps: genesis first; in one height proposals and vote extensions for the next
      height only, then one FinalizeBlock, then Commit. A block hash names one block. */
  predicate Legal(s: App, c: Call) {
    match c
    case InitChain(init) => !s.started && init.initialHeight >= 0
    case CheckTx(_, _) => s.started
    case SimulateTx(_) => s.started
    case PrepareProposal(_, _) => s.started && !s.awaitingCommit
    case ProcessProposal(req, _, _) => s.started && !s.awaitingCommit && req.height == ExpectedHeight(s)
    case ExtendVote(_, _) => s.started && !s.awaitingCommit
    case OeStep => true
    case FinalizeBlock(req, _) =>
      s.started && !s.awaitingCommit && (s.oe.Execution? && s.oe.req.hash == req.hash ==> s.oe.req == req)
    case Commit => s.awaitingCommit
  }

  /** The optimistic run on record is the one working on the current finalize branch. */
  predicate Live(s: App) {
    s.oe.Execution? && !s.oe.cancelled && s.oe.req.height > s.lastHeight
  }

  /** FinalizeBlock would take the result of a run that `Abort` stopped, or of an earlier height. */
  predicate TakesStaleResult(s: App, c: Call) {
    c.FinalizeBlock? && !c.testAbort && s.oe.Execution? && s.oe.req.hash == c.req.hash && !Live(s)
  }

  predicate LegalRun(env: Env, s: App, calls: seq<Call>)
    requires OeInRange(s)
    decreases |calls|
  {
    calls == [] || !s.alive ||
    (Legal(s, calls[0]) && !TakesStaleResult(s, calls[0]) && LegalRun(env, Step(env, s, calls[0]), calls[1..]))
  }

  // ---------- the simulation relation ----------

  /** The steps a block has run when it is at step `n`. */
  function StepsUpTo(req: Req, n: nat): seq<(Req, nat)> {
    seq(n, i => (req, i))
  }

  /** `fs` holds steps 0..n of `req` on top of `base`: what is left to do ends where the whole block ends. */
  predicate OnTrack(env: Env, root: KV, base: KV, req: Req, n: nat, fs: FinState) {
    && n <= Phases(req)
    && fs.applied == StepsUpTo(req, n)
    && BlockFrom(env, req, n, View(root, fs.writes), fs.meter) == ApplyBlock(env, base, req)
  }

  /** What the result of a live run says about its block. */
  predicate ResultIsTrue(env: Env, s: App, a: Chain) {
    s.oe.Execution? ==>
      && (s.oe.phase > 0 || s.oe.result.Good? ==> Admissible(env, s, s.oe.req))
      && (s.oe.result.Good? ==> s.oe.phase == Phases(s.oe.req))
      && (s.oe.result.Bad? ==> !Accepts(env, a, s.oe.req))
  }

  predicate Between(env: Env, s: App, a: Chain) {
    && s.working == s.committed
    && (a.height == 0 ==>
          && s.oe.Idle? && s.finalize.Some?
          && s.finalize.value.applied == [] && s.finalize.value.meter == Infinite(0)
          && View(s.committed, s.finalize.value.writes) == a.base)
    && (a.height != 0 ==>
          && a.base == a.committed
          && (Live(s) ==> s.finalize.Some? && OnTrack(env, s.committed, a.base, s.oe.req, s.oe.phase, s.finalize.value)
                          && ResultIsTrue(env, s, a))
          && (!Live(s) ==> !Running(s) && (s.finalize.Some? ==> s.finalize.value == FRESH)))
  }

  /** The machine in state `s` stands for the chain `a`. */
  predicate StandsFor(env: Env, s: App, a: Chain) {
    && OeInRange(s)
    && s.alive == a.alive && s.committed == a.committed
    && (a.alive ==>
          && s.started == a.started && s.lastHeight == a.height
          && s.awaitingCommit == a.pending.Some?
          && (!a.started ==> s == EMPTY && a == NO_CHAIN)
          && (a.started ==>
                && s.initialHeight == a.initialHeight && a.initialHeight >= 1 && (a.height == 0 || a.height >= a.initialHeight)
                && (s.oe.Execution? ==> s.oe.req.height <= ExpectedHeight(s))
                && (a.pending.None? ==> Between(env, s, a))
                && (a.pending.Some? ==> s.working == a.pending.value.1 && !Running(s))))
  }

  // ---------- one step ----------

  /** The first steps of a block, run on the branch and run on what the branch reads as, agree. */
  lemma {:induction false} PhaseOnIsPhase(env: Env, root: KV, base: KV, req: Req, n: nat, fs: FinState)
    requires n < Phases(req) && OnTrack(env, root, base, req, n, fs)
    ensures match PhaseOn(env, req, n, root, fs)
      case None => ApplyBlock(env, base, req).None?
      case Some(next) => OnTrack(env, root, base, req, n + 1, next)
  {
    match env.phase(req, n, View(root, fs.writes), fs.meter)
    case Fails =>
    case Does(w, m) =>
      ViewOfWrite(root, fs.writes, w);
      assert StepsUpTo(req, n + 1) == StepsUpTo(req, n) + [(req, n)];
  }

  /** Small steps and the whole block agree: running the remaining steps ends in the applied block. */
  lemma {:induction false} PhasesFromIsBlock(env: Env, root: KV, base: KV, req: Req, n: nat, fs: FinState)
    requires OnTrack(env, root, base, req, n, fs)
    ensures var p := PhasesFrom(env, req, n, root, fs);
      if !p.complete then ApplyBlock(env, base, req).None?
      else ApplyBlock(env, base, req) == Some(View(root, p.fs.writes)) && p.fs.applied == StepsUpTo(req, Phases(req))
    decreases Phases(req) - n
  {
    if n < Phases(req) {
      PhaseOnIsPhase(env, root, base, req, n, fs);
      match PhaseOn(env, req, n, root, fs)
      case None =>
      case Some(next) => PhasesFromIsBlock(env, root, base, req, n + 1, next);
    }
  }

  /** When the goroutine sees the cancel signal: after every step that succeeds except the first, the pre-block hook. */
  lemma {:induction false} CancelIsSeenAfter(env: Env, s: App)
    requires OeInRange(s) && Running(s) && s.oe.cancelled && s.finalize.Some?
    requires PhaseOn(env, s.oe.req, s.oe.phase, s.working, s.finalize.value).Some? && Admissible(env, s, s.oe.req)
    ensures Tick(env, s).oe.phase == s.oe.phase + 1
    ensures Tick(env, s).oe.result == if s.oe.phase == 0 then Pending else Bad
  {
    hide PhaseOn, Admissible;
  }

  /** A cancelled run that had no result yet can only end without one. */
  lemma {:induction false} CancelledRunNeverSucceeds(env: Env, s: App)
    requires OeInRange(s) && Running(s) && s.oe.cancelled
    ensures Wait(env, s).oe.result.Bad?
    decreases Phases(s.oe.req) - s.oe.phase
  {
    var t := Tick(env, s);
    if Running(t) {
      CancelledRunNeverSucceeds(env, t);
    }
  }

  /** One goroutine step keeps a live run on track. */
  lemma {:induction false} TickKeepsTrack(env: Env, s: App, a: Chain)
    requires StandsFor(env, s, a) && a.alive && a.started && a.pending.None? && Running(s) && Live(s)
    ensures var t := Tick(env, s); StandsFor(env, t, a) && Live(t)
  {
    PhaseOnIsPhase(env, s.committed, a.base, s.oe.req, s.oe.phase, s.finalize.value);
  }

  lemma {:induction false} WaitKeepsTrack(env: Env, s: App, a: Chain)
    requires StandsFor(env, s, a) && a.alive && a.started && a.pending.None? && Live(s)
    ensures var t := Wait(env, s); StandsFor(env, t, a) && Live(t)
    decreases if Running(s) then Phases(s.oe.req) - s.oe.phase else 0
  {
    if Running(s) {
      TickKeepsTrack(env, s, a);
      WaitKeepsTrack(env, Tick(env, s), a);
    }
  }

  lemma {:induction false} ProposalKeeps(env: Env, s: App, a: Chain, req: Req, accept: bool, w: Writes)
    requires StandsFor(env, s, a) && a.alive && Legal(s, Call.ProcessProposal(req, accept, w))
    ensures StandsFor(env, Processed(env, s, req, accept, w), a)
  {
    if req.height > s.initialHeight {
      ViewOfNothing(s.committed);
      assert StepsUpTo(req, 0) == [];
      assert OnTrack(env, s.committed, a.base, req, 0, FRESH);
    }
  }

  /** Executing the block in FinalizeBlock itself, on a branch nothing was run on. */
  lemma {:induction false} ExecutingHere(env: Env, s: App, a: Chain, req: Req)
    requires OeInRange(s) && s.alive && a.alive && s.working == s.committed && s.committed == a.committed
    requires s.lastHeight == a.height && s.initialHeight == a.initialHeight
    requires var fs := if s.finalize.Some? then s.finalize.value else FRESH;
      fs.applied == [] && fs.meter == Infinite(0) && View(s.committed, fs.writes) == a.base
    ensures var t := InternalFinalizeBlock(env, s, req);
      && (t.alive <==> Accepts(env, a, req))
      && t.committed == s.committed && t.oe == s.oe && t.started == s.started && t.lastHeight == s.lastHeight && t.initialHeight == s.initialHeight
      && (t.alive ==> t.awaitingCommit && Some(t.working) == ApplyBlock(env, a.base, req) && t.written == StepsUpTo(req, Phases(req)))
  {
    hide PhasesFrom, View, BlockFrom, ApplyBlock, OnTrack;
    var fs := if s.finalize.Some? then s.finalize.value else FRESH;
    StartsOnTrack(env, s.working, a.base, req, fs);
    PhasesFromIsBlock(env, s.working, a.base, req, 0, fs);
  }

  lemma {:induction false} StartsOnTrack(env: Env, root: KV, base: KV, req: Req, fs: FinState)
    requires fs.applied == [] && fs.meter == Infinite(0) && View(root, fs.writes) == base
    ensures OnTrack(env, root, base, req, 0, fs)
  {
    hide BlockFrom, View;
    assert StepsUpTo(req, 0) == [];
  }

  /** `t` is `s` after `req` was executed, all of it, and written, or refused. */
  predicate Decides(env: Env, s: App, t: App, a: Chain, req: Req) {
    && (t.alive <==> Accepts(env, a, req))
    && t.committed == s.committed && t.started == s.started && t.lastHeight == s.lastHeight && t.initialHeight == s.initialHeight
    && !Running(t) && (t.oe.Execution? ==> t.oe == s.oe || (s.oe.Execution? && t.oe.req == s.oe.req))
    && (t.alive ==> t.awaitingCommit && Some(t.working) == ApplyBlock(env, a.base, req) && t.written == StepsUpTo(req, Phases(req)))
  }

  lemma {:induction false} DecidesStandsFor(env: Env, s: App, t: App, a: Chain, req: Req, testAbort: bool)
    requires StandsFor(env, s, a) && a.alive && a.started && a.pending.None? && Decides(env, s, t, a, req)
    ensures StandsFor(env, t, ChainStep(env, a, FinalizeBlock(req, testAbort)))
  {
    hide ApplyBlock, Between, StepsUpTo, View;
  }

  /** The branch a block is executed on when no optimistic run holds it: genesis writes at the initial height,
      and nothing later. */
  lemma {:induction false} FreshDecides(env: Env, s: App, a: Chain, req: Req)
    requires StandsFor(env, s, a) && a.alive && a.started && a.pending.None? && s.oe.Idle?
    ensures Decides(env, s, InternalFinalizeBlock(env, s, req), a, req)
  {
    hide ApplyBlock, View, InternalFinalizeBlock, StepsUpTo;
    ViewOfNothing(s.committed);
    ExecutingHere(env, s, a, req);
  }

  lemma {:induction false} AbortedDecides(env: Env, s: App, a: Chain, req: Req)
    requires StandsFor(env, s, a) && a.alive && a.started && a.pending.None? && s.oe.Execution? && OeInRange(Cancel(s))
    ensures Decides(env, s, InternalFinalizeBlock(env, Wait(env, Cancel(s)).(finalize := None, oe := Idle), req), a, req)
  {
    hide ApplyBlock, View, InternalFinalizeBlock, StepsUpTo, Wait;
    ViewOfNothing(s.committed);
    ExecutingHere(env, Wait(env, Cancel(s)).(finalize := None, oe := Idle), a, req);
  }

  lemma {:induction false} TakenDecides(env: Env, s: App, a: Chain, req: Req)
    requires StandsFor(env, s, a) && a.alive && a.started && a.pending.None? && Live(s) && s.oe.req == req
    ensures var done := Wait(env, s);
      Decides(env, s, if done.oe.result.Good? && done.finalize.Some? then WriteToRoot(done) else Dead(done), a, req)
  {
    hide Wait, View;
    WaitKeepsTrack(env, s, a);
    var done := Wait(env, s);
    assert done.oe.req == req;
  }

  /** FinalizeBlock, when the result it takes (if it takes one) is of a live run. */
  lemma {:induction false} FinalizeIsFaithful(env: Env, s: App, a: Chain, req: Req, testAbort: bool)
    requires StandsFor(env, s, a) && a.alive && Legal(s, FinalizeBlock(req, testAbort))
    requires !TakesStaleResult(s, FinalizeBlock(req, testAbort))
    ensures var t := Finalized(env, s, req, testAbort);
      && StandsFor(env, t, ChainStep(env, a, FinalizeBlock(req, testAbort)))
      && (t.alive <==> Accepts(env, a, req))
      && (t.alive ==> t.written == StepsUpTo(req, Phases(req)))
  {
    hide Between, Accepts, InternalFinalizeBlock, Wait, WriteToRoot, ChainStep, StepsUpTo;
    if !s.oe.Execution? {
      FreshDecides(env, s, a, req);
    } else if s.oe.req.hash != req.hash || testAbort {
      AbortedDecides(env, s, a, req);
    } else {
      TakenDecides(env, s, a, req);
    }
    hide StandsFor;
    DecidesStandsFor(env, s, Finalized(env, s, req, testAbort), a, req, testAbort);
  }

  lemma {:induction false} InitKeeps(env: Env, s: App, a: Chain, init: InitReq)
    requires StandsFor(env, s, a) && a.alive && Legal(s, InitChain(init))
    ensures StandsFor(env, Initialized(env, s, init), ChainStep(env, a, InitChain(init)))
  {
  }

  lemma {:induction false} CommitKeeps(env: Env, s: App, a: Chain)
    requires StandsFor(env, s, a) && a.alive && Legal(s, Commit)
    ensures StandsFor(env, Committed(env, s), ChainStep(env, a, Commit))
  {
  }

  /** Every legal call either does to the chain what the chain says, or leaves it alone. */
  lemma {:induction false} StepStandsFor(env: Env, s: App, a: Chain, c: Call)
    requires StandsFor(env, s, a)
    requires s.alive ==> Legal(s, c) && !TakesStaleResult(s, c)
    ensures StandsFor(env, Step(env, s, c), ChainStep(env, a, c))
  {
    if s.alive {
      match c
      case InitChain(init) => InitKeeps(env, s, a, init);
      case ProcessProposal(req, accept, w) => ProposalKeeps(env, s, a, req, accept, w);
      case OeStep =>
        if Running(s) { TickKeepsTrack(env, s, a); }
      case FinalizeBlock(req, testAbort) => FinalizeIsFaithful(env, s, a, req, testAbort);
      case Commit => CommitKeeps(env, s, a);
      case CheckTx(_, _) =>
      case SimulateTx(_) =>
      case PrepareProposal(_, _) =>
      case ExtendVote(_, _) =>
    }
  }

  // ---------- whole runs ----------

  lemma {:induction false} RunStandsFor(env: Env, s: App, a: Chain, calls: seq<Call>)
    requires StandsFor(env, s, a) && LegalRun(env, s, calls)
    ensures StandsFor(env, RunCalls(env, s, calls), ChainRun(env, a, calls))
    decreases |calls|
  {
    if calls != [] {
      if s.alive {
        StepStandsFor(env, s, a, calls[0]);
        RunStandsFor(env, Step(env, s, calls[0]), ChainStep(env, a, calls[0]), calls[1..]);
      } else {
        DeadStaysDead(env, s, calls);
        DeadChainStays(env, a, calls);
      }
    }
  }

  lemma {:induction false} DeadStaysDead(env: Env, s: App, calls: seq<Call>)
    requires OeInRange(s) && !s.alive
    ensures RunCalls(env, s, calls) == s
    decreases |calls|
  {
    if calls != [] { DeadStaysDead(env, s, calls[1..]); }
  }

  lemma {:induction false} DeadChainStays(env: Env, a: Chain, calls: seq<Call>)
    requires !a.alive
    ensures ChainRun(env, a, calls) == a
    decreases |calls|
  {
    if calls != [] { DeadChainStays(env, a, calls[1..]); }
  }

  /** The calls that decide what the chain is. */
  function Decisive(calls: seq<Call>): seq<Call>
    decreases |calls|
  {
    if calls == [] then []
    else if calls[0].InitChain? || calls[0].FinalizeBlock? || calls[0].Commit? then [calls[0]] + Decisive(calls[1..])
    else Decisive(calls[1..])
  }

  predicate IsDecisive(c: Call) { c.InitChain? || c.FinalizeBlock? || c.Commit? }

  lemma {:induction false} ChainIgnoresNoise(env: Env, a: Chain, calls: seq<Call>)
    ensures ChainRun(env, a, calls) == ChainRun(env, a, Decisive(calls))
    decreases |calls|
  {
    if calls != [] {
      var rest := Decisive(calls[1..]);
      ChainIgnoresNoise(env, ChainStep(env, a, calls[0]), calls[1..]);
      if IsDecisive(calls[0]) {
        assert ([calls[0]] + rest)[1..] == rest;
      } else {
        assert ChainStep(env, a, calls[0]) == a;
      }
    }
  }

  /** A node that stands for the same chain and runs nothing early may make every decisive call that the other
      node makes, and takes no stale result. */
  lemma {:induction false} DecisiveIsLegalHere(env: Env, s: App, d: App, a: Chain, c: Call)
    requires StandsFor(env, s, a) && StandsFor(env, d, a) && d.oe.Idle? && a.alive && IsDecisive(c) && Legal(s, c)
    ensures Legal(d, c) && !TakesStaleResult(d, c) && Step(env, d, c).oe.Idle?
  {
  }

  lemma {:induction false} QuietNodeFollows(env: Env, s: App, d: App, a: Chain, calls: seq<Call>)
    requires StandsFor(env, s, a) && StandsFor(env, d, a) && d.oe.Idle? && LegalRun(env, s, calls)
    ensures LegalRun(env, d, Decisive(calls))
    decreases |calls|
  {
    hide StandsFor, Step, Legal, TakesStaleResult, ChainStep;
    if calls != [] {
      SameLife(env, s, d, a);
      if s.alive {
        var c := calls[0];
        StepStandsFor(env, s, a, c);
        if IsDecisive(c) {
          DecisiveIsLegalHere(env, s, d, a, c);
          StepStandsFor(env, d, a, c);
          QuietNodeFollows(env, Step(env, s, c), Step(env, d, c), ChainStep(env, a, c), calls[1..]);
          assert ([c] + Decisive(calls[1..]))[1..] == Decisive(calls[1..]);
        } else {
          NoiseLeavesChain(env, a, c);
          QuietNodeFollows(env, Step(env, s, c), d, a, calls[1..]);
        }
      }
    }
  }

  lemma {:induction false} SameLife(env: Env, s: App, d: App, a: Chain)
    requires StandsFor(env, s, a) && StandsFor(env, d, a)
    ensures OeInRange(s) && OeInRange(d) && s.alive == a.alive == d.alive && s.committed == a.committed == d.committed && (s.alive ==> s.lastHeight == d.lastHeight)
  {
  }

  lemma {:induction false} NoiseLeavesChain(env: Env, a: Chain, c: Call)
    requires !IsDecisive(c)
    ensures ChainStep(env, a, c) == a
  {
  }

  /** Checks, simulations, proposals, vote extensions and early execution can be left out of a legal run: what
      remains is a legal run of the same node to the same committed store and height. */
  lemma {:induction false} NoiseIsInvisible(env: Env, calls: seq<Call>)
    requires LegalRun(env, EMPTY, calls)
    ensures LegalRun(env, EMPTY, Decisive(calls))
    ensures var (s, d) := (RunCalls(env, EMPTY, calls), RunCalls(env, EMPTY, Decisive(calls)));
      s.alive == d.alive && s.committed == d.committed && (s.alive ==> s.lastHeight == d.lastHeight)
  {
    hide StandsFor;
    EmptyStandsForNothing(env);
    QuietNodeFollows(env, EMPTY, EMPTY, NO_CHAIN, calls);
    ChainIgnoresNoise(env, NO_CHAIN, calls);
    RunStandsFor(env, EMPTY, NO_CHAIN, calls);
    RunStandsFor(env, EMPTY, NO_CHAIN, Decisive(calls));
    SameLife(env, RunCalls(env, EMPTY, calls), RunCalls(env, EMPTY, Decisive(calls)), ChainRun(env, NO_CHAIN, calls));
  }

  lemma {:induction false} EmptyStandsForNothing(env: Env)
    ensures StandsFor(env, EMPTY, NO_CHAIN)
  {
  }

  /** Applying a list of decided blocks in order. */
  function ApplyBlocks(env: Env, base: KV, blocks: seq<Req>): Option<KV>
    decreases |blocks|
  {
    if blocks == [] then Some(base)
    else
      match ApplyBlocks(env, base, blocks[..|blocks| - 1])
      case None => None
      case Some(v) => ApplyBlock(env, v, blocks[|blocks| - 1])
  }

  /** The ledger explains the chain: its heights are consecutive from the initial height, and the
      committed store is genesis with the ledger's blocks applied. */
  ghost predicate LedgerExplains(env: Env, a: Chain) {
    && (!a.started ==> a == NO_CHAIN.(alive := a.alive))
    && (a.started ==>
          && a.initialHeight >= 1
          && ApplyBlocks(env, a.genesis, a.ledger) == Some(a.base)
          && (a.ledger == [] <==> a.height == 0)
          && (a.ledger != [] ==> a.committed == a.base && a.height == a.initialHeight + |a.ledger| - 1)
          && (forall i :: 0 <= i < |a.ledger| ==> a.ledger[i].height == a.initialHeight + i)
          && (a.pending.Some? ==> Some(a.pending.value.1) == ApplyBlock(env, a.base, a.pending.value.0)
                                  && a.pending.value.0.height == NextHeight(a)))
  }

  predicate LegalChainCall(a: Chain, c: Call) {
    (c.InitChain? ==> !a.started && c.init.initialHeight >= 0) && (c.FinalizeBlock? || c.Commit? ==> a.started)
  }

  /** One more decided block at the end of the list. */
  lemma {:induction false} ApplyOneMore(env: Env, base: KV, blocks: seq<Req>, mid: KV, req: Req, v: KV)
    requires ApplyBlocks(env, base, blocks) == Some(mid) && Some(v) == ApplyBlock(env, mid, req)
    ensures ApplyBlocks(env, base, blocks + [req]) == Some(v)
  {
    hide ApplyBlock;
    var longer := blocks + [req];
    assert longer[..|longer| - 1] == blocks;
  }

  lemma {:induction false} ChainStepKeepsLedger(env: Env, a: Chain, c: Call)
    requires LedgerExplains(env, a) && (a.alive ==> LegalChainCall(a, c))
    ensures LedgerExplains(env, ChainStep(env, a, c))
  {
    hide ApplyBlock, ApplyBlocks, View;
    if a.alive {
      match c
      case InitChain(init) => NothingApplied(env, ChainStep(env, a, c).genesis);
      case FinalizeBlock(req, _) => assert LedgerExplains(env, ChainStep(env, a, c));
      case Commit =>
        if a.pending.Some? {
          var (req, v) := a.pending.value;
          ApplyOneMore(env, a.genesis, a.ledger, a.base, req, v);
        }
      case _ => NoiseLeavesChain(env, a, c);
    }
  }

  lemma {:induction false} NothingApplied(env: Env, base: KV)
    ensures ApplyBlocks(env, base, []) == Some(base)
  {
  }

  lemma {:induction false} RunKeepsLedger(env: Env, s: App, a: Chain, calls: seq<Call>)
    requires StandsFor(env, s, a) && LegalRun(env, s, calls) && LedgerExplains(env, a)
    ensures LedgerExplains(env, ChainRun(env, a, calls))
    decreases |calls|
  {
    if calls != [] {
      if s.alive {
        StepStandsFor(env, s, a, calls[0]);
        ChainStepKeepsLedger(env, a, calls[0]);
        RunKeepsLedger(env, Step(env, s, calls[0]), ChainStep(env, a, calls[0]), calls[1..]);
      } else {
        DeadChainStays(env, a, calls);
      }
    }
  }

  /** The refinement over whole runs. After any legal run from an empty node in which FinalizeBlock takes
      no stale optimistic result, the node is where the decided blocks alone put it: same committed
      store and height, whatever was checked, simulated, proposed, aborted or executed early in between;
      and that store is the genesis store with the ledger's blocks applied, at consecutive heights. */
  lemma {:induction false} RunsReduceToDecidedBlocks(env: Env, calls: seq<Call>)
    requires LegalRun(env, EMPTY, calls)
    ensures var s := RunCalls(env, EMPTY, calls);
      var a := ChainRun(env, NO_CHAIN, Decisive(calls));
      && s.alive == a.alive && s.committed == a.committed
      && (s.alive ==> s.lastHeight == a.height)
      && (a.ledger != [] ==> ApplyBlocks(env, a.genesis, a.ledger) == Some(s.committed))
      && (forall i :: 0 <= i < |a.ledger| ==> a.ledger[i].height == a.initialHeight + i)
  {
    ChainIgnoresNoise(env, NO_CHAIN, calls);
    RunStandsFor(env, EMPTY, NO_CHAIN, calls);
    RunKeepsLedger(env, EMPTY, NO_CHAIN, calls);
  }

  // ---------- the stale optimistic result ----------

  /** FinalizeBlock ran this block, all of it, on the branch it wrote, and answers an error exactly when
      the block is refused. */
  predicate Faithful(env: Env, s: App, a: Chain, req: Req, testAbort: bool)
    requires OeInRange(s)
  {
    var t := Finalized(env, s, req, testAbort);
    (t.alive <==> Accepts(env, a, req)) && (t.alive ==> t.written == StepsUpTo(req, Phases(req)))
  }

  /** A stale result never carries the block: FinalizeBlock fails, or it answers with the old response
      and the store that will be committed is the previous one. */
  lemma {:induction false} StaleResultDropsTheBlock(env: Env, s: App, a: Chain, req: Req)
    requires StandsFor(env, s, a) && a.alive && Legal(s, FinalizeBlock(req, false))
    requires TakesStaleResult(s, FinalizeBlock(req, false))
    ensures var t := Finalized(env, s, req, false);
      && (t.alive ==> s.oe.result.Good? && t.working == s.committed && t.written == [])
      && (s.oe.result.Bad? ==> !t.alive)
  {
    ViewOfNothing(s.committed);
  }

  /** Exactly when FinalizeBlock is faithful: when the record it takes is not stale, or the block would
      be refused anyway and the stale record holds an error too (or its branch is already gone). */
  lemma {:induction false} FaithfulExactlyWhenNotStale(env: Env, s: App, a: Chain, req: Req, testAbort: bool)
    requires StandsFor(env, s, a) && a.alive && Legal(s, FinalizeBlock(req, testAbort))
    ensures Faithful(env, s, a, req, testAbort) <==>
      (!TakesStaleResult(s, FinalizeBlock(req, testAbort)) ||
       (!Accepts(env, a, req) && (s.oe.result.Bad? || s.finalize.None?)))
  {
    if !TakesStaleResult(s, FinalizeBlock(req, testAbort)) {
      FinalizeIsFaithful(env, s, a, req, testAbort);
    } else {
      StaleResultDropsTheBlock(env, s, a, req);
      assert |StepsUpTo(req, Phases(req))| > 0;
    }
  }
}
