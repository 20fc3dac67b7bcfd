/** `BaseApp` itself: an object whose fields the ABCI methods update in place, each proved to move it
    as `BlockMachine.Step` says. */
module BaseAppObject {
  import opened Prelude
  import opened Store
  import opened Gas
  import opened RunTx
  import opened RunTxLaws
  import opened BlockMachine
  import opened BlockSteps

  /** The branch a mode works on: its parent's view, its own writes, and the block meter in its context. */
  datatype Place = Place(parent: KV, writes: Writes, blk: Meter)

  function PlaceOf(s: App, mode: Mode): Option<Place> {
    match mode
    case Finalize =>
      if s.finalize.None? then None else Some(Place(s.working, s.finalize.value.writes, s.finalize.value.meter))
    case PrepareProposal =>
      if s.prepare.None? then None else Some(Place(ParentView(s, s.prepare.value), s.prepare.value.writes, Infinite(0)))
    case ProcessProposal =>
      if s.process.None? then None else Some(Place(ParentView(s, s.process.value), s.process.value.writes, Infinite(0)))
    case _ => Some(Place(s.working, s.check, Infinite(0)))
  }

  /** What a proposal branch reads through to. */
  function ParentView(s: App, b: Branch): KV {
    if b.overFinalize && s.finalize.Some? then View(s.working, s.finalize.value.writes) else s.working
  }

  /** `w` written into the branch of `mode`. */
  function Wrote(s: App, mode: Mode, w: Writes): App {
    match mode
    case Finalize => if s.finalize.None? then s else s.(finalize := Some(s.finalize.value.(writes := s.finalize.value.writes + w)))
    case PrepareProposal => if s.prepare.None? then s else s.(prepare := Some(s.prepare.value.(writes := s.prepare.value.writes + w)))
    case ProcessProposal => if s.process.None? then s else s.(process := Some(s.process.value.(writes := s.process.value.writes + w)))
    case _ => s.(check := s.check + w)
  }

  function Charged(s: App, amounts: seq<nat>): App {
    if s.finalize.None? then s else s.(finalize := Some(s.finalize.value.(meter := ChargeAll(s.finalize.value.meter, amounts))))
  }

  /** The state after a run of a transaction, by what the run keeps and charges. */
  function AfterRun(s: App, mode: Mode, r: Run): App {
    Charged(Wrote(s, mode, Kept(mode, r)), Charges(mode, r))
  }

  class BaseApp {
    const app: Application
    var alive: bool
    var started: bool
    var awaitingCommit: bool
    var committed: KV
    var working: KV
    var lastHeight: int
    var initialHeight: int
    var checkState: Writes
    var prepareProposalState: Option<Branch>
    var processProposalState: Option<Branch>
    var finalizeBlockState: Option<FinState>
    var optimisticExec: Oe
    var written: seq<(Req, nat)>

    function State(): App
      reads this
    {
      App(alive, started, awaitingCommit, committed, working, lastHeight, initialHeight,
          checkState, prepareProposalState, processProposalState, finalizeBlockState, optimisticExec, written)
    }

    function Env(): Env { Machine(app) }

    constructor (app: Application)
      ensures State() == EMPTY && this.app == app
    {
      this.app := app;
      alive, started, awaitingCommit := true, false, false;
      committed, working, lastHeight, initialHeight := map[], map[], 0, 0;
      checkState, prepareProposalState, processProposalState, finalizeBlockState := map[], None, None, None;
      optimisticExec, written := Idle, [];
    }

    /** `msCache.Write` into the branch of a mode. */
    method WriteBranch(mode: Mode, w: Writes)
      requires PlaceOf(State(), mode).Some?
      modifies this
      ensures State() == Wrote(old(State()), mode, w)
    {
      match mode
      case Finalize => finalizeBlockState := Some(finalizeBlockState.value.(writes := finalizeBlockState.value.writes + w));
      case PrepareProposal => prepareProposalState := Some(prepareProposalState.value.(writes := prepareProposalState.value.writes + w));
      case ProcessProposal => processProposalState := Some(processProposalState.value.(writes := processProposalState.value.writes + w));
      case _ => checkState := checkState + w;
    }

    /** The charge on the block meter; it is recorded whether or not it panics. */
    method ConsumeBlockGas(amount: nat) returns (panicked: bool)
      requires finalizeBlockState.Some?
      modifies this
      ensures State() == Charged(old(State()), [amount])
      ensures panicked == ConsumeGas(old(finalizeBlockState.value.meter), amount).panicked
    {
      var c := ConsumeGas(finalizeBlockState.value.meter, amount);
      finalizeBlockState := Some(finalizeBlockState.value.(meter := c.meter));
      panicked := c.panicked;
      assert ChargeAll(c.meter, [amount][1..]) == c.meter;
    }

    /** `runMsgs`: the messages share one branch; the first failure or panic ends the loop. */
    method RunMsgs(mode: Mode, h: Header, seen: KV, tx: Tx, start: Meter) returns (r: MsgRun)
      ensures r == if ExecutesMsgs(mode) then MsgsFrom(app.tx, h, seen, tx, 0, start, map[])
                   else MsgRun(false, !app.tx.dataFails(tx), start, map[])
    {
      var meter, writes: Writes := start, map[];
      for i := 0 to |tx.msgs|
        invariant ExecutesMsgs(mode) ==>
          MsgsFrom(app.tx, h, seen, tx, 0, start, map[]) == MsgsFrom(app.tx, h, seen, tx, i, meter, writes)
        invariant !ExecutesMsgs(mode) ==> meter == start && writes == map[]
      {
        if !ExecutesMsgs(mode) { break; }
        match app.tx.msg(h, View(seen, writes), meter, tx.msgs[i])
        case MsgPanic(m) => return MsgRun(true, false, m, writes);
        case MsgFail(m, w) => return MsgRun(false, false, m, writes + w);
        case MsgOk(m, w) => meter, writes := m, writes + w;
      }
      r := MsgRun(false, !app.tx.dataFails(tx), meter, writes);
    }

    /** `GetMsgsV2` and the messages. */
    method RunMessages(mode: Mode, h: Header, seen: KV, tx: Tx, start: Meter) returns (r: MsgRun)
      ensures r == Messages(app.tx, mode, h, seen, tx, start)
    {
      hide MsgsFrom;
      r := MsgRun(false, false, start, map[]);
      if !app.tx.v2Fails(tx) { r := RunMsgs(mode, h, seen, tx, start); }
    }

    /** The messages and the post handler, on the message branch. */
    method RunHandlers(mode: Mode, h: Header, seen: KV, tx: Tx, start: Meter) returns (r: HandlersRun)
      ensures r == Handlers(app.tx, mode, h, seen, tx, start)
    {
      hide Messages, View;
      var ran := RunMessages(mode, h, seen, tx, start);
      if ran.panicked { return HandlersRun(Some(MsgPanicked), false, ran.meter, ran.writes); }
      r := HandlersRun(None, ran.ok, ran.meter, ran.writes);
      if app.tx.hasPost {
        var post := app.tx.post(mode, h, View(seen, ran.writes), ran.meter, tx, ran.ok);
        if post.PostOk? { return r.(meter := post.meter, writes := ran.writes + post.writes); }
        r := HandlersRun(Some(if post.PostPanic? then PostPanicked else PostRejected), false, post.meter, ran.writes);
      }
    }

    /** The successful end of a finalized run: the charge, then the write of the message branch, unless
        the charge panicked. */
    method ChargeAndWrite(amount: nat, msCache: Writes) returns (ok: bool)
      requires finalizeBlockState.Some?
      modifies this
      ensures ok == !ConsumeGas(old(finalizeBlockState.value.meter), amount).panicked
      ensures State() == Wrote(Charged(old(State()), [amount]), Finalize, if ok then msCache else map[])
    {
      var panicked := ConsumeBlockGas(amount);
      WroteNothing(State(), Finalize);
      if !panicked { WriteBranch(Finalize, msCache); }
      ok := !panicked;
    }

    /** The stateless checks and the ante handler; its branch is written only when it accepts. */
    method RunAnte(mode: Mode, h: Header, view: KV, tx: Tx) returns (r: AnteRun)
      requires PlaceOf(State(), mode).Some?
      modifies this
      ensures r == AnteStage(app.tx, mode, h, view, tx)
      ensures State() == if r.stop.None? && mode != Simulate then Wrote(old(State()), mode, r.writes) else old(State())
    {
      WroteNothing(State(), mode);
      if !app.tx.basicOk(tx) { return AnteRun(Some(Invalid), Infinite(0), map[]); }
      if !app.tx.routed(tx) { return AnteRun(Some(Unrouted), Infinite(0), map[]); }
      if !app.tx.hasAnte { return AnteRun(None, Infinite(0), map[]); }
      match app.tx.ante(mode, h, view, tx)
      case AntePanic(used) =>
        r := AnteRun(Some(AntePanicked), Infinite(used), map[]);
      case AnteReturn(used, newMeter, w, failed) =>
        var meter := if newMeter.Some? then newMeter.value else Infinite(used);
        if failed { return AnteRun(Some(AnteRejected), meter, w); }
        if mode != Simulate { WriteBranch(mode, w); }
        r := AnteRun(None, meter, w);
    }

    /** The mempool step, the handlers, and on success in finalize mode the charge and the final write.
        `consumed` is the source's flag that keeps the deferred charge from charging again. */
    method RunAfterAnte(mode: Mode, h: Header, view: KV, blk: Meter, tx: Tx, a: AnteRun) returns (ok: bool, meter: Meter, consumed: bool)
      requires PlaceOf(State(), mode).Some? && (mode == Finalize ==> finalizeBlockState.value.meter == blk)
      modifies this
      ensures var r := AfterAnte(app.tx, mode, h, view, blk, tx, a.meter, a.writes);
        && meter == r.meter && ok == (r.stop == Completed)
        && (mode == Finalize ==> State() == if consumed then Wrote(Charged(old(State()), [GasConsumedToLimit(meter)]), Finalize, if ok then r.msgWrites else map[])
                                            else old(State()))
        && (mode == Finalize && ok ==> consumed)
        && (mode != Finalize ==> !consumed && State() == old(State()))
    {
      hide Handlers, View;
      HandlersStop(app.tx, mode, h, View(view, a.writes), tx, a.meter);
      ok, meter, consumed := false, a.meter, false;
      if (mode == Check && app.tx.insertFails(tx)) || (mode == Finalize && app.tx.removeFails(tx)) { return; }
      var done := RunHandlers(mode, h, View(view, a.writes), tx, a.meter);
      meter := done.meter;
      if done.stop.Some? || !done.ok { return; }
      ok := true;
      if mode == Finalize {
        consumed := true;
        ok := ChargeAndWrite(GasConsumedToLimit(meter), done.writes);
      }
    }

    /** The body of `runTx` after the out-of-gas gate, up to its return or panic. */
    method RunBody(mode: Mode, h: Header, view: KV, blk: Meter, raw: Raw, given: Option<Tx>) returns (ok: bool, meter: Meter, consumed: bool)
      requires PlaceOf(State(), mode).Some? && (mode == Finalize ==> finalizeBlockState.value.meter == blk)
      modifies this
      ensures var r := AfterGate(app.tx, mode, h, view, blk, raw, given);
        && ok == (r.stop == Completed) && meter == r.meter && r.stop != NoBlockGas && (consumed ==> mode == Finalize)
        && State() == if consumed then Charged(Wrote(old(State()), mode, Kept(mode, r)), [GasConsumedToLimit(meter)])
                      else Wrote(old(State()), mode, Kept(mode, r))
    {
      hide AnteStage, AfterAnte, AfterGate, View, ConsumeGas, Charged, Wrote, Kept;
      ok, meter, consumed := false, Infinite(0), false;
      WroteNothing(State(), mode);
      var tx := if given.Some? then given else app.tx.decode(raw);
      GateEnds(app.tx, mode, h, view, blk, raw, given);
      if tx.None? { return; }
      var a := RunAnte(mode, h, view, tx.value);
      meter := a.meter;
      if a.stop.Some? { return; }
      WroteInPlace(old(State()), mode, a.writes);
      ghost var s1 := State();
      ok, meter, consumed := RunAfterAnte(mode, h, view, blk, tx.value, a);
      BodyEnds(old(State()), s1, State(), app.tx, mode, h, view, blk, tx.value, a, ok, meter, consumed);
    }

    /** `runTx`: the gate, the body, and the deferred charge that runs on every return and every panic
        unless the body charged already. `charges` lists what went to the block meter. */
    method RunTx(mode: Mode, h: Header, raw: Raw, given: Option<Tx>) returns (ok: bool, charges: seq<nat>)
      requires PlaceOf(State(), mode).Some?
      modifies this
      ensures var p := old(PlaceOf(State(), mode)).value;
        var r := Trace(app.tx, mode, h, View(p.parent, p.writes), p.blk, raw, given);
        && State() == AfterRun(old(State()), mode, r)
        && charges == Charges(mode, r)
        && ok == (r.stop == Completed)
    {
      hide Trace, AfterGate, View, AfterRun, Charges, Wrote, Kept, ConsumeGas;
      var place := PlaceOf(State(), mode).value;
      ghost var s0 := State();
      ghost var r := Trace(app.tx, mode, h, View(place.parent, place.writes), place.blk, raw, given);
      GateIs(s0, app.tx, mode, h, View(place.parent, place.writes), place.blk, raw, given);
      if mode == Finalize && IsOutOfGas(place.blk) { return false, []; }
      var meter, consumed;
      ok, meter, consumed := RunBody(mode, h, View(place.parent, place.writes), place.blk, raw, given);
      charges := if mode == Finalize then [GasConsumedToLimit(meter)] else [];
      ghost var s1 := State();
      if mode == Finalize && !consumed {
        WroteInPlace(s0, mode, Kept(mode, r));
        var panicked := ConsumeBlockGas(GasConsumedToLimit(meter));
      }
      RunEnds(s0, s1, State(), mode, r, consumed);
    }

    // ---------- one block ----------

    /** `n` steps of `req` ran on the finalize branch; step `n` either fails and leaves it, or extends it. */
    ghost predicate Stepped(before: App, after: App, req: Req, n: nat, ok: bool) {
      before.finalize.Some? &&
      match PhaseOn(Env(), req, n, before.working, before.finalize.value)
      case None => !ok && after == before
      case Some(next) => ok && after == before.(finalize := Some(next))
    }

    method HookStep(req: Req, n: nat, e: Effect) returns (ok: bool)
      requires finalizeBlockState.Some?
      requires e == Phase(app, req, n, View(working, finalizeBlockState.value.writes), finalizeBlockState.value.meter)
      modifies this`finalizeBlockState
      ensures Stepped(old(State()), State(), req, n, ok)
    {
      ok := e.Does?;
      if ok {
        var fs := finalizeBlockState.value;
        finalizeBlockState := Some(FinState(fs.writes + e.writes, e.meter, fs.applied + [(req, n)]));
      }
    }

    /** One raw transaction of the block. */
    method DeliverTxStep(req: Req, i: nat) returns (ok: bool)
      requires finalizeBlockState.Some? && i < |req.txs|
      modifies this
      ensures Stepped(old(State()), State(), req, i + 2, ok)
    {
      hide View, Trace;
      ghost var fs0 := finalizeBlockState.value;
      assert Phase(app, req, i + 2, View(working, fs0.writes), fs0.meter) == DeliverTx(app, req, req.txs[i], View(working, fs0.writes), fs0.meter);
      if app.tx.decode(req.txs[i]).Some? {
        var okTx, charges := RunTx(Finalize, HeaderOf(req), req.txs[i], None);
      } else {
        assert fs0.writes + map[] == fs0.writes;
      }
      var fs := finalizeBlockState.value;
      finalizeBlockState := Some(fs.(applied := fs.applied + [(req, i + 2)]));
      ok := true;
    }

    /** Step `n` of `internalFinalizeBlock`. */
    method PhaseStep(req: Req, n: nat) returns (ok: bool)
      requires finalizeBlockState.Some? && n < Phases(req)
      modifies this
      ensures Stepped(old(State()), State(), req, n, ok)
    {
      var view, meter := View(working, finalizeBlockState.value.writes), finalizeBlockState.value.meter;
      if n == 0 {
        ok := HookStep(req, n, PreBlock(app, req, view, meter));
      } else if n == 1 {
        ok := HookStep(req, n, BeginBlock(app, req, view));
      } else if n < 2 + |req.txs| {
        ok := DeliverTxStep(req, n - 2);
      } else {
        ok := HookStep(req, n, EndBlock(app, req, view, meter));
      }
    }

    predicate IsAdmissible(req: Req)
      reads this
    {
      !app.halts(req.height, req.time) && req.height >= 1
      && req.height == (if lastHeight == 0 && initialHeight > 1 then initialHeight else lastHeight + 1)
    }

    lemma {:induction false} AdmissibleHere(req: Req)
      ensures IsAdmissible(req) == Admissible(Env(), State(), req)
    {
    }

    /** `workingHash`. */
    method WriteFinalizeState()
      requires finalizeBlockState.Some?
      modifies this
      ensures State() == WriteToRoot(old(State()))
    {
      var fs := finalizeBlockState.value;
      working := View(working, fs.writes);
      finalizeBlockState := Some(fs.(writes := map[]));
      awaitingCommit, written := true, fs.applied;
    }

    /** The steps of a block in order, up to the first that fails. */
    method RunPhases(req: Req) returns (ok: bool)
      requires finalizeBlockState.Some?
      modifies this
      ensures var p := PhasesFrom(Env(), req, 0, old(working), old(finalizeBlockState.value));
        ok == p.complete && State() == old(State()).(finalize := Some(p.fs))
    {
      ghost var s0 := State();
      for n := 0 to Phases(req)
        invariant finalizeBlockState.Some? && State() == s0.(finalize := finalizeBlockState)
        invariant PhasesFrom(Env(), req, 0, s0.working, s0.finalize.value) == PhasesFrom(Env(), req, n, s0.working, finalizeBlockState.value)
      {
        ok := PhaseStep(req, n);
        if !ok { return; }
      }
      ok := true;
    }

    /** FinalizeBlock without an optimistic result: the whole block runs here. */
    method ExecuteBlock(req: Req)
      modifies this
      ensures State() == InternalFinalizeBlock(Env(), old(State()), req)
    {
      hide Machine, PhasesFrom, IsAdmissible, Admissible, WriteToRoot;
      AdmissibleHere(req);
      if !IsAdmissible(req) {
        alive := false;
        return;
      }
      if finalizeBlockState.None? { finalizeBlockState := Some(FRESH); }
      var ok := RunPhases(req);
      if ok {
        WriteFinalizeState();
      } else {
        alive := false;
      }
    }

    // ---------- optimistic execution ----------

    /** One step of the goroutine that `Execute` started. */
    method GoroutineStep()
      requires OeInRange(State()) && Running(State())
      modifies this
      ensures State() == Tick(Env(), old(State()))
    {
      hide View, Machine, PhaseOn, IsAdmissible, Admissible;
      var run := optimisticExec;
      AdmissibleHere(run.req);
      if (run.phase == 0 && !IsAdmissible(run.req)) || finalizeBlockState.None? {
        optimisticExec := run.(result := Bad);
        return;
      }
      var ok := PhaseStep(run.req, run.phase);
      if !ok {
        optimisticExec := run.(result := Bad);
      } else if run.cancelled && run.phase > 0 {
        optimisticExec := run.(phase := run.phase + 1, result := Bad);
      } else {
        optimisticExec := run.(phase := run.phase + 1, result := if run.phase + 1 == Phases(run.req) then Good else Pending);
      }
    }

    method WaitResult()
      requires OeInRange(State())
      modifies this
      ensures State() == Wait(Env(), old(State()))
    {
      ghost var s0 := State();
      while optimisticExec.Execution? && optimisticExec.result.Pending?
        invariant OeInRange(State()) && Wait(Env(), State()) == Wait(Env(), s0)
        decreases if Running(State()) then Phases(optimisticExec.req) - optimisticExec.phase else 0
      {
        GoroutineStep();
      }
    }

    /** `Abort`: raise the cancel signal and wait; the record keeps its request and its result. */
    method Abort()
      requires OeInRange(State())
      modifies this
      ensures State() == Wait(Env(), Cancel(old(State())))
    {
      if optimisticExec.Execution? { optimisticExec := optimisticExec.(cancelled := true); }
      WaitResult();
    }

    // ---------- ABCI ----------

    /** The fresh branches InitChain starts from. */
    method SetGenesisStates(init: InitReq)
      modifies this
      ensures State() == Genesis(old(State()), init)
    {
      started, initialHeight := true, if init.initialHeight == 0 then 1 else init.initialHeight;
      finalizeBlockState, checkState := Some(FRESH), map[];
    }

    method InitChainCall(init: InitReq)
      requires OeInRange(State()) && alive
      modifies this
      ensures State() == Step(Env(), old(State()), InitChain(init))
    {
      hide Step, Machine, Initialized, Genesis;
      InitIs(app, State(), init);
      var w := app.init(init, working);
      SetGenesisStates(init);
      if w.Some? {
        finalizeBlockState := Some(FRESH.(writes := w.value));
      } else {
        alive := false;
      }
    }

    method CheckTxCall(recheck: bool, raw: Raw) returns (ok: bool)
      requires OeInRange(State()) && alive
      modifies this
      ensures State() == Step(Env(), old(State()), CheckTx(recheck, raw))
      ensures var s := old(State());
        ok == (Trace(app.tx, if recheck then ReCheck else Check, Header(s.lastHeight, 0, ""), View(s.working, s.check), Infinite(0), raw, None).stop == Completed)
    {
      hide Trace, View;
      var charges;
      ok, charges := RunTx(if recheck then ReCheck else Check, Header(lastHeight, 0, ""), raw, None);
      WroteNothing(State(), Check);
    }

    method SimulateCall(raw: Raw) returns (ok: bool)
      requires OeInRange(State()) && alive
      modifies this
      ensures State() == Step(Env(), old(State()), SimulateTx(raw)) == old(State())
      ensures var s := old(State());
        ok == (Trace(app.tx, Simulate, Header(s.lastHeight, 0, ""), View(s.working, s.check), Infinite(0), raw, None).stop == Completed)
    {
      WroteNothing(State(), Simulate);
      var charges;
      ok, charges := RunTx(Simulate, Header(lastHeight, 0, ""), raw, None);
      WroteNothing(State(), Simulate);
    }

    /** The handler's writes arrive in the branch it was given, also when it then fails or panics. */
    method PrepareProposalCall(height: int, handlerWrites: Writes)
      requires OeInRange(State()) && alive
      modifies this
      ensures State() == Step(Env(), old(State()), Call.PrepareProposal(height, handlerWrites))
    {
      prepareProposalState := Some(Branch(false, map[]));
      if height < 1 { return; }
      if height == initialHeight { prepareProposalState := Some(Branch(true, map[])); }
      WriteBranch(Mode.PrepareProposal, handlerWrites);
      assert map[] + handlerWrites == handlerWrites;
    }

    /** A later round stops the optimistic run and gives the finalize branch away. */
    method NewRound(req: Req)
      requires OeInRange(State())
      modifies this
      ensures State() == RoundStarted(Env(), old(State()), req) && initialHeight == old(initialHeight)
    {
      hide Wait, Machine;
      if req.height > initialHeight {
        Abort();
        finalizeBlockState := Some(FRESH);
      }
    }

    /** `Execute`. */
    method Execute(req: Req)
      modifies this
      ensures State() == old(State()).(oe := Execution(req, 0, false, Pending))
    {
      optimisticExec := Execution(req, 0, false, Pending);
    }

    method ProcessProposalCall(req: Req, accept: bool, handlerWrites: Writes)
      requires OeInRange(State()) && alive
      modifies this
      ensures State() == Step(Env(), old(State()), Call.ProcessProposal(req, accept, handlerWrites))
    {
      hide Step, Machine, Processed, RoundStarted;
      ghost var s := State();
      ProcessIs(app, s, req, accept, handlerWrites);
      if req.height < 1 { return; }
      processProposalState := Some(Branch(false, map[]));
      NewRound(req);
      processProposalState := Some(Branch(req.height == initialHeight, handlerWrites));
      if accept && app.oeEnabled && req.height > initialHeight { Execute(req); }
    }

    /** The extension handler works on a branch of its own that nothing refers to afterwards. */
    method ExtendVoteCall(height: int, handlerWrites: Writes) returns (seen: KV)
      requires OeInRange(State()) && alive
      ensures State() == Step(Env(), old(State()), ExtendVote(height, handlerWrites))
    {
      var parent := if height == initialHeight && finalizeBlockState.Some?
                    then View(working, finalizeBlockState.value.writes) else working;
      seen := View(parent, handlerWrites);
    }

    /** `AbortIfNeeded`: the cancel signal is raised when the hash differs. */
    method AbortIfNeeded(req: Req, testAbort: bool) returns (aborted: bool)
      requires optimisticExec.Execution?
      modifies this
      ensures aborted == (old(optimisticExec).req.hash != req.hash || testAbort)
      ensures State() == if aborted then Cancel(old(State())) else old(State())
    {
      aborted := optimisticExec.req.hash != req.hash || testAbort;
      if aborted { optimisticExec := optimisticExec.(cancelled := true); }
    }

    /** The result of the optimistic run is the answer: its branch is written, or its error ends the run. */
    method TakeResult()
      requires optimisticExec.Execution?
      modifies this
      ensures State() == if old(optimisticExec).result.Good? && old(finalizeBlockState).Some? then WriteToRoot(old(State())) else Dead(old(State()))
    {
      hide WriteToRoot;
      if optimisticExec.result.Good? && finalizeBlockState.Some? {
        WriteFinalizeState();
      } else {
        alive := false;
      }
    }

    method FinalizeBlockCall(req: Req, testAbort: bool)
      requires OeInRange(State()) && alive
      modifies this
      ensures State() == Step(Env(), old(State()), FinalizeBlock(req, testAbort))
    {
      hide Step, Machine, Wait, WriteToRoot, InternalFinalizeBlock, Dead, Finalized, Cancel, Env;
      ghost var s := State();
      FinalizeIs(Env(), s, req, testAbort);
      if !optimisticExec.Execution? {
        ExecuteBlock(req);
        return;
      }
      CancelInRange(s);
      var aborted := AbortIfNeeded(req, testAbort);
      WaitResult();
      if aborted {
        finalizeBlockState, optimisticExec := None, Idle;
        ExecuteBlock(req);
      } else {
        TakeResult();
      }
    }

    /** The precommitter may still write into the finalize branch; the branch is dropped unwritten. */
    method CommitCall(precommitWrites: Writes)
      requires OeInRange(State()) && alive && finalizeBlockState.Some?
      modifies this
      ensures State() == Step(Env(), old(State()), Commit)
    {
      hide Step, Machine, Committed, ExpectedHeight;
      ghost var s := State();
      CommitIs(app, s);
      finalizeBlockState := Some(finalizeBlockState.value.(writes := finalizeBlockState.value.writes + precommitWrites));
      committed, lastHeight := working, if lastHeight == 0 && initialHeight > 1 then initialHeight else lastHeight + 1;
      finalizeBlockState, checkState, awaitingCommit := None, app.prepareCheck(working), false;
    }
  }

  /** What the prepare branch reads as after PrepareProposal: the handler's writes on the last committed store, at the
      initial height on the genesis writes that wait in the finalize branch; and below height 1 nothing is handled. */
  lemma {:induction false} PrepareBranchReads(env: Env, s: App, height: int, w: Writes)
    requires OeInRange(s) && s.alive
    ensures var t := Step(env, s, Call.PrepareProposal(height, w));
      && t == s.(prepare := t.prepare)
      && PlaceOf(t, Mode.PrepareProposal).Some?
      && var place := PlaceOf(t, Mode.PrepareProposal).value;
        View(place.parent, place.writes) ==
          if height < 1 then s.working
          else if height == s.initialHeight && s.finalize.Some? then View(View(s.working, s.finalize.value.writes), w)
          else View(s.working, w)
  {
    hide View;
    ViewOfNothing(s.working);
  }

  /** And the process branch after ProcessProposal. */
  lemma {:induction false} ProcessBranchReads(app: Application, s: App, req: Req, accept: bool, w: Writes)
    requires OeInRange(s) && s.alive && req.height >= 1
    ensures var t := Step(Machine(app), s, Call.ProcessProposal(req, accept, w));
      && PlaceOf(t, Mode.ProcessProposal).Some?
      && var place := PlaceOf(t, Mode.ProcessProposal).value;
        View(place.parent, place.writes) ==
          if req.height == s.initialHeight && s.finalize.Some? then View(View(s.working, s.finalize.value.writes), w)
          else View(s.working, w)
  {
    hide View, Wait, Step, Machine, Processed, RoundStarted;
    ProcessIs(app, s, req, accept, w);
    RoundKeepsWorking(Machine(app), s.(process := Some(Branch(false, map[]))), req);
  }

  lemma {:induction false} RoundKeepsWorking(env: Env, s: App, req: Req)
    requires OeInRange(s)
    ensures RoundStarted(env, s, req).working == s.working && (req.height <= s.initialHeight ==> RoundStarted(env, s, req) == s)
  {
    hide Wait;
  }

  /** A round past the initial height also stops the optimistic run and leaves a fresh finalize branch, and acceptance
      starts the next run exactly when that is enabled and the height is past the initial one. */
  lemma {:induction false} ProcessProposalTurnsOver(app: Application, s: App, req: Req, accept: bool, w: Writes)
    requires OeInRange(s) && s.alive && req.height >= 1
    ensures var t := Step(Machine(app), s, Call.ProcessProposal(req, accept, w));
      var starts := accept && app.oeEnabled && req.height > s.initialHeight;
      && t.finalize == (if req.height > s.initialHeight then Some(FinState(map[], Infinite(0), [])) else s.finalize)
      && (starts ==> t.oe == Execution(req, 0, false, Pending))
      && (!starts && req.height > s.initialHeight && s.oe.Execution? ==>
            t.oe.Execution? && t.oe.req == s.oe.req && t.oe.cancelled && !t.oe.result.Pending?)
      && (req.height <= s.initialHeight || (s.oe.Idle? && !starts) ==> t.oe == s.oe)
  {
    hide View, Wait, Step, Machine, Processed;
    ProcessIs(app, s, req, accept, w);
  }

  /** Past the ante handler a run never counts as one that keeps nothing. */
  lemma {:induction false} AfterAnteStops(env: TxEnv, mode: Mode, h: Header, view: KV, blk: Meter, tx: Tx, a: AnteRun)
    ensures var r := AfterAnte(env, mode, h, view, blk, tx, a.meter, a.writes);
      && r.stop != NoBlockGas
      && Kept(mode, r) == if mode == Simulate then map[] else if mode == Finalize && r.stop == Completed then a.writes + r.msgWrites else a.writes
  {
    hide AfterAnte, View, ConsumeGas, GasConsumedToLimit;
    LaterStops(env, mode, h, view, blk, tx, a.meter, a.writes);
  }

  // ---------- each call's transition, by itself ----------

  function Genesis(s: App, init: InitReq): App {
    s.(started := true, initialHeight := if init.initialHeight == 0 then 1 else init.initialHeight, check := map[], finalize := Some(FRESH))
  }

  lemma {:induction false} InitIs(app: Application, s: App, init: InitReq)
    requires OeInRange(s) && s.alive
    ensures Step(Machine(app), s, InitChain(init)) ==
        if app.init(init, s.working).None? then Genesis(s, init).(alive := false)
        else Genesis(s, init).(finalize := Some(FRESH.(writes := app.init(init, s.working).value)))
  {
    hide Finalized, Processed, Checked, Tick, Wait;
  }

  /** The optimistic run and the finalize branch when a proposal arrives. */
  function RoundStarted(env: Env, s: App, req: Req): App
    requires OeInRange(s)
  {
    if req.height > s.initialHeight then Wait(env, Cancel(s)).(finalize := Some(FRESH)) else s
  }

  lemma {:induction false} ProcessIs(app: Application, s: App, req: Req, accept: bool, writes: Writes)
    requires OeInRange(s) && s.alive
    ensures var fresh_ := s.(process := Some(Branch(false, map[])));
      OeInRange(fresh_) &&
      var t := RoundStarted(Machine(app), fresh_, req).(process := Some(Branch(req.height == s.initialHeight, writes)));
      Step(Machine(app), s, Call.ProcessProposal(req, accept, writes)) ==
        if req.height < 1 then s
        else if accept && app.oeEnabled && req.height > s.initialHeight then t.(oe := Execution(req, 0, false, Pending)) else t
  {
    hide Finalized, Checked, Tick, Wait, Initialized, Committed;
  }

  lemma {:induction false} CancelInRange(s: App)
    requires OeInRange(s)
    ensures OeInRange(Cancel(s))
  {
  }

  lemma {:induction false} FinalizeIs(env: Env, s: App, req: Req, testAbort: bool)
    requires OeInRange(s) && s.alive
    ensures OeInRange(Cancel(s))
    ensures Step(env, s, FinalizeBlock(req, testAbort)) ==
      if !s.oe.Execution? then InternalFinalizeBlock(env, s, req)
      else if s.oe.req.hash != req.hash || testAbort then
        InternalFinalizeBlock(env, Wait(env, Cancel(s)).(finalize := None, oe := Idle), req)
      else
        var done := Wait(env, s);
        if done.oe.result.Good? && done.finalize.Some? then WriteToRoot(done) else Dead(done)
  {
    hide InternalFinalizeBlock, Wait, WriteToRoot, Checked, Tick, Processed, Initialized, Committed, Dead;
  }

  lemma {:induction false} CommitIs(app: Application, s: App)
    requires OeInRange(s) && s.alive
    ensures Step(Machine(app), s, Commit) ==
      s.(committed := s.working, lastHeight := if s.lastHeight == 0 && s.initialHeight > 1 then s.initialHeight else s.lastHeight + 1,
         check := app.prepareCheck(s.working), finalize := None, awaitingCommit := false)
  {
    hide Finalized, Checked, Tick, Wait, Initialized, Processed;
  }

  // ---------- one run ----------

  /** The out-of-gas gate, and the run behind it. */
  lemma {:induction false} GateIs(s: App, env: TxEnv, mode: Mode, h: Header, view: KV, blk: Meter, raw: Raw, given: Option<Tx>)
    ensures var r := Trace(env, mode, h, view, blk, raw, given);
      if mode == Finalize && IsOutOfGas(blk) then r.stop == NoBlockGas && AfterRun(s, mode, r) == s && Charges(mode, r) == []
      else r == AfterGate(env, mode, h, view, blk, raw, given)
  {
    hide AfterGate, Wrote, Charged;
    WroteNothing(s, mode);
  }

  /** What the body and the deferred charge left is what the run keeps and charges. */
  lemma {:induction false} RunEnds(s0: App, s1: App, s2: App, mode: Mode, r: Run, consumed: bool)
    requires r.stop != NoBlockGas && (consumed ==> mode == Finalize)
    requires var kept := Wrote(s0, mode, Kept(mode, r));
      s1 == if consumed then Charged(kept, [GasConsumedToLimit(r.meter)]) else kept
    requires s2 == if mode == Finalize && !consumed then Charged(s1, [GasConsumedToLimit(r.meter)]) else s1
    ensures s2 == AfterRun(s0, mode, r)
    ensures Charges(mode, r) == if mode == Finalize then [GasConsumedToLimit(r.meter)] else []
  {
    hide Wrote, Charged, Kept;
    WroteNothing(s1, mode);
  }

  lemma {:induction false} WroteInPlace(s: App, mode: Mode, w: Writes)
    requires PlaceOf(s, mode).Some?
    ensures PlaceOf(Wrote(s, mode, w), mode).Some?
    ensures s.finalize.Some? ==> Wrote(s, mode, w).finalize.Some? && Wrote(s, mode, w).finalize.value.meter == s.finalize.value.meter
  {
  }

  /** The body's ways to end before the ante handler accepted, and the run it is otherwise. */
  lemma {:induction false} GateEnds(env: TxEnv, mode: Mode, h: Header, view: KV, blk: Meter, raw: Raw, given: Option<Tx>)
    ensures var tx := if given.Some? then given else env.decode(raw);
      var r := AfterGate(env, mode, h, view, blk, raw, given);
      if tx.None? then r.stop == Undecodable && r.meter == Infinite(0) && Kept(mode, r) == map[]
      else
        var a := AnteStage(env, mode, h, view, tx.value);
        if a.stop.Some? then r.stop !in {NoBlockGas, Completed} && r.meter == a.meter && Kept(mode, r) == map[]
        else r == AfterAnte(env, mode, h, view, blk, tx.value, a.meter, a.writes)
  {
    hide AnteStage, AfterAnte;
    var tx := if given.Some? then given else env.decode(raw);
    if tx.Some? { AnteStops(env, mode, h, view, tx.value); }
  }

  /** What the ante handler's branch and what came after it left, as one write and one charge. */
  lemma {:induction false} BodyEnds(s0: App, s1: App, s2: App, env: TxEnv, mode: Mode, h: Header, view: KV, blk: Meter, tx: Tx, a: AnteRun,
                                    ok: bool, meter: Meter, consumed: bool)
    requires s1 == if mode != Simulate then Wrote(s0, mode, a.writes) else s0
    requires ok == (AfterAnte(env, mode, h, view, blk, tx, a.meter, a.writes).stop == Completed)
    requires mode == Finalize ==>
      s2 == if consumed then Wrote(Charged(s1, [GasConsumedToLimit(meter)]), Finalize,
                                   if ok then AfterAnte(env, mode, h, view, blk, tx, a.meter, a.writes).msgWrites else map[])
            else s1
    requires (mode == Finalize && ok ==> consumed) && (mode != Finalize ==> !consumed && s2 == s1)
    ensures var r := AfterAnte(env, mode, h, view, blk, tx, a.meter, a.writes);
      && r.stop != NoBlockGas
      && s2 == if consumed then Charged(Wrote(s0, mode, Kept(mode, r)), [GasConsumedToLimit(meter)]) else Wrote(s0, mode, Kept(mode, r))
  {
    hide AfterAnte, Charged, Wrote, Kept;
    var r := AfterAnte(env, mode, h, view, blk, tx, a.meter, a.writes);
    AfterAnteStops(env, mode, h, view, blk, tx, a);
    WroteNothing(s0, mode);
    WroteTwice(s0, mode, a.writes, r.msgWrites, [GasConsumedToLimit(meter)]);
  }

  /** Writing twice around a charge is writing both at once. */
  lemma {:induction false} WroteTwice(s: App, mode: Mode, a: Writes, b: Writes, amounts: seq<nat>)
    ensures mode == Finalize ==> Wrote(Charged(Wrote(s, mode, a), amounts), mode, b) == Charged(Wrote(s, mode, a + b), amounts)
    ensures mode == Finalize ==> Wrote(Charged(Wrote(s, mode, a), amounts), mode, map[]) == Charged(Wrote(s, mode, a), amounts)
  {
    if s.finalize.Some? {
      var w := s.finalize.value.writes;
      assert w + a + b == w + (a + b);
      assert w + a + map[] == w + a;
    }
  }

  lemma {:induction false} NoWrites(w: Writes)
    ensures w + map[] == w
  {
  }

  lemma {:induction false} WroteNothing(s: App, mode: Mode)
    ensures Wrote(s, mode, map[]) == s && Charged(s, []) == s
  {
    NoWrites(s.check);
    if s.finalize.Some? { NoWrites(s.finalize.value.writes); }
    if s.prepare.Some? { NoWrites(s.prepare.value.writes); }
    if s.process.Some? { NoWrites(s.process.value.writes); }
  }
}
