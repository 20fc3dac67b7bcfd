/** The block state machine of `BaseApp`: one committed store, its uncommitted working copy, the
    throw-away branches, and the optimistic-execution run, with one transition per ABCI call. */
module BlockMachine {
  import opened Prelude
  import opened Store
  import opened Gas
  import opened RunTx

  datatype InitReq = InitReq(initialHeight: int, data: string)

  /** A block as FinalizeBlock receives it; `rest` stands for the fields no branch here looks at. */
  datatype Req = Req(height: int, time: int, hash: Raw, txs: seq<Raw>, rest: string)

  datatype Effect = Fails | Does(writes: Writes, meter: Meter)

  /** What the machine needs of the application. `phase` is one step of a block on a branch that reads
      as the given map, and `kept` what a transaction run outside a block keeps; `BlockSteps` fills both in. */
  datatype Env = Env(
    init: (InitReq, KV) -> Option<Writes>,   // parameter store, InitChainer and the validator check
    halts: (int, int) -> bool,               // halt height or halt time reached
    phase: (Req, nat, KV, Meter) -> Effect,
    kept: (Mode, Header, KV, Raw) -> Writes,
    prepareCheck: KV -> Writes,
    oeEnabled: bool)

  /** The finalize branch. `applied` records which step of which block was run on it. */
  datatype FinState = FinState(writes: Writes, meter: Meter, applied: seq<(Req, nat)>)

  /** A proposal branch; at the initial height it sits over the finalize branch instead of the root. */
  datatype Branch = Branch(overFinalize: bool, writes: Writes)

  datatype OeResult = Pending | Good | Bad

  /** The optimistic-execution record: `Idle` is "not initialized". A result, once there, stays until
      `Reset` or the next `Execute`, also after `Abort`. */
  datatype Oe = Idle | Execution(req: Req, phase: nat, cancelled: bool, result: OeResult)

  datatype App = App(
    alive: bool, started: bool, awaitingCommit: bool,
    committed: KV, working: KV, lastHeight: int, initialHeight: int,
    check: Writes, prepare: Option<Branch>, process: Option<Branch>,
    finalize: Option<FinState>, oe: Oe,
    written: seq<(Req, nat)>)     // what the branch last written to the root had applied

  const FRESH := FinState(map[], Infinite(0), [])

  const EMPTY := App(true, false, false, map[], map[], 0, 0, map[], None, None, None, Idle, [])

  datatype Call =
    | InitChain(init: InitReq)
    | CheckTx(recheck: bool, raw: Raw)
    | SimulateTx(raw: Raw)
    | PrepareProposal(height: int, writes: Writes)
    | ProcessProposal(req: Req, accept: bool, writes: Writes)
    | ExtendVote(height: int, writes: Writes)
    | OeStep
    | FinalizeBlock(req: Req, testAbort: bool)
    | Commit

  /** preBlock, beginBlock, one step per transaction, endBlock. */
  function Phases(req: Req): nat { |req.txs| + 3 }

  /** One step of `internalFinalizeBlock` on the finalize branch, which holds dirty entries over the root. */
  function PhaseOn(env: Env, req: Req, n: nat, root: KV, fs: FinState): Option<FinState>
  {
    match env.phase(req, n, View(root, fs.writes), fs.meter)
    case Fails => None
    case Does(w, m) => Some(FinState(fs.writes + w, m, fs.applied + [(req, n)]))
  }

  /** How far a block got: the branch as it was left, and whether every step succeeded. */
  datatype Progress = Progress(complete: bool, fs: FinState)

  function PhasesFrom(env: Env, req: Req, n: nat, root: KV, fs: FinState): Progress
    requires n <= Phases(req)
    decreases Phases(req) - n
  {
    if n == Phases(req) then Progress(true, fs)
    else
      match PhaseOn(env, req, n, root, fs)
      case None => Progress(false, fs)
      case Some(next) => PhasesFrom(env, req, n + 1, root, next)
  }

  function ExpectedHeight(s: App): int {
    if s.lastHeight == 0 && s.initialHeight > 1 then s.initialHeight else s.lastHeight + 1
  }

  /** The checks at the head of `internalFinalizeBlock`. */
  predicate Admissible(env: Env, s: App, req: Req) {
    !env.halts(req.height, req.time) && req.height >= 1 && req.height == ExpectedHeight(s)
  }

  /** The goroutine has no result yet. */
  predicate Running(s: App) {
    s.oe.Execution? && s.oe.result.Pending?
  }

  predicate OeInRange(s: App) {
    Running(s) ==> s.oe.phase < Phases(s.oe.req)
  }

  /** One step of the goroutine. It looks at the cancel signal after every step but the first. */
  function Tick(env: Env, s: App): (t: App)
    requires OeInRange(s) && Running(s)
    ensures OeInRange(t)
    ensures t == s.(finalize := t.finalize, oe := t.oe)
    ensures t.oe.Execution? && t.oe.req == s.oe.req && t.oe.cancelled == s.oe.cancelled
    ensures Running(t) ==> t.oe.phase == s.oe.phase + 1
  {
    var run := s.oe;
    if run.phase == 0 && !Admissible(env, s, run.req) then s.(oe := run.(result := Bad))
    else
      match (if s.finalize.None? then None else PhaseOn(env, run.req, run.phase, s.working, s.finalize.value))
      case None => s.(oe := run.(result := Bad))
      case Some(fs) =>
        var result := if run.cancelled && run.phase > 0 then Bad
                      else if run.phase + 1 == Phases(run.req) then Good else Pending;
        s.(finalize := Some(fs), oe := run.(phase := run.phase + 1, result := result))
  }

  /** `WaitResult`: the goroutine runs until it has a result. */
  function Wait(env: Env, s: App): (t: App)
    requires OeInRange(s)
    ensures !Running(t)
    ensures t == s.(finalize := t.finalize, oe := t.oe)
    ensures t.oe.Execution? <==> s.oe.Execution?
    ensures t.oe.Execution? ==> t.oe.req == s.oe.req && t.oe.cancelled == s.oe.cancelled
    decreases if Running(s) then Phases(s.oe.req) - s.oe.phase else 0
  {
    if Running(s) then Wait(env, Tick(env, s)) else s
  }

  /** `AbortIfNeeded` and `Abort` raise the cancel signal on whatever the record holds. */
  function Cancel(s: App): App {
    if s.oe.Execution? then s.(oe := s.oe.(cancelled := true)) else s
  }

  /** `workingHash`: the finalize branch is written to the root's working copy. */
  function WriteToRoot(s: App): (t: App)
    requires s.finalize.Some?
    ensures t.oe == s.oe
  {
    var fs := s.finalize.value;
    s.(working := View(s.working, fs.writes), finalize := Some(fs.(writes := map[])), awaitingCommit := true, written := fs.applied)
  }

  function Dead(s: App): App { s.(alive := false) }

  function InternalFinalizeBlock(env: Env, s: App, req: Req): (t: App)
    ensures t.oe == s.oe
  {
    if !Admissible(env, s, req) then Dead(s)
    else
      var p := PhasesFrom(env, req, 0, s.working, if s.finalize.Some? then s.finalize.value else FRESH);
      var t := s.(finalize := Some(p.fs));
      if p.complete then WriteToRoot(t) else Dead(t)
  }

  /** FinalizeBlock: the optimistic result is used when its hash matches and it was not aborted here. */
  function Finalized(env: Env, s: App, req: Req, testAbort: bool): (t: App)
    requires OeInRange(s)
    ensures !Running(t)
  {
    if s.oe.Execution? then
      var aborted := s.oe.req.hash != req.hash || testAbort;
      var done := Wait(env, if aborted then Cancel(s) else s);
      if !aborted then
        if done.oe.result.Good? && done.finalize.Some? then WriteToRoot(done) else Dead(done)
      else
        InternalFinalizeBlock(env, done.(finalize := None, oe := Idle), req)
    else
      InternalFinalizeBlock(env, s, req)
  }

  /** `runTx` on the check state. A simulation works on a branch of it that is never written back. */
  function Checked(env: Env, s: App, mode: Mode, raw: Raw): App {
    s.(check := s.check + env.kept(mode, Header(s.lastHeight, 0, ""), View(s.working, s.check), raw))
  }

  function Prepared(env: Env, s: App, height: int, writes: Writes): App {
    s.(prepare := Some(Branch(height >= 1 && height == s.initialHeight, if height >= 1 then writes else map[])))
  }

  function Processed(env: Env, s: App, req: Req, accept: bool, writes: Writes): (t: App)
    requires OeInRange(s)
    ensures OeInRange(t)
  {
    if req.height < 1 then s
    else
      var r := s.(process := Some(Branch(false, map[])));
      var t := if req.height > s.initialHeight then Wait(env, Cancel(r)).(finalize := Some(FRESH)) else r;
      var u := t.(process := Some(Branch(req.height == s.initialHeight, writes)));
      if accept && env.oeEnabled && req.height > s.initialHeight
      then u.(oe := Execution(req, 0, false, Pending)) else u
  }

  function Initialized(env: Env, s: App, init: InitReq): (t: App)
    ensures t.oe == s.oe
  {
    var ih := if init.initialHeight == 0 then 1 else init.initialHeight;
    match env.init(init, s.working)
    case None => Dead(s.(started := true, initialHeight := ih, check := map[], finalize := Some(FRESH)))
    case Some(w) => s.(started := true, initialHeight := ih, check := map[], finalize := Some(FRESH.(writes := w)))
  }

  /** Commit: whatever the precommitter writes goes into the finalize branch, which is then dropped. */
  function Committed(env: Env, s: App): App {
    s.(committed := s.working, lastHeight := ExpectedHeight(s), check := env.prepareCheck(s.working),
       finalize := None, awaitingCommit := false)
  }

  function Step(env: Env, s: App, c: Call): (t: App)
    requires OeInRange(s)
    ensures OeInRange(t)
  {
    if !s.alive then s
    else
      match c
      case InitChain(init) => Initialized(env, s, init)
      case CheckTx(recheck, raw) => Checked(env, s, if recheck then ReCheck else Check, raw)
      case SimulateTx(raw) => Checked(env, s, Simulate, raw)
      case PrepareProposal(height, w) => Prepared(env, s, height, w)
      case ProcessProposal(req, accept, w) => Processed(env, s, req, accept, w)
      case ExtendVote(_, _) => s
      case OeStep => if Running(s) then Tick(env, s) else s
      case FinalizeBlock(req, testAbort) => Finalized(env, s, req, testAbort)
      case Commit => Committed(env, s)
  }

  /** A whole run of calls. */
  function RunCalls(env: Env, s: App, calls: seq<Call>): (t: App)
    requires OeInRange(s)
    ensures OeInRange(t)
    decreases |calls|
  {
    if calls == [] then s else RunCalls(env, Step(env, s, calls[0]), calls[1..])
  }
}
