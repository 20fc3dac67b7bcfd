/** Executing one transaction on a branch: `runTx`, `runMsgs` and the deferred block-gas charge. */
module RunTx {
  import opened Prelude
  import opened Store
  import opened Gas

  type Raw = string
  type Msg = string
  datatype Tx = Tx(raw: Raw, msgs: seq<Msg>)

  datatype Mode = Check | ReCheck | Simulate | PrepareProposal | ProcessProposal | Finalize

  datatype Header = Header(height: int, time: int, hash: Raw)

  // What the application's handlers answer. Each may panic; `meter` is the transaction's gas
  // meter as the handler leaves it, and `writes` what it put into the branch it was given.
  datatype AnteAnswer =
    | AntePanic(used: nat)
    | AnteReturn(used: nat, newMeter: Option<Meter>, writes: Writes, failed: bool)
  datatype MsgAnswer =
    | MsgPanic(meter: Meter)
    | MsgFail(meter: Meter, writes: Writes)
    | MsgOk(meter: Meter, writes: Writes)
  datatype PostAnswer =
    | PostPanic(meter: Meter)
    | PostFail(meter: Meter)
    | PostOk(meter: Meter, writes: Writes)

  /** The application behind `BaseApp`: every handler is an arbitrary function. */
  datatype TxEnv = TxEnv(
    decode: Raw -> Option<Tx>,
    basicOk: Tx -> bool,             // at least one message, and every ValidateBasic passes
    routed: Tx -> bool,              // every message has a registered handler
    hasAnte: bool,
    ante: (Mode, Header, KV, Tx) -> AnteAnswer,
    insertFails: Tx -> bool,         // mempool.Insert
    removeFails: Tx -> bool,         // mempool.Remove, other than "not found"
    v2Fails: Tx -> bool,             // GetMsgsV2
    msg: (Header, KV, Meter, Msg) -> MsgAnswer,
    dataFails: Tx -> bool,           // marshalling the responses
    hasPost: bool,
    post: (Mode, Header, KV, Meter, Tx, bool) -> PostAnswer)

  /** Where a run ended. */
  datatype Stop =
    | NoBlockGas | Undecodable | Invalid | Unrouted
    | AntePanicked | AnteRejected
    | PoolFailed | MsgPanicked | MsgsFailed | PostPanicked | PostRejected | BlockGasOverrun
    | Completed

  /** A finished run: where it stopped, the transaction meter then, and what each level holds. */
  datatype Run = Run(stop: Stop, meter: Meter, anteWrites: Writes, msgWrites: Writes)

  /** How much of a run survives in the branch it was run on, by where it stopped. */
  datatype Level = Nothing | AnteOnly | Everything

  function Survives(mode: Mode, stop: Stop): Level {
    match stop
    case NoBlockGas | Undecodable | Invalid | Unrouted | AntePanicked | AnteRejected => Nothing
    case PoolFailed | MsgPanicked | MsgsFailed | PostPanicked | PostRejected | BlockGasOverrun =>
      if mode == Simulate then Nothing else AnteOnly
    case Completed =>
      if mode == Simulate then Nothing else if mode == Finalize then Everything else AnteOnly
  }

  /** The writes that survive in that branch. */
  function Kept(mode: Mode, r: Run): Writes {
    match Survives(mode, r.stop)
    case Nothing => map[]
    case AnteOnly => r.anteWrites
    case Everything => r.anteWrites + r.msgWrites
  }

  predicate ExecutesMsgs(mode: Mode) {
    mode == Finalize || mode == Simulate
  }

  datatype MsgRun = MsgRun(panicked: bool, ok: bool, meter: Meter, writes: Writes)

  /** The messages from index `i` on: they share one branch and stop at the first that fails. */
  function MsgsFrom(env: TxEnv, h: Header, view: KV, tx: Tx, i: nat, meter: Meter, writes: Writes): (r: MsgRun)
    requires i <= |tx.msgs|
    decreases |tx.msgs| - i
  {
    if i == |tx.msgs| then
      MsgRun(false, !env.dataFails(tx), meter, writes)
    else
      match env.msg(h, View(view, writes), meter, tx.msgs[i])
      case MsgPanic(m) => MsgRun(true, false, m, writes)
      case MsgFail(m, w) => MsgRun(false, false, m, writes + w)
      case MsgOk(m, w) => MsgsFrom(env, h, view, tx, i + 1, m, writes + w)
  }

  function Messages(env: TxEnv, mode: Mode, h: Header, view: KV, tx: Tx, meter: Meter): MsgRun {
    if env.v2Fails(tx) then MsgRun(false, false, meter, map[])
    else if ExecutesMsgs(mode) then MsgsFrom(env, h, view, tx, 0, meter, map[])
    else MsgRun(false, !env.dataFails(tx), meter, map[])
  }

  /** How the messages and the post handler ended: `stop` is set when they end the run. */
  datatype HandlersRun = HandlersRun(stop: Option<Stop>, ok: bool, meter: Meter, writes: Writes)

  function Handlers(env: TxEnv, mode: Mode, h: Header, seen: KV, tx: Tx, meter: Meter): HandlersRun {
    var ran := Messages(env, mode, h, seen, tx, meter);
    if ran.panicked then HandlersRun(Some(MsgPanicked), false, ran.meter, ran.writes)
    else if !env.hasPost then HandlersRun(None, ran.ok, ran.meter, ran.writes)
    else
      match env.post(mode, h, View(seen, ran.writes), ran.meter, tx, ran.ok)
      case PostPanic(m) => HandlersRun(Some(PostPanicked), false, m, ran.writes)
      case PostFail(m) => HandlersRun(Some(PostRejected), false, m, ran.writes)
      case PostOk(m, w) => HandlersRun(None, ran.ok, m, ran.writes + w)
  }

  /** From the mempool step on, after the ante handler's branch was written. */
  function AfterAnte(env: TxEnv, mode: Mode, h: Header, view: KV, blk: Meter, tx: Tx, meter: Meter, anteWrites: Writes): Run
  {
    if (mode == Check && env.insertFails(tx)) || (mode == Finalize && env.removeFails(tx)) then
      Run(PoolFailed, meter, anteWrites, map[])
    else
      var d := Handlers(env, mode, h, View(view, anteWrites), tx, meter);
      Run(if d.stop.Some? then d.stop.value else Closing(mode, blk, d.ok, d.meter), d.meter, anteWrites, d.writes)
  }

  /** The last decision: in finalize mode the block meter is charged before the branch is written. */
  function Closing(mode: Mode, blk: Meter, ok: bool, meter: Meter): Stop {
    if !ok then MsgsFailed
    else if mode == Finalize && ConsumeGas(blk, GasConsumedToLimit(meter)).panicked then BlockGasOverrun
    else Completed
  }

  /** The stateless checks and the ante handler. */
  datatype AnteRun = AnteRun(stop: Option<Stop>, meter: Meter, writes: Writes)

  function AnteStage(env: TxEnv, mode: Mode, h: Header, view: KV, tx: Tx): AnteRun {
    if !env.basicOk(tx) then AnteRun(Some(Invalid), Infinite(0), map[])
    else if !env.routed(tx) then AnteRun(Some(Unrouted), Infinite(0), map[])
    else if !env.hasAnte then AnteRun(None, Infinite(0), map[])
    else
      match env.ante(mode, h, view, tx)
      case AntePanic(used) => AnteRun(Some(AntePanicked), Infinite(used), map[])
      case AnteReturn(used, newMeter, w, failed) =>
        AnteRun(if failed then Some(AnteRejected) else None, if newMeter.Some? then newMeter.value else Infinite(used), w)
  }

  function RunDecoded(env: TxEnv, mode: Mode, h: Header, view: KV, blk: Meter, tx: Tx): Run {
    var a := AnteStage(env, mode, h, view, tx);
    if a.stop.Some? then Run(a.stop.value, a.meter, a.writes, map[])
    else AfterAnte(env, mode, h, view, blk, tx, a.meter, a.writes)
  }

  function AfterGate(env: TxEnv, mode: Mode, h: Header, view: KV, blk: Meter, raw: Raw, given: Option<Tx>): Run {
    var tx := if given.Some? then given else env.decode(raw);
    if tx.None? then Run(Undecodable, Infinite(0), map[], map[]) else RunDecoded(env, mode, h, view, blk, tx.value)
  }

  /** A whole run on a branch whose contents read as `view`, with block meter `blk`. */
  function Trace(env: TxEnv, mode: Mode, h: Header, view: KV, blk: Meter, raw: Raw, given: Option<Tx>): Run {
    if mode == Finalize && IsOutOfGas(blk) then Run(NoBlockGas, Infinite(0), map[], map[])
    else AfterGate(env, mode, h, view, blk, raw, given)
  }

  /** The amounts the run passes to the block meter, in order. */
  function Charges(mode: Mode, r: Run): seq<nat> {
    if mode == Finalize && r.stop != NoBlockGas then [GasConsumedToLimit(r.meter)] else []
  }

  function ChargeAll(blk: Meter, amounts: seq<nat>): Meter
    decreases |amounts|
  {
    if amounts == [] then blk else ChargeAll(ConsumeGas(blk, amounts[0]).meter, amounts[1..])
  }
}
