/** The steps of a block for a concrete application: hooks, transactions and the block gas meter. */
module BlockSteps {
  import opened Prelude
  import opened Store
  import opened Gas
  import opened RunTx
  import opened BlockMachine

  /** A block hook's answer; `HookFails` covers an error return and a panic, which both end the block. */
  datatype Hook = HookFails | HookDone(writes: Writes, paramsChanged: bool)

  datatype Application = Application(
    tx: TxEnv,
    init: (InitReq, KV) -> Option<Writes>,
    halts: (int, int) -> bool,
    maxGas: KV -> int,                       // block gas limit in the parameter store, 0 when absent
    noBlockMeter: bool,
    pre: (Req, KV) -> Hook,
    begin: (Req, KV) -> Hook,
    end: (Req, KV) -> Hook,
    prepareCheck: KV -> Writes,
    oeEnabled: bool)

  function HeaderOf(req: Req): Header {
    Header(req.height, req.time, req.hash)
  }

  /** `getBlockGasMeter`: a limit below -1 panics, -1 and 0 mean no limit. */
  function BlockMeter(app: Application, view: KV): Option<Meter> {
    if app.noBlockMeter then Some(Noop)
    else if app.maxGas(view) < -1 then None
    else if app.maxGas(view) > 0 then Some(Basic(app.maxGas(view), 0))
    else Some(Infinite(0))
  }

  /** preBlock, after the context's gas meter was set and before it is reset for changed parameters. */
  function PreBlock(app: Application, req: Req, view: KV, meter: Meter): Effect {
    var h := app.pre(req, view);
    if BlockMeter(app, view).None? || h.HookFails? then Fails
    else if h.paramsChanged && BlockMeter(app, View(view, h.writes)).None? then Fails
    else Does(h.writes, meter)
  }

  /** beginBlock, followed by the block gas meter that every transaction is charged on. */
  function BeginBlock(app: Application, req: Req, view: KV): Effect {
    var h := app.begin(req, view);
    if h.HookFails? || BlockMeter(app, View(view, h.writes)).None? then Fails
    else Does(h.writes, BlockMeter(app, View(view, h.writes)).value)
  }

  /** One raw transaction of the block; bytes that do not decode are answered without running anything. */
  function DeliverTx(app: Application, req: Req, raw: Raw, view: KV, meter: Meter): Effect {
    if app.tx.decode(raw).None? then Does(map[], meter)
    else
      var r := Trace(app.tx, Finalize, HeaderOf(req), view, meter, raw, None);
      Does(Kept(Finalize, r), ChargeAll(meter, Charges(Finalize, r)))
  }

  function EndBlock(app: Application, req: Req, view: KV, meter: Meter): Effect {
    var h := app.end(req, view);
    if h.HookFails? then Fails else Does(h.writes, meter)
  }

  function Phase(app: Application, req: Req, n: nat, view: KV, meter: Meter): Effect {
    if n == 0 then PreBlock(app, req, view, meter)
    else if n == 1 then BeginBlock(app, req, view)
    else if n < 2 + |req.txs| then DeliverTx(app, req, req.txs[n - 2], view, meter)
    else EndBlock(app, req, view, meter)
  }

  function Machine(app: Application): Env {
    Env(
      app.init,
      app.halts,
      (req: Req, n: nat, view: KV, meter: Meter) => Phase(app, req, n, view, meter),
      (mode, h, view, raw) => Kept(mode, Trace(app.tx, mode, h, view, Infinite(0), raw, None)),
      app.prepareCheck,
      app.oeEnabled)
  }
}
