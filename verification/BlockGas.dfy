/** Gas over a whole block. */
module BlockGas {
  import opened Prelude
  import opened Store
  import opened Gas
  import opened RunTx
  import opened RunTxLaws
  import opened BlockMachine
  import opened BlockSteps

  /** The charge of the transaction at `i` if its message writes were kept, else nothing. */
  function KeptCharge(app: Application, req: Req, raw: Raw, view: KV, meter: Meter): nat {
    if app.tx.decode(raw).None? then 0
    else
      var r := Trace(app.tx, Finalize, HeaderOf(req), view, meter, raw, None);
      if r.stop == Completed then Charges(Finalize, r)[0] else 0
  }

  /** The gas of the transactions from index `i` on whose message writes are kept, along the block's own steps. */
  function KeptGas(app: Application, req: Req, i: nat, view: KV, meter: Meter): nat
    requires i <= |req.txs|
    decreases |req.txs| - i
  {
    if i == |req.txs| then 0
    else
      match Machine(app).phase(req, i + 2, view, meter)
      case Fails => 0
      case Does(w, m) => KeptCharge(app, req, req.txs[i], view, meter) + KeptGas(app, req, i + 1, View(view, w), m)
  }

  /** The limit never moves, the meter never goes down, and a kept transaction leaves it within the limit. */
  lemma {:induction false} OneTransaction(app: Application, req: Req, raw: Raw, view: KV, limit: nat, used: nat)
    requires used <= MAX_UINT64
    ensures var e := DeliverTx(app, req, raw, view, Basic(limit, used));
      var kept := KeptCharge(app, req, raw, view, Basic(limit, used));
      && e.Does? && e.meter.Basic? && e.meter.limit == limit
      && used + kept <= e.meter.used <= MAX_UINT64
      && (kept > 0 ==> e.meter.used == used + kept <= limit)
      && (used >= limit ==> kept == 0)
  {
    if app.tx.decode(raw).Some? {
      ChargedExactlyOnce(app.tx, HeaderOf(req), view, Basic(limit, used), raw, None);
      var r := Trace(app.tx, Finalize, HeaderOf(req), view, Basic(limit, used), raw, None);
      var cs := Charges(Finalize, r);
      if cs != [] {
        assert cs[1..] == [];
        assert ChargeAll(Basic(limit, used), cs) == ConsumeGas(Basic(limit, used), cs[0]).meter;
      }
    }
  }

  /** Over a whole block, the gas of the transactions whose writes were kept stays within what the block
      had left; in particular, with a fresh meter it never exceeds the block limit. */
  lemma {:induction false} KeptGasWithinLimit(app: Application, req: Req, i: nat, view: KV, limit: nat, used: nat)
    requires i <= |req.txs| && used <= MAX_UINT64
    ensures KeptGas(app, req, i, view, Basic(limit, used)) <= if used < limit then limit - used else 0
    decreases |req.txs| - i
  {
    hide View, DeliverTx, KeptCharge, PreBlock, BeginBlock, EndBlock;
    if i < |req.txs| {
      OneTransaction(app, req, req.txs[i], view, limit, used);
      var e := Machine(app).phase(req, i + 2, view, Basic(limit, used));
      assert e == DeliverTx(app, req, req.txs[i], view, Basic(limit, used));
      KeptGasWithinLimit(app, req, i + 1, View(view, e.writes), limit, e.meter.used);
    }
  }

  /** beginBlock installs a fresh meter with the block limit in force then, so the bound is that limit. */
  lemma {:induction false} BlockWithinItsLimit(app: Application, req: Req, view: KV, meter: Meter)
    requires Machine(app).phase(req, 1, view, meter).Does?
    ensures var e := Machine(app).phase(req, 1, view, meter);
      var after := View(view, e.writes);
      !app.noBlockMeter && app.maxGas(after) > 0 ==>
        KeptGas(app, req, 0, after, e.meter) <= app.maxGas(after)
  {
    var e := Machine(app).phase(req, 1, view, meter);
    var after := View(view, e.writes);
    if !app.noBlockMeter && app.maxGas(after) > 0 {
      KeptGasWithinLimit(app, req, 0, after, app.maxGas(after), 0);
    }
  }
}
