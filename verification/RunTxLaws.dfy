/** What a transaction run leaves behind, on every return and every panic path. */
module RunTxLaws {
  import opened Prelude
  import opened Store
  import opened Gas
  import opened RunTx

  /** The transaction a run works on, if its bytes decode. */
  function Decoded(env: TxEnv, raw: Raw, given: Option<Tx>): Option<Tx> {
    if given.Some? then given else env.decode(raw)
  }

  /** The ante handler (if any) is reached and accepts: nothing before or inside it stops the run. */
  predicate AnteAccepts(env: TxEnv, mode: Mode, h: Header, view: KV, tx: Tx) {
    && env.basicOk(tx) && env.routed(tx)
    && (env.hasAnte ==> env.ante(mode, h, view, tx).AnteReturn? && !env.ante(mode, h, view, tx).failed)
  }

  predicate ReachesPastAnte(env: TxEnv, mode: Mode, h: Header, view: KV, blk: Meter, raw: Raw, given: Option<Tx>) {
    && !(mode == Finalize && IsOutOfGas(blk))
    && Decoded(env, raw, given).Some?
    && AnteAccepts(env, mode, h, view, Decoded(env, raw, given).value)
  }

  /** What an accepted ante handler leaves: its writes and the transaction meter it installed. */
  datatype Between = Between(meter: Meter, writes: Writes)

  function AfterAccept(env: TxEnv, mode: Mode, h: Header, view: KV, tx: Tx): Between
    requires AnteAccepts(env, mode, h, view, tx)
  {
    if !env.hasAnte then Between(Infinite(0), map[])
    else
      var a := env.ante(mode, h, view, tx);
      Between(if a.newMeter.Some? then a.newMeter.value else Infinite(a.used), a.writes)
  }

  /** `c` lists the message branch before message `i` and after each later one, every message answering ok. */
  ghost predicate Succeeds(env: TxEnv, h: Header, view: KV, tx: Tx, i: nat, c: seq<Between>)
    requires i <= |tx.msgs|
    decreases |tx.msgs| - i
  {
    && |c| == |tx.msgs| - i + 1
    && (i < |tx.msgs| ==>
         var a := env.msg(h, View(view, c[0].writes), c[0].meter, tx.msgs[i]);
         && a.MsgOk? && c[1] == Between(a.meter, c[0].writes + a.writes)
         && Succeeds(env, h, view, tx, i + 1, c[1..]))
  }

  /** Such a chain from a given start is the run of the messages, and it ends where the run ends. */
  lemma {:induction false} ChainIsTheRun(env: TxEnv, h: Header, view: KV, tx: Tx, i: nat, c: seq<Between>)
    requires i <= |tx.msgs| && Succeeds(env, h, view, tx, i, c)
    ensures var r := MsgsFrom(env, h, view, tx, i, c[0].meter, c[0].writes);
      && !r.panicked && r.ok == !env.dataFails(tx)
      && c[|c| - 1] == Between(r.meter, r.writes)
    decreases |tx.msgs| - i
  {
    if i < |tx.msgs| {
      ChainIsTheRun(env, h, view, tx, i + 1, c[1..]);
    }
  }

  /** `runMsgs` is all or nothing: it succeeds only along such a chain. */
  lemma {:induction false} SuccessHasAChain(env: TxEnv, h: Header, view: KV, tx: Tx, i: nat, start: Between) returns (c: seq<Between>)
    requires i <= |tx.msgs| && MsgsFrom(env, h, view, tx, i, start.meter, start.writes).ok
    ensures Succeeds(env, h, view, tx, i, c) && c[0] == start && !env.dataFails(tx)
    decreases |tx.msgs| - i
  {
    if i == |tx.msgs| {
      c := [start];
    } else {
      var a := env.msg(h, View(view, start.writes), start.meter, tx.msgs[i]);
      var d := SuccessHasAChain(env, h, view, tx, i + 1, Between(a.meter, start.writes + a.writes));
      c := [start] + d;
      assert c[1..] == d;
    }
  }

  // ---------- where a run can stop ----------

  lemma {:induction false} HandlersStop(env: TxEnv, mode: Mode, h: Header, seen: KV, tx: Tx, meter: Meter)
    ensures var stop := Handlers(env, mode, h, seen, tx, meter).stop;
      stop.Some? ==> stop.value in {MsgPanicked, PostPanicked, PostRejected}
  {
    hide Messages, View;
  }

  lemma {:induction false} AnteStops(env: TxEnv, mode: Mode, h: Header, view: KV, tx: Tx)
    ensures var a := AnteStage(env, mode, h, view, tx);
      a.stop.Some? ==> a.stop.value in {Invalid, Unrouted, AntePanicked, AnteRejected}
  {
  }

  /** Past the ante handler. */
  lemma {:induction false} LaterStops(env: TxEnv, mode: Mode, h: Header, view: KV, blk: Meter, tx: Tx, meter: Meter, w: Writes)
    ensures var r := AfterAnte(env, mode, h, view, blk, tx, meter, w);
      && r.anteWrites == w
      && r.stop in {PoolFailed, MsgPanicked, PostPanicked, PostRejected, MsgsFailed, BlockGasOverrun, Completed}
      && (mode == Finalize && r.stop == Completed ==> !ConsumeGas(blk, GasConsumedToLimit(r.meter)).panicked)
  {
    hide View, Handlers, ConsumeGas, GasConsumedToLimit;
    HandlersStop(env, mode, h, View(view, w), tx, meter);
  }

  /** Past the ante handler nothing undoes its writes: no later stop survives as `Nothing`. */
  lemma {:induction false} AfterAnteKeepsAnte(env: TxEnv, mode: Mode, h: Header, view: KV, blk: Meter, tx: Tx, meter: Meter, w: Writes)
    ensures var r := AfterAnte(env, mode, h, view, blk, tx, meter, w);
      r.anteWrites == w && (mode != Simulate ==> Survives(mode, r.stop) != Nothing)
  {
    hide AfterAnte;
    LaterStops(env, mode, h, view, blk, tx, meter, w);
  }

  /** Where a run stops decides what it keeps, and reaching past the ante handler decides whether it keeps anything. */
  lemma {:induction false} KeepsAnteIffReached(env: TxEnv, mode: Mode, h: Header, view: KV, blk: Meter, raw: Raw, given: Option<Tx>)
    requires mode != Simulate
    ensures var r := Trace(env, mode, h, view, blk, raw, given);
      && (Survives(mode, r.stop) != Nothing <==> ReachesPastAnte(env, mode, h, view, blk, raw, given))
      && (Survives(mode, r.stop) != Nothing ==>
            r.anteWrites == AfterAccept(env, mode, h, view, Decoded(env, raw, given).value).writes)
  {
    if ReachesPastAnte(env, mode, h, view, blk, raw, given) {
      var tx := Decoded(env, raw, given).value;
      var b := AfterAccept(env, mode, h, view, tx);
      AfterAnteKeepsAnte(env, mode, h, view, blk, tx, b.meter, b.writes);
    }
  }

  /** Atomicity. In finalize mode the branch afterwards reads as exactly one of: unchanged, the ante
      writes, or the ante writes with message and post-handler writes on top. The first happens exactly
      when the ante handler is not reached or does not accept, the last exactly when the run completes. */
  lemma {:induction false} FinalizeIsAtomic(env: TxEnv, h: Header, view: KV, blk: Meter, raw: Raw, given: Option<Tx>)
    ensures var r := Trace(env, Finalize, h, view, blk, raw, given);
      var left := View(view, Kept(Finalize, r));
      if !ReachesPastAnte(env, Finalize, h, view, blk, raw, given) then left == view && r.stop != Completed
      else
        var ante := View(view, AfterAccept(env, Finalize, h, view, Decoded(env, raw, given).value).writes);
        left == if r.stop == Completed then View(ante, r.msgWrites) else ante
  {
    var r := Trace(env, Finalize, h, view, blk, raw, given);
    KeepsAnteIffReached(env, Finalize, h, view, blk, raw, given);
    ViewOfNothing(view);
    ViewOfWrite(view, r.anteWrites, r.msgWrites);
  }

  /** What has to go right, past an ante handler that left `start`, for the run to complete along `c`. */
  ghost predicate AllGoesRight(env: TxEnv, h: Header, view: KV, blk: Meter, tx: Tx, start: Between, r: Run, c: seq<Between>) {
    var seen := View(view, start.writes);
    && !env.removeFails(tx) && !env.v2Fails(tx) && !env.dataFails(tx)
    && Succeeds(env, h, seen, tx, 0, c) && c[0] == Between(start.meter, map[])
    && PostAccepts(env, h, seen, tx, c[|c| - 1], r)
    && !ConsumeGas(blk, GasConsumedToLimit(r.meter)).panicked
  }

  /** The post handler, if there is one, accepts after the messages left `end`, and `r` holds both their writes. */
  predicate PostAccepts(env: TxEnv, h: Header, seen: KV, tx: Tx, end: Between, r: Run) {
    if env.hasPost then
      var p := env.post(Finalize, h, View(seen, end.writes), end.meter, tx, true);
      p.PostOk? && r.meter == p.meter && r.msgWrites == end.writes + p.writes
    else
      r.meter == end.meter && r.msgWrites == end.writes
  }

  lemma {:induction false} CompletesOnlyIfAllGoesRight(env: TxEnv, h: Header, view: KV, blk: Meter, tx: Tx, start: Between) returns (c: seq<Between>)
    requires AfterAnte(env, Finalize, h, view, blk, tx, start.meter, start.writes).stop == Completed
    ensures AllGoesRight(env, h, view, blk, tx, start, AfterAnte(env, Finalize, h, view, blk, tx, start.meter, start.writes), c)
  {
    var seen := View(view, start.writes);
    var ran := Messages(env, Finalize, h, seen, tx, start.meter);
    assert ran.ok && ran == MsgsFrom(env, h, seen, tx, 0, start.meter, map[]);
    c := SuccessHasAChain(env, h, seen, tx, 0, Between(start.meter, map[]));
    ChainIsTheRun(env, h, seen, tx, 0, c);
  }

  lemma {:induction false} CompletesIfAllGoesRight(env: TxEnv, h: Header, view: KV, blk: Meter, tx: Tx, start: Between, c: seq<Between>)
    requires AllGoesRight(env, h, view, blk, tx, start, AfterAnte(env, Finalize, h, view, blk, tx, start.meter, start.writes), c)
    ensures AfterAnte(env, Finalize, h, view, blk, tx, start.meter, start.writes).stop == Completed
  {
    ChainIsTheRun(env, h, View(view, start.writes), tx, 0, c);
  }

  /** The message and post-handler writes survive exactly when every message answers ok in turn, the
      responses marshal, the post handler accepts and the charge to the block meter does not panic. */
  lemma {:induction false} CompletedMeansEverythingSucceeded(env: TxEnv, h: Header, view: KV, blk: Meter, raw: Raw, given: Option<Tx>)
    requires ReachesPastAnte(env, Finalize, h, view, blk, raw, given)
    ensures var r := Trace(env, Finalize, h, view, blk, raw, given);
      var tx := Decoded(env, raw, given).value;
      var start := AfterAccept(env, Finalize, h, view, tx);
      r.stop == Completed <==> exists c :: AllGoesRight(env, h, view, blk, tx, start, r, c)
  {
    var tx := Decoded(env, raw, given).value;
    var start := AfterAccept(env, Finalize, h, view, tx);
    var r := AfterAnte(env, Finalize, h, view, blk, tx, start.meter, start.writes);
    assert r == Trace(env, Finalize, h, view, blk, raw, given);
    if r.stop == Completed {
      var c := CompletesOnlyIfAllGoesRight(env, h, view, blk, tx, start);
    }
    if c :| AllGoesRight(env, h, view, blk, tx, start, r, c) {
      CompletesIfAllGoesRight(env, h, view, blk, tx, start, c);
    }
  }

  /** `c` lists the message branch before message `i` and after each of the next ones, all of which answered ok. */
  ghost predicate SucceedsSoFar(env: TxEnv, h: Header, view: KV, tx: Tx, i: nat, c: seq<Between>)
    requires i <= |tx.msgs|
    decreases |tx.msgs| - i
  {
    && 1 <= |c| <= |tx.msgs| - i + 1
    && (|c| > 1 ==>
         var a := env.msg(h, View(view, c[0].writes), c[0].meter, tx.msgs[i]);
         && a.MsgOk? && c[1] == Between(a.meter, c[0].writes + a.writes)
         && SucceedsSoFar(env, h, view, tx, i + 1, c[1..]))
  }

  /** The message behind such a chain decides: a panic ends the run with the chain's writes and that message's gas, and a
      failure ends it with the failed message's writes on top, for the branch that is not written. */
  lemma {:induction false} TheNextMessageDecides(env: TxEnv, h: Header, view: KV, tx: Tx, i: nat, c: seq<Between>)
    requires i + |c| <= |tx.msgs| && SucceedsSoFar(env, h, view, tx, i, c)
    ensures var last := c[|c| - 1];
      var r := MsgsFrom(env, h, view, tx, i, c[0].meter, c[0].writes);
      match env.msg(h, View(view, last.writes), last.meter, tx.msgs[i + |c| - 1])
      case MsgPanic(m) => r == MsgRun(true, false, m, last.writes)
      case MsgFail(m, w) => r == MsgRun(false, false, m, last.writes + w)
      case MsgOk(_, _) => true
    decreases |c|
  {
    hide View;
    if |c| > 1 { TheNextMessageDecides(env, h, view, tx, i + 1, c[1..]); }
  }

  /** What the messages' end means for the run. Where they panic the post handler is not asked; otherwise it is, on their
      branch and with their verdict, which is a refusal when `GetMsgsV2` failed, and it can end the run itself. */
  lemma {:induction false} PostHandlerIsAsked(env: TxEnv, mode: Mode, h: Header, seen: KV, tx: Tx, meter: Meter)
    ensures var d := Handlers(env, mode, h, seen, tx, meter);
      var r := MsgsFrom(env, h, seen, tx, 0, meter, map[]);
      var runs := !env.v2Fails(tx) && (mode == Finalize || mode == Simulate);
      var writes := if runs then r.writes else map[];
      var left := if runs then r.meter else meter;
      var ok := !env.v2Fails(tx) && if runs then r.ok else !env.dataFails(tx);
      if runs && r.panicked then d.stop == Some(MsgPanicked) && d.meter == r.meter
      else if !env.hasPost then d == HandlersRun(None, ok, left, writes)
      else
        var p := env.post(mode, h, View(seen, writes), left, tx, ok);
        && d.meter == p.meter
        && (d.stop == if p.PostOk? then None else if p.PostPanic? then Some(PostPanicked) else Some(PostRejected))
        && (p.PostOk? ==> d.ok == ok && d.writes == writes + p.writes)
  {
    hide View, MsgsFrom;
  }

  /** What completion means outside a block. Past the ante handler a check, a simulation or a proposal's run completes
      exactly when its mempool insertion (checks only), `GetMsgsV2`, the responses and the post handler succeed, and in
      a simulation, the only one of them that executes messages, every message answers ok in turn. */
  lemma {:induction false} CompletedOutsideABlock(env: TxEnv, mode: Mode, h: Header, view: KV, blk: Meter, raw: Raw, given: Option<Tx>)
    requires mode != Finalize
    ensures ReachesPastAnte(env, mode, h, view, blk, raw, given) ==>
      var tx := Decoded(env, raw, given).value;
      var start := AfterAccept(env, mode, h, view, tx);
      Trace(env, mode, h, view, blk, raw, given).stop == Completed <==>
        && !(mode == Check && env.insertFails(tx)) && !env.v2Fails(tx) && !env.dataFails(tx)
        && exists c :: EndsRight(env, mode, h, View(view, start.writes), tx, start.meter, c)
    ensures !ReachesPastAnte(env, mode, h, view, blk, raw, given) ==> Trace(env, mode, h, view, blk, raw, given).stop != Completed
  {
    hide AfterAnte, View, EndsRight;
    if ReachesPastAnte(env, mode, h, view, blk, raw, given) {
      var tx := Decoded(env, raw, given).value;
      var start := AfterAccept(env, mode, h, view, tx);
      assert Trace(env, mode, h, view, blk, raw, given) == AfterAnte(env, mode, h, view, blk, tx, start.meter, start.writes);
      LaterCompletes(env, mode, h, view, blk, tx, start);
    } else {
      KeepsNothingUnreached(env, mode, h, view, blk, raw, given);
    }
  }

  /** The messages ran along `c`, or none did, and the post handler accepts where they ended. */
  ghost predicate EndsRight(env: TxEnv, mode: Mode, h: Header, seen: KV, tx: Tx, meter: Meter, c: seq<Between>) {
    && c != [] && c[0] == Between(meter, map[])
    && (if mode == Simulate then Succeeds(env, h, seen, tx, 0, c) else c == [c[0]])
    && (env.hasPost ==> env.post(mode, h, View(seen, c[|c| - 1].writes), c[|c| - 1].meter, tx, true).PostOk?)
  }

  lemma {:induction false} KeepsNothingUnreached(env: TxEnv, mode: Mode, h: Header, view: KV, blk: Meter, raw: Raw, given: Option<Tx>)
    requires !ReachesPastAnte(env, mode, h, view, blk, raw, given)
    ensures Trace(env, mode, h, view, blk, raw, given).stop != Completed
  {
    hide AfterAnte, View;
  }

  lemma {:induction false} LaterCompletes(env: TxEnv, mode: Mode, h: Header, view: KV, blk: Meter, tx: Tx, start: Between)
    requires mode != Finalize
    ensures AfterAnte(env, mode, h, view, blk, tx, start.meter, start.writes).stop == Completed <==>
        && !(mode == Check && env.insertFails(tx)) && !env.v2Fails(tx) && !env.dataFails(tx)
        && exists c :: EndsRight(env, mode, h, View(view, start.writes), tx, start.meter, c)
  {
    hide View, Handlers, EndsRight, ConsumeGas, GasConsumedToLimit;
    var seen := View(view, start.writes);
    HandlersStop(env, mode, h, seen, tx, start.meter);
    if mode == Simulate { SimulationHandles(env, h, seen, tx, start); } else { NoMessagesHandled(env, mode, h, seen, tx, start); }
  }

  lemma {:induction false} NoMessagesHandled(env: TxEnv, mode: Mode, h: Header, seen: KV, tx: Tx, start: Between)
    requires mode != Finalize && mode != Simulate
    ensures var d := Handlers(env, mode, h, seen, tx, start.meter);
      d.stop.None? && d.ok <==> !env.v2Fails(tx) && !env.dataFails(tx) && exists c :: EndsRight(env, mode, h, seen, tx, start.meter, c)
  {
    hide View, MsgsFrom;
    var c := [Between(start.meter, map[])];
    assert EndsRight(env, mode, h, seen, tx, start.meter, c) <==>
      (env.hasPost ==> env.post(mode, h, View(seen, map[]), start.meter, tx, true).PostOk?);
  }

  lemma {:induction false} SimulationHandles(env: TxEnv, h: Header, seen: KV, tx: Tx, start: Between)
    ensures var d := Handlers(env, Simulate, h, seen, tx, start.meter);
      d.stop.None? && d.ok <==> !env.v2Fails(tx) && !env.dataFails(tx) && exists c :: EndsRight(env, Simulate, h, seen, tx, start.meter, c)
  {
    hide View, MsgsFrom, Succeeds;
    if MsgsFrom(env, h, seen, tx, 0, start.meter, map[]).ok {
      var c := SuccessHasAChain(env, h, seen, tx, 0, Between(start.meter, map[]));
      ChainIsTheRun(env, h, seen, tx, 0, c);
      ChainIsNotEmpty(env, h, seen, tx, c);
      var d := Handlers(env, Simulate, h, seen, tx, start.meter);
      if d.stop.None? && d.ok { assert EndsRight(env, Simulate, h, seen, tx, start.meter, c); }
    }
    if c :| EndsRight(env, Simulate, h, seen, tx, start.meter, c) {
      ChainIsNotEmpty(env, h, seen, tx, c);
      ChainIsTheRun(env, h, seen, tx, 0, c);
    }
  }

  lemma {:induction false} ChainIsNotEmpty(env: TxEnv, h: Header, seen: KV, tx: Tx, c: seq<Between>)
    requires Succeeds(env, h, seen, tx, 0, c)
    ensures c != []
  {
  }

  /** A simulation leaves its branch alone; checks and proposals keep the ante writes and nothing else. */
  lemma {:induction false} OtherModesKeepNoMessageWrites(env: TxEnv, mode: Mode, h: Header, view: KV, blk: Meter, raw: Raw, given: Option<Tx>)
    requires mode != Finalize
    ensures var r := Trace(env, mode, h, view, blk, raw, given);
      && Charges(mode, r) == []
      && View(view, Kept(mode, r)) ==
           if mode != Simulate && ReachesPastAnte(env, mode, h, view, blk, raw, given)
           then View(view, AfterAccept(env, mode, h, view, Decoded(env, raw, given).value).writes) else view
  {
    ViewOfNothing(view);
    if mode != Simulate {
      KeepsAnteIffReached(env, mode, h, view, blk, raw, given);
    }
  }

  /** The last decision of a completed run is the block-gas charge, and only the gate answers "no block gas". */
  lemma {:induction false} GateOrCharge(env: TxEnv, h: Header, view: KV, blk: Meter, raw: Raw, given: Option<Tx>)
    ensures var r := Trace(env, Finalize, h, view, blk, raw, given);
      && (r.stop == NoBlockGas <==> IsOutOfGas(blk))
      && (r.stop == Completed ==> !ConsumeGas(blk, GasConsumedToLimit(r.meter)).panicked)
  {
    hide AnteStage, AfterAnte, ConsumeGas, GasConsumedToLimit;
    var tx := Decoded(env, raw, given);
    if tx.Some? {
      var a := AnteStage(env, Finalize, h, view, tx.value);
      AnteStops(env, Finalize, h, view, tx.value);
      LaterStops(env, Finalize, h, view, blk, tx.value, a.meter, a.writes);
    }
  }

  /** What a finalized run is charged that does not get past its ante handler: nothing when its bytes do not decode, it is
      invalid or has no handler, what was used when the ante handler panicked, and what the meter it installed holds, or
      else what was used, when it refused. */
  lemma {:induction false} EarlyStopsAreCharged(env: TxEnv, h: Header, view: KV, blk: Meter, raw: Raw, given: Option<Tx>)
    requires !IsOutOfGas(blk) && !ReachesPastAnte(env, Finalize, h, view, blk, raw, given)
    ensures var tx := Decoded(env, raw, given);
      Charges(Finalize, Trace(env, Finalize, h, view, blk, raw, given)) ==
        if tx.None? || !env.basicOk(tx.value) || !env.routed(tx.value) then [0]
        else
          var a := env.ante(Finalize, h, view, tx.value);
          [if a.AntePanic? || a.newMeter.None? then a.used else GasConsumedToLimit(a.newMeter.value)]
  {
    hide AfterAnte;
  }

  /** The block meter is charged exactly once by every finalized run that passes the out-of-gas gate,
      whatever happens later, and a run keeps its message writes only within the block limit. */
  lemma {:induction false} ChargedExactlyOnce(env: TxEnv, h: Header, view: KV, blk: Meter, raw: Raw, given: Option<Tx>)
    ensures var r := Trace(env, Finalize, h, view, blk, raw, given);
      && |Charges(Finalize, r)| == (if IsOutOfGas(blk) then 0 else 1)
      && (r.stop == Completed ==> |Charges(Finalize, r)| == 1)
      && (r.stop == Completed && blk.Basic? ==>
            ChargeAll(blk, Charges(Finalize, r)) == Basic(blk.limit, blk.used + Charges(Finalize, r)[0])
            && blk.used + Charges(Finalize, r)[0] <= blk.limit)
  {
    hide Trace;
    GateOrCharge(env, h, view, blk, raw, given);
    var r := Trace(env, Finalize, h, view, blk, raw, given);
    var cs := Charges(Finalize, r);
    if cs != [] {
      assert cs[1..] == [];
      assert ChargeAll(blk, cs) == ConsumeGas(blk, cs[0]).meter;
    }
  }
}
