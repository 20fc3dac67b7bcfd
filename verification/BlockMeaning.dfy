/** What a block does to a store, said over the application's own hooks and the transaction run alone. */
module BlockMeaning {
  import opened Prelude
  import opened Store
  import opened Gas
  import opened RunTx
  import opened BlockMachine
  import opened BlockSteps
  import opened BlockRuns

  /** The block gas limit in the parameter store is one a meter can be made for. */
  predicate Usable(app: Application, view: KV) { app.noBlockMeter || app.maxGas(view) >= -1 }

  /** The meter the transactions of a block start with. */
  predicate StartsWith(app: Application, view: KV, m: Meter) {
    if app.noBlockMeter then m == Noop
    else if app.maxGas(view) == -1 || app.maxGas(view) == 0 then m == Infinite(0)
    else app.maxGas(view) > 0 && m == Basic(app.maxGas(view), 0)
  }

  /** One raw transaction takes the store from `v` to `w` and the block meter from `m` to `n`: its run in finalize
      mode under the block's header, whatever it answers, or nothing when the bytes do not decode. */
  predicate Delivers(app: Application, req: Req, raw: Raw, v: KV, m: Meter, w: KV, n: Meter) {
    if app.tx.decode(raw).None? then w == v && n == m
    else
      var r := Trace(app.tx, Finalize, Header(req.height, req.time, req.hash), v, m, raw, None);
      w == View(v, Kept(Finalize, r)) && n == ChargeAll(m, Charges(Finalize, r))
  }

  /** The stores and meters between the transactions: `vs[0]` is what beginBlock left. */
  ghost predicate Between(app: Application, req: Req, from: nat, vs: seq<KV>, ms: seq<Meter>) {
    && from <= |req.txs| && |vs| == |ms| == |req.txs| - from + 1
    && forall i :: 0 <= i < |req.txs| - from ==> Delivers(app, req, req.txs[from + i], vs[i], ms[i], vs[i + 1], ms[i + 1])
  }

  /** The hooks before the transactions leave `start`: the pre-block hook on the base, with a usable meter before it
      and, if it changed the parameters, after it; then the begin hook on what that left, with a usable meter then. */
  predicate Starts(app: Application, req: Req, base: KV, start: KV) {
    var pre := app.pre(req, base);
    && Usable(app, base) && pre.HookDone?
    && (pre.paramsChanged ==> Usable(app, View(base, pre.writes)))
    && var begin := app.begin(req, View(base, pre.writes));
    && begin.HookDone? && start == View(View(base, pre.writes), begin.writes) && Usable(app, start)
  }

  /** The block `req` on a store `base` ends in `v` by way of `vs` and `ms`: the two hooks, every transaction in
      order, and the end hook on what those left. */
  ghost predicate Executes(app: Application, req: Req, base: KV, vs: seq<KV>, ms: seq<Meter>, v: KV) {
    && Between(app, req, 0, vs, ms) && Starts(app, req, base, vs[0]) && StartsWith(app, vs[0], ms[0])
    && var end := app.end(req, vs[|req.txs|]);
    && end.HookDone? && v == View(vs[|req.txs|], end.writes)
  }

  /** The transactions from `from` on and the end hook. */
  lemma {:induction false} RestExecutes(app: Application, req: Req, from: nat, view: KV, meter: Meter)
      returns (vs: seq<KV>, ms: seq<Meter>)
    requires from <= |req.txs|
    ensures Between(app, req, from, vs, ms) && vs[0] == view && ms[0] == meter
    ensures var end := app.end(req, vs[|req.txs| - from]);
      BlockFrom(Machine(app), req, from + 2, view, meter) ==
        if end.HookFails? then None else Some(View(vs[|req.txs| - from], end.writes))
    decreases |req.txs| - from
  {
    hide View, Trace, Machine, Delivers, BlockFrom;
    var e := Machine(app).phase(req, from + 2, view, meter);
    if from == |req.txs| {
      vs, ms := [view], [meter];
      LastStep(app, req, view, meter);
    } else {
      DeliverStep(app, req, from, view, meter);
      var rest, left := RestExecutes(app, req, from + 1, View(view, e.writes), e.meter);
      vs, ms := [view] + rest, [meter] + left;
      forall i | 0 <= i < |req.txs| - from
        ensures Delivers(app, req, req.txs[from + i], vs[i], ms[i], vs[i + 1], ms[i + 1])
      {
        if i > 0 { assert Delivers(app, req, req.txs[from + 1 + (i - 1)], rest[i - 1], left[i - 1], rest[i], left[i]); }
      }
    }
  }

  lemma {:induction false} DeliverStep(app: Application, req: Req, i: nat, view: KV, meter: Meter)
    requires i < |req.txs|
    ensures var e := Machine(app).phase(req, i + 2, view, meter);
      && e.Does? && Delivers(app, req, req.txs[i], view, meter, View(view, e.writes), e.meter)
      && BlockFrom(Machine(app), req, i + 2, view, meter) == BlockFrom(Machine(app), req, i + 3, View(view, e.writes), e.meter)
  {
    hide View, Trace;
    ViewOfNothing(view);
  }

  lemma {:induction false} LastStep(app: Application, req: Req, view: KV, meter: Meter)
    ensures var end := app.end(req, view);
      BlockFrom(Machine(app), req, |req.txs| + 2, view, meter) == if end.HookFails? then None else Some(View(view, end.writes))
  {
    hide View;
    var e := Machine(app).phase(req, |req.txs| + 2, view, meter);
    if e.Does? { assert BlockFrom(Machine(app), req, |req.txs| + 3, View(view, e.writes), e.meter) == Some(View(view, e.writes)); }
  }

  /** There is one way from a given store and meter through the transactions. */
  lemma {:induction false} OneWay(app: Application, req: Req, from: nat, vs: seq<KV>, ms: seq<Meter>, ws: seq<KV>, ns: seq<Meter>)
    requires Between(app, req, from, vs, ms) && Between(app, req, from, ws, ns) && vs[0] == ws[0] && ms[0] == ns[0]
    ensures vs == ws && ms == ns
  {
    hide Delivers;
    var k := 0;
    while k < |req.txs| - from
      invariant k <= |req.txs| - from && vs[..k + 1] == ws[..k + 1] && ms[..k + 1] == ns[..k + 1]
    {
      Delivered(app, req, req.txs[from + k], vs[k], ms[k], vs[k + 1], ms[k + 1], ws[k + 1], ns[k + 1]);
      k := k + 1;
    }
  }

  lemma {:induction false} Delivered(app: Application, req: Req, raw: Raw, v: KV, m: Meter, w: KV, n: Meter, w': KV, n': Meter)
    requires Delivers(app, req, raw, v, m, w, n) && Delivers(app, req, raw, v, m, w', n')
    ensures w == w' && n == n'
  {
  }

  /** The first two steps of a block are those hooks. */
  lemma {:induction false} StartExecutes(app: Application, req: Req, base: KV) returns (start: Option<KV>, m: Meter)
    ensures start.Some? ==>
      && Starts(app, req, base, start.value) && StartsWith(app, start.value, m)
      && ApplyBlock(Machine(app), base, req) == BlockFrom(Machine(app), req, 2, start.value, m)
    ensures start.None? ==> ApplyBlock(Machine(app), base, req) == None && forall s :: !Starts(app, req, base, s)
  {
    hide View;
    var env := Machine(app);
    var e := env.phase(req, 0, base, Infinite(0));
    start, m := None, Infinite(0);
    if e.Does? {
      var afterPre := View(base, e.writes);
      var f := env.phase(req, 1, afterPre, e.meter);
      assert ApplyBlock(env, base, req) == BlockFrom(env, req, 1, afterPre, e.meter);
      if f.Does? {
        start, m := Some(View(afterPre, f.writes)), f.meter;
        assert BlockFrom(env, req, 1, afterPre, e.meter) == BlockFrom(env, req, 2, start.value, m);
      }
    }
  }

  lemma {:induction false} OneStart(app: Application, req: Req, base: KV, s: KV, m: Meter, t: KV, n: Meter)
    requires Starts(app, req, base, s) && Starts(app, req, base, t) && StartsWith(app, s, m) && StartsWith(app, t, n)
    ensures s == t && m == n
  {
    hide View;
  }

  /** The meaning of a block: it applies to a store, with a given result, exactly when every hook and transaction
      goes through in its place and leaves that result. */
  lemma {:induction false} ABlockIsItsHooksAndTransactions(app: Application, req: Req, base: KV, v: KV)
    ensures ApplyBlock(Machine(app), base, req) == Some(v) <==> exists vs, ms :: Executes(app, req, base, vs, ms, v)
  {
    hide View, ApplyBlock, BlockFrom, Machine, Delivers, Starts, StartsWith;
    var start, m := StartExecutes(app, req, base);
    if start.Some? {
      var vs, ms := RestExecutes(app, req, 0, start.value, m);
      if ApplyBlock(Machine(app), base, req) == Some(v) { assert Executes(app, req, base, vs, ms, v); }
      if ws, ns :| Executes(app, req, base, ws, ns, v) {
        OneStart(app, req, base, vs[0], ms[0], ws[0], ns[0]);
        OneWay(app, req, 0, vs, ms, ws, ns);
      }
    }
  }

  /** So FinalizeBlock, executing a block itself on a branch nothing was run on, answers exactly when the block is
      admissible and so executes, and then its working copy is the result. */
  lemma {:induction false} ExecutionIsItsHooksAndTransactions(app: Application, s: App, req: Req)
    requires s.finalize.None? && s.alive
    ensures var t := InternalFinalizeBlock(Machine(app), s, req);
      && (t.alive <==> !app.halts(req.height, req.time) && req.height >= 1 && req.height == ExpectedHeight(s)
                       && exists v, vs, ms :: Executes(app, req, s.working, vs, ms, v))
      && (t.alive ==> exists vs, ms :: Executes(app, req, s.working, vs, ms, t.working))
  {
    hide View, Machine, PhasesFrom, ApplyBlock, BlockFrom, Executes, OnTrack, WriteToRoot;
    WrittenWorking(s.(finalize := Some(PhasesFrom(Machine(app), req, 0, s.working, FRESH).fs)));
    ViewOfNothing(s.working);
    StartsOnTrack(Machine(app), s.working, s.working, req, FRESH);
    PhasesFromIsBlock(Machine(app), s.working, s.working, req, 0, FRESH);
    var t := InternalFinalizeBlock(Machine(app), s, req);
    MachineHalts(app);
    if ApplyBlock(Machine(app), s.working, req).Some? {
      ABlockIsItsHooksAndTransactions(app, req, s.working, ApplyBlock(Machine(app), s.working, req).value);
    }
    if v, vs, ms :| Executes(app, req, s.working, vs, ms, v) { ABlockIsItsHooksAndTransactions(app, req, s.working, v); }
  }

  lemma {:induction false} WrittenWorking(s: App)
    requires s.finalize.Some?
    ensures WriteToRoot(s).working == View(s.working, s.finalize.value.writes) && WriteToRoot(s).alive == s.alive
  {
  }

  lemma {:induction false} MachineHalts(app: Application)
    ensures Machine(app).halts == app.halts
  {
  }
}
