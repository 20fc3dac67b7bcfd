/** Agreement where verification is a run of `runTx` on the proposal's own branch: `PrepareProposalVerifyTx`
    and `ProcessProposalVerifyTx`. */
module AgreementRuns {
  import opened Prelude
  import opened Store
  import opened Gas
  import Selection
  import Agreement
  import StatefulAgreement
  import RunTx
  import RunTxLaws

  type MemTx = Selection.MemTx

  /** One verification: the branch keeps what the run keeps, and the answer is whether the run completed. */
  function Verify(env: RunTx.TxEnv, mode: RunTx.Mode, h: RunTx.Header, blk: Meter, view: KV, tx: MemTx): Selection.Verdict<KV> {
    var decoded := env.decode(tx.bytes);
    if decoded.None? then Selection.Verdict(view, false)
    else
      var r := RunTx.Trace(env, mode, h, view, blk, tx.bytes, decoded);
      Selection.Verdict(View(view, RunTx.Kept(mode, r)), r.stop == RunTx.Completed)
  }

  function Verifier(env: RunTx.TxEnv, mode: RunTx.Mode, h: RunTx.Header, blk: Meter): (KV, MemTx) -> Selection.Verdict<KV> {
    (view: KV, tx: MemTx) => Verify(env, mode, h, blk, view, tx)
  }

  /** The transaction decodes and its run gets past an accepting ante handler. */
  predicate PastAnte(env: RunTx.TxEnv, mode: RunTx.Mode, h: RunTx.Header, view: KV, tx: MemTx) {
    env.decode(tx.bytes).Some? && RunTxLaws.AnteAccepts(env, mode, h, view, env.decode(tx.bytes).value)
  }

  /** What is asked of the application: what its ante handler accepts passes replay protection and moves the
      accounts in the store as that says. What else it refuses, and why, is its own affair. */
  ghost predicate ProtectsReplay(env: RunTx.TxEnv, mode: RunTx.Mode, h: RunTx.Header, abs: KV -> Agreement.Accounts, pool: seq<MemTx>) {
    forall view: KV, tx: MemTx {:trigger PastAnte(env, mode, h, view, tx)} :: tx in pool ==>
      (PastAnte(env, mode, h, view, tx) ==>
         && Agreement.AnteAccepts(abs(view), tx)
         && abs(View(view, RunTxLaws.AfterAccept(env, mode, h, view, env.decode(tx.bytes).value).writes))
              == Agreement.Ante(abs(view), tx).state)
  }

  /** What a run can still fail at past the ante handler when it checks a proposal: reading the messages,
      marshalling the (empty) responses, and the post handler. */
  predicate FailsLate(env: RunTx.TxEnv, mode: RunTx.Mode, h: RunTx.Header, view: KV, tx: RunTx.Tx)
    requires RunTxLaws.AnteAccepts(env, mode, h, view, tx)
  {
    var start := RunTxLaws.AfterAccept(env, mode, h, view, tx);
    var answered := !env.v2Fails(tx) && !env.dataFails(tx);
    || !answered
    || (env.hasPost && !env.post(mode, h, View(view, start.writes), start.meter, tx, answered).PostOk?)
  }

  predicate ChecksProposals(mode: RunTx.Mode) { mode == RunTx.PrepareProposal || mode == RunTx.ProcessProposal }

  /** Past the ante handler, by where the run stops. */
  lemma {:induction false} LateExactly(env: RunTx.TxEnv, mode: RunTx.Mode, h: RunTx.Header, blk: Meter, view: KV, raw: RunTx.Raw, tx: RunTx.Tx)
    requires ChecksProposals(mode) && RunTxLaws.AnteAccepts(env, mode, h, view, tx)
    ensures RunTx.Trace(env, mode, h, view, blk, raw, Some(tx)).stop == RunTx.Completed <==> !FailsLate(env, mode, h, view, tx)
  {
    hide RunTx.AfterAnte, FailsLate, ConsumeGas;
    var start := RunTxLaws.AfterAccept(env, mode, h, view, tx);
    assert RunTx.Trace(env, mode, h, view, blk, raw, Some(tx)) == RunTx.AfterAnte(env, mode, h, view, blk, tx, start.meter, start.writes);
    AfterAnteLate(env, mode, h, blk, view, tx, start);
    FailsLateIs(env, mode, h, view, tx);
  }

  lemma {:induction false} FailsLateIs(env: RunTx.TxEnv, mode: RunTx.Mode, h: RunTx.Header, view: KV, tx: RunTx.Tx)
    requires RunTxLaws.AnteAccepts(env, mode, h, view, tx)
    ensures var start := RunTxLaws.AfterAccept(env, mode, h, view, tx);
      FailsLate(env, mode, h, view, tx) <==>
        env.v2Fails(tx) || env.dataFails(tx) || (env.hasPost && !env.post(mode, h, View(view, start.writes), start.meter, tx, true).PostOk?)
  {
    hide RunTxLaws.AnteAccepts, RunTxLaws.AfterAccept, View;
  }

  lemma {:induction false} AfterAnteLate(env: RunTx.TxEnv, mode: RunTx.Mode, h: RunTx.Header, blk: Meter, view: KV, tx: RunTx.Tx, start: RunTxLaws.Between)
    requires ChecksProposals(mode)
    ensures RunTx.AfterAnte(env, mode, h, view, blk, tx, start.meter, start.writes).stop == RunTx.Completed <==>
        !env.v2Fails(tx) && !env.dataFails(tx) && (env.hasPost ==> env.post(mode, h, View(view, start.writes), start.meter, tx, true).PostOk?)
  {
    hide View, GasConsumedToLimit, ConsumeGas, RunTx.MsgsFrom;
    ViewOfNothing(View(view, start.writes));
  }

  /** The verdict on a proposal's transaction, exactly. */
  lemma {:induction false} VerifiedExactly(env: RunTx.TxEnv, mode: RunTx.Mode, h: RunTx.Header, blk: Meter, view: KV, tx: MemTx)
    requires ChecksProposals(mode)
    ensures Verify(env, mode, h, blk, view, tx).ok <==>
      PastAnte(env, mode, h, view, tx) && !FailsLate(env, mode, h, view, env.decode(tx.bytes).value)
    ensures Verify(env, mode, h, blk, view, tx).state ==
      if PastAnte(env, mode, h, view, tx) then View(view, RunTxLaws.AfterAccept(env, mode, h, view, env.decode(tx.bytes).value).writes)
      else view
  {
    if env.decode(tx.bytes).Some? {
      if PastAnte(env, mode, h, view, tx) { LateExactly(env, mode, h, blk, view, tx.bytes, env.decode(tx.bytes).value); }
      RunTxLaws.OtherModesKeepNoMessageWrites(env, mode, h, view, blk, tx.bytes, env.decode(tx.bytes));
      RunTxLaws.KeepsAnteIffReached(env, mode, h, view, blk, tx.bytes, env.decode(tx.bytes));
    }
  }

  lemma {:induction false} VerifierMovesLikeAnte(env: RunTx.TxEnv, mode: RunTx.Mode, h: RunTx.Header, blk: Meter, abs: KV -> Agreement.Accounts, pool: seq<MemTx>)
    requires ChecksProposals(mode) && ProtectsReplay(env, mode, h, abs, pool)
    ensures Agreement.MovesLikeAnte(Verifier(env, mode, h, blk), abs, pool)
  {
    hide Verify, PastAnte, FailsLate, View, Agreement.Ante, Agreement.AnteAccepts;
    var verify := Verifier(env, mode, h, blk);
    forall view: KV, tx: MemTx | tx in pool
      ensures verify(view, tx).ok ==> Agreement.AnteAccepts(abs(view), tx)
      ensures abs(verify(view, tx).state) == Agreement.Ante(abs(view), tx).state || (!verify(view, tx).ok && abs(verify(view, tx).state) == abs(view))
    {
      VerifiedExactly(env, mode, h, blk, view, tx);
    }
  }

  /** Agreement over real runs, exactly: Process accepts the list Prepare returns if and only if every signer's
      first selected transaction carries the committed sequence and no run of Process is refused that replay
      protection accepts, be it for what the store holds or past the ante handler. */
  lemma {:induction false} RunsAgreeExactly(env: RunTx.TxEnv, prepare: RunTx.Header, process: RunTx.Header, blk: Meter, abs: KV -> Agreement.Accounts,
                                            committed: KV, maxTxBytes: Selection.Uint64, g: int, pool: seq<MemTx>)
    requires g < Selection.TWO64
    requires ProtectsReplay(env, RunTx.PrepareProposal, prepare, abs, pool) && ProtectsReplay(env, RunTx.ProcessProposal, process, abs, pool)
    ensures var preparing, processing := Verifier(env, RunTx.PrepareProposal, prepare, blk), Verifier(env, RunTx.ProcessProposal, process, blk);
      var txs := Selection.Final(committed, Selection.Limits(maxTxBytes, Agreement.PrepareGasLimit(g)), preparing, pool).sel.selected;
      Agreement.Process(processing, committed, txs, g).Some? <==>
        Agreement.StartsCommitted(abs(committed), txs) && Agreement.NothingElseRefused(processing, abs, committed, txs)
  {
    hide Verifier, ProtectsReplay, Agreement.MovesLikeAnte;
    VerifierMovesLikeAnte(env, RunTx.PrepareProposal, prepare, blk, abs, pool);
    VerifierMovesLikeAnte(env, RunTx.ProcessProposal, process, blk, abs, pool);
    Agreement.AgreementExactly(Verifier(env, RunTx.PrepareProposal, prepare, blk), Verifier(env, RunTx.ProcessProposal, process, blk),
                               abs, committed, maxTxBytes, g, pool);
  }

  /** An application in which nothing can fail past the ante handler while a proposal is checked. */
  ghost predicate NeverLate(env: RunTx.TxEnv, mode: RunTx.Mode, h: RunTx.Header, pool: seq<MemTx>) {
    forall view: KV, tx: MemTx {:trigger PastAnte(env, mode, h, view, tx)} :: tx in pool ==>
      (PastAnte(env, mode, h, view, tx) ==> !FailsLate(env, mode, h, view, env.decode(tx.bytes).value))
  }

  /** A proposal's transaction is then accepted exactly when the ante handler accepts, and a refusal keeps nothing. */
  lemma {:induction false} NeverLateVerdict(env: RunTx.TxEnv, mode: RunTx.Mode, h: RunTx.Header, blk: Meter, view: KV, tx: MemTx, pool: seq<MemTx>)
    requires tx in pool && ChecksProposals(mode) && NeverLate(env, mode, h, pool)
    ensures Verifier(env, mode, h, blk)(view, tx) ==
      if PastAnte(env, mode, h, view, tx)
      then Selection.Verdict(View(view, RunTxLaws.AfterAccept(env, mode, h, view, env.decode(tx.bytes).value).writes), true)
      else Selection.Verdict(view, false)
  {
    hide Verify, PastAnte, FailsLate, View;
    VerifiedExactly(env, mode, h, blk, view, tx);
  }

  /** So Prepare's refusals leave no trace. */
  lemma {:induction false} NeverLateIsClean(env: RunTx.TxEnv, h: RunTx.Header, blk: Meter, abs: KV -> Agreement.Accounts, v: KV, lim: Selection.Limits, pool: seq<MemTx>)
    requires NeverLate(env, RunTx.PrepareProposal, h, pool)
    ensures Agreement.PreparedCleanly(Verifier(env, RunTx.PrepareProposal, h, blk), abs, v, lim, pool, |pool|)
  {
    hide Verifier, NeverLate, PastAnte, View, Selection.After, Agreement.Passes;
    var verify := Verifier(env, RunTx.PrepareProposal, h, blk);
    forall j | 0 <= j < |pool|
      ensures var s := Selection.After(v, lim, verify, pool, j); verify(s.verifier, pool[j]).ok || Agreement.Traceless(s, verify, abs, pool[j])
    {
      NeverLateVerdict(env, RunTx.PrepareProposal, h, blk, Selection.After(v, lim, verify, pool, j).verifier, pool[j], pool);
    }
  }

  /** An ante handler that refuses nothing but replays. */
  ghost predicate RefusesReplaysOnly(env: RunTx.TxEnv, mode: RunTx.Mode, h: RunTx.Header, abs: KV -> Agreement.Accounts, pool: seq<MemTx>) {
    forall view: KV, tx: MemTx {:trigger PastAnte(env, mode, h, view, tx)} :: tx in pool ==>
      (Agreement.AnteAccepts(abs(view), tx) ==> PastAnte(env, mode, h, view, tx))
  }

  lemma {:induction false} NothingElseAlong(env: RunTx.TxEnv, h: RunTx.Header, blk: Meter, abs: KV -> Agreement.Accounts, view: KV, txs: seq<MemTx>, pool: seq<MemTx>)
    requires Agreement.AllIn(txs, pool) && NeverLate(env, RunTx.ProcessProposal, h, pool)
    requires RefusesReplaysOnly(env, RunTx.ProcessProposal, h, abs, pool)
    ensures Agreement.NothingElseRefused(Verifier(env, RunTx.ProcessProposal, h, blk), abs, view, txs)
  {
    hide Verifier, NeverLate, PastAnte, View, Agreement.AnteAccepts;
    if txs != [] {
      var front, tx := txs[..|txs| - 1], txs[|txs| - 1];
      assert tx in pool;
      NothingElseAlong(env, h, blk, abs, view, front, pool);
      var state := Agreement.Rerun(Verifier(env, RunTx.ProcessProposal, h, blk), view, front);
      NeverLateVerdict(env, RunTx.ProcessProposal, h, blk, state, tx, pool);
      assert Agreement.AnteAccepts(abs(state), tx) ==> PastAnte(env, RunTx.ProcessProposal, h, state, tx);
    }
  }

  /** Where nothing fails past the ante handler and Process refuses nothing but replays, what one validator
      proposes every validator accepts, whatever the mempool holds and whatever else Prepare refuses. */
  lemma {:induction false} RunsAgree(env: RunTx.TxEnv, prepare: RunTx.Header, process: RunTx.Header, blk: Meter, abs: KV -> Agreement.Accounts,
                                     committed: KV, maxTxBytes: Selection.Uint64, g: int, pool: seq<MemTx>)
    requires g < Selection.TWO64
    requires ProtectsReplay(env, RunTx.PrepareProposal, prepare, abs, pool) && ProtectsReplay(env, RunTx.ProcessProposal, process, abs, pool)
    requires NeverLate(env, RunTx.PrepareProposal, prepare, pool) && NeverLate(env, RunTx.ProcessProposal, process, pool)
    requires RefusesReplaysOnly(env, RunTx.ProcessProposal, process, abs, pool)
    ensures var preparing, processing := Verifier(env, RunTx.PrepareProposal, prepare, blk), Verifier(env, RunTx.ProcessProposal, process, blk);
      var txs := Selection.Final(committed, Selection.Limits(maxTxBytes, Agreement.PrepareGasLimit(g)), preparing, pool).sel.selected;
      Agreement.Process(processing, committed, txs, g).Some?
  {
    hide Verifier, ProtectsReplay, NeverLate, RefusesReplaysOnly, Agreement.MovesLikeAnte, Agreement.NothingElseRefused, Agreement.Process,
         Agreement.PreparedCleanly, Selection.After;
    var preparing, processing := Verifier(env, RunTx.PrepareProposal, prepare, blk), Verifier(env, RunTx.ProcessProposal, process, blk);
    var lim := Selection.Limits(maxTxBytes, Agreement.PrepareGasLimit(g));
    VerifierMovesLikeAnte(env, RunTx.PrepareProposal, prepare, blk, abs, pool);
    VerifierMovesLikeAnte(env, RunTx.ProcessProposal, process, blk, abs, pool);
    NeverLateIsClean(env, prepare, blk, abs, committed, lim, pool);
    Agreement.SelectedIsFromPool(committed, lim, preparing, pool);
    NothingElseAlong(env, process, blk, abs, committed, Selection.Final(committed, lim, preparing, pool).sel.selected, pool);
    Agreement.ProcessAcceptsWhatPrepareReturns(preparing, processing, abs, committed, maxTxBytes, g, pool);
  }

  // ---------- fees ----------

  type Funded = StatefulAgreement.Funded
  type Fees = StatefulAgreement.Fees

  /** The ante handler checks replays and deducts a fee, on the accounts and balances in the store. */
  ghost predicate ChargesFees(env: RunTx.TxEnv, mode: RunTx.Mode, h: RunTx.Header, funded: KV -> Funded, fees: Fees, pool: seq<MemTx>) {
    forall view: KV, tx: MemTx {:trigger PastAnte(env, mode, h, view, tx)} :: tx in pool ==>
      && (PastAnte(env, mode, h, view, tx) <==> StatefulAgreement.Affords(fees, funded(view), tx))
      && (PastAnte(env, mode, h, view, tx) ==>
            funded(View(view, RunTxLaws.AfterAccept(env, mode, h, view, env.decode(tx.bytes).value).writes))
              == StatefulAgreement.Charged(fees, funded(view), tx))
  }

  /** Such a run answers and leaves what the fee-charging ante handler does. */
  lemma {:induction false} FeeVerdict(env: RunTx.TxEnv, mode: RunTx.Mode, h: RunTx.Header, blk: Meter, funded: KV -> Funded, fees: Fees,
                                      view: KV, tx: MemTx, pool: seq<MemTx>)
    requires tx in pool && ChecksProposals(mode) && NeverLate(env, mode, h, pool) && ChargesFees(env, mode, h, funded, fees, pool)
    ensures var (r, s) := (Verifier(env, mode, h, blk)(view, tx), StatefulAgreement.FeeAnte(fees)(funded(view), tx));
      r.ok == s.ok && funded(r.state) == s.state && (!r.ok ==> r.state == view)
  {
    hide Verifier, NeverLate, PastAnte, View, StatefulAgreement.Affords, StatefulAgreement.Charged;
    NeverLateVerdict(env, mode, h, blk, view, tx, pool);
  }

  lemma {:induction false} FeeVerifierMoves(env: RunTx.TxEnv, mode: RunTx.Mode, h: RunTx.Header, blk: Meter, funded: KV -> Funded, fees: Fees, pool: seq<MemTx>)
    requires ChecksProposals(mode) && NeverLate(env, mode, h, pool) && ChargesFees(env, mode, h, funded, fees, pool)
    ensures Agreement.MovesLikeAnte(Verifier(env, mode, h, blk), view => funded(view).accounts, pool)
  {
    hide Verifier, NeverLate, ChargesFees, Agreement.Ante, Agreement.AnteAccepts;
    var verify := Verifier(env, mode, h, blk);
    forall view: KV, tx: MemTx | tx in pool
      ensures verify(view, tx).ok ==> Agreement.AnteAccepts(funded(view).accounts, tx)
      ensures funded(verify(view, tx).state).accounts == Agreement.Ante(funded(view).accounts, tx).state
        || (!verify(view, tx).ok && funded(verify(view, tx).state).accounts == funded(view).accounts)
    {
      FeeVerdict(env, mode, h, blk, funded, fees, view, tx, pool);
    }
  }

  lemma {:induction false} FeeRunsSimulate(env: RunTx.TxEnv, prepare: RunTx.Header, process: RunTx.Header, blk: Meter, funded: KV -> Funded, fees: Fees, pool: seq<MemTx>)
    requires ChargesFees(env, RunTx.PrepareProposal, prepare, funded, fees, pool) && NeverLate(env, RunTx.PrepareProposal, prepare, pool)
    requires ChargesFees(env, RunTx.ProcessProposal, process, funded, fees, pool) && NeverLate(env, RunTx.ProcessProposal, process, pool)
    ensures StatefulAgreement.Simulates(
      Verifier(env, RunTx.PrepareProposal, prepare, blk), Verifier(env, RunTx.ProcessProposal, process, blk), view => funded(view).accounts,
      (p, q) => StatefulAgreement.Richer(funded(p), funded(q)), pool)
  {
    hide Verifier, NeverLate, ChargesFees, Agreement.AnteAccepts, StatefulAgreement.Richer, StatefulAgreement.Charged, StatefulAgreement.Affords;
    var preparing, processing := Verifier(env, RunTx.PrepareProposal, prepare, blk), Verifier(env, RunTx.ProcessProposal, process, blk);
    forall p, q, tx | tx in pool && StatefulAgreement.Richer(funded(p), funded(q)) && preparing(p, tx).ok && Agreement.AnteAccepts(funded(q).accounts, tx)
      ensures processing(q, tx).ok && StatefulAgreement.Richer(funded(preparing(p, tx).state), funded(processing(q, tx).state))
    {
      FeeVerdict(env, RunTx.PrepareProposal, prepare, blk, funded, fees, p, tx, pool);
      FeeVerdict(env, RunTx.ProcessProposal, process, blk, funded, fees, q, tx, pool);
      StatefulAgreement.RicherAffords(fees, funded(p), funded(q), tx);
      StatefulAgreement.BothCharged(fees, funded(p), funded(q), tx);
    }
  }

  /** No transaction leaves anybody more than before. */
  lemma {:induction false} FeeRunsOnlyFall(env: RunTx.TxEnv, h: RunTx.Header, blk: Meter, funded: KV -> Funded, fees: Fees, pool: seq<MemTx>)
    requires ChargesFees(env, RunTx.PrepareProposal, h, funded, fees, pool) && NeverLate(env, RunTx.PrepareProposal, h, pool)
    ensures StatefulAgreement.NeverSpoils(Verifier(env, RunTx.PrepareProposal, h, blk), (p, q) => StatefulAgreement.Richer(funded(p), funded(q)), pool)
  {
    hide Verifier, NeverLate, ChargesFees, StatefulAgreement.Richer, StatefulAgreement.Charged, StatefulAgreement.Affords;
    var verify := Verifier(env, RunTx.PrepareProposal, h, blk);
    forall p, q, tx | tx in pool && StatefulAgreement.Richer(funded(p), funded(q))
      ensures StatefulAgreement.Richer(funded(verify(p, tx).state), funded(q))
    {
      FeeVerdict(env, RunTx.PrepareProposal, h, blk, funded, fees, p, tx, pool);
      StatefulAgreement.BothCharged(fees, funded(p), funded(q), tx);
    }
  }

  /** The same for an ante handler that also refuses whoever cannot pay, and charges everybody else: what one
      validator proposes every validator accepts. */
  lemma {:induction false} RunsWithFeesAgree(env: RunTx.TxEnv, prepare: RunTx.Header, process: RunTx.Header, blk: Meter, funded: KV -> Funded, fees: Fees,
                                             committed: KV, maxTxBytes: Selection.Uint64, g: int, pool: seq<MemTx>)
    requires g < Selection.TWO64
    requires ChargesFees(env, RunTx.PrepareProposal, prepare, funded, fees, pool) && NeverLate(env, RunTx.PrepareProposal, prepare, pool)
    requires ChargesFees(env, RunTx.ProcessProposal, process, funded, fees, pool) && NeverLate(env, RunTx.ProcessProposal, process, pool)
    ensures var preparing, processing := Verifier(env, RunTx.PrepareProposal, prepare, blk), Verifier(env, RunTx.ProcessProposal, process, blk);
      var txs := Selection.Final(committed, Selection.Limits(maxTxBytes, Agreement.PrepareGasLimit(g)), preparing, pool).sel.selected;
      Agreement.Process(processing, committed, txs, g).Some?
  {
    hide Verifier, NeverLate, ChargesFees, Agreement.MovesLikeAnte, Agreement.Process, Agreement.PreparedCleanly, Agreement.StartsCommitted,
         Selection.After, StatefulAgreement.Simulates, StatefulAgreement.NeverSpoils, StatefulAgreement.DroppedKeep;
    var preparing, processing := Verifier(env, RunTx.PrepareProposal, prepare, blk), Verifier(env, RunTx.ProcessProposal, process, blk);
    var lim := Selection.Limits(maxTxBytes, Agreement.PrepareGasLimit(g));
    var abs: KV -> Agreement.Accounts := view => funded(view).accounts;
    FeeVerifierMoves(env, RunTx.PrepareProposal, prepare, blk, funded, fees, pool);
    FeeVerifierMoves(env, RunTx.ProcessProposal, process, blk, funded, fees, pool);
    FeeRunsSimulate(env, prepare, process, blk, funded, fees, pool);
    FeeRunsOnlyFall(env, prepare, blk, funded, fees, pool);
    StatefulAgreement.NeverSpoilsKeeps(preparing, (p, q) => StatefulAgreement.Richer(funded(p), funded(q)), committed, lim, pool);
    NeverLateIsClean(env, prepare, blk, abs, committed, lim, pool);
    assert StatefulAgreement.Richer(funded(committed), funded(committed));
    StatefulAgreement.CoveredRefusalsAgree(preparing, processing, abs, (p, q) => StatefulAgreement.Richer(funded(p), funded(q)), committed, maxTxBytes, g, pool);
    Agreement.CleanPreparesStartCommitted(preparing, abs, committed, lim, pool, |pool|);
  }

  // ---------- an application whose post handler refuses the transaction "0" ----------

  /** The only account keeps its sequence as the length of the value under its name. */
  function InUnary(view: KV): Agreement.Accounts {
    Agreement.Accounts(map["s" := if "s" in view then |view["s"]| % Selection.TWO64 else 0], {})
  }

  function Longer(view: KV): Value { (if "s" in view then view["s"] else "") + "|" }

  function Toy(): RunTx.TxEnv {
    RunTx.TxEnv(
      raw => Some(RunTx.Tx(raw, ["m"])), tx => true, tx => true,
      true,
      (mode: RunTx.Mode, h: RunTx.Header, view: KV, tx: RunTx.Tx) =>
        RunTx.AnteReturn(0, None, map["s" := Put(Longer(view))],
                         !Agreement.AnteAccepts(InUnary(view), Agreement.Numbered(tx.raw, if tx.raw == "0" then 0 else 1))),
      tx => false, tx => false, tx => false,
      (h, view, meter, msg) => RunTx.MsgOk(meter, map[]),
      tx => false,
      true,
      (mode: RunTx.Mode, h: RunTx.Header, view: KV, meter: Meter, tx: RunTx.Tx, ok: bool) => if tx.raw == "0" then RunTx.PostFail(meter) else RunTx.PostOk(meter, map[]))
  }

  const TOY_POOL: seq<MemTx> := [Agreement.Numbered("0", 0), Agreement.Numbered("1", 1)]

  lemma {:induction false} UnaryMoves(view: KV, w: Writes, tx: MemTx)
    requires tx in TOY_POOL && w == map["s" := Put(Longer(view))] && Agreement.AnteAccepts(InUnary(view), tx)
    ensures InUnary(View(view, w)) == Agreement.Ante(InUnary(view), tx).state
  {
    var n: nat := if "s" in view then |view["s"]| else 0;
    assert View(view, w)["s"] == Longer(view);
    assert |Longer(view)| == n + 1;
    assert Agreement.SignersOf(tx) == {"s"};
    assert InUnary(view).sequences.Keys + {"s"} == {"s"};
    assert Agreement.SequenceOf(InUnary(view), "s") == n % Selection.TWO64;
    assert (n + 1) % Selection.TWO64 == Selection.Add64(n % Selection.TWO64, 1);
  }

  /** Its ante handler does what replay protection says, no more and no less. */
  lemma {:induction false} ToyAnte(mode: RunTx.Mode, h: RunTx.Header, view: KV, tx: MemTx)
    requires tx in TOY_POOL
    ensures PastAnte(Toy(), mode, h, view, tx) <==> Agreement.AnteAccepts(InUnary(view), tx)
    ensures PastAnte(Toy(), mode, h, view, tx) ==>
      InUnary(View(view, RunTxLaws.AfterAccept(Toy(), mode, h, view, Toy().decode(tx.bytes).value).writes)) == Agreement.Ante(InUnary(view), tx).state
  {
    hide Agreement.AnteAccepts, Agreement.Ante, Longer, View, InUnary;
    if Agreement.AnteAccepts(InUnary(view), tx) { UnaryMoves(view, map["s" := Put(Longer(view))], tx); }
  }

  lemma {:induction false} ToyProtectsReplay(mode: RunTx.Mode, h: RunTx.Header)
    ensures ProtectsReplay(Toy(), mode, h, InUnary, TOY_POOL)
  {
    hide Agreement.AnteAccepts, Agreement.Ante, View, InUnary, Toy;
    forall view: KV, tx: MemTx | tx in TOY_POOL && PastAnte(Toy(), mode, h, view, tx)
      ensures Agreement.AnteAccepts(InUnary(view), tx)
      ensures InUnary(View(view, RunTxLaws.AfterAccept(Toy(), mode, h, view, Toy().decode(tx.bytes).value).writes)) == Agreement.Ante(InUnary(view), tx).state
    {
      ToyAnte(mode, h, view, tx);
    }
  }

  /** Its ante handler protects replay, and yet Process refuses what Prepare returns: the transaction "0" moves
      the sequence before the post handler refuses it, so "1" is selected alone. */
  lemma {:induction false} ARefusingPostHandlerSplitsTheHandlers(prepare: RunTx.Header, process: RunTx.Header, blk: Meter)
    ensures var preparing, processing := Verifier(Toy(), RunTx.PrepareProposal, prepare, blk), Verifier(Toy(), RunTx.ProcessProposal, process, blk);
      var txs := Selection.Final(map[], Selection.Limits(10, 0), preparing, TOY_POOL).sel.selected;
      && ProtectsReplay(Toy(), RunTx.PrepareProposal, prepare, InUnary, TOY_POOL)
      && ProtectsReplay(Toy(), RunTx.ProcessProposal, process, InUnary, TOY_POOL)
      && txs == [TOY_POOL[1]]
      && Agreement.Process(processing, map[], txs, 0).None?
  {
    hide ProtectsReplay, Agreement.MovesLikeAnte, Agreement.Process, Selection.Final, Agreement.Numbered, Toy, Agreement.RefusesFirst;
    ToyProtectsReplay(RunTx.PrepareProposal, prepare);
    ToyProtectsReplay(RunTx.ProcessProposal, process);
    VerifierMovesLikeAnte(Toy(), RunTx.PrepareProposal, prepare, blk, InUnary, TOY_POOL);
    VerifierMovesLikeAnte(Toy(), RunTx.ProcessProposal, process, blk, InUnary, TOY_POOL);
    ToyRefusesFirst(prepare, blk);
    Agreement.ALateFailureSplitsTheHandlers(Verifier(Toy(), RunTx.PrepareProposal, prepare, blk), Verifier(Toy(), RunTx.ProcessProposal, process, blk), InUnary, map[]);
  }

  lemma {:induction false} ToyRefusesFirst(h: RunTx.Header, blk: Meter)
    ensures Agreement.RefusesFirst(Verifier(Toy(), RunTx.PrepareProposal, h, blk), InUnary)
  {
    hide Agreement.AnteAccepts, Agreement.Ante, Agreement.Numbered, InUnary, Verify, Toy;
    var mode := RunTx.PrepareProposal;
    var t0, t1 := Agreement.Numbered("0", 0), Agreement.Numbered("1", 1);
    assert t0.bytes == "0" && t1.bytes == "1" by { NumberedBytes(); }
    forall view: KV
      ensures !Verifier(Toy(), mode, h, blk)(view, t0).ok
      ensures InUnary(Verifier(Toy(), mode, h, blk)(view, t0).state) == Agreement.Ante(InUnary(view), t0).state
      ensures Agreement.AnteAccepts(InUnary(view), t1) ==> Verifier(Toy(), mode, h, blk)(view, t1).ok
    {
      ToyVerdict(h, blk, view, t0);
      ToyVerdict(h, blk, view, t1);
    }
  }

  lemma {:induction false} NumberedBytes()
    ensures Agreement.Numbered("0", 0).bytes == "0" && Agreement.Numbered("1", 1).bytes == "1"
  {
  }

  lemma {:induction false} ToyVerdict(h: RunTx.Header, blk: Meter, view: KV, tx: MemTx)
    requires tx in TOY_POOL
    ensures var v := Verify(Toy(), RunTx.PrepareProposal, h, blk, view, tx);
      && (v.ok <==> tx.bytes != "0" && Agreement.AnteAccepts(InUnary(view), tx))
      && InUnary(v.state) == Agreement.Ante(InUnary(view), tx).state
  {
    hide Agreement.AnteAccepts, Agreement.Ante, InUnary, Verify, PastAnte, View;
    var mode := RunTx.PrepareProposal;
    VerifiedExactly(Toy(), mode, h, blk, view, tx);
    ToyAnte(mode, h, view, tx);
    if !Agreement.AnteAccepts(InUnary(view), tx) { Agreement.RefusedStays(InUnary(view), tx); }
  }
}
