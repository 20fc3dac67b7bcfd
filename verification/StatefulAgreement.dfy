/** Agreement where transactions are also refused for what the store holds, such as a balance too small for a fee. */
module StatefulAgreement {
  import opened Prelude
  import opened Selection
  import opened SelectionLaws
  import opened Agreement

  // ---------- a state that accepts as much as another ----------

  /** `q`, where Process verifies, accepts what `p` accepts, where Prepare does, as far as replay protection does;
      and then again afterwards. */
  ghost predicate Simulates<S(!new)>(prepare: (S, MemTx) -> Verdict<S>, process: (S, MemTx) -> Verdict<S>, abs: S -> Accounts,
                                     covers: (S, S) -> bool, pool: seq<MemTx>) {
    forall p, q, tx {:trigger prepare(p, tx), process(q, tx)} ::
      tx in pool && covers(p, q) && prepare(p, tx).ok && AnteAccepts(abs(q), tx) ==>
        process(q, tx).ok && covers(prepare(p, tx).state, process(q, tx).state)
  }

  /** The transaction at `j` is not selected. */
  predicate Drops<S>(prepare: (S, MemTx) -> Verdict<S>, v: S, lim: Limits, pool: seq<MemTx>, j: nat)
    requires j < |pool|
  {
    After(v, lim, prepare, pool, j + 1).sel.selected == After(v, lim, prepare, pool, j).sel.selected
  }

  /** Along Prepare's iteration a transaction that is not selected does not spoil that. */
  ghost predicate DroppedKeep<S(!new)>(prepare: (S, MemTx) -> Verdict<S>, covers: (S, S) -> bool, v: S, lim: Limits, pool: seq<MemTx>, k: nat)
    requires k <= |pool|
  {
    forall j, q {:trigger covers(After(v, lim, prepare, pool, j).verifier, q)} ::
      0 <= j < k && Drops(prepare, v, lim, pool, j) && covers(After(v, lim, prepare, pool, j).verifier, q) ==>
        covers(After(v, lim, prepare, pool, j + 1).verifier, q)
  }

  /** The callback leaves the verifier's state alone, or as the verifier left it. */
  lemma {:induction false} VerifierMoves<S>(h: Handler<S>, lim: Limits, verify: (S, MemTx) -> Verdict<S>, tx: MemTx)
    ensures Consider(h, lim, verify, tx).verifier in {h.verifier, verify(h.verifier, tx).state}
  {
    hide Select, Full, Noted, SeqsOf;
  }

  /** No transaction of the mempool does, whatever becomes of it. */
  ghost predicate NeverSpoils<S(!new)>(prepare: (S, MemTx) -> Verdict<S>, covers: (S, S) -> bool, pool: seq<MemTx>) {
    forall p, q, tx {:trigger covers(prepare(p, tx).state, q)} :: tx in pool && covers(p, q) ==> covers(prepare(p, tx).state, q)
  }

  lemma {:induction false} NeverSpoilsKeeps<S(!new)>(prepare: (S, MemTx) -> Verdict<S>, covers: (S, S) -> bool, v: S, lim: Limits, pool: seq<MemTx>)
    requires NeverSpoils(prepare, covers, pool)
    ensures DroppedKeep(prepare, covers, v, lim, pool, |pool|)
  {
    hide Consider, Drops;
    forall j, q | 0 <= j < |pool| && covers(After(v, lim, prepare, pool, j).verifier, q)
      ensures covers(After(v, lim, prepare, pool, j + 1).verifier, q)
    {
      var h := After(v, lim, prepare, pool, j);
      assert After(v, lim, prepare, pool, j + 1) == Consider(h, lim, prepare, pool[j]);
      VerifierMoves(h, lim, prepare, pool[j]);
      assert covers(prepare(h.verifier, pool[j]).state, q);
    }
  }

  /** What is selected was accepted where Prepare verifies, and Prepare goes on from there. */
  lemma {:induction false} SelectedWasAccepted<S>(h: Handler<S>, lim: Limits, verify: (S, MemTx) -> Verdict<S>, tx: MemTx)
    ensures var t := Consider(h, lim, verify, tx);
      t.sel.selected == h.sel.selected ||
      (t.sel.selected == h.sel.selected + [tx] && verify(h.verifier, tx).ok && t.verifier == verify(h.verifier, tx).state)
  {
    hide Select, Full, Noted, SeqsOf;
    SelectAppends(h.sel, lim, tx);
  }

  lemma {:induction false} RefusedOneMore<S>(verify: (S, MemTx) -> Verdict<S>, abs: S -> Accounts, v: S, txs: seq<MemTx>, tx: MemTx)
    ensures Rerun(verify, v, txs + [tx]) == verify(Rerun(verify, v, txs), tx).state
    ensures NothingElseRefused(verify, abs, v, txs + [tx]) <==>
      NothingElseRefused(verify, abs, v, txs) && (AnteAccepts(abs(Rerun(verify, v, txs)), tx) ==> verify(Rerun(verify, v, txs), tx).ok)
  {
    hide AnteAccepts;
    assert (txs + [tx])[..|txs|] == txs;
  }

  /** As long as the proposal replays, Process refuses nothing else, and stays covered. */
  lemma {:induction false} StaysCovered<S(!new)>(prepare: (S, MemTx) -> Verdict<S>, process: (S, MemTx) -> Verdict<S>, abs: S -> Accounts,
                                                 covers: (S, S) -> bool, v: S, lim: Limits, pool: seq<MemTx>, k: nat)
    requires k <= |pool| && MovesLikeAnte(process, abs, pool)
    requires Simulates(prepare, process, abs, covers, pool) && DroppedKeep(prepare, covers, v, lim, pool, k) && covers(v, v)
    ensures var h := After(v, lim, prepare, pool, k);
      AllAccepted(abs(v), h.sel.selected) && AllIn(h.sel.selected, pool) ==>
        NothingElseRefused(process, abs, v, h.sel.selected) && covers(h.verifier, Rerun(process, v, h.sel.selected))
  {
    hide Consider, AllAccepted, NothingElseRefused, Rerun, Replayed, AnteAccepts, Ante, MovesLikeAnte, FirstSeq;
    if k == 0 {
      NothingYet(process, abs, v);
    } else {
      StaysCovered(prepare, process, abs, covers, v, lim, pool, k - 1);
      var h, tx := After(v, lim, prepare, pool, k - 1), pool[k - 1];
      var t := After(v, lim, prepare, pool, k);
      assert t == Consider(h, lim, prepare, tx);
      SelectedWasAccepted(h, lim, prepare, tx);
      if t.sel.selected != h.sel.selected && AllAccepted(abs(v), t.sel.selected) && AllIn(t.sel.selected, pool) {
        OneMore(abs(v), h.sel.selected, tx);
        assert AllIn(h.sel.selected, pool);
        RerunIsReplayed(process, abs, v, h.sel.selected, pool);
        RefusedOneMore(process, abs, v, h.sel.selected, tx);
      } else if t.sel.selected == h.sel.selected {
        assert covers(h.verifier, Rerun(process, v, h.sel.selected)) ==> covers(t.verifier, Rerun(process, v, h.sel.selected));
      }
    }
  }

  lemma {:induction false} NothingYet<S>(process: (S, MemTx) -> Verdict<S>, abs: S -> Accounts, v: S)
    ensures NothingElseRefused(process, abs, v, []) && Rerun(process, v, []) == v
  {
  }

  /** Refusals by state that still agree: where Process's state accepts what Prepare's does, and dropped
      transactions keep it so, only the committed sequences decide. */
  lemma {:induction false} CoveredRefusalsAgree<S(!new)>(prepare: (S, MemTx) -> Verdict<S>, process: (S, MemTx) -> Verdict<S>, abs: S -> Accounts,
                                                         covers: (S, S) -> bool, v: S, maxTxBytes: Uint64, g: int, pool: seq<MemTx>)
    requires g < TWO64 && MovesLikeAnte(prepare, abs, pool) && MovesLikeAnte(process, abs, pool)
    requires Simulates(prepare, process, abs, covers, pool) && covers(v, v)
    requires DroppedKeep(prepare, covers, v, Limits(maxTxBytes, PrepareGasLimit(g)), pool, |pool|)
    ensures var txs := Final(v, Limits(maxTxBytes, PrepareGasLimit(g)), prepare, pool).sel.selected;
      Process(process, v, txs, g).Some? <==> StartsCommitted(abs(v), txs)
  {
    hide After, Process, StartsCommitted, AllAccepted, NothingElseRefused, MovesLikeAnte, Simulates, DroppedKeep, Rerun, AllIn;
    var lim := Limits(maxTxBytes, PrepareGasLimit(g));
    AgreementExactly(prepare, process, abs, v, maxTxBytes, g, pool);
    PrepareAgrees(v, lim, prepare, abs, pool, |pool|);
    SelectedIsFromPool(v, lim, prepare, pool);
    StaysCovered(prepare, process, abs, covers, v, lim, pool, |pool|);
  }

  /** In particular: refusals that depend on a part of the state that both handlers change alike and that no
      dropped transaction changes. */
  lemma {:induction false} UntouchedPartsAgree<S(!new), P(!new)>(prepare: (S, MemTx) -> Verdict<S>, process: (S, MemTx) -> Verdict<S>, abs: S -> Accounts,
                                                           part: S -> P, v: S, maxTxBytes: Uint64, g: int, pool: seq<MemTx>)
    requires g < TWO64 && MovesLikeAnte(prepare, abs, pool) && MovesLikeAnte(process, abs, pool)
    requires forall p, q, tx {:trigger prepare(p, tx), process(q, tx)} ::
      tx in pool && part(p) == part(q) && prepare(p, tx).ok && AnteAccepts(abs(q), tx) ==>
        process(q, tx).ok && part(prepare(p, tx).state) == part(process(q, tx).state)
    requires var lim := Limits(maxTxBytes, PrepareGasLimit(g));
      forall j {:trigger After(v, lim, prepare, pool, j)} ::
        0 <= j < |pool| && Drops(prepare, v, lim, pool, j) ==>
          part(After(v, lim, prepare, pool, j + 1).verifier) == part(After(v, lim, prepare, pool, j).verifier)
    ensures var txs := Final(v, Limits(maxTxBytes, PrepareGasLimit(g)), prepare, pool).sel.selected;
      Process(process, v, txs, g).Some? <==> StartsCommitted(abs(v), txs)
  {
    hide After, Process, StartsCommitted, MovesLikeAnte;
    CoveredRefusalsAgree(prepare, process, abs, (p, q) => part(p) == part(q), v, maxTxBytes, g, pool);
  }

  // ---------- fees ----------

  /** Accounts with balances. */
  datatype Funded = Funded(accounts: Accounts, balances: map<string, nat>)

  function AccountsOf(s: Funded): Accounts { s.accounts }

  function Balance(s: Funded, who: string): nat { if who in s.balances then s.balances[who] else 0 }

  /** Who pays for a transaction, and how much. */
  datatype Fees = Fees(payer: MemTx -> string, fee: MemTx -> nat)

  predicate Affords(fees: Fees, s: Funded, tx: MemTx) {
    AnteAccepts(s.accounts, tx) && Balance(s, fees.payer(tx)) >= fees.fee(tx)
  }

  function Charged(fees: Fees, s: Funded, tx: MemTx): Funded {
    var payer := fees.payer(tx);
    Funded(Ante(s.accounts, tx).state, s.balances[payer := if Balance(s, payer) >= fees.fee(tx) then Balance(s, payer) - fees.fee(tx) else 0])
  }

  /** An ante handler that checks replays and deducts a fee; a refusal changes nothing. */
  function FeeAnte(fees: Fees): (Funded, MemTx) -> Verdict<Funded> {
    (s: Funded, tx: MemTx) => if Affords(fees, s, tx) then Verdict(Charged(fees, s, tx), true) else Verdict(s, false)
  }

  /** Nobody has less. */
  ghost predicate Richer(p: Funded, q: Funded) { forall who :: Balance(p, who) <= Balance(q, who) }

  lemma {:induction false} ChargedBalance(fees: Fees, s: Funded, tx: MemTx, who: string)
    ensures Balance(Charged(fees, s, tx), who) ==
      if who != fees.payer(tx) then Balance(s, who)
      else if Balance(s, who) >= fees.fee(tx) then Balance(s, who) - fees.fee(tx) else 0
  {
    hide Ante;
  }

  lemma {:induction false} BothCharged(fees: Fees, p: Funded, q: Funded, tx: MemTx)
    requires Richer(p, q)
    ensures Richer(Charged(fees, p, tx), q) && Richer(Charged(fees, p, tx), Charged(fees, q, tx))
  {
    hide Charged, Balance;
    forall who
      ensures Balance(Charged(fees, p, tx), who) <= Balance(q, who) && Balance(Charged(fees, p, tx), who) <= Balance(Charged(fees, q, tx), who)
    {
      assert Balance(p, who) <= Balance(q, who);
      ChargedBalance(fees, p, tx, who);
      ChargedBalance(fees, q, tx, who);
    }
  }

  lemma {:induction false} FeeAnteMoves(fees: Fees, pool: seq<MemTx>)
    ensures MovesLikeAnte(FeeAnte(fees), AccountsOf, pool)
  {
    hide Ante, AnteAccepts;
  }

  lemma {:induction false} FeeAnteSimulates(fees: Fees, pool: seq<MemTx>)
    ensures Simulates(FeeAnte(fees), FeeAnte(fees), AccountsOf, (p, q) => Richer(p, q), pool)
  {
    hide Ante, AnteAccepts, Charged, Richer;
    forall p, q, tx | tx in pool && Richer(p, q) && FeeAnte(fees)(p, tx).ok && AnteAccepts(AccountsOf(q), tx)
      ensures FeeAnte(fees)(q, tx).ok && Richer(FeeAnte(fees)(p, tx).state, FeeAnte(fees)(q, tx).state)
    {
      RicherAffords(fees, p, q, tx);
      BothCharged(fees, p, q, tx);
    }
  }

  lemma {:induction false} RicherAffords(fees: Fees, p: Funded, q: Funded, tx: MemTx)
    requires Richer(p, q) && Affords(fees, p, tx) && AnteAccepts(q.accounts, tx)
    ensures Affords(fees, q, tx)
  {
    hide AnteAccepts;
    assert Balance(p, fees.payer(tx)) <= Balance(q, fees.payer(tx));
  }

  lemma {:induction false} FeesOnlyFall(fees: Fees, pool: seq<MemTx>)
    ensures NeverSpoils(FeeAnte(fees), (p, q) => Richer(p, q), pool)
  {
    hide Charged, Richer, Affords;
    forall p, q, tx | tx in pool && Richer(p, q) ensures Richer(FeeAnte(fees)(p, tx).state, q) { BothCharged(fees, p, q, tx); }
  }

  lemma {:induction false} FeesPrepareCleanly(fees: Fees, v: Funded, lim: Limits, pool: seq<MemTx>)
    ensures PreparedCleanly(FeeAnte(fees), AccountsOf, v, lim, pool, |pool|)
  {
    hide After, Passes, Charged, Affords;
  }

  /** With an ante handler that checks replays and deducts a fee, what one validator proposes every validator
      accepts, whatever the mempool and the balances: transactions Prepare dropped after charging them leave the
      others no more to spend there than in the replay. */
  lemma {:induction false} FeesAgree(fees: Fees, v: Funded, maxTxBytes: Uint64, g: int, pool: seq<MemTx>)
    requires g < TWO64
    ensures Process(FeeAnte(fees), v, Final(v, Limits(maxTxBytes, PrepareGasLimit(g)), FeeAnte(fees), pool).sel.selected, g).Some?
  {
    hide After, Process, FeeAnte, MovesLikeAnte, Simulates, NeverSpoils, DroppedKeep, PreparedCleanly, StartsCommitted;
    var lim := Limits(maxTxBytes, PrepareGasLimit(g));
    FeeAnteMoves(fees, pool);
    FeeAnteSimulates(fees, pool);
    FeesOnlyFall(fees, pool);
    NeverSpoilsKeeps(FeeAnte(fees), (p, q) => Richer(p, q), v, lim, pool);
    FeesPrepareCleanly(fees, v, lim, pool);
    CoveredRefusalsAgree(FeeAnte(fees), FeeAnte(fees), AccountsOf, (p, q) => Richer(p, q), v, maxTxBytes, g, pool);
    CleanPreparesStartCommitted(FeeAnte(fees), AccountsOf, v, lim, pool, |pool|);
  }

  // ---------- a write of a dropped transaction that matters ----------

  /** Accounts with a gate that one transaction opens and all others need open. */
  datatype Gated = Gated(accounts: Accounts, isOpen: bool)

  function GatedAccounts(s: Gated): Accounts { s.accounts }

  function GateAnte(s: Gated, tx: MemTx): Verdict<Gated> {
    if AnteAccepts(s.accounts, tx) && (s.isOpen || tx.bytes == "open")
    then Verdict(Gated(Ante(s.accounts, tx).state, true), true) else Verdict(s, false)
  }

  /** The one that opens the gate, too long for the block, and one of another signer that needs it open. */
  const OPENS: MemTx := MemTx("open", 11, None, false, Some([SignerData("r", 0)]), {}, true)
  const NEEDS: MemTx := Numbered("needs", 0)

  lemma {:induction false} GateMoves(pool: seq<MemTx>)
    ensures MovesLikeAnte(GateAnte, GatedAccounts, pool)
  {
    hide Ante, AnteAccepts;
  }

  lemma {:induction false} OpensAccepted(a: Accounts)
    requires a == Accounts(map[], {})
    ensures AnteAccepts(a, OPENS) && TxSeqs(OPENS.signers.value, 0, map[], map[]) == Some(map["r" := 0])
    ensures SequenceOf(Ante(a, OPENS).state, "s") == 0
  {
    assert OPENS.signers.value == [SignerData("r", 0)];
    assert TxSeqs(OPENS.signers.value, 1, map[], map["r" := 0]) == Some(map["r" := 0]);
    assert "s" !in SignersOf(OPENS);
  }

  lemma {:induction false} OpensDropped(v: Gated, lim: Limits)
    requires v == Gated(Accounts(map[], {}), false) && lim == Limits(10, 0)
    ensures var h := Consider(Start(v), lim, GateAnte, OPENS);
      && !h.halted && h.sel == Selector(0, 0, []) && h.seqs.Keys == {"r"} && h.verifier == Gated(Ante(v.accounts, OPENS).state, true)
  {
    hide Ante, AnteAccepts, TxSeqs;
    OpensAccepted(v.accounts);
  }

  lemma {:induction false} NeedsSelected(h: Handler<Gated>, lim: Limits)
    requires lim == Limits(10, 0) && h.sel == Selector(0, 0, []) && !h.halted && h.seqs.Keys == {"r"}
    requires h.verifier.isOpen && SequenceOf(h.verifier.accounts, "s") == 0
    ensures Consider(h, lim, GateAnte, NEEDS).sel.selected == [NEEDS]
  {
    hide Ante, AnteAccepts, Noted, Full;
    NumberedAccepted(h.verifier.accounts, "needs", 0, map[]);
    assert NEEDS.signers.value == [SignerData("s", 0)];
    assert TxSeqs(NEEDS.signers.value, 1, h.seqs, map["s" := 0]) == Some(map["s" := 0]);
  }

  /** Prepare selects what only the dropped transaction made acceptable, and Process refuses it, although every
      first sequence is the committed one. */
  lemma {:induction false} ADroppedWriteSplitsTheHandlers()
    ensures var v, pool := Gated(Accounts(map[], {}), false), [OPENS, NEEDS];
      var txs := Final(v, Limits(10, 0), GateAnte, pool).sel.selected;
      && MovesLikeAnte(GateAnte, GatedAccounts, pool) && txs == [NEEDS]
      && StartsCommitted(GatedAccounts(v), txs) && Process(GateAnte, v, txs, 0).None?
  {
    hide Consider, Ante, AnteAccepts, StartsCommitted, MovesLikeAnte;
    var v, lim := Gated(Accounts(map[], {}), false), Limits(10, 0);
    GateMoves([OPENS, NEEDS]);
    OpensAccepted(v.accounts);
    OpensDropped(v, lim);
    NeedsSelected(Consider(Start(v), lim, GateAnte, OPENS), lim);
    AfterBoth(v, lim, GateAnte, OPENS, NEEDS);
    NeedsStarts(v.accounts);
    assert [NEEDS][..0] == [] && [NEEDS][0] == NEEDS;
    assert Process(GateAnte, v, [], 0) == Some(Checked(v, 0));
  }

  lemma {:induction false} NeedsStarts(a: Accounts)
    requires a == Accounts(map[], {})
    ensures StartsCommitted(a, [NEEDS])
  {
    assert [NEEDS][..0] == [] && FirstSeq([NEEDS][..0], "s") == None;
    forall s | FirstSeq([NEEDS], s).Some? ensures FirstSeq([NEEDS], s).value == SequenceOf(a, s) {
      assert FirstSeq([], s) == None;
      assert SeqFor([], s) == None && NEEDS.signers.value[..0] == [];
    }
  }
}
