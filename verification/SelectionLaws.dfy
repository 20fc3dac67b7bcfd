/** What the selected list is, for any verifier. */
module SelectionLaws {
  import opened Prelude
  import opened Selection

  // ---------- order and budgets ----------

  /** `a` is `b` with some entries left out. */
  ghost predicate Subsequence<T>(a: seq<T>, b: seq<T>)
    decreases |b|
  {
    || a == []
    || (b != [] && Subsequence(a, b[..|b| - 1]))
    || (b != [] && a[|a| - 1] == b[|b| - 1] && Subsequence(a[..|a| - 1], b[..|b| - 1]))
  }

  function TotalBytes(txs: seq<MemTx>): nat {
    if txs == [] then 0 else TotalBytes(txs[..|txs| - 1]) + txs[|txs| - 1].size
  }

  function TotalGas(txs: seq<MemTx>): nat {
    if txs == [] then 0 else TotalGas(txs[..|txs| - 1]) + GasOf(txs[|txs| - 1])
  }

  /** A sum as the 64-bit counters hold it. */
  function Mod64(n: nat): Uint64 { n % TWO64 }

  /** After each selected transaction the 64-bit running sums were within the limits. */
  predicate RunningSumsFit(txs: seq<MemTx>, lim: Limits) {
    txs == [] ||
    (RunningSumsFit(txs[..|txs| - 1], lim)
     && Mod64(TotalBytes(txs)) <= lim.maxTxBytes
     && (lim.maxBlockGas > 0 ==> Mod64(TotalGas(txs)) <= lim.maxBlockGas))
  }

  predicate SelectorInv(s: Selector, lim: Limits) {
    && RunningSumsFit(s.selected, lim)
    && s.totalTxBytes == Mod64(TotalBytes(s.selected))
    && (lim.maxBlockGas > 0 ==> s.totalTxGas == Mod64(TotalGas(s.selected)))
  }

  lemma {:induction false} RunningSum(total: nat, more: Uint64)
    ensures Add64(Mod64(total), more) == Mod64(total + more) == Add64(more, Mod64(total))
  {
  }

  lemma {:induction false} TotalsOneMore(txs: seq<MemTx>, tx: MemTx)
    ensures TotalBytes(txs + [tx]) == TotalBytes(txs) + tx.size && TotalGas(txs + [tx]) == TotalGas(txs) + GasOf(tx)
  {
    hide GasOf;
    assert (txs + [tx])[..|txs|] == txs;
  }

  lemma {:induction false} SumsFitOneMore(txs: seq<MemTx>, tx: MemTx, lim: Limits)
    requires RunningSumsFit(txs, lim) && Mod64(TotalBytes(txs + [tx])) <= lim.maxTxBytes
    requires lim.maxBlockGas > 0 ==> Mod64(TotalGas(txs + [tx])) <= lim.maxBlockGas
    ensures RunningSumsFit(txs + [tx], lim)
  {
    hide Mod64, TotalBytes, TotalGas;
    assert (txs + [tx])[..|txs|] == txs;
  }

  lemma {:induction false} SelectKeepsInv(s: Selector, lim: Limits, tx: MemTx)
    requires SelectorInv(s, lim)
    ensures SelectorInv(Select(s, lim, tx), lim)
  {
    hide Add64, Mod64, TotalBytes, TotalGas, GasOf, RunningSumsFit;
    if Fits(s, lim, tx) {
      TotalsOneMore(s.selected, tx);
      RunningSum(TotalBytes(s.selected), tx.size);
      RunningSum(TotalGas(s.selected), GasOf(tx));
      SumsFitOneMore(s.selected, tx, lim);
    }
  }

  /** One transaction: the selection stays, or is what the selector makes of it. */
  lemma {:induction false} ConsiderSelects<S>(h: Handler<S>, lim: Limits, verify: (S, MemTx) -> Verdict<S>, tx: MemTx)
    ensures var t := Consider(h, lim, verify, tx); t.sel == h.sel || t.sel == Select(h.sel, lim, tx)
  {
    hide Select, Full, Noted, SeqsOf;
  }

  lemma {:induction false} SelectAppends(s: Selector, lim: Limits, tx: MemTx)
    ensures Select(s, lim, tx) == s || Select(s, lim, tx).selected == s.selected + [tx]
  {
    hide Fits, Add64;
  }

  lemma {:induction false} SubsequenceGrows<T>(a: seq<T>, b: seq<T>, x: T)
    requires Subsequence(a, b)
    ensures Subsequence(a, b + [x]) && Subsequence(a + [x], b + [x])
  {
    assert (b + [x])[..|b|] == b && (a + [x])[..|a|] == a;
  }

  /** The proposal keeps the mempool's order, and its running sums keep within both limits. */
  lemma {:induction false} ProposalIsOrderedAndFits<S>(v: S, lim: Limits, verify: (S, MemTx) -> Verdict<S>, pool: seq<MemTx>, k: nat)
    requires k <= |pool|
    ensures var h := After(v, lim, verify, pool, k);
      Subsequence(h.sel.selected, pool[..k]) && SelectorInv(h.sel, lim)
  {
    hide Consider, Select, SelectorInv, Subsequence;
    if k == 0 {
      NothingSelected(v, lim);
    } else {
      ProposalIsOrderedAndFits(v, lim, verify, pool, k - 1);
      var h, tx := After(v, lim, verify, pool, k - 1), pool[k - 1];
      ConsiderSelects(h, lim, verify, tx);
      SelectKeepsInv(h.sel, lim, tx);
      SelectAppends(h.sel, lim, tx);
      assert pool[..k] == pool[..k - 1] + [tx];
      SubsequenceGrows(h.sel.selected, pool[..k - 1], tx);
    }
  }

  lemma {:induction false} NothingSelected<S>(v: S, lim: Limits)
    ensures Start(v).sel.selected == [] && SelectorInv(Start(v).sel, lim) && forall b: seq<MemTx> :: Subsequence([], b)
  {
    assert TotalBytes([]) == 0 && TotalGas([]) == 0;
  }

  /** The limits hold of the true sums exactly when those did not reach 2^64. */
  lemma {:induction false} LimitsHoldUnlessSumsWrap<S>(v: S, lim: Limits, verify: (S, MemTx) -> Verdict<S>, pool: seq<MemTx>)
    ensures var txs := Final(v, lim, verify, pool).sel.selected;
      && (TotalBytes(txs) <= lim.maxTxBytes <==> TotalBytes(txs) < TWO64)
      && (lim.maxBlockGas > 0 ==> (TotalGas(txs) <= lim.maxBlockGas <==> TotalGas(txs) < TWO64))
  {
    hide After, Mod64, TotalBytes, TotalGas, Subsequence;
    ProposalIsOrderedAndFits(v, lim, verify, pool, |pool|);
    var txs := Final(v, lim, verify, pool).sel.selected;
    NothingTotals(lim);
    Small(TotalBytes(txs), lim.maxTxBytes);
    if lim.maxBlockGas > 0 { Small(TotalGas(txs), lim.maxBlockGas); }
  }

  lemma {:induction false} NothingTotals(lim: Limits)
    ensures TotalBytes([]) == 0 && TotalGas([]) == 0
  {
  }

  lemma {:induction false} Small(n: nat, limit: Uint64)
    requires n == 0 || Mod64(n) <= limit
    ensures n <= limit <==> n < TWO64
  {
  }

  // ---------- sequences ----------

  /** The sequence an ordered transaction carries for a signer: its last entry. */
  function SeqFor(signers: seq<SignerData>, s: string): Option<Uint64> {
    if signers == [] then None
    else if signers[|signers| - 1].signer == s then Some(signers[|signers| - 1].sequence)
    else SeqFor(signers[..|signers| - 1], s)
  }

  function SeqIn(tx: MemTx, s: string): Option<Uint64> {
    if tx.unordered || tx.signers.None? then None else SeqFor(tx.signers.value, s)
  }

  /** The sequence of the last ordered transaction that `s` signed. */
  function LastSeq(txs: seq<MemTx>, s: string): Option<Uint64> {
    if txs == [] then None
    else if SeqIn(txs[|txs| - 1], s).Some? then SeqIn(txs[|txs| - 1], s)
    else LastSeq(txs[..|txs| - 1], s)
  }

  /** The list's last transaction carries, for `s`, the sequence after the one before it in the list. */
  predicate FollowsOn(txs: seq<MemTx>, s: string)
    requires txs != []
  {
    var before, last := LastSeq(txs[..|txs| - 1], s), SeqIn(txs[|txs| - 1], s);
    before.Some? && last.Some? ==> last.value == Add64(before.value, 1)
  }

  /** For every signer the sequences of the list's ordered transactions follow one another, modulo 2^64. */
  ghost predicate Consecutive(txs: seq<MemTx>) {
    txs == [] || (Consecutive(txs[..|txs| - 1]) && forall s :: FollowsOn(txs, s))
  }

  /** The collected map holds each signer's last entry, and known signers came with the next sequence. */
  lemma {:induction false} TxSeqsCollects(signers: seq<SignerData>, i: nat, known: Seqs, acc: Seqs)
    requires i <= |signers| && TxSeqs(signers, i, known, acc).Some?
    requires forall s :: SeqFor(signers[..i], s) == (if s in acc then Some(acc[s]) else None)
    requires forall s :: s in acc && s in known ==> acc[s] == Add64(known[s], 1)
    ensures var m := TxSeqs(signers, i, known, acc).value;
      && (forall s :: SeqFor(signers, s) == (if s in m then Some(m[s]) else None))
      && (forall s :: s in m && s in known ==> m[s] == Add64(known[s], 1))
    decreases |signers| - i
  {
    if i == |signers| {
      assert signers[..i] == signers;
    } else {
      var d := signers[i];
      assert signers[..i + 1][..i] == signers[..i];
      TxSeqsCollects(signers, i + 1, known, acc[d.signer := d.sequence]);
    }
  }

  lemma {:induction false} SeqsCollect<S>(h: Handler<S>, tx: MemTx)
    requires (tx.unordered || tx.signers.Some?) && SeqsOf(h, tx).Some?
    ensures var m := SeqsOf(h, tx).value;
      && (forall s :: SeqIn(tx, s) == (if s in m then Some(m[s]) else None))
      && (forall s :: s in m && s in h.seqs ==> m[s] == Add64(h.seqs[s], 1))
  {
    if !tx.unordered {
      TxSeqsCollects(tx.signers.value, 0, h.seqs, map[]);
    }
  }

  /** What the sender map knows: the last selected sequence of every signer of a selected transaction. */
  ghost predicate KnowsLast<S>(h: Handler<S>) {
    && Consecutive(h.sel.selected)
    && h.count == |h.sel.selected|
    && forall s :: LastSeq(h.sel.selected, s).Some? ==> s in h.seqs && h.seqs[s] == LastSeq(h.sel.selected, s).value
  }

  /** What the callback leaves when a transaction was selected or not. */
  lemma {:induction false} ConsiderCases<S>(h: Handler<S>, lim: Limits, verify: (S, MemTx) -> Verdict<S>, tx: MemTx)
    requires !h.halted && h.count == |h.sel.selected|
    ensures var t := Consider(h, lim, verify, tx);
      && (t.sel.selected == h.sel.selected || (t.sel.selected == h.sel.selected + [tx] && (tx.unordered || tx.signers.Some?) && SeqsOf(h, tx).Some?))
      && (!t.halted ==>
            && t.count == |t.sel.selected|
            && (t.sel.selected == h.sel.selected ==>
                  t.seqs == h.seqs || ((tx.unordered || tx.signers.Some?) && SeqsOf(h, tx).Some? && t.seqs == Noted(h.seqs, SeqsOf(h, tx).value, false)))
            && (t.sel.selected == h.sel.selected + [tx] ==>
                  t.seqs == if tx.unordered then h.seqs else Noted(h.seqs, SeqsOf(h, tx).value, true)))
  {
    hide Select, Full, Noted, SeqsOf;
    SelectAppends(h.sel, lim, tx);
  }

  /** Noting the senders of a transaction that did not fit touches nobody known. */
  lemma {:induction false} NotedKnows(known: Seqs, m: Seqs, s: string)
    ensures s in known ==> s in Noted(known, m, false) && Noted(known, m, false)[s] == known[s]
    ensures s in Noted(known, m, true) <==> s in known || s in m
    ensures s in m ==> Noted(known, m, true)[s] == m[s]
    ensures s in known && s !in m ==> Noted(known, m, true)[s] == known[s]
  {
    hide Sub64;
  }

  lemma {:induction false} LastSeqOneMore(txs: seq<MemTx>, tx: MemTx, s: string)
    ensures LastSeq(txs + [tx], s) == if SeqIn(tx, s).Some? then SeqIn(tx, s) else LastSeq(txs, s)
    ensures FollowsOn(txs + [tx], s) <==>
      (LastSeq(txs, s).Some? && SeqIn(tx, s).Some? ==> SeqIn(tx, s).value == Add64(LastSeq(txs, s).value, 1))
  {
    hide SeqIn, Add64;
    assert (txs + [tx])[..|txs|] == txs;
  }

  lemma {:induction false} ConsecutiveOneMore(txs: seq<MemTx>, tx: MemTx)
    requires Consecutive(txs) && forall s :: FollowsOn(txs + [tx], s)
    ensures Consecutive(txs + [tx])
  {
    hide FollowsOn;
    assert (txs + [tx])[..|txs|] == txs;
  }

  /** A selected transaction follows on what the sender map knows. */
  lemma {:induction false} SelectedFollowsOn<S>(h: Handler<S>, tx: MemTx)
    requires KnowsLast(h) && (tx.unordered || tx.signers.Some?) && SeqsOf(h, tx).Some?
    ensures Consecutive(h.sel.selected + [tx])
  {
    hide SeqsOf, SeqIn, LastSeq, FollowsOn, Add64, Consecutive;
    SeqsCollect(h, tx);
    forall s ensures FollowsOn(h.sel.selected + [tx], s) { LastSeqOneMore(h.sel.selected, tx, s); }
    ConsecutiveOneMore(h.sel.selected, tx);
  }

  lemma {:induction false} ConsiderKeepsConsecutive<S>(h: Handler<S>, lim: Limits, verify: (S, MemTx) -> Verdict<S>, tx: MemTx)
    requires !h.halted && KnowsLast(h)
    ensures var t := Consider(h, lim, verify, tx);
      Consecutive(t.sel.selected) && (!t.halted ==> KnowsLast(t))
  {
    hide Consider, Noted, SeqsOf, SeqIn, LastSeq, Consecutive;
    ConsiderCases(h, lim, verify, tx);
    var t := Consider(h, lim, verify, tx);
    if (tx.unordered || tx.signers.Some?) && SeqsOf(h, tx).Some? {
      SelectedFollowsOn(h, tx);
      SeqsCollect(h, tx);
    }
    if !t.halted {
      forall s | LastSeq(t.sel.selected, s).Some? ensures s in t.seqs && t.seqs[s] == LastSeq(t.sel.selected, s).value {
        LastSeqOneMore(h.sel.selected, tx, s);
        if (tx.unordered || tx.signers.Some?) && SeqsOf(h, tx).Some? { NotedKnows(h.seqs, SeqsOf(h, tx).value, s); }
        if tx.unordered { UnorderedSignsNothing(tx, s); }
      }
    }
  }

  lemma {:induction false} UnorderedSignsNothing(tx: MemTx, s: string)
    requires tx.unordered
    ensures SeqIn(tx, s) == None
  {
  }

  /** For any verifier: for each signer, the sequences of the selected ordered transactions are
      consecutive in selection order, sequence 0 and the wrap at 2^64 included. */
  lemma {:induction false} SelectedSequencesAreConsecutive<S>(v: S, lim: Limits, verify: (S, MemTx) -> Verdict<S>, pool: seq<MemTx>, k: nat)
    requires k <= |pool|
    ensures var h := After(v, lim, verify, pool, k);
      Consecutive(h.sel.selected) && (!h.halted ==> KnowsLast(h))
  {
    hide Consider, Consecutive;
    if k == 0 {
      NobodyKnown(v);
    } else {
      SelectedSequencesAreConsecutive(v, lim, verify, pool, k - 1);
      var h := After(v, lim, verify, pool, k - 1);
      if h.halted { HaltedIgnores(h, lim, verify, pool[k - 1]); } else { ConsiderKeepsConsecutive(h, lim, verify, pool[k - 1]); }
    }
  }

  lemma {:induction false} HaltedIgnores<S>(h: Handler<S>, lim: Limits, verify: (S, MemTx) -> Verdict<S>, tx: MemTx)
    requires h.halted
    ensures Consider(h, lim, verify, tx) == h
  {
  }

  lemma {:induction false} NobodyKnown<S>(v: S)
    ensures Consecutive(Start(v).sel.selected) && KnowsLast(Start(v))
  {
  }
}
