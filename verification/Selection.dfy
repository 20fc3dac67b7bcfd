/** Choosing transactions for a proposal: the budgeted selector, the per-signer sequence map and a
    stateful verifier, as `PrepareProposalHandler` combines them. */
module Selection {
  import opened Prelude

  const TWO64: nat := 0x1_0000_0000_0000_0000
  type Uint64 = x: int | 0 <= x < TWO64

  function Add64(a: Uint64, b: Uint64): Uint64 { (a + b) % TWO64 }
  function Sub64(a: Uint64, b: Uint64): Uint64 { (a - b) % TWO64 }

  datatype SignerData = SignerData(signer: string, sequence: Uint64)

  /** A mempool transaction: `size` is its length in a block, `gas` is absent when it has no gas limit.
      `signers` is absent when extracting them fails; `nonces` are what an unordered one uses up. */
  datatype MemTx = MemTx(
    bytes: string, size: Uint64, gas: Option<Uint64>, unordered: bool,
    signers: Option<seq<SignerData>>, nonces: set<string>, wellFormed: bool)

  function GasOf(tx: MemTx): Uint64 { if tx.gas.Some? then tx.gas.value else 0 }

  datatype Limits = Limits(maxTxBytes: Uint64, maxBlockGas: Uint64)

  // ---------- the selector ----------

  datatype Selector = Selector(totalTxBytes: Uint64, totalTxGas: Uint64, selected: seq<MemTx>)

  function Fits(s: Selector, lim: Limits, tx: MemTx): bool {
    Add64(tx.size, s.totalTxBytes) <= lim.maxTxBytes
    && (lim.maxBlockGas > 0 ==> Add64(GasOf(tx), s.totalTxGas) <= lim.maxBlockGas)
  }

  function Select(s: Selector, lim: Limits, tx: MemTx): Selector {
    if !Fits(s, lim, tx) then s
    else Selector(Add64(s.totalTxBytes, tx.size),
                  if lim.maxBlockGas > 0 then Add64(s.totalTxGas, GasOf(tx)) else s.totalTxGas,
                  s.selected + [tx])
  }

  predicate Full(s: Selector, lim: Limits) {
    s.totalTxBytes >= lim.maxTxBytes || (lim.maxBlockGas > 0 && s.totalTxGas >= lim.maxBlockGas)
  }

  class DefaultTxSelector {
    var totalTxBytes: Uint64
    var totalTxGas: Uint64
    var selectedTxs: seq<MemTx>

    function State(): Selector
      reads this
    {
      Selector(totalTxBytes, totalTxGas, selectedTxs)
    }

    constructor ()
      ensures State() == Selector(0, 0, [])
    {
      totalTxBytes, totalTxGas, selectedTxs := 0, 0, [];
    }

    method Clear()
      modifies this
      ensures State() == Selector(0, 0, [])
    {
      totalTxBytes, totalTxGas, selectedTxs := 0, 0, [];
    }

    method SelectTxForProposal(lim: Limits, tx: MemTx) returns (stop: bool)
      modifies this
      ensures State() == Select(old(State()), lim, tx)
      ensures stop == Full(State(), lim)
      ensures stop <==> totalTxBytes >= lim.maxTxBytes || (lim.maxBlockGas > 0 && totalTxGas >= lim.maxBlockGas)
    {
      var txGasLimit := if tx.gas.Some? then tx.gas.value else 0;
      if Add64(tx.size, totalTxBytes) <= lim.maxTxBytes {
        if lim.maxBlockGas > 0 {
          if Add64(txGasLimit, totalTxGas) <= lim.maxBlockGas {
            totalTxGas := Add64(totalTxGas, txGasLimit);
            totalTxBytes := Add64(totalTxBytes, tx.size);
            selectedTxs := selectedTxs + [tx];
          }
        } else {
          totalTxBytes := Add64(totalTxBytes, tx.size);
          selectedTxs := selectedTxs + [tx];
        }
      }
      stop := totalTxBytes >= lim.maxTxBytes || (lim.maxBlockGas > 0 && totalTxGas >= lim.maxBlockGas);
    }
  }

  // ---------- one transaction of the mempool ----------

  type Seqs = map<string, Uint64>

  datatype Verdict<S> = Verdict(state: S, ok: bool)

  /** What the handler keeps between two transactions. `halted` is set once the iteration has ended. */
  datatype Handler<S> = Handler(
    sel: Selector, seqs: Seqs, count: nat, invalid: seq<MemTx>, verifier: S, halted: bool, signerError: bool)

  /** The signer loop from index `i`: each signer seen before must come with the next sequence. */
  function TxSeqs(signers: seq<SignerData>, i: nat, known: Seqs, acc: Seqs): Option<Seqs>
    requires i <= |signers|
    decreases |signers| - i
  {
    if i == |signers| then Some(acc)
    else
      var d := signers[i];
      if d.signer in known && Add64(known[d.signer], 1) != d.sequence then None
      else TxSeqs(signers, i + 1, known, acc[d.signer := d.sequence])
  }

  /** The sequence map after a verified transaction: selected ones record their sequences; one that did not
      fit records, for signers not seen yet, the sequence before its own. */
  function Noted(known: Seqs, txSeqs: Seqs, added: bool): Seqs {
    map s | s in known.Keys + txSeqs.Keys ::
      if s !in txSeqs then known[s]
      else if added then txSeqs[s]
      else if s in known then known[s]
      else Sub64(txSeqs[s], 1)
  }

  function SeqsOf<S>(h: Handler<S>, tx: MemTx): Option<Seqs>
    requires tx.unordered || tx.signers.Some?
  {
    if tx.unordered then Some(map[]) else TxSeqs(tx.signers.value, 0, h.seqs, map[])
  }

  /** The callback on one transaction. */
  function Consider<S>(h: Handler<S>, lim: Limits, verify: (S, MemTx) -> Verdict<S>, tx: MemTx): Handler<S> {
    if h.halted then h
    else if !tx.unordered && tx.signers.None? then h.(halted := true, signerError := true)
    else if SeqsOf(h, tx).None? then h
    else
      var v := verify(h.verifier, tx);
      if !v.ok then h.(verifier := v.state, invalid := h.invalid + [tx])
      else
        var sel := Select(h.sel, lim, tx);
        if Full(sel, lim) then h.(verifier := v.state, sel := sel, halted := true)
        else
          var n := |sel.selected|;
          h.(verifier := v.state, sel := sel, count := n,
             seqs := if tx.unordered then h.seqs else Noted(h.seqs, SeqsOf(h, tx).value, n != h.count))
  }

  function Start<S>(v: S): Handler<S> { Handler(Selector(0, 0, []), map[], 0, [], v, false, false) }

  /** The handler after the first `k` transactions of the mempool's order. */
  function After<S>(v: S, lim: Limits, verify: (S, MemTx) -> Verdict<S>, pool: seq<MemTx>, k: nat): Handler<S>
    requires k <= |pool|
  {
    if k == 0 then Start(v) else Consider(After(v, lim, verify, pool, k - 1), lim, verify, pool[k - 1])
  }

  function Final<S>(v: S, lim: Limits, verify: (S, MemTx) -> Verdict<S>, pool: seq<MemTx>): Handler<S> {
    After(v, lim, verify, pool, |pool|)
  }

  lemma {:induction false} HaltedStays<S>(v: S, lim: Limits, verify: (S, MemTx) -> Verdict<S>, pool: seq<MemTx>, k: nat, j: nat)
    requires k <= j <= |pool| && After(v, lim, verify, pool, k).halted
    ensures After(v, lim, verify, pool, j) == After(v, lim, verify, pool, k)
    decreases j
  {
    hide Select, Full, Noted, SeqsOf;
    if k < j { HaltedStays(v, lim, verify, pool, k, j - 1); }
  }

  /** One more sender noted. */
  lemma {:induction false} NoteOne(known: Seqs, before: Seqs, sender: string, seq0: Uint64, added: bool)
    requires sender !in before
    ensures Noted(known, before[sender := seq0], added) ==
      if added then Noted(known, before, added)[sender := seq0]
      else if sender in known then Noted(known, before, added)
      else Noted(known, before, added)[sender := Sub64(seq0, 1)]
    ensures sender in Noted(known, before, added) <==> sender in known
  {
    hide Sub64;
  }

  lemma {:induction false} NoteNone(known: Seqs, added: bool)
    ensures Noted(known, map[], added) == known
  {
  }

  /** Which sequences the sender map is updated with, one sender at a time in no particular order. */
  method NoteSenders(known: Seqs, txSeqs: Seqs, added: bool) returns (seqs: Seqs)
    ensures seqs == Noted(known, txSeqs, added)
  {
    hide Sub64, Noted;
    NoteNone(known, added);
    seqs := known;
    var todo := txSeqs.Keys;
    assert txSeqs - todo == map[];
    while todo != {}
      invariant todo <= txSeqs.Keys
      invariant seqs == Noted(known, txSeqs - todo, added)
      decreases todo
    {
      var sender :| sender in todo;
      NoteOne(known, txSeqs - todo, sender, txSeqs[sender], added);
      assert (txSeqs - todo)[sender := txSeqs[sender]] == txSeqs - (todo - {sender});
      if added {
        seqs := seqs[sender := txSeqs[sender]];
      } else if sender !in seqs {
        seqs := seqs[sender := Sub64(txSeqs[sender], 1)];
      }
      todo := todo - {sender};
    }
    assert txSeqs - todo == txSeqs;
  }

  /** The signer loop. */
  method CollectSeqs(signers: seq<SignerData>, known: Seqs) returns (r: Option<Seqs>)
    ensures r == TxSeqs(signers, 0, known, map[])
  {
    var acc: Seqs := map[];
    for i := 0 to |signers|
      invariant TxSeqs(signers, 0, known, map[]) == TxSeqs(signers, i, known, acc)
    {
      var d := signers[i];
      if d.signer in known && Add64(known[d.signer], 1) != d.sequence {
        return None;
      }
      acc := acc[d.signer := d.sequence];
    }
    r := Some(acc);
  }

  /** The callback on one transaction, on the locals it closes over. */
  method Callback<S>(selector: DefaultTxSelector, lim: Limits, verify: (S, MemTx) -> Verdict<S>, tx: MemTx, ghost h: Handler<S>,
                     state: S, seqs: Seqs, count: nat)
    returns (state': S, seqs': Seqs, count': nat, isInvalid: bool, stop: bool, signerError: bool)
    requires !h.halted && h == Handler(selector.State(), seqs, count, h.invalid, state, false, false)
    modifies selector
    ensures Consider(h, lim, verify, tx) ==
      Handler(selector.State(), seqs', count', if isInvalid then h.invalid + [tx] else h.invalid, state', stop, signerError)
    ensures signerError ==> stop
  {
    hide Select, Full, Noted, TxSeqs;
    state', seqs', count', isInvalid, stop, signerError := state, seqs, count, false, false, false;
    var txSeqs: Option<Seqs> := Some(map[]);
    if !tx.unordered {
      if tx.signers.None? {
        stop, signerError := true, true;
        return;
      }
      txSeqs := CollectSeqs(tx.signers.value, seqs);
    }
    if txSeqs.None? { return; }
    var answer := verify(state, tx);
    state' := answer.state;
    if !answer.ok {
      isInvalid := true;
      return;
    }
    stop := selector.SelectTxForProposal(lim, tx);
    if stop { return; }
    var n := |selector.selectedTxs|;
    if !tx.unordered { seqs' := NoteSenders(seqs, txSeqs.value, n != count); }
    count' := n;
  }

  /** Removing the invalid transactions from the mempool, up to the first removal that fails. */
  method RemoveInvalid(invalid: seq<MemTx>, removeFails: MemTx -> bool) returns (ok: bool)
    ensures ok == forall tx :: tx in invalid ==> !removeFails(tx)
  {
    for i := 0 to |invalid|
      invariant forall tx :: tx in invalid[..i] ==> !removeFails(tx)
    {
      if removeFails(invalid[i]) {
        assert invalid[i] in invalid;
        return false;
      }
    }
    assert invalid[..|invalid|] == invalid;
    ok := true;
  }

  /** `PrepareProposalHandler` over a mempool. `removeFails` says which removals of invalid transactions
      fail with something other than "not found". On success `txs` is the proposal; the selector is cleared. */
  method PrepareProposal<S>(selector: DefaultTxSelector, lim: Limits, verify: (S, MemTx) -> Verdict<S>, v: S,
                            pool: seq<MemTx>, removeFails: MemTx -> bool)
    returns (ok: bool, txs: seq<MemTx>)
    requires selector.State() == Selector(0, 0, [])
    modifies selector
    ensures selector.State() == Selector(0, 0, [])
    ensures var f := Final(v, lim, verify, pool);
      && ok == (!f.signerError && forall tx :: tx in f.invalid ==> !removeFails(tx))
      && (ok ==> txs == f.sel.selected)
  {
    hide Consider;
    var seqs: Seqs := map[];
    var count: nat := 0;
    var invalid: seq<MemTx> := [];
    var state := v;
    var signerError, halted := false, false;
    ghost var h := Start(v);
    var k := 0;
    while k < |pool| && !halted
      invariant k <= |pool| && h == After(v, lim, verify, pool, k)
      invariant h == Handler(selector.State(), seqs, count, invalid, state, halted, signerError)
      invariant signerError ==> halted
      decreases |pool| - k
    {
      var tx, isInvalid := pool[k], false;
      ghost var next := Consider(h, lim, verify, tx);
      state, seqs, count, isInvalid, halted, signerError := Callback(selector, lim, verify, tx, h, state, seqs, count);
      if isInvalid { invalid := invalid + [tx]; }
      k := k + 1;
      h := next;
    }
    if halted { HaltedStays(v, lim, verify, pool, k, |pool|); }
    txs := selector.selectedTxs;
    ok := false;
    if !signerError { ok := RemoveInvalid(invalid, removeFails); }
    selector.Clear();
  }
}
