/** Prepare and Process agree: what one validator proposes, every validator accepts. */
module Agreement {
  import opened Prelude
  import opened Selection
  import opened SelectionLaws

  /** What the ante handler's replay protection keeps: account sequences and used unordered nonces. */
  datatype Accounts = Accounts(sequences: map<string, Uint64>, used: set<string>)

  function SequenceOf(a: Accounts, s: string): Uint64 {
    if s in a.sequences then a.sequences[s] else 0
  }

  function SignersOf(tx: MemTx): set<string> {
    if tx.signers.None? then {} else set d | d in tx.signers.value :: d.signer
  }

  /** An ordered transaction is accepted when every signature carries the stored sequence, an unordered one
      when every signature carries none and no nonce was used before. */
  predicate AnteAccepts(a: Accounts, tx: MemTx) {
    tx.wellFormed && tx.signers.Some? &&
    if tx.unordered then
      tx.nonces !! a.used && forall d :: d in tx.signers.value ==> d.sequence == 0
    else
      forall d :: d in tx.signers.value ==> d.sequence == SequenceOf(a, d.signer)
  }

  /** Acceptance moves every distinct signer's sequence by one, or uses up the nonces; rejection changes nothing. */
  function Ante(a: Accounts, tx: MemTx): Verdict<Accounts> {
    if !AnteAccepts(a, tx) then Verdict(a, false)
    else if tx.unordered then Verdict(a.(used := a.used + tx.nonces), true)
    else
      Verdict(a.(sequences := map s | s in a.sequences.Keys + SignersOf(tx) ::
                                if s in SignersOf(tx) then Add64(SequenceOf(a, s), 1) else a.sequences[s]), true)
  }

  // ---------- the handler ----------

  /** The state after verifying a whole list, and the 64-bit gas sum; nothing when some transaction is refused
      or the sum passes a positive limit. */
  datatype Checked<S> = Checked(state: S, totalTxGas: Uint64)

  function Process<S>(verify: (S, MemTx) -> Verdict<S>, v: S, txs: seq<MemTx>, maxGas: int): Option<Checked<S>> {
    if txs == [] then Some(Checked(v, 0))
    else
      match Process(verify, v, txs[..|txs| - 1], maxGas)
      case None => None
      case Some(c) =>
        var answer := verify(c.state, txs[|txs| - 1]);
        var gas := if maxGas > 0 then Add64(c.totalTxGas, GasOf(txs[|txs| - 1])) else c.totalTxGas;
        if !answer.ok || (maxGas > 0 && gas > maxGas) then None else Some(Checked(answer.state, gas))
  }

  /** `ProcessProposalHandler`. */
  method ProcessProposal<S>(verify: (S, MemTx) -> Verdict<S>, v: S, txs: seq<MemTx>, maxGas: int) returns (accept: bool)
    ensures accept == Process(verify, v, txs, maxGas).Some?
  {
    var state, totalTxGas: Uint64 := v, 0;
    assert txs[..0] == [];
    for i := 0 to |txs|
      invariant Process(verify, v, txs[..i], maxGas) == Some(Checked(state, totalTxGas))
    {
      assert txs[..i + 1][..i] == txs[..i];
      var answer := verify(state, txs[i]);
      if !answer.ok {
        PrefixRefused(verify, v, txs, maxGas, i + 1, |txs|);
        assert txs[..|txs|] == txs;
        return false;
      }
      state := answer.state;
      if maxGas > 0 {
        totalTxGas := Add64(totalTxGas, GasOf(txs[i]));
        if totalTxGas > maxGas {
          PrefixRefused(verify, v, txs, maxGas, i + 1, |txs|);
          assert txs[..|txs|] == txs;
          return false;
        }
      }
    }
    assert txs[..|txs|] == txs;
    accept := true;
  }

  lemma {:induction false} PrefixRefused<S>(verify: (S, MemTx) -> Verdict<S>, v: S, txs: seq<MemTx>, maxGas: int, i: nat, j: nat)
    requires i <= j <= |txs| && Process(verify, v, txs[..i], maxGas).None?
    ensures Process(verify, v, txs[..j], maxGas).None?
    decreases j
  {
    if i < j {
      PrefixRefused(verify, v, txs, maxGas, i, j - 1);
      assert txs[..j][..j - 1] == txs[..j - 1];
    }
  }

  // ---------- a list on the ante handler alone ----------

  /** The accounts after a list of which the refused transactions changed nothing. */
  function Replayed(a: Accounts, txs: seq<MemTx>): Accounts {
    if txs == [] then a else Ante(Replayed(a, txs[..|txs| - 1]), txs[|txs| - 1]).state
  }

  predicate AllAccepted(a: Accounts, txs: seq<MemTx>) {
    txs == [] || (AllAccepted(a, txs[..|txs| - 1]) && AnteAccepts(Replayed(a, txs[..|txs| - 1]), txs[|txs| - 1]))
  }

  /** The sequence of the first ordered transaction that `s` signed. */
  function FirstSeq(txs: seq<MemTx>, s: string): Option<Uint64> {
    if txs == [] then None
    else if FirstSeq(txs[..|txs| - 1], s).Some? then FirstSeq(txs[..|txs| - 1], s)
    else SeqIn(txs[|txs| - 1], s)
  }

  /** Everybody's first transaction of the list carries the stored sequence. */
  ghost predicate StartsCommitted(a: Accounts, txs: seq<MemTx>) {
    forall s :: FirstSeq(txs, s).Some? ==> FirstSeq(txs, s).value == SequenceOf(a, s)
  }

  lemma {:induction false} OneMore(a: Accounts, txs: seq<MemTx>, tx: MemTx)
    ensures Replayed(a, txs + [tx]) == Ante(Replayed(a, txs), tx).state
    ensures AllAccepted(a, txs + [tx]) <==> AllAccepted(a, txs) && AnteAccepts(Replayed(a, txs), tx)
    ensures forall s :: FirstSeq(txs + [tx], s) == if FirstSeq(txs, s).Some? then FirstSeq(txs, s) else SeqIn(tx, s)
  {
    hide Ante, AnteAccepts, SeqIn;
    assert (txs + [tx])[..|txs|] == txs;
  }

  // ---------- replay protection ----------

  /** What an accepted transaction leaves: an ordered one each signer's sequence one higher, around 2^64, an unordered one
      its nonces used, and nothing else changed. An unordered one carries no sequences and only fresh nonces. */
  lemma {:induction false} AcceptanceExactly(a: Accounts, tx: MemTx)
    requires tx.wellFormed && tx.signers.Some?
    ensures tx.unordered ==>
      && (AnteAccepts(a, tx) <==> (forall n :: n in tx.nonces ==> n !in a.used) && forall d :: d in tx.signers.value ==> d.sequence == 0)
      && (AnteAccepts(a, tx) ==> Ante(a, tx).state.sequences == a.sequences && forall n :: n in Ante(a, tx).state.used <==> n in a.used || n in tx.nonces)
    ensures !tx.unordered ==>
      && (AnteAccepts(a, tx) <==> forall d :: d in tx.signers.value ==> d.sequence == SequenceOf(a, d.signer))
      && (AnteAccepts(a, tx) ==>
            && Ante(a, tx).state.used == a.used
            && forall d :: d in tx.signers.value ==> SequenceOf(Ante(a, tx).state, d.signer) == (d.sequence + 1) % 0x1_0000_0000_0000_0000)
    ensures !AnteAccepts(a, tx) ==> Ante(a, tx).state == a && !Ante(a, tx).ok
  {
  }

  /** No replay: a signed ordered transaction is refused on what its acceptance leaves; an unordered one with a nonce is
      refused from then on, whatever comes in between. */
  lemma {:induction false} AReplayIsRefused(a: Accounts, tx: MemTx, txs: seq<MemTx>)
    requires AnteAccepts(a, tx)
    ensures !tx.unordered && tx.signers.value != [] ==> !AnteAccepts(Ante(a, tx).state, tx)
    ensures tx.unordered && tx.nonces != {} ==> !AnteAccepts(Replayed(Ante(a, tx).state, txs), tx)
  {
    if !tx.unordered && tx.signers.value != [] {
      var d := tx.signers.value[0];
      AcceptanceExactly(a, tx);
      NextDiffers(d.sequence);
    }
    if tx.unordered && tx.nonces != {} {
      var n :| n in tx.nonces;
      UsedStays(Ante(a, tx).state, txs, n);
    }
  }

  lemma {:induction false} UsedStays(a: Accounts, txs: seq<MemTx>, n: string)
    requires n in a.used
    ensures n in Replayed(a, txs).used
  {
    hide Ante;
    if txs != [] {
      UsedStays(a, txs[..|txs| - 1], n);
      UsedOnlyGrows(Replayed(a, txs[..|txs| - 1]), txs[|txs| - 1]);
    }
  }

  // ---------- entries and sequences ----------

  /** All entries of one signer in an accepted transaction agree, so the last one is any of them. */
  lemma {:induction false} LastEntry(a: Accounts, tx: MemTx, d: SignerData)
    requires !tx.unordered && AnteAccepts(a, tx) && d in tx.signers.value
    ensures SeqIn(tx, d.signer) == Some(d.sequence)
  {
    SeqForFinds(tx.signers.value, d);
  }

  lemma {:induction false} SeqForFinds(signers: seq<SignerData>, d: SignerData)
    requires d in signers && forall e :: e in signers && e.signer == d.signer ==> e.sequence == d.sequence
    ensures SeqFor(signers, d.signer) == Some(d.sequence)
  {
    var n := |signers| - 1;
    if signers[n].signer != d.signer {
      SeqForFinds(signers[..n], d);
    }
  }

  lemma {:induction false} SeqForIsSigner(signers: seq<SignerData>, s: string)
    ensures SeqFor(signers, s).Some? <==> exists d :: d in signers && d.signer == s
  {
    if signers != [] {
      var n := |signers| - 1;
      SeqForIsSigner(signers[..n], s);
      assert forall d :: d in signers <==> d in signers[..n] || d == signers[n];
    }
  }

  /** What acceptance does to the sequence of one account. */
  lemma {:induction false} AnteMovesSigners(a: Accounts, tx: MemTx, s: string)
    requires AnteAccepts(a, tx)
    ensures SequenceOf(Ante(a, tx).state, s) ==
      if !tx.unordered && SeqIn(tx, s).Some? then Add64(SequenceOf(a, s), 1) else SequenceOf(a, s)
  {
    if !tx.unordered { SeqForIsSigner(tx.signers.value, s); }
  }

  lemma {:induction false} SignedEntry(a: Accounts, tx: MemTx, s: string)
    requires !tx.unordered && AnteAccepts(a, tx) && SeqIn(tx, s).Some?
    ensures SeqIn(tx, s).value == SequenceOf(a, s)
  {
    SeqForIsSigner(tx.signers.value, s);
    var d :| d in tx.signers.value && d.signer == s;
    LastEntry(a, tx, d);
  }

  lemma {:induction false} UsedOnlyGrows(a: Accounts, tx: MemTx)
    ensures a.used <= Ante(a, tx).state.used
  {
  }

  /** Where all entries of a signer agree, acceptance is a matter of signers alone. */
  lemma {:induction false} AcceptedThereExactly(v: Accounts, p: Accounts, tx: MemTx)
    requires AnteAccepts(v, tx) && p.used <= v.used
    ensures AnteAccepts(p, tx) <==> forall s :: SeqIn(tx, s).Some? ==> SeqIn(tx, s).value == SequenceOf(p, s)
  {
    if !tx.unordered {
      if forall s :: SeqIn(tx, s).Some? ==> SeqIn(tx, s).value == SequenceOf(p, s) {
        forall d | d in tx.signers.value ensures d.sequence == SequenceOf(p, d.signer) { LastEntry(v, tx, d); }
      }
      if AnteAccepts(p, tx) {
        forall s | SeqIn(tx, s).Some? ensures SeqIn(tx, s).value == SequenceOf(p, s) { SignedEntry(p, tx, s); }
      }
    }
  }

  lemma {:induction false} RefusedStays(a: Accounts, tx: MemTx)
    requires !AnteAccepts(a, tx)
    ensures Ante(a, tx).state == a
  {
  }

  // ---------- one signer ----------

  function Look(known: Seqs, s: string): Option<Uint64> {
    if s in known then Some(known[s]) else None
  }

  /** What Prepare knows of one signer whose committed sequence is `base`: `p` is its sequence where the
      proposal so far was replayed, `v` where Prepare verifies, `first` the first one it was selected with,
      and `known` the sender map's entry. */
  predicate Tracks(base: Uint64, p: Uint64, v: Uint64, first: Option<Uint64>, known: Option<Uint64>) {
    && (first.None? ==> p == base)
    && (known.None? ==> first.None?)
    && (known.Some? ==> p == Add64(known.value, 1) || v != Add64(known.value, 1))
  }

  function Moved(seq0: Uint64, carried: Option<Uint64>): Uint64 {
    if carried.Some? then Add64(seq0, 1) else seq0
  }

  /** A transaction carrying `m` for the signer passed the sender map and the ante handler. */
  predicate Carries(v: Uint64, known: Option<Uint64>, m: Option<Uint64>) {
    m.Some? ==> m.value == v && (known.Some? ==> m.value == Add64(known.value, 1))
  }

  lemma {:induction false} NextDiffers(x: Uint64)
    ensures Add64(x, 1) != x && Add64(Sub64(x, 1), 1) == x
  {
  }

  /** Selected, it replays for this signer exactly if the signer's first selected sequence is the committed one. */
  lemma {:induction false} ReplaysForSigner(base: Uint64, p: Uint64, v: Uint64, first: Option<Uint64>, known: Option<Uint64>, m: Option<Uint64>)
    requires Tracks(base, p, v, first, known) && Carries(v, known, m) && (first.Some? ==> first.value == base)
    ensures var now := if first.Some? then first else m;
      (m.Some? ==> m.value == p) <==> (now.Some? ==> now.value == base)
  {
    hide Add64;
  }

  lemma {:induction false} TracksSelected(base: Uint64, p: Uint64, v: Uint64, first: Option<Uint64>, known: Option<Uint64>, m: Option<Uint64>)
    requires Tracks(base, p, v, first, known) && Carries(v, known, m) && (m.Some? ==> m.value == p)
    ensures Tracks(base, Moved(p, m), Moved(v, m), if first.Some? then first else m, if m.Some? then m else known)
  {
    hide Add64;
  }

  /** Accepted by the ante handler and not selected, because of a later failure or because it did not fit. */
  lemma {:induction false} TracksLeftOut(base: Uint64, p: Uint64, v: Uint64, first: Option<Uint64>, known: Option<Uint64>, m: Option<Uint64>)
    requires Tracks(base, p, v, first, known) && Carries(v, known, m)
    ensures Tracks(base, p, Moved(v, m), first, known)
    ensures Tracks(base, p, Moved(v, m), first, if known.None? && m.Some? then Some(Sub64(m.value, 1)) else known)
  {
    hide Add64, Sub64;
    if m.Some? { NextDiffers(m.value); }
  }

  // ---------- Prepare's handler ----------

  /** What is asked of a verifier on the mempool's transactions: it accepts only what replay protection accepts,
      and what it accepts moves the accounts as above. It may refuse anything else, for whatever the store holds,
      and a refusal may or may not leave the accounts moved. */
  ghost predicate MovesLikeAnte<S(!new)>(verify: (S, MemTx) -> Verdict<S>, abs: S -> Accounts, pool: seq<MemTx>) {
    forall v, tx {:trigger verify(v, tx)} :: tx in pool ==>
      && (verify(v, tx).ok ==> AnteAccepts(abs(v), tx))
      && (abs(verify(v, tx).state) == Ante(abs(v), tx).state || (!verify(v, tx).ok && abs(verify(v, tx).state) == abs(v)))
  }

  ghost predicate TracksAt<S>(a: Accounts, h: Handler<S>, abs: S -> Accounts, s: string) {
    Tracks(SequenceOf(a, s), SequenceOf(Replayed(a, h.sel.selected), s), SequenceOf(abs(h.verifier), s),
           FirstSeq(h.sel.selected, s), Look(h.seqs, s))
  }

  /** As long as the proposal replays, the sender map and the verifier are in step with the replay. */
  ghost predicate InStep<S>(a: Accounts, h: Handler<S>, abs: S -> Accounts) {
    && h.count == |h.sel.selected|
    && (AllAccepted(a, h.sel.selected) ==>
          && Replayed(a, h.sel.selected).used <= abs(h.verifier).used
          && forall s :: TracksAt(a, h, abs, s))
  }

  ghost predicate Agrees<S>(a: Accounts, h: Handler<S>, abs: S -> Accounts) {
    && (AllAccepted(a, h.sel.selected) <==> StartsCommitted(a, h.sel.selected))
    && (!h.halted ==> InStep(a, h, abs))
  }

  /** The transaction passes the sender map and the ante handler. */
  predicate Passes<S>(h: Handler<S>, abs: S -> Accounts, tx: MemTx) {
    !h.halted && (tx.unordered || tx.signers.Some?) && SeqsOf(h, tx).Some? && AnteAccepts(abs(h.verifier), tx)
  }

  /** It passes, and the accounts stay moved, whatever the answer is. */
  predicate Lands<S>(h: Handler<S>, verify: (S, MemTx) -> Verdict<S>, abs: S -> Accounts, tx: MemTx) {
    Passes(h, abs, tx) && abs(verify(h.verifier, tx).state) == Ante(abs(h.verifier), tx).state
  }

  /** It is refused and leaves no trace in the accounts. */
  predicate Traceless<S>(h: Handler<S>, verify: (S, MemTx) -> Verdict<S>, abs: S -> Accounts, tx: MemTx) {
    !verify(h.verifier, tx).ok && abs(verify(h.verifier, tx).state) == abs(h.verifier)
  }

  lemma {:induction false} LandsPasses<S>(h: Handler<S>, verify: (S, MemTx) -> Verdict<S>, abs: S -> Accounts, tx: MemTx)
    ensures Lands(h, verify, abs, tx) ==> Passes(h, abs, tx)
  {
  }

  lemma {:induction false} LandsOrNot<S(!new)>(h: Handler<S>, verify: (S, MemTx) -> Verdict<S>, abs: S -> Accounts, tx: MemTx, pool: seq<MemTx>)
    requires MovesLikeAnte(verify, abs, pool) && tx in pool && Passes(h, abs, tx)
    ensures Lands(h, verify, abs, tx) || Traceless(h, verify, abs, tx)
  {
    hide Ante, AnteAccepts, Passes;
    assert !verify(h.verifier, tx).ok || verify(h.verifier, tx).ok;
  }

  lemma {:induction false} PassingCarries<S>(h: Handler<S>, abs: S -> Accounts, tx: MemTx, s: string)
    requires Passes(h, abs, tx)
    ensures Carries(SequenceOf(abs(h.verifier), s), Look(h.seqs, s), SeqIn(tx, s))
    ensures SeqIn(tx, s) == Look(SeqsOf(h, tx).value, s)
  {
    hide AnteAccepts, SeqsOf, Add64;
    SeqsCollect(h, tx);
    if SeqIn(tx, s).Some? { SignedEntry(abs(h.verifier), tx, s); }
  }

  lemma {:induction false} PassingMoves<S>(h: Handler<S>, abs: S -> Accounts, tx: MemTx, a: Accounts, s: string)
    requires AnteAccepts(a, tx)
    ensures SequenceOf(Ante(a, tx).state, s) == Moved(SequenceOf(a, s), SeqIn(tx, s))
  {
    hide AnteAccepts, Ante;
    AnteMovesSigners(a, tx, s);
    if tx.unordered { UnorderedSignsNothing(tx, s); }
  }

  /** The callback on a transaction that does not pass, or leaves no trace, leaves what matters here alone. */
  lemma {:induction false} NotPassing<S(!new)>(h: Handler<S>, lim: Limits, verify: (S, MemTx) -> Verdict<S>, abs: S -> Accounts, tx: MemTx, pool: seq<MemTx>)
    requires MovesLikeAnte(verify, abs, pool) && tx in pool && !h.halted && (!Passes(h, abs, tx) || Traceless(h, verify, abs, tx))
    ensures var t := Consider(h, lim, verify, tx);
      t.sel == h.sel && t.count == h.count && t.seqs == h.seqs && abs(t.verifier) == abs(h.verifier)
  {
    hide Select, Full, Noted, SeqsOf, AnteAccepts;
    assert verify(h.verifier, tx).ok ==> AnteAccepts(abs(h.verifier), tx);
  }

  /** The callback on one that lands. */
  lemma {:induction false} Passing<S(!new)>(h: Handler<S>, lim: Limits, verify: (S, MemTx) -> Verdict<S>, abs: S -> Accounts, tx: MemTx, pool: seq<MemTx>)
    requires MovesLikeAnte(verify, abs, pool) && tx in pool && Lands(h, verify, abs, tx) && h.count == |h.sel.selected|
    ensures var t := Consider(h, lim, verify, tx);
      var ok := verify(h.verifier, tx).ok;
      && abs(t.verifier) == Ante(abs(h.verifier), tx).state
      && t.sel.selected == (if ok && Fits(h.sel, lim, tx) then h.sel.selected + [tx] else h.sel.selected)
      && (!t.halted ==>
            && t.count == |t.sel.selected|
            && t.seqs == if ok then Noted(h.seqs, SeqsOf(h, tx).value, Fits(h.sel, lim, tx)) else h.seqs)
  {
    hide Fits, Full, Noted, AnteAccepts, Ante;
    if tx.unordered { NoteNone(h.seqs, Fits(h.sel, lim, tx)); }
  }

  /** Selecting a transaction: the longer proposal replays exactly if it starts at the committed sequences. */
  lemma {:induction false} SelectedAgrees<S>(a: Accounts, h: Handler<S>, abs: S -> Accounts, tx: MemTx)
    requires Agrees(a, h, abs) && Passes(h, abs, tx)
    ensures AllAccepted(a, h.sel.selected + [tx]) <==> StartsCommitted(a, h.sel.selected + [tx])
  {
    hide Passes, AnteAccepts, SeqsOf, SequenceOf, Tracks, Carries;
    var sel := h.sel.selected;
    OneMore(a, sel, tx);
    PassesIsAccepted(h, abs, tx);
    if AllAccepted(a, sel) {
      var p := Replayed(a, sel);
      AcceptedThereExactly(abs(h.verifier), p, tx);
      forall s ensures (SeqIn(tx, s).Some? ==> SeqIn(tx, s).value == SequenceOf(p, s))
                  <==> (FirstSeq(sel + [tx], s).Some? ==> FirstSeq(sel + [tx], s).value == SequenceOf(a, s))
      {
        assert TracksAt(a, h, abs, s);
        PassingCarries(h, abs, tx, s);
        ReplaysForSigner(SequenceOf(a, s), SequenceOf(p, s), SequenceOf(abs(h.verifier), s), FirstSeq(sel, s), Look(h.seqs, s), SeqIn(tx, s));
      }
    } else {
      var s :| FirstSeq(sel, s).Some? && FirstSeq(sel, s).value != SequenceOf(a, s);
      assert FirstSeq(sel + [tx], s) == FirstSeq(sel, s);
    }
  }

  lemma {:induction false} PassesIsAccepted<S>(h: Handler<S>, abs: S -> Accounts, tx: MemTx)
    requires Passes(h, abs, tx)
    ensures !h.halted && (tx.unordered || tx.signers.Some?) && SeqsOf(h, tx).Some? && AnteAccepts(abs(h.verifier), tx)
  {
  }

  /** A selected transaction that replays leaves the handler in step. */
  lemma {:induction false} SelectedInStep<S>(a: Accounts, h: Handler<S>, abs: S -> Accounts, tx: MemTx, t: Handler<S>)
    requires InStep(a, h, abs) && Passes(h, abs, tx) && AllAccepted(a, h.sel.selected + [tx])
    requires abs(t.verifier) == Ante(abs(h.verifier), tx).state && t.sel.selected == h.sel.selected + [tx]
    requires t.count == |t.sel.selected| && t.seqs == Noted(h.seqs, SeqsOf(h, tx).value, true)
    ensures InStep(a, t, abs)
  {
    hide Passes, AnteAccepts, SeqsOf, SequenceOf, Tracks, Carries, Noted, Ante, Look, Moved;
    var sel := h.sel.selected;
    var p, v := Replayed(a, sel), abs(h.verifier);
    OneMore(a, sel, tx);
    PassesIsAccepted(h, abs, tx);
    var m := SeqsOf(h, tx).value;
    AcceptedThereExactly(v, p, tx);
    UsedInStep(v, p, tx);
    forall s ensures TracksAt(a, t, abs, s) {
      assert TracksAt(a, h, abs, s);
      PassingCarries(h, abs, tx, s);
      PassingMoves(h, abs, tx, v, s);
      PassingMoves(h, abs, tx, p, s);
      NotedSelected(h.seqs, m, s);
      TracksSelected(SequenceOf(a, s), SequenceOf(p, s), SequenceOf(v, s), FirstSeq(sel, s), Look(h.seqs, s), SeqIn(tx, s));
    }
  }

  lemma {:induction false} NotedSelected(known: Seqs, m: Seqs, s: string)
    ensures Look(Noted(known, m, true), s) == if Look(m, s).Some? then Look(m, s) else Look(known, s)
  {
    hide Sub64;
  }

  lemma {:induction false} NotedLeftOut(known: Seqs, m: Seqs, s: string)
    ensures Look(Noted(known, m, false), s) ==
      if Look(known, s).None? && Look(m, s).Some? then Some(Sub64(Look(m, s).value, 1)) else Look(known, s)
  {
    hide Sub64;
  }

  lemma {:induction false} UsedInStep(v: Accounts, p: Accounts, tx: MemTx)
    requires p.used <= v.used && AnteAccepts(v, tx) && AnteAccepts(p, tx)
    ensures Ante(p, tx).state.used <= Ante(v, tx).state.used
  {
  }

  /** So does one that passes and is left out, whether it fails later or does not fit. */
  lemma {:induction false} LeftOutInStep<S>(a: Accounts, h: Handler<S>, abs: S -> Accounts, tx: MemTx, t: Handler<S>)
    requires InStep(a, h, abs) && Passes(h, abs, tx) && t.sel.selected == h.sel.selected
    requires abs(t.verifier) == Ante(abs(h.verifier), tx).state && t.count == h.count
    requires t.seqs == h.seqs || t.seqs == Noted(h.seqs, SeqsOf(h, tx).value, false)
    ensures InStep(a, t, abs)
  {
    hide Passes, AnteAccepts, SeqsOf, SequenceOf, Tracks, Carries, Noted, Ante, Look, Moved;
    if AllAccepted(a, h.sel.selected) {
      var sel := h.sel.selected;
      var p, v := Replayed(a, sel), abs(h.verifier);
      PassesIsAccepted(h, abs, tx);
      var m := SeqsOf(h, tx).value;
      UsedOnlyGrows(v, tx);
      forall s ensures TracksAt(a, t, abs, s) {
        assert TracksAt(a, h, abs, s);
        PassingCarries(h, abs, tx, s);
        PassingMoves(h, abs, tx, v, s);
        NotedLeftOut(h.seqs, m, s);
        TracksLeftOut(SequenceOf(a, s), SequenceOf(p, s), SequenceOf(v, s), FirstSeq(sel, s), Look(h.seqs, s), SeqIn(tx, s));
      }
    }
  }

  /** The relation survives every transaction of the mempool. */
  lemma {:induction false} ConsiderAgrees<S(!new)>(a: Accounts, h: Handler<S>, lim: Limits, verify: (S, MemTx) -> Verdict<S>, abs: S -> Accounts, tx: MemTx, pool: seq<MemTx>)
    requires MovesLikeAnte(verify, abs, pool) && tx in pool && Agrees(a, h, abs)
    ensures Agrees(a, Consider(h, lim, verify, tx), abs)
  {
    hide Consider, Passes, Lands, Traceless, Fits, Noted, SeqsOf, Ante, AllAccepted, StartsCommitted, TracksAt, MovesLikeAnte;
    LandsPasses(h, verify, abs, tx);
    var t := Consider(h, lim, verify, tx);
    if h.halted {
      HaltedIgnores(h, lim, verify, tx);
    } else if !Passes(h, abs, tx) || Traceless(h, verify, abs, tx) {
      NotPassing(h, lim, verify, abs, tx, pool);
      StillInStep(a, h, t, abs);
    } else {
      LandsOrNot(h, verify, abs, tx, pool);
      Passing(h, lim, verify, abs, tx, pool);
      if t.sel.selected != h.sel.selected {
        SelectedAgrees(a, h, abs, tx);
        if !t.halted {
          if AllAccepted(a, t.sel.selected) { SelectedInStep(a, h, abs, tx, t); }
        }
      } else if !t.halted {
        LeftOutInStep(a, h, abs, tx, t);
      }
    }
  }

  lemma {:induction false} StillInStep<S>(a: Accounts, h: Handler<S>, t: Handler<S>, abs: S -> Accounts)
    requires InStep(a, h, abs) && t.sel == h.sel && t.count == h.count && t.seqs == h.seqs && abs(t.verifier) == abs(h.verifier)
    ensures InStep(a, t, abs)
  {
    hide Tracks, AllAccepted, Replayed, FirstSeq, Look, SequenceOf;
    forall s | AllAccepted(a, h.sel.selected) ensures TracksAt(a, t, abs, s) { assert TracksAt(a, h, abs, s); }
  }

  lemma {:induction false} PrepareAgrees<S(!new)>(v: S, lim: Limits, verify: (S, MemTx) -> Verdict<S>, abs: S -> Accounts, pool: seq<MemTx>, k: nat)
    requires k <= |pool| && MovesLikeAnte(verify, abs, pool)
    ensures Agrees(abs(v), After(v, lim, verify, pool, k), abs)
  {
    if k > 0 {
      hide Consider, Agrees, MovesLikeAnte;
      PrepareAgrees(v, lim, verify, abs, pool, k - 1);
      ConsiderAgrees(abs(v), After(v, lim, verify, pool, k - 1), lim, verify, abs, pool[k - 1], pool);
    }
  }

  // ---------- both handlers ----------

  /** Both handlers read the block gas limit `g` from the same parameters; Prepare takes it as unsigned. */
  function PrepareGasLimit(g: int): Uint64 { g % TWO64 }

  /** The verifier's state after a list, whatever it answered. */
  function Rerun<S>(verify: (S, MemTx) -> Verdict<S>, v: S, txs: seq<MemTx>): S {
    if txs == [] then v else verify(Rerun(verify, v, txs[..|txs| - 1]), txs[|txs| - 1]).state
  }

  /** What replay protection accepts along a list is accepted altogether: nothing is refused for what else the
      store holds, or past the ante handler. */
  predicate NothingElseRefused<S>(verify: (S, MemTx) -> Verdict<S>, abs: S -> Accounts, v: S, txs: seq<MemTx>) {
    txs == [] ||
    (NothingElseRefused(verify, abs, v, txs[..|txs| - 1])
     && var state := Rerun(verify, v, txs[..|txs| - 1]);
       AnteAccepts(abs(state), txs[|txs| - 1]) ==> verify(state, txs[|txs| - 1]).ok)
  }

  ghost predicate AllIn(txs: seq<MemTx>, pool: seq<MemTx>) { forall tx :: tx in txs ==> tx in pool }

  lemma {:induction false} RerunIsReplayed<S(!new)>(verify: (S, MemTx) -> Verdict<S>, abs: S -> Accounts, v: S, txs: seq<MemTx>, pool: seq<MemTx>)
    requires MovesLikeAnte(verify, abs, pool) && AllIn(txs, pool)
    requires AllAccepted(abs(v), txs) && NothingElseRefused(verify, abs, v, txs)
    ensures abs(Rerun(verify, v, txs)) == Replayed(abs(v), txs)
  {
    hide Ante, AnteAccepts;
    if txs != [] {
      RerunIsReplayed(verify, abs, v, txs[..|txs| - 1], pool);
      assert txs[|txs| - 1] in pool;
    }
  }

  lemma {:induction false} TotalGasOf(txs: seq<MemTx>)
    requires txs != []
    ensures Mod64(TotalGas(txs)) == Add64(Mod64(TotalGas(txs[..|txs| - 1])), GasOf(txs[|txs| - 1]))
  {
    hide GasOf, Mod64, Add64;
    RunningSum(TotalGas(txs[..|txs| - 1]), GasOf(txs[|txs| - 1]));
  }

  /** Process on a list within the gas limit, exactly. */
  lemma {:induction false} ProcessExactly<S(!new)>(verify: (S, MemTx) -> Verdict<S>, abs: S -> Accounts, v: S, txs: seq<MemTx>, lim: Limits, g: int, pool: seq<MemTx>)
    requires MovesLikeAnte(verify, abs, pool) && AllIn(txs, pool) && RunningSumsFit(txs, lim) && (g > 0 ==> lim.maxBlockGas == g)
    ensures Process(verify, v, txs, g).Some? <==> AllAccepted(abs(v), txs) && NothingElseRefused(verify, abs, v, txs)
    ensures Process(verify, v, txs, g).Some? ==>
      && Process(verify, v, txs, g).value.state == Rerun(verify, v, txs)
      && (g > 0 ==> Process(verify, v, txs, g).value.totalTxGas == Mod64(TotalGas(txs)))
  {
    hide Ante, AnteAccepts, Add64, Mod64, GasOf, TotalGas, TotalBytes;
    if txs == [] {
      NothingGas();
    } else {
      var front, tx := txs[..|txs| - 1], txs[|txs| - 1];
      ProcessExactly(verify, abs, v, front, lim, g, pool);
      TotalGasOf(txs);
      if Process(verify, v, front, g).Some? { RerunIsReplayed(verify, abs, v, front, pool); }
      assert tx in pool;
      assert verify(Rerun(verify, v, front), tx).ok ==> AnteAccepts(abs(Rerun(verify, v, front)), tx);
    }
  }

  /** Every answer along a list is a yes. */
  predicate AllOk<S>(verify: (S, MemTx) -> Verdict<S>, v: S, txs: seq<MemTx>) {
    txs == [] || (AllOk(verify, v, txs[..|txs| - 1]) && verify(Rerun(verify, v, txs[..|txs| - 1]), txs[|txs| - 1]).ok)
  }

  /** Process on any list whatever, exactly: every transaction verifies in the state the ones before it left, and with
      a positive limit no 64-bit running sum of their gas is above it. */
  lemma {:induction false} ProcessAcceptsExactlyWhen<S>(verify: (S, MemTx) -> Verdict<S>, v: S, txs: seq<MemTx>, g: int)
    ensures Process(verify, v, txs, g).Some? <==>
      AllOk(verify, v, txs) && (g > 0 ==> forall k :: 0 < k <= |txs| ==> TotalGas(txs[..k]) % 0x1_0000_0000_0000_0000 <= g)
    ensures Process(verify, v, txs, g).Some? ==>
      && Process(verify, v, txs, g).value.state == Rerun(verify, v, txs)
      && (g > 0 ==> Process(verify, v, txs, g).value.totalTxGas == Mod64(TotalGas(txs)))
  {
    hide Add64, GasOf, TotalGas;
    NothingGas();
    if txs != [] {
      var front := txs[..|txs| - 1];
      ProcessAcceptsExactlyWhen(verify, v, front, g);
      TotalGasOf(txs);
      forall k | 0 < k <= |front| ensures txs[..k] == front[..k] {}
      assert txs[..|txs|] == txs;
    }
  }

  lemma {:induction false} NothingGas()
    ensures Mod64(TotalGas([])) == 0
  {
  }

  lemma {:induction false} SelectedFromPool(txs: seq<MemTx>, pool: seq<MemTx>)
    requires Subsequence(txs, pool)
    ensures AllIn(txs, pool)
    decreases |pool|
  {
    if txs != [] {
      if Subsequence(txs, pool[..|pool| - 1]) { SelectedFromPool(txs, pool[..|pool| - 1]); }
      else {
        SelectedFromPool(txs[..|txs| - 1], pool[..|pool| - 1]);
        assert txs == txs[..|txs| - 1] + [pool[|pool| - 1]];
      }
    }
  }

  lemma {:induction false} SelectedIsFromPool<S>(v: S, lim: Limits, verify: (S, MemTx) -> Verdict<S>, pool: seq<MemTx>)
    ensures AllIn(Final(v, lim, verify, pool).sel.selected, pool)
  {
    hide After, AllIn, Subsequence, SelectorInv;
    ProposalIsOrderedAndFits(v, lim, verify, pool, |pool|);
    assert pool[..|pool|] == pool;
    SelectedFromPool(Final(v, lim, verify, pool).sel.selected, pool);
  }

  /** Agreement, exactly. For every mempool order and every block gas parameter, and for verifiers that accept
      only what replay protection accepts, whatever else they refuse: the list Prepare returns passes Process
      from the same base state, verification and gas, if and only if every signer's first selected transaction
      carries the committed sequence and Process refuses none that replay protection accepts. */
  lemma {:induction false} AgreementExactly<S(!new)>(prepare: (S, MemTx) -> Verdict<S>, process: (S, MemTx) -> Verdict<S>, abs: S -> Accounts,
                                                     v: S, maxTxBytes: Uint64, g: int, pool: seq<MemTx>)
    requires g < TWO64 && MovesLikeAnte(prepare, abs, pool) && MovesLikeAnte(process, abs, pool)
    ensures var txs := Final(v, Limits(maxTxBytes, PrepareGasLimit(g)), prepare, pool).sel.selected;
      Process(process, v, txs, g).Some? <==> StartsCommitted(abs(v), txs) && NothingElseRefused(process, abs, v, txs)
  {
    hide After, Process, StartsCommitted, AllAccepted, NothingElseRefused, RunningSumsFit, MovesLikeAnte, Subsequence;
    var lim := Limits(maxTxBytes, PrepareGasLimit(g));
    PrepareAgrees(v, lim, prepare, abs, pool, |pool|);
    ProposalIsOrderedAndFits(v, lim, prepare, pool, |pool|);
    SelectedIsFromPool(v, lim, prepare, pool);
    ProcessExactly(process, abs, v, Final(v, lim, prepare, pool).sel.selected, lim, g, pool);
  }

  // ---------- when refusals leave no trace ----------

  /** Among the first `k` transactions every one that Prepare refused left no trace in the accounts. */
  ghost predicate PreparedCleanly<S>(verify: (S, MemTx) -> Verdict<S>, abs: S -> Accounts, v: S, lim: Limits, pool: seq<MemTx>, k: nat)
    requires k <= |pool|
  {
    forall j {:trigger After(v, lim, verify, pool, j)} :: 0 <= j < k && Passes(After(v, lim, verify, pool, j), abs, pool[j])
      ==> verify(After(v, lim, verify, pool, j).verifier, pool[j]).ok || Traceless(After(v, lim, verify, pool, j), verify, abs, pool[j])
  }

  /** Then a signer the sender map does not know still has the committed sequence. */
  ghost predicate UnknownUnmoved<S>(a: Accounts, h: Handler<S>, abs: S -> Accounts) {
    && StartsCommitted(a, h.sel.selected)
    && (!h.halted ==> forall s :: s !in h.seqs ==> SequenceOf(abs(h.verifier), s) == SequenceOf(a, s))
  }

  lemma {:induction false} UnmovedReplays(base: Uint64, p: Uint64, v: Uint64, first: Option<Uint64>, known: Option<Uint64>, m: Option<Uint64>)
    requires Tracks(base, p, v, first, known) && Carries(v, known, m) && (known.None? ==> v == base)
    ensures first.None? && m.Some? ==> m.value == base
  {
    hide Add64;
  }

  lemma {:induction false} SelectedStarts<S>(a: Accounts, h: Handler<S>, abs: S -> Accounts, tx: MemTx)
    requires Agrees(a, h, abs) && UnknownUnmoved(a, h, abs) && Passes(h, abs, tx)
    ensures StartsCommitted(a, h.sel.selected + [tx])
  {
    hide Passes, AnteAccepts, SeqsOf, SequenceOf, Tracks, Carries, AllAccepted;
    var sel := h.sel.selected;
    OneMore(a, sel, tx);
    PassesIsAccepted(h, abs, tx);
    forall s | FirstSeq(sel + [tx], s).Some? ensures FirstSeq(sel + [tx], s).value == SequenceOf(a, s) {
      assert TracksAt(a, h, abs, s);
      PassingCarries(h, abs, tx, s);
      UnmovedReplays(SequenceOf(a, s), SequenceOf(Replayed(a, sel), s), SequenceOf(abs(h.verifier), s), FirstSeq(sel, s), Look(h.seqs, s), SeqIn(tx, s));
    }
  }

  lemma {:induction false} PassingStaysUnmoved<S>(a: Accounts, h: Handler<S>, abs: S -> Accounts, tx: MemTx, added: bool, s: string)
    requires Passes(h, abs, tx) && s !in Noted(h.seqs, SeqsOf(h, tx).value, added)
    ensures s !in h.seqs && SequenceOf(Ante(abs(h.verifier), tx).state, s) == SequenceOf(abs(h.verifier), s)
  {
    hide AnteAccepts, SeqsOf, SequenceOf, Ante, Sub64;
    PassingCarries(h, abs, tx, s);
    PassingMoves(h, abs, tx, abs(h.verifier), s);
  }

  lemma {:induction false} CleanStep<S(!new)>(a: Accounts, h: Handler<S>, lim: Limits, verify: (S, MemTx) -> Verdict<S>, abs: S -> Accounts, tx: MemTx, pool: seq<MemTx>)
    requires MovesLikeAnte(verify, abs, pool) && tx in pool && Agrees(a, h, abs) && UnknownUnmoved(a, h, abs)
    requires Passes(h, abs, tx) ==> verify(h.verifier, tx).ok || Traceless(h, verify, abs, tx)
    ensures UnknownUnmoved(a, Consider(h, lim, verify, tx), abs)
  {
    hide Consider, Passes, Lands, Traceless, Fits, Noted, SeqsOf, Ante, AllAccepted, StartsCommitted, TracksAt, MovesLikeAnte, SequenceOf;
    LandsPasses(h, verify, abs, tx);
    var t := Consider(h, lim, verify, tx);
    if h.halted {
      HaltedIgnores(h, lim, verify, tx);
    } else if !Passes(h, abs, tx) || Traceless(h, verify, abs, tx) {
      NotPassing(h, lim, verify, abs, tx, pool);
    } else {
      LandsOrNot(h, verify, abs, tx, pool);
      Passing(h, lim, verify, abs, tx, pool);
      SelectedStarts(a, h, abs, tx);
      PassesIsAccepted(h, abs, tx);
      forall s | !t.halted && s !in t.seqs ensures SequenceOf(abs(t.verifier), s) == SequenceOf(a, s) {
        PassingStaysUnmoved(a, h, abs, tx, Fits(h.sel, lim, tx), s);
      }
    }
  }

  /** Nobody's first selected sequence is off unless a refused transaction left the accounts moved. */
  lemma {:induction false} CleanPreparesStartCommitted<S(!new)>(verify: (S, MemTx) -> Verdict<S>, abs: S -> Accounts, v: S, lim: Limits, pool: seq<MemTx>, k: nat)
    requires k <= |pool| && MovesLikeAnte(verify, abs, pool) && PreparedCleanly(verify, abs, v, lim, pool, k)
    ensures UnknownUnmoved(abs(v), After(v, lim, verify, pool, k), abs)
  {
    hide Consider, Passes, MovesLikeAnte;
    if k > 0 {
      hide UnknownUnmoved;
      CleanPreparesStartCommitted(verify, abs, v, lim, pool, k - 1);
      PrepareAgrees(v, lim, verify, abs, pool, k - 1);
      CleanStep(abs(v), After(v, lim, verify, pool, k - 1), lim, verify, abs, pool[k - 1], pool);
    }
  }

  /** What one validator proposes every validator accepts, when no refusal in Prepare moved the accounts and
      nothing but replay protection refuses in Process. */
  lemma {:induction false} ProcessAcceptsWhatPrepareReturns<S(!new)>(prepare: (S, MemTx) -> Verdict<S>, process: (S, MemTx) -> Verdict<S>,
                                                                     abs: S -> Accounts, v: S, maxTxBytes: Uint64, g: int, pool: seq<MemTx>)
    requires g < TWO64 && MovesLikeAnte(prepare, abs, pool) && MovesLikeAnte(process, abs, pool)
    requires PreparedCleanly(prepare, abs, v, Limits(maxTxBytes, PrepareGasLimit(g)), pool, |pool|)
    requires NothingElseRefused(process, abs, v, Final(v, Limits(maxTxBytes, PrepareGasLimit(g)), prepare, pool).sel.selected)
    ensures Process(process, v, Final(v, Limits(maxTxBytes, PrepareGasLimit(g)), prepare, pool).sel.selected, g).Some?
  {
    hide After, Process, StartsCommitted, NothingElseRefused, MovesLikeAnte, PreparedCleanly;
    AgreementExactly(prepare, process, abs, v, maxTxBytes, g, pool);
    CleanPreparesStartCommitted(prepare, abs, v, Limits(maxTxBytes, PrepareGasLimit(g)), pool, |pool|);
  }

  // ---------- the ante handler alone, and a late failure ----------

  /** Where verification is the ante handler and nothing else, agreement holds with no condition. */
  lemma {:induction false} AnteAloneAgrees(a: Accounts, maxTxBytes: Uint64, g: int, pool: seq<MemTx>)
    requires g < TWO64
    ensures Process(Ante, a, Final(a, Limits(maxTxBytes, PrepareGasLimit(g)), Ante, pool).sel.selected, g).Some?
  {
    hide After, Process;
    var txs := Final(a, Limits(maxTxBytes, PrepareGasLimit(g)), Ante, pool).sel.selected;
    NothingElseInAnte(a, txs);
    AnteMovesLikeAnte(pool);
    assert PreparedCleanly(Ante, Same, a, Limits(maxTxBytes, PrepareGasLimit(g)), pool, |pool|);
    ProcessAcceptsWhatPrepareReturns(Ante, Ante, Same, a, maxTxBytes, g, pool);
  }

  function Same(a: Accounts): Accounts { a }

  lemma {:induction false} AnteMovesLikeAnte(pool: seq<MemTx>)
    ensures MovesLikeAnte(Ante, Same, pool)
  {
  }

  lemma {:induction false} NothingElseInAnte(a: Accounts, txs: seq<MemTx>)
    ensures NothingElseRefused(Ante, Same, a, txs)
  {
    if txs != [] { NothingElseInAnte(a, txs[..|txs| - 1]); }
  }

  function Numbered(bytes: string, sequence: Uint64): MemTx {
    MemTx(bytes, 1, None, false, Some([SignerData("s", sequence)]), {}, true)
  }

  lemma {:induction false} NumberedAccepted(a: Accounts, bytes: string, sequence: Uint64, known: Seqs)
    requires known == map[]
    ensures AnteAccepts(a, Numbered(bytes, sequence)) <==> SequenceOf(a, "s") == sequence
    ensures TxSeqs(Numbered(bytes, sequence).signers.value, 0, known, map[]) == Some(map["s" := sequence])
    ensures SequenceOf(a, "s") == sequence ==> SequenceOf(Ante(a, Numbered(bytes, sequence)).state, "s") == Add64(sequence, 1)
  {
    var tx := Numbered(bytes, sequence);
    assert tx.signers.value == [SignerData("s", sequence)];
    assert SignerData("s", sequence) in tx.signers.value;
    assert TxSeqs(tx.signers.value, 1, known, map["s" := sequence]) == Some(map["s" := sequence]);
    assert "s" in SignersOf(tx);
  }

  /** Prepare always refuses the transaction "0", leaving the sequence moved, and never "1". */
  ghost predicate RefusesFirst<S(!new)>(prepare: (S, MemTx) -> Verdict<S>, abs: S -> Accounts) {
    forall v ::
      && !prepare(v, Numbered("0", 0)).ok && abs(prepare(v, Numbered("0", 0)).state) == Ante(abs(v), Numbered("0", 0)).state
      && (AnteAccepts(abs(v), Numbered("1", 1)) ==> prepare(v, Numbered("1", 1)).ok)
  }

  /** One signer's two transactions: the first passes the ante handler and is then refused, so Prepare drops it
      and keeps its sequence; the second is selected, and Process refuses the proposal. */
  lemma {:induction false} ALateFailureSplitsTheHandlers<S(!new)>(prepare: (S, MemTx) -> Verdict<S>, process: (S, MemTx) -> Verdict<S>, abs: S -> Accounts, v: S)
    requires var pool := [Numbered("0", 0), Numbered("1", 1)]; MovesLikeAnte(prepare, abs, pool) && MovesLikeAnte(process, abs, pool)
    requires RefusesFirst(prepare, abs) && SequenceOf(abs(v), "s") == 0
    ensures Final(v, Limits(10, 0), prepare, [Numbered("0", 0), Numbered("1", 1)]).sel.selected == [Numbered("1", 1)]
    ensures Process(process, v, [Numbered("1", 1)], 0).None?
  {
    hide Numbered, Ante, AnteAccepts, TxSeqs, Consider;
    var t0, t1 := Numbered("0", 0), Numbered("1", 1);
    var lim, pool := Limits(10, 0), [t0, t1];
    FirstDropped(v, lim, prepare, abs, pool);
    SecondSelected(Consider(Start(v), lim, prepare, t0), lim, prepare, abs);
    AfterBoth(v, lim, prepare, t0, t1);
    NumberedAccepted(abs(v), "1", 1, map[]);
    assert process(v, t1).ok ==> AnteAccepts(abs(v), t1);
    assert [t1][..0] == [] && [t1][0] == t1;
    assert Process(process, v, [], 0) == Some(Checked(v, 0));
  }

  lemma {:induction false} FirstDropped<S(!new)>(v: S, lim: Limits, prepare: (S, MemTx) -> Verdict<S>, abs: S -> Accounts, pool: seq<MemTx>)
    requires MovesLikeAnte(prepare, abs, pool) && RefusesFirst(prepare, abs) && Numbered("0", 0) in pool && SequenceOf(abs(v), "s") == 0
    ensures var h := Consider(Start(v), lim, prepare, Numbered("0", 0));
      && !h.halted && h.sel == Selector(0, 0, []) && h.seqs == map[] && h.count == 0 && SequenceOf(abs(h.verifier), "s") == 1
  {
    hide Ante, AnteAccepts, TxSeqs, Select;
    NumberedAccepted(abs(v), "0", 0, map[]);
    assert !prepare(v, Numbered("0", 0)).ok;
  }

  lemma {:induction false} SecondSelected<S(!new)>(h: Handler<S>, lim: Limits, prepare: (S, MemTx) -> Verdict<S>, abs: S -> Accounts)
    requires lim == Limits(10, 0) && h.sel == Selector(0, 0, []) && !h.halted && h.seqs == map[]
    requires RefusesFirst(prepare, abs) && SequenceOf(abs(h.verifier), "s") == 1
    ensures Consider(h, lim, prepare, Numbered("1", 1)).sel.selected == [Numbered("1", 1)]
  {
    hide Ante, AnteAccepts, Noted, TxSeqs, Full;
    NumberedAccepted(abs(h.verifier), "1", 1, h.seqs);
    assert prepare(h.verifier, Numbered("1", 1)).ok;
  }

  lemma {:induction false} AfterBoth<S>(v: S, lim: Limits, verify: (S, MemTx) -> Verdict<S>, t0: MemTx, t1: MemTx)
    ensures Final(v, lim, verify, [t0, t1]) == Consider(Consider(Start(v), lim, verify, t0), lim, verify, t1)
  {
    hide Consider;
    assert After(v, lim, verify, [t0, t1], 0) == Start(v);
    assert After(v, lim, verify, [t0, t1], 1) == Consider(Start(v), lim, verify, t0);
  }
}
