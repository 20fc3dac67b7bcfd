/** The proposal is the greedy list: which transactions of the mempool are taken, turn by turn, and where it stops. */
module Greedy {
  import opened Prelude
  import opened Selection
  import opened SelectionLaws

  /** What became of one transaction of the mempool: its signers could not be extracted, its sequences do not follow
      those noted, the verifier refused it, it did not fit, or it was taken. */
  datatype Mark = NoSigners | Behind | Rejected | NoRoom | Taken

  // ---------- what the marks so far say ----------

  function TakenOf(pool: seq<MemTx>, marks: seq<Mark>): seq<MemTx>
    requires |marks| <= |pool|
  {
    if marks == [] then []
    else
      var n := |marks| - 1;
      TakenOf(pool, marks[..n]) + if marks[n] == Taken then [pool[n]] else []
  }

  function RejectedOf(pool: seq<MemTx>, marks: seq<Mark>): seq<MemTx>
    requires |marks| <= |pool|
  {
    if marks == [] then []
    else
      var n := |marks| - 1;
      RejectedOf(pool, marks[..n]) + if marks[n] == Rejected then [pool[n]] else []
  }

  /** The verifier's state: it has seen all that were refused, did not fit, or were taken. */
  function StateOf<S>(v: S, verify: (S, MemTx) -> Verdict<S>, pool: seq<MemTx>, marks: seq<Mark>): S
    requires |marks| <= |pool|
  {
    if marks == [] then v
    else
      var n := |marks| - 1;
      var s := StateOf(v, verify, pool, marks[..n]);
      if marks[n] == NoSigners || marks[n] == Behind then s else verify(s, pool[n]).state
  }

  /** The sequence in front of another, around 2^64. */
  function InFront(sequence: int): int { (sequence - 1) % 0x1_0000_0000_0000_0000 }

  /** The sequence noted for a signer: that of the last transaction taken, or, before any was, the one in front of
      the first that did not fit. */
  function KnownSeq(pool: seq<MemTx>, marks: seq<Mark>, s: string): Option<int>
    requires |marks| <= |pool|
  {
    if marks == [] then None
    else
      var n := |marks| - 1;
      var before, carried := KnownSeq(pool, marks[..n], s), SeqIn(pool[n], s);
      if carried.None? then before
      else if marks[n] == Taken then Some(carried.value)
      else if marks[n] == NoRoom && before.None? then Some(InFront(carried.value))
      else before
  }

  // ---------- one turn ----------

  /** Every signature of an ordered transaction carries the sequence after the one noted for its signer. */
  predicate Follows(pool: seq<MemTx>, marks: seq<Mark>, tx: MemTx)
    requires |marks| <= |pool| && (tx.unordered || tx.signers.Some?)
  {
    tx.unordered || forall d :: d in tx.signers.value && KnownSeq(pool, marks, d.signer).Some? ==>
      d.sequence == (KnownSeq(pool, marks, d.signer).value + 1) % 0x1_0000_0000_0000_0000
  }

  /** With `tx` the 64-bit sums stay within the limits; a gas limit of 0 is none. */
  predicate HasRoom(lim: Limits, taken: seq<MemTx>, tx: MemTx) {
    && (TotalBytes(taken) + tx.size) % 0x1_0000_0000_0000_0000 <= lim.maxTxBytes
    && (lim.maxBlockGas > 0 ==>
          (TotalGas(taken) + if tx.gas.Some? then tx.gas.value else 0) % 0x1_0000_0000_0000_0000 <= lim.maxBlockGas)
  }

  /** The 64-bit sum of the sizes, or of the gas, has reached its limit. */
  predicate LimitReached(lim: Limits, taken: seq<MemTx>) {
    || TotalBytes(taken) % 0x1_0000_0000_0000_0000 >= lim.maxTxBytes
    || (lim.maxBlockGas > 0 && TotalGas(taken) % 0x1_0000_0000_0000_0000 >= lim.maxBlockGas)
  }

  predicate IsMarked<S>(v: S, lim: Limits, verify: (S, MemTx) -> Verdict<S>, pool: seq<MemTx>, marks: seq<Mark>, tx: MemTx, m: Mark)
    requires |marks| <= |pool|
  {
    if !tx.unordered && tx.signers.None? then m == NoSigners
    else if !Follows(pool, marks, tx) then m == Behind
    else if !verify(StateOf(v, verify, pool, marks), tx).ok then m == Rejected
    else if !HasRoom(lim, TakenOf(pool, marks), tx) then m == NoRoom
    else m == Taken
  }

  /** The iteration ends: an extraction failed, or after a verified transaction a limit is reached. */
  predicate Ends(lim: Limits, pool: seq<MemTx>, marks: seq<Mark>)
    requires |marks| <= |pool|
  {
    marks != [] &&
    var last := marks[|marks| - 1];
    last == NoSigners || ((last == NoRoom || last == Taken) && LimitReached(lim, TakenOf(pool, marks)))
  }

  /** The marks of the first turns, none of which but the last ended the iteration. */
  predicate Turns<S>(v: S, lim: Limits, verify: (S, MemTx) -> Verdict<S>, pool: seq<MemTx>, marks: seq<Mark>)
    requires |marks| <= |pool|
  {
    marks == [] ||
    var n := |marks| - 1;
    Turns(v, lim, verify, pool, marks[..n]) && !Ends(lim, pool, marks[..n]) && IsMarked(v, lim, verify, pool, marks[..n], pool[n], marks[n])
  }

  /** The marks of the whole iteration: to the end of the mempool, or to the turn that ended it. */
  predicate IsGreedy<S>(v: S, lim: Limits, verify: (S, MemTx) -> Verdict<S>, pool: seq<MemTx>, marks: seq<Mark>) {
    && |marks| <= |pool| && Turns(v, lim, verify, pool, marks)
    && (|marks| == |pool| || Ends(lim, pool, marks))
  }

  // ---------- the handler does these turns ----------

  /** What the handler keeps is what the marks say. */
  ghost predicate Matches<S>(h: Handler<S>, v: S, lim: Limits, verify: (S, MemTx) -> Verdict<S>, pool: seq<MemTx>, marks: seq<Mark>)
    requires |marks| <= |pool|
  {
    && h.sel.selected == TakenOf(pool, marks) && h.invalid == RejectedOf(pool, marks)
    && SelectorInv(h.sel, lim)
    && (h.signerError <==> marks != [] && marks[|marks| - 1] == NoSigners)
    && (h.halted <==> Ends(lim, pool, marks))
    && (!h.halted ==>
          && h.count == |h.sel.selected| && h.verifier == StateOf(v, verify, pool, marks)
          && forall s :: KnownSeq(pool, marks, s) == if s in h.seqs then Some(h.seqs[s]) else None)
  }

  lemma {:induction false} OneMoreMark<S>(v: S, verify: (S, MemTx) -> Verdict<S>, pool: seq<MemTx>, marks: seq<Mark>, m: Mark)
    requires |marks| < |pool|
    ensures var (more, tx) := (marks + [m], pool[|marks|]);
      && TakenOf(pool, more) == (if m == Taken then TakenOf(pool, marks) + [tx] else TakenOf(pool, marks))
      && RejectedOf(pool, more) == (if m == Rejected then RejectedOf(pool, marks) + [tx] else RejectedOf(pool, marks))
      && StateOf(v, verify, pool, more) ==
           (if m == NoSigners || m == Behind then StateOf(v, verify, pool, marks) else verify(StateOf(v, verify, pool, marks), tx).state)
  {
    assert (marks + [m])[..|marks|] == marks;
  }

  lemma {:induction false} KnownAfter(pool: seq<MemTx>, marks: seq<Mark>, m: Mark, s: string)
    requires |marks| < |pool|
    ensures var (before, carried) := (KnownSeq(pool, marks, s), SeqIn(pool[|marks|], s));
      KnownSeq(pool, marks + [m], s) ==
        if carried.None? then before
        else if m == Taken then Some(carried.value)
        else if m == NoRoom && before.None? then Some(InFront(carried.value))
        else before
  {
    hide SeqIn;
    assert (marks + [m])[..|marks|] == marks;
  }

  /** The signer loop succeeds exactly when the sequences follow those noted. */
  lemma {:induction false} TxSeqsExactly(signers: seq<SignerData>, i: nat, known: Seqs, acc: Seqs)
    requires i <= |signers|
    ensures TxSeqs(signers, i, known, acc).Some? <==>
      forall j :: i <= j < |signers| && signers[j].signer in known ==> signers[j].sequence == Add64(known[signers[j].signer], 1)
    decreases |signers| - i
  {
    hide Add64;
    if i < |signers| { TxSeqsExactly(signers, i + 1, known, acc[signers[i].signer := signers[i].sequence]); }
  }

  lemma {:induction false} FollowsExactly<S>(h: Handler<S>, pool: seq<MemTx>, marks: seq<Mark>, tx: MemTx)
    requires |marks| <= |pool| && (tx.unordered || tx.signers.Some?)
    requires forall s :: KnownSeq(pool, marks, s) == if s in h.seqs then Some(h.seqs[s]) else None
    ensures SeqsOf(h, tx).Some? <==> Follows(pool, marks, tx)
  {
    hide KnownSeq;
    if !tx.unordered { TxSeqsExactly(tx.signers.value, 0, h.seqs, map[]); }
  }

  lemma {:induction false} RoomExactly(sel: Selector, lim: Limits, tx: MemTx)
    requires SelectorInv(sel, lim)
    ensures Fits(sel, lim, tx) <==> HasRoom(lim, sel.selected, tx)
  {
    hide TotalBytes, TotalGas, RunningSumsFit, Add64;
    RunningSum(TotalBytes(sel.selected), tx.size);
    RunningSum(TotalGas(sel.selected), GasOf(tx));
  }

  lemma {:induction false} FullExactly(sel: Selector, lim: Limits)
    requires SelectorInv(sel, lim)
    ensures Full(sel, lim) <==> LimitReached(lim, sel.selected)
  {
    hide TotalBytes, TotalGas, RunningSumsFit;
  }

  /** The sender map after a verified transaction, signer by signer. */
  lemma {:induction false} NotedIs(known: Seqs, m: Seqs, added: bool, s: string)
    ensures var after := Noted(known, m, added);
      (if s in after then Some(after[s]) else None) ==
        if s !in m then (if s in known then Some(known[s]) else None)
        else if added then Some(m[s])
        else if s in known then Some(known[s])
        else Some(InFront(m[s]))
  {
  }

  function MarkOf<S>(h: Handler<S>, lim: Limits, verify: (S, MemTx) -> Verdict<S>, tx: MemTx): Mark {
    if !tx.unordered && tx.signers.None? then NoSigners
    else if SeqsOf(h, tx).None? then Behind
    else if !verify(h.verifier, tx).ok then Rejected
    else if Fits(h.sel, lim, tx) then Taken
    else NoRoom
  }

  /** One turn of the handler is one mark. */
  lemma {:induction false} MarkedRight<S>(h: Handler<S>, v: S, lim: Limits, verify: (S, MemTx) -> Verdict<S>, pool: seq<MemTx>, marks: seq<Mark>)
    requires |marks| < |pool| && Matches(h, v, lim, verify, pool, marks) && !h.halted
    ensures IsMarked(v, lim, verify, pool, marks, pool[|marks|], MarkOf(h, lim, verify, pool[|marks|]))
  {
    hide TakenOf, RejectedOf, StateOf, KnownSeq, SelectorInv, Follows, HasRoom, Fits, SeqsOf;
    var tx := pool[|marks|];
    if tx.unordered || tx.signers.Some? { FollowsExactly(h, pool, marks, tx); }
    RoomExactly(h.sel, lim, tx);
  }

  /** The handler after one turn, by its mark. */
  lemma {:induction false} TurnByMark<S>(h: Handler<S>, lim: Limits, verify: (S, MemTx) -> Verdict<S>, tx: MemTx)
    requires !h.halted && h.count == |h.sel.selected|
    ensures var (t, m) := (Consider(h, lim, verify, tx), MarkOf(h, lim, verify, tx));
      && t.sel == (if m == Taken then Select(h.sel, lim, tx) else h.sel)
      && t.sel.selected == (if m == Taken then h.sel.selected + [tx] else h.sel.selected)
      && t.invalid == (if m == Rejected then h.invalid + [tx] else h.invalid)
      && t.signerError == (h.signerError || m == NoSigners)
      && t.halted == (m == NoSigners || ((m == NoRoom || m == Taken) && Full(t.sel, lim)))
      && (!t.halted ==>
            && t.count == |t.sel.selected|
            && t.verifier == (if m == NoSigners || m == Behind then h.verifier else verify(h.verifier, tx).state)
            && t.seqs == if (m == NoRoom || m == Taken) && !tx.unordered then Noted(h.seqs, SeqsOf(h, tx).value, m == Taken) else h.seqs)
  {
    hide Fits, Full, Noted, SeqsOf, Add64;
  }

  /** What is noted afterwards is what the longer marks say. */
  lemma {:induction false} KnownMatches<S>(h: Handler<S>, t: Handler<S>, pool: seq<MemTx>, marks: seq<Mark>, m: Mark)
    requires |marks| < |pool| && !h.halted
    requires forall s :: KnownSeq(pool, marks, s) == if s in h.seqs then Some(h.seqs[s]) else None
    requires var tx := pool[|marks|];
      && (m == NoSigners || tx.unordered || tx.signers.Some?)
      && (m == NoRoom || m == Taken ==> SeqsOf(h, tx).Some?)
      && t.seqs == if (m == NoRoom || m == Taken) && !tx.unordered then Noted(h.seqs, SeqsOf(h, tx).value, m == Taken) else h.seqs
    ensures forall s :: KnownSeq(pool, marks + [m], s) == if s in t.seqs then Some(t.seqs[s]) else None
  {
    hide KnownSeq, SeqIn, Noted, SeqsOf;
    var tx := pool[|marks|];
    forall s ensures KnownSeq(pool, marks + [m], s) == if s in t.seqs then Some(t.seqs[s]) else None {
      KnownAfter(pool, marks, m, s);
      if m == NoRoom || m == Taken {
        if tx.unordered {
          UnorderedSignsNothing(tx, s);
        } else {
          SeqsCollect(h, tx);
          NotedIs(h.seqs, SeqsOf(h, tx).value, m == Taken, s);
        }
      }
    }
  }

  lemma {:induction false} TurnMatches<S>(h: Handler<S>, v: S, lim: Limits, verify: (S, MemTx) -> Verdict<S>, pool: seq<MemTx>, marks: seq<Mark>)
    requires |marks| < |pool| && Matches(h, v, lim, verify, pool, marks) && !h.halted
    ensures Matches(Consider(h, lim, verify, pool[|marks|]), v, lim, verify, pool, marks + [MarkOf(h, lim, verify, pool[|marks|])])
  {
    hide TakenOf, RejectedOf, StateOf, KnownSeq, SelectorInv, Consider, Select, Full, LimitReached, Noted;
    var tx := pool[|marks|];
    var m, t := MarkOf(h, lim, verify, tx), Consider(h, lim, verify, tx);
    OneMoreMark(v, verify, pool, marks, m);
    TurnByMark(h, lim, verify, tx);
    SelectKeepsInv(h.sel, lim, tx);
    FullExactly(t.sel, lim);
    assert (marks + [m])[|marks + [m]| - 1] == m;
    if !t.halted { KnownMatches(h, t, pool, marks, m); }
  }

  lemma {:induction false} HandlerIsGreedy<S>(v: S, lim: Limits, verify: (S, MemTx) -> Verdict<S>, pool: seq<MemTx>, k: nat) returns (marks: seq<Mark>)
    requires k <= |pool|
    ensures |marks| <= k && Turns(v, lim, verify, pool, marks) && (|marks| == k || Ends(lim, pool, marks))
    ensures Matches(After(v, lim, verify, pool, k), v, lim, verify, pool, marks)
  {
    hide Matches, Consider, IsMarked, Ends, MarkOf;
    if k == 0 {
      marks := [];
      StartMatches(v, lim, verify, pool);
    } else {
      marks := HandlerIsGreedy(v, lim, verify, pool, k - 1);
      var h := After(v, lim, verify, pool, k - 1);
      HaltsWhere(h, v, lim, verify, pool, marks);
      if h.halted {
        HaltedIgnores(h, lim, verify, pool[k - 1]);
      } else {
        MarkedRight(h, v, lim, verify, pool, marks);
        TurnMatches(h, v, lim, verify, pool, marks);
        var m := MarkOf(h, lim, verify, pool[k - 1]);
        assert (marks + [m])[..|marks|] == marks;
        marks := marks + [m];
      }
    }
  }

  lemma {:induction false} HaltsWhere<S>(h: Handler<S>, v: S, lim: Limits, verify: (S, MemTx) -> Verdict<S>, pool: seq<MemTx>, marks: seq<Mark>)
    requires |marks| <= |pool| && Matches(h, v, lim, verify, pool, marks)
    ensures h.halted <==> Ends(lim, pool, marks)
  {
  }

  lemma {:induction false} StartMatches<S>(v: S, lim: Limits, verify: (S, MemTx) -> Verdict<S>, pool: seq<MemTx>)
    ensures Matches(Start(v), v, lim, verify, pool, [])
  {
    NothingSelected(v, lim);
  }

  // ---------- the greedy list ----------

  lemma {:induction false} MarkedOnce<S>(v: S, lim: Limits, verify: (S, MemTx) -> Verdict<S>, pool: seq<MemTx>, a: seq<Mark>, b: seq<Mark>)
    requires |a| <= |b| <= |pool| && Turns(v, lim, verify, pool, a) && Turns(v, lim, verify, pool, b)
    ensures a == b[..|a|]
    decreases |b|
  {
    hide IsMarked, Ends;
    if |a| < |b| {
      MarkedOnce(v, lim, verify, pool, a, b[..|b| - 1]);
      assert b[..|b| - 1][..|a|] == b[..|a|];
    } else if a != [] {
      var n := |a| - 1;
      MarkedOnce(v, lim, verify, pool, a[..n], b[..n]);
      assert a[..n] == b[..n];
      OneMark(v, lim, verify, pool, a[..n], pool[n], a[n], b[n]);
      assert a == a[..n] + [a[n]] && b == b[..n] + [b[n]];
    }
  }

  lemma {:induction false} OneMark<S>(v: S, lim: Limits, verify: (S, MemTx) -> Verdict<S>, pool: seq<MemTx>, marks: seq<Mark>, tx: MemTx, m: Mark, n: Mark)
    requires |marks| <= |pool| && IsMarked(v, lim, verify, pool, marks, tx, m) && IsMarked(v, lim, verify, pool, marks, tx, n)
    ensures m == n
  {
    hide Follows, HasRoom, StateOf, TakenOf;
  }

  lemma {:induction false} TurnsUpTo<S>(v: S, lim: Limits, verify: (S, MemTx) -> Verdict<S>, pool: seq<MemTx>, marks: seq<Mark>, k: nat)
    requires k < |marks| <= |pool| && Turns(v, lim, verify, pool, marks)
    ensures !Ends(lim, pool, marks[..k]) && IsMarked(v, lim, verify, pool, marks[..k], pool[k], marks[k])
    decreases |marks|
  {
    hide IsMarked, Ends;
    var n := |marks| - 1;
    if k < n {
      TurnsUpTo(v, lim, verify, pool, marks[..n], k);
      assert marks[..n][..k] == marks[..k];
    }
  }

  /** The marks of the iteration are determined. */
  lemma {:induction false} GreedyIsUnique<S>(v: S, lim: Limits, verify: (S, MemTx) -> Verdict<S>, pool: seq<MemTx>, a: seq<Mark>, b: seq<Mark>)
    requires |a| <= |b| && IsGreedy(v, lim, verify, pool, a) && IsGreedy(v, lim, verify, pool, b)
    ensures a == b
  {
    hide IsMarked, Ends, Turns;
    MarkedOnce(v, lim, verify, pool, a, b);
    if |a| < |b| { TurnsUpTo(v, lim, verify, pool, b, |a|); }
    assert b[..|b|] == b;
  }

  /** The proposal, for any verifier and any mempool: the marks above exist and are the only ones, and the proposal
      is what they mark as taken, the invalid transactions are those they mark as rejected, and the call fails for
      its signers exactly when the last mark says so. */
  lemma {:induction false} TheProposalIsGreedy<S>(v: S, lim: Limits, verify: (S, MemTx) -> Verdict<S>, pool: seq<MemTx>)
    ensures exists marks :: IsGreedy(v, lim, verify, pool, marks)
    ensures forall marks :: IsGreedy(v, lim, verify, pool, marks) ==>
      var f := Final(v, lim, verify, pool);
      && f.sel.selected == TakenOf(pool, marks) && f.invalid == RejectedOf(pool, marks)
      && (f.signerError <==> marks != [] && marks[|marks| - 1] == NoSigners)
  {
    hide After, Turns, Ends, SelectorInv, TakenOf, RejectedOf, KnownSeq, StateOf;
    var marks := HandlerIsGreedy(v, lim, verify, pool, |pool|);
    assert IsGreedy(v, lim, verify, pool, marks);
    forall other | IsGreedy(v, lim, verify, pool, other) ensures other == marks {
      if |marks| <= |other| { GreedyIsUnique(v, lim, verify, pool, marks, other); } else { GreedyIsUnique(v, lim, verify, pool, other, marks); }
    }
  }

  /** Exactly which transactions are taken: the iteration reached it, its signers are there, its sequences follow,
      the verifier accepts it in the state the earlier ones left, and both sums stay within the limits. */
  lemma {:induction false} TakenExactlyWhen<S>(v: S, lim: Limits, verify: (S, MemTx) -> Verdict<S>, pool: seq<MemTx>, marks: seq<Mark>, k: nat)
    requires IsGreedy(v, lim, verify, pool, marks) && k < |marks|
    ensures forall j :: 0 < j <= k ==> !Ends(lim, pool, marks[..j])
    ensures var (before, tx) := (marks[..k], pool[k]);
      marks[k] == Taken <==>
        && (tx.unordered || tx.signers.Some?) && Follows(pool, before, tx)
        && verify(StateOf(v, verify, pool, before), tx).ok && HasRoom(lim, TakenOf(pool, before), tx)
  {
    hide Ends, Follows, HasRoom, TakenOf, StateOf, Turns;
    TurnsUpTo(v, lim, verify, pool, marks, k);
    forall j | 0 < j <= k ensures !Ends(lim, pool, marks[..j]) { TurnsUpTo(v, lim, verify, pool, marks, j); }
  }

  /** The entry that counts for a signer of a transaction is its last. */
  lemma {:induction false} SeqForIsLast(signers: seq<SignerData>, s: string, i: nat)
    requires i < |signers| && signers[i].signer == s && forall j :: i < j < |signers| ==> signers[j].signer != s
    ensures SeqFor(signers, s) == Some(signers[i].sequence)
  {
    if i < |signers| - 1 { SeqForIsLast(signers[..|signers| - 1], s, i); }
  }
}
