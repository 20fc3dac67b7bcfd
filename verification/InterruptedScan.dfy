/** A run of the inflow scanner in which an interrupted scan, a head that goes back and a full ring make it
    book one transfer twice. */
module InterruptedScan {
  import opened Inflow

  const CFG := Config(0, 2000)

  /** Keys of different lengths, so all different. */
  function Key(i: nat): string { seq(i, _ => 'k') }

  function Keys(n: nat): seq<string> { seq(n, i requires 0 <= i => Key(i)) }

  /** Transfers of one unit each, all in block 12. */
  function Transfer(i: nat): Log { Log(12, Key(i), TEN12) }

  function Chain(): seq<Log> { seq(502, i requires 0 <= i => Transfer(i)) }

  /** The whole of block 12; the last entry garbled or not. */
  function Block12(garbled: bool): seq<Entry> { seq(502, i requires 0 <= i => Entry(Transfer(i), garbled && i == 501)) }

  const T0 := Turn(NoLogs(10), false)
  const T2 := Turn(Logs(11, []), false)

  function T1(): Turn { Turn(Logs(12, Block12(true)), false) }

  function T3(): Turn { Turn(Logs(12, Block12(false)), false) }

  lemma {:induction false} KeysDiffer(i: nat, j: nat)
    requires i != j
    ensures Key(i) != Key(j) && Amount(Transfer(i)) == 1
  {
    assert |Key(i)| == i && |Key(j)| == j;
  }

  lemma {:induction false} ChainIsChain()
    ensures IsChain(Chain()) && Distinct(Keys(501)) && |Keys(501)| == 501 && Transfer(0) in Chain()
  {
    forall i, j | 0 <= i < j < 502 ensures Chain()[i].key != Chain()[j].key { KeysDiffer(i, j); }
    forall i, j | 0 <= i < j < 501 ensures Keys(501)[i] != Keys(501)[j] { KeysDiffer(i, j); }
    assert Chain()[0] == Transfer(0);
  }

  lemma {:induction false} NewKey(n: nat)
    ensures Key(n) !in Keys(n)
  {
    var ks := Keys(n);
    forall i | 0 <= i < |ks| ensures ks[i] != Key(n) { KeysDiffer(i, n); }
  }

  /** The interrupted scan holds the keys of what it booked. */
  lemma {:induction false} SeenSoFar(w: Watch, k: nat)
    requires w.seen == [] && k <= 501
    ensures var b := BookAll(w, Block12(true), k); !b.raised && b.w.seen == Keys(k)
  {
    if k > 0 {
      SeenSoFar(w, k - 1);
      NewKey(k - 1);
      KeysDiffer(k - 1, k);
      assert Keys(k) == Keys(k - 1) + [Key(k - 1)];
      assert Block12(true)[k - 1] == Entry(Transfer(k - 1), false);
    }
  }

  lemma {:induction false} FirstTurn()
    ensures Run(CFG, [T0]) == NEW_WATCH.(last := 10, start := 10)
  {
    assert [T0][..0] == [];
    assert Run(CFG, []) == NEW_WATCH;
  }

  lemma {:induction false} OneMoreTurn(rounds: seq<Turn>, t: Turn)
    ensures Run(CFG, rounds + [t]) == Epoch(CFG, Run(CFG, rounds), t.r, t.attributed)
    ensures TruthfulRun(Chain(), CFG, rounds + [t]) <==> TruthfulRun(Chain(), CFG, rounds) && Truthful(Chain(), CFG, Run(CFG, rounds), t.r)
    ensures forall l :: Losses(CFG, rounds + [t], l) == Losses(CFG, rounds, l) + if Loses(CFG, Run(CFG, rounds), t.r, l) then 1 else 0
  {
    hide Epoch, Truthful, Loses;
    assert (rounds + [t])[..|rounds|] == rounds;
  }

  lemma {:induction false} SecondTurn(w: Watch) returns (t: Watch)
    requires w == NEW_WATCH.(last := 10, start := 10)
    ensures Truthful(Chain(), CFG, w, T1().r)
    ensures t == Epoch(CFG, w, T1().r, false) && t.last == 10 && t.start == 10 && t.seen == Keys(501)
  {
    hide BookAll;
    SeenSoFar(w, 501);
    RaisesAtTheEnd(w);
    t := BookAll(w, T1().r.entries, 502).w;
    BookAllCounts(w, T1().r.entries, 502, "");
    SameEntries(true);
  }

  lemma {:induction false} RaisesAtTheEnd(w: Watch)
    requires var b := BookAll(w, Block12(true), 501); !b.raised && b.w.seen == Keys(501)
    ensures BookAll(w, Block12(true), 502) == Booking(BookAll(w, Block12(true), 501).w, true)
  {
    NewKey(501);
    assert Block12(true)[501] == Entry(Transfer(501), true);
  }

  lemma {:induction false} SameEntries(garbled: bool)
    ensures forall e :: e in Block12(garbled) ==> e.log in Chain() && e.log.block == 12
    ensures forall l :: l in Chain() ==> l.block == 12 && exists i :: 0 <= i < |Block12(garbled)| && Block12(garbled)[i].log == l
  {
    forall i | 0 <= i < 502 ensures Block12(garbled)[i].log == Chain()[i] && Chain()[i] in Chain() && Chain()[i].block == 12 {}
  }

  /** The empty window below block 12 finishes, and the first key drops out of the ring. */
  lemma {:induction false} ThirdTurn(w: Watch) returns (t: Watch)
    requires w.last == 10 && w.start == 10 && w.seen == Keys(501)
    ensures Truthful(Chain(), CFG, w, T2.r) && Loses(CFG, w, T2.r, Transfer(0))
    ensures t == Epoch(CFG, w, T2.r, false) && t.last == 11 && t.start == 10
  {
    ChainIsChain();
    SameEntries(false);
    assert Keys(501)[0] == Transfer(0).key;
    DroppedWhenFiveHundredNewer(Keys(501), 0);
    t := Epoch(CFG, w, T2.r, false);
  }

  lemma {:induction false} FourthTurn(w: Watch) returns (t: Watch)
    requires w.last == 11 && w.start == 10 && Distinct(w.seen)
    ensures Truthful(Chain(), CFG, w, T3().r)
    ensures t == Epoch(CFG, w, T3().r, false) && t.last == 12 && t.start == 10
  {
    hide BookAll;
    SameEntries(false);
    forall e | e in Block12(false) ensures !e.garbled {}
    NeverRaised(w, Block12(false), 502);
    BookAllCounts(w, T3().r.entries, 502, "");
    t := Epoch(CFG, w, T3().r, false);
  }

  /** The run: every answer is truthful, the first transfer is booked at least twice, and pending plus distributed
      is more than the transfers amount to. */
  lemma {:induction false} ATransferIsBookedTwice()
    ensures var rounds := [T0] + [T1()] + [T2] + [T3()]; var w := Run(CFG, rounds);
      && IsChain(Chain()) && TruthfulRun(Chain(), CFG, rounds) && w.last == 12 && w.start == 10
      && w.booked[Transfer(0).key] >= 2
      && w.pending6 + w.distributed != Total(Chain(), Once(Between(w.start, w.last))) + Total(Chain(), Once(Ahead(w)))
  {
    hide Run, TruthfulRun, Truthful, Epoch, Loses, Losses, Chain, Block12, Total;
    var r1 := [T0]; var r2 := r1 + [T1()]; var r3 := r2 + [T2]; var r4 := r3 + [T3()];
    ChainIsChain();
    FirstTurn();
    TruthfulStart();
    OneMoreTurn(r1, T1());
    var w2 := SecondTurn(Run(CFG, r1));
    OneMoreTurn(r2, T2);
    var w3 := ThirdTurn(w2);
    OneMoreTurn(r3, T3());
    RunKeepsSeenFine(Chain(), CFG, r3);
    var w4 := FourthTurn(w3);
    TransferIsTaken(w4);
    BookedOncePlusLosses(Chain(), CFG, r4, Transfer(0));
    ExactlyOnce(Chain(), CFG, r4);
  }

  lemma {:induction false} TruthfulStart()
    ensures TruthfulRun(Chain(), CFG, [T0])
  {
    assert [T0][..0] == [];
    assert TruthfulRun(Chain(), CFG, []);
  }

  lemma {:induction false} TransferIsTaken(w: Watch)
    requires w.last == 12 && w.start == 10
    ensures Taken(w, Transfer(0))
  {
    KeysDiffer(0, 1);
  }
}
