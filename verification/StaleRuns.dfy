/** Whole legal runs with no exclusion: what the chain is when FinalizeBlock may take stale results. */
module StaleRuns {
  import opened Prelude
  import opened Store
  import opened RunTx
  import opened BlockMachine
  import opened BlockRuns

  /** The chain, and for each block of its ledger whether it was executed. `ran` is about the pending block. */
  datatype History = History(chain: Chain, executed: seq<bool>, ran: bool)

  const NO_HISTORY := History(NO_CHAIN, [], true)

  /** The calls are in CometBFT's order; nothing is said about stale results. */
  predicate InOrder(env: Env, s: App, calls: seq<Call>)
    requires OeInRange(s)
    decreases |calls|
  {
    calls == [] || !s.alive || (Legal(s, calls[0]) && InOrder(env, Step(env, s, calls[0]), calls[1..]))
  }

  /** A FinalizeBlock that takes a stale good result answers and decides a block that writes nothing; one that
      takes a stale error ends the run. Every other call does what it does to the chain. */
  function HistoryStep(env: Env, s: App, h: History, c: Call): History {
    var a := h.chain;
    if a.alive && TakesStaleResult(s, c) then
      if s.oe.result.Good? && s.finalize.Some? then h.(chain := a.(pending := Some((c.req, a.base))), ran := false)
      else h.(chain := a.(alive := false))
    else
      History(ChainStep(env, a, c),
              if a.alive && c.Commit? && a.pending.Some? then h.executed + [h.ran] else h.executed,
              if a.alive && c.FinalizeBlock? && Accepts(env, a, c.req) then true else h.ran)
  }

  function HistoryRun(env: Env, s: App, h: History, calls: seq<Call>): History
    requires OeInRange(s)
    decreases |calls|
  {
    if calls == [] then h else HistoryRun(env, Step(env, s, calls[0]), HistoryStep(env, s, h, calls[0]), calls[1..])
  }

  /** The blocks of the ledger that were executed, in order. */
  function Executed(ledger: seq<Req>, executed: seq<bool>): seq<Req>
    requires |ledger| == |executed|
  {
    if ledger == [] then []
    else
      var n := |ledger| - 1;
      Executed(ledger[..n], executed[..n]) + if executed[n] then [ledger[n]] else []
  }

  /** Taking a stale result keeps the node standing for the chain, which decides an empty block. */
  lemma {:induction false} StaleStandsFor(env: Env, s: App, h: History, c: Call)
    requires StandsFor(env, s, h.chain) && s.alive && Legal(s, c) && TakesStaleResult(s, c)
    ensures StandsFor(env, Step(env, s, c), HistoryStep(env, s, h, c).chain)
  {
    ViewOfNothing(s.committed);
  }

  lemma {:induction false} AnyStepStandsFor(env: Env, s: App, h: History, c: Call)
    requires StandsFor(env, s, h.chain) && (s.alive ==> Legal(s, c))
    ensures StandsFor(env, Step(env, s, c), HistoryStep(env, s, h, c).chain)
  {
    hide StandsFor, Step, Legal, TakesStaleResult, ChainStep;
    SameLife(env, s, s, h.chain);
    if s.alive && TakesStaleResult(s, c) { StaleStandsFor(env, s, h, c); } else { StepStandsFor(env, s, h.chain, c); }
  }

  /** The executed blocks of the ledger, in order, make the store; each has the height of its place. A pending
      block that was not executed leaves the store as it is. */
  ghost predicate HistoryExplains(env: Env, h: History) {
    var a := h.chain;
    && (!a.started ==> a == NO_CHAIN.(alive := a.alive) && h.executed == [])
    && |h.executed| == |a.ledger|
    && (a.started ==>
          && a.initialHeight >= 1
          && ApplyBlocks(env, a.genesis, Executed(a.ledger, h.executed)) == Some(a.base)
          && (a.ledger == [] <==> a.height == 0)
          && (a.ledger != [] ==> a.committed == a.base && a.height == a.initialHeight + |a.ledger| - 1)
          && (forall i :: 0 <= i < |a.ledger| && h.executed[i] ==> a.ledger[i].height == a.initialHeight + i)
          && (a.pending.Some? ==>
                if h.ran then Some(a.pending.value.1) == ApplyBlock(env, a.base, a.pending.value.0) && a.pending.value.0.height == NextHeight(a)
                else a.pending.value.1 == a.base))
  }

  lemma {:induction false} ExecutedOneMore(ledger: seq<Req>, executed: seq<bool>, req: Req, ran: bool)
    requires |ledger| == |executed|
    ensures Executed(ledger + [req], executed + [ran]) == Executed(ledger, executed) + if ran then [req] else []
  {
    assert (ledger + [req])[..|ledger|] == ledger && (executed + [ran])[..|executed|] == executed;
  }

  lemma {:induction false} CommitExplains(env: Env, h: History)
    requires HistoryExplains(env, h) && h.chain.alive && h.chain.started && h.chain.pending.Some?
    ensures var (req, v) := h.chain.pending.value;
      ApplyBlocks(env, h.chain.genesis, Executed(h.chain.ledger + [req], h.executed + [h.ran])) == Some(v)
  {
    hide ApplyBlock, ApplyBlocks, Executed;
    var a := h.chain;
    var (req, v) := a.pending.value;
    ExecutedOneMore(a.ledger, h.executed, req, h.ran);
    if h.ran {
      ApplyOneMore(env, a.genesis, Executed(a.ledger, h.executed), a.base, req, v);
    } else {
      assert Executed(a.ledger, h.executed) + [] == Executed(a.ledger, h.executed);
    }
  }

  lemma {:induction false} StaleExplains(env: Env, s: App, h: History, c: Call)
    requires HistoryExplains(env, h) && h.chain.alive && LegalChainCall(h.chain, c) && TakesStaleResult(s, c)
    ensures HistoryExplains(env, HistoryStep(env, s, h, c))
  {
    hide ApplyBlock, ApplyBlocks, Executed, Live, ChainStep;
  }

  lemma {:induction false} StepExplains(env: Env, s: App, h: History, c: Call)
    requires HistoryExplains(env, h) && (h.chain.alive ==> LegalChainCall(h.chain, c))
    ensures HistoryExplains(env, HistoryStep(env, s, h, c))
  {
    hide ApplyBlock, ApplyBlocks, View, Executed, TakesStaleResult;
    var t := HistoryStep(env, s, h, c);
    if h.chain.alive && TakesStaleResult(s, c) {
      StaleExplains(env, s, h, c);
    } else if h.chain.alive && c.Commit? && h.chain.pending.Some? {
      CommitExplains(env, h);
      assert t.chain.started;
    } else if h.chain.alive && c.InitChain? {
      NothingExecuted(env, t.chain.genesis);
      assert t.chain.ledger == [] && t.executed == [];
    } else if h.chain.alive && c.FinalizeBlock? {
      assert HistoryExplains(env, t);
    } else {
      assert ChainStep(env, h.chain, c) == h.chain || c.Commit?;
    }
  }

  lemma {:induction false} NothingExecuted(env: Env, base: KV)
    ensures ApplyBlocks(env, base, Executed([], [])) == Some(base)
  {
  }

  lemma {:induction false} OrderIsLegal(env: Env, s: App, a: Chain, c: Call)
    requires StandsFor(env, s, a) && s.alive && Legal(s, c)
    ensures LegalChainCall(a, c)
  {
  }

  lemma {:induction false} AnyRunStandsFor(env: Env, s: App, h: History, calls: seq<Call>)
    requires OeInRange(s) && StandsFor(env, s, h.chain) && InOrder(env, s, calls) && HistoryExplains(env, h)
    ensures StandsFor(env, RunCalls(env, s, calls), HistoryRun(env, s, h, calls).chain)
    ensures HistoryExplains(env, HistoryRun(env, s, h, calls))
    decreases |calls|
  {
    hide StandsFor, Step, Legal, HistoryStep, HistoryExplains;
    if calls != [] {
      SameLife(env, s, s, h.chain);
      if s.alive {
        OrderIsLegal(env, s, h.chain, calls[0]);
        AnyStepStandsFor(env, s, h, calls[0]);
        StepExplains(env, s, h, calls[0]);
        AnyRunStandsFor(env, Step(env, s, calls[0]), HistoryStep(env, s, h, calls[0]), calls[1..]);
      } else {
        DeadStaysDead(env, s, calls);
        DeadHistoryStays(env, s, h, calls);
      }
    }
  }

  lemma {:induction false} DeadHistoryStays(env: Env, s: App, h: History, calls: seq<Call>)
    requires OeInRange(s) && !s.alive && !h.chain.alive
    ensures HistoryRun(env, s, h, calls) == h
    decreases |calls|
  {
    if calls != [] { DeadHistoryStays(env, s, h, calls[1..]); }
  }

  /** Every legal run, stale results included: the committed store is the genesis store with the executed
      blocks of the ledger applied in order, at the heights of their places, and the blocks answered with a
      stale result contribute nothing. */
  lemma {:induction false} EveryRunReduces(env: Env, calls: seq<Call>)
    requires InOrder(env, EMPTY, calls)
    ensures var s := RunCalls(env, EMPTY, calls);
      var h := HistoryRun(env, EMPTY, NO_HISTORY, calls);
      var a := h.chain;
      && s.alive == a.alive && s.committed == a.committed && (s.alive ==> s.lastHeight == a.height)
      && |h.executed| == |a.ledger|
      && (a.ledger != [] ==> ApplyBlocks(env, a.genesis, Executed(a.ledger, h.executed)) == Some(s.committed))
      && (a.ledger != [] ==> a.height == a.initialHeight + |a.ledger| - 1)
      && (forall i :: 0 <= i < |a.ledger| && h.executed[i] ==> a.ledger[i].height == a.initialHeight + i)
  {
    hide StandsFor, RunCalls, HistoryRun;
    EmptyStandsForNothing(env);
    AnyRunStandsFor(env, EMPTY, NO_HISTORY, calls);
    var s, h := RunCalls(env, EMPTY, calls), HistoryRun(env, EMPTY, NO_HISTORY, calls);
    SameLife(env, s, s, h.chain);
    StandsAtHeight(env, s, h.chain);
    assert HistoryExplains(env, h);
    assert h.chain.ledger != [] ==> h.chain.started;
  }

  lemma {:induction false} StandsAtHeight(env: Env, s: App, a: Chain)
    requires StandsFor(env, s, a)
    ensures s.alive ==> s.lastHeight == a.height
  {
  }

  /** If no FinalizeBlock of the run takes a stale result, every block of the ledger was executed. */
  lemma {:induction false} NothingStaleAllExecuted(env: Env, s: App, h: History, calls: seq<Call>)
    requires OeInRange(s) && LegalRun(env, s, calls) && s.alive == h.chain.alive
    requires StandsFor(env, s, h.chain) && h.ran && forall i :: 0 <= i < |h.executed| ==> h.executed[i]
    ensures forall i :: 0 <= i < |HistoryRun(env, s, h, calls).executed| ==> HistoryRun(env, s, h, calls).executed[i]
    decreases |calls|
  {
    hide StandsFor, Step, Legal, ChainStep, TakesStaleResult;
    if calls != [] {
      SameLife(env, s, s, h.chain);
      if s.alive {
        StepStandsFor(env, s, h.chain, calls[0]);
        SameLife(env, Step(env, s, calls[0]), Step(env, s, calls[0]), ChainStep(env, h.chain, calls[0]));
        NothingStaleAllExecuted(env, Step(env, s, calls[0]), HistoryStep(env, s, h, calls[0]), calls[1..]);
      } else {
        DeadHistoryStays(env, s, h, calls);
      }
    }
  }
}
