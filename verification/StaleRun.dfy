/** A legal run in which FinalizeBlock answers with a stale optimistic result and the block is lost. */
module StaleRun {
  import opened Prelude
  import opened Store
  import opened Gas
  import opened RunTx
  import opened BlockMachine
  import opened BlockRuns

  /** An application whose blocks at height 2 write one key in their third step. */
  function Toy(): Env {
    Env(
      (i: InitReq, v: KV) => Some(map[]),
      (h: int, t: int) => false,
      (r: Req, n: nat, v: KV, m: Meter) => Does(if r.height == 2 && n == 2 then map["paid" := Put("yes")] else map[], m),
      (mode: Mode, h: Header, v: KV, raw: Raw) => map[],
      (v: KV) => map[],
      true)
  }

  const FIRST := Req(1, 0, "h1", [], "")
  const A := Req(2, 0, "hA", [], "")
  const B := Req(2, 0, "hB", [], "")

  /** Round 0 of height 2 accepts A and executes it early; round 1 refuses B; then A is decided. */
  const CALLS: seq<Call> := [
    InitChain(InitReq(1, "")), FinalizeBlock(FIRST, false), Commit,
    Call.ProcessProposal(A, true, map[]), OeStep, OeStep, OeStep,
    Call.ProcessProposal(B, false, map[]),
    FinalizeBlock(A, false), Commit]

  lemma {:induction false} QuietPhase(req: Req, n: nat, fs: FinState) returns (next: FinState)
    requires req.height != 2 || n != 2
    ensures PhaseOn(Toy(), req, n, map[], fs) == Some(next) && next == fs.(applied := fs.applied + [(req, n)])
  {
    assert fs.writes + map[] == fs.writes;
    next := fs.(applied := fs.applied + [(req, n)]);
  }

  /** `run` is a prefix of the run of CALLS: every call legal in the state it is made in. */
  ghost predicate Follows(run: seq<App>)
    decreases |run|
  {
    && 1 <= |run| <= |CALLS| + 1
    && (if |run| == 1 then run == [EMPTY]
        else
          var (s, c, t) := (run[|run| - 2], CALLS[|run| - 2], run[|run| - 1]);
          && OeInRange(s) && Legal(s, c) && t == Step(Toy(), s, c)
          && Follows(run[..|run| - 1]))
  }

  lemma {:induction false} Extend(run: seq<App>, t: App)
    requires Follows(run) && |run| <= |CALLS|
    requires var s := run[|run| - 1]; OeInRange(s) && Legal(s, CALLS[|run| - 1]) && t == Step(Toy(), s, CALLS[|run| - 1])
    ensures Follows(run + [t])
  {
    assert (run + [t])[..|run|] == run;
  }

  /** A node at height 1 with an empty store and no block under way. */
  predicate AtHeightOne(s: App) {
    s.alive && s.started && !s.awaitingCommit && s.committed == map[] == s.working && s.lastHeight == 1 && s.initialHeight == 1
  }

  lemma {:induction false} FirstHeight() returns (run: seq<App>)
    ensures Follows(run) && |run| == 4 && AtHeightOne(run[3]) && run[3].oe == Idle
  {
    var s1 := EMPTY.(started := true, initialHeight := 1, finalize := Some(FRESH));
    Extend([EMPTY], s1);
    var fs1 := QuietPhase(FIRST, 0, FRESH);
    var fs2 := QuietPhase(FIRST, 1, fs1);
    var fs3 := QuietPhase(FIRST, 2, fs2);
    assert PhasesFrom(Toy(), FIRST, 1, map[], fs1) == Progress(true, fs3);
    assert PhasesFrom(Toy(), FIRST, 0, map[], FRESH) == Progress(true, fs3);
    ViewOfNothing(map[]);
    var s2 := WriteToRoot(s1.(finalize := Some(fs3)));
    Extend([EMPTY, s1], s2);
    assert [EMPTY, s1] + [s2] == [EMPTY, s1, s2];
    var s3 := Committed(Toy(), s2);
    Extend([EMPTY, s1, s2], s3);
    run := [EMPTY, s1, s2] + [s3];
  }

  lemma {:induction false} RoundZero(run: seq<App>) returns (t: App)
    requires Follows(run) && |run| == 4 && AtHeightOne(run[3]) && run[3].oe == Idle
    ensures Follows(run + [t]) && AtHeightOne(t) && t.finalize == Some(FRESH) && t.oe == Execution(A, 0, false, Pending)
  {
    t := Processed(Toy(), run[3], A, true, map[]);
    assert Wait(Toy(), Cancel(run[3])) == run[3];
    Extend(run, t);
  }

  lemma {:induction false} EarlyStep(run: seq<App>, k: nat) returns (t: App)
    requires k < 3 && Follows(run) && |run| == 5 + k
    requires var s := run[4 + k]; AtHeightOne(s) && s.finalize.Some? && s.oe == Execution(A, k, false, Pending)
    ensures Follows(run + [t])
    ensures AtHeightOne(t) && t.finalize.Some? && t.oe == Execution(A, k + 1, false, if k == 2 then Good else Pending)
  {
    hide Follows, View;
    t := Tick(Toy(), run[4 + k]);
    assert CALLS[4 + k] == OeStep;
    Extend(run, t);
  }

  /** B's proposal throws away the branch A was executed on, but not A's result. */
  lemma {:induction false} RoundOne(run: seq<App>) returns (t: App)
    requires Follows(run) && |run| == 8 && AtHeightOne(run[7]) && run[7].oe == Execution(A, 3, false, Good)
    ensures Follows(run + [t]) && AtHeightOne(t) && t.finalize == Some(FRESH) && t.oe == Execution(A, 3, true, Good)
  {
    t := Processed(Toy(), run[7], B, false, map[]);
    assert Wait(Toy(), Cancel(run[7])) == Cancel(run[7]);
    Extend(run, t);
  }

  /** FinalizeBlock takes the old result and writes the fresh branch; Commit commits that. */
  lemma {:induction false} StaleAnswer(run: seq<App>) returns (t: App, u: App)
    requires Follows(run) && |run| == 9
    requires var s := run[8]; AtHeightOne(s) && s.finalize == Some(FRESH) && s.oe == Execution(A, 3, true, Good)
    ensures TakesStaleResult(run[8], CALLS[8])
    ensures Follows(run + [t] + [u]) && u.alive && u.lastHeight == 2 && u.committed == map[]
  {
    var s := run[8];
    ViewOfNothing(map[]);
    assert Wait(Toy(), s) == s;
    t := WriteToRoot(s);
    Extend(run, t);
    u := Committed(Toy(), t);
    Extend(run + [t], u);
  }

  /** Applying A to the store of height 1 makes its write. */
  lemma {:induction false} TheBlockWrites()
    ensures ApplyBlock(Toy(), map[], A) == Some(map["paid" := "yes"])
    ensures forall v: KV :: ApplyBlock(Toy(), map[], A) == Some(v) ==> "paid" in v
  {
    var e: KV := map[];
    ViewOfNothing(e);
    var w: KV := View(e, map["paid" := Put("yes")]);
    assert w == map["paid" := "yes"];
    assert BlockFrom(Toy(), A, 3, w, Infinite(0)) == Some(w);
    assert BlockFrom(Toy(), A, 2, e, Infinite(0)) == Some(w);
    assert BlockFrom(Toy(), A, 1, e, Infinite(0)) == Some(w);
  }

  lemma {:induction false} EarlyExecution() returns (run: seq<App>)
    ensures Follows(run) && |run| == 8 && AtHeightOne(run[7]) && run[7].oe == Execution(A, 3, false, Good)
  {
    var r := FirstHeight();
    var s4 := RoundZero(r);
    r := r + [s4];
    var k := 0;
    while k < 3
      invariant k <= 3 && Follows(r) && |r| == 5 + k
      invariant var s := r[4 + k]; AtHeightOne(s) && s.finalize.Some? && s.oe == Execution(A, k, false, if k == 3 then Good else Pending)
    {
      var t := EarlyStep(r, k);
      r := r + [t];
      k := k + 1;
    }
    run := r;
  }

  /** The run exists: every call is legal, FinalizeBlock and Commit both succeed for A, and the store
      that is committed at height 2 lacks A's write. */
  lemma {:induction false} DecidedBlockIsLost() returns (run: seq<App>)
    ensures Follows(run) && |run| == |CALLS| + 1
    ensures TakesStaleResult(run[8], CALLS[8])
    ensures var s := run[|CALLS|];
      && s.alive && s.lastHeight == 2 && s.committed == map[]
      && Some(s.committed) != ApplyBlock(Toy(), map[], A)
  {
    TheBlockWrites();
    var r := EarlyExecution();
    var s8 := RoundOne(r);
    r := r + [s8];
    var s9, s10 := StaleAnswer(r);
    run := r + [s9] + [s10];
  }
}
