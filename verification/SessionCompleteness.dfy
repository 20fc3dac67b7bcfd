/** The other half of the credit laws: a submitted share is registered with its job's weight, and earned credit is given. */
module SessionCompleteness {
  import opened Prelude
  import opened UpstreamIdMap
  import opened Sessions
  import opened SessionLaws

  // ---------- the job table over the trace ----------

  predicate Holds(s: Session, job: string) { exists k :: 0 <= k < |s.jobs| && s.jobs[k].id == job }

  /** The difficulty a list of jobs gives an id, the last one when it names it more than once. */
  function LastOf(jobs: seq<Job>, id: string): Option<nat> {
    if jobs == [] then None
    else if jobs[|jobs| - 1].id == id then Some(jobs[|jobs| - 1].diff)
    else LastOf(jobs[..|jobs| - 1], id)
  }

  /** The difficulty of an id's latest announcement: by the last line with one that the handler read, which on the CPU
      path is not before it is connected. */
  function Latest(path: Path, trace: seq<Line>, id: string): Option<nat> {
    if trace == [] then None
    else
      var n := |trace| - 1;
      if trace[n].Pool? && Run(path, trace[..n]).up && LastOf(JobsIn(path, trace[n].p), id).Some?
      then LastOf(JobsIn(path, trace[n].p), id)
      else Latest(path, trace[..n], id)
  }

  /** The table names each job once, with its latest difficulty. */
  ghost predicate TableTrue(jobs: seq<Job>, latest: string -> Option<nat>) {
    && (forall k :: 0 <= k < |jobs| ==> latest(jobs[k].id) == Some(jobs[k].diff))
    && (forall i, k :: 0 <= i < k < |jobs| ==> jobs[i].id != jobs[k].id)
  }

  /** Where an assignment puts a job: in its old place, or at the end. */
  lemma {:induction false} AssignAt(jobs: seq<Job>, j: Job)
    requires forall i, k :: 0 <= i < k < |jobs| ==> jobs[i].id != jobs[k].id
    ensures var all := Assign(jobs, j);
      && |all| == |jobs| + (if exists k :: 0 <= k < |jobs| && jobs[k].id == j.id then 0 else 1)
      && (forall k :: 0 <= k < |jobs| ==> all[k] == if jobs[k].id == j.id then j else jobs[k])
      && (|all| > |jobs| ==> all[|jobs|] == j)
  {
    if jobs != [] && jobs[0].id != j.id {
      var all, rest := Assign(jobs, j), Assign(jobs[1..], j);
      AssignAt(jobs[1..], j);
      assert all == [jobs[0]] + rest;
      forall k | 0 < k < |jobs| ensures all[k] == if jobs[k].id == j.id then j else jobs[k] { assert jobs[1..][k - 1] == jobs[k]; }
      if k :| 0 <= k < |jobs| && jobs[k].id == j.id { assert jobs[1..][k - 1].id == j.id; }
    } else if jobs != [] {
      assert jobs[0].id == j.id && Assign(jobs, j) == [j] + jobs[1..];
    }
  }

  /** One announcement: the table then has the job, and loses its oldest one exactly when it was full and did not have
      the job; 256 on the CPU path and 64 on the GPU path are full. */
  lemma {:induction false} OneAnnouncement(path: Path, jobs: seq<Job>, j: Job)
    requires |jobs| <= (if path == Cpu then 256 else 64)
    requires forall i, k :: 0 <= i < k < |jobs| ==> jobs[i].id != jobs[k].id
    ensures var t := Put(jobs, j, Cap(path));
      && |t| <= (if path == Cpu then 256 else 64)
      && (forall i, k :: 0 <= i < k < |t| ==> t[i].id != t[k].id)
      && if exists k :: 0 <= k < |jobs| && jobs[k].id == j.id
         then |t| == |jobs| && forall k :: 0 <= k < |jobs| ==> t[k] == if jobs[k].id == j.id then j else jobs[k]
         else t == if |jobs| == (if path == Cpu then 256 else 64) then jobs[1..] + [j] else jobs + [j]
  {
    hide Assign;
    AssignAt(jobs, j);
    var all := Assign(jobs, j);
    if !exists k :: 0 <= k < |jobs| && jobs[k].id == j.id { assert all == jobs + [j]; }
  }

  lemma {:induction false} PutKeepsTrue(path: Path, jobs: seq<Job>, j: Job, latest: string -> Option<nat>, after: string -> Option<nat>)
    requires |jobs| <= Cap(path) && TableTrue(jobs, latest)
    requires forall id :: after(id) == if id == j.id then Some(j.diff) else latest(id)
    ensures TableTrue(Put(jobs, j, Cap(path)), after) && |Put(jobs, j, Cap(path))| <= Cap(path)
  {
    hide Put;
    OneAnnouncement(path, jobs, j);
  }

  function Later(latest: string -> Option<nat>, jobs: seq<Job>): string -> Option<nat> {
    (id: string) => if LastOf(jobs, id).Some? then LastOf(jobs, id) else latest(id)
  }

  lemma {:induction false} PutAllKeepsTrue(path: Path, jobs: seq<Job>, new_: seq<Job>, latest: string -> Option<nat>)
    requires |jobs| <= Cap(path) && TableTrue(jobs, latest)
    ensures TableTrue(PutAll(jobs, new_, Cap(path)), Later(latest, new_)) && |PutAll(jobs, new_, Cap(path))| <= Cap(path)
  {
    hide TableTrue, Put;
    if new_ == [] {
      SameTable(jobs, latest, Later(latest, []));
    } else {
      PutAllKeepsTrue(path, jobs, new_[..|new_| - 1], latest);
      forall id: string ensures Later(latest, new_)(id) ==
        if id == new_[|new_| - 1].id then Some(new_[|new_| - 1].diff) else Later(latest, new_[..|new_| - 1])(id)
      {
        LastOfOneMore(new_, id);
      }
      PutKeepsTrue(path, PutAll(jobs, new_[..|new_| - 1], Cap(path)), new_[|new_| - 1], Later(latest, new_[..|new_| - 1]), Later(latest, new_));
    }
  }

  lemma {:induction false} LastOfOneMore(jobs: seq<Job>, id: string)
    requires jobs != []
    ensures LastOf(jobs, id) == if jobs[|jobs| - 1].id == id then Some(jobs[|jobs| - 1].diff) else LastOf(jobs[..|jobs| - 1], id)
  {
  }

  lemma {:induction false} SameTable(jobs: seq<Job>, latest: string -> Option<nat>, after: string -> Option<nat>)
    requires TableTrue(jobs, latest) && forall id :: after(id) == latest(id)
    ensures TableTrue(jobs, after)
  {
  }

  function LatestAt(path: Path, trace: seq<Line>): string -> Option<nat> { (id: string) => Latest(path, trace, id) }

  /** What a line leaves of the table. */
  lemma {:induction false} JobsAfter(path: Path, s: Session, l: Line)
    ensures Step(path, s, l).jobs == if l.Pool? && s.up then PutAll(s.jobs, JobsIn(path, l.p), Cap(path)) else s.jobs
  {
    hide PutAll, JobsIn, Cap, Get, Issued, Matching, Without;
  }

  /** In every run the table holds, for every job in it, the difficulty it was announced with last. */
  lemma {:induction false} TableHoldsLatest(path: Path, trace: seq<Line>)
    ensures TableTrue(Run(path, trace).jobs, LatestAt(path, trace)) && |Run(path, trace).jobs| <= Cap(path)
  {
    hide Step, TableTrue, PutAll, Cap, JobsIn;
    if trace == [] {
      EmptyTable(path);
    } else {
      var n := |trace| - 1;
      TableHoldsLatest(path, trace[..n]);
      var s, l := Run(path, trace[..n]), trace[n];
      JobsAfter(path, s, l);
      if l.Pool? && s.up {
        PutAllKeepsTrue(path, s.jobs, JobsIn(path, l.p), LatestAt(path, trace[..n]));
        SameTable(Step(path, s, l).jobs, Later(LatestAt(path, trace[..n]), JobsIn(path, l.p)), LatestAt(path, trace));
      } else {
        SameTable(s.jobs, LatestAt(path, trace[..n]), LatestAt(path, trace));
      }
    }
  }

  lemma {:induction false} EmptyTable(path: Path)
    ensures TableTrue(Run(path, []).jobs, LatestAt(path, [])) && |Run(path, []).jobs| <= Cap(path)
  {
  }

  lemma {:induction false} GetIs(jobs: seq<Job>, id: string)
    ensures Get(jobs, id).Some? <==> exists k :: 0 <= k < |jobs| && jobs[k].id == id
  {
    if jobs != [] {
      GetIs(jobs[1..], id);
      if k :| 0 <= k < |jobs| && jobs[k].id == id && k > 0 { assert jobs[1..][k - 1].id == id; }
      if k :| 0 <= k < |jobs[1..]| && jobs[1..][k].id == id { assert jobs[k + 1].id == id; }
    }
  }

  /** Looking up a job: nothing when it is not in the table, else its latest difficulty. */
  lemma {:induction false} LookupIsLatest(path: Path, trace: seq<Line>, job: string)
    ensures Get(Run(path, trace).jobs, job) == if Holds(Run(path, trace), job) then Latest(path, trace, job) else None
    ensures Holds(Run(path, trace), job) ==> Latest(path, trace, job).Some?
  {
    hide Run, Latest;
    TableHoldsLatest(path, trace);
    GetIs(Run(path, trace).jobs, job);
    if Holds(Run(path, trace), job) {
      var d := Get(Run(path, trace).jobs, job).value;
      var k :| 0 <= k < |Run(path, trace).jobs| && Run(path, trace).jobs[k] == Job(job, d);
      assert LatestAt(path, trace)(job) == Some(d);
    }
  }

  // ---------- a submit ----------

  /** A submit with an id, on a connected session that goes on: for a job in the table it is given the next id and
      registered with the job's latest difficulty; for any other job it carries no weight on the CPU path, and on the
      GPU path it is refused and given no id. */
  lemma {:induction false} ASubmitCarriesItsWeight(path: Path, trace: seq<Line>, n: nat, id: Id, job: string)
    requires n < |trace| && Submits(trace[n], id, job)
    requires !Run(path, trace[..n]).ended && Run(path, trace[..n]).up
    ensures var (s, t) := (Run(path, trace[..n]), Run(path, trace[..n + 1]));
      var d := if Holds(s, job) then Latest(path, trace[..n], job) else None;
      && (Holds(s, job) ==> d.Some?)
      && if path == Gpu && d.None?
         then t.forwards == s.forwards && t.ids == s.ids && Downstream(path, s, trace[n]) == Some(Refused(Some(id)))
         else && t.forwards == s.forwards + [Forward(n, id, d, true)]
              && t.ids.pending != [] && t.ids.pending[|t.ids.pending| - 1] == Entry(s.ids.next, id, d)
              && Upstream(path, s, trace[n]) == Some(Rewritten(s.ids.next))
  {
    hide Run, Latest, Get, Issued, Holds;
    var s := Run(path, trace[..n]);
    RunOfPrefix(path, trace, n);
    NowIsLength(path, trace[..n]);
    LookupIsLatest(path, trace[..n], job);
    LastEntry(s.ids, id, Get(s.jobs, job));
  }

  lemma {:induction false} LastEntry(ids: Ids, id: Id, diff: Option<nat>)
    ensures var t := Issued(ids, id, diff);
      t.pending != [] && t.pending[|t.pending| - 1] == Entry(ids.next, id, diff)
  {
  }

  // ---------- an answer ----------

  /** What each handler takes for a positive answer, every combination of error and result. */
  lemma {:induction false} PositiveIs(id: Id, status: string)
    ensures forall e: ErrorField :: Positive(Cpu, Reply(id, e, IsTrue)) <==> e == NoError || e == FalseOrZero || e == OtherFalsy
    ensures forall e: ErrorField :: Positive(Cpu, Reply(id, e, StatusObject(status))) <==>
      (e == NoError || e == FalseOrZero || e == OtherFalsy) && status == "OK"
    ensures forall e: ErrorField :: !Positive(Cpu, Reply(id, e, OtherResult))
    ensures forall e: ErrorField :: Positive(Gpu, Reply(id, e, IsTrue)) <==> e == NoError || e == FalseOrZero
    ensures forall e: ErrorField :: !Positive(Gpu, Reply(id, e, StatusObject(status))) && !Positive(Gpu, Reply(id, e, OtherResult))
  {
  }

  /** Forwards stay listed. */
  lemma {:induction false} ForwardsStay(path: Path, trace: seq<Line>, n: nat, m: nat)
    requires n <= m <= |trace|
    ensures Run(path, trace[..n]).forwards <= Run(path, trace[..m]).forwards
    decreases m
  {
    hide Step, Run;
    if n < m {
      ForwardsStay(path, trace, n, m - 1);
      RunOfPrefix(path, trace, m - 1);
      ForwardsGrow(path, Run(path, trace[..m - 1]), trace[m - 1]);
    }
  }

  lemma {:induction false} CreditsStay(path: Path, trace: seq<Line>, n: nat, m: nat)
    requires n <= m <= |trace|
    ensures Run(path, trace[..n]).credits <= Run(path, trace[..m]).credits
    decreases m
  {
    hide Step, Run;
    if n < m {
      CreditsStay(path, trace, n, m - 1);
      RunOfPrefix(path, trace, m - 1);
      StepCredits(path, Run(path, trace[..m - 1]), trace[m - 1]);
    }
  }

  /** A positive answer to a request that waits with a weight gives its credit. */
  lemma {:induction false} AWaitingShareIsCredited(path: Path, trace: seq<Line>, m: nat, uid: nat)
    requires m < |trace| && Accepts(path, trace[m], uid) && Waiting(Run(path, trace[..m]).ids, uid)
    requires var s := Run(path, trace[..m]); s.up && s.addr.Some? && 1 <= uid <= |s.forwards| && s.forwards[uid - 1].diff.Some?
    ensures var s := Run(path, trace[..m]);
      Run(path, trace[..m + 1]).credits == s.credits + [Credit(m, uid, s.addr.value, s.forwards[uid - 1].diff.value)]
  {
    hide Run, Positive, Explained;
    var s := Run(path, trace[..m]);
    RunExplained(path, trace[..m]);
    var k :| 0 <= k < |s.ids.pending| && s.ids.pending[k].uid == uid;
    assert trace[..m + 1] == trace[..m] + [trace[m]];
    CreditExactlyWhenEarned(path, trace[..m], trace[m]);
    forall i | 0 <= i < |s.ids.pending| ensures var e := s.ids.pending[i]; 1 <= e.uid <= |s.forwards| && s.forwards[e.uid - 1].diff == e.diff {
      EntryIsForward(path, trace[..m], s, i);
    }
  }

  lemma {:induction false} EntryIsForward(path: Path, trace: seq<Line>, s: Session, k: nat)
    requires Explained(path, trace, s) && k < |s.ids.pending|
    ensures var e := s.ids.pending[k]; 1 <= e.uid <= |s.forwards| && s.forwards[e.uid - 1].diff == e.diff
  {
  }

  /** Earned credit is given. In every interleaving: a submit with an id, for a job in the table, on a connected session
      that goes on, whose id still waits when the pool answers it positively, is credited exactly once, with the job's
      difficulty at the submit, to the address in force at the answer; on the CPU path there always is one. */
  lemma {:induction false} AnEarnedShareIsCredited(path: Path, trace: seq<Line>, n: nat, m: nat, id: Id, job: string)
    requires n < m < |trace| && Submits(trace[n], id, job)
    requires !Run(path, trace[..n]).ended && Run(path, trace[..n]).up && Holds(Run(path, trace[..n]), job)
    requires var uid := Run(path, trace[..n]).ids.next;
      Waiting(Run(path, trace[..m]).ids, uid) && Accepts(path, trace[m], uid)
    requires path == Gpu ==> Run(path, trace[..m]).addr.Some?
    ensures var (uid, a, d) := (Run(path, trace[..n]).ids.next, Run(path, trace[..m]).addr, Latest(path, trace[..n], job));
      && a.Some? && d.Some?
      && var (cs, c) := (Run(path, trace).credits, Credit(m, uid, a.value, d.value));
        c in cs && forall other :: other in cs && other.uid == uid ==> other == c
  {
    hide Run, Latest, Holds, Waiting, Accepts, Explained;
    var s, t := Run(path, trace[..n]), Run(path, trace[..m]);
    var uid := s.ids.next;
    ASubmitCarriesItsWeight(path, trace, n, id, job);
    IdsAreForwards(path, trace[..n]);
    ForwardsStay(path, trace, n + 1, m);
    StaysUp(path, trace, n, m);
    AWaitingShareIsCredited(path, trace, m, uid);
    CreditsStay(path, trace, m + 1, |trace|);
    assert trace[..|trace|] == trace;
    assert Run(path, trace).credits[|t.credits|] == Run(path, trace[..m + 1]).credits[|t.credits|];
    OneCreditPerId(path, trace, Credit(m, uid, t.addr.value, Latest(path, trace[..n], job).value));
  }

  lemma {:induction false} IdsAreForwards(path: Path, trace: seq<Line>)
    ensures var s := Run(path, trace); s.ids.next == |s.forwards| + 1 && (path == Cpu && s.up ==> s.addr.Some?)
  {
    hide Run;
    RunExplained(path, trace);
  }

  lemma {:induction false} StaysUp(path: Path, trace: seq<Line>, n: nat, m: nat)
    requires n <= m <= |trace| && Run(path, trace[..n]).up
    ensures Run(path, trace[..m]).up && (path == Cpu ==> Run(path, trace[..m]).addr.Some?)
    decreases m
  {
    hide Step, Run;
    if n < m {
      StaysUp(path, trace, n, m - 1);
      RunOfPrefix(path, trace, m - 1);
      UpStays(path, Run(path, trace[..m - 1]), trace[m - 1]);
    }
    IdsAreForwards(path, trace[..m]);
  }

  lemma {:induction false} UpStays(path: Path, s: Session, l: Line)
    requires s.up
    ensures Step(path, s, l).up
  {
    hide PutAll, JobsIn, Cap, Get, Issued, Matching, Without;
  }

  lemma {:induction false} OneCreditPerId(path: Path, trace: seq<Line>, c: Credit)
    requires c in Run(path, trace).credits
    ensures forall other :: other in Run(path, trace).credits && other.uid == c.uid ==> other == c
  {
    hide Run;
    var cs := Run(path, trace).credits;
    var i :| 0 <= i < |cs| && cs[i] == c;
    forall other | other in cs && other.uid == c.uid ensures other == c {
      var j :| 0 <= j < |cs| && cs[j] == other;
      if i < j { CreditsAreDistinct(path, trace, i, j); } else if j < i { CreditsAreDistinct(path, trace, j, i); }
    }
  }

  // ---------- which lines connect, end and ask ----------

  /** A login that brings an address and connects. */
  predicate Connects(l: Line) { l.Miner? && l.m.Login? && l.m.address.Some? && l.m.connects }

  /** A line that ends the handler where it is read: it raises, it names no address on a session that needs one, or, on
      the CPU path, the pool cannot be reached. */
  predicate EndsAt(path: Path, up: bool, l: Line) {
    l.Miner? &&
    (l.m == Fails
     || (l.m.Login? && path == Gpu && l.m.address == None)
     || (l.m.Login? && path == Cpu && !up && (l.m.address == None || !l.m.connects)))
  }

  /** One line and the two flags. */
  lemma {:induction false} FlagsAfter(path: Path, s: Session, l: Line)
    requires path == Gpu ==> s.up
    ensures var t := Step(path, s, l);
      && (t.up <==> s.up || (path == Cpu && !s.ended && Connects(l)))
      && (t.ended <==> s.ended || EndsAt(path, s.up, l))
  {
    hide PutAll, JobsIn, Cap, Get, Issued, Matching, Without, Positive;
  }

  /** Line `k` connects the session, or ends it. */
  predicate ConnectsAt(path: Path, trace: seq<Line>, k: nat)
    requires k < |trace|
  {
    path == Cpu && Connects(trace[k]) && !Run(path, trace[..k]).ended
  }

  predicate EndsSession(path: Path, trace: seq<Line>, k: nat)
    requires k < |trace|
  {
    EndsAt(path, Run(path, trace[..k]).up, trace[k])
  }

  lemma {:induction false} SameBefore(path: Path, trace: seq<Line>, n: nat, k: nat)
    requires k < n <= |trace|
    ensures ConnectsAt(path, trace[..n], k) == ConnectsAt(path, trace, k) && EndsSession(path, trace[..n], k) == EndsSession(path, trace, k)
  {
    hide Run, Connects, EndsAt;
    assert trace[..n][..k] == trace[..k];
  }

  /** The flags of a session, over its whole trace: the GPU handler is connected from the start, a CPU session exactly
      when some login that brought an address and connected was read before anything ended the handler; and the handler
      has ended exactly when it read a line that ends it. */
  lemma {:induction false} FlagsExactlyWhen(path: Path, trace: seq<Line>)
    ensures Run(path, trace).up <==> path == Gpu || exists k :: 0 <= k < |trace| && ConnectsAt(path, trace, k)
    ensures Run(path, trace).ended <==> exists k :: 0 <= k < |trace| && EndsSession(path, trace, k)
  {
    hide Step, EndsAt, Connects;
    if trace == [] {
      NothingRead(path);
    } else {
      var n := |trace| - 1;
      FlagsExactlyWhen(path, trace[..n]);
      FlagsAfter(path, Run(path, trace[..n]), trace[n]);
      forall k | 0 <= k < n
        ensures ConnectsAt(path, trace[..n], k) == ConnectsAt(path, trace, k) && EndsSession(path, trace[..n], k) == EndsSession(path, trace, k)
      {
        SameBefore(path, trace, n, k);
      }
      FlagsSoFar(path, trace, n);
    }
  }

  lemma {:induction false} FlagsSoFar(path: Path, trace: seq<Line>, n: nat)
    requires n < |trace|
    ensures (exists k :: 0 <= k < n + 1 && ConnectsAt(path, trace, k)) <==> (exists k :: 0 <= k < n && ConnectsAt(path, trace, k)) || ConnectsAt(path, trace, n)
    ensures (exists k :: 0 <= k < n + 1 && EndsSession(path, trace, k)) <==> (exists k :: 0 <= k < n && EndsSession(path, trace, k)) || EndsSession(path, trace, n)
  {
    hide ConnectsAt, EndsSession;
  }

  /** The line asks the pool something that the proxy passes on: a login, except one that is refused or cannot connect,
      a submit, on the GPU path of a job in the table, or any other method. */
  predicate PassesOn(path: Path, s: Session, l: Line) {
    l.Miner? && !s.ended &&
    match l.m
    case Login(_, address, connects) => if path == Cpu && s.up then true else address.Some? && (path == Cpu ==> connects)
    case Submit(_, job) => path == Cpu || (job.Some? && Holds(s, job.value))
    case Call(_) => true
    case Plain(_) => false
    case Text => false
    case Fails => false
  }

  /** Exactly the lines that are passed on and have an id are given one, the next, and a waiting entry for it. */
  lemma {:induction false} IdIsGivenExactlyWhen(path: Path, trace: seq<Line>, n: nat)
    requires n < |trace|
    ensures var (s, t) := (Run(path, trace[..n]), Run(path, trace[..n + 1]));
      if PassesOn(path, s, trace[n]) && trace[n].m.id.Some?
      then && |t.forwards| == |s.forwards| + 1 && t.forwards[|s.forwards|].line == n && t.forwards[|s.forwards|].minerId == trace[n].m.id.value
           && t.forwards[|s.forwards|].sent == t.up && t.ids.next == s.ids.next + 1
      else t.forwards == s.forwards && t.ids.next == s.ids.next
  {
    hide Run, PutAll, JobsIn, Cap, Get, Issued, Matching, Positive;
    var s, l := Run(path, trace[..n]), trace[n];
    RunOfPrefix(path, trace, n);
    NowIsLength(path, trace[..n]);
    if l.Miner? && l.m.Submit? && l.m.job.Some? { GetIs(s.jobs, l.m.job.value); }
    forall id: Id, diff: Option<nat> ensures Issued(s.ids, id, diff).next == s.ids.next + 1 { IssueNumbers(s.ids, id, diff); }
  }

  // ---------- what the miner gets ----------

  /** On the GPU path only messages that are no answers announce jobs, on the CPU path all messages do. */
  lemma {:induction false} WhoAnnounces(jobs: seq<Job>, reply: Reply)
    ensures JobsIn(Cpu, Message(jobs, None)) == JobsIn(Cpu, Message(jobs, Some(reply))) == jobs
    ensures JobsIn(Gpu, Message(jobs, None)) == jobs && JobsIn(Gpu, Message(jobs, Some(reply))) == []
    ensures JobsIn(Cpu, Noise) == JobsIn(Gpu, Noise) == []
  {
  }

  /** The proxy answers a miner's line itself exactly when it refuses it: a login that brings no address to a session that
      needs one, or, with an id, a submit on the GPU path for no job in the table. */
  lemma {:induction false} RefusedExactlyWhen(path: Path, trace: seq<Line>, m: MinerMsg)
    requires !Run(path, trace).ended
    ensures var s := Run(path, trace);
      Downstream(path, s, Miner(m)) ==
        match m
        case Login(id, address, _) => if address == None && (path == Gpu || !s.up) then Some(Refused(id)) else None
        case Submit(id, job) =>
          if path == Gpu && id != None && (job == None || !Holds(s, job.value)) then Some(Refused(id)) else None
        case Call(_) => None
        case Plain(_) => None
        case Text => None
        case Fails => None
  {
    hide Run, Get;
    if m.Submit? && m.job.Some? { GetIs(Run(path, trace).jobs, m.job.value); }
  }

  /** A line from the pool goes on to the miner once the session is connected; an answer under the miner's id when its own
      waits, and as it came otherwise. */
  lemma {:induction false} RelayedExactlyWhen(path: Path, trace: seq<Line>, p: PoolMsg)
    ensures var s := Run(path, trace);
      var down := Downstream(path, s, Pool(p));
      && (down.Some? <==> s.up)
      && (s.up && (p.Noise? || p.reply.None?) ==> down == Some(Relayed(None)))
      && (s.up && p.Message? && p.reply.Some? ==>
            forall uid: nat :: p.reply.value.id == IntId(uid) && Waiting(s.ids, uid) ==>
              1 <= uid <= |s.forwards| && down == Some(Relayed(Some(s.forwards[uid - 1].minerId))))
      && (s.up && p.Message? && p.reply.Some? && (forall uid: nat :: p.reply.value.id == IntId(uid) ==> !Waiting(s.ids, uid)) ==>
            down == Some(Relayed(Some(p.reply.value.id))))
  {
    hide Run, Matching;
    var s := Run(path, trace);
    RunExplained(path, trace);
    if p.Message? && p.reply.Some? { MatchingIsWaiting(path, trace, p.reply.value.id); }
  }
}
