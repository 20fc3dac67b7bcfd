/** One miner's connection, CPU or GPU, as a machine over the lines from the miner and from the pool. Each
    line is handled in one go: the handlers wait only after they have updated their tables. */
module Sessions {
  import opened Prelude
  import opened UpstreamIdMap

  datatype Path = Cpu | Gpu

  datatype Job = Job(id: string, diff: nat)

  /** The fields of a pool answer that decide about credit: `error` sorted by what the two handlers tell
      apart, `result` likewise. */
  datatype ErrorField = NoError | FalseOrZero | OtherFalsy | RealError
  datatype ResultField = IsTrue | StatusObject(status: string) | OtherResult
  datatype Reply = Reply(id: Id, error: ErrorField, result: ResultField)

  /** A line from the miner. `Login` is `login` or `mining.authorize`, with the address it resolves to;
      `Call` is any other method, `Plain` what has none, `Text` what is not JSON, and `Fails` what makes the
      handler raise. Missing ids are `None`. */
  datatype MinerMsg =
    | Login(id: Option<Id>, address: Option<string>, connects: bool)
    | Submit(id: Option<Id>, job: Option<string>)
    | Call(id: Option<Id>)
    | Plain(id: Option<Id>)
    | Text
    | Fails

  /** A line from the pool: the jobs it carries, and the answer it is when it has no method. */
  datatype PoolMsg = Message(jobs: seq<Job>, reply: Option<Reply>) | Noise

  datatype Line = Miner(m: MinerMsg) | Pool(p: PoolMsg)

  /** History: every request given an upstream id, in the order of the ids, every answer handed back, every
      credit. `line` is the index of the line that caused it. */
  datatype Forward = Forward(line: nat, minerId: Id, diff: Option<nat>, sent: bool)
  datatype Answer = Answer(line: nat, uid: nat, minerId: Id)
  datatype Credit = Credit(line: nat, uid: nat, addr: string, diff: nat)

  datatype Session = Session(
    addr: Option<string>, up: bool, ended: bool, ids: Ids, jobs: seq<Job>, now: nat,
    forwards: seq<Forward>, answers: seq<Answer>, credits: seq<Credit>)

  /** The GPU handler connects upstream before it reads anything, the CPU handler at the login. */
  function Open(path: Path): Session {
    Session(None, path == Gpu, false, NEW_IDS, [], 0, [], [], [])
  }

  // ---------- the job table ----------

  function Cap(path: Path): nat { if path == Cpu then 256 else 64 }

  function Get(jobs: seq<Job>, id: string): (d: Option<nat>)
    ensures d.Some? ==> Job(id, d.value) in jobs
  {
    if jobs == [] then None else if jobs[0].id == id then Some(jobs[0].diff) else Get(jobs[1..], id)
  }

  /** A job known already keeps its place and takes the new difficulty; a new one goes to the end. */
  function Assign(jobs: seq<Job>, j: Job): seq<Job> {
    if jobs == [] then [j] else if jobs[0].id == j.id then [j] + jobs[1..] else [jobs[0]] + Assign(jobs[1..], j)
  }

  /** The oldest job goes when there are more than `cap`. */
  function Put(jobs: seq<Job>, j: Job, cap: nat): seq<Job> {
    var all := Assign(jobs, j);
    if |all| > cap then all[1..] else all
  }

  function PutAll(jobs: seq<Job>, new_: seq<Job>, cap: nat): seq<Job> {
    if new_ == [] then jobs else Put(PutAll(jobs, new_[..|new_| - 1], cap), new_[|new_| - 1], cap)
  }

  // ---------- lines ----------

  /** The request goes upstream under a fresh id when it has one of its own. */
  function IssueFor(s: Session, id: Option<Id>, diff: Option<nat>): Session {
    if id.None? then s
    else s.(ids := Issued(s.ids, id.value, diff), forwards := s.forwards + [Forward(s.now, id.value, diff, s.up)])
  }

  function CpuMiner(s: Session, m: MinerMsg): Session {
    match m
    case Login(id, address, connects) =>
      if s.up then IssueFor(s, id, None)
      else if address.None? then s.(ended := true)
      else if !connects then s.(addr := address, ended := true)
      else IssueFor(s.(addr := address, up := true), id, None)
    case Submit(id, job) => IssueFor(s, id, if job.None? then None else Get(s.jobs, job.value))
    case Call(id) => IssueFor(s, id, None)
    case Plain(_) => s
    case Text => s
    case Fails => s.(ended := true)
  }

  function GpuMiner(s: Session, m: MinerMsg): Session {
    match m
    case Login(id, address, _) => if address.None? then s.(ended := true) else IssueFor(s.(addr := address), id, None)
    case Submit(id, job) => if job.None? || Get(s.jobs, job.value).None? then s else IssueFor(s, id, Get(s.jobs, job.value))
    case Call(id) => IssueFor(s, id, None)
    case Plain(_) => s
    case Text => s
    case Fails => s.(ended := true)
  }

  /** What each handler takes for an accepted share. */
  predicate Positive(path: Path, r: Reply) {
    match path
    case Cpu => r.error != RealError && (r.result == IsTrue || r.result == StatusObject("OK"))
    case Gpu => (r.error == NoError || r.error == FalseOrZero) && r.result == IsTrue
  }

  /** An answer goes back under the miner's id; it credits when it is positive and answers a share. */
  function Settle(path: Path, s: Session, r: Reply): Session {
    match Matching(s.ids, r.id)
    case None => s
    case Some(k) =>
      var e := s.ids.pending[k];
      s.(ids := Without(s.ids, k),
         answers := s.answers + [Answer(s.now, e.uid, e.minerId)],
         credits := if Positive(path, r) && e.diff.Some? && s.addr.Some?
                    then s.credits + [Credit(s.now, e.uid, s.addr.value, e.diff.value)] else s.credits)
  }

  /** The GPU handler looks for jobs only in notifications. */
  function JobsIn(path: Path, p: PoolMsg): seq<Job> {
    if p.Noise? || (path == Gpu && p.reply.Some?) then [] else p.jobs
  }

  function PoolLine(path: Path, s: Session, p: PoolMsg): Session {
    var t := s.(jobs := PutAll(s.jobs, JobsIn(path, p), Cap(path)));
    if p.Message? && p.reply.Some? then Settle(path, t, p.reply.value) else t
  }

  /** One line. The miner is not read any more after the handler ended, the pool not before it is connected. */
  function Step(path: Path, s: Session, l: Line): Session {
    var t := match l
      case Miner(m) => if s.ended then s else if path == Cpu then CpuMiner(s, m) else GpuMiner(s, m)
      case Pool(p) => if s.up then PoolLine(path, s, p) else s;
    t.(now := s.now + 1)
  }

  // ---------- what goes out ----------

  /** A message sent upstream: under a fresh id of the proxy's, as the miner wrote it with the id it has, or
      a line that is no message. */
  datatype Sent = Rewritten(uid: nat) | Verbatim(id: Option<Id>) | RawText

  function Outgoing(s: Session, id: Option<Id>): Sent {
    if id.Some? then Rewritten(s.ids.next) else Verbatim(None)
  }

  /** What a line makes the proxy write upstream. */
  function Upstream(path: Path, s: Session, l: Line): Option<Sent> {
    if l.Pool? || s.ended then None
    else
      match l.m
      case Login(id, address, connects) =>
        if path == Cpu && s.up then Some(Outgoing(s, id))
        else if address.None? || (path == Cpu && !connects) then None
        else Some(Outgoing(s, id))
      case Submit(id, job) =>
        if !s.up || (path == Gpu && (job.None? || Get(s.jobs, job.value).None?)) then None else Some(Outgoing(s, id))
      case Call(id) => if s.up then Some(Outgoing(s, id)) else None
      case Plain(id) => if s.up then Some(Verbatim(id)) else None
      case Text => if s.up then Some(RawText) else None
      case Fails => None
  }

  /** What goes back to the miner: a refusal of the proxy's own, or the pool's line, under the id it gets. */
  datatype Answered = Refused(id: Option<Id>) | Relayed(id: Option<Id>)

  function Downstream(path: Path, s: Session, l: Line): Option<Answered> {
    match l
    case Miner(m) =>
      if s.ended then None
      else if m.Login? && m.address.None? && !(path == Cpu && s.up) then Some(Refused(m.id))
      else if path == Gpu && m.Submit? && (m.job.None? || Get(s.jobs, m.job.value).None?) && m.id.Some? then Some(Refused(m.id))
      else None
    case Pool(p) =>
      if !s.up then None
      else if p.Noise? || p.reply.None? then Some(Relayed(None))
      else
        match Matching(s.ids, p.reply.value.id)
        case None => Some(Relayed(Some(p.reply.value.id)))
        case Some(k) => Some(Relayed(Some(s.ids.pending[k].minerId)))
  }

  /** A message on the upstream wire, with the line that caused it. */
  datatype OnWire = OnWire(line: nat, sent: Sent)

  /** Everything a session has written upstream. */
  function Wire(path: Path, trace: seq<Line>): seq<OnWire> {
    if trace == [] then []
    else
      var n := |trace| - 1;
      var out := Upstream(path, Run(path, trace[..n]), trace[n]);
      if out.None? then Wire(path, trace[..n]) else Wire(path, trace[..n]) + [OnWire(n, out.value)]
  }

  /** The session after a whole interleaving of lines. */
  function Run(path: Path, trace: seq<Line>): Session {
    if trace == [] then Open(path) else Step(path, Run(path, trace[..|trace| - 1]), trace[|trace| - 1])
  }
}
