/** `handle_miner` and `handle_gpu_miner` as an object: the tables a connection keeps, updated line by line. */
module MinerSessions {
  import opened Prelude
  import opened UpstreamIdMap
  import opened Sessions

  class MinerSession {
    const path: Path
    const ids: UpstreamIds
    var aba: Option<string>          // the login address
    var upWriter: bool               // connected upstream
    var ended: bool
    var jobs: seq<Job>               // job_diff, or issued
    var now: nat                     // lines handled
    ghost var forwards: seq<Forward>
    ghost var answers: seq<Answer>
    var credits: seq<Credit>         // calls of record_share, in order

    ghost function State(): Session
      reads this, ids
    {
      Session(aba, upWriter, ended, ids.State(), jobs, now, forwards, answers, credits)
    }

    constructor (path: Path)
      ensures State() == Open(path) && this.path == path && fresh(ids)
    {
      this.path := path;
      ids := new UpstreamIds();
      aba, upWriter, ended, jobs := None, path == Gpu, false, [];
      now, forwards, answers, credits := 0, [], [], [];
    }

    /** `ids.issue(msg["id"], diff)` when the message has an id; what goes out carries the new one. */
    method IssueUpstream(id: Option<Id>, diff: Option<nat>) returns (out: Option<Sent>)
      modifies this, ids
      ensures State() == IssueFor(old(State()), id, diff)
      ensures out == Some(Outgoing(old(State()), id))
    {
      if id.None? { return Some(Verbatim(None)); }
      var uid := ids.Issue(id.value, diff);
      forwards := forwards + [Forward(now, id.value, diff, upWriter)];
      out := Some(Rewritten(uid));
    }

    method CpuLogin(id: Option<Id>, address: Option<string>, connects: bool) returns (up: Option<Sent>, down: Option<Answered>)
      requires path == Cpu && !ended
      modifies this, ids
      ensures State() == CpuMiner(old(State()), Login(id, address, connects))
      ensures up == Upstream(path, old(State()), Miner(Login(id, address, connects)))
      ensures down == Downstream(path, old(State()), Miner(Login(id, address, connects)))
    {
      hide Issued;
      up, down := None, None;
      if upWriter {
        up := IssueUpstream(id, None);
        return;
      }
      if address.None? {
        down := Some(Refused(id));
        ended := true;
        return;
      }
      aba := address;
      if !connects {
        ended := true;
        return;
      }
      upWriter := true;
      up := IssueUpstream(id, None);
    }

    method GpuLogin(id: Option<Id>, address: Option<string>) returns (up: Option<Sent>, down: Option<Answered>)
      requires path == Gpu && !ended
      modifies this, ids
      ensures State() == GpuMiner(old(State()), Login(id, address, true))
      ensures up == Upstream(path, old(State()), Miner(Login(id, address, true)))
      ensures down == Downstream(path, old(State()), Miner(Login(id, address, true)))
    {
      hide Issued;
      up, down := None, None;
      if address.None? {
        down := Some(Refused(id));
        ended := true;
        return;
      }
      aba := address;
      up := IssueUpstream(id, None);
    }

    method SubmitLine(id: Option<Id>, job: Option<string>) returns (up: Option<Sent>, down: Option<Answered>)
      requires !ended
      modifies this, ids
      ensures State() == if path == Cpu then CpuMiner(old(State()), Submit(id, job)) else GpuMiner(old(State()), Submit(id, job))
      ensures up == Upstream(path, old(State()), Miner(Submit(id, job))) && down == Downstream(path, old(State()), Miner(Submit(id, job)))
    {
      hide Issued, Get;
      up, down := None, None;
      var diff := if job.None? then None else Get(jobs, job.value);
      if path == Cpu || diff.Some? {
        var sent := IssueUpstream(id, diff);
        if upWriter { up := sent; }
      } else if id.Some? {
        down := Some(Refused(id));
      }
    }

    /** A line from the miner: `up` is what is written to the pool, `down` what the proxy answers itself. */
    method MinerLine(m: MinerMsg) returns (up: Option<Sent>, down: Option<Answered>)
      modifies this, ids
      ensures State() == Step(path, old(State()), Miner(m))
      ensures up == Upstream(path, old(State()), Miner(m)) && down == Downstream(path, old(State()), Miner(m))
    {
      hide Issued, Get;
      up, down := None, None;
      if !ended {
        match m
        case Login(id, address, connects) =>
          if path == Cpu {
            up, down := CpuLogin(id, address, connects);
          } else {
            up, down := GpuLogin(id, address);
          }
        case Submit(id, job) =>
          up, down := SubmitLine(id, job);
        case Call(id) =>
          var sent := IssueUpstream(id, None);
          if upWriter { up := sent; }
        case Plain(id) =>
          if upWriter { up := Some(Verbatim(id)); }
        case Text =>
          if upWriter { up := Some(RawText); }
        case Fails => ended := true;
      }
      now := now + 1;
    }

    /** `table[job_id] = difficulty`, dropping the oldest job beyond the table's size. */
    method RecordJob(j: Job)
      modifies `jobs
      ensures jobs == Put(old(jobs), j, Cap(path))
    {
      jobs := Assign(jobs, j);
      if |jobs| > (if path == Cpu then 256 else 64) { jobs := jobs[1..]; }
    }

    /** An answer from the pool: the message back to the miner's id, and the credit. */
    method SettleReply(r: Reply) returns (out: Id)
      modifies this, ids
      ensures State() == Settle(path, old(State()), r) && now == old(now)
      ensures match Matching(old(ids.State()), r.id)
              case None => out == r.id
              case Some(k) => out == old(ids.map_)[k].minerId
    {
      var ent := ids.Resolve(r.id);
      if ent.None? { return r.id; }
      out := ent.value.minerId;
      answers := answers + [Answer(now, ent.value.uid, ent.value.minerId)];
      var ok := if path == Cpu then r.error != RealError && (r.result == IsTrue || r.result == StatusObject("OK"))
                else (r.error == NoError || r.error == FalseOrZero) && r.result == IsTrue;
      if ok && ent.value.diff.Some? && aba.Some? {
        credits := credits + [Credit(now, ent.value.uid, aba.value, ent.value.diff.value)];
      }
    }

    /** A line from the pool; `down` is what is passed on to the miner. */
    method PoolMessage(p: PoolMsg) returns (down: Option<Answered>)
      modifies this, ids
      ensures State() == Step(path, old(State()), Pool(p)) && down == Downstream(path, old(State()), Pool(p))
    {
      hide Settle, Put, Matching;
      down := None;
      if upWriter {
        var found := if p.Noise? || (path == Gpu && p.reply.Some?) then [] else p.jobs;
        ghost var was := jobs;
        for i := 0 to |found|
          invariant jobs == PutAll(was, found[..i], Cap(path))
          invariant State() == old(State()).(jobs := jobs)
        {
          RecordJob(found[i]);
          assert found[..i + 1][..i] == found[..i];
        }
        assert found[..|found|] == found == JobsIn(path, p);
        down := Some(Relayed(None));
        if p.Message? && p.reply.Some? {
          var out := SettleReply(p.reply.value);
          down := Some(Relayed(Some(out)));
        }
        assert State() == PoolLine(path, old(State()), p);
      }
      now := now + 1;
    }
  }
}
