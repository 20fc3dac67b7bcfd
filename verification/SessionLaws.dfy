/** What every interleaving of miner and pool lines leaves true of a session. */
module SessionLaws {
  import opened Prelude
  import opened UpstreamIdMap
  import opened Sessions

  // ---------- what a line is ----------

  predicate Announces(path: Path, l: Line, j: Job) { l.Pool? && j in JobsIn(path, l.p) }

  predicate Asks(l: Line, id: Id) {
    l.Miner? && (l.m.Login? || l.m.Submit? || l.m.Call?) && l.m.id == Some(id)
  }

  predicate Submits(l: Line, id: Id, job: string) { l == Miner(Submit(Some(id), Some(job))) }

  predicate Replies(l: Line, uid: nat) { l.Pool? && l.p.Message? && l.p.reply.Some? && l.p.reply.value.id == IntId(uid) }

  predicate Accepts(path: Path, l: Line, uid: nat) { Replies(l, uid) && Positive(path, l.p.reply.value) }

  predicate NamesAddress(l: Line, a: string) { l.Miner? && l.m.Login? && l.m.address == Some(a) }

  // ---------- the parts of the invariant ----------

  ghost predicate Known(path: Path, trace: seq<Line>, before: nat, j: Job) {
    exists h :: 0 <= h < before && h < |trace| && Announces(path, trace[h], j)
  }

  /** The request at that line was the miner's, and a weight comes from a job announced before it. */
  ghost predicate ForwardFine(path: Path, trace: seq<Line>, f: Forward) {
    && f.line < |trace| && Asks(trace[f.line], f.minerId)
    && (f.diff.Some? ==> f.sent && trace[f.line].m.Submit? && trace[f.line].m.job.Some?
                         && Known(path, trace, f.line, Job(trace[f.line].m.job.value, f.diff.value)))
    && (path == Gpu && trace[f.line].m.Submit? ==> f.diff.Some?)
  }

  ghost predicate AnswerFine(trace: seq<Line>, forwards: seq<Forward>, a: Answer) {
    && a.line < |trace| && Replies(trace[a.line], a.uid)
    && 1 <= a.uid <= |forwards| && forwards[a.uid - 1].minerId == a.minerId && forwards[a.uid - 1].line < a.line
  }

  ghost predicate Named(trace: seq<Line>, before: nat, a: string) {
    exists k :: 0 <= k < before && k < |trace| && NamesAddress(trace[k], a)
  }

  ghost predicate CreditFine(path: Path, trace: seq<Line>, forwards: seq<Forward>, c: Credit) {
    && c.line < |trace| && Accepts(path, trace[c.line], c.uid)
    && 1 <= c.uid <= |forwards| && forwards[c.uid - 1].diff == Some(c.diff) && forwards[c.uid - 1].line < c.line
    && Named(trace, c.line, c.addr)
  }

  ghost predicate Basics(path: Path, trace: seq<Line>, s: Session) {
    && s.now == |trace| && Ordered(s.ids) && |s.forwards| == s.ids.next - 1
    && |s.jobs| <= Cap(path) && (s.jobs != [] ==> s.up) && (path == Gpu ==> s.up) && (path == Cpu && s.up ==> s.addr.Some?)
    && (s.addr.Some? ==> Named(trace, |trace|, s.addr.value))
    && (forall i :: 0 <= i < |s.forwards| ==> s.forwards[i].line < s.now)
    && (forall i, j :: 0 <= i < j < |s.forwards| ==> s.forwards[i].line < s.forwards[j].line)
  }

  ghost predicate JobsKnown(path: Path, trace: seq<Line>, jobs: seq<Job>) {
    forall j :: j in jobs ==> Known(path, trace, |trace|, j)
  }

  ghost predicate ForwardsFine(path: Path, trace: seq<Line>, forwards: seq<Forward>) {
    forall i :: 0 <= i < |forwards| ==> ForwardFine(path, trace, forwards[i])
  }

  /** A waiting entry is the request its id was given to. */
  ghost predicate PendingFine(s: Session) {
    forall i :: 0 <= i < |s.ids.pending| ==>
      var e := s.ids.pending[i];
      1 <= e.uid <= |s.forwards| && s.forwards[e.uid - 1].minerId == e.minerId && s.forwards[e.uid - 1].diff == e.diff
  }

  ghost predicate Answered(s: Session, uid: nat) { exists i :: 0 <= i < |s.answers| && s.answers[i].uid == uid }

  ghost predicate AnswersFine(trace: seq<Line>, s: Session) {
    && (forall i :: 0 <= i < |s.answers| ==> AnswerFine(trace, s.forwards, s.answers[i]))
    && (forall i, j :: 0 <= i < j < |s.answers| ==> s.answers[i].uid != s.answers[j].uid)
    && (forall i :: 0 <= i < |s.answers| ==> !Waiting(s.ids, s.answers[i].uid) && s.answers[i].uid !in s.ids.dropped)
  }

  ghost predicate CreditsFine(path: Path, trace: seq<Line>, s: Session) {
    && (forall i :: 0 <= i < |s.credits| ==> CreditFine(path, trace, s.forwards, s.credits[i]))
    && (forall i :: 0 <= i < |s.credits| ==> Answered(s, s.credits[i].uid))
    && (forall i, j :: 0 <= i < j < |s.credits| ==> s.credits[i].uid != s.credits[j].uid)
    && (s.credits != [] ==> s.up)
    && (path == Cpu ==> forall i :: 0 <= i < |s.credits| ==> s.addr == Some(s.credits[i].addr))
  }

  /** No id is lost: each one is waiting, was dropped, or was answered. */
  ghost predicate Accounted(s: Session) {
    forall u: nat :: 1 <= u < s.ids.next ==> Waiting(s.ids, u) || u in s.ids.dropped || Answered(s, u)
  }

  ghost predicate Explained(path: Path, trace: seq<Line>, s: Session) {
    && Basics(path, trace, s) && JobsKnown(path, trace, s.jobs) && ForwardsFine(path, trace, s.forwards)
    && PendingFine(s) && AnswersFine(trace, s) && CreditsFine(path, trace, s) && Accounted(s)
  }

  // ---------- a line that changes nothing ----------

  lemma {:induction false} KnownLater(path: Path, trace: seq<Line>, l: Line, before: nat, later: nat, j: Job)
    requires Known(path, trace, before, j) && before <= later
    ensures Known(path, trace + [l], later, j)
  {
    var h :| 0 <= h < before && h < |trace| && Announces(path, trace[h], j);
    assert (trace + [l])[h] == trace[h];
  }

  lemma {:induction false} NamedLater(trace: seq<Line>, l: Line, before: nat, later: nat, a: string)
    requires Named(trace, before, a) && before <= later
    ensures Named(trace + [l], later, a)
  {
    var k :| 0 <= k < before && k < |trace| && NamesAddress(trace[k], a);
    assert (trace + [l])[k] == trace[k];
  }

  lemma {:induction false} ForwardLater(path: Path, trace: seq<Line>, l: Line, f: Forward)
    requires ForwardFine(path, trace, f)
    ensures ForwardFine(path, trace + [l], f)
  {
    assert (trace + [l])[f.line] == trace[f.line];
    if f.diff.Some? { KnownLater(path, trace, l, f.line, f.line, Job(trace[f.line].m.job.value, f.diff.value)); }
  }

  lemma {:induction false} CreditLater(path: Path, trace: seq<Line>, l: Line, forwards: seq<Forward>, more: seq<Forward>, c: Credit)
    requires CreditFine(path, trace, forwards, c) && forwards <= more
    ensures CreditFine(path, trace + [l], more, c)
  {
    assert (trace + [l])[c.line] == trace[c.line];
    NamedLater(trace, l, c.line, c.line, c.addr);
  }

  /** The invariant with one more line read and, at most, more forwards listed. */
  lemma {:induction false} HistoryLater(path: Path, trace: seq<Line>, l: Line, s: Session, more: seq<Forward>)
    requires Explained(path, trace, s) && s.forwards <= more
    ensures JobsKnown(path, trace + [l], s.jobs) && ForwardsFine(path, trace + [l], s.forwards)
    ensures forall i :: 0 <= i < |s.answers| ==> AnswerFine(trace + [l], more, s.answers[i])
    ensures forall i :: 0 <= i < |s.credits| ==> CreditFine(path, trace + [l], more, s.credits[i])
    ensures s.addr.Some? ==> Named(trace + [l], |trace| + 1, s.addr.value)
  {
    hide Known, ForwardFine, CreditFine, Named;
    forall j | j in s.jobs ensures Known(path, trace + [l], |trace| + 1, j) { KnownLater(path, trace, l, |trace|, |trace| + 1, j); }
    forall i | 0 <= i < |s.forwards| ensures ForwardFine(path, trace + [l], s.forwards[i]) { ForwardLater(path, trace, l, s.forwards[i]); }
    forall i | 0 <= i < |s.answers| ensures AnswerFine(trace + [l], more, s.answers[i]) {
      assert AnswerFine(trace, s.forwards, s.answers[i]);
    }
    forall i | 0 <= i < |s.credits| ensures CreditFine(path, trace + [l], more, s.credits[i]) {
      CreditLater(path, trace, l, s.forwards, more, s.credits[i]);
    }
    if s.addr.Some? { NamedLater(trace, l, |trace|, |trace| + 1, s.addr.value); }
  }

  /** Nothing but the connection flags and the address changes. */
  lemma {:induction false} QuietLine(path: Path, trace: seq<Line>, l: Line, s: Session, t: Session)
    requires Explained(path, trace, s)
    requires t == s.(addr := t.addr, up := t.up, ended := t.ended, now := s.now + 1)
    requires (t.addr == s.addr && t.up == s.up)
          || (l.Miner? && l.m.Login? && t.addr.Some? && t.addr == l.m.address && (s.up ==> t.up) && (path == Cpu ==> !s.up))
    ensures Explained(path, trace + [l], t)
  {
    hide Known, ForwardFine, CreditFine, AnswerFine, Ordered;
    HistoryLater(path, trace, l, s, s.forwards);
    if !(t.addr == s.addr && t.up == s.up) {
      assert NamesAddress((trace + [l])[|trace|], t.addr.value);
    }
  }

  // ---------- a request ----------

  lemma {:induction false} WaitingAfterIssue(ids: Ids, minerId: Id, diff: Option<nat>, u: nat)
    requires Ordered(ids)
    ensures var t := Issued(ids, minerId, diff);
      && (Waiting(t, u) || u in t.dropped <==> u == ids.next || Waiting(ids, u) || u in ids.dropped)
      && (u < ids.next && Waiting(t, u) ==> Waiting(ids, u))
      && (u < ids.next && u in t.dropped ==> Waiting(ids, u) || u in ids.dropped)
  {
    var all, t := ids.pending + [Entry(ids.next, minerId, diff)], Issued(ids, minerId, diff);
    if Waiting(ids, u) {
      var i :| 0 <= i < |ids.pending| && ids.pending[i].uid == u;
      assert all[i].uid == u;
      if |all| > MAX { if i > 0 { assert t.pending[i - 1].uid == u; } else { assert u in t.dropped; } } else { assert t.pending[i].uid == u; }
    }
    if u == ids.next { assert t.pending[|t.pending| - 1].uid == u; }
    if Waiting(t, u) {
      var i :| 0 <= i < |t.pending| && t.pending[i].uid == u;
      var k := if |all| > MAX then i + 1 else i;
      assert all[k].uid == u;
      if k < |ids.pending| { assert ids.pending[k].uid == u; }
    }
    if u in t.dropped && u !in ids.dropped { assert u == all[0].uid && ids.pending[0].uid == u; }
  }

  lemma {:induction false} PendingAfterIssue(s: Session, id: Id, diff: Option<nat>, t: Session)
    requires PendingFine(s) && |s.forwards| == s.ids.next - 1 && s.ids.next >= 1
    requires t.ids == Issued(s.ids, id, diff) && |t.forwards| == |s.forwards| + 1 && s.forwards <= t.forwards
    requires t.forwards[|s.forwards|].minerId == id && t.forwards[|s.forwards|].diff == diff
    ensures PendingFine(t)
  {
    var all := s.ids.pending + [Entry(s.ids.next, id, diff)];
    forall i | 0 <= i < |t.ids.pending|
      ensures var e := t.ids.pending[i];
        1 <= e.uid <= |t.forwards| && t.forwards[e.uid - 1].minerId == e.minerId && t.forwards[e.uid - 1].diff == e.diff
    {
      var k := if |all| > MAX then i + 1 else i;
      assert t.ids.pending[i] == all[k];
      if k < |s.ids.pending| { assert all[k] == s.ids.pending[k]; }
    }
  }

  /** A line that gives one request a fresh id, perhaps setting the address before. */
  lemma {:induction false} RequestLine(path: Path, trace: seq<Line>, l: Line, s: Session, id: Id, diff: Option<nat>, t: Session)
    requires Explained(path, trace, s) && Asks(l, id)
    requires t == s.(addr := t.addr, up := t.up, ids := Issued(s.ids, id, diff),
                     forwards := s.forwards + [Forward(s.now, id, diff, t.up)], now := s.now + 1)
    requires (t.addr == s.addr && t.up == s.up)
          || (l.m.Login? && t.addr.Some? && t.addr == l.m.address && (s.up ==> t.up) && (path == Cpu ==> !s.up))
    requires diff.Some? ==> t.up && l.m.Submit? && l.m.job.Some? && Job(l.m.job.value, diff.value) in s.jobs
    requires path == Gpu && l.m.Submit? ==> diff.Some?
    ensures Explained(path, trace + [l], t)
  {
    hide Known, ForwardFine, CreditFine, AnswerFine, Ordered, Waiting, PendingFine, Issued;
    HistoryLater(path, trace, l, s, t.forwards);
    IssueKeepsOrder(s.ids, id, diff);
    IssueNumbers(s.ids, id, diff);
    PendingAfterIssue(s, id, diff, t);
    NewForwardFine(path, trace, l, s, id, diff, t.forwards[|s.forwards|]);
    forall u: nat ensures var t := Issued(s.ids, id, diff);
      && (Waiting(t, u) || u in t.dropped <==> u == s.ids.next || Waiting(s.ids, u) || u in s.ids.dropped)
      && (u < s.ids.next && Waiting(t, u) ==> Waiting(s.ids, u))
      && (u < s.ids.next && u in t.dropped ==> Waiting(s.ids, u) || u in s.ids.dropped)
    {
      WaitingAfterIssue(s.ids, id, diff, u);
    }
    AnswersStay(trace, l, s, t);
    forall i | 0 <= i < |s.credits| ensures Answered(t, s.credits[i].uid) { assert Answered(s, s.credits[i].uid); }
    forall u: nat | 1 <= u < t.ids.next ensures Waiting(t.ids, u) || u in t.ids.dropped || Answered(t, u) {
      if u < s.ids.next && Answered(s, u) { assert Answered(t, u); }
    }
    if !(t.addr == s.addr && t.up == s.up) {
      assert NamesAddress((trace + [l])[|trace|], t.addr.value);
    }
  }

  lemma {:induction false} IssueNumbers(ids: Ids, id: Id, diff: Option<nat>)
    ensures Issued(ids, id, diff).next == ids.next + 1
  {
  }

  lemma {:induction false} AnswersStay(trace: seq<Line>, l: Line, s: Session, t: Session)
    requires AnswersFine(trace, s) && t.answers == s.answers && |s.forwards| == s.ids.next - 1
    requires forall i :: 0 <= i < |s.answers| ==> AnswerFine(trace + [l], t.forwards, s.answers[i])
    requires forall u: nat :: u < s.ids.next && Waiting(t.ids, u) ==> Waiting(s.ids, u)
    requires forall u: nat :: u < s.ids.next && u in t.ids.dropped ==> Waiting(s.ids, u) || u in s.ids.dropped
    ensures AnswersFine(trace + [l], t)
  {
    hide Waiting;
    forall i | 0 <= i < |t.answers| ensures !Waiting(t.ids, t.answers[i].uid) && t.answers[i].uid !in t.ids.dropped {
      assert AnswerFine(trace, s.forwards, s.answers[i]);
    }
  }

  lemma {:induction false} NewForwardFine(path: Path, trace: seq<Line>, l: Line, s: Session, id: Id, diff: Option<nat>, f: Forward)
    requires s.now == |trace| && JobsKnown(path, trace, s.jobs) && Asks(l, id) && f.line == s.now && f.minerId == id && f.diff == diff
    requires diff.Some? ==> f.sent && l.m.Submit? && l.m.job.Some? && Job(l.m.job.value, diff.value) in s.jobs
    requires path == Gpu && l.m.Submit? ==> diff.Some?
    ensures ForwardFine(path, trace + [l], f)
  {
    hide Known;
    assert (trace + [l])[f.line] == l;
    if diff.Some? { KnownLater(path, trace, l, |trace|, |trace|, Job(l.m.job.value, diff.value)); }
  }

  // ---------- a line from the pool ----------

  lemma {:induction false} AssignKeeps(jobs: seq<Job>, j: Job)
    ensures |jobs| <= |Assign(jobs, j)| <= |jobs| + 1
    ensures forall x :: x in Assign(jobs, j) ==> x in jobs || x == j
  {
    if jobs != [] { AssignKeeps(jobs[1..], j); }
  }

  lemma {:induction false} PutAllKeeps(jobs: seq<Job>, new_: seq<Job>, cap: nat)
    requires |jobs| <= cap
    ensures |PutAll(jobs, new_, cap)| <= cap
    ensures forall x :: x in PutAll(jobs, new_, cap) ==> x in jobs || x in new_
  {
    if new_ != [] {
      var init, last := new_[..|new_| - 1], new_[|new_| - 1];
      PutAllKeeps(jobs, init, cap);
      AssignKeeps(PutAll(jobs, init, cap), last);
    }
  }

  lemma {:induction false} JobsAfterPool(path: Path, trace: seq<Line>, p: PoolMsg, jobs: seq<Job>)
    requires JobsKnown(path, trace, jobs) && |jobs| <= Cap(path)
    ensures JobsKnown(path, trace + [Pool(p)], PutAll(jobs, JobsIn(path, p), Cap(path)))
    ensures |PutAll(jobs, JobsIn(path, p), Cap(path))| <= Cap(path)
  {
    hide Known, JobsIn, PutAll;
    var l := Pool(p);
    PutAllKeeps(jobs, JobsIn(path, p), Cap(path));
    forall j | j in PutAll(jobs, JobsIn(path, p), Cap(path)) ensures Known(path, trace + [l], |trace| + 1, j) {
      if j in jobs { KnownLater(path, trace, l, |trace|, |trace| + 1, j); } else { NewlyKnown(path, trace, l, j); }
    }
  }

  lemma {:induction false} NewlyKnown(path: Path, trace: seq<Line>, l: Line, j: Job)
    requires Announces(path, l, j)
    ensures Known(path, trace + [l], |trace| + 1, j)
  {
    assert (trace + [l])[|trace|] == l;
  }

  /** A pool line that answers nothing that waits. */
  lemma {:induction false} JobsLine(path: Path, trace: seq<Line>, p: PoolMsg, s: Session, t: Session)
    requires Explained(path, trace, s) && s.up
    requires t == s.(jobs := PutAll(s.jobs, JobsIn(path, p), Cap(path)), now := s.now + 1)
    ensures Explained(path, trace + [Pool(p)], t)
  {
    hide Known, ForwardFine, CreditFine, AnswerFine, Ordered, Named, Cap, JobsIn, PutAll;
    HistoryLater(path, trace, Pool(p), s, s.forwards);
    JobsAfterPool(path, trace, p, s.jobs);
  }

  lemma {:induction false} WithoutAt(ids: Ids, k: nat, i: nat)
    requires k < |ids.pending| && i < |ids.pending| - 1
    ensures |Without(ids, k).pending| == |ids.pending| - 1
    ensures Without(ids, k).pending[i] == ids.pending[if i < k then i else i + 1]
  {
  }

  lemma {:induction false} WaitingAfterAnswer(ids: Ids, k: nat, u: nat)
    requires Ordered(ids) && k < |ids.pending|
    ensures Waiting(Without(ids, k), u) <==> Waiting(ids, u) && u != ids.pending[k].uid
    ensures Waiting(ids, ids.pending[k].uid) && ids.pending[k].uid !in ids.dropped
  {
    var t := Without(ids, k);
    assert |t.pending| == |ids.pending| - 1;
    hide Without;
    if i :| 0 <= i < |t.pending| && t.pending[i].uid == u {
      WithoutAt(ids, k, i);
      assert ids.pending[if i < k then i else i + 1].uid == u;
    }
    if i :| 0 <= i < |ids.pending| && ids.pending[i].uid == u && u != ids.pending[k].uid {
      var n := if i < k then i else i - 1;
      WithoutAt(ids, k, n);
      assert t.pending[n].uid == u;
    }
  }

  lemma {:induction false} PendingAfterAnswer(s: Session, k: nat, t: Session)
    requires PendingFine(s) && k < |s.ids.pending| && t.ids == Without(s.ids, k) && t.forwards == s.forwards
    ensures PendingFine(t)
  {
    forall i | 0 <= i < |t.ids.pending|
      ensures var e := t.ids.pending[i];
        1 <= e.uid <= |t.forwards| && t.forwards[e.uid - 1].minerId == e.minerId && t.forwards[e.uid - 1].diff == e.diff
    {
      assert t.ids.pending[i] == s.ids.pending[if i < k then i else i + 1];
    }
  }

  /** The new answer, and the new credit if there is one, are in order. */
  lemma {:induction false} AnswerAndCredit(path: Path, trace: seq<Line>, s: Session, r: Reply, l: Line, k: nat, e: Entry)
    requires Basics(path, trace, s) && PendingFine(s) && k < |s.ids.pending| && e == s.ids.pending[k]
    requires l.Pool? && l.p.Message? && l.p.reply == Some(r) && r.id == IntId(e.uid)
    ensures AnswerFine(trace + [l], s.forwards, Answer(s.now, e.uid, e.minerId))
    ensures Positive(path, r) && e.diff.Some? && s.addr.Some? ==> CreditFine(path, trace + [l], s.forwards, Credit(s.now, e.uid, s.addr.value, e.diff.value))
  {
    hide Positive, Ordered;
    assert (trace + [l])[s.now] == l;
    assert s.forwards[e.uid - 1].line < s.now;
    if s.addr.Some? { NamedLater(trace, l, |trace|, |trace|, s.addr.value); }
  }

  /** A pool line that answers entry `k`. */
  lemma {:induction false} AnswerLine(path: Path, trace: seq<Line>, p: PoolMsg, s: Session, r: Reply, k: nat, t: Session)
    requires Explained(path, trace, s) && s.up && p.Message? && p.reply == Some(r)
    requires k < |s.ids.pending| && r.id == IntId(s.ids.pending[k].uid)
    requires t.ids == Without(s.ids, k) && t == s.(
      jobs := PutAll(s.jobs, JobsIn(path, p), Cap(path)), ids := t.ids, now := s.now + 1,
      answers := s.answers + [Answer(s.now, s.ids.pending[k].uid, s.ids.pending[k].minerId)], credits := t.credits)
    requires t.credits == if Positive(path, r) && s.ids.pending[k].diff.Some? && s.addr.Some?
                          then s.credits + [Credit(s.now, s.ids.pending[k].uid, s.addr.value, s.ids.pending[k].diff.value)] else s.credits
    ensures Explained(path, trace + [Pool(p)], t)
  {
    hide Known, ForwardFine, CreditFine, AnswerFine, Ordered, Named, Cap, JobsIn, PutAll, Waiting, Answered, PendingFine, Positive, AnswersFine, Accounted;
    var l, uid := Pool(p), s.ids.pending[k].uid;
    HistoryLater(path, trace, l, s, s.forwards);
    JobsAfterPool(path, trace, p, s.jobs);
    ResolveKeepsOrder(s.ids, k);
    PendingAfterAnswer(s, k, t);
    AnswerAndCredit(path, trace, s, r, l, k, s.ids.pending[k]);
    AnswersAfterAnswer(trace, l, s, k, t);
    CreditsAfterAnswer(path, trace + [l], s, t, uid);
  }

  /** The answers, and what is accounted for, with one more answer. */
  lemma {:induction false} AnswersAfterAnswer(trace: seq<Line>, l: Line, s: Session, k: nat, t: Session)
    requires AnswersFine(trace, s) && Accounted(s) && Ordered(s.ids) && k < |s.ids.pending| && t.ids == Without(s.ids, k)
    requires |t.answers| == |s.answers| + 1 && s.answers <= t.answers && t.answers[|s.answers|].uid == s.ids.pending[k].uid
    requires forall i :: 0 <= i < |s.answers| ==> AnswerFine(trace + [l], t.forwards, s.answers[i])
    requires AnswerFine(trace + [l], t.forwards, t.answers[|s.answers|])
    ensures AnswersFine(trace + [l], t) && Accounted(t)
    ensures forall u: nat :: Answered(s, u) ==> Answered(t, u) && u != s.ids.pending[k].uid
    ensures Answered(t, s.ids.pending[k].uid)
  {
    hide AnswerFine, Waiting, Ordered;
    var uid := s.ids.pending[k].uid;
    forall u: nat ensures Waiting(t.ids, u) <==> Waiting(s.ids, u) && u != uid { WaitingAfterAnswer(s.ids, k, u); }
    WaitingAfterAnswer(s.ids, k, uid);
    forall u: nat | Answered(s, u) ensures Answered(t, u) && u != uid { StaysAnswered(s, t, u); }
    forall i | 0 <= i < |s.answers| ensures t.answers[i] == s.answers[i] && s.answers[i].uid != uid { assert Answered(s, s.answers[i].uid); }
  }

  lemma {:induction false} CreditsAfterAnswer(path: Path, trace: seq<Line>, s: Session, t: Session, uid: nat)
    requires |s.credits| <= |t.credits| <= |s.credits| + 1 && s.credits <= t.credits && s.up && t.up && s.addr == t.addr
    requires forall i :: 0 <= i < |s.credits| ==> CreditFine(path, trace, t.forwards, s.credits[i]) && Answered(s, s.credits[i].uid)
    requires forall i, j :: 0 <= i < j < |s.credits| ==> s.credits[i].uid != s.credits[j].uid
    requires path == Cpu ==> forall i :: 0 <= i < |s.credits| ==> s.addr == Some(s.credits[i].addr)
    requires |t.credits| > |s.credits| ==>
      var c := t.credits[|s.credits|]; c.uid == uid && s.addr == Some(c.addr) && CreditFine(path, trace, t.forwards, c)
    requires forall u: nat :: Answered(s, u) ==> Answered(t, u) && u != uid
    requires Answered(t, uid)
    ensures CreditsFine(path, trace, t)
  {
    hide CreditFine, Answered;
    forall i | 0 <= i < |t.credits|
      ensures CreditFine(path, trace, t.forwards, t.credits[i]) && Answered(t, t.credits[i].uid)
      ensures path == Cpu ==> t.addr == Some(t.credits[i].addr)
    {
      if i < |s.credits| { assert t.credits[i] == s.credits[i]; }
    }
    forall i, j | 0 <= i < j < |t.credits| ensures t.credits[i].uid != t.credits[j].uid {
      assert t.credits[i] == s.credits[i];
      if j < |s.credits| { assert t.credits[j] == s.credits[j]; }
    }
  }

  lemma {:induction false} StaysAnswered(s: Session, t: Session, u: nat)
    requires Answered(s, u) && s.answers <= t.answers
    ensures Answered(t, u)
    ensures exists i :: 0 <= i < |s.answers| && s.answers[i].uid == u && t.answers[i] == s.answers[i]
  {
    var i :| 0 <= i < |s.answers| && s.answers[i].uid == u;
    assert t.answers[i] == s.answers[i];
  }

  // ---------- every line ----------

  lemma {:induction false} PoolStep(path: Path, trace: seq<Line>, s: Session, p: PoolMsg)
    requires Explained(path, trace, s)
    ensures Explained(path, trace + [Pool(p)], Step(path, s, Pool(p)))
  {
    hide Explained, PutAll, JobsIn, Positive, Cap;
    var t := Step(path, s, Pool(p));
    if !s.up {
      QuietLine(path, trace, Pool(p), s, t);
    } else if p.Noise? || p.reply.None? || Matching(s.ids, p.reply.value.id).None? {
      JobsLine(path, trace, p, s, t);
    } else {
      AnswerLine(path, trace, p, s, p.reply.value, Matching(s.ids, p.reply.value.id).value, t);
    }
  }

  lemma {:induction false} MinerStep(path: Path, trace: seq<Line>, s: Session, m: MinerMsg)
    requires Explained(path, trace, s)
    ensures Explained(path, trace + [Miner(m)], Step(path, s, Miner(m)))
  {
    hide Issued;
    var l, t := Miner(m), Step(path, s, Miner(m));
    var diff := if m.Submit? && m.job.Some? then Get(s.jobs, m.job.value) else None;
    if t.forwards == s.forwards {
      hide Explained;
      QuietLine(path, trace, l, s, t);
    } else {
      RequestLine(path, trace, l, s, m.id.value, diff, t);
    }
  }

  lemma {:induction false} NewIsExplained(path: Path)
    ensures Explained(path, [], Open(path))
  {
  }

  lemma {:induction false} RunExplained(path: Path, trace: seq<Line>)
    ensures Explained(path, trace, Run(path, trace))
  {
    hide Explained, Step;
    if trace == [] {
      NewIsExplained(path);
    } else {
      var init, l := trace[..|trace| - 1], trace[|trace| - 1];
      RunExplained(path, init);
      assert init + [l] == trace;
      match l
      case Miner(m) => MinerStep(path, init, Run(path, init), m);
      case Pool(p) => PoolStep(path, init, Run(path, init), p);
    }
  }

  // ---------- what a credit means ----------

  /** In every interleaving each credit was caused by the pool's positive answer to an upstream id, that id was
      given to a submit of the miner's that went upstream before, for a job the pool had announced on this
      connection before the submit, and the credit weighs what that job was announced with. */
  lemma {:induction false} EveryCreditIsEarned(path: Path, trace: seq<Line>, i: nat) returns (submit: nat, job: string, announced: nat)
    requires i < |Run(path, trace).credits|
    ensures var s := Run(path, trace); var c := s.credits[i];
      && announced < submit < c.line < |trace|
      && Announces(path, trace[announced], Job(job, c.diff))
      && Accepts(path, trace[c.line], c.uid)
      && 1 <= c.uid <= |s.forwards| && s.forwards[c.uid - 1].line == submit && s.forwards[c.uid - 1].sent
      && Submits(trace[submit], s.forwards[c.uid - 1].minerId, job)
      && exists k :: 0 <= k < c.line && NamesAddress(trace[k], c.addr)
  {
    RunExplained(path, trace);
    var s := Run(path, trace);
    var c := s.credits[i];
    assert CreditFine(path, trace, s.forwards, c);
    var f := s.forwards[c.uid - 1];
    assert ForwardFine(path, trace, f);
    submit, job := f.line, trace[f.line].m.job.value;
    announced :| 0 <= announced < submit && Announces(path, trace[announced], Job(job, c.diff));
  }

  /** On the GPU path no submit goes upstream under an id unless the pool announced its job before. */
  lemma {:induction false} GpuRelaysOnlyIssuedJobs(trace: seq<Line>, i: nat)
    requires i < |Run(Gpu, trace).forwards|
    ensures var f := Run(Gpu, trace).forwards[i];
      && f.line < |trace| && Asks(trace[f.line], f.minerId)
      && (trace[f.line].m.Submit? ==>
            && trace[f.line].m.job.Some?
            && exists h, d :: 0 <= h < f.line && Announces(Gpu, trace[h], Job(trace[f.line].m.job.value, d)))
  {
    RunExplained(Gpu, trace);
    assert ForwardFine(Gpu, trace, Run(Gpu, trace).forwards[i]);
  }

  /** No submit is credited twice: different credits have different upstream ids and different submit lines. */
  lemma {:induction false} CreditsAreDistinct(path: Path, trace: seq<Line>, i: nat, j: nat)
    requires i < j < |Run(path, trace).credits|
    ensures var s := Run(path, trace); var (c, d) := (s.credits[i], s.credits[j]);
      && c.uid != d.uid && 1 <= c.uid <= |s.forwards| && 1 <= d.uid <= |s.forwards|
      && s.forwards[c.uid - 1].line != s.forwards[d.uid - 1].line
  {
    hide Run;
    RunExplained(path, trace);
    var s := Run(path, trace);
    assert CreditFine(path, trace, s.forwards, s.credits[i]) && CreditFine(path, trace, s.forwards, s.credits[j]);
  }

  /** An answer handed to the miner carries the id of the request it answers, and each request is answered
      at most once. */
  lemma {:induction false} AnswersGoBack(path: Path, trace: seq<Line>, i: nat)
    requires i < |Run(path, trace).answers|
    ensures var s := Run(path, trace); var a := s.answers[i];
      && a.line < |trace| && Replies(trace[a.line], a.uid) && 1 <= a.uid <= |s.forwards|
      && s.forwards[a.uid - 1].line < a.line && Asks(trace[s.forwards[a.uid - 1].line], a.minerId)
      && forall j :: 0 <= j < |s.answers| && j != i ==> s.answers[j].uid != a.uid
  {
    hide Run;
    RunExplained(path, trace);
    var s := Run(path, trace);
    assert AnswerFine(trace, s.forwards, s.answers[i]);
    assert ForwardFine(path, trace, s.forwards[s.answers[i].uid - 1]);
  }

  /** At most 1024 requests wait; every id given out is waiting, was dropped or was answered, and no two of
      these; the dropped ones are older than all that wait. */
  lemma {:induction false} EveryIdIsAccountedFor(path: Path, trace: seq<Line>, u: nat)
    ensures var s := Run(path, trace);
      && |s.ids.pending| <= MAX && |s.jobs| <= Cap(path)
      && (1 <= u < s.ids.next <==> Waiting(s.ids, u) || u in s.ids.dropped || Answered(s, u))
      && !(Waiting(s.ids, u) && u in s.ids.dropped) && !(Waiting(s.ids, u) && Answered(s, u)) && !(u in s.ids.dropped && Answered(s, u))
      && (u in s.ids.dropped ==> forall i :: 0 <= i < |s.ids.pending| ==> u < s.ids.pending[i].uid)
  {
    hide Run;
    RunExplained(path, trace);
    var s := Run(path, trace);
    if Answered(s, u) {
      var i :| 0 <= i < |s.answers| && s.answers[i].uid == u;
      assert AnswerFine(trace, s.forwards, s.answers[i]);
    }
  }

  /** On the CPU path all credits of a session go to the one address it logged in with. */
  lemma {:induction false} CpuCreditsOneAddress(trace: seq<Line>, i: nat, j: nat)
    requires i < |Run(Cpu, trace).credits| && j < |Run(Cpu, trace).credits|
    ensures Run(Cpu, trace).credits[i].addr == Run(Cpu, trace).credits[j].addr
    ensures Run(Cpu, trace).addr == Some(Run(Cpu, trace).credits[i].addr)
  {
    hide Run;
    RunExplained(Cpu, trace);
  }

  /** A line adds a credit exactly when it is a positive answer to a waiting share of a connected session that
      has an address. */
  lemma {:induction false} CreditExactlyWhenEarned(path: Path, trace: seq<Line>, l: Line)
    ensures var (s, t) := (Run(path, trace), Run(path, trace + [l]));
      if s.up && s.addr.Some? && exists k :: 0 <= k < |s.ids.pending| && s.ids.pending[k].diff.Some? && Accepts(path, l, s.ids.pending[k].uid)
      then exists k :: 0 <= k < |s.ids.pending| && s.ids.pending[k].diff.Some? && Accepts(path, l, s.ids.pending[k].uid)
             && t.credits == s.credits + [Credit(|trace|, s.ids.pending[k].uid, s.addr.value, s.ids.pending[k].diff.value)]
      else t.credits == s.credits
  {
    hide PutAll, JobsIn, Positive, Cap, Get, Issued, Run, Without, Matching, Ordered, Explained;
    var s := Run(path, trace);
    OneMoreLine(path, trace, l);
    NowIsLength(path, trace);
    if l.Pool? && l.p.Message? && l.p.reply.Some? { MatchingIsWaiting(path, trace, l.p.reply.value.id); }
    if k :| s.up && s.addr.Some? && 0 <= k < |s.ids.pending| && s.ids.pending[k].diff.Some? && Accepts(path, l, s.ids.pending[k].uid) {
      assert Matching(s.ids, l.p.reply.value.id) == Some(k);
    }
  }

  lemma {:induction false} OneMoreLine(path: Path, trace: seq<Line>, l: Line)
    ensures Run(path, trace + [l]) == Step(path, Run(path, trace), l)
  {
    hide Step;
    assert (trace + [l])[..|trace|] == trace;
  }

  lemma {:induction false} NowIsLength(path: Path, trace: seq<Line>)
    ensures Run(path, trace).now == |trace|
  {
    hide Run;
    RunExplained(path, trace);
  }

  /** An answer finds the waiting entry that has its id, the only one. */
  lemma {:induction false} MatchingIsWaiting(path: Path, trace: seq<Line>, id: Id)
    ensures var s := Run(path, trace); var m := Matching(s.ids, id);
      && (m.Some? ==> m.value < |s.ids.pending| && id == IntId(s.ids.pending[m.value].uid))
      && forall k: nat :: k < |s.ids.pending| && id == IntId(s.ids.pending[k].uid) ==> m == Some(k)
  {
    hide Run;
    RunExplained(path, trace);
  }

  // ---------- who is credited ----------

  /** A prefix of the trace and one more line. */
  lemma {:induction false} RunOfPrefix(path: Path, trace: seq<Line>, n: nat)
    requires n < |trace|
    ensures Run(path, trace[..n + 1]) == Step(path, Run(path, trace[..n]), trace[n])
  {
    hide Step;
    assert trace[..n + 1] == trace[..n] + [trace[n]];
    OneMoreLine(path, trace[..n], trace[n]);
  }

  lemma {:induction false} StepCredits(path: Path, s: Session, l: Line)
    ensures var t := Step(path, s, l);
      t.credits == s.credits || (t.credits != [] && t.credits[..|t.credits| - 1] == s.credits
                                 && t.credits[|t.credits| - 1].line == s.now && s.addr == Some(t.credits[|t.credits| - 1].addr))
  {
    hide PutAll, JobsIn, Cap, Get, Issued, Without, Matching, Positive;
  }

  /** Every credit, on both paths, goes to the address in force when the answer came; credits come in the order
      of their lines. */
  lemma {:induction false} CreditGoesToAddressInForce(path: Path, trace: seq<Line>, i: nat)
    requires i < |Run(path, trace).credits|
    ensures var c := Run(path, trace).credits[i];
      c.line < |trace| && Run(path, trace[..c.line]).addr == Some(c.addr)
    ensures forall j :: i < j < |Run(path, trace).credits| ==> Run(path, trace).credits[i].line < Run(path, trace).credits[j].line
  {
    hide Step;
    var init, l := trace[..|trace| - 1], trace[|trace| - 1];
    var s, t := Run(path, init), Run(path, trace);
    NowIsLength(path, init);
    StepCredits(path, s, l);
    if i < |s.credits| {
      assert t.credits[i] == s.credits[i];
      CreditGoesToAddressInForce(path, init, i);
      assert trace[..s.credits[i].line] == init[..s.credits[i].line];
      forall j | i < j < |t.credits| ensures t.credits[i].line < t.credits[j].line {
        if j < |s.credits| { assert t.credits[j] == s.credits[j]; }
      }
    }
  }

  /** The address that line `k` names and the handler takes. */
  function Names(path: Path, trace: seq<Line>, k: nat): Option<string>
    requires k < |trace|
  {
    var s, l := Run(path, trace[..k]), trace[k];
    if l.Miner? && l.m.Login? && l.m.address.Some? && !s.ended && (path == Cpu ==> !s.up) then l.m.address else None
  }

  /** The last address named from line `from` up to line `to`. */
  function LastNamed(path: Path, trace: seq<Line>, from: nat, to: nat): Option<string>
    requires from <= to <= |trace|
  {
    if from == to then None
    else if Names(path, trace, to - 1).Some? then Names(path, trace, to - 1)
    else LastNamed(path, trace, from, to - 1)
  }

  lemma {:induction false} StepAddress(path: Path, s: Session, l: Line)
    ensures Step(path, s, l).addr ==
      if l.Miner? && l.m.Login? && l.m.address.Some? && !s.ended && (path == Cpu ==> !s.up) then l.m.address else s.addr
  {
    hide PutAll, JobsIn, Cap, Get, Issued, Without, Matching, Positive;
  }

  /** The address in force is the last one named, or the one before. */
  lemma {:induction false} AddressIsLastNamed(path: Path, trace: seq<Line>, from: nat, to: nat)
    requires from <= to <= |trace|
    ensures Run(path, trace[..to]).addr ==
      if LastNamed(path, trace, from, to).Some? then LastNamed(path, trace, from, to) else Run(path, trace[..from]).addr
  {
    hide Run, Step;
    if from < to {
      AddressIsLastNamed(path, trace, from, to - 1);
      RunOfPrefix(path, trace, to - 1);
      StepAddress(path, Run(path, trace[..to - 1]), trace[to - 1]);
    }
  }

  /** A credit goes to the address its share was submitted under if and only if no login handled between the
      submit and the answer named another one last. */
  lemma {:induction false} CreditGoesToSubmitterExactlyWhen(path: Path, trace: seq<Line>, i: nat)
    requires i < |Run(path, trace).credits|
    ensures var s := Run(path, trace); var c := s.credits[i];
      && 1 <= c.uid <= |s.forwards| && s.forwards[c.uid - 1].line < c.line < |trace|
      && var f := s.forwards[c.uid - 1].line;
         var (under, named) := (Run(path, trace[..f]).addr, LastNamed(path, trace, f, c.line));
         Some(c.addr) == under <==> named == None || named == under
  {
    hide Run, LastNamed;
    RunExplained(path, trace);
    var s := Run(path, trace);
    var c := s.credits[i];
    assert CreditFine(path, trace, s.forwards, c);
    CreditGoesToAddressInForce(path, trace, i);
    AddressIsLastNamed(path, trace, s.forwards[c.uid - 1].line, c.line);
  }

  /** Two credits of a session go to one address if and only if no login handled between their answers named
      another one last. */
  lemma {:induction false} CreditsShareAddressExactlyWhen(path: Path, trace: seq<Line>, i: nat, j: nat)
    requires i < j < |Run(path, trace).credits|
    ensures var (c, d) := (Run(path, trace).credits[i], Run(path, trace).credits[j]);
      && c.line < d.line < |trace|
      && (c.addr == d.addr <==> LastNamed(path, trace, c.line, d.line) in {None, Some(c.addr)})
  {
    hide Run, LastNamed;
    CreditGoesToAddressInForce(path, trace, i);
    CreditGoesToAddressInForce(path, trace, j);
    var (c, d) := (Run(path, trace).credits[i], Run(path, trace).credits[j]);
    AddressIsLastNamed(path, trace, c.line, d.line);
  }

  /** All credits of a session go to one address if and only if that holds between each and the next. */
  lemma {:induction false} SessionPaysOneAddressExactlyWhen(path: Path, trace: seq<Line>)
    ensures var cs := Run(path, trace).credits;
      && (forall i :: 0 <= i < |cs| ==> cs[i].line < |trace|)
      && (forall i, j :: 0 <= i < j < |cs| ==> cs[i].line < cs[j].line)
      && ((forall i, j :: 0 <= i < j < |cs| ==> cs[i].addr == cs[j].addr) <==>
          (forall j :: 0 < j < |cs| ==> LastNamed(path, trace, cs[j - 1].line, cs[j].line) in {None, Some(cs[j - 1].addr)}))
  {
    hide Run, LastNamed;
    var cs := Run(path, trace).credits;
    forall i | 0 <= i < |cs| ensures cs[i].line < |trace| && forall j :: i < j < |cs| ==> cs[i].line < cs[j].line {
      CreditGoesToAddressInForce(path, trace, i);
    }
    forall j | 0 < j < |cs|
      ensures cs[j - 1].addr == cs[j].addr <==> LastNamed(path, trace, cs[j - 1].line, cs[j].line) in {None, Some(cs[j - 1].addr)}
    {
      CreditsShareAddressExactlyWhen(path, trace, j - 1, j);
    }
    if forall j :: 0 < j < |cs| ==> LastNamed(path, trace, cs[j - 1].line, cs[j].line) in {None, Some(cs[j - 1].addr)} {
      forall i, j | 0 <= i < j < |cs| ensures cs[i].addr == cs[j].addr { NeighboursAgree(cs, i, j); }
    }
  }

  lemma {:induction false} NeighboursAgree(cs: seq<Credit>, i: nat, j: nat)
    requires i <= j < |cs| && forall k :: 0 < k < |cs| ==> cs[k - 1].addr == cs[k].addr
    ensures cs[i].addr == cs[j].addr
    decreases j
  {
    if i < j { NeighboursAgree(cs, i, j - 1); }
  }

  /** On the GPU path a session may authorize again: the credit then goes to the address of the moment of the
      answer, which need not be the one the share was submitted under. */
  lemma {:induction false} GpuAddressCanChange()
    ensures var trace := [
        Miner(Login(None, Some("abakos1aaaaaa"), true)), Pool(Message([Job("j_7", 7)], None)),
        Miner(Submit(Some(IntId(9)), Some("j_7"))), Miner(Login(None, Some("abakos1bbbbbb"), true)),
        Pool(Message([], Some(Reply(IntId(1), NoError, IsTrue))))];
      Run(Gpu, trace).credits == [Credit(4, 1, "abakos1bbbbbb", 7)]
  {
    var a, b := Miner(Login(None, Some("abakos1aaaaaa"), true)), Pool(Message([Job("j_7", 7)], None));
    var c, d := Miner(Submit(Some(IntId(9)), Some("j_7"))), Miner(Login(None, Some("abakos1bbbbbb"), true));
    var e := Pool(Message([], Some(Reply(IntId(1), NoError, IsTrue))));
    hide Run, Step;
    OneMoreLine(Gpu, [a, b, c, d], e);
    assert [a, b, c, d] + [e] == [a, b, c, d, e];
    var s := ResubmittedElsewhere();
    SettledElsewhere(s);
  }

  lemma {:induction false} ShareWaits() returns (s: Session)
    ensures s == Run(Gpu, [
        Miner(Login(None, Some("abakos1aaaaaa"), true)), Pool(Message([Job("j_7", 7)], None)),
        Miner(Submit(Some(IntId(9)), Some("j_7")))])
    ensures s.now == 3 && s.up && !s.ended && s.credits == [] && s.ids.pending == [Entry(1, IntId(9), Some(7))]
  {
    hide Run, Cap, PutAll;
    var a, b := Miner(Login(None, Some("abakos1aaaaaa"), true)), Pool(Message([Job("j_7", 7)], None));
    var c := Miner(Submit(Some(IntId(9)), Some("j_7")));
    var t0: seq<Line> := [];
    OneMoreLine(Gpu, t0, a); OneMoreLine(Gpu, t0 + [a], b); OneMoreLine(Gpu, t0 + [a] + [b], c);
    assert t0 + [a] + [b] + [c] == [a, b, c];
    NothingRead(Gpu);
    PutOne(Job("j_7", 7));
    s := Run(Gpu, [a, b, c]);
  }

  lemma {:induction false} ResubmittedElsewhere() returns (s: Session)
    ensures s == Run(Gpu, [
        Miner(Login(None, Some("abakos1aaaaaa"), true)), Pool(Message([Job("j_7", 7)], None)),
        Miner(Submit(Some(IntId(9)), Some("j_7"))), Miner(Login(None, Some("abakos1bbbbbb"), true))])
    ensures s.now == 4 && s.up && s.credits == [] && s.ids.pending == [Entry(1, IntId(9), Some(7))] && s.addr == Some("abakos1bbbbbb")
  {
    hide Run;
    var a, b := Miner(Login(None, Some("abakos1aaaaaa"), true)), Pool(Message([Job("j_7", 7)], None));
    var c, d := Miner(Submit(Some(IntId(9)), Some("j_7"))), Miner(Login(None, Some("abakos1bbbbbb"), true));
    var before := ShareWaits();
    OneMoreLine(Gpu, [a, b, c], d);
    assert [a, b, c] + [d] == [a, b, c, d];
    s := Run(Gpu, [a, b, c, d]);
  }

  lemma {:induction false} SettledElsewhere(s: Session)
    requires s.now == 4 && s.up && s.credits == [] && s.ids.pending == [Entry(1, IntId(9), Some(7))] && s.addr == Some("abakos1bbbbbb")
    ensures Step(Gpu, s, Pool(Message([], Some(Reply(IntId(1), NoError, IsTrue))))).credits == [Credit(4, 1, "abakos1bbbbbb", 7)]
  {
    hide PutAll, Cap;
    assert Matching(s.ids, IntId(1)) == Some(0);
  }

  lemma {:induction false} NothingRead(path: Path)
    ensures Run(path, []) == Open(path)
  {
  }

  lemma {:induction false} PutOne(j: Job)
    ensures PutAll([], [j], Cap(Gpu)) == [j]
  {
    assert [j][..0] == [];
    assert PutAll([], [], Cap(Gpu)) == [];
  }

  // ---------- the ids on the wire ----------

  /** What a wire message's line was. */
  ghost predicate WireFine(path: Path, trace: seq<Line>, forwards: seq<Forward>, w: OnWire) {
    w.line < |trace| && trace[w.line].Miner? &&
    match w.sent
    case Rewritten(uid) =>
      1 <= uid <= |forwards| && forwards[uid - 1].line == w.line && forwards[uid - 1].sent && Asks(trace[w.line], forwards[uid - 1].minerId)
    case Verbatim(id) => trace[w.line].m == Plain(id) || (id.None? && !trace[w.line].m.Plain? && !trace[w.line].m.Text?)
    case RawText => trace[w.line].m.Text?
  }

  lemma {:induction false} UpstreamIsFine(path: Path, trace: seq<Line>, s: Session, l: Line)
    requires Explained(path, trace, s) && Upstream(path, s, l).Some?
    ensures WireFine(path, trace + [l], Step(path, s, l).forwards, OnWire(|trace|, Upstream(path, s, l).value))
    ensures Upstream(path, s, l).value.Rewritten? ==> Upstream(path, s, l).value.uid == |s.forwards| + 1
  {
    hide Issued, Ordered, JobsKnown, ForwardsFine, PendingFine, AnswersFine, CreditsFine, Accounted;
    assert (trace + [l])[|trace|] == l;
  }

  lemma {:induction false} ForwardsGrow(path: Path, s: Session, l: Line)
    ensures s.forwards <= Step(path, s, l).forwards
  {
    hide Issued, PutAll, JobsIn, Cap, Get, Without, Matching, Positive;
  }

  ghost predicate WiresFine(path: Path, trace: seq<Line>, forwards: seq<Forward>, w: seq<OnWire>) {
    && (forall i :: 0 <= i < |w| ==> WireFine(path, trace, forwards, w[i]))
    && (forall i, j :: 0 <= i < j < |w| ==> w[i].line < w[j].line)
    && (forall i, j :: 0 <= i < j < |w| && w[i].sent.Rewritten? && w[j].sent.Rewritten? ==> w[i].sent.uid < w[j].sent.uid)
  }

  lemma {:induction false} WiresLater(path: Path, trace: seq<Line>, l: Line, forwards: seq<Forward>, more: seq<Forward>, w: seq<OnWire>)
    requires WiresFine(path, trace, forwards, w) && forwards <= more
    ensures WiresFine(path, trace + [l], more, w)
  {
    forall i | 0 <= i < |w| ensures WireFine(path, trace + [l], more, w[i]) {
      assert WireFine(path, trace, forwards, w[i]);
      assert (trace + [l])[w[i].line] == trace[w[i].line];
    }
  }

  lemma {:induction false} OneMoreWire(path: Path, trace: seq<Line>, before: nat, forwards: seq<Forward>, more: seq<Forward>, w: seq<OnWire>, x: OnWire)
    requires x.line == before < |trace|
    requires WiresFine(path, trace[..before], forwards, w) && WiresFine(path, trace, more, w) && WireFine(path, trace, more, x)
    requires (x.sent.Rewritten? ==> x.sent.uid > |forwards|)
    ensures WiresFine(path, trace, more, w + [x])
  {
    forall i | 0 <= i < |w| ensures w[i].line < before && (w[i].sent.Rewritten? ==> w[i].sent.uid <= |forwards|) {
      assert WireFine(path, trace[..before], forwards, w[i]);
    }
  }

  /** Everything on the upstream wire: a message has an id of the proxy's exactly when it has a method and an id
      of its own; a message without a method goes out under the miner's id, and a line that is no message as it
      is. The proxy's ids on the wire rise, so none is used twice. */
  lemma {:induction false} WireIdsAreTheProxys(path: Path, trace: seq<Line>)
    ensures WiresFine(path, trace, Run(path, trace).forwards, Wire(path, trace))
  {
    hide Step, Upstream, Explained, WireFine, WiresFine;
    if trace == [] {
      NothingOnTheWire(path);
    } else {
      var n := |trace| - 1;
      var init, l := trace[..n], trace[n];
      WireIdsAreTheProxys(path, init);
      RunExplained(path, init);
      var s, t, w := Run(path, init), Run(path, trace), Wire(path, init);
      assert init + [l] == trace;
      ForwardsGrow(path, s, l);
      WiresLater(path, init, l, s.forwards, t.forwards, w);
      if Upstream(path, s, l).Some? {
        UpstreamIsFine(path, init, s, l);
        OneMoreWire(path, trace, n, s.forwards, t.forwards, w, OnWire(n, Upstream(path, s, l).value));
      }
    }
  }

  lemma {:induction false} NothingOnTheWire(path: Path)
    ensures WiresFine(path, [], Run(path, []).forwards, Wire(path, []))
  {
  }

  /** An id on the wire is the proxy's own, and so unique among those, if and only if its message has a method. */
  lemma {:induction false} WireIdIsFreshExactlyWithMethod(path: Path, trace: seq<Line>, i: nat)
    requires i < |Wire(path, trace)| && Wire(path, trace)[i].sent != RawText && Wire(path, trace)[i].sent != Verbatim(None)
    ensures var w := Wire(path, trace)[i];
      && w.line < |trace| && trace[w.line].Miner?
      && (w.sent.Rewritten? <==> !trace[w.line].m.Plain?)
      && (w.sent.Rewritten? ==> forall j :: 0 <= j < |Wire(path, trace)| && j != i && Wire(path, trace)[j].sent.Rewritten? ==>
            Wire(path, trace)[j].sent.uid != w.sent.uid)
  {
    hide Wire, Run;
    WireIdsAreTheProxys(path, trace);
    assert WireFine(path, trace, Run(path, trace).forwards, Wire(path, trace)[i]);
  }

  /** A message without a method can carry an id that waits: on the GPU path share 1 waits, and the miner's
      message under id 1 goes upstream as it is. */
  lemma {:induction false} AMethodlessIdCanCollide() returns (s: Session)
    ensures s == Run(Gpu, [
        Miner(Login(None, Some("abakos1aaaaaa"), true)), Pool(Message([Job("j_7", 7)], None)),
        Miner(Submit(Some(IntId(9)), Some("j_7")))])
    ensures Waiting(s.ids, 1) && Upstream(Gpu, s, Miner(Plain(Some(IntId(1))))) == Some(Verbatim(Some(IntId(1))))
  {
    hide Run;
    s := ShareWaits();
    assert s.ids.pending[0].uid == 1;
  }
}
