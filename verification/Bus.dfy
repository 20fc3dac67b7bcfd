/** The pub/sub bus: a tree of goroutines joined by rendezvous channels, as a step relation. */
module Bus {
  import opened Prelude

  datatype Status = Running | Draining | Done

  /** An event on its way to the subscriptions that have not been reached yet. The loop over them serves one at
      a time, in any order: `at` is the one whose `Publish` it is in. */
  datatype Sending<+E> = Sending(ev: E, left: set<nat>, at: Option<nat>)

  /** One bus. `evbuf`, `subscriptions` and the shutdown request are its own; `publishing` is where its loop
      stands. `emitted` and `start` are history: what went out on its event channel, and the index in the
      root's log of the first event it could see. */
  datatype Bus<+E> = Bus(
    parent: nat, evbuf: seq<E>, subscriptions: set<nat>, publishing: Option<Sending<E>>,
    status: Status, requested: bool, emitted: seq<E>, start: nat)

  /** All buses by number, the root first, with what was published at the root and who reported closed. */
  datatype Net<+E> = Net(buses: seq<Bus<E>>, log: seq<E>, reports: seq<nat>)

  datatype Action<+E> =
    | Publish(ev: E)
    | Turn(parent: nat, child: nat)
    | Deliver(parent: nat, child: nat)
    | SkipClosed(parent: nat, child: nat)
    | EndPublish(bus: nat)
    | Emit(bus: nat)
    | Subscribe(bus: nat)
    | Close(bus: nat)
    | BeginShutdown(bus: nat)
    | Report(bus: nat)

  function NewNet<E>(): Net<E> {
    Net([Bus(0, [], {}, None, Running, false, [], 0)], [], [])
  }

  /** The bus waits in its select. */
  predicate Idle<E>(b: Bus<E>) { b.status == Running && b.publishing.None? }

  /** It receives on `unsubch`: in its select, or in the loop that drains its subscriptions. */
  predicate Receives<E>(b: Bus<E>) { Idle(b) || b.status == Draining }

  // ---------- what one bus does to itself ----------

  /** An event arrived on `pubch`; a subscriber buffers it, the root does not. */
  function Took<E>(b: Bus<E>, ev: E, isRoot: bool): Bus<E> {
    b.(evbuf := if isRoot then b.evbuf else b.evbuf + [ev], publishing := Some(Sending(ev, b.subscriptions, None)))
  }

  function Reached<E>(b: Bus<E>, c: nat): Bus<E>
    requires b.publishing.Some?
  {
    b.(publishing := Some(b.publishing.value.(left := b.publishing.value.left - {c}, at := None)))
  }

  /** The loop turns to subscription `c`. */
  function TurnedTo<E>(b: Bus<E>, c: nat): Bus<E>
    requires b.publishing.Some?
  {
    b.(publishing := Some(b.publishing.value.(at := Some(c))))
  }

  function Shrunk<E>(b: Bus<E>): Bus<E>
    requires b.evbuf != []
  {
    b.(emitted := b.emitted + [b.evbuf[0]], evbuf := b.evbuf[1..])
  }

  /** `newSubscriber`: a copy of the parent's buffer. */
  function NewSubscriber<E>(n: Net<E>, p: nat): Bus<E>
    requires p < |n.buses|
  {
    Bus(p, n.buses[p].evbuf, {}, None, Running, false, [], FirstUnemitted(n, p))
  }

  /** The index in the log of the first event a bus has not emitted; the root emits nothing and keeps nothing. */
  function FirstUnemitted<E>(n: Net<E>, b: nat): nat
    requires b < |n.buses|
  {
    if b == 0 then |n.log| else n.buses[b].start + |n.buses[b].emitted|
  }

  /** The index in the log behind the last event that reached the bus. */
  function Pos<E>(n: Net<E>, b: nat): nat
    requires b < |n.buses|
  {
    FirstUnemitted(n, b) + |n.buses[b].evbuf|
  }

  // ---------- steps ----------

  predicate Enabled<E>(n: Net<E>, a: Action<E>) {
    match a
    case Publish(_) => |n.buses| > 0 && Idle(n.buses[0])
    case Turn(p, c) => IsLeft(n, p, c) && n.buses[p].publishing.value.at.None?
    case Deliver(p, c) => IsAt(n, p, c) && Idle(n.buses[c])
    case SkipClosed(p, c) => IsAt(n, p, c) && n.buses[c].status != Running
    case EndPublish(b) => b < |n.buses| && n.buses[b].publishing.Some? && n.buses[b].publishing.value.left == {}
    case Emit(b) => 0 < b < |n.buses| && Idle(n.buses[b]) && n.buses[b].evbuf != []
    case Subscribe(b) => b < |n.buses| && Idle(n.buses[b])
    case Close(b) => b < |n.buses|
    case BeginShutdown(b) => b < |n.buses| && Idle(n.buses[b]) && n.buses[b].requested
    case Report(b) =>
      && b < |n.buses| && n.buses[b].status == Draining && n.buses[b].subscriptions == {}
      && n.buses[b].parent < |n.buses| && (b > 0 ==> n.buses[b].parent != b && Receives(n.buses[n.buses[b].parent]))
  }

  /** `p` is in the middle of publishing and `c` is still to come. */
  predicate IsLeft<E>(n: Net<E>, p: nat, c: nat) {
    p < |n.buses| && c < |n.buses| && p != c && n.buses[p].publishing.Some? && c in n.buses[p].publishing.value.left
  }

  /** It is `c`'s turn: the bus waits until `c` takes the event or has closed, and does nothing else. */
  predicate IsAt<E>(n: Net<E>, p: nat, c: nat) {
    IsLeft(n, p, c) && n.buses[p].publishing.value.at == Some(c)
  }

  /** What an action does to bus `b`. */
  function BusAfter<E>(n: Net<E>, a: Action<E>, b: nat): Bus<E>
    requires Enabled(n, a) && b < |n.buses|
  {
    var x := n.buses[b];
    match a
    case Publish(ev) => if b == 0 then Took(x, ev, true) else x
    case Turn(p, c) => if b == p then TurnedTo(x, c) else x
    case Deliver(p, c) =>
      if b == c then Took(x, n.buses[p].publishing.value.ev, c == 0) else if b == p then Reached(x, c) else x
    case SkipClosed(p, c) => if b == p then Reached(x, c) else x
    case EndPublish(p) => if b == p then x.(publishing := None) else x
    case Emit(p) => if b == p then Shrunk(x) else x
    case Subscribe(p) => if b == p then x.(subscriptions := x.subscriptions + {|n.buses|}) else x
    case Close(p) => if b == p then x.(requested := true) else x
    case BeginShutdown(p) =>
      if b == p then x.(status := Draining) else if b in n.buses[p].subscriptions then x.(requested := true) else x
    case Report(c) =>
      if b == c then x.(status := Done)
      else if c > 0 && b == n.buses[c].parent then x.(subscriptions := x.subscriptions - {c})
      else x
  }

  function Step<E>(n: Net<E>, a: Action<E>): Net<E>
    requires Enabled(n, a)
  {
    Net(seq(|n.buses|, b requires 0 <= b < |n.buses| => BusAfter(n, a, b)) + (if a.Subscribe? then [NewSubscriber(n, a.bus)] else []),
        if a.Publish? then n.log + [a.ev] else n.log,
        if a.Report? && a.bus > 0 then n.reports + [a.bus] else n.reports)
  }

  /** A run: every action is enabled where it happens. */
  predicate Run<E>(n: Net<E>, acts: seq<Action<E>>)
    decreases |acts|
  {
    acts == [] || (Enabled(n, acts[0]) && Run(Step(n, acts[0]), acts[1..]))
  }

  function After<E>(n: Net<E>, acts: seq<Action<E>>): Net<E>
    requires Run(n, acts)
    decreases |acts|
  {
    if acts == [] then n else After(Step(n, acts[0]), acts[1..])
  }

  // ---------- invariants ----------

  ghost predicate Registered<E>(n: Net<E>, c: nat)
    requires c < |n.buses|
  {
    n.buses[c].parent < |n.buses| && c in n.buses[n.buses[c].parent].subscriptions
  }

  /** A bus comes after its parent, keeps only children of its own, and is kept by its parent until it is done;
      then it keeps nobody. */
  ghost predicate TreeAt<E>(n: Net<E>, b: nat)
    requires b < |n.buses|
  {
    && (b > 0 ==> n.buses[b].parent < b && (Registered(n, b) <==> n.buses[b].status != Done))
    && (forall c :: c in n.buses[b].subscriptions ==> b < c < |n.buses| && n.buses[c].parent == b)
    && (n.buses[b].status == Done ==> n.buses[b].subscriptions == {})
  }

  ghost predicate Tree<E>(n: Net<E>) {
    |n.buses| > 0 && n.buses[0].parent == 0 && forall b :: 0 <= b < |n.buses| ==> TreeAt(n, b)
  }

  /** Emitted events and the buffer are a contiguous piece of the root's log. */
  ghost predicate IsSegment<E>(n: Net<E>, b: nat)
    requires b < |n.buses|
  {
    n.buses[b].start <= Pos(n, b) <= |n.log| && n.buses[b].emitted + n.buses[b].evbuf == n.log[n.buses[b].start..Pos(n, b)]
  }

  ghost predicate Segments<E>(n: Net<E>) {
    && |n.buses| > 0 && n.buses[0].evbuf == [] && n.buses[0].emitted == []
    && forall b :: 0 < b < |n.buses| ==> IsSegment(n, b)
  }

  /** What a bus is passing on is the last event that reached it. */
  ghost predicate Passing<E>(n: Net<E>, b: nat)
    requires b < |n.buses|
  {
    n.buses[b].publishing.Some? ==>
      && n.buses[b].status == Running && n.buses[b].publishing.value.left <= n.buses[b].subscriptions
      && (n.buses[b].publishing.value.at.Some? ==> n.buses[b].publishing.value.at.value in n.buses[b].publishing.value.left)
      && 1 <= Pos(n, b) <= |n.log| && n.buses[b].publishing.value.ev == n.log[Pos(n, b) - 1]
  }

  ghost predicate Behind<E>(n: Net<E>, c: nat)
    requires c < |n.buses|
  {
    n.buses[c].parent < |n.buses| && n.buses[n.buses[c].parent].publishing.Some?
    && c in n.buses[n.buses[c].parent].publishing.value.left
  }

  /** A running child is exactly where its parent is, or one event behind while that event is on its way to it. */
  ghost predicate InStep<E>(n: Net<E>, c: nat)
    requires c < |n.buses|
  {
    n.buses[c].parent < |n.buses| &&
    (n.buses[c].status == Running ==> Pos(n, n.buses[c].parent) == Pos(n, c) + if Behind(n, c) then 1 else 0)
  }

  ghost predicate Lockstep<E>(n: Net<E>) {
    && (forall b :: 0 <= b < |n.buses| ==> Passing(n, b))
    && (forall c :: 0 < c < |n.buses| ==> InStep(n, c))
  }

  /** A draining bus has asked its children to close. */
  ghost predicate Asked<E>(n: Net<E>) {
    forall b, c :: 0 <= b < |n.buses| && n.buses[b].status == Draining && c in n.buses[b].subscriptions && c < |n.buses| ==> n.buses[c].requested
  }

  /** The reports name every closed subscriber once, children before parents. */
  ghost predicate Reports<E>(n: Net<E>) {
    && (forall i, j :: 0 <= i < j < |n.reports| ==> n.reports[i] != n.reports[j])
    && (forall b :: b in n.reports <==> 0 < b < |n.buses| && n.buses[b].status == Done)
    && (forall i, c :: 0 <= i < |n.reports| && 0 < c < |n.buses| && n.buses[c].parent == n.reports[i] ==> c in n.reports[..i])
  }

  ghost predicate Valid<E>(n: Net<E>) {
    Tree(n) && Segments(n) && Lockstep(n) && Asked(n) && Reports(n)
  }

  // ---------- preservation ----------

  lemma {:induction false} StepAt<E>(n: Net<E>, a: Action<E>, b: nat)
    requires Enabled(n, a) && b < |n.buses|
    ensures b < |Step(n, a).buses| && Step(n, a).buses[b] == BusAfter(n, a, b)
  {
    hide BusAfter;
  }

  lemma {:induction false} LogAfter<E>(n: Net<E>, a: Action<E>)
    requires Enabled(n, a)
    ensures Step(n, a).log == if a.Publish? then n.log + [a.ev] else n.log
  {
    hide BusAfter;
  }

  lemma {:induction false} NewBus<E>(n: Net<E>, p: nat)
    requires Enabled(n, Subscribe(p))
    ensures |n.buses| < |Step(n, Subscribe(p)).buses| && Step(n, Subscribe(p)).buses[|n.buses|] == NewSubscriber(n, p)
  {
    hide BusAfter, NewSubscriber;
  }

  lemma {:induction false} SameOrOneMore<E>(n: Net<E>, a: Action<E>)
    requires Enabled(n, a)
    ensures |Step(n, a).buses| == |n.buses| + if a.Subscribe? then 1 else 0
  {
  }

  /** What a step does to a bus's place in the tree. */
  lemma {:induction false} PlaceAfter<E>(n: Net<E>, a: Action<E>, b: nat)
    requires Enabled(n, a) && b < |n.buses|
    ensures b < |Step(n, a).buses| && Step(n, a).buses[b].parent == n.buses[b].parent
    ensures n.buses[b].requested ==> Step(n, a).buses[b].requested
    ensures Step(n, a).buses[b].status == if a.BeginShutdown? && a.bus == b then Draining else if a.Report? && a.bus == b then Done else n.buses[b].status
    ensures Step(n, a).buses[b].subscriptions ==
      if a.Subscribe? && a.bus == b then n.buses[b].subscriptions + {|n.buses|}
      else if a.Report? && a.bus > 0 && n.buses[a.bus].parent == b then n.buses[b].subscriptions - {a.bus}
      else n.buses[b].subscriptions
    ensures a.BeginShutdown? && b in n.buses[a.bus].subscriptions && b != a.bus ==> Step(n, a).buses[b].requested
  {
    hide Step, NewSubscriber;
    StepAt(n, a, b);
  }

  lemma {:induction false} NewIsRunning<E>(n: Net<E>, b: nat)
    requires Enabled(n, Subscribe(b))
    ensures var x := Step(n, Subscribe(b)).buses[|n.buses|]; x.status == Running && x.subscriptions == {} && x.parent == b
  {
  }

  /** The children of one bus after a step. */
  lemma {:induction false} ChildAfter<E>(n: Net<E>, a: Action<E>, b: nat, c: nat)
    requires Enabled(n, a) && b < |n.buses| && TreeAt(n, b) && c in Step(n, a).buses[b].subscriptions
    ensures b < c < |Step(n, a).buses| && Step(n, a).buses[c].parent == b
  {
    hide Step, Enabled;
    SameOrOneMore(n, a);
    PlaceAfter(n, a, b);
    if a.Subscribe? && c == |n.buses| {
      NewIsRunning(n, a.bus);
    } else {
      assert c in n.buses[b].subscriptions;
      PlaceAfter(n, a, c);
    }
  }

  lemma {:induction false} TreeAtAfter<E>(n: Net<E>, a: Action<E>, b: nat)
    requires Enabled(n, a) && b < |n.buses| && TreeAt(n, b)
    requires a.Report? ==> n.buses[a.bus].subscriptions == {} && (a.bus > 0 ==> n.buses[a.bus].parent != a.bus)
    ensures TreeAt(Step(n, a), b)
  {
    hide Step;
    SameOrOneMore(n, a);
    PlaceAfter(n, a, b);
    if b > 0 { PlaceAfter(n, a, n.buses[b].parent); }
    forall c | c in Step(n, a).buses[b].subscriptions ensures b < c < |Step(n, a).buses| && Step(n, a).buses[c].parent == b {
      ChildAfter(n, a, b, c);
    }
  }

  lemma {:induction false} NewTreeAt<E>(n: Net<E>, p: nat)
    requires Enabled(n, Subscribe(p))
    ensures TreeAt(Step(n, Subscribe(p)), |n.buses|)
  {
    hide Step;
    NewIsRunning(n, p);
    SameOrOneMore(n, Subscribe(p));
    PlaceAfter(n, Subscribe(p), p);
  }

  lemma {:induction false} StepKeepsTree<E>(n: Net<E>, a: Action<E>)
    requires Tree(n) && Enabled(n, a)
    ensures Tree(Step(n, a))
  {
    hide Step, TreeAt;
    var t := Step(n, a);
    SameOrOneMore(n, a);
    PlaceAfter(n, a, 0);
    forall b: nat | b < |t.buses| ensures TreeAt(t, b) {
      if b < |n.buses| { TreeAtAfter(n, a, b); } else { NewTreeAt(n, a.bus); }
    }
  }

  /** One bus's own segment when its own fields did not change. */
  lemma {:induction false} SegmentStays<E>(n: Net<E>, t: Net<E>, b: nat)
    requires 0 < b < |n.buses| <= |t.buses| && IsSegment(n, b) && n.log <= t.log
    requires n.buses[b].emitted + n.buses[b].evbuf == t.buses[b].emitted + t.buses[b].evbuf && n.buses[b].start == t.buses[b].start
    ensures IsSegment(t, b)
  {
    assert |n.buses[b].emitted + n.buses[b].evbuf| == |t.buses[b].emitted + t.buses[b].evbuf|;
    assert t.log[n.buses[b].start..Pos(n, b)] == n.log[n.buses[b].start..Pos(n, b)];
  }

  lemma {:induction false} DeliveredSegment<E>(n: Net<E>, p: nat, c: nat)
    requires Tree(n) && Segments(n) && Lockstep(n) && Enabled(n, Deliver(p, c))
    ensures c > 0 && IsSegment(Step(n, Deliver(p, c)), c)
  {
    hide Step, NewSubscriber;
    StepAt(n, Deliver(p, c), c);
    LogAfter(n, Deliver(p, c));
    assert Passing(n, p) && TreeAt(n, p) && c in n.buses[p].subscriptions;
    assert InStep(n, c) && IsSegment(n, c);
    var b := n.buses[c];
    var ev := n.buses[p].publishing.value.ev;
    assert b.emitted + (b.evbuf + [ev]) == (b.emitted + b.evbuf) + [ev];
    assert n.log[b.start..Pos(n, c) + 1] == n.log[b.start..Pos(n, c)] + [n.log[Pos(n, c)]];
  }

  lemma {:induction false} Tail<E>(emitted: seq<E>, buffered: seq<E>, log: seq<E>, from: nat, to: nat)
    requires from <= to <= |log| && emitted + buffered == log[from..to]
    ensures from + |emitted| <= to && buffered == log[from + |emitted|..to]
  {
    assert |emitted| + |buffered| == to - from;
    assert (emitted + buffered)[|emitted|..] == buffered;
  }

  lemma {:induction false} ClonedSegment<E>(n: Net<E>, p: nat)
    requires Segments(n) && Enabled(n, Subscribe(p))
    ensures IsSegment(Step(n, Subscribe(p)), |n.buses|)
  {
    hide Step;
    NewBus(n, p);
    LogAfter(n, Subscribe(p));
    var s := n.buses[p];
    assert [] + s.evbuf == s.evbuf;
    if p > 0 {
      assert IsSegment(n, p);
      Tail(s.emitted, s.evbuf, n.log, s.start, Pos(n, p));
    }
  }

  lemma {:induction false} StepKeepsSegments<E>(n: Net<E>, a: Action<E>)
    requires Tree(n) && Segments(n) && Lockstep(n) && Enabled(n, a)
    ensures Segments(Step(n, a))
  {
    hide IsSegment;
    var t := Step(n, a);
    if a.Deliver? { DeliveredSegment(n, a.parent, a.child); }
    if a.Subscribe? { ClonedSegment(n, a.bus); }
    forall b | 0 < b < |t.buses| ensures IsSegment(t, b) {
      if (a.Deliver? && b == a.child) || (a.Subscribe? && b == |n.buses|) {
      } else {
        if a.Emit? && b == a.bus {
          assert n.buses[b].emitted + n.buses[b].evbuf == t.buses[b].emitted + t.buses[b].evbuf;
        }
        SegmentStays(n, t, b);
      }
    }
  }

  lemma {:induction false} PosAfter<E>(n: Net<E>, a: Action<E>, b: nat)
    requires Tree(n) && Segments(n) && Lockstep(n) && Enabled(n, a) && b < |n.buses|
    ensures Pos(Step(n, a), b) == Pos(n, b) + if (a.Publish? && b == 0) || (a.Deliver? && b == a.child) then 1 else 0
  {
    hide Step, NewSubscriber, IsSegment;
    StepAt(n, a, b);
    LogAfter(n, a);
    if a.Deliver? { assert Passing(n, a.parent) && TreeAt(n, a.parent); }
  }

  /** A child of `p` that is still to come in its publishing. */
  ghost predicate Expects<E>(n: Net<E>, p: nat, c: nat) {
    && p < c < |n.buses| && n.buses[c].parent == p && Passing(n, p) && InStep(n, c)
  }

  lemma {:induction false} PassingAfter<E>(n: Net<E>, a: Action<E>, b: nat)
    requires Enabled(n, a) && b < |n.buses| && Passing(n, b) && n.buses[0].evbuf == []
    requires Pos(Step(n, a), b) == Pos(n, b) + if (a.Publish? && b == 0) || (a.Deliver? && b == a.child) then 1 else 0
    requires a.Deliver? ==> Expects(n, a.parent, a.child)
    ensures Passing(Step(n, a), b)
  {
    hide Step, NewSubscriber;
    StepAt(n, a, b);
    LogAfter(n, a);
  }

  lemma {:induction false} NewIsPassing<E>(n: Net<E>, b: nat)
    requires Enabled(n, Subscribe(b))
    ensures Passing(Step(n, Subscribe(b)), |n.buses|)
  {
  }

  /** What is still to come of the publishing of a bus. */
  lemma {:induction false} PublishingAfter<E>(n: Net<E>, a: Action<E>, b: nat)
    requires Enabled(n, a) && b < |n.buses|
    ensures b < |Step(n, a).buses|
    ensures var (x, y) := (n.buses[b].publishing, Step(n, a).buses[b].publishing);
      && ((a.Publish? && b == 0) || (a.Deliver? && b == a.child) ==> y.Some? && y.value.left == n.buses[b].subscriptions)
      && (((a.Deliver? && b == a.parent) || (a.SkipClosed? && b == a.parent)) && !(a.Deliver? && b == a.child) ==>
            x.Some? && y.Some? && y.value.left == x.value.left - {a.child})
      && (a.EndPublish? && b == a.bus ==> x.Some? && x.value.left == {} && y == None)
      && (a.Turn? && b == a.parent ==> x.Some? && y.Some? && y.value.left == x.value.left)
      && ((a.Publish? && b == 0) || (a.Deliver? && (b == a.parent || b == a.child)) || (a.SkipClosed? && b == a.parent)
          || (a.EndPublish? && b == a.bus) || (a.Turn? && b == a.parent) || y == x)
  {
    hide Step, NewSubscriber;
    StepAt(n, a, b);
  }

  lemma {:induction false} PassingMeans<E>(n: Net<E>, b: nat)
    requires b < |n.buses| && Passing(n, b)
    ensures n.buses[b].publishing.Some? ==> n.buses[b].status == Running && n.buses[b].publishing.value.left <= n.buses[b].subscriptions
  {
  }

  lemma {:induction false} ExpectsMeans<E>(n: Net<E>, p: nat, c: nat)
    requires Expects(n, p, c)
    ensures p < c < |n.buses| && n.buses[c].parent == p
  {
  }

  lemma {:induction false} InStepAfter<E>(n: Net<E>, a: Action<E>, p: nat, c: nat)
    requires Enabled(n, a) && p < c < |n.buses| && n.buses[c].parent == p && InStep(n, c) && Passing(n, p)
    requires n.buses[c].status == Running ==> c in n.buses[p].subscriptions
    requires forall b :: b == c || b == p ==>
      Pos(Step(n, a), b) == Pos(n, b) + if (a.Publish? && b == 0) || (a.Deliver? && b == a.child) then 1 else 0
    requires a.Deliver? ==> Expects(n, a.parent, a.child)
    ensures InStep(Step(n, a), c)
  {
    hide Step, NewSubscriber, Pos, Passing;
    StepAt(n, a, c);
    StepAt(n, a, p);
    PublishingAfter(n, a, p);
    if a.Deliver? { ExpectsMeans(n, a.parent, a.child); }
    PassingMeans(n, p);
  }

  lemma {:induction false} NewIsInStep<E>(n: Net<E>, b: nat)
    requires Enabled(n, Subscribe(b))
    ensures InStep(Step(n, Subscribe(b)), |n.buses|)
  {
  }

  lemma {:induction false} DeliveryIsExpected<E>(n: Net<E>, p: nat, c: nat)
    requires Tree(n) && Lockstep(n) && IsLeft(n, p, c)
    ensures Expects(n, p, c)
  {
    assert Passing(n, p) && TreeAt(n, p) && c in n.buses[p].subscriptions;
  }

  lemma {:induction false} StepKeepsLockstep<E>(n: Net<E>, a: Action<E>)
    requires Tree(n) && Segments(n) && Lockstep(n) && Enabled(n, a)
    ensures Lockstep(Step(n, a))
  {
    hide Passing, InStep, Step, Expects, IsSegment, Pos;
    var t := Step(n, a);
    SameOrOneMore(n, a);
    if a.Deliver? { DeliveryIsExpected(n, a.parent, a.child); }
    forall b: nat | b < |t.buses| ensures Passing(t, b) {
      if b < |n.buses| { PosAfter(n, a, b); PassingAfter(n, a, b); } else { NewIsPassing(n, a.bus); }
    }
    forall c: nat | 0 < c < |t.buses| ensures InStep(t, c) {
      if c < |n.buses| {
        var p := n.buses[c].parent;
        assert TreeAt(n, c);
        PosAfter(n, a, c);
        PosAfter(n, a, p);
        InStepAfter(n, a, p, c);
      } else {
        NewIsInStep(n, a.bus);
      }
    }
  }

  lemma {:induction false} StepKeepsAsked<E>(n: Net<E>, a: Action<E>)
    requires Tree(n) && Asked(n) && Enabled(n, a)
    ensures Asked(Step(n, a))
  {
    hide Step;
    var t := Step(n, a);
    SameOrOneMore(n, a);
    forall b: nat, c: nat | b < |t.buses| && t.buses[b].status == Draining && c in t.buses[b].subscriptions && c < |t.buses|
      ensures t.buses[c].requested
    {
      if b == |n.buses| {
        NewIsRunning(n, a.bus);
      } else {
        PlaceAfter(n, a, b);
        assert TreeAt(n, b);
        if c < |n.buses| { PlaceAfter(n, a, c); }
      }
    }
  }

  /** A report: all children of the reporter are in the list already. */
  lemma {:induction false} ReportComesLast<E>(n: Net<E>, b: nat)
    requires Tree(n) && Reports(n) && Enabled(n, Report(b))
    ensures forall c :: 0 < c < |n.buses| && n.buses[c].parent == b ==> c in n.reports
  {
    forall c | 0 < c < |n.buses| && n.buses[c].parent == b ensures c in n.reports {
      assert TreeAt(n, c);
    }
  }

  lemma {:induction false} StepKeepsReports<E>(n: Net<E>, a: Action<E>)
    requires Tree(n) && Reports(n) && Enabled(n, a)
    ensures Reports(Step(n, a))
  {
    hide Step;
    var t := Step(n, a);
    SameOrOneMore(n, a);
    ReportedAfter(n, a);
    if a.Report? && a.bus > 0 { ReportComesLast(n, a.bus); }
    forall b ensures b in t.reports <==> 0 < b < |t.buses| && t.buses[b].status == Done {
      if 0 <= b < |n.buses| { PlaceAfter(n, a, b); }
      if b == |n.buses| && a.Subscribe? { NewIsRunning(n, a.bus); }
    }
    forall i, c | 0 <= i < |t.reports| && 0 < c < |t.buses| && t.buses[c].parent == t.reports[i] ensures c in t.reports[..i] {
      if c < |n.buses| { PlaceAfter(n, a, c); } else { NewIsRunning(n, a.bus); }
      if i < |n.reports| {
        assert n.reports[i] in n.reports && t.reports[..i] == n.reports[..i];
      } else {
        assert t.reports[..i] == n.reports;
      }
    }
  }

  lemma {:induction false} ReportedAfter<E>(n: Net<E>, a: Action<E>)
    requires Enabled(n, a)
    ensures Step(n, a).reports == n.reports + if a.Report? && a.bus > 0 then [a.bus] else []
  {
  }

  lemma {:induction false} StepKeepsValid<E>(n: Net<E>, a: Action<E>)
    requires Valid(n) && Enabled(n, a)
    ensures Valid(Step(n, a))
  {
    hide Tree, Segments, Lockstep, Asked, Reports;
    StepKeepsTree(n, a);
    StepKeepsSegments(n, a);
    StepKeepsLockstep(n, a);
    StepKeepsAsked(n, a);
    StepKeepsReports(n, a);
  }

  // ---------- whole runs ----------

  lemma {:induction false} RunKeepsValid<E>(n: Net<E>, acts: seq<Action<E>>)
    requires Valid(n) && Run(n, acts)
    ensures Valid(After(n, acts))
    decreases |acts|
  {
    hide Valid, Step, Enabled;
    if acts != [] {
      StepKeepsValid(n, acts[0]);
      RunKeepsValid(Step(n, acts[0]), acts[1..]);
    }
  }

  lemma {:induction false} NewIsValid<E>()
    ensures Valid(NewNet<E>())
  {
  }

  /** A new bus waits: it runs, was not asked to shut down, passes nothing on and has no subscriptions; and the root takes
      a publication exactly when it waits in its select. */
  lemma {:induction false} NewBusesWait<E>(n: Net<E>, p: nat, ev: E)
    requires Valid(n)
    ensures Enabled(n, Publish(ev)) <==> n.buses[0].status == Running && n.buses[0].publishing.None?
    ensures p < |n.buses| ==> var b := NewSubscriber(n, p);
      b.status == Running && !b.requested && b.publishing.None? && b.subscriptions == {} && b.parent == p && b.emitted == [] && b.evbuf == n.buses[p].evbuf
    ensures var root := NewNet<E>().buses[0];
      root.status == Running && !root.requested && root.publishing.None? && root.subscriptions == {} && root.evbuf == []
  {
  }

  /** Delivery: in every reachable state each subscriber, at any depth of the clone tree, has emitted and
      buffered a contiguous, ordered, duplicate-free piece of what was published at the root. */
  lemma {:induction false} EverySubscriberHasASegment<E>(acts: seq<Action<E>>, b: nat)
    requires Run(NewNet<E>(), acts) && 0 < b < |After(NewNet<E>(), acts).buses|
    ensures var n := After(NewNet<E>(), acts); var x := n.buses[b];
      && x.start + |x.emitted| + |x.evbuf| <= |n.log|
      && x.emitted + x.evbuf == n.log[x.start..x.start + |x.emitted| + |x.evbuf|]
  {
    NewIsValid<E>();
    RunKeepsValid(NewNet<E>(), acts);
    assert IsSegment(After(NewNet<E>(), acts), b);
  }

  lemma {:induction false} StepKeepsHistory<E>(n: Net<E>, a: Action<E>, b: nat)
    requires Enabled(n, a) && b < |n.buses|
    ensures b < |Step(n, a).buses| && Step(n, a).buses[b].start == n.buses[b].start && n.log <= Step(n, a).log
  {
  }

  lemma {:induction false} RunKeepsHistory<E>(n: Net<E>, acts: seq<Action<E>>, b: nat)
    requires Run(n, acts) && b < |n.buses|
    ensures b < |After(n, acts).buses| && After(n, acts).buses[b].start == n.buses[b].start && n.log <= After(n, acts).log
    decreases |acts|
  {
    hide Step, Enabled;
    if acts != [] {
      StepKeepsHistory(n, acts[0], b);
      RunKeepsHistory(Step(n, acts[0]), acts[1..], b);
    }
  }

  /** A clone, whatever happens after it was made, has a piece of the log that begins with the first event
      its source had not emitted at that moment; from the root it begins with the next event published. */
  lemma {:induction false} CloneMissesNothing<E>(n: Net<E>, source: nat, acts: seq<Action<E>>)
    requires Valid(n) && Enabled(n, Subscribe(source)) && Run(Step(n, Subscribe(source)), acts)
    ensures var t := After(Step(n, Subscribe(source)), acts); var first := FirstUnemitted(n, source);
      && |n.buses| < |t.buses| && n.log <= t.log
      && var got := t.buses[|n.buses|].emitted + t.buses[|n.buses|].evbuf;
         first + |got| <= |t.log| && got == t.log[first..first + |got|]
  {
    hide Valid;
    var m := Step(n, Subscribe(source));
    StepKeepsValid(n, Subscribe(source));
    RunKeepsValid(m, acts);
    RunKeepsHistory(m, acts, |n.buses|);
    assert IsSegment(After(m, acts), |n.buses|) by { ValidSegments(After(m, acts), |n.buses|); }
  }

  lemma {:induction false} ValidSegments<E>(n: Net<E>, b: nat)
    requires Valid(n) && 0 < b < |n.buses|
    ensures IsSegment(n, b)
  {
  }

  /** `b` and everything above it runs. */
  predicate LiveUpward<E>(n: Net<E>, b: nat)
    requires b < |n.buses|
    decreases b
  {
    n.buses[b].status == Running && (b > 0 ==> n.buses[b].parent < b && LiveUpward(n, n.buses[b].parent))
  }

  /** When no event is on its way, every subscriber that runs below running buses has everything: what it
      emitted and buffered goes up to the last published event. */
  lemma {:induction false} NothingIsLost<E>(n: Net<E>, b: nat)
    requires Valid(n) && b < |n.buses| && LiveUpward(n, b) && forall i :: 0 <= i < |n.buses| ==> n.buses[i].publishing.None?
    ensures Pos(n, b) == |n.log|
    decreases b
  {
    if b > 0 {
      assert InStep(n, b) && TreeAt(n, b);
      NothingIsLost(n, n.buses[b].parent);
    }
  }

  predicate Below<E>(n: Net<E>, d: nat, b: nat)
    requires b < |n.buses| && d < |n.buses|
    decreases d
  {
    d > 0 && n.buses[d].parent < d && (n.buses[d].parent == b || Below(n, n.buses[d].parent, b))
  }

  /** A bus reports closed to its parent exactly once, and only when everything below it has reported. */
  lemma {:induction false} ReportsOnceAfterDescendants<E>(acts: seq<Action<E>>, i: nat, d: nat)
    requires Run(NewNet<E>(), acts)
    ensures var n := After(NewNet<E>(), acts);
      && (forall j, k :: 0 <= j < k < |n.reports| ==> n.reports[j] != n.reports[k])
      && (forall b :: b in n.reports <==> 0 < b < |n.buses| && n.buses[b].status == Done)
      && (i < |n.reports| && d < |n.buses| && n.reports[i] < |n.buses| && Below(n, d, n.reports[i]) ==> d in n.reports[..i])
  {
    NewIsValid<E>();
    RunKeepsValid(NewNet<E>(), acts);
    var n := After(NewNet<E>(), acts);
    if i < |n.reports| && d < |n.buses| && n.reports[i] < |n.buses| && Below(n, d, n.reports[i]) {
      DescendantsReportFirst(n, i, d);
    }
  }

  lemma {:induction false} DescendantsReportFirst<E>(n: Net<E>, i: nat, d: nat)
    requires Reports(n) && i < |n.reports| && d < |n.buses| && n.reports[i] < |n.buses| && Below(n, d, n.reports[i])
    ensures d in n.reports[..i]
    decreases d
  {
    var p := n.buses[d].parent;
    if p != n.reports[i] {
      DescendantsReportFirst(n, i, p);
      var j :| 0 <= j < i && n.reports[j] == p;
      assert d in n.reports[..j];
    }
  }

  // ---------- no deadlock ----------

  /** The bus has unfinished work of its own: an event to pass on, or a shutdown to go through with. */
  predicate Busy<E>(b: Bus<E>) {
    b.status != Done && (b.publishing.Some? || b.requested || b.status == Draining)
  }

  /** A step that needs nobody outside. */
  predicate Internal<E>(a: Action<E>) { a.Turn? || a.Deliver? || a.SkipClosed? || a.EndPublish? || a.BeginShutdown? || a.Report? }

  /** No deadlock: whenever a bus is passing an event on or closing, some internal step is possible, although a
      bus whose loop has come to a subscriber waits for that one; a full or slow consumer never blocks it. */
  lemma {:induction false} NeverStuck<E>(n: Net<E>, b: nat) returns (a: Action<E>)
    requires Valid(n) && b < |n.buses| && Busy(n.buses[b])
    ensures Internal(a) && Enabled(n, a)
    decreases if n.buses[b].publishing.Some? then 0 else 1, |n.buses| - b
  {
    hide Segments, Lockstep, Reports, Step;
    var x := n.buses[b];
    ValidPassing(n, b);
    if x.publishing.Some? {
      if x.publishing.value.left == {} { return EndPublish(b); }
      var c :| c in x.publishing.value.left && (x.publishing.value.at.Some? ==> c == x.publishing.value.at.value);
      assert TreeAt(n, b) && c in x.subscriptions;
      if x.publishing.value.at.None? { return Action.Turn(b, c); }
      if n.buses[c].status != Running { return SkipClosed(b, c); }
      if n.buses[c].publishing.None? { return Deliver(b, c); }
      a := NeverStuck(n, c);
    } else if x.status == Running {
      a := BeginShutdown(b);
    } else if x.subscriptions != {} {
      var c :| c in x.subscriptions;
      assert TreeAt(n, b) && TreeAt(n, c);
      a := NeverStuck(n, c);
    } else {
      if b > 0 {
        var p := x.parent;
        assert TreeAt(n, b) && TreeAt(n, p);
        if n.buses[p].publishing.Some? { a := NeverStuck(n, p); return; }
      }
      a := Report(b);
    }
  }

  lemma {:induction false} ValidPassing<E>(n: Net<E>, b: nat)
    requires Valid(n) && b < |n.buses|
    ensures Passing(n, b)
  {
  }
}
