/** Progress of the bus: its own steps run out, and when they have, everything published has arrived. */
module BusProgress {
  import opened Prelude
  import opened Bus

  // ---------- the work that is left ----------

  function Pow4(k: nat): nat { if k == 0 then 1 else 4 * Pow4(k - 1) }

  /** What passing an event on to the subscriptions in `left` can cause, when there are `n` buses: bus `c` counts
      for more than all buses behind it. */
  function LeftWork(left: set<nat>, c: nat, n: nat): nat
    requires c <= n
    decreases n - c
  {
    if c == n then 0 else LeftWork(left, c + 1, n) + if c in left then Pow4(n - c) else 0
  }

  function StatusWork(s: Status): nat { if s == Running then 2 else if s == Draining then 1 else 0 }

  function BusWork<E>(b: Bus<E>, n: nat): nat {
    StatusWork(b.status) +
    if b.publishing.None? then 0
    else 1 + (if b.publishing.value.at.None? then 1 else 0) + LeftWork(b.publishing.value.left, 0, n)
  }

  /** The work of the first `k` buses. */
  function WorkOf<E>(buses: seq<Bus<E>>, n: nat, k: nat): nat
    requires k <= |buses|
  {
    if k == 0 then 0 else WorkOf(buses, n, k - 1) + BusWork(buses[k - 1], n)
  }

  function Work<E>(n: Net<E>): nat { WorkOf(n.buses, |n.buses|, |n.buses|) }

  lemma {:induction false} LeftWithout(left: set<nat>, c: nat, i: nat, n: nat)
    requires i <= c < n && c in left
    ensures LeftWork(left, i, n) == LeftWork(left - {c}, i, n) + Pow4(n - c)
    decreases n - i
  {
    if i == c { SameLeft(left, left - {c}, c + 1, n); } else { LeftWithout(left, c, i + 1, n); }
  }

  lemma {:induction false} SameLeft(a: set<nat>, b: set<nat>, i: nat, n: nat)
    requires i <= n && forall d :: i <= d < n ==> (d in a <==> d in b)
    ensures LeftWork(a, i, n) == LeftWork(b, i, n)
    decreases n - i
  {
    if i < n { SameLeft(a, b, i + 1, n); }
  }

  /** All buses from `i` on count for less than a third of the one before them. */
  lemma {:induction false} LeftIsSmall(left: set<nat>, i: nat, n: nat)
    requires i <= n
    ensures 3 * LeftWork(left, i, n) + 4 <= Pow4(n - i + 1)
    decreases n - i
  {
    if i < n { LeftIsSmall(left, i + 1, n); }
  }

  /** Passing an event on to everything behind `c` is less work than having it passed on to `c`. */
  lemma {:induction false} BehindIsLess(left: set<nat>, c: nat, n: nat)
    requires c < n && forall d :: d in left ==> c < d
    ensures LeftWork(left, 0, n) + 4 <= Pow4(n - c)
  {
    NothingBefore(left, 0, c + 1, n);
    LeftIsSmall(left, c + 1, n);
  }

  lemma {:induction false} NothingBefore(left: set<nat>, i: nat, c: nat, n: nat)
    requires i <= c <= n && forall d :: d in left ==> c <= d
    ensures LeftWork(left, i, n) == LeftWork(left, c, n)
    decreases c - i
  {
    if i < c { NothingBefore(left, i + 1, c, n); }
  }

  function At<E>(buses: seq<Bus<E>>, n: nat, i: nat, k: nat): nat
    requires k <= |buses|
  {
    if i < k then BusWork(buses[i], n) else 0
  }

  /** Work that changes in two places only. */
  lemma {:induction false} WorkChanges<E>(s: seq<Bus<E>>, t: seq<Bus<E>>, n: nat, p: nat, c: nat, k: nat)
    requires k <= |s| == |t| && p != c
    requires forall i :: 0 <= i < k && i != p && i != c ==> BusWork(t[i], n) == BusWork(s[i], n)
    ensures WorkOf(t, n, k) + At(s, n, p, k) + At(s, n, c, k) == WorkOf(s, n, k) + At(t, n, p, k) + At(t, n, c, k)
  {
    hide BusWork;
    if k > 0 { WorkChanges(s, t, n, p, c, k - 1); }
  }

  /** The buses an action moves: one, or a parent and its child. */
  function First<E>(a: Action<E>): nat {
    match a
    case Turn(p, _) => p
    case Deliver(p, _) => p
    case SkipClosed(p, _) => p
    case EndPublish(b) => b
    case BeginShutdown(b) => b
    case Report(b) => b
    case Emit(b) => b
    case Close(b) => b
    case Subscribe(b) => b
    case Publish(_) => 0
  }

  function Second<E>(n: Net<E>, a: Action<E>): nat {
    if a.Deliver? then a.child else |n.buses|
  }

  /** Without a publication and without a subscription from outside. */
  predicate Inside<E>(a: Action<E>) { !a.Publish? && !a.Subscribe? }

  lemma {:induction false} OthersKeepWork<E>(n: Net<E>, a: Action<E>, i: nat, m: nat)
    requires Enabled(n, a) && Inside(a) && i < |n.buses| && i != First(a) && i != Second(n, a)
    ensures BusWork(BusAfter(n, a, i), m) == BusWork(n.buses[i], m)
  {
    hide LeftWork;
  }

  /** An inside action changes the work by what it changes at those two. */
  lemma {:induction false} WorkAfter<E>(n: Net<E>, a: Action<E>)
    requires Valid(n) && Enabled(n, a) && Inside(a) && First(a) < |n.buses| && First(a) != Second(n, a)
    ensures var (t, m) := (Step(n, a), |n.buses|);
      && |t.buses| == m
      && Work(t) + At(n.buses, m, First(a), m) + At(n.buses, m, Second(n, a), m)
         == Work(n) + At(t.buses, m, First(a), m) + At(t.buses, m, Second(n, a), m)
  {
    hide Valid, Enabled, BusAfter, BusWork, Step, At, First, Second;
    SameOrOneMore(n, a);
    var t := Step(n, a);
    forall i | 0 <= i < |n.buses| && i != First(a) && i != Second(n, a)
      ensures BusWork(t.buses[i], |n.buses|) == BusWork(n.buses[i], |n.buses|)
    {
      StepAt(n, a, i);
      OthersKeepWork(n, a, i, |n.buses|);
    }
    WorkChanges(n.buses, t.buses, |n.buses|, First(a), Second(n, a), |n.buses|);
  }

  // ---------- every step of its own is progress ----------

  lemma {:induction false} DeliverIsLess<E>(p: Bus<E>, c: Bus<E>, child: nat, ev: E, m: nat)
    requires p.publishing.Some? && child in p.publishing.value.left && 0 < child < m
    requires p.publishing.value.at.Some? && Idle(c) && forall d :: d in c.subscriptions ==> child < d
    ensures BusWork(Reached(p, child), m) + BusWork(Took(c, ev, false), m) < BusWork(p, m) + BusWork(c, m)
  {
    LeftWithout(p.publishing.value.left, child, 0, m);
    BehindIsLess(c.subscriptions, child, m);
  }

  lemma {:induction false} SkipIsLess<E>(p: Bus<E>, child: nat, m: nat)
    requires p.publishing.Some? && child in p.publishing.value.left && p.publishing.value.at.Some? && child < m
    ensures BusWork(Reached(p, child), m) < BusWork(p, m)
  {
    LeftWithout(p.publishing.value.left, child, 0, m);
    BehindIsLess({}, child, m);
  }

  lemma {:induction false} AloneIsLess<E>(n: Net<E>, a: Action<E>, m: nat)
    requires Enabled(n, a) && (a.Turn? || a.EndPublish? || a.BeginShutdown? || a.Report?) && First(a) < |n.buses|
    ensures BusWork(BusAfter(n, a, First(a)), m) < BusWork(n.buses[First(a)], m)
  {
    hide LeftWork;
  }

  /** A parent's child comes after it, and its own children after that. */
  lemma {:induction false} ChildrenComeLater<E>(n: Net<E>, p: nat, c: nat)
    requires Valid(n) && IsLeft(n, p, c)
    ensures p < c && forall d :: d in n.buses[c].subscriptions ==> c < d
  {
    hide Segments, Asked, Reports;
    assert Passing(n, p) && TreeAt(n, p) && TreeAt(n, c);
  }

  /** Every internal step leaves less work. */
  lemma {:induction false} InternalIsProgress<E>(n: Net<E>, a: Action<E>)
    requires Valid(n) && Enabled(n, a) && Internal(a)
    ensures Work(Step(n, a)) < Work(n)
  {
    hide Valid, BusWork, Step, Work, BusAfter, Reached, Took;
    var m := |n.buses|;
    if a.Deliver? || a.SkipClosed? || a.Turn? { ChildrenComeLater(n, a.parent, a.child); }
    WorkAfter(n, a);
    StepAt(n, a, First(a));
    if a.Deliver? {
      StepAt(n, a, a.child);
      DeliverIsBoth(n, a);
      DeliverIsLess(n.buses[a.parent], n.buses[a.child], a.child, n.buses[a.parent].publishing.value.ev, m);
    } else if a.SkipClosed? {
      SkipIsOne(n, a);
      SkipIsLess(n.buses[a.parent], a.child, m);
    } else {
      AloneIsLess(n, a, m);
    }
  }

  lemma {:induction false} DeliverIsBoth<E>(n: Net<E>, a: Action<E>)
    requires a.Deliver? && Enabled(n, a) && a.child > 0
    ensures BusAfter(n, a, a.parent) == Reached(n.buses[a.parent], a.child)
    ensures BusAfter(n, a, a.child) == Took(n.buses[a.child], n.buses[a.parent].publishing.value.ev, false)
  {
  }

  lemma {:induction false} SkipIsOne<E>(n: Net<E>, a: Action<E>)
    requires a.SkipClosed? && Enabled(n, a)
    ensures BusAfter(n, a, a.parent) == Reached(n.buses[a.parent], a.child)
  {
  }

  /** A consumer that takes an event, or asks for a shutdown, makes no work. */
  lemma {:induction false} OutsideAddsNothing<E>(n: Net<E>, a: Action<E>)
    requires Valid(n) && Enabled(n, a) && (a.Emit? || a.Close?)
    ensures Work(Step(n, a)) == Work(n)
  {
    hide Valid, Step, Work, LeftWork;
    WorkAfter(n, a);
    StepAt(n, a, First(a));
  }

  // ---------- whole runs ----------

  function Internals<E>(acts: seq<Action<E>>): nat
    decreases |acts|
  {
    if acts == [] then 0 else (if Internal(acts[0]) then 1 else 0) + Internals(acts[1..])
  }

  predicate AllInside<E>(acts: seq<Action<E>>) { forall i :: 0 <= i < |acts| ==> Inside(acts[i]) }

  /** Termination: between two publications or subscriptions the buses take at most `Work(n)` steps of their own,
      in whatever order and however often consumers take events and ask for shutdowns. The log stays. */
  lemma {:induction false} InternalStepsRunOut<E>(n: Net<E>, acts: seq<Action<E>>)
    requires Valid(n) && Run(n, acts) && AllInside(acts)
    ensures Internals(acts) + Work(After(n, acts)) <= Work(n)
    ensures After(n, acts).log == n.log
    decreases |acts|
  {
    hide Valid, Enabled, Step, Work;
    if acts != [] {
      var a := acts[0];
      assert Inside(a);
      StepKeepsValid(n, a);
      LogAfter(n, a);
      if Internal(a) { InternalIsProgress(n, a); } else { OutsideAddsNothing(n, a); }
      forall i | 0 <= i < |acts[1..]| ensures Inside(acts[1..][i]) { assert acts[1..][i] == acts[i + 1]; }
      InternalStepsRunOut(Step(n, a), acts[1..]);
    }
  }

  /** No bus can take a step of its own. */
  ghost predicate Settled<E(!new)>(n: Net<E>) { forall a: Action<E> :: Internal(a) ==> !Enabled(n, a) }

  /** Then nobody is passing an event on, every bus that was asked to shut down has, and every subscriber below
      running buses has everything that was published, up to the last event. */
  lemma {:induction false} SettledHasEverything<E(!new)>(n: Net<E>, b: nat)
    requires Valid(n) && Settled(n) && b < |n.buses|
    ensures n.buses[b].publishing.None? && (n.buses[b].requested ==> n.buses[b].status == Done)
    ensures LiveUpward(n, b) ==> Pos(n, b) == |n.log|
  {
    hide Valid, Enabled, LiveUpward;
    forall i | 0 <= i < |n.buses| ensures n.buses[i].publishing.None? && !Busy(n.buses[i]) {
      ValidPassing(n, i);
      if Busy(n.buses[i]) { var a := NeverStuck(n, i); }
    }
    if LiveUpward(n, b) { NothingIsLost(n, b); }
  }

  /** From every state the buses can settle, and by the bound above they do so along every path of their own. */
  lemma {:induction false} CanSettle<E(!new)>(n: Net<E>) returns (acts: seq<Action<E>>)
    requires Valid(n)
    ensures Run(n, acts) && |acts| <= Work(n) && (forall i :: 0 <= i < |acts| ==> Internal(acts[i])) && Settled(After(n, acts))
    decreases Work(n)
  {
    hide Valid, Enabled, Step, Work;
    if a: Action<E> :| Internal(a) && Enabled(n, a) {
      InternalIsProgress(n, a);
      StepKeepsValid(n, a);
      var rest := CanSettle(Step(n, a));
      acts := [a] + rest;
      assert acts[1..] == rest;
    } else {
      acts := [];
    }
  }

  /** Every published event arrives. From any reachable state, along any run without a new publication or
      subscription that goes on until the buses settle, each subscriber below running buses gets everything. */
  lemma {:induction false} EveryEventArrives<E(!new)>(before: seq<Action<E>>, acts: seq<Action<E>>, b: nat)
    requires Run(NewNet<E>(), before) && Run(After(NewNet<E>(), before), acts) && AllInside(acts)
    requires Settled(After(After(NewNet<E>(), before), acts)) && b < |After(After(NewNet<E>(), before), acts).buses|
    ensures var (n, t) := (After(NewNet<E>(), before), After(After(NewNet<E>(), before), acts));
      && Internals(acts) <= Work(n) && t.log == n.log
      && (b > 0 && LiveUpward(t, b) ==>
            var x := t.buses[b]; x.start <= |t.log| && x.emitted + x.evbuf == n.log[x.start..])
  {
    hide Valid, Enabled, Step, Work, Settled, LiveUpward;
    var n := After(NewNet<E>(), before);
    NewIsValid<E>();
    RunKeepsValid(NewNet<E>(), before);
    InternalStepsRunOut(n, acts);
    RunKeepsValid(n, acts);
    var t := After(n, acts);
    SettledHasEverything(t, b);
    if b > 0 { ValidSegments(t, b); }
  }
}
