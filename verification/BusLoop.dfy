/** One bus goroutine as an object: the cases of the select in `run`, each changing the loop's own fields in
    place, and together what `Bus.Step` does to that bus. */
module BusLoops {
  import opened Prelude
  import opened Bus

  class BusLoop<E> {
    const parent: nat
    const isSubscriber: bool       // eventch is set
    var evbuf: seq<E>
    var subscriptions: set<nat>
    var publishing: Option<Sending<E>>
    var status: Status
    var requested: bool
    ghost var emitted: seq<E>
    ghost const start: nat

    ghost function State(): Bus<E>
      reads this
    {
      Bus(parent, evbuf, subscriptions, publishing, status, requested, emitted, start)
    }

    /** `NewBus`. */
    constructor ()
      ensures State() == NewNet<E>().buses[0] && !isSubscriber
    {
      parent, isSubscriber, evbuf, subscriptions, publishing, status, requested := 0, false, [], {}, None, Running, false;
      emitted, start := [], 0;
    }

    /** `newSubscriber(parent)`, for the bus numbered `p` in `n`: a copy of its buffer at this moment. */
    constructor Subscriber(ghost n: Net<E>, p: nat, parent: BusLoop<E>)
      requires p < |n.buses| && parent.State() == n.buses[p]
      ensures State() == NewSubscriber(n, p) && isSubscriber
    {
      this.parent, isSubscriber := p, true;
      evbuf, subscriptions, publishing, status, requested := parent.evbuf, {}, None, Running, false;
      emitted, start := [], FirstUnemitted(n, p);
    }

    /** An event arrived: buffer it in subscriber mode, then pass it on to every subscription there is now. */
    method OnPublish(ev: E)
      requires Idle(State())
      modifies this
      ensures State() == Took(old(State()), ev, !isSubscriber)
    {
      if isSubscriber { evbuf := evbuf + [ev]; }
      publishing := Some(Sending(ev, subscriptions, None));
    }

    /** The loop over the subscriptions comes to `sub`. */
    method OnTurn(sub: nat)
      requires publishing.Some? && sub in publishing.value.left && publishing.value.at.None?
      modifies this
      ensures State() == TurnedTo(old(State()), sub)
    {
      publishing := Some(Sending(publishing.value.ev, publishing.value.left, Some(sub)));
    }

    /** `sub.Publish(ev)` returned, having delivered or having found the subscriber shutting down. */
    method OnPassed(sub: nat)
      requires publishing.Some? && publishing.value.at == Some(sub)
      modifies this
      ensures State() == Reached(old(State()), sub)
    {
      publishing := Some(Sending(publishing.value.ev, publishing.value.left - {sub}, None));
    }

    /** The first buffered event was received by a consumer. */
    method OnEmit() returns (curev: E)
      requires Idle(State()) && isSubscriber && evbuf != []
      modifies this
      ensures State() == Shrunk(old(State())) && curev == old(evbuf)[0]
    {
      curev := evbuf[0];
      emitted := emitted + [curev];
      evbuf := evbuf[1..];
    }

    /** A subscriber, numbered `sub`, was asked for and handed out. */
    method OnSubscribe(sub: nat)
      requires Idle(State())
      modifies this
      ensures State() == old(State()).(subscriptions := old(subscriptions) + {sub})
    {
      subscriptions := subscriptions + {sub};
    }

    /** A subscriber reported closed: in the select, or while draining. */
    method OnUnsubscribe(sub: nat)
      requires Receives(State())
      modifies this
      ensures State() == old(State()).(subscriptions := old(subscriptions) - {sub})
    {
      subscriptions := subscriptions - {sub};
    }

    method OnShutdown()
      requires Idle(State()) && requested
      modifies this
      ensures State() == old(State()).(status := Draining)
    {
      status := Draining;
    }
  }
}
