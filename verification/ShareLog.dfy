/** The log of accepted shares: recording, pruning, and the rolling window the payouts are based on. */
module ShareLog {
  import opened Prelude

  datatype Device = Cpu | Gpu

  /** One accepted share: its time, address, weight and device. */
  datatype Event = Event(ts: real, addr: string, d: nat, dev: Device)

  /** Lifetime totals of one address on one device. */
  datatype Lifetime = Lifetime(shares: nat, weighted: nat)

  /** What `window_shares` reports for one device. */
  datatype Tally = Tally(total: nat, perAddress: map<string, nat>, count: map<string, nat>)

  datatype Window = Window(total: nat, perAddress: map<string, nat>, cpu: Tally, gpu: Tally)

  function Lookup(m: map<string, nat>, a: string): nat { if a in m then m[a] else 0 }

  /** A missing or non-positive difficulty counts as 1. */
  function Weight(diff: Option<int>): (d: nat)
    ensures d >= 1
  {
    if diff.Some? && diff.value > 0 then diff.value else 1
  }

  // ---------- specification ----------

  /** The events at or after `cutoff`. */
  function Recent(events: seq<Event>, cutoff: real): seq<Event> {
    if events == [] then []
    else
      var init, last := Recent(events[..|events| - 1], cutoff), events[|events| - 1];
      if last.ts < cutoff then init else init + [last]
  }

  function Pruned(events: seq<Event>, window: int, now: real): seq<Event> {
    var cutoff := now - window as real;
    if |events| > 50000 || (events != [] && events[0].ts < cutoff - 3600.0) then Recent(events, cutoff) else events
  }

  /** The weight of the events that satisfy `p`. */
  function WeightOf(events: seq<Event>, p: Event -> bool): nat {
    if events == [] then 0
    else WeightOf(events[..|events| - 1], p) + if p(events[|events| - 1]) then events[|events| - 1].d else 0
  }

  function CountOf(events: seq<Event>, p: Event -> bool): nat {
    if events == [] then 0
    else CountOf(events[..|events| - 1], p) + if p(events[|events| - 1]) then 1 else 0
  }

  function By(a: string): Event -> bool { (e: Event) => e.addr == a }
  function On(dev: Device): Event -> bool { (e: Event) => e.dev == dev }
  function ByOn(a: string, dev: Device): Event -> bool { (e: Event) => e.addr == a && e.dev == dev }

  function AddTo(t: Tally, e: Event): Tally {
    Tally(t.total + e.d, t.perAddress[e.addr := Lookup(t.perAddress, e.addr) + e.d], t.count[e.addr := Lookup(t.count, e.addr) + 1])
  }

  /** The report on a list of events that are all in the window. */
  function Report(events: seq<Event>): Window {
    if events == [] then Window(0, map[], Tally(0, map[], map[]), Tally(0, map[], map[]))
    else Extended(Report(events[..|events| - 1]), events[|events| - 1])
  }

  function Extended(w: Window, e: Event): Window {
    Window(w.total + e.d, w.perAddress[e.addr := Lookup(w.perAddress, e.addr) + e.d],
           if e.dev == Cpu then AddTo(w.cpu, e) else w.cpu, if e.dev == Gpu then AddTo(w.gpu, e) else w.gpu)
  }

  lemma {:induction false} ReportOfOneMore(events: seq<Event>, e: Event)
    ensures Report(events + [e]) == Extended(Report(events), e)
  {
    hide Extended;
    assert (events + [e])[..|events|] == events;
  }

  lemma {:induction false} NothingReported(cutoff: real)
    ensures Recent([], cutoff) == [] && Report([]) == Window(0, map[], Tally(0, map[], map[]), Tally(0, map[], map[]))
  {
  }

  function LifetimeOf(totals: map<(string, Device), Lifetime>, a: string, dev: Device): Lifetime {
    if (a, dev) in totals then totals[(a, dev)] else Lifetime(0, 0)
  }

  // ---------- the pruned log agrees with the full one ----------

  /** One call of `record_share`: what it was given, the clock when the event was stamped, and at its pruning. */
  datatype Recording = Recording(addr: string, diff: Option<int>, dev: Device, at: real, prunedAt: real)

  function EventOf(c: Recording): Event { Event(c.at, c.addr, Weight(c.diff), c.dev) }

  /** The events the log was loaded with, and those of every call since. */
  function FullLog(saved: seq<Event>, calls: seq<Recording>): seq<Event> {
    if calls == [] then saved else FullLog(saved, calls[..|calls| - 1]) + [EventOf(calls[|calls| - 1])]
  }

  function KeptLog(window: int, saved: seq<Event>, calls: seq<Recording>): seq<Event> {
    if calls == [] then saved
    else Pruned(KeptLog(window, saved, calls[..|calls| - 1]) + [EventOf(calls[|calls| - 1])], window, calls[|calls| - 1].prunedAt)
  }

  lemma {:induction false} OneMoreCall(window: int, saved: seq<Event>, calls: seq<Recording>, c: Recording)
    ensures FullLog(saved, calls + [c]) == FullLog(saved, calls) + [EventOf(c)]
    ensures KeptLog(window, saved, calls + [c]) == Pruned(KeptLog(window, saved, calls) + [EventOf(c)], window, c.prunedAt)
  {
    hide Pruned;
    assert (calls + [c])[..|calls|] == calls;
  }

  lemma {:induction false} RecentOfOneMore(events: seq<Event>, e: Event, cutoff: real)
    ensures Recent(events + [e], cutoff) == if e.ts < cutoff then Recent(events, cutoff) else Recent(events, cutoff) + [e]
  {
    assert (events + [e])[..|events|] == events;
  }

  lemma {:induction false} RecentOfRecent(events: seq<Event>, early: real, late: real)
    requires early <= late
    ensures Recent(Recent(events, early), late) == Recent(events, late)
  {
    if events != [] {
      var init, last := events[..|events| - 1], events[|events| - 1];
      RecentOfRecent(init, early, late);
      RecentOfOneMore(Recent(init, early), last, late);
    }
  }

  lemma {:induction false} RecentOfPruned(events: seq<Event>, window: int, at: real, cutoff: real)
    requires at - window as real <= cutoff
    ensures Recent(Pruned(events, window, at), cutoff) == Recent(events, cutoff)
  {
    hide Recent;
    RecentOfRecent(events, at - window as real, cutoff);
  }

  /** When the log is pruned, and to what: above 50000 events, or when the oldest is more than an hour older than the
      window, exactly the events of the window stay, in order; otherwise all do. So a log is never long for nothing. */
  lemma {:induction false} PrunedExactlyWhen(events: seq<Event>, window: int, now: real)
    ensures var t := Pruned(events, window, now);
      && (|events| <= 50000 && (events == [] || events[0].ts + window as real + 3600.0 >= now) ==> t == events)
      && (|events| > 50000 || (events != [] && events[0].ts + window as real + 3600.0 < now) ==>
            && (forall e :: e in t <==> e in events && e.ts + window as real >= now)
            && t == Recent(events, now - window as real))
      && (|t| > 50000 ==> forall e :: e in t ==> e.ts + window as real >= now)
  {
    RecentAre(events, now - window as real);
  }

  lemma {:induction false} RecentAre(events: seq<Event>, cutoff: real)
    ensures forall e :: e in Recent(events, cutoff) <==> e in events && e.ts >= cutoff
  {
    if events != [] {
      RecentAre(events[..|events| - 1], cutoff);
      assert events == events[..|events| - 1] + [events[|events| - 1]];
    }
  }

  /** As long as the clock never runs backwards, the window over the pruned log is the window over the full
      log, whenever and however often it was pruned. */
  lemma {:induction false} PruningIsInvisible(window: int, saved: seq<Event>, calls: seq<Recording>, now: real)
    requires forall i :: 0 <= i < |calls| ==> calls[i].prunedAt <= now
    ensures Recent(KeptLog(window, saved, calls), now - window as real) == Recent(FullLog(saved, calls), now - window as real)
    ensures Report(Recent(KeptLog(window, saved, calls), now - window as real)) == Report(Recent(FullLog(saved, calls), now - window as real))
  {
    hide Report, Recent, Pruned;
    var cutoff := now - window as real;
    if calls != [] {
      var init, last := calls[..|calls| - 1], calls[|calls| - 1];
      PruningIsInvisible(window, saved, init, now);
      RecentOfOneMore(KeptLog(window, saved, init), EventOf(last), cutoff);
      RecentOfOneMore(FullLog(saved, init), EventOf(last), cutoff);
      RecentOfPruned(KeptLog(window, saved, init) + [EventOf(last)], window, last.prunedAt, cutoff);
    }
  }

  /** Restarting from what was saved after some calls is as if the log had never stopped. */
  lemma {:induction false} RestartIsInvisible(window: int, saved: seq<Event>, before: seq<Recording>, since: seq<Recording>)
    ensures KeptLog(window, KeptLog(window, saved, before), since) == KeptLog(window, saved, before + since)
    ensures FullLog(FullLog(saved, before), since) == FullLog(saved, before + since)
  {
    hide Pruned;
    if since == [] {
      assert before + since == before;
    } else {
      var init, c := since[..|since| - 1], since[|since| - 1];
      RestartIsInvisible(window, saved, before, init);
      assert before + since == (before + init) + [c];
      OneMoreCall(window, saved, before + init, c);
    }
  }

  // ---------- what the report says ----------

  /** Every number of the report is what it is called: the weight, or the count, of the events of that address
      or device. */
  lemma {:induction false} ReportIsTrue(events: seq<Event>, a: string)
    ensures var w := Report(events);
      && w.total == WeightOf(events, (e: Event) => true)
      && Lookup(w.perAddress, a) == WeightOf(events, By(a))
      && w.cpu.total == WeightOf(events, On(Cpu)) && w.gpu.total == WeightOf(events, On(Gpu))
      && Lookup(w.cpu.perAddress, a) == WeightOf(events, ByOn(a, Cpu)) && Lookup(w.gpu.perAddress, a) == WeightOf(events, ByOn(a, Gpu))
      && Lookup(w.cpu.count, a) == CountOf(events, ByOn(a, Cpu)) && Lookup(w.gpu.count, a) == CountOf(events, ByOn(a, Gpu))
  {
    if events != [] { ReportIsTrue(events[..|events| - 1], a); }
  }

  /** The total is the CPU total plus the GPU total, and so for each address. */
  lemma {:induction false} DevicesAddUp(events: seq<Event>, a: string)
    ensures var w := Report(events);
      && w.total == w.cpu.total + w.gpu.total
      && Lookup(w.perAddress, a) == Lookup(w.cpu.perAddress, a) + Lookup(w.gpu.perAddress, a)
  {
    if events != [] { DevicesAddUp(events[..|events| - 1], a); }
  }

  /** The amounts of the listed addresses. */
  function SumOver(keys: seq<string>, m: map<string, nat>): nat {
    if keys == [] then 0 else SumOver(keys[1..], m) + Lookup(m, keys[0])
  }

  predicate Distinct(keys: seq<string>) { keys == [] || (keys[0] !in keys[1..] && Distinct(keys[1..])) }

  lemma {:induction false} SumOverUntouched(keys: seq<string>, m: map<string, nat>, a: string, v: nat)
    requires a !in keys
    ensures SumOver(keys, m[a := v]) == SumOver(keys, m)
  {
    if keys != [] { SumOverUntouched(keys[1..], m, a, v); }
  }

  lemma {:induction false} SumOverRaised(keys: seq<string>, m: map<string, nat>, a: string, d: nat)
    requires Distinct(keys) && a in keys
    ensures SumOver(keys, m[a := Lookup(m, a) + d]) == SumOver(keys, m) + d
  {
    if keys[0] == a {
      SumOverUntouched(keys[1..], m, a, Lookup(m, a) + d);
    } else {
      SumOverRaised(keys[1..], m, a, d);
    }
  }

  lemma {:induction false} SumOverNothing(keys: seq<string>)
    ensures SumOver(keys, map[]) == 0
  {
    if keys != [] { SumOverNothing(keys[1..]); }
  }

  /** The addresses of a report, each once, in the order they first appear. */
  function Addresses(events: seq<Event>): seq<string> {
    if events == [] then []
    else
      WithAddress(Addresses(events[..|events| - 1]), events[|events| - 1].addr)
  }

  lemma {:induction false} DistinctOneMore(keys: seq<string>, a: string)
    requires Distinct(keys) && a !in keys
    ensures Distinct(keys + [a])
  {
    if keys != [] {
      assert (keys + [a])[1..] == keys[1..] + [a];
      DistinctOneMore(keys[1..], a);
    }
  }

  lemma {:induction false} SumOverNewKey(keys: seq<string>, m: map<string, nat>, a: string)
    requires a !in m
    ensures SumOver(keys + [a], m) == SumOver(keys, m)
  {
    if keys == [] {
      assert [a][1..] == [] && [] + [a] == [a];
    } else {
      assert (keys + [a])[1..] == keys[1..] + [a];
      SumOverNewKey(keys[1..], m, a);
    }
  }

  /** They are exactly the addresses the report has amounts for; no device knows any other. */
  lemma {:induction false} AddressesAreListed(events: seq<Event>)
    ensures Distinct(Addresses(events))
    ensures var w := Report(events);
      && (forall a :: a in Addresses(events) <==> a in w.perAddress)
      && (forall a :: a in w.cpu.perAddress || a in w.gpu.perAddress ==> a in w.perAddress)
  {
    hide Distinct, Lookup;
    if events == [] {
      NothingListed();
    } else {
      var init, e := events[..|events| - 1], events[|events| - 1];
      AddressesAreListed(init);
      if e.addr !in Addresses(init) { DistinctOneMore(Addresses(init), e.addr); }
    }
  }

  lemma {:induction false} NothingListed()
    ensures Distinct([])
  {
  }

  function WithAddress(keys: seq<string>, a: string): seq<string> { if a in keys then keys else keys + [a] }

  /** What one more event of address `a` does to a sum over addresses, and what listing `a` alone does not. */
  lemma {:induction false} SumGrows(keys: seq<string>, m: map<string, nat>, a: string, d: nat)
    requires Distinct(keys) && (a !in keys ==> a !in m)
    ensures SumOver(WithAddress(keys, a), m[a := Lookup(m, a) + d]) == SumOver(keys, m) + d
    ensures SumOver(WithAddress(keys, a), m) == SumOver(keys, m)
  {
    hide SumOver, Distinct;
    if a !in keys {
      DistinctOneMore(keys, a);
      SumOverNewKey(keys, m, a);
    }
    SumOverRaised(WithAddress(keys, a), m, a, d);
  }

  predicate SumsHold(w: Window, keys: seq<string>) {
    && w.total == SumOver(keys, w.perAddress)
    && w.cpu.total == SumOver(keys, w.cpu.perAddress) && w.gpu.total == SumOver(keys, w.gpu.perAddress)
  }

  lemma {:induction false} ExtendedKeepsSums(w: Window, keys: seq<string>, e: Event)
    requires SumsHold(w, keys) && Distinct(keys)
    requires e.addr !in keys ==> e.addr !in w.perAddress && e.addr !in w.cpu.perAddress && e.addr !in w.gpu.perAddress
    ensures SumsHold(Extended(w, e), WithAddress(keys, e.addr))
  {
    hide SumOver, Distinct, Lookup, WithAddress;
    SumGrows(keys, w.perAddress, e.addr, e.d);
    SumGrows(keys, w.cpu.perAddress, e.addr, e.d);
    SumGrows(keys, w.gpu.perAddress, e.addr, e.d);
  }

  /** Each total is the sum over the addresses of the report: the whole one and those of both devices. */
  lemma {:induction false} TotalIsSumOverAddresses(events: seq<Event>)
    ensures SumsHold(Report(events), Addresses(events))
  {
    hide SumOver, Distinct, Extended, WithAddress;
    if events == [] {
      SumOverNothing([]);
    } else {
      var init := events[..|events| - 1];
      TotalIsSumOverAddresses(init);
      AddressesAreListed(init);
      ExtendedKeepsSums(Report(init), Addresses(init), events[|events| - 1]);
    }
  }

  // ---------- lifetime totals ----------

  type Totals = map<(string, Device), Lifetime>

  function Plus(t: Lifetime, events: seq<Event>, a: string, dev: Device): Lifetime {
    Lifetime(t.shares + CountOf(events, ByOn(a, dev)), t.weighted + WeightOf(events, ByOn(a, dev)))
  }

  /** The lifetime totals are the loaded ones and those of every event recorded since, pruned or not. */
  ghost predicate TotalsTrue(totals: Totals, saved: Totals, since: seq<Event>) {
    forall a, dev :: LifetimeOf(totals, a, dev) == Plus(LifetimeOf(saved, a, dev), since, a, dev)
  }

  lemma {:induction false} RecordingKeepsTotals(totals: Totals, saved: Totals, since: seq<Event>, e: Event)
    requires TotalsTrue(totals, saved, since)
    ensures var t := LifetimeOf(totals, e.addr, e.dev);
      TotalsTrue(totals[(e.addr, e.dev) := Lifetime(t.shares + 1, t.weighted + e.d)], saved, since + [e])
  {
    hide CountOf, WeightOf, ByOn;
    var t := LifetimeOf(totals, e.addr, e.dev);
    var more := totals[(e.addr, e.dev) := Lifetime(t.shares + 1, t.weighted + e.d)];
    forall a, dev ensures LifetimeOf(more, a, dev) == Plus(LifetimeOf(saved, a, dev), since + [e], a, dev) {
      assert LifetimeOf(totals, a, dev) == Plus(LifetimeOf(saved, a, dev), since, a, dev);
      CountOneMore(since, e, a, dev);
    }
  }

  lemma {:induction false} CountOneMore(since: seq<Event>, e: Event, a: string, dev: Device)
    ensures CountOf(since + [e], ByOn(a, dev)) == CountOf(since, ByOn(a, dev)) + if e.addr == a && e.dev == dev then 1 else 0
    ensures WeightOf(since + [e], ByOn(a, dev)) == WeightOf(since, ByOn(a, dev)) + if e.addr == a && e.dev == dev then e.d else 0
  {
    assert (since + [e])[..|since|] == since;
  }

  /** Totals that are true from one save on, and up to it, are true altogether. */
  lemma {:induction false} TotalsAddUp(totals: Totals, middle: Totals, saved: Totals, before: seq<Event>, since: seq<Event>)
    requires TotalsTrue(middle, saved, before) && TotalsTrue(totals, middle, since)
    ensures TotalsTrue(totals, saved, before + since)
  {
    forall a, dev ensures LifetimeOf(totals, a, dev) == Plus(LifetimeOf(saved, a, dev), before + since, a, dev) {
      assert LifetimeOf(middle, a, dev) == Plus(LifetimeOf(saved, a, dev), before, a, dev);
      assert LifetimeOf(totals, a, dev) == Plus(LifetimeOf(middle, a, dev), since, a, dev);
      CountsAddUp(before, since, ByOn(a, dev));
    }
  }

  lemma {:induction false} CountsAddUp(before: seq<Event>, since: seq<Event>, p: Event -> bool)
    ensures CountOf(before + since, p) == CountOf(before, p) + CountOf(since, p)
    ensures WeightOf(before + since, p) == WeightOf(before, p) + WeightOf(since, p)
  {
    if since == [] {
      assert before + since == before;
    } else {
      CountsAddUp(before, since[..|since| - 1], p);
      assert (before + since)[..|before + since| - 1] == before + since[..|since| - 1];
    }
  }

  // ---------- over the difficulties that were given ----------

  function AnyCall(): Recording -> bool { (c: Recording) => true }
  function CallBy(a: string): Recording -> bool { (c: Recording) => c.addr == a }
  function CallOn(dev: Device): Recording -> bool { (c: Recording) => c.dev == dev }
  function CallByOn(a: string, dev: Device): Recording -> bool { (c: Recording) => c.addr == a && c.dev == dev }

  /** The difficulties of the calls from `cutoff` on that satisfy `p`; a missing or non-positive one is 1. */
  function DifficultySum(calls: seq<Recording>, cutoff: real, p: Recording -> bool): int {
    if calls == [] then 0
    else
      var c := calls[|calls| - 1];
      DifficultySum(calls[..|calls| - 1], cutoff, p) +
        if c.at < cutoff || !p(c) then 0 else if c.diff.Some? && c.diff.value > 0 then c.diff.value else 1
  }

  function CallCount(calls: seq<Recording>, cutoff: real, p: Recording -> bool): int {
    if calls == [] then 0
    else CallCount(calls[..|calls| - 1], cutoff, p) + if calls[|calls| - 1].at < cutoff || !p(calls[|calls| - 1]) then 0 else 1
  }

  /** The events of the window weigh what was loaded and the difficulties that were given. */
  lemma {:induction false} WeightsAreDifficulties(saved: seq<Event>, calls: seq<Recording>, cutoff: real, p: Event -> bool, q: Recording -> bool)
    requires forall c: Recording :: q(c) == p(EventOf(c))
    ensures WeightOf(Recent(FullLog(saved, calls), cutoff), p) == WeightOf(Recent(saved, cutoff), p) + DifficultySum(calls, cutoff, q)
    ensures CountOf(Recent(FullLog(saved, calls), cutoff), p) == CountOf(Recent(saved, cutoff), p) + CallCount(calls, cutoff, q)
  {
    hide Recent;
    if calls != [] {
      var front, c := calls[..|calls| - 1], calls[|calls| - 1];
      WeightsAreDifficulties(saved, front, cutoff, p, q);
      RecentOfOneMore(FullLog(saved, front), EventOf(c), cutoff);
      var before := Recent(FullLog(saved, front), cutoff);
      assert (before + [EventOf(c)])[..|before|] == before;
    }
  }

  /** The report, over what the calls were given: the whole total, those of an address and a device, and the counts. */
  lemma {:induction false} ReportIsDifficulties(calls: seq<Recording>, cutoff: real, a: string)
    ensures var w := Report(Recent(FullLog([], calls), cutoff));
      && w.total == DifficultySum(calls, cutoff, AnyCall())
      && Lookup(w.perAddress, a) == DifficultySum(calls, cutoff, CallBy(a))
      && w.cpu.total == DifficultySum(calls, cutoff, CallOn(Cpu)) && w.gpu.total == DifficultySum(calls, cutoff, CallOn(Gpu))
      && Lookup(w.cpu.perAddress, a) == DifficultySum(calls, cutoff, CallByOn(a, Cpu))
      && Lookup(w.gpu.perAddress, a) == DifficultySum(calls, cutoff, CallByOn(a, Gpu))
      && Lookup(w.cpu.count, a) == CallCount(calls, cutoff, CallByOn(a, Cpu))
      && Lookup(w.gpu.count, a) == CallCount(calls, cutoff, CallByOn(a, Gpu))
  {
    hide Report, WeightOf, CountOf, DifficultySum, CallCount, Recent, FullLog, Weight;
    NothingInWindow(cutoff);
    ReportIsTrue(Recent(FullLog([], calls), cutoff), a);
    WeightsAreDifficulties([], calls, cutoff, (e: Event) => true, AnyCall());
    WeightsAreDifficulties([], calls, cutoff, By(a), CallBy(a));
    WeightsAreDifficulties([], calls, cutoff, On(Cpu), CallOn(Cpu));
    WeightsAreDifficulties([], calls, cutoff, On(Gpu), CallOn(Gpu));
    WeightsAreDifficulties([], calls, cutoff, ByOn(a, Cpu), CallByOn(a, Cpu));
    WeightsAreDifficulties([], calls, cutoff, ByOn(a, Gpu), CallByOn(a, Gpu));
  }

  lemma {:induction false} NothingInWindow(cutoff: real)
    ensures Recent([], cutoff) == [] && forall p :: WeightOf([], p) == 0 && CountOf([], p) == 0
  {
  }

  /** Everything is in a window that begins before it. */
  lemma {:induction false} AllRecent(calls: seq<Recording>, cutoff: real)
    requires forall c :: c in calls ==> c.at >= cutoff
    ensures Recent(FullLog([], calls), cutoff) == FullLog([], calls)
  {
    if calls != [] {
      var front, c := calls[..|calls| - 1], calls[|calls| - 1];
      AllRecent(front, cutoff);
      RecentOfOneMore(FullLog([], front), EventOf(c), cutoff);
    }
  }

  /** True totals are the loaded ones and, for every call since, its difficulty and one share. */
  lemma {:induction false} TotalsAreDifficulties(totals: Totals, saved: Totals, calls: seq<Recording>, early: real, a: string, dev: Device)
    requires TotalsTrue(totals, saved, FullLog([], calls)) && forall c :: c in calls ==> c.at >= early
    ensures var (t, s) := (LifetimeOf(totals, a, dev), LifetimeOf(saved, a, dev));
      && t.weighted == s.weighted + DifficultySum(calls, early, CallByOn(a, dev))
      && t.shares == s.shares + CallCount(calls, early, CallByOn(a, dev))
  {
    hide WeightOf, CountOf, DifficultySum, CallCount, Recent, FullLog, Weight;
    NothingInWindow(early);
    AllRecent(calls, early);
    WeightsAreDifficulties([], calls, early, ByOn(a, dev), CallByOn(a, dev));
    assert LifetimeOf(totals, a, dev) == Plus(LifetimeOf(saved, a, dev), FullLog([], calls), a, dev);
  }

  /** The totals of a log that began empty: an entry has the difficulties and the number of its calls, and who has no
      entry has no calls. */
  lemma {:induction false} TotalsOfAFreshLog(totals: Totals, calls: seq<Recording>, early: real, a: string, dev: Device)
    requires TotalsTrue(totals, map[], FullLog([], calls)) && forall c :: c in calls ==> c.at >= early
    ensures (a, dev) in totals ==>
      totals[(a, dev)].weighted == DifficultySum(calls, early, CallByOn(a, dev)) && totals[(a, dev)].shares == CallCount(calls, early, CallByOn(a, dev))
    ensures (a, dev) !in totals ==> DifficultySum(calls, early, CallByOn(a, dev)) == 0 == CallCount(calls, early, CallByOn(a, dev))
    ensures LifetimeOf(map[], a, dev) == Lifetime(0, 0)
  {
    hide DifficultySum, CallCount, FullLog;
    TotalsAreDifficulties(totals, map[], calls, early, a, dev);
  }

  // ---------- the log ----------

  class Log {
    const window: int
    var totals: Totals
    var events: seq<Event>
    ghost const saved: seq<Event>        // what `load_state` found, or nothing
    ghost const savedTotals: Totals
    ghost var calls: seq<Recording>      // every call of `record_share` since

    /** The log is what the calls left of it, and the totals are the loaded ones and those of every event since. */
    ghost predicate Valid()
      reads this
    {
      events == KeptLog(window, saved, calls) && TotalsTrue(totals, savedTotals, FullLog([], calls))
    }

    /** Either list may be missing from the file; it is empty then. */
    constructor (window: int, saved: seq<Event>, savedTotals: Totals)
      ensures Valid() && totals == savedTotals && events == saved && calls == []
      ensures this.window == window && this.saved == saved && this.savedTotals == savedTotals
    {
      this.window, this.saved, this.savedTotals := window, saved, savedTotals;
      totals, events, calls := savedTotals, saved, [];
    }

    method PruneEvents(now: real)
      modifies `events
      ensures events == Pruned(old(events), window, now)
    {
      var cutoff := now - window as real;
      if |events| > 50000 || (events != [] && events[0].ts < cutoff - 3600.0) {
        var kept := [];
        for i := 0 to |events|
          invariant events == old(events) && kept == Recent(events[..i], cutoff)
        {
          assert events[..i + 1][..i] == events[..i];
          if events[i].ts >= cutoff { kept := kept + [events[i]]; }
        }
        assert events[..|events|] == events;
        events := kept;
      }
    }

    /** `now` is the clock when the event is stamped, `later` when the log is pruned. */
    method RecordShare(addr: string, diff: Option<int>, dev: Device, now: real, later: real)
      requires Valid()
      modifies this
      ensures Valid() && calls == old(calls) + [Recording(addr, diff, dev, now, later)]
      ensures totals.Keys == old(totals).Keys + {(addr, dev)}
    {
      hide Pruned, TotalsTrue, FullLog, KeptLog;
      ghost var e := Event(now, addr, Weight(diff), dev);
      var d := if diff.Some? && diff.value > 0 then diff.value else 1;
      var t := LifetimeOf(totals, addr, dev);
      RecordingKeepsTotals(totals, savedTotals, FullLog([], calls), e);
      OneMoreCall(window, saved, calls, Recording(addr, diff, dev, now, later));
      OneMoreCall(window, [], calls, Recording(addr, diff, dev, now, later));
      totals := totals[(addr, dev) := Lifetime(t.shares + 1, t.weighted + d)];
      events := events + [Event(now, addr, d, dev)];
      calls := calls + [Recording(addr, diff, dev, now, later)];
      PruneEvents(later);
    }

    /** `window_shares`: one pass, skipping what is too old. As long as the clock never ran backwards the
        result is that of the full log, whenever and however often it was pruned. */
    method WindowShares(now: real) returns (w: Window)
      requires Valid()
      ensures w == Report(Recent(events, now - window as real))
      ensures (forall i :: 0 <= i < |calls| ==> calls[i].prunedAt <= now) ==> w == Report(Recent(FullLog(saved, calls), now - window as real))
    {
      hide Recent, Report, AddTo, Lookup, TotalsTrue;
      NothingReported(now - window as real);
      var cutoff := now - window as real;
      var cpu, gpu := Tally(0, map[], map[]), Tally(0, map[], map[]);
      var out: map<string, nat>, total: nat := map[], 0;
      for i := 0 to |events|
        invariant Window(total, out, cpu, gpu) == Report(Recent(events[..i], cutoff))
      {
        var e := events[i];
        assert events[..i + 1] == events[..i] + [e];
        RecentOfOneMore(events[..i], e, cutoff);
        if e.ts < cutoff { continue; }
        ReportOfOneMore(Recent(events[..i], cutoff), e);
        if e.dev == Gpu { gpu := AddTo(gpu, e); } else { cpu := AddTo(cpu, e); }
        out := out[e.addr := Lookup(out, e.addr) + e.d];
        total := total + e.d;
      }
      assert events[..|events|] == events;
      w := Window(total, out, cpu, gpu);
      if forall i :: 0 <= i < |calls| ==> calls[i].prunedAt <= now { PruningIsInvisible(window, saved, calls, now); }
    }
  }
}
