/** Booking treasury inflows from chain events, and handing them out epoch by epoch. */
module Inflow {
  import opened Money

  /** A transfer to the treasury, with its 18-decimal amount; `key` is transaction hash and log index. */
  datatype Log = Log(block: int, key: string, data: nat)

  const TEN12: nat := 1_000_000_000_000
  const SEEN_MAX: nat := 500

  /** 18 to 6 decimals. */
  function Amount(l: Log): nat { l.data / TEN12 }

  datatype Config = Config(confirmations: int, chunk: int)

  /** One entry of a response; a garbled one makes the booking loop raise when it is reached. */
  datatype Entry = Entry(log: Log, garbled: bool)

  datatype Response =
    | NoBlockNumber
    | NoLogs(latest: int)
    | Logs(latest: int, entries: seq<Entry>)

  /** The persistent watch state, and as history the block the watch started at, every booking of every key,
      and the amount handed out. */
  datatype Watch = Watch(last: int, pending6: nat, seen: seq<string>, start: int, booked: multiset<string>, distributed: nat)

  const NEW_WATCH := Watch(0, 0, [], 0, multiset{}, 0)

  function WindowEnd(cfg: Config, last: int, latest: int): int {
    var (safe, end) := (latest - cfg.confirmations, last + cfg.chunk);
    if safe < end then safe else end
  }

  function BookOne(w: Watch, l: Log): Watch {
    if l.key in w.seen || Amount(l) == 0 then w
    else w.(pending6 := w.pending6 + Amount(l), seen := w.seen + [l.key], booked := w.booked + multiset{l.key})
  }

  datatype Booking = Booking(w: Watch, raised: bool)

  /** The loop over the first `k` entries. */
  function BookAll(w: Watch, es: seq<Entry>, k: nat): Booking
    requires k <= |es|
  {
    if k == 0 then Booking(w, false)
    else
      var b, e := BookAll(w, es, k - 1), es[k - 1];
      if b.raised then b
      else if e.garbled && e.log.key !in b.w.seen then Booking(b.w, true)
      else Booking(BookOne(b.w, e.log), false)
  }

  /** The last 500 keys. */
  function Ring(seen: seq<string>): seq<string> {
    if |seen| > SEEN_MAX then seen[|seen| - SEEN_MAX..] else seen
  }

  function Scan(cfg: Config, w: Watch, r: Response): Watch {
    if r.NoBlockNumber? then w
    else if w.last <= 0 then w.(last := r.latest - cfg.confirmations, start := r.latest - cfg.confirmations)
    else if w.last + 1 > r.latest - cfg.confirmations || r.NoLogs? then w
    else
      var b := BookAll(w, r.entries, |r.entries|);
      if b.raised then b.w
      else b.w.(seen := Ring(b.w.seen), last := WindowEnd(cfg, w.last, r.latest))
  }

  /** An epoch: the scan, then, when somebody was paid, the pot is handed out. A raise in the scan ends the
      epoch. */
  function Epoch(cfg: Config, w: Watch, r: Response, attributed: bool): Watch {
    var t := Scan(cfg, w, r);
    if Raises(cfg, w, r) || !attributed then t else t.(pending6 := 0, distributed := t.distributed + t.pending6)
  }

  predicate Raises(cfg: Config, w: Watch, r: Response) {
    r.Logs? && w.last > 0 && w.last + 1 <= r.latest - cfg.confirmations && BookAll(w, r.entries, |r.entries|).raised
  }

  // ---------- the code ----------

  class BscWatch {
    const cfg: Config
    var lastBlock: int
    var pending6: nat
    var seen: seq<string>
    ghost var start: int
    ghost var booked: multiset<string>
    ghost var distributed: nat

    ghost function State(): Watch
      reads this
    {
      Watch(lastBlock, pending6, seen, start, booked, distributed)
    }

    constructor (cfg: Config)
      ensures State() == NEW_WATCH && this.cfg == cfg
    {
      this.cfg := cfg;
      lastBlock, pending6, seen := 0, 0, [];
      start, booked, distributed := 0, multiset{}, 0;
    }

    /** The loop over the response; it raises at a garbled entry it has not seen. */
    method BookEntries(entries: seq<Entry>) returns (raised: bool)
      modifies this
      ensures BookAll(old(State()), entries, |entries|) == Booking(State(), raised)
    {
      raised := false;
      ghost var w := State();
      for i := 0 to |entries|
        invariant !raised && BookAll(w, entries, i) == Booking(State(), false)
      {
        var e := entries[i];
        if e.log.key in seen { continue; }
        if e.garbled {
          RaisedStays(w, entries, i + 1, |entries|);
          return true;
        }
        var amt6 := e.log.data / TEN12;
        if amt6 <= 0 { continue; }
        pending6 := pending6 + amt6;
        seen := seen + [e.log.key];
        booked := booked + multiset{e.log.key};
      }
    }

    method ScanInflows(r: Response) returns (raised: bool)
      modifies this
      ensures State() == Scan(cfg, old(State()), r) && raised == Raises(cfg, old(State()), r)
    {
      hide BookAll;
      raised := false;
      if r.NoBlockNumber? { return; }
      var safeTo := r.latest - cfg.confirmations;
      if lastBlock <= 0 {
        lastBlock := safeTo;
        start := safeTo;
        return;
      }
      var frm := lastBlock + 1;
      if frm > safeTo || r.NoLogs? { return; }
      var to := if safeTo < frm + cfg.chunk - 1 then safeTo else frm + cfg.chunk - 1;
      raised := BookEntries(r.entries);
      if raised { return; }
      if |seen| > SEEN_MAX { seen := seen[|seen| - SEEN_MAX..]; }
      lastBlock := to;
    }

    /** `real_usdt_epoch_value`: the undistributed pot in USD after a scan. */
    method RealUsdtEpochValue(r: Response) returns (usd: real, raised: bool)
      modifies this
      ensures State() == Scan(cfg, old(State()), r) && raised == Raises(cfg, old(State()), r)
      ensures usd == pending6 as real / 1000000.0
    {
      raised := ScanInflows(r);
      usd := pending6 as real / 1000000.0;
    }

    /** The part of `step` around it: the pot shrinks by the epoch's value only when it was attributed. */
    method RunEpoch(r: Response, attributed: bool)
      modifies this
      ensures State() == Epoch(cfg, old(State()), r, attributed)
    {
      hide Scan, Raises;
      var epochUsd, raised := RealUsdtEpochValue(r);
      if raised { return; }
      if attributed && epochUsd > 0.0 {
        RoundOfScaled(pending6);
        var paid := Round(epochUsd * 1000000.0);
        distributed := distributed + pending6;
        pending6 := AtLeastZero(pending6 - paid);
      }
    }
  }

  lemma {:induction false} RaisedStays(w: Watch, es: seq<Entry>, k: nat, n: nat)
    requires k <= n <= |es| && BookAll(w, es, k).raised
    ensures BookAll(w, es, n) == BookAll(w, es, k)
    decreases n
  {
    if k < n { RaisedStays(w, es, k, n - 1); }
  }

  /** An entry makes the loop raise exactly when it is garbled and its key is not held when it is reached. */
  lemma {:induction false} RaisesExactlyWhen(w: Watch, es: seq<Entry>, k: nat)
    requires k <= |es|
    ensures BookAll(w, es, k).raised <==> exists i :: 0 <= i < k && !BookAll(w, es, i).raised && es[i].garbled && es[i].log.key !in BookAll(w, es, i).w.seen
  {
    hide BookOne;
    if k > 0 { RaisesExactlyWhen(w, es, k - 1); }
  }

  /** An epoch hands out the whole pot exactly when somebody was paid and the scan did not raise; otherwise nothing. */
  lemma {:induction false} HandedOutExactlyWhen(cfg: Config, w: Watch, r: Response, attributed: bool)
    ensures var (t, u) := (Scan(cfg, w, r), Epoch(cfg, w, r, attributed));
      if attributed && !(Loops(cfg, w, r) && BookAll(w, r.entries, |r.entries|).raised)
      then u == t.(pending6 := 0, distributed := t.distributed + t.pending6) else u == t
  {
    hide Scan, BookAll;
  }

  /** Amounts are cut from 18 decimals to 6. */
  lemma {:induction false} AmountIs(l: Log)
    ensures 1_000_000_000_000 * Amount(l) <= l.data < 1_000_000_000_000 * (Amount(l) + 1)
  {
  }

  // ---------- what is booked, and how often ----------

  /** The chain: every treasury transfer there will ever be, each with its own key. */
  ghost predicate IsChain(chain: seq<Log>) {
    forall i, j :: 0 <= i < j < |chain| ==> chain[i].key != chain[j].key
  }

  /** The response lists the transfers of the requested blocks, all of them and no others, in any order and
      perhaps repeatedly. Nothing is said about the head it reports. */
  ghost predicate Truthful(chain: seq<Log>, cfg: Config, w: Watch, r: Response) {
    r.Logs? && w.last > 0 ==>
      && (forall e :: e in r.entries ==> e.log in chain && w.last < e.log.block <= WindowEnd(cfg, w.last, r.latest))
      && (forall l :: l in chain && w.last < l.block <= WindowEnd(cfg, w.last, r.latest) ==> exists i :: 0 <= i < |r.entries| && r.entries[i].log == l)
  }

  /** The scan gets to its loop, and to the end of it. */
  predicate Loops(cfg: Config, w: Watch, r: Response) { r.Logs? && w.last > 0 && w.last + 1 <= r.latest - cfg.confirmations }

  predicate Finishes(cfg: Config, w: Watch, r: Response) { Loops(cfg, w, r) && !BookAll(w, r.entries, |r.entries|).raised }

  /** The scan finishes a window that ends below `l`, and the ring drops the key `l` was booked under. */
  predicate Loses(cfg: Config, w: Watch, r: Response, l: Log) {
    && Finishes(cfg, w, r) && WindowEnd(cfg, w.last, r.latest) < l.block
    && var seen := BookAll(w, r.entries, |r.entries|).w.seen; l.key in seen && l.key !in Ring(seen)
  }

  /** A log counts as taken when the watch is past it, or holds its key. */
  predicate Taken(w: Watch, l: Log) {
    w.last > 0 && w.start < l.block && Amount(l) > 0 && (l.block <= w.last || l.key in w.seen)
  }

  ghost predicate Distinct(seen: seq<string>) { forall i, j :: 0 <= i < j < |seen| ==> seen[i] != seen[j] }

  ghost predicate SeenFine(chain: seq<Log>, w: Watch) {
    && Distinct(w.seen)
    && (w.last <= 0 ==> w.seen == []) && (w.last > 0 ==> w.start <= w.last)
    && forall l :: l in chain && l.key in w.seen ==> w.start < l.block && Amount(l) > 0
  }

  lemma {:induction false} SameKeySameLog(chain: seq<Log>, a: Log, b: Log)
    requires IsChain(chain) && a in chain && b in chain && a.key == b.key
    ensures a == b
  {
    var i :| 0 <= i < |chain| && chain[i] == a;
    var j :| 0 <= j < |chain| && chain[j] == b;
  }

  /** The loop: keys are appended, each is booked when it is appended, and it comes from one of the entries. */
  lemma {:induction false} BookAllCounts(w: Watch, es: seq<Entry>, k: nat, key: string)
    requires k <= |es| && Distinct(w.seen)
    ensures var b := BookAll(w, es, k).w;
      && w.seen <= b.seen && Distinct(b.seen) && b.last == w.last && b.start == w.start
      && b.booked[key] == w.booked[key] + (if key !in w.seen && key in b.seen then 1 else 0)
      && (key !in w.seen && key in b.seen ==> exists i :: 0 <= i < k && es[i].log.key == key && Amount(es[i].log) > 0)
  {
    hide Amount, BookOne, Distinct;
    if k > 0 {
      BookAllCounts(w, es, k - 1, key);
      BookOneCounts(BookAll(w, es, k - 1).w, es[k - 1].log, key);
    }
  }

  /** A loop that ran to its end holds the key of every entry that carries an amount. */
  lemma {:induction false} BookAllHolds(w: Watch, es: seq<Entry>, k: nat)
    requires k <= |es| && Distinct(w.seen)
    ensures Distinct(BookAll(w, es, k).w.seen)
    ensures !BookAll(w, es, k).raised ==> forall i :: 0 <= i < k && Amount(es[i].log) > 0 ==> es[i].log.key in BookAll(w, es, k).w.seen
  {
    hide Amount, BookOne, Distinct;
    if k > 0 {
      BookAllHolds(w, es, k - 1);
      BookOneCounts(BookAll(w, es, k - 1).w, es[k - 1].log, es[k - 1].log.key);
    }
  }

  lemma {:induction false} BookOneCounts(w: Watch, l: Log, key: string)
    requires Distinct(w.seen)
    ensures var b := BookOne(w, l);
      && w.seen <= b.seen && Distinct(b.seen) && b.last == w.last && b.start == w.start
      && b.booked[key] == w.booked[key] + (if key !in w.seen && key in b.seen then 1 else 0)
      && (key !in w.seen && key in b.seen ==> l.key == key && Amount(l) > 0)
      && (Amount(l) > 0 ==> l.key in b.seen)
  {
    hide Amount;
  }

  lemma {:induction false} RingKeepsOrder(seen: seq<string>)
    ensures |Ring(seen)| <= SEEN_MAX && (forall k :: k in Ring(seen) ==> k in seen)
    ensures Distinct(seen) ==> Distinct(Ring(seen))
    ensures forall i :: 0 <= i < |seen| && |seen| <= i + SEEN_MAX ==> seen[i] in Ring(seen)
  {
    if |seen| > SEEN_MAX {
      var d := |seen| - SEEN_MAX;
      forall i | 0 <= i < |seen| && |seen| <= i + SEEN_MAX ensures seen[i] in Ring(seen) { assert Ring(seen)[i - d] == seen[i]; }
    }
  }

  /** A key falls out of the ring exactly when 500 or more keys were booked after it. */
  lemma {:induction false} DroppedWhenFiveHundredNewer(seen: seq<string>, i: nat)
    requires Distinct(seen) && i < |seen|
    ensures seen[i] !in Ring(seen) <==> i + 500 < |seen|
  {
    RingKeepsOrder(seen);
    if i + SEEN_MAX < |seen| {
      forall j | 0 <= j < |Ring(seen)| ensures Ring(seen)[j] != seen[i] { assert Ring(seen)[j] == seen[j + |seen| - SEEN_MAX]; }
    }
  }

  /** A key that the loop appended belongs to a log of the window. */
  lemma {:induction false} NewKeyInWindow(chain: seq<Log>, cfg: Config, w: Watch, r: Response, l: Log)
    requires IsChain(chain) && Truthful(chain, cfg, w, r) && Loops(cfg, w, r) && Distinct(w.seen) && l in chain
    requires l.key !in w.seen && l.key in BookAll(w, r.entries, |r.entries|).w.seen
    ensures w.last < l.block <= WindowEnd(cfg, w.last, r.latest) && Amount(l) > 0
  {
    hide BookAll;
    BookAllCounts(w, r.entries, |r.entries|, l.key);
    var i :| 0 <= i < |r.entries| && r.entries[i].log.key == l.key && Amount(r.entries[i].log) > 0;
    assert r.entries[i] in r.entries;
    SameKeySameLog(chain, l, r.entries[i].log);
  }

  lemma {:induction false} ScanKeepsSeenFine(chain: seq<Log>, cfg: Config, w: Watch, r: Response)
    requires IsChain(chain) && cfg.chunk >= 1 && Truthful(chain, cfg, w, r) && SeenFine(chain, w)
    ensures SeenFine(chain, Scan(cfg, w, r))
  {
    hide BookAll, Ring, Amount;
    if Loops(cfg, w, r) {
      var b := BookAll(w, r.entries, |r.entries|).w;
      BookAllCounts(w, r.entries, |r.entries|, "");
      RingKeepsOrder(b.seen);
      forall l | l in chain && l.key in b.seen ensures w.start < l.block && Amount(l) > 0 {
        if l.key !in w.seen { NewKeyInWindow(chain, cfg, w, r, l); }
      }
    }
  }

  /** One scan, one log: it is booked once more exactly when it becomes taken, or is lost. */
  lemma {:induction false} ScanCounts(chain: seq<Log>, cfg: Config, w: Watch, r: Response, l: Log)
    requires IsChain(chain) && cfg.chunk >= 1 && Truthful(chain, cfg, w, r) && SeenFine(chain, w) && l in chain
    ensures var t := Scan(cfg, w, r);
      t.booked[l.key] + (if Taken(w, l) then 1 else 0) ==
      w.booked[l.key] + (if Taken(t, l) then 1 else 0) + (if Loses(cfg, w, r, l) then 1 else 0)
  {
    hide BookAll, Ring, Amount;
    if Loops(cfg, w, r) {
      var b := BookAll(w, r.entries, |r.entries|);
      BookAllCounts(w, r.entries, |r.entries|, l.key);
      RingKeepsOrder(b.w.seen);
      if l.key !in w.seen && l.key in b.w.seen { NewKeyInWindow(chain, cfg, w, r, l); }
      if !b.raised && w.last < l.block <= WindowEnd(cfg, w.last, r.latest) && Amount(l) > 0 {
        var i :| 0 <= i < |r.entries| && r.entries[i].log == l;
        BookAllHolds(w, r.entries, |r.entries|);
        assert l.key in b.w.seen;
      }
    }
  }

  // ---------- whole runs ----------

  /** One epoch of the agent: what the RPC answered, and whether anybody was paid. */
  datatype Turn = Turn(r: Response, attributed: bool)

  function Run(cfg: Config, rounds: seq<Turn>): Watch {
    if rounds == [] then NEW_WATCH
    else Epoch(cfg, Run(cfg, rounds[..|rounds| - 1]), rounds[|rounds| - 1].r, rounds[|rounds| - 1].attributed)
  }

  ghost predicate TruthfulRun(chain: seq<Log>, cfg: Config, rounds: seq<Turn>) {
    rounds == [] || (TruthfulRun(chain, cfg, rounds[..|rounds| - 1])
                     && Truthful(chain, cfg, Run(cfg, rounds[..|rounds| - 1]), rounds[|rounds| - 1].r))
  }

  /** How many times in the run the ring lost the key of a log booked ahead. */
  function Losses(cfg: Config, rounds: seq<Turn>, l: Log): nat {
    if rounds == [] then 0
    else
      var init := rounds[..|rounds| - 1];
      Losses(cfg, init, l) + if Loses(cfg, Run(cfg, init), rounds[|rounds| - 1].r, l) then 1 else 0
  }

  lemma {:induction false} RunKeepsSeenFine(chain: seq<Log>, cfg: Config, rounds: seq<Turn>)
    requires IsChain(chain) && cfg.chunk >= 1 && TruthfulRun(chain, cfg, rounds)
    ensures SeenFine(chain, Run(cfg, rounds))
  {
    hide Scan, Raises, Truthful, SeenFine;
    if rounds == [] {
      NewIsFine(chain);
    } else {
      var init, last := rounds[..|rounds| - 1], rounds[|rounds| - 1];
      RunKeepsSeenFine(chain, cfg, init);
      ScanKeepsSeenFine(chain, cfg, Run(cfg, init), last.r);
      SameForPot(chain, Scan(cfg, Run(cfg, init), last.r), Run(cfg, rounds));
    }
  }

  lemma {:induction false} NewIsFine(chain: seq<Log>)
    ensures SeenFine(chain, NEW_WATCH)
  {
  }

  /** Handing out the pot touches nothing the bookings depend on. */
  lemma {:induction false} SameForPot(chain: seq<Log>, t: Watch, u: Watch)
    requires u == t.(pending6 := u.pending6, distributed := u.distributed)
    ensures SeenFine(chain, t) ==> SeenFine(chain, u)
    ensures forall l :: Taken(t, l) == Taken(u, l)
  {
  }

  /** The law of the scanner, for every run and every log: it has been booked once for every time its key was
      lost, and once more when it is taken. */
  lemma {:induction false} BookedOncePlusLosses(chain: seq<Log>, cfg: Config, rounds: seq<Turn>, l: Log)
    requires IsChain(chain) && cfg.chunk >= 1 && TruthfulRun(chain, cfg, rounds) && l in chain
    ensures var w := Run(cfg, rounds);
      w.booked[l.key] == Losses(cfg, rounds, l) + if Taken(w, l) then 1 else 0
  {
    hide Scan, Raises, Truthful, SeenFine, Loses, Taken;
    if rounds == [] {
      NothingTaken(l);
    } else {
      var init, last := rounds[..|rounds| - 1], rounds[|rounds| - 1];
      BookedOncePlusLosses(chain, cfg, init, l);
      RunKeepsSeenFine(chain, cfg, init);
      ScanCounts(chain, cfg, Run(cfg, init), last.r, l);
      SameForPot(chain, Scan(cfg, Run(cfg, init), last.r), Run(cfg, rounds));
    }
  }

  lemma {:induction false} NothingTaken(l: Log)
    ensures !Taken(NEW_WATCH, l) && NEW_WATCH.booked[l.key] == 0
  {
  }

  /** Double booking, exactly: a log the watch is past has been booked more than once if and only if, at some
      turn, a finished window ended below it while its key was held and had 500 or more newer keys behind it. */
  lemma {:induction false} DoubledExactlyWhenLost(chain: seq<Log>, cfg: Config, rounds: seq<Turn>, l: Log)
    requires IsChain(chain) && cfg.chunk >= 1 && TruthfulRun(chain, cfg, rounds) && l in chain
    requires Run(cfg, rounds).start < l.block <= Run(cfg, rounds).last && Run(cfg, rounds).last > 0 && Amount(l) > 0
    ensures Run(cfg, rounds).booked[l.key] >= 1
    ensures Run(cfg, rounds).booked[l.key] > 1 <==>
      exists n :: 0 <= n < |rounds| && Loses(cfg, Run(cfg, rounds[..n]), rounds[n].r, l)
  {
    hide Loses, Run;
    BookedOncePlusLosses(chain, cfg, rounds, l);
    LostSomewhere(cfg, rounds, l);
  }

  lemma {:induction false} LostSomewhere(cfg: Config, rounds: seq<Turn>, l: Log)
    ensures Losses(cfg, rounds, l) > 0 <==> exists n :: 0 <= n < |rounds| && Loses(cfg, Run(cfg, rounds[..n]), rounds[n].r, l)
  {
    hide Loses, Run;
    if rounds != [] {
      var m := |rounds| - 1;
      LostSomewhere(cfg, rounds[..m], l);
      if n :| 0 <= n < m && Loses(cfg, Run(cfg, rounds[..m][..n]), rounds[..m][n].r, l) { assert rounds[..m][..n] == rounds[..n]; }
      if n :| 0 <= n < |rounds| && Loses(cfg, Run(cfg, rounds[..n]), rounds[n].r, l) {
        if n < m { assert rounds[..m][..n] == rounds[..n] && rounds[..m][n] == rounds[n]; }
      }
    }
  }

  // ---------- the amounts ----------

  /** `f(l)` times the amount of each log, over the chain. */
  function Total(chain: seq<Log>, f: Log -> nat): nat {
    if chain == [] then 0
    else Total(chain[..|chain| - 1], f) + f(chain[|chain| - 1]) * Amount(chain[|chain| - 1])
  }

  function Times(keys: multiset<string>): Log -> nat { (l: Log) => keys[l.key] }

  function Once(p: Log -> bool): Log -> nat { (l: Log) => if p(l) then 1 else 0 }

  function Between(start: int, last: int): Log -> bool { (l: Log) => start < l.block <= last }

  function Ahead(w: Watch): Log -> bool { (l: Log) => l.block > w.last && l.key in w.seen }

  function LossesIn(cfg: Config, rounds: seq<Turn>): Log -> nat { (l: Log) => Losses(cfg, rounds, l) }

  lemma {:induction false} TotalSame(chain: seq<Log>, f: Log -> nat, g: Log -> nat)
    requires forall l :: l in chain ==> f(l) == g(l) || Amount(l) == 0
    ensures Total(chain, f) == Total(chain, g)
  {
    if chain != [] {
      var init, last := chain[..|chain| - 1], chain[|chain| - 1];
      assert forall l :: l in init ==> l in chain;
      assert last in chain;
      TotalSame(init, f, g);
    }
  }

  lemma {:induction false} TotalSplits(chain: seq<Log>, f: Log -> nat, g: Log -> nat, h: Log -> nat, k: Log -> nat)
    requires forall l :: l in chain ==> f(l) == g(l) + h(l) + k(l) || Amount(l) == 0
    ensures Total(chain, f) == Total(chain, g) + Total(chain, h) + Total(chain, k)
  {
    hide Amount;
    if chain != [] {
      var init, last := chain[..|chain| - 1], chain[|chain| - 1];
      assert forall l :: l in init ==> l in chain;
      assert last in chain;
      TotalSplits(init, f, g, h, k);
      Distribute(f(last), g(last), h(last), k(last), Amount(last));
    }
  }

  lemma {:induction false} Distribute(f: nat, g: nat, h: nat, k: nat, a: nat)
    requires f == g + h + k || a == 0
    ensures f * a == g * a + h * a + k * a
  {
  }

  lemma {:induction false} TotalIsNothing(chain: seq<Log>, f: Log -> nat)
    ensures Total(chain, f) == 0 <==> forall l :: l in chain ==> f(l) == 0 || Amount(l) == 0
  {
    hide Amount;
    if chain != [] {
      var init, last := chain[..|chain| - 1], chain[|chain| - 1];
      assert forall l :: l in chain <==> l in init || l == last;
      TotalIsNothing(init, f);
      ProductIsNothing(f(last), Amount(last));
    }
  }

  lemma {:induction false} ProductIsNothing(x: nat, y: nat)
    ensures x * y == 0 <==> x == 0 || y == 0
  {
  }

  /** Booking one key more adds exactly that log's amount. */
  lemma {:induction false} TotalOneMore(chain: seq<Log>, keys: multiset<string>, l: Log)
    requires IsChain(chain) && l in chain
    ensures Total(chain, Times(keys + multiset{l.key})) == Total(chain, Times(keys)) + Amount(l)
  {
    hide Amount;
    var init, last := chain[..|chain| - 1], chain[|chain| - 1];
    if last == l {
      forall m | m in init ensures (keys + multiset{l.key})[m.key] == keys[m.key] {
        var i :| 0 <= i < |init| && init[i] == m;
        assert chain[i].key != chain[|chain| - 1].key;
      }
      TotalSame(init, Times(keys + multiset{l.key}), Times(keys));
      OneMoreTime(keys[l.key], Amount(l));
    } else {
      var i :| 0 <= i < |chain| && chain[i] == l;
      assert init[i] == l;
      assert chain[i].key != chain[|chain| - 1].key;
      TotalOneMore(chain[..|chain| - 1], keys, l);
    }
  }

  lemma {:induction false} OneMoreTime(n: nat, a: nat)
    ensures (n + 1) * a == n * a + a
  {
  }

  ghost predicate PotIsBooked(chain: seq<Log>, w: Watch) {
    w.pending6 + w.distributed == Total(chain, Times(w.booked))
  }

  lemma {:induction false} BookAllKeepsPot(chain: seq<Log>, w: Watch, es: seq<Entry>, k: nat)
    requires IsChain(chain) && PotIsBooked(chain, w) && k <= |es| && forall e :: e in es ==> e.log in chain
    ensures PotIsBooked(chain, BookAll(w, es, k).w)
  {
    hide Amount;
    if k > 0 {
      BookAllKeepsPot(chain, w, es, k - 1);
      assert es[k - 1] in es;
      TotalOneMore(chain, BookAll(w, es, k - 1).w.booked, es[k - 1].log);
    }
  }

  lemma {:induction false} EpochKeepsPot(chain: seq<Log>, cfg: Config, w: Watch, r: Response, attributed: bool)
    requires IsChain(chain) && Truthful(chain, cfg, w, r) && PotIsBooked(chain, w)
    ensures PotIsBooked(chain, Epoch(cfg, w, r, attributed))
  {
    hide BookAll, Ring, Total, WindowEnd;
    if Loops(cfg, w, r) { BookAllKeepsPot(chain, w, r.entries, |r.entries|); }
  }

  lemma {:induction false} RunKeepsPot(chain: seq<Log>, cfg: Config, rounds: seq<Turn>)
    requires IsChain(chain) && TruthfulRun(chain, cfg, rounds)
    ensures PotIsBooked(chain, Run(cfg, rounds))
  {
    hide Epoch, Truthful;
    if rounds == [] {
      TotalIsNothing(chain, Times(multiset{}));
    } else {
      var init, last := rounds[..|rounds| - 1], rounds[|rounds| - 1];
      RunKeepsPot(chain, cfg, init);
      EpochKeepsPot(chain, cfg, Run(cfg, init), last.r, last.attributed);
    }
  }

  /** Exactly once. Over every run, whatever heads are reported and wherever scans are cut off: pending plus
      distributed is the sum over the distinct treasury transfers after the start block up to `last_block`, of
      the amount divided by 10^12, plus what an interrupted scan booked ahead of `last_block` and still holds
      the key of, plus once more every amount whose key the ring lost. It is exact if and only if no key was
      lost. */
  lemma {:induction false} ExactlyOnce(chain: seq<Log>, cfg: Config, rounds: seq<Turn>)
    requires IsChain(chain) && cfg.chunk >= 1 && TruthfulRun(chain, cfg, rounds)
    ensures var w := Run(cfg, rounds);
      var due := if w.last <= 0 then 0 else Total(chain, Once(Between(w.start, w.last))) + Total(chain, Once(Ahead(w)));
      && w.pending6 + w.distributed == due + Total(chain, LossesIn(cfg, rounds))
      && (w.pending6 + w.distributed == due <==> forall l :: l in chain ==> Losses(cfg, rounds, l) == 0)
  {
    hide Run, TruthfulRun, Amount, Losses;
    var w := Run(cfg, rounds);
    RunKeepsPot(chain, cfg, rounds);
    RunKeepsSeenFine(chain, cfg, rounds);
    forall l | l in chain ensures w.booked[l.key] == Losses(cfg, rounds, l) + if Taken(w, l) then 1 else 0 {
      BookedOncePlusLosses(chain, cfg, rounds, l);
    }
    var none := (l: Log) => 0;
    TotalIsNothing(chain, none);
    TotalIsNothing(chain, LossesIn(cfg, rounds));
    forall l | l in chain && Amount(l) == 0 ensures Losses(cfg, rounds, l) == 0 { OnlyAmountsAreLost(chain, cfg, rounds, l); }
    if w.last <= 0 {
      TotalSplits(chain, Times(w.booked), none, none, LossesIn(cfg, rounds));
    } else {
      TotalSplits(chain, Times(w.booked), Once(Between(w.start, w.last)), Once(Ahead(w)), LossesIn(cfg, rounds));
    }
  }

  lemma {:induction false} OnlyAmountsAreLost(chain: seq<Log>, cfg: Config, rounds: seq<Turn>, l: Log)
    requires IsChain(chain) && cfg.chunk >= 1 && TruthfulRun(chain, cfg, rounds) && l in chain && Amount(l) == 0
    ensures Losses(cfg, rounds, l) == 0
  {
    hide Amount, Ring;
    if rounds != [] {
      var init, r := rounds[..|rounds| - 1], rounds[|rounds| - 1].r;
      OnlyAmountsAreLost(chain, cfg, init, l);
      if Loses(cfg, Run(cfg, init), r, l) {
        hide BookAll;
        RunKeepsSeenFine(chain, cfg, init);
        if l.key !in Run(cfg, init).seen { NewKeyInWindow(chain, cfg, Run(cfg, init), r, l); }
        assert false;
      }
    }
  }

  // ---------- when nothing is lost ----------

  /** No response was garbled. */
  predicate Clean(rounds: seq<Turn>) {
    forall t :: t in rounds && t.r.Logs? ==> forall e :: e in t.r.entries ==> !e.garbled
  }

  lemma {:induction false} NeverRaised(w: Watch, es: seq<Entry>, k: nat)
    requires k <= |es| && forall e :: e in es ==> !e.garbled
    ensures !BookAll(w, es, k).raised
  {
    if k > 0 { NeverRaised(w, es, k - 1); }
  }

  /** Without a garbled entry nothing is booked ahead and nothing is lost, whatever heads are reported. */
  lemma {:induction false} CleanLosesNothing(chain: seq<Log>, cfg: Config, rounds: seq<Turn>)
    requires IsChain(chain) && cfg.chunk >= 1 && TruthfulRun(chain, cfg, rounds) && Clean(rounds)
    ensures forall l :: l in chain && l.key in Run(cfg, rounds).seen ==> l.block <= Run(cfg, rounds).last
    ensures forall l :: l in chain ==> Losses(cfg, rounds, l) == 0
  {
    hide Ring, BookAll;
    if rounds != [] {
      var init, t := rounds[..|rounds| - 1], rounds[|rounds| - 1];
      assert t in rounds && forall x :: x in init ==> x in rounds;
      CleanLosesNothing(chain, cfg, init);
      RunKeepsSeenFine(chain, cfg, init);
      var w := Run(cfg, init);
      if Loops(cfg, w, t.r) {
        var b := BookAll(w, t.r.entries, |t.r.entries|);
        NeverRaised(w, t.r.entries, |t.r.entries|);
        RingKeepsOrder(b.w.seen);
        forall l | l in chain && l.key in b.w.seen ensures l.block <= WindowEnd(cfg, w.last, t.r.latest) {
          if l.key !in w.seen { NewKeyInWindow(chain, cfg, w, t.r, l); }
        }
      }
    }
  }

  /** Exactly once, unconditionally on the heads: when no response is garbled, pending plus distributed is the
      sum over the distinct treasury transfers between the start block and `last_block`. */
  lemma {:induction false} CleanRunIsExact(chain: seq<Log>, cfg: Config, rounds: seq<Turn>)
    requires IsChain(chain) && cfg.chunk >= 1 && TruthfulRun(chain, cfg, rounds) && Clean(rounds)
    ensures var w := Run(cfg, rounds);
      w.pending6 + w.distributed == if w.last <= 0 then 0 else Total(chain, Once(Between(w.start, w.last)))
  {
    hide Run, TruthfulRun, Losses;
    CleanLosesNothing(chain, cfg, rounds);
    ExactlyOnce(chain, cfg, rounds);
    TotalIsNothing(chain, Once(Ahead(Run(cfg, rounds))));
  }

  predicate HasHead(r: Response) { !r.NoBlockNumber? }

  /** Every head is at least as high as all before it. */
  predicate SteadyHead(rounds: seq<Turn>) {
    forall i, j :: 0 <= i < j < |rounds| && HasHead(rounds[i].r) && HasHead(rounds[j].r) ==> rounds[i].r.latest <= rounds[j].r.latest
  }

  /** Also with garbled entries nothing is lost as long as the reported head never goes back. */
  lemma {:induction false} SteadyHeadLosesNothing(chain: seq<Log>, cfg: Config, rounds: seq<Turn>, l: Log)
    requires IsChain(chain) && cfg.chunk >= 1 && TruthfulRun(chain, cfg, rounds) && SteadyHead(rounds) && l in chain
    ensures Losses(cfg, rounds, l) == 0
    ensures var w := Run(cfg, rounds);
      l.key in w.seen && l.block > w.last ==>
        exists i :: 0 <= i < |rounds| && HasHead(rounds[i].r) && l.block <= WindowEnd(cfg, w.last, rounds[i].r.latest)
  {
    hide Ring, BookAll, Amount;
    if rounds != [] {
      var m := |rounds| - 1;
      var init, r := rounds[..m], rounds[m].r;
      SteadyHeadLosesNothing(chain, cfg, init, l);
      RunKeepsSeenFine(chain, cfg, init);
      var w := Run(cfg, init);
      if l.key in w.seen && l.block > w.last {
        var i :| 0 <= i < m && HasHead(init[i].r) && l.block <= WindowEnd(cfg, w.last, init[i].r.latest);
        assert rounds[i] == init[i];
        if HasHead(r) { assert rounds[i].r.latest <= rounds[m].r.latest; }
      }
      if Loops(cfg, w, r) {
        var b := BookAll(w, r.entries, |r.entries|);
        BookAllCounts(w, r.entries, |r.entries|, l.key);
        RingKeepsOrder(b.w.seen);
        if l.key !in w.seen && l.key in b.w.seen {
          NewKeyInWindow(chain, cfg, w, r, l);
          assert HasHead(rounds[m].r) && l.block <= WindowEnd(cfg, w.last, rounds[m].r.latest);
        }
      }
    }
  }
}
