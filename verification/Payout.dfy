/** Paying providers: the 88/4/4/4 split, the host share that waits for a swap, and the three pots. */
module Payout {
  import opened Money

  const MIN_SWAP_USDT: nat := 50000
  const FLUSH_MIN: nat := 1000

  datatype Split = Split(host: int, stakers: int, burn: int, treasury: int)

  /** The floors of 88, 4 and 4 percent; the treasury takes the rest. */
  function SplitOf(total: int): Split {
    var (h, s) := (Floor(total as real * 0.88), Floor(total as real * 0.04));
    Split(h, s, s, total - h - s - s)
  }

  datatype Pots = Pots(stakers: nat, treasury: nat, burn: nat)

  function Plus(p: Pots, q: Pots): Pots { Pots(p.stakers + q.stakers, p.treasury + q.treasury, p.burn + q.burn) }

  /** A provider's host share: what waits for a swap, and as history what was booked and what was swapped. */
  datatype Provider = Provider(pending: nat, booked: nat, swapped: nat)

  /** The pots, with as history all that went into and out of them, the sum of the payments and of their host
      parts, the number of payments, and the thirds of redeemed DEX fees. */
  datatype Books = Books(
    pending: Pots, accrued: Pots, flushed: Pots, providers: map<string, Provider>,
    paid: nat, hosted: nat, payments: nat, fees: nat)

  function EmptyBooks(): Books { Books(Pots(0, 0, 0), Pots(0, 0, 0), Pots(0, 0, 0), map[], 0, 0, 0, 0) }

  function ProviderOf(b: Books, a: string): Provider { if a in b.providers then b.providers[a] else Provider(0, 0, 0) }

  /** What the outside did: a swap that raised or found this live balance (-1 when unknown), or a transfer. */
  datatype Outcome = Raised | Live(balance: int)

  /** What `buyback_swap` spends of `pend`. */
  function Spend(pend: nat, live: int): nat {
    var s := if live < 0 then 0 else if pend < live then pend else live;
    if s < MIN_SWAP_USDT then 0 else s
  }

  function Total(pusd: real, price: real): int
    requires price > 0.0
  {
    Round(pusd / price * 1000000.0)
  }

  function HostUsdc(pusd: real): int { Floor(pusd * 0.88 * 1000000.0) }

  /** The pots after one payment went through. */
  function Accrue(b: Books, total: nat, s: Split): Books
    requires s == SplitOf(total)
  {
    SplitAddsUp(total);
    var share := Pots(s.stakers, s.treasury, s.burn);
    b.(pending := Plus(b.pending, share), accrued := Plus(b.accrued, share), paid := b.paid + total,
       hosted := b.hosted + s.host, payments := b.payments + 1)
  }

  predicate Pays(pusd: real, price: real) { pusd > 0.0 && price > 0.0 && SplitOf(Total(pusd, price)).host > 0 }

  /** `pay_provider`. */
  function Pay(b: Books, a: string, pusd: real, price: real, buyback: bool, o: Outcome): Books {
    if !Pays(pusd, price) then b
    else
      TotalIsNat(pusd, price);
      var (p, s) := (ProviderOf(b, a), SplitOf(Total(pusd, price)));
      var known := b.(providers := b.providers[a := p]);
      if !buyback then if o.Raised? then known else Accrue(known, Total(pusd, price), s)
      else
        var pend := p.pending + HostUsdc(pusd);
        if pend >= MIN_SWAP_USDT && o.Raised? then known
        else
          var spent := if pend >= MIN_SWAP_USDT && o.Live? then Spend(pend, o.balance) else 0;
          Accrue(known.(providers := known.providers[a := Provider(pend - spent, p.booked + HostUsdc(pusd), p.swapped + spent)]),
                 Total(pusd, price), s)
  }

  /** What the oracle estimates is never negative. */
  type Dollars = x: real | x >= 0.0

  lemma {:induction false} FleetTotalIsNat(usd: Dollars, price: real)
    requires price > 0.0
    ensures Total(usd, price) >= 0
  {
    assert usd / price >= 0.0;
    FloorBounds(usd / price * 1000000.0);
  }

  /** The simulated fleet: its shares accrue to the pots whatever then happens to its host part; a price of
      zero raises before anything is booked. */
  function Fleet(b: Books, usd: Dollars, price: real): Books {
    if price <= 0.0 then b
    else
      FleetTotalIsNat(usd, price);
      Accrue(b, Total(usd, price), SplitOf(Total(usd, price)))
  }

  /** A redeemed DEX fee: a third of it to each pot. */
  function Fee(b: Books, third: nat): Books {
    b.(pending := Plus(b.pending, Pots(third, third, third)), accrued := Plus(b.accrued, Pots(third, third, third)), fees := b.fees + third)
  }

  /** What leaves a pot: all of it when it has reached the floor and the transfer went through. */
  function Leaves(pot: nat, sent: bool): nat { if pot >= FLUSH_MIN && sent then pot else 0 }

  datatype Sent = Sent(stakers: bool, treasury: bool, burn: bool)

  function Flush(b: Books, epoch: nat, every: nat, sent: Sent): Books
    requires every > 0
  {
    if epoch % every != 0 then b
    else
      var out := Pots(Leaves(b.pending.stakers, sent.stakers), Leaves(b.pending.treasury, sent.treasury), Leaves(b.pending.burn, sent.burn));
      b.(pending := Pots(b.pending.stakers - out.stakers, b.pending.treasury - out.treasury, b.pending.burn - out.burn),
         flushed := Plus(b.flushed, out))
  }

  // ---------- the split ----------

  lemma {:induction false} FloorBounds(x: real)
    ensures Floor(x) as real <= x < Floor(x) as real + 1.0
    ensures x >= 0.0 ==> Floor(x) >= 0
  {
  }

  /** A payment splits exactly into four non-negative parts, and the treasury's is at least 4% and less than
      three units more. */
  lemma {:induction false} SplitAddsUp(total: int)
    requires total >= 0
    ensures var s := SplitOf(total);
      && s.host >= 0 && s.stakers >= 0 && s.burn >= 0 && s.treasury >= 0
      && s.host + s.stakers + s.burn + s.treasury == total
      && total as real * 0.04 <= s.treasury as real < total as real * 0.04 + 3.0
      && total <= 25 * s.treasury < total + 75
      && 100 * s.host <= 88 * total < 100 * s.host + 100
      && 25 * s.stakers <= total < 25 * s.stakers + 25 && s.burn == s.stakers
  {
    FloorBounds(total as real * 0.88);
    FloorBounds(total as real * 0.04);
  }

  /** The amounts of a payment in units of a millionth: in all, the nearest integer to value over price; for the
      provider, the floor of 88% of the value in dollars. */
  lemma {:induction false} AmountsAre(pusd: real, price: real)
    requires price > 0.0
    ensures -0.5 <= pusd / price * 1000000.0 - Total(pusd, price) as real <= 0.5
    ensures HostUsdc(pusd) as real <= 880000.0 * pusd < HostUsdc(pusd) as real + 1.0
  {
    hide Round;
    RoundIsNearest(pusd / price * 1000000.0);
    FloorBounds(pusd * 0.88 * 1000000.0);
    assert pusd * 0.88 * 1000000.0 == 880000.0 * pusd;
  }

  /** A payment is due exactly when value and price are positive and the value buys at least one and a half millionths. */
  lemma {:induction false} DueExactlyWhen(pusd: real, price: real)
    ensures Pays(pusd, price) <==> pusd > 0.0 && price > 0.0 && pusd / price * 1000000.0 >= 1.5
  {
    hide Floor;
    if pusd > 0.0 && price > 0.0 {
      var total := Total(pusd, price);
      RoundBuysTwo(pusd / price * 1000000.0);
      FloorBounds(total as real * 0.88);
    }
  }

  lemma {:induction false} RoundBuysTwo(x: real)
    requires x >= 0.0
    ensures Round(x) >= 2 <==> x >= 1.5
  {
  }

  /** A swap of `pend` spends all of it, or as much as is there, when that comes to 50000 at least, and nothing else. */
  lemma {:induction false} SpendExactly(pend: nat, live: int)
    ensures Spend(pend, live) ==
      if live < 50000 || pend < 50000 then 0 else if pend <= live then pend else live
  {
  }

  lemma {:induction false} TotalIsNat(pusd: real, price: real)
    requires Pays(pusd, price)
    ensures Total(pusd, price) >= 0 && HostUsdc(pusd) >= 0
  {
    assert pusd / price > 0.0;
    FloorBounds(pusd / price * 1000000.0);
    FloorBounds(pusd * 0.88 * 1000000.0);
  }

  // ---------- the code ----------

  class PayoutBooks {
    var pending: Pots
    var providers: map<string, Provider>
    ghost var accrued: Pots
    ghost var flushed: Pots
    ghost var paid: nat
    ghost var hosted: nat
    ghost var payments: nat
    ghost var fees: nat

    ghost function State(): Books
      reads this
    {
      Books(pending, accrued, flushed, providers, paid, hosted, payments, fees)
    }

    constructor ()
      ensures State() == EmptyBooks()
    {
      pending, providers := Pots(0, 0, 0), map[];
      accrued, flushed, paid, hosted, payments, fees := Pots(0, 0, 0), Pots(0, 0, 0), 0, 0, 0, 0;
    }

    /** The `pending` additions that end a successful payment. */
    method AccrueShares(total: nat, s: Split)
      requires s == SplitOf(total)
      modifies this
      ensures State() == Accrue(old(State()), total, s)
    {
      SplitAddsUp(total);
      pending := Pots(pending.stakers + s.stakers, pending.treasury + s.treasury, pending.burn + s.burn);
      accrued := Pots(accrued.stakers + s.stakers, accrued.treasury + s.treasury, accrued.burn + s.burn);
      paid, hosted, payments := paid + total, hosted + s.host, payments + 1;
    }

    /** `buyback_swap`: never more than the live balance, nothing below the dust floor. */
    method BuybackSwap(usdtIn: nat, live: int) returns (spent: nat)
      ensures spent == Spend(usdtIn, live)
      ensures spent <= usdtIn && (spent > 0 ==> spent <= live && spent >= MIN_SWAP_USDT)
    {
      spent := if live < 0 then 0 else if usdtIn < live then usdtIn else live;
      if spent < MIN_SWAP_USDT { spent := 0; }
    }

    method PayProvider(addr: string, pusd: real, price: real, useBuyback: bool, o: Outcome)
      modifies this
      ensures State() == Pay(old(State()), addr, pusd, price, useBuyback, o)
    {
      hide Round, Floor, Accrue, Spend;
      if pusd <= 0.0 || price <= 0.0 { return; }
      var ptot := Round(pusd / price * 1000000.0);
      var ph, ps := Floor(ptot as real * 0.88), Floor(ptot as real * 0.04);
      var pt := ptot - ph - ps - ps;
      if ph <= 0 { return; }
      TotalIsNat(pusd, price);
      if addr !in providers { providers := providers[addr := Provider(0, 0, 0)]; }
      var p := providers[addr];
      assert providers == old(providers)[addr := ProviderOf(old(State()), addr)];
      if useBuyback {
        var pend := p.pending + Floor(pusd * 0.88 * 1000000.0);
        var spent := 0;
        if pend >= MIN_SWAP_USDT {
          if o.Raised? { return; }
          spent := BuybackSwap(pend, o.balance);
        }
        providers := providers[addr := Provider(pend - spent, p.booked + HostUsdc(pusd), p.swapped + spent)];
      } else {
        if o.Raised? { return; }
      }
      AccrueShares(ptot, Split(ph, ps, ps, pt));
    }

    /** The simulated fleet's accruals at the head of `step`, when it is on. */
    method AccrueFleet(usd: Dollars, price: real)
      modifies this
      ensures State() == Fleet(old(State()), usd, price)
    {
      hide Accrue, SplitOf;
      if price <= 0.0 { return; }
      var total := Round(usd / price * 1000000.0);
      FleetTotalIsNat(usd, price);
      AccrueShares(total, SplitOf(total));
    }

    /** The booking at the end of `dex_fee_tick`. */
    method BookDexFee(gainedWei: nat)
      modifies this
      ensures State() == Fee(old(State()), gainedWei / 1_000_000_000_000 / 3)
    {
      var third6 := gainedWei / 1_000_000_000_000 / 3;
      pending := Pots(pending.stakers + third6, pending.treasury + third6, pending.burn + third6);
      accrued := Pots(accrued.stakers + third6, accrued.treasury + third6, accrued.burn + third6);
      fees := fees + third6;
    }

    /** The flush at the end of `step`; `sent` says which transfers do not raise. */
    method FlushPots(epoch: nat, every: nat, sent: Sent)
      requires every > 0
      modifies this
      ensures State() == Flush(old(State()), epoch, every, sent)
    {
      if epoch % every != 0 { return; }
      var s, t, b := pending.stakers, pending.treasury, pending.burn;
      if s >= FLUSH_MIN && sent.stakers {
        pending := pending.(stakers := 0);
        flushed := flushed.(stakers := flushed.stakers + s);
      }
      if t >= FLUSH_MIN && sent.treasury {
        pending := pending.(treasury := 0);
        flushed := flushed.(treasury := flushed.treasury + t);
      }
      if b >= FLUSH_MIN && sent.burn {
        pending := pending.(burn := 0);
        flushed := flushed.(burn := flushed.burn + b);
      }
    }
  }

  // ---------- conservation ----------

  datatype Op =
    | PayOp(a: string, pusd: real, price: real, buyback: bool, o: Outcome)
    | FeeOp(third: nat)
    | FleetOp(usd: Dollars, price: real)
    | FlushOp(epoch: nat, sent: Sent)

  function Apply(b: Books, op: Op, every: nat): Books
    requires every > 0
  {
    match op
    case PayOp(a, pusd, price, buyback, o) => Pay(b, a, pusd, price, buyback, o)
    case FeeOp(third) => Fee(b, third)
    case FleetOp(usd, price) => Fleet(b, usd, price)
    case FlushOp(epoch, sent) => Flush(b, epoch, every, sent)
  }

  function Run(ops: seq<Op>, every: nat): Books
    requires every > 0
  {
    if ops == [] then EmptyBooks() else Apply(Run(ops[..|ops| - 1], every), ops[|ops| - 1], every)
  }

  /** Nothing enters a pot without being pending or flushed, and nothing is paid without being somewhere. */
  predicate PotsBalance(b: Books) {
    && b.accrued.stakers == b.pending.stakers + b.flushed.stakers
    && b.accrued.treasury == b.pending.treasury + b.flushed.treasury
    && b.accrued.burn == b.pending.burn + b.flushed.burn
    && b.paid + 3 * b.fees == b.hosted + b.accrued.stakers + b.accrued.treasury + b.accrued.burn
  }

  predicate SharesAreFair(b: Books) {
    && b.paid <= 25 * (b.accrued.treasury - b.fees) <= b.paid + 75 * b.payments
    && 25 * (b.accrued.stakers - b.fees) <= b.paid && 25 * (b.accrued.burn - b.fees) <= b.paid
  }

  ghost predicate ProvidersBalance(b: Books) {
    forall a :: a in b.providers ==> b.providers[a].booked == b.providers[a].swapped + b.providers[a].pending
  }

  ghost predicate Balanced(b: Books) { PotsBalance(b) && SharesAreFair(b) && ProvidersBalance(b) }

  lemma {:induction false} AccrueKeepsBalance(b: Books, total: nat)
    requires Balanced(b)
    ensures Balanced(Accrue(b, total, SplitOf(total)))
  {
    hide SplitOf;
    SplitAddsUp(total);
  }

  /** One provider's books change and stay in balance. */
  lemma {:induction false} ProviderKeepsBalance(b: Books, a: string, p: Provider)
    requires Balanced(b) && p.booked == p.swapped + p.pending
    ensures Balanced(b.(providers := b.providers[a := p]))
  {
  }

  lemma {:induction false} ProviderIsBalanced(b: Books, a: string)
    requires Balanced(b)
    ensures ProviderOf(b, a).booked == ProviderOf(b, a).swapped + ProviderOf(b, a).pending
  {
  }

  lemma {:induction false} SpendIsCapped(pend: nat, live: int)
    ensures Spend(pend, live) <= pend
  {
  }

  lemma {:induction false} PayKeepsBalance(b: Books, a: string, pusd: real, price: real, buyback: bool, o: Outcome)
    requires Balanced(b)
    ensures Balanced(Pay(b, a, pusd, price, buyback, o))
  {
    hide SplitOf, Total, Accrue, HostUsdc, Balanced, ProviderOf, Spend;
    if Pays(pusd, price) {
      TotalIsNat(pusd, price);
      var p := ProviderOf(b, a);
      ProviderIsBalanced(b, a);
      var known := b.(providers := b.providers[a := p]);
      ProviderKeepsBalance(b, a, p);
      AccrueKeepsBalance(known, Total(pusd, price));
      var pend := p.pending + HostUsdc(pusd);
      var spent := if pend >= MIN_SWAP_USDT && o.Live? then Spend(pend, o.balance) else 0;
      if o.Live? { SpendIsCapped(pend, o.balance); }
      var q := Provider(pend - spent, p.booked + HostUsdc(pusd), p.swapped + spent);
      ProviderKeepsBalance(known, a, q);
      AccrueKeepsBalance(known.(providers := known.providers[a := q]), Total(pusd, price));
    }
  }

  lemma {:induction false} FleetKeepsBalance(b: Books, usd: Dollars, price: real)
    requires Balanced(b)
    ensures Balanced(Fleet(b, usd, price))
  {
    hide SplitOf, Total, Accrue, Balanced;
    if price > 0.0 {
      FleetTotalIsNat(usd, price);
      AccrueKeepsBalance(b, Total(usd, price));
    }
  }

  lemma {:induction false} FeeKeepsBalance(b: Books, third: nat)
    requires Balanced(b)
    ensures Balanced(Fee(b, third))
  {
  }

  lemma {:induction false} FlushKeepsBalance(b: Books, epoch: nat, every: nat, sent: Sent)
    requires Balanced(b) && every > 0
    ensures Balanced(Flush(b, epoch, every, sent))
  {
  }

  /** Over all epochs, whatever raises: each pot's accruals are what is pending plus what was flushed, each
      provider's booked host USDC is what was swapped plus what is pending, and the payments and fees are
      exactly the host parts and the accruals, with the treasury within three units a payment above its 4% (one in 25). */
  lemma {:induction false} BooksBalance(ops: seq<Op>, every: nat)
    requires every > 0
    ensures Balanced(Run(ops, every))
  {
    hide Balanced, Pay, Fee, Fleet, Flush;
    if ops == [] {
      EmptyBalances();
    } else {
      var b := Run(ops[..|ops| - 1], every);
      BooksBalance(ops[..|ops| - 1], every);
      match ops[|ops| - 1]
      case PayOp(a, pusd, price, buyback, o) => PayKeepsBalance(b, a, pusd, price, buyback, o);
      case FeeOp(third) => FeeKeepsBalance(b, third);
      case FleetOp(usd, price) => FleetKeepsBalance(b, usd, price);
      case FlushOp(epoch, sent) => FlushKeepsBalance(b, epoch, every, sent);
    }
  }

  lemma {:induction false} NothingIsPaid(b: Books)
    requires b.pending == Pots(0, 0, 0) && b.accrued == Pots(0, 0, 0) && b.flushed == Pots(0, 0, 0)
    requires b.paid == 0 && b.hosted == 0 && b.payments == 0 && b.fees == 0
    ensures PotsBalance(b)
  {
  }

  lemma {:induction false} NothingIsFair(b: Books)
    requires b.accrued == Pots(0, 0, 0) && b.paid == 0 && b.payments == 0 && b.fees == 0
    ensures SharesAreFair(b)
  {
  }

  lemma {:induction false} NobodyIsPaid(b: Books)
    requires b.providers == map[]
    ensures ProvidersBalance(b)
  {
  }

  lemma {:induction false} EmptyBalances()
    ensures Balanced(EmptyBooks())
  {
    hide PotsBalance, SharesAreFair, ProvidersBalance, Plus;
    NothingIsPaid(EmptyBooks());
    NothingIsFair(EmptyBooks());
    NobodyIsPaid(EmptyBooks());
  }

  // ---------- when a payment is booked ----------

  /** Something is due, and nothing raises: a swap can raise only when enough waits to be swapped. */
  predicate GoesThrough(b: Books, a: string, pusd: real, price: real, buyback: bool, o: Outcome) {
    Pays(pusd, price) && !(o.Raised? && (buyback ==> ProviderOf(b, a).pending + HostUsdc(pusd) >= MIN_SWAP_USDT))
  }

  /** A payment is booked - counted, added to the sums, accrued to the pots, and with a buyback booked to the
      provider, what is not swapped carrying forward - if and only if it goes through. */
  lemma {:induction false} BookedExactlyWhenItGoesThrough(b: Books, a: string, pusd: real, price: real, buyback: bool, o: Outcome)
    ensures var t := Pay(b, a, pusd, price, buyback, o);
      && (t.payments == b.payments + 1 <==> GoesThrough(b, a, pusd, price, buyback, o))
      && (GoesThrough(b, a, pusd, price, buyback, o) ==>
            var s := SplitOf(Total(pusd, price));
            && t.paid == b.paid + Total(pusd, price) && t.hosted == b.hosted + s.host
            && t.accrued.stakers == b.accrued.stakers + s.stakers && t.accrued.treasury == b.accrued.treasury + s.treasury
            && t.accrued.burn == b.accrued.burn + s.burn
            && ProviderOf(t, a).booked == ProviderOf(b, a).booked + (if buyback then HostUsdc(pusd) else 0)
            && ProviderOf(t, a).pending + ProviderOf(t, a).swapped ==
               ProviderOf(b, a).pending + ProviderOf(b, a).swapped + (if buyback then HostUsdc(pusd) else 0))
  {
    hide SplitOf, Total, HostUsdc, Spend;
    if Pays(pusd, price) {
      TotalIsNat(pusd, price);
      SplitAddsUp(Total(pusd, price));
      if o.Live? { SpendIsCapped(ProviderOf(b, a).pending + HostUsdc(pusd), o.balance); }
    }
  }

  /** Otherwise no amount changes, whether the payment raised or was never due: the epoch's share of that
      provider is dropped, and only what waited before still waits. */
  lemma {:induction false} OtherwiseNothingChanges(b: Books, a: string, pusd: real, price: real, buyback: bool, o: Outcome)
    requires !GoesThrough(b, a, pusd, price, buyback, o)
    ensures var t := Pay(b, a, pusd, price, buyback, o);
      && t == b.(providers := t.providers) && forall x :: ProviderOf(t, x) == ProviderOf(b, x)
  {
    hide SplitOf, Total, HostUsdc;
  }

  /** One dollar at one dollar, with a swap that raises: 880000 units of USDC are due to the provider, and none
      of it is waiting afterwards. */
  lemma {:induction false} ARaisedShareIsDropped()
    ensures HostUsdc(1.0) == 880000 && Pays(1.0, 1.0)
    ensures var t := Pay(EmptyBooks(), "a", 1.0, 1.0, true, Raised); ProviderOf(t, "a").pending == 0 && t.payments == 0
  {
    assert 1.0 * 0.88 * 1000000.0 == 880000.0;
    assert Floor(880000.0) == 880000;
    assert 1.0 / 1.0 * 1000000.0 == 1000000.0;
    assert Round(1000000.0) == 1000000;
    assert Floor(1000000 as real * 0.88) == 880000;
  }

  /** A millionth of a dollar at one dollar: one unit is due in all, its host part rounds to nothing, and the
      payment is dropped although nothing raises. */
  lemma {:induction false} ASmallShareIsDropped()
    ensures Total(0.000001, 1.0) == 1 && SplitOf(1).host == 0 && !Pays(0.000001, 1.0)
    ensures Pay(EmptyBooks(), "a", 0.000001, 1.0, true, Live(1000000)) == EmptyBooks()
  {
    assert 0.000001 / 1.0 * 1000000.0 == 1.0;
    assert Round(1.0) == 1;
    assert Floor(1 as real * 0.88) == 0;
  }

  /** The simulated fleet: at a positive price its staker, treasury and burn parts go to the pots and are accrued, and
      nothing goes to any provider; otherwise nothing is booked. */
  lemma {:induction false} FleetExactly(b: Books, usd: Dollars, price: real)
    ensures var t := Fleet(b, usd, price);
      && (price <= 0.0 ==> t == b)
      && (price > 0.0 ==> var s := SplitOf(Total(usd, price));
            && t.providers == b.providers && t.flushed == b.flushed && t.fees == b.fees && t.payments == b.payments + 1
            && t.pending.stakers == b.pending.stakers + s.stakers && t.pending.treasury == b.pending.treasury + s.treasury
            && t.pending.burn == b.pending.burn + s.burn
            && t.accrued.stakers == b.accrued.stakers + s.stakers && t.accrued.treasury == b.accrued.treasury + s.treasury
            && t.accrued.burn == b.accrued.burn + s.burn)
  {
    hide SplitOf, Total;
  }

  /** Every `every` epochs each pot of at least 1000 whose transfer goes through is emptied into what was flushed, and
      nothing else changes. */
  lemma {:induction false} FlushExactly(b: Books, epoch: nat, every: nat, sent: Sent)
    requires every > 0
    ensures var t := Flush(b, epoch, every, sent);
      && t == b.(pending := t.pending, flushed := t.flushed)
      && (epoch % every != 0 ==> t == b)
      && (epoch % every == 0 ==>
            && t.pending.stakers == (if b.pending.stakers >= 1000 && sent.stakers then 0 else b.pending.stakers)
            && t.pending.treasury == (if b.pending.treasury >= 1000 && sent.treasury then 0 else b.pending.treasury)
            && t.pending.burn == (if b.pending.burn >= 1000 && sent.burn then 0 else b.pending.burn)
            && t.pending.stakers + t.flushed.stakers == b.pending.stakers + b.flushed.stakers
            && t.pending.treasury + t.flushed.treasury == b.pending.treasury + b.flushed.treasury
            && t.pending.burn + t.flushed.burn == b.pending.burn + b.flushed.burn)
  {
  }

  /** After a flush whose transfers all go through, every pot is below the dust floor. */
  lemma {:induction false} FlushLeavesDust(b: Books, epoch: nat, every: nat)
    requires every > 0 && epoch % every == 0
    ensures var t := Flush(b, epoch, every, Sent(true, true, true));
      t.pending.stakers < FLUSH_MIN && t.pending.treasury < FLUSH_MIN && t.pending.burn < FLUSH_MIN
  {
  }
}
