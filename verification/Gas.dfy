/** Gas meters: the block meter a finalized block is charged on, and the per-transaction meter. */
module Gas {
  const MAX_UINT64: nat := 0xFFFF_FFFF_FFFF_FFFF

  datatype Meter = Infinite(used: nat) | Basic(limit: nat, used: nat) | Noop

  predicate IsOutOfGas(m: Meter) {
    m.Basic? && m.used >= m.limit
  }

  function GasConsumedToLimit(m: Meter): nat {
    match m
    case Noop => 0
    case Infinite(used) => used
    case Basic(limit, used) => if used > limit then limit else used
  }

  datatype Charge = Charge(meter: Meter, panicked: bool)

  /** `ConsumeGas`: the amount is recorded before the limit is checked, and an overflow of the
      64-bit counter saturates it; either way the call panics. */
  function ConsumeGas(m: Meter, amount: nat): Charge {
    match m
    case Noop => Charge(m, false)
    case Infinite(used) =>
      if used + amount > MAX_UINT64 then Charge(Infinite(MAX_UINT64), true)
      else Charge(Infinite(used + amount), false)
    case Basic(limit, used) =>
      if used + amount > MAX_UINT64 then Charge(Basic(limit, MAX_UINT64), true)
      else Charge(Basic(limit, used + amount), used + amount > limit)
  }

  /** What consuming does to a limited meter: the sum is recorded, as far as 64 bits go, and the call panics exactly when
      the sum is above the limit or past 64 bits. */
  lemma {:induction false} ConsumedExactly(limit: nat, used: nat, amount: nat)
    ensures var c := ConsumeGas(Basic(limit, used), amount);
      var sum := used + amount;
      && c.meter == Basic(limit, if sum <= 0xFFFF_FFFF_FFFF_FFFF then sum else 0xFFFF_FFFF_FFFF_FFFF)
      && (c.panicked <==> sum > limit || sum > 0xFFFF_FFFF_FFFF_FFFF)
    ensures GasConsumedToLimit(Basic(limit, used)) <= limit && GasConsumedToLimit(Basic(limit, used)) <= used
    ensures GasConsumedToLimit(Basic(limit, used)) in {limit, used}
  {
  }

  /** The gate is closed exactly when not even one unit can be consumed. */
  lemma {:induction false} ClosedExactlyWhen(limit: nat, used: nat)
    requires limit <= 0xFFFF_FFFF_FFFF_FFFF
    ensures IsOutOfGas(Basic(limit, used)) <==> ConsumeGas(Basic(limit, used), 1).panicked
  {
  }

  /** An unlimited meter counts and never closes; the no-op meter does nothing. */
  lemma {:induction false} UnlimitedMeters(used: nat, amount: nat)
    ensures !IsOutOfGas(Infinite(used)) && !IsOutOfGas(Noop)
    ensures used + amount <= 0xFFFF_FFFF_FFFF_FFFF ==> ConsumeGas(Infinite(used), amount) == Charge(Infinite(used + amount), false)
    ensures used + amount > 0xFFFF_FFFF_FFFF_FFFF ==> ConsumeGas(Infinite(used), amount) == Charge(Infinite(0xFFFF_FFFF_FFFF_FFFF), true)
    ensures ConsumeGas(Noop, amount) == Charge(Noop, false)
    ensures GasConsumedToLimit(Infinite(used)) == used && GasConsumedToLimit(Noop) == 0
  {
  }
}
