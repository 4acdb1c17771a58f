/** The fee of a cash withdrawal and the capacity simulation of the credit assistant. */
module Fees {
  import opened Rounding

  // ---------- Cash withdrawal ----------

  const FEE_RATE: real := 0.0625

  function WithdrawalFee(amount: real): real {
    ToMicros(amount * FEE_RATE)
  }

  function WithdrawalTotal(amount: real): real {
    amount + WithdrawalFee(amount)
  }

  /** The fee is a sixteenth of the amount to within half a micro-unit; it vanishes on positive
      amounts of at most eight micro-units and on no other. */
  lemma FeeIsASixteenth(amount: real)
    ensures Abs(WithdrawalFee(amount) - amount / 16.0) <= 0.0000005
    ensures amount > 0.0 ==> WithdrawalFee(amount) >= 0.0
    ensures amount > 0.0 ==> (WithdrawalFee(amount) == 0.0 <==> amount <= 0.000008)
  {
    var micros := amount * FEE_RATE * 1000000.0;
    RoundIsNearest(micros);
    if amount > 0.0 && amount <= 0.000008 {
      RoundIsUnique(micros, 0);
    }
  }

  /** A larger amount always costs more. */
  lemma TotalIsStrictlyIncreasing(a: real, b: real)
    requires a < b
    ensures WithdrawalTotal(a) < WithdrawalTotal(b)
  {
    RoundIsMonotone(a * FEE_RATE * 1000000.0, b * FEE_RATE * 1000000.0);
  }

  /** So the amount of a request can be told from its total. */
  lemma TotalDeterminesAmount(a: real, b: real)
    ensures WithdrawalTotal(a) == WithdrawalTotal(b) <==> a == b
  {
    if a < b {
      TotalIsStrictlyIncreasing(a, b);
    } else if b < a {
      TotalIsStrictlyIncreasing(b, a);
    }
  }

  lemma SplitRounding(x: real, y: real)
    ensures -1 <= RoundHalfEven(x + y) - RoundHalfEven(x) - RoundHalfEven(y) <= 1
  {
    RoundIsNearest(x);
    RoundIsNearest(y);
    RoundIsNearest(x + y);
  }

  /** Splitting a withdrawal in two changes the fee by at most one micro-unit. */
  lemma SplittingCostsAtMostOneUnit(a: real, b: real)
    ensures Abs(WithdrawalFee(a + b) - (WithdrawalFee(a) + WithdrawalFee(b))) <= 0.000001
  {
    SplitRounding(a * FEE_RATE * 1000000.0, b * FEE_RATE * 1000000.0);
  }

  // ---------- Capacity of the credit assistant ----------

  /** `effective_external_transfer_capacity`; a negative credit line counts as none. */
  function EffectiveCapacity(wallet: real, credit: real): real {
    var usable := if credit < 0.0 then 0.0 else credit;
    if wallet < 0.0 then usable else wallet + usable
  }

  const BIF_RATE: real := 6.25

  /** The fee in percent: fixed for BIF, the configured charge otherwise. */
  function FeeRate(isBif: bool, charge: real): real {
    if isBif then BIF_RATE else charge
  }

  function PercentFee(amount: real, rate: real): real {
    ToCents(amount * rate / 100.0)
  }

  datatype Simulation = Simulation(fee: real, total: real, capacity: real, passes: bool, shortfall: real)

  function Simulate(amount: real, isBif: bool, charge: real, wallet: real, credit: real): Simulation {
    var fee := PercentFee(amount, FeeRate(isBif, charge));
    var available := if credit < 0.0 then 0.0 else credit;
    var capacity := if isBif then available else EffectiveCapacity(wallet, available);
    var total := amount + fee;
    var short := total - capacity;
    Simulation(fee, total, capacity, total <= capacity, if short < 0.0 then 0.0 else short)
  }

  lemma PassesWhenNothingIsShort(amount: real, isBif: bool, charge: real, wallet: real, credit: real)
    ensures var s := Simulate(amount, isBif, charge, wallet, credit);
      && s.shortfall >= 0.0
      && (s.passes <==> s.shortfall == 0.0)
      && (!s.passes ==> s.total == s.capacity + s.shortfall)
  {
  }

  function NotNegative(x: real): real {
    if x < 0.0 then 0.0 else x
  }

  /** A simulation in BIF counts 6.25 percent and the credit line alone; any other counts the configured
      charge, and the wallet too. The fee is exact to half a cent. */
  lemma SimulationByCurrency(amount: real, isBif: bool, charge: real, wallet: real, credit: real)
    ensures var s := Simulate(amount, isBif, charge, wallet, credit);
      var percent := if isBif then 6.25 else charge;
      && Abs(s.fee - amount * percent / 100.0) <= 0.005
      && s.total == amount + s.fee
      && s.capacity == NotNegative(credit) + (if isBif then 0.0 else NotNegative(wallet))
      && (s.passes <==> s.total <= s.capacity)
  {
    RoundIsNearest(amount * (if isBif then 6.25 else charge) / 100.0 * 100.0);
  }

  /** So a simulation in BIF ignores the wallet and the charge. */
  lemma BifIgnoresWallet(amount: real, charge: real, other: real, wallet: real, funds: real, credit: real)
    ensures Simulate(amount, true, charge, wallet, credit) == Simulate(amount, true, other, funds, credit)
  {
  }

  ghost predicate SmallerPasses(isBif: bool, charge: real) {
    forall a: real, b: real, wallet: real, credit: real ::
      0.0 < a <= b && Simulate(b, isBif, charge, wallet, credit).passes
      ==> Simulate(a, isBif, charge, wallet, credit).passes
  }

  lemma PercentFeeIsMonotone(a: real, b: real, rate: real)
    requires a <= b && rate >= 0.0
    ensures PercentFee(a, rate) <= PercentFee(b, rate)
  {
    var x, y := a * rate, b * rate;
    assert x <= y by { assert (b - a) * rate >= 0.0; }
    RoundIsMonotone(x / 100.0 * 100.0, y / 100.0 * 100.0);
  }

  lemma HalfCentOfDiscount(rate: real) returns (a: real)
    requires rate < 0.0
    ensures a > 0.0 && a * rate == -0.5
  {
    a := 0.5 / -rate;
  }

  lemma RateOf(a: real, rate: real)
    requires a >= 0.005 && a * rate == -0.5
    ensures rate >= -100.0
  {
    assert rate < -100.0 ==> a * (rate + 100.0) < 0.0;
  }

  lemma Distribute(a: real, c: real, rate: real)
    ensures (a + c) * rate == a * rate + c * rate
  {
  }

  lemma NoFee(a: real, rate: real)
    requires a * rate == -0.5
    ensures PercentFee(a, rate) == 0.0
  {
  }

  lemma OneCentOff(a: real, c: real, rate: real)
    requires a * rate == -0.5 && -0.5 <= c * rate < 0.0
    ensures PercentFee(a + c, rate) == -0.01
  {
    Distribute(a, c, rate);
    RoundIsUnique((a + c) * rate / 100.0 * 100.0, -1);
  }

  /** With a negative rate, the amount just past the first half cent of discount costs less. */
  lemma NegativeRateJumps(rate: real) returns (a: real, b: real)
    requires rate < 0.0
    ensures 0.0 < a <= b < a + 0.01
    ensures PercentFee(a, rate) == 0.0 && PercentFee(b, rate) == -0.01
  {
    a := HalfCentOfDiscount(rate);
    var step := if a < 0.005 then a else 0.005;
    if a >= 0.005 {
      RateOf(a, rate);
      assert -0.5 <= 0.005 * rate < 0.0;
    }
    b := a + step;
    NoFee(a, rate);
    OneCentOff(a, step, rate);
  }

  /** A smaller amount passes whenever a larger one does, exactly when the rate is not negative. */
  lemma SmallerPassesIffNoDiscount(isBif: bool, charge: real)
    ensures SmallerPasses(isBif, charge) <==> FeeRate(isBif, charge) >= 0.0
  {
    var rate := FeeRate(isBif, charge);
    if rate >= 0.0 {
      forall a: real, b: real, wallet: real, credit: real
        | 0.0 < a <= b && Simulate(b, isBif, charge, wallet, credit).passes
        ensures Simulate(a, isBif, charge, wallet, credit).passes
      {
        PercentFeeIsMonotone(a, b, rate);
      }
    } else {
      var a, b := NegativeRateJumps(rate);
      var wallet := if b < 0.01 then 0.0 else b - 0.01;
      assert Simulate(b, isBif, charge, wallet, 0.0).passes && !Simulate(a, isBif, charge, wallet, 0.0).passes;
    }
  }
}
