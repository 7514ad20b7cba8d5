/** Amounts of common/money.py: whole minor units tagged with a currency. */
module Moneys {
  import opened Wrappers
  import opened Rounding
  import opened DecimalContext

  /** Decimal places per currency. */
  const CURRENCY_EXPONENTS: map<string, nat> :=
    map["XOF" := 0, "XAF" := 0, "GNF" := 0, "EUR" := 2, "USD" := 2, "GHS" := 2, "NGN" := 2]

  datatype Money = Money(minor: int, currency: string)

  datatype MoneyError =
    | UnknownCurrency(code: string)
    | CurrencyMismatch(left: string, right: string)
    | TooPrecise(value: Decimal)
    | InvalidOperation
    | BadWeights

  predicate Known(currency: string) {
    currency in CURRENCY_EXPONENTS
  }

  function Add(a: Money, b: Money): Result<Money, MoneyError> {
    if a.currency != b.currency then Failure(CurrencyMismatch(a.currency, b.currency))
    else Success(Money(a.minor + b.minor, a.currency))
  }

  // ------------------------------------------------- major units, both ways

  function Scaled(value: Decimal, currency: string): Decimal
    requires Known(currency)
  {
    value.(exponent := value.exponent + CURRENCY_EXPONENTS[currency])
  }

  /** Refuses a precision finer than the currency's rather than rounding; but
      `scaleb` has fitted the value to the context before it is judged. */
  function FromMajor(value: Decimal, currency: string): Result<Money, MoneyError> {
    if !Known(currency) then Failure(UnknownCurrency(currency))
    else
      match WholeOf(Fit(Scaled(value, currency)))
      case TooLong => Failure(InvalidOperation)
      case NotWhole => Failure(TooPrecise(value))
      case Is(minor) => Success(Money(minor, currency))
  }

  function AsMajor(m: Money): Decimal
    requires Known(m.currency)
  {
    Fit(Exactly(m))
  }

  /** The amount in major units. */
  function Exactly(m: Money): Decimal
    requires Known(m.currency)
  {
    Decimal(m.minor, -(CURRENCY_EXPONENTS[m.currency] as int))
  }

  /** An amount is accepted exactly when its first 28 digits are an amount of the
      currency, of at most 28 digits itself; and it becomes that amount. */
  lemma FromMajorMeaning(value: Decimal, m: Money)
    ensures FromMajor(value, m.currency) == Success(m) <==>
            Known(m.currency) && Abs(m.minor) < LIMIT && SameValue(Exactly(m), Fit(value))
  {
    if Known(m.currency) {
      var scaled := Scaled(value, m.currency);
      WholeOfIff(Fit(scaled), m.minor);
      assert Fit(scaled).exponent == Fit(value).exponent + CURRENCY_EXPONENTS[m.currency];
      ShiftKeepsSameValue(Exactly(m), Fit(value), CURRENCY_EXPONENTS[m.currency]);
    }
  }

  /** What is accepted keeps its exact value exactly when nothing but zeros follows
      its 28th digit: in particular whenever it has no more digits than that. */
  lemma FromMajorIsExactIff(value: Decimal, currency: string)
    requires FromMajor(value, currency).Success?
    ensures SameValue(AsMajor(FromMajor(value, currency).value), value) <==> DropsNothing(value.coefficient)
    ensures Abs(value.coefficient) < LIMIT ==> DropsNothing(value.coefficient)
  {
    var m := FromMajor(value, currency).value;
    FromMajorMeaning(value, m);
    ShortStays(Exactly(m));
    FitKeepsIff(value);
    if SameValue(Exactly(m), value) {
      SameValueTrans(Fit(value), Exactly(m), value);
    }
    if SameValue(Fit(value), value) {
      SameValueTrans(Exactly(m), Fit(value), value);
    }
    ShortDropsNothing(value.coefficient);
  }

  /** One euro and a 10^28th of one is accepted as one euro. */
  lemma LongTextIsRounded()
    ensures var value := Decimal(LIMIT + 1, -28);
            FromMajor(value, "EUR") == Success(Money(100, "EUR")) && !SameValue(Exactly(Money(100, "EUR")), value)
  {
    var value, m := Decimal(LIMIT + 1, -28), Money(100, "EUR");
    JustOver();
    Pow10Values();
    assert Exactly(m) == Decimal(100, -2);
    SameValueIff(Decimal(100, -2), Decimal(LIMIT / 10, -27));
    FromMajorMeaning(value, m);
    FromMajorIsExactIff(value, "EUR");
    ShortStays(Exactly(m));
  }

  /** Whole major units: a hundred minor ones in the currencies that have cents, one in
      those that have none; and a tenth of a cent, or of a franc, is refused. */
  lemma MajorUnits(n: int, currency: string)
    requires Abs(n) * 100 < LIMIT
    ensures currency in {"EUR", "USD", "GHS", "NGN"} ==>
              && FromMajor(Decimal(n, 0), currency) == Success(Money(100 * n, currency))
              && (n % 10 != 0 ==> FromMajor(Decimal(n, -3), currency).Failure?)
    ensures currency in {"XOF", "XAF", "GNF"} ==>
              && FromMajor(Decimal(n, 0), currency) == Success(Money(n, currency))
              && (n % 10 != 0 ==> FromMajor(Decimal(n, -1), currency).Failure?)
    ensures Known(currency) <==> currency in {"EUR", "USD", "GHS", "NGN"} || currency in {"XOF", "XAF", "GNF"}
  {
    assert Pow10(0) == 1 && Pow10(1) == 10 && Pow10(2) == 100;
    if currency in {"EUR", "USD", "GHS", "NGN"} {
      WholeMajor(n, Money(100 * n, currency));
      TenthIsRefused(Decimal(n, -3), currency);
    } else if currency in {"XOF", "XAF", "GNF"} {
      WholeMajor(n, Money(n, currency));
      TenthIsRefused(Decimal(n, -1), currency);
    }
  }

  lemma WholeMajor(n: int, m: Money)
    requires Abs(n) < LIMIT && Abs(m.minor) < LIMIT && Known(m.currency) && m.minor == n * Pow10(CURRENCY_EXPONENTS[m.currency])
    ensures FromMajor(Decimal(n, 0), m.currency) == Success(m)
  {
    FromMajorMeaning(Decimal(n, 0), m);
    ShortStays(Decimal(n, 0));
    SameValueIff(Decimal(n, 0), Exactly(m));
  }

  /** One decimal more than the currency has, and not a zero. */
  lemma TenthIsRefused(value: Decimal, currency: string)
    requires Known(currency) && Abs(value.coefficient) < LIMIT && value.exponent == -(CURRENCY_EXPONENTS[currency] as int) - 1
    ensures value.coefficient % 10 != 0 ==> FromMajor(value, currency).Failure?
  {
    if FromMajor(value, currency).Success? {
      var m := FromMajor(value, currency).value;
      FromMajorMeaning(value, m);
      ShortStays(value);
      SameValueIff(Exactly(m), value);
      assert Pow10(1) == 10 * Pow10(0);
    }
  }

  /** Major units and back: for every amount of at most 28 digits, and no other. */
  lemma MajorRoundTrip(m: Money)
    requires Known(m.currency)
    ensures FromMajor(AsMajor(m), m.currency) == Success(m) <==> Abs(m.minor) < LIMIT
  {
    FromMajorMeaning(AsMajor(m), m);
    if Abs(m.minor) < LIMIT {
      ShortStays(Exactly(m));
    }
  }

  // --------------------------------------------------------------- percentages

  function Percentage(m: Money, percent: Decimal): Money {
    Money(HalfUp(m.minor * Num(percent), 100 * Den(percent)), m.currency)
  }

  /** The share is the exact one rounded once, symmetric in sign, and for a
      rate in [0, 100] never exceeds the amount. */
  lemma PercentageMeaning(m: Money, percent: Decimal)
    ensures IsNearest(Percentage(m, percent).minor, m.minor * Num(percent), 100 * Den(percent))
    ensures Percentage(Money(-m.minor, m.currency), percent).minor == -Percentage(m, percent).minor
    ensures m.minor >= 0 && 0 <= Num(percent) <= 100 * Den(percent) ==>
              0 <= Percentage(m, percent).minor <= m.minor
  {
    var n, d := Num(percent), 100 * Den(percent);
    HalfUpIsNearest(m.minor * n, d);
    MulSub(0, m.minor, n);
    HalfUpIsOdd(m.minor * n, d);
    if m.minor >= 0 && 0 <= n <= d {
      MulOrder(m.minor, 0, n);
      MulOrder(m.minor, n, d);
      HalfUpStaysBetween(0, m.minor, m.minor * n, d);
    }
  }

  /** The product and its hundredth as the context leaves them, then one rounding. */
  function PercentageInContext(m: Money, percent: Decimal): Option<int> {
    Quantize(Fit(Decimal(m.minor * percent.coefficient, percent.exponent - 2)))
  }

  /** The context does not show as long as the product has at most 28 digits. */
  lemma PercentageFits(m: Money, percent: Decimal)
    requires Abs(m.minor * percent.coefficient) < LIMIT
    ensures PercentageInContext(m, percent) ==
            if Abs(Percentage(m, percent).minor) < LIMIT then Some(Percentage(m, percent).minor) else None
  {
    var e := percent.exponent;
    var hundredth := Decimal(m.minor * percent.coefficient, e - 2);
    ShortStays(hundredth);
    HundredTimes(hundredth);
    if e >= 0 {
      MulRegroup(m.minor, percent.coefficient, Pow10(e));
    }
  }

  lemma HundredTimes(d: Decimal)
    ensures var whole := Decimal(d.coefficient, d.exponent + 2);
            HalfUp(Num(whole), 100 * Den(whole)) == HalfUp(Num(d), Den(d))
  {
    var c, e := d.coefficient, d.exponent;
    assert Pow10(0) == 1 && Pow10(1) == 10 && Pow10(2) == 100;
    if e >= 0 {
      MoreDigits(c, e, 2);
      HalfUpOfScaled(c * Pow10(e), 1, 100);
    } else if e == -1 {
      HalfUpOfScaled(c, 10, 10);
    } else {
      Pow10Adds(2, -e - 2);
    }
  }

  lemma MulOrder(a: int, b: int, c: int)
    requires a >= 0 && b <= c
    ensures a * b <= a * c
  {
  }

  // ---------------------------------------------------------------- allocation

  predicate GoodWeights(weights: seq<int>) {
    weights != [] && (forall i :: 0 <= i < |weights| ==> weights[i] >= 0) && Sum(weights) != 0
  }

  function CountPositive(weights: seq<int>): nat {
    if weights == [] then 0
    else CountPositive(weights[..|weights| - 1]) + (if weights[|weights| - 1] > 0 then 1 else 0)
  }

  lemma {:induction false} CountPositiveMeaning(weights: seq<int>)
    ensures CountPositive(weights) == |set i | 0 <= i < |weights| && weights[i] > 0|
  {
    if weights != [] {
      var n := |weights| - 1;
      CountPositiveMeaning(weights[..n]);
      assert (set i | 0 <= i < |weights| && weights[i] > 0)
          == (set i | 0 <= i < n && weights[..n][i] > 0) + if weights[n] > 0 then {n} else {};
    }
  }

  function Quotas(amount: int, weights: seq<int>, total: int): (q: seq<int>)
    requires total > 0
    ensures |q| == |weights|
  {
    seq(|weights|, i requires 0 <= i < |weights| => amount * weights[i] / total)
  }

  lemma {:induction false} SumNonNegative(s: seq<int>)
    requires forall i :: 0 <= i < |s| ==> s[i] >= 0
    ensures Sum(s) >= 0
    ensures CountPositive(s) <= |s|
    ensures Sum(s) > 0 ==> CountPositive(s) > 0
  {
    if s != [] {
      SumNonNegative(s[..|s| - 1]);
    }
  }

  lemma DivFacts(x: int, d: int)
    requires d > 0
    ensures x == d * (x / d) + x % d && 0 <= x % d < d
  {
  }

  lemma Distribute(a: int, b: int, c: int)
    ensures a * (b + c) == a * b + a * c
  {
  }

  /** What flooring loses, weight by weight. */
  lemma {:induction false} FlooringLoss(amount: int, weights: seq<int>, total: int)
    requires total > 0 && forall i :: 0 <= i < |weights| ==> weights[i] >= 0
    ensures 0 <= amount * Sum(weights) - total * Sum(Quotas(amount, weights, total)) <= (total - 1) * CountPositive(weights)
  {
    if weights != [] {
      var k := |weights| - 1;
      var init, w := weights[..k], weights[k];
      FlooringLoss(amount, init, total);
      var q := Quotas(amount, weights, total);
      assert q[..k] == Quotas(amount, init, total);
      LastLoss(amount, w, total);
      Distribute(amount, Sum(init), w);
      Distribute(total, Sum(q[..k]), q[k]);
      Distribute(total - 1, CountPositive(init), if w > 0 then 1 else 0);
    }
  }

  lemma LastLoss(amount: int, w: int, total: int)
    requires total > 0 && w >= 0
    ensures 0 <= amount * w - total * (amount * w / total) <= (total - 1) * (if w > 0 then 1 else 0)
  {
    DivFacts(amount * w, total);
    if w == 0 {
      assert amount * w == 0;
    }
  }

  lemma SmallQuotient(r: int, p: nat, total: int, scaled: int)
    requires total > 0 && p > 0 && scaled == total * r
    requires 0 <= scaled <= (total - 1) * p
    ensures 0 <= r < p
  {
    Distribute(p, total - 1, 1);
    assert (total - 1) * p == p * (total - 1) && p * total == total * p;
    if r >= p {
      MulOrder(total, p, r);
    }
    if r < 0 {
      MulOrder(total, r, -1);
    }
  }

  lemma LossIsRemainder(amount: int, given: int, total: int, p: nat)
    requires total > 0 && p > 0
    requires 0 <= amount * total - total * given <= (total - 1) * p
    ensures 0 <= amount - given < p
  {
    MulSub(amount, given, total);
    SmallQuotient(amount - given, p, total, amount * total - total * given);
  }

  /** The remainder is smaller than the number of positive weights, so the
      wrap-around in `allocate` is never used. */
  lemma RemainderIsSmall(amount: int, weights: seq<int>)
    requires GoodWeights(weights)
    ensures Sum(weights) > 0
    ensures 0 <= amount - Sum(Quotas(amount, weights, Sum(weights))) < CountPositive(weights) <= |weights|
  {
    SumNonNegative(weights);
    FlooringLoss(amount, weights, Sum(weights));
    LossIsRemainder(amount, Sum(Quotas(amount, weights, Sum(weights))), Sum(weights), CountPositive(weights));
  }

  lemma NoWrap(i: nat, n: nat)
    requires i < n
    ensures i % n == i
  {
  }

  /** Splits an amount by weights without losing a minor unit. */
  method Allocate(m: Money, weights: seq<int>) returns (r: Result<seq<Money>, MoneyError>)
    ensures r.Failure? <==> !GoodWeights(weights)
    ensures r.Success? ==> |r.value| == |weights| && Sum(Minors(r.value)) == m.minor
    ensures r.Success? ==> Sum(weights) > 0
    ensures r.Success? ==> 0 <= Remainder(m.minor, weights) < CountPositive(weights)
    ensures r.Success? ==> forall i :: 0 <= i < |weights| ==> r.value[i] == Money(Share(m.minor, weights, i), m.currency)
  {
    if weights == [] || (exists i :: 0 <= i < |weights| && weights[i] < 0) || Sum(weights) == 0 {
      return Failure(BadWeights);
    }
    RemainderIsSmall(m.minor, weights);
    var quotas := Quotas(m.minor, weights, Sum(weights));
    var shares := quotas;
    var remainder := m.minor - Sum(shares);
    for i := 0 to remainder
      invariant |shares| == |weights|
      invariant Sum(shares) == Sum(quotas) + i
      invariant forall k :: 0 <= k < |shares| ==> shares[k] == quotas[k] + (if k < i then 1 else 0)
    {
      NoWrap(i, |shares|);
      var position := i % |shares|;
      SumUpdate(shares, position, shares[position] + 1);
      shares := shares[position := shares[position] + 1];
    }
    var moneys := seq(|shares|, i requires 0 <= i < |shares| => Money(shares[i], m.currency));
    assert Minors(moneys) == shares;
    r := Success(moneys);
  }

  function Minors(ms: seq<Money>): (s: seq<int>)
    ensures |s| == |ms|
  {
    seq(|ms|, i requires 0 <= i < |ms| => ms[i].minor)
  }

  /** What flooring every quota leaves to hand out. */
  function Remainder(amount: int, weights: seq<int>): int
    requires Sum(weights) > 0
  {
    amount - Sum(Quotas(amount, weights, Sum(weights)))
  }

  /** The share position i receives: its floored quota, and one of the first
      units of the remainder. */
  function Share(amount: int, weights: seq<int>, i: nat): int
    requires Sum(weights) > 0 && i < |weights|
  {
    Quotas(amount, weights, Sum(weights))[i] + (if i < Remainder(amount, weights) then 1 else 0)
  }

  /** Fairness: at equal weight, the earlier position gets at least as much and
      at most one unit more; every share is within one unit of the exact quota. */
  lemma EarlierIsFavoured(amount: int, weights: seq<int>, i: nat, j: nat)
    requires GoodWeights(weights) && Sum(weights) > 0 && i < j < |weights|
    requires weights[i] == weights[j]
    ensures Share(amount, weights, j) <= Share(amount, weights, i) <= Share(amount, weights, j) + 1
    ensures -Sum(weights) < Sum(weights) * Share(amount, weights, i) - amount * weights[i] <= Sum(weights)
  {
    var total, exact := Sum(weights), amount * weights[i];
    DivFacts(exact, total);
    Distribute(total, exact / total, 1);
  }

  /** The remainder goes to the first positions whatever their weight: a
      position with no weight is given a unit exactly when it is among them. */
  lemma WeightlessShare(amount: int, weights: seq<int>, i: nat)
    requires GoodWeights(weights) && Sum(weights) > 0 && i < |weights| && weights[i] == 0
    ensures Share(amount, weights, i) == if i < Remainder(amount, weights) then 1 else 0
  {
    assert amount * weights[i] == 0;
  }

  lemma WeightlessCanReceive()
    ensures GoodWeights([0, 1, 1]) && Sum([0, 1, 1]) > 0 && Share(1, [0, 1, 1], 0) == 1
  {
    var w := [0, 1, 1];
    assert w[..2] == [0, 1] && w[..2][..1] == [0] && w[..2][..1][..0] == [];
    assert Sum([0]) == 0 && Sum([0, 1]) == 1 && Sum(w) == 2;
    var q := Quotas(1, w, 2);
    assert q == [0, 0, 0];
    assert q[..2] == [0, 0] && q[..2][..1] == [0] && q[..2][..1][..0] == [];
    assert Sum([0, 0]) == 0 && Sum(q) == 0;
  }
}
