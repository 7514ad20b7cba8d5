/** Material quantities of common/quantities.py and the two JSON codecs of
    common/serializers.py. */
module Quantities {
  import opened Wrappers
  import opened Rounding
  import opened DecimalContext
  import opened DecimalText
  import Moneys

  datatype Dimension = Mass | Volume | Count

  /** An integer number of base units: milligrams, microlitres, thousandths. */
  datatype Quantity = Quantity(base: int, dimension: Dimension)

  datatype QuantityError =
    | UnknownUnit(unit: string)
    | DimensionMismatch(left: Dimension, right: Dimension)
    | TooPrecise
    | InvalidOperation
    | NotANumber

  datatype Unit = Milligram | Gram | Kilogram | Millilitre | Centilitre | Litre | Piece

  function UnitsInBase(u: Unit): (n: nat)
    ensures n > 0
  {
    match u
    case Milligram => 1
    case Gram => 1000
    case Kilogram => 1000000
    case Millilitre => 1000
    case Centilitre => 10000
    case Litre => 1000000
    case Piece => 1000
  }

  function DimensionOf(u: Unit): Dimension {
    match u
    case Milligram => Mass
    case Gram => Mass
    case Kilogram => Mass
    case Piece => Count
    case _ => Volume
  }

  function UnitName(u: Unit): string {
    match u
    case Milligram => "mg"
    case Gram => "g"
    case Kilogram => "kg"
    case Millilitre => "ml"
    case Centilitre => "cl"
    case Litre => "l"
    case Piece => "unit"
  }

  function UnitNamed(s: string): Option<Unit> {
    if s == "mg" then Some(Milligram)
    else if s == "g" then Some(Gram)
    else if s == "kg" then Some(Kilogram)
    else if s == "ml" then Some(Millilitre)
    else if s == "cl" then Some(Centilitre)
    else if s == "l" then Some(Litre)
    else if s == "unit" then Some(Piece)
    else None
  }

  lemma UnitNamesReadBack(u: Unit)
    ensures UnitNamed(UnitName(u)) == Some(u)
  {
    var s := UnitName(u);
    if |s| == 1 {
      assert s[0] == 'g' || s[0] == 'l';
    } else if |s| == 2 {
      assert s[0] == 'm' || s[0] == 'k' || s[0] == 'c';
      assert s[1] == 'g' || s[1] == 'l';
    }
  }

  function ReferenceUnit(d: Dimension): (u: Unit)
    ensures DimensionOf(u) == d
  {
    match d case Mass => Gram case Volume => Millilitre case Count => Piece
  }

  function CostUnit(d: Dimension): (u: Unit)
    ensures DimensionOf(u) == d
  {
    match d case Mass => Kilogram case Volume => Litre case Count => Piece
  }

  /** The factors are powers of ten: every conversion is a finite decimal. */
  function Places(u: Unit): (k: nat)
    ensures Pow10(k) == UnitsInBase(u)
  {
    assert Pow10(0) == 1 && Pow10(1) == 10 && Pow10(2) == 100 && Pow10(3) == 1000;
    assert Pow10(4) == 10000 && Pow10(5) == 100000 && Pow10(6) == 1000000;
    match u
    case Milligram => 0
    case Kilogram => 6
    case Litre => 6
    case Centilitre => 4
    case _ => 3
  }

  // --------------------------------------------------------------- conversions

  /** The value in base units. */
  function InBase(value: Decimal, unit: Unit): Decimal {
    Decimal(value.coefficient * UnitsInBase(unit), value.exponent)
  }

  /** Refuses what is finer than the base unit instead of rounding it away; but the
      product has been fitted to the context before it is judged. */
  function FromUnit(value: Decimal, unit: Unit): Result<Quantity, QuantityError> {
    match WholeOf(Fit(InBase(value, unit)))
    case TooLong => Failure(InvalidOperation)
    case NotWhole => Failure(TooPrecise)
    case Is(base) => Success(Quantity(base, DimensionOf(unit)))
  }

  function AsUnit(q: Quantity, unit: Unit): Result<Decimal, QuantityError> {
    if DimensionOf(unit) != q.dimension then Failure(DimensionMismatch(q.dimension, DimensionOf(unit)))
    else Success(Fit(Exactly(q, unit)))
  }

  /** The quantity in a unit. */
  function Exactly(q: Quantity, unit: Unit): Decimal {
    Decimal(q.base, -(Places(unit) as int))
  }

  /** A value is accepted exactly when the first 28 digits of what it is in base units
      are a whole number of them, of at most 28 digits; and it becomes that number. */
  lemma FromUnitMeaning(value: Decimal, unit: Unit, base: int)
    ensures FromUnit(value, unit) == Success(Quantity(base, DimensionOf(unit))) <==>
            Abs(base) < LIMIT && SameValue(Decimal(base, 0), Fit(InBase(value, unit)))
  {
    WholeOfIff(Fit(InBase(value, unit)), base);
  }

  lemma ExactlyInBase(q: Quantity, unit: Unit)
    ensures SameValue(InBase(Exactly(q, unit), unit), Decimal(q.base, 0))
  {
    assert Pow10(0) == 1;
    SameValueIff(Decimal(q.base, 0), InBase(Exactly(q, unit), unit));
  }

  /** What is accepted keeps its exact value exactly when nothing but zeros follows
      the 28th digit of what it is in base units. */
  lemma FromUnitIsExactIff(value: Decimal, unit: Unit)
    requires FromUnit(value, unit).Success?
    ensures SameValue(Exactly(FromUnit(value, unit).value, unit), value) <==> DropsNothing(InBase(value, unit).coefficient)
    ensures Abs(InBase(value, unit).coefficient) < LIMIT ==> DropsNothing(InBase(value, unit).coefficient)
  {
    var q, inBase := FromUnit(value, unit).value, InBase(value, unit);
    FromUnitMeaning(value, unit, q.base);
    FitKeepsIff(inBase);
    ExactlyInBase(q, unit);
    ShortDropsNothing(inBase.coefficient);
    if SameValue(Exactly(q, unit), value) {
      TimesKeepsSameValue(Exactly(q, unit), value, UnitsInBase(unit));
      SameValueTrans(Decimal(q.base, 0), InBase(Exactly(q, unit), unit), inBase);
      SameValueTrans(Fit(inBase), Decimal(q.base, 0), inBase);
    }
    if SameValue(Fit(inBase), inBase) {
      SameValueTrans(InBase(Exactly(q, unit), unit), Decimal(q.base, 0), Fit(inBase));
      SameValueTrans(InBase(Exactly(q, unit), unit), Fit(inBase), inBase);
      TimesIsInjective(Exactly(q, unit), value, UnitsInBase(unit));
    }
  }

  lemma TimesIsInjective(a: Decimal, b: Decimal, f: nat)
    requires f > 0 && SameValue(Decimal(a.coefficient * f, a.exponent), Decimal(b.coefficient * f, b.exponent))
    ensures SameValue(a, b)
  {
    var hi, lo := if a.exponent >= b.exponent then a else b, if a.exponent >= b.exponent then b else a;
    var p := Pow10(hi.exponent - lo.exponent);
    SameValueIff(Decimal(hi.coefficient * f, hi.exponent), Decimal(lo.coefficient * f, lo.exponent));
    MulRegroup(hi.coefficient, f, p);
    MulRegroup(hi.coefficient, p, f);
    MulInjective(lo.coefficient, hi.coefficient * p, f);
    SameValueIff(hi, lo);
  }

  /** One milligram and a 10^28th of one is accepted as one milligram. */
  lemma LongTextIsRounded()
    ensures var value := Decimal(LIMIT + 1, -28);
            FromUnit(value, Milligram) == Success(Quantity(1, Mass)) && !SameValue(Exactly(Quantity(1, Mass), Milligram), value)
  {
    var value := Decimal(LIMIT + 1, -28);
    assert InBase(value, Milligram) == value;
    JustOver();
    Pow10Values();
    SameValueIff(Decimal(1, 0), Decimal(LIMIT / 10, -27));
    FromUnitMeaning(value, Milligram, 1);
    FromUnitIsExactIff(value, Milligram);
  }

  /** Reading a value back in the unit it was expressed in, whatever unit of its
      dimension, gives the quantity: for all of at most 28 digits, and no other. */
  lemma FromUnitInvertsAsUnit(q: Quantity, unit: Unit)
    requires DimensionOf(unit) == q.dimension
    ensures AsUnit(q, unit).Success?
    ensures FromUnit(AsUnit(q, unit).value, unit) == Success(q) <==> Abs(q.base) < LIMIT
  {
    var value := AsUnit(q, unit).value;
    FromUnitMeaning(value, unit, q.base);
    if Abs(q.base) < LIMIT {
      ShortStays(Exactly(q, unit));
      ExactlyInBase(q, unit);
      FitKeepsShort(InBase(value, unit), Decimal(q.base, 0));
    }
  }

  /** Two spellings of the same number are the same quantity, or refused alike. */
  lemma FromUnitReadsTheNumber(a: Decimal, b: Decimal, unit: Unit)
    requires SameValue(a, b)
    ensures FromUnit(b, unit) == FromUnit(a, unit)
  {
    TimesKeepsSameValue(a, b, UnitsInBase(unit));
    FitReadsTheNumber(InBase(a, unit), InBase(b, unit));
    WholeReadsTheNumber(Fit(InBase(a, unit)), Fit(InBase(b, unit)));
  }

  /** A kilogram is a thousand grams and a million milligrams; a litre a hundred
      centilitres and a thousand millilitres, of a thousand base units each; a piece a
      thousand thousandths. */
  lemma UnitScales(n: int, unit: Unit)
    requires Abs(n) * 1000000 < LIMIT
    ensures FromUnit(Decimal(n, 0), unit) == Success(match unit
                                                     case Kilogram => Quantity(1000000 * n, Mass)
                                                     case Gram => Quantity(1000 * n, Mass)
                                                     case Milligram => Quantity(n, Mass)
                                                     case Litre => Quantity(1000000 * n, Volume)
                                                     case Centilitre => Quantity(10000 * n, Volume)
                                                     case Millilitre => Quantity(1000 * n, Volume)
                                                     case Piece => Quantity(1000 * n, Count))
  {
    ScaledUnits(n, unit, UnitsInBase(unit));
  }

  lemma ScaledUnits(n: int, unit: Unit, factor: nat)
    requires Abs(n) * 1000000 < LIMIT && factor == UnitsInBase(unit)
    ensures FromUnit(Decimal(n, 0), unit) == Success(Quantity(n * factor, DimensionOf(unit)))
  {
    AbsScales(n, factor);
    Moneys.MulOrder(Abs(n), factor, 1000000);
    WholeUnits(n, unit);
  }

  lemma WholeUnits(n: int, unit: Unit)
    requires Abs(n * UnitsInBase(unit)) < LIMIT
    ensures FromUnit(Decimal(n, 0), unit) == Success(Quantity(n * UnitsInBase(unit), DimensionOf(unit)))
  {
    FromUnitMeaning(Decimal(n, 0), unit, n * UnitsInBase(unit));
    ShortStays(InBase(Decimal(n, 0), unit));
  }

  // -------------------------------------------------------------------- codecs

  datatype QuantityJson = QuantityJson(amount: string, unit: string)

  /** `QuantityField.to_representation`: the reference unit, no trailing zero. */
  function RenderQuantity(q: Quantity): QuantityJson {
    var unit := ReferenceUnit(q.dimension);
    QuantityJson(Fixed(Normalize(AsUnit(q, unit).value)), UnitName(unit))
  }

  /** `QuantityField.to_internal_value` on an object carrying both members. */
  function ParseQuantity(j: QuantityJson): Result<Quantity, QuantityError> {
    match UnitNamed(j.unit)
    case None => Failure(UnknownUnit(j.unit))
    case Some(unit) =>
      match Read(j.amount)
      case None => Failure(NotANumber)
      case Some(value) => FromUnit(value, unit)
  }

  lemma QuantityRoundTrip(q: Quantity)
    ensures ParseQuantity(RenderQuantity(q)) == Success(q) <==> Abs(q.base) < LIMIT
  {
    var unit := ReferenceUnit(q.dimension);
    UnitNamesReadBack(unit);
    FromUnitInvertsAsUnit(q, unit);
    var value := AsUnit(q, unit).value;
    var shown := Normalize(value);
    NormalizeKeepsValue(value);
    FixedReadsBack(shown);
    var back := Read(Fixed(shown)).value;
    SameValueTrans(back, shown, value);
    FromUnitReadsTheNumber(value, back, unit);
  }

  datatype MoneyJson = MoneyJson(amount: string, currency: string)

  function RenderMoney(m: Moneys.Money): MoneyJson {
    MoneyJson(if m.minor < 0 then "-" + Digits(-m.minor) else Digits(m.minor), m.currency)
  }

  datatype MoneyFieldError = NotAnInteger | UnknownCurrency(code: string)

  /** `MoneyField.to_internal_value`: an integer of minor units, or refused. */
  function ParseMoney(j: MoneyJson): Result<Moneys.Money, MoneyFieldError> {
    match ReadInt(j.amount)
    case None => Failure(NotAnInteger)
    case Some(n) =>
      if !Moneys.Known(j.currency) then Failure(UnknownCurrency(j.currency))
      else Success(Moneys.Money(n, j.currency))
  }

  lemma PlainReadsBack(n: nat)
    ensures ReadInt(Digits(n)).Some? && ReadInt(Digits(n)).value == n
  {
    DigitsRead(n);
    assert IsDigit(Digits(n)[0]);
  }

  lemma NegativeReadsBack(n: nat)
    ensures ReadInt("-" + Digits(n)).Some? && n + ReadInt("-" + Digits(n)).value == 0
  {
    DigitsRead(n);
    assert ("-" + Digits(n))[1..] == Digits(n);
  }

  lemma AmountReadsBack(m: Moneys.Money)
    ensures ReadInt(RenderMoney(m).amount) == Some(m.minor)
  {
    if m.minor < 0 {
      NegativeReadsBack(-m.minor);
    } else {
      PlainReadsBack(m.minor);
    }
  }

  lemma MoneyRoundTrip(m: Moneys.Money)
    requires Moneys.Known(m.currency)
    ensures ParseMoney(RenderMoney(m)) == Success(m)
  {
    AmountReadsBack(m);
  }

  lemma {:induction false} NoLeadingZero(n: nat)
    ensures Digits(n)[0] == '0' ==> n == 0
  {
    if n >= 10 {
      NoLeadingZero(n / 10);
      assert Digits(n)[0] == Digits(n / 10)[0];
    }
  }

  /** An amount is shown with a sign exactly when it is negative, and without zeros in
      front. */
  lemma AmountIsShownPlainly(m: Moneys.Money)
    ensures var text := RenderMoney(m).amount;
            && text != "" && (text[0] == '-' <==> m.minor < 0)
            && (m.minor < 0 ==> |text| > 1 && text[1] != '0')
            && (m.minor > 0 ==> text[0] != '0')
            && (m.minor == 0 ==> text == "0")
  {
    NoLeadingZero(Abs(m.minor));
    assert IsDigit(Digits(Abs(m.minor))[0]);
  }

  /** A decimal point is refused, wherever it stands: a major amount is never
      silently read as a minor one. */
  lemma PointIsRefused(j: MoneyJson)
    requires '.' in j.amount
    ensures ParseMoney(j) == Failure(NotAnInteger)
  {
    var s := j.amount;
    var body := if s != "" && (s[0] == '-' || s[0] == '+') then s[1..] else s;
    var i :| 0 <= i < |s| && s[i] == '.';
    assert '.' in body by {
      if body != s { assert body[i - 1] == '.'; }
    }
    var k :| 0 <= k < |body| && body[k] == '.';
    assert !IsDigit(body[k]);
  }

  // ----------------------------------------------------------------- valuation

  function CostDivisor(d: Dimension): (n: nat)
    ensures n > 0
  {
    UnitsInBase(CostUnit(d))
  }

  /** The exact valuation, rounded once. */
  function Valuation(q: Quantity, cost: int): int {
    HalfUp(q.base * cost, CostDivisor(q.dimension))
  }

  /** What the code does: the product and its quotient are fitted to the context
      before the rounding. None is InvalidOperation. */
  function ValueMinor(q: Quantity, cost: int): Option<int> {
    Quantize(Fit(Decimal(q.base * cost, -(Places(CostUnit(q.dimension)) as int))))
  }

  /** The exact valuation is the nearest minor unit, and its sign follows the quantity. */
  lemma ValuationMeaning(q: Quantity, cost: int)
    ensures IsNearest(Valuation(q, cost), q.base * cost, CostDivisor(q.dimension))
    ensures Valuation(Quantity(-q.base, q.dimension), cost) == -Valuation(q, cost)
  {
    HalfUpIsNearest(q.base * cost, CostDivisor(q.dimension));
    MulSub(0, q.base, cost);
    HalfUpIsOdd(q.base * cost, CostDivisor(q.dimension));
  }

  function CostPlaces(d: Dimension): (p: nat)
    ensures Pow10(p) == CostDivisor(d)
  {
    Places(CostUnit(d))
  }

  lemma ValueMinorIsTwice(q: Quantity, cost: int)
    ensures var product := q.base * cost;
            var r := Twice(Abs(product), CostPlaces(q.dimension));
            ValueMinor(q, cost) == if Abs(r) < LIMIT then Some(if product < 0 then -r else r) else None
  {
    var n := Abs(q.base * cost);
    var fitted := Fit(Decimal(n, -(CostPlaces(q.dimension) as int)));
    HalfUpIsOdd(Num(fitted), Den(fitted));
    if fitted.exponent >= 0 { MulSub(0, fitted.coefficient, Pow10(fitted.exponent)); }
  }

  /** `value_minor` answers exactly when the exact product is below 10^28 - 1/2 costs
      of one unit. */
  lemma ValueMinorAnswersIff(q: Quantity, cost: int)
    ensures ValueMinor(q, cost).Some? <==> 2 * Abs(q.base * cost) < (2 * LIMIT - 1) * CostDivisor(q.dimension)
  {
    ValueMinorIsTwice(q, cost);
    TwiceFitsIff(Abs(q.base * cost), CostPlaces(q.dimension));
  }

  /** ... and its answer is the exact valuation, rounded once, exactly unless fitting
      the product slips: never for a product of at most 28 digits. */
  lemma ValueMinorMeaning(q: Quantity, cost: int)
    requires ValueMinor(q, cost).Some?
    ensures ValueMinor(q, cost) == Some(Valuation(q, cost)) <==> !Slips(Abs(q.base * cost), CostPlaces(q.dimension))
    ensures Abs(q.base * cost) < LIMIT ==> !Slips(Abs(q.base * cost), CostPlaces(q.dimension))
  {
    var product, p := q.base * cost, CostPlaces(q.dimension);
    ValueMinorIsTwice(q, cost);
    TwiceFitsIff(Abs(product), p);
    TwiceIsOnceIff(Abs(product), p);
    HalfUpIsOdd(product, CostDivisor(q.dimension));
    if Abs(product) < LIMIT { ShortNeverSlips(Abs(product), p); }
  }

  lemma ShortProduct(q: Quantity, cost: int)
    requires Abs(q.base * cost) < LIMIT
    ensures ValueMinor(q, cost) == Some(Valuation(q, cost))
  {
    NoExcess(Abs(q.base * cost), CostDivisor(q.dimension));
    ValueMinorAnswersIff(q, cost);
    ValueMinorMeaning(q, cost);
  }

  /** Costs are told per kilogram, per litre and per piece: one of them costs exactly its
      cost, and n of them n times as much. */
  lemma CostIsPerUnit(n: int, cost: int, unit: Unit)
    requires unit == Kilogram || unit == Litre || unit == Piece
    requires Abs(n * UnitsInBase(unit)) < LIMIT && Abs(n * UnitsInBase(unit) * cost) < LIMIT
    ensures FromUnit(Decimal(n, 0), unit).Success?
    ensures ValueMinor(FromUnit(Decimal(n, 0), unit).value, cost) == Some(n * cost)
  {
    var d := UnitsInBase(unit);
    var q := Quantity(n * d, DimensionOf(unit));
    WholeUnits(n, unit);
    ShortProduct(q, cost);
    MulRegroup(n, d, cost);
    MulRegroup(n, cost, d);
    HalfUpOfMultiple(n * cost, d);
  }

  /** A unit nobody knows is refused by its name, and a unit of another dimension by both. */
  lemma UnitsRefused(j: QuantityJson, q: Quantity, unit: Unit)
    ensures j.unit !in {"mg", "g", "kg", "ml", "cl", "l", "unit"} <==> UnitNamed(j.unit) == None
    ensures UnitNamed(j.unit) == None ==> ParseQuantity(j) == Failure(UnknownUnit(j.unit))
    ensures AsUnit(q, unit).Failure? <==> DimensionOf(unit) != q.dimension
  {
  }

  /** An amount that is no integer is refused as that, and one in a currency nobody knows
      by its name. */
  lemma AmountsRefused(m: MoneyJson)
    ensures match ReadInt(m.amount)
            case None => ParseMoney(m) == Failure(NotAnInteger)
            case Some(n) => ParseMoney(m) == if Moneys.Known(m.currency) then Success(Moneys.Money(n, m.currency)) else Failure(UnknownCurrency(m.currency))
  {
  }

  /** Quantities are shown in grams, millilitres and pieces. */
  lemma ShownIn(q: Quantity)
    ensures RenderQuantity(q).unit == match q.dimension case Mass => "g" case Volume => "ml" case Count => "unit"
  {
  }

  /** A hundred thousand tonnes and a milligram: fitting the product takes
      it up to half way, and the answer is one unit too many. */
  lemma ValueMinorCanSlip()
    ensures var q, cost := Quantity(100000000000001, Mass), 100000000499995;
            ValueMinor(q, cost).Some? && ValueMinor(q, cost) != Some(Valuation(q, cost))
  {
    var q, cost := Quantity(100000000000001, Mass), 100000000499995;
    var n: nat := 10000000049999600000000499995;
    assert q.base * cost == n;
    assert CostDivisor(Mass) == 1000000 && CostPlaces(Mass) == 6;
    assert Excess(n / 10) == 0 && Excess(n) == 1;
    assert Pow10(0) == 1 && Pow10(1) == 10 && Pow10(2) == 100 && Pow10(3) == 1000 && Pow10(4) == 10000 && Pow10(5) == 100000;
    assert NearestEven(n, 10) == 1000000004999960000000050000;
    ValueMinorAnswersIff(q, cost);
    ValueMinorMeaning(q, cost);
  }

  function Values(bases: seq<int>, dimension: Dimension, cost: int): (v: seq<int>)
    ensures |v| == |bases|
  {
    seq(|bases|, i requires 0 <= i < |bases| => Valuation(Quantity(bases[i], dimension), cost))
  }

  lemma AddLoss(exact: int, scaled: int, a: int, b: int, v: int, w: int, cost: int, d: nat, n: nat)
    requires exact == a * cost && scaled == v * d
    requires 2 * Abs(scaled - exact) <= n * d
    requires 2 * Abs(w * d - b * cost) <= d
    ensures 2 * Abs((v + w) * d - (a + b) * cost) <= (n + 1) * d
  {
    assert (v + w) * d == v * d + w * d;
    assert (a + b) * cost == a * cost + b * cost;
    assert (n + 1) * d == n * d + d;
  }

  /** Valuing n quantities one by one loses at most half a unit each. */
  lemma {:induction false} PiecewiseLoss(bases: seq<int>, dimension: Dimension, cost: int)
    ensures 2 * Abs(Sum(Values(bases, dimension, cost)) * CostDivisor(dimension) - Sum(bases) * cost)
            <= |bases| * CostDivisor(dimension)
  {
    if bases != [] {
      var k := |bases| - 1;
      var init, last := bases[..k], bases[k];
      var d := CostDivisor(dimension);
      var v := Values(bases, dimension, cost);
      PiecewiseLoss(init, dimension, cost);
      assert v[..k] == Values(init, dimension, cost);
      HalfUpIsNearest(last * cost, d);
      AddLoss(Sum(init) * cost, Sum(v[..k]) * d, Sum(init), last, Sum(v[..k]), v[k], cost, d, k);
    }
  }

  lemma CancelHalf(a: int, b: int, exact: int, d: nat, n: nat)
    requires d > 0
    requires 2 * Abs(a * d - exact) <= n * d
    requires 2 * Abs(b * d - exact) <= d
    ensures 2 * Abs(a - b) <= n + 1
  {
    var gap := a - b;
    MulSub(a, b, d);
    AbsScales(gap, d);
    assert (n + 1) * d == n * d + d;
    assert (2 * Abs(gap)) * d == 2 * (Abs(gap) * d);
    MulCancels(2 * Abs(gap), n + 1, d);
  }

  lemma Gap(a: int, b: int, exact: int, d: nat, n: nat)
    requires d > 0 && IsNearest(b, exact, d)
    requires 2 * Abs(a * d - exact) <= n * d
    ensures 2 * Abs(a - b) <= n + 1
  {
    CancelHalf(a, b, exact, d, n);
  }

  /** ... so it stays within (n+1)/2 of valuing the total exactly. */
  lemma PiecesAndWhole(bases: seq<int>, dimension: Dimension, cost: int)
    ensures 2 * Abs(Sum(Values(bases, dimension, cost)) - Valuation(Quantity(Sum(bases), dimension), cost)) <= |bases| + 1
  {
    var whole := Quantity(Sum(bases), dimension);
    PiecewiseLoss(bases, dimension, cost);
    ValuationMeaning(whole, cost);
    Gap(Sum(Values(bases, dimension, cost)), Valuation(whole, cost), Sum(bases) * cost, CostDivisor(dimension), |bases|);
  }

  /** ... and so of what `value_minor` answers for the total, as long as no product has
      more than 28 digits. */
  lemma SplittingLoss(bases: seq<int>, dimension: Dimension, cost: int)
    requires Abs(Sum(bases) * cost) < LIMIT && forall i :: 0 <= i < |bases| ==> Abs(bases[i] * cost) < LIMIT
    ensures forall i :: 0 <= i < |bases| ==> ValueMinor(Quantity(bases[i], dimension), cost) == Some(Values(bases, dimension, cost)[i])
    ensures var whole := ValueMinor(Quantity(Sum(bases), dimension), cost);
            whole.Some? && 2 * Abs(Sum(Values(bases, dimension, cost)) - whole.value) <= |bases| + 1
  {
    forall i | 0 <= i < |bases|
      ensures ValueMinor(Quantity(bases[i], dimension), cost) == Some(Values(bases, dimension, cost)[i])
    {
      ShortProduct(Quantity(bases[i], dimension), cost);
    }
    PiecesAndWhole(bases, dimension, cost);
    ShortProduct(Quantity(Sum(bases), dimension), cost);
  }
}
