/** The default context of Python's decimal module, in which common/money.py and
    common/quantities.py compute: every result is rounded to 28 significant digits,
    and `quantize` fails when its result needs more. */
module DecimalContext {
  import opened Wrappers
  import opened Rounding

  /** The first integer of 29 digits. */
  const LIMIT: nat := 10000000000000000000000000000

  /** How many digits beyond 28 an integer has. */
  function Excess(n: nat): nat {
    if n < LIMIT then 0 else 1 + Excess(n / 10)
  }

  /** The nearest decimal of 28 digits, halves to the even digit. */
  function Fit(d: Decimal): Decimal {
    var k := Excess(Abs(d.coefficient));
    var n := NearestEven(Abs(d.coefficient), Pow10(k));
    Decimal(if d.coefficient < 0 then -n else n, d.exponent + k)
  }

  /** `quantize(Decimal(1), rounding=ROUND_HALF_UP)`; None is InvalidOperation. */
  function Quantize(d: Decimal): Option<int> {
    var r := HalfUp(Num(d), Den(d));
    if Abs(r) < LIMIT then Some(r) else None
  }

  /** All digits after the 28th are zeros. */
  predicate DropsNothing(coefficient: int) {
    Abs(coefficient) % Pow10(Excess(Abs(coefficient))) == 0
  }

  // ------------------------------------------------------------------ same number

  /** One number written with two exponents. */
  lemma SameValueIff(a: Decimal, b: Decimal)
    requires a.exponent >= b.exponent
    ensures SameValue(a, b) <==> b.coefficient == a.coefficient * Pow10(a.exponent - b.exponent)
  {
    var e, f := a.exponent, b.exponent;
    if f >= 0 {
      MoreDigits(a.coefficient, e - f, f);
      MulInjective(a.coefficient * Pow10(e - f), b.coefficient, Pow10(f));
    } else if e >= 0 {
      MoreDigits(a.coefficient, e, -f);
    } else {
      MoreDigits(a.coefficient, e - f, -e);
      MulInjective(a.coefficient * Pow10(e - f), b.coefficient, Pow10(-e));
    }
  }

  lemma MoreDigits(c: int, m: nat, n: nat)
    ensures c * Pow10(m + n) == (c * Pow10(m)) * Pow10(n)
  {
    Pow10Adds(m, n);
    MulRegroup(c, Pow10(m), Pow10(n));
  }

  lemma MulInjective(x: int, y: int, d: int)
    requires d > 0
    ensures x * d == y * d <==> x == y
  {
    MulCancels(x, y, d);
    MulCancels(y, x, d);
  }

  /** Moving the point of both moves nothing between them. */
  lemma ShiftKeepsSameValue(a: Decimal, b: Decimal, places: int)
    ensures SameValue(a, b) <==> SameValue(Decimal(a.coefficient, a.exponent + places), Decimal(b.coefficient, b.exponent + places))
  {
    var s, t := Decimal(a.coefficient, a.exponent + places), Decimal(b.coefficient, b.exponent + places);
    if a.exponent >= b.exponent {
      SameValueIff(a, b);
      SameValueIff(s, t);
    } else {
      SameValueIff(b, a);
      SameValueIff(t, s);
    }
  }

  /** A multiple in other digits. */
  lemma TimesKeepsSameValue(a: Decimal, b: Decimal, f: int)
    requires SameValue(a, b)
    ensures SameValue(Decimal(a.coefficient * f, a.exponent), Decimal(b.coefficient * f, b.exponent))
  {
    var hi, lo := if a.exponent >= b.exponent then a else b, if a.exponent >= b.exponent then b else a;
    SameValueIff(hi, lo);
    SameValueIff(Decimal(hi.coefficient * f, hi.exponent), Decimal(lo.coefficient * f, lo.exponent));
    var p := Pow10(hi.exponent - lo.exponent);
    MulRegroup(hi.coefficient, p, f);
    MulRegroup(hi.coefficient, f, p);
  }

  // ---------------------------------------------------------------- what is kept

  lemma ShortStays(d: Decimal)
    requires Abs(d.coefficient) < LIMIT
    ensures Fit(d) == d
  {
    assert Pow10(0) == 1;
  }

  lemma ExactPart(n: nat, p: int)
    requires p > 0
    ensures NearestEven(n, p) * p == n <==> n % p == 0
  {
    if NearestEven(n, p) * p == n {
      QuotientIs(n, p, NearestEven(n, p), 0);
    }
  }

  lemma ShortDropsNothing(coefficient: int)
    ensures Abs(coefficient) < LIMIT ==> DropsNothing(coefficient)
  {
    assert Pow10(0) == 1;
  }

  /** Fitting keeps a number exactly when only zeros are dropped. */
  lemma FitKeepsIff(d: Decimal)
    ensures SameValue(Fit(d), d) <==> DropsNothing(d.coefficient)
  {
    var n := Abs(d.coefficient);
    var p := Pow10(Excess(n));
    SameValueIff(Fit(d), d);
    ExactPart(n, p);
    MulSub(0, NearestEven(n, p), p);
  }

  /** ... and moves it by at most half a unit of the 28th digit. */
  lemma FitIsNear(d: Decimal)
    ensures Fit(d).exponent >= d.exponent
    ensures 2 * Abs(Fit(d).coefficient * Pow10(Fit(d).exponent - d.exponent) - d.coefficient) <= Pow10(Fit(d).exponent - d.exponent)
  {
    var n := Abs(d.coefficient);
    var p := Pow10(Excess(n));
    NearestEvenIsNear(n, p);
    MulSub(0, NearestEven(n, p), p);
  }

  lemma {:induction false} ExcessBounds(n: nat)
    requires n >= LIMIT
    ensures Excess(n) > 0 && Pow10(Excess(n)) * (LIMIT / 10) <= n < Pow10(Excess(n)) * LIMIT
  {
    if n / 10 < LIMIT {
      assert Excess(n) == 1 && Pow10(1) == 10 * Pow10(0);
    } else {
      ExcessBounds(n / 10);
      MulRegroup(10, Pow10(Excess(n / 10)), LIMIT / 10);
      MulRegroup(10, Pow10(Excess(n / 10)), LIMIT);
    }
  }

  lemma NearestEvenOfTen(n: nat, p: int)
    requires p > 0
    ensures NearestEven(10 * n, 10 * p) == NearestEven(n, p)
  {
    var q, r := n / p, n % p;
    MulRegroup(10, q, p);
    QuotientIs(10 * n, 10 * p, q, 10 * r);
  }

  /** A zero at the end makes no difference. */
  lemma FitShift(c: int, e: int)
    ensures SameValue(Fit(Decimal(10 * c, e)), Fit(Decimal(c, e + 1)))
  {
    var n := Abs(c);
    assert Abs(10 * c) == 10 * n && (10 * n) / 10 == n;
    if 10 * n < LIMIT {
      ShortStays(Decimal(10 * c, e));
      ShortStays(Decimal(c, e + 1));
      assert Pow10(1) == 10 * Pow10(0);
      SameValueIff(Decimal(c, e + 1), Decimal(10 * c, e));
    } else {
      assert Excess(10 * n) == 1 + Excess(n);
      NearestEvenOfTen(n, Pow10(Excess(n)));
    }
  }

  lemma {:induction false} FitScaled(c: int, e: int, j: nat)
    ensures SameValue(Fit(Decimal(c, e + j)), Fit(Decimal(c * Pow10(j), e)))
    decreases j
  {
    if j > 0 {
      var x := c * Pow10(j - 1);
      MulRegroup(10, c, Pow10(j - 1));
      MulRegroup(c, 10, Pow10(j - 1));
      assert c * Pow10(j) == 10 * x;
      FitScaled(c, e + 1, j - 1);
      FitShift(x, e);
      SameValueTrans(Fit(Decimal(c, e + j)), Fit(Decimal(x, e + 1)), Fit(Decimal(10 * x, e)));
    } else {
      assert c * Pow10(0) == c;
    }
  }

  /** Two spellings of one number fit to one number. */
  lemma FitReadsTheNumber(a: Decimal, b: Decimal)
    requires SameValue(a, b)
    ensures SameValue(Fit(a), Fit(b))
  {
    if a.exponent >= b.exponent {
      SameValueIff(a, b);
      FitScaled(a.coefficient, b.exponent, a.exponent - b.exponent);
    } else {
      SameValueIff(b, a);
      FitScaled(b.coefficient, a.exponent, b.exponent - a.exponent);
    }
  }

  /** A number that some 28 digits write is kept, however it is spelled. */
  lemma FitKeepsShort(d: Decimal, short: Decimal)
    requires Abs(short.coefficient) < LIMIT && SameValue(d, short)
    ensures SameValue(Fit(d), short)
  {
    ShortStays(short);
    FitReadsTheNumber(d, short);
  }

  lemma Pow10Values()
    ensures Pow10(25) * 1000 == LIMIT && Pow10(27) * 10 == LIMIT
  {
    assert Pow10(0) == 1 && Pow10(1) == 10 && Pow10(2) == 100 && Pow10(3) == 1000 && Pow10(4) == 10000 && Pow10(5) == 100000;
    Pow10Adds(5, 5);
    Pow10Adds(10, 10);
    Pow10Adds(20, 5);
    Pow10Adds(25, 2);
  }

  /** 29 digits of which the last is a one. */
  lemma JustOver()
    ensures Excess(LIMIT + 1) == 1 && !DropsNothing(LIMIT + 1)
    ensures Fit(Decimal(LIMIT + 1, -28)) == Decimal(LIMIT / 10, -27)
  {
    assert Excess((LIMIT + 1) / 10) == 0;
    assert Pow10(1) == 10 * Pow10(0);
  }

  // ------------------------------------------------------- "refuse, do not round"

  /** `from_major` and `from_unit` end alike: what was computed, if it is whole. */
  datatype Whole = Is(n: int) | NotWhole | TooLong

  function WholeOf(d: Decimal): Whole {
    match Quantize(d)
    case None => TooLong
    case Some(r) => if Num(d) == r * Den(d) then Is(r) else NotWhole
  }

  lemma WholeReadsTheNumber(a: Decimal, b: Decimal)
    requires SameValue(a, b)
    ensures HalfUp(Num(a), Den(a)) == HalfUp(Num(b), Den(b))
    ensures WholeOf(a) == WholeOf(b)
  {
    HalfUpOfScaled(Num(a), Den(a), Den(b));
    HalfUpOfScaled(Num(b), Den(b), Den(a));
    assert Den(a) * Den(b) == Den(b) * Den(a);
    var r := HalfUp(Num(a), Den(a));
    if Num(a) == r * Den(a) { SameWhole(Num(a), Den(a), Num(b), Den(b), r); }
    if Num(b) == r * Den(b) { SameWhole(Num(b), Den(b), Num(a), Den(a), r); }
  }

  lemma SameWhole(na: int, da: int, nb: int, db: int, r: int)
    requires da > 0 && db > 0 && na * db == nb * da && na == r * da
    ensures nb == r * db
  {
    MulRegroup(r, da, db);
    MulRegroup(r, db, da);
    MulInjective(nb, r * db, da);
  }

  lemma WholeOfIff(d: Decimal, n: int)
    ensures WholeOf(d) == Is(n) <==> Abs(n) < LIMIT && SameValue(Decimal(n, 0), d)
  {
    assert Pow10(0) == 1;
    if Num(d) == n * Den(d) {
      HalfUpOfMultiple(n, Den(d));
    }
  }

  // --------------------------------------------------------------- rounding twice

  /** A product n, fitted, divided by 10^p and rounded half up: what it becomes. */
  function Twice(n: nat, p: nat): int {
    var d := Fit(Decimal(n, -(p as int)));
    HalfUp(Num(d), Den(d))
  }

  /** Fitting takes n up to just half way between two integers; or it rounds a half to
      the even integer, which lies below. */
  predicate Slips(n: nat, p: nat) {
    var k := Excess(n);
    var fitted := NearestEven(n, Pow10(k));
    if k < p then fitted * Pow10(k) > n && 2 * (fitted % Pow10(p - k)) == Pow10(p - k)
    else 2 * (n - fitted * Pow10(k)) == Pow10(k)
  }

  /** The next integer is in the next interval exactly when it begins it. */
  lemma NextQuotient(x: int, d: int)
    requires d > 0
    ensures (x + 1) / d == x / d <==> (x + 1) % d != 0
  {
    var q, r := x / d, x % d;
    MulSub(q + 1, q, d);
    if r + 1 < d {
      QuotientIs(x + 1, d, q, r + 1);
    } else {
      QuotientIs(x + 1, d, q + 1, 0);
    }
  }

  /** Rounding down to multiples of a first does not show. */
  lemma HalfUpOfFloor(n: nat, a: int, h: int)
    requires a > 0 && h > 0
    ensures a * (2 * h) > 0 && HalfUp(n, a * (2 * h)) == (n / a + h) / (2 * h)
  {
    var q, r := n / a, n % a;
    var s, t := (q + h) / (2 * h), (q + h) % (2 * h);
    MulSpread(a, 2 * h);
    MulRegroup(s, 2 * h, a);
    MulRegroup(2, a, h);
    assert q * a + h * a == (s * (2 * h)) * a + t * a by {
      MulSub(q + h, -(s * (2 * h)), a);
      MulSub(q, -h, a);
    }
    MulSub(2 * h, t, a);
    MulSpread(2 * h - t, a);
    QuotientIs(2 * n + a * (2 * h), 2 * (a * (2 * h)), s, 2 * (t * a + r));
  }

  lemma SlipBetween(n: nat, a: int, h: int)
    requires a > 0 && h > 0
    ensures a * (2 * h) > 0
    ensures HalfUp(NearestEven(n, a), 2 * h) == HalfUp(n, a * (2 * h)) <==>
            !(NearestEven(n, a) * a > n && NearestEven(n, a) % (2 * h) == h)
  {
    HalfUpOfFloor(n, a, h);
    var q, m := n / a, NearestEven(n, a);
    MulSub(q + 1, q, a);
    HalfUpOfFloor(m, 1, h);
    NextQuotient(q + h, 2 * h);
    if m == q + 1 {
      HalfWay(m, h);
    }
  }

  lemma HalfWay(m: nat, h: int)
    requires h > 0
    ensures (m + h) % (2 * h) == 0 <==> m % (2 * h) == h
  {
    var d := 2 * h;
    if m % d == h {
      QuotientIs(m + h, d, m / d + 1, 0);
    }
    if (m + h) % d == 0 {
      QuotientIs(m, d, (m + h) / d - 1, h);
    }
  }

  lemma FittedIsShort(n: nat)
    requires n >= LIMIT
    ensures LIMIT / 10 <= NearestEven(n, Pow10(Excess(n))) <= LIMIT
  {
    var a := Pow10(Excess(n));
    var m := NearestEven(n, a);
    ExcessBounds(n);
    NearestEvenIsNear(n, a);
    MulSub(m, LIMIT, a);
    MulSpread(m - LIMIT, a);
    MulSub(LIMIT / 10, m, a);
    MulSpread(LIMIT / 10 - m, a);
  }

  lemma TwiceShape(n: nat, p: nat)
    ensures var k := Excess(n);
            var fitted := NearestEven(n, Pow10(k));
            Twice(n, p) == if k < p then HalfUp(fitted, Pow10(p - k)) else fitted * Pow10(k - p)
  {
    var k := Excess(n);
    var fitted := NearestEven(n, Pow10(k));
    assert Pow10(0) == 1;
    if k >= p {
      HalfUpOfMultiple(fitted * Pow10(k - p), 1);
    }
  }

  lemma AtLeastTen(j: nat)
    requires j > 0
    ensures Pow10(j) >= 10 && Pow10(j) == 2 * (5 * Pow10(j - 1))
  {
  }

  lemma Below(n: nat, a: int, b: int, limit: nat)
    requires 0 < a && 10 * a <= b && n < a * limit && limit > 0
    ensures 2 * n < (2 * limit - 1) * b
  {
    MulSub(b, 10 * a, 2 * limit - 1);
    MulRegroup(10, a, 2 * limit - 1);
    MulSub(2 * limit, 1, a);
    MulRegroup(2, limit, a);
    MulSpread(limit, a);
    NoSmaller(b - 10 * a, 2 * limit - 1);
  }

  lemma Above(n: nat, a: int, b: int, tenth: nat)
    requires 0 < b && 10 * b <= a && a * tenth <= n
    ensures 2 * n >= (20 * tenth - 1) * b
  {
    MulSub(a, 10 * b, tenth);
    MulRegroup(10, b, tenth);
    MulSub(20 * tenth, 1, b);
    MulRegroup(20, tenth, b);
    MulSub(0, a - 10 * b, tenth);
    if tenth > 0 { NoSmaller(a - 10 * b, tenth); }
  }

  lemma DividedIsShort(m: nat, w: int, limit: nat)
    requires m <= limit && w >= 10 && limit >= 2
    ensures 0 <= HalfUp(m, w) < limit
  {
    NoSmallerThanTen(limit - 1, w);
    HalfUpStaysBetween(0, limit - 1, m, w);
  }

  lemma ShortIff(n: nat, a: int, limit: nat)
    requires a > 0 && n < limit * a && limit % 2 == 0
    ensures NearestEven(n, a) < limit <==> 2 * n < (2 * limit - 1) * a
  {
    DivMod(n, a);
    ShortFrom(n, n / a, n % a, a, limit);
  }

  lemma DivMod(n: nat, a: int)
    requires a > 0
    ensures n == (n / a) * a + n % a && 0 <= n % a < a && 0 <= n / a
  {
  }

  lemma ShortFrom(n: nat, q: nat, r: nat, a: int, limit: nat)
    requires r < a && n == q * a + r && n < limit * a && limit % 2 == 0
    ensures (if 2 * r < a || (2 * r == a && q % 2 == 0) then q else q + 1) < limit <==> 2 * n < (2 * limit - 1) * a
  {
    MulCancels(q, limit, a);
    if q + 1 < limit {
      FarBelow(q, r, a, limit);
    } else {
      JustBelow(q, r, a);
    }
  }

  lemma FarBelow(q: int, r: int, a: int, limit: int)
    requires 0 <= r < a && q + 1 < limit
    ensures 2 * (q * a + r) < (2 * limit - 1) * a
  {
    MulSub(2 * limit - 1, 2 * q, a);
    MulRegroup(2, q, a);
    NoSmallerThan(2 * limit - 1 - 2 * q, 3, a);
  }

  lemma NoSmallerThan(x: int, y: int, a: nat)
    requires x >= y
    ensures x * a >= y * a
  {
    MulSub(x, y, a);
    if x > y && a > 0 { MulSpread(x - y, a); }
  }

  lemma JustBelow(q: int, r: int, a: int)
    ensures 2 * (q * a + r) < (2 * (q + 1) - 1) * a <==> 2 * r < a
  {
    MulSub(2 * q, -1, a);
    MulRegroup(2, q, a);
  }

  lemma NoSmallerThanTen(x: nat, y: int)
    requires y >= 10
    ensures x * y >= 10 * x
  {
    MulSub(y, 10, x);
    if x > 0 { MulSpread(y - 10, x); }
  }

  lemma NoExcess(n: nat, b: int)
    requires n < LIMIT && b > 0
    ensures 0 <= HalfUp(n, b) < LIMIT && 2 * n < (2 * LIMIT - 1) * b
  {
    HalfUpIsSmaller(n, b);
    NoSmaller(2 * LIMIT - 1, b);
  }

  /** The result has at most 28 digits exactly below (10^28 - 1/2) x 10^p. */
  lemma TwiceFitsIff(n: nat, p: nat)
    ensures 0 <= Twice(n, p)
    ensures Twice(n, p) < LIMIT <==> 2 * n < (2 * LIMIT - 1) * Pow10(p)
  {
    var k := Excess(n);
    TwiceShape(n, p);
    if n < LIMIT {
      NothingDropped(n, p);
      NoExcess(n, Pow10(p));
    } else {
      ExcessBounds(n);
      FittedIsShort(n);
      if k < p {
        FitsBelow(n, NearestEven(n, Pow10(k)), k, p);
      } else if k == p {
        assert Pow10(0) == 1;
        assert n < LIMIT * Pow10(k);
        ShortIff(n, Pow10(k), LIMIT);
      } else {
        FitsAbove(n, NearestEven(n, Pow10(k)), k, p);
      }
    }
  }

  lemma NothingDropped(n: nat, p: nat)
    requires n < LIMIT
    ensures Twice(n, p) == HalfUp(n, Pow10(p))
  {
    ShortStays(Decimal(n, -(p as int)));
    assert Pow10(0) == 1;
  }

  lemma FitsBelow(n: nat, m: nat, k: nat, p: nat)
    requires k < p && n < Pow10(k) * LIMIT && m <= LIMIT
    ensures 2 * n < (2 * LIMIT - 1) * Pow10(p) && 0 <= HalfUp(m, Pow10(p - k)) < LIMIT
  {
    Pow10Adds(k, p - k);
    AtLeastTen(p - k);
    NoSmallerThanTen(Pow10(k), Pow10(p - k));
    Below(n, Pow10(k), Pow10(p), LIMIT);
    DividedIsShort(m, Pow10(p - k), LIMIT);
  }

  lemma FitsAbove(n: nat, m: nat, k: nat, p: nat)
    requires k > p && Pow10(k) * (LIMIT / 10) <= n && LIMIT / 10 <= m
    ensures 2 * n >= (2 * LIMIT - 1) * Pow10(p) && LIMIT <= m * Pow10(k - p)
  {
    Pow10Adds(p, k - p);
    AtLeastTen(k - p);
    NoSmallerThanTen(Pow10(p), Pow10(k - p));
    Above(n, Pow10(k), Pow10(p), LIMIT / 10);
    NoSmallerThanTen(m, Pow10(k - p));
  }

  /** ... and it is then the half-up quotient exactly unless the fitting slips. */
  lemma TwiceIsOnceIff(n: nat, p: nat)
    requires Twice(n, p) < LIMIT
    ensures Twice(n, p) == HalfUp(n, Pow10(p)) <==> !Slips(n, p)
  {
    if Excess(n) < p {
      OnceBelow(n, p);
    } else if Excess(n) == p {
      OnceAt(n, p);
    } else {
      TooLongAbove(n, p);
    }
  }

  lemma OnceBelow(n: nat, p: nat)
    requires Excess(n) < p
    ensures Twice(n, p) == HalfUp(n, Pow10(p)) <==> !Slips(n, p)
  {
    TwiceShape(n, p);
    SlipBelow(n, Excess(n), p);
  }

  lemma OnceAt(n: nat, p: nat)
    requires Excess(n) == p
    ensures Twice(n, p) == HalfUp(n, Pow10(p)) <==> !Slips(n, p)
  {
    TwiceShape(n, p);
    assert Pow10(0) == 1;
    SlipAtHalf(n, Pow10(p));
  }

  lemma TooLongAbove(n: nat, p: nat)
    requires Excess(n) > p
    ensures Twice(n, p) >= LIMIT
  {
    TwiceShape(n, p);
    ExcessBounds(n);
    FittedIsShort(n);
    FitsAbove(n, NearestEven(n, Pow10(Excess(n))), Excess(n), p);
  }

  lemma ShortNeverSlips(n: nat, p: nat)
    requires n < LIMIT
    ensures !Slips(n, p)
  {
    assert Pow10(0) == 1;
  }

  lemma SlipBelow(n: nat, k: nat, p: nat)
    requires k < p
    ensures var fitted := NearestEven(n, Pow10(k));
            HalfUp(fitted, Pow10(p - k)) == HalfUp(n, Pow10(p)) <==>
            !(fitted * Pow10(k) > n && 2 * (fitted % Pow10(p - k)) == Pow10(p - k))
  {
    AtLeastTen(p - k);
    Pow10Adds(k, p - k);
    SlipBetween(n, Pow10(k), 5 * Pow10(p - k - 1));
  }

  lemma SlipAtHalf(n: nat, a: int)
    requires a > 0
    ensures NearestEven(n, a) == HalfUp(n, a) <==> 2 * (n - NearestEven(n, a) * a) != a
  {
    var q, r := n / a, n % a;
    MulSub(q + 1, q, a);
    MulRegroup(2, q, a);
    QuotientIs(2 * n + a, 2 * a, if 2 * r >= a then q + 1 else q, if 2 * r >= a then 2 * r - a else 2 * r + a);
  }
}
