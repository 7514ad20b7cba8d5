/** Exact decimals and the one rounding rule of the program, ROUND_HALF_UP. */
module Rounding {

  function Abs(x: int): nat {
    if x < 0 then -x else x
  }

  /** The integer nearest to num/den; halves go away from zero. */
  function HalfUp(num: int, den: int): int
    requires den > 0
  {
    if num >= 0 then (2 * num + den) / (2 * den) else -((2 * -num + den) / (2 * den))
  }

  /** r is an integer nearest to num/den, and the far one when two are. */
  ghost predicate IsNearest(r: int, num: int, den: int) {
    && 2 * Abs(r * den - num) <= den
    && (2 * Abs(r * den - num) == den ==> Abs(r * den) > Abs(num))
  }

  lemma MulSpread(k: int, den: int)
    requires den > 0
    ensures k >= 1 ==> k * den >= den
    ensures k <= -1 ==> k * den <= -den
  {
  }

  lemma MulSub(a: int, b: int, c: int)
    ensures (a - b) * c == a * c - b * c
  {
  }

  lemma MulRegroup(a: int, b: int, c: int)
    ensures (a * b) * c == a * (b * c)
  {
  }

  /** A positive factor can be dropped from both sides. */
  lemma MulCancels(x: int, y: int, d: int)
    requires d > 0
    ensures x * d < y * d ==> x < y
    ensures x * d <= y * d ==> x <= y
  {
    MulSub(x, y, d);
    MulSpread(x - y, d);
  }

  lemma RoundedQuotient(m: nat, den: int, q: int)
    requires den > 0 && q == (2 * m + den) / (2 * den)
    ensures q >= 0 && -den < 2 * (q * den) - 2 * m <= den
  {
    var x, d := 2 * m + den, 2 * den;
    assert x == d * (x / d) + x % d;
    assert d * q == 2 * (q * den);
  }

  lemma HalfUpIsNearest(num: int, den: int)
    requires den > 0
    ensures IsNearest(HalfUp(num, den), num, den)
  {
    var m := Abs(num);
    var q := (2 * m + den) / (2 * den);
    RoundedQuotient(m, den, q);
    MulSpread(q, den);
    MulSub(0, q, den);
    assert HalfUp(num, den) == if num >= 0 then q else 0 - q;
    var p := HalfUp(num, den) * den;
    assert p == if num >= 0 then q * den else -(q * den);
  }

  lemma TieBreak(r: int, s: int, num: int, den: int)
    requires den > 0 && (r >= den || r <= 0)
    requires 2 * Abs(r - num) <= den && (2 * Abs(r - num) == den ==> Abs(r) > Abs(num))
    requires 2 * Abs(s - num) <= den && (2 * Abs(s - num) == den ==> Abs(s) > Abs(num))
    ensures r - s < den
  {
  }

  /** The nearest integer is unique, so IsNearest says everything. */
  lemma NearestIsUnique(r: int, s: int, num: int, den: int)
    requires den > 0 && IsNearest(r, num, den) && IsNearest(s, num, den)
    ensures r == s
  {
    MulSpread(r, den);
    MulSpread(s, den);
    MulSpread(r - s, den);
    MulSub(r, s, den);
    TieBreak(r * den, s * den, num, den);
    TieBreak(s * den, r * den, num, den);
  }

  lemma HalfUpIsOdd(num: int, den: int)
    requires den > 0
    ensures HalfUp(-num, den) == -HalfUp(num, den)
  {
  }

  lemma HalfUpOfMultiple(k: int, den: int)
    requires den > 0
    ensures HalfUp(k * den, den) == k
  {
    HalfUpIsNearest(k * den, den);
    NearestIsUnique(HalfUp(k * den, den), k, k * den, den);
  }

  /** Numerator and denominator may share a factor. */
  lemma HalfUpOfScaled(num: int, den: int, f: int)
    requires den > 0 && f > 0
    ensures den * f > 0 && HalfUp(num * f, den * f) == HalfUp(num, den)
  {
    MulSpread(den, f);
    var r := HalfUp(num, den);
    HalfUpIsNearest(num, den);
    HalfUpIsNearest(num * f, den * f);
    NearestScales(r, num, den, f);
    NearestIsUnique(r, HalfUp(num * f, den * f), num * f, den * f);
  }

  lemma NearestScales(r: int, num: int, den: int, f: int)
    requires f > 0 && IsNearest(r, num, den)
    ensures IsNearest(r, num * f, den * f)
  {
    MulRegroup(r, den, f);
    MulSub(r * den, num, f);
    AbsScales(r * den - num, f);
    AbsScales(r * den, f);
    AbsScales(num, f);
    MulRegroup(2, Abs(r * den - num), f);
    MulSub(den, 2 * Abs(r * den - num), f);
    MulSpread(den - 2 * Abs(r * den - num), f);
    MulSub(Abs(r * den), Abs(num), f);
    MulSpread(Abs(r * den) - Abs(num), f);
  }

  lemma AbsScales(x: int, f: int)
    requires f > 0
    ensures Abs(x * f) == Abs(x) * f
  {
    MulSub(0, x, f);
    MulSpread(x, f);
  }

  /** Rounding to nearest never leaves an integer interval. */
  lemma HalfUpStaysBetween(lo: int, hi: int, num: int, den: int)
    requires den > 0 && lo * den <= num <= hi * den
    ensures lo <= HalfUp(num, den) <= hi
  {
    HalfUpIsNearest(num, den);
    var r := HalfUp(num, den);
    MulSpread(lo - r, den);
    MulSub(lo, r, den);
    MulSpread(r - hi, den);
    MulSub(r, hi, den);
  }

  lemma HalfUpIsSmaller(num: int, den: int)
    requires den > 0
    ensures Abs(HalfUp(num, den)) <= Abs(num)
  {
    var most: int := Abs(num);
    MulSub(0, most, den);
    NoSmaller(most, den);
    HalfUpStaysBetween(-most, most, num, den);
  }

  lemma NoSmaller(a: nat, den: int)
    requires den > 0
    ensures a <= a * den
  {
    MulSub(den, 1, a);
  }

  /** The nearest integer to num/den, halves to the even one. */
  function NearestEven(num: int, den: int): int
    requires den > 0
  {
    var q, r := num / den, num % den;
    if 2 * r < den || (2 * r == den && q % 2 == 0) then q else q + 1
  }

  lemma NearestEvenIsNear(num: int, den: int)
    requires den > 0
    ensures 2 * Abs(NearestEven(num, den) * den - num) <= den
  {
    var q, r := num / den, num % den;
    assert num == q * den + r && 0 <= r < den;
    assert (q + 1) * den == q * den + den;
  }

  lemma QuotientIs(x: int, d: int, q: int, r: int)
    requires d > 0 && x == q * d + r && 0 <= r < d
    ensures x / d == q && x % d == r
  {
    MulSub(x / d, q, d);
    MulSpread(x / d - q, d);
  }

  // ------------------------------------------------------------------ decimals

  /** coefficient x 10^exponent, as Python's decimal.Decimal holds it. */
  datatype Decimal = Decimal(coefficient: int, exponent: int)

  function Pow10(n: nat): (p: int)
    ensures p > 0
  {
    if n == 0 then 1 else 10 * Pow10(n - 1)
  }

  lemma {:induction false} Pow10Adds(m: nat, n: nat)
    ensures Pow10(m + n) == Pow10(m) * Pow10(n)
  {
    if m > 0 {
      Pow10Adds(m - 1, n);
      assert 10 * (Pow10(m - 1) * Pow10(n)) == (10 * Pow10(m - 1)) * Pow10(n);
    }
  }

  /** Numerator and denominator of a decimal. */
  function Num(d: Decimal): int {
    if d.exponent >= 0 then d.coefficient * Pow10(d.exponent) else d.coefficient
  }

  function Den(d: Decimal): (p: int)
    ensures p > 0
  {
    if d.exponent >= 0 then 1 else Pow10(-d.exponent)
  }

  /** Two decimals denote the same number. */
  predicate SameValue(a: Decimal, b: Decimal) {
    Num(a) * Den(b) == Num(b) * Den(a)
  }

  lemma SameValueTrans(a: Decimal, b: Decimal, c: Decimal)
    requires SameValue(a, b) && SameValue(b, c)
    ensures SameValue(a, c)
  {
    CancelMiddle(Num(a), Den(a), Num(b), Den(b), Num(c), Den(c));
  }

  lemma CancelMiddle(na: int, da: int, nb: int, db: int, nc: int, dc: int)
    requires da > 0 && db > 0 && dc > 0
    requires na * db == nb * da && nb * dc == nc * db
    ensures na * dc == nc * da
  {
    assert (na * dc) * db == (na * db) * dc;
    assert (na * db) * dc == (nb * da) * dc;
    assert (nb * da) * dc == (nb * dc) * da;
    assert (nb * dc) * da == (nc * db) * da;
    assert (nc * db) * da == (nc * da) * db;
    MulSub(na * dc, nc * da, db);
    MulSpread(na * dc - nc * da, db);
  }

  // ---------------------------------------------------------------------- sums

  function Sum(s: seq<int>): int {
    if s == [] then 0 else Sum(s[..|s| - 1]) + s[|s| - 1]
  }

  lemma SumAppend(s: seq<int>, x: int)
    ensures Sum(s + [x]) == Sum(s) + x
  {
    assert (s + [x])[..|s|] == s;
  }

  lemma {:induction false} SumConcat(s: seq<int>, t: seq<int>)
    ensures Sum(s + t) == Sum(s) + Sum(t)
  {
    if t == [] {
      assert s + t == s;
    } else {
      var u := t[..|t| - 1];
      assert (s + t)[..|s + t| - 1] == s + u;
      SumConcat(s, u);
    }
  }

  lemma {:induction false} SumUpdate(s: seq<int>, i: nat, x: int)
    requires i < |s|
    ensures Sum(s[i := x]) == Sum(s) - s[i] + x
  {
    var u := s[i := x];
    if i == |s| - 1 {
      assert u[..|s| - 1] == s[..|s| - 1];
    } else {
      assert u[..|s| - 1] == s[..|s| - 1][i := x];
      SumUpdate(s[..|s| - 1], i, x);
    }
  }

  lemma SumWithout(t: seq<int>, i: nat)
    requires i < |t|
    ensures Sum(t[..i] + t[i + 1..]) + t[i] == Sum(t)
  {
    SumConcat(t[..i], t[i + 1..]);
    SumConcat(t[..i], [t[i]]);
    SumConcat(t[..i] + [t[i]], t[i + 1..]);
    assert t == t[..i] + [t[i]] + t[i + 1..];
    assert [t[i]][..0] == [];
  }

  lemma MultisetWithout(t: seq<int>, i: nat)
    requires i < |t|
    ensures multiset(t[..i] + t[i + 1..]) == multiset(t) - multiset{t[i]}
  {
    assert t == t[..i] + [t[i]] + t[i + 1..];
  }

  /** A sum does not depend on the order of its terms. */
  lemma {:induction false} SumIgnoresOrder(s: seq<int>, t: seq<int>)
    requires multiset(s) == multiset(t)
    ensures Sum(s) == Sum(t)
  {
    if s == [] {
      assert |multiset(t)| == 0;
    } else {
      var k := |s| - 1;
      assert s[k] in multiset(s);
      var i :| 0 <= i < |t| && t[i] == s[k];
      MultisetWithout(s, k);
      MultisetWithout(t, i);
      assert s[..k] + s[k + 1..] == s[..k];
      SumIgnoresOrder(s[..k], t[..i] + t[i + 1..]);
      SumWithout(t, i);
    }
  }
}
