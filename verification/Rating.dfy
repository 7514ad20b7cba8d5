/** Two ways of keeping an average, in hundredths of a point: the courier's,
    nudged at each score (apps/delivery/services.py), and the dish's, recomputed
    from every visible review (apps/catalog/services.py). */
module Ratings {
  import opened Wrappers
  import opened Rounding

  datatype Record = Record(average: int, count: nat)

  const UNRATED := Record(0, 0)

  /** One incremental step: the old average stands for every earlier score. */
  function Next(r: Record, score: int): Record {
    Record(HalfUp(r.average * r.count + 100 * score, r.count + 1), r.count + 1)
  }

  function Fold(scores: seq<int>): Record {
    if scores == [] then UNRATED else Next(Fold(scores[..|scores| - 1]), scores[|scores| - 1])
  }

  predicate ValidScores(scores: seq<int>) {
    forall i :: 0 <= i < |scores| ==> 1 <= scores[i] <= 5
  }

  datatype RatingError = NotDelivered | AlreadyRated | ScoreOutOfRange

  /** The rating columns of one courier. */
  class CourierRating {
    var average: int
    var count: nat
    var rated: set<nat>
    ghost var scores: seq<int>

    ghost predicate Valid()
      reads this
    {
      && ValidScores(scores)
      && Record(average, count) == Fold(scores)
      && count == |scores| == |rated|
    }

    constructor ()
      ensures Valid() && scores == [] && rated == {}
    {
      average, count, rated, scores := 0, 0, {}, [];
    }

    /** A delivered course is rated once; the average follows. */
    method Rate(assignment: nat, delivered: bool, score: int) returns (r: Result<(), RatingError>)
      requires Valid()
      modifies this
      ensures Valid()
      ensures r.Success? <==> delivered && assignment !in old(rated) && 1 <= score <= 5
      ensures r.Success? ==> scores == old(scores) + [score] && rated == old(rated) + {assignment}
      ensures r.Failure? ==> scores == old(scores) && rated == old(rated)
    {
      if !delivered {
        return Failure(NotDelivered);
      }
      if assignment in rated {
        return Failure(AlreadyRated);
      }
      if !(1 <= score <= 5) {
        return Failure(ScoreOutOfRange);
      }
      rated := rated + {assignment};
      RecomputeAverage(score);
      scores := scores + [score];
      assert scores[..|scores| - 1] == old(scores);
      r := Success(());
    }

    method RecomputeAverage(score: int)
      modifies this`average, this`count
      ensures Record(average, count) == Next(old(Record(average, count)), score)
    {
      var total := average * count + 100 * score;
      count := count + 1;
      average := HalfUp(total, count);
    }
  }

  // ------------------------------------------------------------ what it means

  lemma MulBetween(a: int, lo: int, hi: int, n: nat)
    requires lo <= a <= hi
    ensures lo * n <= a * n <= hi * n
  {
  }

  /** From the first score on, the average is a score: between 1.00 and 5.00. */
  lemma {:induction false} AverageInRange(scores: seq<int>)
    requires ValidScores(scores) && scores != []
    ensures 100 <= Fold(scores).average <= 500
    ensures Fold(scores).count == |scores|
  {
    var init, s := scores[..|scores| - 1], scores[|scores| - 1];
    var n := |init|;
    if init == [] {
      HalfUpStaysBetween(100, 500, 100 * s, 1);
    } else {
      AverageInRange(init);
      var a := Fold(init).average;
      MulBetween(a, 100, 500, n);
      HalfUpStaysBetween(100, 500, a * n + 100 * s, n + 1);
    }
  }

  lemma StepError(a: int, n: nat, s: int, b: int)
    requires b == HalfUp(a * n + 100 * s, n + 1)
    ensures 2 * Abs(b * (n + 1) - (a * n + 100 * s)) <= n + 1
  {
    HalfUpIsNearest(a * n + 100 * s, n + 1);
  }

  lemma DriftStep(a: int, n: nat, sum: int, s: int, b: int)
    requires 4 * Abs(a * n - 100 * sum) <= n * (n + 1)
    requires 2 * Abs(b * (n + 1) - (a * n + 100 * s)) <= n + 1
    ensures 4 * Abs(b * (n + 1) - 100 * (sum + s)) <= (n + 1) * (n + 2)
  {
    var x, y := a * n, b * (n + 1);
    assert (n + 1) * (n + 2) == n * (n + 1) + 2 * (n + 1);
    assert 4 * Abs(y - 100 * (sum + s)) <= 4 * Abs(x - 100 * sum) + 4 * Abs(y - (x + 100 * s));
  }

  /** Each step rounds, and the errors add up: after n scores the average is
      within (n+1)/4 hundredths of the true mean. */
  lemma {:induction false} DriftBound(scores: seq<int>)
    ensures Fold(scores).count == |scores|
    ensures 4 * Abs(Fold(scores).average * |scores| - 100 * Sum(scores)) <= |scores| * (|scores| + 1)
  {
    if scores != [] {
      var init, s := scores[..|scores| - 1], scores[|scores| - 1];
      var n := |init|;
      DriftBound(init);
      StepError(Fold(init).average, n, s, Fold(scores).average);
      DriftStep(Fold(init).average, n, Sum(init), s, Fold(scores).average);
    }
  }

  lemma SmallNudge(a: int, n: nat, s: int)
    requires n >= 800 && 100 <= a <= 500 && 1 <= s <= 5
    ensures HalfUp(a * n + 100 * s, n + 1) == a
  {
    var num, den := a * n + 100 * s, n + 1;
    assert a * den == a * n + a;
    assert 2 * Abs(a * den - num) < den;
    HalfUpIsNearest(num, den);
    NearestIsUnique(HalfUp(num, den), a, num, den);
  }

  /** Once 800 scores are in, no score whatever moves the average again. */
  lemma {:induction false} FrozenFrom800(scores: seq<int>, more: seq<int>)
    requires ValidScores(scores + more) && |scores| >= 800
    ensures Fold(scores + more).average == Fold(scores).average
  {
    if more == [] {
      assert scores + more == scores;
    } else {
      var init, all := more[..|more| - 1], scores + more;
      assert all[..|all| - 1] == scores + init;
      assert ValidScores(scores + init) by {
        assert forall i :: 0 <= i < |scores + init| ==> (scores + init)[i] == all[i];
      }
      FrozenFrom800(scores, init);
      AverageInRange(scores + init);
      SmallNudge(Fold(scores + init).average, |scores + init|, all[|all| - 1]);
    }
  }

  lemma {:induction false} AllOnes(n: nat)
    requires n > 0
    ensures Fold(seq(n, _ => 1)) == Record(100, n)
  {
    var ones := seq(n, _ => 1);
    assert ones[..n - 1] == seq(n - 1, _ => 1);
    if n > 1 {
      AllOnes(n - 1);
      HalfUpOfMultiple(100, n);
    }
  }

  /** 800 is the exact threshold: at 799 one score can still move it. */
  lemma StillMovesAt799()
    ensures var ones := seq(799, _ => 1);
            Fold(ones).average == 100 && Fold(ones + [5]).average == 101
  {
    var ones := seq(799, _ => 1);
    AllOnes(799);
    assert (ones + [5])[..799] == ones;
    assert HalfUp(100 * 799 + 500, 800) == 101;
  }

  // --------------------------------------------------------- the full recompute

  /** Units in the last place of a binary64 number: 2^52 of them to one between 1 and
      2, half as many between 2 and 4, half again up to 8. */
  const TWO_50: int := 1125899906842624

  function UnitsPerOne(sum: int, n: nat): (s: int)
    ensures s == TWO_50 || s == 2 * TWO_50 || s == 4 * TWO_50
  {
    if sum < 2 * n then 4 * TWO_50 else if sum < 4 * n then 2 * TWO_50 else TWO_50
  }

  /** What the database's average becomes on its way: the binary64 number nearest to
      the true mean, as a number of units in its last place. */
  function Double(sum: int, n: nat): int
    requires n > 0
  {
    NearestEven(sum * UnitsPerOne(sum, n), n)
  }

  /** The dish's average: that binary64 number, rounded half up to hundredths. */
  function Recomputed(scores: seq<int>): Record {
    if scores == [] then UNRATED
    else
      var sum, n := Sum(scores), |scores|;
      Record(HalfUp(100 * Double(sum, n), UnitsPerOne(sum, n)), n)
  }

  /** The mean lies half way between two hundredths. */
  predicate IsTie(sum: int, n: nat)
    requires n > 0
  {
    (200 * sum) % n == 0 && ((200 * sum) / n) % 2 == 1
  }

  /** Largest value of the count column. */
  const MAX_COUNT: nat := 2147483647

  /** It has 53 binary digits, as binary64 numbers have, and is the nearest such. */
  lemma DoubleIsNearest(sum: int, n: nat)
    requires 0 < n <= sum <= 5 * n
    ensures 4503599627370496 <= Double(sum, n) <= 9007199254740992
    ensures 2 * Abs(Double(sum, n) * n - sum * UnitsPerOne(sum, n)) <= n
  {
    var scaled, d := sum * UnitsPerOne(sum, n), Double(sum, n);
    NearestEvenIsNear(scaled, n);
    MeanIsScaled(sum, n);
    NearIsBetween(scaled, n, d, 4503599627370496, 9007199254740992);
  }

  lemma MeanIsScaled(sum: int, n: nat)
    requires 0 < n <= sum <= 5 * n
    ensures 4503599627370496 * n <= sum * UnitsPerOne(sum, n) <= 9007199254740992 * n
  {
    if sum < 2 * n {
      assert UnitsPerOne(sum, n) == 4503599627370496;
    } else if sum < 4 * n {
      assert UnitsPerOne(sum, n) == 2251799813685248;
    } else {
      assert UnitsPerOne(sum, n) == 1125899906842624;
    }
  }

  lemma NearIsBetween(x: int, n: nat, d: int, lo: int, hi: int)
    requires n > 0 && lo * n <= x <= hi * n && 2 * Abs(d * n - x) <= n
    ensures lo <= d <= hi
  {
    MulSub(lo, d, n);
    MulSpread(lo - d, n);
    MulSub(d, hi, n);
    MulSpread(d - hi, n);
  }

  lemma OddMultipleIsHalfWay(t: int, n: nat, k: int)
    requires n > 0 && t % n == 0 && (t / n) % 2 == 1 && k % 2 == 0 && Abs(k * n - t) <= n
    ensures Abs(k * n - t) == n
  {
    var q := t / n;
    assert t == q * n;
    MulSub(k, q, n);
    assert (k - q) % 2 == 1;
    MulSpread(k - q, n);
  }

  lemma HalfWayIsOddMultiple(t: int, n: nat, k: int)
    requires n > 0 && k % 2 == 0 && Abs(k * n - t) == n
    ensures t % n == 0 && (t / n) % 2 == 1
  {
    var x := if k * n - t == n then k - 1 else k + 1;
    MulSub(k, 1, n);
    MulSub(k, -1, n);
    assert t == x * n;
    QuotientIs(t, n, x, 0);
  }

  lemma TieMeansHalf(sum: int, n: nat, h: int)
    requires n > 0 && 2 * Abs(h * n - 100 * sum) <= n
    ensures IsTie(sum, n) <==> 2 * Abs(h * n - 100 * sum) == n
  {
    assert (2 * h) * n - 200 * sum == 2 * (h * n - 100 * sum);
    if IsTie(sum, n) {
      OddMultipleIsHalfWay(200 * sum, n, 2 * h);
    }
    if 2 * Abs(h * n - 100 * sum) == n {
      HalfWayIsOddMultiple(200 * sum, n, 2 * h);
    }
  }

  /** Both distances, to the mean and to the double, on the scale n x units. */
  lemma Gaps(h: int, n: nat, sum: int, m: int, units: int)
    ensures (h * units - 100 * m) * n == (h * n - 100 * sum) * units + 100 * (sum * units - m * n)
  {
    MulSub(h * units, 100 * m, n);
    MulSub(h * n, 100 * sum, units);
    assert (h * units) * n == (h * n) * units;
    assert (100 * sum) * units == 100 * (sum * units);
    assert (100 * m) * n == 100 * (m * n);
  }

  lemma HalfOf(u: int, n: nat, units: int)
    requires units > 0
    ensures 2 * Abs(u) < n ==> 2 * Abs(u * units) <= n * units - units
    ensures 2 * u == n ==> 2 * (u * units) == n * units
  {
    MulSub(0, u, units);
    if 2 * Abs(u) < n {
      MulSpread(n - 2 * Abs(u), units);
      MulSub(n, 2 * Abs(u), units);
      assert (2 * Abs(u)) * units == 2 * (Abs(u) * units);
    }
  }

  lemma Divides(x: int, n: nat, units: int)
    requires n > 0
    ensures 2 * Abs(x * n) < n * units ==> 2 * Abs(x) < units
    ensures -(n * units) < 2 * (x * n) <= n * units ==> -units < 2 * x <= units
  {
    DividesAbove(x, n, units);
    DividesAbove(-x, n, units);
    MulSub(0, x, n);
  }

  lemma DividesAbove(x: int, n: nat, units: int)
    requires n > 0
    ensures 2 * (x * n) < n * units ==> 2 * x < units
    ensures 2 * (x * n) <= n * units ==> 2 * x <= units
  {
    MulRegroup(2, x, n);
    MulCancels(2 * x, units, n);
  }

  /** Away from a tie no double within four units of the mean can move the result. */
  lemma AwayFromTies(sum: nat, n: nat, m: nat, units: int, h: int)
    requires n > 0 && 800 * n < units && Abs(sum * units - m * n) <= 4 * n
    requires 2 * Abs(h * n - 100 * sum) < n
    ensures HalfUp(100 * m, units) == h
  {
    Gaps(h, n, sum, m, units);
    HalfOf(h * n - 100 * sum, n, units);
    Divides(h * units - 100 * m, n, units);
    HalfUpIsNearest(100 * m, units);
    NearestIsUnique(HalfUp(100 * m, units), h, 100 * m, units);
  }

  /** At a tie the double's side of the mean decides. */
  lemma AtATieAbove(sum: nat, n: nat, m: nat, units: int, h: int)
    requires n > 0 && 800 * n < units && Abs(sum * units - m * n) <= 4 * n
    requires 2 * (h * n - 100 * sum) == n && m * n >= sum * units
    ensures HalfUp(100 * m, units) == h
  {
    Gaps(h, n, sum, m, units);
    HalfOf(h * n - 100 * sum, n, units);
    MulSpread(n, units);
    Divides(h * units - 100 * m, n, units);
    var far := h * units;
    assert -units < 2 * (far - 100 * m) <= units;
    assert IsNearest(h, 100 * m, units);
    HalfUpIsNearest(100 * m, units);
    NearestIsUnique(HalfUp(100 * m, units), h, 100 * m, units);
  }

  lemma AtATieBelow(sum: nat, n: nat, m: nat, units: int, h: int)
    requires n > 0 && 800 * n < units && Abs(sum * units - m * n) <= 4 * n
    requires 2 * (h * n - 100 * sum) == n && m * n < sum * units
    ensures HalfUp(100 * m, units) == h - 1
  {
    Gaps(h - 1, n, sum, m, units);
    OtherSide(h, n, sum, units);
    MulSpread(n, units);
    Divides((h - 1) * units - 100 * m, n, units);
    HalfUpIsNearest(100 * m, units);
    NearestIsUnique(HalfUp(100 * m, units), h - 1, 100 * m, units);
  }

  lemma OtherSide(h: int, n: nat, sum: int, units: int)
    requires 2 * (h * n - 100 * sum) == n
    ensures 2 * (((h - 1) * n - 100 * sum) * units) == -(n * units)
  {
    MulSub(h, 1, n);
    var u := (h - 1) * n - 100 * sum;
    assert 2 * u + n == 0;
    assert 2 * (u * units) == (2 * u) * units;
    MulSub(0, n, units);
  }

  /** The stored average is nearest to the true mean, whatever double near it the
      database hands over. It is the half-up hundredth exactly unless the mean is
      half way between two and the double lies below it. */
  lemma StoredAverage(sum: nat, n: nat, m: nat, units: int)
    requires 0 < n <= MAX_COUNT && TWO_50 <= units && Abs(sum * units - m * n) <= 4 * n
    ensures var stored, halfUp := HalfUp(100 * m, units), HalfUp(100 * sum, n);
            && 2 * Abs(stored * n - 100 * sum) <= n
            && (stored == halfUp <==> !IsTie(sum, n) || m * n >= sum * units)
            && (stored != halfUp ==> stored == halfUp - 1)
  {
    var h := HalfUp(100 * sum, n);
    HalfUpIsNearest(100 * sum, n);
    TieMeansHalf(sum, n, h);
    MulSub(h, 1, n);
    if IsTie(sum, n) {
      UpperHalf(sum, n, h);
      if m * n >= sum * units {
        AtATieAbove(sum, n, m, units, h);
      } else {
        AtATieBelow(sum, n, m, units, h);
      }
    } else {
      AwayFromTies(sum, n, m, units, h);
    }
  }

  lemma UpperHalf(sum: nat, n: nat, h: int)
    requires n > 0 && IsNearest(h, 100 * sum, n) && 2 * Abs(h * n - 100 * sum) == n
    ensures 2 * (h * n - 100 * sum) == n
  {
    MulSpread(h, n);
  }

  lemma {:induction false} SumOfScores(scores: seq<int>)
    requires ValidScores(scores)
    ensures |scores| <= Sum(scores) <= 5 * |scores|
  {
    if scores != [] {
      SumOfScores(scores[..|scores| - 1]);
    }
  }

  lemma DoubleIsNear(sum: nat, n: nat)
    requires n > 0
    ensures 0 <= Double(sum, n) && Abs(sum * UnitsPerOne(sum, n) - Double(sum, n) * n) <= n
  {
    NearestEvenIsNear(sum * UnitsPerOne(sum, n), n);
    MulSpread(Double(sum, n), n);
    MulSpread(sum, UnitsPerOne(sum, n));
  }

  /** The dish's average depends on the reviews only, not on their order; it is within
      half a hundredth of the true mean; and it is the mean rounded half up exactly
      unless that is a tie whose double lies below. */
  lemma RecomputedMeaning(scores: seq<int>, others: seq<int>)
    requires multiset(scores) == multiset(others) && ValidScores(scores) && |scores| <= MAX_COUNT
    ensures Recomputed(scores) == Recomputed(others)
    ensures scores != [] ==>
              var sum, n, average := Sum(scores), |scores|, Recomputed(scores).average;
              && 2 * Abs(average * n - 100 * sum) <= n
              && (average == HalfUp(100 * sum, n) <==> !IsTie(sum, n) || Double(sum, n) * n >= sum * UnitsPerOne(sum, n))
              && (average != HalfUp(100 * sum, n) ==> average == HalfUp(100 * sum, n) - 1)
  {
    assert |multiset(scores)| == |scores| && |multiset(others)| == |others|;
    SumIgnoresOrder(scores, others);
    if scores != [] {
      SumOfScores(scores);
      DoubleIsNear(Sum(scores), |scores|);
      StoredAverage(Sum(scores), |scores|, Double(Sum(scores), |scores|), UnitsPerOne(Sum(scores), |scores|));
    }
  }

  /** Thirty-nine ones and a two: the mean is 1.025, its double lies below, and 1.02
      is stored. */
  lemma FortyReviewsRoundDown()
    ensures var scores := seq(39, _ => 1) + [2];
            && |scores| == 40 && Sum(scores) == 41 && IsTie(41, 40)
            && HalfUp(100 * 41, 40) == 103 && Recomputed(scores) == Record(102, 40)
  {
    var ones := seq(39, _ => 1);
    SumOfOnes(39);
    SumAppend(ones, 2);
    assert Double(41, 40) == 4616189618054758;
  }

  lemma {:induction false} SumOfOnes(n: nat)
    ensures Sum(seq(n, _ => 1)) == n
  {
    if n > 0 {
      assert seq(n, _ => 1)[..n - 1] == seq(n - 1, _ => 1);
      SumOfOnes(n - 1);
    }
  }

  /** The incremental average does depend on the order: the same seven scores,
      two averages. */
  lemma IncrementalDependsOnOrder()
    ensures var five := seq(5, _ => 1);
            && multiset(five + [1, 2]) == multiset(five + [2, 1])
            && Fold(five + [1, 2]).average == 114
            && Fold(five + [2, 1]).average == 115
  {
    var five := seq(5, _ => 1);
    AllOnes(5);
    assert multiset([1, 2]) == multiset([2, 1]);
    assert (five + [1, 2])[..6] == five + [1] && (five + [1])[..5] == five;
    assert (five + [2, 1])[..6] == five + [2] && (five + [2])[..5] == five;
    assert Fold(five + [1]) == Record(100, 6) && Fold(five + [2]) == Record(117, 6);
  }
}
