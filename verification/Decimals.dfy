/** Decimal text: what `f"{value.normalize():f}"` writes and `Decimal(text)` reads. */
module DecimalText {
  import opened Wrappers
  import opened Rounding

  predicate IsDigit(c: char) {
    '0' <= c <= '9'
  }

  predicate AllDigits(s: string) {
    forall i :: 0 <= i < |s| ==> IsDigit(s[i])
  }

  function Digit(d: nat): char
    requires d < 10
  {
    '0' + d as char
  }

  function DigitValue(c: char): nat
    requires IsDigit(c)
  {
    (c - '0') as nat
  }

  function ToNat(s: string): nat
    requires AllDigits(s)
  {
    if s == "" then 0 else 10 * ToNat(s[..|s| - 1]) + DigitValue(s[|s| - 1])
  }

  /** Exactly k digits, the last k of n. */
  function Padded(n: nat, k: nat): (s: string)
    ensures |s| == k && AllDigits(s)
  {
    if k == 0 then "" else Padded(n / 10, k - 1) + [Digit(n % 10)]
  }

  function Digits(n: nat): (s: string)
    ensures s != "" && AllDigits(s)
  {
    if n < 10 then [Digit(n)] else Digits(n / 10) + [Digit(n % 10)]
  }

  lemma {:induction false} DigitsRead(n: nat)
    ensures ToNat(Digits(n)) == n
  {
    if n < 10 {
      assert ToNat([Digit(n)][..0]) == 0;
    } else {
      DigitsRead(n / 10);
      assert Digits(n)[..|Digits(n)| - 1] == Digits(n / 10);
    }
  }

  lemma {:induction false} PaddedRead(n: nat, k: nat)
    requires n < Pow10(k)
    ensures ToNat(Padded(n, k)) == n
  {
    if k > 0 {
      PaddedRead(n / 10, k - 1);
      assert Padded(n, k)[..k - 1] == Padded(n / 10, k - 1);
    }
  }

  lemma TenTimes(a: int, p: int)
    ensures a * (10 * p) == 10 * (a * p)
  {
  }

  lemma {:induction false} ToNatConcat(s: string, t: string)
    requires AllDigits(s) && AllDigits(t)
    ensures AllDigits(s + t)
    ensures ToNat(s + t) == ToNat(s) * Pow10(|t|) + ToNat(t)
  {
    if t == "" {
      assert s + t == s;
    } else {
      var u := t[..|t| - 1];
      assert (s + t)[..|s + t| - 1] == s + u;
      ToNatConcat(s, u);
      TenTimes(ToNat(s), Pow10(|u|));
    }
  }

  // ------------------------------------------------------------------- writing

  /** Trailing zeros of the coefficient move into the exponent. */
  function Normalize(d: Decimal): Decimal
    decreases Abs(d.coefficient)
  {
    if d.coefficient == 0 then Decimal(0, 0)
    else if d.coefficient % 10 == 0 then Normalize(Decimal(d.coefficient / 10, d.exponent + 1))
    else d
  }

  /** The ':f' format: never an exponent. */
  function Fixed(d: Decimal): string {
    var sign := if d.coefficient < 0 then "-" else "";
    var m := Abs(d.coefficient);
    sign + FixedUnsigned(m, d.exponent)
  }

  function FixedUnsigned(m: nat, e: int): (s: string)
    ensures s != "" && IsDigit(s[0])
  {
    if e >= 0 then Digits(Scaled(m, e))
    else Digits(Above(m, -e)) + "." + Padded(Below(m, -e), -e)
  }

  function Scaled(m: nat, k: nat): nat {
    m * Pow10(k)
  }

  function Quotient(m: nat, p: nat): nat
    requires p > 0
  {
    m / p
  }

  function Above(m: nat, k: nat): nat {
    Quotient(m, Pow10(k))
  }

  function Below(m: nat, k: nat): (r: nat)
    ensures r < Pow10(k)
    ensures Above(m, k) * Pow10(k) + r == m
  {
    var p := Pow10(k);
    assert m / p * p + m % p == m;
    m % p
  }

  // ------------------------------------------------------------------- reading

  function DigitPrefix(s: string): (i: nat)
    ensures i <= |s| && AllDigits(s[..i])
    ensures i < |s| ==> !IsDigit(s[i])
  {
    if s == "" || !IsDigit(s[0]) then 0
    else
      var i := DigitPrefix(s[1..]);
      assert s[..i + 1] == [s[0]] + s[1..][..i];
      i + 1
  }

  /** sign? digits */
  function ReadInt(s: string): Option<int> {
    var negative := s != "" && s[0] == '-';
    var body := if s != "" && (s[0] == '-' || s[0] == '+') then s[1..] else s;
    if body == "" || !AllDigits(body) then None
    else Some(if negative then -(ToNat(body) as int) else ToNat(body))
  }

  /** Nothing, or e sign? digits */
  function ReadExponent(s: string): Option<int> {
    if s == "" then Some(0)
    else if s[0] == 'e' || s[0] == 'E' then ReadInt(s[1..])
    else None
  }

  /** Digits before the point, digits after it, and what follows. */
  function SplitPoint(s: string): (parts: (string, string, string))
    ensures AllDigits(parts.0) && AllDigits(parts.1)
  {
    var i := DigitPrefix(s);
    var rest := s[i..];
    if rest != "" && rest[0] == '.' then
      var j := DigitPrefix(rest[1..]);
      (s[..i], rest[1..][..j], rest[1..][j..])
    else (s[..i], "", rest)
  }

  /** digits (. digits)? exponent?, with a digit on at least one side of the point */
  function ReadUnsigned(s: string): Option<Decimal> {
    var (whole, fraction, tail) := SplitPoint(s);
    match ReadExponent(tail)
    case None => None
    case Some(e) =>
      if whole + fraction == "" then None
      else Some(Decimal(ToNat(whole + fraction), e - |fraction|))
  }

  function Read(s: string): Option<Decimal> {
    var negative := s != "" && s[0] == '-';
    var body := if s != "" && (s[0] == '-' || s[0] == '+') then s[1..] else s;
    match ReadUnsigned(body)
    case None => None
    case Some(d) => Some(if negative then Decimal(-d.coefficient, d.exponent) else d)
  }

  // ----------------------------------------------------------------- round trip

  lemma {:induction false} DigitPrefixOf(s: string, rest: string)
    requires AllDigits(s) && (rest == "" || !IsDigit(rest[0]))
    ensures DigitPrefix(s + rest) == |s|
  {
    var t := s + rest;
    if s == "" {
      assert t == rest;
    } else {
      assert t[1..] == s[1..] + rest;
      DigitPrefixOf(s[1..], rest);
    }
  }

  lemma ReadWhole(digits: string)
    requires AllDigits(digits) && digits != ""
    ensures ReadUnsigned(digits) == Some(Decimal(ToNat(digits), 0))
  {
    assert digits + "" == digits;
    DigitPrefixOf(digits, "");
    assert SplitPoint(digits) == (digits, "", "");
  }

  lemma SplitAtPoint(whole: string, fraction: string)
    requires AllDigits(whole) && AllDigits(fraction)
    ensures SplitPoint(whole + "." + fraction) == (whole, fraction, "")
  {
    var s := whole + "." + fraction;
    var rest := "." + fraction;
    assert s == whole + rest;
    DigitPrefixOf(whole, rest);
    assert s[..|whole|] == whole && s[|whole|..] == rest;
    assert rest[1..] == fraction;
    assert fraction + "" == fraction;
    DigitPrefixOf(fraction, "");
  }

  lemma ReadPoint(whole: string, fraction: string)
    requires AllDigits(whole) && whole != "" && AllDigits(fraction)
    ensures AllDigits(whole + fraction)
    ensures ReadUnsigned(whole + "." + fraction) == Some(Decimal(ToNat(whole + fraction), -(|fraction| as int)))
  {
    SplitAtPoint(whole, fraction);
  }

  lemma MulRearrange(a: int, b: int, c: int)
    ensures a * (b * c) == (a * b) * c
  {
  }

  lemma {:induction false} NormalizeKeepsValue(d: Decimal)
    ensures SameValue(Normalize(d), d)
    decreases Abs(d.coefficient)
  {
    if d.coefficient != 0 && d.coefficient % 10 == 0 {
      var n := Decimal(d.coefficient / 10, d.exponent + 1);
      NormalizeKeepsValue(n);
      assert d.coefficient == 10 * n.coefficient;
      if d.exponent >= 0 {
        assert Pow10(n.exponent) == 10 * Pow10(d.exponent);
        MulRearrange(n.coefficient, 10, Pow10(d.exponent));
      } else {
        assert Pow10(-d.exponent) == 10 * Den(n);
      }
      SameValueTrans(Normalize(d), n, d);
    }
  }

  lemma WholeReadsBack(n: nat)
    ensures ReadUnsigned(Digits(n)) == Some(Decimal(n, 0))
  {
    DigitsRead(n);
    ReadWhole(Digits(n));
  }

  lemma PointReadsBack(above: nat, below: nat, k: nat)
    requires below < Pow10(k)
    ensures ReadUnsigned(Digits(above) + "." + Padded(below, k)) == Some(Decimal(above * Pow10(k) + below, -(k as int)))
  {
    var whole, fraction := Digits(above), Padded(below, k);
    DigitsRead(above);
    PaddedRead(below, k);
    ReadPoint(whole, fraction);
    ToNatConcat(whole, fraction);
  }

  /** What reading the fixed form of m x 10^e gives. */
  function ReadForm(m: nat, e: int): Decimal {
    if e >= 0 then Decimal(Scaled(m, e), 0) else Decimal(m, e)
  }

  lemma FixedUnsignedReadsBack(m: nat, e: int)
    ensures ReadUnsigned(FixedUnsigned(m, e)) == Some(ReadForm(m, e))
  {
    if e >= 0 {
      WholeReadsBack(Scaled(m, e));
    } else {
      PointReadsBack(Above(m, -e), Below(m, -e), -e);
    }
  }

  lemma SignReads(body: string)
    requires body != "" && IsDigit(body[0])
    ensures Read(body) == ReadUnsigned(body)
    ensures ReadUnsigned(body).Some? ==>
              Read("-" + body) == Some(Decimal(-ReadUnsigned(body).value.coefficient, ReadUnsigned(body).value.exponent))
  {
    assert ("-" + body)[1..] == body;
  }

  lemma FormSameValue(d: Decimal)
    ensures var f := ReadForm(Abs(d.coefficient), d.exponent);
            SameValue(if d.coefficient < 0 then Decimal(-f.coefficient, f.exponent) else f, d)
  {
    if d.exponent >= 0 {
      assert Pow10(0) == 1;
      MulSub(0, Abs(d.coefficient), Pow10(d.exponent));
    }
  }

  /** Whatever is written reads back as the same number. */
  lemma FixedReadsBack(d: Decimal)
    ensures Read(Fixed(d)).Some? && SameValue(Read(Fixed(d)).value, d)
  {
    var m, e := Abs(d.coefficient), d.exponent;
    var body := FixedUnsigned(m, e);
    assert Fixed(d) == if d.coefficient < 0 then "-" + body else body;
    FixedUnsignedReadsBack(m, e);
    SignReads(body);
    FormSameValue(d);
  }

  lemma ReadIntOf(k: nat, minus: bool)
    ensures var r := ReadInt((if minus then "-" else "") + Digits(k)); r.Some? && r.value == if minus then -(k as int) else k
  {
    DigitsRead(k);
    var text := (if minus then "-" else "") + Digits(k);
    if minus {
      assert text[1..] == Digits(k);
    } else {
      assert text == Digits(k) && IsDigit(text[0]);
    }
  }

  lemma SplitAtTail(digits: string, tail: string)
    requires AllDigits(digits) && tail != "" && !IsDigit(tail[0]) && tail[0] != '.'
    ensures SplitPoint(digits + tail) == (digits, "", tail)
  {
    DigitPrefixOf(digits, tail);
    assert (digits + tail)[..|digits|] == digits && (digits + tail)[|digits|..] == tail;
  }

  function ExponentText(letter: char, k: nat, minus: bool): string {
    [letter] + ((if minus then "-" else "") + Digits(k))
  }

  lemma ExponentTextReads(letter: char, k: nat, minus: bool)
    requires letter == 'e' || letter == 'E'
    ensures var r := ReadExponent(ExponentText(letter, k, minus)); r.Some? && r.value == if minus then -(k as int) else k
  {
    assert ExponentText(letter, k, minus)[1..] == (if minus then "-" else "") + Digits(k);
    ReadIntOf(k, minus);
  }

  lemma ReadSplit(s: string, whole: string, tail: string, e: int)
    requires AllDigits(whole) && whole != "" && SplitPoint(s) == (whole, "", tail) && ReadExponent(tail) == Some(e)
    ensures ReadUnsigned(s) == Some(Decimal(ToNat(whole), e))
  {
    assert whole + "" == whole;
  }

  /** What the format never writes is read all the same: an exponent, signed or not, in
      either letter, moves the point. */
  lemma ExponentReads(n: nat, k: nat, letter: char, minus: bool)
    requires letter == 'e' || letter == 'E'
    ensures ReadUnsigned(Digits(n) + ExponentText(letter, k, minus)) == Some(Decimal(n, if minus then -(k as int) else k))
  {
    var e: int := if minus then -(k as int) else k;
    var whole, tail := Digits(n), ExponentText(letter, k, minus);
    SplitAtTail(whole, tail);
    ExponentTextReads(letter, k, minus);
    DigitsRead(n);
    ReadSplit(whole + tail, whole, tail, e);
  }

  /** No zero is left at the end of what is written. */
  lemma {:induction false} NormalizedEnds(d: Decimal)
    ensures Normalize(d) == Decimal(0, 0) || Normalize(d).coefficient % 10 != 0
    decreases Abs(d.coefficient)
  {
    if d.coefficient != 0 && d.coefficient % 10 == 0 {
      NormalizedEnds(Decimal(d.coefficient / 10, d.exponent + 1));
    }
  }

  /** Without a digit there is no number. */
  lemma NoDigitNoNumber(s: string)
    requires forall i :: 0 <= i < |s| ==> !IsDigit(s[i])
    ensures ReadUnsigned(s) == None
  {
    assert SplitPoint(s).0 == "";
    if s != "" && s[0] == '.' {
      assert s[1..] == "" || !IsDigit(s[1..][0]);
      assert SplitPoint(s).1 == "";
    }
  }
}
