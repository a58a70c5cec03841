/** Decimal money as a whole number of cents (every money field of the
    backend is a DecimalField with two decimal places), the two ways the
    backend turns a Decimal ratio into an integer, and str() of a
    two-place Decimal. */
module Money {
  import opened Text

  /** An amount in cents; negative amounts are representable, as in a
      DecimalField without validators. */
  type Cents = int

  /** DecimalField(max_digits=10, decimal_places=2): at most ten digits in
      all, two of them after the point. */
  predicate FitsDecimal10x2(c: Cents) {
    -10_000_000_000 < c < 10_000_000_000
  }

  function Abs(x: int): nat { if x < 0 then -x else x }

  /** Python's round() of the exact ratio n / d: the nearest integer, ties
      to the even neighbour. Round-half-even is symmetric about zero, so a
      negative ratio is rounded through its magnitude. */
  function RoundHalfEven(n: int, d: int): (r: int)
    requires d > 0
    ensures 2 * Abs(n - r * d) <= d
    ensures 2 * Abs(n - r * d) == d ==> r % 2 == 0
  {
    var a: int := Abs(n);
    var k: int := RoundMagnitude(a, d);
    if n < 0 then
      assert n - (-k) * d == -(a - k * d);
      -k
    else k
  }

  function RoundMagnitude(a: nat, d: int): (k: nat)
    requires d > 0
    ensures 2 * Abs(a - k * d) <= d
    ensures 2 * Abs(a - k * d) == d ==> k % 2 == 0
    ensures k == a / d || k == a / d + 1
  {
    var q, m := a / d, a % d;
    DivModNat(a, d);
    MulSucc(q, d);
    if 2 * m < d then q
    else if 2 * m > d then q + 1
    else if q % 2 == 0 then q
    else q + 1
  }

  /** Euclidean division of a natural number by a positive step. */
  lemma DivModNat(a: nat, d: int)
    requires d > 0
    ensures a / d >= 0 && 0 <= a % d < d
    ensures a == (a / d) * d + a % d
  {
  }

  lemma MulSucc(q: int, d: int)
    ensures (q + 1) * d == q * d + d
  {
  }

  /** Distinct multiples of a step lie a whole step apart, and exactly one
      step only when they are neighbours. */
  lemma StepApart(j: int, k: int, d: int)
    requires d > 0 && j < k
    ensures k * d - j * d >= d
    ensures k * d - j * d == d ==> k == j + 1
  {
    assert k * d - j * d == (k - j - 1) * d + d;
    if k > j + 1 {
      assert (k - j - 1) * d >= d by {
        assert (k - j - 1) * d == (k - j - 2) * d + d;
        assert (k - j - 2) * d >= 0;
      }
    }
  }

  /** Two integers that both satisfy round()'s contract are the same, so
      the contract of RoundHalfEven pins its result down. */
  lemma RoundHalfEvenUnique(n: int, d: int, k: int)
    requires d > 0
    requires 2 * Abs(n - k * d) <= d
    requires 2 * Abs(n - k * d) == d ==> k % 2 == 0
    ensures k == RoundHalfEven(n, d)
  {
    var r := RoundHalfEven(n, d);
    var kd, rd := k * d, r * d;
    assert 2 * Abs(n - rd) <= d;
    if k < r {
      StepApart(k, r, d);
      assert false;
    } else if r < k {
      StepApart(r, k, d);
      assert false;
    }
  }

  /** Python's int() of the exact ratio n / d: truncation toward zero. */
  function TruncDiv(n: int, d: int): (r: int)
    requires d > 0
    ensures Abs(r) * d <= Abs(n)
    ensures Abs(n) - Abs(r) * d < d
    ensures n >= 0 ==> r >= 0
    ensures n <= 0 ==> r <= 0
  {
    if n >= 0 then
      DivModNat(n, d);
      n / d
    else
      DivModNat(-n, d);
      -((-n) / d)
  }

  /** Truncation and rounding never differ by more than one step, and
      rounding never moves toward zero past truncation. */
  lemma TruncNearRound(n: int, d: int)
    requires d > 0
    ensures n >= 0 ==> TruncDiv(n, d) <= RoundHalfEven(n, d) <= TruncDiv(n, d) + 1
    ensures n < 0 ==> TruncDiv(n, d) - 1 <= RoundHalfEven(n, d) <= TruncDiv(n, d)
  {
  }

  // ---------------------------------------------------------------------
  // str(Decimal) of a two-place amount
  // ---------------------------------------------------------------------

  /** The two-digit fraction of a cents amount, with its leading zero. */
  function TwoDigits(c: nat): (r: string)
    requires c < 100
    ensures |r| == 2 && AllDigits(r)
  {
    [DigitChar(c / 10), DigitChar(c % 10)]
  }

  /** str() of a Decimal with exponent -2, for example "1299.00" or "-0.50". */
  function DecimalString(c: Cents): (r: string)
    ensures |r| >= 4 && r[|r| - 3] == '.'
    ensures AllDigits(r[|r| - 2..])
    ensures '|' !in r
  {
    var a := Abs(c);
    var body := NatToString(a / 100) + "." + TwoDigits(a % 100);
    assert '|' !in body by {
      forall i | 0 <= i < |body| ensures body[i] != '|' {
        if i < |NatToString(a / 100)| {
          assert IsDigit(NatToString(a / 100)[i]);
        } else if i > |NatToString(a / 100)| {
          assert IsDigit(TwoDigits(a % 100)[i - |NatToString(a / 100)| - 1]);
        }
      }
    }
    if c < 0 then "-" + body else body
  }

  /** The value of a run of decimal digits. */
  function DigitsValue(s: string): (v: nat)
    requires AllDigits(s)
  {
    if s == [] then 0 else DigitsValue(s[..|s| - 1]) * 10 + (s[|s| - 1] as int - '0' as int)
  }

  lemma {:induction false} DigitsValueOfNat(n: nat)
    ensures DigitsValue(NatToString(n)) == n
  {
    if n >= 10 {
      DigitsValueOfNat(n / 10);
      var s := NatToString(n);
      assert s[..|s| - 1] == NatToString(n / 10);
    }
  }

  /** Reading a rendered amount back: an optional '-', the whole part, '.'
      and two digits. */
  function ParseDecimal(s: string): (c: Cents)
    requires |s| >= 4 && s[|s| - 3] == '.' && AllDigits(s[|s| - 2..])
    requires var w := if s[0] == '-' then s[1..|s| - 3] else s[..|s| - 3]; AllDigits(w)
  {
    var w := if s[0] == '-' then s[1..|s| - 3] else s[..|s| - 3];
    var v := DigitsValue(w) * 100 + DigitsValue(s[|s| - 2..]);
    if s[0] == '-' then -v else v
  }

  /** str() loses nothing: the amount can be read back from its text, so
      two different amounts never render alike. */
  lemma DecimalStringRoundTrip(c: Cents)
    ensures var s := DecimalString(c);
      var w := if s[0] == '-' then s[1..|s| - 3] else s[..|s| - 3];
      AllDigits(w) && ParseDecimal(s) == c
  {
    var a := Abs(c);
    DecimalStringParts(c);
    DigitsValueOfNat(a / 100);
    TwoDigitsValue(a % 100);
  }

  /** The pieces of a rendered amount: the sign, the whole part and the
      two-digit fraction. */
  lemma DecimalStringParts(c: Cents)
    ensures var s, a := DecimalString(c), Abs(c);
      (s[0] == '-' <==> c < 0) &&
      (if s[0] == '-' then s[1..|s| - 3] else s[..|s| - 3]) == NatToString(a / 100) &&
      s[|s| - 2..] == TwoDigits(a % 100)
  {
    var a := Abs(c);
    var whole, frac := NatToString(a / 100), TwoDigits(a % 100);
    var body := whole + "." + frac;
    var s := DecimalString(c);
    assert whole[0] != '-' by { assert IsDigit(whole[0]); }
    if c < 0 {
      assert s == "-" + body;
      assert s[1..|s| - 3] == whole;
    } else {
      assert s == body;
      assert s[..|s| - 3] == whole;
    }
    assert s[|s| - 2..] == frac;
  }

  lemma TwoDigitsValue(m: nat)
    requires m < 100
    ensures DigitsValue(TwoDigits(m)) == m
  {
    var t := TwoDigits(m);
    var x := DigitChar(m / 10);
    assert t[..|t| - 1] == [x];
    assert [x][..0] == [];
    assert DigitsValue([x]) == m / 10;
  }
}
