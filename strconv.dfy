/**
 Go's decimal conversions as the proxy uses them: `strconv.FormatInt(n, 10)`
 and `%d` (one definition, they agree), `strconv.Atoi` on a 64-bit platform,
 and the truncating integer division of Go's `/`.
 */
module GoStrconv {
  import opened Stream
  import Arith

  const MinInt64: int := -0x8000_0000_0000_0000
  const MaxInt64: int := 0x7fff_ffff_ffff_ffff

  predicate IsDigit(ch: char)
  {
    '0' <= ch <= '9'
  }

  predicate AllDigits(s: string)
  {
    forall i :: 0 <= i < |s| ==> IsDigit(s[i])
  }

  function DigitChar(d: nat): char
    requires d < 10
  {
    ('0' as int + d) as char
  }

  function DigitValue(ch: char): nat
    requires IsDigit(ch)
  {
    ch as int - '0' as int
  }

  /** The decimal digits of `n`, most significant first, without leading zeros. */
  function Digits(n: nat): string
    decreases n
  {
    if n < 10 then [DigitChar(n)] else Digits(n / 10) + [DigitChar(n % 10)]
  }

  /** `strconv.FormatInt(n, 10)`, which is also what `%d` prints. */
  function FormatInt(n: int): string
  {
    if n < 0 then "-" + Digits(-n) else Digits(n)
  }

  /** The number a string of decimal digits denotes. */
  function DigitsValue(s: string): nat
    requires AllDigits(s)
    decreases |s|
  {
    if s == [] then 0 else DigitsValue(s[..|s| - 1]) * 10 + DigitValue(s[|s| - 1])
  }

  /**
   `strconv.Atoi`: an optional `+` or `-`, then one or more decimal digits,
   whose value must fit in 64 bits. Anything else, the empty string included,
   is an error, here `None`.
   */
  function Atoi(s: string): Option<int>
  {
    var signed := |s| > 0 && (s[0] == '+' || s[0] == '-');
    var digits := if signed then s[1..] else s;
    if digits == [] || !AllDigits(digits) then None
    else
      var v: int := if signed && s[0] == '-' then -(DigitsValue(digits) as int) else DigitsValue(digits);
      if MinInt64 <= v <= MaxInt64 then Some(v) else None
  }

  /** A decimal text: digits only, except that the first character may be a sign followed by at least one digit. */
  predicate DecimalText(s: string)
  {
    && |s| > 0
    && (IsDigit(s[0]) || (|s| > 1 && (s[0] == '+' || s[0] == '-')))
    && forall k :: 0 < k < |s| ==> IsDigit(s[k])
  }

  /** The number a decimal text denotes: its digits' value, negated after a minus sign. */
  function DecimalValue(s: string): int
    requires DecimalText(s)
  {
    var signed := s[0] == '+' || s[0] == '-';
    var digits := if signed then s[1..] else s;
    assert AllDigits(digits) by {
      forall k | 0 <= k < |digits|
        ensures IsDigit(digits[k])
      {
        if signed { assert digits[k] == s[k + 1]; } else { assert digits[k] == s[k]; }
      }
    }
    if s[0] == '-' then -(DigitsValue(digits) as int) else DigitsValue(digits)
  }

  function Pow10(n: nat): nat
  {
    if n == 0 then 1 else 10 * Pow10(n - 1)
  }

  /** A string of `n` digits denotes a number below `10^n`. */
  lemma {:induction false} DigitsValueBound(s: string)
    requires AllDigits(s)
    ensures DigitsValue(s) < Pow10(|s|)
    decreases |s|
  {
    if s != [] {
      DigitsValueBound(s[..|s| - 1]);
    }
  }

  /**
   What `Atoi` does: it accepts exactly the decimal texts whose number fits in
   64 bits, and answers that number, which is negative only after a minus
   sign; in particular every decimal text of at most 18 characters is accepted.
   */
  lemma {:induction false} AtoiAccepts(s: string)
    ensures Atoi(s).Some? ==> DecimalText(s) && Atoi(s).value == DecimalValue(s)
    ensures Atoi(s).Some? ==> MinInt64 <= Atoi(s).value <= MaxInt64
    ensures Atoi(s).Some? && Atoi(s).value < 0 ==> s[0] == '-'
    ensures DecimalText(s) && MinInt64 <= DecimalValue(s) <= MaxInt64 ==> Atoi(s) == Some(DecimalValue(s))
    ensures DecimalText(s) && |s| <= 18 ==> Atoi(s).Some?
  {
    if Atoi(s).Some? {
      AtoiOnlyDecimal(s);
    }
    if DecimalText(s) && MinInt64 <= DecimalValue(s) <= MaxInt64 {
      DecimalParses(s);
    }
    if DecimalText(s) && |s| <= 18 {
      ShortDecimalParses(s);
    }
  }

  lemma {:induction false} DecimalParses(s: string)
    requires DecimalText(s) && MinInt64 <= DecimalValue(s) <= MaxInt64
    ensures Atoi(s) == Some(DecimalValue(s))
  {
    var signed := s[0] == '+' || s[0] == '-';
    var digits := if signed then s[1..] else s;
    forall k | 0 <= k < |digits|
      ensures IsDigit(digits[k])
    {
      if signed { assert digits[k] == s[k + 1]; } else { assert digits[k] == s[k]; }
    }
  }

  lemma {:induction false} AtoiOnlyDecimal(s: string)
    requires Atoi(s).Some?
    ensures DecimalText(s) && MinInt64 <= Atoi(s).value <= MaxInt64
    ensures Atoi(s).value == DecimalValue(s)
    ensures Atoi(s).value < 0 ==> s[0] == '-'
  {
    var signed := |s| > 0 && (s[0] == '+' || s[0] == '-');
    var digits := if signed then s[1..] else s;
    forall k | 0 < k < |s|
      ensures IsDigit(s[k])
    {
      if signed { assert s[k] == digits[k - 1]; } else { assert s[k] == digits[k]; }
    }
    if !signed { assert IsDigit(digits[0]); }
  }

  lemma {:induction false} ShortDecimalParses(s: string)
    requires DecimalText(s) && |s| <= 18
    ensures Atoi(s).Some?
  {
    var signed := s[0] == '+' || s[0] == '-';
    var digits := if signed then s[1..] else s;
    forall k | 0 <= k < |digits|
      ensures IsDigit(digits[k])
    {
      if signed { assert digits[k] == s[k + 1]; } else { assert digits[k] == s[k]; }
    }
    DigitsValueBound(digits);
    Pow10Monotone(|digits|, 18);
    Pow10Add(9, 9);
    assert Pow10(9) == 1_000_000_000;
  }

  lemma {:induction false} Pow10Add(a: nat, b: nat)
    ensures Pow10(a + b) == Pow10(a) * Pow10(b)
    decreases a
  {
    if a > 0 {
      Pow10Add(a - 1, b);
      assert Pow10(a + b) == 10 * Pow10(a - 1 + b);
    }
  }

  lemma {:induction false} Pow10Monotone(m: nat, n: nat)
    requires m <= n
    ensures Pow10(m) <= Pow10(n)
    decreases n
  {
    if m < n {
      Pow10Monotone(m, n - 1);
    }
  }

  /** Go's `/` on integers with a positive divisor: the quotient rounded toward zero. */
  function GoDiv(a: int, b: int): (q: int)
    requires b > 0
    ensures a >= 0 ==> 0 <= q && q * b <= a < q * b + b
    ensures a < 0 ==> q <= 0 && q * b - b < a <= q * b
  {
    if a >= 0 then
      Arith.DivBounds(a, b);
      a / b
    else
      var q := (-a) / b;
      Arith.DivBounds(-a, b);
      Arith.NegMul(q, b);
      -q
  }

  lemma {:induction false} DigitsRoundTrip(n: nat)
    ensures |Digits(n)| > 0 && AllDigits(Digits(n))
    ensures DigitsValue(Digits(n)) == n
    decreases n
  {
    if n >= 10 {
      DigitsRoundTrip(n / 10);
      var s := Digits(n);
      assert s[..|s| - 1] == Digits(n / 10);
    }
  }

  /** Parsing what `FormatInt` prints gives the number back, for every 64-bit value. */
  lemma {:induction false} AtoiFormatInt(n: int)
    requires MinInt64 <= n <= MaxInt64
    ensures Atoi(FormatInt(n)) == Some(n)
  {
    if n < 0 {
      DigitsRoundTrip(-n);
      assert FormatInt(n)[1..] == Digits(-n);
    } else {
      DigitsRoundTrip(n);
      assert IsDigit(Digits(n)[0]);
    }
  }

  /** Different numbers print differently. */
  lemma {:induction false} FormatIntInjective(a: int, b: int)
    requires FormatInt(a) == FormatInt(b)
    ensures a == b
  {
    if a < 0 {
      DigitsRoundTrip(-a);
      assert FormatInt(a)[0] == '-';
      if b < 0 {
        DigitsRoundTrip(-b);
        assert FormatInt(a)[1..] == Digits(-a);
        assert FormatInt(b)[1..] == Digits(-b);
      } else {
        DigitsRoundTrip(b);
      }
    } else {
      DigitsRoundTrip(a);
      assert IsDigit(Digits(a)[0]);
      if b >= 0 {
        DigitsRoundTrip(b);
      }
    }
  }
}
