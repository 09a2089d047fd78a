/** Decimal formatting and parsing of integers, as `strconv` does them in base 10. */
module Numbers {
  import opened Objects

  const INT64_MIN: int := -0x8000_0000_0000_0000
  const INT64_MAX: int := 0x7fff_ffff_ffff_ffff

  predicate IsDigit(c: char) { '0' <= c <= '9' }

  predicate AllDigits(s: string) { forall i :: 0 <= i < |s| ==> IsDigit(s[i]) }

  function DigitValue(c: char): nat
    requires IsDigit(c)
  {
    c as int - '0' as int
  }

  function DigitChar(d: nat): (c: char)
    requires d < 10
    ensures IsDigit(c) && DigitValue(c) == d
  {
    ('0' as int + d) as char
  }

  function FormatNat(n: nat): (s: string)
    ensures |s| > 0 && AllDigits(s)
  {
    if n < 10 then [DigitChar(n)] else FormatNat(n / 10) + [DigitChar(n % 10)]
  }

  /** `strconv.FormatInt(n, 10)`, also what `%d` prints. */
  function FormatInt(n: int): string {
    if n < 0 then "-" + FormatNat(-n) else FormatNat(n)
  }

  function DigitsValue(s: string): nat
    requires AllDigits(s)
  {
    if s == "" then 0 else 10 * DigitsValue(s[..|s| - 1]) + DigitValue(s[|s| - 1])
  }

  /** `strconv.ParseInt(s, 10, 64)`: an optional sign, at least one digit, in range. */
  function ParseInt(s: string): Option<int> {
    var signed := s != "" && (s[0] == '-' || s[0] == '+');
    var digits := if signed then s[1..] else s;
    if digits == "" || !AllDigits(digits) then None
    else
      var n: int := if signed && s[0] == '-' then 0 - DigitsValue(digits) else DigitsValue(digits);
      if INT64_MIN <= n <= INT64_MAX then Some(n) else None
  }

  lemma {:induction false} FormatNatValue(n: nat)
    ensures DigitsValue(FormatNat(n)) == n
  {
    var s := FormatNat(n);
    if n < 10 {
      assert s[..|s| - 1] == "";
    } else {
      assert s[..|s| - 1] == FormatNat(n / 10);
      FormatNatValue(n / 10);
    }
  }

  /** Parsing undoes formatting on every 64-bit integer. */
  lemma FormatParse(n: int)
    requires INT64_MIN <= n <= INT64_MAX
    ensures ParseInt(FormatInt(n)) == Some(n)
  {
    if n < 0 {
      FormatNatValue(-n);
      assert FormatInt(n)[1..] == FormatNat(-n);
    } else {
      FormatNatValue(n);
    }
  }

  function Zeros(n: nat): string { seq(n, _ => '0') }

  lemma FormatMore(n: nat, d: nat)
    requires n > 0 && d < 10
    ensures FormatNat(10 * n + d) == FormatNat(n) + [DigitChar(d)]
  {
    assert (10 * n + d) / 10 == n && (10 * n + d) % 10 == d;
  }

  /** Digits are leading zeros and the printed value. */
  lemma {:induction false} DigitsAreFormatted(s: string) returns (zeros: nat)
    requires s != "" && AllDigits(s)
    ensures s == Zeros(zeros) + FormatNat(DigitsValue(s))
  {
    var n := |s| - 1;
    var before, d := s[..n], DigitValue(s[n]);
    assert s == before + [s[n]] && DigitChar(d) == s[n];
    if n == 0 {
      zeros := 0;
      assert before == "" && DigitsValue(before) == 0;
    } else {
      zeros := DigitsAreFormatted(before);
      var v := DigitsValue(before);
      if v == 0 {
        assert FormatNat(0) == "0" && before == Zeros(zeros) + "0";
        assert Zeros(zeros) + "0" == Zeros(zeros + 1);
        zeros := zeros + 1;
      } else {
        FormatMore(v, d);
        assert s == Zeros(zeros) + (FormatNat(v) + [s[n]]);
      }
    }
  }

  /** The value of leading zeros and a printed number is the number. */
  lemma {:induction false} ZerosAddNothing(zeros: nat, s: string)
    requires AllDigits(s)
    ensures AllDigits(Zeros(zeros) + s) && DigitsValue(Zeros(zeros) + s) == DigitsValue(s)
  {
    var z := Zeros(zeros) + s;
    if s != "" {
      var n := |s| - 1;
      ZerosAddNothing(zeros, s[..n]);
      assert z[..|z| - 1] == Zeros(zeros) + s[..n];
    } else if zeros > 0 {
      ZerosAddNothing(zeros - 1, s);
      assert z[..|z| - 1] == Zeros(zeros - 1) + s;
    }
  }

  /** A decimal rendering: an optional sign that fits, leading zeros, and the digits of the magnitude. */
  ghost predicate Renders(s: string, n: int, sign: string, zeros: nat) {
    && (sign == "" || sign == "+" || sign == "-")
    && (sign == "-" ==> n <= 0) && (sign != "-" ==> n >= 0)
    && s == sign + Zeros(zeros) + FormatNat(if n < 0 then -n else n)
  }

  /** Sign and digits decide the value. */
  lemma ParseSigned(sign: string, digits: string)
    requires (sign == "" || sign == "+" || sign == "-") && digits != "" && AllDigits(digits)
    ensures var n: int := if sign == "-" then 0 - DigitsValue(digits) else DigitsValue(digits);
      ParseInt(sign + digits) == if INT64_MIN <= n <= INT64_MAX then Some(n) else None
  {
    var s := sign + digits;
    assert IsDigit(digits[0]);
    if sign == "" {
      assert s == digits;
    } else {
      assert s[0] == sign[0] && s[1..] == digits;
    }
  }

  lemma ParsedHasDigits(s: string) returns (sign: string, digits: string)
    requires ParseInt(s).Some?
    ensures (sign == "" || sign == "+" || sign == "-") && digits != "" && AllDigits(digits) && s == sign + digits
  {
    if s[0] == '-' || s[0] == '+' {
      sign, digits := [s[0]], s[1..];
    } else {
      sign, digits := "", s;
    }
  }

  lemma ParsedRenders(s: string, n: int)
    requires ParseInt(s) == Some(n)
    ensures exists sign, zeros :: Renders(s, n, sign, zeros)
  {
    var sign, digits := ParsedHasDigits(s);
    ParseSigned(sign, digits);
    var zeros := DigitsAreFormatted(digits);
    var v := DigitsValue(digits);
    assert v == if n < 0 then -n else n;
    assert digits == Zeros(zeros) + FormatNat(v);
    assert sign + digits == sign + Zeros(zeros) + FormatNat(v);
    assert Renders(s, n, sign, zeros);
  }

  lemma RenderedParses(s: string, n: int, sign: string, zeros: nat)
    requires INT64_MIN <= n <= INT64_MAX && Renders(s, n, sign, zeros)
    ensures ParseInt(s) == Some(n)
  {
    var magnitude := if n < 0 then -n else n;
    var digits := Zeros(zeros) + FormatNat(magnitude);
    ZerosAddNothing(zeros, FormatNat(magnitude));
    FormatNatValue(magnitude);
    assert s == sign + digits;
    ParseSigned(sign, digits);
  }

  /** Exactly the 64-bit numbers parse, from exactly their decimal renderings. */
  lemma ParseExact(s: string, n: int)
    ensures ParseInt(s) == Some(n) <==> INT64_MIN <= n <= INT64_MAX && exists sign, zeros :: Renders(s, n, sign, zeros)
  {
    if ParseInt(s) == Some(n) {
      ParsedRenders(s, n);
    }
    if INT64_MIN <= n <= INT64_MAX && exists sign, zeros :: Renders(s, n, sign, zeros) {
      var sign, zeros :| Renders(s, n, sign, zeros);
      RenderedParses(s, n, sign, zeros);
    }
  }

  /** Formatting is injective. */
  lemma FormatNatInjective(a: nat, b: nat)
    requires FormatNat(a) == FormatNat(b)
    ensures a == b
  {
    FormatNatValue(a);
    FormatNatValue(b);
  }
}
