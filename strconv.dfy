/**
 * Go's `strconv.ParseInt(s, 10, 64)` as used by the configuration loader,
 * and `strconv.FormatInt(v, 10)`, of which it is a left inverse: parsing a
 * formatted value gives it back, while several texts ("7", "+7", "007")
 * parse to the same value.
 *
 * With an explicit base of 10, ParseInt accepts an optional `+` or `-`,
 * then one or more ASCII decimal digits (no underscores: those are allowed
 * only for base 0), and fails with a range error when the value does not
 * fit in an int64. Every failure (syntax or range) is reported the same way
 * here, as `None`, because the caller only tests `err == nil`.
 */
module Strconv {
  import opened Wrappers

  const MinInt64: int := -0x8000_0000_0000_0000
  const MaxInt64: int := 0x7fff_ffff_ffff_ffff

  type Int64 = x: int | -0x8000_0000_0000_0000 <= x <= 0x7fff_ffff_ffff_ffff

  predicate IsDigit(c: char) { '0' <= c <= '9' }

  predicate AllDigits(s: string) { forall i :: 0 <= i < |s| ==> IsDigit(s[i]) }

  function DigitValue(c: char): (d: nat)
    requires IsDigit(c)
    ensures d < 10
  {
    c as int - '0' as int
  }

  function DigitChar(d: nat): (c: char)
    requires d < 10
    ensures IsDigit(c) && DigitValue(c) == d
  {
    ('0' as int + d) as char
  }

  /** The value of a string of decimal digits, most significant first. */
  function Value(s: string): nat
    requires AllDigits(s)
  {
    if s == [] then 0 else Value(s[..|s| - 1]) * 10 + DigitValue(s[|s| - 1])
  }

  /** `strconv.ParseInt(s, 10, 64)`: `Some(v)` exactly when `err == nil`. */
  function Parse(s: string): (r: Option<Int64>)
    ensures s == "" ==> r.None?
    ensures r.Some? ==> (s[0] == '-' ==> r.value <= 0) && (s[0] != '-' ==> r.value >= 0)
    ensures r.Some? ==> AllDigits(if s[0] == '+' || s[0] == '-' then s[1..] else s)
  {
    if s == [] then None
    else if s[0] == '+' then ParseMagnitude(false, s[1..])
    else if s[0] == '-' then ParseMagnitude(true, s[1..])
    else ParseMagnitude(false, s)
  }

  /** The digits after the sign: at least one, all decimal, and the signed value within int64. */
  function ParseMagnitude(negative: bool, digits: string): (r: Option<Int64>)
    ensures r.Some? ==> digits != [] && AllDigits(digits)
    ensures r.Some? ==> if negative then r.value <= 0 else r.value >= 0
  {
    if digits == [] || !AllDigits(digits) then None
    else
      var n: int := Value(digits);
      var v := if negative then -n else n;
      if MinInt64 <= v <= MaxInt64 then Some(v) else None
  }

  /** Decimal digits of `n`, without leading zeros. */
  function Digits(n: nat): (s: string)
    ensures |s| >= 1 && AllDigits(s)
  {
    if n < 10 then [DigitChar(n)] else Digits(n / 10) + [DigitChar(n % 10)]
  }

  /** `strconv.FormatInt(v, 10)`: a minus sign exactly for negative values, never a plus sign. */
  function FormatInt(v: int): (s: string)
    ensures |s| >= 1
    ensures s[0] == '-' <==> v < 0
    ensures s[0] != '+'
    ensures v >= 0 ==> AllDigits(s)
  {
    if v < 0 then "-" + Digits(-v) else Digits(v)
  }

  lemma {:induction false} ValueOfDigits(n: nat)
    ensures Value(Digits(n)) == n
  {
    if n >= 10 {
      var s := Digits(n);
      assert s[..|s| - 1] == Digits(n / 10);
      ValueOfDigits(n / 10);
    }
  }

  /** Formatting and then parsing any int64 gives it back. */
  lemma ParseFormatInt(v: Int64)
    ensures Parse(FormatInt(v)) == Some(v)
  {
    var sign := if v < 0 then "-" else "";
    assert FormatInt(v) == sign + Zeros(0) + Digits(Magnitude(v));
    ParseAccepts(sign, 0, v);
  }

  /** An explicit `+` sign is accepted on non-negative values. */
  lemma ParsePlusSign(v: Int64)
    requires v >= 0
    ensures Parse("+" + FormatInt(v)) == Some(v)
  {
    ValueOfDigits(v);
    assert ("+" + FormatInt(v))[1..] == Digits(v);
  }

  lemma {:induction false} ValueLeadingZero(s: string)
    requires AllDigits(s)
    ensures AllDigits("0" + s) && Value("0" + s) == Value(s)
  {
    if s != [] {
      var z := "0" + s;
      assert z[..|z| - 1] == "0" + s[..|s| - 1];
      ValueLeadingZero(s[..|s| - 1]);
    }
  }

  /** Leading zeros do not change the parsed value: "007" parses as 7. */
  lemma ParseLeadingZero(v: Int64)
    requires v >= 0
    ensures Parse("0" + FormatInt(v)) == Some(v)
  {
    ValueOfDigits(v);
    ValueLeadingZero(Digits(v));
  }

  /** Decimal text for a value above the int64 range fails with a range error. */
  lemma ParseAboveRange(n: nat)
    requires n > MaxInt64
    ensures Parse(Digits(n)) == None
  {
    var s := Digits(n);
    assert IsDigit(s[0]);
    ValueOfDigits(n);
    assert ParseMagnitude(false, s) == None;
  }

  /** Decimal text for a value below the int64 range fails with a range error. */
  lemma ParseBelowRange(n: nat)
    requires n > -MinInt64
    ensures Parse("-" + Digits(n)) == None
  {
    var t := "-" + Digits(n);
    assert t[0] == '-' && t[1..] == Digits(n);
    ValueOfDigits(n);
    assert ParseMagnitude(true, Digits(n)) == None;
  }

  /** Inputs ParseInt rejects as syntax errors: a sign alone, and any non-digit after the sign. */
  lemma ParseRejectsSyntax(s: string, i: nat)
    requires i < |s| && !IsDigit(s[i]) && (i == 0 ==> s[0] != '+' && s[0] != '-')
    ensures Parse(s).None?
    ensures Parse("+").None? && Parse("-").None?
  {
    if s[0] == '+' || s[0] == '-' {
      if i > 0 {
        assert !IsDigit(s[1..][i - 1]);
      }
    }
  }

  /** The absolute value, as the digits after the sign show it. */
  function Magnitude(v: int): (n: nat)
    ensures n == v || n == -v
  {
    if v < 0 then -v else v
  }

  /** `k` zero characters. */
  function Zeros(k: nat): (z: string)
    ensures |z| == k && AllDigits(z)
  {
    if k == 0 then "" else Zeros(k - 1) + "0"
  }

  /** The sign character a text starts with, if any. */
  function SignOf(s: string): string {
    if s != [] && (s[0] == '+' || s[0] == '-') then [s[0]] else ""
  }

  lemma {:induction false} ValueLeadingZeros(k: nat, s: string)
    requires AllDigits(s)
    ensures AllDigits(Zeros(k) + s) && Value(Zeros(k) + s) == Value(s)
  {
    if k > 0 {
      var t := Zeros(k) + s;
      assert t == Zeros(k - 1) + ("0" + s);
      ValueLeadingZero(s);
      ValueLeadingZeros(k - 1, "0" + s);
      assert AllDigits(t) && Value(t) == Value(s);
    } else {
      assert Zeros(k) + s == s;
    }
  }

  /** Every non-empty digit string is its value's digits after some leading zeros. */
  lemma {:induction false} CanonicalDigits(s: string) returns (k: nat)
    requires s != [] && AllDigits(s)
    ensures s == Zeros(k) + Digits(Value(s))
  {
    var n := |s| - 1;
    var p, c := s[..n], s[n];
    assert s == p + [c];
    var d := DigitValue(c);
    assert DigitChar(d) == c;
    if p == [] {
      k := 0;
    } else {
      var j := CanonicalDigits(p);
      if Value(p) == 0 {
        k := j + 1;
        assert Zeros(k) == Zeros(j) + Digits(0);
      } else {
        k := j;
        var v := Value(s);
        assert v / 10 == Value(p) && v % 10 == d;
        assert Digits(v) == Digits(Value(p)) + [c];
      }
    }
  }

  /**
   * Completeness: an optional sign, any number of leading zeros and the
   * digits of an int64's magnitude parse to that int64. A `-` is allowed on
   * zero ("-0", "-000") and required on negative values; a `+` or no sign on
   * non-negative ones.
   */
  lemma ParseAccepts(sign: string, k: nat, v: Int64)
    requires sign == "" || sign == "+" || sign == "-"
    requires if sign == "-" then v <= 0 else v >= 0
    ensures Parse(sign + Zeros(k) + Digits(Magnitude(v))) == Some(v)
  {
    var n := Magnitude(v);
    var ds := Zeros(k) + Digits(n);
    ZerosDigits(k, n);
    MagnitudeAccepts(sign == "-", ds, v);
    ParseSigned(sign, ds);
    ConcatAssoc(sign, Zeros(k), Digits(n));
  }

  lemma ConcatAssoc(a: string, b: string, c: string)
    ensures a + b + c == a + (b + c)
  {
  }

  lemma ZerosDigits(k: nat, n: nat)
    ensures Zeros(k) + Digits(n) != [] && AllDigits(Zeros(k) + Digits(n))
    ensures Value(Zeros(k) + Digits(n)) == n
  {
    ValueOfDigits(n);
    ValueLeadingZeros(k, Digits(n));
  }

  lemma MagnitudeAccepts(negative: bool, ds: string, v: Int64)
    requires ds != [] && AllDigits(ds) && Value(ds) == Magnitude(v)
    requires if negative then v <= 0 else v >= 0
    ensures ParseMagnitude(negative, ds) == Some(v)
  {
  }

  /** After an optional sign, digits go to `ParseMagnitude`. */
  lemma ParseSigned(sign: string, ds: string)
    requires sign == "" || sign == "+" || sign == "-"
    requires ds != [] && AllDigits(ds)
    ensures Parse(sign + ds) == ParseMagnitude(sign == "-", ds)
  {
    if sign == "" {
      assert sign + ds == ds && IsDigit(ds[0]);
    } else {
      var t := sign + ds;
      assert t[0] == sign[0] && t[1..] == ds;
    }
  }

  /**
   * Soundness: whatever parses is an optional sign, leading zeros and the
   * digits of the result's magnitude.
   */
  lemma ParseCanonical(s: string, v: Int64)
    requires Parse(s) == Some(v)
    ensures exists k: nat :: s == SignOf(s) + Zeros(k) + Digits(Magnitude(v))
    ensures if SignOf(s) == "-" then v <= 0 else v >= 0
  {
    var ds := ParsedDigits(s, v);
    var k := CanonicalDigits(ds);
    ConcatAssoc(SignOf(s), Zeros(k), Digits(Magnitude(v)));
  }

  /** What `Parse` accepted: a sign, then digits worth the magnitude of the result. */
  lemma ParsedDigits(s: string, v: Int64) returns (ds: string)
    requires Parse(s) == Some(v)
    ensures s == SignOf(s) + ds && ds != [] && AllDigits(ds) && Value(ds) == Magnitude(v)
    ensures if SignOf(s) == "-" then v <= 0 else v >= 0
  {
    if s[0] == '+' || s[0] == '-' {
      ds := s[1..];
      assert ParseMagnitude(s[0] == '-', ds) == Some(v);
    } else {
      ds := s;
      assert ParseMagnitude(false, ds) == Some(v);
    }
  }

  /** `Parse` characterised: exactly the texts of `ParseAccepts` parse, to exactly the value given there. */
  lemma ParseIff(s: string, v: Int64)
    ensures Parse(s) == Some(v) <==>
      (if SignOf(s) == "-" then v <= 0 else v >= 0) &&
      exists k: nat :: s == SignOf(s) + Zeros(k) + Digits(Magnitude(v))
  {
    if Parse(s) == Some(v) {
      ParseCanonical(s, v);
    }
    if (if SignOf(s) == "-" then v <= 0 else v >= 0) &&
       exists k: nat :: s == SignOf(s) + Zeros(k) + Digits(Magnitude(v)) {
      var k: nat :| s == SignOf(s) + Zeros(k) + Digits(Magnitude(v));
      ParseAccepts(SignOf(s), k, v);
    }
  }
}
