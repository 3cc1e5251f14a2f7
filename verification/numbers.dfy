/** Decimal numerals: the prefix parser behind parseFloat, and the way the model
    prints a number (integers in decimal; other values as the shortest decimal
    with at most MaxFraction digits after the point). */
module Numbers {
  import opened Wrappers
  import opened Strings

  predicate IsDigit(c: char) {
    '0' <= c <= '9'
  }

  predicate AllDigits(s: string) {
    forall i :: 0 <= i < |s| ==> IsDigit(s[i])
  }

  /** The value of a string of decimal digits, most significant first. */
  function DigitsValue(ds: string): nat
    requires AllDigits(ds)
  {
    if |ds| == 0 then 0
    else DigitsValue(ds[..|ds| - 1]) * 10 + (ds[|ds| - 1] as int - '0' as int)
  }

  /** The longest prefix of s made of digits. */
  function LeadingDigits(s: string): (p: string)
    ensures |p| <= |s| && p == s[..|p|]
    ensures AllDigits(p)
    ensures |p| < |s| ==> !IsDigit(s[|p|])
  {
    if |s| > 0 && IsDigit(s[0]) then
      var q := LeadingDigits(s[1..]);
      assert s[..|q| + 1] == [s[0]] + s[1..][..|q|];
      [s[0]] + q
    else ""
  }

  /** The text after the sign parseFloat skips. */
  function Unsigned(t: string): string {
    if |t| > 0 && (t[0] == '-' || t[0] == '+') then t[1..] else t
  }

  /** u starts with a digit, or with a point and a digit. */
  predicate StartsDecimal(u: string) {
    || (|u| > 0 && IsDigit(u[0]))
    || (|u| > 1 && u[0] == '.' && IsDigit(u[1]))
  }

  /** The unsigned decimal at the front of u: digits, then optionally a point
      and fraction digits; None when neither part holds a digit. */
  function ParseUnsigned(u: string): (r: Option<real>)
    ensures r.Some? <==> StartsDecimal(u)
    ensures r.Some? ==> r.value >= 0.0
  {
    var ip := LeadingDigits(u);
    var rest := u[|ip|..];
    var fp := if |rest| > 0 && rest[0] == '.' then LeadingDigits(rest[1..]) else "";
    if |ip| == 0 && |fp| == 0 then None
    else Some(DecimalValue(ip, fp))
  }

  /** The value of the numeral ip.fp. */
  function DecimalValue(ip: string, fp: string): (v: real)
    requires AllDigits(ip) && AllDigits(fp)
    ensures v >= 0.0
  {
    DigitsValue(ip) as real + FractionValue(fp)
  }

  /** The value of the fraction digits fp, read as 0.fp. */
  function FractionValue(fp: string): (v: real)
    requires AllDigits(fp)
    ensures 0.0 <= v <= 1.0
  {
    if |fp| == 0 then 0.0
    else ((fp[0] as int - '0' as int) as real + FractionValue(fp[1..])) / 10.0
  }

  /** parseFloat(s) on the grammar leading white space, optional sign, digits,
      optional point and fraction digits; everything after that prefix is
      ignored. None stands for NaN: the prefix holds no digit at all. */
  function ParseFloat(s: string): (r: Option<real>)
    ensures r.Some? <==> StartsDecimal(Unsigned(TrimStart(s)))
  {
    var t := TrimStart(s);
    match ParseUnsigned(Unsigned(t))
    case None => None
    case Some(m) => Some(if |t| > 0 && t[0] == '-' then -m else m)
  }

  /** Trailing text after a decimal is ignored: "12.5kg" reads as 12.5. */
  lemma ParseFloatIgnoresSuffix()
    ensures ParseFloat("12.5kg") == Some(12.5)
  {
    var s := "12.5kg";
    TrimStartOfUnpadded(s);
    assert s == "12" + ".5kg";
    LeadingDigitsOf("12", ".5kg");
    assert s[2..] == ".5kg" && s[2..][1..] == "5" + "kg";
    LeadingDigitsOf("5", "kg");
    assert DigitsValue("12") == 12 by {
      assert "12"[..1] == "1";
    }
    assert FractionValue("5") == 0.5 by {
      assert "5"[1..] == "";
    }
  }

  /** Text without a leading decimal reads as NaN. */
  lemma ParseFloatNaN()
    ensures ParseFloat("abc") == None
    ensures ParseFloat("") == None
    ensures ParseFloat(" -.") == None
  {
    TrimStartOfUnpadded("abc");
    TrimStartOfUnpadded("-.");
    assert " -."[1..] == "-.";
    assert TrimStart(" -.") == "-.";
    assert Unsigned("-.") == ".";
  }

  function DigitChar(d: nat): char
    requires d < 10
  {
    ('0' as int + d) as char
  }

  /** The decimal digits of n, with no leading zero. */
  function NatToString(n: nat): (s: string)
    ensures |s| > 0 && AllDigits(s)
    ensures DigitsValue(s) == n
    ensures |s| > 1 ==> s[0] != '0'
  {
    if n < 10 then [DigitChar(n)]
    else
      var q := NatToString(n / 10);
      var s := q + [DigitChar(n % 10)];
      assert s[..|s| - 1] == q;
      s
  }

  const MaxFraction: nat := 20

  /** The fraction part of a: a minus its integer part, in [0, 1). */
  function FractionPart(a: real): (r: real)
    ensures 0.0 <= r < 1.0
  {
    a - a.Floor as real
  }

  /** The first n decimal digits of the fraction r in [0, 1), stopping early
      once the rest is zero (so no trailing zero is written). */
  function FractionDigits(r: real, n: nat): (fp: string)
    requires 0.0 <= r < 1.0
    ensures |fp| <= n && AllDigits(fp)
    ensures |fp| > 0 ==> r != 0.0
    decreases n
  {
    if n == 0 || r == 0.0 then ""
    else
      var d := (10.0 * r).Floor;
      [DigitChar(d)] + FractionDigits(10.0 * r - d as real, n - 1)
  }

  /** The fraction r has at most n decimal digits. */
  predicate Terminates(r: real, n: nat)
    requires 0.0 <= r < 1.0
    decreases n
  {
    r == 0.0 || (n > 0 && Terminates(FractionPart(10.0 * r), n - 1))
  }

  /** x has a decimal expansion with at most MaxFraction digits after the point. */
  predicate IsShortDecimal(x: real) {
    Terminates(FractionPart(Abs(x)), MaxFraction)
  }

  /** Magnitude of x. */
  function Abs(x: real): (a: real)
    ensures a >= 0.0
  {
    if x < 0.0 then -x else x
  }

  /** Only digits, minus signs and points. */
  predicate IsNumeral(s: string) {
    forall i :: 0 <= i < |s| ==> IsDigit(s[i]) || s[i] == '-' || s[i] == '.'
  }

  /** The integer digits of |x|, then a point and the fraction digits when there are any. */
  function UnsignedNumeral(ip: string, fp: string): (s: string)
    requires |ip| > 0 && AllDigits(ip) && AllDigits(fp)
    ensures |s| > 0 && IsNumeral(s)
    ensures IsDigit(s[0]) && IsDigit(s[|s| - 1])
  {
    ip + (if fp == "" then "" else "." + fp)
  }

  /** How the model prints a finite number: an optional minus sign, the integer
      digits, and when x is not an integer a point and at most MaxFraction
      fraction digits, with no trailing zero. */
  function NumToString(x: real): (s: string)
    ensures |s| > 0 && IsNumeral(s)
    ensures IsDigit(s[0]) || s[0] == '-'
    ensures IsDigit(s[|s| - 1])
  {
    var a := Abs(x);
    var body := UnsignedNumeral(NatToString(a.Floor), FractionDigits(FractionPart(a), MaxFraction));
    if x < 0.0 then "-" + body else body
  }

  /** An integer needs no fraction digit, so it prints as IntToString does. */
  lemma IntegralPrint(n: int)
    ensures NumToString(n as real) == IntToString(n)
  {
    var a := Abs(n as real);
    assert a.Floor == if n < 0 then -n else n;
    assert FractionPart(a) == 0.0;
  }

  /** Integers in decimal, with a leading minus sign when negative. */
  function IntToString(n: int): (s: string)
    ensures |s| > 0
  {
    if n < 0 then "-" + NatToString(-n) else NatToString(n)
  }

  // ---------------------------------------------------------------------------
  // Printing then parsing a short decimal gives it back.

  lemma {:induction false} LeadingDigitsOf(p: string, q: string)
    requires AllDigits(p)
    requires |q| == 0 || !IsDigit(q[0])
    ensures LeadingDigits(p + q) == p
    decreases |p|
  {
    if |p| > 0 {
      assert (p + q)[1..] == p[1..] + q;
      LeadingDigitsOf(p[1..], q);
      assert [p[0]] + p[1..] == p;
    } else {
      assert p + q == q;
    }
  }

  /** Reading the fraction digits of a terminating fraction gives the fraction back. */
  lemma {:induction false} FractionDigitsValue(r: real, n: nat)
    requires 0.0 <= r < 1.0
    requires Terminates(r, n)
    ensures FractionValue(FractionDigits(r, n)) == r
    decreases n
  {
    if r != 0.0 {
      var d := (10.0 * r).Floor;
      var r' := 10.0 * r - d as real;
      assert r' == FractionPart(10.0 * r);
      FractionDigitsValue(r', n - 1);
      var fp := FractionDigits(r, n);
      assert fp == [DigitChar(d)] + FractionDigits(r', n - 1);
      assert fp[1..] == FractionDigits(r', n - 1);
    }
  }

  lemma TrimStartOfUnpadded(s: string)
    requires |s| > 0 && !IsWhite(s[0])
    ensures TrimStart(s) == s
  {
  }

  /** Printing then parsing a short decimal (in particular any integer) gives it back. */
  lemma PrintThenParse(x: real)
    requires IsShortDecimal(x)
    ensures ParseFloat(NumToString(x)) == Some(x)
  {
    var a := Abs(x);
    var ip := NatToString(a.Floor);
    var fp := FractionDigits(FractionPart(a), MaxFraction);
    var u := UnsignedNumeral(ip, fp);
    assert NumToString(x) == (if x < 0.0 then "-" else "") + u by {
      assert "" + u == u;
    }
    PrintedDigitsValue(a);
    ParseNumeral(NumToString(x), x < 0.0, ip, fp);
    assert x == if x < 0.0 then -a else a;
  }

  /** The digits NumToString writes for a short decimal a >= 0 have value a. */
  lemma PrintedDigitsValue(a: real)
    requires a >= 0.0 && Terminates(FractionPart(a), MaxFraction)
    ensures DecimalValue(NatToString(a.Floor), FractionDigits(FractionPart(a), MaxFraction)) == a
  {
    FractionDigitsValue(FractionPart(a), MaxFraction);
  }

  /** An optionally signed numeral reads back as its decimal value. */
  lemma ParseNumeral(s: string, neg: bool, ip: string, fp: string)
    requires |ip| > 0 && AllDigits(ip) && AllDigits(fp)
    requires s == (if neg then "-" else "") + UnsignedNumeral(ip, fp)
    ensures ParseFloat(s) == Some(if neg then -DecimalValue(ip, fp) else DecimalValue(ip, fp))
  {
    var u := UnsignedNumeral(ip, fp);
    var m := DecimalValue(ip, fp);
    SignOfNumeral(s, neg, u);
    ParseUnsignedPrinted(ip, fp);
    assert ParseUnsigned(Unsigned(TrimStart(s))) == Some(m);
    assert (|TrimStart(s)| > 0 && TrimStart(s)[0] == '-') == neg;
  }

  /** parseFloat strips nothing from a signed numeral but its sign. */
  lemma SignOfNumeral(s: string, neg: bool, u: string)
    requires |u| > 0 && IsDigit(u[0])
    requires s == (if neg then "-" else "") + u
    ensures TrimStart(s) == s
    ensures Unsigned(s) == u
    ensures (|s| > 0 && s[0] == '-') <==> neg
  {
    TrimStartOfUnpadded(s);
    if neg {
      assert s[1..] == u;
    }
  }

  /** Reading back an unsigned numeral. */
  lemma ParseUnsignedPrinted(ip: string, fp: string)
    requires |ip| > 0 && AllDigits(ip) && AllDigits(fp)
    ensures ParseUnsigned(UnsignedNumeral(ip, fp)) == Some(DecimalValue(ip, fp))
  {
    var tail := if fp == "" then "" else "." + fp;
    var u := ip + tail;
    LeadingDigitsOf(ip, tail);
    assert u[|ip|..] == tail;
    if fp != "" {
      assert tail[1..] == fp;
      LeadingDigitsOf(fp, "");
      assert fp + "" == fp;
    }
  }

  /** Every integer is a short decimal. */
  lemma IntegersAreShortDecimals(n: int)
    ensures IsShortDecimal(n as real)
  {
    var m: int := if n < 0 then -n else n;
    assert Abs(n as real) == m as real;
    assert (m as real).Floor == m;
  }
}
