/** The prefix number readers of JavaScript, `parseInt(s)` and
    `parseFloat(s)`, restricted to decimal notation: leading spaces, an
    optional sign, then as many digits as there are. A text with no digit
    where the number should start is not a number (NaN); that is `None`. */
module Numbers {
  import opened Wrappers
  import opened Strings

  predicate IsDigit(c: char) {
    '0' <= c <= '9'
  }

  predicate AllDigits(s: string) {
    forall i :: 0 <= i < |s| ==> IsDigit(s[i])
  }

  function DigitValue(c: char): (d: nat)
    requires IsDigit(c)
    ensures d < 10
  {
    c as int - '0' as int
  }

  function DigitChar(d: nat): (c: char)
    requires d < 10
    ensures IsDigit(c) && DigitValue(c) == d
  {
    ('0' as int + d) as char
  }

  /** The value of a digit string read in base ten, most significant first. */
  function DigitsValue(ds: string): nat
    requires AllDigits(ds)
  {
    if ds == [] then 0 else DigitsValue(ds[..|ds| - 1]) * 10 + DigitValue(ds[|ds| - 1])
  }

  /** Appending one digit to two numbers keeps their order, and the digits
      decide only a tie. */
  lemma PlaceValueOrder(x: nat, y: nat, a: nat, b: nat)
    requires a < 10 && b < 10
    ensures x * 10 + a == y * 10 + b <==> x == y && a == b
    ensures x * 10 + a <= y * 10 + b <==> x < y || (x == y && a <= b)
  {
  }

  /** The value of a digit string with one more digit at the end. */
  lemma DigitsValueSnoc(xs: string, c: char)
    requires AllDigits(xs) && IsDigit(c)
    ensures AllDigits(xs + [c])
    ensures DigitsValue(xs + [c]) == DigitsValue(xs) * 10 + DigitValue(c)
  {
    var x := xs + [c];
    assert x[..|xs|] == xs;
  }

  function Pow10(k: nat): (p: nat)
    ensures p >= 1
  {
    if k == 0 then 1 else 10 * Pow10(k - 1)
  }

  /** The longest run of digits at the start of `s`. */
  function LeadingDigits(s: string): (ds: string)
    ensures |ds| <= |s| && ds == s[..|ds|] && AllDigits(ds)
    ensures |ds| < |s| ==> !IsDigit(s[|ds|])
  {
    if s != [] && IsDigit(s[0]) then [s[0]] + LeadingDigits(s[1..]) else []
  }

  /** An optional leading `-` or `+`: the sign it stands for and the text
      after it. */
  function SplitSign(s: string): (int, string) {
    if s != [] && s[0] == '-' then (-1, s[1..])
    else if s != [] && s[0] == '+' then (1, s[1..])
    else (1, s)
  }

  /** `parseInt(s)` with no radix, for decimal text. */
  function ParseInt(s: string): (r: Option<int>)
    ensures r.None? <==> var rest := SplitSign(TrimStart(s)).1; rest == [] || !IsDigit(rest[0])
  {
    SignedInt(TrimStart(s))
  }

  /** An optional sign and the digit run after it. */
  function SignedInt(s: string): Option<int> {
    var (sign, rest) := SplitSign(s);
    var ds := LeadingDigits(rest);
    if ds == [] then None else Some(sign * DigitsValue(ds))
  }

  /** Whether a decimal literal starts `s`: a digit, or a point followed by
      a digit. */
  predicate StartsDecimal(s: string) {
    s != [] && (IsDigit(s[0]) || (s[0] == '.' && |s| > 1 && IsDigit(s[1])))
  }

  /** The decimal literal at the start of `s`, without sign: integer
      digits, then optionally a point and fraction digits; either part may
      be empty but not both. */
  function UnsignedDecimal(s: string): (r: Option<real>)
    ensures r.None? <==> !StartsDecimal(s)
  {
    var ip := LeadingDigits(s);
    var after := s[|ip|..];
    var fp := if after != [] && after[0] == '.' then LeadingDigits(after[1..]) else [];
    if ip == [] && fp == [] then None else Some(DecimalValue(ip, fp))
  }

  /** The value of `ip.fp`, integer and fraction digits. */
  function DecimalValue(ip: string, fp: string): (v: real)
    requires AllDigits(ip) && AllDigits(fp)
    ensures v >= 0.0
  {
    DigitsValue(ip) as real + DigitsValue(fp) as real / Pow10(|fp|) as real
  }

  /** `parseFloat(s)` for decimal text without an exponent. */
  function ParseFloat(s: string): (r: Option<real>)
    ensures r.None? <==> !StartsDecimal(SplitSign(TrimStart(s)).1)
  {
    SignedDecimal(TrimStart(s))
  }

  /** An optional sign and the unsigned literal after it. */
  function SignedDecimal(s: string): Option<real> {
    var (sign, rest) := SplitSign(s);
    match UnsignedDecimal(rest)
    case None => None
    case Some(v) => Some(sign as real * v)
  }

  /** The decimal numeral of `n`, the partner of `DigitsValue`. */
  function ShowNat(n: nat): (r: string)
    ensures r != [] && AllDigits(r) && DigitsValue(r) == n
  {
    if n < 10 then [DigitChar(n)]
    else
      var r := ShowNat(n / 10) + [DigitChar(n % 10)];
      assert r[..|r| - 1] == ShowNat(n / 10);
      r
  }

  /** The decimal numeral of `n`, with a `-` when negative. */
  function ShowInt(n: int): string {
    if n < 0 then "-" + ShowNat(-n) else ShowNat(n)
  }

  /** A digit run followed by a non-digit is exactly the leading digits. */
  lemma {:induction false} LeadingDigitsOfNumeral(ds: string, t: string)
    requires AllDigits(ds)
    requires t == [] || !IsDigit(t[0])
    ensures LeadingDigits(ds + t) == ds
  {
    if ds != [] {
      assert (ds + t)[1..] == ds[1..] + t;
      LeadingDigitsOfNumeral(ds[1..], t);
      assert ds == [ds[0]] + ds[1..];
    } else {
      assert ds + t == t;
    }
  }

  /** A text starting with a digit or a sign has nothing for `trim` to skip. */
  lemma NoLeadingSpace(s: string)
    requires s != [] && (IsDigit(s[0]) || s[0] == '-')
    ensures TrimStart(s) == s
  {
    assert !IsSpace(s[0]);
  }

  /** `parseInt` of a digit run followed by a non-digit. */
  lemma ParseIntOfDigits(ds: string, t: string)
    requires ds != [] && AllDigits(ds)
    requires t == [] || !IsDigit(t[0])
    ensures ParseInt(ds + t) == Some(DigitsValue(ds))
  {
    LeadingDigitsOfNumeral(ds, t);
    NoLeadingSpace(ds + t);
    assert SplitSign(ds + t) == (1, ds + t);
  }

  /** `parseInt` of a minus sign, a digit run and a non-digit. */
  lemma {:induction false} ParseIntOfNegatedDigits(ds: string, t: string)
    requires ds != [] && AllDigits(ds)
    requires t == [] || !IsDigit(t[0])
    ensures ParseInt("-" + ds + t) == Some(-(DigitsValue(ds) as int))
  {
    NoLeadingSpace("-" + ds + t);
    SignedIntOfNegatedDigits(ds, t);
  }

  /** The sign and digit reading of a minus sign, a digit run and a non-digit. */
  lemma {:induction false} SignedIntOfNegatedDigits(ds: string, t: string)
    requires ds != [] && AllDigits(ds)
    requires t == [] || !IsDigit(t[0])
    ensures SignedInt("-" + ds + t) == Some(-(DigitsValue(ds) as int))
  {
    var s := "-" + ds + t;
    assert s[0] == '-' && s[1..] == ds + t;
    LeadingDigitsOfNumeral(ds, t);
  }

  /** `parseInt` reads back a printed integer, and stops at the first
      non-digit after it (`parseInt("15.7")` is 15). */
  lemma ParseIntShowInt(n: int, t: string)
    requires t == [] || !IsDigit(t[0])
    ensures ParseInt(ShowInt(n) + t) == Some(n)
  {
    if n < 0 {
      ParseIntOfNegatedDigits(ShowNat(-n), t);
    } else {
      ParseIntOfDigits(ShowNat(n), t);
    }
  }

  /** The unsigned reader takes `ip.f` apart digit by digit. */
  lemma UnsignedDecimalOfNumeral(ip: string, f: string, t: string)
    requires ip != [] && AllDigits(ip) && AllDigits(f)
    requires t == [] || !IsDigit(t[0])
    ensures UnsignedDecimal(ip + "." + f + t) == Some(DecimalValue(ip, f))
  {
    var after := "." + f + t;
    var s := ip + after;
    assert ip + "." + f + t == s;
    LeadingDigitsOfNumeral(ip, after);
    assert s[|ip|..] == after;
    assert after[1..] == f + t;
    LeadingDigitsOfNumeral(f, t);
  }

  /** `parseFloat` reads back `ip.f` written in decimal, with `f` any run
      of fraction digits, and stops at the first non-digit after it. */
  lemma ParseFloatOfNumeral(ip: string, f: string, t: string)
    requires ip != [] && AllDigits(ip) && AllDigits(f)
    requires t == [] || !IsDigit(t[0])
    ensures ParseFloat(ip + "." + f + t) == Some(DecimalValue(ip, f))
  {
    var s := ip + "." + f + t;
    assert s[0] == ip[0];
    NoLeadingSpace(s);
    assert SplitSign(s) == (1, s);
    UnsignedDecimalOfNumeral(ip, f, t);
  }

  /** Whitespace in front of a number is skipped, whatever follows it. */
  lemma ParseFloatSkipsSpaces(w: string, s: string)
    requires forall i :: 0 <= i < |w| ==> IsSpace(w[i])
    ensures ParseFloat(w + s) == ParseFloat(s)
  {
    TrimStartSpaces(w, s);
  }

  /** Text that starts with neither whitespace nor a sign is read by the
      unsigned reader as it stands. */
  lemma ParseFloatUnsigned(s: string)
    requires s == [] || (!IsSpace(s[0]) && s[0] != '-' && s[0] != '+')
    ensures ParseFloat(s) == UnsignedDecimal(s)
  {
    if s != [] {
      assert TrimStart(s) == s;
    }
  }

  /** A leading minus sign negates what the unsigned reader finds after
      it; with nothing readable after it the result is NaN. */
  lemma ParseFloatNegated(s: string)
    ensures ParseFloat("-" + s)
         == if UnsignedDecimal(s).Some? then Some(-UnsignedDecimal(s).value) else None
  {
    var m := "-" + s;
    assert !IsSpace(m[0]);
    assert TrimStart(m) == m;
    assert m[1..] == s;
    assert SplitSign(m) == (-1, s);
  }

  /** Digits not followed by a point read as a whole number. */
  lemma UnsignedDecimalOfDigits(ip: string, t: string)
    requires ip != [] && AllDigits(ip)
    requires t == [] || (!IsDigit(t[0]) && t[0] != '.')
    ensures UnsignedDecimal(ip + t) == Some(DigitsValue(ip) as real)
  {
    var s := ip + t;
    LeadingDigitsOfNumeral(ip, t);
    assert s[|ip|..] == t;
    assert DecimalValue(ip, []) == DigitsValue(ip) as real;
  }

  /** `parseFloat` of a whole number: digits followed by neither a digit
      nor a point. */
  lemma ParseFloatOfDigits(ip: string, t: string)
    requires ip != [] && AllDigits(ip)
    requires t == [] || (!IsDigit(t[0]) && t[0] != '.')
    ensures ParseFloat(ip + t) == Some(DigitsValue(ip) as real)
  {
    assert (ip + t)[0] == ip[0];
    ParseFloatUnsigned(ip + t);
    UnsignedDecimalOfDigits(ip, t);
  }
}
