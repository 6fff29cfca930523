/**
 * Numbers as the script reads, rounds and writes them: Python's `int(text)`,
 * `float(text)`, `round(x, 3)` and `str(...)` of an int or a float.
 *
 * A Python float is modelled by its exact decimal value (`Decimal`), so a
 * value parsed from text or rounded to three decimals is represented exactly,
 * without binary floating-point error.
 */
module PyNumbers {
  import opened Results
  import opened PyText

  function Pow10(n: nat): (p: nat)
    ensures p >= 1
  {
    if n == 0 then 1 else 10 * Pow10(n - 1)
  }

  /** The number `mantissa / 10^scale`. */
  datatype Decimal = Decimal(mantissa: int, scale: nat) {
    function Value(): real {
      mantissa as real / Pow10(scale) as real
    }
  }

  // ---------------------------------------------------------------- digits

  predicate IsDigit(c: char) { '0' <= c <= '9' }

  predicate AllDigits(s: string) {
    forall i :: 0 <= i < |s| ==> IsDigit(s[i])
  }

  function DigitValue(c: char): nat
    requires IsDigit(c)
  {
    c as int - '0' as int
  }

  function DigitChar(d: nat): (c: char)
    requires d < 10
    ensures IsDigit(c) && DigitValue(c) == d
  {
    ('0' as int + d) as char
  }

  /** The number a string of decimal digits denotes (leading zeros allowed). */
  function DigitsValue(s: string): nat
    requires AllDigits(s)
  {
    if s == [] then 0 else 10 * DigitsValue(s[..|s| - 1]) + DigitValue(s[|s| - 1])
  }

  /** The decimal digits of `n`, without leading zeros. */
  function Digits(n: nat): (s: string)
    ensures |s| >= 1 && AllDigits(s)
    ensures DigitsValue(s) == n
  {
    if n < 10 then [DigitChar(n)]
    else
      var s := Digits(n / 10) + [DigitChar(n % 10)];
      assert s[..|s| - 1] == Digits(n / 10);
      s
  }

  function Zeros(k: nat): (z: string)
    ensures |z| == k && AllDigits(z)
  {
    if k == 0 then "" else "0" + Zeros(k - 1)
  }

  /** Leading zeros do not change the value of a digit string. */
  lemma {:induction false} LeadingZeros(k: nat, s: string)
    requires AllDigits(s)
    ensures AllDigits(Zeros(k) + s) && DigitsValue(Zeros(k) + s) == DigitsValue(s)
    decreases |s|
  {
    var t := Zeros(k) + s;
    if s == [] {
      assert t == Zeros(k);
      ZerosValue(k);
    } else {
      assert t[..|t| - 1] == Zeros(k) + s[..|s| - 1];
      LeadingZeros(k, s[..|s| - 1]);
    }
  }

  lemma {:induction false} ZerosValue(k: nat)
    ensures DigitsValue(Zeros(k)) == 0
  {
    if k > 0 {
      var z := Zeros(k);
      assert z == Zeros(k - 1) + "0" by { ZerosSnoc(k); }
      assert z[..|z| - 1] == Zeros(k - 1);
      ZerosValue(k - 1);
    }
  }

  lemma {:induction false} ZerosSnoc(k: nat)
    requires k > 0
    ensures Zeros(k) == Zeros(k - 1) + "0"
  {
    if k > 1 {
      ZerosSnoc(k - 1);
    }
  }

  // ---------------------------------------------------------------- int

  /** Text that begins with a minus sign or a digit and ends with a digit, as Python writes numbers. */
  predicate NumberText(s: string) {
    |s| >= 1 && (s[0] == '-' || IsDigit(s[0])) && IsDigit(s[|s| - 1])
  }

  /** A number's text has no white space at its ends. */
  lemma NumberTextTrimmed(s: string)
    requires NumberText(s)
    ensures Trimmed(s)
  {
  }

  /** `str(n)` for a Python int. */
  function IntToString(n: int): (s: string)
    ensures NumberText(s)
  {
    if n < 0 then "-" + Digits(-n) else Digits(n)
  }

  /** The value of `text` when it is an optional sign followed by one or more ASCII digits. */
  function SignedDigits(text: string): Option<int> {
    if text != [] && (text[0] == '-' || text[0] == '+') then
      var body := text[1..];
      if body != [] && AllDigits(body) then
        Some(if text[0] == '-' then -(DigitsValue(body) as int) else DigitsValue(body))
      else None
    else if text != [] && AllDigits(text) then Some(DigitsValue(text))
    else None
  }

  /**
   * `int(s)`: white space around the number is ignored; anything else that is
   * not a signed run of digits raises ValueError.
   */
  function ParseInt(s: string): (r: Result<int>)
    ensures r.Err? ==> r.error == ValueError
  {
    match SignedDigits(Strip(s))
    case Some(n) => Ok(n)
    case None => Err(ValueError)
  }

  /** `int(str(n)) == n` */
  lemma IntRoundTrip(n: int)
    ensures ParseInt(IntToString(n)) == Ok(n)
  {
    NumberTextTrimmed(IntToString(n));
    StripTrimmed(IntToString(n));
    IntTextValue(n);
  }

  lemma IntTextValue(n: int)
    ensures SignedDigits(IntToString(n)) == Some(n)
  {
    var s := IntToString(n);
    if n < 0 {
      assert s[1..] == Digits(-n);
    } else {
      assert IsDigit(s[0]);
    }
  }

  /** `str(n)` holds only a minus sign and digits. */
  lemma IntTextChars(n: int)
    ensures forall k :: 0 <= k < |IntToString(n)| ==> IntToString(n)[k] == '-' || IsDigit(IntToString(n)[k])
  {
    if n < 0 {
      var s := IntToString(n);
      assert forall k :: 1 <= k < |s| ==> s[k] == Digits(-n)[k - 1];
    }
  }

  // ---------------------------------------------------------------- float

  /** The index of the first exponent marker `e` or `E`, or `|s|` when there is none. */
  function FindExponent(s: string): (i: nat)
    ensures i <= |s|
    ensures i < |s| ==> s[i] == 'e' || s[i] == 'E'
    ensures forall k :: 0 <= k < i ==> s[k] != 'e' && s[k] != 'E'
  {
    if s == [] then 0
    else if s[0] == 'e' || s[0] == 'E' then 0
    else 1 + FindExponent(s[1..])
  }

  /** Digits with at most one decimal point, at least one digit in all: the unsigned number they denote. */
  function ParseMantissa(mant: string): Option<Decimal> {
    var dot := Find(mant, '.');
    var intPart := mant[..dot];
    var frac := if dot < |mant| then mant[dot + 1..] else "";
    if AllDigits(intPart) && AllDigits(frac) && |intPart| + |frac| > 0 then
      Some(Decimal(DigitsValue(intPart + frac), |frac|))
    else None
  }

  /** `d` times `10^k`, exactly. */
  function ScaleBy(d: Decimal, k: int): Decimal {
    if k >= 0 then Decimal(d.mantissa * Pow10(k), d.scale)
    else Decimal(d.mantissa, d.scale + (-k))
  }

  /**
   * `float(s)` for decimal text: optional sign, digits with at most one
   * decimal point (at least one digit in all), then an optional exponent
   * `e`/`E` with an optional sign and at least one digit. White space around
   * the number is ignored; any other text raises ValueError.
   */
  function ParseFloat(s: string): (r: Result<Decimal>)
    ensures r.Err? ==> r.error == ValueError
  {
    ParseSigned(Strip(s))
  }

  /** A float's text without surrounding white space: an optional sign, then the number. */
  function ParseSigned(t: string): (r: Result<Decimal>)
    ensures r.Err? ==> r.error == ValueError
  {
    var neg := t != [] && t[0] == '-';
    var u := if t != [] && (t[0] == '-' || t[0] == '+') then t[1..] else t;
    match ParseUnsigned(u)
    case None => Err(ValueError)
    case Some(m) => Ok(if neg then Decimal(-m.mantissa, m.scale) else m)
  }

  /** A float's text after its sign: a mantissa and an optional exponent. */
  function ParseUnsigned(u: string): Option<Decimal> {
    var e := FindExponent(u);
    match ParseMantissa(u[..e])
    case None => None
    case Some(m) =>
      if e == |u| then Some(m)
      else
        match SignedDigits(u[e + 1..])
        case None => None
        case Some(k) => Some(ScaleBy(m, k))
  }

  /** The same number with the fewest decimals, keeping at least one. */
  function Shortest(d: Decimal): (r: Decimal)
    ensures r.scale >= 1
    ensures r.scale == 1 || r.mantissa % 10 != 0
    decreases d.scale
  {
    if d.scale == 0 then Decimal(d.mantissa * 10, 1)
    else if d.scale > 1 && d.mantissa % 10 == 0 then Shortest(Decimal(d.mantissa / 10, d.scale - 1))
    else d
  }

  /** Dropping trailing zero decimals does not change the number. */
  lemma {:induction false} ShortestValue(d: Decimal)
    ensures Shortest(d).Value() == d.Value()
    decreases d.scale
  {
    if d.scale == 0 {
      assert Pow10(1) == 10;
      ScaleDown(d.mantissa, 1);
    } else if d.scale > 1 && d.mantissa % 10 == 0 {
      var q := d.mantissa / 10;
      assert d.mantissa == q * 10;
      ScaleDown(q, d.scale);
      ShortestValue(Decimal(q, d.scale - 1));
    }
  }

  lemma ScaleDown(q: int, s: nat)
    requires s >= 1
    ensures Decimal(q * 10, s).Value() == Decimal(q, s - 1).Value()
  {
    var p := Pow10(s - 1) as real;
    assert Pow10(s) as real == 10.0 * p;
    assert (q * 10) as real == 10.0 * q as real;
  }

  /** `digits` with a decimal point in front of its last `scale` characters. */
  function PointAt(digits: string, scale: nat): string
    requires |digits| > scale
  {
    digits[..|digits| - scale] + "." + digits[|digits| - scale..]
  }

  /** The digits of `a`, padded with zeros on the left to at least `width` characters. */
  function Padded(a: nat, width: nat): (s: string)
    ensures |s| >= width && |s| >= 1 && AllDigits(s) && DigitsValue(s) == a
  {
    var ds := Digits(a);
    if |ds| >= width then ds
    else
      LeadingZeros(width - |ds|, ds);
      Zeros(width - |ds|) + ds
  }

  /**
   * `str(x)` for a float: the shortest positional decimal with at least one
   * digit after the point (`70.0`, `12.5`, `-0.05`).
   */
  function FloatToString(d: Decimal): (s: string)
    ensures |s| >= 3 && NumberText(s)
  {
    DecimalText(Shortest(d))
  }

  /** `n` written out with exactly `n.scale` digits after the point. */
  function DecimalText(n: Decimal): (s: string)
    requires n.scale >= 1
    ensures |s| >= 3 && NumberText(s)
  {
    WithSign(n.mantissa < 0, PointedDigits(if n.mantissa < 0 then -n.mantissa else n.mantissa, n.scale))
  }

  /** `body`, behind a minus sign when `negative`. */
  function WithSign(negative: bool, body: string): (s: string)
    requires |body| >= 3 && IsDigit(body[0]) && IsDigit(body[|body| - 1])
    ensures |s| >= 3 && NumberText(s)
  {
    if negative then "-" + body else body
  }

  /** The digits of `a`, padded to more than `k` digits, with a point before the last `k`. */
  function PointedDigits(a: nat, k: nat): (s: string)
    requires k >= 1
    ensures |s| >= 3 && IsDigit(s[0]) && IsDigit(s[|s| - 1])
  {
    var ds := Padded(a, k + 1);
    var s := PointAt(ds, k);
    assert s[0] == ds[0];
    assert s[|s| - 1] == ds[|ds| - 1];
    s
  }

  /** `float(str(x))` has the value of `x`. */
  lemma FloatRoundTrip(d: Decimal)
    ensures ParseFloat(FloatToString(d)).Ok?
    ensures ParseFloat(FloatToString(d)).value.Value() == d.Value()
  {
    var s := FloatToString(d);
    assert ParseFloat(s) == Ok(Shortest(d)) by {
      NumberTextTrimmed(s);
      StripTrimmed(s);
      DecimalTextParses(Shortest(d));
    }
    ShortestValue(d);
  }

  /** `str(x)` holds only a minus sign, digits and one decimal point. */
  lemma FloatTextChars(d: Decimal)
    ensures var s := FloatToString(d);
            forall k :: 0 <= k < |s| ==> s[k] == '-' || s[k] == '.' || IsDigit(s[k])
  {
    var n := Shortest(d);
    var a := if n.mantissa < 0 then -n.mantissa else n.mantissa;
    var body := PointedDigits(a, n.scale);
    assert FloatToString(d) == WithSign(n.mantissa < 0, body);
    PointedDigitsChars(a, n.scale);
    SignChars(n.mantissa < 0, body);
  }

  lemma SignChars(negative: bool, body: string)
    requires |body| >= 3 && IsDigit(body[0]) && IsDigit(body[|body| - 1])
    requires forall i :: 0 <= i < |body| ==> body[i] == '.' || IsDigit(body[i])
    ensures var s := WithSign(negative, body);
            forall k :: 0 <= k < |s| ==> s[k] == '-' || s[k] == '.' || IsDigit(s[k])
  {
    var s := WithSign(negative, body);
    if negative {
      assert forall k :: 1 <= k < |s| ==> s[k] == body[k - 1];
    }
  }

  lemma PointedDigitsChars(a: nat, k: nat)
    requires k >= 1
    ensures var s := PointedDigits(a, k);
            forall i :: 0 <= i < |s| ==> s[i] == '.' || IsDigit(s[i])
  {
    var ds := Padded(a, k + 1);
    var n := |ds| - k;
    var s := PointedDigits(a, k);
    assert s == ds[..n] + "." + ds[n..];
    assert forall i :: 0 <= i < n ==> s[i] == ds[i];
    assert forall i :: n < i < |s| ==> s[i] == ds[i - 1];
  }

  /** Decimal text reads back as the decimal it was written from. */
  lemma DecimalTextParses(n: Decimal)
    requires n.scale >= 1
    ensures ParseSigned(DecimalText(n)) == Ok(n)
  {
    var a := if n.mantissa < 0 then -n.mantissa else n.mantissa;
    var body := PointedDigits(a, n.scale);
    PointedDigitsParse(a, n.scale);
    SignParses(body, Decimal(a, n.scale));
    if n.mantissa < 0 {
      assert DecimalText(n) == "-" + body;
      assert Decimal(-a, n.scale) == n;
    } else {
      assert DecimalText(n) == body;
    }
  }

  /** The digits of `a` with a point before the last `k` of them read back as `a` scaled down by `k` places. */
  lemma PointedDigitsParse(a: nat, k: nat)
    requires k >= 1
    ensures ParseUnsigned(PointedDigits(a, k)) == Some(Decimal(a, k))
  {
    PointedParses(Padded(a, k + 1), k);
  }

  /** The sign in front of a float's digits negates it. */
  lemma SignParses(body: string, m: Decimal)
    requires body != [] && IsDigit(body[0]) && ParseUnsigned(body) == Some(m)
    ensures ParseSigned(body) == Ok(m)
    ensures ParseSigned("-" + body) == Ok(Decimal(-m.mantissa, m.scale))
  {
    NegativeParses(body, m);
  }

  lemma NegativeParses(body: string, m: Decimal)
    requires ParseUnsigned(body) == Some(m)
    ensures ParseSigned("-" + body) == Ok(Decimal(-m.mantissa, m.scale))
  {
    var t := "-" + body;
    assert t != [] && t[0] == '-';
    var u := t[1..];
    assert u == body;
    assert ParseUnsigned(u) == Some(m);
  }

  lemma PointedParses(ds: string, k: nat)
    requires AllDigits(ds) && |ds| > k
    ensures IsDigit(PointAt(ds, k)[0])
    ensures ParseUnsigned(PointAt(ds, k)) == Some(Decimal(DigitsValue(ds), k))
  {
    var body := PointAt(ds, k);
    PointedText(ds, k);
    assert body[..|body|] == body;
  }

  /** A digit string with a point inserted reads back as the digits scaled down. */
  lemma PointedText(ds: string, k: nat)
    requires AllDigits(ds) && |ds| > k
    ensures FindExponent(PointAt(ds, k)) == |PointAt(ds, k)|
    ensures ParseMantissa(PointAt(ds, k)) == Some(Decimal(DigitsValue(ds), k))
    ensures IsDigit(PointAt(ds, k)[0])
  {
    PointedNoExponent(ds, k);
    PointedMantissa(ds, k);
  }

  lemma PointedNoExponent(ds: string, k: nat)
    requires AllDigits(ds) && |ds| > k
    ensures FindExponent(PointAt(ds, k)) == |PointAt(ds, k)|
    ensures IsDigit(PointAt(ds, k)[0])
  {
    var u := PointAt(ds, k);
    var n := |ds| - k;
    assert |u| == |ds| + 1;
    forall i | 0 <= i < |u| ensures u[i] != 'e' && u[i] != 'E' {
      if i < n { assert u[i] == ds[i]; }
      else if i > n { assert u[i] == ds[i - 1]; }
    }
    assert u[0] == ds[0];
  }

  lemma PointedMantissa(ds: string, k: nat)
    requires AllDigits(ds) && |ds| > k
    ensures ParseMantissa(PointAt(ds, k)) == Some(Decimal(DigitsValue(ds), k))
  {
    var n := |ds| - k;
    assert PointAt(ds, k) == ds[..n] + "." + ds[n..];
    MantissaOfCut(ds, n);
    assert ParseMantissa(ds[..n] + "." + ds[n..]) == Some(Decimal(DigitsValue(ds), k));
  }

  /** A point put into a digit string: the number the digits spell, scaled by the digits after the point. */
  lemma MantissaOfCut(ds: string, n: nat)
    requires AllDigits(ds) && 0 < |ds| && n <= |ds|
    ensures ParseMantissa(ds[..n] + "." + ds[n..]) == Some(Decimal(DigitsValue(ds), |ds| - n))
  {
    var ip, fp := ds[..n], ds[n..];
    DigitsAround(ds, n);
    assert ip + fp == ds;
    assert AllDigits(ip) && AllDigits(fp) && '.' !in ip && |ds| > 0;
    MantissaOfPoint(ip, fp, ds);
    assert ParseMantissa(ip + "." + fp) == Some(Decimal(DigitsValue(ds), |fp|));
    assert |fp| == |ds| - n;
  }

  /** Digits, a point, then digits: the number they spell, scaled by the count of digits after the point. */
  lemma MantissaOfPoint(ip: string, fp: string, ds: string)
    requires AllDigits(ip) && AllDigits(fp) && '.' !in ip && ip + fp == ds && |ds| > 0
    ensures ParseMantissa(ip + "." + fp) == Some(Decimal(DigitsValue(ds), |fp|))
  {
    var u := ip + "." + fp;
    FindAfter(ip, '.', fp);
    assert u[..|ip|] == ip;
    assert u[|ip| + 1..] == fp;
  }

  /** Both sides of a cut through a digit string are digit strings, and hold no point. */
  lemma DigitsAround(ds: string, n: nat)
    requires AllDigits(ds) && n <= |ds|
    ensures AllDigits(ds[..n]) && AllDigits(ds[n..]) && '.' !in ds[..n]
  {
    assert forall i :: 0 <= i < n ==> ds[..n][i] == ds[i];
    assert forall i :: 0 <= i < |ds| - n ==> ds[n..][i] == ds[n + i];
  }

  // ---------------------------------------------------------------- round

  /** The integer nearest to `y`, ties going to the even neighbour. */
  function RoundHalfEven(y: real): (n: int)
    ensures -0.5 <= n as real - y <= 0.5
    ensures (n as real - y == 0.5 || y - n as real == 0.5) ==> n % 2 == 0
  {
    var f := y.Floor;
    var frac := y - f as real;
    if frac < 0.5 then f
    else if frac > 0.5 then f + 1
    else if f % 2 == 0 then f
    else f + 1
  }

  /** Rounding never leaves an interval whose ends are integers. */
  lemma RoundWithin(y: real, lo: int, hi: int)
    requires lo as real <= y <= hi as real
    ensures lo <= RoundHalfEven(y) <= hi
  {
    var f := y.Floor;
    assert lo <= f;
    if y == hi as real {
      assert f == hi;
    }
  }

  /** `round(x, 3)`: `x` rounded to three decimals, ties to even. */
  function Round3(x: real): (r: Decimal)
    ensures r.scale == 3
  {
    Decimal(RoundHalfEven(x * 1000.0), 3)
  }

  /** `round(x, 3)` lies within half a thousandth of `x`. */
  lemma Round3Close(x: real)
    ensures -0.0005 <= Round3(x).Value() - x <= 0.0005
  {
    assert Pow10(3) == 1000;
  }

  /** Rounding a percentage keeps it within 0 and 100. */
  lemma Round3Percentage(x: real)
    requires 0.0 <= x <= 100.0
    ensures 0.0 <= Round3(x).Value() <= 100.0
  {
    RoundWithin(x * 1000.0, 0, 100000);
    assert Pow10(3) == 1000;
  }
}
