/**
 * The JavaScript number conversions the calculator relies on: `parseFloat`,
 * `parseInt` (no radix argument), `Number(string)` as used by `isNaN`, and the
 * `x || 0` fallback. Numbers are exact reals rather than IEEE-754 doubles, and
 * only finite decimal literals are recognised (see README, "Left out").
 */
module JsNumber {
  import opened Wrappers

  /** A JavaScript number: NaN, or a finite value (the sign of zero is not kept). */
  datatype Num = NaN | Finite(value: real)

  /** What a scanner recognised: the value and how many characters it consumed. */
  datatype Scanned = Scanned(value: real, len: nat)

  /** A recognised exponent part `e[+-]digits`: its power of ten and its length. */
  datatype Exponent = Exponent(power: int, len: nat)

  /** The ECMAScript StrWhiteSpaceChar set: WhiteSpace (incl. every Zs space) and LineTerminator. */
  predicate IsWhitespace(c: char)
  {
    c == '\t' || c == '\n' || c == '\U{000B}' || c == '\U{000C}' || c == '\r' || c == ' '
    || c == '\U{00A0}' || c == '\U{1680}' || ('\U{2000}' <= c <= '\U{200A}')
    || c == '\U{2028}' || c == '\U{2029}' || c == '\U{202F}' || c == '\U{205F}'
    || c == '\U{3000}' || c == '\U{FEFF}'
  }

  predicate IsBlank(s: string)
  {
    forall i :: 0 <= i < |s| ==> IsWhitespace(s[i])
  }

  /** A character at which every numeric scanner stops: it can neither extend digits, a fraction, nor an exponent. */
  predicate IsStopper(c: char)
  {
    !('0' <= c <= '9') && c != '.' && c != 'e' && c != 'E' && c != '+' && c != '-'
  }

  function TrimStart(s: string): (t: string)
    ensures |t| <= |s| && t == s[|s| - |t|..]
    ensures t == [] || !IsWhitespace(t[0])
    ensures t == [] <==> IsBlank(s)
  {
    if s != [] && IsWhitespace(s[0]) then TrimStart(s[1..]) else s
  }

  function TrimEnd(s: string): (t: string)
    ensures |t| <= |s| && t == s[..|t|]
    ensures |t| < |s| ==> IsWhitespace(s[|t|])
    ensures t == [] || !IsWhitespace(t[|t| - 1])
  {
    if s != [] && IsWhitespace(s[|s| - 1]) then TrimEnd(s[..|s| - 1]) else s
  }

  function Trim(s: string): string
  {
    TrimEnd(TrimStart(s))
  }

  /** The value of `c` as a digit in any radix up to 36, or 36 when it is no digit at all. */
  function DigitWeight(c: char): (w: nat)
    ensures w <= 36
    ensures w < 10 <==> '0' <= c <= '9'
  {
    if '0' <= c <= '9' then c as int - '0' as int
    else if 'a' <= c <= 'z' then c as int - 'a' as int + 10
    else if 'A' <= c <= 'Z' then c as int - 'A' as int + 10
    else 36
  }

  predicate IsDigitIn(c: char, radix: nat)
  {
    DigitWeight(c) < radix
  }

  /** `ds` consists of digits of the radix only. */
  predicate IsNumeral(ds: string, radix: nat)
  {
    forall i :: 0 <= i < |ds| ==> IsDigitIn(ds[i], radix)
  }

  /** The longest prefix of `s` made of digits of the radix. */
  function DigitRun(s: string, radix: nat): (ds: string)
    ensures |ds| <= |s| && ds == s[..|ds|]
    ensures forall i :: 0 <= i < |ds| ==> IsDigitIn(ds[i], radix)
    ensures |ds| < |s| ==> !IsDigitIn(s[|ds|], radix)
  {
    if s != [] && IsDigitIn(s[0], radix) then [s[0]] + DigitRun(s[1..], radix) else []
  }

  /** The positional value of a string of digits, most significant first. */
  function DigitsValue(ds: string, radix: nat): nat
    requires forall i :: 0 <= i < |ds| ==> IsDigitIn(ds[i], radix)
  {
    if ds == [] then 0 else Positional(DigitsValue(ds[..|ds| - 1], radix), radix, DigitWeight(ds[|ds| - 1]))
  }

  /** A numeral's value `high` in the given radix with one more digit of weight `low` appended. */
  function Positional(high: nat, radix: nat, low: nat): nat
  {
    high * radix + low
  }

  function Pow10(n: nat): (p: nat)
    ensures p >= 1
  {
    if n == 0 then 1 else 10 * Pow10(n - 1)
  }

  /** 10 raised to an integer power, as a real. */
  function Scale(e: int): (r: real)
    ensures r > 0.0
  {
    if e >= 0 then Pow10(e) as real else 1.0 / Pow10(-e) as real
  }

  /** The value of the decimal numeral `whole.fraction`. */
  function Decimal(whole: string, fraction: string): (r: real)
    requires forall i :: 0 <= i < |whole| ==> IsDigitIn(whole[i], 10)
    requires forall i :: 0 <= i < |fraction| ==> IsDigitIn(fraction[i], 10)
    ensures r >= 0.0
    ensures DigitsValue(fraction, 10) > 0 ==> r > 0.0
  {
    DigitsValue(whole, 10) as real + DigitsValue(fraction, 10) as real / Pow10(|fraction|) as real
  }

  /**
   * The mantissa of a StrUnsignedDecimalLiteral at the start of `u`:
   * `digits [. digits?]` or `. digits`, read as far as it goes.
   */
  function ScanMantissa(u: string): (m: Option<Scanned>)
    ensures m.Some? <==> (u != [] && IsDigitIn(u[0], 10)) || (|u| >= 2 && u[0] == '.' && IsDigitIn(u[1], 10))
    ensures m.Some? ==> 0 < m.value.len <= |u| && m.value.value >= 0.0
  {
    var whole := DigitRun(u, 10);
    assert u == whole + u[|whole|..];
    ScanFraction(whole, u[|whole|..])
  }

  /** The mantissa whose integer digits `whole` have been read and that continues with `rest`. */
  function ScanFraction(whole: string, rest: string): (m: Option<Scanned>)
    requires forall i :: 0 <= i < |whole| ==> IsDigitIn(whole[i], 10)
    requires rest != [] ==> !IsDigitIn(rest[0], 10)
    ensures m.Some? <==> whole != [] || (|rest| >= 2 && rest[0] == '.' && IsDigitIn(rest[1], 10))
    ensures m.Some? ==> 0 < m.value.len <= |whole| + |rest| && m.value.value >= 0.0
  {
    if rest != [] && rest[0] == '.' then
      var fraction := DigitRun(rest[1..], 10);
      if whole == [] && fraction == [] then None
      else Some(Scanned(Decimal(whole, fraction), |whole| + 1 + |fraction|))
    else if whole == [] then None
    else Some(Scanned(Decimal(whole, []), |whole|))
  }

  /** An ExponentPart `e[+-]digits` (or `E…`) at the start of `r`; none unless at least one digit follows. */
  function ScanExponent(r: string): (e: Option<Exponent>)
    ensures e.Some? ==> 2 <= e.value.len <= |r| && (r[0] == 'e' || r[0] == 'E')
  {
    if r != [] && (r[0] == 'e' || r[0] == 'E') then
      ExponentDigits(r, if |r| > 1 && (r[1] == '+' || r[1] == '-') then 2 else 1)
    else None
  }

  /** The digits of an exponent part `r` that start at `start`, after the marker and the optional sign. */
  function ExponentDigits(r: string, start: nat): (e: Option<Exponent>)
    requires 1 <= start <= |r|
    ensures e.Some? ==> start < e.value.len <= |r|
  {
    var digits := DigitRun(r[start..], 10);
    if digits == [] then None
    else
      var magnitude: int := DigitsValue(digits, 10);
      Some(Exponent(if start == 2 && r[1] == '-' then -magnitude else magnitude, start + |digits|))
  }

  /** The longest StrUnsignedDecimalLiteral (without `Infinity`) at the start of `u`. */
  function ScanDecimal(u: string): (d: Option<Scanned>)
    ensures d.Some? <==> ScanMantissa(u).Some?
    ensures d.Some? ==> 0 < d.value.len <= |u| && d.value.value >= 0.0
  {
    match ScanMantissa(u)
    case None => None
    case Some(m) => Some(WithExponent(m, u[m.len..]))
  }

  /** A mantissa `m` followed by `rest`, scaled by the exponent part that `rest` may start with. */
  function WithExponent(m: Scanned, rest: string): (d: Scanned)
    ensures d.len <= m.len + |rest|
    ensures m.value >= 0.0 ==> d.value >= 0.0
  {
    match ScanExponent(rest)
    case None => m
    case Some(e) => Scanned(Scaled(m.value, e.power), m.len + e.len)
  }

  /** `x` times 10 to the power `e`. */
  function Scaled(x: real, e: int): (r: real)
    ensures x >= 0.0 ==> r >= 0.0
  {
    x * Scale(e)
  }

  /** The length of an optional leading `+` or `-`. */
  function SignLength(t: string): (n: nat)
    ensures n <= |t|
  {
    if t != [] && (t[0] == '+' || t[0] == '-') then 1 else 0
  }

  function ApplySignInt(t: string, x: int): int
  {
    if t != [] && t[0] == '-' then -x else x
  }

  /** A StrDecimalLiteral (optional sign, then an unsigned literal) at the start of `t`. */
  function ScanSigned(t: string): (d: Option<Scanned>)
    ensures d.Some? ==> 0 < d.value.len <= |t|
    ensures d.Some? && (t == [] || t[0] != '-') ==> d.value.value >= 0.0
  {
    var k := SignLength(t);
    WithSign(k == 1 && t[0] == '-', k, ScanDecimal(t[k..]))
  }

  /** An unsigned scan `d` preceded by a sign of length `k`, negative or not. */
  function WithSign(negative: bool, k: nat, d: Option<Scanned>): (r: Option<Scanned>)
    ensures r.Some? <==> d.Some?
    ensures r.Some? ==> r.value.len == k + d.value.len
    ensures r.Some? && !negative && d.value.value >= 0.0 ==> r.value.value >= 0.0
  {
    match d
    case None => None
    case Some(d) => Some(Scanned(if negative then -d.value else d.value, k + d.len))
  }

  /** JavaScript `parseFloat(s)`: skip leading white space, then read the longest decimal-literal prefix. */
  function ParseFloat(s: string): (n: Num)
    ensures IsBlank(s) ==> n == NaN
    ensures '-' !in s ==> n.NaN? || n.value >= 0.0
  {
    var t := TrimStart(s);
    assert t != [] ==> t[0] == s[|s| - |t|];
    match ScanSigned(t)
    case None => NaN
    case Some(d) => Finite(d.value)
  }

  /**
   * JavaScript `parseInt(s)` without a radix: skip leading white space and an
   * optional sign; a `0x`/`0X` prefix selects radix 16, otherwise radix 10;
   * then read the longest prefix of digits, NaN when there is none.
   */
  function ParseInt(s: string): (n: Num)
    ensures IsBlank(s) ==> n == NaN
    ensures '-' !in s ==> n.NaN? || n.value >= 0.0
    ensures n.Finite? ==> n.value == n.value.Floor as real
  {
    var t := TrimStart(s);
    assert t != [] ==> t[0] == s[|s| - |t|];
    var u := t[SignLength(t)..];
    if HasHexPrefix(u) then IntegerValue(t, u[2..], 16) else IntegerValue(t, u, 10)
  }

  predicate HasHexPrefix(u: string)
  {
    |u| >= 2 && u[0] == '0' && (u[1] == 'x' || u[1] == 'X')
  }

  /** The integer whose digits in `radix` lead `body`, negated when the text `t` starts with a minus sign. */
  function IntegerValue(t: string, body: string, radix: nat): (n: Num)
    ensures (t == [] || t[0] != '-') ==> n.NaN? || n.value >= 0.0
    ensures n.Finite? ==> n.value == n.value.Floor as real
  {
    var digits := DigitRun(body, radix);
    if digits == [] then NaN else Finite(ApplySignInt(t, DigitsValue(digits, radix)) as real)
  }

  /**
   * JavaScript `Number(s)` on a string (StringToNumber), which `isNaN(s)` applies:
   * blank text is 0; otherwise the text without surrounding white space must be
   * one whole signed decimal literal.
   */
  function ToNumber(s: string): (n: Num)
    ensures IsBlank(s) ==> n == Finite(0.0)
    ensures '-' !in s ==> n.NaN? || n.value >= 0.0
  {
    var t := Trim(s);
    assert t != [] ==> t[0] == s[|s| - |TrimStart(s)|];
    if t == [] then Finite(0.0)
    else
      match ScanSigned(t)
      case None => NaN
      case Some(d) => if d.len == |t| then Finite(d.value) else NaN
  }

  /** JavaScript `isNaN(s)` on a string argument. */
  predicate IsNaN(s: string)
  {
    ToNumber(s).NaN?
  }

  /** JavaScript `n || 0`: NaN and zero are falsy and give 0; any other number is kept. */
  function OrZero(n: Num): (r: real)
    ensures r == 0.0 <==> n.NaN? || n.value == 0.0
    ensures n.Finite? && r != 0.0 ==> r == n.value
  {
    if n.NaN? then 0.0 else n.value
  }

  /** Appending text that cannot continue a digit run leaves the run unchanged. */
  lemma {:induction false} DigitRunAppend(a: string, b: string, radix: nat)
    requires b == [] || !IsDigitIn(b[0], radix)
    ensures DigitRun(a + b, radix) == DigitRun(a, radix)
  {
    if a == [] {
      assert a + b == b;
    } else {
      assert (a + b)[0] == a[0];
      assert (a + b)[1..] == a[1..] + b;
      if IsDigitIn(a[0], radix) {
        DigitRunAppend(a[1..], b, radix);
      }
    }
  }

  lemma FractionAppend(whole: string, rest: string, w: string)
    requires forall i :: 0 <= i < |whole| ==> IsDigitIn(whole[i], 10)
    requires rest != [] ==> !IsDigitIn(rest[0], 10)
    requires w == [] || IsStopper(w[0])
    ensures rest + w != [] ==> !IsDigitIn((rest + w)[0], 10)
    ensures ScanFraction(whole, rest + w) == ScanFraction(whole, rest)
  {
    if rest == [] {
      assert rest + w == w;
    } else {
      assert (rest + w)[0] == rest[0];
      assert (rest + w)[1..] == rest[1..] + w;
      DigitRunAppend(rest[1..], w, 10);
    }
  }

  lemma MantissaAppend(u: string, w: string)
    requires w == [] || IsStopper(w[0])
    ensures ScanMantissa(u + w) == ScanMantissa(u)
  {
    DigitRunAppend(u, w, 10);
    var whole := DigitRun(u, 10);
    var rest := u[|whole|..];
    assert (u + w)[|whole|..] == rest + w;
    FractionAppend(whole, rest, w);
    calc {
      ScanMantissa(u + w);
      ScanFraction(whole, rest + w);
      ScanFraction(whole, rest);
      ScanMantissa(u);
    }
  }

  lemma ExponentAppend(r: string, w: string)
    requires w == [] || IsStopper(w[0])
    ensures ScanExponent(r + w) == ScanExponent(r)
  {
    var v := r + w;
    if w == [] {
      assert v == r;
    } else if r == [] {
      assert v == w;
    } else if r[0] == 'e' || r[0] == 'E' {
      MarkedExponentAppend(r, w);
    } else {
      assert v[0] == r[0];
    }
  }

  lemma MarkedExponentAppend(r: string, w: string)
    requires r != [] && (r[0] == 'e' || r[0] == 'E')
    requires w != [] && IsStopper(w[0])
    ensures ScanExponent(r + w) == ScanExponent(r)
  {
    var v := r + w;
    var start := if |r| > 1 && (r[1] == '+' || r[1] == '-') then 2 else 1;
    assert v[0] == r[0];
    assert v[1] == if |r| > 1 then r[1] else w[0];
    assert ScanExponent(v) == ExponentDigits(v, start);
    ExponentDigitsAppend(r, w, start);
  }

  lemma ExponentDigitsAppend(r: string, w: string, start: nat)
    requires 1 <= start <= |r|
    requires w == [] || IsStopper(w[0])
    ensures ExponentDigits(r + w, start) == ExponentDigits(r, start)
  {
    var v := r + w;
    assert v[start..] == r[start..] + w;
    assert DigitRun(v[start..], 10) == DigitRun(r[start..], 10) by {
      DigitRunAppend(r[start..], w, 10);
    }
    assert start == 2 ==> v[1] == r[1];
  }

  lemma DecimalAppend(u: string, w: string)
    requires w == [] || IsStopper(w[0])
    ensures ScanDecimal(u + w) == ScanDecimal(u)
  {
    MantissaAppend(u, w);
    match ScanMantissa(u)
    case None =>
    case Some(m) => MantissaThenExponentAppend(u, w, m);
  }

  lemma MantissaThenExponentAppend(u: string, w: string, m: Scanned)
    requires w == [] || IsStopper(w[0])
    requires ScanMantissa(u) == Some(m) && ScanMantissa(u + w) == Some(m)
    ensures ScanDecimal(u + w) == ScanDecimal(u)
  {
    var r := u[m.len..];
    assert (u + w)[m.len..] == r + w;
    assert ScanDecimal(u) == Some(WithExponent(m, r));
    assert ScanDecimal(u + w) == Some(WithExponent(m, r + w));
    WithExponentAppend(m, r, w);
  }

  lemma WithExponentAppend(m: Scanned, r: string, w: string)
    requires w == [] || IsStopper(w[0])
    ensures WithExponent(m, r + w) == WithExponent(m, r)
  {
    ExponentAppend(r, w);
  }

  /** Text that is not blank is its trimmed form followed by white space, once leading white space is gone. */
  lemma TrimSplit(s: string)
    requires !IsBlank(s)
    ensures Trim(s) != [] && TrimStart(s)[0] == Trim(s)[0]
    ensures TrimStart(s) == Trim(s) + TrimStart(s)[|Trim(s)|..]
    ensures var w := TrimStart(s)[|Trim(s)|..]; w == [] || IsStopper(w[0])
  {
    TrimEndSplit(TrimStart(s));
  }

  lemma TrimEndSplit(t: string)
    requires t != [] && !IsWhitespace(t[0])
    ensures TrimEnd(t) != [] && t[0] == TrimEnd(t)[0]
    ensures t == TrimEnd(t) + t[|TrimEnd(t)|..]
    ensures var w := t[|TrimEnd(t)|..]; w == [] || IsStopper(w[0])
  {
    var tt := TrimEnd(t);
    assert tt != [];
    assert t == tt + t[|tt|..];
    var w := t[|tt|..];
    if w != [] {
      assert w[0] == t[|tt|];
      WhitespaceStops(w[0]);
    }
  }

  lemma WhitespaceStops(c: char)
    requires IsWhitespace(c)
    ensures IsStopper(c)
  {
  }

  /** Appending text that cannot extend a literal leaves the signed scan of non-empty text unchanged. */
  lemma SignedAppend(t: string, w: string)
    requires t != []
    requires w == [] || IsStopper(w[0])
    ensures ScanSigned(t + w) == ScanSigned(t)
  {
    var k := SignLength(t);
    assert (t + w)[0] == t[0];
    assert SignLength(t + w) == k;
    assert (t + w)[k..] == t[k..] + w;
    DecimalAppend(t[k..], w);
    calc {
      ScanSigned(t + w);
      WithSign(k == 1 && t[0] == '-', k, ScanDecimal(t[k..] + w));
      WithSign(k == 1 && t[0] == '-', k, ScanDecimal(t[k..]));
      ScanSigned(t);
    }
  }

  /**
   * On text that is not blank and that `Number` accepts, `parseFloat` reads the
   * same number: the trailing white space `Number` trims cannot extend the literal.
   */
  lemma ParseFloatAgreesWithNumber(s: string)
    requires !IsBlank(s) && ToNumber(s).Finite?
    ensures ParseFloat(s) == ToNumber(s)
  {
    TrimSplit(s);
    var t := TrimStart(s);
    var tt := Trim(s);
    var w := t[|tt|..];
    SignedAppend(tt, w);
    var d := ScanSigned(tt);
    assert ToNumber(s) == Finite(d.value.value);
    calc {
      ParseFloat(s);
      Finite(ScanSigned(tt + w).value.value);
      Finite(d.value.value);
    }
  }

  lemma {:induction false} DigitRunOfDigits(ds: string, radix: nat)
    requires forall i :: 0 <= i < |ds| ==> IsDigitIn(ds[i], radix)
    ensures DigitRun(ds, radix) == ds
  {
    if ds != [] {
      DigitRunOfDigits(ds[1..], radix);
      assert [ds[0]] + ds[1..] == ds;
    }
  }

  /** Text without white space at either end is read by both parsers as it stands. */
  lemma ParsersOnTrimmed(s: string)
    requires s != [] && !IsWhitespace(s[0]) && !IsWhitespace(s[|s| - 1])
    ensures ParseFloat(s) == (match ScanSigned(s) case None => NaN case Some(d) => Finite(d.value))
    ensures ToNumber(s) == (match ScanSigned(s) case None => NaN case Some(d) => if d.len == |s| then Finite(d.value) else NaN)
  {
    assert TrimStart(s) == s;
    assert Trim(s) == s;
  }

  /** Text that scans as one whole literal, with no white space at either end, is read alike by both parsers. */
  lemma WholeScan(u: string, v: real)
    requires u != [] && !IsWhitespace(u[0]) && !IsWhitespace(u[|u| - 1])
    requires ScanSigned(u) == Some(Scanned(v, |u|))
    ensures ParseFloat(u) == Finite(v) && ToNumber(u) == Finite(v)
  {
    ParsersOnTrimmed(u);
  }

  /** `parseFloat`, `Number` and `parseInt` agree on a plain run of decimal digits. */
  lemma DigitsParse(ds: string)
    requires ds != [] && IsNumeral(ds, 10)
    ensures ParseFloat(ds) == Finite(DigitsValue(ds, 10) as real)
    ensures ToNumber(ds) == Finite(DigitsValue(ds, 10) as real)
    ensures ParseInt(ds) == Finite(DigitsValue(ds, 10) as real)
  {
    assert IsDigitIn(ds[0], 10) && IsDigitIn(ds[|ds| - 1], 10);
    ParsersOnTrimmed(ds);
    NumeralScan(ds);
    NumeralParseInt(ds);
  }

  /**
   * A numeral followed by text that starts with a stopper: `parseFloat` reads
   * the numeral, and, unless the text is all white space, `Number` rejects the
   * whole.
   */
  lemma NumeralThenText(ds: string, w: string)
    requires ds != [] && IsNumeral(ds, 10)
    requires w != [] && IsStopper(w[0]) && !IsBlank(w)
    ensures ParseFloat(ds + w) == Finite(DigitsValue(ds, 10) as real)
    ensures ToNumber(ds + w) == NaN
  {
    NumeralScan(ds);
    var s := ds + w;
    LeadingScan(s, ds, w);
    var rest := NumeralThenTextTrimmed(ds, w);
    assert ToNumber(s) == NaN by {
      SignedAppend(ds, rest);
      NumberOfPrefix(s, ds + rest, |ds|);
    }
  }

  /** `parseFloat` of text that starts with no white space reads the scan of its head when the tail stops it. */
  lemma LeadingScan(s: string, t: string, w: string)
    requires t != [] && !IsWhitespace(t[0]) && s == t + w
    requires w == [] || IsStopper(w[0])
    requires ScanSigned(t).Some?
    ensures ParseFloat(s) == Finite(ScanSigned(t).value.value)
  {
    assert s[0] == t[0];
    assert TrimStart(s) == s;
    SignedAppend(t, w);
  }

  /** Trimming a numeral followed by non-blank text that starts with a stopper keeps the numeral and some of the text. */
  lemma NumeralThenTextTrimmed(ds: string, w: string) returns (rest: string)
    requires ds != [] && IsNumeral(ds, 10)
    requires w != [] && IsStopper(w[0]) && !IsBlank(w)
    ensures rest != [] && IsStopper(rest[0]) && Trim(ds + w) == ds + rest
  {
    var s := ds + w;
    assert TrimStart(s) == s by {
      assert s[0] == ds[0];
      DigitIsNoSpace(ds[0]);
    }
    var j :| 0 <= j < |w| && !IsWhitespace(w[j]);
    assert s[|ds| + j] == w[j];
    TrimEndLonger(s, |ds| + j);
    var tt := TrimEnd(s);
    rest := tt[|ds|..];
    assert tt == ds + rest by {
      assert tt == s[..|tt|];
    }
    assert rest[0] == s[|ds|] == w[0];
  }

  /** `TrimEnd` keeps every character up to the last one that is not white space. */
  lemma TrimEndLonger(s: string, k: nat)
    requires k < |s| && !IsWhitespace(s[k])
    ensures |TrimEnd(s)| > k
  {
    TrimEndDropsWhitespace(s);
  }

  /** `Number` rejects text whose trimmed form scans only part of the way. */
  lemma NumberOfPrefix(s: string, tt: string, n: nat)
    requires Trim(s) == tt && n < |tt|
    requires ScanSigned(tt).Some? && ScanSigned(tt).value.len == n
    ensures ToNumber(s) == NaN
  {
  }

  /** `TrimEnd` removes white space only. */
  lemma {:induction false} TrimEndDropsWhitespace(s: string)
    ensures forall i :: |TrimEnd(s)| <= i < |s| ==> IsWhitespace(s[i])
  {
    if s != [] && IsWhitespace(s[|s| - 1]) {
      TrimEndDropsWhitespace(s[..|s| - 1]);
    }
  }

  /**
   * A numeral with a fraction, `ds.fs`: `parseFloat` and `Number` read its
   * decimal value, while `parseInt` stops at the point and reads `ds` alone.
   */
  lemma FractionParse(ds: string, fs: string)
    requires ds != [] && IsNumeral(ds, 10) && fs != [] && IsNumeral(fs, 10)
    ensures ParseFloat(ds + "." + fs) == Finite(Decimal(ds, fs))
    ensures ToNumber(ds + "." + fs) == Finite(Decimal(ds, fs))
    ensures ParseInt(ds + "." + fs) == Finite(DigitsValue(ds, 10) as real)
  {
    FractionScan(ds, fs);
    FractionParseInt(ds, fs);
  }

  lemma FractionScan(ds: string, fs: string)
    requires ds != [] && IsNumeral(ds, 10) && fs != [] && IsNumeral(fs, 10)
    ensures ParseFloat(ds + "." + fs) == Finite(Decimal(ds, fs))
    ensures ToNumber(ds + "." + fs) == Finite(Decimal(ds, fs))
  {
    FractionScanSigned(ds, fs);
    var u := ds + "." + fs;
    assert u[0] == ds[0] && u[|u| - 1] == fs[|fs| - 1];
    assert IsDigitIn(ds[0], 10) && IsDigitIn(fs[|fs| - 1], 10);
    WholeScan(u, Decimal(ds, fs));
  }

  lemma FractionParseInt(ds: string, fs: string)
    requires ds != [] && IsNumeral(ds, 10) && fs != [] && IsNumeral(fs, 10)
    ensures ParseInt(ds + "." + fs) == Finite(DigitsValue(ds, 10) as real)
  {
    var rest := "." + fs;
    assert ds + "." + fs == ds + rest;
    DigitsThenStopParseInt(ds, rest);
  }

  /** A run of digits followed by `rest`, which does not start with a digit, is the mantissa's integer part. */
  lemma MantissaAfterDigits(whole: string, rest: string)
    requires whole != [] && IsNumeral(whole, 10)
    requires rest == [] || !IsDigitIn(rest[0], 10)
    ensures ScanMantissa(whole + rest) == ScanFraction(whole, rest)
  {
    DigitRunAppend(whole, rest, 10);
    DigitRunOfDigits(whole, 10);
    assert (whole + rest)[|whole|..] == rest;
  }

  /** A mantissa that spans the whole text has no exponent after it. */
  lemma DecimalWithoutExponent(u: string, m: Scanned)
    requires ScanMantissa(u) == Some(m) && m.len == |u|
    ensures ScanDecimal(u) == Some(m)
  {
    assert u[m.len..] == [];
  }

  /** Text that starts with neither sign scans as an unsigned literal. */
  lemma UnsignedScan(u: string)
    requires u != [] && u[0] != '+' && u[0] != '-'
    ensures ScanSigned(u) == ScanDecimal(u)
  {
    assert u[0..] == u;
  }

  /** A mantissa without a fraction is worth its integer digits. */
  lemma WholeDecimal(whole: string)
    requires IsNumeral(whole, 10)
    ensures Decimal(whole, []) == DigitsValue(whole, 10) as real
  {
    assert DigitsValue([], 10) == 0 && Pow10(0) == 1;
  }

  /** A plain run of decimal digits scans, as a whole, to its value. */
  lemma NumeralScan(ds: string)
    requires ds != [] && IsNumeral(ds, 10)
    ensures ScanSigned(ds) == Some(Scanned(DigitsValue(ds, 10) as real, |ds|))
  {
    var m := Scanned(DigitsValue(ds, 10) as real, |ds|);
    assert ScanMantissa(ds) == Some(m) by {
      assert ds + [] == ds;
      MantissaAfterDigits(ds, []);
      WholeDecimal(ds);
    }
    DecimalWithoutExponent(ds, m);
    assert IsDigitIn(ds[0], 10);
    UnsignedScan(ds);
  }

  lemma FractionScanSigned(ds: string, fs: string)
    requires ds != [] && IsNumeral(ds, 10) && fs != [] && IsNumeral(fs, 10)
    ensures ScanSigned(ds + "." + fs) == Some(Scanned(Decimal(ds, fs), |ds + "." + fs|))
  {
    var rest := "." + fs;
    var u := ds + rest;
    assert u == ds + "." + fs;
    var m := Scanned(Decimal(ds, fs), |u|);
    assert ScanMantissa(u) == Some(m) by {
      MantissaAfterDigits(ds, rest);
      assert rest[1..] == fs;
      DigitRunOfDigits(fs, 10);
    }
    DecimalWithoutExponent(u, m);
    assert u[0] == ds[0] && IsDigitIn(ds[0], 10);
    UnsignedScan(u);
  }

  /** `parseInt` reads a plain run of decimal digits as its value. */
  lemma NumeralParseInt(ds: string)
    requires ds != [] && IsNumeral(ds, 10)
    ensures ParseInt(ds) == Finite(DigitsValue(ds, 10) as real)
  {
    assert ds + [] == ds;
    DigitsThenStopParseInt(ds, []);
  }

  /** `parseInt` reads a leading run of decimal digits up to the first character that is no digit and no hex marker. */
  lemma DigitsThenStopParseInt(ds: string, rest: string)
    requires ds != [] && IsNumeral(ds, 10)
    requires rest == [] || (!IsDigitIn(rest[0], 10) && rest[0] != 'x' && rest[0] != 'X')
    ensures ParseInt(ds + rest) == Finite(DigitsValue(ds, 10) as real)
  {
    var u := ds + rest;
    assert u[0] == ds[0] && IsDigitIn(ds[0], 10);
    assert !HasHexPrefix(u) by {
      if |ds| >= 2 {
        assert u[1] == ds[1] && IsDigitIn(ds[1], 10);
      } else if |u| >= 2 {
        assert u[1] == rest[0];
      }
    }
    assert DigitRun(u, 10) == ds by {
      DigitRunAppend(ds, rest, 10);
      DigitRunOfDigits(ds, 10);
    }
    DecimalParseInt(u);
  }

  /** `parseInt` on text that starts with a decimal digit and no hex prefix reads its leading digit run. */
  lemma DecimalParseInt(u: string)
    requires u != [] && IsDigitIn(u[0], 10) && !HasHexPrefix(u)
    ensures ParseInt(u) == Finite(DigitsValue(DigitRun(u, 10), 10) as real)
  {
    assert ParseInt(u) == IntegerValue(u, u, 10) by {
      DigitIsNoSpace(u[0]);
      assert TrimStart(u) == u;
      assert u[0..] == u;
    }
    DecimalIntegerValue(u);
  }

  lemma DigitIsNoSpace(c: char)
    requires IsDigitIn(c, 10)
    ensures !IsWhitespace(c) && c != '+' && c != '-'
  {
  }

  lemma DecimalIntegerValue(u: string)
    requires u != [] && IsDigitIn(u[0], 10)
    ensures IntegerValue(u, u, 10) == Finite(DigitsValue(DigitRun(u, 10), 10) as real)
  {
    assert DigitRun(u, 10) != [];
  }

  /** Text that starts with a character no literal can start with is read as NaN by both parsers. */
  lemma NoLeadingNumber(v: string)
    requires v != [] && IsStopper(v[0]) && !IsWhitespace(v[0])
    ensures ParseFloat(v) == NaN && ToNumber(v) == NaN
  {
    assert TrimStart(v) == v;
    TrimEndSplit(v);
    UnsignedScan(v);
    UnsignedScan(Trim(v));
  }
}
