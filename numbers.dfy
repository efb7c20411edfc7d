/**
 * Python's `float(s)` on decimal text, and `>=` on its result. The value of a
 * finite float is kept as the exact rational the text denotes.
 */
module Numbers {
  import opened Wrappers
  import opened Text

  /** A Python float. */
  datatype Float = Finite(v: real) | PosInf | NegInf | NaN

  /** Python's `x >= t` for a float `x` and a finite threshold `t`: false for NaN. */
  predicate AtLeast(x: Float, t: real) {
    match x
    case Finite(v) => v >= t
    case PosInf => true
    case NegInf => false
    case NaN => false
  }

  function Negate(x: Float): Float {
    match x
    case Finite(v) => Finite(-v)
    case PosInf => NegInf
    case NegInf => PosInf
    case NaN => NaN
  }

  predicate AllDigits(s: string) {
    forall k :: 0 <= k < |s| ==> IsDigit(s[k])
  }

  function DigitValue(c: char): nat
    requires IsDigit(c)
  {
    c as int - '0' as int
  }

  /** The number a run of decimal digits denotes ("" denotes 0). */
  function DigitsValue(s: string): nat
    requires AllDigits(s)
    decreases |s|
  {
    if s == [] then 0 else DigitsValue(s[..|s| - 1]) * 10 + DigitValue(s[|s| - 1])
  }

  function Pow10(n: nat): (p: nat)
    ensures p >= 1
  {
    if n == 0 then 1 else 10 * Pow10(n - 1)
  }

  /** The value of the decimal `whole.frac`. */
  function DecimalValue(whole: string, frac: string): real
    requires AllDigits(whole) && AllDigits(frac)
  {
    DigitsValue(whole) as real + DigitsValue(frac) as real / Pow10(|frac|) as real
  }

  /** `digits`, `digits.`, `.digits` or `digits.digits`, with at least one digit. */
  function ParseMantissa(m: string): Option<real> {
    var d := FirstIndexOf(m, '.');
    var whole := m[..d];
    var frac := if d < |m| then m[d + 1..] else "";
    if AllDigits(whole) && AllDigits(frac) && |whole| + |frac| > 0 then
      Some(DecimalValue(whole, frac))
    else
      None
  }

  /** The digits after `e`/`E`, with an optional sign. */
  function ParseExponent(x: string): Option<int> {
    if x != [] && (x[0] == '+' || x[0] == '-') then
      if |x| > 1 && AllDigits(x[1..]) then
        var magnitude: int := DigitsValue(x[1..]);
        Some(if x[0] == '-' then -magnitude else magnitude)
      else
        None
    else if x != [] && AllDigits(x) then
      Some(DigitsValue(x))
    else
      None
  }

  function Scale(v: real, e: int): real {
    if e >= 0 then v * Pow10(e) as real else v / Pow10(-e) as real
  }

  /** Index of the first `e` or `E`, or `|s|`. */
  function ExponentMark(s: string): (i: nat)
    ensures i <= |s| && (i < |s| ==> s[i] == 'e' || s[i] == 'E')
    decreases |s|
  {
    if s == [] || s[0] == 'e' || s[0] == 'E' then 0 else 1 + ExponentMark(s[1..])
  }

  /** An unsigned float literal: `inf`, `infinity`, `nan` (any case) or a decimal. */
  function ParseUnsigned(b: string): Option<Float> {
    var lower := ToLower(b);
    if lower == "inf" || lower == "infinity" then Some(PosInf)
    else if lower == "nan" then Some(NaN)
    else
      var e := ExponentMark(b);
      match ParseMantissa(b[..e])
      case None => None
      case Some(m) =>
        if e == |b| then Some(Finite(m))
        else
          match ParseExponent(b[e + 1..])
          case None => None
          case Some(x) => Some(Finite(Scale(m, x)))
  }

  /** Python's `float(s)`: `None` where it raises `ValueError`. */
  function ParseFloat(s: string): Option<Float> {
    ParseSigned(Strip(s))
  }

  /**
   * `float` ignores whitespace around the literal, and rejects text that is
   * empty or whitespace only.
   */
  lemma ParseFloatIgnoresPadding(s: string)
    ensures ParseFloat(s) == ParseFloat(Strip(s))
    ensures AllSpace(s) ==> ParseFloat(s).None?
  {
    StripStripped(Strip(s));
    if AllSpace(s) {
      assert Strip(s) == [];
      EmptyIsNoFloat();
    }
  }

  /** The empty text is no float literal. */
  lemma EmptyIsNoFloat()
    ensures ParseSigned("") == None
  {
    assert ToLower("") == "";
    assert ExponentMark("") == 0;
    assert ParseMantissa("") == None;
  }

  /** A float literal with an optional sign. */
  function ParseSigned(t: string): Option<Float> {
    if t != [] && (t[0] == '+' || t[0] == '-') then
      match ParseUnsigned(t[1..])
      case None => None
      case Some(f) => Some(if t[0] == '-' then Negate(f) else f)
    else
      ParseUnsigned(t)
  }

  /** Decimal text of a natural number, as `str(n)` writes it. */
  function NatText(n: nat): (s: string)
    ensures s != [] && AllDigits(s)
  {
    if n < 10 then [('0' as int + n) as char]
    else NatText(n / 10) + [('0' as int + n % 10) as char]
  }

  lemma {:induction false} NatTextValue(n: nat)
    ensures DigitsValue(NatText(n)) == n
  {
    if n >= 10 {
      NatTextValue(n / 10);
      var s := NatText(n);
      assert s[..|s| - 1] == NatText(n / 10);
    }
  }

  /** `float(str(n)) == n` for every natural number `n`. */
  lemma ParseNatText(n: nat)
    ensures ParseFloat(NatText(n)) == Some(Finite(n as real))
  {
    ParseDigits(NatText(n));
    NatTextValue(n);
  }

  /** A non-empty run of digits parses to the number it denotes. */
  lemma ParseDigits(s: string)
    requires s != [] && AllDigits(s)
    ensures ParseFloat(s) == Some(Finite(DigitsValue(s) as real))
  {
    assert IsDigit(s[0]) && IsDigit(s[|s| - 1]);
    ParseFloatUnsigned(s);
    ParseUnsignedDigits(s);
  }

  lemma ParseUnsignedDigits(s: string)
    requires s != [] && AllDigits(s)
    ensures ParseUnsigned(s) == Some(Finite(DigitsValue(s) as real))
  {
    assert ToLower(s)[0] == s[0];
    ExponentMarkDigits(s);
    assert s[..|s|] == s;
    ParseMantissaDigits(s);
  }

  lemma ParseMantissaDigits(s: string)
    requires s != [] && AllDigits(s)
    ensures ParseMantissa(s) == Some(DigitsValue(s) as real)
  {
    DotDigits(s);
    assert s[..|s|] == s;
    assert DecimalValue(s, "") == DigitsValue(s) as real;
  }

  /** `float(w + "." + f)` for digit runs `w` (non-empty) and `f`. */
  lemma ParseDecimalText(w: string, f: string)
    requires w != [] && AllDigits(w) && AllDigits(f)
    ensures ParseFloat(w + "." + f) == Some(Finite(DecimalValue(w, f)))
  {
    var s := w + "." + f;
    assert s[0] == w[0];
    assert s[|s| - 1] == if f == [] then '.' else f[|f| - 1];
    ParseFloatUnsigned(s);
    ParseUnsignedDecimal(w, f);
  }

  /** Text that is already stripped and has no sign is parsed as an unsigned literal. */
  lemma ParseFloatUnsigned(s: string)
    requires IsStripped(s) && s != [] && s[0] != '+' && s[0] != '-'
    ensures ParseFloat(s) == ParseUnsigned(s)
  {
    StripStripped(s);
  }

  lemma ParseUnsignedDecimal(w: string, f: string)
    requires w != [] && AllDigits(w) && AllDigits(f)
    ensures ParseUnsigned(w + "." + f) == Some(Finite(DecimalValue(w, f)))
  {
    var s := w + "." + f;
    assert ToLower(s)[0] == s[0] == w[0];
    assert ExponentMark(s) == |s| by { ExponentMarkDecimal(s); }
    assert s[..|s|] == s;
    assert FirstIndexOf(s, '.') == |w| by {
      DotDigits(w);
      assert s[|w|] == '.';
      assert forall k :: 0 <= k < |w| ==> s[k] == w[k];
    }
    assert s[..|w|] == w;
    assert s[|w| + 1..] == f;
  }

  lemma {:induction false} ExponentMarkDecimal(s: string)
    requires forall k :: 0 <= k < |s| ==> IsDigit(s[k]) || s[k] == '.'
    ensures ExponentMark(s) == |s|
    decreases |s|
  {
    if s != [] { ExponentMarkDecimal(s[1..]); }
  }

  lemma {:induction false} ExponentMarkDigits(s: string)
    requires AllDigits(s)
    ensures ExponentMark(s) == |s|
    decreases |s|
  {
    if s != [] { ExponentMarkDigits(s[1..]); }
  }

  lemma DotDigits(s: string)
    requires AllDigits(s)
    ensures FirstIndexOf(s, '.') == |s|
  {
  }
}
