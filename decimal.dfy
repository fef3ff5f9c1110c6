/**
 * Decimal text: the fixed-point rendering `format(value, '.Nf')` that the
 * order builder uses, and the decimal reading `float(text)` that the price
 * and balance parsers use, both on exact rational values.
 *
 * Rendering rounds half to even on the exact value; the two are connected by
 * `FormatDenotes`: reading a rendered string gives back the rounded value.
 */
module Decimal {
  import opened Wire

  function Pow10(n: nat): (r: nat)
    ensures r >= 1
  {
    if n == 0 then 1 else 10 * Pow10(n - 1)
  }

  predicate IsDigit(c: char) {
    '0' <= c <= '9'
  }

  predicate AllDigits(s: string) {
    forall i | 0 <= i < |s| :: IsDigit(s[i])
  }

  function DigitChar(d: nat): (c: char)
    requires d < 10
    ensures IsDigit(c) && c as int - '0' as int == d
  {
    ('0' as int + d) as char
  }

  /** The number a string of decimal digits denotes (most significant first). */
  function ValueOf(s: string): nat
    requires AllDigits(s)
    decreases |s|
  {
    if s == [] then 0 else 10 * ValueOf(s[..|s| - 1]) + (s[|s| - 1] as int - '0' as int)
  }

  /** The shortest decimal digits of `n`: no leading zero unless `n` is 0. */
  function DigitsOf(n: nat): (s: string)
    ensures |s| >= 1 && AllDigits(s)
    ensures |s| > 1 ==> s[0] != '0'
    decreases n
  {
    if n < 10 then [DigitChar(n)] else DigitsOf(n / 10) + [DigitChar(n % 10)]
  }

  lemma {:induction false} ValueOfDigitsOf(n: nat)
    ensures ValueOf(DigitsOf(n)) == n
    decreases n
  {
    if n >= 10 {
      var s := DigitsOf(n);
      assert s[..|s| - 1] == DigitsOf(n / 10);
      ValueOfDigitsOf(n / 10);
    }
  }

  lemma {:induction false} DigitsOfFits(n: nat, k: nat)
    requires k >= 1 && n < Pow10(k)
    ensures |DigitsOf(n)| <= k
    decreases n
  {
    if n >= 10 {
      assert Pow10(1) == 10;
      assert k >= 2;
      assert n / 10 < Pow10(k - 1);
      DigitsOfFits(n / 10, k - 1);
    }
  }

  function Zeros(k: nat): (s: string)
    ensures |s| == k && AllDigits(s)
  {
    seq(k, _ => '0')
  }

  lemma {:induction false} ValueOfZeros(k: nat)
    ensures ValueOf(Zeros(k)) == 0
  {
    if k > 0 {
      assert Zeros(k)[..k - 1] == Zeros(k - 1);
      ValueOfZeros(k - 1);
    }
  }

  lemma {:induction false} ValueOfPadded(k: nat, s: string)
    requires AllDigits(s)
    ensures AllDigits(Zeros(k) + s) && ValueOf(Zeros(k) + s) == ValueOf(s)
    decreases |s|
  {
    var t := Zeros(k) + s;
    assert AllDigits(t);
    if s == [] {
      assert t == Zeros(k);
      ValueOfZeros(k);
    } else {
      assert t[..|t| - 1] == Zeros(k) + s[..|s| - 1];
      ValueOfPadded(k, s[..|s| - 1]);
    }
  }

  /** Left-pads `s` with zeros to `width` characters. */
  function PadLeft(s: string, width: nat): (r: string)
    requires AllDigits(s)
    ensures AllDigits(r) && ValueOf(r) == ValueOf(s)
    ensures |s| <= width ==> |r| == width
  {
    if |s| >= width then s
    else
      ValueOfPadded(width - |s|, s);
      Zeros(width - |s|) + s
  }

  function Abs(x: real): (r: real)
    ensures r >= 0.0 && (r == x || r == -x)
  {
    if x < 0.0 then -x else x
  }

  /** The integer nearest to `x`, ties going to the even neighbour. */
  function RoundHalfEven(x: real): (n: nat)
    requires x >= 0.0
    ensures -0.5 <= x - n as real <= 0.5
    ensures (x - n as real == 0.5 || x - n as real == -0.5) ==> n % 2 == 0
  {
    var f := x.Floor;
    var d := x - f as real;
    if d < 0.5 then f
    else if d > 0.5 then f + 1
    else if f % 2 == 0 then f
    else f + 1
  }

  /** x * 10^p. */
  function ScaleUp(x: real, p: nat): (r: real)
    requires x >= 0.0
    ensures r >= 0.0
  {
    x * Pow10(p) as real
  }

  /** The scaled integer `format(v, '.{p}f')` prints: |v| * 10^p rounded. */
  function Scaled(v: real, p: nat): nat {
    RoundHalfEven(ScaleUp(Abs(v), p))
  }

  /** Division of naturals, with the quotient-remainder identity. */
  function Quot(n: nat, d: nat): (q: nat)
    requires d >= 1
    ensures q * d + Rem(n, d) == n
  {
    n / d
  }

  function Rem(n: nat, d: nat): (r: nat)
    requires d >= 1
    ensures r < d
  {
    n % d
  }

  /** The whole part of the scaled integer. */
  function WholeOf(n: nat, p: nat): nat {
    Quot(n, Pow10(p))
  }

  /** The fractional part of the scaled integer, as `p` digits' worth. */
  function FracOf(n: nat, p: nat): (f: nat)
    ensures f < Pow10(p)
  {
    Rem(n, Pow10(p))
  }

  /** The unsigned text for whole part `q` and fractional part `f` at `p` fractional digits. */
  function Body(q: nat, f: nat, p: nat): string
    requires f < Pow10(p)
  {
    DigitsOf(q) + (if p == 0 then "" else "." + PadLeft(DigitsOf(f), p))
  }

  /** `format(v, '.{p}f')`: sign, integer digits, and for p > 0 a point and p digits. */
  function Format(v: real, p: nat): string {
    var n := Scaled(v, p);
    (if v < 0.0 then "-" else "") + Body(WholeOf(n, p), FracOf(n, p), p)
  }

  /** Plain fixed-point text with exactly `p` fractional digits and no exponent. */
  predicate FixedPointShape(s: string, p: nat) {
    var body := if |s| > 0 && s[0] == '-' then s[1..] else s;
    if p == 0 then |body| >= 1 && AllDigits(body)
    else
      |body| >= p + 2
      && AllDigits(body[..|body| - p - 1])
      && body[|body| - p - 1] == '.'
      && AllDigits(body[|body| - p..])
  }

  /** The first position of `c` in `s`. */
  function IndexOf(s: string, c: char): (r: Option<nat>)
    ensures r.Some? ==> r.value < |s| && s[r.value] == c && forall j | 0 <= j < r.value :: s[j] != c
    ensures r.None? ==> forall j | 0 <= j < |s| :: s[j] != c
  {
    if s == [] then None
    else if s[0] == c then Some(0)
    else match IndexOf(s[1..], c)
      case None => None
      case Some(k) => Some(k + 1)
  }

  /** A decimal numeral: a sign, a whole part and `digits` fractional digits worth `frac`. */
  datatype Numeral = Numeral(negative: bool, whole: nat, frac: nat, digits: nat)

  /** The number a numeral denotes. */
  function NumeralValue(x: Numeral): real {
    var m := x.whole as real + x.frac as real / Pow10(x.digits) as real;
    if x.negative then -m else m
  }

  /** `float(text)` on unsigned decimal text: digits, optionally a point and more digits. */
  function ParseUnsigned(s: string): Option<Numeral> {
    match IndexOf(s, '.')
    case None =>
      if |s| > 0 && AllDigits(s) then Some(Numeral(false, ValueOf(s), 0, 0)) else None
    case Some(k) =>
      var whole, frac := s[..k], s[k + 1..];
      if |whole| + |frac| > 0 && AllDigits(whole) && AllDigits(frac)
      then Some(Numeral(false, ValueOf(whole), ValueOf(frac), |frac|))
      else None
  }

  /** `float(text)` on decimal text with an optional sign; None where float() raises. */
  function ParseDecimal(s: string): Option<Numeral> {
    if |s| > 0 && s[0] == '-' then
      match ParseUnsigned(s[1..])
      case None => None
      case Some(u) => Some(u.(negative := true))
    else if |s| > 0 && s[0] == '+' then ParseUnsigned(s[1..])
    else ParseUnsigned(s)
  }

  /** The numeral `format(v, '.{p}f')` writes. */
  function Rendered(v: real, p: nat): Numeral {
    var n := Scaled(v, p);
    Numeral(v < 0.0, WholeOf(n, p), FracOf(n, p), p)
  }

  /** `v` rounded to `p` fractional digits: the value its rendering denotes (`RenderedValue`). */
  function Rounded(v: real, p: nat): real {
    var m := Scaled(v, p) as real / Pow10(p) as real;
    if v < 0.0 then -m else m
  }

  lemma DigitsThenPoint(a: string, b: string)
    requires |a| >= 1 && AllDigits(a)
    ensures IndexOf(a + "." + b, '.') == Some(|a|)
  {
    var s := a + "." + b;
    assert s[|a|] == '.';
    assert forall j | 0 <= j < |a| :: s[j] == a[j] && s[j] != '.';
  }

  lemma DigitsHaveNoPoint(a: string)
    requires AllDigits(a)
    ensures IndexOf(a, '.') == None
  {
    assert forall j | 0 <= j < |a| :: a[j] != '.';
  }

  /** (q * P + f) / P == q + f / P over the reals. */
  lemma DivideSum(q: nat, f: nat, P: nat)
    requires P >= 1
    ensures ((q * P + f) as real) / (P as real) == q as real + f as real / P as real
  {
    var Pr := P as real;
    var a := q as real + f as real / Pr;
    assert (f as real / Pr) * Pr == f as real;
    assert (q * P) as real == q as real * Pr;
    assert a * Pr == (q * P + f) as real;
  }

  /** Splitting the scaled integer into whole and fractional parts loses nothing. */
  lemma SplitScaled(n: nat, p: nat)
    ensures WholeOf(n, p) as real + FracOf(n, p) as real / Pow10(p) as real
            == n as real / Pow10(p) as real
  {
    var P := Pow10(p);
    assert n == WholeOf(n, p) * P + FracOf(n, p);
    DivideSum(WholeOf(n, p), FracOf(n, p), P);
  }

  lemma BodyShape(q: nat, f: nat, p: nat)
    requires f < Pow10(p)
    ensures |Body(q, f, p)| >= 1 && IsDigit(Body(q, f, p)[0])
    ensures p == 0 ==> AllDigits(Body(q, f, p))
    ensures p > 0 ==> var b := Body(q, f, p);
      |b| >= p + 2 && AllDigits(b[..|b| - p - 1]) && b[|b| - p - 1] == '.' && AllDigits(b[|b| - p..])
  {
    var whole := DigitsOf(q);
    var b := Body(q, f, p);
    assert b[0] == whole[0];
    if p > 0 {
      DigitsOfFits(f, p);
      var pad := PadLeft(DigitsOf(f), p);
      assert b == whole + "." + pad;
      assert b[..|b| - p - 1] == whole;
      assert b[|b| - p..] == pad;
    }
  }

  lemma PointlessValue(a: string)
    requires |a| >= 1 && AllDigits(a)
    ensures ParseUnsigned(a) == Some(Numeral(false, ValueOf(a), 0, 0))
  {
    DigitsHaveNoPoint(a);
  }

  lemma PointedValue(a: string, c: string)
    requires |a| >= 1 && AllDigits(a) && AllDigits(c)
    ensures ParseUnsigned(a + "." + c) == Some(Numeral(false, ValueOf(a), ValueOf(c), |c|))
  {
    var b := a + "." + c;
    DigitsThenPoint(a, c);
    assert b[..|a|] == a && b[|a| + 1..] == c;
  }

  lemma BodyValue(q: nat, f: nat, p: nat)
    requires f < Pow10(p)
    ensures ParseUnsigned(Body(q, f, p)) == Some(Numeral(false, q, f, p))
  {
    ValueOfDigitsOf(q);
    if p == 0 {
      assert f == 0 && Body(q, f, p) == DigitsOf(q);
      PointlessValue(DigitsOf(q));
    } else {
      DigitsOfFits(f, p);
      ValueOfDigitsOf(f);
      var pad := PadLeft(DigitsOf(f), p);
      assert |pad| == p && ValueOf(pad) == f;
      assert Body(q, f, p) == DigitsOf(q) + "." + pad;
      PointedValue(DigitsOf(q), pad);
    }
  }

  lemma SignedShape(negative: bool, b: string, p: nat)
    requires |b| >= 1 && IsDigit(b[0])
    requires p == 0 ==> AllDigits(b)
    requires p > 0 ==> |b| >= p + 2 && AllDigits(b[..|b| - p - 1]) && b[|b| - p - 1] == '.' && AllDigits(b[|b| - p..])
    ensures FixedPointShape((if negative then "-" else "") + b, p)
  {
    var s := (if negative then "-" else "") + b;
    if negative {
      assert s[1..] == b;
    } else {
      assert s == b;
    }
  }

  lemma FormatShape(v: real, p: nat)
    ensures FixedPointShape(Format(v, p), p)
  {
    var n := Scaled(v, p);
    BodyShape(WholeOf(n, p), FracOf(n, p), p);
    SignedShape(v < 0.0, Body(WholeOf(n, p), FracOf(n, p), p), p);
  }

  /** A sign in front of unsigned text that starts with a digit sets the numeral's sign. */
  lemma SignedValue(negative: bool, b: string, x: Numeral)
    requires |b| >= 1 && IsDigit(b[0]) && ParseUnsigned(b) == Some(x)
    ensures ParseDecimal((if negative then "-" else "") + b) == Some(x.(negative := negative || x.negative))
  {
    var s := (if negative then "-" else "") + b;
    if negative {
      assert s[1..] == b;
    } else {
      assert s == b;
    }
  }

  /** Reading the rendered text back gives the numeral it was rendered from. */
  lemma FormatDenotes(v: real, p: nat)
    ensures ParseDecimal(Format(v, p)) == Some(Rendered(v, p))
  {
    var n := Scaled(v, p);
    var q, f := WholeOf(n, p), FracOf(n, p);
    BodyShape(q, f, p);
    BodyValue(q, f, p);
    SignedValue(v < 0.0, Body(q, f, p), Numeral(false, q, f, p));
  }

  /** The rendered numeral denotes `v` rounded to `p` fractional digits. */
  lemma RenderedValue(v: real, p: nat)
    ensures NumeralValue(Rendered(v, p)) == Rounded(v, p)
  {
    SplitScaled(Scaled(v, p), p);
  }

  lemma NearestScaled(x: real, P: real, n: real)
    requires P >= 1.0 && -0.5 <= x * P - n <= 0.5
    ensures Abs(n / P - x) * P <= 0.5
  {
    var m := n / P;
    assert m * P == n;
    assert (m - x) * P == n - x * P;
    if m - x < 0.0 {
      assert Abs(m - x) * P == -((m - x) * P);
    } else {
      assert Abs(m - x) * P == (m - x) * P;
    }
  }

  lemma SignFlip(r: real, v: real, m: real)
    requires r == if v < 0.0 then -m else m
    ensures Abs(r - v) == Abs(m - Abs(v))
  {
  }

  lemma ScaleBound(a: real, b: real, c: real)
    requires a == b && b * c <= 0.5
    ensures a * c <= 0.5
  {
  }

  lemma SignedNearest(v: real, P: real, n: real, r: real)
    requires P >= 1.0 && -0.5 <= Abs(v) * P - n <= 0.5
    requires r == if v < 0.0 then -(n / P) else n / P
    ensures Abs(r - v) * P <= 0.5
  {
    NearestScaled(Abs(v), P, n);
    SignFlip(r, v, n / P);
    ScaleBound(Abs(r - v), Abs(n / P - Abs(v)), P);
  }

  /** 10^p as a real: one unit of the integer scale, the reciprocal of the last place. */
  function Unit(p: nat): (r: real)
    ensures r >= 1.0
  {
    Pow10(p) as real
  }

  /** The rounded value is within half a unit in the last place of the input. */
  lemma RoundedClose(v: real, p: nat)
    ensures Abs(Rounded(v, p) - v) * Unit(p) <= 0.5
  {
    SignedNearest(v, Unit(p), Scaled(v, p) as real, Rounded(v, p));
  }
}
