/**
 * Decimal digits and the number conversions the extractors rely on:
 * Python's `int()`/`float()` and `round()`, Kotlin's `toIntOrNull()`,
 * `toDoubleOrNull()` and `Double.toInt()`, and the formatting used by the
 * bulletin generator (`str(n)` and `f"{n:,}"`). Doubles are exact reals.
 */
module Numbers {
  import opened Wrappers
  import opened Text

  /** The smallest and largest value of a 32-bit Kotlin `Int`. */
  const IntMin: int := -0x8000_0000
  const IntMax: int := 0x7FFF_FFFF

  predicate InIntRange(n: int) { IntMin <= n <= IntMax }

  function Pow10(k: nat): (r: nat)
    ensures r >= 1
  {
    if k == 0 then 1 else 10 * Pow10(k - 1)
  }

  function DigitValue(c: char): (d: nat)
    requires IsDigit(c)
    ensures d < 10
  {
    c as int - '0' as int
  }

  function DigitChar(d: nat): (c: char)
    requires d < 10
    ensures IsDigit(c) && DigitValue(c) == d
  {
    ('0' as int + d) as char
  }

  /** The value of a string of decimal digits (leading zeros allowed). */
  function DigitsValue(s: string): (n: nat)
    requires AllDigits(s)
    ensures n < Pow10(|s|)
  {
    if s == [] then 0 else DigitsValue(s[..|s| - 1]) * 10 + DigitValue(s[|s| - 1])
  }

  lemma AllDigitsAppend(a: string, b: string)
    requires AllDigits(a) && AllDigits(b)
    ensures AllDigits(a + b)
  {
    forall i | 0 <= i < |a + b| ensures IsDigit((a + b)[i]) {
      if i < |a| { assert (a + b)[i] == a[i]; } else { assert (a + b)[i] == b[i - |a|]; }
    }
  }

  lemma MulShift(x: int, y: int)
    ensures (x * y) * 10 == x * (10 * y)
  {
  }

  /** Reading the digits of `a + b` is reading `a`, shifting, and adding `b`. */
  lemma {:induction false} DigitsValueAppend(a: string, b: string)
    requires AllDigits(a) && AllDigits(b)
    ensures AllDigits(a + b)
    ensures DigitsValue(a + b) == DigitsValue(a) * Pow10(|b|) + DigitsValue(b)
    decreases |b|
  {
    AllDigitsAppend(a, b);
    if b == [] {
      assert a + b == a;
    } else {
      var b' := b[..|b| - 1];
      var d := DigitValue(b[|b| - 1]);
      assert (a + b)[..|a + b| - 1] == a + b';
      assert (a + b)[|a + b| - 1] == b[|b| - 1];
      DigitsValueAppend(a, b');
      var va, vb', p := DigitsValue(a), DigitsValue(b'), Pow10(|b'|);
      calc {
        DigitsValue(a + b);
        DigitsValue(a + b') * 10 + d;
        (va * p + vb') * 10 + d;
        { MulShift(va, p); }
        va * (10 * p) + (vb' * 10 + d);
        va * Pow10(|b|) + DigitsValue(b);
      }
    }
  }

  /** `str(n)` for a natural number: its shortest decimal spelling. */
  function NatToString(n: nat): (r: string)
    ensures |r| >= 1 && AllDigits(r) && DigitsValue(r) == n
    ensures |r| > 1 ==> r[0] != '0'
  {
    if n < 10 then [DigitChar(n)]
    else
      var p := NatToString(n / 10);
      var r := p + [DigitChar(n % 10)];
      assert r[..|r| - 1] == p;
      r
  }

  /** `str(n)` / Kotlin's `"$n"` for any integer. */
  function IntToString(n: int): (r: string)
    ensures |r| >= 1
  {
    if n < 0 then "-" + NatToString(-n) else NatToString(n)
  }

  /** A yes/no feature as the data set stores it: 1 for yes, 0 for no. */
  function Flag(b: bool): (r: nat)
    ensures r <= 1 && (r == 1 <==> b)
  {
    if b then 1 else 0
  }

  /** Three digits, zero-padded: the groups after the first in `f"{n:,}"`. */
  function Pad3(k: nat): (r: string)
    requires k < 1000
    ensures |r| == 3 && AllDigits(r) && DigitsValue(r) == k
  {
    var a, b, c := k / 100, k / 10 % 10, k % 10;
    ThreeDigits(a, b, c);
    [DigitChar(a), DigitChar(b), DigitChar(c)]
  }

  lemma ThreeDigits(a: nat, b: nat, c: nat)
    requires a < 10 && b < 10 && c < 10
    ensures DigitsValue([DigitChar(a), DigitChar(b), DigitChar(c)]) == 100 * a + 10 * b + c
  {
    var r := [DigitChar(a), DigitChar(b), DigitChar(c)];
    assert r[..2] == [DigitChar(a), DigitChar(b)];
    assert r[..2][..1] == [DigitChar(a)];
    assert [DigitChar(a)][..0] == [];
    assert DigitsValue([DigitChar(a)]) == a;
    assert DigitsValue(r[..2]) == a * 10 + b;
    assert DigitsValue(r) == (a * 10 + b) * 10 + c;
  }

  /** Python's `f"{n:,}"`: decimal digits grouped by three with commas. */
  function FormatThousands(n: nat): (r: string)
    ensures |r| >= 1 && IsDigit(r[0])
    ensures forall i :: 0 <= i < |r| ==> IsDigit(r[i]) || r[i] == ','
    ensures n < 1000 ==> r == NatToString(n)
  {
    if n < 1000 then NatToString(n)
    else FormatThousands(n / 1000) + "," + Pad3(n % 1000)
  }

  /** Dropping the grouping commas leaves the digits of the same number. */
  lemma {:induction false} FormatThousandsDigits(n: nat)
    ensures AllDigits(RemoveChar(FormatThousands(n), ','))
    ensures DigitsValue(RemoveChar(FormatThousands(n), ',')) == n
  {
    if n >= 1000 {
      var q, m := n / 1000, n % 1000;
      assert n == q * 1000 + m;
      FormatThousandsDigits(q);
      var head := FormatThousands(q);
      var tail := Pad3(m);
      var h := RemoveChar(head, ',');
      assert FormatThousands(n) == head + "," + tail;
      DropGroupComma(head, tail);
      DigitsValueAppend(h, tail);
      assert Pow10(3) == 1000;
      assert DigitsValue(h + tail) == q * 1000 + m;
    }
  }

  /**
   * Commas every three digits from the right: counting positions from the
   * end of the text, every fourth one is a comma and no other one is, and the
   * text does not start with a comma.
   */
  predicate GroupedByThree(r: string)
  {
    |r| % 4 != 0 && forall k :: 0 <= k < |r| ==> (r[k] == ',' <==> (|r| - k) % 4 == 0)
  }

  /** Where `f"{n:,}"` puts its commas. */
  lemma {:induction false} FormatThousandsGrouped(n: nat)
    ensures GroupedByThree(FormatThousands(n))
  {
    if n < 1000 {
      ShortSpelling(n);
    } else {
      FormatThousandsGrouped(n / 1000);
      GroupAppended(FormatThousands(n / 1000), Pad3(n % 1000));
    }
  }

  /** A further group of three digits after a comma keeps the grouping. */
  lemma GroupAppended(head: string, tail: string)
    requires GroupedByThree(head) && |tail| == 3 && AllDigits(tail)
    ensures GroupedByThree(head + "," + tail)
  {
    var r := head + "," + tail;
    forall k | 0 <= k < |r| ensures r[k] == ',' <==> (|r| - k) % 4 == 0 {
      if k < |head| {
        assert r[k] == head[k];
        assert |r| - k == (|head| - k) + 4;
      } else if k > |head| {
        assert r[k] == tail[k - |head| - 1];
      }
    }
  }

  /** Below a thousand, at most three digits. */
  lemma ShortSpelling(n: nat)
    requires n < 1000
    ensures |NatToString(n)| <= 3
  {
    if n >= 10 {
      assert |NatToString(n)| == |NatToString(n / 10)| + 1;
      if n / 10 >= 10 {
        assert |NatToString(n / 10)| == |NatToString(n / 100)| + 1;
      }
    }
  }

  /** Dropping commas from `head,ddd` drops them from `head` and keeps the digits. */
  lemma DropGroupComma(head: string, tail: string)
    requires AllDigits(tail)
    ensures RemoveChar(head + "," + tail, ',') == RemoveChar(head, ',') + tail
  {
    var comma := ",";
    CommaRemoved();
    DigitsKeepNoComma(tail);
    RemoveCharAppend(head, comma, ',');
    RemoveCharAppend(head + comma, tail, ',');
  }

  lemma CommaRemoved()
    ensures RemoveChar(",", ',') == []
  {
    var comma := ",";
    assert comma[1..] == [];
  }

  lemma DigitsKeepNoComma(tail: string)
    requires AllDigits(tail)
    ensures RemoveChar(tail, ',') == tail
  {
    assert forall i :: 0 <= i < |tail| ==> tail[i] != ',';
  }

  /** The value of an optional sign followed by digits, or None when that is not the shape. */
  function SignedDigits(s: string): (r: Option<int>)
    ensures r.Some? ==> |s| >= 1
  {
    if |s| >= 1 && (s[0] == '-' || s[0] == '+') then
      if |s| >= 2 && AllDigits(s[1..]) then
        var m: int := DigitsValue(s[1..]);
        Some(if s[0] == '-' then -m else m)
      else None
    else if |s| >= 1 && AllDigits(s) then Some(DigitsValue(s))
    else None
  }

  /**
   * Kotlin's `String.toIntOrNull()` (radix 10): an optional sign and at
   * least one digit, no surrounding blanks, and a value that fits an `Int`.
   */
  function KotlinToIntOrNull(s: string): (r: Option<int>)
    ensures r.Some? ==> InIntRange(r.value)
    ensures r.Some? <==> SignedDigits(s).Some? && InIntRange(SignedDigits(s).value)
  {
    match SignedDigits(s)
    case Some(n) => if InIntRange(n) then Some(n) else None
    case None => None
  }

  /** Python's `int(s)` on a string: surrounding whitespace allowed, no size limit. */
  function PyIntOfString(s: string): (r: Option<int>)
    ensures r == SignedDigits(Strip(s))
  {
    SignedDigits(Strip(s))
  }

  /** The digits of a natural number read back as that number. */
  lemma DigitsOfNat(n: nat)
    ensures SignedDigits(NatToString(n)) == Some(n)
  {
  }

  /** Printing an integer and parsing it back gives the integer (both Kotlin and Python). */
  lemma IntToStringRoundTrip(n: int)
    ensures SignedDigits(IntToString(n)) == Some(n)
    ensures InIntRange(n) ==> KotlinToIntOrNull(IntToString(n)) == Some(n)
    ensures PyIntOfString(IntToString(n)) == Some(n)
  {
    var r := IntToString(n);
    if n < 0 {
      assert r[1..] == NatToString(-n);
    }
    StripUnchanged(r);
  }

  /** The value written `a.f`, for digit strings `a` and `f`. */
  function DecimalValue(a: string, f: string): (x: real)
    requires AllDigits(a) && AllDigits(f)
    ensures x >= 0.0
  {
    DigitsValue(a) as real + DigitsValue(f) as real / Pow10(|f|) as real
  }

  /** Digits with an optional fraction (`12`, `12.`, `12.5`) or a bare fraction (`.5`). */
  function UnsignedDecimal(b: string): (r: Option<real>)
    ensures r.Some? ==> r.value >= 0.0
  {
    var i := SkipDigits(b, 0);
    if i == |b| then
      (if i > 0 then Some(DigitsValue(b) as real) else None)
    else if b[i] == '.' && AllDigits(b[i + 1..]) && (i > 0 || i + 1 < |b|) then
      Some(DecimalValue(b[..i], b[i + 1..]))
    else None
  }

  /** A decimal literal without exponent: an optional sign and an unsigned decimal. */
  function ParseDecimal(s: string): (r: Option<real>)
    ensures r.Some? && r.value < 0.0 ==> |s| > 0 && s[0] == '-'
  {
    if |s| >= 1 && (s[0] == '-' || s[0] == '+') then
      match UnsignedDecimal(s[1..])
      case Some(m) => Some(if s[0] == '-' then -m else m)
      case None => None
    else UnsignedDecimal(s)
  }

  /** Python's `float(s)` on a decimal string (surrounding whitespace allowed). */
  function PyFloat(s: string): (r: Option<real>)
    ensures r == ParseDecimal(Strip(s))
  {
    ParseDecimal(Strip(s))
  }

  /** Kotlin's `toDoubleOrNull()` / `toDouble()` on a decimal string (blanks around it allowed). */
  function KotlinToDouble(s: string): (r: Option<real>)
    ensures r == ParseDecimal(Strip(s))
  {
    ParseDecimal(Strip(s))
  }

  /** A plain run of digits parses as that whole number. */
  lemma ParseDecimalDigits(s: string)
    requires |s| >= 1 && AllDigits(s)
    ensures ParseDecimal(s) == Some(DigitsValue(s) as real)
    ensures PyFloat(s) == Some(DigitsValue(s) as real)
    ensures KotlinToDouble(s) == Some(DigitsValue(s) as real)
  {
    assert SkipDigits(s, 0) == |s|;
    StripUnchanged(s);
  }

  /** `int.fraction` with both parts digits parses as int + fraction / 10^|fraction|. */
  lemma ParseDecimalFraction(a: string, f: string)
    requires |a| >= 1 && AllDigits(a) && AllDigits(f)
    ensures ParseDecimal(a + "." + f) == Some(DecimalValue(a, f))
  {
    var s := a + "." + f;
    assert s[0] == a[0];
    assert s[..|a|] == a;
    assert s[|a|] == '.';
    assert s[|a| + 1..] == f;
    SkipDigitsAt(s, a);
  }

  /** `float("a.f")`: the plain decimal, with no surrounding blanks to strip. */
  lemma PyFloatFraction(a: string, f: string)
    requires |a| >= 1 && AllDigits(a) && AllDigits(f)
    ensures PyFloat(a + "." + f) == Some(DecimalValue(a, f))
  {
    ParseDecimalFraction(a, f);
    var tail := "." + f;
    var s := a + tail;
    assert s == a + "." + f;
    assert s[0] == a[0];
    assert s[|s| - 1] == tail[|tail| - 1];
    assert !IsSpace(tail[|tail| - 1]) by {
      if |f| > 0 { assert tail[|tail| - 1] == f[|f| - 1]; }
    }
    StripUnchanged(s);
  }

  lemma SkipDigitsAt(s: string, a: string)
    requires AllDigits(a) && |a| < |s| && s[..|a|] == a && !IsDigit(s[|a|])
    ensures SkipDigits(s, 0) == |a|
  {
    SkipDigitsFrom(s, 0, |a|);
  }

  lemma {:induction false} SkipDigitsFrom(s: string, i: nat, j: nat)
    requires i <= j < |s|
    requires forall k :: i <= k < j ==> IsDigit(s[k])
    requires !IsDigit(s[j])
    ensures SkipDigits(s, i) == j
    decreases j - i
  {
    if i < j {
      SkipDigitsFrom(s, i + 1, j);
    }
  }

  /** Python's and numpy's `round(x)`: nearest integer, ties to the even one. */
  function RoundHalfEven(x: real): (r: int)
    ensures x - 1.0 / 2.0 <= r as real <= x + 1.0 / 2.0
    ensures r as real - x == 1.0 / 2.0 || x - r as real == 1.0 / 2.0 ==> r % 2 == 0
  {
    var f := x.Floor;
    var d := x - f as real;
    if d < 1.0 / 2.0 then f
    else if d > 1.0 / 2.0 then f + 1
    else if f % 2 == 0 then f
    else f + 1
  }

  /** Rounding a whole number gives it back. */
  lemma RoundWhole(n: int)
    ensures RoundHalfEven(n as real) == n
  {
  }

  /** Kotlin's `Double.toInt()`: truncation toward zero, clamped to the `Int` range. */
  function TruncToInt(x: real): (r: int)
    ensures InIntRange(r)
    ensures IntMin as real <= x <= IntMax as real ==>
      (x >= 0.0 ==> r as real <= x < r as real + 1.0) &&
      (x < 0.0 ==> r as real - 1.0 < x <= r as real)
  {
    var t := if x >= 0.0 then x.Floor else -((-x).Floor);
    if t < IntMin then IntMin else if t > IntMax then IntMax else t
  }
}
