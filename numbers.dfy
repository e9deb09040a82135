/**
 * Python's numeric conversions as the core uses them: int() and float() on text,
 * str() of an integer, and the fixed-point formats "{:.4f}" / "{:.2f}".
 * Floats are modelled as exact reals.
 */
module Numbers {
  import opened Wrappers
  import opened Text

  predicate IsDigit(c: char) {
    '0' <= c <= '9'
  }

  predicate AllDigits(s: string) {
    forall i | 0 <= i < |s| :: IsDigit(s[i])
  }

  function DigitValue(c: char): nat
    requires IsDigit(c)
  {
    c as int - '0' as int
  }

  function DigitChar(d: nat): (c: char)
    requires d < 10
    ensures IsDigit(c) && DigitValue(c) == d
  {
    ('0' as int + d) as char
  }

  function Pow10(n: nat): (r: nat)
    ensures r >= 1
  {
    if n == 0 then 1 else 10 * Pow10(n - 1)
  }

  lemma {:induction false} Pow10Add(a: nat, b: nat)
    ensures Pow10(a + b) == Pow10(a) * Pow10(b)
    decreases b
  {
    if b > 0 {
      Pow10Add(a, b - 1);
    }
  }

  /** The value of a string of decimal digits, most significant first. */
  function DigitsValue(s: string): (r: nat)
    requires AllDigits(s)
    ensures r < Pow10(|s|)
  {
    if s == [] then 0 else DigitsValue(s[..|s| - 1]) * 10 + DigitValue(s[|s| - 1])
  }

  lemma AllDigitsConcat(a: string, b: string)
    requires AllDigits(a) && AllDigits(b)
    ensures AllDigits(a + b)
  {
    forall i | 0 <= i < |a + b| ensures IsDigit((a + b)[i]) {
      if i >= |a| {
        assert (a + b)[i] == b[i - |a|];
      }
    }
  }

  /** Place value: the digits of b sit below those of a. */
  lemma {:induction false} DigitsValueConcat(a: string, b: string)
    requires AllDigits(a) && AllDigits(b)
    ensures AllDigits(a + b)
    ensures DigitsValue(a + b) == DigitsValue(a) * Pow10(|b|) + DigitsValue(b)
    decreases |b|
  {
    AllDigitsConcat(a, b);
    if b == [] {
      assert a + b == a;
    } else {
      var b' := b[..|b| - 1];
      var d := DigitValue(b[|b| - 1]);
      assert (a + b)[..|a + b| - 1] == a + b';
      assert (a + b)[|a + b| - 1] == b[|b| - 1];
      DigitsValueConcat(a, b');
      var x, p, y := DigitsValue(a), Pow10(|b'|), DigitsValue(b');
      assert DigitsValue(a + b) == DigitsValue(a + b') * 10 + d;
      assert DigitsValue(b) == y * 10 + d;
      assert Pow10(|b|) == 10 * p;
      ShiftStep(x, p, y, d);
    }
  }

  lemma ShiftStep(x: int, p: int, y: int, d: int)
    ensures (x * p + y) * 10 + d == x * (10 * p) + (y * 10 + d)
  {
  }

  /** str(n) for a natural number: its decimal digits, with no leading zero. */
  function NatToString(n: nat): (r: string)
    ensures |r| >= 1 && AllDigits(r)
    ensures DigitsValue(r) == n
    ensures |r| > 1 ==> r[0] != '0'
  {
    if n < 10 then [DigitChar(n)]
    else
      var high := NatToString(n / 10);
      var r := high + [DigitChar(n % 10)];
      assert r[..|r| - 1] == high;
      r
  }

  /** A number below 10^k needs at most k digits. */
  lemma {:induction false} NatToStringLength(n: nat, k: nat)
    requires n < Pow10(k)
    ensures |NatToString(n)| <= k || (n == 0 && k == 0)
    decreases k
  {
    if n >= 10 {
      NatToStringLength(n / 10, k - 1);
    }
  }

  /** str(i) for an integer. */
  function IntToString(i: int): (r: string)
    ensures |r| > 0 && (r[0] == '-' <==> i < 0)
    ensures forall k | (if i < 0 then 1 else 0) <= k < |r| :: IsDigit(r[k])
  {
    if i < 0 then "-" + NatToString(-i) else NatToString(i)
  }

  function Zeros(k: nat): (r: string)
    ensures |r| == k && AllDigits(r) && DigitsValue(r) == 0
  {
    if k == 0 then [] else
      var r := Zeros(k - 1) + ['0'];
      assert r[..k - 1] == Zeros(k - 1);
      r
  }

  /** The digits of n, left-filled with zeros to `width` characters. */
  function ZeroPad(n: nat, width: nat): (r: string)
    requires n < Pow10(width)
    ensures |r| == width && AllDigits(r) && DigitsValue(r) == n
  {
    var digits := NatToString(n);
    NatToStringLength(n, width);
    if width == 0 then [] else
      var r := Zeros(width - |digits|) + digits;
      DigitsValueConcat(Zeros(width - |digits|), digits);
      r
  }

  lemma Pow10Small()
    ensures Pow10(1) == 10 && Pow10(2) == 100 && Pow10(4) == 10000
  {
    assert Pow10(2) == 10 * Pow10(1);
    assert Pow10(4) == 10 * (10 * Pow10(2));
  }

  /** The value of a two-digit string. */
  lemma DigitsValue2(s: string)
    requires |s| == 2 && AllDigits(s)
    ensures DigitsValue(s) == 10 * DigitValue(s[0]) + DigitValue(s[1])
  {
    assert s[..1][..0] == [];
  }

  /** The value of a four-digit string. */
  lemma DigitsValue4(s: string)
    requires |s| == 4 && AllDigits(s)
    ensures DigitsValue(s) == 1000 * DigitValue(s[0]) + 100 * DigitValue(s[1]) + 10 * DigitValue(s[2]) + DigitValue(s[3])
  {
    assert s == s[..2] + s[2..];
    DigitsValueConcat(s[..2], s[2..]);
    DigitsValue2(s[..2]);
    DigitsValue2(s[2..]);
    Pow10Small();
  }

  /** Equal-length digit strings with the same value are the same string. */
  lemma {:induction false} DigitsValueInjective(a: string, b: string)
    requires AllDigits(a) && AllDigits(b) && |a| == |b|
    requires DigitsValue(a) == DigitsValue(b)
    ensures a == b
    decreases |a|
  {
    if a != [] {
      var n := |a| - 1;
      var x, y := DigitsValue(a[..n]), DigitsValue(b[..n]);
      var c, d := DigitValue(a[n]), DigitValue(b[n]);
      assert x * 10 + c == y * 10 + d;
      assert c == d && x == y by {
        assert c == (x * 10 + c) % 10 && d == (y * 10 + d) % 10;
      }
      DigitsValueInjective(a[..n], b[..n]);
      assert a[n] == b[n];
      assert a == a[..n] + [a[n]] && b == b[..n] + [b[n]];
    }
  }

  /** Python's integer grammar for int(): digits, with single underscores allowed between two digits. */
  predicate DigitGroups(s: string) {
    |s| > 0 && IsDigit(s[0]) && IsDigit(s[|s| - 1])
    && (forall i | 0 <= i < |s| :: IsDigit(s[i]) || s[i] == '_')
    && (forall i | 0 <= i < |s| - 1 :: s[i] == '_' ==> s[i + 1] != '_')
  }

  /** The digits of s with the underscores taken out. */
  function RemoveUnderscores(s: string): (r: string)
    requires forall i | 0 <= i < |s| :: IsDigit(s[i]) || s[i] == '_'
    ensures AllDigits(r)
    ensures AllDigits(s) ==> r == s
  {
    if s == [] then []
    else (if s[0] == '_' then [] else [s[0]]) + RemoveUnderscores(s[1..])
  }

  /** Splits off a leading '+' or '-'; the flag tells whether it was '-'. */
  function SplitSign(t: string): (bool, string) {
    if |t| > 0 && (t[0] == '+' || t[0] == '-') then (t[0] == '-', t[1..]) else (false, t)
  }

  /** int(s) for a string: None where Python raises ValueError. */
  function ParseInt(s: string): (r: Option<int>)
    ensures r.Some? ==> Strip(s) != []
    ensures r.Some? && r.value < 0 ==> Strip(s)[0] == '-'
  {
    var (negative, body) := SplitSign(Strip(s));
    if DigitGroups(body) then
      var v: int := DigitsValue(RemoveUnderscores(body));
      Some(if negative then -v else v)
    else None
  }

  /** str() and int() are inverse on integers. */
  lemma ParseIntOfIntToString(i: int)
    ensures ParseInt(IntToString(i)) == Some(i)
  {
    var r := IntToString(i);
    var n: nat := if i < 0 then -i else i;
    var d := NatToString(n);
    assert IsDigit(r[|r| - 1]) by {
      assert r[|r| - 1] == d[|d| - 1];
    }
    assert r[0] == '-' || IsDigit(r[0]);
    StripOfStripped(r);
    assert SplitSign(r) == (i < 0, d);
    assert DigitGroups(d);
    assert RemoveUnderscores(d) == d;
  }

  /** int() accepts the underscore separators of Python literals. */
  lemma ParseIntUnderscore()
    ensures ParseInt("1_000") == Some(1000)
  {
    var t := "1_000";
    StripOfStripped(t);
    assert SplitSign(t) == (false, t);
    assert DigitGroups(t);
    UnderscoreExample();
    DigitsValue4("1000");
  }

  lemma UnderscoreExample()
    ensures RemoveUnderscores("1_000") == "1000"
  {
    assert "1_000"[1..] == "_000";
    assert "_000"[1..] == "000";
    assert RemoveUnderscores("000") == "000";
  }

  /** int() rejects a doubled underscore. */
  lemma ParseIntRejectsDoubleUnderscore()
    ensures ParseInt("1__0") == None
  {
    StripOfStripped("1__0");
    assert !DigitGroups("1__0") by {
      assert "1__0"[1] == '_' && "1__0"[2] == '_';
    }
  }

  /** The first index at or after i holding one of the characters in cs (|s| when there is none). */
  function FindFrom(s: string, i: nat, cs: set<char>): (r: nat)
    requires i <= |s|
    ensures i <= r <= |s|
    ensures forall k | i <= k < r :: s[k] !in cs
    ensures r < |s| ==> s[r] in cs
    decreases |s| - i
  {
    if i == |s| || s[i] in cs then i else FindFrom(s, i + 1, cs)
  }

  /** The first 'e' or 'E' in s, which starts the exponent of a float literal (|s| when there is none). */
  function ExponentMark(s: string): (r: nat)
    ensures r <= |s|
  {
    FindFrom(s, 0, {'e', 'E'})
  }

  /** The first '.' in s (|s| when there is none). */
  function PointMark(s: string): (r: nat)
    ensures r <= |s|
  {
    FindFrom(s, 0, {'.'})
  }

  lemma NoMarksInDigits(s: string)
    requires AllDigits(s)
    ensures ExponentMark(s) == |s| && PointMark(s) == |s|
  {
  }

  /** The digits before and after the point of a float literal, with at least one of the two present. */
  function ParseMantissa(m: string): (r: Option<real>)
    ensures r.Some? ==> r.value >= 0.0
  {
    var p := PointMark(m);
    if p == |m| then
      if DigitGroups(m) then Some(DigitsValue(RemoveUnderscores(m)) as real) else None
    else
      var whole := m[..p];
      var fraction := m[p + 1..];
      if (whole == [] && fraction == [])
         || (whole != [] && !DigitGroups(whole))
         || (fraction != [] && !DigitGroups(fraction))
      then None
      else
        var w := RemoveUnderscores(whole);
        var f := RemoveUnderscores(fraction);
        DigitsValueConcat(w, f);
        Some(Shifted(DigitsValue(w + f), |f|))
  }

  /** y * 10^k, one factor of ten at a time. */
  function Times10(y: real, k: nat): (r: real)
    ensures y >= 0.0 ==> r >= 0.0
  {
    if k == 0 then y else 10.0 * Times10(y, k - 1)
  }

  /** y * 10^-k, one factor of ten at a time. */
  function Div10(y: real, k: nat): (r: real)
    ensures y >= 0.0 ==> r >= 0.0
  {
    if k == 0 then y else Div10(y, k - 1) / 10.0
  }

  /** m * 10^-k for a natural m */
  function Shifted(m: nat, k: nat): real {
    Div10(m as real, k)
  }

  function ParseExponent(e: string): Option<int> {
    var (negative, body) := SplitSign(e);
    if DigitGroups(body) then
      var v: int := DigitsValue(RemoveUnderscores(body));
      Some(if negative then -v else v)
    else None
  }

  function Scale(m: real, e: int): real {
    if e >= 0 then Times10(m, e) else Div10(m, -e)
  }

  /** An unsigned float literal: a mantissa, optionally followed by an exponent. */
  function ParseUnsignedFloat(u: string): (r: Option<real>)
    ensures r.Some? ==> r.value >= 0.0
  {
    var k := ExponentMark(u);
    if k == |u| then ParseMantissa(u)
    else
      var m := ParseMantissa(u[..k]);
      var e := ParseExponent(u[k + 1..]);
      if m.Some? && e.Some? then Some(Scale(m.value, e.value)) else None
  }

  /** float(s) for decimal text: None where Python raises ValueError. */
  function ParseFloat(s: string): (r: Option<real>)
    ensures r.Some? ==> Strip(s) != []
    ensures r.Some? && r.value < 0.0 ==> Strip(s)[0] == '-'
  {
    var signed := SplitSign(Strip(s));
    match ParseUnsignedFloat(signed.1)
    case None => None
    case Some(v) => Some(if signed.0 then -v else v)
  }

  /** The integer nearest to y, ties going to the even neighbour (how Python rounds for "{:.Nf}"). */
  function RoundHalfEven(y: real): (n: int)
    ensures n as real - y <= 1.0 / 2.0 && y - n as real <= 1.0 / 2.0
    ensures y >= 0.0 ==> n >= 0
  {
    var f := y.Floor;
    var d := y - f as real;
    if d < 1.0 / 2.0 then f
    else if d > 1.0 / 2.0 then f + 1
    else if f % 2 == 0 then f else f + 1
  }

  function Abs(x: real): (r: real)
    ensures r >= 0.0
  {
    if x < 0.0 then -x else x
  }

  lemma {:induction false} Times10NonNegative(y: real, k: nat)
    requires y >= 0.0
    ensures Times10(y, k) >= 0.0
  {
    if k > 0 {
      Times10NonNegative(y, k - 1);
    }
  }

  /** |x| * 10^places, rounded half to even. */
  function ScaledMagnitude(x: real, places: nat): (n: nat)
    ensures n as real - Times10(Abs(x), places) <= 1.0 / 2.0
    ensures Times10(Abs(x), places) - n as real <= 1.0 / 2.0
  {
    Times10NonNegative(Abs(x), places);
    RoundHalfEven(Times10(Abs(x), places))
  }

  /** Euclidean division, kept in one place so that its facts are stated once. */
  function DivMod(n: nat, d: nat): (r: (nat, nat))
    requires d >= 1
    ensures r.1 < d && r.0 * d + r.1 == n
  {
    (n / d, n % d)
  }

  /** The digits n / 10^places, then (when places > 0) a point and the last `places` digits of n. */
  function FixedDigits(n: nat, places: nat): (r: string)
    ensures |r| > 0 && IsDigit(r[0]) && IsDigit(r[|r| - 1])
  {
    var scale := Pow10(places);
    var whole := NatToString(DivMod(n, scale).0);
    if places == 0 then whole
    else
      var fraction := ZeroPad(DivMod(n, scale).1, places);
      var r := whole + "." + fraction;
      assert r[0] == whole[0] && r[|r| - 1] == fraction[places - 1];
      r
  }

  /** f"{x:.{places}f}": the sign, the whole part, and exactly `places` rounded decimals. */
  function FormatFixed(x: real, places: nat): (r: string)
    ensures |r| > 0 && (r[0] == '-' <==> x < 0.0)
    ensures IsDigit(r[|r| - 1])
  {
    var digits := FixedDigits(ScaledMagnitude(x, places), places);
    if x < 0.0 then "-" + digits else digits
  }

  /** Rendering to `places` decimals and reading back with float() lands within half a unit of the last place. */
  lemma FormatFixedParsesBack(x: real, places: nat)
    ensures ParseFloat(FormatFixed(x, places)).Some?
    ensures Abs(ParseFloat(FormatFixed(x, places)).value - x) <= Div10(1.0 / 2.0, places)
  {
    var n := ScaledMagnitude(x, places);
    var u := FixedDigits(n, places);
    var v := Shifted(n, places);
    WithinHalfUnit(Abs(x), n, places);
    if x < 0.0 {
      FixedDigitsNegative(n, places);
      assert FormatFixed(x, places) == "-" + u;
    } else {
      FixedDigitsPositive(n, places);
      assert FormatFixed(x, places) == u;
    }
  }

  /** float() reads the fixed-point digits of n as n * 10^-places ... */
  lemma FixedDigitsPositive(n: nat, places: nat)
    ensures ParseFloat(FixedDigits(n, places)) == Some(Shifted(n, places))
  {
    FixedDigitsParse(n, places);
    ParsePositive(FixedDigits(n, places), Shifted(n, places));
  }

  /** ... and, after a minus sign, as its negation. */
  lemma FixedDigitsNegative(n: nat, places: nat)
    ensures ParseFloat("-" + FixedDigits(n, places)) == Some(-Shifted(n, places))
  {
    FixedDigitsParse(n, places);
    ParseNegative(FixedDigits(n, places), Shifted(n, places));
  }

  /** Unsigned digits that read as v read as v through float(). */
  lemma ParsePositive(u: string, v: real)
    requires |u| > 0 && IsDigit(u[0]) && IsDigit(u[|u| - 1])
    requires ParseUnsignedFloat(u) == Some(v)
    ensures ParseFloat(u) == Some(v)
  {
    StripOfStripped(u);
  }

  /** Unsigned digits that read as v, after a minus sign, read as -v through float(). */
  lemma ParseNegative(u: string, v: real)
    requires |u| > 0 && IsDigit(u[0]) && IsDigit(u[|u| - 1])
    requires ParseUnsignedFloat(u) == Some(v)
    ensures ParseFloat("-" + u) == Some(-v)
  {
    var s := "-" + u;
    assert s[|s| - 1] == u[|u| - 1];
    StripOfStripped(s);
    assert Strip(s) == s;
    SplitMinus(u);
  }

  lemma SplitMinus(u: string)
    ensures SplitSign("-" + u) == (true, u)
  {
    assert ("-" + u)[1..] == u;
  }

  /** float() reads the fixed-point digits of n back as n / 10^places. */
  lemma FixedDigitsParse(n: nat, places: nat)
    ensures ExponentMark(FixedDigits(n, places)) == |FixedDigits(n, places)|
    ensures ParseMantissa(FixedDigits(n, places)) == Some(Shifted(n, places))
  {
    var scale := Pow10(places);
    var whole := NatToString(DivMod(n, scale).0);
    var u := FixedDigits(n, places);
    if places == 0 {
      assert u == whole;
      assert DigitGroups(whole);
      NoMarksInDigits(whole);
    } else {
      var f := ZeroPad(DivMod(n, scale).1, places);
      assert u == whole + "." + f;
      ParseMantissaWithPoint(whole, f);
      DigitsValueConcat(whole, f);
      assert DigitsValue(whole + f) == n;
    }
  }

  /** A run of digits, a point and a second run of digits reads as the joined digits over 10^(digits after the point). */
  lemma ParseMantissaWithPoint(w: string, f: string)
    requires AllDigits(w) && AllDigits(f) && |w| > 0 && |f| > 0
    ensures AllDigits(w + f)
    ensures ExponentMark(w + "." + f) == |w + "." + f|
    ensures ParseMantissa(w + "." + f) == Some(Shifted(DigitsValue(w + f), |f|))
  {
    AllDigitsConcat(w, f);
    var u := w + "." + f;
    PointOfFixed(w, f);
    assert u[..|w|] == w;
    assert u[|w| + 1..] == f;
    assert DigitGroups(w) && DigitGroups(f);
  }

  /** In digits, a point and digits, the only mark is the point after the first run. */
  lemma PointOfFixed(w: string, f: string)
    requires AllDigits(w) && AllDigits(f)
    ensures ExponentMark(w + "." + f) == |w + "." + f|
    ensures PointMark(w + "." + f) == |w|
  {
    var u := w + "." + f;
    forall k | 0 <= k < |u| ensures u[k] != 'e' && u[k] != 'E' && (k != |w| ==> u[k] != '.') {
      if k > |w| {
        assert u[k] == f[k - |w| - 1];
      } else if k < |w| {
        assert u[k] == w[k];
      }
    }
    assert u[|w|] == '.';
  }


  lemma WithinHalfUnit(a: real, n: nat, places: nat)
    requires n as real - Times10(a, places) <= 1.0 / 2.0 && Times10(a, places) - n as real <= 1.0 / 2.0
    ensures Shifted(n, places) - a <= Div10(1.0 / 2.0, places)
    ensures a - Shifted(n, places) <= Div10(1.0 / 2.0, places)
  {
    var t := Times10(a, places);
    Div10Times10(a, places);
    Div10Difference(n as real, t, places);
    Div10Difference(t, n as real, places);
    Div10Monotone(n as real - t, 1.0 / 2.0, places);
    Div10Monotone(t - n as real, 1.0 / 2.0, places);
  }

  lemma {:induction false} Div10Times10(a: real, k: nat)
    ensures Div10(Times10(a, k), k) == a
  {
    if k > 0 {
      Div10Times10(a, k - 1);
      Div10Scalar(Times10(a, k - 1), k - 1);
    }
  }

  lemma {:induction false} Div10Scalar(z: real, k: nat)
    ensures Div10(10.0 * z, k) == 10.0 * Div10(z, k)
  {
    if k > 0 {
      Div10Scalar(z, k - 1);
    }
  }

  lemma {:induction false} Div10Difference(u: real, v: real, k: nat)
    ensures Div10(u - v, k) == Div10(u, k) - Div10(v, k)
  {
    if k > 0 {
      Div10Difference(u, v, k - 1);
    }
  }

  lemma {:induction false} Div10Monotone(u: real, v: real, k: nat)
    requires u <= v
    ensures Div10(u, k) <= Div10(v, k)
  {
    if k > 0 {
      Div10Monotone(u, v, k - 1);
    }
  }
}
