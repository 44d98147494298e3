/**
  Text-to-number conversion as the probe uses it: Python's `int(token)` and
  `float(text)` restricted to plain decimal notation, and the decimal
  renderings they invert.
*/
module Numbers {
  import opened Wrappers

  predicate IsDigit(c: char) {
    '0' <= c <= '9'
  }

  predicate IsDigits(s: string) {
    forall k :: 0 <= k < |s| ==> IsDigit(s[k])
  }

  function DigitValue(c: char): (r: nat)
    requires IsDigit(c)
  {
    (c as int) - ('0' as int)
  }

  /** Value of a string of decimal digits, most significant digit first; "" is 0. */
  function DigitsValue(s: string): (r: nat)
    requires IsDigits(s)
  {
    if s == [] then 0 else DigitsValue(s[..|s| - 1]) * 10 + DigitValue(s[|s| - 1])
  }

  function Pow10(k: nat): (p: nat)
    ensures p >= 1
  {
    if k == 0 then 1 else 10 * Pow10(k - 1)
  }

  /** Length of the run of digits that starts `s`. */
  function DigitRun(s: string): (n: nat)
    ensures n <= |s| && IsDigits(s[..n])
    ensures n < |s| ==> !IsDigit(s[n])
  {
    if s == [] || !IsDigit(s[0]) then 0
    else
      var m := DigitRun(s[1..]);
      assert s[..m + 1] == [s[0]] + s[1..][..m];
      1 + m
  }

  /** `int(token)` for the forms `digits`, `+digits` and `-digits`; anything else is rejected. */
  function ParseInt(s: string): (r: Option<int>)
  {
    if s != [] && (s[0] == '+' || s[0] == '-') then
      var d := s[1..];
      if d != [] && IsDigits(d) then
        Some(if s[0] == '-' then -(DigitsValue(d) as int) else DigitsValue(d) as int)
      else None
    else if s != [] && IsDigits(s) then Some(DigitsValue(s) as int)
    else None
  }

  /** `x` divided by ten `k` times. */
  function Shift(x: real, k: nat): (r: real)
  {
    if k == 0 then x else Shift(x, k - 1) / 10.0
  }

  /** The value of the decimal text `whole.frac`. */
  function PointValue(whole: string, frac: string): (r: real)
    requires IsDigits(whole) && IsDigits(frac)
  {
    DigitsValue(whole) as real + Shift(DigitsValue(frac) as real, |frac|)
  }

  /** Unsigned `float` text: `digits`, `digits.`, `.digits` or `digits.digits`. */
  function ParseUnsignedReal(s: string): (r: Option<real>)
  {
    var n := DigitRun(s);
    if n == |s| then
      assert s[..n] == s;
      if n > 0 then Some(DigitsValue(s) as real) else None
    else if s[n] == '.' && IsDigits(s[n + 1..]) && (n > 0 || n + 1 < |s|) then
      Some(PointValue(s[..n], s[n + 1..]))
    else None
  }

  /** `float(text)` for an optional sign followed by unsigned decimal text. */
  function ParseReal(s: string): (r: Option<real>)
  {
    if s != [] && (s[0] == '+' || s[0] == '-') then
      match ParseUnsignedReal(s[1..])
      case None => None
      case Some(x) => Some(if s[0] == '-' then -x else x)
    else ParseUnsignedReal(s)
  }

  function DigitChar(d: nat): (c: char)
    requires d < 10
    ensures IsDigit(c) && DigitValue(c) == d
  {
    ('0' as int + d) as char
  }

  /** `str(n)` for a natural number. */
  function ShowNat(n: nat): (r: string)
    ensures r != [] && IsDigits(r)
  {
    if n < 10 then [DigitChar(n)] else ShowNat(n / 10) + [DigitChar(n % 10)]
  }

  /** `str(n)` for an integer. */
  function ShowInt(n: int): (r: string)
  {
    if n < 0 then "-" + ShowNat(-n) else ShowNat(n)
  }

  function Zeros(j: nat): (r: string)
    ensures |r| == j && IsDigits(r)
  {
    seq(j, _ => '0')
  }

  /** `s` left-padded with zeros to at least `k` characters. */
  function ZeroPad(s: string, k: nat): (r: string)
  {
    if |s| >= k then s else Zeros(k - |s|) + s
  }

  /** A digit string with a point placed `k` digits from its right end, after padding it with zeros to more than `k` digits. */
  function PlacePoint(s: string, k: nat): (r: string)
  {
    if k == 0 then s
    else
      var digits := ZeroPad(s, k + 1);
      if |digits| < k then digits
      else digits[..|digits| - k] + "." + digits[|digits| - k..]
  }

  /** The rendering of m / 10^k with exactly k digits after the point (none and no point when k = 0). */
  function ShowFixed(m: nat, k: nat): (r: string)
  {
    PlacePoint(ShowNat(m), k)
  }

  // ---------------------------------------------------------------------
  // Lemmas

  lemma {:induction false} DigitsValueShowNat(n: nat)
    ensures DigitsValue(ShowNat(n)) == n
  {
    if n >= 10 {
      var s := ShowNat(n);
      assert s[..|s| - 1] == ShowNat(n / 10);
      DigitsValueShowNat(n / 10);
    }
  }

  lemma DigitsConcat(a: string, b: string)
    requires IsDigits(a) && IsDigits(b)
    ensures IsDigits(a + b)
  {
    forall k | 0 <= k < |a + b| ensures IsDigit((a + b)[k]) {
      if k < |a| { assert (a + b)[k] == a[k]; } else { assert (a + b)[k] == b[k - |a|]; }
    }
  }

  lemma ShiftInDigit(x: nat, p: nat, y: nat, d: nat)
    ensures (x * p + y) * 10 + d == x * (10 * p) + (y * 10 + d)
  {
  }

  lemma DigitsValueLast(s: string, init: string, last: char)
    requires IsDigits(s) && s != []
    requires init == s[..|s| - 1] && last == s[|s| - 1]
    ensures IsDigits(init) && IsDigit(last)
    ensures DigitsValue(s) == DigitsValue(init) * 10 + DigitValue(last)
  {
  }

  /** The last digit of a + b, b not empty, is the last digit of b. */
  lemma DigitsValueSnoc(a: string, b: string)
    requires IsDigits(a) && IsDigits(b) && b != []
    ensures IsDigits(a + b[..|b| - 1]) && IsDigits(a + b)
    ensures DigitsValue(a + b) == DigitsValue(a + b[..|b| - 1]) * 10 + DigitValue(b[|b| - 1])
  {
    var ab, init := a + b, a + b[..|b| - 1];
    DigitsConcat(a, b);
    assert ab[..|ab| - 1] == init;
    DigitsValueLast(ab, init, b[|b| - 1]);
  }

  lemma {:induction false} DigitsValueAppend(a: string, b: string)
    requires IsDigits(a) && IsDigits(b)
    ensures IsDigits(a + b)
    ensures DigitsValue(a + b) == DigitsValue(a) * Pow10(|b|) + DigitsValue(b)
  {
    DigitsConcat(a, b);
    if b == [] {
      assert a + b == a;
    } else {
      var b' := b[..|b| - 1];
      DigitsValueSnoc(a, b);
      DigitsValueAppend(a, b');
      ShiftInDigit(DigitsValue(a), Pow10(|b'|), DigitsValue(b'), DigitValue(b[|b| - 1]));
    }
  }

  lemma {:induction false} DigitsValueZeros(j: nat)
    ensures DigitsValue(Zeros(j)) == 0
  {
    if j > 0 {
      assert Zeros(j)[..j - 1] == Zeros(j - 1);
      DigitsValueZeros(j - 1);
    }
  }

  lemma {:induction false} DigitRunDigits(d: string, rest: string)
    requires IsDigits(d)
    requires rest == [] || !IsDigit(rest[0])
    ensures DigitRun(d + rest) == |d|
  {
    if d == [] {
      assert d + rest == rest;
    } else {
      assert (d + rest)[1..] == d[1..] + rest;
      DigitRunDigits(d[1..], rest);
    }
  }

  /** `int` reads a digit string, and the same string after a minus sign. */
  lemma ParseIntDigits(s: string)
    requires IsDigits(s) && s != []
    ensures ParseInt(s) == Some(DigitsValue(s) as int)
    ensures ParseInt("-" + s) == Some(-(DigitsValue(s) as int))
  {
    assert IsDigit(s[0]);
    assert ("-" + s)[1..] == s;
  }

  /** `int(str(n)) == n`. */
  lemma ParseIntShowInt(n: int)
    ensures ParseInt(ShowInt(n)) == Some(n)
  {
    var m := if n < 0 then -n else n;
    ParseIntDigits(ShowNat(m));
    DigitsValueShowNat(m);
  }

  lemma ZeroPadValue(s: string, k: nat)
    requires IsDigits(s)
    ensures IsDigits(ZeroPad(s, k)) && |ZeroPad(s, k)| >= k
    ensures DigitsValue(ZeroPad(s, k)) == DigitsValue(s)
  {
    if |s| < k {
      DigitsValueAppend(Zeros(k - |s|), s);
      DigitsValueZeros(k - |s|);
    }
  }

  lemma ParseUnsignedPoint(whole: string, frac: string)
    requires IsDigits(whole) && IsDigits(frac) && whole != []
    ensures ParseUnsignedReal(whole + "." + frac) == Some(PointValue(whole, frac))
  {
    var s := whole + "." + frac;
    assert s == whole + ("." + frac);
    DigitRunDigits(whole, "." + frac);
    var n := |whole|;
    assert s[..n] == whole;
    assert s[n + 1..] == frac;
  }

  /** Dividing by ten k times is dividing by 10^k. */
  lemma {:induction false} ShiftPow10(x: real, k: nat)
    ensures Shift(x, k) == x / Pow10(k) as real
  {
    if k > 0 {
      ShiftPow10(x, k - 1);
      var p := Pow10(k - 1) as real;
      assert Pow10(k) as real == p * 10.0;
      assert (x / p) / 10.0 == x / (p * 10.0);
    }
  }

  lemma FixedPointValue(v: nat, x: nat, y: nat, p: nat)
    requires p >= 1 && v == x * p + y
    ensures x as real + y as real / p as real == v as real / p as real
  {
    assert v as real == x as real * p as real + y as real;
  }

  lemma DigitsSlices(digits: string, i: nat)
    requires IsDigits(digits) && i <= |digits|
    ensures IsDigits(digits[..i]) && IsDigits(digits[i..])
    ensures digits == digits[..i] + digits[i..]
  {
    forall j | 0 <= j < |digits[i..]| ensures IsDigit(digits[i..][j]) {
      assert digits[i..][j] == digits[j + i];
    }
  }

  lemma SplitDigitsValue(digits: string, k: nat)
    requires IsDigits(digits) && |digits| >= k
    ensures IsDigits(digits[..|digits| - k]) && IsDigits(digits[|digits| - k..])
    ensures DigitsValue(digits)
         == DigitsValue(digits[..|digits| - k]) * Pow10(k) + DigitsValue(digits[|digits| - k..])
  {
    var i := |digits| - k;
    var whole, frac := digits[..i], digits[i..];
    DigitsSlices(digits, i);
    assert |frac| == k;
    DigitsValueAppend(whole, frac);
  }

  /** Placing a point k digits from the right of a digit string divides its value by 10^k. */
  lemma PointValueShift(digits: string, k: nat)
    requires IsDigits(digits) && |digits| >= k
    ensures PointValue(digits[..|digits| - k], digits[|digits| - k..])
         == DigitsValue(digits) as real / Pow10(k) as real
  {
    var whole, frac := digits[..|digits| - k], digits[|digits| - k..];
    SplitDigitsValue(digits, k);
    assert |frac| == k;
    ShiftPow10(DigitsValue(frac) as real, k);
    FixedPointValue(DigitsValue(digits), DigitsValue(whole), DigitsValue(frac), Pow10(k));
  }

  lemma ParseRealPoint(whole: string, frac: string)
    requires IsDigits(whole) && IsDigits(frac) && whole != []
    ensures ParseReal(whole + "." + frac) == Some(PointValue(whole, frac))
  {
    var s := whole + "." + frac;
    assert s[0] == whole[0];
    ParseUnsignedPoint(whole, frac);
  }

  /** `float(str(n)) == n` for a natural number. */
  lemma ParseRealShowNat(n: nat)
    ensures ParseReal(ShowNat(n)) == Some(n as real)
  {
    var s := ShowNat(n);
    assert IsDigit(s[0]);
    assert ParseReal(s) == ParseUnsignedReal(s);
    DigitRunDigits(s, []);
    assert s + [] == s;
    assert s[..|s|] == s;
    DigitsValueShowNat(n);
  }

  lemma PlacePointParts(s: string, k: nat)
    requires IsDigits(s) && k > 0
    ensures var digits := ZeroPad(s, k + 1);
      IsDigits(digits) && |digits| > k && DigitsValue(digits) == DigitsValue(s)
      && PlacePoint(s, k) == digits[..|digits| - k] + "." + digits[|digits| - k..]
  {
    ZeroPadValue(s, k + 1);
  }

  lemma ParseRealPlacePoint(s: string, k: nat)
    requires IsDigits(s) && k > 0
    ensures ParseReal(PlacePoint(s, k)) == Some(DigitsValue(s) as real / Pow10(k) as real)
  {
    var digits := ZeroPad(s, k + 1);
    PlacePointParts(s, k);
    var whole, frac := digits[..|digits| - k], digits[|digits| - k..];
    SplitDigitsValue(digits, k);
    ParseRealPoint(whole, frac);
    PointValueShift(digits, k);
  }

  /** `float` reads back the fixed-point rendering of m / 10^k exactly. */
  lemma ParseRealShowFixed(m: nat, k: nat)
    ensures ParseReal(ShowFixed(m, k)) == Some(m as real / Pow10(k) as real)
  {
    if k == 0 {
      ParseRealShowNat(m);
      assert Pow10(0) as real == 1.0;
      assert m as real / 1.0 == m as real;
    } else {
      ParseRealPlacePoint(ShowNat(m), k);
      DigitsValueShowNat(m);
    }
  }
}
