/** JavaScript number built-ins the invoicing code relies on, over exact
    reals: `Math.round`, `Number.prototype.toFixed(2)` and `parseFloat`
    (decimal notation only). */
module JsNumber {
  import opened Base
  import opened Text

  /** `Math.round(x)`: the nearest integer, halves rounded up (towards
      positive infinity). */
  function Round(x: real): (n: int)
    ensures n as real - 0.5 <= x < n as real + 0.5
  {
    (x + 0.5).Floor
  }

  /** The integer number of hundredths that `x.toFixed(2)` prints: the
      nearest one, ties resolved away from zero (the sign is split off
      first). */
  function Hundredths(x: real): (n: int)
    ensures x >= 0.0 ==> n >= 0 && n as real - 0.5 <= x * 100.0 < n as real + 0.5
    ensures x < 0.0 ==> n <= 0 && n as real - 0.5 < x * 100.0 <= n as real + 0.5
  {
    if x >= 0.0 then Round(x * 100.0) else -Round(-x * 100.0)
  }

  /** The value of the string `x.toFixed(2)`. */
  function Fixed2(x: real): real {
    Hundredths(x) as real / 100.0
  }

  /** `toFixed(2)` moves a value by at most half a hundredth. */
  lemma Fixed2Error(x: real)
    ensures -0.005 <= Fixed2(x) - x <= 0.005
  {
    var n := Hundredths(x);
    assert Fixed2(x) * 100.0 == n as real;
  }

  /** A value that already has two decimals is printed exactly. */
  lemma Fixed2OfHundredths(n: int)
    ensures Fixed2(n as real / 100.0) == n as real / 100.0
  {
    var x := n as real / 100.0;
    assert x * 100.0 == n as real;
    if n >= 0 {
      RoundOfInteger(n);
    } else {
      assert -x * 100.0 == (-n) as real;
      RoundOfInteger(-n);
    }
    assert Hundredths(x) == n;
  }

  lemma RoundOfInteger(k: int)
    ensures Round(k as real) == k
  {
    assert (k as real + 0.5).Floor == k;
  }

  function Pow10(k: nat): (p: nat)
    ensures p >= 1
  {
    if k == 0 then 1 else 10 * Pow10(k - 1)
  }

  /** `parseFloat(s)` for decimal notation: leading white space is skipped,
      then an optional sign, then digits with an optional fraction are read
      as far as they go; `None` is `NaN`, when no digit can be read. */
  function ParseFloat(s: string): Option<real> {
    if s != [] && IsWhiteSpace(s[0]) then ParseFloat(s[1..])
    else if s != [] && s[0] == '-' then Negate(ScanWhole(s[1..], 0, false))
    else if s != [] && s[0] == '+' then ScanWhole(s[1..], 0, false)
    else ScanWhole(s, 0, false)
  }

  function Negate(r: Option<real>): Option<real> {
    if r.Some? then Some(-r.value) else None
  }

  /** Reads the integer digits, `acc` holding the value of those already
      read and `seen` whether there were any, then the fraction. */
  function ScanWhole(u: string, acc: nat, seen: bool): Option<real> {
    if u != [] && IsDigit(u[0]) then ScanWhole(u[1..], 10 * acc + DigitValue(u[0]), true)
    else if u != [] && u[0] == '.' then ScanFraction(u[1..], acc as real, 1.0 / 10.0, seen)
    else if seen then Some(acc as real)
    else None
  }

  /** Reads the digits after the decimal point; `scale` is the weight of
      the next one. */
  function ScanFraction(u: string, value: real, scale: real, seen: bool): Option<real> {
    if u != [] && IsDigit(u[0]) then
      ScanFraction(u[1..], value + DigitValue(u[0]) as real * scale, scale / 10.0, true)
    else if seen then Some(value)
    else None
  }

  /** `parseFloat(x) || 0`: `NaN` (and zero) become zero. */
  function OrZero(r: Option<real>): real {
    r.GetOr(0.0)
  }

  /** The value of a digit string read from its first digit. */
  lemma {:induction false} DigitsValueFront(s: string)
    requires |s| >= 1 && AllDigits(s)
    ensures DigitsValue(s) == DigitValue(s[0]) * Pow10(|s| - 1) + DigitsValue(s[1..])
  {
    if |s| > 1 {
      var init := s[..|s| - 1];
      var tail := s[1..];
      var d := DigitValue(s[0]);
      var last := DigitValue(s[|s| - 1]);
      DigitsValueFront(init);
      assert init[0] == s[0];
      assert DigitsValue(tail) == 10 * DigitsValue(init[1..]) + last by {
        assert init[1..] == tail[..|tail| - 1];
        assert tail[|tail| - 1] == s[|s| - 1];
      }
      assert DigitsValue(s) == 10 * DigitsValue(init) + last;
      Distribute(d, Pow10(|s| - 2), DigitsValue(init[1..]), last);
    } else {
      assert s[1..] == [];
    }
  }

  /** Scanning a run of digits followed by anything that neither extends the
      number nor starts a fraction yields the digits' value. */
  lemma {:induction false} ScanDigits(s: string, rest: string, acc: nat, seen: bool)
    requires AllDigits(s)
    requires rest == [] || (!IsDigit(rest[0]) && rest[0] != '.')
    ensures ScanWhole(s + rest, acc, seen)
            == if seen || |s| > 0 then Some((acc * Pow10(|s|) + DigitsValue(s)) as real) else None
  {
    if s == [] {
      assert s + rest == rest;
    } else {
      var d := DigitValue(s[0]);
      assert (s + rest)[0] == s[0] && (s + rest)[1..] == s[1..] + rest;
      ScanDigits(s[1..], rest, 10 * acc + d, true);
      DigitsValueFront(s);
      Shift(acc, d, Pow10(|s| - 1));
    }
  }

  lemma Distribute(d: nat, p: nat, r: nat, last: nat)
    ensures 10 * (d * p + r) + last == d * (10 * p) + (10 * r + last)
  {
  }

  lemma Shift(acc: nat, d: nat, p: nat)
    ensures (10 * acc + d) * p == acc * (10 * p) + d * p
  {
    calc {
      (10 * acc + d) * p;
      (10 * acc) * p + d * p;
      acc * (10 * p) + d * p;
    }
  }

  /** `parseFloat` reads back what `String(n)` wrote for a natural number,
      also when anything other than a digit or a point follows it. */
  lemma ParseFloatOfNatToString(n: nat, rest: string)
    requires rest == [] || (!IsDigit(rest[0]) && rest[0] != '.')
    ensures ParseFloat(NatToString(n) + rest) == Some(n as real)
  {
    var t := NatToString(n) + rest;
    ScanNatToString(n, rest);
    ParseFloatFromDigit(t);
  }

  /** The digits of `n`, whatever follows them, scan as `n`. */
  lemma ScanNatToString(n: nat, rest: string)
    requires rest == [] || (!IsDigit(rest[0]) && rest[0] != '.')
    ensures var t := NatToString(n) + rest;
            t != [] && IsDigit(t[0]) && ScanWhole(t, 0, false) == Some(n as real)
  {
    var s := NatToString(n);
    ScanDigits(s, rest, 0, false);
    DigitsValueOfNatToString(n);
    assert (s + rest)[0] == s[0];
  }

  /** Text that starts with a digit is read from its first character. */
  lemma ParseFloatFromDigit(t: string)
    requires t != [] && IsDigit(t[0])
    ensures ParseFloat(t) == ScanWhole(t, 0, false)
  {
    var c := t[0];
    assert !IsWhiteSpace(c) && c != '-' && c != '+';
  }

  /** A minus sign in front of a number negates it. */
  lemma ParseFloatMinus(t: string, v: real)
    requires t != [] && IsDigit(t[0]) && ScanWhole(t, 0, false) == Some(v)
    ensures ParseFloat("-" + t) == Some(-v)
  {
    var m := "-" + t;
    assert m[0] == '-' && m[1..] == t;
  }

  /** A string with no digit at all is `NaN`. */
  lemma {:induction false} ParseFloatWithoutDigits(s: string)
    requires forall i :: 0 <= i < |s| ==> !IsDigit(s[i])
    ensures ParseFloat(s) == None
  {
    if s != [] && IsWhiteSpace(s[0]) {
      ParseFloatWithoutDigits(s[1..]);
    } else if s != [] && (s[0] == '-' || s[0] == '+') {
      ScanWithoutDigits(s[1..], 0);
    } else {
      ScanWithoutDigits(s, 0);
    }
  }

  lemma {:induction false} ScanWithoutDigits(u: string, acc: nat)
    requires forall i :: 0 <= i < |u| ==> !IsDigit(u[i])
    ensures ScanWhole(u, acc, false) == None
  {
    if u != [] && u[0] == '.' {
      var f := u[1..];
      assert f == [] || !IsDigit(f[0]);
    }
  }

  /** The two-decimal text of an amount, with a suffix, reads back as that
      amount. */
  lemma ParseFloatExamples()
    ensures ParseFloat("12.50") == Some(12.5)
    ensures ParseFloat(" -0.75g") == Some(-0.75)
    ensures ParseFloat("abc") == None
  {
    ParseAmountExample();
    ParseSignedExample();
    ParseFloatWithoutDigits("abc");
  }

  lemma ParseAmountExample()
    ensures ParseFloat("12.50") == Some(12.5)
  {
    assert "12.50"[0] == '1';
    assert ScanWhole("2.50", 1, true) == ScanWhole("12.50", 0, false);
    assert ScanWhole(".50", 12, true) == ScanWhole("2.50", 1, true);
    assert ScanFraction("50", 12.0, 0.1, true) == ScanWhole(".50", 12, true);
    assert ScanFraction("0", 12.5, 0.01, true) == ScanFraction("50", 12.0, 0.1, true);
    assert ScanFraction("", 12.5, 0.001, true) == ScanFraction("0", 12.5, 0.01, true);
  }

  lemma ParseSignedExample()
    ensures ParseFloat(" -0.75g") == Some(-0.75)
  {
    assert ParseFloat(" -0.75g") == ParseFloat("-0.75g");
    assert ScanWhole(".75g", 0, true) == ScanWhole("0.75g", 0, false);
    assert ScanFraction("75g", 0.0, 0.1, true) == ScanWhole(".75g", 0, true);
    assert ScanFraction("5g", 0.7, 0.01, true) == ScanFraction("75g", 0.0, 0.1, true);
    assert ScanFraction("g", 0.75, 0.001, true) == ScanFraction("5g", 0.7, 0.01, true);
  }

  /** `x.toFixed(2)` as text, for amounts below 10^21: a minus sign for a
      negative `x` (also when it rounds to zero), the whole hundreds of
      the rounded hundredths, a point and two digits. */
  function ToFixed2(x: real): (s: string)
    ensures |s| >= 4 && s[|s| - 3] == '.' && IsDigit(s[|s| - 2]) && IsDigit(s[|s| - 1])
  {
    var u := Unsigned2(Magnitude(x));
    if x < 0.0 then "-" + u else u
  }

  /** The number of hundredths printed, without the sign. */
  function Magnitude(x: real): (m: nat)
    ensures m == if Hundredths(x) < 0 then -Hundredths(x) else Hundredths(x)
  {
    var h := Hundredths(x);
    if h < 0 then -h else h
  }

  /** `m` hundredths written with two decimals. */
  function Unsigned2(m: nat): (s: string)
    ensures |s| >= 4 && s[|s| - 3] == '.' && IsDigit(s[|s| - 2]) && IsDigit(s[|s| - 1])
    ensures IsDigit(s[0])
  {
    NatToString(m / 100) + Decimals(m)
  }

  /** The point and the two decimal digits of `m` hundredths. */
  function Decimals(m: nat): (s: string)
    ensures |s| == 3 && s[0] == '.' && IsDigit(s[1]) && IsDigit(s[2])
  {
    "." + [DigitChar(m % 100 / 10), DigitChar(m % 10)]
  }

  /** Digits read in front of anything move the accumulated value by the
      digits' value. */
  lemma {:induction false} ScanPrefix(s: string, rest: string, acc: nat, seen: bool)
    requires AllDigits(s)
    ensures ScanWhole(s + rest, acc, seen) == ScanWhole(rest, acc * Pow10(|s|) + DigitsValue(s), seen || |s| > 0)
  {
    if s == [] {
      assert s + rest == rest;
    } else {
      var d := DigitValue(s[0]);
      assert (s + rest)[0] == s[0] && (s + rest)[1..] == s[1..] + rest;
      ScanPrefix(s[1..], rest, 10 * acc + d, true);
      DigitsValueFront(s);
      Shift(acc, d, Pow10(|s| - 1));
    }
  }

  /** The unsigned two-decimal text reads back as its hundredths. */
  lemma ParseUnsigned2(m: nat)
    ensures ParseFloat(Unsigned2(m)) == Some(m as real / 100.0)
  {
    var q := m / 100;
    var w := NatToString(q);
    var t := Decimals(m);
    assert ScanWhole(w + t, 0, false) == ScanWhole(t, q, true) by {
      ScanPrefix(w, t, 0, false);
      DigitsValueOfNatToString(q);
    }
    assert ScanWhole(t, q, true) == Some(m as real / 100.0) by {
      ScanDecimals(m);
    }
    assert (w + t)[0] == w[0];
    ParseFloatFromDigit(w + t);
  }

  /** The point and two digits after the whole hundreds complete the
      value. */
  lemma ScanDecimals(m: nat)
    ensures ScanWhole(Decimals(m), m / 100, true) == Some(m as real / 100.0)
  {
    var q := m / 100;
    var d1 := m % 100 / 10;
    var d2 := m % 10;
    ScanTwoDecimals(q, d1, d2);
    DecimalDigits(m);
    HundredthsOfDigits(q, d1, d2);
  }

  lemma DecimalDigits(m: nat)
    ensures m == 100 * (m / 100) + 10 * (m % 100 / 10) + m % 10
  {
  }

  lemma HundredthsOfDigits(q: nat, d1: nat, d2: nat)
    ensures (q as real * 100.0 + d1 as real * 10.0 + d2 as real) / 100.0
            == (100 * q + 10 * d1 + d2) as real / 100.0
  {
  }

  lemma ScanTwoDecimals(q: nat, d1: nat, d2: nat)
    requires d1 < 10 && d2 < 10
    ensures ScanWhole("." + [DigitChar(d1), DigitChar(d2)], q, true)
            == Some((q as real * 100.0 + d1 as real * 10.0 + d2 as real) / 100.0)
  {
    var t := "." + [DigitChar(d1), DigitChar(d2)];
    var u := [DigitChar(d1), DigitChar(d2)];
    assert t[0] == '.' && t[1..] == u;
    assert DigitValue(DigitChar(d1)) == d1 && DigitValue(DigitChar(d2)) == d2;
    var v1 := q as real + d1 as real * (1.0 / 10.0);
    var v2 := v1 + d2 as real * (1.0 / 10.0 / 10.0);
    assert u[1..] == [DigitChar(d2)] && u[1..][1..] == [];
    assert ScanFraction(u, q as real, 1.0 / 10.0, true) == ScanFraction(u[1..], v1, 1.0 / 10.0 / 10.0, true);
    assert ScanFraction(u[1..], v1, 1.0 / 10.0 / 10.0, true) == Some(v2);
  }

  /** `parseFloat(x.toFixed(2))` is the rounded amount: the text written
      by `toFixed` reads back as the value it stands for. */
  lemma ParseToFixed2(x: real)
    ensures ParseFloat(ToFixed2(x)) == Some(Fixed2(x))
  {
    if x < 0.0 {
      ParseNegativeFixed2(x);
    } else {
      ParseNonNegativeFixed2(x);
    }
  }

  lemma ParseNegativeFixed2(x: real)
    requires x < 0.0
    ensures ParseFloat(ToFixed2(x)) == Some(Fixed2(x))
  {
    var m := Magnitude(x);
    var u := Unsigned2(m);
    assert ScanWhole(u, 0, false) == Some(m as real / 100.0) by {
      ParseUnsigned2(m);
      ParseFloatFromDigit(u);
    }
    ParseFloatMinus(u, m as real / 100.0);
    assert ToFixed2(x) == "-" + u;
    SignedMagnitude(x);
  }

  lemma ParseNonNegativeFixed2(x: real)
    requires x >= 0.0
    ensures ParseFloat(ToFixed2(x)) == Some(Fixed2(x))
  {
    var m := Magnitude(x);
    ParseUnsigned2(m);
    assert ToFixed2(x) == Unsigned2(m);
    SignedMagnitude(x);
  }

  /** The rounded value is the printed magnitude, negated for a negative
      amount. */
  lemma SignedMagnitude(x: real)
    ensures Fixed2(x) == if x < 0.0 then -(Magnitude(x) as real / 100.0) else Magnitude(x) as real / 100.0
  {
    var m := Magnitude(x);
    if x < 0.0 {
      assert Hundredths(x) + m == 0;
      assert -(m as real / 100.0) == Hundredths(x) as real / 100.0;
    } else {
      assert Hundredths(x) == m;
    }
  }

  /** `x.toLocaleString('en-AE', {minimumFractionDigits: 2,
      maximumFractionDigits: 2})`: the `toFixed(2)` rounding, with the
      whole part grouped in threes by commas. */
  function ToLocaleFixed2(x: real): string {
    var m := Magnitude(x);
    (if x < 0.0 then "-" else "") + GroupThousands(NatToString(m / 100)) + Decimals(m)
  }

  /** Digits grouped in threes from the right, separated by commas. */
  function GroupThousands(s: string): string
    decreases |s|
  {
    if |s| <= 3 then s else GroupThousands(s[..|s| - 3]) + "," + s[|s| - 3..]
  }

  /** The text with every comma removed. */
  function WithoutCommas(s: string): (r: string)
    ensures ',' !in r
  {
    if s == [] then []
    else WithoutCommas(s[..|s| - 1]) + (if s[|s| - 1] == ',' then "" else [s[|s| - 1]])
  }

  lemma {:induction false} WithoutCommasConcat(a: string, b: string)
    ensures WithoutCommas(a + b) == WithoutCommas(a) + WithoutCommas(b)
    decreases |b|
  {
    if b == [] {
      assert a + b == a;
    } else {
      assert (a + b)[..|a + b| - 1] == a + b[..|b| - 1];
      WithoutCommasConcat(a, b[..|b| - 1]);
    }
  }

  lemma {:induction false} WithoutCommasUnchanged(s: string)
    requires ',' !in s
    ensures WithoutCommas(s) == s
  {
    if s != [] {
      assert ',' !in s[..|s| - 1];
      WithoutCommasUnchanged(s[..|s| - 1]);
    }
  }

  /** Removing the commas undoes the grouping. */
  lemma {:induction false} UngroupThousands(s: string)
    requires ',' !in s
    ensures WithoutCommas(GroupThousands(s)) == s
    decreases |s|
  {
    if |s| <= 3 {
      WithoutCommasUnchanged(s);
    } else {
      var head := s[..|s| - 3];
      var tail := s[|s| - 3..];
      var g := GroupThousands(head);
      assert WithoutCommas(g) == head by {
        assert ',' !in head by {
          assert forall c :: c in head ==> c in s;
        }
        UngroupThousands(head);
      }
      assert WithoutCommas(tail) == tail by {
        assert ',' !in tail by {
          assert forall c :: c in tail ==> c in s;
        }
        WithoutCommasUnchanged(tail);
      }
      assert WithoutCommas(g + ",") == head by {
        assert (g + ",")[..|g|] == g;
      }
      assert WithoutCommas(GroupThousands(s)) == head + tail by {
        WithoutCommasConcat(g + ",", tail);
      }
      assert head + tail == s;
    }
  }

  /** The en-AE text with its grouping commas removed is the `toFixed(2)`
      text: both round alike and write the same digits. */
  lemma LocaleWithoutCommas(x: real)
    ensures WithoutCommas(ToLocaleFixed2(x)) == ToFixed2(x)
  {
    UngroupedText(if x < 0.0 then "-" else "", Magnitude(x));
  }

  lemma UngroupedText(sign: string, m: nat)
    requires ',' !in sign
    ensures WithoutCommas(sign + GroupThousands(NatToString(m / 100)) + Decimals(m)) == sign + Unsigned2(m)
  {
    var w := NatToString(m / 100);
    var d := Decimals(m);
    assert WithoutCommas(GroupThousands(w)) == w by {
      assert ',' !in w by {
        assert forall i :: 0 <= i < |w| ==> IsDigit(w[i]);
      }
      UngroupThousands(w);
    }
    assert WithoutCommas(sign) == sign by {
      WithoutCommasUnchanged(sign);
    }
    assert WithoutCommas(d) == d by {
      assert ',' !in d;
      WithoutCommasUnchanged(d);
    }
    assert WithoutCommas(sign + GroupThousands(w)) == sign + w by {
      WithoutCommasConcat(sign, GroupThousands(w));
    }
    assert WithoutCommas(sign + GroupThousands(w) + d) == sign + w + d by {
      WithoutCommasConcat(sign + GroupThousands(w), d);
    }
    assert sign + w + d == sign + (w + d);
  }
}
