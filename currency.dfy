/** Fixed-point text with thousands separators, as Python's format
    specification `{:,.Nf}` renders an integer: the integer is converted to
    the nearest double, then printed as an optional minus sign, the digits
    grouped by commas in threes from the right, and, when N > 0, a point
    followed by N zeros. */
module Currency {
  import opened Wrappers

  predicate IsDigit(c: char) {
    '0' <= c <= '9'
  }

  predicate AllDigits(s: string) {
    forall k :: 0 <= k < |s| ==> IsDigit(s[k])
  }

  function DigitChar(d: nat): (c: char)
    requires d < 10
    ensures IsDigit(c)
  {
    ('0' as int + d) as char
  }

  function DigitValue(c: char): (d: nat)
    requires IsDigit(c)
    ensures d < 10
  {
    c as int - '0' as int
  }

  /** The decimal digits of n, most significant first, without leading zeros. */
  function Digits(n: nat): (s: string)
    ensures |s| >= 1 && AllDigits(s)
    decreases n
  {
    if n < 10 then [DigitChar(n)] else Digits(n / 10) + [DigitChar(n % 10)]
  }

  /** The number a string of digits denotes. */
  function Value(s: string): nat
    requires AllDigits(s)
  {
    if |s| == 0 then 0 else 10 * Value(s[..|s| - 1]) + DigitValue(s[|s| - 1])
  }

  /** Reading the digits back gives the number. */
  lemma {:induction false} DigitsValue(n: nat)
    ensures Value(Digits(n)) == n
    decreases n
  {
    var s := Digits(n);
    if n >= 10 {
      DigitsValue(n / 10);
      assert s[..|s| - 1] == Digits(n / 10);
    }
  }

  /** A comma before every group of three digits, counted from the right. */
  function Group(s: string): string
    decreases |s|
  {
    if |s| <= 3 then s else Group(s[..|s| - 3]) + "," + s[|s| - 3..]
  }

  /** The string with every comma taken out. */
  function RemoveCommas(s: string): string {
    if |s| == 0 then "" else RemoveCommas(s[..|s| - 1]) + (if s[|s| - 1] == ',' then "" else [s[|s| - 1]])
  }

  lemma {:induction false} RemoveCommasConcat(a: string, b: string)
    ensures RemoveCommas(a + b) == RemoveCommas(a) + RemoveCommas(b)
    decreases |b|
  {
    if |b| == 0 {
      assert a + b == a;
    } else {
      assert (a + b)[..|a + b| - 1] == a + b[..|b| - 1];
      RemoveCommasConcat(a, b[..|b| - 1]);
    }
  }

  lemma {:induction false} RemoveCommasOfDigits(s: string)
    requires AllDigits(s)
    ensures RemoveCommas(s) == s
    decreases |s|
  {
    if |s| > 0 {
      RemoveCommasOfDigits(s[..|s| - 1]);
      assert s == s[..|s| - 1] + [s[|s| - 1]];
    }
  }

  lemma CommaRemoved()
    ensures RemoveCommas(",") == ""
  {
    assert ","[..0] == "";
  }

  /** Taking the separators out of grouped digits gives the digits back. */
  lemma {:induction false} UngroupGroup(s: string)
    requires AllDigits(s)
    ensures RemoveCommas(Group(s)) == s
    decreases |s|
  {
    if |s| <= 3 {
      RemoveCommasOfDigits(s);
    } else {
      var front, back := s[..|s| - 3], s[|s| - 3..];
      assert AllDigits(front) && AllDigits(back) by {
        forall k | 0 <= k < |front| ensures IsDigit(front[k]) { assert front[k] == s[k]; }
        forall k | 0 <= k < |back| ensures IsDigit(back[k]) { assert back[k] == s[|s| - 3 + k]; }
      }
      var gf := Group(front);
      assert Group(s) == gf + "," + back;
      UngroupGroup(front);
      RemoveCommasConcat(gf + ",", back);
      RemoveCommasConcat(gf, ",");
      RemoveCommasOfDigits(back);
      CommaRemoved();
      calc {
        RemoveCommas(Group(s));
        RemoveCommas(gf + ",") + RemoveCommas(back);
        RemoveCommas(gf) + RemoveCommas(",") + back;
        front + "" + back;
        { assert front + "" == front; }
        front + back;
        { assert front + back == s; }
        s;
      }
    }
  }

  /** Grouped digits hold only digits and commas: no sign and no point. */
  lemma {:induction false} GroupChars(s: string)
    requires AllDigits(s)
    ensures forall k :: 0 <= k < |Group(s)| ==> IsDigit(Group(s)[k]) || Group(s)[k] == ','
    ensures |s| > 0 ==> |Group(s)| > 0 && IsDigit(Group(s)[0])
    decreases |s|
  {
    if |s| > 3 {
      GroupChars(s[..|s| - 3]);
    }
  }

  /** Grouping adds one comma per full group of three beyond the first. */
  lemma {:induction false} GroupLength(s: string)
    requires |s| > 0
    ensures |Group(s)| == |s| + (|s| - 1) / 3
    decreases |s|
  {
    if |s| > 3 {
      GroupLength(s[..|s| - 3]);
      assert (|s| - 1) / 3 == (|s| - 4) / 3 + 1;
    }
  }

  lemma ModShift(x: int)
    ensures (x + 4) % 4 == x % 4
  {
  }

  /** Counted from the end of grouped digits, every fourth character is the
      comma, and no other character is. */
  lemma {:induction false} GroupLayout(s: string)
    requires AllDigits(s) && |s| > 0
    ensures |Group(s)| == |s| + (|s| - 1) / 3
    ensures forall k :: 0 <= k < |Group(s)| ==> (Group(s)[k] == ',' <==> (|Group(s)| - k) % 4 == 0)
    decreases |s|
  {
    GroupLength(s);
    var g := Group(s);
    if |s| > 3 {
      var front, back := s[..|s| - 3], s[|s| - 3..];
      GroupLayout(front);
      var gf := Group(front);
      assert g == gf + "," + back;
      assert |g| == |gf| + 4;
      forall k | 0 <= k < |g| ensures g[k] == ',' <==> (|g| - k) % 4 == 0 {
        if k < |gf| {
          assert g[k] == gf[k];
          ModShift(|gf| - k);
        } else if k > |gf| {
          assert g[k] == back[k - |gf| - 1];
          assert IsDigit(back[k - |gf| - 1]);
          assert 1 <= |g| - k <= 3;
        }
      }
    } else {
      forall k | 0 <= k < |g| ensures g[k] == ',' <==> (|g| - k) % 4 == 0 {
        assert IsDigit(s[k]);
        assert 1 <= |g| - k <= 3;
      }
    }
  }

  /** N zeros. */
  function Zeros(n: nat): (s: string)
    ensures |s| == n && forall k :: 0 <= k < n ==> s[k] == '0'
  {
    if n == 0 then "" else Zeros(n - 1) + "0"
  }

  /** The fractional part: nothing for 0 places, else a point and the zeros. */
  function Fraction(decimals: nat): string {
    if decimals == 0 then "" else "." + Zeros(decimals)
  }

  function Abs(x: int): nat {
    if x < 0 then -x else x
  }

  // ---------------------------------------------------------------------------
  // `float(x)`: the format specification `f` turns an integer into a double
  // before rendering it, and renders that double's exact decimal value.

  function Pow2(n: nat): (p: nat)
    ensures p > 0
  {
    if n == 0 then 1 else 2 * Pow2(n - 1)
  }

  /** The number of binary digits of n. */
  function BitLength(n: nat): nat {
    if n == 0 then 0 else 1 + BitLength(n / 2)
  }

  /** 2^53: every integer up to it in magnitude is a double. */
  const DoubleExact: nat := 9007199254740992

  /** The gap between neighbouring doubles of n's binary length: a double
      holds 53 significant bits, so above 2^53 only multiples of a power of
      two are left. */
  function Spacing(n: nat): (u: nat)
    ensures u > 0
  {
    var e := BitLength(n);
    if e > 53 then Pow2(e - 53) else 1
  }

  function Distance(a: int, b: int): nat {
    if a < b then b - a else a - b
  }

  /** n rounded to a multiple of u, counted in units of u: the nearer of
      the two neighbouring multiples, a tie going to the even one, as
      IEEE 754 rounds. */
  function RoundTo(n: nat, u: nat): nat
    requires u > 0
  {
    var q, r := n / u, n % u;
    if 2 * r > u || (2 * r == u && q % 2 == 1) then q + 1 else q
  }

  /** `float(x)` for an integer x within the range of doubles: x itself up
      to 2^53 in magnitude, where every integer is a double; beyond, the
      nearest multiple of the spacing, with the sign kept. */
  function ToDouble(x: int): (d: int)
    ensures (d < 0) == (x < 0)
  {
    var n := Abs(x);
    if n <= DoubleExact then x
    else
      var m: int := Rounded(n);
      if x < 0 then -m else m
  }

  /** n rounded to a double, for n beyond 2^53. */
  function Rounded(n: nat): (m: nat)
    requires n > DoubleExact
    ensures m > 0
  {
    var u := Spacing(n);
    RoundingError(n, u);
    SpacingBelow(n);
    RoundTo(n, u) * u
  }

  /** `float(x)` is a multiple of the spacing of doubles at x's binary
      length, at most half a spacing away from x, and is x itself up to 2^53
      in magnitude, where the spacing divides x. */
  lemma ToDoubleNearest(x: int)
    ensures var d, u := ToDouble(x), Spacing(Abs(x));
      Abs(d) == RoundTo(Abs(x), u) * u && 2 * Distance(Abs(d), Abs(x)) <= u
  {
    RoundingError(Abs(x), Spacing(Abs(x)));
    ExactSpacing(Abs(x));
  }

  /** The rounded value lies within half a unit of n, and is n itself when
      the unit divides n; it is positive when n is at least one unit. */
  lemma RoundingError(n: nat, u: nat)
    requires u > 0
    ensures var m := RoundTo(n, u) * u;
      2 * Distance(m, n) <= u &&
      (n % u == 0 ==> m == n) &&
      (u <= n ==> m > 0)
  {
    var q, r := n / u, n % u;
    var up := 2 * r > u || (2 * r == u && q % 2 == 1);
    assert RoundTo(n, u) == if up then q + 1 else q;
    DivMod(n, u);
    MulSucc(q, u);
    Nearest(n, u, q * u, r, up);
    if u <= n {
      QuotientPositive(n, u);
    }
  }

  lemma DivMod(n: nat, u: nat)
    requires u > 0
    ensures n == (n / u) * u + n % u && 0 <= n % u < u
  {
  }

  lemma MulSucc(q: nat, u: nat)
    ensures (q + 1) * u == q * u + u
  {
  }

  /** Of the two multiples around n, the one chosen is at most half a unit away. */
  lemma Nearest(n: nat, u: nat, low: nat, r: nat, up: bool)
    requires n == low + r && r < u
    requires up ==> 2 * r >= u
    requires !up ==> 2 * r <= u
    ensures 2 * Distance(if up then low + u else low, n) <= u
    ensures r == 0 ==> !up
  {
  }

  lemma QuotientPositive(n: nat, u: nat)
    requires 0 < u <= n
    ensures n / u >= 1 && (n / u) * u >= u && (n / u + 1) * u >= u
  {
    var q := n / u;
    DivMod(n, u);
    MulAtLeast(q, u);
  }

  lemma MulAtLeast(q: nat, u: nat)
    requires q * u + u > u
    ensures q >= 1 && q * u >= u
  {
    if q > 0 {
      assert q * u == (q - 1) * u + u;
    }
  }

  /** A positive integer has at least its first binary digit's worth. */
  lemma {:induction false} BitLengthAbove(n: nat)
    requires n > 0
    ensures BitLength(n) >= 1 && Pow2(BitLength(n) - 1) <= n
  {
    if n > 1 {
      BitLengthAbove(n / 2);
    }
  }

  /** The spacing never exceeds a positive integer, so it is never rounded to 0. */
  lemma SpacingBelow(n: nat)
    ensures n > 0 ==> Spacing(n) <= n
  {
    if n > 0 {
      BitLengthAbove(n);
      var e := BitLength(n);
      if e > 53 {
        Pow2Monotone(e - 53, e - 1);
      }
    }
  }

  lemma {:induction false} BitLengthBelow(n: nat, k: nat)
    requires n < Pow2(k)
    ensures BitLength(n) <= k
  {
    if n > 0 {
      BitLengthBelow(n / 2, k - 1);
    }
  }

  lemma {:induction false} BitLengthOfPow2(k: nat)
    ensures BitLength(Pow2(k)) == k + 1
  {
    if k > 0 {
      assert Pow2(k) / 2 == Pow2(k - 1);
      BitLengthOfPow2(k - 1);
    }
  }

  lemma Pow2Of53()
    ensures Pow2(53) == DoubleExact
  {
    assert Pow2(3) == 8;
    assert Pow2(5) == 32;
    Pow2Add(5, 5);
    assert Pow2(10) == 1024;
    Pow2Add(10, 10);
    assert Pow2(20) == 1048576;
    Pow2Add(20, 20);
    assert Pow2(40) == 1099511627776;
    Pow2Add(40, 10);
    assert Pow2(50) == 1125899906842624;
    Pow2Add(50, 3);
  }

  lemma {:induction false} Pow2Monotone(a: nat, b: nat)
    requires a <= b
    ensures Pow2(a) <= Pow2(b)
  {
    if a < b {
      Pow2Monotone(a, b - 1);
    }
  }

  lemma {:induction false} Pow2Add(a: nat, b: nat)
    ensures Pow2(a + b) == Pow2(a) * Pow2(b)
  {
    if b > 0 {
      Pow2Add(a, b - 1);
    }
  }

  /** An integer between 2^k and 2^(k+1) has k + 1 binary digits. */
  lemma {:induction false} BitLengthBetween(n: nat, k: nat)
    requires Pow2(k) <= n < Pow2(k + 1)
    ensures BitLength(n) == k + 1
  {
    if k > 0 {
      BitLengthBetween(n / 2, k - 1);
    }
  }

  /** Up to 2^53 the spacing divides the integer, so nothing is rounded. */
  lemma ExactSpacing(n: nat)
    ensures n <= DoubleExact ==> n % Spacing(n) == 0
  {
    Pow2Of53();
    if n > DoubleExact {
    } else if n < DoubleExact {
      BitLengthBelow(n, 53);
    } else {
      BitLengthOfPow2(53);
    }
  }

  /** `"{:,.{decimals}f}".format(x)` for an integer x: the digits of
      `float(x)`, grouped, after a minus sign when x is negative. */
  function FormatCurrency(x: int, decimals: nat): (s: string)
    ensures decimals == 0 ==> '.' !in s
    ensures decimals > 0 ==>
      |s| > decimals && s[|s| - decimals - 1] == '.' &&
      forall k :: |s| - decimals <= k < |s| ==> s[k] == '0'
  {
    var d := ToDouble(x);
    var sign := if d < 0 then "-" else "";
    var body := Group(Digits(Abs(d)));
    GroupChars(Digits(Abs(d)));
    assert '.' !in body by {
      forall k | 0 <= k < |body| ensures body[k] != '.' { }
    }
    sign + body + Fraction(decimals)
  }

  /** The text up to the first point. */
  function BeforePoint(s: string): string {
    if |s| == 0 || s[0] == '.' then "" else [s[0]] + BeforePoint(s[1..])
  }

  lemma {:induction false} BeforePointConcat(a: string, b: string)
    requires '.' !in a && (|b| == 0 || b[0] == '.')
    ensures BeforePoint(a + b) == a
  {
    if |a| == 0 {
      assert a + b == b;
    } else {
      assert (a + b)[1..] == a[1..] + b;
      assert '.' !in a[1..] by {
        forall c | c in a[1..] ensures c != '.' { assert c in a; }
      }
      BeforePointConcat(a[1..], b);
    }
  }

  /** Reads an integer back from currency text: sign, then the grouped
      digits up to the point; the fraction is dropped. */
  function ParseCurrency(s: string): (r: Option<int>) {
    var negative := |s| > 0 && s[0] == '-';
    var unsigned := if negative then s[1..] else s;
    var digits := RemoveCommas(BeforePoint(unsigned));
    if |digits| == 0 || !AllDigits(digits) then None
    else
      var v: int := Value(digits);
      Some(if negative then -v else v)
  }

  /** The unsigned part of the text: grouped digits, then the fraction. */
  lemma UnsignedPart(n: nat, decimals: nat)
    ensures var u := Group(Digits(n)) + Fraction(decimals);
      |u| > 0 && IsDigit(u[0]) && RemoveCommas(BeforePoint(u)) == Digits(n)
  {
    var ds := Digits(n);
    var body := Group(ds);
    GroupChars(ds);
    assert '.' !in body by {
      forall k | 0 <= k < |body| ensures body[k] != '.' { }
    }
    BeforePointConcat(body, Fraction(decimals));
    UngroupGroup(ds);
  }

  lemma FormatCurrencyParts(x: int, decimals: nat)
    ensures var d := ToDouble(x);
      FormatCurrency(x, decimals) ==
      if d < 0 then "-" + (Group(Digits(Abs(d))) + Fraction(decimals)) else Group(Digits(Abs(d))) + Fraction(decimals)
  {
    var d := ToDouble(x);
    var body := Group(Digits(Abs(d)));
    if d >= 0 {
      assert "" + body == body;
    }
  }

  /** Reading back an unsigned part. */
  lemma ParseUnsigned(u: string, ds: string)
    requires |u| > 0 && IsDigit(u[0]) && |ds| > 0 && AllDigits(ds)
    requires RemoveCommas(BeforePoint(u)) == ds
    ensures ParseCurrency(u) == Some(Value(ds) as int)
  {
    assert u[0] != '-';
  }

  /** Reading back an unsigned part after a minus sign. */
  lemma ParseNegative(u: string, ds: string)
    requires |ds| > 0 && AllDigits(ds)
    requires RemoveCommas(BeforePoint(u)) == ds
    ensures ParseCurrency("-" + u) == Some(-(Value(ds) as int))
  {
    var s := "-" + u;
    assert |s| > 0 && s[0] == '-';
    assert s[1..] == u;
  }

  /** Reading the currency text back gives `float(x)`, whatever the number
      of decimals; up to 2^53 in magnitude that is x itself, so formatting
      loses nothing of such an integer. */
  lemma FormatCurrencyRoundTrip(x: int, decimals: nat)
    ensures ParseCurrency(FormatCurrency(x, decimals)) == Some(ToDouble(x))
    ensures Abs(x) <= DoubleExact ==> ParseCurrency(FormatCurrency(x, decimals)) == Some(x)
  {
    var d := ToDouble(x);
    var u := Group(Digits(Abs(d))) + Fraction(decimals);
    UnsignedPart(Abs(d), decimals);
    DigitsValue(Abs(d));
    ParseUnsigned(u, Digits(Abs(d)));
    ParseNegative(u, Digits(Abs(d)));
    FormatCurrencyParts(x, decimals);
  }

  /** Between 2^53 and 2^54 doubles are the even integers, so every odd
      integer there is printed as a neighbour: reading the text back gives
      that neighbour, not the integer (2^53 + 1 prints as 2^53). */
  lemma FormatCurrencyRoundsAboveExact(n: nat, decimals: nat)
    requires DoubleExact < n < 2 * DoubleExact && n % 2 == 1
    ensures ToDouble(n) == n - 1 || ToDouble(n) == n + 1
    ensures ParseCurrency(FormatCurrency(n, decimals)) == Some(ToDouble(n)) != Some(n)
  {
    Pow2Of53();
    Pow2Add(53, 1);
    BitLengthBetween(n, 53);
    assert Spacing(n) == 2;
    FormatCurrencyRoundTrip(n, decimals);
  }

  lemma DigitsOfMillions()
    ensures Digits(1234567) == "1234567"
  {
    assert Digits(1) == "1";
    assert Digits(12) == "12";
    assert Digits(123) == "123";
    assert Digits(1234) == "1234";
    assert Digits(12345) == "12345";
    assert Digits(123456) == "123456";
  }

  lemma GroupOfMillions()
    ensures Group("1234567") == "1,234,567"
  {
    assert "1234567"[..4] == "1234" && "1234567"[4..] == "567";
    assert "1234"[..1] == "1" && "1234"[1..] == "234";
    assert Group("1234") == "1,234";
  }

  lemma ThousandParts()
    ensures Group(Digits(1000)) == "1,000"
  {
    assert Digits(10) == "10";
    assert Digits(100) == "100";
    assert Digits(1000) == "1000";
    assert "1000"[..1] == "1" && "1000"[1..] == "000";
  }

  /** Worked examples: an amount with two decimal places, and a negative one
      with none. */
  lemma FormatCurrencyExamples()
    ensures FormatCurrency(1234567, 2) == "1,234,567.00"
    ensures FormatCurrency(-1000, 0) == "-1,000"
  {
    assert ToDouble(1234567) == 1234567 && ToDouble(-1000) == -1000;
    DigitsOfMillions();
    GroupOfMillions();
    ThousandParts();
    assert Zeros(2) == "00";
  }
}
