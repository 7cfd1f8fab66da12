/**
 * Character-level helpers shared by the packet codec, the stream buffer and
 * the command table: Python's `str.strip`, `str.split` with a one-character
 * separator, `str.join`, `int(...)` and `float(...)` on decimal literals, and
 * the renderings `f"{n}"` and `f"{x:.2f}"`.
 */
module Text {
  import opened Wrappers

  // ---------------------------------------------------------------------
  // Whitespace and strip
  // ---------------------------------------------------------------------

  /** The characters for which Python's `str.isspace()` holds. */
  predicate IsSpace(c: char) {
    var n := c as int;
    n == 32 || 9 <= n <= 13 || 28 <= n <= 31 || n == 0x85 || n == 0xA0 || n == 0x1680
    || 0x2000 <= n <= 0x200A || n == 0x2028 || n == 0x2029 || n == 0x202F
    || n == 0x205F || n == 0x3000
  }

  /** Neither end of `s` is whitespace. */
  predicate NoEdgeSpace(s: string) {
    s == [] || (!IsSpace(s[0]) && !IsSpace(s[|s| - 1]))
  }

  /** Python's `s.lstrip()`: a suffix of `s` that does not start with whitespace. */
  function StripLeft(s: string): (r: string)
    ensures |r| <= |s|
    ensures r == [] || !IsSpace(r[0])
  {
    if |s| > 0 && IsSpace(s[0]) then StripLeft(s[1..]) else s
  }

  /** `lstrip` keeps a suffix of its input. */
  lemma {:induction false} StripLeftSuffix(s: string)
    ensures StripLeft(s) == s[|s| - |StripLeft(s)|..]
    decreases |s|
  {
    if |s| > 0 && IsSpace(s[0]) {
      StripLeftSuffix(s[1..]);
      assert s[1..][|s| - 1 - |StripLeft(s)|..] == s[|s| - |StripLeft(s)|..];
    }
  }

  /** Python's `s.rstrip()`: a prefix of `s` that does not end with whitespace. */
  function StripRight(s: string): (r: string)
    ensures |r| <= |s| && r == s[..|r|]
    ensures r == [] || !IsSpace(r[|r| - 1])
  {
    if |s| > 0 && IsSpace(s[|s| - 1]) then StripRight(s[..|s| - 1]) else s
  }

  /** `lstrip` removes whitespace only. */
  lemma {:induction false} StripLeftDropsSpace(s: string)
    ensures forall i :: 0 <= i < |s| - |StripLeft(s)| ==> IsSpace(s[i])
    decreases |s|
  {
    if |s| > 0 && IsSpace(s[0]) {
      StripLeftDropsSpace(s[1..]);
    }
  }

  /** `rstrip` removes whitespace only. */
  lemma {:induction false} StripRightDropsSpace(s: string)
    ensures forall i :: |StripRight(s)| <= i < |s| ==> IsSpace(s[i])
    decreases |s|
  {
    if |s| > 0 && IsSpace(s[|s| - 1]) {
      StripRightDropsSpace(s[..|s| - 1]);
    }
  }

  /** Python's `s.strip()`: drops leading and trailing whitespace. */
  function Strip(s: string): (r: string)
    ensures NoEdgeSpace(r)
    ensures NoEdgeSpace(s) ==> r == s
    ensures |r| <= |s|
  {
    StripRight(StripLeft(s))
  }

  lemma StripIdempotent(s: string)
    ensures Strip(Strip(s)) == Strip(s)
  {
  }

  /**
   * The whitespace `int(...)` and `float(...)` skip around a number: the
   * ASCII whitespace and the non-ASCII Unicode spaces, but not the four
   * information separators U+001C..U+001F that `str.strip` removes.
   */
  predicate IsNumberSpace(c: char) {
    IsSpace(c) && !(28 <= c as int <= 31)
  }

  function TrimNumberLeft(s: string): (r: string)
    ensures |r| <= |s|
    ensures r == [] || !IsNumberSpace(r[0])
  {
    if |s| > 0 && IsNumberSpace(s[0]) then TrimNumberLeft(s[1..]) else s
  }

  function TrimNumberRight(s: string): (r: string)
    ensures |r| <= |s| && r == s[..|r|]
    ensures r == [] || !IsNumberSpace(r[|r| - 1])
  {
    if |s| > 0 && IsNumberSpace(s[|s| - 1]) then TrimNumberRight(s[..|s| - 1]) else s
  }

  /** The leading trim of `int(...)` keeps a suffix of its argument. */
  lemma {:induction false} TrimNumberLeftSuffix(s: string)
    ensures TrimNumberLeft(s) == s[|s| - |TrimNumberLeft(s)|..]
    decreases |s|
  {
    if |s| > 0 && IsNumberSpace(s[0]) {
      TrimNumberLeftSuffix(s[1..]);
      assert s[1..][|s| - 1 - |TrimNumberLeft(s)|..] == s[|s| - |TrimNumberLeft(s)|..];
    }
  }

  /** The leading trim of `int(...)` removes number whitespace only. */
  lemma {:induction false} TrimNumberLeftDropsSpace(s: string)
    ensures forall i :: 0 <= i < |s| - |TrimNumberLeft(s)| ==> IsNumberSpace(s[i])
    decreases |s|
  {
    if |s| > 0 && IsNumberSpace(s[0]) {
      TrimNumberLeftDropsSpace(s[1..]);
    }
  }

  /** The trailing trim of `int(...)` removes number whitespace only. */
  lemma {:induction false} TrimNumberRightDropsSpace(s: string)
    ensures forall i :: |TrimNumberRight(s)| <= i < |s| ==> IsNumberSpace(s[i])
    decreases |s|
  {
    if |s| > 0 && IsNumberSpace(s[|s| - 1]) {
      TrimNumberRightDropsSpace(s[..|s| - 1]);
    }
  }

  /**
   * The text `int(...)` and `float(...)` read: the argument without the
   * number whitespace at its ends; text without any whitespace at its
   * ends is read as it is.
   */
  function TrimNumber(s: string): (r: string)
    ensures r == [] || (!IsNumberSpace(r[0]) && !IsNumberSpace(r[|r| - 1]))
    ensures NoEdgeSpace(s) ==> r == s
  {
    TrimNumberRight(TrimNumberLeft(s))
  }

  /** `str.strip` removes an information separator; `int(...)` does not skip it. */
  lemma SeparatorNotNumberSpace(c: char)
    requires 28 <= c as int <= 31
    ensures Strip([c]) == []
    ensures ParseInt([c, '5']) == None
  {
    assert !IsNumberSpace('5');
    assert TrimNumber([c, '5']) == [c, '5'];
  }

  // ---------------------------------------------------------------------
  // Split and join
  // ---------------------------------------------------------------------

  /** Python's `sep.join(parts)`. */
  function Join(parts: seq<string>, sep: string): (r: string)
  {
    if |parts| == 0 then ""
    else if |parts| == 1 then parts[0]
    else parts[0] + sep + Join(parts[1..], sep)
  }

  /**
   * Python's `s.split(c)` for a one-character separator: the pieces between
   * successive separators, so there is always one more piece than there are
   * separators, and joining the pieces back gives `s`.
   */
  function Split(s: string, c: char): (r: seq<string>)
    ensures |r| >= 1
  {
    if |s| == 0 then [""]
    else
      var rest := Split(s[1..], c);
      if s[0] == c then [""] + rest
      else [[s[0]] + rest[0]] + rest[1..]
  }

  /** No piece holds the separator, and joining the pieces with it gives back `s`. */
  lemma {:induction false} SplitPieces(s: string, c: char)
    ensures forall i :: 0 <= i < |Split(s, c)| ==> c !in Split(s, c)[i]
    ensures Join(Split(s, c), [c]) == s
    decreases |s|
  {
    if |s| > 0 {
      var rest := Split(s[1..], c);
      SplitPieces(s[1..], c);
      var r := Split(s, c);
      if s[0] == c {
        assert r == [""] + rest;
        assert r[1..] == rest;
        if |rest| > 0 {
          assert Join(r, [c]) == "" + [c] + Join(rest, [c]);
        }
      } else {
        assert r == [[s[0]] + rest[0]] + rest[1..];
        assert [s[0]] + s[1..] == s;
        if |rest| > 1 {
          assert rest == [rest[0]] + rest[1..];
          assert Join(rest, [c]) == rest[0] + [c] + Join(rest[1..], [c]);
          assert r[1..] == rest[1..];
        }
      }
    }
  }

  /** Splitting a separator-free prefix glued to `s` extends the first piece of `s`. */
  lemma {:induction false} SplitPrefix(a: string, s: string, c: char)
    requires c !in a
    ensures Split(a + s, c) == [a + Split(s, c)[0]] + Split(s, c)[1..]
    decreases |a|
  {
    if |a| > 0 {
      var t := Split(s, c);
      assert (a + s)[1..] == a[1..] + s;
      SplitPrefix(a[1..], s, c);
      var rest := Split(a[1..] + s, c);
      assert rest[0] == a[1..] + t[0];
      assert rest[1..] == t[1..];
      assert (a + s)[0] == a[0] && a[0] != c;
      assert Split(a + s, c) == [[a[0]] + rest[0]] + rest[1..];
      assert [a[0]] + (a[1..] + t[0]) == a + t[0];
    } else {
      var t := Split(s, c);
      assert a + s == s;
      assert a + t[0] == t[0];
      assert [t[0]] + t[1..] == t;
    }
  }

  /** Splitting undoes joining when no piece contains the separator. */
  lemma {:induction false} SplitJoin(parts: seq<string>, c: char)
    requires |parts| >= 1
    requires forall i :: 0 <= i < |parts| ==> c !in parts[i]
    ensures Split(Join(parts, [c]), c) == parts
    decreases |parts|
  {
    if |parts| == 1 {
      SplitPrefix(parts[0], "", c);
      assert parts[0] + "" == parts[0];
    } else {
      var tail := Join(parts[1..], [c]);
      SplitJoin(parts[1..], c);
      assert Split([c] + tail, c) == [""] + parts[1..];
      assert parts[0] + [c] + tail == parts[0] + ([c] + tail);
      SplitPrefix(parts[0], [c] + tail, c);
      assert parts[0] + "" == parts[0];
    }
  }

  // ---------------------------------------------------------------------
  // Digits and integers
  // ---------------------------------------------------------------------

  /** ASCII digits only; Python's `\d` and `int()` also take other Unicode digits. */
  predicate IsDigit(c: char) {
    '0' <= c <= '9'
  }

  predicate AllDigits(s: string) {
    forall i :: 0 <= i < |s| ==> IsDigit(s[i])
  }

  function DigitChar(d: nat): (c: char)
    requires d < 10
    ensures IsDigit(c)
  {
    (48 + d) as char
  }

  function DigitValue(c: char): (d: nat)
    requires IsDigit(c)
    ensures d < 10 && DigitChar(d) == c
  {
    c as int - 48
  }

  function Pow10(k: nat): (p: nat)
    ensures p >= 1
  {
    if k == 0 then 1 else 10 * Pow10(k - 1)
  }

  /** The number a string of decimal digits denotes (leading zeros allowed). */
  function DigitsValue(s: string): (n: nat)
    requires AllDigits(s)
    ensures n < Pow10(|s|)
  {
    if s == [] then 0 else 10 * DigitsValue(s[..|s| - 1]) + DigitValue(s[|s| - 1])
  }

  lemma AllDigitsAppend(a: string, b: string)
    requires AllDigits(a) && AllDigits(b)
    ensures AllDigits(a + b)
  {
    assert forall i :: 0 <= i < |a + b| ==> (a + b)[i] == if i < |a| then a[i] else b[i - |a|];
  }

  lemma DigitsValueSnoc(x: string, c: char)
    requires AllDigits(x) && IsDigit(c)
    ensures AllDigits(x + [c])
    ensures DigitsValue(x + [c]) == 10 * DigitsValue(x) + DigitValue(c)
  {
    assert (x + [c])[..|x|] == x;
  }

  /** `f"{n}"` for a natural number: shortest decimal rendering. */
  function ShowNat(n: nat): (s: string)
    ensures |s| >= 1 && AllDigits(s)
    ensures DigitsValue(s) == n
    ensures s[0] == '0' ==> n == 0 && s == "0"
  {
    if n < 10 then [DigitChar(n)]
    else
      var s := ShowNat(n / 10) + [DigitChar(n % 10)];
      assert s[..|s| - 1] == ShowNat(n / 10);
      s
  }

  /** `f"{i}"` for an integer. */
  function ShowInt(i: int): (s: string)
  {
    if i < 0 then "-" + ShowNat(-i) else ShowNat(i)
  }

  /** The integer syntax accepted: an optional sign, then one or more digits. */
  function ParseSigned(t: string): (r: Option<int>)
  {
    if |t| > 0 && (t[0] == '+' || t[0] == '-') then
      var d := t[1..];
      if |d| > 0 && AllDigits(d) then
        var n: int := DigitsValue(d);
        Some(if t[0] == '-' then -n else n)
      else None
    else if |t| > 0 && AllDigits(t) then Some(DigitsValue(t))
    else None
  }

  /**
   * Python's `int(s)`: surrounding number whitespace, an optional sign and
   * ASCII digits; every other string is a `ValueError`, here `None`.
   */
  function ParseInt(s: string): (r: Option<int>)
  {
    ParseSigned(TrimNumber(s))
  }

  /** `int(" 5 ")` reads the digit between the spaces. */
  lemma PaddedInt()
    ensures ParseInt(" 5 ") == Some(5)
  {
    assert TrimNumberLeft(" 5 ") == "5 ";
    assert TrimNumber(" 5 ") == "5";
  }

  lemma ShowIntNoEdgeSpace(i: int)
    ensures NoEdgeSpace(ShowInt(i))
    ensures |ShowInt(i)| >= 1
  {
    var d := ShowNat(if i < 0 then -i else i);
    assert IsDigit(d[|d| - 1]);
    assert IsDigit(d[0]);
  }

  /** Reading back what `ShowInt` wrote gives the same integer. */
  lemma ParseShowInt(i: int)
    ensures ParseInt(ShowInt(i)) == Some(i)
  {
    ShowIntNoEdgeSpace(i);
    var s := ShowInt(i);
    if i < 0 {
      assert s[1..] == ShowNat(-i);
    } else {
      assert s == ShowNat(i);
      assert s[0] != '+' && s[0] != '-' by { assert IsDigit(s[0]); }
    }
  }

  // ---------------------------------------------------------------------
  // Decimal numbers: what `float(...)` reads and `:.2f` writes
  // ---------------------------------------------------------------------

  /** The decimal number `mantissa / 10^scale`. */
  datatype Decimal = Decimal(mantissa: int, scale: nat)

  function Magnitude(i: int): nat {
    if i < 0 then -i else i
  }

  /** The exact value of a decimal. */
  function ValueOf(d: Decimal): real {
    d.mantissa as real / Pow10(d.scale) as real
  }

  lemma DivBounds(m: nat, p: nat)
    requires p > 0
    ensures (m / p) * p <= m < (m / p + 1) * p
  {
    assert m == (m / p) * p + m % p;
  }

  lemma DivNonNegative(m: nat, p: nat)
    requires p > 0
    ensures m / p >= 0
  {
  }

  /** Python's `int(x)` on a float: truncation toward zero. */
  function Trunc(d: Decimal): (r: int)
    ensures Magnitude(r) == Magnitude(d.mantissa) / Pow10(d.scale)
    ensures r > 0 ==> d.mantissa > 0
    ensures r < 0 ==> d.mantissa < 0
  {
    var q := Magnitude(d.mantissa) / Pow10(d.scale);
    DivNonNegative(Magnitude(d.mantissa), Pow10(d.scale));
    if d.mantissa >= 0 then q else -q
  }

  /** `Trunc(d)` is the integer nearest zero within one unit of `d`. */
  lemma TruncBounds(d: Decimal)
    ensures Magnitude(Trunc(d)) * Pow10(d.scale) <= Magnitude(d.mantissa)
    ensures Magnitude(d.mantissa) < (Magnitude(Trunc(d)) + 1) * Pow10(d.scale)
  {
    DivBounds(Magnitude(d.mantissa), Pow10(d.scale));
  }

  /** An unsigned decimal literal: digits with at most one point, at least one digit. */
  function ParseUnsignedDecimal(body: string): (r: Option<Decimal>)
    ensures r.Some? ==> r.value.mantissa >= 0
  {
    var parts := Split(body, '.');
    if |parts| > 2 then None
    else
      var whole := parts[0];
      var frac := if |parts| == 2 then parts[1] else "";
      if AllDigits(whole) && AllDigits(frac) && |whole| + |frac| >= 1 then
        AllDigitsAppend(whole, frac);
        Some(Decimal(DigitsValue(whole + frac), |frac|))
      else None
  }

  /**
   * Python's `float(s)` restricted to decimal literals: surrounding
   * number whitespace, an optional sign, then digits with at most one decimal
   * point and at least one digit.
   */
  function ParseDecimal(s: string): (r: Option<Decimal>)
  {
    var t := TrimNumber(s);
    if |t| > 0 && (t[0] == '+' || t[0] == '-') then
      match ParseUnsignedDecimal(t[1..])
      case None => None
      case Some(u) => Some(if t[0] == '-' then Decimal(-u.mantissa, u.scale) else u)
    else ParseUnsignedDecimal(t)
  }

  lemma Pow10Hundred(k: nat)
    requires k <= 2
    ensures Pow10(2 - k) * Pow10(k) == 100
  {
    assert Pow10(1) == 10;
    assert Pow10(2) == 100;
  }

  /**
   * Round-half-to-even of `n / 10^scale` to a whole number of hundredths:
   * what `:.2f` does to the digits of a magnitude.
   */
  function RoundHundredths(n: nat, scale: nat): (h: nat)
  {
    if scale <= 2 then n * Pow10(2 - scale)
    else
      var p := Pow10(scale - 2);
      var q := n / p;
      var r := n % p;
      if 2 * r > p then q + 1
      else if 2 * r < p then q
      else if q % 2 == 0 then q
      else q + 1
  }

  /** With at most two decimals the magnitude is only rescaled. */
  lemma RoundHundredthsExact(n: nat, scale: nat)
    requires scale <= 2
    ensures RoundHundredths(n, scale) * Pow10(scale) == n * 100
  {
    Pow10Hundred(scale);
    var a, b := Pow10(2 - scale), Pow10(scale);
    assert (n * a) * b == n * (a * b);
  }

  /** With more decimals the result is within half a hundredth of the magnitude. */
  lemma RoundHundredthsNearest(n: nat, scale: nat)
    requires scale > 2
    ensures 2 * Magnitude(RoundHundredths(n, scale) * Pow10(scale - 2) - n) <= Pow10(scale - 2)
  {
    var p := Pow10(scale - 2);
    var q := n / p;
    var r := n % p;
    assert n == q * p + r && 0 <= r < p;
    assert (q + 1) * p == q * p + p;
  }

  /** The two-decimal text `[-]W.FF` of `h` hundredths, with the sign given separately. */
  function ShowFixed2(negative: bool, h: nat): (s: string)
  {
    Signed(negative, FixedBody(h))
  }

  /** `W.FF`: the whole part of `h` hundredths, a point and exactly two fraction digits. */
  function FixedBody(h: nat): (s: string)
  {
    var f := h % 100;
    ShowNat(h / 100) + "." + [DigitChar(f / 10), DigitChar(f % 10)]
  }

  /**
   * `f"{x:.2f}"` for a decimal `x`: the sign of `x` (kept even when the
   * rounded value is zero, as Python prints `-0.00`), then the magnitude
   * rounded to hundredths.
   */
  function ShowTemperature(d: Decimal): (s: string)
  {
    ShowFixed2(d.mantissa < 0, RoundHundredths(Magnitude(d.mantissa), d.scale))
  }

  /** The value that `ShowTemperature(d)` denotes, in hundredths. */
  function Rendered(d: Decimal): (r: Decimal)
  {
    var h: int := RoundHundredths(Magnitude(d.mantissa), d.scale);
    Decimal(if d.mantissa < 0 then -h else h, 2)
  }

  /** With at most two decimals nothing is rounded: the rendering keeps the value. */
  lemma RenderedValue(d: Decimal)
    requires d.scale <= 2
    ensures ValueOf(Rendered(d)) == ValueOf(d)
    ensures Rendered(d).mantissa == d.mantissa * Pow10(2 - d.scale)
  {
    var r := Rendered(d);
    var h := RoundHundredths(Magnitude(d.mantissa), d.scale);
    RoundHundredthsExact(Magnitude(d.mantissa), d.scale);
    Pow10Hundred(d.scale);
    assert Pow10(2) == 100;
    assert r.mantissa * Pow10(d.scale) == d.mantissa * 100;
    var p := Pow10(d.scale) as real;
    assert r.mantissa as real * p == d.mantissa as real * 100.0;
  }

  /** Two more digits after `w` multiply its value by a hundred and add theirs. */
  lemma TwoDigitsValue(w: string, b: nat, c: nat)
    requires AllDigits(w) && b < 10 && c < 10
    ensures AllDigits(w + [DigitChar(b), DigitChar(c)])
    ensures DigitsValue(w + [DigitChar(b), DigitChar(c)]) == 100 * DigitsValue(w) + 10 * b + c
  {
    var x, y := DigitChar(b), DigitChar(c);
    DigitsValueSnoc(w, x);
    DigitsValueSnoc(w + [x], y);
    assert w + [x, y] == (w + [x]) + [y];
  }

  lemma HundredsDigits(h: nat)
    ensures h == 100 * (h / 100) + 10 * (h % 100 / 10) + h % 100 % 10
  {
  }

  lemma FixedDigitsValue(h: nat)
    ensures AllDigits(ShowNat(h / 100) + [DigitChar(h % 100 / 10), DigitChar(h % 100 % 10)])
    ensures DigitsValue(ShowNat(h / 100) + [DigitChar(h % 100 / 10), DigitChar(h % 100 % 10)]) == h
  {
    TwoDigitsValue(ShowNat(h / 100), h % 100 / 10, h % 100 % 10);
    HundredsDigits(h);
  }

  /** The unsigned part `W.FF` of a two-decimal rendering reads back as `h` hundredths. */
  lemma ParseFixedBody(h: nat)
    ensures ParseUnsignedDecimal(FixedBody(h))
            == Some(Decimal(h, 2))
  {
    var w := ShowNat(h / 100);
    var f := [DigitChar(h % 100 / 10), DigitChar(h % 100 % 10)];
    assert w + "." + f == Join([w, f], ".");
    assert '.' !in w by { assert AllDigits(w); }
    SplitJoin([w, f], '.');
    FixedDigitsValue(h);
  }

  /** The text of `value` with an optional leading minus sign. */
  function Signed(negative: bool, body: string): string {
    (if negative then "-" else "") + body
  }

  /**
   * An unsigned literal that starts and ends with a digit has no whitespace
   * to strip, so it reads as itself, and a minus sign in front negates it.
   */
  lemma ParseSignedLiteral(negative: bool, body: string, value: Decimal)
    requires |body| > 0 && IsDigit(body[0]) && IsDigit(body[|body| - 1])
    requires ParseUnsignedDecimal(body) == Some(value)
    ensures ParseDecimal(Signed(negative, body))
            == Some(if negative then Decimal(-value.mantissa, value.scale) else value)
  {
    var s := Signed(negative, body);
    assert s[|s| - 1] == body[|body| - 1];
    assert TrimNumber(s) == s;
    if negative {
      assert s[1..] == body;
    } else {
      assert s == body;
    }
  }

  lemma FixedBodyEdges(h: nat)
    ensures |FixedBody(h)| > 0 && IsDigit(FixedBody(h)[0]) && IsDigit(FixedBody(h)[|FixedBody(h)| - 1])
  {
    var w := ShowNat(h / 100);
    assert IsDigit(w[0]);
  }

  /** Reading back a two-decimal rendering gives its signed hundredths. */
  lemma ParseShowFixed2(negative: bool, h: nat)
    ensures ParseDecimal(ShowFixed2(negative, h)) == Some(Decimal(if negative then -(h as int) else h, 2))
  {
    FixedBodyEdges(h);
    ParseFixedBody(h);
    ParseSignedLiteral(negative, FixedBody(h), Decimal(h, 2));
  }

  /** Reading back `f"{x:.2f}"` gives the rounded value `Rendered(x)`. */
  lemma ParseShowTemperature(d: Decimal)
    ensures ParseDecimal(ShowTemperature(d)) == Some(Rendered(d))
  {
    var h := RoundHundredths(Magnitude(d.mantissa), d.scale);
    ParseShowFixed2(d.mantissa < 0, h);
    assert ShowTemperature(d) == ShowFixed2(d.mantissa < 0, h);
    assert Rendered(d) == Decimal(if d.mantissa < 0 then -(h as int) else h, 2);
  }
}
