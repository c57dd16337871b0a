/**
 * JVM integer semantics the app relies on: the range and wrap-around of
 * `Long`, division and remainder that truncate toward zero, decimal
 * rendering (`Long.toString`), decimal parsing (`String.toLong`) and
 * lexicographic string comparison (`String.compareTo`).
 */
module Numbers {
  import opened Wrappers

  const LongMin: int := -0x8000_0000_0000_0000
  const LongMax: int := 0x7FFF_FFFF_FFFF_FFFF
  const LongModulus: int := 0x1_0000_0000_0000_0000

  predicate InLong(v: int) {
    LongMin <= v <= LongMax
  }

  /** Two's-complement wrap-around of a JVM `Long` addition. */
  function WrapLong(v: int): (r: int)
    ensures InLong(r)
    ensures (r - v) % LongModulus == 0
    ensures InLong(v) ==> r == v
  {
    (v - LongMin) % LongModulus + LongMin
  }

  /** JVM `/` on integers: the quotient truncated toward zero. */
  function Quot(a: int, b: int): (q: int)
    requires b > 0
    ensures a >= 0 ==> 0 <= a - b * q < b && q >= 0
    ensures a <= 0 ==> -b < a - b * q <= 0 && q <= 0
  {
    if a >= 0 then a / b else -((-a) / b)
  }

  /** JVM `%` on integers: the remainder takes the sign of the dividend. */
  function Rem(a: int, b: int): (r: int)
    requires b > 0
    ensures a >= 0 ==> 0 <= r < b
    ensures a <= 0 ==> -b < r <= 0
    ensures (a - r) % b == 0
  {
    var q := Quot(a, b);
    assert a - (a - b * q) == b * q;
    MultipleRem(b, q);
    a - b * q
  }

  lemma MultipleRem(b: int, q: int)
    requires b > 0
    ensures (b * q) % b == 0
  {
    var m := b * q;
    var d := q - m / b;
    assert m == b * (m / b) + m % b;
    assert b * d == m % b;
    if d > 0 {
      MulAtLeast(b, d);
    } else if d < 0 {
      MulAtLeast(b, -d);
    }
  }

  lemma MulAtLeast(b: int, d: int)
    requires b > 0 && d > 0
    ensures b * d >= b
  {
    if d > 1 {
      MulAtLeast(b, d - 1);
      assert b * d == b * (d - 1) + b;
    }
  }

  /** Truncated division is odd in its dividend. */
  lemma QuotOdd(a: int, b: int)
    requires b > 0
    ensures Quot(-a, b) == -Quot(a, b)
    ensures Rem(-a, b) == -Rem(a, b)
  {
  }

  function Pow10(k: nat): (p: nat)
    ensures p >= 1
  {
    if k == 0 then 1 else 10 * Pow10(k - 1)
  }

  predicate IsDigit(c: char) {
    '0' <= c <= '9'
  }

  predicate IsDigits(s: string) {
    forall i :: 0 <= i < |s| ==> IsDigit(s[i])
  }

  function DigitValue(c: char): (d: nat)
    requires IsDigit(c)
    ensures d < 10
  {
    c as int - '0' as int
  }

  function DigitChar(d: nat): (c: char)
    requires d < 10
    ensures IsDigit(c) && DigitValue(c) == d
  {
    ('0' as int + d) as char
  }

  /** The number a string of decimal digits denotes (leading zeros allowed). */
  function DigitsValue(s: string): (v: nat)
    requires IsDigits(s)
    ensures v < Pow10(|s|)
  {
    if s == [] then 0 else 10 * DigitsValue(s[..|s| - 1]) + DigitValue(s[|s| - 1])
  }

  /** Appending a digit shifts the value one decimal place. */
  lemma DigitsValueSnoc(s: string, c: char)
    requires IsDigits(s) && IsDigit(c)
    ensures IsDigits(s + [c])
    ensures DigitsValue(s + [c]) == 10 * DigitsValue(s) + DigitValue(c)
  {
    assert (s + [c])[..|s|] == s;
  }

  /** `Long.toString` of a non-negative number: no sign, no leading zero. */
  function NatString(n: nat): (s: string)
    ensures |s| > 0 && IsDigits(s)
    ensures DigitsValue(s) == n
    ensures |s| > 1 ==> s[0] != '0'
  {
    if n < 10 then [DigitChar(n)]
    else
      var s := NatString(n / 10) + [DigitChar(n % 10)];
      assert s[..|s| - 1] == NatString(n / 10);
      s
  }

  /** `Long.toString`: a minus sign followed by the digits of the magnitude. */
  function DecimalString(n: int): (s: string)
    ensures |s| > 0 && '|' !in s
    ensures n >= 0 <==> IsDigit(s[0])
  {
    if n < 0 then "-" + NatString(-n) else NatString(n)
  }

  function Bounded(v: int): (r: Option<int>)
    ensures r.Some? <==> InLong(v)
    ensures r.Some? ==> r.value == v
  {
    if InLong(v) then Some(v) else None
  }

  /**
   * `String.toLong` (Long.parseLong, radix 10): an optional `+` or `-`
   * followed by at least one digit, with the value inside the `Long`
   * range; anything else throws, modelled as `None`.
   */
  function ParseLong(s: string): (r: Option<int>)
    ensures r.Some? ==> InLong(r.value)
    ensures r.Some? ==> |s| > 0
  {
    if |s| > 1 && (s[0] == '-' || s[0] == '+') && IsDigits(s[1..]) then
      var m: int := DigitsValue(s[1..]);
      Bounded(if s[0] == '-' then -m else m)
    else if |s| > 0 && IsDigits(s) then
      Bounded(DigitsValue(s))
    else
      None
  }

  /** A digit string parses to the number it denotes, or fails when that leaves the `Long` range. */
  lemma ParseDigits(s: string)
    requires |s| > 0 && IsDigits(s)
    ensures ParseLong(s) == Bounded(DigitsValue(s))
  {
    assert IsDigit(s[0]);
  }

  /** Parsing what `Long.toString` printed gives the number back. */
  lemma ParseDecimalRoundTrip(n: int)
    requires InLong(n)
    ensures ParseLong(DecimalString(n)) == Some(n)
  {
    var s := DecimalString(n);
    if n < 0 {
      assert s[1..] == NatString(-n);
    } else {
      assert IsDigit(s[0]);
    }
  }

  /** Reading a digit string from the front: the leading digit weighs `10^(|s|-1)`. */
  lemma {:induction false} DigitsValueFront(s: string)
    requires |s| > 0 && IsDigits(s)
    ensures DigitsValue(s) == DigitValue(s[0]) * Pow10(|s| - 1) + DigitsValue(s[1..])
  {
    if |s| > 1 {
      var init, tail := s[..|s| - 1], s[1..];
      var d0, last := DigitValue(s[0]), DigitValue(s[|s| - 1]);
      assert init[0] == s[0];
      assert init[1..] == tail[..|tail| - 1];
      assert tail[|tail| - 1] == s[|s| - 1];
      DigitsValueFront(init);
      var rest := DigitsValue(init[1..]);
      var p := Pow10(|s| - 2);
      assert DigitsValue(init) == d0 * p + rest;
      assert DigitsValue(tail) == 10 * rest + last;
      assert DigitsValue(s) == 10 * DigitsValue(init) + last;
      Regroup(d0, p, rest, last);
    } else {
      assert s[..0] == [];
    }
  }

  lemma Regroup(d: int, p: int, rest: int, last: int)
    ensures 10 * (d * p + rest) + last == d * (10 * p) + (10 * rest + last)
  {
  }

  /** `String.compareTo(a, b) <= 0`: code-unit by code-unit, a proper prefix first. */
  predicate LexLeq(a: string, b: string)
    ensures a <= b ==> LexLeq(a, b)
    ensures LexLeq(a, b) && a != [] ==> b != [] && a[0] <= b[0]
    decreases |a|
  {
    if a == [] then true
    else if b == [] then false
    else if a[0] != b[0] then a[0] < b[0]
    else LexLeq(a[1..], b[1..])
  }

  /** Strings that are each at most the other are equal. */
  lemma {:induction false} LexLeqAntisymmetric(a: string, b: string)
    requires LexLeq(a, b) && LexLeq(b, a)
    ensures a == b
    decreases |a|
  {
    if a != [] {
      LexLeqAntisymmetric(a[1..], b[1..]);
      assert a == [a[0]] + a[1..] && b == [b[0]] + b[1..];
    }
  }

  lemma {:induction false} LexLeqTotal(a: string, b: string)
    ensures LexLeq(a, b) || LexLeq(b, a)
    decreases |a|
  {
    if a != [] && b != [] && a[0] == b[0] {
      LexLeqTotal(a[1..], b[1..]);
    }
  }

  lemma {:induction false} LexLeqTransitive(a: string, b: string, c: string)
    requires LexLeq(a, b) && LexLeq(b, c)
    ensures LexLeq(a, c)
    decreases |a|
  {
    if a != [] && b != [] && c != [] && a[0] == b[0] && b[0] == c[0] {
      LexLeqTransitive(a[1..], b[1..], c[1..]);
    }
  }

  /**
   * On digit strings of equal length the string order is the numeric
   * order, in both directions.
   */
  lemma {:induction false} LexLeqDigits(a: string, b: string)
    requires IsDigits(a) && IsDigits(b) && |a| == |b|
    ensures LexLeq(a, b) <==> DigitsValue(a) <= DigitsValue(b)
    decreases |a|
  {
    if a != [] {
      DigitsValueFront(a);
      DigitsValueFront(b);
      var k := Pow10(|a| - 1);
      var da, db := DigitValue(a[0]), DigitValue(b[0]);
      var ra, rb := DigitsValue(a[1..]), DigitsValue(b[1..]);
      if a[0] == b[0] {
        LexLeqDigits(a[1..], b[1..]);
      } else if a[0] < b[0] {
        LeadingDigitDominates(da, db, k, ra, rb);
      } else {
        LeadingDigitDominates(db, da, k, rb, ra);
      }
    }
  }

  /** A larger leading digit outweighs any tail of the same length. */
  lemma LeadingDigitDominates(x: nat, y: nat, k: nat, rx: nat, ry: nat)
    requires x < y && rx < k
    ensures x * k + rx < y * k + ry
  {
    assert x * k + k <= y * k by { MulLeft(x + 1, y, k); }
  }

  lemma MulLeft(x: nat, y: nat, k: nat)
    requires x <= y
    ensures x * k <= y * k
  {
  }

  /**
   * Timestamps rendered by `Long.toString` sort as numbers exactly when
   * their renderings have the same length.
   */
  lemma TimestampOrder(a: nat, b: nat)
    requires |NatString(a)| == |NatString(b)|
    ensures LexLeq(NatString(a), NatString(b)) <==> a <= b
  {
    LexLeqDigits(NatString(a), NatString(b));
  }

  /** With different lengths the string order can disagree: "10" sorts before "9". */
  lemma TimestampOrderNeedsEqualLength()
    ensures NatString(9) == "9" && NatString(10) == "10"
    ensures LexLeq(NatString(10), NatString(9)) && !LexLeq(NatString(9), NatString(10))
  {
    assert NatString(1) == "1";
    assert NatString(10) == NatString(1) + [DigitChar(0)];
  }
}
