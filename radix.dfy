/**
 * Reading and writing unsigned integers as digit strings, the way Rust's
 * `from_str_radix` / `str::parse` and `format!("{:0NX}", ..)` do it.
 * Used by the column of a board move, the quote page tokens and the
 * lockfile checksums.
 */
module Radix {
  import opened Wrappers

  function Pow(base: nat, n: nat): (r: nat)
    ensures base > 0 ==> r > 0
  {
    if n == 0 then 1 else base * Pow(base, n - 1)
  }

  /** The value of `c` as a digit of base `radix` (2..16), as `char::to_digit` reads it. */
  function DigitValue(c: char, radix: nat): (r: Option<nat>)
    requires 2 <= radix <= 16
    ensures r.Some? ==> r.value < radix
    ensures r.Some? ==> ('0' <= c <= '9' || 'a' <= c <= 'f' || 'A' <= c <= 'F')
  {
    var v :=
      if '0' <= c <= '9' then c as int - '0' as int
      else if 'a' <= c <= 'f' then c as int - 'a' as int + 10
      else if 'A' <= c <= 'F' then c as int - 'A' as int + 10
      else 16;
    if v < radix then Some(v) else None
  }

  predicate AllDigits(s: string, radix: nat)
    requires 2 <= radix <= 16
  {
    forall i :: 0 <= i < |s| ==> DigitValue(s[i], radix).Some?
  }

  /** The number that the digit string `s` (most significant digit first) denotes. */
  function Value(s: string, radix: nat): (r: nat)
    requires 2 <= radix <= 16
    requires AllDigits(s, radix)
    ensures r < Pow(radix, |s|)
  {
    if s == [] then 0
    else
      var d := DigitValue(s[|s| - 1], radix).value;
      assert AllDigits(s[..|s| - 1], radix);
      var high := Value(s[..|s| - 1], radix);
      AppendDigitBound(high, d, radix, Pow(radix, |s| - 1));
      high * radix + d
  }

  lemma MulMonotone(a: nat, b: nat, c: nat)
    requires a <= b
    ensures a * c <= b * c
  {
  }

  /** Appending a digit to a number below `p` gives a number below `p * radix`. */
  lemma AppendDigitBound(high: nat, d: nat, radix: nat, p: nat)
    requires high < p && d < radix
    ensures high * radix + d < p * radix
  {
    MulMonotone(high + 1, p, radix);
    Distrib(radix, high, 1);
  }

  lemma MulBounds(d: nat, k: int)
    ensures k >= 1 ==> d * k >= d
    ensures k <= -1 ==> d * k <= -(d as int)
  {
  }

  /** A number below `d * p` divided by `d` is below `p`. */
  lemma DivBelow(x: nat, d: nat, p: nat)
    requires 0 < d && x < d * p
    ensures x / d < p
  {
    if x / d >= p {
      MulMonotone(p, x / d, d);
    }
  }

  lemma DivUnique(x: nat, d: nat, q: nat, r: nat)
    requires 0 < d && r < d && x == d * q + r
    ensures x / d == q && x % d == r
  {
    var q', r' := x / d, x % d;
    assert d * (q' - q) == r - r';
    MulBounds(d, q' - q);
  }

  lemma Distrib(a: nat, u: nat, v: nat)
    ensures a * (u + v) == a * u + a * v
  {
  }

  lemma Assoc(a: nat, b: nat, c: nat)
    ensures a * (b * c) == (a * b) * c
  {
  }

  lemma Regroup(x: nat, a: nat, b: nat, y: nat, q: nat, r2: nat, r: nat)
    requires r < a && r2 < b && x == a * y + r && y == b * q + r2
    ensures x == (a * b) * q + (a * r2 + r) && a * r2 + r < a * b
  {
    Distrib(a, b * q, r2);
    Assoc(a, b, q);
    MulMonotone(r2 + 1, b, a);
    Distrib(a, r2, 1);
  }

  lemma DivDiv(x: nat, a: nat, b: nat)
    requires 0 < a && 0 < b
    ensures x / (a * b) == (x / a) / b
  {
    var y := x / a;
    Regroup(x, a, b, y, y / b, y % b, x % a);
    DivUnique(x, a * b, y / b, a * (y % b) + x % a);
  }

  /**
   * `from_str_radix(s, radix)` for an unsigned type whose values are
   * `0 .. limit - 1`: one optional leading '+', then at least one digit,
   * and a value that fits; anything else is an error (None).
   */
  function Parse(s: string, radix: nat, limit: nat): (r: Option<nat>)
    requires 2 <= radix <= 16
    ensures r.Some? ==> r.value < limit
    ensures s == [] || s == "+" ==> r == None
    ensures r.Some? ==> Digits(s) != [] && AllDigits(Digits(s), radix) && r.value == Value(Digits(s), radix)
  {
    if s == [] then None
    else
      var digits := Digits(s);
      if digits == [] || !AllDigits(digits, radix) then None
      else if Value(digits, radix) < limit then Some(Value(digits, radix))
      else None
  }

  /** The digits of `s`: what follows the optional leading '+'. */
  function Digits(s: string): (r: string)
    ensures |s| > 0 && s[0] == '+' ==> r == s[1..]
    ensures |s| == 0 || s[0] != '+' ==> r == s
  {
    if |s| > 0 && s[0] == '+' then s[1..] else s
  }

  /** A string holding a character that is no digit (other than a leading '+') does not parse. */
  lemma {:induction false} ParseRejectsNonDigit(s: string, radix: nat, limit: nat, i: nat)
    requires 2 <= radix <= 16
    requires i < |s| && DigitValue(s[i], radix) == None
    requires !(i == 0 && s[0] == '+')
    ensures Parse(s, radix, limit) == None
  {
    var digits := Digits(s);
    if s[0] == '+' {
      assert digits[i - 1] == s[i];
    } else {
      assert digits[i] == s[i];
    }
  }

  /** A well-formed digit string whose value does not fit is an overflow error. */
  lemma ParseRejectsOverflow(s: string, radix: nat, limit: nat)
    requires 2 <= radix <= 16
    requires Digits(s) != [] && AllDigits(Digits(s), radix)
    ensures Parse(s, radix, limit).Some? <==> Value(Digits(s), radix) < limit
  {
  }

  /** The upper-case hexadecimal digit for `d`. */
  function HexDigit(d: nat): (c: char)
    requires d < 16
    ensures DigitValue(c, 16) == Some(d)
    ensures '0' <= c <= '9' || 'A' <= c <= 'F'
  {
    if d < 10 then ('0' as int + d) as char else ('A' as int + d - 10) as char
  }

  /**
   * `format!("{:0wX}", x)` for an `x` with at most `width` hex digits:
   * upper-case, most significant digit first, zero-padded to `width`.
   */
  function UpperHex(x: nat, width: nat): (r: string)
    ensures |r| == width
    ensures forall i :: 0 <= i < |r| ==> '0' <= r[i] <= '9' || 'A' <= r[i] <= 'F'
  {
    if width == 0 then [] else UpperHex(x / 16, width - 1) + [HexDigit(x % 16)]
  }

  /** Appending one digit multiplies the value by the radix and adds the digit. */
  lemma AppendDigit(s: string, c: char, radix: nat)
    requires 2 <= radix <= 16
    requires AllDigits(s, radix) && DigitValue(c, radix).Some?
    ensures AllDigits(s + [c], radix)
    ensures Value(s + [c], radix) == Value(s, radix) * radix + DigitValue(c, radix).value
  {
    var t := s + [c];
    assert t[..|t| - 1] == s;
  }

  /** Reading back what `UpperHex` wrote gives the number again. */
  lemma {:induction false} UpperHexValue(x: nat, width: nat)
    requires x < Pow(16, width)
    ensures AllDigits(UpperHex(x, width), 16)
    ensures Value(UpperHex(x, width), 16) == x
  {
    if width > 0 {
      var high, low := x / 16, x % 16;
      DivBelow(x, 16, Pow(16, width - 1));
      UpperHexValue(high, width - 1);
      var s, c := UpperHex(high, width - 1), HexDigit(low);
      assert UpperHex(x, width) == s + [c];
      AppendDigit(s, c, 16);
      assert Value(s + [c], 16) == high * 16 + low;
    }
  }

  /** Parsing `UpperHex(x, width)` as hex gives `x` back whenever `x` fits the limit. */
  lemma ParseUpperHex(x: nat, width: nat, limit: nat)
    requires 0 < width && x < Pow(16, width) && x < limit
    ensures Parse(UpperHex(x, width), 16, limit) == Some(x)
  {
    UpperHexValue(x, width);
    var r := UpperHex(x, width);
    assert r[0] != '+';
    assert Digits(r) == r;
  }

  /** `n.to_string()`: decimal digits, most significant first, no leading zero. */
  function Decimal(n: nat): (r: string)
    ensures |r| > 0 && (forall i :: 0 <= i < |r| ==> '0' <= r[i] <= '9')
    ensures |r| > 1 ==> r[0] != '0'
  {
    if n < 10 then [HexDigit(n)] else Decimal(n / 10) + [HexDigit(n % 10)]
  }

  /** Reading back the decimal digits of `n` gives `n`. */
  lemma {:induction false} DecimalValue(n: nat)
    ensures AllDigits(Decimal(n), 10) && Value(Decimal(n), 10) == n
  {
    if n >= 10 {
      DecimalValue(n / 10);
      AppendDigit(Decimal(n / 10), HexDigit(n % 10), 10);
    }
  }
}
