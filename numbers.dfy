/**
 * Decimal text for the two numeric fields of a game: the release year, a Java
 * `int` printed with `%d` / `String.valueOf` and read back with
 * `Integer.parseInt`, and the rating, kept as whole tenths, printed with
 * `%.1f` and read back by `Double.parseDouble`.
 */
module Numbers {
  import opened Wrappers
  import opened JavaText

  /** A Java `int`. */
  type Int32 = x: int | -0x8000_0000 <= x <= 0x7FFF_FFFF

  predicate IsDigit(c: char) { '0' <= c <= '9' }

  predicate AllDigits(s: string) {
    forall i :: 0 <= i < |s| ==> IsDigit(s[i])
  }

  function DigitChar(d: nat): (c: char)
    requires d < 10
    ensures IsDigit(c)
  {
    ('0' as int + d) as char
  }

  function DigitValue(c: char): (d: nat)
    requires IsDigit(c)
    ensures d < 10 && DigitChar(d) == c
  {
    c as int - '0' as int
  }

  /** The decimal digits of `n`, without leading zeros. */
  function NatToString(n: nat): (s: string)
    ensures |s| > 0 && AllDigits(s)
    decreases n
  {
    if n < 10 then [DigitChar(n)] else NatToString(n / 10) + [DigitChar(n % 10)]
  }

  /** The value of a run of decimal digits. */
  function DigitsValue(s: string): nat
    requires AllDigits(s)
  {
    if s == [] then 0 else DigitsValue(s[..|s| - 1]) * 10 + DigitValue(s[|s| - 1])
  }

  lemma {:induction false} DigitsValueOfNat(n: nat)
    ensures DigitsValue(NatToString(n)) == n
    decreases n
  {
    var s := NatToString(n);
    if n >= 10 {
      assert s[..|s| - 1] == NatToString(n / 10);
      DigitsValueOfNat(n / 10);
    }
  }

  /** `String.valueOf(int)` and `%d`. */
  function IntToString(x: int): (s: string)
    ensures |s| > 0
  {
    if x < 0 then "-" + NatToString(-x) else NatToString(x)
  }

  /** A `-` sign or digits: the characters `IntToString` may produce. */
  predicate IsNumeral(c: char) { IsDigit(c) || c == '-' }

  lemma IntToStringChars(x: int)
    ensures forall i :: 0 <= i < |IntToString(x)| ==> IsNumeral(IntToString(x)[i])
    ensures x >= 0 ==> AllDigits(IntToString(x))
  {
  }

  /**
   * `Integer.parseInt`: an optional sign, then one or more digits, and the
   * value must fit in an `int`; anything else throws `NumberFormatException`,
   * here `None`.
   */
  function ParseInt(s: string): Option<Int32>
  {
    if s == [] then None
    else
      var signed := s[0] == '-' || s[0] == '+';
      var digits := if signed then s[1..] else s;
      if digits == [] || !AllDigits(digits) then None
      else
        var m: int := DigitsValue(digits);
        var v := if s[0] == '-' then -m else m;
        if -0x8000_0000 <= v <= 0x7FFF_FFFF then Some(v) else None
  }

  /** What `%d` prints, `Integer.parseInt` reads back. */
  lemma ParseIntToString(x: Int32)
    ensures ParseInt(IntToString(x)) == Some(x)
  {
    var s := IntToString(x);
    if x < 0 {
      var d := NatToString(-(x as int));
      assert s == "-" + d && s[0] == '-' && s[1..] == d;
      DigitsValueOfNat(-(x as int));
    } else {
      var d := NatToString(x);
      assert s == d && IsDigit(s[0]);
      DigitsValueOfNat(x);
    }
  }

  /** `String.format("%.1f", t / 10.0)` for a rating of `t` tenths. */
  function TenthsToString(t: int): (s: string)
    ensures |s| >= 3
  {
    var a := if t < 0 then -t else t;
    (if t < 0 then "-" else "") + NatToString(a / 10) + "." + [DigitChar(a % 10)]
  }

  /**
   * `Double.parseDouble` on the decimal forms a rating is written in: an
   * optional sign, digits, and optionally a point and one more digit; the
   * value is returned in tenths.
   */
  function ParseTenths(s: string): Option<int>
  {
    var negative := |s| > 0 && s[0] == '-';
    var body := if |s| > 0 && (s[0] == '-' || s[0] == '+') then s[1..] else s;
    var n := |body|;
    if n >= 3 && body[n - 2] == '.' && AllDigits(body[..n - 2]) && IsDigit(body[n - 1]) then
      var v := DigitsValue(body[..n - 2]) * 10 + DigitValue(body[n - 1]);
      Some(if negative then -(v as int) else v)
    else if n >= 1 && AllDigits(body) then
      var v := DigitsValue(body) * 10;
      Some(if negative then -(v as int) else v)
    else None
  }

  /** What `%.1f` prints, the rating parser reads back. */
  lemma ParseTenthsToString(t: int)
    ensures ParseTenths(TenthsToString(t)) == Some(t)
  {
    var a := if t < 0 then -t else t;
    var s := TenthsToString(t);
    var body := NatToString(a / 10) + "." + [DigitChar(a % 10)];
    if t < 0 {
      assert s == "-" + body && s[1..] == body;
    } else {
      assert s == body;
    }
    var n := |body|;
    assert body[..n - 2] == NatToString(a / 10);
    DigitsValueOfNat(a / 10);
  }

  /** No character of a formatted rating is a separator used by the file formats. */
  lemma TenthsToStringChars(t: int)
    ensures forall i :: 0 <= i < |TenthsToString(t)| ==>
      IsNumeral(TenthsToString(t)[i]) || TenthsToString(t)[i] == '.'
  {
  }

  /** `Double.parseDouble` first drops blanks at both ends, then reads the number. */
  function ParseDouble(s: string): Option<int> {
    ParseTenths(Trim(s))
  }

  lemma IntToStringTrimmed(x: int)
    ensures IsTrimmed(IntToString(x))
  {
    IntToStringChars(x);
  }

  lemma TenthsToStringTrimmed(t: int)
    ensures IsTrimmed(TenthsToString(t))
  {
    TenthsToStringChars(t);
  }

  /** What `%.1f` prints, `Double.parseDouble` reads back. */
  lemma ParseDoubleToString(t: int)
    ensures ParseDouble(TenthsToString(t)) == Some(t)
  {
    TenthsToStringTrimmed(t);
    TrimOfTrimmed(TenthsToString(t));
    ParseTenthsToString(t);
  }

  /** What `%d` prints, read back after `trim`, is the same number. */
  lemma ParseIntTrimmedToString(x: Int32)
    ensures ParseInt(Trim(IntToString(x))) == Some(x)
  {
    IntToStringTrimmed(x);
    TrimOfTrimmed(IntToString(x));
    ParseIntToString(x);
  }
}
