/**
 * The two conversions between strings and Numbers that the flashcard script performs:
 * the global `parseInt(string)` with no radix argument, and the decimal form a Number takes
 * when `Array.prototype.join` turns it into text.  Numbers are modelled as unbounded
 * integers; `None` stands for NaN.
 */
module JsNumbers {
  import opened Wrappers
  import opened JsStrings

  /** Whether `c` is a digit in base `radix` (10, or 16 after a `0x` prefix). */
  predicate IsDigit(c: char, radix: nat) {
    ('0' <= c <= '9') || (radix == 16 && (('a' <= c <= 'f') || ('A' <= c <= 'F')))
  }

  function DigitValue(c: char): (d: nat)
    requires IsDigit(c, 16)
    ensures d < 16
    ensures IsDigit(c, 10) <==> d < 10
  {
    if '0' <= c <= '9' then c as int - '0' as int
    else if 'a' <= c <= 'f' then c as int - 'a' as int + 10
    else c as int - 'A' as int + 10
  }

  predicate AllDigits(s: string, radix: nat) {
    forall i :: 0 <= i < |s| ==> IsDigit(s[i], radix)
  }

  /** Length of the longest prefix of `s` made of base-`radix` digits. */
  function DigitRun(s: string, radix: nat): (n: nat)
    ensures n <= |s|
    ensures AllDigits(s[..n], radix)
    ensures n < |s| ==> !IsDigit(s[n], radix)
  {
    if |s| > 0 && IsDigit(s[0], radix) then
      var n := 1 + DigitRun(s[1..], radix);
      assert forall i :: 1 <= i < n ==> s[..n][i] == s[1..][..n - 1][i - 1];
      n
    else 0
  }

  /** The value of a string of base-`radix` digits, most significant first. */
  function DigitsValue(s: string, radix: nat): nat
    requires radix == 10 || radix == 16
    requires AllDigits(s, radix)
  {
    if s == [] then 0
    else
      assert AllDigits(s[..|s| - 1], radix);
      DigitsValue(s[..|s| - 1], radix) * radix + DigitValue(s[|s| - 1])
  }

  /**
   * `parseInt(s)` with the radix left out: skip leading whitespace, take an optional sign,
   * read base 16 after a `0x`/`0X` prefix and base 10 otherwise, and convert the longest
   * run of digits that follows; NaN (`None`) when that run is empty.
   */
  function ParseInt(s: string): (r: Option<int>)
    ensures r.Some? ==> exists i :: 0 <= i < |s| && IsDigit(s[i], 10)
    ensures r.Some? && r.value < 0 ==> '-' in s
  {
    var k := LeadingSpace(s);
    var n := ParseSigned(s[k..]);
    if n.Some? then
      var t := s[k..];
      assert IsDigit(t[0], 10) ==> IsDigit(s[k], 10);
      assert |t| > 1 && IsDigit(t[1], 10) ==> IsDigit(s[k + 1], 10);
      assert t[0] == s[k];
      n
    else n
  }

  /**
   * `parseInt` from its first non-whitespace character on: the sign, then the magnitude.
   * A number needs a digit right at the start or right after the sign.
   */
  function ParseSigned(t: string): (r: Option<int>)
    ensures r.Some? ==> |t| > 0 && (IsDigit(t[0], 10) || (|t| > 1 && (t[0] == '-' || t[0] == '+') && IsDigit(t[1], 10)))
    ensures r.Some? && r.value < 0 ==> t[0] == '-'
  {
    if |t| > 0 && (t[0] == '-' || t[0] == '+') then
      match ParseMagnitude(t[1..])
      case None => None
      case Some(m) => Some(if t[0] == '-' then -(m as int) else m)
    else
      match ParseMagnitude(t)
      case None => None
      case Some(m) => Some(m)
  }

  /**
   * `parseInt` after the sign: the radix prefix, then the longest run of digits.  A number
   * starts with a decimal digit (the `0` of a `0x` prefix included).
   */
  function ParseMagnitude(u: string): (r: Option<nat>)
    ensures r.Some? ==> |u| > 0 && IsDigit(u[0], 10)
    ensures |u| > 0 && IsDigit(u[0], 10) && !(|u| >= 2 && u[0] == '0' && (u[1] == 'x' || u[1] == 'X')) ==> r.Some?
  {
    var hex := |u| >= 2 && u[0] == '0' && (u[1] == 'x' || u[1] == 'X');
    var radix := if hex then 16 else 10;
    var v := if hex then u[2..] else u;
    var n := DigitRun(v, radix);
    if n == 0 then None else Some(DigitsValue(v[..n], radix))
  }

  function DigitChar(d: nat): (c: char)
    requires d < 10
    ensures IsDigit(c, 10) && DigitValue(c) == d
  {
    ('0' as int + d) as char
  }

  /** Decimal digits of `n`, most significant first, without leading zeros. */
  function DecimalDigits(n: nat): (r: string)
    ensures r != []
    ensures AllDigits(r, 10)
    ensures DigitsValue(r, 10) == n
    ensures |r| > 1 ==> r[0] != '0'
  {
    if n < 10 then [DigitChar(n)]
    else
      var r := DecimalDigits(n / 10) + [DigitChar(n % 10)];
      assert r[..|r| - 1] == DecimalDigits(n / 10);
      r
  }

  /** The text of an integral Number: an optional `-` followed by its decimal digits. */
  function NumberToString(n: int): (r: string)
    ensures r != []
    ensures forall i :: 0 <= i < |r| ==> IsDigit(r[i], 10) || (i == 0 && r[i] == '-')
    ensures r[0] == '-' <==> n < 0
    ensures var d := if n < 0 then r[1..] else r;
      d != [] && AllDigits(d, 10) && DigitsValue(d, 10) == (if n < 0 then -n else n) && (|d| > 1 ==> d[0] != '0')
  {
    if n < 0 then "-" + DecimalDigits(-n) else DecimalDigits(n)
  }

  /** Reading a run of decimal digits that stops at a non-digit gives the run's value. */
  lemma DecimalPrefix(digits: string, tail: string)
    requires digits != [] && AllDigits(digits, 10)
    requires tail == [] || !IsDigit(tail[0], 10)
    ensures DigitRun(digits + tail, 10) == |digits|
    ensures (digits + tail)[..|digits|] == digits
  {
  }

  /** Leading whitespace is skipped up to the first other character. */
  lemma {:induction false} LeadingSpaceOf(space: string, rest: string)
    requires forall i :: 0 <= i < |space| ==> IsWhiteSpace(space[i])
    requires rest == [] || !IsWhiteSpace(rest[0])
    ensures LeadingSpace(space + rest) == |space|
    decreases |space|
  {
    if space != [] {
      assert (space + rest)[1..] == space[1..] + rest;
      LeadingSpaceOf(space[1..], rest);
    } else {
      assert space + rest == rest;
    }
  }

  /** Without a `0x` prefix, a decimal integer is read up to the first non-digit. */
  lemma ParseMagnitudeDecimal(digits: string, tail: string)
    requires digits != [] && AllDigits(digits, 10)
    requires |digits| == 1 && digits[0] == '0' && tail != [] ==> tail[0] != 'x' && tail[0] != 'X'
    requires tail == [] || !IsDigit(tail[0], 10)
    ensures ParseMagnitude(digits + tail) == Some(DigitsValue(digits, 10))
  {
    var u := digits + tail;
    assert u[0] == digits[0];
    if |u| >= 2 {
      assert u[1] == (if |digits| > 1 then digits[1] else tail[0]);
      assert IsDigit(digits[0], 10);
      assert |digits| > 1 ==> IsDigit(digits[1], 10);
    }
    assert !(|u| >= 2 && u[0] == '0' && (u[1] == 'x' || u[1] == 'X'));
    DecimalPrefix(digits, tail);
    assert DigitRun(u, 10) == |digits|;
    assert u[..|digits|] == digits;
  }

  /** A sign in front of a magnitude negates it (`-`) or leaves it as it is (`+`, none). */
  lemma ParseSignedOf(sign: string, u: string, m: nat)
    requires |sign| <= 1 && (sign != [] ==> sign[0] == '-' || sign[0] == '+')
    requires u != [] && u[0] != '-' && u[0] != '+'
    requires ParseMagnitude(u) == Some(m)
    ensures ParseSigned(sign + u).Some?
    ensures ParseSigned(sign + u).value == if sign != [] && sign[0] == '-' then -(m as int) else m
  {
    var t := sign + u;
    if sign == [] {
      assert t == u;
    } else {
      assert t[0] == sign[0];
      assert t[1..] == u;
    }
  }

  /** After the sign, a decimal integer is read up to the first non-digit. */
  lemma ParseSignedPrefix(sign: string, digits: string, tail: string)
    requires |sign| <= 1 && (sign != [] ==> sign[0] == '-' || sign[0] == '+')
    requires digits != [] && AllDigits(digits, 10)
    requires |digits| == 1 && digits[0] == '0' && tail != [] ==> tail[0] != 'x' && tail[0] != 'X'
    requires tail == [] || !IsDigit(tail[0], 10)
    ensures ParseSigned(sign + (digits + tail)).Some?
    ensures ParseSigned(sign + (digits + tail)).value
         == if sign != [] && sign[0] == '-' then -(DigitsValue(digits, 10) as int) else DigitsValue(digits, 10)
  {
    var u := digits + tail;
    assert IsDigit(u[0], 10);
    ParseMagnitudeDecimal(digits, tail);
    ParseSignedOf(sign, u, DigitsValue(digits, 10));
  }

  /** A run of hexadecimal digits that stops at a non-digit is read whole. */
  lemma HexPrefix(digits: string, tail: string)
    requires AllDigits(digits, 16)
    requires tail == [] || !IsDigit(tail[0], 16)
    ensures DigitRun(digits + tail, 16) == |digits|
    ensures (digits + tail)[..|digits|] == digits
  {
  }

  /**
   * After a `0x` or `0X` prefix, the hexadecimal digits up to the first non-digit are read
   * in base 16; with no such digit the result is NaN, even though the `0` was a digit.
   */
  lemma ParseMagnitudeHex(x: char, digits: string, tail: string)
    requires x == 'x' || x == 'X'
    requires AllDigits(digits, 16)
    requires tail == [] || !IsDigit(tail[0], 16)
    ensures digits == [] ==> ParseMagnitude("0" + [x] + (digits + tail)) == None
    ensures digits != [] ==> ParseMagnitude("0" + [x] + (digits + tail)) == Some(DigitsValue(digits, 16))
  {
    var u := "0" + [x] + (digits + tail);
    assert u[0] == '0' && u[1] == x;
    assert u[2..] == digits + tail;
    HexPrefix(digits, tail);
  }

  /** Leading whitespace does not change what `parseInt` reads. */
  lemma ParseIntSkipsSpace(space: string, rest: string)
    requires forall i :: 0 <= i < |space| ==> IsWhiteSpace(space[i])
    requires rest == [] || !IsWhiteSpace(rest[0])
    ensures ParseInt(space + rest) == ParseSigned(rest)
  {
    LeadingSpaceOf(space, rest);
    assert (space + rest)[|space|..] == rest;
  }

  /**
   * After leading whitespace, text that starts with neither a digit nor a sign followed by a
   * digit is NaN to `parseInt`.
   */
  lemma ParseIntNoDigit(space: string, rest: string)
    requires forall i :: 0 <= i < |space| ==> IsWhiteSpace(space[i])
    requires rest == [] || !IsWhiteSpace(rest[0])
    requires rest == [] || !IsDigit(rest[0], 10)
    requires |rest| < 2 || !((rest[0] == '-' || rest[0] == '+') && IsDigit(rest[1], 10))
    ensures ParseInt(space + rest) == None
  {
    ParseIntSkipsSpace(space, rest);
  }

  /** Signs and digits are not whitespace. */
  lemma SignOrDigitNotSpace(c: char)
    requires c == '-' || c == '+' || IsDigit(c, 10)
    ensures !IsWhiteSpace(c)
  {
  }

  /**
   * `parseInt` reads a leading decimal integer and ignores what follows it, after
   * optional leading whitespace and a `+` or `-` sign.
   */
  lemma ParseIntPrefix(space: string, sign: string, digits: string, tail: string)
    requires forall i :: 0 <= i < |space| ==> IsWhiteSpace(space[i])
    requires |sign| <= 1 && (sign != [] ==> sign[0] == '-' || sign[0] == '+')
    requires digits != [] && AllDigits(digits, 10)
    requires |digits| == 1 && digits[0] == '0' && tail != [] ==> tail[0] != 'x' && tail[0] != 'X'
    requires tail == [] || !IsDigit(tail[0], 10)
    ensures ParseInt(space + (sign + (digits + tail))).Some?
    ensures ParseInt(space + (sign + (digits + tail))).value
         == if sign != [] && sign[0] == '-' then -(DigitsValue(digits, 10) as int) else DigitsValue(digits, 10)
  {
    var rest := sign + (digits + tail);
    if sign != [] {
      assert rest[0] == sign[0];
      SignOrDigitNotSpace(sign[0]);
    } else {
      assert rest[0] == digits[0];
      SignOrDigitNotSpace(digits[0]);
    }
    ParseSignedPrefix(sign, digits, tail);
    ParseIntSkipsSpace(space, rest);
  }

  /** Parsing the text of an integral Number gives the Number back. */
  lemma ParseIntOfNumber(n: int)
    ensures ParseInt(NumberToString(n)) == Some(n)
  {
    var s := NumberToString(n);
    if n < 0 {
      var digits := DecimalDigits(-n);
      ParseIntPrefix("", "-", digits, "");
      assert s == "" + ("-" + (digits + ""));
    } else {
      var digits := DecimalDigits(n);
      ParseIntPrefix("", "", digits, "");
      assert s == "" + ("" + (digits + ""));
    }
    var r := ParseInt(s);
    assert r.Some? && r.value == n;
  }

  /** The text `NaN` is not a number to `parseInt`. */
  lemma ParseIntNaN()
    ensures ParseInt("NaN") == None
  {
    assert LeadingSpace("NaN") == 0;
    assert DigitRun("NaN", 10) == 0;
  }

  /** The hexadecimal quirk: `parseInt("0x1F")` is 31 and `parseInt("0x")` is NaN. */
  lemma ParseIntHexPrefix()
    ensures ParseInt("0x1F") == Some(31)
    ensures ParseInt("0x") == None
  {
    assert LeadingSpace("0x1F") == 0;
    assert "0x1F"[2..] == "1F";
    assert DigitRun("1F", 16) == 2;
    assert "1F"[..2] == "1F";
    assert "1F"[..1] == "1";
    assert DigitsValue("1", 16) == 1;
    assert DigitsValue("1F", 16) == 31;
    assert LeadingSpace("0x") == 0;
    assert "0x"[2..] == "";
  }
}
