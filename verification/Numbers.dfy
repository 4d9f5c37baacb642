/** Digits and numerals: what libkc/src/strtoul.c reads and libkc/src/fmt.c writes. */
module Numerals {
  import opened Powers
  import opened Division

  const ULONG_MAX: nat := 0xFFFF_FFFF_FFFF_FFFF

  /** The character at `i` of a string that ends with a zero byte. */
  function CharAt(s: string, i: nat): char {
    if i < |s| then s[i] else '\0'
  }

  function DigitValue(ch: char): int {
    if '0' <= ch <= '9' then ch as int - '0' as int
    else if 'a' <= ch <= 'z' then ch as int - 'a' as int + 10
    else if 'A' <= ch <= 'Z' then ch as int - 'A' as int + 10
    else -1
  }

  predicate IsDigit(ch: char, base: nat) {
    0 <= DigitValue(ch) < base
  }

  predicate IsSpace(ch: char) {
    ch == ' ' || ch == '\t' || ch == '\n' || ch == '\r' || ch == '\U{0C}' || ch == '\U{0B}'
  }

  ghost predicate AllDigits(s: string, base: nat) {
    forall i :: 0 <= i < |s| ==> IsDigit(s[i], base)
  }

  /** The number that a string of digits denotes. */
  function Value(s: string, base: nat): nat
    requires AllDigits(s, base)
  {
    if s == [] then 0
    else
      assert IsDigit(s[|s| - 1], base);
      Value(s[..|s| - 1], base) * base + DigitValue(s[|s| - 1])
  }

  /** The digit for `d`, as in the tables of `utoa_rev`. */
  function Digit(d: nat, upper: bool): (ch: char)
    requires d < 16
    ensures DigitValue(ch) == d && ch != '\0'
  {
    if d < 10 then '0' + d as char else if upper then 'A' + (d - 10) as char else 'a' + (d - 10) as char
  }

  /** Where the digits begin and end, and that they follow each other in between. */
  lemma DigitOrder(ch: char, next: char)
    requires ch as int + 1 == next as int
    requires '0' <= ch < '9' || 'a' <= ch < 'z' || 'A' <= ch < 'Z'
    ensures DigitValue(next) == DigitValue(ch) + 1
    ensures DigitValue('0') == 0 && DigitValue('9') == 9 && DigitValue('a') == DigitValue('A') == 10
    ensures Digit(0, true) == Digit(0, false) == '0' && Digit(9, true) == Digit(9, false) == '9'
    ensures Digit(10, true) == 'A' && Digit(15, true) == 'F' && Digit(10, false) == 'a' && Digit(15, false) == 'f'
  {}

  /** The digits of `v`, most significant first. */
  function Numeral(v: nat, base: nat, upper: bool): (s: string)
    requires 2 <= base <= 16
    ensures |s| >= 1
    decreases v
  {
    if v < base then [Digit(v, upper)] else
      Quotient(v, base);
      Numeral(v / base, base, upper) + [Digit(v % base, upper)]
  }

  lemma Quotient(v: nat, base: nat)
    requires base >= 2 && v > 0
    ensures v / base < v && (v / base == 0 <==> v < base) && (v < base ==> v % base == v)
  {
    DivMod(v, base);
    TimesAtLeast(v / base, base);
    if v < base {
      DivUnique(v, base, 0, v);
    } else {
      assert (v / base) * base >= 2 * (v / base);
    }
  }

  /** Reading a numeral gives the number back. */
  lemma {:induction false} ValueOfNumeral(v: nat, base: nat, upper: bool)
    requires 2 <= base <= 16
    ensures AllDigits(Numeral(v, base, upper), base) && Value(Numeral(v, base, upper), base) == v
    decreases v
  {
    if v < base {
      ValueOne(Digit(v, upper), base);
    } else {
      var q, ch := v / base, Digit(v % base, upper);
      DivMod(v, base);
      Quotient(v, base);
      ValueOfNumeral(q, base, upper);
      ValueAppend(Numeral(q, base, upper), ch, base);
    }
  }

  lemma ValueOne(ch: char, base: nat)
    requires IsDigit(ch, base)
    ensures Value([ch], base) == DigitValue(ch)
  {
    var digits := [ch];
    assert digits[..0] == [];
    assert Value([], base) * base == 0;
  }

  /** A numeral starts with zero only for zero. */
  lemma {:induction false} NumeralStart(v: nat, base: nat, upper: bool)
    requires 2 <= base <= 16
    ensures Numeral(v, base, upper)[0] == '0' <==> v == 0
    decreases v
  {
    if v >= base {
      Quotient(v, base);
      NumeralStart(v / base, base, upper);
    } else {
      assert DigitValue(Digit(v, upper)) == v;
    }
  }

  lemma OneDigitLess(v: nat, base: nat, k: nat)
    requires 2 <= base <= v < Pow2(k) && k > 0
    ensures k >= 2 && v / base < Pow2(k - 1)
  {
    var p := Pow2(k - 1);
    TimesAtLeast(p, base - 2);
    assert p * base == p * (base - 2) + p * 2;
    DivBelow(v, p, base);
  }

  lemma {:induction false} NumeralLength(v: nat, base: nat, upper: bool, k: nat)
    requires 2 <= base <= 16 && v < Pow2(k) && k > 0
    ensures |Numeral(v, base, upper)| <= k
    decreases v
  {
    if v >= base {
      OneDigitLess(v, base, k);
      Quotient(v, base);
      NumeralLength(v / base, base, upper, k - 1);
    }
  }

  function Zeros(n: nat): string {
    seq(n, _ => '0')
  }

  function Spaces(n: nat): string {
    seq(n, _ => ' ')
  }

  lemma ValueAppend(s: string, ch: char, base: nat)
    requires AllDigits(s, base) && IsDigit(ch, base)
    ensures AllDigits(s + [ch], base) && Value(s + [ch], base) == Value(s, base) * base + DigitValue(ch)
  {
    assert (s + [ch])[..|s|] == s;
  }

  lemma {:induction false} ValueZeros(n: nat, s: string, base: nat)
    requires base > 0 && AllDigits(s, base)
    ensures AllDigits(Zeros(n) + s, base) && Value(Zeros(n) + s, base) == Value(s, base)
    decreases n + |s|
  {
    var t := Zeros(n) + s;
    if s != [] {
      ValueZeros(n, s[..|s| - 1], base);
      assert t[..|t| - 1] == Zeros(n) + s[..|s| - 1];
    } else if n > 0 {
      ValueZeros(n - 1, [], base);
      assert t[..n - 1] == Zeros(n - 1) + [];
    }
  }
}

/** `kstrtoul` of libkc/src/strtoul.c. */
module Parsing {
  import opened Division
  import opened Numerals

  datatype Outcome = Ok(value: nat, end: nat) | OutOfRange(end: nat) | Invalid(end: nat)

  /** The first character from `i` on that is not a space. */
  function SpaceEnd(s: string, i: nat): (r: nat)
    requires i <= |s|
    ensures i <= r <= |s| && (forall j :: i <= j < r ==> IsSpace(s[j])) && !IsSpace(CharAt(s, r))
    decreases |s| - i
  {
    if i < |s| && IsSpace(s[i]) then SpaceEnd(s, i + 1) else i
  }

  /** The end of the digits that start at `i`. */
  function DigitEnd(s: string, i: nat, base: nat): (r: nat)
    requires i <= |s|
    ensures i <= r <= |s| && AllDigits(s[i..r], base) && !IsDigit(CharAt(s, r), base)
    decreases |s| - i
  {
    if i < |s| && IsDigit(s[i], base) then
      var r := DigitEnd(s, i + 1, base);
      assert s[i..r] == [s[i]] + s[i + 1..r];
      r
    else i
  }

  /** `0x` and a hexadecimal digit. */
  predicate HexPrefix(s: string, i: nat) {
    CharAt(s, i) == '0' && (CharAt(s, i + 1) == 'x' || CharAt(s, i + 1) == 'X') && IsDigit(CharAt(s, i + 2), 16)
  }

  function BaseAt(s: string, i: nat, base: nat): nat {
    if base != 0 then base else if HexPrefix(s, i) then 16 else if CharAt(s, i) == '0' then 8 else 10
  }

  function DigitsAt(s: string, i: nat, base: nat): (r: nat)
    requires i <= |s|
    ensures r <= |s|
  {
    if (base == 0 || base == 16) && HexPrefix(s, i) then i + 2 else i
  }

  /** What the string means: the longest run of digits behind spaces, a sign and a prefix. */
  function Parse(s: string, base: nat): Outcome {
    if base == 1 || base > 36 then Invalid(0)
    else
      var i := SpaceEnd(s, 0);
      if CharAt(s, i) == '-' then Invalid(i)
      else
        var j := if CharAt(s, i) == '+' then i + 1 else i;
        var b, k := BaseAt(s, j, base), DigitsAt(s, j, base);
        var end := DigitEnd(s, k, b);
        if end == k then Invalid(0)
        else if Value(s[k..end], b) > ULONG_MAX then OutOfRange(end)
        else Ok(Value(s[k..end], b), end)
  }

  ghost predicate AllSpaces(s: string) {
    forall i :: 0 <= i < |s| ==> IsSpace(s[i])
  }

  lemma SpaceEndIs(s: string, p: nat)
    requires p <= |s| && AllSpaces(s[..p]) && !IsSpace(CharAt(s, p))
    ensures SpaceEnd(s, 0) == p
  {
    forall i | 0 <= i < p
      ensures IsSpace(s[i])
    {
      assert s[..p][i] == s[i];
    }
  }

  lemma DigitEndIs(s: string, k: nat, p: nat, base: nat)
    requires k <= p <= |s| && AllDigits(s[k..p], base) && !IsDigit(CharAt(s, p), base)
    ensures DigitEnd(s, k, base) == p
  {
    var r := DigitEnd(s, k, base);
    forall i | k <= i < p
      ensures IsDigit(s[i], base)
    {
      assert s[k..p][i - k] == s[i];
    }
    forall i | k <= i < r
      ensures IsDigit(s[i], base)
    {
      assert s[k..r][i - k] == s[i];
    }
  }

  /** Behind `i` spaces and perhaps a '+' the digits of `s` are those from `k` to `end`, in base
      `b`: a prefix that says so is not one of them. */
  ghost predicate Reading(s: string, base: nat, i: nat, k: nat, end: nat, b: nat) {
    && i <= |s| && AllSpaces(s[..i]) && !IsSpace(CharAt(s, i)) && CharAt(s, i) != '-'
    && var j := if CharAt(s, i) == '+' then i + 1 else i;
    && var zero := CharAt(s, j) == '0';
    && var hex := zero && (CharAt(s, j + 1) == 'x' || CharAt(s, j + 1) == 'X') && IsDigit(CharAt(s, j + 2), 16);
    && k == (if hex && (base == 0 || base == 16) then j + 2 else j)
    && b == (if base != 0 then base else if hex then 16 else if zero then 8 else 10)
    && k <= end <= |s| && AllDigits(s[k..end], b) && !IsDigit(CharAt(s, end), b)
  }

  lemma ParseReads(s: string, base: nat, i: nat, k: nat, end: nat, b: nat)
    requires (base == 0 || 2 <= base <= 36) && Reading(s, base, i, k, end, b)
    ensures Parse(s, base) ==
      if k == end then Invalid(0) else if Value(s[k..end], b) > ULONG_MAX then OutOfRange(end)
      else Ok(Value(s[k..end], b), end)
  {
    var j := if CharAt(s, i) == '+' then i + 1 else i;
    SpaceEndIs(s, i);
    ReadingAt(s, base, i, j, k, end, b);
    DigitEndIs(s, k, end, b);
    ParseFound(s, base, i, j, k, end, b);
  }

  lemma ReadingAt(s: string, base: nat, i: nat, j: nat, k: nat, end: nat, b: nat)
    requires Reading(s, base, i, k, end, b) && j == if CharAt(s, i) == '+' then i + 1 else i
    ensures j <= |s| && BaseAt(s, j, base) == b && DigitsAt(s, j, base) == k
  {}

  lemma ParseFound(s: string, base: nat, i: nat, j: nat, k: nat, end: nat, b: nat)
    requires (base == 0 || 2 <= base <= 36) && i == SpaceEnd(s, 0) && CharAt(s, i) != '-' && j <= |s|
    requires j == (if CharAt(s, i) == '+' then i + 1 else i) && b == BaseAt(s, j, base) && k == DigitsAt(s, j, base)
    requires end == DigitEnd(s, k, b)
    ensures Parse(s, base) ==
      if k == end then Invalid(0) else if Value(s[k..end], b) > ULONG_MAX then OutOfRange(end)
      else Ok(Value(s[k..end], b), end)
  {}

  /** Every string has a reading, unless a '-' follows the spaces. */
  lemma HasReading(s: string, base: nat) returns (i: nat, k: nat, end: nat, b: nat)
    requires base == 0 || 2 <= base <= 36
    ensures i <= |s| && AllSpaces(s[..i]) && (CharAt(s, i) == '-' || Reading(s, base, i, k, end, b))
  {
    i := SpaceEnd(s, 0);
    var j := if CharAt(s, i) == '+' then i + 1 else i;
    b, k := BaseAt(s, j, base), DigitsAt(s, j, base);
    end := DigitEnd(s, k, b);
  }

  lemma ParseIs(s: string, base: nat)
    requires base == 0 || 2 <= base <= 36
    ensures forall i :: 0 <= i < |s| && AllSpaces(s[..i]) && s[i] == '-' ==> Parse(s, base) == Invalid(i)
    ensures forall i: nat, k: nat, end: nat, b: nat :: Reading(s, base, i, k, end, b) ==>
      Parse(s, base) == if k == end then Invalid(0)
                        else if Value(s[k..end], b) > ULONG_MAX then OutOfRange(end) else Ok(Value(s[k..end], b), end)
  {
    forall i | 0 <= i < |s| && AllSpaces(s[..i]) && s[i] == '-'
      ensures Parse(s, base) == Invalid(i)
    {
      ParseMinus(s, base, i);
    }
    forall i: nat, k: nat, end: nat, b: nat | Reading(s, base, i, k, end, b)
      ensures Parse(s, base) == if k == end then Invalid(0)
                                else if Value(s[k..end], b) > ULONG_MAX then OutOfRange(end)
                                     else Ok(Value(s[k..end], b), end)
    {
      ParseReads(s, base, i, k, end, b);
    }
  }

  /** No number is negative. */
  lemma ParseMinus(s: string, base: nat, i: nat)
    requires (base == 0 || 2 <= base <= 36) && i < |s| && AllSpaces(s[..i]) && s[i] == '-'
    ensures Parse(s, base) == Invalid(i)
  {
    SpaceEndIs(s, i);
  }

  method SkipSpaces(s: string) returns (i: nat)
    ensures i == SpaceEnd(s, 0)
  {
    i := 0;
    while IsSpace(CharAt(s, i))
      invariant i <= |s| && SpaceEnd(s, i) == SpaceEnd(s, 0)
      decreases |s| - i
    {
      i := i + 1;
    }
  }

  /** `kstrtoul`; a base below 2 or above 36 is invalid. */
  method Kstrtoul(s: string, base: nat) returns (r: Outcome)
    ensures r == Parse(s, base) && (base == 1 || base > 36 ==> r == Invalid(0))
    ensures base == 0 || 2 <= base <= 36 ==>
      forall i :: 0 <= i < |s| && AllSpaces(s[..i]) && s[i] == '-' ==> r == Invalid(i)
    ensures base == 0 || 2 <= base <= 36 ==>
      forall i: nat, k: nat, end: nat, b: nat :: Reading(s, base, i, k, end, b) ==>
        r == if k == end then Invalid(0)
             else if Value(s[k..end], b) > ULONG_MAX then OutOfRange(end) else Ok(Value(s[k..end], b), end)
  {
    if base != 0 && (base < 2 || base > 36) {
      return Invalid(0);
    }
    ParseIs(s, base);
    r := ParseString(s, base);
  }

  /** The rest of `kstrtoul`, with a valid base. */
  method ParseString(s: string, base: nat) returns (r: Outcome)
    requires base == 0 || 2 <= base <= 36
    ensures r == Parse(s, base)
  {
    var i := SkipSpaces(s);
    if CharAt(s, i) == '-' {
      return Invalid(i);
    }
    if CharAt(s, i) == '+' {
      i := i + 1;
    }
    var b, k := FindBase(s, i, base);
    var value, end, overflow := ReadDigits(s, k, b);
    if end == k {
      return Invalid(0);
    }
    if overflow {
      return OutOfRange(end);
    }
    return Ok(value, end);
  }

  method FindBase(s: string, i: nat, base: nat) returns (b: nat, k: nat)
    requires i <= |s|
    ensures b == BaseAt(s, i, base) && k == DigitsAt(s, i, base)
  {
    b, k := base, i;
    if base == 0 {
      if HexPrefix(s, i) {
        b, k := 16, i + 2;
      } else if CharAt(s, i) == '0' {
        b := 8;
      } else {
        b := 10;
      }
    } else if base == 16 && HexPrefix(s, i) {
      k := i + 2;
    }
  }

  /** The digit loop of `kstrtoul`: never wraps, and notices exactly when the value is too large. */
  method ReadDigits(s: string, k: nat, base: nat) returns (value: nat, end: nat, overflow: bool)
    requires 2 <= base <= 36 && k <= |s|
    ensures end == DigitEnd(s, k, base) && value <= ULONG_MAX
    ensures overflow <==> Value(s[k..end], base) > ULONG_MAX
    ensures !overflow ==> value == Value(s[k..end], base)
  {
    value, end, overflow := 0, k, false;
    while IsDigit(CharAt(s, end), base)
      invariant k <= end <= |s| && DigitEnd(s, k, base) == DigitEnd(s, end, base) && AllDigits(s[k..end], base)
      invariant value <= ULONG_MAX
      invariant overflow <==> Value(s[k..end], base) > ULONG_MAX
      invariant !overflow ==> value == Value(s[k..end], base)
      decreases |s| - end
    {
      var digit := DigitValue(s[end]);
      assert s[k..end + 1] == s[k..end] + [s[end]];
      ValueAppend(s[k..end], s[end], base);
      if !overflow {
        TooLarge(value, digit, base);
        if value > (ULONG_MAX - digit) / base {
          overflow, value := true, ULONG_MAX;
        } else {
          value := value * base + digit;
        }
      } else {
        Grows(Value(s[k..end], base), base);
      }
      end := end + 1;
    }
  }

  /** The test that avoids the overflow is exact. */
  lemma TooLarge(value: nat, digit: nat, base: nat)
    requires base > 0 && digit <= ULONG_MAX
    ensures value > (ULONG_MAX - digit) / base <==> value * base + digit > ULONG_MAX
  {
    var q := (ULONG_MAX - digit) / base;
    DivMod(ULONG_MAX - digit, base);
    TimesAtLeast(value - q, base);
    assert (value - q) * base == value * base - q * base;
  }

  lemma Grows(value: nat, base: nat)
    requires base > 0
    ensures value * base >= value
  {}
}

/** `write_integer` of libkc/src/fmt.c. */
module Printing {
  import opened Wrappers
  import opened Powers
  import opened Division
  import opened Numerals

  const INT_MAX: nat := 0x7FFF_FFFF

  /** `precision` is negative when none was given. */
  datatype Flags = Flags(leftAdj: bool, plus: bool, space: bool, alt: bool, zeroPad: bool, width: nat, precision: int)

  // ---------------------------------------------------------------- what is written

  function Sign(negative: bool, flags: Flags): string {
    if negative then "-" else if flags.plus then "+" else if flags.space then " " else ""
  }

  function Digits(mag: nat, flags: Flags, base: nat, upper: bool): string
    requires 2 <= base <= 16
  {
    if flags.precision == 0 && mag == 0 then (if flags.alt && base == 8 then "0" else "")
    else Numeral(mag, base, upper)
  }

  function Prefix(mag: nat, flags: Flags, base: nat, upper: bool): string {
    if flags.alt && base == 16 && mag != 0 then (if upper then "0X" else "0x") else ""
  }

  /** The precision, raised by the alternate form of octal numbers so that a zero comes first. */
  function Precision(mag: nat, flags: Flags, base: nat, digits: nat): int {
    if flags.alt && base == 8 && mag != 0 && flags.precision <= digits then digits + 1 else flags.precision
  }

  function ZeroCount(mag: nat, negative: bool, flags: Flags, base: nat, upper: bool): nat
    requires 2 <= base <= 16
  {
    var n := |Digits(mag, flags, base, upper)|;
    var p := Precision(mag, flags, base, n);
    var zeroes := if p > n then p - n else 0;
    var total := n + zeroes + |Prefix(mag, flags, base, upper)| + |Sign(negative, flags)|;
    if p < 0 && flags.zeroPad && !flags.leftAdj && flags.width > total then zeroes + (flags.width - total) else zeroes
  }

  /** Sign, prefix, zeros and digits. */
  function Body(mag: nat, negative: bool, flags: Flags, base: nat, upper: bool): string
    requires 2 <= base <= 16
  {
    Sign(negative, flags) + Prefix(mag, flags, base, upper) + Zeros(ZeroCount(mag, negative, flags, base, upper))
      + Digits(mag, flags, base, upper)
  }

  function Format(mag: nat, negative: bool, flags: Flags, base: nat, upper: bool): string
    requires 2 <= base <= 16
  {
    var body := Body(mag, negative, flags, base, upper);
    var pad := Spaces(if flags.width > |body| then flags.width - |body| else 0);
    if flags.leftAdj then body + pad else pad + body
  }

  // ---------------------------------------------------------------- what it means

  /** Letters are of one case. */
  ghost predicate Cased(s: string, upper: bool) {
    forall i :: 0 <= i < |s| ==> '0' <= s[i] <= '9' || (if upper then 'A' <= s[i] <= 'Z' else 'a' <= s[i] <= 'z')
  }

  /** The number in a base, as short as can be; nothing for a zero that needs no digit. */
  ghost predicate Denotes(digits: string, mag: nat, base: nat, upper: bool, needed: bool) {
    && AllDigits(digits, base) && Value(digits, base) == mag && Cased(digits, upper)
    && (mag > 0 ==> digits != [] && digits[0] != '0') && (mag == 0 ==> digits == if needed then "0" else "")
  }

  function Max(a: int, b: int): int {
    if a < b then b else a
  }

  /** The text of a number: spaces, '-' or what the flags ask for instead, a prefix, zeros, the
      digits, spaces; zeros up to the precision or, without one, up to the width if the flags ask
      for them, and spaces up to the width on the side the flags name. */
  ghost predicate PrintedAs(s: string, parts: Parts, mag: nat, negative: bool, flags: Flags, base: nat, upper: bool) {
    var octal, n := flags.alt && base == 8, |parts.digits|;
    var room := flags.width - |parts.sign| - |parts.prefix| - n;
    && parts.sign == (if negative then "-" else if flags.plus then "+" else if flags.space then " " else "")
    && parts.prefix == (if !(flags.alt && base == 16 && mag > 0) then "" else if upper then "0X" else "0x")
    && Denotes(parts.digits, mag, base, upper, octal || flags.precision != 0)
    && parts.zeros == (if octal && mag > 0 && flags.precision <= n then 1
                       else if flags.precision < 0 && flags.zeroPad && !flags.leftAdj then Max(0, room)
                       else Max(0, flags.precision - n))
    && parts.left == (if flags.leftAdj then 0 else Max(0, room - parts.zeros))
    && parts.right == (if flags.leftAdj then Max(0, room - parts.zeros) else 0)
    && s == TextOf(parts)
  }

  datatype Parts = Parts(left: nat, sign: string, prefix: string, zeros: nat, digits: string, right: nat)

  function TextOf(parts: Parts): (s: string)
    ensures |s| == parts.left + |parts.sign| + |parts.prefix| + parts.zeros + |parts.digits| + parts.right
  {
    Spaces(parts.left) + (parts.sign + parts.prefix + Zeros(parts.zeros) + parts.digits) + Spaces(parts.right)
  }

  ghost predicate Printed(s: string, mag: nat, negative: bool, flags: Flags, base: nat, upper: bool) {
    exists parts :: PrintedAs(s, parts, mag, negative, flags, base, upper)
  }

  lemma {:induction false} NumeralCased(v: nat, base: nat, upper: bool)
    requires 2 <= base <= 16
    ensures Cased(Numeral(v, base, upper), upper)
    decreases v
  {
    if v >= base {
      Quotient(v, base);
      NumeralCased(v / base, base, upper);
    }
  }

  lemma DigitsDenote(mag: nat, flags: Flags, base: nat, upper: bool)
    requires 2 <= base <= 16
    ensures Denotes(Digits(mag, flags, base, upper), mag, base, upper, (flags.alt && base == 8) || flags.precision != 0)
  {
    ValueOfNumeral(mag, base, upper);
    NumeralCased(mag, base, upper);
    NumeralStart(mag, base, upper);
    if mag == 0 {
      ValueOfNumeral(0, base, upper);
      assert Numeral(0, base, upper) == "0";
    }
  }

  /** The length is that of the parts, or the width if that is more. */
  lemma PrintedLength(s: string, parts: Parts, mag: nat, negative: bool, flags: Flags, base: nat, upper: bool)
    requires PrintedAs(s, parts, mag, negative, flags, base, upper)
    ensures |s| == Max(flags.width, |s| - parts.left - parts.right)
  {}

  /** The zeros in front, in terms of the lengths of the other parts. */
  lemma ZerosAre(mag: nat, negative: bool, flags: Flags, base: nat, upper: bool, n: nat, other: nat)
    requires 2 <= base <= 16 && n == |Digits(mag, flags, base, upper)|
    requires other == |Sign(negative, flags)| + |Prefix(mag, flags, base, upper)|
    ensures ZeroCount(mag, negative, flags, base, upper) ==
      if flags.alt && base == 8 && mag > 0 && flags.precision <= n then 1
      else if flags.precision < 0 && flags.zeroPad && !flags.leftAdj then Max(0, flags.width - other - n)
      else Max(0, flags.precision - n)
  {}

  /** What is formatted has the meaning it should have, whatever sign, flags and base. */
  lemma FormatPrinted(mag: nat, negative: bool, flags: Flags, base: nat, upper: bool)
    requires 2 <= base <= 16
    ensures Printed(Format(mag, negative, flags, base, upper), mag, negative, flags, base, upper)
  {
    var parts := PartsOf(mag, negative, flags, base, upper);
    DigitsDenote(mag, flags, base, upper);
    ZerosAre(mag, negative, flags, base, upper, |parts.digits|, |parts.sign| + |parts.prefix|);
    PaddingIs(mag, negative, flags, base, upper);
    FormatParts(mag, negative, flags, base, upper, parts.zeros, parts.left + parts.right);
    assert PrintedAs(Format(mag, negative, flags, base, upper), parts, mag, negative, flags, base, upper);
  }

  function PartsOf(mag: nat, negative: bool, flags: Flags, base: nat, upper: bool): Parts
    requires 2 <= base <= 16
  {
    var n := |Body(mag, negative, flags, base, upper)|;
    var pad := if flags.width > n then flags.width - n else 0;
    Parts(if flags.leftAdj then 0 else pad, Sign(negative, flags), Prefix(mag, flags, base, upper),
          ZeroCount(mag, negative, flags, base, upper), Digits(mag, flags, base, upper),
          if flags.leftAdj then pad else 0)
  }

  lemma PaddingIs(mag: nat, negative: bool, flags: Flags, base: nat, upper: bool)
    requires 2 <= base <= 16
    ensures var parts := PartsOf(mag, negative, flags, base, upper);
      var pad := Max(0, flags.width - |parts.sign| - |parts.prefix| - |parts.digits| - parts.zeros);
      parts.left == (if flags.leftAdj then 0 else pad) && parts.right == (if flags.leftAdj then pad else 0)
  {
    BodyLength(mag, negative, flags, base, upper);
  }

  // ---------------------------------------------------------------- writing it

  function Reversed(s: string): (r: string)
    ensures |r| == |s|
  {
    if s == [] then [] else Reversed(s[1..]) + [s[0]]
  }

  lemma {:induction false} ReversedAt(s: string, i: nat)
    requires i < |s|
    ensures Reversed(s)[i] == s[|s| - 1 - i]
  {
    if i < |s| - 1 {
      ReversedAt(s[1..], i);
    }
  }

  lemma {:induction false} ReversedSnoc(s: string, ch: char)
    ensures Reversed(s + [ch]) == [ch] + Reversed(s)
  {
    if s != [] {
      ReversedSnoc(s[1..], ch);
      assert (s + [ch])[1..] == s[1..] + [ch];
    }
  }

  /** `utoa_rev`: the digits, least significant first; they fit a buffer of 64. */
  method UtoaRev(value: nat, base: nat, upper: bool) returns (rev: string)
    requires value <= ULONG_MAX && 2 <= base <= 16
    ensures Reversed(rev) == Numeral(value, base, upper) && 1 <= |rev| <= 64
  {
    FitsBuffer(value, base, upper);
    if value == 0 {
      rev := ['0'];
      assert Reversed(rev) == Reversed([]) + ['0'];
      return;
    }
    var v: nat := value;
    rev := [];
    while v != 0
      invariant Numeral(value, base, upper) == Rest(v, base, upper) + Reversed(rev)
      decreases v
    {
      DivMod(v, base);
      var ch := Digit(v % base, upper);
      NextDigit(v, base, upper, rev);
      rev := rev + [ch];
      v := v / base;
    }
  }

  /** The digits that are still to be written. */
  function Rest(v: nat, base: nat, upper: bool): string
    requires 2 <= base <= 16
  {
    if v == 0 then [] else Numeral(v, base, upper)
  }

  lemma NextDigit(v: nat, base: nat, upper: bool, rev: string)
    requires v > 0 && 2 <= base <= 16 && v % base < base
    ensures Rest(v, base, upper) + Reversed(rev) == Rest(v / base, base, upper)
      + Reversed(rev + [Digit(v % base, upper)])
    ensures v / base < v
  {
    LastDigit(v, base, upper);
    ReversedSnoc(rev, Digit(v % base, upper));
  }

  lemma FitsBuffer(value: nat, base: nat, upper: bool)
    requires value <= ULONG_MAX && 2 <= base <= 16
    ensures |Numeral(value, base, upper)| <= 64
  {
    var bits := 64;
    PowTwice(8, bits / 4, 0x100);
    PowTwice(bits / 4, bits / 2, 0x1_0000);
    PowTwice(bits / 2, bits, 0x1_0000_0000);
    NumeralLength(value, base, upper, bits);
  }

  lemma PowTwice(k: nat, k': nat, p: nat)
    requires Pow2(k) == p && k' == 2 * k
    ensures Pow2(k') == p * p
  {
    PowAdds(k, k);
  }

  lemma {:induction false} PowAdds(a: nat, b: nat)
    ensures Pow2(a + b) == Pow2(a) * Pow2(b)
    decreases a
  {
    if a > 0 {
      PowAdds(a - 1, b);
    }
  }

  lemma LastDigit(v: nat, base: nat, upper: bool)
    requires 2 <= base <= 16 && v > 0
    ensures Numeral(v, base, upper) == (if v / base == 0 then [] else Numeral(v / base, base, upper))
      + [Digit(v % base, upper)]
    ensures v / base < v
  {
    var q, r := v / base, v % base;
    Quotient(v, base);
    if v < base {
      assert [] + [Digit(r, upper)] == [Digit(v, upper)];
    }
  }

  /** The output of a formatted print into a buffer of `capacity` bytes. */
  class Fmt {
    const capacity: nat
    const accepts: Option<nat>  // how many characters the write function takes before it fails, if there is one
    var buffer: string       // the bytes before the cursor
    var terminated: bool     // a zero byte was put at the cursor
    var size: nat
    var hasFunction: bool    // write_fn != NULL
    var given: string        // what the write function has taken
    var count: nat
    var error: bool
    ghost var text: string   // everything that was to be written

    ghost predicate Valid()
      reads this
    {
      && count == |text| <= Limit() && (size == 0 || size == capacity)
      && (size > 0 ==> count < size && buffer == text && !terminated)
      && (size == 0 && capacity > 0 ==>
          capacity <= count && buffer == text[..capacity - 1] && terminated && !hasFunction)
      && (capacity == 0 ==> (hasFunction <==> accepts.Some?) && given == if hasFunction then text else [])
    }

    /** The number of characters after which writing fails; the function of a formatter that
        has a buffer is never called. */
    function Limit(): nat
    {
      if capacity == 0 && accepts.Some? && accepts.value < INT_MAX then accepts.value else INT_MAX
    }

    constructor (size: nat, accepts: Option<nat>)
      ensures Valid() && capacity == this.size == size && this.accepts == accepts && text == [] && !error
    {
      capacity, this.accepts := size, accepts;
      this.size, buffer, terminated, count, error := size, [], false, 0, false;
      hasFunction, given := accepts.Some?, [];
      text := [];
    }

    /** `write_char`: what does not fit into the buffer is only counted. */
    method WriteChar(ch: char)
      requires Valid()
      modifies this
      ensures Valid() && (error <==> old(error) || old(count) == Limit())
      ensures text == if error then old(text) else old(text) + [ch]
    {
      if error {
        return;
      }
      if count >= INT_MAX {
        error := true;
        return;
      }
      if size > 0 {
        if count < size - 1 {
          buffer := buffer + [ch];
        } else {
          terminated := true;
          size := 0;
          hasFunction := false;
        }
      } else if hasFunction {
        if count == accepts.value {
          error := true;
          return;
        }
        given := given + [ch];
      }
      text := text + [ch];
      count := count + 1;
    }

    /** `write_bytes`, and `write_repeat` for equal characters. */
    method WriteBytes(s: string)
      requires Valid()
      modifies this
      ensures Valid() && (error <==> old(error) || old(count) + |s| > Limit())
      ensures !error ==> text == old(text) + s
    {
      var i := 0;
      while i < |s| && !error
        invariant i <= |s| && Valid() && (error ==> old(error) || old(count) + |s| > Limit())
        invariant !error ==> !old(error) && text == old(text) + s[..i]
        decreases |s| - i, !error
      {
        WriteChar(s[i]);
        if !error {
          assert s[..i + 1] == s[..i] + [s[i]];
          i := i + 1;
        }
      }
      assert s[..|s|] == s;
    }

    /** `write_integer`. */
    method WriteInteger(mag: nat, negative: bool, flags: Flags, base: nat, upper: bool)
      requires Valid() && !error && mag <= ULONG_MAX && 2 <= base <= 16
      modifies this
      ensures Valid()
      ensures !error ==> text == old(text) + Format(mag, negative, flags, base, upper)
      ensures error <==> old(count) + |Format(mag, negative, flags, base, upper)| > Limit()
      ensures Printed(Format(mag, negative, flags, base, upper), mag, negative, flags, base, upper)
    {
      FormatPrinted(mag, negative, flags, base, upper);
      var left, sign, prefix, zeroes, rev, right := Layout(mag, negative, flags, base, upper);
      WriteParts(left, sign, prefix, zeroes, rev, right);
    }

    method WriteParts(left: nat, sign: string, prefix: string, zeroes: nat, rev: string, right: nat)
      requires Valid() && !error
      modifies this
      ensures Valid()
      ensures !error ==>
        text == old(text) + (Spaces(left) + (sign + prefix + Zeros(zeroes) + Reversed(rev)) + Spaces(right))
      ensures error <==> old(count) + left + |sign| + |prefix| + zeroes + |rev| + right > Limit()
    {
      WriteBytes(Spaces(left));
      WriteFigures(sign, prefix, zeroes, rev);
      WriteBytes(Spaces(right));
    }

    method WriteFigures(sign: string, prefix: string, zeroes: nat, rev: string)
      requires Valid()
      modifies this
      ensures Valid() && (error <==> old(error) || old(count) + |sign| + |prefix| + zeroes + |rev| > Limit())
      ensures !error ==> text == old(text) + (sign + prefix + Zeros(zeroes) + Reversed(rev))
    {
      ghost var was := text;
      WriteBytes(sign);
      WriteBytes(prefix);
      WriteBytes(Zeros(zeroes));
      WriteBytes(Reversed(rev));
      FourParts(was, sign, prefix, Zeros(zeroes), Reversed(rev));
    }
  }

  lemma FourParts(s: string, a: string, b: string, c: string, d: string)
    ensures s + a + b + c + d == s + (a + b + c + d)
  {}

  /** The first part of `write_integer`: what to write, and how much padding and zeros. */
  method Layout(mag: nat, negative: bool, flags: Flags, base: nat, upper: bool)
    returns (left: nat, sign: string, prefix: string, zeroes: nat, rev: string, right: nat)
    requires mag <= ULONG_MAX && 2 <= base <= 16
    ensures Format(mag, negative, flags, base, upper) == Spaces(left) + (sign + prefix + Zeros(zeroes) + Reversed(rev))
      + Spaces(right)
  {
    sign := if negative then "-" else if flags.plus then "+" else if flags.space then " " else "";
    var precision;
    rev, precision, prefix := DigitsAndPrefix(mag, flags, base, upper);
    zeroes := if precision > |rev| then precision - |rev| else 0;
    var total := |rev| + zeroes + |prefix| + |sign|;
    if precision < 0 && flags.zeroPad && !flags.leftAdj && flags.width > total {
      zeroes := zeroes + (flags.width - total);
      total := flags.width;
    }
    var padLen := if flags.width > total then flags.width - total else 0;
    BodyLength(mag, negative, flags, base, upper);
    FormatParts(mag, negative, flags, base, upper, zeroes, padLen);
    left, right := if flags.leftAdj then 0 else padLen, if flags.leftAdj then padLen else 0;
  }

  /** The digits, least significant first, with what the alternate form adds. */
  method DigitsAndPrefix(mag: nat, flags: Flags, base: nat, upper: bool)
    returns (rev: string, precision: int, prefix: string)
    requires mag <= ULONG_MAX && 2 <= base <= 16
    ensures Reversed(rev) == Digits(mag, flags, base, upper) && prefix == Prefix(mag, flags, base, upper)
    ensures precision == Precision(mag, flags, base, |rev|)
  {
    rev, precision, prefix := [], flags.precision, "";
    if flags.precision != 0 || mag != 0 {
      rev := UtoaRev(mag, base, upper);
    }
    if flags.alt {
      if base == 8 {
        StartOfDigits(mag, base, upper, rev);
        if !(|rev| > 0 && rev[|rev| - 1] == '0') {
          if |rev| == 0 {
            rev := "0";
            assert Reversed(rev) == Reversed("") + "0";
          } else if precision <= |rev| {
            precision := |rev| + 1;
          }
        }
      } else if base == 16 && mag != 0 {
        prefix := if upper then "0X" else "0x";
      }
    }
  }

  /** Padding and zeros add up to the whole output. */
  lemma FormatParts(mag: nat, negative: bool, flags: Flags, base: nat, upper: bool, zeroes: nat, pad: nat)
    requires 2 <= base <= 16 && zeroes == ZeroCount(mag, negative, flags, base, upper)
    requires var body := Body(mag, negative, flags, base, upper);
      pad == if flags.width > |body| then flags.width - |body| else 0
    ensures var left, right := if flags.leftAdj then 0 else pad, if flags.leftAdj then pad else 0;
      Format(mag, negative, flags, base, upper) ==
        Spaces(left) + (Sign(negative, flags) + Prefix(mag, flags, base, upper) + Zeros(zeroes)
                        + Digits(mag, flags, base, upper)) + Spaces(right)
  {
    var body := Body(mag, negative, flags, base, upper);
    assert Spaces(0) + body == body && body + Spaces(0) == body && Spaces(pad) + body + Spaces(0) == Spaces(pad) + body;
  }

  /** The code adds up the length in an `int`: the sum fits if and only if the precision leaves
      room for prefix and sign. */
  lemma LengthFitsIff(mag: nat, negative: bool, flags: Flags, base: nat, upper: bool)
    requires mag <= ULONG_MAX && 2 <= base <= 16
    ensures var n := |Digits(mag, flags, base, upper)|;
      var p, more := Precision(mag, flags, base, n), |Prefix(mag, flags, base, upper)| + |Sign(negative, flags)|;
      n + (if p > n then p - n else 0) + more <= INT_MAX <==> p + more <= INT_MAX
  {
    FitsBuffer(mag, base, upper);
  }

  lemma BodyLength(mag: nat, negative: bool, flags: Flags, base: nat, upper: bool)
    requires 2 <= base <= 16
    ensures |Body(mag, negative, flags, base, upper)| == |Sign(negative, flags)| + |Prefix(mag, flags, base, upper)|
      + ZeroCount(mag, negative, flags, base, upper) + |Digits(mag, flags, base, upper)|
  {}

  lemma StartOfDigits(mag: nat, base: nat, upper: bool, rev: string)
    requires 2 <= base <= 16 && (|rev| > 0 ==> Reversed(rev) == Numeral(mag, base, upper))
    ensures |rev| > 0 ==> (rev[|rev| - 1] == '0' <==> mag == 0)
  {
    if |rev| > 0 {
      ReversedAt(rev, 0);
      NumeralStart(mag, base, upper);
    }
  }
}

/** Parsing undoes printing. */
module RoundTrip {
  import opened Numerals
  import opened Parsing
  import opened Printing

  /** What stands where in spaces, a sign, a prefix, digits, spaces. */
  lemma PartsAt(pre: string, sign: string, prefix: string, digits: string, post: string)
    requires digits != []
    ensures var s := pre + sign + prefix + digits + post;
      var k := |pre| + |sign| + |prefix|;
      && s[..|pre|] == pre && s[k..k + |digits|] == digits
      && CharAt(s, k) == digits[0] && CharAt(s, k + 1) == (if |digits| > 1 then digits[1] else CharAt(post, 0))
      && CharAt(s, k + |digits|) == CharAt(post, 0)
      && (sign != "" ==> CharAt(s, |pre|) == sign[0])
      && (|prefix| == 2 ==> CharAt(s, |pre| + |sign|) == prefix[0] && CharAt(s, |pre| + |sign| + 1) == prefix[1])
  {}

  /** What follows the digits does not go on with them. */
  predicate Stops(s: string, base: nat) {
    s == [] || (!IsDigit(s[0], base) && s[0] != 'x' && s[0] != 'X')
  }

  lemma PrefixIs(s: string, j: nat, prefix: string, digits: string, post: string, b: nat)
    requires digits != [] && IsDigit(digits[0], b) && (|digits| > 1 ==> IsDigit(digits[1], b)) && 2 <= b <= 16
    requires Stops(post, b)
    requires prefix == "" || prefix == "0x" || prefix == "0X"
    requires prefix != "" ==>
      b == 16 && CharAt(s, j) == prefix[0] && CharAt(s, j + 1) == prefix[1] && CharAt(s, j + 2) == digits[0]
    requires prefix == "" ==>
      CharAt(s, j) == digits[0] && CharAt(s, j + 1) == (if |digits| > 1 then digits[1] else CharAt(post, 0))
    ensures HexPrefix(s, j) == (prefix != "")
  {}

  /** Spaces, a sign, a prefix, digits, and what follows. */
  lemma ParseParts(pre: string, sign: string, prefix: string, digits: string, post: string, base: nat, b: nat)
    requires AllSpaces(pre) && Stops(post, b) && (sign == "" || sign == "+") && (base == 0 || 2 <= base <= 36)
    requires 2 <= b <= 16
    requires digits != [] && AllDigits(digits, b) && Value(digits, b) <= ULONG_MAX
    requires prefix == "" || prefix == "0x" || prefix == "0X"
    requires prefix == "" ==> base == b || (base == 0 && b == if digits[0] == '0' then 8 else 10)
    requires prefix != "" ==> b == 16 && (base == 0 || base == 16)
    ensures Parse(pre + sign + prefix + digits + post, base) == Ok(Value(digits, b), |pre + sign + prefix + digits|)
  {
    var s := pre + sign + prefix + digits + post;
    var i, j := |pre|, |pre| + |sign|;
    var k := j + |prefix|;
    PartsAt(pre, sign, prefix, digits, post);
    assert IsDigit(digits[0], b) && (|digits| > 1 ==> IsDigit(digits[1], b));
    PrefixLeads(s, j, prefix, digits, post, base, b);
    ParseFrom(s, i, j, k, sign, prefix, digits, post, base, b);
  }

  /** Where the prefix ends and which base the digits have. */
  lemma PrefixLeads(s: string, j: nat, prefix: string, digits: string, post: string, base: nat, b: nat)
    requires digits != [] && IsDigit(digits[0], b) && (|digits| > 1 ==> IsDigit(digits[1], b)) && 2 <= b <= 16
    requires Stops(post, b)
    requires prefix == "" || prefix == "0x" || prefix == "0X"
    requires prefix == "" ==> base == b || (base == 0 && b == if digits[0] == '0' then 8 else 10)
    requires prefix != "" ==> b == 16 && (base == 0 || base == 16)
    requires prefix != "" ==>
      CharAt(s, j) == prefix[0] && CharAt(s, j + 1) == prefix[1] && CharAt(s, j + 2) == digits[0]
    requires prefix == "" ==>
      CharAt(s, j) == digits[0] && CharAt(s, j + 1) == (if |digits| > 1 then digits[1] else CharAt(post, 0))
    requires j <= |s|
    ensures BaseAt(s, j, base) == b && DigitsAt(s, j, base) == j + |prefix|
  {
    PrefixIs(s, j, prefix, digits, post, b);
  }

  /** The same as `ParseParts`, with the parts found in `s`. */
  lemma ParseFrom(s: string, i: nat, j: nat, k: nat, sign: string, prefix: string, digits: string, post: string,
                  base: nat, b: nat)
    requires Stops(post, b) && (sign == "" || sign == "+") && (base == 0 || 2 <= base <= 36) && 2 <= b <= 16
    requires digits != [] && AllDigits(digits, b) && Value(digits, b) <= ULONG_MAX
    requires i <= j == i + |sign| <= k <= |s| && k + |digits| <= |s| && AllSpaces(s[..i])
    requires s[k..k + |digits|] == digits
    requires !IsSpace(CharAt(s, i)) && (CharAt(s, i) == '+' <==> sign != "") && CharAt(s, i) != '-'
    requires !IsDigit(CharAt(s, k + |digits|), b)
    requires BaseAt(s, j, base) == b && DigitsAt(s, j, base) == k
    ensures Parse(s, base) == Ok(Value(digits, b), k + |digits|)
  {
    SpaceEndIs(s, i);
    DigitEndIs(s, k, k + |digits|, b);
    ParseFound(s, base, i, j, k, k + |digits|, b);
  }

  /** Zeros and digits of the output. */
  function Figures(mag: nat, flags: Flags, base: nat, upper: bool): string
    requires 2 <= base <= 16
  {
    Zeros(ZeroCount(mag, false, flags, base, upper)) + Digits(mag, flags, base, upper)
  }

  lemma FiguresValue(mag: nat, flags: Flags, base: nat, upper: bool)
    requires 2 <= base <= 16
    ensures AllDigits(Figures(mag, flags, base, upper), base) && Value(Figures(mag, flags, base, upper), base) == mag
  {
    var d := Digits(mag, flags, base, upper);
    ValueOfNumeral(mag, base, upper);
    if d == "0" {
      ValueOfNumeral(0, base, upper);
      assert Numeral(0, base, upper) == "0";
    }
    ValueZeros(ZeroCount(mag, false, flags, base, upper), d, base);
  }

  /** Leading and trailing spaces of the output; a space for the sign counts as one. */
  lemma FormatShape(mag: nat, flags: Flags, base: nat, upper: bool) returns (pre: string, sign: string, post: string)
    requires 2 <= base <= 16
    ensures AllSpaces(pre) && AllSpaces(post) && (sign == "" || sign == "+")
    ensures Format(mag, false, flags, base, upper) == pre + sign + Prefix(mag, flags, base, upper)
      + Figures(mag, flags, base, upper) + post
  {
    var body := Body(mag, false, flags, base, upper);
    var pad := if flags.width > |body| then flags.width - |body| else 0;
    FormatParts(mag, false, flags, base, upper, ZeroCount(mag, false, flags, base, upper), pad);
    var left := Spaces(if flags.leftAdj then 0 else pad);
    post := Spaces(if flags.leftAdj then pad else 0);
    var sg := Sign(false, flags);
    pre, sign := if sg == " " then left + sg else left, if sg == "+" then sg else "";
    assert pre + sign == left + sg;
    JoinParts(left, sg, Prefix(mag, flags, base, upper), Zeros(ZeroCount(mag, false, flags, base, upper)),
              Digits(mag, flags, base, upper), post);
  }

  lemma JoinParts(a: string, b: string, c: string, d: string, e: string, f: string)
    ensures a + (b + c + d + e) + f == a + b + c + (d + e) + f
  {}

  /** Nothing at all is printed for zero with precision zero. */
  predicate PrintsNothing(mag: nat, flags: Flags, base: nat) {
    mag == 0 && flags.precision == 0 && !(flags.alt && base == 8)
  }

  lemma ParseFormat(mag: nat, flags: Flags, base: nat, upper: bool, parseBase: nat)
    requires mag <= ULONG_MAX && (base == 8 || base == 10 || base == 16) && Figures(mag, flags, base, upper) != []
    requires Prefix(mag, flags, base, upper) == "" ==>
      parseBase == base || (parseBase == 0 && base == if Figures(mag, flags, base, upper)[0] == '0' then 8 else 10)
    requires Prefix(mag, flags, base, upper) != "" ==> parseBase == 0 || parseBase == 16
    ensures var r := Parse(Format(mag, false, flags, base, upper), parseBase); r.Ok? && r.value == mag
  {
    FiguresValue(mag, flags, base, upper);
    var pre, sign, post := FormatShape(mag, flags, base, upper);
    ParseParts(pre, sign, Prefix(mag, flags, base, upper), Figures(mag, flags, base, upper), post, parseBase, base);
  }

  /** Whatever the flags, width and precision, reading the output in its own base gives the
      number back, unless nothing is printed. */
  lemma ParseUndoesPrint(mag: nat, flags: Flags, base: nat, upper: bool)
    requires mag <= ULONG_MAX && (base == 8 || base == 10 || base == 16)
    ensures var r := Parse(Format(mag, false, flags, base, upper), base);
      r.Ok? && r.value == mag <==> !PrintsNothing(mag, flags, base)
  {
    if PrintsNothing(mag, flags, base) {
      NothingToParse(mag, flags, base, upper);
    } else {
      ParseFormat(mag, flags, base, upper, base);
    }
  }

  /** A negative number is not read at all. */
  lemma NegativeIsRefused(mag: nat, flags: Flags, base: nat, upper: bool, parseBase: nat)
    requires 2 <= base <= 16 && (parseBase == 0 || 2 <= parseBase <= 36)
    ensures Parse(Format(mag, true, flags, base, upper), parseBase).Invalid?
  {
    var body := Body(mag, true, flags, base, upper);
    var s := Format(mag, true, flags, base, upper);
    var i := if flags.leftAdj || flags.width <= |body| then 0 else flags.width - |body|;
    assert s[i] == body[0] == '-';
    assert AllSpaces(s[..i]);
    ParseMinus(s, parseBase, i);
  }

  lemma NoDigits(s: string, base: nat)
    requires 2 <= base <= 36 && forall i :: 0 <= i < |s| ==> !IsDigit(s[i], base)
    ensures !Parse(s, base).Ok?
  {
    assert forall i: nat :: !IsDigit(CharAt(s, i), base);
  }

  lemma NothingToParse(mag: nat, flags: Flags, base: nat, upper: bool)
    requires (base == 8 || base == 10 || base == 16) && PrintsNothing(mag, flags, base)
    ensures !Parse(Format(mag, false, flags, base, upper), base).Ok?
  {
    var pre, sign, post := FormatShape(mag, flags, base, upper);
    assert Prefix(mag, flags, base, upper) == "" && Figures(mag, flags, base, upper) == [];
    BlankText(pre, sign, post, base);
    NoDigits(pre + sign + "" + [] + post, base);
  }

  lemma BlankText(pre: string, sign: string, post: string, base: nat)
    requires AllSpaces(pre) && AllSpaces(post) && (sign == "" || sign == "+")
    ensures var s := pre + sign + "" + [] + post; forall i :: 0 <= i < |s| ==> !IsDigit(s[i], base)
  {}

  /** With base 0 the octal and hexadecimal forms with prefix read back ... */
  lemma PrefixedReadsBack(mag: nat, flags: Flags, base: nat, upper: bool)
    requires mag <= ULONG_MAX && (base == 8 || base == 16) && flags.alt && !PrintsNothing(mag, flags, base)
    ensures var r := Parse(Format(mag, false, flags, base, upper), 0); r.Ok? && r.value == mag
  {
    var f := Figures(mag, flags, base, upper);
    NumeralStart(mag, base, upper);
    if mag == 0 {
      FiguresValue(mag, flags, 8, upper);
      assert f[0] == '0';
      ZeroReadsBack(flags, base, upper);
    } else {
      ParseFormat(mag, flags, base, upper, 0);
    }
  }

  lemma ZeroReadsBack(flags: Flags, base: nat, upper: bool)
    requires (base == 8 || base == 10 || base == 16) && !PrintsNothing(0, flags, base)
    ensures var r := Parse(Format(0, false, flags, base, upper), 0); r.Ok? && r.value == 0
  {
    var pre, sign, post := FormatShape(0, flags, base, upper);
    var f := Figures(0, flags, base, upper);
    var n := ZeroCount(0, false, flags, base, upper);
    assert Digits(0, flags, base, upper) == "0";
    assert f == Zeros(n + 1) + [];
    ValueZeros(n + 1, [], 8);
    ParseParts(pre, sign, "", f, post, 0, 8);
  }

  // ---------------------------------------------------------------- decimal numbers read with base 0

  lemma {:induction false} OctalReading(s: string)
    requires AllDigits(s, 8) && AllDigits(s, 10)
    ensures Value(s, 8) <= Value(s, 10)
    ensures Value(s, 10) >= 8 ==> Value(s, 8) < Value(s, 10)
    ensures Value(s, 10) < 8 ==> Value(s, 8) == Value(s, 10)
    decreases |s|
  {
    if s != [] {
      assert IsDigit(s[|s| - 1], 8);
      OctalReading(s[..|s| - 1]);
    }
  }

  /** A part cut off before a digit is smaller than the whole. */
  lemma {:induction false} CutOff(s: string, n: nat)
    requires AllDigits(s, 10) && n < |s| && s[n] != '0'
    ensures Value(s[..n], 10) < Value(s, 10)
    decreases |s|
  {
    var m := |s| - 1;
    assert IsDigit(s[m], 10);
    if n < m {
      CutOff(s[..m], n);
      assert s[..m][..n] == s[..n];
    } else {
      assert DigitValue(s[n]) > 0;
    }
  }

  /** ... and a decimal number exactly when it is printed without zeros in front, or is so
      small that reading it as octal makes no difference. */
  lemma DecimalReadsBack(mag: nat, flags: Flags, upper: bool)
    requires mag <= ULONG_MAX && !PrintsNothing(mag, flags, 10)
    ensures var r := Parse(Format(mag, false, flags, 10, upper), 0);
      r.Ok? && r.value == mag <==> ZeroCount(mag, false, flags, 10, upper) == 0 || mag < 8
  {
    NumeralStart(mag, 10, upper);
    if mag == 0 {
      ZeroReadsBack(flags, 10, upper);
    } else if ZeroCount(mag, false, flags, 10, upper) == 0 {
      assert Figures(mag, flags, 10, upper) == Numeral(mag, 10, upper);
      ParseFormat(mag, flags, 10, upper, 0);
    } else {
      PaddedReading(mag, flags, upper);
    }
  }

  /** Ten, printed with at least three digits, is read as eight. */
  lemma PaddedTenReadsAsEight(flags: Flags)
    requires flags == Flags(false, false, false, false, false, 0, 3)
    ensures Format(10, false, flags, 10, false) == "010" && Parse("010", 0) == Ok(8, 3)
  {
    PaddedTen(flags);
    OctalTen("010");
    PaddedReads("010");
  }

  lemma PaddedTen(flags: Flags)
    requires flags == Flags(false, false, false, false, false, 0, 3)
    ensures Format(10, false, flags, 10, false) == "010"
  {
    assert Numeral(1, 10, false) == "1" && Numeral(10, 10, false) == "10";
    assert Digits(10, flags, 10, false) == "10" && ZeroCount(10, false, flags, 10, false) == 1;
    assert Zeros(1) == "0" && Body(10, false, flags, 10, false) == "010" && Spaces(0) == "";
  }

  lemma OctalTen(s: string)
    requires s == "010"
    ensures AllDigits(s, 8) && Value(s, 8) == 8
  {
    assert s[..2] == "01" && "01"[..1] == "0" && "0"[..0] == "";
    assert Value("0", 8) == 0 && Value("01", 8) == 1;
  }

  lemma PaddedReads(s: string)
    requires s == "010" && AllDigits(s, 8) && Value(s, 8) == 8
    ensures Parse(s, 0) == Ok(8, 3)
  {
    assert SpaceEnd(s, 0) == 0 && BaseAt(s, 0, 0) == 8;
    DigitEndIs(s, 0, 3, 8);
    assert s[0..3] == s;
    ParseFound(s, 0, 0, 0, 0, 3, 8);
  }

  /** The octal digits at the start of a decimal number mean less than the number. */
  lemma OctalPart(f: string, n: nat)
    requires AllDigits(f, 10) && n == DigitEnd(f, 0, 8)
    ensures AllDigits(f[..n], 8) && Value(f[..n], 8) <= Value(f, 10)
    ensures Value(f, 10) >= 8 ==> Value(f[..n], 8) < Value(f, 10)
    ensures Value(f, 10) < 8 && n == |f| ==> Value(f[..n], 8) == Value(f, 10)
    ensures n < |f| ==> '8' <= f[n] <= '9'
  {
    assert f[0..n] == f[..n];
    OctalReading(f[..n]);
    if n < |f| {
      assert IsDigit(f[n], 10);
      CutOff(f, n);
    } else {
      assert f[..n] == f;
    }
  }

  lemma PaddedReading(mag: nat, flags: Flags, upper: bool)
    requires 0 < mag <= ULONG_MAX && ZeroCount(mag, false, flags, 10, upper) > 0
    ensures var r := Parse(Format(mag, false, flags, 10, upper), 0); r.Ok? && r.value == mag <==> mag < 8
  {
    var f := Figures(mag, flags, 10, upper);
    FiguresValue(mag, flags, 10, upper);
    var n := DigitEnd(f, 0, 8);
    SmallIsOctal(mag, flags, upper);
    OctalPart(f, n);
    var pre, sign, post := FormatShape(mag, flags, 10, upper);
    ParseOctal(pre, sign, f, n, post);
  }

  lemma ParseOctal(pre: string, sign: string, f: string, n: nat, post: string)
    requires AllSpaces(pre) && AllSpaces(post) && (sign == "" || sign == "+")
    requires f != [] && f[0] == '0' && n <= |f| && n == DigitEnd(f, 0, 8) && AllDigits(f[..n], 8)
    requires Value(f[..n], 8) <= ULONG_MAX
    requires n < |f| ==> '8' <= f[n] <= '9'
    ensures var r := Parse(pre + sign + "" + f + post, 0); r.Ok? && r.value == Value(f[..n], 8)
  {
    Rejoin(pre, sign, f, n, post);
    AfterOctal(f, n, post);
    ParseParts(pre, sign, "", f[..n], f[n..] + post, 0, 8);
  }

  lemma AfterOctal(f: string, n: nat, post: string)
    requires AllSpaces(post) && n <= |f| && n == DigitEnd(f, 0, 8) && f != [] && f[0] == '0'
    requires n < |f| ==> '8' <= f[n] <= '9'
    ensures n > 0 && f[..n][0] == '0' && Stops(f[n..] + post, 8)
  {}

  lemma Rejoin(pre: string, sign: string, f: string, n: nat, post: string)
    requires n <= |f|
    ensures pre + sign + "" + f + post == pre + sign + "" + f[..n] + (f[n..] + post)
  {
    assert f == f[..n] + f[n..];
  }

  lemma SmallIsOctal(mag: nat, flags: Flags, upper: bool)
    requires mag > 0
    ensures mag < 8 ==> DigitEnd(Figures(mag, flags, 10, upper), 0, 8) == |Figures(mag, flags, 10, upper)|
  {
    if mag < 8 {
      var f := Figures(mag, flags, 10, upper);
      assert Numeral(mag, 10, upper) == [Digit(mag, upper)];
      assert f[0..|f|] == f;
      DigitEndIs(f, 0, |f|, 8);
    }
  }
}
