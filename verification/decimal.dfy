/** Decimal rendering of integers as Python's `str()` and the `02d` format
    specification produce it, the canonical `YYYY-MM-DD` date string built from
    them, and a parser for that string that inverts the construction. */
module Decimal {
  import opened Options

  predicate IsDigit(c: char) {
    '0' <= c <= '9'
  }

  predicate AllDigits(s: string) {
    forall i :: 0 <= i < |s| ==> IsDigit(s[i])
  }

  function DigitChar(d: nat): (c: char)
    requires d < 10
    ensures IsDigit(c)
  {
    (d + '0' as int) as char
  }

  function DigitValue(c: char): (d: nat)
    requires IsDigit(c)
    ensures d < 10 && DigitChar(d) == c
  {
    c as int - '0' as int
  }

  /** `str(n)` for a non-negative integer: decimal digits without leading
      zeros; exactly one character for the values below ten. */
  function NatToString(n: nat): (s: string)
    ensures |s| >= 1 && AllDigits(s)
    ensures |s| == 1 <==> n < 10
    ensures |s| > 1 ==> s[0] != '0'
  {
    if n < 10 then [DigitChar(n)]
    else NatToString(n / 10) + [DigitChar(n % 10)]
  }

  /** Reads a string of decimal digits; the empty string reads as zero. */
  function ParseNat(s: string): nat
    requires AllDigits(s)
  {
    if s == [] then 0
    else 10 * ParseNat(s[..|s| - 1]) + DigitValue(s[|s| - 1])
  }

  /** `str(i)`: a leading minus sign for negative values. */
  function IntToString(i: int): (s: string)
    ensures |s| >= 1
    ensures i >= 0 ==> AllDigits(s)
    ensures i < 0 ==> s[0] == '-'
  {
    if i < 0 then "-" + NatToString(-i) else NatToString(i)
  }

  /** `f"{i:02d}"`: at least two characters, zero-filled to width two;
      a value of two or more digits, or a negative one, is printed as is. */
  function Pad2(i: int): (s: string)
    ensures |s| >= 2
    ensures 0 <= i < 100 <==> |s| == 2 && AllDigits(s)
  {
    if 0 <= i < 10 then "0" + NatToString(i) else IntToString(i)
  }

  /** The canonical date string: the year unpadded, month and day padded to
      two digits, separated by `-`. */
  function DateString(year: int, month: int, day: int): string {
    IntToString(year) + "-" + Pad2(month) + "-" + Pad2(day)
  }

  /** Cuts `s` at every occurrence of `sep` (Python's `str.split(sep)`). */
  function Split(s: string, sep: char): (parts: seq<string>)
    ensures |parts| >= 1
  {
    if s == [] then [""]
    else
      var rest := Split(s[1..], sep);
      if s[0] == sep then [""] + rest
      else [[s[0]] + rest[0]] + rest[1..]
  }

  /** Reads back a canonical date string with a non-negative year: three
      `-`-separated digit fields, the last two exactly two digits wide. */
  function ParseDate(s: string): Option<(int, int, int)> {
    var parts := Split(s, '-');
    if |parts| == 3
       && |parts[0]| >= 1 && AllDigits(parts[0])
       && |parts[1]| == 2 && AllDigits(parts[1])
       && |parts[2]| == 2 && AllDigits(parts[2])
    then Some((ParseNat(parts[0]), ParseNat(parts[1]), ParseNat(parts[2])))
    else None
  }

  lemma {:induction false} ParseNatToString(n: nat)
    ensures ParseNat(NatToString(n)) == n
    decreases n
  {
    var s := NatToString(n);
    if n >= 10 {
      ParseNatToString(n / 10);
      assert s[..|s| - 1] == NatToString(n / 10);
    } else {
      assert s[..0] == [];
    }
  }

  /** Reading a two-digit field gives back the padded value. */
  lemma ParsePad2(i: int)
    requires 0 <= i < 100
    ensures ParseNat(Pad2(i)) == i
  {
    var s := Pad2(i);
    if i < 10 {
      assert s == ['0', DigitChar(i)];
      assert s[..1] == "0";
      assert s[..1][..0] == [];
      assert ParseNat(s[..1]) == 0;
      assert DigitValue(s[1]) == i;
      assert ParseNat(s) == 10 * ParseNat(s[..1]) + DigitValue(s[1]);
    } else {
      ParseNatToString(i);
    }
  }

  lemma {:induction false} SplitWithoutSep(a: string, sep: char)
    requires sep !in a
    ensures Split(a, sep) == [a]
    decreases |a|
  {
    if a != [] {
      SplitWithoutSep(a[1..], sep);
      assert [a[0]] + a[1..] == a;
    }
  }

  lemma {:induction false} SplitAtSep(a: string, sep: char, b: string)
    requires sep !in a
    ensures Split(a + [sep] + b, sep) == [a] + Split(b, sep)
    decreases |a|
  {
    var s := a + [sep] + b;
    if a == [] {
      assert s[1..] == b;
    } else {
      assert s[1..] == a[1..] + [sep] + b;
      SplitAtSep(a[1..], sep, b);
      assert [a[0]] + a[1..] == a;
    }
  }

  lemma DigitsHaveNoDash(s: string)
    requires AllDigits(s)
    ensures '-' !in s
  {
  }

  /** The date string of a non-negative year and a month and day below 100
      parses back to exactly those three numbers, so the date field loses
      nothing the record held. */
  lemma DateRoundTrip(year: int, month: int, day: int)
    requires year >= 0 && 0 <= month < 100 && 0 <= day < 100
    ensures ParseDate(DateString(year, month, day)) == Some((year, month, day))
  {
    var y, m, d := IntToString(year), Pad2(month), Pad2(day);
    DigitsHaveNoDash(y);
    DigitsHaveNoDash(m);
    DigitsHaveNoDash(d);
    assert DateString(year, month, day) == y + ['-'] + (m + ['-'] + d);
    SplitAtSep(y, '-', m + ['-'] + d);
    SplitAtSep(m, '-', d);
    SplitWithoutSep(d, '-');
    assert Split(DateString(year, month, day), '-') == [y, m, d];
    ParseNatToString(year);
    ParsePad2(month);
    ParsePad2(day);
  }

  /** An example of the date reconstruction: 2010 with the default
      month and day. */
  lemma DateStringExample()
    ensures DateString(2010, 6, 15) == "2010-06-15"
  {
  }

  /** The date of a 2005 record with the default month and day. */
  lemma DateString2005Example()
    ensures DateString(2005, 6, 15) == "2005-06-15"
  {
  }
}
