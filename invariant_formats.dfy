/**
 * The two invariant-culture formats the validator and the converter accept:
 * `decimal.TryParse(s, NumberStyles.Number, CultureInfo.InvariantCulture, ...)` and
 * `DateTime.TryParseExact(s, "dd/MM/yyyy", CultureInfo.InvariantCulture, DateTimeStyles.None, ...)`.
 * Each parser is paired with the formatter it inverts.
 */
module InvariantFormats {
  import opened Wrappers
  import opened Records

  // ---------------------------------------------------------------- digits

  predicate IsDigit(c: char)
  {
    '0' <= c <= '9'
  }

  function DigitValue(c: char): nat
    requires IsDigit(c)
  {
    c as int - '0' as int
  }

  function DigitChar(n: nat): (c: char)
    requires n < 10
    ensures IsDigit(c) && DigitValue(c) == n
  {
    ('0' as int + n) as char
  }

  predicate AllDigits(s: string)
  {
    forall i :: 0 <= i < |s| ==> IsDigit(s[i])
  }

  function Pow10(n: nat): (r: nat)
    ensures r >= 1
  {
    if n == 0 then 1 else 10 * Pow10(n - 1)
  }

  /** The number a string of decimal digits denotes, most significant digit first. */
  function DigitsValue(s: string): nat
    requires AllDigits(s)
  {
    if s == [] then 0 else DigitsValue(s[..|s| - 1]) * 10 + DigitValue(s[|s| - 1])
  }

  /** `n` written with exactly `width` digits, zero-padded (the last `width` digits of `n`). */
  function PaddedDigits(n: nat, width: nat): (s: string)
    ensures |s| == width && AllDigits(s)
    ensures DigitsValue(s) == n % Pow10(width)
  {
    if width == 0 then []
    else
      var s := PaddedDigits(n / 10, width - 1) + [DigitChar(n % 10)];
      assert s[..|s| - 1] == PaddedDigits(n / 10, width - 1);
      ModPow10Step(n, width);
      s
  }

  lemma ModPow10Step(n: nat, width: nat)
    requires width > 0
    ensures n % Pow10(width) == (n / 10) % Pow10(width - 1) * 10 + n % 10
  {
    var p := Pow10(width - 1);
    var q := n / 10;
    assert n == q * 10 + n % 10;
    assert q == (q / p) * p + q % p;
    assert n == (q / p) * (p * 10) + (q % p * 10 + n % 10);
    assert 0 <= q % p * 10 + n % 10 < p * 10;
    DivModUnique(n, p * 10, q / p, q % p * 10 + n % 10);
  }

  lemma DivModUnique(n: nat, d: nat, q: nat, r: nat)
    requires d > 0 && r < d && n == q * d + r
    ensures n % d == r && n / d == q
  {
    var q', r' := n / d, n % d;
    assert n == q' * d + r';
    if q < q' {
      MulMonotone(q + 1, q', d);
    } else if q > q' {
      MulMonotone(q' + 1, q, d);
    }
  }

  lemma MulMonotone(a: nat, b: nat, d: nat)
    requires a <= b
    ensures a * d <= b * d
  {
  }

  /** `n` written in decimal without leading zeros ("0" for zero). */
  function NatText(n: nat): (s: string)
    ensures |s| > 0 && AllDigits(s)
    ensures DigitsValue(s) == n
  {
    if n < 10 then [DigitChar(n)]
    else
      var s := NatText(n / 10) + [DigitChar(n % 10)];
      assert s[..|s| - 1] == NatText(n / 10);
      s
  }

  /** Reading a digit string from the front: the first digit is worth 10^(rest length). */
  lemma {:induction false} DigitsValueCons(s: string)
    requires |s| > 0 && AllDigits(s)
    ensures DigitsValue(s) == DigitValue(s[0]) * Pow10(|s| - 1) + DigitsValue(s[1..])
  {
    var n := |s|;
    if n > 1 {
      var t := s[..n - 1];
      DigitsValueCons(t);
      assert t[0] == s[0];
      assert t[1..] == s[1..][..n - 2];
      assert DigitsValue(s[1..]) == DigitsValue(t[1..]) * 10 + DigitValue(s[n - 1]);
      assert Pow10(n - 1) == 10 * Pow10(n - 2);
      TimesTen(DigitValue(s[0]), Pow10(n - 2), DigitsValue(t[1..]));
    }
  }

  lemma TimesTen(a: nat, p: nat, r: nat)
    ensures (a * p + r) * 10 == a * (10 * p) + r * 10
  {
  }

  // ------------------------------------------------- decimal, NumberStyles.Number

  /** The white space the number parser skips: U+0020 and U+0009..U+000D. */
  predicate IsNumberWhite(c: char)
  {
    c == ' ' || '\t' <= c <= '\r'
  }

  predicate IsSign(c: char)
  {
    c == '+' || c == '-'
  }

  /** First index at or after `i` that is not number white space. */
  function SkipWhite(s: string, i: nat): (j: nat)
    requires i <= |s|
    ensures i <= j <= |s|
    ensures j < |s| ==> !IsNumberWhite(s[j])
    ensures forall k :: i <= k < j ==> IsNumberWhite(s[k])
    decreases |s| - i
  {
    if i < |s| && IsNumberWhite(s[i]) then SkipWhite(s, i + 1) else i
  }

  /** The state of the scan through the digits: where it stopped, the digits read so
      far as one integer, how many of them follow the decimal point, and whether any
      digit has been seen. */
  datatype Scan = Scan(next: nat, coefficient: nat, scale: nat, sawDigit: bool)

  /** Integer part: digits, and the group separator ',' once a digit has been seen. */
  function ScanInteger(s: string, i: nat, acc: nat, sawDigit: bool): (r: Scan)
    requires i <= |s|
    ensures i <= r.next <= |s| && r.scale == 0
    ensures r.next < |s| ==> !IsDigit(s[r.next]) && (s[r.next] != ',' || !r.sawDigit)
    ensures r.sawDigit ==> sawDigit || exists k :: i <= k < r.next && IsDigit(s[k])
    decreases |s| - i
  {
    if i < |s| && IsDigit(s[i]) then ScanInteger(s, i + 1, acc * 10 + DigitValue(s[i]), true)
    else if i < |s| && s[i] == ',' && sawDigit then ScanInteger(s, i + 1, acc, sawDigit)
    else Scan(i, acc, 0, sawDigit)
  }

  /** Fraction part after the decimal point: digits only. */
  function ScanFraction(s: string, i: nat, acc: nat, scale: nat, sawDigit: bool): (r: Scan)
    requires i <= |s|
    ensures i <= r.next <= |s| && r.scale >= scale
    ensures r.next < |s| ==> !IsDigit(s[r.next])
    ensures r.sawDigit ==> sawDigit || exists k :: i <= k < r.next && IsDigit(s[k])
    decreases |s| - i
  {
    if i < |s| && IsDigit(s[i]) then ScanFraction(s, i + 1, acc * 10 + DigitValue(s[i]), scale + 1, true)
    else Scan(i, acc, scale, sawDigit)
  }

  /** From `i` on, the text holds only U+0000 characters. .NET's parser reads U+0000
      as the end of the text and then accepts a remainder made only of them. */
  predicate NulTail(s: string, i: nat)
    requires i <= |s|
  {
    forall k :: i <= k < |s| ==> s[k] == '\0'
  }

  /** The tail after the number: white space and, when no sign led the number, at most
      one sign, then nothing but U+0000 characters. Answers whether the tail is
      acceptable and whether it held '-'. */
  function ScanTrailing(s: string, i: nat, signAllowed: bool): (r: Option<bool>)
    requires i <= |s|
    decreases |s| - i
  {
    if i == |s| then Some(false)
    else if IsNumberWhite(s[i]) then ScanTrailing(s, i + 1, signAllowed)
    else if IsSign(s[i]) && signAllowed then
      match ScanTrailing(s, i + 1, false)
      case Some(_) => Some(s[i] == '-')
      case None => None
    else if NulTail(s, i) then Some(false)
    else None
  }

  /** `decimal.TryParse` with `NumberStyles.Number` and the invariant culture:
      leading white space, an optional leading sign, digits with ',' group separators
      after the first digit, an optional '.' and fraction digits, then trailing white
      space with an optional trailing sign, then any number of U+0000 characters.
      At least one digit is required. */
  function ParseDecimal(s: string): (r: Option<DecimalValue>)
    ensures r.Some? ==> exists k :: 0 <= k < |s| && IsDigit(s[k])
  {
    var i := SkipWhite(s, 0);
    var leadSign := i < |s| && IsSign(s[i]);
    var j := if leadSign then i + 1 else i;
    var whole := ScanInteger(s, j, 0, false);
    var num :=
      if whole.next < |s| && s[whole.next] == '.'
      then ScanFraction(s, whole.next + 1, whole.coefficient, 0, whole.sawDigit)
      else whole;
    if !num.sawDigit then None
    else
      match ScanTrailing(s, num.next, !leadSign)
      case None => None
      case Some(trailingMinus) =>
        var negative := (leadSign && s[i] == '-') || trailingMinus;
        var magnitude: int := num.coefficient;
        Some(DecimalValue(if negative then -magnitude else magnitude, num.scale))
  }

  /** Whether `decimal.TryParse(s, NumberStyles.Number, InvariantCulture, out _)` succeeds. */
  predicate IsDecimal(s: string)
  {
    ParseDecimal(s).Some?
  }

  function Magnitude(c: int): nat
  {
    if c < 0 then -c else c
  }

  /** The digits of `n` before the decimal point when `scale` digits follow it. */
  function WholePart(n: nat, scale: nat): nat
  {
    DivIsNatural(n, Pow10(scale));
    n / Pow10(scale)
  }

  lemma DivIsNatural(n: nat, d: nat)
    requires d > 0
    ensures n / d >= 0
  {
  }

  /** The last `scale` digits of `n`, those after the decimal point. */
  function FractionPart(n: nat, scale: nat): (r: nat)
    ensures r < Pow10(scale)
  {
    n % Pow10(scale)
  }

  lemma WholeFractionSplit(n: nat, scale: nat)
    ensures n == WholePart(n, scale) * Pow10(scale) + FractionPart(n, scale)
  {
  }

  /** The text `[-]whole[.fraction]`. */
  function DecimalText(negative: bool, whole: string, fraction: string): string
  {
    (if negative then "-" else "") + whole + (if fraction == [] then "" else "." + fraction)
  }

  /** The canonical invariant text of a decimal: an optional '-', the integer digits,
      and, when the scale is positive, '.' followed by exactly `scale` fraction digits. */
  function FormatDecimal(d: DecimalValue): string
  {
    var magnitude := Magnitude(d.coefficient);
    DecimalText(d.coefficient < 0, NatText(WholePart(magnitude, d.scale)),
                if d.scale == 0 then "" else PaddedDigits(FractionPart(magnitude, d.scale), d.scale))
  }

  lemma ShiftDigit(acc: nat, d: nat, n: nat, rest: nat)
    requires n > 0
    ensures (acc * 10 + d) * Pow10(n - 1) + rest == acc * Pow10(n) + (d * Pow10(n - 1) + rest)
  {
    var p := Pow10(n - 1);
    assert Pow10(n) == 10 * p;
    assert (acc * 10 + d) * p == acc * (10 * p) + d * p;
  }

  /** Scanning a block of digits adds their value to the accumulator. */
  lemma {:induction false} ScanIntegerDigits(before: string, digits: string, after: string, acc: nat, sawDigit: bool)
    requires AllDigits(digits)
    requires after != [] ==> !IsDigit(after[0]) && after[0] != ','
    ensures ScanInteger(before + digits + after, |before|, acc, sawDigit)
         == Scan(|before| + |digits|, acc * Pow10(|digits|) + DigitsValue(digits), 0, sawDigit || digits != [])
    decreases |digits|
  {
    var s := before + digits + after;
    if digits == [] {
      assert s == before + after;
    } else {
      assert s[|before|] == digits[0];
      assert s == (before + [digits[0]]) + digits[1..] + after;
      ScanIntegerDigits(before + [digits[0]], digits[1..], after, acc * 10 + DigitValue(digits[0]), true);
      DigitsValueCons(digits);
      ShiftDigit(acc, DigitValue(digits[0]), |digits|, DigitsValue(digits[1..]));
    }
  }

  lemma {:induction false} ScanFractionDigits(before: string, digits: string, acc: nat, scale: nat, sawDigit: bool)
    requires AllDigits(digits)
    ensures ScanFraction(before + digits, |before|, acc, scale, sawDigit)
         == Scan(|before| + |digits|, acc * Pow10(|digits|) + DigitsValue(digits), scale + |digits|, sawDigit || digits != [])
    decreases |digits|
  {
    var s := before + digits;
    if digits != [] {
      assert s[|before|] == digits[0];
      assert s == (before + [digits[0]]) + digits[1..];
      ScanFractionDigits(before + [digits[0]], digits[1..], acc * 10 + DigitValue(digits[0]), scale + 1, true);
      DigitsValueCons(digits);
      ShiftDigit(acc, DigitValue(digits[0]), |digits|, DigitsValue(digits[1..]));
    }
  }

  /** Round trip: the parser reads back exactly the decimal the formatter wrote. */
  lemma ParseFormatDecimal(d: DecimalValue)
    ensures ParseDecimal(FormatDecimal(d)) == Some(d)
  {
    var whole, fraction := FormatIsCanonical(d);
    ParseCanonical(d.coefficient < 0, whole, fraction);
  }

  /** The formatter writes a canonical text whose digits denote the decimal. */
  lemma FormatIsCanonical(d: DecimalValue) returns (whole: string, fraction: string)
    ensures |whole| > 0 && AllDigits(whole) && AllDigits(fraction)
    ensures FormatDecimal(d) == DecimalText(d.coefficient < 0, whole, fraction)
    ensures d == CanonicalValue(d.coefficient < 0, whole, fraction)
  {
    var magnitude := Magnitude(d.coefficient);
    whole := NatText(WholePart(magnitude, d.scale));
    var f := FractionPart(magnitude, d.scale);
    fraction := if d.scale == 0 then "" else PaddedDigits(f, d.scale);
    WholeFractionSplit(magnitude, d.scale);
    DivModUnique(f, Pow10(d.scale), 0, f);
    assert DigitsValue(whole) * Pow10(|fraction|) + DigitsValue(fraction) == magnitude;
  }

  /** The decimal that the text `[-]whole[.fraction]` shows. */
  function CanonicalValue(negative: bool, whole: string, fraction: string): DecimalValue
    requires AllDigits(whole) && AllDigits(fraction)
  {
    var c := DigitsValue(whole) * Pow10(|fraction|) + DigitsValue(fraction);
    DecimalValue(if negative then -c else c, |fraction|)
  }

  /** The text `[-]whole[.fraction]` with no white space parses to the digits it shows. */
  lemma ParseCanonical(negative: bool, whole: string, fraction: string)
    requires |whole| > 0 && AllDigits(whole) && AllDigits(fraction)
    ensures ParseDecimal(DecimalText(negative, whole, fraction)) == Some(CanonicalValue(negative, whole, fraction))
  {
    var s := DecimalText(negative, whole, fraction);
    var num := CanonicalDigits(negative, whole, fraction);
    assert s[0] == if negative then '-' else whole[0];
    assert IsSign(s[0]) == negative;
    ParseDecimalSteps(s, num, negative, CanonicalValue(negative, whole, fraction));
  }

  /** The scan of the digits of a canonical text: it reaches the end of the text. */
  lemma CanonicalDigits(negative: bool, whole: string, fraction: string) returns (num: Scan)
    requires |whole| > 0 && AllDigits(whole) && AllDigits(fraction)
    ensures var s := DecimalText(negative, whole, fraction);
      var j := if negative then 1 else 0;
      var whole' := ScanInteger(s, j, 0, false);
      num == (if whole'.next < |s| && s[whole'.next] == '.'
              then ScanFraction(s, whole'.next + 1, whole'.coefficient, 0, whole'.sawDigit)
              else whole')
    ensures num == Scan(|DecimalText(negative, whole, fraction)|,
                        DigitsValue(whole) * Pow10(|fraction|) + DigitsValue(fraction), |fraction|, true)
  {
    var sign := if negative then "-" else "";
    var tail := if fraction == [] then "" else "." + fraction;
    var s := sign + whole + tail;
    assert s == DecimalText(negative, whole, fraction);
    ScanIntegerDigits(sign, whole, tail, 0, false);
    var whole' := ScanInteger(s, |sign|, 0, false);
    assert whole' == Scan(|sign| + |whole|, DigitsValue(whole), 0, true);
    if fraction == [] {
      assert |s| == |sign| + |whole|;
      num := whole';
    } else {
      assert s[|sign| + |whole|] == '.';
      assert s == (sign + whole + ".") + fraction;
      ScanFractionDigits(sign + whole + ".", fraction, DigitsValue(whole), 0, true);
      num := ScanFraction(s, |sign| + |whole| + 1, DigitsValue(whole), 0, true);
    }
  }

  /** `ParseDecimal` on a text whose number ends the text. */
  lemma ParseDecimalSteps(s: string, num: Scan, negative: bool, value: DecimalValue)
    requires |s| > 0 && !IsNumberWhite(s[0])
    requires var j := if IsSign(s[0]) then 1 else 0;
      var whole := ScanInteger(s, j, 0, false);
      num == (if whole.next < |s| && s[whole.next] == '.'
              then ScanFraction(s, whole.next + 1, whole.coefficient, 0, whole.sawDigit)
              else whole)
    requires num.sawDigit && num.next == |s|
    requires negative == (s[0] == '-') && value == DecimalValue(if negative then -(num.coefficient as int) else num.coefficient, num.scale)
    ensures ParseDecimal(s) == Some(value)
  {
    assert SkipWhite(s, 0) == 0;
  }

  /** A tail of U+0000 characters ends the number wherever the scan stops, and
      anything after the first U+0000 other than more of them is refused. */
  lemma NulTailExamples()
    ensures ParseDecimal("5\0") == Some(DecimalValue(5, 0))
    ensures ParseDecimal("5.\0\0") == Some(DecimalValue(5, 0))
    ensures ParseDecimal("5 -\0") == Some(DecimalValue(-5, 0))
    ensures ParseDecimal("5\0 ") == None
    ensures ParseDecimal("\0") == None
  {
    assert ScanTrailing("5\0", 1, true) == Some(false);
    assert ScanTrailing("5.\0\0", 2, true) == Some(false);
    assert ScanTrailing("5 -\0", 3, false) == Some(false);
    assert ScanTrailing("5 -\0", 1, true) == Some(true);
    assert "5\0 "[2] == ' ';
    assert !NulTail("5\0 ", 1);
    assert ScanTrailing("5\0 ", 1, true) == None;
  }

  /** The sentinel "-" and white space alone are not numbers. */
  lemma SentinelsAreNotDecimals(s: string)
    requires s == "-" || forall k :: 0 <= k < |s| ==> IsNumberWhite(s[k])
    ensures !IsDecimal(s)
  {
  }

  // --------------------------------------------------- DateTime, "dd/MM/yyyy"

  predicate IsLeapYear(y: int)
  {
    (y % 4 == 0 && y % 100 != 0) || y % 400 == 0
  }

  function DaysInMonth(y: int, m: int): int
    requires 1 <= m <= 12
  {
    if m == 2 then (if IsLeapYear(y) then 29 else 28)
    else if m == 4 || m == 6 || m == 9 || m == 11 then 30
    else 31
  }

  /** A day `DateTime` can represent: years 1 to 9999 of the Gregorian calendar. */
  predicate IsValidDate(d: Date)
  {
    1 <= d.year <= 9999 && 1 <= d.month <= 12 && 1 <= d.day <= DaysInMonth(d.year, d.month)
  }

  /** The exact text shape "dd/MM/yyyy": two digits, '/', two digits, '/', four digits. */
  predicate HasDateShape(s: string)
  {
    |s| == 10 && s[2] == '/' && s[5] == '/'
    && AllDigits(s[0..2]) && AllDigits(s[3..5]) && AllDigits(s[6..10])
  }

  /** `DateTime.TryParseExact(s, "dd/MM/yyyy", InvariantCulture, DateTimeStyles.None)`:
      no white space, no other separator, zero-padded day and month, four-digit year,
      and the day must exist in the calendar. */
  function ParseDate(s: string): (r: Option<Date>)
    ensures r.Some? ==> IsValidDate(r.value)
  {
    if !HasDateShape(s) then None
    else
      var d := Date(DigitsValue(s[6..10]), DigitsValue(s[3..5]), DigitsValue(s[0..2]));
      if IsValidDate(d) then Some(d) else None
  }

  /** `date.ToString("dd/MM/yyyy", InvariantCulture)` for a representable date. */
  function FormatDate(d: Date): (s: string)
    requires IsValidDate(d)
    ensures HasDateShape(s)
  {
    var s := PaddedDigits(d.day, 2) + "/" + PaddedDigits(d.month, 2) + "/" + PaddedDigits(d.year, 4);
    assert s[0..2] == PaddedDigits(d.day, 2);
    assert s[3..5] == PaddedDigits(d.month, 2);
    assert s[6..10] == PaddedDigits(d.year, 4);
    s
  }

  /** Every representable date is read back from its own text. */
  lemma ParseFormatDate(d: Date)
    requires IsValidDate(d)
    ensures ParseDate(FormatDate(d)) == Some(d)
  {
    var s := FormatDate(d);
    assert s[0..2] == PaddedDigits(d.day, 2);
    assert s[3..5] == PaddedDigits(d.month, 2);
    assert s[6..10] == PaddedDigits(d.year, 4);
    assert Pow10(2) == 100 && Pow10(4) == 10000;
    DivModUnique(d.day, 100, 0, d.day);
    DivModUnique(d.month, 100, 0, d.month);
    DivModUnique(d.year, 10000, 0, d.year);
    assert Date(DigitsValue(s[6..10]), DigitsValue(s[3..5]), DigitsValue(s[0..2])) == d;
  }

  /** And every accepted text is the formatting of the date read from it, so the
      accepted texts and the representable dates correspond one to one. */
  lemma FormatParseDate(s: string)
    requires ParseDate(s).Some?
    ensures FormatDate(ParseDate(s).value) == s
  {
    var d := ParseDate(s).value;
    var t := FormatDate(d);
    PaddedDigitsOfValue(s[0..2]);
    PaddedDigitsOfValue(s[3..5]);
    PaddedDigitsOfValue(s[6..10]);
    assert t[0..2] == s[0..2] && t[3..5] == s[3..5] && t[6..10] == s[6..10];
    assert t == t[0..2] + t[2..3] + t[3..5] + t[5..6] + t[6..10];
    assert s == s[0..2] + s[2..3] + s[3..5] + s[5..6] + s[6..10];
  }

  /** A digit string is the zero-padded text of its own value. */
  lemma {:induction false} PaddedDigitsOfValue(s: string)
    requires AllDigits(s)
    ensures PaddedDigits(DigitsValue(s), |s|) == s
  {
    if s != [] {
      var prefix := s[..|s| - 1];
      var d := DigitValue(s[|s| - 1]);
      DivModUnique(DigitsValue(s), 10, DigitsValue(prefix), d);
      PaddedDigitsOfValue(prefix);
      assert DigitChar(d) == s[|s| - 1];
      assert PaddedDigits(DigitsValue(s), |s|) == PaddedDigits(DigitsValue(prefix), |s| - 1) + [DigitChar(d)];
      assert s == prefix + [s[|s| - 1]];
    }
  }

  /** The example from the validation tests: the ISO text "2023-01-01" is refused and
      "01/01/2023" is 1 January 2023. */
  lemma DateExamples()
    ensures ParseDate("2023-01-01") == None
    ensures ParseDate("01/01/2023") == Some(Date(2023, 1, 1))
  {
    var s := "01/01/2023";
    assert s[0..2] == "01" && s[3..5] == "01" && s[6..10] == "2023";
    assert DigitsValue("01") == 1 by { assert "01"[..1] == "0"; }
    assert DigitsValue("2023") == 2023 by {
      assert "2023"[..3] == "202";
      assert "202"[..2] == "20";
      assert "20"[..1] == "2";
    }
  }
}
