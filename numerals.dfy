/**
 * Numbers written as text: the fixed-width digit fields of `strftime`, the
 * lower-case hexadecimal of `uuid.UUID.hex`, and Python's `str(int)`.
 */
module Numerals {

  function Pow(base: nat, e: nat): (r: nat)
    ensures base >= 1 ==> r >= 1
  {
    if e == 0 then 1 else base * Pow(base, e - 1)
  }

  predicate IsDigit(c: char, base: nat) {
    ('0' <= c <= '9' && (c as int - '0' as int) < base)
    || ('a' <= c <= 'f' && (c as int - 'a' as int) + 10 < base)
  }

  function DigitChar(d: nat): (c: char)
    requires d < 16
  {
    if d < 10 then ('0' as int + d) as char else ('a' as int + d - 10) as char
  }

  function DigitValue(c: char): nat
  {
    if '0' <= c <= '9' then c as int - '0' as int
    else if 'a' <= c <= 'f' then c as int - 'a' as int + 10
    else 0
  }

  /** `n` written with exactly `width` digits in `base`, most significant first, zero-padded. */
  function Digits(n: nat, width: nat, base: nat): (r: string)
    requires 2 <= base <= 16
    ensures |r| == width
    decreases width
  {
    if width == 0 then ""
    else Digits(n / base, width - 1, base) + [DigitChar(n % base)]
  }

  /** Every character of a digit field is a digit of its base. */
  lemma {:induction false} DigitsAreDigits(n: nat, width: nat, base: nat)
    requires 2 <= base <= 16
    ensures forall i | 0 <= i < width :: IsDigit(Digits(n, width, base)[i], base)
    decreases width
  {
    if width > 0 {
      DigitsAreDigits(n / base, width - 1, base);
      var prefix := Digits(n / base, width - 1, base);
      assert Digits(n, width, base) == prefix + [DigitChar(n % base)];
      forall i | 0 <= i < width ensures IsDigit(Digits(n, width, base)[i], base) {
        if i < width - 1 {
          assert Digits(n, width, base)[i] == prefix[i];
        }
      }
    }
  }

  /** The number a string of digits denotes. */
  function ValueOf(s: string, base: nat): nat
  {
    if s == [] then 0 else ValueOf(s[..|s| - 1], base) * base + DigitValue(s[|s| - 1])
  }

  lemma ValueOfSnoc(s: string, c: char, base: nat)
    ensures ValueOf(s + [c], base) == ValueOf(s, base) * base + DigitValue(c)
  {
    assert (s + [c])[..|s|] == s;
  }

  lemma DivBelowPow(n: nat, base: nat, e: nat)
    requires base >= 2 && e >= 1 && n < Pow(base, e)
    ensures n / base < Pow(base, e - 1)
  {
    var q, p := n / base, Pow(base, e - 1);
    assert base * q <= n < base * p;
    ScaleBack(base, q, p);
  }

  lemma ScaleBack(c: nat, q: nat, p: nat)
    requires c > 0 && c * q < c * p
    ensures q < p
  {
    if q >= p {
      MulMonotone(c, p, q);
    }
  }

  lemma MulMonotone(c: nat, a: nat, b: nat)
    requires a <= b
    ensures c * a <= c * b
  {
  }

  /** Appending the last digit to digits that read as `n / base` gives digits that read as `n`. */
  lemma DigitsStep(prefix: string, n: nat, base: nat)
    requires 2 <= base <= 16 && ValueOf(prefix, base) == n / base
    ensures ValueOf(prefix + [DigitChar(n % base)], base) == n
  {
    ValueOfSnoc(prefix, DigitChar(n % base), base);
    Recombine(ValueOf(prefix, base), n, base);
  }

  lemma Recombine(v: nat, n: nat, base: nat)
    requires base >= 2 && v == n / base
    ensures v * base + n % base == n
  {
  }

  /** Reading the digits back gives the number: the digit field loses nothing when `n` fits. */
  lemma {:induction false} DigitsRoundTrip(n: nat, width: nat, base: nat)
    requires 2 <= base <= 16 && n < Pow(base, width)
    ensures ValueOf(Digits(n, width, base), base) == n
    decreases width
  {
    if width > 0 {
      DivBelowPow(n, base, width);
      DigitsRoundTrip(n / base, width - 1, base);
      DigitsStep(Digits(n / base, width - 1, base), n, base);
    }
  }

  /** Python's `str(n)` for a natural number: decimal, no leading zeros. */
  function NatToString(n: nat): (r: string)
    ensures |r| >= 1
  {
    if n < 10 then [DigitChar(n)] else NatToString(n / 10) + [DigitChar(n % 10)]
  }

  /** `str(n)` is a string of decimal digits without a leading zero that reads back as `n`. */
  lemma {:induction false} NatToStringRoundTrip(n: nat)
    ensures forall i | 0 <= i < |NatToString(n)| :: IsDigit(NatToString(n)[i], 10)
    ensures |NatToString(n)| > 1 ==> NatToString(n)[0] != '0'
    ensures ValueOf(NatToString(n), 10) == n
  {
    if n >= 10 {
      NatToStringRoundTrip(n / 10);
      ValueOfSnoc(NatToString(n / 10), DigitChar(n % 10), 10);
      assert NatToString(n)[0] == NatToString(n / 10)[0];
    }
  }

  /** Python's `str(i)` for an integer (as in an f-string). */
  function IntToString(i: int): (r: string)
    ensures |r| >= 1
  {
    if i < 0 then "-" + NatToString(-i) else NatToString(i)
  }

  /** `str(i)` starts with a minus sign exactly for negative `i`, and its digits read back as `|i|`. */
  lemma IntToStringRoundTrip(i: int)
    ensures (IntToString(i)[0] == '-') <==> i < 0
    ensures i < 0 ==> ValueOf(IntToString(i)[1..], 10) == -i
    ensures i >= 0 ==> ValueOf(IntToString(i), 10) == i
  {
    var n := if i < 0 then -i else i;
    NatToStringRoundTrip(n);
    if i < 0 {
      assert IntToString(i)[1..] == NatToString(n);
    } else {
      assert IsDigit(NatToString(n)[0], 10);
    }
  }

  // ---------------------------------------------------------------- clock

  /** A wall-clock reading, already converted to the time zone the caller formats it in. */
  datatype DateTime = DateTime(year: nat, month: nat, day: nat, hour: nat, minute: nat, second: nat)

  /** What a clock read returns; the year is four digits wide so that `%Y` fills four places. */
  predicate ValidDateTime(t: DateTime) {
    1000 <= t.year <= 9999 && 1 <= t.month <= 12 && 1 <= t.day <= 31
    && t.hour < 24 && t.minute < 60 && t.second < 60
  }

  function D2(n: nat): string { Digits(n, 2, 10) }

  /** `strftime('%Y%m%d%H%M%S')`. */
  function CompactStamp(t: DateTime): string
  {
    Digits(t.year, 4, 10) + D2(t.month) + D2(t.day) + D2(t.hour) + D2(t.minute) + D2(t.second)
  }

  /** `strftime('%Y%m%d_%H%M%S')`. */
  function UnderscoreStamp(t: DateTime): string
  {
    Digits(t.year, 4, 10) + D2(t.month) + D2(t.day) + "_" + D2(t.hour) + D2(t.minute) + D2(t.second)
  }

  /** Reads the six fields back from the digits of either layout (`gap` is 1 when a `_` separates date and time). */
  function ParseStamp(s: string, gap: nat): DateTime
    requires |s| == 14 + gap
  {
    DateTime(ValueOf(s[0..4], 10), ValueOf(s[4..6], 10), ValueOf(s[6..8], 10),
             ValueOf(s[8 + gap..10 + gap], 10), ValueOf(s[10 + gap..12 + gap], 10),
             ValueOf(s[12 + gap..14 + gap], 10))
  }

  lemma FieldsRoundTrip(t: DateTime)
    requires ValidDateTime(t)
    ensures ValueOf(Digits(t.year, 4, 10), 10) == t.year
    ensures ValueOf(D2(t.month), 10) == t.month && ValueOf(D2(t.day), 10) == t.day
    ensures ValueOf(D2(t.hour), 10) == t.hour && ValueOf(D2(t.minute), 10) == t.minute
    ensures ValueOf(D2(t.second), 10) == t.second
  {
    assert Pow(10, 4) == 10000 && Pow(10, 2) == 100;
    DigitsRoundTrip(t.year, 4, 10);
    DigitsRoundTrip(t.month, 2, 10);
    DigitsRoundTrip(t.day, 2, 10);
    DigitsRoundTrip(t.hour, 2, 10);
    DigitsRoundTrip(t.minute, 2, 10);
    DigitsRoundTrip(t.second, 2, 10);
  }

  predicate AllDigits(s: string) {
    forall i | 0 <= i < |s| :: IsDigit(s[i], 10)
  }

  /** Where the six fields and the optional separator sit in a stamp. */
  lemma Layout(a: string, b: string, c: string, sep: string, d: string, e: string, f: string)
    requires |a| == 4 && |b| == 2 && |c| == 2 && |d| == 2 && |e| == 2 && |f| == 2
    requires AllDigits(a) && AllDigits(b) && AllDigits(c) && AllDigits(d) && AllDigits(e) && AllDigits(f)
    requires sep == "" || sep == "_"
    ensures var s, g := a + b + c + sep + d + e + f, |sep|;
            && |s| == 14 + g && s[0..4] == a && s[4..6] == b && s[6..8] == c
            && s[8 + g..10 + g] == d && s[10 + g..12 + g] == e && s[12 + g..14 + g] == f
            && (g == 1 ==> s[8] == '_')
            && forall i | 0 <= i < 14 + g && !(g == 1 && i == 8) :: IsDigit(s[i], 10)
  {
    var s, g := a + b + c + sep + d + e + f, |sep|;
    forall i | 0 <= i < 14 + g && !(g == 1 && i == 8) ensures IsDigit(s[i], 10) {
      if i < 4 { assert s[i] == a[i]; }
      else if i < 6 { assert s[i] == b[i - 4]; }
      else if i < 8 { assert s[i] == c[i - 6]; }
      else if i < 10 + g { assert s[i] == d[i - 8 - g]; }
      else if i < 12 + g { assert s[i] == e[i - 10 - g]; }
      else { assert s[i] == f[i - 12 - g]; }
    }
  }

  /** Each field of a valid reading is written with digits that read back as the field. */
  lemma FieldDigits(t: DateTime)
    requires ValidDateTime(t)
    ensures AllDigits(Digits(t.year, 4, 10)) && AllDigits(D2(t.month)) && AllDigits(D2(t.day))
    ensures AllDigits(D2(t.hour)) && AllDigits(D2(t.minute)) && AllDigits(D2(t.second))
  {
    DigitsAreDigits(t.year, 4, 10);
    DigitsAreDigits(t.month, 2, 10);
    DigitsAreDigits(t.day, 2, 10);
    DigitsAreDigits(t.hour, 2, 10);
    DigitsAreDigits(t.minute, 2, 10);
    DigitsAreDigits(t.second, 2, 10);
  }

  /** The ingestion layout is fourteen decimal digits from which the reading is recovered. */
  lemma CompactStampRoundTrip(t: DateTime)
    requires ValidDateTime(t)
    ensures |CompactStamp(t)| == 14
    ensures forall i | 0 <= i < 14 :: IsDigit(CompactStamp(t)[i], 10)
    ensures ParseStamp(CompactStamp(t), 0) == t
  {
    FieldsRoundTrip(t);
    FieldDigits(t);
    var a, b, c, d, e, f := Digits(t.year, 4, 10), D2(t.month), D2(t.day), D2(t.hour), D2(t.minute), D2(t.second);
    Layout(a, b, c, "", d, e, f);
    assert a + b + c + "" == a + b + c;
  }

  /** The upload-helper layout is eight digits, `_`, six digits, and gives the reading back. */
  lemma UnderscoreStampRoundTrip(t: DateTime)
    requires ValidDateTime(t)
    ensures |UnderscoreStamp(t)| == 15 && UnderscoreStamp(t)[8] == '_'
    ensures forall i | 0 <= i < 15 && i != 8 :: IsDigit(UnderscoreStamp(t)[i], 10)
    ensures ParseStamp(UnderscoreStamp(t), 1) == t
  {
    FieldsRoundTrip(t);
    FieldDigits(t);
    var a, b, c, d, e, f := Digits(t.year, 4, 10), D2(t.month), D2(t.day), D2(t.hour), D2(t.minute), D2(t.second);
    Layout(a, b, c, "_", d, e, f);
  }

  // ---------------------------------------------------------------- uuid

  /** A 128-bit UUID value, as `uuid.uuid4()` draws it. */
  type Uuid = n: nat | n < 0x1_0000_0000_0000_0000_0000_0000_0000_0000

  /** `uuid.UUID.hex`: 32 lower-case hexadecimal digits. */
  function UuidHex(u: Uuid): string
  {
    Digits(u, 32, 16)
  }

  /** `uuid.uuid4().hex[:8]`, the random suffix used for session ids and file names. */
  function Hex8(u: Uuid): (r: string)
    ensures |r| == 8
  {
    UuidHex(u)[..8]
  }

  /** The random suffix is eight hexadecimal digits. */
  lemma Hex8Digits(u: Uuid)
    ensures forall i | 0 <= i < 8 :: IsDigit(Hex8(u)[i], 16)
  {
    DigitsAreDigits(u, 32, 16);
  }
}
