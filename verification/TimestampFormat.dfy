/**
 The string layout of the build timestamp, `YYYY-MM-DDTHH:MM:SSZ`, on top of the civil date.

 The reference is a parser for the layout and plain lexicographic order on strings.
 */
module TimestampFormat {
  import opened CivilTime
  import opened Prelude

  // ---------------------------------------------------------------- the formatter

  function Digit(n: nat): char
    requires n < 10
  {
    '0' + n as char
  }

  function Digits(n: nat): string {
    if n < 10 then [Digit(n)] else Digits(n / 10) + [Digit(n % 10)]
  }

  function ZeroPad(s: string, width: nat): string
    decreases width - |s|
  {
    if |s| >= width then s else ZeroPad(['0'] + s, width)
  }

  // Rust's `{:0width}`: the sign counts towards the width.
  function Pad(n: int, width: nat): string {
    if n < 0 then ['-'] + ZeroPad(Digits(-n), if width == 0 then 0 else width - 1)
    else ZeroPad(Digits(n), width)
  }

  datatype Fields = Fields(date: Date, hour: int, minute: int, second: int)

  function FieldsOf(unixSeconds: int): Fields {
    var days := unixSeconds / 86_400;
    var secondsOfDay := unixSeconds % 86_400;
    Fields(CivilFromDays(days),
           secondsOfDay / 3_600, (secondsOfDay % 3_600) / 60, secondsOfDay % 60)
  }

  function Layout(f: Fields): string {
    Pad(f.date.year, 4) + Tail(f)
  }

  function Tail(f: Fields): string {
    ['-'] + (Pad(f.date.month, 2) + (['-'] + (Pad(f.date.day, 2) + (['T'] + (Pad(f.hour, 2) +
    ([':'] + (Pad(f.minute, 2) + ([':'] + (Pad(f.second, 2) + ['Z'])))))))))
  }

  function Format(unixSeconds: int): string {
    Layout(FieldsOf(unixSeconds))
  }

  // ---------------------------------------------------------------- fields

  predicate ValidFields(f: Fields) {
    ValidDate(f.date) && 0 <= f.hour < 24 && 0 <= f.minute < 60 && 0 <= f.second < 60
  }

  function Recombine(f: Fields): int
    requires 1 <= f.date.month
  {
    DayNumber(f.date) * 86_400 + f.hour * 3_600 + f.minute * 60 + f.second
  }

  lemma ClockRecombines(sod: int)
    requires 0 <= sod < 86_400
    ensures 0 <= sod / 3_600 < 24
    ensures sod / 3_600 * 3_600 + (sod % 3_600) / 60 * 60 + sod % 60 == sod
  {
    assert sod % 3_600 == sod - sod / 3_600 * 3_600;
    assert (sod % 3_600) % 60 == sod % 60;
  }

  /** The fields are in range and recombine to the original second count. */
  lemma FieldsRecombine(t: int)
    ensures ValidFields(FieldsOf(t)) && Recombine(FieldsOf(t)) == t
  {
    var days := t / 86_400;
    CivilIsCorrect(days);
    ClockRecombines(t % 86_400);
    assert FieldsOf(t).date == CivilFromDays(days);
    assert DayNumber(FieldsOf(t).date) * 86_400 == days * 86_400;
  }

  predicate FitsI64(n: int) { -0x8000_0000_0000_0000 <= n < 0x8000_0000_0000_0000 }

  // Every value the algorithm computes from the day of the era.
  predicate EraFits(doe: int)
    requires 0 <= doe < DAYS_PER_ERA
  {
    var yoe := YearOfEra(doe);
    var doy := doe - (365 * yoe + yoe / 4 - yoe / 100);
    var mp := (5 * doy + 2) / 153;
    && FitsI64(doe - doe / 1_460) && FitsI64(doe - doe / 1_460 + doe / 36_524) && FitsI64(LeapFree(doe))
    && FitsI64(365 * yoe) && FitsI64(365 * yoe + yoe / 4) && FitsI64(365 * yoe + yoe / 4 - yoe / 100)
    && FitsI64(5 * doy) && FitsI64(5 * doy + 2) && FitsI64(153 * mp) && FitsI64(153 * mp + 2)
    && FitsI64(doy - (153 * mp + 2) / 5 + 1) && FitsI64(mp + 3) && FitsI64(mp - 9)
  }

  lemma EraArithmeticIsSmall(doe: int)
    requires 0 <= doe < DAYS_PER_ERA
    ensures EraFits(doe)
  {
    DayOfYearBounds(0, doe);
  }

  /**
   For every i64 second count every intermediate value and the year fit in an i64, so unbounded integers
   are exact.
   */
  lemma NothingOverflows(t: int)
    requires FitsI64(t)
    ensures var z := t / 86_400 + 719_468;
            var era := EraOf(z);
            var doe := z - era * DAYS_PER_ERA;
            && FitsI64(z) && FitsI64(z - 146_096) && FitsI64(era * DAYS_PER_ERA) && FitsI64(era * 400)
            && EraFits(doe) && FitsI64(YearOfEra(doe) + era * 400) && FitsI64(YearOfEra(doe) + era * 400 + 1)
  {
    var z := t / 86_400 + 719_468;
    var era := EraOf(z);
    assert -200_000_000_000_000 < z < 200_000_000_000_000;
    assert -2_000_000_000 < era < 2_000_000_000;
    EraArithmeticIsSmall(z - era * DAYS_PER_ERA);
    YearOfEraBounds(z - era * DAYS_PER_ERA);
  }

  predicate FieldsBefore(f: Fields, g: Fields) {
    || Before(f.date, g.date)
    || (f.date == g.date &&
        (f.hour < g.hour || (f.hour == g.hour &&
        (f.minute < g.minute || (f.minute == g.minute && f.second < g.second)))))
  }

  lemma FieldsAreOrdered(t1: int, t2: int)
    ensures t1 < t2 <==> FieldsBefore(FieldsOf(t1), FieldsOf(t2))
  {
    var f, g := FieldsOf(t1), FieldsOf(t2);
    FieldsRecombine(t1);
    FieldsRecombine(t2);
    DatesAreOrdered(f.date, g.date);
    DatesAreOrdered(g.date, f.date);
    var d1, d2 := DayNumber(f.date), DayNumber(g.date);
    var s1, s2 := f.hour * 3_600 + f.minute * 60 + f.second, g.hour * 3_600 + g.minute * 60 + g.second;
    assert 0 <= s1 < 86_400 && 0 <= s2 < 86_400;
    assert t1 == d1 * 86_400 + s1 && t2 == d2 * 86_400 + s2;
    assert d1 == d2 <==> f.date == g.date;
  }

  // ---------------------------------------------------------------- parsing back

  predicate IsDigit(c: char) { '0' <= c <= '9' }

  function ParseNat(s: string): nat
    requires forall i :: 0 <= i < |s| ==> IsDigit(s[i])
  {
    if s == [] then 0
    else
      assert IsDigit(s[|s| - 1]);
      ParseNat(s[..|s| - 1]) * 10 + (s[|s| - 1] as int - '0' as int)
  }

  function ParseInt(s: string): Option<int> {
    if s != [] && s[0] == '-' then
      if forall i :: 1 <= i < |s| ==> IsDigit(s[i]) then Some(0 - ParseNat(s[1..])) else None
    else
      if forall i :: 0 <= i < |s| ==> IsDigit(s[i]) then Some(ParseNat(s)) else None
  }

  lemma {:induction false} DigitsParse(n: nat)
    ensures forall i :: 0 <= i < |Digits(n)| ==> IsDigit(Digits(n)[i])
    ensures ParseNat(Digits(n)) == n
    ensures |Digits(n)| >= 1
  {
    if n < 10 {
    } else {
      DigitsParse(n / 10);
      assert Digits(n)[..|Digits(n)| - 1] == Digits(n / 10);
    }
  }

  lemma {:induction false} LeadingZero(s: string)
    requires forall i :: 0 <= i < |s| ==> IsDigit(s[i])
    ensures forall i :: 0 <= i < |['0'] + s| ==> IsDigit((['0'] + s)[i])
    ensures ParseNat(['0'] + s) == ParseNat(s)
  {
    if s != [] {
      LeadingZero(s[..|s| - 1]);
      assert (['0'] + s)[..|['0'] + s| - 1] == ['0'] + s[..|s| - 1];
    } else {
      assert (['0'] + s)[..0] == [];
    }
  }

  lemma {:induction false} ZeroPadParses(s: string, width: nat)
    requires forall i :: 0 <= i < |s| ==> IsDigit(s[i])
    ensures forall i :: 0 <= i < |ZeroPad(s, width)| ==> IsDigit(ZeroPad(s, width)[i])
    ensures ParseNat(ZeroPad(s, width)) == ParseNat(s)
    ensures |ZeroPad(s, width)| == if |s| >= width then |s| else width
    decreases width - |s|
  {
    if |s| >= width {
    } else {
      LeadingZero(s);
      ZeroPadParses(['0'] + s, width);
    }
  }

  lemma PadParsesNat(n: nat, width: nat)
    ensures ParseInt(Pad(n, width)) == Some(n)
    ensures forall i :: 0 <= i < |Pad(n, width)| ==> IsDigit(Pad(n, width)[i])
  {
    DigitsParse(n);
    ZeroPadParses(Digits(n), width);
    assert |Pad(n, width)| > 0 && IsDigit(Pad(n, width)[0]);
  }

  lemma PadParses(n: int, width: nat)
    ensures ParseInt(Pad(n, width)) == Some(n)
  {
    if n >= 0 {
      PadParsesNat(n, width);
    } else {
      var s := ZeroPad(Digits(-n), if width == 0 then 0 else width - 1);
      DigitsParse(-n);
      ZeroPadParses(Digits(-n), if width == 0 then 0 else width - 1);
      assert Pad(n, width)[1..] == s;
      assert forall i :: 1 <= i < |Pad(n, width)| ==> Pad(n, width)[i] == s[i - 1];
    }
  }

  function ParseLayout(s: string): Option<Fields> {
    if |s| < 16 then None else
    var k := |s| - 16;
    var year, month, day := ParseInt(s[..k]), ParseInt(s[k + 1..k + 3]), ParseInt(s[k + 4..k + 6]);
    var hour, minute, second :=
      ParseInt(s[k + 7..k + 9]), ParseInt(s[k + 10..k + 12]), ParseInt(s[k + 13..k + 15]);
    if && s[k] == '-' && s[k + 3] == '-' && s[k + 6] == 'T'
       && s[k + 9] == ':' && s[k + 12] == ':' && s[k + 15] == 'Z'
       && year.Some? && month.Some? && day.Some? && hour.Some? && minute.Some? && second.Some?
    then Some(Fields(Date(year.value, month.value, day.value), hour.value, minute.value, second.value))
    else None
  }

  lemma {:induction false} DigitsAreFew(n: nat, width: nat)
    requires 0 < width && n < Pow10(width)
    ensures |Digits(n)| <= width
  {
    if n < 10 {
    } else {
      DigitsAreFew(n / 10, width - 1);
    }
  }

  function Pow10(width: nat): (p: nat)
    ensures p >= 1
  {
    if width == 0 then 1 else 10 * Pow10(width - 1)
  }

  lemma TwoDigits(n: int)
    requires 0 <= n < 100
    ensures |Pad(n, 2)| == 2
  {
    assert Pow10(2) == 100;
    DigitsAreFew(n, 2);
    DigitsParse(n);
    ZeroPadParses(Digits(n), 2);
  }

  lemma TailSlices(f: Fields)
    requires ValidFields(f)
    ensures var s := Tail(f);
      && |s| == 16 && s[0] == '-' && s[3] == '-' && s[6] == 'T' && s[9] == ':' && s[12] == ':' && s[15] == 'Z'
      && s[1..3] == Pad(f.date.month, 2) && s[4..6] == Pad(f.date.day, 2)
      && s[7..9] == Pad(f.hour, 2) && s[10..12] == Pad(f.minute, 2) && s[13..15] == Pad(f.second, 2)
  {
    TwoDigits(f.date.month);
    TwoDigits(f.date.day);
    TwoDigits(f.hour);
    TwoDigits(f.minute);
    TwoDigits(f.second);
  }

  /** Whatever the year, a formatted timestamp parses back to its own fields. */
  lemma LayoutParses(f: Fields)
    requires ValidFields(f)
    ensures ParseLayout(Layout(f)) == Some(f)
  {
    var s, y, tail := Layout(f), Pad(f.date.year, 4), Tail(f);
    TailSlices(f);
    var k := |s| - 16;
    assert s[..k] == y;
    assert s[k..] == tail;
    assert s[k + 1..k + 3] == tail[1..3];
    assert s[k + 4..k + 6] == tail[4..6];
    assert s[k + 7..k + 9] == tail[7..9];
    assert s[k + 10..k + 12] == tail[10..12];
    assert s[k + 13..k + 15] == tail[13..15];
    PadParses(f.date.year, 4);
    PadParses(f.date.month, 2);
    PadParses(f.date.day, 2);
    PadParses(f.hour, 2);
    PadParses(f.minute, 2);
    PadParses(f.second, 2);
  }

  /** Formatting loses nothing: every second, in any year, is recovered from its string. */
  lemma FormatRoundTrip(t: int)
    ensures ParseLayout(Format(t)) == Some(FieldsOf(t)) && Recombine(FieldsOf(t)) == t
  {
    FieldsRecombine(t);
    LayoutParses(FieldsOf(t));
  }

  lemma FormatIsInjective(t1: int, t2: int)
    requires Format(t1) == Format(t2)
    ensures t1 == t2
  {
    FormatRoundTrip(t1);
    FormatRoundTrip(t2);
  }

  // ---------------------------------------------------------------- order

  predicate LexLess(a: string, b: string) {
    b != [] && (a == [] || a[0] < b[0] || (a[0] == b[0] && LexLess(a[1..], b[1..])))
  }

  // Exactly `width` decimal digits.
  function FixedDigits(n: nat, width: nat): string {
    if width == 0 then [] else FixedDigits(n / 10, width - 1) + [Digit(n % 10)]
  }

  lemma {:induction false} ZeroPadLast(a: string, c: char, width: nat)
    requires 0 < width
    ensures ZeroPad(a + [c], width) == ZeroPad(a, width - 1) + [c]
    decreases width - |a|
  {
    if |a| >= width - 1 {
    } else {
      assert ['0'] + (a + [c]) == (['0'] + a) + [c];
      ZeroPadLast(['0'] + a, c, width);
    }
  }

  lemma {:induction false} ZeroPadNothing(width: nat)
    ensures ZeroPad([], width) == FixedDigits(0, width)
  {
    if width == 0 {
    } else {
      ZeroPadNothing(width - 1);
      ZeroPadLast([], '0', width);
      assert ['0'] + [] == [] + ['0'];
    }
  }

  lemma {:induction false} PadIsFixed(n: nat, width: nat)
    requires 0 < width && n < Pow10(width)
    ensures Pad(n, width) == FixedDigits(n, width)
  {
    if n < 10 {
      ZeroPadLast([], Digit(n), width);
      assert [] + [Digit(n)] == Digits(n);
      ZeroPadNothing(width - 1);
    } else {
      ZeroPadLast(Digits(n / 10), Digit(n % 10), width);
      PadIsFixed(n / 10, width - 1);
    }
  }

  lemma {:induction false} LexConcat(a1: string, b1: string, a2: string, b2: string)
    requires |a1| == |a2|
    ensures LexLess(a1 + b1, a2 + b2) <==> LexLess(a1, a2) || (a1 == a2 && LexLess(b1, b2))
  {
    if a1 == [] {
      assert a1 + b1 == b1 && a2 + b2 == b2;
    } else {
      assert (a1 + b1)[1..] == a1[1..] + b1 && (a2 + b2)[1..] == a2[1..] + b2;
      LexConcat(a1[1..], b1, a2[1..], b2);
    }
  }

  lemma {:induction false} FixedDigitsOrder(n1: nat, n2: nat, width: nat)
    requires n1 < Pow10(width) && n2 < Pow10(width)
    ensures |FixedDigits(n1, width)| == |FixedDigits(n2, width)| == width
    ensures FixedDigits(n1, width) == FixedDigits(n2, width) <==> n1 == n2
    ensures LexLess(FixedDigits(n1, width), FixedDigits(n2, width)) <==> n1 < n2
  {
    if width == 0 {
    } else {
      FixedDigitsOrder(n1 / 10, n2 / 10, width - 1);
      var a1, a2 := FixedDigits(n1 / 10, width - 1), FixedDigits(n2 / 10, width - 1);
      var b1, b2 := [Digit(n1 % 10)], [Digit(n2 % 10)];
      LexConcat(a1, b1, a2, b2);
      assert a1 + b1 == a2 + b2 <==> a1 == a2 && b1 == b2 by {
        if a1 + b1 == a2 + b2 {
          assert a1 == (a1 + b1)[..width - 1] == (a2 + b2)[..width - 1] == a2;
          assert b1[0] == (a1 + b1)[width - 1] == (a2 + b2)[width - 1] == b2[0];
        }
      }
      assert LexLess(b1, b2) <==> n1 % 10 < n2 % 10;
    }
  }

  lemma LexField(n1: int, n2: int, width: nat, rest1: string, rest2: string)
    requires 0 < width && 0 <= n1 < Pow10(width) && 0 <= n2 < Pow10(width)
    ensures LexLess(Pad(n1, width) + rest1, Pad(n2, width) + rest2)
       <==> n1 < n2 || (n1 == n2 && LexLess(rest1, rest2))
  {
    PadIsFixed(n1, width);
    PadIsFixed(n2, width);
    FixedDigitsOrder(n1, n2, width);
    LexConcat(Pad(n1, width), rest1, Pad(n2, width), rest2);
  }

  // A two-digit field behind its separator.
  lemma LexSeparated(sep: char, n1: int, n2: int, rest1: string, rest2: string)
    requires 0 <= n1 < 100 && 0 <= n2 < 100
    ensures LexLess([sep] + (Pad(n1, 2) + rest1), [sep] + (Pad(n2, 2) + rest2))
       <==> n1 < n2 || (n1 == n2 && LexLess(rest1, rest2))
  {
    assert Pow10(2) == 100;
    LexField(n1, n2, 2, rest1, rest2);
    LexConcat([sep], Pad(n1, 2) + rest1, [sep], Pad(n2, 2) + rest2);
  }

  function Clock(f: Fields): string {
    ['T'] + (Pad(f.hour, 2) + ([':'] + (Pad(f.minute, 2) + ([':'] + (Pad(f.second, 2) + ['Z'])))))
  }

  lemma LexClock(f: Fields, g: Fields)
    requires ValidFields(f) && ValidFields(g)
    ensures LexLess(Clock(f), Clock(g)) <==>
      || f.hour < g.hour
      || (f.hour == g.hour && (f.minute < g.minute || (f.minute == g.minute && f.second < g.second)))
  {
    LexSeparated(':', f.second, g.second, ['Z'], ['Z']);
    LexSeparated(':', f.minute, g.minute,
                 [':'] + (Pad(f.second, 2) + ['Z']), [':'] + (Pad(g.second, 2) + ['Z']));
    LexSeparated('T', f.hour, g.hour,
                 [':'] + (Pad(f.minute, 2) + ([':'] + (Pad(f.second, 2) + ['Z']))),
                 [':'] + (Pad(g.minute, 2) + ([':'] + (Pad(g.second, 2) + ['Z']))));
  }

  /** For four-digit years, formatted timestamps sort as strings the way they sort in time. */
  lemma FormatKeepsOrder(t1: int, t2: int)
    requires 0 <= FieldsOf(t1).date.year <= 9999 && 0 <= FieldsOf(t2).date.year <= 9999
    ensures t1 < t2 <==> LexLess(Format(t1), Format(t2))
  {
    var f, g := FieldsOf(t1), FieldsOf(t2);
    FieldsRecombine(t1);
    FieldsRecombine(t2);
    FieldsAreOrdered(t1, t2);
    LexClock(f, g);
    LexSeparated('-', f.date.day, g.date.day, Clock(f), Clock(g));
    LexSeparated('-', f.date.month, g.date.month,
                 ['-'] + (Pad(f.date.day, 2) + Clock(f)), ['-'] + (Pad(g.date.day, 2) + Clock(g)));
    assert Pow10(4) == 10_000;
    LexField(f.date.year, g.date.year, 4, Tail(f), Tail(g));
  }

  /** The `date-time` shape of section 5.6 of RFC 3339, in UTC and without fractions. */
  predicate Rfc3339Shape(s: string) {
    && |s| == 20
    && s[4] == '-' && s[7] == '-' && s[10] == 'T' && s[13] == ':' && s[16] == ':' && s[19] == 'Z'
    && forall i :: 0 <= i < 20 && i !in {4, 7, 10, 13, 16, 19} ==> IsDigit(s[i])
  }

  /** The output has the standard's shape exactly when the year has one, two, three or four digits. */
  lemma ShapeIffFourDigitYear(t: int)
    ensures Rfc3339Shape(Format(t)) <==> 0 <= FieldsOf(t).date.year <= 9999
  {
    var f, s := FieldsOf(t), Format(t);
    var y := f.date.year;
    FieldsRecombine(t);
    TailSlices(f);
    TailDigits(f);
    var k := |s| - 16;
    assert s[k..] == Tail(f);
    assert forall i :: k <= i < |s| ==> s[i] == Tail(f)[i - k];
    if 0 <= y {
      PadParsesNat(y, 4);
      DigitsParse(y);
      ZeroPadParses(Digits(y), 4);
      assert Pow10(4) == 10_000;
      if y < 10_000 { DigitsAreFew(y, 4); } else { DigitsAreMany(y, 4); }
    } else {
      assert s[0] == '-';
    }
  }

  lemma TailDigits(f: Fields)
    requires ValidFields(f)
    ensures |Tail(f)| == 16
    ensures forall i :: 0 <= i < 16 && i !in {0, 3, 6, 9, 12, 15} ==> IsDigit(Tail(f)[i])
  {
    TailSlices(f);
    var s := Tail(f);
    PadParsesNat(f.date.month, 2);
    PadParsesNat(f.date.day, 2);
    PadParsesNat(f.hour, 2);
    PadParsesNat(f.minute, 2);
    PadParsesNat(f.second, 2);
    assert s[1] == s[1..3][0] && s[2] == s[1..3][1];
    assert s[4] == s[4..6][0] && s[5] == s[4..6][1];
    assert s[7] == s[7..9][0] && s[8] == s[7..9][1];
    assert s[10] == s[10..12][0] && s[11] == s[10..12][1];
    assert s[13] == s[13..15][0] && s[14] == s[13..15][1];
  }

  lemma {:induction false} DigitsAreMany(n: nat, width: nat)
    requires Pow10(width) <= n
    ensures |Digits(n)| > width
  {
    if n < 10 || width == 0 {
    } else {
      DigitsAreMany(n / 10, width - 1);
    }
  }
}
