/** Date in UTC: time values in milliseconds, calendar fields, toISOString and the parse of its
    result. Follows section 21.4.1 of ECMA-262. */
module Calendar {
  import opened Sequences
  import opened Decimal

  const MS_PER_DAY := 86_400_000

  datatype Fields = Fields(year: int, month: int, day: int, hour: int, minute: int, second: int, ms: int)

  function DayFromYear(y: int): int
  {
    365 * (y - 1970) + (y - 1969) / 4 - (y - 1901) / 100 + (y - 1601) / 400
  }

  predicate IsLeap(y: int) { y % 4 == 0 && (y % 100 != 0 || y % 400 == 0) }

  function DaysInYear(y: int): int { if IsLeap(y) then 366 else 365 }

  lemma YearLength(y: int)
    ensures DayFromYear(y + 1) == DayFromYear(y) + DaysInYear(y)
  {
    FloorStep4(y);
    FloorStep100(y);
    FloorStep400(y);
    Multiples(y);
  }

  lemma FloorStep4(y: int)
    ensures (y - 1968) / 4 == (y - 1969) / 4 + if y % 4 == 0 then 1 else 0
  {}

  lemma FloorStep100(y: int)
    ensures (y - 1900) / 100 == (y - 1901) / 100 + if y % 100 == 0 then 1 else 0
  {
    var q := y / 100;
    Quotient100(y - 1900, q - 19);
    Quotient100(y - 1901, if y == 100 * q then q - 20 else q - 19);
  }

  lemma FloorStep400(y: int)
    ensures (y - 1600) / 400 == (y - 1601) / 400 + if y % 400 == 0 then 1 else 0
  {
    var q := y / 400;
    Quotient400(y - 1600, q - 4);
    Quotient400(y - 1601, if y == 400 * q then q - 5 else q - 4);
  }

  lemma Quotient100(x: int, q: int)
    requires 100 * q <= x < 100 * q + 100
    ensures x / 100 == q
  {}

  lemma Quotient400(x: int, q: int)
    requires 400 * q <= x < 400 * q + 400
    ensures x / 400 == q
  {}

  lemma Multiples(y: int)
    ensures y % 400 == 0 ==> y % 100 == 0
    ensures y % 100 == 0 ==> y % 4 == 0
  {
    if y % 100 == 0 {
      Multiple4(y, 25 * (y / 100));
    }
    if y % 400 == 0 {
      Multiple100(y, 4 * (y / 400));
    }
  }

  lemma Multiple4(y: int, q: int)
    requires y == 4 * q
    ensures y % 4 == 0
  {}

  lemma Multiple100(y: int, q: int)
    requires y == 100 * q
    ensures y % 100 == 0
  {}

  /** How far the start of year `y` is from the year that holds `day`. */
  function Distance(day: int, y: int): nat
  {
    if day < DayFromYear(y) then DayFromYear(y) - day
    else if day >= DayFromYear(y + 1) then day - DayFromYear(y + 1) + 1
    else 0
  }

  lemma DistanceShrinks(day: int, y: int)
    ensures day < DayFromYear(y) ==> Distance(day, y - 1) < Distance(day, y)
    ensures day >= DayFromYear(y + 1) ==> Distance(day, y + 1) < Distance(day, y)
  {
    YearLength(y - 1);
    YearLength(y);
    YearLength(y + 1);
  }

  /** YearFromTime, as a search that starts at year `y`. */
  function YearFrom(day: int, y: int): (r: int)
    ensures DayFromYear(r) <= day < DayFromYear(r + 1)
    decreases Distance(day, y)
  {
    DistanceShrinks(day, y);
    if day < DayFromYear(y) then YearFrom(day, y - 1)
    else if day >= DayFromYear(y + 1) then YearFrom(day, y + 1)
    else y
  }

  lemma {:induction false} LaterYear(a: int, b: int)
    requires a < b
    ensures DayFromYear(a + 1) <= DayFromYear(b)
    decreases b - a
  {
    if a + 1 < b {
      YearLength(b - 1);
      LaterYear(a, b - 1);
    }
  }

  /** Only one year holds a given day. */
  lemma YearUnique(day: int, y: int)
    requires DayFromYear(y) <= day < DayFromYear(y + 1)
    ensures YearFrom(day, 1970) == y
  {
    var r := YearFrom(day, 1970);
    if r < y {
      LaterYear(r, y);
    } else if y < r {
      LaterYear(y, r);
    }
  }

  /** Days in the year before month `m` (1 to 13). */
  function MonthStart(leap: bool, m: int): int
  {
    var l := if leap then 1 else 0;
    if m <= 1 then 0 else if m == 2 then 31 else if m == 3 then 59 + l
    else if m == 4 then 90 + l else if m == 5 then 120 + l else if m == 6 then 151 + l
    else if m == 7 then 181 + l else if m == 8 then 212 + l else if m == 9 then 243 + l
    else if m == 10 then 273 + l else if m == 11 then 304 + l else if m == 12 then 334 + l
    else 365 + l
  }

  function MonthOf(leap: bool, dayInYear: int): (m: int)
    requires 0 <= dayInYear < if leap then 366 else 365
    ensures 1 <= m <= 12 && MonthStart(leap, m) <= dayInYear < MonthStart(leap, m + 1)
  {
    if dayInYear < MonthStart(leap, 2) then 1 else if dayInYear < MonthStart(leap, 3) then 2
    else if dayInYear < MonthStart(leap, 4) then 3 else if dayInYear < MonthStart(leap, 5) then 4
    else if dayInYear < MonthStart(leap, 6) then 5 else if dayInYear < MonthStart(leap, 7) then 6
    else if dayInYear < MonthStart(leap, 8) then 7 else if dayInYear < MonthStart(leap, 9) then 8
    else if dayInYear < MonthStart(leap, 10) then 9 else if dayInYear < MonthStart(leap, 11) then 10
    else if dayInYear < MonthStart(leap, 12) then 11 else 12
  }

  predicate ValidFields(f: Fields)
  {
    && 1 <= f.month <= 12
    && 1 <= f.day <= MonthStart(IsLeap(f.year), f.month + 1) - MonthStart(IsLeap(f.year), f.month)
    && 0 <= f.hour < 24 && 0 <= f.minute < 60 && 0 <= f.second < 60 && 0 <= f.ms < 1000
  }

  /** getUTCFullYear, getUTCMonth + 1, getUTCDate, ... of a time value. */
  function FromTime(t: int): (f: Fields)
    ensures ValidFields(f) && ToTime(f) == t
  {
    var day, rest := t / MS_PER_DAY, t % MS_PER_DAY;
    var year := YearFrom(day, 1970);
    DayInYear(day, year);
    var inYear := day - DayFromYear(year);
    var month := MonthOf(IsLeap(year), inYear);
    DatedClock(year, month, inYear, rest);
    Fields(year, month, inYear - MonthStart(IsLeap(year), month) + 1,
           rest / 3_600_000, rest / 60_000 % 60, rest / 1000 % 60, rest % 1000)
  }

  lemma DayInYear(day: int, year: int)
    requires DayFromYear(year) <= day < DayFromYear(year + 1)
    ensures 0 <= day - DayFromYear(year) < if IsLeap(year) then 366 else 365
  {
    YearLength(year);
  }

  lemma DatedClock(year: int, month: int, inYear: int, rest: int)
    requires 1 <= month <= 12 && 0 <= rest < MS_PER_DAY
    requires MonthStart(IsLeap(year), month) <= inYear < MonthStart(IsLeap(year), month + 1)
    ensures var f := Fields(year, month, inYear - MonthStart(IsLeap(year), month) + 1,
                            rest / 3_600_000, rest / 60_000 % 60, rest / 1000 % 60, rest % 1000);
            ValidFields(f) && ToTime(f) == (DayFromYear(year) + inYear) * MS_PER_DAY + rest
  {
    ClockFields(rest);
  }

  lemma ClockFields(rest: int)
    requires 0 <= rest < MS_PER_DAY
    ensures 0 <= rest / 3_600_000 < 24
    ensures rest == rest / 3_600_000 * 3_600_000 + rest / 60_000 % 60 * 60_000 + rest / 1000 % 60 * 1000 + rest % 1000
  {
    assert rest / 60_000 / 60 == rest / 3_600_000;
    assert rest / 1000 / 60 == rest / 60_000;
  }

  /** Date.UTC of the fields. */
  function ToTime(f: Fields): int
  {
    (DayFromYear(f.year) + MonthStart(IsLeap(f.year), f.month) + f.day - 1) * MS_PER_DAY
    + f.hour * 3_600_000 + f.minute * 60_000 + f.second * 1000 + f.ms
  }

  function DayNumber(f: Fields): int
  {
    DayFromYear(f.year) + MonthStart(IsLeap(f.year), f.month) + f.day - 1
  }

  lemma SplitTime(f: Fields)
    requires ValidFields(f)
    ensures ToTime(f) / MS_PER_DAY == DayNumber(f)
    ensures ToTime(f) % MS_PER_DAY == f.hour * 3_600_000 + f.minute * 60_000 + f.second * 1000 + f.ms
  {
    var clock := f.hour * 3_600_000 + f.minute * 60_000 + f.second * 1000 + f.ms;
    assert 0 <= clock < MS_PER_DAY;
    assert ToTime(f) == DayNumber(f) * MS_PER_DAY + clock;
  }

  lemma MonthUnique(leap: bool, m: int, d: int, n: int, e: int)
    requires 1 <= m <= 12 && 1 <= d <= MonthStart(leap, m + 1) - MonthStart(leap, m)
    requires 1 <= n <= 12 && 1 <= e <= MonthStart(leap, n + 1) - MonthStart(leap, n)
    requires MonthStart(leap, m) + d == MonthStart(leap, n) + e
    ensures m == n && d == e
  {}

  lemma ClockUnique(a: int, b: int, c: int, d: int, p: int, q: int, r: int, s: int)
    requires 0 <= b < 60 && 0 <= c < 60 && 0 <= d < 1000 && 0 <= q < 60 && 0 <= r < 60 && 0 <= s < 1000
    requires a * 3_600_000 + b * 60_000 + c * 1000 + d == p * 3_600_000 + q * 60_000 + r * 1000 + s
    ensures a == p && b == q && c == r && d == s
  {}

  lemma MonthStartBounds(f: Fields)
    requires ValidFields(f)
    ensures 0 <= MonthStart(IsLeap(f.year), f.month) + f.day - 1 < DaysInYear(f.year)
  {}

  /** The fields of a time value are the only valid ones that denote it. */
  lemma FieldsUnique(f: Fields, g: Fields)
    requires ValidFields(f) && ValidFields(g) && ToTime(f) == ToTime(g)
    ensures f == g
  {
    SplitTime(f);
    SplitTime(g);
    DateUnique(f, g);
    ClockUnique(f.hour, f.minute, f.second, f.ms, g.hour, g.minute, g.second, g.ms);
  }

  lemma DateUnique(f: Fields, g: Fields)
    requires ValidFields(f) && ValidFields(g) && DayNumber(f) == DayNumber(g)
    ensures f.year == g.year && f.month == g.month && f.day == g.day
  {
    YearOfFields(f);
    YearOfFields(g);
    MonthAndDayUnique(f, g);
  }

  lemma MonthAndDayUnique(f: Fields, g: Fields)
    requires ValidFields(f) && ValidFields(g) && DayNumber(f) == DayNumber(g) && f.year == g.year
    ensures f.month == g.month && f.day == g.day
  {
    MonthUnique(IsLeap(f.year), f.month, f.day, g.month, g.day);
  }

  lemma YearOfFields(f: Fields)
    requires ValidFields(f)
    ensures YearFrom(DayNumber(f), 1970) == f.year
  {
    MonthStartBounds(f);
    YearLength(f.year);
    YearUnique(DayNumber(f), f.year);
  }

  /** Date.prototype.toISOString: four-digit years plain, all others signed with six digits. */
  function IsoText(t: int): string
  {
    var f := FromTime(t);
    Layout(YearText(f.year), Padded(f.month, 2), Padded(f.day, 2), Padded(f.hour, 2), Padded(f.minute, 2),
           Padded(f.second, 2), Padded(f.ms, 3))
  }

  function Layout(year: string, month: string, day: string, hour: string, minute: string, second: string,
                  ms: string): string
  {
    year + "-" + month + "-" + day + "T" + hour + ":" + minute + ":" + second + "." + ms + "Z"
  }

  function YearText(y: int): string
  {
    if 0 <= y <= 9999 then Padded(y, 4)
    else if y > 9999 then "+" + Padded(y, 6)
    else "-" + Padded(-y, 6)
  }

  /** The pattern by which the index recognises a timestamp. */
  predicate LooksLikeIso(s: string)
  {
    && |s| == 24
    && AllDigits(s[0..4]) && s[4] == '-' && AllDigits(s[5..7]) && s[7] == '-' && AllDigits(s[8..10])
    && s[10] == 'T' && AllDigits(s[11..13]) && s[13] == ':' && AllDigits(s[14..16]) && s[16] == ':'
    && AllDigits(s[17..19]) && s[19] == '.' && AllDigits(s[20..23]) && s[23] == 'Z'
  }

  function IsoFields(s: string): Fields
    requires LooksLikeIso(s)
  {
    Fields(Value(s[0..4]), Value(s[5..7]), Value(s[8..10]), Value(s[11..13]),
           Value(s[14..16]), Value(s[17..19]), Value(s[20..23]))
  }

  /** new Date(s) on a text of the pattern whose fields are in range. */
  function ParseIso(s: string): Option<int>
    requires LooksLikeIso(s)
  {
    if ValidFields(IsoFields(s)) then Some(ToTime(IsoFields(s))) else None
  }

  lemma DigitsOfFields(f: Fields)
    requires ValidFields(f)
    ensures |Padded(f.month, 2)| == |Padded(f.day, 2)| == |Padded(f.hour, 2)| == 2
    ensures |Padded(f.minute, 2)| == |Padded(f.second, 2)| == 2 && |Padded(f.ms, 3)| == 3
  {
    assert f.day <= 31;
    assert PowerOfTen(2) == 10 * PowerOfTen(1) == 100 && PowerOfTen(3) == 1000;
    PaddedWidth(f.month, 2);
    PaddedWidth(f.day, 2);
    PaddedWidth(f.hour, 2);
    PaddedWidth(f.minute, 2);
    PaddedWidth(f.second, 2);
    PaddedWidth(f.ms, 3);
  }

  lemma YearTextWidth(y: int)
    ensures |YearText(y)| == 4 <==> 0 <= y <= 9999
  {
    if 0 <= y <= 9999 {
      assert PowerOfTen(4) == 10 * PowerOfTen(3) && PowerOfTen(3) == 10 * PowerOfTen(2) && PowerOfTen(2) == 100;
      PaddedWidth(y, 4);
    }
  }

  /** A four-digit year prints to the pattern and every field reads back. */
  lemma PrintedFields(t: int)
    requires 0 <= FromTime(t).year <= 9999
    ensures LooksLikeIso(IsoText(t)) && IsoFields(IsoText(t)) == FromTime(t)
  {
    var f := FromTime(t);
    var s := IsoText(t);
    DigitsOfFields(f);
    YearTextWidth(f.year);
    var year, month, day := Padded(f.year, 4), Padded(f.month, 2), Padded(f.day, 2);
    var hour, minute, second, ms := Padded(f.hour, 2), Padded(f.minute, 2), Padded(f.second, 2), Padded(f.ms, 3);
    SlicesOf(year, month, day, hour, minute, second, ms);
    ValueOfPadded(f.year, 4);
    ValueOfPadded(f.month, 2);
    ValueOfPadded(f.day, 2);
    ValueOfPadded(f.hour, 2);
    ValueOfPadded(f.minute, 2);
    ValueOfPadded(f.second, 2);
    ValueOfPadded(f.ms, 3);
  }

  lemma SlicesOf(year: string, month: string, day: string, hour: string, minute: string, second: string, ms: string)
    requires |year| == 4 && |month| == 2 && |day| == 2 && |hour| == 2 && |minute| == 2 && |second| == 2 && |ms| == 3
    ensures var s := Layout(year, month, day, hour, minute, second, ms);
            && |s| == 24
            && s[0..4] == year && s[5..7] == month && s[8..10] == day && s[11..13] == hour
            && s[14..16] == minute && s[17..19] == second && s[20..23] == ms
            && s[4] == s[7] == '-' && s[10] == 'T' && s[13] == s[16] == ':' && s[19] == '.' && s[23] == 'Z'
  {}

  /** toISOString matches the pattern exactly for the years 0 to 9999. */
  lemma PatternIffFourDigitYear(t: int)
    ensures LooksLikeIso(IsoText(t)) <==> 0 <= FromTime(t).year <= 9999
  {
    if 0 <= FromTime(t).year <= 9999 {
      PrintedFields(t);
    } else {
      DigitsOfFields(FromTime(t));
      YearTextWidth(FromTime(t).year);
      assert |IsoText(t)| == |YearText(FromTime(t).year)| + 20;
    }
  }

  /** Printing a timestamp and parsing it again gives the same instant. */
  lemma ParseOfPrint(t: int)
    requires 0 <= FromTime(t).year <= 9999
    ensures LooksLikeIso(IsoText(t)) && ParseIso(IsoText(t)) == Some(t)
  {
    PrintedFields(t);
  }

  /** Parsing a timestamp and printing it again gives the same text. */
  lemma PrintOfParse(s: string)
    requires LooksLikeIso(s) && ParseIso(s).Some?
    ensures IsoText(ParseIso(s).value) == s
  {
    var f := IsoFields(s);
    FieldsUnique(f, FromTime(ToTime(f)));
    PaddedOfValue(s[0..4]);
    PaddedOfValue(s[5..7]);
    PaddedOfValue(s[8..10]);
    PaddedOfValue(s[11..13]);
    PaddedOfValue(s[14..16]);
    PaddedOfValue(s[17..19]);
    PaddedOfValue(s[20..23]);
    FourDigits(s[0..4]);
    Reassemble(s);
  }

  lemma FourDigits(s: string)
    requires AllDigits(s) && |s| == 4
    ensures Value(s) <= 9999
  {
    assert PowerOfTen(4) == 10 * PowerOfTen(3) && PowerOfTen(3) == 10 * PowerOfTen(2) && PowerOfTen(2) == 100;
    PaddedOfValue(s);
    PaddedWidth(Value(s), 4);
  }

  lemma Reassemble(s: string)
    requires LooksLikeIso(s)
    ensures s == Layout(s[0..4], s[5..7], s[8..10], s[11..13], s[14..16], s[17..19], s[20..23])
  {
    assert s[..4] == s[0..4];
    OnePart(s, 4, 7);
    OnePart(s, 7, 10);
    OnePart(s, 10, 13);
    OnePart(s, 13, 16);
    OnePart(s, 16, 19);
    OnePart(s, 19, 23);
    assert s == s[..23] + [s[23]];
  }

  lemma OnePart(s: string, i: nat, j: nat)
    requires i < j <= |s|
    ensures s[..j] == s[..i] + [s[i]] + s[i + 1..j]
  {}

  // ----- the calendar as it is known -----

  /** Thirty days hath September, and the other months by the usual rule. */
  lemma MonthLengths(leap: bool, m: int)
    requires 1 <= m <= 12
    ensures MonthStart(leap, 1) == 0
    ensures MonthStart(leap, m + 1) - MonthStart(leap, m) ==
            if m == 2 then (if leap then 29 else 28)
            else if m == 4 || m == 6 || m == 9 || m == 11 then 30 else 31
  {}

  /** A leap day, the day after the one that 2100 does not have, and the last second before the epoch. */
  lemma KnownDates()
    ensures FromTime(951_782_400_000) == Fields(2000, 2, 29, 0, 0, 0, 0)
    ensures FromTime(4_107_542_400_000) == Fields(2100, 3, 1, 0, 0, 0, 0)
    ensures FromTime(-1000) == Fields(1969, 12, 31, 23, 59, 59, 0)
  {
    FieldsUnique(FromTime(951_782_400_000), Fields(2000, 2, 29, 0, 0, 0, 0));
    FieldsUnique(FromTime(4_107_542_400_000), Fields(2100, 3, 1, 0, 0, 0, 0));
    FieldsUnique(FromTime(-1000), Fields(1969, 12, 31, 23, 59, 59, 0));
  }

  /** Years of more than four digits and years before 0 are printed with sign and six digits. */
  lemma YearsPrinted()
    ensures YearText(2024) == "2024" && YearText(12_024) == "+012024" && YearText(-44) == "-000044"
  {
    PrintedPlain();
    PrintedLong();
    PrintedNegative();
  }

  lemma PrintedPlain()
    ensures Padded(2024, 4) == "2024"
  {
    PaddedStep(20, 2, 2, 0);
    PaddedStep(202, 3, 20, 2);
    PaddedStep(2024, 4, 202, 4);
    assert Padded(2, 1) == "2";
  }

  lemma PrintedLong()
    ensures Padded(12_024, 6) == "012024"
  {
    assert Padded(0, 1) == "0";
    PaddedStep(1, 2, 0, 1);
    PaddedStep(12, 3, 1, 2);
    PaddedStep(120, 4, 12, 0);
    PaddedStep(1202, 5, 120, 2);
    PaddedStep(12_024, 6, 1202, 4);
  }

  lemma PrintedNegative()
    ensures Padded(44, 6) == "000044"
  {
    assert Padded(0, 1) == "0";
    PaddedStep(0, 2, 0, 0);
    PaddedStep(0, 3, 0, 0);
    PaddedStep(0, 4, 0, 0);
    PaddedStep(4, 5, 0, 4);
    PaddedStep(44, 6, 4, 4);
  }
}
