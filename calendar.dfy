/** The proleptic Gregorian calendar behind JavaScript's `Date`: a civil date
    and its day number (days since 1970-01-01), both ways. */
module Calendar {
  datatype Date = Date(year: int, month: int, day: int)

  predicate IsLeap(y: int) { y % 4 == 0 && (y % 100 != 0 || y % 400 == 0) }

  function DaysInMonth(y: int, m: int): int
  {
    if m == 2 then (if IsLeap(y) then 29 else 28)
    else if m == 4 || m == 6 || m == 9 || m == 11 then 30
    else 31
  }

  predicate ValidDate(d: Date) {
    1 <= d.month <= 12 && 1 <= d.day <= DaysInMonth(d.year, d.month)
  }

  function MarchMonth(m: int): int { if m > 2 then m - 3 else m + 9 }

  /** Days of a 400-year era (starting 1 March of year 0) before March of its year `yoe`. */
  function YearStart(yoe: int): int { 365 * yoe + yoe / 4 - yoe / 100 }

  /** Days of a March-based year before its month `mp` (0 = March). */
  function MonthStart(mp: int): int { (153 * mp + 2) / 5 }

  /** The year of the era that holds its day `doe`. */
  function YearOfEra(doe: int): int { (doe - doe / 1460 + doe / 36524 - doe / 146096) / 365 }

  /** The March-based month that holds day `doy` of the year. */
  function MonthOfYear(doy: int): int { (5 * doy + 2) / 153 }

  function DayOfEra(yoe: int, mp: int, day: int): int
  {
    YearStart(yoe) + MonthStart(mp) + day - 1
  }

  function DaysFromCivil(d: Date): int
  {
    var y := if d.month <= 2 then d.year - 1 else d.year;
    (y / 400) * 146097 + DayOfEra(y % 400, MarchMonth(d.month), d.day) - 719468
  }

  function CivilOfEra(era: int, doe: int): Date
  {
    var yoe := YearOfEra(doe);
    var doy := doe - YearStart(yoe);
    var mp := MonthOfYear(doy);
    var m := if mp < 10 then mp + 3 else mp - 9;
    Date(if m <= 2 then era * 400 + yoe + 1 else era * 400 + yoe, m, doy - MonthStart(mp) + 1)
  }

  function CivilFromDays(n: int): Date
  {
    CivilOfEra((n + 719468) / 146097, (n + 719468) % 146097)
  }

  /** A leap year in the March-based count: the year after `yoe` has 29 February. */
  predicate LongYear(yoe: int) { (yoe + 1) % 4 == 0 && ((yoe + 1) % 100 != 0 || (yoe + 1) % 400 == 0) }

  /** The day bounds of a March-based month (month 11 is February). */
  predicate DayInMarchMonth(yoe: int, mp: int, day: int)
  {
    0 <= mp < 12 && 1 <= day &&
    (mp == 11 ==> day <= (if LongYear(yoe) then 29 else 28)) &&
    (mp != 11 ==> day <= (if mp == 1 || mp == 3 || mp == 6 || mp == 8 then 30 else 31))
  }

  // Helpers for the two round trips; each fixes one part of the conversion.

  lemma MonthPart(mp: int, d: int)
    requires 0 <= mp < 12 && 1 <= d
    requires mp == 11 ==> d <= 29
    requires mp != 11 ==> d <= (if mp == 1 || mp == 3 || mp == 6 || mp == 8 then 30 else 31)
    ensures 0 <= MonthStart(mp) + d - 1 <= 365
    ensures MonthStart(mp) + d - 1 == 365 ==> mp == 11 && d == 29
    ensures MonthOfYear(MonthStart(mp) + d - 1) == mp
  {
  }

  lemma YearBlock(c: int, q: int, r: int, doy: int)
    requires 0 <= c < 4 && 0 <= q < 25 && 0 <= r < 4 && 0 <= doy
    requires doy <= 364 || (doy == 365 && r == 3 && (q != 24 || c == 3))
    ensures YearOfEra(36524 * c + 1461 * q + 365 * r + doy) == 100 * c + 4 * q + r
  {
    var doe := 36524 * c + 1461 * q + 365 * r + doy;
    if doe == 146096 {
    } else {
      assert doe / 146096 == 0;
      assert doe / 36524 == c;
      if r == 3 && doy + 24 * c + q >= 365 {
        assert doe / 1460 == 25 * c + q + 1;
      } else {
        assert doe / 1460 == 25 * c + q;
      }
    }
  }

  lemma YearPart(yoe: int, doy: int)
    requires 0 <= yoe < 400 && 0 <= doy
    requires doy <= 364 || (doy == 365 && LongYear(yoe))
    ensures 0 <= YearStart(yoe) + doy < 146097
    ensures YearOfEra(YearStart(yoe) + doy) == yoe
  {
    var c := yoe / 100;
    var q := (yoe % 100) / 4;
    var r := yoe % 4;
    assert yoe == 100 * c + 4 * q + r;
    assert yoe / 4 == 25 * c + q;
    assert YearStart(yoe) + doy == 36524 * c + 1461 * q + 365 * r + doy;
    YearBlock(c, q, r, doy);
  }

  lemma EraRoundTrip(era: int, yoe: int, mp: int, day: int)
    requires 0 <= yoe < 400 && DayInMarchMonth(yoe, mp, day)
    ensures 0 <= DayOfEra(yoe, mp, day) < 146097
    ensures CivilOfEra(era, DayOfEra(yoe, mp, day)) ==
      var m := if mp < 10 then mp + 3 else mp - 9;
      Date(if m <= 2 then era * 400 + yoe + 1 else era * 400 + yoe, m, day)
  {
    var doy := MonthStart(mp) + day - 1;
    MonthPart(mp, day);
    YearPart(yoe, doy);
    var doe := DayOfEra(yoe, mp, day);
    assert doe == YearStart(yoe) + doy;
    assert YearOfEra(doe) == yoe;
    assert doe - YearStart(yoe) == doy;
    assert MonthOfYear(doy) == mp;
  }

  lemma LeapShift(a: int, k: int)
    ensures (a + 400 * k) % 4 == a % 4
    ensures (a + 400 * k) % 100 == a % 100
    ensures (a + 400 * k) % 400 == a % 400
  {
    ModShift4(a, 100 * k);
    ModShift100(a, 4 * k);
    ModShift400(a, k);
  }

  lemma ModShift4(a: int, j: int)
    ensures (a + 4 * j) % 4 == a % 4
  {
  }

  lemma ModShift100(a: int, j: int)
    ensures (a + 100 * j) % 100 == a % 100
  {
  }

  lemma ModShift400(a: int, j: int)
    ensures (a + 400 * j) % 400 == a % 400
  {
  }

  /** A valid date survives the trip to its day number and back. */
  lemma DateRoundTrip(d: Date)
    requires ValidDate(d)
    ensures CivilFromDays(DaysFromCivil(d)) == d
  {
    var y := if d.month <= 2 then d.year - 1 else d.year;
    MarchYear(d, y, y / 400, y % 400);
  }

  lemma MarchYear(d: Date, y: int, era: int, yoe: int)
    requires ValidDate(d)
    requires y == (if d.month <= 2 then d.year - 1 else d.year)
    requires era == y / 400 && yoe == y % 400
    ensures CivilFromDays(DaysFromCivil(d)) == d
  {
    var mp := MarchMonth(d.month);
    MarchDay(d, y, era, yoe);
    EraRoundTrip(era, yoe, mp, d.day);
    var doe := DayOfEra(yoe, mp, d.day);
    var n := DaysFromCivil(d);
    assert n + 719468 == era * 146097 + doe;
    EraOf(era, doe);
    assert CivilFromDays(n) == CivilOfEra(era, doe);
    var m := if mp < 10 then mp + 3 else mp - 9;
    assert m == d.month;
    assert era * 400 + yoe == y;
    assert CivilOfEra(era, doe) == Date(if m <= 2 then y + 1 else y, m, d.day);
  }

  /** The March-based position of a valid date is a valid position. */
  lemma MarchDay(d: Date, y: int, era: int, yoe: int)
    requires ValidDate(d)
    requires y == (if d.month <= 2 then d.year - 1 else d.year)
    requires era == y / 400 && yoe == y % 400
    ensures 0 <= yoe < 400 && DayInMarchMonth(yoe, MarchMonth(d.month), d.day)
  {
    LeapShift(yoe + 1, era);
    assert y + 1 == yoe + 1 + 400 * era;
    assert LongYear(yoe) == IsLeap(y + 1);
  }

  lemma EraOf(era: int, doe: int)
    requires 0 <= doe < 146097
    ensures (era * 146097 + doe) / 146097 == era && (era * 146097 + doe) % 146097 == doe
  {
  }

  /** Every day number names a valid date, and that date leads back to it. */
  lemma DayRoundTrip(n: int)
    ensures ValidDate(CivilFromDays(n))
    ensures DaysFromCivil(CivilFromDays(n)) == n
  {
    var z := n + 719468;
    var era, doe := z / 146097, z % 146097;
    var yoe, mp, day := EraSplit(doe);
    EraRoundTrip(era, yoe, mp, day);
    assert CivilFromDays(n) == CivilOfEra(era, doe);
    EraDate(era, yoe, mp, day);
  }

  /** The date a position in an era stands for is valid and numbered by that position. */
  lemma EraDate(era: int, yoe: int, mp: int, day: int)
    requires 0 <= yoe < 400 && DayInMarchMonth(yoe, mp, day)
    ensures var m := if mp < 10 then mp + 3 else mp - 9;
      var d := Date(if m <= 2 then era * 400 + yoe + 1 else era * 400 + yoe, m, day);
      ValidDate(d) && DaysFromCivil(d) == era * 146097 + DayOfEra(yoe, mp, day) - 719468
  {
    var m := if mp < 10 then mp + 3 else mp - 9;
    var y := era * 400 + yoe;
    var d := Date(if m <= 2 then y + 1 else y, m, day);
    LeapShift(yoe + 1, era);
    assert y + 1 == yoe + 1 + 400 * era;
    assert m == 2 ==> mp == 11 && (IsLeap(y + 1) <==> LongYear(yoe));
    assert ValidDate(d);
    assert y / 400 == era && y % 400 == yoe;
    assert MarchMonth(m) == mp;
  }

  lemma EraSplit(doe: int) returns (yoe: int, mp: int, day: int)
    requires 0 <= doe < 146097
    ensures 0 <= yoe < 400 && DayInMarchMonth(yoe, mp, day)
    ensures DayOfEra(yoe, mp, day) == doe
  {
    var doy;
    if doe == 146096 {
      yoe, doy := 399, 365;
    } else {
      var c := if doe / 36524 < 3 then doe / 36524 else 3;
      var e := doe - 36524 * c;
      var q := if e / 1461 < 24 then e / 1461 else 24;
      var f := e - 1461 * q;
      var r := if f / 365 < 3 then f / 365 else 3;
      doy := f - 365 * r;
      yoe := 100 * c + 4 * q + r;
      assert yoe / 4 == 25 * c + q && yoe / 100 == c;
      assert doe == YearStart(yoe) + doy;
      assert doy == 365 ==> r == 3 && q < 24;
    }
    mp := MonthOfYear(doy);
    day := doy - MonthStart(mp) + 1;
    DoyMonth(doy);
  }

  lemma DoyMonth(doy: int)
    requires 0 <= doy <= 365
    ensures var mp := MonthOfYear(doy); var day := doy - MonthStart(mp) + 1;
      0 <= mp < 12 && 1 <= day &&
      (mp == 11 ==> day <= 28 || (day == 29 && doy == 365)) &&
      (mp != 11 ==> day <= (if mp == 1 || mp == 3 || mp == 6 || mp == 8 then 30 else 31))
  {
  }
}
