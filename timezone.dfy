/** The date helpers of the app: user dates in the Asia/Seoul timezone and the
    UTC instants that bound them. An instant is a JavaScript time value,
    milliseconds since 1970-01-01T00:00:00Z; Asia/Seoul is UTC+9 all year. */
module Timezone {
  import opened Common
  import opened Strings
  import opened Calendar

  const MS_PER_SECOND: int := 1000
  const MS_PER_MINUTE: int := 60000
  const MS_PER_HOUR: int := 3600000
  const MS_PER_DAY: int := 86400000
  /** The offset of Asia/Seoul, the default (and only modelled) timezone. */
  const KST_OFFSET: int := 9 * MS_PER_HOUR
  /** The largest magnitude of a time value a JavaScript `Date` can hold. */
  const MAX_TIME: int := 8640000000000000

  /** The message of the RangeError `toISOString` and date formatting throw
      on an invalid date. */
  const INVALID_TIME: string := "Invalid time value"

  predicate ValidTime(t: int) { -MAX_TIME <= t <= MAX_TIME }

  /** The user's calendar day (a day number) at instant `t`. */
  function LocalDay(t: int): int { (t + KST_OFFSET) / MS_PER_DAY }

  /** Milliseconds since the user's local midnight at instant `t`. */
  function LocalMillis(t: int): (ms: int)
    ensures 0 <= ms < MS_PER_DAY
    ensures t + KST_OFFSET == LocalDay(t) * MS_PER_DAY + ms
  {
    (t + KST_OFFSET) % MS_PER_DAY
  }

  /** The UTC instant of the local midnight that starts the user's day at `t`. */
  function LocalMidnight(t: int): int { LocalDay(t) * MS_PER_DAY - KST_OFFSET }

  function LocalDate(t: int): Date { CivilFromDays(LocalDay(t)) }

  // ---------------------------------------------------------------------
  // JavaScript's Date constructor and toISOString

  /** The day number of `new Date(year, monthIndex, date)`: a year 0..99
      means 1900..1999, and a month or day outside its range carries over. */
  function JsMakeDay(year: int, monthIndex: int, date: int): int
  {
    var y := if 0 <= year <= 99 then 1900 + year else year;
    DaysFromCivil(Date(y + monthIndex / 12, monthIndex % 12 + 1, 1)) + date - 1
  }

  /** `fromZonedTime(new Date(year, monthIndex, date, h, m, s, 0), 'Asia/Seoul')`:
      the wall-clock fields read as Seoul time; None for an invalid date. */
  function ZonedToUtc(year: int, monthIndex: int, date: int, h: int, m: int, s: int): Option<int>
  {
    LocalToUtc(JsMakeDay(year, monthIndex, date), h * MS_PER_HOUR + m * MS_PER_MINUTE + s * MS_PER_SECOND)
  }

  /** The UTC instant of `ms` milliseconds into local day `day` in Seoul;
      None when either the local or the UTC time value is out of range. */
  function LocalToUtc(day: int, ms: int): Option<int>
  {
    var local := day * MS_PER_DAY + ms;
    if ValidTime(local) && ValidTime(local - KST_OFFSET) then Some(local - KST_OFFSET) else None
  }

  /** `Date.prototype.toISOString` of a valid time value. */
  function IsoString(t: int): string
  {
    var d := CivilFromDays(t / MS_PER_DAY);
    var ms := t % MS_PER_DAY;
    var year :=
      if 0 <= d.year <= 9999 then PadStart(NatToString(d.year), 4, '0')
      else (if d.year < 0 then "-" else "+") + PadStart(NatToString(if d.year < 0 then -d.year else d.year), 6, '0');
    year + "-" + Pad2(d.month) + "-" + Pad2(d.day)
      + "T" + Pad2(ms / MS_PER_HOUR) + ":" + Pad2(ms / MS_PER_MINUTE % 60) + ":" + Pad2(ms / MS_PER_SECOND % 60)
      + "." + PadStart(NatToString(ms % 1000), 3, '0') + "Z"
  }

  // ---------------------------------------------------------------------
  // Date strings

  /** `dateString.split('-').map(Number)` destructured into year, month and
      day; a missing piece is `undefined`, and None stands for NaN. */
  function ParseDateString(s: string): Option<(int, int, int)>
  {
    var parts := Split(s, '-');
    var y := JsNumber(parts[0]);
    var m := if |parts| > 1 then JsNumber(parts[1]) else None;
    var d := if |parts| > 2 then JsNumber(parts[2]) else None;
    if y.Some? && m.Some? && d.Some? then Some((y.value, m.value, d.value)) else None
  }

  /** The user-date string `utcToUserDate` builds: the year unpadded, month
      and day padded to two digits. For a year from 0 on it parses back into
      its fields. */
  function FormatUserDate(d: Date): (s: string)
    requires 1 <= d.month && 1 <= d.day
    ensures d.year >= 0 && d.month < 100 && d.day < 100 ==> ParseDateString(s) == Some((d.year, d.month, d.day))
  {
    var s := IntToString(d.year) + "-" + Pad2(d.month) + "-" + Pad2(d.day);
    if d.year >= 0 && d.month < 100 && d.day < 100 then
      NatToStringValue(d.year);
      Pad2Value(d.month);
      Pad2Value(d.day);
      ParseJoined(NatToString(d.year), Pad2(d.month), Pad2(d.day));
      s
    else s
  }

  // ---------------------------------------------------------------------
  // The helpers

  datatype DayBounds = DayBounds(start: string, stop: string)

  /** The UTC instants of local midnight at the start and at the end of the
      user date `dateString`. */
  function DayBoundsInstants(dateString: string): Option<(int, int)>
  {
    match ParseDateString(dateString)
    case None => None
    case Some((y, m, d)) => MidnightsOf(y, m, d)
  }

  /** The two Seoul midnights `new Date(y, m - 1, d)` and `new Date(y, m - 1, d + 1)`. */
  function MidnightsOf(y: int, m: int, d: int): Option<(int, int)>
  {
    var start := ZonedToUtc(y, m - 1, d, 0, 0, 0);
    var stop := ZonedToUtc(y, m - 1, d + 1, 0, 0, 0);
    if start.Some? && stop.Some? then Some((start.value, stop.value)) else None
  }

  /** `getDayBoundsUTC(dateString)`: ISO strings of the two midnights;
      an unparseable date makes `toISOString` throw. */
  function GetDayBoundsUTC(dateString: string): (r: Result<DayBounds, string>)
    ensures r.Ok? <==> DayBoundsInstants(dateString).Some?
    ensures r.Err? ==> r.error == INVALID_TIME
    ensures r.Ok? ==> var (a, b) := DayBoundsInstants(dateString).value;
      r.value == DayBounds(IsoString(a), IsoString(b))
  {
    match DayBoundsInstants(dateString)
    case None => Err(INVALID_TIME)
    case Some((a, b)) => Ok(DayBounds(IsoString(a), IsoString(b)))
  }

  /** Whatever date string it is given, a day `getDayBoundsUTC` returns is
      exactly 24 hours long (Seoul keeps no daylight saving time). */
  lemma DayIsDayLong(dateString: string)
    requires DayBoundsInstants(dateString).Some?
    ensures DayBoundsInstants(dateString).value.1 - DayBoundsInstants(dateString).value.0 == MS_PER_DAY
  {
    var (y, m, d) := ParseDateString(dateString).value;
    BoundsViaParse(dateString, y, m, d);
    NextMakeDay(y, m - 1, d);
  }

  /** `utcToUserDate`: the user's date at instant `t`, which parses back
      into the fields of the local date; an invalid date formats every field
      as NaN. */
  function UtcToUserDate(t: int): (s: string)
    ensures !ValidTime(t) ==> s == "NaN-NaN-NaN"
    ensures ValidTime(t) && LocalDate(t).year >= 0 ==>
      ParseDateString(s) == Some((LocalDate(t).year, LocalDate(t).month, LocalDate(t).day))
  {
    DayRoundTrip(LocalDay(t));
    if ValidTime(t) then FormatUserDate(LocalDate(t)) else "NaN-NaN-NaN"
  }

  /** `getUserToday`: the user's date at the current instant `now`, which the
      caller reads from the clock. */
  function GetUserToday(now: int): (r: string)
    ensures InnerTime(now) && LocalDate(now).year >= 100 ==>
      DayBoundsInstants(r) == Some((LocalMidnight(now), LocalMidnight(now) + MS_PER_DAY))
  {
    if InnerTime(now) && LocalDate(now).year >= 100 then UserDateBounds(now); UtcToUserDate(now)
    else UtcToUserDate(now)
  }

  datatype DisplayDateTime = DisplayDateTime(date: string, time: string)

  /** The year date-fns prints for the `yyyy` token: the year of the era. */
  function EraYear(year: int): (r: int)
    ensures r >= 1
  {
    if year > 0 then year else 1 - year
  }

  function AmPm(hours: int): string { if hours < 12 then "오전" else "오후" }

  /** The hour shown on a 12-hour clock: midnight is 12, afternoon hours less 12. */
  function DisplayHour(hours: int): int
  {
    if hours == 0 then 12 else if hours > 12 then hours - 12 else hours
  }

  /** `formatUserDateTime`: the local date as `yyyy.MM.dd` and the local time as
      `오전`/`오후` followed by a 12-hour `HH:MM`; formatting an invalid date throws. */
  function FormatUserDateTime(t: int): (r: Result<DisplayDateTime, string>)
    ensures r.Err? <==> !ValidTime(t)
  {
    if !ValidTime(t) then Err(INVALID_TIME)
    else
      var d := LocalDate(t);
      DayRoundTrip(LocalDay(t));
      var ms := LocalMillis(t);
      var hours := ms / MS_PER_HOUR;
      var minutes := ms / MS_PER_MINUTE % 60;
      Ok(DisplayDateTime(
        PadStart(NatToString(EraYear(d.year)), 4, '0') + "." + Pad2(d.month) + "." + Pad2(d.day),
        AmPm(hours) + " " + Pad2(DisplayHour(hours)) + ":" + Pad2(minutes)))
  }

  /** The instant `userDateTimeToUTC` converts to, before formatting. */
  function UserDateTimeInstant(dateString: string, hours: int, minutes: int, seconds: int): Option<int>
  {
    match ParseDateString(dateString)
    case None => None
    case Some((y, m, d)) => ZonedToUtc(y, m - 1, d, hours, minutes, seconds)
  }

  /** `userDateTimeToUTC`: a Seoul wall-clock time on the user date, as an ISO
      string in UTC. */
  function UserDateTimeToUTC(dateString: string, hours: int, minutes: int, seconds: int): (r: Result<string, string>)
    ensures r.Ok? <==> UserDateTimeInstant(dateString, hours, minutes, seconds).Some?
    ensures r.Ok? ==> r.value == IsoString(UserDateTimeInstant(dateString, hours, minutes, seconds).value)
  {
    match UserDateTimeInstant(dateString, hours, minutes, seconds)
    case None => Err(INVALID_TIME)
    case Some(u) => Ok(IsoString(u))
  }

  // ---------------------------------------------------------------------
  // Properties

  /** Instants at least two days away from the ends of the `Date` range, so that
      both midnights around them are representable. */
  predicate InnerTime(t: int) { -MAX_TIME + 2 * MS_PER_DAY <= t <= MAX_TIME - 2 * MS_PER_DAY }

  predicate NoDash(s: string) { forall i :: 0 <= i < |s| ==> s[i] != '-' }

  lemma DigitsNoDash(s: string)
    requires IsDigits(s)
    ensures NoDash(s)
  {
  }

  /** Three runs of digits joined by dashes parse into their values. */
  lemma ParseJoined(y: string, m: string, d: string)
    requires IsDigits(y) && IsDigits(m) && IsDigits(d)
    ensures ParseDateString(y + "-" + m + "-" + d) == Some((DigitsValue(y), DigitsValue(m), DigitsValue(d)))
  {
    DigitsNoDash(y);
    DigitsNoDash(m);
    DigitsNoDash(d);
    var joined := y + "-" + m + "-" + d;
    assert joined == y + ['-'] + m + ['-'] + d;
    SplitThree(y, m, d, '-');
    assert Split(joined, '-') == [y, m, d];
    JsNumberDigits(y);
    JsNumberDigits(m);
    JsNumberDigits(d);
  }

  /** The day number `new Date(y, m - 1, d)` names is that of the valid date itself. */
  lemma MakeDayOfValidDate(d: Date)
    requires ValidDate(d) && d.year >= 100
    ensures JsMakeDay(d.year, d.month - 1, d.day) == DaysFromCivil(d)
  {
    assert (d.month - 1) / 12 == 0 && (d.month - 1) % 12 == d.month - 1;
  }

  /** The bounds of the user date of instant `t` are the two local midnights
      around `t`: a user's date and its day bounds agree. Years before 100 are
      excluded because the `Date` constructor reads them as 1900 + year. */
  lemma UserDateBounds(t: int)
    requires InnerTime(t) && LocalDate(t).year >= 100
    ensures DayBoundsInstants(UtcToUserDate(t)) == Some((LocalMidnight(t), LocalMidnight(t) + MS_PER_DAY))
    ensures LocalMidnight(t) <= t < LocalMidnight(t) + MS_PER_DAY
  {
    var d, n := LocalDate(t), LocalDay(t);
    DayRoundTrip(n);
    MidnightBefore(t);
    BoundsOfDay(UtcToUserDate(t), d, n);
  }

  lemma MidnightBefore(t: int)
    ensures LocalMidnight(t) <= t < LocalMidnight(t) + MS_PER_DAY
  {
    var ms := LocalMillis(t);
  }

  /** The bounds of a date string that parses into a valid date with day number `k`. */
  lemma BoundsOfDay(s: string, d: Date, k: int)
    requires ValidDate(d) && d.year >= 100 && DaysFromCivil(d) == k
    requires ParseDateString(s) == Some((d.year, d.month, d.day))
    requires -MAX_TIME + MS_PER_DAY <= k * MS_PER_DAY - KST_OFFSET && k * MS_PER_DAY + MS_PER_DAY <= MAX_TIME
    ensures DayBoundsInstants(s) == Some((k * MS_PER_DAY - KST_OFFSET, k * MS_PER_DAY - KST_OFFSET + MS_PER_DAY))
  {
    var a := k * MS_PER_DAY - KST_OFFSET;
    MidnightsOfDate(d, k, a);
    BoundsOfParsed(s, d.year, d.month, d.day, a, a + MS_PER_DAY);
  }

  lemma MidnightsOfDate(d: Date, k: int, a: int)
    requires ValidDate(d) && d.year >= 100 && DaysFromCivil(d) == k && a == k * MS_PER_DAY - KST_OFFSET
    requires -MAX_TIME + MS_PER_DAY <= a && a + KST_OFFSET + MS_PER_DAY <= MAX_TIME
    ensures ZonedToUtc(d.year, d.month - 1, d.day, 0, 0, 0) == Some(a)
    ensures ZonedToUtc(d.year, d.month - 1, d.day + 1, 0, 0, 0) == Some(a + MS_PER_DAY)
  {
    MakeDayOfValidDate(d);
    NextMakeDay(d.year, d.month - 1, d.day);
    LocalMidnightToUtc(k);
    LocalMidnightToUtc(k + 1);
  }

  lemma BoundsOfParsed(s: string, year: int, month: int, date: int, a: int, b: int)
    requires ParseDateString(s) == Some((year, month, date))
    requires ZonedToUtc(year, month - 1, date, 0, 0, 0) == Some(a)
    requires ZonedToUtc(year, month - 1, date + 1, 0, 0, 0) == Some(b)
    ensures DayBoundsInstants(s) == Some((a, b))
  {
  }

  lemma LocalMidnightToUtc(k: int)
    requires ValidTime(k * MS_PER_DAY) && ValidTime(k * MS_PER_DAY - KST_OFFSET)
    ensures LocalToUtc(k, 0) == Some(k * MS_PER_DAY - KST_OFFSET)
  {
  }

  lemma NextMakeDay(year: int, monthIndex: int, date: int)
    ensures JsMakeDay(year, monthIndex, date + 1) == JsMakeDay(year, monthIndex, date) + 1
  {
  }

  /** A year 0..99 in a date string is read as 1900..1999: a date string
      naming year `y` gets the same bounds as one naming year `y + 1900`. */
  lemma TwoDigitYears(s1: string, s2: string, y: int, m: int, d: int)
    requires 0 <= y <= 99
    requires ParseDateString(s1) == Some((y, m, d))
    requires ParseDateString(s2) == Some((y + 1900, m, d))
    ensures DayBoundsInstants(s1) == DayBoundsInstants(s2)
  {
    BoundsViaParse(s1, y, m, d);
    BoundsViaParse(s2, y + 1900, m, d);
    CenturyMidnights(y, m, d);
  }

  lemma BoundsViaParse(s: string, y: int, m: int, d: int)
    requires ParseDateString(s) == Some((y, m, d))
    ensures DayBoundsInstants(s) == MidnightsOf(y, m, d)
  {
  }

  lemma CenturyMidnights(y: int, m: int, d: int)
    requires 0 <= y <= 99
    ensures MidnightsOf(y, m, d) == MidnightsOf(y + 1900, m, d)
  {
    assert JsMakeDay(y, m - 1, d) == JsMakeDay(y + 1900, m - 1, d);
    assert JsMakeDay(y, m - 1, d + 1) == JsMakeDay(y + 1900, m - 1, d + 1);
  }

  /** Reading a 12-hour display back: the 24-hour clock hour it stands for. */
  function To24Hour(pm: bool, hour12: int): int
  {
    if pm then (if hour12 == 12 then 12 else hour12 + 12)
    else (if hour12 == 12 then 0 else hour12)
  }

  /** Reads a `오전 HH:MM` / `오후 HH:MM` display back into hours and minutes. */
  function ParseDisplayTime(s: string): Option<(int, int)>
  {
    if |s| == 8 && (s[..2] == "오전" || s[..2] == "오후") && s[2] == ' ' && s[5] == ':'
      && IsDigits(s[3..5]) && IsDigits(s[6..])
    then Some((To24Hour(s[..2] == "오후", DigitsValue(s[3..5])), DigitsValue(s[6..])))
    else None
  }

  /** The displayed time loses nothing: it reads back as the local hour and minute. */
  lemma DisplayTimeRoundTrip(t: int)
    requires ValidTime(t)
    ensures FormatUserDateTime(t).Ok?
    ensures ParseDisplayTime(FormatUserDateTime(t).value.time)
      == Some((LocalMillis(t) / MS_PER_HOUR, LocalMillis(t) / MS_PER_MINUTE % 60))
  {
    var ms := LocalMillis(t);
    DisplayTimeParses(ms / MS_PER_HOUR, ms / MS_PER_MINUTE % 60);
  }

  /** Reads a `yyyy.MM.dd` display back into year, month and day; the year
      is whatever precedes the last six characters. */
  function ParseDisplayDate(s: string): Option<(int, int, int)>
  {
    var n := |s|;
    if n >= 10 && s[n - 6] == '.' && s[n - 3] == '.'
      && IsDigits(s[..n - 6]) && IsDigits(s[n - 5..n - 3]) && IsDigits(s[n - 2..])
    then Some((DigitsValue(s[..n - 6]), DigitsValue(s[n - 5..n - 3]), DigitsValue(s[n - 2..])))
    else None
  }

  /** The displayed date loses nothing: it reads back as the local year of
      the era, month and day. */
  lemma DisplayDateRoundTrip(t: int)
    requires ValidTime(t)
    ensures FormatUserDateTime(t).Ok?
    ensures ParseDisplayDate(FormatUserDateTime(t).value.date)
      == Some((EraYear(LocalDate(t).year), LocalDate(t).month, LocalDate(t).day))
  {
    var d := LocalDate(t);
    DayRoundTrip(LocalDay(t));
    var y := PadStart(NatToString(EraYear(d.year)), 4, '0');
    NatToStringValue(EraYear(d.year));
    PaddedValue(NatToString(EraYear(d.year)), 4);
    Pad2Value(d.month);
    Pad2Value(d.day);
    DisplayDateJoin(y, Pad2(d.month), Pad2(d.day));
  }

  lemma DisplayDateJoin(y: string, mm: string, dd: string)
    requires |y| >= 4 && |mm| == 2 && |dd| == 2 && IsDigits(y) && IsDigits(mm) && IsDigits(dd)
    ensures ParseDisplayDate(y + "." + mm + "." + dd) == Some((DigitsValue(y), DigitsValue(mm), DigitsValue(dd)))
  {
    var b := y + "." + mm;
    var s := b + "." + dd;
    var n := |s|;
    assert n == |y| + 6 && |b| == n - 3;
    assert s[..n - 3] == b && s[n - 3] == '.' && s[n - 2..] == dd;
    assert b[..n - 6] == y && b[n - 6] == '.' && b[n - 5..] == mm;
    assert s[..n - 6] == y && s[n - 5..n - 3] == mm && s[n - 6] == '.';
  }

  lemma DisplayTimeParses(hours: int, minutes: int)
    requires 0 <= hours < 24 && 0 <= minutes < 60
    ensures ParseDisplayTime(AmPm(hours) + " " + Pad2(DisplayHour(hours)) + ":" + Pad2(minutes)) == Some((hours, minutes))
  {
    HourRoundTrip(hours);
    Pad2Value(DisplayHour(hours));
    Pad2Value(minutes);
    assert "오전" != "오후" by {
      assert "오전"[1] != "오후"[1];
    }
    DisplayJoin(AmPm(hours), Pad2(DisplayHour(hours)), Pad2(minutes));
  }

  lemma DisplayJoin(period: string, hh: string, mm: string)
    requires period == "오전" || period == "오후"
    requires |hh| == 2 && |mm| == 2 && IsDigits(hh) && IsDigits(mm)
    ensures ParseDisplayTime(period + " " + hh + ":" + mm)
      == Some((To24Hour(period == "오후", DigitsValue(hh)), DigitsValue(mm)))
  {
    var time := period + " " + hh + ":" + mm;
    assert time[..2] == period && time[2] == ' ' && time[5] == ':';
    assert time[3..5] == hh && time[6..] == mm;
  }

  lemma HourRoundTrip(hours: int)
    requires 0 <= hours < 24
    ensures 1 <= DisplayHour(hours) <= 12
    ensures To24Hour(hours >= 12, DisplayHour(hours)) == hours
  {
  }

  /** `userDateTimeToUTC` at midnight gives the start of `getDayBoundsUTC`. */
  lemma MidnightIsDayStart(dateString: string)
    requires DayBoundsInstants(dateString).Some?
    ensures UserDateTimeInstant(dateString, 0, 0, 0) == Some(DayBoundsInstants(dateString).value.0)
  {
  }

  /** Milliseconds from midnight to a wall-clock time. */
  function ClockOffset(hours: int, minutes: int, seconds: int): int
  {
    hours * MS_PER_HOUR + minutes * MS_PER_MINUTE + seconds * MS_PER_SECOND
  }

  /** A wall-clock time on the user's date of `t` converts to an instant on
      that same user date, that many milliseconds after its local midnight. */
  lemma UserDateTimeOnDate(t: int, hours: int, minutes: int, seconds: int)
    requires InnerTime(t) && LocalDate(t).year >= 100
    requires 0 <= hours < 24 && 0 <= minutes < 60 && 0 <= seconds < 60
    ensures UserDateTimeInstant(UtcToUserDate(t), hours, minutes, seconds)
      == Some(LocalMidnight(t) + ClockOffset(hours, minutes, seconds))
    ensures LocalDay(LocalMidnight(t) + ClockOffset(hours, minutes, seconds)) == LocalDay(t)
    ensures UtcToUserDate(LocalMidnight(t) + ClockOffset(hours, minutes, seconds)) == UtcToUserDate(t)
  {
    var d, n := LocalDate(t), LocalDay(t);
    DayRoundTrip(n);
    SameLocalDay(t, ClockOffset(hours, minutes, seconds));
    InstantOnDay(UtcToUserDate(t), d, n, hours, minutes, seconds, LocalMidnight(t) + ClockOffset(hours, minutes, seconds));
  }

  lemma InstantOnDay(s: string, d: Date, k: int, hours: int, minutes: int, seconds: int, u: int)
    requires ValidDate(d) && d.year >= 100 && DaysFromCivil(d) == k
    requires ParseDateString(s) == Some((d.year, d.month, d.day))
    requires u == k * MS_PER_DAY - KST_OFFSET + ClockOffset(hours, minutes, seconds)
    requires ValidTime(u) && ValidTime(u + KST_OFFSET)
    ensures UserDateTimeInstant(s, hours, minutes, seconds) == Some(u)
  {
    MakeDayOfValidDate(d);
  }

  lemma SameLocalDay(t: int, offset: int)
    requires InnerTime(t) && 0 <= offset < MS_PER_DAY
    ensures LocalDay(LocalMidnight(t) + offset) == LocalDay(t)
    ensures ValidTime(LocalMidnight(t) + offset) && ValidTime(LocalMidnight(t) + offset + KST_OFFSET)
  {
    var ms := LocalMillis(t);
    assert LocalMidnight(t) + offset + KST_OFFSET == LocalDay(t) * MS_PER_DAY + offset;
  }

  /** The example the helper documents: 2025-11-12 in Seoul runs from
      15:00 UTC on 2025-11-11 to 15:00 UTC on 2025-11-12. */
  lemma SeoulDayExample()
    ensures DayBoundsInstants("2025-11-12") == Some((1762873200000, 1762959600000))
    ensures CivilFromDays(1762873200000 / MS_PER_DAY) == Date(2025, 11, 11)
    ensures CivilFromDays(1762959600000 / MS_PER_DAY) == Date(2025, 11, 12)
    ensures 1762873200000 % MS_PER_DAY == 1762959600000 % MS_PER_DAY == 15 * MS_PER_HOUR
  {
    ExampleBounds();
    ExampleDate(11);
    ExampleDate(12);
    assert 1762873200000 / MS_PER_DAY == 20403 && 1762959600000 / MS_PER_DAY == 20404;
  }

  lemma ExampleBounds()
    ensures DayBoundsInstants("2025-11-12") == Some((1762873200000, 1762959600000))
  {
    var d := Date(2025, 11, 12);
    ExampleParse();
    ExampleDate(12);
    assert DaysFromCivil(d) * MS_PER_DAY - KST_OFFSET == 1762873200000;
    BoundsOfDay("2025-11-12", d, 20404);
  }

  lemma ExampleParse()
    ensures ParseDateString("2025-11-12") == Some((2025, 11, 12))
  {
    DigitsSnoc([], '2');
    assert [] + ['2'] == "2";
    DigitsSnoc("2", '0');
    assert "2" + ['0'] == "20";
    DigitsSnoc("20", '2');
    assert "20" + ['2'] == "202";
    DigitsSnoc("202", '5');
    assert "202" + ['5'] == "2025";
    DigitsSnoc([], '1');
    assert [] + ['1'] == "1";
    DigitsSnoc("1", '1');
    assert "1" + ['1'] == "11";
    DigitsSnoc("1", '2');
    assert "1" + ['2'] == "12";
    assert DigitsValue("2025") == 2025 && DigitsValue("11") == 11 && DigitsValue("12") == 12;
    ParseJoined("2025", "11", "12");
    assert "2025" + "-" + "11" + "-" + "12" == "2025-11-12";
  }

  lemma ExampleDate(day: int)
    requires day == 11 || day == 12
    ensures DaysFromCivil(Date(2025, 11, day)) == 20392 + day
    ensures CivilFromDays(20392 + day) == Date(2025, 11, day)
  {
    assert DaysFromCivil(Date(2025, 11, day)) == 20392 + day;
    DateRoundTrip(Date(2025, 11, day));
  }
}
