/** The check-history histograms: `analyzeWeekdayPatterns`,
    `analyzeTimePatterns` and `getDailyCompletionData`. The device's local
    weekday, hour and date are read in the fixed +9:00 zone. */
module Patterns {
  import opened Common
  import opened Calendar
  import opened Timezone
  import Completion

  /** `getDay()`: 0 for Sunday; day 0 (1970-01-01) was a Thursday. */
  function Weekday(t: int): (d: int)
    ensures 0 <= d < 7
  {
    (LocalDay(t) + 4) % 7
  }

  /** `getHours()`. */
  function Hour(t: int): (h: int)
    ensures 0 <= h < 24
  {
    LocalMillis(t) / MS_PER_HOUR
  }

  // ---------------------------------------------------------------------
  // analyzeWeekdayPatterns

  /** The number of checks on weekday `d`. */
  function CountDay(ts: seq<int>, d: int): (n: nat)
    ensures n <= |ts|
  {
    if ts == [] then 0 else CountDay(ts[..|ts| - 1], d) + (if Weekday(ts[|ts| - 1]) == d then 1 else 0)
  }

  function SumDays(ts: seq<int>, k: nat): nat
  {
    if k == 0 then 0 else SumDays(ts, k - 1) + CountDay(ts, k - 1)
  }

  lemma {:induction false} SumDaysSnoc(ts: seq<int>, t: int, k: nat)
    ensures SumDays(ts + [t], k) == SumDays(ts, k) + (if Weekday(t) < k then 1 else 0)
  {
    assert (ts + [t])[..|ts|] == ts;
    if k > 0 {
      SumDaysSnoc(ts, t, k - 1);
    }
  }

  /** The seven day counts add up to the number of checks. */
  lemma {:induction false} DayCountsSum(ts: seq<int>)
    ensures SumDays(ts, 7) == |ts|
  {
    if ts != [] {
      var p, t := ts[..|ts| - 1], ts[|ts| - 1];
      assert p + [t] == ts;
      DayCountsSum(p);
      SumDaysSnoc(p, t, 7);
    } else {
      SumDaysZero(ts, 7);
    }
  }

  const DayNames: seq<string> := ["일요일", "월요일", "화요일", "수요일", "목요일", "금요일", "토요일"]

  datatype DayCount = DayCount(day: int, dayName: string, count: nat)

  datatype WeekdayPattern = WeekdayPattern(bestDay: DayCount, worstDay: DayCount, allDays: seq<DayCount>)

  /** The `dayGroups` record: checks counted per weekday. */
  method WeekdayGroups(ts: seq<int>) returns (groups: array<nat>)
    ensures fresh(groups) && groups.Length == 7
    ensures forall d :: 0 <= d < 7 ==> groups[d] == CountDay(ts, d)
  {
    groups := new nat[7](_ => 0);
    var i := 0;
    while i < |ts|
      invariant 0 <= i <= |ts|
      invariant forall d :: 0 <= d < 7 ==> groups[d] == CountDay(ts[..i], d)
    {
      var day := Weekday(ts[i]);
      groups[day] := groups[day] + 1;
      assert ts[..i + 1][..i] == ts[..i];
      i := i + 1;
    }
    assert ts[..i] == ts;
  }

  /** The entry of weekday `d`, as `Object.entries(dayGroups).map(...)` builds it. */
  function WeekdayEntry(ts: seq<int>, d: int): DayCount
    requires 0 <= d < 7
  {
    DayCount(d, DayNames[d], CountDay(ts, d))
  }

  /** The seven entries in weekday order, Sunday first. */
  function WeekdayEntries(ts: seq<int>): seq<DayCount>
  {
    seq(7, d requires 0 <= d < 7 => WeekdayEntry(ts, d))
  }

  /** `a` precedes `b` in the sorted list: a larger count first, and among
      equal counts the earlier weekday, since the sort is stable. */
  predicate Before(a: DayCount, b: DayCount)
  {
    a.count > b.count || (a.count == b.count && a.day < b.day)
  }

  predicate Ordered(s: seq<DayCount>)
  {
    forall i, j :: 0 <= i < j < |s| ==> Before(s[i], s[j])
  }

  /** Places `e` after every entry whose count is at least its own: what a
      stable sort does with an entry that comes later in its input. */
  function Insert(e: DayCount, s: seq<DayCount>): (r: seq<DayCount>)
    ensures multiset(r) == multiset(s) + multiset{e}
  {
    assert s != [] ==> s == [s[0]] + s[1..];
    if s == [] || s[0].count < e.count then [e] + s else [s[0]] + Insert(e, s[1..])
  }

  /** `.sort((a, b) => b.count - a.count)`: a stable sort by descending
      count, written as insertion of each entry in turn; it loses or adds
      no entry. */
  function SortByCount(s: seq<DayCount>): (r: seq<DayCount>)
    ensures multiset(r) == multiset(s)
  {
    assert s != [] ==> s == s[..|s| - 1] + [s[|s| - 1]];
    if s == [] then [] else Insert(s[|s| - 1], SortByCount(s[..|s| - 1]))
  }

  lemma {:induction false} InsertSorted(e: DayCount, s: seq<DayCount>)
    requires Ordered(s) && forall i :: 0 <= i < |s| ==> s[i].day < e.day
    ensures Ordered(Insert(e, s))
  {
    if s != [] && s[0].count >= e.count {
      var t := s[1..];
      assert s == [s[0]] + t;
      InsertSorted(e, t);
      var r := Insert(e, t);
      forall j | 0 <= j < |r|
        ensures Before(s[0], r[j])
      {
        assert r[j] in multiset(r);
        if r[j] != e {
          assert r[j] in t;
        }
      }
    } else if s != [] {
      forall j | 0 < j < |s|
        ensures Before(e, s[j])
      {
        assert Before(s[0], s[j]);
      }
    }
  }

  /** Sorting entries given in increasing weekday order orders them by
      descending count, ties by increasing weekday. */
  lemma {:induction false} SortByCountSorted(s: seq<DayCount>)
    requires forall i, j :: 0 <= i < j < |s| ==> s[i].day < s[j].day
    ensures Ordered(SortByCount(s))
  {
    if s != [] {
      var p, e := s[..|s| - 1], s[|s| - 1];
      SortByCountSorted(p);
      var r := SortByCount(p);
      forall i | 0 <= i < |r|
        ensures r[i].day < e.day
      {
        assert r[i] in multiset(p);
      }
      InsertSorted(e, r);
      assert p + [e] == s;
    }
  }

  /** `allDays`: all seven weekdays, each once with its name and count, by
      descending count with ties by increasing weekday. */
  lemma AllDaysSorted(ts: seq<int>)
    ensures var all := SortByCount(WeekdayEntries(ts));
      |all| == 7 && Ordered(all) &&
      (forall i :: 0 <= i < 7 ==> 0 <= all[i].day < 7 && all[i] == WeekdayEntry(ts, all[i].day)) &&
      (forall d :: 0 <= d < 7 ==> WeekdayEntry(ts, d) in all)
  {
    var s := WeekdayEntries(ts);
    SortByCountSorted(s);
    var all := SortByCount(s);
    assert |all| == |multiset(all)| == |multiset(s)| == 7;
    forall i | 0 <= i < 7
      ensures 0 <= all[i].day < 7 && all[i] == WeekdayEntry(ts, all[i].day)
    {
      assert all[i] in multiset(s);
    }
    forall d | 0 <= d < 7
      ensures WeekdayEntry(ts, d) in all
    {
      assert s[d] in multiset(all);
    }
  }

  /** `analyzeWeekdayPatterns`: nothing for a failed query or no checks;
      otherwise the sorted days, with the first as best and the last as worst. */
  method AnalyzeWeekdayPatterns(ts: seq<int>, queryOk: bool) returns (r: Option<WeekdayPattern>)
    ensures r.None? <==> !queryOk || ts == []
    ensures r.Some? ==> r.value.allDays == SortByCount(WeekdayEntries(ts))
    ensures r.Some? ==>
      var b := r.value.bestDay.day;
      var w := r.value.worstDay.day;
      0 <= b < 7 && 0 <= w < 7 &&
      r.value.bestDay == DayCount(b, DayNames[b], CountDay(ts, b)) &&
      r.value.worstDay == DayCount(w, DayNames[w], CountDay(ts, w)) &&
      (forall d :: 0 <= d < 7 ==> CountDay(ts, w) <= CountDay(ts, d) <= CountDay(ts, b)) &&
      (forall d :: 0 <= d < b ==> CountDay(ts, d) < CountDay(ts, b)) &&
      (forall d :: w < d < 7 ==> CountDay(ts, w) < CountDay(ts, d))
  {
    if !queryOk || |ts| == 0 {
      return None;
    }
    var groups := WeekdayGroups(ts);
    var entries := seq(7, d requires 0 <= d < 7 reads groups => DayCount(d, DayNames[d], groups[d]));
    assert entries == WeekdayEntries(ts);
    var sorted := SortByCount(entries);
    AllDaysSorted(ts);
    BestAndWorst(ts, sorted);
    r := Some(WeekdayPattern(sorted[0], sorted[6], sorted));
  }

  /** The ends of the sorted list are the largest and smallest counts, the
      earliest of the largest and the latest of the smallest. */
  lemma BestAndWorst(ts: seq<int>, all: seq<DayCount>)
    requires |all| == 7 && Ordered(all)
    requires forall i :: 0 <= i < 7 ==> 0 <= all[i].day < 7 && all[i] == WeekdayEntry(ts, all[i].day)
    requires forall d :: 0 <= d < 7 ==> WeekdayEntry(ts, d) in all
    ensures var b, w := all[0].day, all[6].day;
      (forall d :: 0 <= d < 7 ==> CountDay(ts, w) <= CountDay(ts, d) <= CountDay(ts, b)) &&
      (forall d :: 0 <= d < b ==> CountDay(ts, d) < CountDay(ts, b)) &&
      (forall d :: w < d < 7 ==> CountDay(ts, w) < CountDay(ts, d))
  {
    forall d | 0 <= d < 7
      ensures all[6].count <= CountDay(ts, d) <= all[0].count
      ensures d < all[0].day ==> CountDay(ts, d) < all[0].count
      ensures all[6].day < d ==> all[6].count < CountDay(ts, d)
    {
      var i :| 0 <= i < 7 && all[i] == WeekdayEntry(ts, d);
      assert i == 0 || Before(all[0], all[i]);
      assert i == 6 || Before(all[i], all[6]);
    }
  }

  /** With at least one check the best day has a check. */
  lemma BestDayHasChecks(ts: seq<int>, b: int)
    requires ts != [] && 0 <= b < 7
    requires forall d :: 0 <= d < 7 ==> CountDay(ts, d) <= CountDay(ts, b)
    ensures CountDay(ts, b) >= 1
  {
    DayCountsSum(ts);
    if CountDay(ts, b) == 0 {
      SumDaysZero(ts, 7);
    }
  }

  lemma {:induction false} SumDaysZero(ts: seq<int>, k: nat)
    requires k <= 7 && forall d :: 0 <= d < k ==> CountDay(ts, d) == 0
    ensures SumDays(ts, k) == 0
  {
    if k > 0 {
      SumDaysZero(ts, k - 1);
    }
  }

  // ---------------------------------------------------------------------
  // analyzeTimePatterns

  datatype Period = Morning | Afternoon | Evening | Night

  /** Morning is 5-12, afternoon 12-18, evening 18-22, night the rest. */
  function PeriodOf(hour: int): Period
  {
    if 5 <= hour < 12 then Morning
    else if 12 <= hour < 18 then Afternoon
    else if 18 <= hour < 22 then Evening
    else Night
  }

  function CountPeriod(ts: seq<int>, p: Period): (n: nat)
    ensures n <= |ts|
  {
    if ts == [] then 0 else CountPeriod(ts[..|ts| - 1], p) + (if PeriodOf(Hour(ts[|ts| - 1])) == p then 1 else 0)
  }

  /** Every check falls in exactly one period. */
  lemma {:induction false} PeriodsPartition(ts: seq<int>)
    ensures CountPeriod(ts, Morning) + CountPeriod(ts, Afternoon) + CountPeriod(ts, Evening) +
            CountPeriod(ts, Night) == |ts|
  {
    if ts != [] {
      PeriodsPartition(ts[..|ts| - 1]);
    }
  }

  datatype Share = Share(count: nat, percentage: int)

  datatype TimePattern = TimePattern(morning: Share, afternoon: Share, evening: Share, night: Share)

  function ShareOf(ts: seq<int>, p: Period): (s: Share)
    requires ts != []
    ensures s.count == CountPeriod(ts, p) && 0 <= s.percentage <= 100
  {
    var n := CountPeriod(ts, p);
    Completion.PercentageBounds(n, |ts|, 1);
    Share(n, RoundPercent(n, |ts|))
  }

  /** `analyzeTimePatterns`: each period's count and its rounded share of all checks. */
  method AnalyzeTimePatterns(ts: seq<int>, queryOk: bool) returns (r: Option<TimePattern>)
    ensures r.None? <==> !queryOk || ts == []
    ensures r.Some? ==> r.value == TimePattern(ShareOf(ts, Morning), ShareOf(ts, Afternoon),
                                               ShareOf(ts, Evening), ShareOf(ts, Night))
  {
    if !queryOk || |ts| == 0 {
      return None;
    }
    var morning, afternoon, evening, night := 0, 0, 0, 0;
    var i := 0;
    while i < |ts|
      invariant 0 <= i <= |ts|
      invariant morning == CountPeriod(ts[..i], Morning) && afternoon == CountPeriod(ts[..i], Afternoon)
      invariant evening == CountPeriod(ts[..i], Evening) && night == CountPeriod(ts[..i], Night)
    {
      var hour := Hour(ts[i]);
      if hour >= 5 && hour < 12 {
        morning := morning + 1;
      } else if hour >= 12 && hour < 18 {
        afternoon := afternoon + 1;
      } else if hour >= 18 && hour < 22 {
        evening := evening + 1;
      } else {
        night := night + 1;
      }
      assert ts[..i + 1][..i] == ts[..i];
      i := i + 1;
    }
    assert ts[..i] == ts;
    var total := |ts|;
    r := Some(TimePattern(Share(morning, RoundPercent(morning, total)), Share(afternoon, RoundPercent(afternoon, total)),
                          Share(evening, RoundPercent(evening, total)), Share(night, RoundPercent(night, total))));
  }

  /** The rounded shares need not add up to 100: three checks in three
      periods give 33 each. */
  lemma SharesNeedNotAddUp()
    ensures RoundPercent(1, 3) + RoundPercent(1, 3) + RoundPercent(1, 3) + RoundPercent(0, 3) == 99
  {
  }

  // ---------------------------------------------------------------------
  // getDailyCompletionData

  /** The device's date string of a day: the year unpadded, month and day
      padded to two digits. */
  function DateString(day: int): string
  {
    DayRoundTrip(day);
    FormatUserDate(CivilFromDays(day))
  }

  /** Different days of the common era have different date strings. */
  lemma DateStringsDistinct(d1: int, d2: int)
    requires d1 != d2 && CivilFromDays(d1).year >= 0 && CivilFromDays(d2).year >= 0
    ensures DateString(d1) != DateString(d2)
  {
    DayRoundTrip(d1);
    DayRoundTrip(d2);
    DateStringParses(d1);
    DateStringParses(d2);
  }

  lemma DateStringParses(day: int)
    requires CivilFromDays(day).year >= 0
    ensures var d := CivilFromDays(day); ParseDateString(DateString(day)) == Some((d.year, d.month, d.day))
  {
    DayRoundTrip(day);
  }

  /** The checks the query returns: those from `start` on. */
  function Since(ts: seq<int>, start: int): (r: seq<int>)
    ensures forall i :: 0 <= i < |r| ==> r[i] >= start && r[i] in ts
    ensures forall t :: t in ts && t >= start ==> t in r
  {
    if ts == [] then []
    else Since(ts[..|ts| - 1], start) + (if ts[|ts| - 1] >= start then [ts[|ts| - 1]] else [])
  }

  /** The distinct local days of the checks in the order each first appears:
      the key order of `dateMap`, whose keys are not integer-like. */
  function FirstSeen(ts: seq<int>): (days: seq<int>)
    ensures forall i, j :: 0 <= i < j < |days| ==> days[i] != days[j]
    ensures forall d :: d in days <==> exists i :: 0 <= i < |ts| && LocalDay(ts[i]) == d
  {
    if ts == [] then []
    else
      var p := FirstSeen(ts[..|ts| - 1]);
      var d := LocalDay(ts[|ts| - 1]);
      assert forall e :: e in p <==> exists i :: 0 <= i < |ts| - 1 && LocalDay(ts[i]) == e by {
        forall e ensures e in p <==> exists i :: 0 <= i < |ts| - 1 && LocalDay(ts[i]) == e {
          if e in p {
            var i :| 0 <= i < |ts| - 1 && LocalDay(ts[..|ts| - 1][i]) == e;
            assert LocalDay(ts[i]) == e;
          }
          if exists i :: 0 <= i < |ts| - 1 && LocalDay(ts[i]) == e {
            var i :| 0 <= i < |ts| - 1 && LocalDay(ts[i]) == e;
            assert LocalDay(ts[..|ts| - 1][i]) == e;
          }
        }
      }
      if d in p then p else p + [d]
  }

  function CountOn(ts: seq<int>, day: int): (n: nat)
    ensures n <= |ts|
  {
    if ts == [] then 0 else CountOn(ts[..|ts| - 1], day) + (if LocalDay(ts[|ts| - 1]) == day then 1 else 0)
  }

  /** Each listed day holds at least one check. */
  lemma {:induction false} CountOnPositive(ts: seq<int>, day: int)
    requires day in FirstSeen(ts)
    ensures CountOn(ts, day) >= 1
  {
    var p := ts[..|ts| - 1];
    if LocalDay(ts[|ts| - 1]) != day {
      assert day in FirstSeen(p);
      CountOnPositive(p, day);
    }
  }

  /** One heatmap entry. The source keys its map by the `yyyy-MM-dd` text of
      the local date, `DateString`; the model keys it by the local day
      number and keeps the calendar date, which names the same groups since
      the text is one-to-one (`DateStringsDistinct`). */
  datatype DayEntry = DayEntry(date: Date, count: nat, percentage: int)

  /** The entry of one day: its checks and their share of the action count. */
  function EntryOf(ts: seq<int>, day: int, totalActions: nat): DayEntry
  {
    MakeEntry(day, CountOn(ts, day), totalActions)
  }

  /** The mapping callback: a day and its count become an entry whose
      percentage is the count's rounded share of the action count. */
  function MakeEntry(day: int, count: nat, totalActions: nat): DayEntry
  {
    DayEntry(CivilFromDays(day), count, if totalActions > 0 then RoundPercent(count, totalActions) else 0)
  }

  /** The `dateMap` loop: the days in first-seen order and their counts. */
  method GroupByDay(checks: seq<int>) returns (keys: seq<int>, counts: map<int, nat>)
    ensures keys == FirstSeen(checks)
    ensures forall d :: d in counts <==> d in keys
    ensures forall d :: d in counts ==> counts[d] == CountOn(checks, d)
  {
    keys := [];
    counts := map[];
    var i := 0;
    while i < |checks|
      invariant 0 <= i <= |checks|
      invariant keys == FirstSeen(checks[..i])
      invariant forall d :: d in counts <==> d in keys
      invariant forall d :: d in counts ==> counts[d] == CountOn(checks[..i], d)
    {
      var day := LocalDay(checks[i]);
      assert checks[..i + 1][..i] == checks[..i];
      if day !in counts {
        CountOnAbsent(checks[..i], day);
        keys := keys + [day];
        counts := counts[day := 1];
      } else {
        counts := counts[day := counts[day] + 1];
      }
      i := i + 1;
    }
    assert checks[..i] == checks;
  }

  /** `getDailyCompletionData` over the checks since `start` (the instant
      `days` days before now), given the active-action count: one entry per
      day with checks, in first-seen order. */
  method DailyCompletionData(ts: seq<int>, start: int, totalActions: nat, queryOk: bool)
    returns (entries: seq<DayEntry>)
    ensures !queryOk ==> entries == []
    ensures queryOk ==> entries == Entries(Since(ts, start), FirstSeen(Since(ts, start)), totalActions)
  {
    if !queryOk {
      return [];
    }
    var checks := Since(ts, start);
    var keys, counts := GroupByDay(checks);
    entries := EntriesOf(checks, keys, counts, totalActions);
  }

  /** The entries of the listed days, in their order. */
  function Entries(checks: seq<int>, days: seq<int>, totalActions: nat): seq<DayEntry>
  {
    if days == [] then []
    else Entries(checks, days[..|days| - 1], totalActions) + [EntryOf(checks, days[|days| - 1], totalActions)]
  }

  /** Entry `i` is the entry of day `i`. */
  lemma {:induction false} EntriesAt(checks: seq<int>, days: seq<int>, totalActions: nat)
    ensures |Entries(checks, days, totalActions)| == |days|
    ensures forall i :: 0 <= i < |days| ==> Entries(checks, days, totalActions)[i] == EntryOf(checks, days[i], totalActions)
  {
    if days != [] {
      EntriesAt(checks, days[..|days| - 1], totalActions);
    }
  }

  /** The `Object.entries(dateMap).map(...)` step: one entry per key. */
  method EntriesOf(checks: seq<int>, keys: seq<int>, counts: map<int, nat>, totalActions: nat)
    returns (entries: seq<DayEntry>)
    requires forall d :: d in keys ==> d in counts && counts[d] == CountOn(checks, d)
    ensures entries == Entries(checks, keys, totalActions)
  {
    entries := [];
    var j := 0;
    while j < |keys|
      invariant 0 <= j <= |keys|
      invariant entries == Entries(checks, keys[..j], totalActions)
    {
      var day := keys[j];
      assert day in keys;
      var n := counts[day];
      assert keys[..j + 1][..j] == keys[..j];
      entries := entries + [MakeEntry(day, n, totalActions)];
      j := j + 1;
    }
    assert keys[..j] == keys;
  }

  lemma {:induction false} CountOnAbsent(ts: seq<int>, day: int)
    requires day !in FirstSeen(ts)
    ensures CountOn(ts, day) == 0
  {
    if ts != [] {
      var p := ts[..|ts| - 1];
      assert day !in FirstSeen(p);
      CountOnAbsent(p, day);
    }
  }

  /** The entries account for every check since `start`, each exactly once. */
  lemma {:induction false} CountsCoverChecks(ts: seq<int>)
    ensures SumOn(ts, FirstSeen(ts)) == |ts|
  {
    if ts != [] {
      var p, t := ts[..|ts| - 1], ts[|ts| - 1];
      var d := LocalDay(t);
      assert p + [t] == ts;
      CountsCoverChecks(p);
      SumOnSnoc(p, t, FirstSeen(p));
      if d !in FirstSeen(p) {
        CountOnAbsent(p, d);
        SumOnAppend(ts, FirstSeen(p), d);
      }
    }
  }

  function SumOn(ts: seq<int>, days: seq<int>): nat
  {
    if days == [] then 0 else SumOn(ts, days[..|days| - 1]) + CountOn(ts, days[|days| - 1])
  }

  lemma SumOnAppend(ts: seq<int>, days: seq<int>, d: int)
    ensures SumOn(ts, days + [d]) == SumOn(ts, days) + CountOn(ts, d)
  {
    assert (days + [d])[..|days|] == days;
  }

  /** One more check adds one to the sum over days that hold its day. */
  lemma {:induction false} SumOnSnoc(ts: seq<int>, t: int, days: seq<int>)
    requires forall i, j :: 0 <= i < j < |days| ==> days[i] != days[j]
    ensures SumOn(ts + [t], days) == SumOn(ts, days) + (if LocalDay(t) in days then 1 else 0)
  {
    assert (ts + [t])[..|ts|] == ts;
    if days != [] {
      SumOnSnoc(ts, t, days[..|days| - 1]);
      assert LocalDay(t) in days <==> LocalDay(t) in days[..|days| - 1] || LocalDay(t) == days[|days| - 1];
    }
  }
}
