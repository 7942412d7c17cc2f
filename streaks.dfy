/** `getStreakStats`: the current and the longest run of consecutive local
    days with at least one check. Days are local (+9:00) day numbers, so the
    day before day `d` is `d - 1`. */
module Streaks {
  import opened Common
  import opened Timezone

  datatype StreakStats = StreakStats(current: nat, longest: nat, lastCheckDate: Option<int>,
                                     longestStreakDate: Option<int>)

  /** The order of the query: newest check first. */
  predicate NewestFirst(ts: seq<int>)
  {
    forall i, j :: 0 <= i < j < |ts| ==> ts[i] >= ts[j]
  }

  predicate StrictlyDecreasing(ds: seq<int>)
  {
    forall i, j :: 0 <= i < j < |ds| ==> ds[i] > ds[j]
  }

  /** The distinct local days of the checks, newest first: what
      `Array.from(new Set(dates)).sort(desc)` yields for checks that are
      already newest first. */
  function Days(ts: seq<int>): (ds: seq<int>)
    ensures |ts| > 0 ==> |ds| > 0 && ds[|ds| - 1] == LocalDay(ts[|ts| - 1])
    ensures |ds| <= |ts|
  {
    if ts == [] then []
    else
      var ds := Days(ts[..|ts| - 1]);
      var d := LocalDay(ts[|ts| - 1]);
      if ds != [] && ds[|ds| - 1] == d then ds else ds + [d]
  }

  lemma LocalDayMono(t1: int, t2: int)
    requires t1 >= t2
    ensures LocalDay(t1) >= LocalDay(t2)
  {
  }

  /** The days are strictly decreasing, start with the newest check's day,
      and are exactly the days of the checks. */
  lemma {:induction false} DaysShape(ts: seq<int>)
    requires NewestFirst(ts)
    ensures StrictlyDecreasing(Days(ts))
    ensures |ts| > 0 ==> Days(ts)[0] == LocalDay(ts[0])
    ensures forall d :: d in Days(ts) <==> exists i :: 0 <= i < |ts| && LocalDay(ts[i]) == d
  {
    if ts != [] {
      var p := ts[..|ts| - 1];
      DaysShape(p);
      var t := ts[|ts| - 1];
      if p != [] {
        LocalDayMono(p[|p| - 1], t);
      }
      forall d
        ensures d in Days(ts) <==> exists i :: 0 <= i < |ts| && LocalDay(ts[i]) == d
      {
        if d in Days(ts) && d != LocalDay(t) {
          assert d in Days(p);
          var i :| 0 <= i < |p| && LocalDay(p[i]) == d;
          assert LocalDay(ts[i]) == d;
        }
        if exists i :: 0 <= i < |ts| && LocalDay(ts[i]) == d {
          var i :| 0 <= i < |ts| && LocalDay(ts[i]) == d;
          if i < |p| {
            assert LocalDay(p[i]) == d;
          }
        }
      }
    }
  }

  /** Collects the distinct days of checks that are newest first. */
  method UniqueDays(ts: seq<int>) returns (ds: seq<int>)
    ensures ds == Days(ts)
  {
    ds := [];
    var i := 0;
    while i < |ts|
      invariant 0 <= i <= |ts|
      invariant ds == Days(ts[..i])
    {
      var d := LocalDay(ts[i]);
      if ds == [] || ds[|ds| - 1] != d {
        ds := ds + [d];
      }
      assert ts[..i + 1][..i] == ts[..i];
      i := i + 1;
    }
    assert ts[..i] == ts;
  }

  /** The length of the run of consecutive days that ends at index `i`
      (counting towards the newer days). */
  function Chain(ds: seq<int>, i: nat): (n: nat)
    requires i < |ds|
    ensures 1 <= n <= i + 1
  {
    if i == 0 then 1 else if ds[i - 1] - ds[i] == 1 then Chain(ds, i - 1) + 1 else 1
  }

  /** Inside a run, every earlier index lies on the same run. */
  lemma {:induction false} ChainBack(ds: seq<int>, i: nat, j: nat)
    requires j <= i < |ds| && Chain(ds, i) > i - j
    ensures Chain(ds, j) == Chain(ds, i) - (i - j)
    decreases i - j
  {
    if j < i {
      assert ds[i - 1] - ds[i] == 1;
      ChainBack(ds, i - 1, j);
    }
  }

  /** `current` is the length of the run that starts at the newest day. */
  predicate HeadRun(ds: seq<int>, current: nat)
  {
    1 <= current <= |ds| &&
    (forall i :: 0 <= i < current ==> ds[i] == ds[0] - i) &&
    (current < |ds| ==> ds[current] != ds[0] - current)
  }

  /** `longest` is the longest run and `endIndex` the oldest day of the last
      such run in newest-first order, that is the oldest of the tied runs. */
  predicate LongestRun(ds: seq<int>, longest: nat, endIndex: nat)
  {
    endIndex < |ds| && Chain(ds, endIndex) == longest &&
    (forall i :: 0 <= i < |ds| ==> Chain(ds, i) <= longest) &&
    (forall i :: endIndex < i < |ds| ==> Chain(ds, i) < longest)
  }

  /** The current-streak loop: counts days back from the newest one while
      they follow each other, provided the newest is today or yesterday. */
  method CurrentStreak(ds: seq<int>, today: int) returns (current: nat)
    requires |ds| > 0
    ensures ds[0] == today || ds[0] == today - 1 ==> HeadRun(ds, current)
    ensures !(ds[0] == today || ds[0] == today - 1) ==> current == 0
  {
    current := 0;
    if ds[0] == today || ds[0] == today - 1 {
      var expected := ds[0];
      var i := 0;
      while i < |ds|
        invariant 0 <= i <= |ds| && current == i && expected == ds[0] - i
        invariant forall j :: 0 <= j < i ==> ds[j] == ds[0] - j
      {
        if ds[i] == expected {
          current := current + 1;
          expected := expected - 1;
        } else {
          break;
        }
        i := i + 1;
      }
    }
  }

  /** The longest-streak loop: scans newest to oldest, closing a run at each
      gap and taking it when it is at least as long as the best so far. */
  method LongestStreak(ds: seq<int>) returns (longest: nat, endIndex: nat)
    requires |ds| > 0
    ensures LongestRun(ds, longest, endIndex)
  {
    longest := 0;
    var temp := 1;
    endIndex := 0;
    var i := 0;
    while i < |ds| - 1
      invariant 0 <= i <= |ds| - 1
      invariant temp == Chain(ds, i)
      invariant forall j :: 0 <= j <= i - temp ==> Chain(ds, j) <= longest
      invariant forall j :: endIndex < j <= i - temp ==> Chain(ds, j) < longest
      invariant longest > 0 ==> endIndex <= i - temp && Chain(ds, endIndex) == longest
      invariant longest == 0 ==> i - temp == -1 && endIndex == 0
    {
      if ds[i] - ds[i + 1] == 1 {
        temp := temp + 1;
      } else {
        forall j | i - temp < j <= i
          ensures Chain(ds, j) <= temp
        {
          ChainBack(ds, i, j);
        }
        if temp >= longest {
          longest := temp;
          endIndex := i;
        }
        temp := 1;
      }
      i := i + 1;
    }
    forall j | i - temp < j <= i
      ensures Chain(ds, j) <= temp
    {
      ChainBack(ds, i, j);
    }
    if temp >= longest {
      longest := temp;
      endIndex := |ds| - 1;
    }
  }

  /** The run from the newest day is one of the runs, so it is never longer
      than the longest. */
  lemma HeadRunBounded(ds: seq<int>, current: nat, longest: nat, endIndex: nat)
    requires HeadRun(ds, current) && LongestRun(ds, longest, endIndex)
    ensures current <= longest
  {
    HeadChain(ds, current - 1);
  }

  lemma {:induction false} HeadChain(ds: seq<int>, k: nat)
    requires k < |ds| && forall i :: 0 <= i <= k ==> ds[i] == ds[0] - i
    ensures Chain(ds, k) == k + 1
  {
    if k > 0 {
      HeadChain(ds, k - 1);
    }
  }

  /** The first check (newest first) whose local day is `d`: the first
      element of `checks.filter(...)`. */
  method FirstOnDay(ts: seq<int>, d: int) returns (r: Option<int>)
    ensures r.Some? <==> exists i :: 0 <= i < |ts| && LocalDay(ts[i]) == d
    ensures r.Some? ==> exists i :: 0 <= i < |ts| && ts[i] == r.value && LocalDay(ts[i]) == d &&
                          forall j :: 0 <= j < i ==> LocalDay(ts[j]) != d
  {
    var i := 0;
    while i < |ts|
      invariant 0 <= i <= |ts|
      invariant forall j :: 0 <= j < i ==> LocalDay(ts[j]) != d
    {
      if LocalDay(ts[i]) == d {
        return Some(ts[i]);
      }
      i := i + 1;
    }
    return None;
  }

  /** `getStreakStats` over the user's check instants, newest first, at
      instant `now`. */
  method GetStreakStats(ts: seq<int>, now: int) returns (s: StreakStats)
    requires NewestFirst(ts)
    ensures ts == [] ==> s == StreakStats(0, 0, None, None)
    ensures ts != [] ==>
      var ds := Days(ts);
      var today := LocalDay(now);
      s.lastCheckDate == Some(ts[0]) &&
      (ds[0] == today || ds[0] == today - 1 ==> HeadRun(ds, s.current)) &&
      (!(ds[0] == today || ds[0] == today - 1) ==> s.current == 0) &&
      (exists e: nat :: LongestRun(ds, s.longest, e) &&
        (s.current >= s.longest ==> s.longestStreakDate == Some(ts[0])) &&
        (s.current < s.longest ==>
          exists i :: 0 <= i < |ts| && s.longestStreakDate == Some(ts[i]) && LocalDay(ts[i]) == ds[e] &&
            forall j :: 0 <= j < i ==> LocalDay(ts[j]) != ds[e]))
    ensures ts != [] ==> 1 <= s.longest && s.current <= s.longest
  {
    if |ts| == 0 {
      return StreakStats(0, 0, None, None);
    }
    var lastCheckDate := Some(ts[0]);
    var ds := UniqueDays(ts);
    DaysShape(ts);
    var today := LocalDay(now);
    var yesterday := LocalDay(now - MS_PER_DAY);
    assert yesterday == today - 1;
    var current := CurrentStreak(ds, today);
    var longest, endIndex := LongestStreak(ds);
    if current > 0 {
      HeadRunBounded(ds, current, longest, endIndex);
    }
    var longestDate: Option<int> := None;
    if current >= longest {
      longestDate := lastCheckDate;
    } else {
      assert ds[endIndex] in ds;
      longestDate := FirstOnDay(ts, ds[endIndex]);
    }
    s := StreakStats(current, longest, lastCheckDate, longestDate);
  }

  /** The tie-break: of two runs of the same length, the older one is the one
      `longestStreakDate` looks at, contrary to the source's comments. */
  lemma OlderRunWins(ds: seq<int>, longest: nat, endIndex: nat, i: nat)
    requires LongestRun(ds, longest, endIndex)
    requires i < |ds| && Chain(ds, i) == longest
    ensures i <= endIndex
  {
  }

  /** An example of the tie-break: runs 12-11 and 9-8 are both two days long,
      and the older one is chosen. */
  lemma TieExample()
    ensures LongestRun([12, 11, 9, 8], 2, 3)
  {
    var ds := [12, 11, 9, 8];
    assert Chain(ds, 0) == 1 && Chain(ds, 1) == 2 && Chain(ds, 2) == 1 && Chain(ds, 3) == 2;
  }
}
