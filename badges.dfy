/** Achievements: `checkAchievementUnlock` (one unlock condition against the
    user's statistics), `checkAndUnlockAchievements` (the batch that records
    and rewards new unlocks) and `calculateBadgeProgress`. */
module Badges {
  import opened Common
  import Tables
  import Timezone
  import Levels
  import Ledger
  import Multipliers
  import Streaks
  import Completion
  import Patterns

  const DAY: int := Timezone.MS_PER_DAY

  /** `unlock_condition.type`; any other string is `Other`. */
  datatype CondType =
    | Streak | PerfectDay | PerfectWeek | PerfectMonth | TotalChecks | Balanced | TimePattern
    | WeekendCompletion | MonthlyCompletion | PerfectWeekInMonth | MonthlyStreak | Other(name: string)

  /** `unlock_condition`: a type and the optional numbers it reads. */
  datatype UnlockCondition = UnlockCondition(kind: CondType, days: Option<int>, threshold: Option<int>,
                                             count: Option<int>)

  /** `x || d`: the default when the field is missing or 0. */
  function OrDefault(x: Option<int>, d: int): (r: int)
    ensures x.Some? && x.value != 0 ==> r == x.value
    ensures x.None? || x.value == 0 ==> r == d
  {
    if x.Some? && x.value != 0 then x.value else d
  }

  /** The statistics as a fresh query returns them at the moment of the check:
      the user's check instants, the active-action count and the local
      month's first midnight are also what `perfect_week_in_month` reads. */
  datatype Fresh = Fresh(streak: Streaks.StreakStats, completion: Completion.CompletionStats,
                         goalProgress: seq<Completion.GoalProgress>, totalChecks: nat, checks: seq<int>,
                         totalActions: nat, monthStart: int, now: int)

  /** `StatsCache`: every field optional. */
  datatype StatsCache = StatsCache(streak: Option<Streaks.StreakStats>,
                                   completion: Option<Completion.CompletionStats>,
                                   goalProgress: Option<seq<Completion.GoalProgress>>,
                                   totalChecks: Option<nat>, checks: Option<seq<int>>)

  const NoCache: StatsCache := StatsCache(None, None, None, None, None)

  // ---------------------------------------------------------------------
  // perfect_week_in_month

  /** The checks in [from, until). */
  function CountBetween(ts: seq<int>, from: int, until: int): (n: nat)
    ensures n <= |ts|
  {
    if ts == [] then 0
    else CountBetween(ts[..|ts| - 1], from, until) + (if from <= ts[|ts| - 1] < until then 1 else 0)
  }

  /** The week starting at `start` is complete: its percentage, checks over
      seven days of actions, is exactly 100. */
  predicate WeekPerfect(ts: seq<int>, totalActions: nat, start: int)
  {
    totalActions > 0 && CountBetween(ts, start, start + 7 * DAY) == 7 * totalActions
  }

  /** The first midnight of week `k` of the month. */
  function WeekOf(monthStart: int, k: int): int
  {
    monthStart + k * 7 * DAY
  }

  /** Some of the month's first five weeks is over by `now` and complete. */
  predicate HasPerfectWeek(ts: seq<int>, totalActions: nat, monthStart: int, now: int)
  {
    exists k :: 0 <= k < 5 && WeekOf(monthStart, k) + 7 * DAY <= now && WeekPerfect(ts, totalActions, WeekOf(monthStart, k))
  }

  /** The week loop of `perfect_week_in_month`: stops at the first week not
      yet over, or at the first complete one. */
  method PerfectWeekInMonthLoop(ts: seq<int>, totalActions: nat, monthStart: int, now: int) returns (has: bool)
    ensures has == HasPerfectWeek(ts, totalActions, monthStart, now)
  {
    has := false;
    var k := 0;
    while k < 5
      invariant 0 <= k <= 5 && !has
      invariant forall j :: 0 <= j < k ==>
        !(WeekOf(monthStart, j) + 7 * DAY <= now && WeekPerfect(ts, totalActions, WeekOf(monthStart, j)))
    {
      var weekStart := monthStart + k * 7 * DAY;
      var weekEnd := weekStart + 7 * DAY;
      assert weekStart == WeekOf(monthStart, k);
      if weekEnd > now {
        forall j | k <= j < 5
          ensures WeekOf(monthStart, j) + 7 * DAY > now
        {
          assert WeekOf(monthStart, j) >= WeekOf(monthStart, k);
        }
        return;
      }
      var checked := CountBetween(ts, weekStart, weekEnd);
      var total := totalActions * 7;
      if total > 0 && checked == total {
        has := true;
        assert WeekPerfect(ts, totalActions, WeekOf(monthStart, k));
        return;
      }
      k := k + 1;
    }
  }

  // ---------------------------------------------------------------------
  // checkAchievementUnlock

  /** Checks on Saturday or Sunday. */
  function WeekendChecks(ts: seq<int>): nat
  {
    Patterns.CountDay(ts, 0) + Patterns.CountDay(ts, 6)
  }

  /** Checks Monday to Friday. */
  function WeekdayChecks(ts: seq<int>): nat
  {
    Patterns.CountDay(ts, 1) + Patterns.CountDay(ts, 2) + Patterns.CountDay(ts, 3) +
    Patterns.CountDay(ts, 4) + Patterns.CountDay(ts, 5)
  }

  /** `checkAchievementUnlock`: a cached figure when the cache holds it,
      otherwise the fresh one. An unknown condition type is never met, a
      streak or total-checks condition without its target is always met, and
      the pattern and balance rules never fire on an empty list. */
  function Evaluate(cond: UnlockCondition, cache: StatsCache, st: Fresh): (r: bool)
    ensures cond.kind.Other? ==> !r
    ensures cond.kind == Streak && cond.days.None? ==> r
    ensures cond.kind == TotalChecks && cond.count.None? ==> r
    ensures r && cond.kind in {TimePattern, WeekendCompletion} ==> |cache.checks.GetOr(st.checks)| > 0
    ensures r && cond.kind == Balanced ==> |cache.goalProgress.GetOr(st.goalProgress)| > 0
  {
    match cond.kind
    case Streak =>
      var s := cache.streak.GetOr(st.streak);
      var days := cond.days.GetOr(0);
      s.current >= days || s.longest >= days
    case PerfectDay =>
      cache.completion.GetOr(st.completion).today.percentage == 100
    case PerfectWeek =>
      cache.completion.GetOr(st.completion).week.percentage >= OrDefault(cond.threshold, 80)
    case PerfectMonth =>
      cache.completion.GetOr(st.completion).month.percentage >= OrDefault(cond.threshold, 90)
    case TotalChecks =>
      cache.totalChecks.GetOr(st.totalChecks) >= cond.count.GetOr(0)
    case Balanced =>
      var gp := cache.goalProgress.GetOr(st.goalProgress);
      var threshold := OrDefault(cond.threshold, 60);
      |gp| > 0 && forall i :: 0 <= i < |gp| ==> gp[i].weeklyPercentage >= threshold
    case TimePattern =>
      var ts := cache.checks.GetOr(st.checks);
      |ts| > 0 && 100 * Patterns.CountPeriod(ts, Patterns.Morning) >= OrDefault(cond.threshold, 70) * |ts|
    case WeekendCompletion =>
      var ts := cache.checks.GetOr(st.checks);
      |ts| > 0 && WeekdayChecks(ts) > 0 && 5 * WeekendChecks(ts) > 2 * WeekdayChecks(ts)
    case MonthlyCompletion =>
      cache.completion.GetOr(st.completion).month.percentage >= OrDefault(cond.threshold, 90)
    case PerfectWeekInMonth =>
      HasPerfectWeek(st.checks, st.totalActions, st.monthStart, st.now)
    case MonthlyStreak =>
      cache.streak.GetOr(st.streak).current >= OrDefault(cond.days, 30)
    case Other(_) => false
  }

  /** The streak condition holds exactly when one of the two streaks reaches
      the required days, and a missing `days` is always met. */
  lemma StreakCondition(cond: UnlockCondition, st: Fresh)
    requires cond.kind == Streak
    ensures Evaluate(cond, NoCache, st) <==>
      (cond.days.None? || st.streak.current >= cond.days.value || st.streak.longest >= cond.days.value)
    ensures cond.days.None? ==> Evaluate(cond, NoCache, st)
  {
  }

  /** `perfect_week`, `perfect_month` and `monthly_completion` read a
      threshold of 0 as the default, so a 0 threshold is not "always met". */
  lemma ZeroThresholdIsDefault(cond: UnlockCondition, st: Fresh)
    requires cond.kind == PerfectMonth && cond.threshold == Some(0)
    requires st.completion.month.percentage == 0
    ensures !Evaluate(cond, NoCache, st)
  {
  }

  /** The weekend rule: per-day weekend checks above per-day weekday checks. */
  lemma WeekendRate(cond: UnlockCondition, st: Fresh)
    requires cond.kind == WeekendCompletion
    ensures Evaluate(cond, NoCache, st) <==>
      WeekdayChecks(st.checks) > 0 &&
      (WeekendChecks(st.checks) as real) / 2.0 > (WeekdayChecks(st.checks) as real) / 5.0
  {
  }

  /** A `balanced` condition whose threshold is above 14 (the default is 60)
      can never be met, as no weekly percentage exceeds 14. */
  lemma BalancedNeverFires(cond: UnlockCondition, st: Fresh, sgs: seq<Completion.SubGoalRow>,
                           clk: Completion.LocalClock)
    requires cond.kind == Balanced && OrDefault(cond.threshold, 60) > 14
    requires Completion.ValidClock(clk) && st.goalProgress == Completion.GoalProgressOf(sgs, clk)
    ensures !Evaluate(cond, NoCache, st)
  {
    var gp := st.goalProgress;
    assert NoCache.goalProgress.GetOr(st.goalProgress) == gp;
    if |gp| > 0 {
      assert gp[0].weeklyPercentage < OrDefault(cond.threshold, 60);
    }
  }

  // ---------------------------------------------------------------------
  // The stats cache

  datatype StatKey = StreakKey | CompletionKey | GoalProgressKey | TotalChecksKey | ChecksKey

  /** The statistic a condition type reads from the cache, if any. */
  function NeedOf(k: CondType): Option<StatKey>
  {
    match k
    case Streak => Some(StreakKey)
    case MonthlyStreak => Some(StreakKey)
    case PerfectDay => Some(CompletionKey)
    case PerfectWeek => Some(CompletionKey)
    case PerfectMonth => Some(CompletionKey)
    case MonthlyCompletion => Some(CompletionKey)
    case PerfectWeekInMonth => Some(CompletionKey)
    case Balanced => Some(GoalProgressKey)
    case TotalChecks => Some(TotalChecksKey)
    case TimePattern => Some(ChecksKey)
    case WeekendCompletion => Some(ChecksKey)
    case Other(_) => None
  }

  /** An achievement row. */
  datatype Achievement = Achievement(id: nat, key: string, xpReward: int, cond: UnlockCondition,
                                     displayOrder: int, isActive: bool)

  /** The `neededStats` loop: the statistics the candidates' conditions read. */
  method NeededStats(cands: seq<Achievement>) returns (needed: set<StatKey>)
    ensures forall k :: k in needed <==> exists i :: 0 <= i < |cands| && NeedOf(cands[i].cond.kind) == Some(k)
  {
    needed := {};
    var i := 0;
    while i < |cands|
      invariant 0 <= i <= |cands|
      invariant forall k :: k in needed <==> exists j :: 0 <= j < i && NeedOf(cands[j].cond.kind) == Some(k)
    {
      var need := NeedOf(cands[i].cond.kind);
      if need.Some? {
        needed := needed + {need.value};
      }
      i := i + 1;
    }
  }

  /** The cache built from the needed statistics: exactly those are filled. */
  function BuildCache(needed: set<StatKey>, st: Fresh): (c: StatsCache)
    ensures c.streak.Some? <==> StreakKey in needed
    ensures c.completion.Some? <==> CompletionKey in needed
    ensures c.goalProgress.Some? <==> GoalProgressKey in needed
    ensures c.totalChecks.Some? <==> TotalChecksKey in needed
    ensures c.checks.Some? <==> ChecksKey in needed
  {
    StatsCache(if StreakKey in needed then Some(st.streak) else None,
               if CompletionKey in needed then Some(st.completion) else None,
               if GoalProgressKey in needed then Some(st.goalProgress) else None,
               if TotalChecksKey in needed then Some(st.totalChecks) else None,
               if ChecksKey in needed then Some(st.checks) else None)
  }

  /** The cache only saves queries: with the figures a fresh query would
      return, every condition decides as it would without it. */
  lemma CacheAgrees(cond: UnlockCondition, needed: set<StatKey>, st: Fresh)
    ensures Evaluate(cond, BuildCache(needed, st), st) == Evaluate(cond, NoCache, st)
  {
  }

  // ---------------------------------------------------------------------
  // checkAndUnlockAchievements

  /** What the achievements query guarantees: active rows, by display order,
      with distinct ids. */
  predicate QueryOrder(rows: seq<Achievement>)
  {
    (forall i :: 0 <= i < |rows| ==> rows[i].isActive) && Ordered(rows)
  }

  /** The rows not yet unlocked, in their order. */
  function Candidates(rows: seq<Achievement>, unlocked: seq<nat>): (cs: seq<Achievement>)
    ensures |cs| <= |rows|
    ensures forall a :: a in cs <==> a in rows && a.id !in unlocked
  {
    if rows == [] then []
    else
      var a := rows[|rows| - 1];
      Candidates(rows[..|rows| - 1], unlocked) + (if a.id !in unlocked then [a] else [])
  }

  /** The candidates whose condition holds and whose `user_achievements`
      insert succeeds, in their order. */
  function Unlocks(cs: seq<Achievement>, cache: StatsCache, st: Fresh, insertOk: nat -> bool)
    : (us: seq<Achievement>)
    ensures |us| <= |cs|
    ensures forall a :: a in us <==> a in cs && Evaluate(a.cond, cache, st) && insertOk(a.id)
  {
    if cs == [] then []
    else
      var a := cs[|cs| - 1];
      Unlocks(cs[..|cs| - 1], cache, st, insertOk) +
      (if Evaluate(a.cond, cache, st) && insertOk(a.id) then [a] else [])
  }

  function Ids(xs: seq<Achievement>): (ids: seq<nat>)
    ensures |ids| == |xs| && forall i :: 0 <= i < |xs| ==> ids[i] == xs[i].id
  {
    if xs == [] then [] else Ids(xs[..|xs| - 1]) + [xs[|xs| - 1].id]
  }

  function Rewards(xs: seq<Achievement>): (rs: seq<int>)
    ensures |rs| == |xs| && forall i :: 0 <= i < |xs| ==> rs[i] == xs[i].xpReward
  {
    if xs == [] then [] else Rewards(xs[..|xs| - 1]) + [xs[|xs| - 1].xpReward]
  }

  /** The ledger after one `updateUserXP(xp_reward)` per unlocked
      achievement, in order; each call meets the backend outcomes `f` gives
      for that achievement's id. */
  function LedgerAfterAll(levels: Option<Tables.LevelRow>, bonuses: seq<Tables.BonusRow>, c: Levels.Curve,
                          xs: seq<Achievement>, now: int, f: nat -> Ledger.LedgerFaults)
    : (Option<Tables.LevelRow>, seq<Tables.BonusRow>)
  {
    if xs == [] then (levels, bonuses)
    else
      var a := xs[|xs| - 1];
      var prev := LedgerAfterAll(levels, bonuses, c, xs[..|xs| - 1], now, f);
      Ledger.LedgerAfter(prev.0, prev.1, c, a.xpReward, now, f(a.id))
  }

  /** `checkAndUnlockAchievements`: candidates are the active rows the user
      has not unlocked; each one whose condition holds is inserted, and each
      successful insert is rewarded with its XP; a failed insert is skipped. */
  method CheckAndUnlockAchievements(db: Tables.UserTables, c: Levels.Curve, rows: seq<Achievement>,
                                    st: Fresh, queryOk: bool, insertOk: nat -> bool, f: nat -> Ledger.LedgerFaults)
    returns (newly: seq<Achievement>)
    requires QueryOrder(rows)
    modifies db`unlocked, db`levels, db`bonuses
    ensures !queryOk ==> newly == [] && db.unlocked == old(db.unlocked) && db.levels == old(db.levels) &&
                         db.bonuses == old(db.bonuses)
    ensures queryOk ==>
      var cands := Candidates(rows, old(db.unlocked));
      var needed := set i | 0 <= i < |cands| && NeedOf(cands[i].cond.kind).Some? :: NeedOf(cands[i].cond.kind).value;
      newly == Unlocks(cands, BuildCache(needed, st), st, insertOk)
    ensures db.unlocked == old(db.unlocked) + Ids(newly)
    ensures (db.levels, db.bonuses) == LedgerAfterAll(old(db.levels), old(db.bonuses), c, newly, st.now, f)
  {
    if !queryOk {
      return [];
    }
    var unlockedIds := db.unlocked;
    var cands := Candidates(rows, unlockedIds);
    var needed := NeededStats(cands);
    NeededIsSpec(cands, needed);
    var cache := BuildCache(needed, st);
    newly := UnlockLoop(db, c, cands, cache, st, insertOk, f);
  }

  /** The loop over the evaluated candidates: insert, then reward. */
  method UnlockLoop(db: Tables.UserTables, c: Levels.Curve, cands: seq<Achievement>, cache: StatsCache, st: Fresh,
                    insertOk: nat -> bool, f: nat -> Ledger.LedgerFaults) returns (newly: seq<Achievement>)
    modifies db`unlocked, db`levels, db`bonuses
    ensures newly == Unlocks(cands, cache, st, insertOk)
    ensures db.unlocked == old(db.unlocked) + Ids(newly)
    ensures (db.levels, db.bonuses) == LedgerAfterAll(old(db.levels), old(db.bonuses), c, newly, st.now, f)
  {
    newly := [];
    var i := 0;
    while i < |cands|
      invariant 0 <= i <= |cands|
      invariant newly == Unlocks(cands[..i], cache, st, insertOk)
      invariant db.unlocked == old(db.unlocked) + Ids(newly)
      invariant (db.levels, db.bonuses) == LedgerAfterAll(old(db.levels), old(db.bonuses), c, newly, st.now, f)
    {
      var a := cands[i];
      var ok := Evaluate(a.cond, cache, st) && insertOk(a.id);
      UnlockStep(cands, i, cache, st, insertOk, ok, newly);
      if ok {
        Record(db, c, a, st.now, f, newly, old(db.unlocked), old(db.levels), old(db.bonuses));
        newly := newly + [a];
      }
      i := i + 1;
    }
    assert cands[..i] == cands;
  }

  /** A successful `user_achievements` insert followed by
      `updateUserXP(xp_reward)`, which extends the unlocked list and the
      ledger fold by one achievement. */
  method Record(db: Tables.UserTables, c: Levels.Curve, a: Achievement, now: int, f: nat -> Ledger.LedgerFaults,
                ghost newly: seq<Achievement>, ghost unlocked0: seq<nat>, ghost levels0: Option<Tables.LevelRow>,
                ghost bonuses0: seq<Tables.BonusRow>)
    requires db.unlocked == unlocked0 + Ids(newly)
    requires (db.levels, db.bonuses) == LedgerAfterAll(levels0, bonuses0, c, newly, now, f)
    modifies db`unlocked, db`levels, db`bonuses
    ensures db.unlocked == unlocked0 + Ids(newly + [a])
    ensures (db.levels, db.bonuses) == LedgerAfterAll(levels0, bonuses0, c, newly + [a], now, f)
  {
    ghost var newly' := newly + [a];
    assert newly'[..|newly|] == newly;
    db.unlocked := db.unlocked + [a.id];
    var _ := Ledger.UpdateUserXP(db, c, a.xpReward, now, f(a.id));
  }

  /** The needed set the loop builds, as a set comprehension. */
  lemma NeededIsSpec(cands: seq<Achievement>, needed: set<StatKey>)
    requires forall k :: k in needed <==> exists i :: 0 <= i < |cands| && NeedOf(cands[i].cond.kind) == Some(k)
    ensures needed == set i | 0 <= i < |cands| && NeedOf(cands[i].cond.kind).Some? :: NeedOf(cands[i].cond.kind).value
  {
    var spec := set i | 0 <= i < |cands| && NeedOf(cands[i].cond.kind).Some? :: NeedOf(cands[i].cond.kind).value;
    forall k ensures k in needed <==> k in spec {
      if k in needed {
        var i :| 0 <= i < |cands| && NeedOf(cands[i].cond.kind) == Some(k);
        assert k == NeedOf(cands[i].cond.kind).value;
      }
    }
  }

  /** One turn of the unlock loop, on the specification function. */
  lemma UnlockStep(cands: seq<Achievement>, i: nat, cache: StatsCache, st: Fresh, insertOk: nat -> bool, ok: bool,
                   newly: seq<Achievement>)
    requires i < |cands| && newly == Unlocks(cands[..i], cache, st, insertOk)
    requires ok == (Evaluate(cands[i].cond, cache, st) && insertOk(cands[i].id))
    ensures Unlocks(cands[..i + 1], cache, st, insertOk) == newly + (if ok then [cands[i]] else [])
  {
    assert cands[..i + 1][..i] == cands[..i];
  }

  /** Display order and distinct ids, as the achievements query returns them. */
  predicate Ordered(s: seq<Achievement>)
  {
    forall i, j :: 0 <= i < j < |s| ==> s[i].displayOrder <= s[j].displayOrder && s[i].id != s[j].id
  }

  lemma {:induction false} CandidatesOrdered(rows: seq<Achievement>, unlocked: seq<nat>)
    requires Ordered(rows)
    ensures Ordered(Candidates(rows, unlocked))
  {
    if rows != [] {
      var p, a := rows[..|rows| - 1], rows[|rows| - 1];
      CandidatesOrdered(p, unlocked);
      var cp := Candidates(p, unlocked);
      forall x | x in cp
        ensures x.displayOrder <= a.displayOrder && x.id != a.id
      {
        var k :| 0 <= k < |p| && p[k] == x;
        assert rows[k] == x;
      }
    }
  }

  lemma {:induction false} UnlocksOrdered(cs: seq<Achievement>, cache: StatsCache, st: Fresh, insertOk: nat -> bool)
    requires Ordered(cs)
    ensures Ordered(Unlocks(cs, cache, st, insertOk))
  {
    if cs != [] {
      var p, a := cs[..|cs| - 1], cs[|cs| - 1];
      UnlocksOrdered(p, cache, st, insertOk);
      var up := Unlocks(p, cache, st, insertOk);
      forall x | x in up
        ensures x.displayOrder <= a.displayOrder && x.id != a.id
      {
        var k :| 0 <= k < |p| && p[k] == x;
        assert cs[k] == x;
      }
    }
  }

  /** The new unlocks come from the active rows the user had not unlocked,
      keep the display order, and are each recorded once. */
  lemma UnlocksAreNew(rows: seq<Achievement>, unlocked: seq<nat>, cache: StatsCache, st: Fresh,
                      insertOk: nat -> bool)
    requires QueryOrder(rows)
    ensures var us := Unlocks(Candidates(rows, unlocked), cache, st, insertOk);
      (forall i :: 0 <= i < |us| ==> us[i] in rows && us[i].isActive && us[i].id !in unlocked) &&
      Ordered(us)
  {
    CandidatesOrdered(rows, unlocked);
    UnlocksOrdered(Candidates(rows, unlocked), cache, st, insertOk);
    var us := Unlocks(Candidates(rows, unlocked), cache, st, insertOk);
    forall i | 0 <= i < |us|
      ensures us[i] in rows && us[i].isActive && us[i].id !in unlocked
    {
      assert us[i] in us;
      var k :| 0 <= k < |rows| && rows[k] == us[i];
    }
  }

  /** With every update going through and no reward negative, the ledger
      ends at the starting total plus every reward, at the level of that total. */
  lemma {:induction false} RewardsAddUp(levels: Option<Tables.LevelRow>, bonuses: seq<Tables.BonusRow>,
                                        c: Levels.Curve, xs: seq<Achievement>, now: int, f: nat -> Ledger.LedgerFaults)
    requires forall i :: 0 <= i < |xs| ==> f(xs[i].id).updateOk && (levels.Some? || f(xs[i].id).insertOk)
    requires levels.Some? ==> levels.value.totalXp >= 0
    requires forall i :: 0 <= i < |xs| ==> xs[i].xpReward >= 0
    ensures var r := LedgerAfterAll(levels, bonuses, c, xs, now, f);
      var start := if levels.Some? then levels.value.totalXp else 0;
      (xs != [] || levels.Some?) ==> r.0.Some? && r.0.value.totalXp == start + Sum(Rewards(xs))
    ensures xs != [] ==> Ledger.Coherent(c, LedgerAfterAll(levels, bonuses, c, xs, now, f).0.value)
  {
    if xs != [] {
      var p := xs[..|xs| - 1];
      RewardsAddUp(levels, bonuses, c, p, now, f);
      assert Rewards(xs)[..|p|] == Rewards(p);
    }
  }

  function Sum(xs: seq<int>): int
  {
    if xs == [] then 0 else Sum(xs[..|xs| - 1]) + xs[|xs| - 1]
  }

  // ---------------------------------------------------------------------
  // calculateBadgeProgress

  /** A JavaScript number as the progress figure needs one. */
  datatype Ratio = Value(v: real) | NotANumber | MinusInfinity

  /** `Math.min(current / target * 100, 100)`. */
  function ProgressOf(current: int, target: int): (r: Ratio)
    ensures r.Value? ==> r.v <= 100.0
    ensures target > 0 && current >= 0 ==> r.Value? && 0.0 <= r.v
    ensures target > 0 ==> (r == Value(100.0) <==> current >= target)
  {
    if target != 0 then
      var q := (current as real) / (target as real) * 100.0;
      Value(if q < 100.0 then q else 100.0)
    else if current > 0 then Value(100.0)
    else if current < 0 then MinusInfinity
    else NotANumber
  }

  datatype BadgeProgress = BadgeProgress(progress: Ratio, current: int, target: int)

  /** `calculateBadgeProgress`: no figure for the composite conditions. */
  function BadgeProgressOf(cond: UnlockCondition, st: Fresh): (p: Option<BadgeProgress>)
    ensures p.Some? <==> cond.kind in {Streak, TotalChecks, PerfectWeek, PerfectMonth, MonthlyCompletion, MonthlyStreak}
    ensures p.Some? ==> p.value.progress == ProgressOf(p.value.current, p.value.target)
  {
    match cond.kind
    case Streak =>
      var target := cond.days.GetOr(1);
      var s := st.streak;
      var current := if s.current >= s.longest then s.current else s.longest;
      Some(BadgeProgress(ProgressOf(current, target), current, target))
    case TotalChecks =>
      var target := cond.count.GetOr(1);
      Some(BadgeProgress(ProgressOf(st.totalChecks, target), st.totalChecks, target))
    case PerfectWeek =>
      var threshold := OrDefault(cond.threshold, 80);
      var target := cond.count.GetOr(1);
      var current := if st.completion.week.percentage >= threshold then 1 else 0;
      Some(BadgeProgress(ProgressOf(current, target), current, target))
    case PerfectMonth =>
      var threshold := OrDefault(cond.threshold, 90);
      var current := st.completion.month.percentage;
      Some(BadgeProgress(ProgressOf(current, threshold), current, threshold))
    case MonthlyCompletion =>
      var threshold := OrDefault(cond.threshold, 90);
      var current := st.completion.month.percentage;
      Some(BadgeProgress(ProgressOf(current, threshold), current, threshold))
    case MonthlyStreak =>
      var target := OrDefault(cond.days, 30);
      var current := st.streak.current;
      Some(BadgeProgress(ProgressOf(current, target), current, target))
    case _ => None
  }

  /** Where both read the same target, a full progress bar is exactly an
      unlocked condition. */
  lemma ProgressMatchesUnlock(cond: UnlockCondition, st: Fresh)
    requires cond.kind in {Streak, MonthlyStreak, PerfectMonth, MonthlyCompletion, TotalChecks, PerfectWeek}
    requires cond.kind == MonthlyStreak ==> OrDefault(cond.days, 30) > 0
    requires cond.kind == Streak ==> cond.days.Some? && cond.days.value > 0
    requires cond.kind in {PerfectMonth, MonthlyCompletion} ==> OrDefault(cond.threshold, 90) > 0
    requires cond.kind == TotalChecks ==> cond.count.Some? && cond.count.value > 0
    requires cond.kind == PerfectWeek ==> cond.count.None? || cond.count == Some(1)
    ensures BadgeProgressOf(cond, st).value.progress == Value(100.0) <==> Evaluate(cond, NoCache, st)
  {
  }

  /** Where the defaults differ they disagree: without `days` a streak badge
      is unlocked with no streak at all while its bar stays empty, and
      without `count` a total-checks badge is unlocked with no check. */
  lemma DefaultsDisagree(st: Fresh)
    requires st.streak.current == 0 && st.streak.longest == 0 && st.totalChecks == 0
    ensures var streak := UnlockCondition(Streak, None, None, None);
      Evaluate(streak, NoCache, st) && BadgeProgressOf(streak, st).value.progress == Value(0.0)
    ensures var total := UnlockCondition(TotalChecks, None, None, None);
      Evaluate(total, NoCache, st) && BadgeProgressOf(total, st).value.progress == Value(0.0)
  {
  }
}
