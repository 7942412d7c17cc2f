/** Completion figures: `getCompletionStats` (today, this week, this month),
    `getGoalProgress` (per sub-goal) and `generateMotivationalMessage`. The
    device's local calendar at the time of the query is an input. */
module Completion {
  import opened Common
  import opened Strings
  import opened Tables
  import Calendar
  import Timezone

  const DAY: int := Timezone.MS_PER_DAY

  /** The device's local calendar now: the instant of today's midnight, the
      weekday (0 = Sunday), the year and month (1-12), and the instant of the
      month's first midnight. */
  datatype LocalClock = LocalClock(todayStart: int, weekday: int, year: int, month: int, monthStart: int)

  predicate ValidClock(clk: LocalClock)
  {
    0 <= clk.weekday <= 6 && 1 <= clk.month <= 12
  }

  /** Sunday's midnight of the current week. */
  function WeekStart(clk: LocalClock): int
  {
    clk.todayStart - clk.weekday * DAY
  }

  datatype Period = Period(checked: nat, total: nat, percentage: int)

  datatype CompletionStats = CompletionStats(today: Period, week: Period, month: Period)

  /** The checks of the listed actions from `from` on, and before `until` when
      there is one: the count the `check_history` queries return. */
  function CountIn(checks: seq<CheckRow>, ids: set<nat>, from: int, until: Option<int>): (n: nat)
    ensures n <= |checks|
  {
    if checks == [] then 0
    else
      var c := checks[|checks| - 1];
      CountIn(checks[..|checks| - 1], ids, from, until) +
      (if c.actionId in ids && c.checkedAt >= from && (until.None? || c.checkedAt < until.value) then 1 else 0)
  }

  /** The percentage of one period: 0 without actions, otherwise the rounded
      share of `checked` in `totalActions * days`. */
  function Percentage(checked: nat, totalActions: nat, days: nat): (p: int)
    requires days >= 1
    ensures totalActions == 0 ==> p == 0
    ensures totalActions > 0 ==>
      var den := totalActions * days;
      2 * p * den <= 200 * checked + den < 2 * p * den + 2 * den
  {
    if totalActions > 0 then RoundPercent(checked, totalActions * days) else 0
  }

  /** Cancels a positive factor from a strict inequality. */
  lemma CancelFactor(a: int, b: int, den: int)
    requires den > 0 && a * den < b * den
    ensures a < b
  {
    assert (b - a) * den > 0;
  }

  /** A share between none and all gives a percentage between 0 and 100;
      none gives 0 and all gives 100. */
  lemma PercentageBounds(checked: nat, totalActions: nat, days: nat)
    requires days >= 1 && checked <= totalActions * days
    ensures 0 <= Percentage(checked, totalActions, days) <= 100
    ensures checked == 0 ==> Percentage(checked, totalActions, days) == 0
    ensures totalActions > 0 && checked == totalActions * days ==> Percentage(checked, totalActions, days) == 100
  {
    if totalActions > 0 {
      var den := totalActions * days;
      var p := Percentage(checked, totalActions, days);
      CancelFactor(2 * p, 202, den);
      CancelFactor(-2, 2 * p, den);
      if checked == 0 {
        CancelFactor(2 * p, 2, den);
      }
      if checked == den {
        CancelFactor(198, 2 * p, den);
      }
    }
  }

  /** `getCompletionStats`. */
  function CompletionStatsOf(totalActions: nat, ids: set<nat>, checks: seq<CheckRow>, clk: LocalClock)
    : (s: CompletionStats)
    requires ValidClock(clk)
    ensures s.today.total == totalActions && s.week.total == totalActions * 7 &&
            s.month.total == totalActions * Calendar.DaysInMonth(clk.year, clk.month)
    ensures s.today.checked == CountIn(checks, ids, clk.todayStart, Some(clk.todayStart + DAY))
    ensures s.week.checked == CountIn(checks, ids, WeekStart(clk), None)
    ensures s.month.checked == CountIn(checks, ids, clk.monthStart, None)
    ensures totalActions == 0 ==> s.today.percentage == s.week.percentage == s.month.percentage == 0
    ensures totalActions > 0 ==>
      s.today.percentage == RoundPercent(s.today.checked, s.today.total) &&
      s.week.percentage == RoundPercent(s.week.checked, s.week.total) &&
      s.month.percentage == RoundPercent(s.month.checked, s.month.total)
  {
    var days := Calendar.DaysInMonth(clk.year, clk.month);
    var today := CountIn(checks, ids, clk.todayStart, Some(clk.todayStart + DAY));
    var week := CountIn(checks, ids, WeekStart(clk), None);
    var month := CountIn(checks, ids, clk.monthStart, None);
    CompletionStats(Period(today, totalActions, Percentage(today, totalActions, 1)),
                    Period(week, totalActions * 7, Percentage(week, totalActions, 7)),
                    Period(month, totalActions * days, Percentage(month, totalActions, days)))
  }

  /** A narrower window never counts more: a window starting no earlier and
      ending somewhere holds at most the checks of the open-ended one. */
  lemma {:induction false} CountWithin(checks: seq<CheckRow>, ids: set<nat>, from1: int, until: int, from2: int)
    requires from2 <= from1
    ensures CountIn(checks, ids, from1, Some(until)) <= CountIn(checks, ids, from2, None)
  {
    if checks != [] {
      CountWithin(checks[..|checks| - 1], ids, from1, until, from2);
    }
  }

  /** Today's count never exceeds the week's, as today lies in the week. */
  lemma TodayWithinWeek(totalActions: nat, ids: set<nat>, checks: seq<CheckRow>, clk: LocalClock)
    requires ValidClock(clk)
    ensures CompletionStatsOf(totalActions, ids, checks, clk).today.checked <=
            CompletionStatsOf(totalActions, ids, checks, clk).week.checked
  {
    CountWithin(checks, ids, clk.todayStart, clk.todayStart + DAY, WeekStart(clk));
  }

  // ---------------------------------------------------------------------
  // getGoalProgress

  /** An action of a sub-goal with the instants of its checks. */
  datatype ActionChecks = ActionChecks(id: nat, checkedAt: seq<int>)

  /** A sub-goal row as the query returns it. */
  datatype SubGoalRow = SubGoalRow(id: nat, position: int, actions: seq<ActionChecks>)

  datatype GoalProgress = GoalProgress(subGoalId: nat, position: int, totalActions: nat,
                                       checkedToday: nat, checkedThisWeek: nat, weeklyPercentage: int)

  predicate AnyIn(ts: seq<int>, from: int, until: Option<int>)
  {
    exists i :: 0 <= i < |ts| && ts[i] >= from && (until.None? || ts[i] < until.value)
  }

  /** The ids of the actions with a check in the window. */
  function IdsWhere(actions: seq<ActionChecks>, from: int, until: Option<int>): (ids: set<nat>)
    ensures forall i :: 0 <= i < |actions| && AnyIn(actions[i].checkedAt, from, until) ==> actions[i].id in ids
    ensures forall x :: x in ids ==>
      exists i :: 0 <= i < |actions| && actions[i].id == x && AnyIn(actions[i].checkedAt, from, until)
  {
    if actions == [] then {}
    else
      var a := actions[|actions| - 1];
      IdsWhere(actions[..|actions| - 1], from, until) + (if AnyIn(a.checkedAt, from, until) then {a.id} else {})
  }

  /** There are never more ids than actions. */
  lemma {:induction false} IdsBounded(actions: seq<ActionChecks>, from: int, until: Option<int>)
    ensures |IdsWhere(actions, from, until)| <= |actions|
  {
    if actions != [] {
      IdsBounded(actions[..|actions| - 1], from, until);
    }
  }

  /** An action checked in a window starting no earlier is one checked since
      `from2`. */
  lemma {:induction false} IdsWithin(actions: seq<ActionChecks>, from1: int, until: int, from2: int)
    requires from2 <= from1
    ensures IdsWhere(actions, from1, Some(until)) <= IdsWhere(actions, from2, None)
  {
    if actions != [] {
      IdsWithin(actions[..|actions| - 1], from1, until, from2);
      var a := actions[|actions| - 1];
      if AnyIn(a.checkedAt, from1, Some(until)) {
        var i :| 0 <= i < |a.checkedAt| && a.checkedAt[i] >= from1 && a.checkedAt[i] < until;
        assert AnyIn(a.checkedAt, from2, None);
      }
    }
  }

  lemma SubsetCard(a: set<nat>, b: set<nat>)
    requires a <= b
    ensures |a| <= |b|
  {
    assert b == a + (b - a);
  }

  /** A weekly percentage of at most `week` checked actions out of `total`
      over seven days rounds to at most 14. */
  lemma WeeklyAtMost14(week: nat, total: nat)
    requires week <= total
    ensures Percentage(week, total, 7) <= 14
  {
    if total > 0 {
      var p := Percentage(week, total, 7);
      var den := total * 7;
      assert 2 * p * den <= 207 * total < 30 * den;
      CancelFactor(2 * p, 30, den);
    }
  }

  /** One entry of `getGoalProgress`: the distinct actions checked today and
      this week, and the week's share of seven checks per action. */
  function ProgressOf(sg: SubGoalRow, clk: LocalClock): (g: GoalProgress)
    requires ValidClock(clk)
    ensures g.subGoalId == sg.id && g.position == sg.position && g.totalActions == |sg.actions|
    ensures g.checkedToday == |IdsWhere(sg.actions, clk.todayStart, Some(clk.todayStart + DAY))|
    ensures g.checkedThisWeek == |IdsWhere(sg.actions, WeekStart(clk), None)|
    ensures g.weeklyPercentage == Percentage(g.checkedThisWeek, g.totalActions, 7)
    ensures g.checkedToday <= g.checkedThisWeek <= g.totalActions
    ensures 0 <= g.weeklyPercentage <= 14
  {
    var total := |sg.actions|;
    var today := IdsWhere(sg.actions, clk.todayStart, Some(clk.todayStart + DAY));
    var week := IdsWhere(sg.actions, WeekStart(clk), None);
    IdsWithin(sg.actions, clk.todayStart, clk.todayStart + DAY, WeekStart(clk));
    SubsetCard(today, week);
    IdsBounded(sg.actions, WeekStart(clk), None);
    WeeklyAtMost14(|week|, total);
    PercentageBounds(|week|, total, 7);
    GoalProgress(sg.id, sg.position, total, |today|, |week|, Percentage(|week|, total, 7))
  }

  /** `getGoalProgress`: one entry per sub-goal, in the query's position order. */
  function GoalProgressOf(sgs: seq<SubGoalRow>, clk: LocalClock): (ps: seq<GoalProgress>)
    requires ValidClock(clk)
    ensures |ps| == |sgs|
    ensures forall i :: 0 <= i < |sgs| ==> ps[i] == ProgressOf(sgs[i], clk)
    ensures forall i :: 0 <= i < |sgs| ==> ps[i].subGoalId == sgs[i].id && ps[i].weeklyPercentage <= 14
  {
    seq(|sgs|, i requires 0 <= i < |sgs| => ProgressOf(sgs[i], clk))
  }

  /** An action checked today is an action checked this week. */
  lemma CheckedTodayIsCheckedThisWeek(sg: SubGoalRow, clk: LocalClock, i: nat)
    requires ValidClock(clk) && i < |sg.actions|
    requires AnyIn(sg.actions[i].checkedAt, clk.todayStart, Some(clk.todayStart + DAY))
    ensures sg.actions[i].id in IdsWhere(sg.actions, WeekStart(clk), None)
  {
    IdsWithin(sg.actions, clk.todayStart, clk.todayStart + DAY, WeekStart(clk));
  }

  // ---------------------------------------------------------------------
  // generateMotivationalMessage

  datatype Variant = Success | Info | Warning

  datatype MotivationalMessage = MotivationalMessage(title: string, message: string, emoji: string,
                                                     variant: Variant, showAIButton: bool)

  const DefaultTitle: string := "오늘도 화이팅!"

  /** `generateMotivationalMessage`: the first matching tier of a cascade over
      today's percentage, the current streak and the week's percentage. */
  function MotivationalMessageOf(stats: CompletionStats, current: int): (m: MotivationalMessage)
    ensures m.showAIButton <==> stats.today.percentage >= 60
    ensures m.variant == Warning <==>
      stats.today.percentage < 10 && current < 7 && stats.week.percentage < 50
    ensures m.variant == Info <==>
      10 <= stats.today.percentage < 60 && current < 7 && stats.week.percentage < 50
    ensures m.title != DefaultTitle
  {
    var today := stats.today;
    var week := stats.week;
    if today.percentage >= 80 then
      MotivationalMessage("완벽해요! 🎉",
        "오늘 " + IntToString(today.percentage) + "% 달성! AI 코치와 함께 더 나은 목표를 계획해보세요.",
        "🎉", Success, true)
    else if today.percentage >= 60 then
      MotivationalMessage("정말 잘하고 있어요!",
        "오늘 " + IntToString(today.percentage) + "% 달성! AI 코치와 성과를 분석해보실래요?",
        "✨", Success, true)
    else if current >= 7 then
      MotivationalMessage("연속 실천 중!",
        IntToString(current) + "일 연속 실천 중입니다! 꾸준함이 힘이에요!", "🔥", Success, false)
    else if week.percentage >= 50 then
      MotivationalMessage("좋은 진행이에요!",
        "이번 주 " + IntToString(week.percentage) + "% 완료! 계속 이대로 가세요!", "👍", Success, false)
    else if today.percentage >= 30 then
      MotivationalMessage("잘하고 있어요!",
        "오늘 " + IntToString(today.checked) + "개 완료! 조금만 더 힘내봐요!", "⭐", Info, false)
    else if today.percentage >= 10 then
      MotivationalMessage("작은 시작이 중요해요",
        "한 걸음씩 나아가고 있어요. 오늘 하나만 더 체크해볼까요?", "💪", Info, false)
    else if today.percentage < 10 then
      MotivationalMessage("시작이 반입니다!",
        "작은 실천 하나가 큰 변화를 만듭니다. 오늘 하나만 체크해보세요!", "🌱", Warning, false)
    else
      MotivationalMessage(DefaultTitle,
        "목표를 향한 작은 실천이 쌓이고 있어요. 꾸준히 해나가봐요!", "🌟", Info, false)
  }
}
