/** The XP multiplier store: the weekend bonus, and the time-boxed comeback,
    level-milestone and perfect-week bonuses recorded in `user_bonus_xp`.
    Multipliers are counted in half units (3 = 1.5x, 4 = 2.0x) so that every
    figure stays an integer. */
module Multipliers {
  import opened Common
  import opened Strings
  import opened Tables
  import Timezone

  const DAY: int := Timezone.MS_PER_DAY

  /** An entry of the list `getActiveMultipliers` returns. */
  datatype Multiplier = Multiplier(kind: BonusKind, halves: nat, daysRemaining: Option<int>)

  /** The multiplier each kind reports: 1.5x for weekend and comeback, 2.0x otherwise. */
  function KindHalves(k: BonusKind): nat
  {
    match k
    case Weekend => 3
    case Comeback => 3
    case LevelMilestone => 4
    case PerfectWeek => 4
  }

  /** The position of a kind in the list `getActiveMultipliers` builds. */
  function Rank(k: BonusKind): nat
  {
    match k
    case Weekend => 0
    case Comeback => 1
    case LevelMilestone => 2
    case PerfectWeek => 3
  }

  function SumHalves(ms: seq<Multiplier>): nat
  {
    if ms == [] then 0 else SumHalves(ms[..|ms| - 1]) + ms[|ms| - 1].halves
  }

  /** Every multiplier of a list is part of its sum. */
  lemma {:induction false} SumHalvesCovers(ms: seq<Multiplier>)
    ensures forall i :: 0 <= i < |ms| ==> ms[i].halves <= SumHalves(ms)
  {
    if ms != [] {
      var init := ms[..|ms| - 1];
      SumHalvesCovers(init);
      assert forall i :: 0 <= i < |init| ==> init[i] == ms[i];
    }
  }

  /** `calculateTotalMultiplier`: 1.0 for an empty list, otherwise the sum of
      the multipliers, with no base of 1.0 added: a lone multiplier is the
      total, and no multiplier exceeds the total. */
  function TotalHalves(ms: seq<Multiplier>): (h: nat)
    ensures ms == [] ==> h == 2
    ensures |ms| == 1 ==> h == ms[0].halves
    ensures forall i :: 0 <= i < |ms| ==> ms[i].halves <= h
  {
    SumHalvesCovers(ms);
    assert |ms| == 1 ==> ms[..|ms| - 1] == [] && SumHalves(ms[..|ms| - 1]) == 0;
    if ms == [] then 2 else SumHalves(ms)
  }

  lemma {:induction false} SumAppend(a: seq<Multiplier>, b: seq<Multiplier>)
    ensures SumHalves(a + b) == SumHalves(a) + SumHalves(b)
  {
    if b != [] {
      SumAppend(a, b[..|b| - 1]);
      assert (a + b)[..|a + b| - 1] == a + b[..|b| - 1];
    } else {
      assert a + b == a;
    }
  }

  /** The unexpired rows of one kind: those whose `expires_at` is not before `now`. */
  function Live(bs: seq<BonusRow>, k: BonusKind, now: int): (live: seq<BonusRow>)
    ensures |live| <= |bs|
  {
    if bs == [] then []
    else
      var b := bs[|bs| - 1];
      Live(bs[..|bs| - 1], k, now) + (if b.kind == k && b.expiresAt >= now then [b] else [])
  }

  /** The unexpired rows of a kind are exactly the rows of that kind whose
      expiry is not before `now`. */
  lemma {:induction false} LiveMembers(bs: seq<BonusRow>, k: BonusKind, now: int)
    ensures forall b :: b in Live(bs, k, now) <==> b in bs && b.kind == k && b.expiresAt >= now
  {
    if bs != [] {
      var n := |bs| - 1;
      LiveMembers(bs[..n], k, now);
      assert bs == bs[..n] + [bs[n]];
    }
  }

  /** `Math.ceil((expiresAt - now) / 1 day)`. */
  function DaysRemaining(expiresAt: int, now: int): (d: int)
    ensures (d - 1) * DAY < expiresAt - now <= d * DAY
  {
    -((now - expiresAt) / DAY)
  }

  /** The query `.gte('expires_at', now).single()`: it yields a row only when
      exactly one unexpired row of the kind exists, and the entry then carries
      the kind's fixed multiplier and the whole days left. */
  function Reported(bs: seq<BonusRow>, k: BonusKind, now: int): (m: Option<Multiplier>)
    ensures m.Some? <==> |Live(bs, k, now)| == 1
    ensures m.Some? ==> m.value.kind == k && m.value.halves == KindHalves(k)
    ensures m.Some? ==> m.value.daysRemaining.Some? && m.value.daysRemaining.value >= 0
    ensures m.Some? ==> m.value.daysRemaining == Some(DaysRemaining(Live(bs, k, now)[0].expiresAt, now))
  {
    var live := Live(bs, k, now);
    LiveMembers(bs, k, now);
    assert |live| == 1 ==> live[0] in live;
    if |live| == 1 then Some(Multiplier(k, KindHalves(k), Some(DaysRemaining(live[0].expiresAt, now))))
    else None
  }

  /** `checkLevelMilestoneBonus`: reports an unexpired milestone row, never inserts. */
  function LevelMilestoneBonus(bs: seq<BonusRow>, now: int): (m: Option<Multiplier>)
    ensures m.Some? <==> |Live(bs, LevelMilestone, now)| == 1
    ensures m.Some? ==> m.value.kind == LevelMilestone && m.value.halves == 4
    ensures m.Some? ==> m.value.daysRemaining == Some(DaysRemaining(Live(bs, LevelMilestone, now)[0].expiresAt, now))
  {
    Reported(bs, LevelMilestone, now)
  }

  /** `checkPerfectWeekBonus`: reports an unexpired perfect-week row, never inserts. */
  function PerfectWeekBonus(bs: seq<BonusRow>, now: int): (m: Option<Multiplier>)
    ensures m.Some? <==> |Live(bs, PerfectWeek, now)| == 1
    ensures m.Some? ==> m.value.kind == PerfectWeek && m.value.halves == 4
    ensures m.Some? ==> m.value.daysRemaining == Some(DaysRemaining(Live(bs, PerfectWeek, now)[0].expiresAt, now))
  {
    Reported(bs, PerfectWeek, now)
  }

  /** The newest check: the first row of `order('checked_at', desc).limit(1)`. */
  function LatestCheck(checks: seq<CheckRow>): (t: Option<int>)
    ensures t.None? <==> checks == []
  {
    if checks == [] then None
    else
      var t := LatestCheck(checks[..|checks| - 1]);
      var c := checks[|checks| - 1].checkedAt;
      if t.Some? && t.value >= c then t else Some(c)
  }

  /** The newest check time is one of the rows' times and no row is later. */
  lemma {:induction false} LatestCheckIsNewest(checks: seq<CheckRow>)
    ensures LatestCheck(checks).Some? ==>
      (exists c :: c in checks && c.checkedAt == LatestCheck(checks).value) &&
      forall c :: c in checks ==> c.checkedAt <= LatestCheck(checks).value
  {
    if checks != [] {
      var n := |checks| - 1;
      LatestCheckIsNewest(checks[..n]);
      assert checks == checks[..n] + [checks[n]];
    }
  }

  /** A new comeback bonus is due when the newest check is at least three whole days old. */
  predicate ComebackDue(checks: seq<CheckRow>, now: int)
  {
    var t := LatestCheck(checks);
    t.Some? && (now - t.value) / DAY >= 3
  }

  /** The row a newly due comeback bonus inserts: 1.5x for three days. */
  function ComebackRow(now: int): BonusRow
  {
    BonusRow(Comeback, 3, now, now + 3 * DAY, None)
  }

  /** What `checkComebackBonus` reports. */
  function ComebackOutcome(bs: seq<BonusRow>, checks: seq<CheckRow>, now: int): (m: Option<Multiplier>)
    ensures m.Some? ==> m.value.kind == Comeback && m.value.halves == 3
  {
    if Reported(bs, Comeback, now).Some? then Reported(bs, Comeback, now)
    else if ComebackDue(checks, now) then Some(Multiplier(Comeback, 3, Some(3)))
    else None
  }

  /** `checkComebackBonus`. The insert's outcome is not looked at, so a failed
      insert (`insertOk` false) still reports the bonus. */
  method CheckComebackBonus(db: UserTables, now: int, insertOk: bool) returns (m: Option<Multiplier>)
    modifies db`bonuses
    ensures m == ComebackOutcome(old(db.bonuses), db.checks, now)
    ensures db.bonuses == if Reported(old(db.bonuses), Comeback, now).None? && ComebackDue(db.checks, now) && insertOk
                          then old(db.bonuses) + [ComebackRow(now)] else old(db.bonuses)
  {
    var existing := Reported(db.bonuses, Comeback, now);
    if existing.Some? {
      return existing;
    }
    var latest := LatestCheck(db.checks);
    if latest.None? {
      return None;
    }
    var daysSince := (now - latest.value) / DAY;
    if daysSince >= 3 {
      if insertOk {
        db.bonuses := db.bonuses + [ComebackRow(now)];
      }
      return Some(Multiplier(Comeback, 3, Some(3)));
    }
    return None;
  }

  function OptSeq(m: Option<Multiplier>): seq<Multiplier>
  {
    if m.Some? then [m.value] else []
  }

  const WeekendEntry: Multiplier := Multiplier(Weekend, 3, None)

  predicate IsWeekend(weekday: int) { weekday == 0 || weekday == 6 }

  /** The list `getActiveMultipliers` builds from its four findings. */
  function ActiveList(weekend: bool, comeback: Option<Multiplier>, milestone: Option<Multiplier>,
                      perfect: Option<Multiplier>): (ms: seq<Multiplier>)
    ensures |ms| <= 4
  {
    (if weekend then [WeekendEntry] else []) + OptSeq(comeback) + OptSeq(milestone) + OptSeq(perfect)
  }

  predicate RankSorted(ms: seq<Multiplier>)
  {
    forall i, j :: 0 <= i < j < |ms| ==> Rank(ms[i].kind) < Rank(ms[j].kind)
  }

  /** The list is in the order weekend, comeback, milestone, perfect week. */
  lemma ActiveListSorted(weekend: bool, comeback: Option<Multiplier>, milestone: Option<Multiplier>,
                         perfect: Option<Multiplier>)
    requires comeback.Some? ==> comeback.value.kind == Comeback
    requires milestone.Some? ==> milestone.value.kind == LevelMilestone
    requires perfect.Some? ==> perfect.value.kind == PerfectWeek
    ensures RankSorted(ActiveList(weekend, comeback, milestone, perfect))
  {
    var w := if weekend then [WeekendEntry] else [];
    RankedAppend(w, comeback, 1);
    RankedAppend(w + OptSeq(comeback), milestone, 2);
    RankedAppend(w + OptSeq(comeback) + OptSeq(milestone), perfect, 3);
  }

  /** The list holds the weekend entry exactly on weekends, and no other
      entry of the weekend kind. */
  lemma ActiveListWeekend(weekend: bool, comeback: Option<Multiplier>, milestone: Option<Multiplier>,
                          perfect: Option<Multiplier>)
    requires comeback.Some? ==> comeback.value.kind == Comeback
    requires milestone.Some? ==> milestone.value.kind == LevelMilestone
    requires perfect.Some? ==> perfect.value.kind == PerfectWeek
    ensures weekend <==> WeekendEntry in ActiveList(weekend, comeback, milestone, perfect)
    ensures forall m <- ActiveList(weekend, comeback, milestone, perfect) :: m.kind == Weekend ==> m == WeekendEntry
  {
    var rest := OptSeq(comeback) + OptSeq(milestone) + OptSeq(perfect);
    assert forall m <- rest :: m.kind != Weekend;
    if weekend {
      assert ActiveList(weekend, comeback, milestone, perfect) == [WeekendEntry] + rest;
    } else {
      assert ActiveList(weekend, comeback, milestone, perfect) == rest;
    }
  }

  /** Appending a finding of a higher rank keeps the list in rank order. */
  lemma RankedAppend(ms: seq<Multiplier>, m: Option<Multiplier>, r: nat)
    requires RankSorted(ms) && forall i :: 0 <= i < |ms| ==> Rank(ms[i].kind) < r
    requires m.Some? ==> Rank(m.value.kind) == r
    ensures RankSorted(ms + OptSeq(m))
    ensures forall i :: 0 <= i < |ms + OptSeq(m)| ==> Rank((ms + OptSeq(m))[i].kind) <= r
  {
  }

  /** The bonus rows after `checkComebackBonus`: a comeback row is added
      when one is newly due and its insert succeeds. */
  function BonusesAfterComeback(bs: seq<BonusRow>, checks: seq<CheckRow>, now: int, insertOk: bool)
    : (r: seq<BonusRow>)
    ensures r == bs || r == bs + [ComebackRow(now)]
  {
    if Reported(bs, Comeback, now).None? && ComebackDue(checks, now) && insertOk
    then bs + [ComebackRow(now)] else bs
  }

  /** The list `getActiveMultipliers` returns on the given rows: the
      milestone and perfect-week queries run after the comeback insert. */
  function ActiveOn(bs: seq<BonusRow>, checks: seq<CheckRow>, now: int, weekday: int, insertOk: bool)
    : seq<Multiplier>
  {
    var after := BonusesAfterComeback(bs, checks, now, insertOk);
    ActiveList(IsWeekend(weekday), ComebackOutcome(bs, checks, now), LevelMilestoneBonus(after, now),
               PerfectWeekBonus(after, now))
  }

  /** `getActiveMultipliers`, given the device's local weekday. */
  method ActiveMultipliers(db: UserTables, now: int, weekday: int, insertOk: bool)
    returns (ms: seq<Multiplier>)
    modifies db`bonuses
    ensures ms == ActiveOn(old(db.bonuses), db.checks, now, weekday, insertOk)
    ensures db.bonuses == BonusesAfterComeback(old(db.bonuses), db.checks, now, insertOk)
  {
    ms := [];
    if weekday == 0 || weekday == 6 {
      ms := ms + [WeekendEntry];
    }
    ghost var w := ms;
    var comeback := CheckComebackBonus(db, now, insertOk);
    if comeback.Some? {
      ms := ms + [comeback.value];
    }
    assert ms == w + OptSeq(comeback);
    var milestone := LevelMilestoneBonus(db.bonuses, now);
    if milestone.Some? {
      ms := ms + [milestone.value];
    }
    assert ms == w + OptSeq(comeback) + OptSeq(milestone);
    var perfect := PerfectWeekBonus(db.bonuses, now);
    if perfect.Some? {
      ms := ms + [perfect.value];
    }
    assert ms == w + OptSeq(comeback) + OptSeq(milestone) + OptSeq(perfect);
    assert w == if IsWeekend(weekday) then [WeekendEntry] else [];
    assert ms == ActiveList(IsWeekend(weekday), comeback, milestone, perfect);
  }

  /** The total of an active list: 1.0x when it is empty, otherwise the plain
      sum, so the weekend alone gives 1.5x and weekend plus comeback 3.0x. */
  lemma TotalOfActive(weekend: bool, comeback: Option<Multiplier>, milestone: Option<Multiplier>,
                      perfect: Option<Multiplier>)
    requires comeback.Some? ==> comeback.value.kind == Comeback && comeback.value.halves == 3
    requires milestone.Some? ==> milestone.value.kind == LevelMilestone && milestone.value.halves == 4
    requires perfect.Some? ==> perfect.value.kind == PerfectWeek && perfect.value.halves == 4
    ensures var ms := ActiveList(weekend, comeback, milestone, perfect);
      var sum := (if weekend then 3 else 0) + (if comeback.Some? then 3 else 0)
        + (if milestone.Some? then 4 else 0) + (if perfect.Some? then 4 else 0);
      TotalHalves(ms) == (if ms == [] then 2 else sum)
  {
    var w := if weekend then [WeekendEntry] else [];
    SumAppend(w, OptSeq(comeback));
    SumAppend(w + OptSeq(comeback), OptSeq(milestone));
    SumAppend(w + OptSeq(comeback) + OptSeq(milestone), OptSeq(perfect));
  }

  const Milestones: seq<int> := [5, 10, 15, 20, 25, 30]

  /** The row a level-milestone activation inserts: 2.0x for seven days. */
  function MilestoneRow(level: int, now: int): BonusRow
  {
    BonusRow(LevelMilestone, 4, now, now + 7 * DAY, Some(level))
  }

  /** The row a perfect-week activation inserts: 2.0x for seven days. */
  function PerfectWeekRow(now: int): BonusRow
  {
    BonusRow(PerfectWeek, 4, now, now + 7 * DAY, None)
  }

  /** `activateLevelMilestoneBonus`: inserts only for a milestone level while no
      milestone row is unexpired, and reports whether the insert succeeded. */
  method ActivateLevelMilestoneBonus(db: UserTables, level: int, now: int, insertOk: bool)
    returns (ok: bool)
    modifies db`bonuses
    ensures ok <==> level in Milestones && Live(old(db.bonuses), LevelMilestone, now) == [] && insertOk
    ensures db.bonuses == if ok then old(db.bonuses) + [MilestoneRow(level, now)] else old(db.bonuses)
  {
    if level !in Milestones {
      return false;
    }
    var existing := Live(db.bonuses, LevelMilestone, now);
    if |existing| > 0 {
      return false;
    }
    if insertOk {
      db.bonuses := db.bonuses + [MilestoneRow(level, now)];
    }
    return insertOk;
  }

  /** `activatePerfectWeekBonus`. */
  method ActivatePerfectWeekBonus(db: UserTables, now: int, insertOk: bool) returns (ok: bool)
    modifies db`bonuses
    ensures ok <==> Live(old(db.bonuses), PerfectWeek, now) == [] && insertOk
    ensures db.bonuses == if ok then old(db.bonuses) + [PerfectWeekRow(now)] else old(db.bonuses)
  {
    var existing := Live(db.bonuses, PerfectWeek, now);
    if |existing| > 0 {
      return false;
    }
    if insertOk {
      db.bonuses := db.bonuses + [PerfectWeekRow(now)];
    }
    return insertOk;
  }

  /** Rows only expire as time passes: a later instant sees no more unexpired rows. */
  lemma {:induction false} LiveShrinks(bs: seq<BonusRow>, k: BonusKind, t1: int, t2: int)
    requires t1 <= t2
    ensures |Live(bs, k, t2)| <= |Live(bs, k, t1)|
  {
    if bs != [] {
      LiveShrinks(bs[..|bs| - 1], k, t1, t2);
    }
  }

  lemma LiveSnoc(bs: seq<BonusRow>, b: BonusRow, k: BonusKind, now: int)
    ensures Live(bs + [b], k, now) == Live(bs, k, now) + (if b.kind == k && b.expiresAt >= now then [b] else [])
  {
    assert (bs + [b])[..|bs|] == bs;
  }

  /** An activation that inserted at `now` blocks a repeat for the whole week
      after: until the row expires there is an unexpired row, and it is the
      only one, so the `.single()` lookups report it. */
  lemma RepeatBlocked(bs: seq<BonusRow>, row: BonusRow, now: int, later: int)
    requires row.expiresAt == now + 7 * DAY
    requires Live(bs, row.kind, now) == []
    requires now <= later <= now + 7 * DAY
    ensures Live(bs + [row], row.kind, later) == [row]
    ensures Reported(bs + [row], row.kind, later).Some?
  {
    LiveSnoc(bs, row, row.kind, later);
    LiveShrinks(bs, row.kind, now, later);
  }

  /** A comeback row reports three days remaining on the day it is made. */
  lemma ComebackLastsThreeDays(bs: seq<BonusRow>, now: int)
    requires Live(bs, Comeback, now) == []
    ensures Reported(bs + [ComebackRow(now)], Comeback, now) == Some(Multiplier(Comeback, 3, Some(3)))
  {
    LiveSnoc(bs, ComebackRow(now), Comeback, now);
    assert Live(bs + [ComebackRow(now)], Comeback, now) == [ComebackRow(now)];
    assert DaysRemaining(now + 3 * DAY, now) == 3;
  }

  function KindName(k: BonusKind): string
  {
    match k
    case Weekend => "weekend"
    case Comeback => "comeback"
    case LevelMilestone => "level_milestone"
    case PerfectWeek => "perfect_week"
  }

  /** `getMultiplierColor`: the fallback colour exactly for a type string
      that names no kind. */
  function MultiplierColor(t: string): (c: string)
    ensures c == "text-primary" <==> forall k :: t != KindName(k)
  {
    assert (forall k :: t != KindName(k)) <==>
      t != KindName(Weekend) && t != KindName(Comeback) && t != KindName(LevelMilestone) && t != KindName(PerfectWeek);
    if t == "weekend" then "text-blue-500"
    else if t == "comeback" then "text-green-500"
    else if t == "level_milestone" then "text-yellow-500"
    else if t == "perfect_week" then "text-purple-500"
    else "text-primary"
  }

  /** The four kinds get four different colours. */
  lemma ColorsDistinct(k1: BonusKind, k2: BonusKind)
    ensures k1 != k2 ==> MultiplierColor(KindName(k1)) != MultiplierColor(KindName(k2))
  {
  }

  /** `formatMultiplier`: `×` and the multiplier with one decimal. The text
      shows the multiplier exactly: its whole part and a decimal 0 or 5. */
  function FormatMultiplier(halves: nat): (s: string)
    ensures |s| >= 4 && s[0] == '×' && s[|s| - 2] == '.' && IsDigits(s[1..|s| - 2])
    ensures s[|s| - 1] == '0' || s[|s| - 1] == '5'
    ensures 2 * DigitsValue(s[1..|s| - 2]) + (if s[|s| - 1] == '5' then 1 else 0) == halves
  {
    var w := NatToString(halves / 2);
    NatToStringValue(halves / 2);
    var s := "×" + w + "." + [if halves % 2 == 0 then '0' else '5'];
    assert s[1..|s| - 2] == w;
    s
  }
}
