/** The XP ledger kept in `user_levels`: reading (or creating) the user's row
    and `updateUserXP`'s read-modify-write of it. */
module Ledger {
  import opened Common
  import opened Tables
  import opened Levels
  import opened Multipliers

  /** The outcome of each backend write the ledger makes. */
  datatype LedgerFaults = LedgerFaults(insertOk: bool, updateOk: bool, bonusInsertOk: bool)

  /** A row is coherent when its total is not negative and its level is the
      level of its total. */
  predicate Coherent(c: Curve, row: LevelRow)
  {
    row.totalXp >= 0 && row.level == LevelFromXp(c, row.totalXp)
  }

  /** `Math.max(0, total + delta)`: the ledger never goes below zero. */
  function NewTotal(total: int, delta: int): (t: int)
    ensures t >= 0 && t >= total + delta
    ensures total + delta >= 0 ==> t == total + delta
    ensures total + delta < 0 ==> t == 0
  {
    if total + delta > 0 then total + delta else 0
  }

  /** The row `getUserLevel` yields: the stored one, or a fresh row for a
      user who has none (total 0, since `calculateTotalXP` finds no row
      either) when the insert succeeds. */
  function StartRow(stored: Option<LevelRow>, c: Curve, insertOk: bool): (r: Option<LevelRow>)
    ensures stored.None? && r.Some? ==> Coherent(c, r.value) && r.value.totalXp == 0
    ensures stored.Some? ==> r == stored
    ensures stored.None? ==> (r.Some? <==> insertOk)
  {
    if stored.Some? then stored
    else if insertOk then Some(LevelRow(LevelFromXp(c, 0), 0))
    else None
  }

  /** `getUserLevel`. */
  method GetUserLevel(db: UserTables, c: Curve, insertOk: bool) returns (row: Option<LevelRow>)
    modifies db`levels
    ensures row == StartRow(old(db.levels), c, insertOk)
    ensures db.levels == if old(db.levels).Some? then old(db.levels) else row
  {
    if db.levels.Some? {
      return db.levels;
    }
    var total := 0;
    var level := LevelFromXp(c, total);
    if !insertOk {
      return None;
    }
    db.levels := Some(LevelRow(level, total));
    return db.levels;
  }

  /** What `updateUserXP` returns on success: the written row, whether the
      level rose above the stored one, the stored level and the delta. */
  datatype XpUpdate = XpUpdate(row: LevelRow, leveledUp: bool, oldLevel: int, xpGained: int)

  /** Whether `activateLevelMilestoneBonus(level)` inserts a row. */
  predicate MilestoneActivates(bs: seq<BonusRow>, level: int, now: int, insertOk: bool)
  {
    level in Milestones && Live(bs, LevelMilestone, now) == [] && insertOk
  }

  /** The rows `updateUserXP` leaves in `user_levels` and `user_bonus_xp`. */
  function LedgerAfter(levels: Option<LevelRow>, bonuses: seq<BonusRow>, c: Curve, delta: int, now: int,
                       f: LedgerFaults): (r: (Option<LevelRow>, seq<BonusRow>))
    ensures var start := StartRow(levels, c, f.insertOk);
      start.Some? && f.updateOk ==>
        r.0.Some? && Coherent(c, r.0.value) && r.0.value.totalXp == NewTotal(start.value.totalXp, delta)
    ensures |bonuses| <= |r.1| <= |bonuses| + 1 && r.1[..|bonuses|] == bonuses
  {
    var start := StartRow(levels, c, f.insertOk);
    if start.Some? && f.updateOk then
      var t := NewTotal(start.value.totalXp, delta);
      var level := LevelFromXp(c, t);
      var up := level > start.value.level;
      (Some(LevelRow(level, t)),
       if up && MilestoneActivates(bonuses, level, now, f.bonusInsertOk) then bonuses + [MilestoneRow(level, now)]
       else bonuses)
    else (start, bonuses)
  }

  /** `updateUserXP`: the total moves by `delta`, floored at 0, the level is
      recomputed from it, and only a level rise attempts the milestone bonus. */
  method UpdateUserXP(db: UserTables, c: Curve, delta: int, now: int, f: LedgerFaults)
    returns (r: Option<XpUpdate>)
    modifies db`levels, db`bonuses
    ensures var start := StartRow(old(db.levels), c, f.insertOk);
      (r.Some? <==> start.Some? && f.updateOk) &&
      (r.None? ==> db.levels == start) &&
      (r.Some? ==>
        var t := NewTotal(start.value.totalXp, delta);
        db.levels == Some(LevelRow(LevelFromXp(c, t), t)) &&
        r.value == XpUpdate(LevelRow(LevelFromXp(c, t), t), LevelFromXp(c, t) > start.value.level,
                            start.value.level, delta))
    ensures r.Some? ==> Coherent(c, r.value.row) && db.levels == Some(r.value.row)
    ensures (db.levels, db.bonuses) == LedgerAfter(old(db.levels), old(db.bonuses), c, delta, now, f)
    ensures db.bonuses ==
      if r.Some? && r.value.leveledUp && MilestoneActivates(old(db.bonuses), r.value.row.level, now, f.bonusInsertOk)
      then old(db.bonuses) + [MilestoneRow(r.value.row.level, now)] else old(db.bonuses)
  {
    var current := GetUserLevel(db, c, f.insertOk);
    if current.None? {
      return None;
    }
    var newTotal := NewTotal(current.value.totalXp, delta);
    var newLevel := LevelFromXp(c, newTotal);
    if !f.updateOk {
      return None;
    }
    db.levels := Some(LevelRow(newLevel, newTotal));
    var leveledUp := newLevel > current.value.level;
    if leveledUp {
      var _ := ActivateLevelMilestoneBonus(db, newLevel, now, f.bonusInsertOk);
    }
    return Some(XpUpdate(LevelRow(newLevel, newTotal), leveledUp, current.value.level, delta));
  }

  /** Gains add up: two successive non-negative updates leave the total one
      update of their sum would, and a loss can never push it below zero. */
  lemma UpdatesCompose(total: int, a: int, b: int)
    requires total >= 0
    ensures a >= 0 && b >= 0 ==> NewTotal(NewTotal(total, a), b) == NewTotal(total, a + b)
    ensures a <= 0 && b <= 0 ==> NewTotal(NewTotal(total, a), b) == NewTotal(total, a + b)
  {
  }
}
