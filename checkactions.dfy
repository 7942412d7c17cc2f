/** The check and uncheck mutations of an action and the toggle that
    dispatches between them: a per-(action, local day) state machine over
    `check_history`, the `user_gamification` row and, through
    `getActiveMultipliers`, `user_bonus_xp`.

    `getKSTDate`, `calculateXPWithMultipliers` and `getLevelFromXP` are not
    part of this model: the local day is the parameter `today`, and the other
    two are the function parameters `xpWith` and `levelOf`. */
module CheckActions {
  import opened Common
  import opened Tables
  import opened Multipliers
  import Timezone
  import Ledger

  const BASE_XP_PER_CHECK: int := 10
  const ALREADY_CHECKED: string := "이미 오늘 체크한 항목입니다."
  const NOT_CHECKED_TODAY: string := "오늘 체크한 기록이 없습니다."

  /** The table whose query failed. */
  datatype Table = CheckHistory | UserGamification

  /** What a mutation throws: one of its own messages, or a backend error. */
  datatype Failure = Thrown(message: string) | StoreFailed(table: Table)

  /** The outcome of each backend call. `lookupOk` false stands for a
      failed read of today's `check_history` rows, `readOk` false for a
      `user_gamification` read error other than "no row". */
  datatype Faults = Faults(lookupOk: bool, insertOk: bool, deleteOk: bool, readOk: bool, writeOk: bool,
                           bonusInsertOk: bool)

  /** `CheckActionResult`. */
  datatype CheckResult = CheckResult(check: CheckRow, xpAwarded: int, newTotalXp: int, newLevel: int,
                                     leveledUp: bool)

  /** The rows the mutations read and write. */
  datatype State = State(checks: seq<CheckRow>, nextCheckId: nat, bonuses: seq<BonusRow>,
                         gamification: Option<GamificationRow>)

  function StateOf(db: UserTables): State
    reads db
  {
    State(db.checks, db.nextCheckId, db.bonuses, db.gamification)
  }

  /** Row ids increase in table order and all stay below `bound`. */
  predicate IdsBelow(checks: seq<CheckRow>, bound: int)
  {
    checks == [] ||
    (checks[|checks| - 1].id < bound && IdsBelow(checks[..|checks| - 1], checks[|checks| - 1].id))
  }

  /** Row ids increase in table order and stay below the next id to be
      handed out, so no two rows share one. */
  predicate Valid(s: State)
  {
    IdsBelow(s.checks, s.nextCheckId)
  }

  // ---------------------------------------------------------------------
  // Today's window

  /** `${today}T00:00:00+09:00`: local midnight of day `today`. */
  function WindowStart(today: int): int
  {
    today * DAY - Timezone.KST_OFFSET
  }

  /** `${today}T23:59:59+09:00`, the exclusive bound of both queries: one
      second short of the next midnight. */
  function WindowEnd(today: int): int
  {
    WindowStart(today) + DAY - Timezone.MS_PER_SECOND
  }

  predicate InWindow(t: int, today: int)
  {
    WindowStart(today) <= t < WindowEnd(today)
  }

  /** The rows both queries select: the action's checks inside today's
      window, in table order. */
  function TodaysChecks(checks: seq<CheckRow>, actionId: nat, today: int): (r: seq<CheckRow>)
  {
    if checks == [] then []
    else
      var c := checks[|checks| - 1];
      TodaysChecks(checks[..|checks| - 1], actionId, today) +
      (if c.actionId == actionId && InWindow(c.checkedAt, today) then [c] else [])
  }

  /** `order('checked_at', desc).limit(1)`: a latest row (the first in table
      order on a tie). */
  function Latest(rows: seq<CheckRow>): (r: Option<CheckRow>)
  {
    if rows == [] then None
    else
      var c := rows[|rows| - 1];
      var p := Latest(rows[..|rows| - 1]);
      if p.Some? && p.value.checkedAt >= c.checkedAt then p else Some(c)
  }

  /** `delete().eq('id', id)`. */
  function Without(checks: seq<CheckRow>, id: nat): (r: seq<CheckRow>)
  {
    if checks == [] then []
    else
      var c := checks[|checks| - 1];
      Without(checks[..|checks| - 1], id) + (if c.id != id then [c] else [])
  }

  /** The selection holds exactly the action's checks inside the window. */
  lemma {:induction false} TodaysChecksMembers(checks: seq<CheckRow>, actionId: nat, today: int)
    ensures forall c :: c in TodaysChecks(checks, actionId, today) <==>
      c in checks && c.actionId == actionId && InWindow(c.checkedAt, today)
  {
    if checks != [] {
      var n := |checks| - 1;
      TodaysChecksMembers(checks[..n], actionId, today);
      assert checks == checks[..n] + [checks[n]];
    }
  }

  /** The latest row is absent only for no rows, is one of them, and none
      is later. */
  lemma {:induction false} LatestIsLatest(rows: seq<CheckRow>)
    ensures Latest(rows).None? <==> rows == []
    ensures Latest(rows).Some? ==>
      Latest(rows).value in rows && forall c :: c in rows ==> c.checkedAt <= Latest(rows).value.checkedAt
  {
    if rows != [] {
      var n := |rows| - 1;
      LatestIsLatest(rows[..n]);
      assert rows == rows[..n] + [rows[n]];
    }
  }

  /** The delete keeps exactly the rows carrying another id. */
  lemma {:induction false} WithoutMembers(checks: seq<CheckRow>, id: nat)
    ensures forall c :: c in Without(checks, id) <==> c in checks && c.id != id
  {
    if checks != [] {
      var n := |checks| - 1;
      WithoutMembers(checks[..n], id);
      assert checks == checks[..n] + [checks[n]];
    }
  }

  // ---------------------------------------------------------------------
  // The specification of the mutations

  /** What the read of today's rows of the action yields: nothing when it
      fails, since neither mutation looks at the read's error. */
  function TodaysRead(checks: seq<CheckRow>, actionId: nat, today: int, lookupOk: bool): seq<CheckRow>
  {
    if lookupOk then TodaysChecks(checks, actionId, today) else []
  }

  /** `calculateXPWithMultipliers(BASE_XP_PER_CHECK, multipliers)` on the given rows. */
  function XpAt(bonuses: seq<BonusRow>, checks: seq<CheckRow>, now: int, weekday: int,
                xpWith: (int, seq<Multiplier>) -> int, insertOk: bool): int
  {
    xpWith(BASE_XP_PER_CHECK, ActiveOn(bonuses, checks, now, weekday, insertOk))
  }

  /** The level the check compares against: recomputed from the stored
      total, 1 without a row; the stored `current_level` is not read. */
  function LevelBefore(g: Option<GamificationRow>, levelOf: int -> int): int
  {
    if g.Some? then levelOf(g.value.totalXp) else 1
  }

  /** The row the check writes: the total raised by `xp` and its level, or a
      new row with zero streaks and freezes. */
  function CheckedRow(g: Option<GamificationRow>, xp: int, levelOf: int -> int): GamificationRow
  {
    if g.Some? then g.value.(totalXp := g.value.totalXp + xp, currentLevel := levelOf(g.value.totalXp + xp))
    else GamificationRow(xp, levelOf(xp), 0, 0, 0)
  }

  /** The row the uncheck writes: the total lowered by `xp`, floored at 0, and its level. */
  function UncheckedRow(g: GamificationRow, xp: int, levelOf: int -> int): GamificationRow
  {
    var total := Ledger.NewTotal(g.totalXp, -xp);
    g.(totalXp := total, currentLevel := levelOf(total))
  }

  /** The tables once the check row is written and `getActiveMultipliers`
      has run. */
  function Inserted(s: State, row: CheckRow, bonusInsertOk: bool): State
  {
    var checks := s.checks + [row];
    s.(checks := checks, nextCheckId := s.nextCheckId + 1,
       bonuses := BonusesAfterComeback(s.bonuses, checks, row.checkedAt, bonusInsertOk))
  }

  /** The gamification step of the check: read the row, then update it or
      create it. */
  function AwardEffect(s: State, row: CheckRow, xp: int, levelOf: int -> int, f: Faults)
    : (Result<CheckResult, Failure>, State)
  {
    if !f.readOk || !f.writeOk then (Err(StoreFailed(UserGamification)), s)
    else
      var g := CheckedRow(s.gamification, xp, levelOf);
      (Ok(CheckResult(row, xp, g.totalXp, g.currentLevel, g.currentLevel > LevelBefore(s.gamification, levelOf))),
       s.(gamification := Some(g)))
  }

  /** What the check mutation returns and leaves in the tables at instant
      `now` on local day `today`. A failure before the insert changes
      nothing; once the row is inserted it stays, even when the
      gamification step then fails; the XP row changes only on success. */
  function CheckEffect(s: State, actionId: nat, now: int, today: int, weekday: int,
                       xpWith: (int, seq<Multiplier>) -> int, levelOf: int -> int, f: Faults)
    : (r: (Result<CheckResult, Failure>, State))
    ensures r.0.Ok? || r.0 == Err(StoreFailed(UserGamification)) ==>
      r.1.checks == s.checks + [CheckRow(s.nextCheckId, actionId, now)] && r.1.nextCheckId == s.nextCheckId + 1
    ensures !(r.0.Ok? || r.0 == Err(StoreFailed(UserGamification))) ==> r.1 == s
    ensures r.1.gamification != s.gamification ==> r.0.Ok?
  {
    if TodaysRead(s.checks, actionId, today, f.lookupOk) != [] then (Err(Thrown(ALREADY_CHECKED)), s)
    else if !f.insertOk then (Err(StoreFailed(CheckHistory)), s)
    else
      var row := CheckRow(s.nextCheckId, actionId, now);
      AwardEffect(Inserted(s, row, f.bonusInsertOk), row,
                  XpAt(s.bonuses, s.checks + [row], now, weekday, xpWith, f.bonusInsertOk), levelOf, f)
  }

  /** The gamification step of the uncheck, on a row that was read: the
      multipliers are fetched again and the recomputed XP is taken off. */
  function DeductEffect(s: State, now: int, weekday: int, xpWith: (int, seq<Multiplier>) -> int,
                        levelOf: int -> int, f: Faults): (Result<(), Failure>, State)
    requires s.gamification.Some?
  {
    var s1 := s.(bonuses := BonusesAfterComeback(s.bonuses, s.checks, now, f.bonusInsertOk));
    var xp := XpAt(s.bonuses, s.checks, now, weekday, xpWith, f.bonusInsertOk);
    if !f.writeOk then (Err(StoreFailed(UserGamification)), s1)
    else (Ok(()), s1.(gamification := Some(UncheckedRow(s.gamification.value, xp, levelOf))))
  }

  /** What the uncheck mutation returns and leaves in the tables. A failed
      `user_gamification` read is not looked at: it counts as a missing row.
      A failure before the delete changes nothing, no id is allocated, and
      the XP row changes only on success for a user who has one. */
  function UncheckEffect(s: State, actionId: nat, now: int, today: int, weekday: int,
                         xpWith: (int, seq<Multiplier>) -> int, levelOf: int -> int, f: Faults)
    : (r: (Result<(), Failure>, State))
    ensures r.0 == Err(Thrown(NOT_CHECKED_TODAY)) || r.0 == Err(StoreFailed(CheckHistory)) ==> r.1 == s
    ensures r.1.nextCheckId == s.nextCheckId
    ensures r.1.gamification != s.gamification ==> r.0.Ok? && s.gamification.Some?
  {
    var latest := Latest(TodaysRead(s.checks, actionId, today, f.lookupOk));
    if latest.None? then (Err(Thrown(NOT_CHECKED_TODAY)), s)
    else if !f.deleteOk then (Err(StoreFailed(CheckHistory)), s)
    else
      var s1 := s.(checks := Without(s.checks, latest.value.id));
      if s.gamification.None? || !f.readOk then (Ok(()), s1)
      else DeductEffect(s1, now, weekday, xpWith, levelOf, f)
  }

  // ---------------------------------------------------------------------
  // The mutations

  /** `useCheckAction`'s `mutationFn`. */
  method Check(db: UserTables, actionId: nat, now: int, today: int, weekday: int,
               xpWith: (int, seq<Multiplier>) -> int, levelOf: int -> int, f: Faults)
    returns (r: Result<CheckResult, Failure>)
    modifies db`checks, db`nextCheckId, db`bonuses, db`gamification
    ensures (r, StateOf(db)) == CheckEffect(old(StateOf(db)), actionId, now, today, weekday, xpWith, levelOf, f)
    ensures db.bonuses == old(db.bonuses)
  {
    var existing := if f.lookupOk then Some(TodaysChecks(db.checks, actionId, today)) else None;
    if existing.Some? && |existing.value| > 0 {
      return Err(Thrown(ALREADY_CHECKED));
    }
    if !f.insertOk {
      return Err(StoreFailed(CheckHistory));
    }
    ghost var s := StateOf(db);
    var row := CheckRow(db.nextCheckId, actionId, now);
    db.checks := db.checks + [row];
    db.nextCheckId := db.nextCheckId + 1;
    var ms := ActiveMultipliers(db, now, weekday, f.bonusInsertOk);
    CheckLeavesBonuses(s.bonuses, s.checks, row, f.bonusInsertOk);
    CheckProceeds(s, actionId, now, today, weekday, xpWith, levelOf, f);
    assert db.checks == s.checks + [row] && db.bonuses == s.bonuses;
    assert StateOf(db) == s.(checks := s.checks + [row], nextCheckId := s.nextCheckId + 1);
    assert StateOf(db) == Inserted(s, row, f.bonusInsertOk);
    var finalXp := xpWith(BASE_XP_PER_CHECK, ms);
    r := AwardXp(db, row, finalXp, levelOf, f);
  }

  /** Steps 4 and 5 of the check: read the `user_gamification` row, then
      update it or create it. */
  method AwardXp(db: UserTables, row: CheckRow, finalXp: int, levelOf: int -> int, f: Faults)
    returns (r: Result<CheckResult, Failure>)
    modifies db`gamification
    ensures (r, StateOf(db)) == AwardEffect(old(StateOf(db)), row, finalXp, levelOf, f)
  {
    if !f.readOk {
      return Err(StoreFailed(UserGamification));
    }
    var gamification := db.gamification;
    var currentXp := if gamification.Some? then gamification.value.totalXp else 0;
    var currentLevel := if gamification.Some? then levelOf(gamification.value.totalXp) else 1;
    var newTotal := currentXp + finalXp;
    var newLevel := levelOf(newTotal);
    var leveledUp := newLevel > currentLevel;
    if !f.writeOk {
      return Err(StoreFailed(UserGamification));
    }
    if gamification.Some? {
      db.gamification := Some(gamification.value.(totalXp := newTotal, currentLevel := newLevel));
    } else {
      db.gamification := Some(GamificationRow(newTotal, newLevel, 0, 0, 0));
    }
    return Ok(CheckResult(row, finalXp, newTotal, newLevel, leveledUp));
  }

  /** `useUncheckAction`'s `mutationFn`. */
  method Uncheck(db: UserTables, actionId: nat, now: int, today: int, weekday: int,
                 xpWith: (int, seq<Multiplier>) -> int, levelOf: int -> int, f: Faults)
    returns (r: Result<(), Failure>)
    modifies db`checks, db`bonuses, db`gamification
    ensures (r, StateOf(db)) == UncheckEffect(old(StateOf(db)), actionId, now, today, weekday, xpWith, levelOf, f)
  {
    var found := if f.lookupOk then TodaysChecks(db.checks, actionId, today) else [];
    var latest := Latest(found);
    if latest.None? {
      return Err(Thrown(NOT_CHECKED_TODAY));
    }
    if !f.deleteOk {
      return Err(StoreFailed(CheckHistory));
    }
    db.checks := Without(db.checks, latest.value.id);
    if !f.readOk || db.gamification.None? {
      return Ok(());
    }
    r := DeductXp(db, now, weekday, xpWith, levelOf, f);
  }

  /** Step 3 of the uncheck, on a row that was read. */
  method DeductXp(db: UserTables, now: int, weekday: int, xpWith: (int, seq<Multiplier>) -> int,
                  levelOf: int -> int, f: Faults) returns (r: Result<(), Failure>)
    requires db.gamification.Some?
    modifies db`bonuses, db`gamification
    ensures (r, StateOf(db)) == DeductEffect(old(StateOf(db)), now, weekday, xpWith, levelOf, f)
  {
    var gamification := db.gamification.value;
    var ms := ActiveMultipliers(db, now, weekday, f.bonusInsertOk);
    var deductXp := xpWith(BASE_XP_PER_CHECK, ms);
    var newTotal := Ledger.NewTotal(gamification.totalXp, -deductXp);
    var newLevel := levelOf(newTotal);
    if !f.writeOk {
      return Err(StoreFailed(UserGamification));
    }
    db.gamification := Some(gamification.(totalXp := newTotal, currentLevel := newLevel));
    return Ok(());
  }

  /** What `toggle` resolves to: the check's result, or nothing after an uncheck. */
  datatype Toggled = Checked(result: CheckResult) | Unchecked

  /** `useToggleAction`'s `toggle`: uncheck when the action is shown checked, check otherwise. */
  method Toggle(db: UserTables, actionId: nat, isChecked: bool, now: int, today: int, weekday: int,
                xpWith: (int, seq<Multiplier>) -> int, levelOf: int -> int, f: Faults)
    returns (r: Result<Toggled, Failure>)
    modifies db`checks, db`nextCheckId, db`bonuses, db`gamification
    ensures isChecked ==>
      var (u, s) := UncheckEffect(old(StateOf(db)), actionId, now, today, weekday, xpWith, levelOf, f);
      StateOf(db) == s && r == (if u.Ok? then Ok(Unchecked) else Err(u.error))
    ensures !isChecked ==>
      var (c, s) := CheckEffect(old(StateOf(db)), actionId, now, today, weekday, xpWith, levelOf, f);
      StateOf(db) == s && r == (if c.Ok? then Ok(Checked(c.value)) else Err(c.error))
  {
    if isChecked {
      var u := Uncheck(db, actionId, now, today, weekday, xpWith, levelOf, f);
      r := if u.Ok? then Ok(Unchecked) else Err(u.error);
    } else {
      var c := Check(db, actionId, now, today, weekday, xpWith, levelOf, f);
      r := if c.Ok? then Ok(Checked(c.value)) else Err(c.error);
    }
  }

  // ---------------------------------------------------------------------
  // Properties

  /** A check row stamped at `now` makes the newest check `now` old at most,
      so no comeback bonus is due. */
  lemma NoComebackAfterCheck(checks: seq<CheckRow>, row: CheckRow, now: int)
    requires row.checkedAt == now
    ensures !ComebackDue(checks + [row], now)
  {
    var all := checks + [row];
    var latest := LatestCheck(all);
    assert all[|all| - 1].checkedAt == now;
    assert latest.value >= now;
    assert (now - latest.value) / DAY <= 0;
  }

  /** Since the check row is written before `getActiveMultipliers` runs, the
      comeback test sees a zero-day gap: the bonus rows are left alone and
      only an existing comeback row is reported. */
  lemma CheckLeavesBonuses(bonuses: seq<BonusRow>, checks: seq<CheckRow>, row: CheckRow, insertOk: bool)
    ensures !ComebackDue(checks + [row], row.checkedAt)
    ensures BonusesAfterComeback(bonuses, checks + [row], row.checkedAt, insertOk) == bonuses
    ensures ComebackOutcome(bonuses, checks + [row], row.checkedAt) == Reported(bonuses, Comeback, row.checkedAt)
  {
    NoComebackAfterCheck(checks, row, row.checkedAt);
  }

  /** The duplicate guard: the check throws its message, and changes
      nothing, exactly when the read of today's rows succeeds and today's
      window already holds a check of the action. */
  lemma CheckGuard(s: State, actionId: nat, now: int, today: int, weekday: int,
                   xpWith: (int, seq<Multiplier>) -> int, levelOf: int -> int, f: Faults)
    ensures var (r, s') := CheckEffect(s, actionId, now, today, weekday, xpWith, levelOf, f);
      (r == Err(Thrown(ALREADY_CHECKED)) <==> f.lookupOk && exists c :: c in s.checks && c.actionId == actionId &&
                                                                         InWindow(c.checkedAt, today)) &&
      (r == Err(Thrown(ALREADY_CHECKED)) ==> s' == s)
  {
    var r := CheckEffect(s, actionId, now, today, weekday, xpWith, levelOf, f).0;
    var today' := TodaysChecks(s.checks, actionId, today);
    TodaysChecksMembers(s.checks, actionId, today);
    if today' != [] {
      assert today'[0] in today';
    }
  }

  /** A check keeps the bonus rows and the row ids valid. */
  lemma CheckKeepsState(s: State, actionId: nat, now: int, today: int, weekday: int,
                        xpWith: (int, seq<Multiplier>) -> int, levelOf: int -> int, f: Faults)
    requires Valid(s)
    ensures var s' := CheckEffect(s, actionId, now, today, weekday, xpWith, levelOf, f).1;
      s'.bonuses == s.bonuses && Valid(s')
  {
    var row := CheckRow(s.nextCheckId, actionId, now);
    CheckLeavesBonuses(s.bonuses, s.checks, row, f.bonusInsertOk);
    CheckKeepsValid(s, row);
    if TodaysRead(s.checks, actionId, today, f.lookupOk) == [] && f.insertOk {
      CheckProceeds(s, actionId, now, today, weekday, xpWith, levelOf, f);
      var ins := Inserted(s, row, f.bonusInsertOk);
      assert ins == s.(checks := s.checks + [row], nextCheckId := s.nextCheckId + 1);
      assert Valid(ins);
      AwardKeeps(ins, row, XpAt(s.bonuses, s.checks + [row], now, weekday, xpWith, f.bonusInsertOk), levelOf, f);
    }
  }

  /** With the read and the write succeeding, the gamification step writes
      the raised row. */
  lemma AwardSucceeds(ins: State, row: CheckRow, xp: int, levelOf: int -> int, f: Faults)
    requires f.readOk && f.writeOk
    ensures AwardEffect(ins, row, xp, levelOf, f).0.Ok?
    ensures AwardEffect(ins, row, xp, levelOf, f).1 == ins.(gamification := Some(CheckedRow(ins.gamification, xp, levelOf)))
  {
  }

  /** The gamification step of the check touches that row only. */
  lemma AwardKeeps(ins: State, row: CheckRow, xp: int, levelOf: int -> int, f: Faults)
    ensures var s' := AwardEffect(ins, row, xp, levelOf, f).1;
      s'.checks == ins.checks && s'.nextCheckId == ins.nextCheckId && s'.bonuses == ins.bonuses
  {
  }

  /** A successful check appends one row stamped `now` under a new id and
      moves the total by the XP it awards, from 0 when there was no row;
      `leveledUp` compares levels recomputed from the two totals. */
  lemma CheckOutcome(s: State, actionId: nat, now: int, today: int, weekday: int,
                     xpWith: (int, seq<Multiplier>) -> int, levelOf: int -> int, f: Faults)
    requires Valid(s)
    ensures var (r, s') := CheckEffect(s, actionId, now, today, weekday, xpWith, levelOf, f);
      r.Ok? ==>
        r.value.check == CheckRow(s.nextCheckId, actionId, now) &&
        s'.checks == s.checks + [r.value.check] && r.value.check !in s.checks
    ensures var (r, s') := CheckEffect(s, actionId, now, today, weekday, xpWith, levelOf, f);
      var before := if s.gamification.Some? then s.gamification.value.totalXp else 0;
      r.Ok? ==>
        r.value.newTotalXp == before + r.value.xpAwarded &&
        r.value.newLevel == levelOf(r.value.newTotalXp) &&
        s'.gamification == Some(CheckedRow(s.gamification, r.value.xpAwarded, levelOf)) &&
        s'.gamification.value.totalXp == r.value.newTotalXp &&
        s'.gamification.value.currentLevel == r.value.newLevel &&
        (r.value.leveledUp <==> levelOf(r.value.newTotalXp) > LevelBefore(s.gamification, levelOf))
  {
    var row := CheckRow(s.nextCheckId, actionId, now);
    CheckKeepsValid(s, row);
    if TodaysRead(s.checks, actionId, today, f.lookupOk) == [] && f.insertOk {
      CheckProceeds(s, actionId, now, today, weekday, xpWith, levelOf, f);
      CheckLeavesBonuses(s.bonuses, s.checks, row, f.bonusInsertOk);
      var ins := Inserted(s, row, f.bonusInsertOk);
      assert ins == s.(checks := s.checks + [row], nextCheckId := s.nextCheckId + 1);
      if f.readOk && f.writeOk {
        var xp := XpAt(s.bonuses, s.checks + [row], now, weekday, xpWith, f.bonusInsertOk);
        var g := CheckedRow(s.gamification, xp, levelOf);
        var before := if s.gamification.Some? then s.gamification.value.totalXp else 0;
        assert g.totalXp == before + xp && g.currentLevel == levelOf(g.totalXp);
        assert CheckEffect(s, actionId, now, today, weekday, xpWith, levelOf, f) ==
          (Ok(CheckResult(row, xp, g.totalXp, g.currentLevel, g.currentLevel > LevelBefore(s.gamification, levelOf))),
           ins.(gamification := Some(g)));
      }
    }
  }

  /** Past the guard and the insert, the check is the gamification step on
      the tables with the new row. */
  lemma CheckProceeds(s: State, actionId: nat, now: int, today: int, weekday: int,
                      xpWith: (int, seq<Multiplier>) -> int, levelOf: int -> int, f: Faults)
    requires TodaysRead(s.checks, actionId, today, f.lookupOk) == [] && f.insertOk
    ensures var row := CheckRow(s.nextCheckId, actionId, now);
      CheckEffect(s, actionId, now, today, weekday, xpWith, levelOf, f) ==
      AwardEffect(Inserted(s, row, f.bonusInsertOk), row,
                  XpAt(s.bonuses, s.checks + [row], now, weekday, xpWith, f.bonusInsertOk), levelOf, f)
  {
  }

  lemma CheckKeepsValid(s: State, row: CheckRow)
    requires Valid(s) && row.id == s.nextCheckId
    ensures Valid(s.(checks := s.checks + [row], nextCheckId := s.nextCheckId + 1))
    ensures row !in s.checks
  {
    var all := s.checks + [row];
    assert all[..|all| - 1] == s.checks;
    IdsBelowBound(s.checks, s.nextCheckId);
  }

  /** A missing row is created with the awarded XP and zero streaks and
      freezes, and the stored `current_level` plays no part in the result. */
  lemma CheckCreatesRow(s: State, actionId: nat, now: int, today: int, weekday: int,
                        xpWith: (int, seq<Multiplier>) -> int, levelOf: int -> int, f: Faults, level: int)
    ensures var (r, s') := CheckEffect(s, actionId, now, today, weekday, xpWith, levelOf, f);
      r.Ok? && s.gamification.None? ==>
        s'.gamification == Some(GamificationRow(r.value.xpAwarded, levelOf(r.value.xpAwarded), 0, 0, 0))
    ensures s.gamification.Some? ==>
      var other := s.(gamification := Some(s.gamification.value.(currentLevel := level)));
      CheckEffect(other, actionId, now, today, weekday, xpWith, levelOf, f).0 ==
        CheckEffect(s, actionId, now, today, weekday, xpWith, levelOf, f).0
  {
  }

  /** Both windows stop one second short of the next midnight: a check
      stamped in the last second of the local day belongs to that day, yet
      neither query sees it. */
  lemma LastSecondInvisible(checks: seq<CheckRow>, actionId: nat, today: int, id: nat, t: int)
    requires WindowEnd(today) <= t < WindowStart(today) + DAY
    ensures Timezone.LocalDay(t) == today
    ensures TodaysChecks(checks + [CheckRow(id, actionId, t)], actionId, today) == TodaysChecks(checks, actionId, today)
  {
    var all := checks + [CheckRow(id, actionId, t)];
    assert all[..|all| - 1] == checks;
    assert t + Timezone.KST_OFFSET == today * DAY + (t - WindowStart(today));
  }

  /** The uncheck throws its message, and changes nothing, exactly when
      the read of today's rows fails or today's window holds no check of the
      action. */
  lemma UncheckGuard(s: State, actionId: nat, now: int, today: int, weekday: int,
                     xpWith: (int, seq<Multiplier>) -> int, levelOf: int -> int, f: Faults)
    ensures var (r, s') := UncheckEffect(s, actionId, now, today, weekday, xpWith, levelOf, f);
      (r == Err(Thrown(NOT_CHECKED_TODAY)) <==> !f.lookupOk || !exists c :: c in s.checks && c.actionId == actionId &&
                                                                           InWindow(c.checkedAt, today)) &&
      (r == Err(Thrown(NOT_CHECKED_TODAY)) ==> s' == s)
  {
    var today' := TodaysChecks(s.checks, actionId, today);
    TodaysChecksMembers(s.checks, actionId, today);
    if today' != [] {
      assert today'[0] in today';
    }
  }

  /** A successful uncheck deletes exactly one row: a latest check of the
      action in today's window. */
  lemma UncheckDeletesLatest(s: State, actionId: nat, now: int, today: int, weekday: int,
                             xpWith: (int, seq<Multiplier>) -> int, levelOf: int -> int, f: Faults)
    requires Valid(s)
    ensures var (r, s') := UncheckEffect(s, actionId, now, today, weekday, xpWith, levelOf, f);
      Valid(s') &&
      (r.Ok? ==>
        exists c :: c in s.checks && c.actionId == actionId && InWindow(c.checkedAt, today) &&
          (forall d :: d in s.checks && d.actionId == actionId && InWindow(d.checkedAt, today) ==>
             d.checkedAt <= c.checkedAt) &&
          s'.checks == Without(s.checks, c.id) && |s'.checks| == |s.checks| - 1)
  {
    var latest := Latest(TodaysRead(s.checks, actionId, today, f.lookupOk));
    TodaysChecksMembers(s.checks, actionId, today);
    LatestIsLatest(TodaysChecks(s.checks, actionId, today));
    if latest.Some? {
      var c := latest.value;
      WithoutUnique(s.checks, c, s.nextCheckId);
      WithoutKeepsIds(s.checks, c.id, s.nextCheckId);
    }
  }

  /** Past the guard and the delete, with a row read, the uncheck is the
      deduction on the tables without the deleted row. */
  lemma UncheckProceeds(s: State, actionId: nat, now: int, today: int, weekday: int,
                        xpWith: (int, seq<Multiplier>) -> int, levelOf: int -> int, f: Faults)
    requires Latest(TodaysRead(s.checks, actionId, today, f.lookupOk)).Some? && f.deleteOk
    requires s.gamification.Some? && f.readOk
    ensures var id := Latest(TodaysRead(s.checks, actionId, today, f.lookupOk)).value.id;
      UncheckEffect(s, actionId, now, today, weekday, xpWith, levelOf, f) ==
      DeductEffect(s.(checks := Without(s.checks, id)), now, weekday, xpWith, levelOf, f)
  {
  }

  /** Without a row (or when the read fails) a successful uncheck changes
      neither the XP nor the bonus rows. */
  lemma UncheckWithoutRow(s: State, actionId: nat, now: int, today: int, weekday: int,
                          xpWith: (int, seq<Multiplier>) -> int, levelOf: int -> int, f: Faults)
    requires s.gamification.None? || !f.readOk
    ensures var (r, s') := UncheckEffect(s, actionId, now, today, weekday, xpWith, levelOf, f);
      s'.gamification == s.gamification && s'.bonuses == s.bonuses
  {
  }

  /** After a successful uncheck the total falls by the XP recomputed on
      the remaining rows, floored at 0, with the level recomputed from it. */
  lemma UncheckXp(s: State, actionId: nat, now: int, today: int, weekday: int,
                  xpWith: (int, seq<Multiplier>) -> int, levelOf: int -> int, f: Faults)
    requires s.gamification.Some? && f.readOk
    ensures var (r, s') := UncheckEffect(s, actionId, now, today, weekday, xpWith, levelOf, f);
      r.Ok? ==>
        var xp := XpAt(s.bonuses, s'.checks, now, weekday, xpWith, f.bonusInsertOk);
        var total := if s.gamification.value.totalXp - xp > 0 then s.gamification.value.totalXp - xp else 0;
        s'.gamification == Some(s.gamification.value.(totalXp := total, currentLevel := levelOf(total)))
  {
    var latest := Latest(TodaysRead(s.checks, actionId, today, f.lookupOk));
    if latest.Some? && f.deleteOk {
      UncheckProceeds(s, actionId, now, today, weekday, xpWith, levelOf, f);
      var s1 := s.(checks := Without(s.checks, latest.value.id));
      if f.writeOk {
        var xp := XpAt(s.bonuses, s1.checks, now, weekday, xpWith, f.bonusInsertOk);
        DeductRow(s1, now, weekday, xpWith, levelOf, f);
        assert Ledger.NewTotal(s.gamification.value.totalXp, -xp) ==
          if s.gamification.value.totalXp - xp > 0 then s.gamification.value.totalXp - xp else 0;
      } else {
        assert DeductEffect(s1, now, weekday, xpWith, levelOf, f).0.Err?;
      }
    } else {
      assert UncheckEffect(s, actionId, now, today, weekday, xpWith, levelOf, f).0.Err?;
    }
  }

  /** The deduction keeps the rows it was given and writes the lowered total. */
  lemma DeductRow(s: State, now: int, weekday: int, xpWith: (int, seq<Multiplier>) -> int,
                  levelOf: int -> int, f: Faults)
    requires s.gamification.Some? && f.writeOk
    ensures var s' := DeductEffect(s, now, weekday, xpWith, levelOf, f).1;
      s'.checks == s.checks &&
      s'.gamification == Some(UncheckedRow(s.gamification.value,
                                           XpAt(s.bonuses, s.checks, now, weekday, xpWith, f.bonusInsertOk), levelOf))
  {
  }

  /** Every row's id is below the bound. */
  lemma {:induction false} IdsBelowBound(checks: seq<CheckRow>, bound: int)
    requires IdsBelow(checks, bound)
    ensures forall c :: c in checks ==> c.id < bound
  {
    if checks != [] {
      var n := |checks| - 1;
      IdsBelowBound(checks[..n], checks[n].id);
      assert checks == checks[..n] + [checks[n]];
    }
  }

  /** Deleting the id of a row removes that row only, since no other row
      carries its id. */
  lemma {:induction false} WithoutUnique(checks: seq<CheckRow>, c: CheckRow, bound: int)
    requires IdsBelow(checks, bound) && c in checks
    ensures |Without(checks, c.id)| == |checks| - 1
  {
    var n := |checks| - 1;
    var p := checks[..n];
    assert checks == p + [checks[n]];
    IdsBelowBound(p, checks[n].id);
    if checks[n].id == c.id {
      WithoutAbsent(p, c.id);
    } else {
      assert c in p;
      WithoutUnique(p, c, checks[n].id);
    }
  }

  /** Deleting an id no row carries changes nothing. */
  lemma {:induction false} WithoutAbsent(checks: seq<CheckRow>, id: nat)
    requires forall c :: c in checks ==> c.id != id
    ensures Without(checks, id) == checks
  {
    if checks != [] {
      var n := |checks| - 1;
      assert checks == checks[..n] + [checks[n]];
      WithoutAbsent(checks[..n], id);
    }
  }

  /** Deleting keeps the ids increasing and below the bound. */
  lemma {:induction false} WithoutKeepsIds(checks: seq<CheckRow>, id: nat, bound: int)
    requires IdsBelow(checks, bound)
    ensures IdsBelow(Without(checks, id), bound)
  {
    if checks != [] {
      var n := |checks| - 1;
      var p := checks[..n];
      var last := checks[n];
      WithoutKeepsIds(p, id, last.id);
      var wp := Without(p, id);
      if last.id != id {
        var w := wp + [last];
        assert w[..|w| - 1] == wp;
      } else {
        assert Without(checks, id) == wp;
        assert checks[n].id < bound;
        if wp != [] {
          assert wp[|wp| - 1].id < last.id;
        }
      }
    }
  }

  /** A check and then an uncheck on the same local day, while the
      multipliers award the same XP, take the row back out and restore the
      total; the level becomes the one recomputed from that total. */
  lemma CheckThenUncheck(s: State, actionId: nat, now1: int, now2: int, today: int, weekday1: int, weekday2: int,
                         xpWith: (int, seq<Multiplier>) -> int, levelOf: int -> int, f: Faults)
    requires Valid(s) && s.gamification.Some? && s.gamification.value.totalXp >= 0
    requires TodaysChecks(s.checks, actionId, today) == [] && InWindow(now1, today)
    requires f.lookupOk && f.insertOk && f.deleteOk && f.readOk && f.writeOk
    requires XpAt(s.bonuses, s.checks + [CheckRow(s.nextCheckId, actionId, now1)], now1, weekday1, xpWith, f.bonusInsertOk) ==
             XpAt(s.bonuses, s.checks, now2, weekday2, xpWith, f.bonusInsertOk)
    ensures var (c, s1) := CheckEffect(s, actionId, now1, today, weekday1, xpWith, levelOf, f);
      var (u, s2) := UncheckEffect(s1, actionId, now2, today, weekday2, xpWith, levelOf, f);
      var g := s.gamification.value;
      c.Ok? && u.Ok? && s2.checks == s.checks &&
      s2.gamification == Some(g.(currentLevel := levelOf(g.totalXp)))
  {
    var g := s.gamification.value;
    var row := CheckRow(s.nextCheckId, actionId, now1);
    var xp := XpAt(s.bonuses, s.checks + [row], now1, weekday1, xpWith, f.bonusInsertOk);
    CheckSucceeds(s, actionId, now1, today, weekday1, xpWith, levelOf, f);
    var s1 := State(s.checks + [row], s.nextCheckId + 1, s.bonuses, Some(CheckedRow(s.gamification, xp, levelOf)));
    TodayAfterCheck(s.checks, row, today);
    WithoutNewest(s.checks, row);
    UncheckNewest(s1, s.checks, row, now2, today, weekday2, xpWith, levelOf, f);
    assert s.gamification == Some(g);
    RowRoundTrip(g, xp, levelOf);
  }

  /** Taking back the XP a check added restores the total of a row whose
      total was not negative. */
  lemma RowRoundTrip(g: GamificationRow, xp: int, levelOf: int -> int)
    requires g.totalXp >= 0
    ensures UncheckedRow(CheckedRow(Some(g), xp, levelOf), xp, levelOf) == g.(currentLevel := levelOf(g.totalXp))
  {
    assert Ledger.NewTotal(g.totalXp + xp, -xp) == g.totalXp;
  }

  /** The check on a day without a check of the action, when every store
      call succeeds. */
  lemma CheckSucceeds(s: State, actionId: nat, now: int, today: int, weekday: int,
                      xpWith: (int, seq<Multiplier>) -> int, levelOf: int -> int, f: Faults)
    requires TodaysRead(s.checks, actionId, today, f.lookupOk) == []
    requires f.insertOk && f.readOk && f.writeOk
    ensures var row := CheckRow(s.nextCheckId, actionId, now);
      var xp := XpAt(s.bonuses, s.checks + [row], now, weekday, xpWith, f.bonusInsertOk);
      var e := CheckEffect(s, actionId, now, today, weekday, xpWith, levelOf, f);
      e.0.Ok? && e.1 == State(s.checks + [row], s.nextCheckId + 1, s.bonuses, Some(CheckedRow(s.gamification, xp, levelOf)))
  {
    var row := CheckRow(s.nextCheckId, actionId, now);
    CheckLeavesBonuses(s.bonuses, s.checks, row, f.bonusInsertOk);
    CheckProceeds(s, actionId, now, today, weekday, xpWith, levelOf, f);
    AwardSucceeds(Inserted(s, row, f.bonusInsertOk), row,
                  XpAt(s.bonuses, s.checks + [row], now, weekday, xpWith, f.bonusInsertOk), levelOf, f);
  }

  /** The uncheck when today's only check of the action is the newest row:
      that row goes and the XP is deducted from the row that was read. */
  lemma UncheckNewest(s1: State, before: seq<CheckRow>, row: CheckRow, now: int, today: int, weekday: int,
                      xpWith: (int, seq<Multiplier>) -> int, levelOf: int -> int, f: Faults)
    requires s1.checks == before + [row] && s1.gamification.Some?
    requires TodaysChecks(s1.checks, row.actionId, today) == [row]
    requires Without(s1.checks, row.id) == before
    requires f.lookupOk && f.deleteOk && f.readOk && f.writeOk
    ensures var (u, s2) := UncheckEffect(s1, row.actionId, now, today, weekday, xpWith, levelOf, f);
      u.Ok? && s2.checks == before &&
      s2.gamification == Some(UncheckedRow(s1.gamification.value, XpAt(s1.bonuses, before, now, weekday, xpWith, f.bonusInsertOk), levelOf))
  {
    assert Latest([row]) == Some(row);
    var s1' := s1.(checks := before);
    var xp := XpAt(s1.bonuses, before, now, weekday, xpWith, f.bonusInsertOk);
    assert UncheckEffect(s1, row.actionId, now, today, weekday, xpWith, levelOf, f) ==
      DeductEffect(s1', now, weekday, xpWith, levelOf, f);
    assert DeductEffect(s1', now, weekday, xpWith, levelOf, f).1.gamification ==
      Some(UncheckedRow(s1.gamification.value, xp, levelOf));
  }

  /** The guard's read error is not looked at: when that read fails, a
      second check of the action on the same local day goes through and
      leaves two rows in today's window. */
  lemma FailedLookupAdmitsSecondCheck(s: State, actionId: nat, now: int, today: int, weekday: int,
                                      xpWith: (int, seq<Multiplier>) -> int, levelOf: int -> int, f: Faults)
    requires !f.lookupOk && f.insertOk && f.readOk && f.writeOk
    requires InWindow(now, today)
    ensures var (r, s') := CheckEffect(s, actionId, now, today, weekday, xpWith, levelOf, f);
      r.Ok? && TodaysChecks(s'.checks, actionId, today) == TodaysChecks(s.checks, actionId, today) + [r.value.check]
  {
    var row := CheckRow(s.nextCheckId, actionId, now);
    CheckProceeds(s, actionId, now, today, weekday, xpWith, levelOf, f);
    CheckLeavesBonuses(s.bonuses, s.checks, row, f.bonusInsertOk);
    var all := s.checks + [row];
    assert all[..|all| - 1] == s.checks;
  }

  /** A check appended to a day that held none is the day's only check. */
  lemma TodayAfterCheck(checks: seq<CheckRow>, row: CheckRow, today: int)
    requires TodaysChecks(checks, row.actionId, today) == [] && InWindow(row.checkedAt, today)
    ensures TodaysChecks(checks + [row], row.actionId, today) == [row]
  {
    var all := checks + [row];
    assert all[..|all| - 1] == checks;
  }

  /** Deleting the newest row's id, when all earlier ids are below it, gives
      back the rows before it. */
  lemma WithoutNewest(checks: seq<CheckRow>, row: CheckRow)
    requires IdsBelow(checks, row.id)
    ensures Without(checks + [row], row.id) == checks
  {
    var all := checks + [row];
    assert all[..|all| - 1] == checks;
    IdsBelowBound(checks, row.id);
    WithoutAbsent(checks, row.id);
  }
}
