# Mandalart gamification engine and goal-board logic, in Dafny

This project models the core of a mobile Mandalart goal-planning app. In the app, a user sets one centre goal, eight sub-goals around it and up to eight actions per sub-goal. The user then checks actions off day by day. The model covers:

- **Statistics, levels and badges** (`src/lib/stats.ts`):
  - current and longest streaks over distinct local days
  - completion and per-sub-goal percentages
  - the piecewise level curve, its next-level targets and the progress bar
  - the XP ledger update (`updateUserXP`)
  - the badge-condition evaluator with its statistics cache, the unlock loop and badge progress
  - the motivational-message cascade
  - the weekday, time-of-day and daily histograms
- **XP multipliers** (`src/lib/xpMultipliers.ts`):
  - the weekend bonus
  - the time-boxed comeback, level-milestone and perfect-week bonus records, and their activation
  - the additive total
  - the display text and colours
- **Check and uncheck of an action** (`src/hooks/useActionMutations.ts`): a per-(action, local day) state machine over `check_history`, the `user_gamification` row and the bonus table, and the toggle that dispatches between the two.
- **Day boundaries** (`src/lib/timezone.ts`): UTC instants against `YYYY-MM-DD` dates in Asia/Seoul (UTC+9 all year). This covers the day bounds, today's date, the 12-hour display and local date-times to UTC.
- **Mandalart mutations** (`src/hooks/useMandalartMutations.ts`): create (with its sub-goal and action inserts), activate, update and delete, over in-memory tables.
- **The 9×9 board** that the detail screen builds (`src/screens/mandalart/MandalartDetailScreen.tsx`).
- **The manual creation wizard** (`src/screens/mandalart/MandalartCreateScreen.tsx`):
  - the step machine and the edits
  - the sub-goal cursor
  - the data handed to create
  - the conversion of an OCR result

How values are represented:

- Instants are integer milliseconds since the epoch, and local dates are integer day numbers.
- Multipliers are kept in half units: 3 is 1.5x and 4 is 2.0x.
- The backend tables are fields of in-memory classes (`Tables.UserTables`, `Mandalarts.Store`).
- Each backend write takes a success flag, and so does each read whose outcome the model follows: the `user_gamification` read of check and uncheck, the read of today's `check_history` rows in both, and the `achievements`/`user_achievements` reads of `checkAndUnlockAchievements` (`queryOk`: when either fails, nothing is unlocked). The code ignores the error of that last read, so a failed read lets a second same-day check through (`CheckActions.FailedLookupAdmitsSecondCheck`). The other reads are listed under "Left out".
- State-changing operations are methods proved against effect functions, and the properties of those functions are proved as lemmas.

Where the code and its comments disagree, the model follows the code, and a lemma exhibits the difference:

- `Streaks.OlderRunWins`: ties between equally long runs go to the older run.
- `Levels.NextLevelOffByOne` and `Levels.ZeroSpanAtLevel3`: the next-level targets are off by one, and the progress bar divides by zero for 400..499 XP.
- `Levels.DropAt2500`: the level falls from 8 to 6 at 2500 XP.
- `Badges.BalancedNeverFires`: a `balanced` badge whose threshold is above 14, the default 60 included, cannot be won.
- `Mandalarts.ActivateIgnoresBulkFailure`: activation ignores the error of the bulk deactivation.
- `CheckActions.LastSecondInvisible`: a check in the last second of a day is invisible to both queries.

## Model

| member | source | states |
|---|---|---|
| Common.RoundPercent | src/lib/stats.ts:202 | for a positive denominator the result is the integer nearest to 100 * num / den, halves rounded up, as `Math.round` does |
| Common.Filter | src/screens/mandalart/MandalartCreateScreen.tsx:73 | a filter never yields more elements than it was given |
| Common.FilterMembers | src/screens/mandalart/MandalartCreateScreen.tsx:73 | `filter` keeps exactly the elements that pass |
| Common.FilterAppend | src/screens/mandalart/MandalartCreateScreen.tsx:73 | filtering a concatenation filters each part |
| Common.FilterAllOrNone | src/screens/mandalart/MandalartCreateScreen.tsx:73 | filtering keeps everything when all pass and nothing when none does |
| Strings.NatToString | src/lib/timezone.ts:56-57 | `String(n)` is a non-empty string of digits, one digit exactly below 10 |
| Strings.NatToStringValue | src/lib/timezone.ts:56-57 | the digits of `String(n)` denote n |
| Strings.PadStart | src/lib/timezone.ts:56-57 | `padStart` keeps the string at the end, fills the front with the pad character and reaches the width unless the string is longer |
| Strings.PaddedValue | src/lib/timezone.ts:56-57 | zero padding does not change the value the digits denote |
| Strings.Pad2Value | src/lib/timezone.ts:56-57 | a number below 100 padded to two digits is two digits denoting that number |
| Strings.Split | src/lib/timezone.ts:25 | `split` always yields at least one piece |
| Strings.SplitNoSep | src/lib/timezone.ts:25 | a string without the separator splits into itself |
| Strings.SplitLastPiece | src/lib/timezone.ts:25 | splitting after a last separator appends the last piece to the pieces before it |
| Strings.SplitThree | src/lib/timezone.ts:25 | three separator-free pieces joined by the separator split back into those three pieces |
| Strings.TrimStartShape | src/screens/mandalart/MandalartCreateScreen.tsx:67 | leading trimming removes only white space and leaves a string not starting with any |
| Strings.TrimEndShape | src/screens/mandalart/MandalartCreateScreen.tsx:67 | trailing trimming removes only white space and leaves a string not ending with any |
| Strings.BlankIffTrimEmpty | src/screens/mandalart/MandalartCreateScreen.tsx:67 | `!s.trim()` holds exactly when every character is white space |
| Strings.TrimIdempotent | src/screens/mandalart/MandalartCreateScreen.tsx:116-126 | trimming twice is trimming once, and the result neither starts nor ends with white space |
| Calendar.DateRoundTrip | src/lib/timezone.ts:28-29 | a valid date survives the trip to its day number and back |
| Calendar.DayRoundTrip | src/lib/timezone.ts:53-57 | every day number names a valid date that leads back to it |
| Levels.PowerStep | src/lib/stats.ts:675 | the power branch's step lies in 0..5 below 2100 adjusted XP |
| Levels.PowerStepExact | src/lib/stats.ts:675 | the integer step is exactly floor((a / 100)^(1/1.7)): k^17 * 100^10 <= a^10 < (k + 1)^17 * 100^10 |
| Levels.Thresholds | src/lib/stats.ts:675 | each step threshold is the first adjusted XP whose tenth power reaches (k^1.7 * 100)^10 |
| Levels.PowerXp | src/lib/stats.ts:697 | the power inverse is never negative |
| Levels.PowerXpExact | src/lib/stats.ts:697 | the integer inverse is exactly floor(n^1.7 * 100) for n = 0, 1, 2 |
| Levels.LevelFromXp | src/lib/stats.ts:664-682 | level 1 below 100 XP and 2 from 100 to 399; from 400 to 2499 the level lies in 3..8 and is 3 up to 499; from 2500 on it is at least 6 |
| Levels.XpForNextLevel | src/lib/stats.ts:688-702 | up to level 5 the target lies in 0..724, and level 6's target is 2500 |
| Levels.RoundedPercent | src/lib/stats.ts:719 | a zero span gives a non-finite value (Infinity, -Infinity or NaN by the sign of the numerator); otherwise the result is the integer nearest to 100 * p / d, halves rounded up |
| Levels.XpProgress | src/lib/stats.ts:707-728 | the level is the level of the XP, progress is XP minus the current level's start, and the percentage is finite exactly when the span is not zero |
| Levels.MonotoneBelow2500 | src/lib/stats.ts:664-675 | below 2500 XP the level never falls as XP grows |
| Levels.DropAt2500 | src/lib/stats.ts:671-680 | the curve is not monotone: 2499 XP is level 8 and 2500 XP is level 6 |
| Levels.NextLevelOffByOne | src/lib/stats.ts:688-697 | the targets for levels 0..5 are 0, 100, 400, 400, 500 and 724; the target shown for level 3 is level 3's own start, and 724 XP is still level 4 |
| Levels.ZeroSpanAtLevel3 | src/lib/stats.ts:714-719 | for 400..499 XP both ends of the bar are 400, so the percentage is NaN at 400 and Infinity above it |
| Ledger.NewTotal | src/lib/stats.ts:770 | `Math.max(0, total + delta)`: the sum when it is not negative and 0 when it is, so never negative and never below the sum |
| Ledger.StartRow | src/lib/stats.ts:733-761 | a stored row is used as is; without one a coherent row with total 0 exists exactly when the insert succeeds, and none (`null`) otherwise |
| Ledger.GetUserLevel | src/lib/stats.ts:733-761 | returns the stored row, or inserts and returns the fresh row, or returns nothing when that insert fails |
| Ledger.LedgerAfter | src/lib/stats.ts:765-801 | after a successful read and update the row is coherent with the floored new total; the bonus table only grows, by at most one row |
| Ledger.UpdateUserXP | src/lib/stats.ts:765-801 | returns nothing exactly when the read or the update fails; otherwise writes the floored total and its level, reports a level-up iff the new level exceeds the stored one, returns the stored level and the delta, and adds the milestone bonus only on a level-up |
| Ledger.UpdatesCompose | src/lib/stats.ts:770 | two gains, or two losses, in a row leave the total that one update by their sum would |
| Streaks.Days | src/lib/stats.ts:248-252 | the distinct local days are never more than the checks, and the oldest of them is the oldest check's day |
| Streaks.DaysShape | src/lib/stats.ts:247-252 | for checks newest first, the distinct days are strictly decreasing, start with the newest check's day and are exactly the local days of the checks |
| Streaks.UniqueDays | src/lib/stats.ts:248-252 | the loop collects exactly the distinct days |
| Streaks.Chain | src/lib/stats.ts:295-311 | a run ending at index i is between 1 and i + 1 days long |
| Streaks.CurrentStreak | src/lib/stats.ts:267-288 | when the newest day is today or yesterday the current streak is the length of the run of consecutive days from it, and 0 otherwise |
| Streaks.LongestStreak | src/lib/stats.ts:291-318 | the result is the length of the longest run of consecutive days, and the index is the oldest day of the last such run met |
| Streaks.HeadRunBounded | src/lib/stats.ts:267-318 | the run from the newest day is never longer than the longest run |
| Streaks.FirstOnDay | src/lib/stats.ts:330-335 | finds a check exactly when some check falls on that local day, and then it is the first (newest) such check |
| Streaks.GetStreakStats | src/lib/stats.ts:227-345 | no checks give all zero and no dates; otherwise the last check is the newest instant, current and longest are the run lengths above with current at most longest and longest at least 1, and the longest streak's date is the newest check when current reaches longest, else the newest check on the oldest day of the longest run |
| Streaks.OlderRunWins | src/lib/stats.ts:306-317 | of runs as long as the longest, the one reported is the oldest, not the most recent as the comments say |
| Streaks.TieExample | src/lib/stats.ts:306-317 | with runs 12-11 and 9-8 the reported run ends at day 8 |
| Completion.CountIn | src/lib/stats.ts:170-192 | a window count never exceeds the number of checks |
| Completion.Percentage | src/lib/stats.ts:198-220 | 0 without actions; otherwise the integer nearest to 100 * checked / (actions * days), halves rounded up |
| Completion.PercentageBounds | src/lib/stats.ts:198-220 | a share between none and all gives 0..100, none gives 0 and all gives 100 |
| Completion.CompletionStatsOf | src/lib/stats.ts:130-222 | today counts the checks in [midnight, next midnight), the week those from Sunday's midnight on and the month those from the first's midnight on; the totals are the actions, seven times them and the days of the month times them; each percentage is the rounded share of its count in its total, and 0 without actions |
| Completion.CountWithin | src/lib/stats.ts:170-192 | a window starting no earlier and bounded above counts no more than the open-ended one |
| Completion.TodayWithinWeek | src/lib/stats.ts:131-184 | today's count never exceeds the week's |
| Completion.IdsWhere | src/lib/stats.ts:402-423 | an action's id is in the set exactly when the action has a check in the window |
| Completion.IdsBounded | src/lib/stats.ts:402-423 | there are never more distinct checked ids than actions |
| Completion.IdsWithin | src/lib/stats.ts:402-423 | the ids checked in a later-starting window are among those checked since the earlier start |
| Completion.WeeklyAtMost14 | src/lib/stats.ts:434 | because distinct actions are counted, the weekly percentage can never exceed 14 |
| Completion.ProgressOf | src/lib/stats.ts:398-437 | an entry carries the sub-goal's id, position and action count; checked today and checked this week are the numbers of distinct actions with a check in today's and this week's windows; the weekly percentage is `round(100·week/(7·total))` (0 without actions), so today ≤ week ≤ actions and the percentage lies in 0..14 |
| Completion.GoalProgressOf | src/lib/stats.ts:352-439 | one entry per sub-goal in query order, each the progress of that sub-goal, so its weekly percentage is at most 14 |
| Completion.CheckedTodayIsCheckedThisWeek | src/lib/stats.ts:402-423 | an action checked today is counted as checked this week |
| Completion.MotivationalMessageOf | src/lib/stats.ts:444-530 | the AI button shows exactly from 60% today; the warning appears exactly below 10% today with a streak under 7 and under 50% for the week; the info variant exactly from 10% to 59% today under the same streak and week conditions; the default message is unreachable |
| Patterns.Weekday | src/lib/stats.ts:1276 | the weekday lies in 0..6 |
| Patterns.Hour | src/lib/stats.ts:1318 | the hour lies in 0..23 |
| Patterns.CountDay | src/lib/stats.ts:1274-1278 | a weekday's count never exceeds the number of checks |
| Patterns.DayCountsSum | src/lib/stats.ts:1274-1278 | the seven weekday counts add up to the number of checks |
| Patterns.AnalyzeWeekdayPatterns | src/lib/stats.ts:1263-1294 | nothing exactly when the query fails or there are no checks; otherwise `allDays` is the sorted list of the seven entries, the best and worst days carry their names and counts, every weekday's count lies between them, ties go to the earliest best and the latest worst weekday |
| Patterns.InsertSorted | src/lib/stats.ts:1288 | inserting a later weekday's entry keeps the list ordered by count, ties by weekday |
| Patterns.Insert | src/lib/stats.ts:1288 | one insertion step of the stable sort adds exactly the inserted entry and loses none |
| Patterns.SortByCountSorted | src/lib/stats.ts:1281-1288 | the stable descending sort of entries in weekday order is ordered by count, ties by increasing weekday |
| Patterns.SortByCount | src/lib/stats.ts:1281-1288 | the sort is a permutation of its input: it loses or adds no entry |
| Patterns.AllDaysSorted | src/lib/stats.ts:1276-1292 | `allDays` holds each of the seven weekdays once, with its name and count, ordered by count with ties by increasing weekday |
| Patterns.BestAndWorst | src/lib/stats.ts:1290-1291 | the first entry has the largest count and no earlier weekday has as many; the last has the smallest and no later weekday has as few |
| Patterns.BestDayHasChecks | src/lib/stats.ts:1269-1290 | with at least one check the best day has a check |
| Patterns.CountPeriod | src/lib/stats.ts:1317-1323 | a period's count never exceeds the number of checks |
| Patterns.PeriodsPartition | src/lib/stats.ts:1310-1323 | every check falls in exactly one of the four periods |
| Patterns.ShareOf | src/lib/stats.ts:1325-1330 | a period's entry carries its count and a percentage in 0..100 |
| Patterns.AnalyzeTimePatterns | src/lib/stats.ts:1299-1332 | nothing exactly when the query fails or there are no checks; otherwise each period's count and its rounded share of all checks |
| Patterns.SharesNeedNotAddUp | src/lib/stats.ts:1327-1330 | the rounded shares need not add up to 100: one check in each of three periods gives 99 |
| Patterns.DateStringsDistinct | src/lib/stats.ts:1360 | different days of the common era have different date keys, so grouping by key groups by day |
| Patterns.Since | src/lib/stats.ts:1342-1346 | the query returns exactly the checks from the start instant on |
| Patterns.FirstSeen | src/lib/stats.ts:1357-1362 | the map's keys are distinct and are exactly the days holding a check |
| Patterns.CountOn | src/lib/stats.ts:1361 | a day's count never exceeds the number of checks |
| Patterns.CountOnPositive | src/lib/stats.ts:1361 | every key holds at least one check |
| Patterns.GroupByDay | src/lib/stats.ts:1357-1362 | the loop builds keys in first-seen order and maps each key, and nothing else, to that day's number of checks |
| Patterns.DailyCompletionData | src/lib/stats.ts:1337-1370 | a failed query gives no entries; otherwise one entry per day with checks since the start, in first-seen order, with its count and percentage |
| Patterns.EntriesAt | src/lib/stats.ts:1365-1369 | entry i is the entry of the i-th day |
| Patterns.EntriesOf | src/lib/stats.ts:1365-1369 | the mapping step yields one entry per key, with the count from the map and its rounded share of the actions, 0 without actions |
| Patterns.CountOnAbsent | src/lib/stats.ts:1361 | a day that is not a key holds no check |
| Patterns.CountsCoverChecks | src/lib/stats.ts:1357-1369 | the entries' counts add up to the number of checks since the start |
| Patterns.SumOnSnoc | src/lib/stats.ts:1358-1362 | one more check adds one to the total over distinct days that include its day |
| Patterns.WeekdayGroups | src/lib/stats.ts:1274-1278 | the `forEach` loop leaves in each of the seven counters the number of checks on that weekday |
| Badges.OrDefault | src/lib/stats.ts:847 | defaulting with JavaScript `or`: the supplied number unless it is missing or 0, in which case the default |
| Badges.PerfectWeekInMonthLoop | src/lib/stats.ts:934-959 | the week loop answers whether some week of the month that has already ended, among its first five, is complete (percentage exactly 100); it stops at the first week not yet over |
| Badges.StreakCondition | src/lib/stats.ts:831-835 | a streak condition holds iff the current or the longest streak reaches `days`; with no `days` it always holds |
| Badges.Evaluate | src/lib/stats.ts:822-970 | an unknown condition type is never met; a streak or total-checks condition without its target is always met; `time_pattern`, `weekend_completion` and `balanced` never fire on an empty list |
| Badges.ZeroThresholdIsDefault | src/lib/stats.ts:850-853 | a threshold of 0 falls back to the default 90, so a 0% month does not meet a `threshold: 0` perfect-month badge |
| Badges.WeekendRate | src/lib/stats.ts:898-927 | weekend_completion holds iff there are weekday checks and weekend checks / 2 > weekday checks / 5 |
| Badges.BalancedNeverFires | src/lib/stats.ts:868-874 | a `balanced` condition whose threshold is above 14 (the default 60 included) is never met on the goal progress the app computes |
| Badges.NeededStats | src/lib/stats.ts:1035-1066 | the needed set holds exactly the statistics some candidate's condition type reads |
| Badges.BuildCache | src/lib/stats.ts:1075-1119 | exactly the needed statistics are filled in the cache |
| Badges.CacheAgrees | src/lib/stats.ts:822-970 | with the cache filled from the same statistics, every condition decides as it would with no cache |
| Badges.Candidates | src/lib/stats.ts:1028-1031 | the candidates are exactly the fetched achievements whose id is not unlocked yet, in their order |
| Badges.Unlocks | src/lib/stats.ts:1144-1162 | the newly unlocked achievements are exactly the candidates whose condition holds and whose insert succeeded |
| Badges.CheckAndUnlockAchievements | src/lib/stats.ts:1001-1168 | a failed query returns [] and changes nothing; otherwise it returns the unlocks over the built cache, appends their ids to the user's unlocked set and applies one `updateUserXP` per unlock, in order, each with its own backend outcomes |
| Badges.UnlockLoop | src/lib/stats.ts:1144-1162 | the loop returns the unlocks in order, records each id once and rewards each exactly once, each reward meeting its own backend outcomes |
| Badges.Record | src/lib/stats.ts:1150-1161 | one successful insert adds the id and one XP update to the ledger fold |
| Badges.NeededIsSpec | src/lib/stats.ts:1035-1066 | the set the loop builds equals the set comprehension over the candidates' needs |
| Badges.UnlockStep | src/lib/stats.ts:1146-1162 | one loop turn extends the unlock list by the candidate exactly when its condition holds and its insert succeeds |
| Badges.CandidatesOrdered | src/lib/stats.ts:1005-1031 | filtering out unlocked ids keeps display order and distinct ids |
| Badges.UnlocksOrdered | src/lib/stats.ts:1146-1162 | the unlock list keeps display order and distinct ids |
| Badges.UnlocksAreNew | src/lib/stats.ts:1001-1168 | every newly unlocked achievement is an active fetched row not unlocked before, each appears once, in display order |
| Badges.RewardsAddUp | src/lib/stats.ts:1157-1161 | when every unlock's update succeeds and rewards are non-negative, the ledger ends at the start total plus the sum of the rewards, at the level of that total |
| Badges.ProgressOf | src/lib/stats.ts:1187 | `Math.min(current / target * 100, 100)`: at most 100, non-negative for a positive target, and exactly 100 iff current reaches the target; NaN or -Infinity for a zero target |
| Badges.BadgeProgressOf | src/lib/stats.ts:1174-1254 | a figure exists exactly for streak, total_checks, perfect_week, perfect_month, monthly_completion and monthly_streak, and its progress is `ProgressOf(current, target)` |
| Badges.ProgressMatchesUnlock | src/lib/stats.ts:1174-1254 | where progress and unlock read the same target, a full progress bar holds exactly when the condition is met |
| Badges.DefaultsDisagree | src/lib/stats.ts:831-1204 | with no `days`/`count`, a streak or total-checks badge is unlocked with no activity while its progress shows 0 |
| Badges.CountBetween | src/lib/stats.ts:934-959 | a week's check count never exceeds the number of checks |
| Multipliers.SumAppend | src/lib/xpMultipliers.ts:73 | the reduce over a concatenation is the sum of the two reduces |
| Multipliers.Live | src/lib/xpMultipliers.ts:85-91 | the unexpired rows are a sub-list of the rows |
| Multipliers.LiveMembers | src/lib/xpMultipliers.ts:85-91 | the query selects exactly the rows of the kind whose expiry is not before now |
| Multipliers.DaysRemaining | src/lib/xpMultipliers.ts:96 | the result is the ceiling of the time left in days |
| Multipliers.Reported | src/lib/xpMultipliers.ts:85-106 | `.single()` reports a bonus exactly when one unexpired row of the kind exists, with the kind's multiplier and `Math.ceil` of that row's remaining time in days, which is not negative |
| Multipliers.LevelMilestoneBonus | src/lib/xpMultipliers.ts:154-179 | a milestone entry exactly when one unexpired `level_milestone` row exists, at 2.0x with `Math.ceil` of that row's remaining days |
| Multipliers.PerfectWeekBonus | src/lib/xpMultipliers.ts:225-250 | a perfect-week entry exactly when one unexpired `perfect_week` row exists, at 2.0x with `Math.ceil` of that row's remaining days |
| Multipliers.LatestCheck | src/lib/xpMultipliers.ts:109-118 | there is a latest check exactly when there are checks |
| Multipliers.LatestCheckIsNewest | src/lib/xpMultipliers.ts:109-114 | the latest check time is one of the checks' times and none is later |
| Multipliers.ComebackOutcome | src/lib/xpMultipliers.ts:81-149 | whatever is reported is a comeback at 1.5x |
| Multipliers.CheckComebackBonus | src/lib/xpMultipliers.ts:81-149 | reports an unexpired comeback row, or a new three-day bonus when the newest check is at least three whole days old; inserts the row only then and only if the insert succeeds, yet reports it either way |
| Multipliers.ActiveList | src/lib/xpMultipliers.ts:26-63 | the list holds at most four entries |
| Multipliers.ActiveListSorted | src/lib/xpMultipliers.ts:26-63 | the list is in the order weekend, comeback, milestone, perfect week |
| Multipliers.ActiveListWeekend | src/lib/xpMultipliers.ts:30-42 | the weekend entry is in the list exactly on weekends, and no other weekend entry is |
| Multipliers.RankedAppend | src/lib/xpMultipliers.ts:45-60 | appending a finding of a higher rank keeps the list in order |
| Multipliers.BonusesAfterComeback | src/lib/xpMultipliers.ts:128-136 | the bonus rows either stay or gain the comeback row |
| Multipliers.ActiveMultipliers | src/lib/xpMultipliers.ts:26-63 | returns the list built from the weekday and the three lookups, the later two after the comeback insert, and changes the bonus rows only by that insert |
| Multipliers.TotalOfActive | src/lib/xpMultipliers.ts:69-76 | an empty list totals 1.0x; otherwise the plain sum of 1.5x, 1.5x, 2.0x and 2.0x over the entries present, with no base added |
| Multipliers.TotalHalves | src/lib/xpMultipliers.ts:69-76 | an empty list totals 1.0x; a lone multiplier is the total, as no base of 1.0 is added; no multiplier exceeds the total |
| Multipliers.ActivateLevelMilestoneBonus | src/lib/xpMultipliers.ts:185-220 | succeeds exactly for a milestone level with no unexpired milestone row and a successful insert, and only then adds the seven-day row |
| Multipliers.ActivatePerfectWeekBonus | src/lib/xpMultipliers.ts:256-284 | succeeds exactly when no perfect-week row is unexpired and the insert succeeds, and only then adds the seven-day row |
| Multipliers.LiveShrinks | src/lib/xpMultipliers.ts:90 | a later instant sees no more unexpired rows |
| Multipliers.LiveSnoc | src/lib/xpMultipliers.ts:85-91 | a new row is unexpired exactly when it is of the kind and expires no earlier than now |
| Multipliers.RepeatBlocked | src/lib/xpMultipliers.ts:193-219 | after an activation the new row is the only unexpired one of its kind for seven days, so the lookup reports it and a repeated activation finds an unexpired row |
| Multipliers.ComebackLastsThreeDays | src/lib/xpMultipliers.ts:125-145 | a comeback row made now reports 1.5x and three days remaining |
| Multipliers.ColorsDistinct | src/lib/xpMultipliers.ts:296-309 | the four kinds get four different colours |
| Multipliers.MultiplierColor | src/lib/xpMultipliers.ts:296-309 | the colour is the fallback `text-primary` exactly when the type string names none of the four kinds |
| Multipliers.FormatMultiplier | src/lib/xpMultipliers.ts:289-291 | the text is `×`, the whole part in digits, a point and 0 or 5, and reads back as the multiplier |
| CheckActions.TodaysChecksMembers | src/hooks/useActionMutations.ts:30-36 | the query selects exactly the action's checks from local midnight up to, not including, 23:59:59 |
| CheckActions.LatestIsLatest | src/hooks/useActionMutations.ts:142-149 | no row is later than the one picked, and it is absent exactly when there are no rows |
| CheckActions.WithoutMembers | src/hooks/useActionMutations.ts:152-155 | the delete keeps exactly the rows with another id |
| CheckActions.Check | src/hooks/useActionMutations.ts:21-110 | the result and the tables after a check are those of the check effect, and the bonus rows are unchanged, since no comeback bonus can be due once the new row is in |
| CheckActions.CheckEffect | src/hooks/useActionMutations.ts:21-110 | a failure before the insert changes nothing; once inserted, the row stamped `now` under the next id stays even when the gamification step fails; the XP row changes only on success |
| CheckActions.AwardXp | src/hooks/useActionMutations.ts:60-110 | the result and the row after step 4 are those of the award step |
| CheckActions.Uncheck | src/hooks/useActionMutations.ts:126-185 | the result and the tables after an uncheck are those of the uncheck effect |
| CheckActions.UncheckEffect | src/hooks/useActionMutations.ts:126-185 | a failure before the delete changes nothing; no id is allocated; the XP row changes only on success, for a user who has one |
| CheckActions.DeductXp | src/hooks/useActionMutations.ts:166-184 | the result and the row after step 3 are those of the deduct step |
| CheckActions.Toggle | src/hooks/useActionMutations.ts:201-207 | a shown-checked action is unchecked and any other is checked, with that mutation's result and tables |
| CheckActions.NoComebackAfterCheck | src/hooks/useActionMutations.ts:43-56 | the multipliers are read after the check row is written, so no comeback bonus can be due then |
| CheckActions.CheckLeavesBonuses | src/hooks/useActionMutations.ts:56 | with the new row in place the comeback check inserts nothing and reports only an existing comeback row |
| CheckActions.CheckGuard | src/hooks/useActionMutations.ts:30-40 | the check throws the already-checked message exactly when the read of today's rows succeeds and today's window holds a check of the action, and then changes nothing |
| CheckActions.FailedLookupAdmitsSecondCheck | src/hooks/useActionMutations.ts:30-40 | when the read of today's rows fails, a check goes through and adds its row to today's window even if a check is already there |
| CheckActions.CheckKeepsState | src/hooks/useActionMutations.ts:21-110 | a check keeps the bonus rows and keeps row ids increasing and below the next id |
| CheckActions.AwardSucceeds | src/hooks/useActionMutations.ts:60-102 | when the read and the write succeed the step succeeds and writes the raised row |
| CheckActions.AwardKeeps | src/hooks/useActionMutations.ts:60-102 | the award step touches only the gamification row |
| CheckActions.CheckOutcome | src/hooks/useActionMutations.ts:43-110 | a successful check returns the new row, appended under a new id; the new total is the old total (0 without a row) plus the awarded XP, the level is recomputed from it and written, and the level-up flag compares the recomputed levels |
| CheckActions.CheckProceeds | src/hooks/useActionMutations.ts:38-60 | past the guard and the insert, the check is the award step on the tables with the new row and its multiplied XP |
| CheckActions.CheckKeepsValid | src/hooks/useActionMutations.ts:43-51 | appending the new row under the next id keeps ids increasing and the row is new |
| CheckActions.CheckCreatesRow | src/hooks/useActionMutations.ts:70-101 | a missing row is created with the awarded XP, its level and zero streaks and freezes; the stored current level does not affect the result |
| CheckActions.LastSecondInvisible | src/hooks/useActionMutations.ts:35-36 | a check in the last second of the local day belongs to that day but neither query sees it |
| CheckActions.UncheckGuard | src/hooks/useActionMutations.ts:135-147 | the uncheck throws its message exactly when the read of today's rows fails or today's window holds no check of the action, and then changes nothing |
| CheckActions.UncheckDeletesLatest | src/hooks/useActionMutations.ts:135-157 | an uncheck keeps ids valid, and a successful one deletes exactly one row, a latest check of the action in today's window |
| CheckActions.UncheckProceeds | src/hooks/useActionMutations.ts:149-168 | past the guard and the delete, with a row read, the uncheck is the deduction on the tables without the deleted row |
| CheckActions.UncheckWithoutRow | src/hooks/useActionMutations.ts:160-166 | without a gamification row, or when its read fails, the uncheck leaves XP and bonus rows alone |
| CheckActions.UncheckXp | src/hooks/useActionMutations.ts:166-178 | a successful uncheck lowers the total by the XP recomputed from the remaining rows, floored at 0, with the level recomputed |
| CheckActions.DeductRow | src/hooks/useActionMutations.ts:166-184 | the deduction keeps the check rows and writes the lowered total |
| CheckActions.IdsBelowBound | src/hooks/useActionMutations.ts:43-51 | every row id lies below the next id |
| CheckActions.WithoutUnique | src/hooks/useActionMutations.ts:152-155 | deleting by the id of an existing row removes exactly one row |
| CheckActions.WithoutAbsent | src/hooks/useActionMutations.ts:152-155 | deleting an id no row has changes nothing |
| CheckActions.WithoutKeepsIds | src/hooks/useActionMutations.ts:152-155 | deleting keeps ids increasing and below the bound |
| CheckActions.CheckThenUncheck | src/hooks/useActionMutations.ts:21-185 | on a day without a check, a check then an uncheck, all calls succeeding and the multiplied XP unchanged, gives back the check rows and the total, with the level recomputed from it |
| CheckActions.RowRoundTrip | src/hooks/useActionMutations.ts:72-171 | removing the XP a check added restores a non-negative total |
| CheckActions.CheckSucceeds | src/hooks/useActionMutations.ts:21-110 | when the guard's read finds no check today (or fails) and every write succeeds, the check succeeds and writes the new row and the raised total |
| CheckActions.UncheckNewest | src/hooks/useActionMutations.ts:126-185 | when today's only check is the newest row, the uncheck deletes it and deducts from the row read |
| CheckActions.TodayAfterCheck | src/hooks/useActionMutations.ts:30-49 | a check added on a day that held none is that day's only check |
| CheckActions.WithoutNewest | src/hooks/useActionMutations.ts:152-155 | deleting the newest row's id, when earlier ids are below it, gives back the earlier rows |
| Timezone.LocalMillis | src/lib/timezone.ts:53 | the Seoul wall-clock time of an instant lies in [0, 24 h) and, added to the local day number, gives back the instant shifted by +9:00 |
| Timezone.GetDayBoundsUTC | src/lib/timezone.ts:20-39 | the bounds are the ISO strings of the two Seoul midnights of the parsed date, and `Invalid time value` is thrown exactly when the pieces do not parse as integers or name no representable midnight |
| Timezone.DayIsDayLong | src/lib/timezone.ts:28-33 | whatever date string is given, end − start is exactly 24 hours |
| Timezone.GetUserToday | src/lib/timezone.ts:68-77 | today's date string has as its day bounds the two Seoul midnights around `now` |
| Timezone.FormatUserDateTime | src/lib/timezone.ts:86-104 | the date and time display exists exactly for a valid time value, and throws otherwise |
| Timezone.DisplayDateRoundTrip | src/lib/timezone.ts:90-95 | the `yyyy.MM.dd` display reads back as the local year of the era (padded to four digits), month and day |
| Timezone.UserDateTimeToUTC | src/lib/timezone.ts:126-138 | the ISO string of the instant the Seoul wall-clock time names on the parsed date, and a throw exactly when the pieces do not parse as integers or that instant is invalid |
| Strings.JsNumberDigits | src/lib/timezone.ts:25 | `Number` of a run of decimal digits is its value |
| Strings.JsNumberIgnoresSpace | src/lib/timezone.ts:25 | `Number` ignores white space around the literal |
| Strings.JsNumberSigned | src/lib/timezone.ts:25 | a `+` or `-` sign applies to a non-empty run of decimal digits |
| Strings.JsNumberRadix | src/lib/timezone.ts:25 | `0x`, `0b` and `0o` literals read in their base, and a prefix without digits is NaN |
| Timezone.ParseJoined | src/lib/timezone.ts:25 | three digit runs joined by dashes split and convert into their three values |
| Timezone.FormatUserDate | src/lib/timezone.ts:55-59 | the `YYYY-MM-DD` string the app builds parses back into its year, month and day, for a year from 0 on |
| Timezone.MakeDayOfValidDate | src/lib/timezone.ts:28 | `new Date(y, m − 1, d)` of a valid date from year 100 on names that date's day number |
| Timezone.UserDateBounds | src/lib/timezone.ts:20-60 | the bounds of the user date of any instant are the two Seoul midnights around it, so every instant lies in [start, end) of its own date |
| Timezone.BoundsOfDay | src/lib/timezone.ts:28-33 | a date string naming a valid date with day number k has bounds k·24 h − 9 h and 24 hours later |
| Timezone.UtcToUserDate | src/lib/timezone.ts:55-59 | the user date of a valid instant parses back into the fields of the local date; an invalid instant gives `NaN-NaN-NaN` |
| Timezone.MidnightsOfDate | src/lib/timezone.ts:28-33 | the two `fromZonedTime` midnights of a valid date are its local midnight and 24 hours later |
| Timezone.TwoDigitYears | src/lib/timezone.ts:28-29 | a year 0–99 in the date string is read as 1900–1999: it gets the bounds of the date 1900 years later |
| Timezone.DisplayTimeRoundTrip | src/lib/timezone.ts:97-101 | the `오전/오후 HH:MM` display reads back as the local hour and minute, so the period is `오전` iff the hour is below 12 and both fields are two digits |
| Timezone.HourRoundTrip | src/lib/timezone.ts:100 | the displayed hour is in 1..12 and, with the period, recovers the 24-hour clock hour |
| Timezone.MidnightIsDayStart | src/lib/timezone.ts:126-138 | `userDateTimeToUTC(d, 0, 0, 0)` is the start of `getDayBoundsUTC(d)` |
| Timezone.UserDateTimeOnDate | src/lib/timezone.ts:126-138 | a wall-clock time on the user date of `t` converts to its local midnight plus that time, an instant that has the same user date |
| Timezone.SeoulDayExample | src/lib/timezone.ts:12-14 | `2025-11-12` runs from 2025-11-11T15:00Z to 2025-11-12T15:00Z |
| Mandalarts.ActionBatch | src/hooks/useMandalartMutations.ts:57-69 | a sub-goal's action batch has at most one row per input action |
| Mandalarts.Store.Create | src/hooks/useMandalartMutations.ts:20-81 | the result and the tables after a create are those of the create effect: no user throws before any write, the mandalart insert comes first, then one pass per input sub-goal until the first failing insert |
| Mandalarts.Store.InsertSubGoal | src/hooks/useMandalartMutations.ts:44-52 | one `sub_goals` row is appended under the next id, and nothing else changes |
| Mandalarts.Store.InsertActions | src/hooks/useMandalartMutations.ts:71-77 | the batch is appended to `actions`, and nothing else changes |
| Mandalarts.Store.Activate | src/hooks/useMandalartMutations.ts:120-140 | the result and the rows after an activation are those of the activate effect: the bulk deactivation of the user's rows, then the single-row activation |
| Mandalarts.Store.Update | src/hooks/useMandalartMutations.ts:93-109 | the result and the rows after an update are those of the update effect |
| Mandalarts.Store.Delete | src/hooks/useMandalartMutations.ts:152-160 | the result and the tables after a delete are those of the delete effect, with the backend's cascade |
| Mandalarts.FillStops | src/hooks/useMandalartMutations.ts:54 | once a pass has thrown, no later sub-goal is inserted |
| Mandalarts.SubGoalRows | src/hooks/useMandalartMutations.ts:40-52 | a fault-free create inserts one sub-goal row per non-blank title |
| Mandalarts.GrownStep | src/hooks/useMandalartMutations.ts:40-78 | the fault-free tables for one more input are one more fault-free loop pass over the tables for the shorter input, and that pass goes on |
| Mandalarts.FillClean | src/hooks/useMandalartMutations.ts:40-78 | with no failing insert, the loop inserts exactly the fault-free sub-goal and action rows |
| Mandalarts.FillSpared | src/hooks/useMandalartMutations.ts:40-78 | a fault aimed at a later pass leaves the earlier passes as they would be with no fault |
| Mandalarts.FillGrows | src/hooks/useMandalartMutations.ts:37-78 | the loop never touches `mandalarts` and only appends to the other tables, so rows inserted before a failure remain |
| Mandalarts.FailAtSubGoal | src/hooks/useMandalartMutations.ts:44-54 | a failing sub-goal insert stops the loop with exactly the earlier passes written |
| Mandalarts.FailAtActions | src/hooks/useMandalartMutations.ts:71-76 | a failing action batch stops the loop, with its own sub-goal row already written |
| Mandalarts.SubGoalRowsElems | src/hooks/useMandalartMutations.ts:44-50 | each sub-goal row carries the mandalart id, the input title and position input index + 1 |
| Mandalarts.SubGoalRowsIncreasing | src/hooks/useMandalartMutations.ts:49 | sub-goal positions rise strictly |
| Mandalarts.SubGoalRowsSlots | src/hooks/useMandalartMutations.ts:40-50 | position i + 1 is taken exactly when input i has a non-blank title, so blank titles leave gaps |
| Mandalarts.ActionBatchElems | src/hooks/useMandalartMutations.ts:57-67 | each action row has title = content, the given type or `routine`, and position = input index + 1 |
| Mandalarts.ActionBatchIncreasing | src/hooks/useMandalartMutations.ts:65 | action positions rise strictly |
| Mandalarts.ActionBatchSlots | src/hooks/useMandalartMutations.ts:57-69 | action position i + 1 is taken exactly when action i has non-blank content |
| Mandalarts.PositionsMayHaveGaps | src/hooks/useMandalartMutations.ts:40-52 | three sub-goals with a blank middle title get positions 1 and 3 |
| Mandalarts.CreateAddsActive | src/hooks/useMandalartMutations.ts:24-37 | a create whose mandalart insert succeeds appends an active `manual` mandalart titled with the centre goal and deactivates nothing, so one more mandalart is active than before |
| Mandalarts.CreateClean | src/hooks/useMandalartMutations.ts:20-81 | a create no insert of which fails returns the new mandalart and inserts exactly the fault-free rows; a failing mandalart insert throws and writes nothing |
| Mandalarts.StepKeepsValid | src/hooks/useMandalartMutations.ts:40-78 | a pass, failing or not, keeps every id and reference below the next id |
| Mandalarts.FillKeepsValid | src/hooks/useMandalartMutations.ts:40-78 | the loop keeps every id and reference below the next id |
| Mandalarts.CreateKeepsValid | src/hooks/useMandalartMutations.ts:20-81 | whatever insert fails, a create keeps every id and reference below the next id |
| Mandalarts.ActionRowsRefer | src/hooks/useMandalartMutations.ts:61-62 | every inserted action row points at one of the inserted sub-goal rows |
| Mandalarts.CreateThenDelete | src/hooks/useMandalartMutations.ts:152-160 | deleting a freshly created mandalart removes every row the create inserted, so the tables are back to where they were except for the id counter |
| Mandalarts.FindSpec | src/hooks/useMandalartMutations.ts:135-136 | `.single()` finds a row exactly when some row has the id, and what it finds has that id |
| Mandalarts.ActivateOnlyChosen | src/hooks/useMandalartMutations.ts:124-139 | when both updates go through, the activation succeeds iff the id exists, and afterwards the chosen mandalart is the only active one among the user's; with an unknown id it fails as not found and leaves all of the user's mandalarts inactive; other users' rows are untouched |
| Mandalarts.ActivateIgnoresBulkFailure | src/hooks/useMandalartMutations.ts:124-128 | the bulk deactivation's error is ignored: if it fails, another active mandalart stays active next to the chosen one |
| Mandalarts.UpdateWritesSupplied | src/hooks/useMandalartMutations.ts:100-108 | an update writes exactly the supplied fields to the rows with that id, leaves every other row alone and succeeds iff the id exists |
| Mandalarts.UpdateIdempotent | src/hooks/useMandalartMutations.ts:100-105 | repeating an update changes nothing more |
| Mandalarts.FindPatched | src/hooks/useMandalartMutations.ts:100-105 | after an update `.single()` returns the patched row |
| Mandalarts.DeleteRemoves | src/hooks/useMandalartMutations.ts:152-160 | a delete removes exactly the rows of that id, their sub-goals and those sub-goals' actions, and keeps every id below the next one |
| Grid.ActionContent | src/screens/mandalart/MandalartDetailScreen.tsx:101 | an action cell shows the action's content, or its title when the content is empty |
| Grid.BuildGrid | src/screens/mandalart/MandalartDetailScreen.tsx:45-108 | the board is a fresh 9×9 array in which every cell holds what the last write to it in the screen's write order leaves, and the initial empty action cell where nothing was written |
| Grid.Draw | src/screens/mandalart/MandalartDetailScreen.tsx:99-103 | one assignment `grid[row][col] = cell` extends the writes the board shows by that write |
| Grid.DrawGroup | src/screens/mandalart/MandalartDetailScreen.tsx:69-107 | one pass of the outer loop adds the sub-goal's cell and then its action writes |
| Grid.DrawActions | src/screens/mandalart/MandalartDetailScreen.tsx:91-106 | the inner loop adds exactly the writes of the first eight actions that do not land on the sub-goal's own cell |
| Grid.FinalSnoc | src/screens/mandalart/MandalartDetailScreen.tsx:99 | a later write to a cell replaces what it held, and leaves every other cell alone |
| Grid.SpotsDistinct | src/screens/mandalart/MandalartDetailScreen.tsx:85-89 | two actions of the same sub-goal never share a cell |
| Grid.ActionsAt | src/screens/mandalart/MandalartDetailScreen.tsx:91-106 | after the first n actions of a sub-goal, action j's cell shows action j if j < n and it was not skipped, and is unchanged otherwise |
| Grid.SpotInBlock | src/screens/mandalart/MandalartDetailScreen.tsx:78-95 | every action of sub-goal i lands in block (⌊i/3⌋, i mod 3), counted row by row |
| Grid.SlotsInMiddle | src/screens/mandalart/MandalartDetailScreen.tsx:58-67 | every sub-goal cell lies in the middle block and none is the centre |
| Grid.SlotsDistinct | src/screens/mandalart/MandalartDetailScreen.tsx:58-67 | different sub-goals have different cells |
| Grid.MiddleSpots | src/screens/mandalart/MandalartDetailScreen.tsx:58-95 | action j of sub-goal 4 lands exactly on the cell of sub-goal j |
| Grid.SkipOnlyMiddle | src/screens/mandalart/MandalartDetailScreen.tsx:97-104 | the self-skip fires only for action 4 of sub-goal 4; for every other sub-goal its own cell lies outside its action block |
| Grid.OnlyOwnBlock | src/screens/mandalart/MandalartDetailScreen.tsx:69-107 | outside the middle block, a cell is written only by the sub-goal whose block it is |
| Grid.CentreShowsGoal | src/screens/mandalart/MandalartDetailScreen.tsx:50-55 | cell (4,4) always shows the centre goal with the mandalart's id, as no later write reaches it |
| Grid.OuterBlockShowsActions | src/screens/mandalart/MandalartDetailScreen.tsx:78-106 | in every outer block i (i ≠ 4), the cell of action j shows action j of sub-goal i when it exists, and is the empty action cell otherwise |
| Grid.UnusedCellsEmpty | src/screens/mandalart/MandalartDetailScreen.tsx:46-48 | block (2,2) and the centre of every outer block are never written and keep `{type 'action', content ''}` |
| Grid.OwnSlot | src/screens/mandalart/MandalartDetailScreen.tsx:69-76 | a sub-goal other than 4 leaves its title on its own cell |
| Grid.MiddleGroupAt | src/screens/mandalart/MandalartDetailScreen.tsx:69-106 | sub-goal 4 writes its title on cell (5,5) and its action k on the cell of sub-goal k (k ≠ 4) |
| Grid.MiddleBlock | src/screens/mandalart/MandalartDetailScreen.tsx:69-106 | the middle block in full: the cells of sub-goals 0–3 show sub-goal 4's actions 0–3 when they exist, (5,5) shows sub-goal 4, and the cells of sub-goals 5–7 show those sub-goals, or sub-goal 4's actions 5–7 when they are missing |
| Wizard.FilledIndicesSpec | src/screens/mandalart/MandalartCreateScreen.tsx:410-412 | the filled sub-goals are exactly the slots whose title is not blank, in increasing slot order, and there are none iff every title is blank |
| Wizard.NextStep | src/screens/mandalart/MandalartCreateScreen.tsx:65-81 | centre→sub-goals exactly when the trimmed centre goal is non-empty (otherwise the centre-goal alert), sub-goals→actions exactly when some sub-goal is non-blank, resetting the cursor to 0; an alert leaves the state unchanged, and the data is never touched |
| Wizard.PrevStep | src/screens/mandalart/MandalartCreateScreen.tsx:83-89 | back never touches the data or the cursor, and leaves the state as it is exactly on the centre step |
| Wizard.PrevUndoesNext | src/screens/mandalart/MandalartCreateScreen.tsx:83-89 | back goes actions→sub-goals→centre, so it undoes a successful next (up to the cursor reset) |
| Wizard.SubGoalChange | src/screens/mandalart/MandalartCreateScreen.tsx:91-95 | a sub-goal edit replaces exactly the one slot and keeps every other slot, the centre goal and the action rows; rewriting a slot's own value changes nothing; well-formed data stays well formed |
| Wizard.ActionChange | src/screens/mandalart/MandalartCreateScreen.tsx:97-109 | an action edit replaces exactly one cell of the sub-goal's row and keeps every other row and cell; a missing row is first created as eight empty strings; rewriting a cell's own value changes nothing |
| Wizard.CursorBack | src/screens/mandalart/MandalartCreateScreen.tsx:429 | the previous chevron moves to cursor − 1 but never below 0 |
| Wizard.CursorForward | src/screens/mandalart/MandalartCreateScreen.tsx:449 | the next chevron moves to cursor + 1 but never past the last filled sub-goal |
| Wizard.Handle | src/screens/mandalart/MandalartCreateScreen.tsx:422-463 | every step change, edit and chevron keeps the data well formed and the cursor within [0, filled − 1] on the actions step, so the actions step always has a current sub-goal |
| Wizard.InitialSound | src/screens/mandalart/MandalartCreateScreen.tsx:38-44 | the wizard opens on the centre step with eight empty slots, in a sound state |
| Wizard.SubGoalsDataCount | src/screens/mandalart/MandalartCreateScreen.tsx:114-133 | save keeps exactly one sub-goal per non-blank slot |
| Wizard.SubGoalsDataAt | src/screens/mandalart/MandalartCreateScreen.tsx:114-133 | the kept sub-goal of a non-blank slot sits at the number of non-blank slots before it |
| Wizard.RankGrows | src/screens/mandalart/MandalartCreateScreen.tsx:114-133 | the number of kept sub-goals before a slot never decreases along the slots |
| Wizard.SavePrep | src/screens/mandalart/MandalartCreateScreen.tsx:111-138 | save alerts (and never creates) exactly when every sub-goal is blank; otherwise it hands over the trimmed centre goal and one sub-goal per filled slot, each filled slot's trimmed title and kept actions at its rank, so slot order is kept |
| Wizard.RanksIncrease | src/screens/mandalart/MandalartCreateScreen.tsx:114-133 | a filled slot lands before every later slot |
| Wizard.ActionsDataClean | src/screens/mandalart/MandalartCreateScreen.tsx:118-123 | every kept action is a trimmed, non-empty content typed `routine` taken from the row, and every non-blank cell of the row is kept |
| Wizard.SubGoalsDataClean | src/screens/mandalart/MandalartCreateScreen.tsx:114-133 | every kept title is non-blank and already trimmed, and every kept action is non-blank |
| Wizard.SourceOf | src/screens/mandalart/MandalartCreateScreen.tsx:114-133 | every kept sub-goal comes from a non-blank slot |
| Wizard.SaveThenCreateHasNoGaps | src/screens/mandalart/MandalartCreateScreen.tsx:111-144 | because save has already dropped the blank sub-goals and actions, create then numbers sub-goals 1..n and each sub-goal's actions 1..m with no gaps |
| Wizard.ConvertOcr | src/screens/mandalart/MandalartCreateScreen.tsx:299-325 | the result always has eight sub-goal slots and a centre goal defaulting to ''; a slot takes an entry's title only for index < 8 and a truthy title; a row of eight exists exactly for such an entry that lists actions, and holds its first eight actions at their own positions; actions of untitled entries are dropped |
| Wizard.ActionRowOf | src/screens/mandalart/MandalartCreateScreen.tsx:312-317 | the row has length 8, and slot j holds action j when there is one, else '' |
| Wizard.OcrStartsSound | src/screens/mandalart/MandalartCreateScreen.tsx:299-325 | converted data starts the wizard soundly on the centre step, every copied title filled and every other slot blank |

## Left out

- The backend (Supabase) is not modelled:
  - Queries, row-level security, react-query wiring and cache invalidation are left out.
  - Each table is a field of an in-memory class. A failing write is a boolean parameter, and so is a failing read where the intro says so. Every other read always succeeds in the model.
  - Authentication: creating and activating a mandalart return `NotAuthenticated` when no user is signed in (`Mandalarts.CreateEffect`, `Mandalarts.ActivateEffect`, `Mandalarts.Store.Create`, `Mandalarts.Store.Activate`). Check and uncheck (`src/hooks/useActionMutations.ts:22-23` and `:127-128`) are modelled for a signed-in user only, so their `User not authenticated` throw is left out, as are the same throws in the read hooks.
- Functions the code imports but that are not part of this model are parameters:
  - `getKSTDate` becomes the local day `today`.
  - `calculateXPWithMultipliers` becomes `xpWith`.
  - `getLevelFromXP` becomes `levelOf`.
  - The app's `getTotalActionsCount` result is an input count.
- Device-local `Date` readings are inputs. This covers `getDay`, `getHours`, `setHours` and the local month, in `getCompletionStats`, `getGoalProgress`, the histograms, the weekend multiplier and the badge rules. Where a local reading is derived from an instant, it uses the fixed +9:00 zone.
- Timezone: date-fns-tz and the IANA database are not modelled. Asia/Seoul is a fixed +9:00 offset, which it has been since 1988.
- Floating point is not modelled:
  - `Math.round` of a float quotient is exact integer round-half-up, which can differ from JavaScript at exact halves, e.g. when the float quotient lands at 14.4999….
  - The progress ratio in `calculateBadgeProgress` uses Dafny reals.
- Ledger.GetUserLevel: the `user_levels` read always succeeds. In the code a read error sends a user who has a row down the insert path. Whether that insert then fails or adds a second row depends on table constraints that are not visible.
- Multipliers.Reported: the `user_bonus_xp` reads and the latest-check read in `xpMultipliers.ts` ignore their errors, so in the code a failed read counts as no row. The model takes these reads as always succeeding. This also holds for Multipliers.CheckComebackBonus, Multipliers.ActivateLevelMilestoneBonus and Multipliers.ActivatePerfectWeekBonus.
- Timezone.GetDayBoundsUTC: `Number` is modelled for its integer literals: surrounding white space, an optional sign, decimal digits, and `0x`/`0o`/`0b` literals. A piece written with a decimal point or an exponent (`'2025-1e1-12'`, `'2025-11.0-12'`) reads as NaN here, so the model throws where JavaScript reads a number, and it does not truncate a fractional piece as `new Date` would.
- Timezone.UserDateTimeToUTC: the same integer-literal `Number` as Timezone.GetDayBoundsUTC, so a date piece with a decimal point or an exponent throws here.
- Levels.LevelFromXp: the logarithmic branch (from 2500 XP) is the uninterpreted `Curve.logStep`, and only ln 1 = 0 and ln x >= 0 are assumed of it. No level is computed above 2500 XP, and monotonicity is not claimed.
- Levels.XpForNextLevel: the exponential branch (level 6 and up) is the uninterpreted `Curve.expStep`, and only e^0 = 1 is assumed of it.
- Streaks: `uniqueDates` and its string sort, and the device-local `Date` arithmetic on those strings (`setDate`, `getTime`, `Math.round` of the day difference), are modelled as day numbers. "Yesterday" is therefore `today - 1`, and consecutive days differ by one.
- Concurrency is not modelled:
  - the `Promise.all` fan-out in `checkAndUnlockAchievements`
  - the read-then-insert race behind the duplicate-check guard
  - overlapping mutations
  - toast timers
- `perfect_week_in_month` reads the user's check instants, the active-action count and the month's first midnight as inputs, in place of one query per week.
- `src/lib/badgeEvaluator.ts` is not part of this model: its decisions are made by server-side procedures that are not visible.
- CheckActions.Latest: on a tie in `checked_at` the model takes the first row in table order, while the backend's order between equal timestamps is unspecified.
- Mandalarts.FindSpec: `.single()` on an id that two rows share would be an error in the backend. The model takes the first such row. Rows made by `Mandalarts.Store.Create` each take a fresh id from the counter.
- `updated_at` and the row ids the backend generates for sub-goals and actions are not modelled. Action rows carry no id of their own.
- Wizard.SubGoalChange: `handleSubGoalChange` is modelled for an index below the number of slots. The screen only calls it with 0..7.
- Wizard: the wizard only offers an event where the screen shows its control. Taps on hidden controls, text-input focus, navigation and alerts beyond the notice returned are left out.
- Wizard.ConvertOcr: the OCR and text-analysis network calls that produce the result are left out.
- Patterns.DailyCompletionData: each entry carries the calendar date. The `yyyy-MM-dd` key text is not built, and `Patterns.DateStringsDistinct` shows that the key is one-to-one on days.
- UI presentation is left out: components, navigation, notifications and the report/diagnosis hooks.
