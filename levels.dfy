/** The level curve of the XP system: the level a total XP reaches, the XP
    figure shown as the next level's target, and the progress bar between them. */
module Levels {
  import opened Common

  /** The two transcendental steps of the curve, which the model does not
      compute: `logStep(a)` stands for floor(8 * ln(a / 150 + 1)) and
      `expStep(n)` for floor((e^(n / 8) - 1) * 150). */
  datatype Curve = Curve(logStep: int -> int, expStep: int -> int)

  /** What is known of the two steps: ln 1 = 0, e^0 = 1, and ln is not
      negative from 1 on. */
  ghost predicate Sound(c: Curve)
  {
    c.logStep(0) == 0 && c.expStep(0) == 0 && forall a :: a >= 0 ==> c.logStep(a) >= 0
  }

  function Pow10(a: int): int
  {
    var a2 := a * a;
    var a5 := a2 * a2 * a;
    a5 * a5
  }

  function Pow17(k: int): int
  {
    var k2 := k * k;
    var k4 := k2 * k2;
    var k8 := k4 * k4;
    k8 * k8 * k
  }

  const E20: int := 100000000000000000000

  /** floor((a / 100) ^ (1 / 1.7)) for 0 <= a < 2100, written by the first
      `a` of each step. */
  function PowerStep(a: int): (k: int)
    requires 0 <= a < 2100
    ensures 0 <= k <= 5
  {
    if a < 100 then 0
    else if a < 325 then 1
    else if a < 648 then 2
    else if a < 1056 then 3
    else if a < 1543 then 4
    else 5
  }

  /** floor(n ^ 1.7 * 100) for the three exponents the curve uses. */
  function PowerXp(n: int): (m: int)
    requires 0 <= n <= 2
    ensures m >= 0
  {
    if n == 0 then 0 else if n == 1 then 100 else 324
  }

  /** `calculateLevelFromXP`: 1 below 100 XP, 2 below 400, the power branch
      below 2500 and the logarithmic branch from there on. */
  function LevelFromXp(c: Curve, xp: int): (level: int)
    ensures xp < 100 ==> level == 1
    ensures 100 <= xp < 400 ==> level == 2
    ensures 400 <= xp < 2500 ==> 3 <= level <= 8
    ensures 400 <= xp < 500 ==> level == 3
    ensures Sound(c) && xp >= 2500 ==> level >= 6
    ensures xp < 2500 ==> 1 <= level <= 8
  {
    if xp < 100 then 1
    else if xp < 400 then 2
    else if xp < 2500 then PowerStep(xp - 400) + 3
    else c.logStep(xp - 2500) + 6
  }

  /** `getXPForNextLevel`: the XP the source displays as the target of the
      next level. */
  function XpForNextLevel(c: Curve, level: int): (xp: int)
    ensures level <= 5 ==> 0 <= xp <= 724
    ensures Sound(c) && level == 6 ==> xp == 2500
  {
    if level <= 0 then 0
    else if level == 1 then 100
    else if level == 2 then 400
    else if level <= 5 then PowerXp(level - 3) + 400
    else c.expStep(level - 6) + 2500
  }

  /** A JavaScript number as far as the progress bar needs one: a finite
      integer, an infinity or NaN. */
  datatype Num = Finite(n: int) | PosInfinity | NegInfinity | NaN

  /** `Math.round(p / d * 100)`, division by zero included. */
  function RoundedPercent(p: int, d: int): (r: Num)
    ensures d == 0 <==> !r.Finite?
    ensures d > 0 ==> 2 * r.n * d <= 200 * p + d < 2 * r.n * d + 2 * d
    ensures d < 0 ==> 2 * r.n * d >= 200 * p + d > 2 * r.n * d + 2 * d
  {
    if d > 0 then Finite(RoundPercent(p, d))
    else if d < 0 then Finite(RoundPercent(-p, -d))
    else if p > 0 then PosInfinity
    else if p < 0 then NegInfinity
    else NaN
  }

  datatype Progress = Progress(currentLevel: int, currentLevelXp: int, nextLevelXp: int,
                               progressXp: int, progressPercentage: Num)

  /** `getXPProgress`. */
  function XpProgress(c: Curve, xp: int): (p: Progress)
    ensures p.currentLevel == LevelFromXp(c, xp)
    ensures p.progressXp == xp - p.currentLevelXp
    ensures p.progressPercentage.Finite? <==> p.nextLevelXp != p.currentLevelXp
  {
    var level := LevelFromXp(c, xp);
    var current := XpForNextLevel(c, level - 1);
    var next := XpForNextLevel(c, level);
    Progress(level, current, next, xp - current, RoundedPercent(xp - current, next - current))
  }

  // ---------------------------------------------------------------------
  // The exact meaning of the power branch.

  lemma MulMono(a: int, b: int, c: int, d: int)
    requires 0 <= a <= b && 0 <= c <= d
    ensures a * c <= b * d
  {
  }

  lemma Pow10Mono(a: int, b: int)
    requires 0 <= a <= b
    ensures Pow10(a) <= Pow10(b)
  {
    var a2, b2 := a * a, b * b;
    MulMono(a, b, a, b);
    var a4, b4 := a2 * a2, b2 * b2;
    MulMono(a2, b2, a2, b2);
    var a5, b5 := a4 * a, b4 * b;
    MulMono(a4, b4, a, b);
    MulMono(a5, b5, a5, b5);
    assert Pow10(a) == a5 * a5 && Pow10(b) == b5 * b5;
  }

  /** `PowerStep(a)` is the integer k with k^1.7 <= a / 100 < (k + 1)^1.7,
      that is k^17 * 100^10 <= a^10 < (k + 1)^17 * 100^10. */
  lemma {:induction false} PowerStepExact(a: int)
    requires 0 <= a < 2100
    ensures Pow17(PowerStep(a)) * E20 <= Pow10(a) < Pow17(PowerStep(a) + 1) * E20
  {
    var k := PowerStep(a);
    var lo := [0, 100, 325, 648, 1056, 1543][k];
    var hi := [99, 324, 647, 1055, 1542, 2099][k];
    assert lo <= a <= hi;
    Pow10Mono(lo, a);
    Pow10Mono(a, hi);
    Thresholds();
  }

  /** The step thresholds against the powers they stand for. */
  lemma Thresholds()
    ensures Pow10(99) < Pow17(1) * E20 <= Pow10(100)
    ensures Pow10(324) < Pow17(2) * E20 <= Pow10(325)
    ensures Pow10(647) < Pow17(3) * E20 <= Pow10(648)
    ensures Pow10(1055) < Pow17(4) * E20 <= Pow10(1056)
    ensures Pow10(1542) < Pow17(5) * E20 <= Pow10(1543)
    ensures Pow10(2099) < Pow17(6) * E20
  {
  }

  /** `PowerXp(n)` is the integer m with m <= 100 * n^1.7 < m + 1. */
  lemma PowerXpExact(n: int)
    requires 0 <= n <= 2
    ensures Pow10(PowerXp(n)) <= Pow17(n) * E20 < Pow10(PowerXp(n) + 1)
  {
    if n == 2 {
      assert Pow10(324) <= Pow17(2) * E20 < Pow10(325);
    }
  }

  // ---------------------------------------------------------------------
  // What the curve does, against what its comments say.

  /** Below 2500 XP the level never falls as XP grows. */
  lemma MonotoneBelow2500(c: Curve, x: int, y: int)
    requires x <= y < 2500
    ensures LevelFromXp(c, x) <= LevelFromXp(c, y)
  {
    if x >= 400 {
      assert PowerStep(x - 400) <= PowerStep(y - 400);
    }
  }

  /** The power branch climbs to level 8 just below 2500 XP and the
      logarithmic branch starts again at 6: the curve is not monotone. */
  lemma DropAt2500(c: Curve)
    requires Sound(c)
    ensures LevelFromXp(c, 2499) == 8 && LevelFromXp(c, 2500) == 6
    ensures LevelFromXp(c, 2499) > LevelFromXp(c, 2500)
  {
    assert PowerStep(2099) == 5;
  }

  /** `getXPForNextLevel(n)` is the first XP of level n itself, not of level
      n + 1: for levels 3 and 4 it lands exactly on the level's start, and
      for 5 (floor instead of ceiling) one XP short of it. */
  lemma NextLevelOffByOne(c: Curve)
    ensures XpForNextLevel(c, 0) == 0 && XpForNextLevel(c, 1) == 100
    ensures XpForNextLevel(c, 2) == 400 && XpForNextLevel(c, 3) == 400
    ensures XpForNextLevel(c, 4) == 500 && XpForNextLevel(c, 5) == 724
    ensures LevelFromXp(c, XpForNextLevel(c, 3)) == 3
    ensures LevelFromXp(c, XpForNextLevel(c, 4)) == 4
    ensures LevelFromXp(c, XpForNextLevel(c, 5)) == 4
    ensures LevelFromXp(c, XpForNextLevel(c, 5) + 1) == 5
  {
  }

  /** Throughout level 3's first hundred XP the bar's span is zero, so its
      percentage is a division by zero: NaN at 400 and Infinity above. */
  lemma ZeroSpanAtLevel3(c: Curve, xp: int)
    requires 400 <= xp < 500
    ensures XpProgress(c, xp).currentLevelXp == XpProgress(c, xp).nextLevelXp == 400
    ensures XpProgress(c, xp).progressPercentage == if xp == 400 then NaN else PosInfinity
  {
  }
}
