/** The progression part of the user document: level, experience and the two
    counters, the experience curve, the level-up loop and the colour band of
    a level. */
module UserModel {
  import opened Base

  const MinLevel := 1
  const MaxLevel := 50
  const BaseExperience := 100

  /** The stored user record (profile fields that no core operation reads or
      writes are kept as name and email only). */
  datatype UserData = UserData(
    name: string,
    email: string,
    level: int,
    experience: nat,
    completedTrades: nat,
    positiveReviews: nat)

  /** The schema bounds on the progression fields; the counters and the
      experience are naturals by their type. */
  predicate UserValid(u: UserData) {
    MinLevel <= u.level <= MaxLevel
  }

  /** What `save` validates of a user document: the required `name` and
      `email` (Mongoose refuses an empty string for a required string) and
      the level bounds. A user created by the text-message sign-up has
      neither name nor email and so fails it. */
  predicate UserSchemaValid(u: UserData) {
    u.name != "" && u.email != "" && UserValid(u)
  }

  /** A user record as sign-up creates it: the schema defaults. */
  function NewUser(name: string, email: string): UserData {
    UserData(name, email, 1, 0, 0, 0)
  }

  lemma NewUserIsValidAndSettled(name: string, email: string)
    ensures UserValid(NewUser(name, email))
    ensures UserSchemaValid(NewUser(name, email)) <==> name != "" && email != ""
    ensures NewUser(name, email).experience < RequiredExperience(NewUser(name, email).level)
    ensures NewUser(name, email).completedTrades == 0 && NewUser(name, email).positiveReviews == 0
  {
    assert RequiredExperience(1) == 100 by { RequiredAtFirstLevels(); }
  }

  // ---------------------------------------------------------------------
  // The experience curve

  function Pow(b: nat, e: nat): (r: nat)
    decreases e
  {
    if e == 0 then 1 else b * Pow(b, e - 1)
  }

  lemma {:induction false} PowPositive(b: nat, e: nat)
    requires b > 0
    ensures Pow(b, e) > 0
  {
    if e > 0 { PowPositive(b, e - 1); }
  }

  lemma {:induction false} ThreeDominatesTwo(e: nat)
    ensures Pow(3, e) >= Pow(2, e) > 0
  {
    if e > 0 { ThreeDominatesTwo(e - 1); }
  }

  /** The experience needed to leave `level`: floor(100 * 1.5^(level-1)),
      computed exactly as 100 * 3^(level-1) div 2^(level-1). */
  function RequiredExperience(level: int): (r: nat)
    requires level >= 1
    ensures r >= BaseExperience
  {
    ThreeDominatesTwo(level - 1);
    DivLowerBound(100 * Pow(3, level - 1), 100, Pow(2, level - 1));
    (100 * Pow(3, level - 1)) / Pow(2, level - 1)
  }

  lemma DivLowerBound(a: int, b: int, c: int)
    requires c > 0 && a >= b * c
    ensures a / c >= b
  {
    var q, m := a / c, a % c;
    assert a == q * c + m && 0 <= m < c;
    if q < b {
      MulMonotone(q, b - 1, c);
      assert false;
    }
  }

  lemma {:induction false} MulMonotone(x: int, y: int, c: nat)
    requires x <= y
    ensures x * c <= y * c
    decreases c
  {
    if c > 0 {
      MulMonotone(x, y, c - 1);
      assert x * c == x * (c - 1) + x && y * c == y * (c - 1) + y;
    }
  }

  function RealPow(x: real, e: nat): real
    decreases e
  {
    if e == 0 then 1.0 else x * RealPow(x, e - 1)
  }

  lemma {:induction false} RealPowOfRatio(e: nat)
    ensures RealPow(1.5, e) * (Pow(2, e) as real) == Pow(3, e) as real
  {
    if e > 0 {
      RealPowOfRatio(e - 1);
      calc {
        RealPow(1.5, e) * (Pow(2, e) as real);
        1.5 * RealPow(1.5, e - 1) * (2.0 * (Pow(2, e - 1) as real));
        3.0 * (RealPow(1.5, e - 1) * (Pow(2, e - 1) as real));
        Pow(3, e) as real;
      }
    }
  }

  /** Euclidean division by a positive divisor is the floor of the real
      quotient. */
  lemma FloorOfQuotient(n: nat, d: nat, x: real)
    requires d > 0
    requires x * (d as real) == n as real
    ensures (n / d) as real <= x < (n / d + 1) as real
  {
    var q, m := n / d, n % d;
    assert n == q * d + m && 0 <= m < d;
    var dr, qr := d as real, q as real;
    assert qr * dr + (m as real) == n as real;
    if x < qr {
      RealMulStrict(x, qr, dr);
      assert false;
    }
    if x >= qr + 1.0 {
      RealMulMonotone(qr + 1.0, x, dr);
      assert false;
    }
  }

  lemma RealMulStrict(a: real, b: real, c: real)
    requires c > 0.0 && a < b
    ensures a * c < b * c
  {
  }

  lemma RealMulMonotone(a: real, b: real, c: real)
    requires c > 0.0 && a <= b
    ensures a * c <= b * c
  {
  }

  /** The integer formula is exactly the floor of the exact real value
      100 * 1.5^(level-1), which `getRequiredExperience` approximates with
      `Math.pow` in floating point. */
  lemma RequiredExperienceIsFloor(level: int)
    requires level >= 1
    ensures (RequiredExperience(level) as real) <= 100.0 * RealPow(1.5, level - 1)
    ensures 100.0 * RealPow(1.5, level - 1) < (RequiredExperience(level) + 1) as real
  {
    var e := level - 1;
    var p3, d := Pow(3, e), Pow(2, e);
    ThreeDominatesTwo(e);
    RealPowOfRatio(e);
    var y := RealPow(1.5, e);
    assert y * (d as real) == p3 as real;
    assert (100.0 * y) * (d as real) == (100 * p3) as real;
    FloorOfQuotient(100 * p3, d, 100.0 * y);
  }

  /** Each level needs at least 50 more experience than the one before. */
  lemma RequiredExperienceGrows(level: int)
    requires level >= 1
    ensures RequiredExperience(level + 1) >= RequiredExperience(level) + 50
  {
    var e := level - 1;
    var p3, d := Pow(3, e), Pow(2, e);
    ThreeDominatesTwo(e);
    var n := 100 * p3;
    var q := n / d;
    assert q == RequiredExperience(level) && q >= 100;
    assert RequiredExperience(level + 1) == (3 * n) / (2 * d) by {
      assert Pow(3, e + 1) == 3 * p3 && Pow(2, e + 1) == 2 * d;
      assert 100 * (3 * p3) == 3 * n;
    }
    GrowthStep(n, d, q);
    DivLowerBound(3 * n, q + 50, 2 * d);
  }

  lemma GrowthStep(n: nat, d: nat, q: nat)
    requires d > 0 && q == n / d && q >= 100
    ensures 3 * n >= (q + 50) * (2 * d)
  {
    var m := n % d;
    assert n == q * d + m && 0 <= m;
    assert q * d >= 100 * d;
    assert (q + 50) * (2 * d) == 2 * (q * d) + 100 * d;
  }

  /** The curve is strictly increasing. */
  lemma {:induction false} RequiredExperienceIncreasing(a: int, b: int)
    requires 1 <= a < b
    ensures RequiredExperience(a) < RequiredExperience(b)
    decreases b - a
  {
    RequiredExperienceGrows(a);
    if a + 1 < b { RequiredExperienceIncreasing(a + 1, b); }
  }

  lemma RequiredAtFirstLevels()
    ensures RequiredExperience(1) == 100
    ensures RequiredExperience(2) == 150
  {
    assert Pow(3, 1) == 3 && Pow(2, 1) == 2;
  }

  // ---------------------------------------------------------------------
  // The level-up loop of addExperience, as a function

  datatype Progress = Progress(level: int, experience: nat)

  /** Where the level-up loop ends when it starts at `level` with
      `experience` accumulated: while the experience reaches the current
      requirement, pay it and advance the level, pinned at 50. */
  function Settle(level: int, experience: nat): (p: Progress)
    requires MinLevel <= level <= MaxLevel
    ensures MinLevel <= p.level <= MaxLevel
    ensures level <= p.level
    ensures p.experience <= experience
    ensures p.experience < RequiredExperience(p.level)
    decreases experience
  {
    var req := RequiredExperience(level);
    if experience < req then Progress(level, experience)
    else Settle(Min(MaxLevel, level + 1), experience - req)
  }

  /** How many times the loop body runs. */
  function LevelUps(level: int, experience: nat): nat
    requires MinLevel <= level <= MaxLevel
    decreases experience
  {
    var req := RequiredExperience(level);
    if experience < req then 0
    else 1 + LevelUps(Min(MaxLevel, level + 1), experience - req)
  }

  /** The experience paid by `n` passes through the loop body starting at
      `level`: the requirements of the levels passed through in turn. */
  function Spent(level: int, n: nat): nat
    requires MinLevel <= level <= MaxLevel
    decreases n
  {
    if n == 0 then 0
    else RequiredExperience(level) + Spent(Min(MaxLevel, level + 1), n - 1)
  }

  /** Spent unrolled at the end instead of the front; this is the form a
      loop that runs one more pass needs. */
  lemma {:induction false} SpentOneMore(level: int, n: nat)
    requires MinLevel <= level <= MaxLevel
    ensures Spent(level, n + 1) == Spent(level, n) + RequiredExperience(Min(MaxLevel, level + n))
    decreases n
  {
    if n > 0 {
      SpentOneMore(Min(MaxLevel, level + 1), n - 1);
      assert Min(MaxLevel, Min(MaxLevel, level + 1) + (n - 1)) == Min(MaxLevel, level + n);
    }
  }

  /** Conservation: the experience put in equals the experience left plus
      the requirements of every level passed through, and the final level is
      the start level advanced once per pass, capped at 50. */
  lemma {:induction false} SettleConserves(level: int, experience: nat)
    requires MinLevel <= level <= MaxLevel
    ensures experience == Settle(level, experience).experience + Spent(level, LevelUps(level, experience))
    ensures Settle(level, experience).level == Min(MaxLevel, level + LevelUps(level, experience))
    decreases experience
  {
    var req := RequiredExperience(level);
    if experience >= req {
      var next := Min(MaxLevel, level + 1);
      SettleConserves(next, experience - req);
      assert Min(MaxLevel, next + LevelUps(next, experience - req))
          == Min(MaxLevel, level + LevelUps(level, experience));
    }
  }

  /** At level 50 the loop keeps paying the level-50 requirement: the surplus
      is reduced modulo that requirement rather than kept. */
  lemma SettleAtCap(experience: nat)
    ensures Settle(MaxLevel, experience) == Progress(MaxLevel, experience % RequiredExperience(MaxLevel))
  {
    SettleAtTop(MaxLevel, experience);
  }

  lemma {:induction false} SettleAtTop(top: int, experience: nat)
    requires top == MaxLevel
    ensures Settle(top, experience) == Progress(top, experience % RequiredExperience(top))
    decreases experience
  {
    var req := RequiredExperience(top);
    if experience < req {
      DivModUnique(experience, req, 0, experience);
    } else {
      assert Settle(top, experience) == Settle(top, experience - req);
      SettleAtTop(top, experience - req);
      ModAfterSubtract(experience, req);
    }
  }

  lemma ModAfterSubtract(a: int, b: int)
    requires 0 < b <= a
    ensures (a - b) % b == a % b
  {
    var q, m := (a - b) / b, (a - b) % b;
    assert a - b == q * b + m && 0 <= m < b;
    assert a == (q + 1) * b + m;
    DivModUnique(a, b, q + 1, m);
  }

  /** Quotient and remainder are determined by a decomposition. */
  lemma DivModUnique(a: int, b: int, k: int, m: int)
    requires b > 0 && 0 <= m < b && a == k * b + m
    ensures a / b == k && a % b == m
  {
    var k', m' := a / b, a % b;
    assert a == k' * b + m' && 0 <= m' < b;
    assert (k' - k) * b == m - m';
    if k' > k {
      MulMonotone(1, k' - k, b);
      assert false;
    } else if k' < k {
      MulMonotone(1, k - k', b);
      assert false;
    }
  }

  /** Experience already below the requirement is left alone. */
  lemma SettleSettled(level: int, experience: nat)
    requires MinLevel <= level <= MaxLevel
    requires experience < RequiredExperience(level)
    ensures Settle(level, experience) == Progress(level, experience)
  {
  }

  lemma SettleExamples()
    ensures Settle(1, 100) == Progress(2, 0)
    ensures Settle(1, 249) == Progress(2, 149)
  {
    RequiredAtFirstLevels();
    assert Settle(1, 100) == Settle(2, 0);
    assert Settle(1, 249) == Settle(2, 149);
  }

  // ---------------------------------------------------------------------
  // The level colour

  const LevelColors: seq<string> := [
    "#808080", "#00ff00", "#0000ff", "#800080", "#ff00ff",
    "#ff0000", "#ffa500", "#ffff00", "#00ffff", "#ffd700"]

  /** The colour band of a level: bands are five levels wide, starting at
      level 1, and every level from 46 on is in the last band. */
  function LevelColorIndex(level: int): (i: nat)
    requires level >= 1
    ensures i < |LevelColors|
    ensures 5 * i + 1 <= level
    ensures i < 9 ==> level <= 5 * i + 5
  {
    Min(9, (level - 1) / 5)
  }

  function LevelColor(level: int): (c: string)
    requires level >= 1
    ensures c in LevelColors
  {
    LevelColors[LevelColorIndex(level)]
  }

  lemma LevelColorIndexMonotone(a: int, b: int)
    requires 1 <= a <= b
    ensures LevelColorIndex(a) <= LevelColorIndex(b)
  {
  }

  /** Levels 1 to 5 share grey (band 0), level 6 opens green (band 1) and
      levels 46 to 50 are gold (band 9). */
  lemma LevelColorBands(level: int)
    requires MinLevel <= level <= MaxLevel
    ensures LevelColorIndex(level) == 0 <==> level <= 5
    ensures LevelColorIndex(level) == 1 <==> 6 <= level <= 10
    ensures LevelColorIndex(level) == 9 <==> level >= 46
    ensures level <= 5 ==> LevelColor(level) == "#808080"
    ensures 6 <= level <= 10 ==> LevelColor(level) == "#00ff00"
    ensures level >= 46 ==> LevelColor(level) == "#ffd700"
  {
  }

  lemma GreyEndsAtFive()
    ensures LevelColor(1) == LevelColor(5)
    ensures LevelColor(5) != LevelColor(6)
  {
    LevelColorBands(5);
    LevelColorBands(6);
    assert "#808080"[1] != "#00ff00"[1];
  }

  // ---------------------------------------------------------------------
  // The user document

  /** A user document as loaded from the store; route code mutates its fields
      in place and saves it back. */
  class UserDoc {
    var name: string
    var email: string
    var level: int
    var experience: nat
    var completedTrades: nat
    var positiveReviews: nat

    ghost predicate Valid()
      reads this
    {
      MinLevel <= level <= MaxLevel
    }

    function Data(): (u: UserData)
      reads this
      ensures Valid() <==> UserValid(u)
    {
      UserData(name, email, level, experience, completedTrades, positiveReviews)
    }

    constructor Load(u: UserData)
      ensures Data() == u
    {
      name, email := u.name, u.email;
      level, experience := u.level, u.experience;
      completedTrades, positiveReviews := u.completedTrades, u.positiveReviews;
    }

    /** `save`: the document is written when it passes the schema. */
    method Save() returns (saved: bool)
      ensures saved <==> UserSchemaValid(Data())
    {
      saved := name != "" && email != "" && MinLevel <= level <= MaxLevel;
    }

    /** addExperience: add `amount`, then level up while the experience
        reaches the current level's requirement. */
    method AddExperience(amount: nat)
      requires Valid()
      modifies this
      ensures Valid()
      ensures Progress(level, experience) == Settle(old(level), old(experience) + amount)
      ensures old(level) <= level && experience < RequiredExperience(level)
      ensures name == old(name) && email == old(email)
      ensures completedTrades == old(completedTrades) && positiveReviews == old(positiveReviews)
    {
      experience := experience + amount;
      ghost var start, total := level, experience;
      ghost var passes: nat := 0;
      while experience >= RequiredExperience(level)
        invariant MinLevel <= start <= level <= MaxLevel
        invariant level == Min(MaxLevel, start + passes)
        invariant total == experience + Spent(start, passes)
        invariant Settle(level, experience) == Settle(start, total)
        invariant name == old(name) && email == old(email)
        invariant completedTrades == old(completedTrades) && positiveReviews == old(positiveReviews)
        decreases experience
      {
        SpentOneMore(start, passes);
        experience := experience - RequiredExperience(level);
        level := Min(MaxLevel, level + 1);
        passes := passes + 1;
      }
    }
  }
}
