/**
  The level formula of the engine: the level of a record is
  floor(0.1 * sqrt(xp)), read over the reals, i.e. the largest n with
  10 * n <= sqrt(xp), i.e. the largest n with 100 * n * n <= xp.
  LevelXp gives the experience at which each level starts, one level at
  a time; XpForLevel is the static helper that computes it as a square.
 */
module Leveling {
  import opened Wrappers

  /**
    The experience at which `level` starts: reaching level n from level
    n - 1 takes 200 n - 100 more points, so LevelXp(n) = 100 n^2.
   */
  function LevelXp(level: nat): nat {
    if level == 0 then 0 else LevelXp(level - 1) + 200 * level - 100
  }

  /** The step-by-step definition is the square the engine computes. */
  lemma {:induction false} LevelXpSquare(level: nat)
    ensures LevelXp(level) == level * level * 100
  {
    if level > 0 {
      LevelXpSquare(level - 1);
      assert (level - 1) * (level - 1) * 100 == level * level * 100 - 200 * level + 100;
    }
  }

  /** A higher level starts strictly later. */
  lemma {:induction false} LevelXpIncreasing(a: nat, b: nat)
    requires a < b
    ensures LevelXp(a) < LevelXp(b)
  {
    if a + 1 < b {
      LevelXpIncreasing(a, b - 1);
    }
  }

  /** Levels and their starting experience are ordered alike. */
  lemma LevelXpOrder(a: nat, b: nat)
    ensures LevelXp(a) < LevelXp(b) <==> a < b
  {
    if a < b {
      LevelXpIncreasing(a, b);
    } else if b < a {
      LevelXpIncreasing(b, a);
    }
  }

  /** The level reached with `xp` experience points: the level whose band contains xp. */
  function LevelOf(xp: nat): nat {
    if xp == 0 then 0
    else
      var p := LevelOf(xp - 1);
      if LevelXp(p + 1) <= xp then p + 1 else p
  }

  /** LevelOf(xp) is the level whose band [LevelXp(n), LevelXp(n + 1)) contains xp. */
  lemma {:induction false} LevelOfBand(xp: nat)
    ensures LevelXp(LevelOf(xp)) <= xp < LevelXp(LevelOf(xp) + 1)
  {
    if xp > 0 {
      LevelOfBand(xp - 1);
    }
  }

  /** LevelOf is floor(0.1 * sqrt(xp)): the largest n with 100 n^2 <= xp. */
  lemma LevelOfIsRootBand(xp: nat)
    ensures LevelOf(xp) * LevelOf(xp) * 100 <= xp < (LevelOf(xp) + 1) * (LevelOf(xp) + 1) * 100
  {
    LevelOfBand(xp);
    LevelXpSquare(LevelOf(xp));
    LevelXpSquare(LevelOf(xp) + 1);
  }

  /** The level is the only n whose band [LevelXp(n), LevelXp(n + 1)) contains xp. */
  lemma LevelOfUnique(xp: nat, n: nat)
    requires LevelXp(n) <= xp < LevelXp(n + 1)
    ensures LevelOf(xp) == n
  {
    var m := LevelOf(xp);
    LevelOfBand(xp);
    LevelXpOrder(m, n + 1);
    LevelXpOrder(n, m + 1);
  }

  /** Setting a level and deriving it back gives the same level. */
  lemma LevelOfLevelXp(n: nat)
    ensures LevelOf(LevelXp(n)) == n
  {
    LevelOfUnique(LevelXp(n), n);
  }

  /** More experience never gives a lower level. */
  lemma LevelOfMonotone(a: nat, b: nat)
    requires a <= b
    ensures LevelOf(a) <= LevelOf(b)
  {
    LevelOfBand(a);
    LevelOfBand(b);
    LevelXpOrder(LevelOf(a), LevelOf(b) + 1);
  }

  /** Experience needed for `level`; a level below 1 is refused. */
  function XpForLevel(level: int): (r: Result<nat>)
    ensures r.Err? <==> level <= 0
    ensures r.Err? ==> r.error == RangeError("A level must be greater than 0")
    ensures r.Ok? ==> r.value == LevelXp(level) && LevelOf(r.value) == level
    ensures r.Ok? ==> forall xp: nat :: LevelOf(xp) >= level ==> r.value <= xp
  {
    if level <= 0 then Err(RangeError("A level must be greater than 0"))
    else
      LevelXpSquare(level);
      LevelOfLevelXp(level);
      LeastXpForLevel(level);
      Ok(level * level * 100)
  }

  /** LevelXp(level) is the least experience that reaches `level`. */
  lemma LeastXpForLevel(level: nat)
    ensures forall xp: nat :: LevelOf(xp) >= level ==> LevelXp(level) <= xp
  {
    forall xp: nat | LevelOf(xp) >= level
      ensures LevelXp(level) <= xp
    {
      LevelOfBand(xp);
      LevelXpOrder(LevelOf(xp), level);
    }
  }
}
