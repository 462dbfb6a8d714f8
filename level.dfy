/** Resolving a point total to its tier of the ladder (utils/level.ts). */
module Level {
  import opened Types

  /** `i` is the position the resolver settles on in `t` for `points`: an index of the
      table (0 for an empty one), either the first entry or one whose threshold is
      reached, with no later entry reached. */
  ghost predicate IsLevelIndex(t: seq<LevelInfo>, points: int, i: nat) {
    && (if t == [] then i == 0 else i < |t|)
    && (i == 0 || t[i].minPoints <= points)
    && (forall j :: i < j < |t| ==> points < t[j].minPoints)
  }

  /** The last entry of `t` whose threshold is at most `points`, or the first entry when
      none is. */
  function LevelIndex(t: seq<LevelInfo>, points: int): (i: nat)
    ensures IsLevelIndex(t, points, i)
    decreases |t|
  {
    if t == [] then 0
    else if t[|t| - 1].minPoints <= points then |t| - 1
    else LevelIndex(t[..|t| - 1], points)
  }

  /** The tier of the compiled ladder for `points`: a tier of the ladder, the first one or
      one whose threshold is reached, with the greatest threshold among those reached. */
  function UserLevel(points: int): (level: LevelInfo)
    ensures level in LEVELS
    ensures level == LEVELS[0] || level.minPoints <= points
    ensures forall i :: 0 <= i < |LEVELS| && LEVELS[i].minPoints <= points ==> LEVELS[i].minPoints <= level.minPoints
  {
    LevelsTableWellFormed();
    var k := LevelIndex(LEVELS, points);
    assert forall i :: 0 <= i < |LEVELS| && LEVELS[i].minPoints <= points ==> i <= k;
    LEVELS[k]
  }

  /** getUserLevel: start from the first tier and take every tier, in table order, whose
      threshold the points reach. */
  method GetUserLevel(points: int) returns (level: LevelInfo)
    ensures level == UserLevel(points)
    ensures level in LEVELS
  {
    level := LEVELS[0];
    for k := 0 to |LEVELS|
      invariant level == LEVELS[LevelIndex(LEVELS[..k], points)]
    {
      assert LEVELS[..k + 1][..k] == LEVELS[..k];
      if points >= LEVELS[k].minPoints {
        level := LEVELS[k];
      }
    }
    assert LEVELS[..|LEVELS|] == LEVELS;
  }

  /** The characterisation pins down a single index. */
  lemma LevelIndexUnique(t: seq<LevelInfo>, points: int, i: nat, k: nat)
    requires IsLevelIndex(t, points, i) && IsLevelIndex(t, points, k)
    ensures i == k
  {
  }

  /** More points never resolve to an earlier tier, whatever the table. */
  lemma LevelIndexMonotone(t: seq<LevelInfo>, p1: int, p2: int)
    requires p1 <= p2
    ensures LevelIndex(t, p1) <= LevelIndex(t, p2)
  {
  }

  /** Points below the first threshold (on the compiled ladder: negative points) resolve
      to the first tier. */
  lemma BelowFloorIsFirstTier(t: seq<LevelInfo>, points: int)
    requires t != [] && Ascending(t)
    requires points < t[0].minPoints
    ensures LevelIndex(t, points) == 0
  {
  }

  /** On a well-formed ladder and for points >= 0, the resolved tier is the entry with the
      greatest threshold at most `points`: its own threshold is reached, every reached
      threshold is no larger, and every larger threshold is out of reach. */
  lemma GreatestReachedThreshold(t: seq<LevelInfo>, points: int)
    requires WellFormedTable(t)
    requires 0 <= points
    ensures t[LevelIndex(t, points)].minPoints <= points
    ensures forall j :: 0 <= j < |t| && t[j].minPoints <= points ==>
      t[j].minPoints <= t[LevelIndex(t, points)].minPoints
    ensures forall j :: 0 <= j < |t| && t[LevelIndex(t, points)].minPoints < t[j].minPoints ==>
      points < t[j].minPoints
  {
    var i := LevelIndex(t, points);
    forall j | 0 <= j < |t| && t[j].minPoints <= points
      ensures t[j].minPoints <= t[i].minPoints
    {
      assert j <= i;
    }
  }

  /** Negative points give the floor tier "Newbie", the same tier as zero points. */
  lemma NegativePointsAreNewbie(points: int)
    requires points < 0
    ensures UserLevel(points) == LEVELS[0] == UserLevel(0)
    ensures UserLevel(points).name == "Newbie"
  {
    LevelsTableWellFormed();
    BelowFloorIsFirstTier(LEVELS, points);
    assert IsLevelIndex(LEVELS, 0, 0);
    LevelIndexUnique(LEVELS, 0, 0, LevelIndex(LEVELS, 0));
  }

  /** The tier bands of the compiled ladder. */
  lemma UserLevelBands(points: int)
    ensures points < 50 ==> UserLevel(points).name == "Newbie"
    ensures 50 <= points < 150 ==> UserLevel(points).name == "Explorer"
    ensures 150 <= points < 300 ==> UserLevel(points).name == "Trendsetter"
    ensures 300 <= points < 500 ==> UserLevel(points).name == "Influencer"
    ensures 500 <= points ==> UserLevel(points).name == "Local Legend"
  {
    var i := if points < 50 then 0 else if points < 150 then 1
      else if points < 300 then 2 else if points < 500 then 3 else 4;
    assert IsLevelIndex(LEVELS, points, i);
    LevelIndexUnique(LEVELS, points, i, LevelIndex(LEVELS, points));
  }

  /** The boundary values of the ladder. */
  lemma LevelBoundaries()
    ensures UserLevel(49).name == "Newbie"
    ensures UserLevel(50).name == "Explorer"
    ensures UserLevel(149).name == "Explorer"
    ensures UserLevel(150).name == "Trendsetter"
    ensures UserLevel(299).name == "Trendsetter"
    ensures UserLevel(300).name == "Influencer"
    ensures UserLevel(499).name == "Influencer"
    ensures UserLevel(500).name == "Local Legend"
  {
    UserLevelBands(49);
    UserLevelBands(50);
    UserLevelBands(149);
    UserLevelBands(150);
    UserLevelBands(299);
    UserLevelBands(300);
    UserLevelBands(499);
    UserLevelBands(500);
  }
}
