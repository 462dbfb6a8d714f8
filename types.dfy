/** The record shapes and the level table shared by the app's screens (type.ts). */
module Types {

  /** An optional, nullable value whose two "missing" forms the code never tells apart. */
  datatype Option<+T> = None | Some(value: T)

  /** What a numeric column of a fetched row holds at run time. Rows are cast to their
      declared type without checking, so besides a number a column may be missing
      (`undefined`), `null`, or hold something that is not a number at all. */
  datatype NumberField<+N> = Undefined | Null | Num(value: N) | NonNumber {
    /** `null` or `undefined`: the two values that `??` skips. */
    predicate IsNullish() {
      Undefined? || Null?
    }
  }

  /** A row of the `trends` table. Coordinates may come from the newer `latitude` /
      `longitude` columns, from the legacy `lat` / `lng` columns, from both, or from
      neither; each of the four is optional and nullable. Floating-point values
      (coordinates, distance) are of the opaque type N. */
  datatype Trend<N> = Trend(
    id: string,
    title: string,
    category: string,
    location: string,
    createdAt: string,
    userId: Option<string>,
    latitude: NumberField<N>,
    longitude: NumberField<N>,
    lat: NumberField<N>,
    lng: NumberField<N>,
    distanceKm: Option<N>,
    likeCount: Option<int>,
    commentCount: Option<int>,
    likedByCurrentUser: Option<bool>)

  /** A row of the leaderboard view: `id` and `points` are always there, the display
      fields are optional and nullable. */
  datatype LeaderboardRow = LeaderboardRow(
    id: string,
    points: int,
    displayName: Option<string>,
    avatarUrl: Option<string>)

  /** One tier of the gamification ladder. */
  datatype LevelInfo = LevelInfo(name: string, minPoints: int, emoji: string)

  /** The ladder, in ascending order of threshold. */
  const LEVELS: seq<LevelInfo> := [
    LevelInfo("Newbie", 0, "\U{1F9E2}"),
    LevelInfo("Explorer", 50, "\U{1F392}"),
    LevelInfo("Trendsetter", 150, "\U{1F525}"),
    LevelInfo("Influencer", 300, "\U{1F4F8}"),
    LevelInfo("Local Legend", 500, "\U{1F3C6}")
  ]

  /** Thresholds strictly increase in table order. */
  ghost predicate Ascending(t: seq<LevelInfo>) {
    forall i, j :: 0 <= i < j < |t| ==> t[i].minPoints < t[j].minPoints
  }

  /** A usable ladder: non-empty, ascending, and starting with a floor tier at 0. */
  ghost predicate WellFormedTable(t: seq<LevelInfo>) {
    t != [] && t[0].minPoints == 0 && Ascending(t)
  }

  /** The ladder compiled into the app is well formed, its thresholds are non-negative
      and no two tiers share a name. */
  lemma LevelsTableWellFormed()
    ensures WellFormedTable(LEVELS)
    ensures forall i :: 0 <= i < |LEVELS| ==> 0 <= LEVELS[i].minPoints
    ensures forall i, j :: 0 <= i < j < |LEVELS| ==> LEVELS[i].name != LEVELS[j].name
  {
  }
}
