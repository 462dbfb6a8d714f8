# Locova: levels, leaderboard rank and map coordinates in Dafny

Locova is a location-based social app: users post "trends" (place, event and food tips)
tagged with coordinates, browse them on a list or a map, and earn points that place them
on a leaderboard and on a ladder of named levels. Almost all of the app is screens and
calls to a hosted backend. This project models the three pieces of self-contained logic
that remain, and proves what they promise.

- **Level resolver** (`utils/level.ts`, module `Level`). `getUserLevel` scans the
  compiled ladder `LEVELS` (`type.ts`) from the first tier and takes every tier whose
  threshold the points reach. It is modelled as the method `GetUserLevel` with a `for`
  loop and its invariant. The method is proved equal to `LevelIndex`, a pure definition
  whose contract is the characterisation "the last tier reached, or the first tier when
  none is". Lemmas prove uniqueness, monotonicity, the floor case, the "greatest threshold
  reached" property and the concrete tier bands of the ladder.
- **Leaderboard card** (`components/Leaderboard.tsx`, module `Leaderboard`). It decides
  whether the signed-in user is among the fetched top rows (`userInTop10`). When the user
  is not, it computes an approximate rank: one more than the number of rows with strictly
  more points. It also decides what the card shows: the loading state, the empty state,
  the numbered rows with the user's own row marked "(You)", and the "Your Rank" panel.
  The rank is an approximation bounded by the fetched window. `RowsAboveIsPrefix` shows
  that on a board sorted highest first it is the position the user would take in it.
- **Map coordinates** (`components/TrendMap.tsx`, module `TrendMap`). `getTrendCoordinate`
  takes each component from the newer column (`latitude`, `longitude`). When that column
  is `null` or missing, it takes the legacy one (`lat`, `lng`). It returns a pair only when
  both components are numbers. The map keeps the trends that have a coordinate
  (`trendsWithCoords`) and draws one marker for each of them.

The records of `type.ts` are datatypes in module `Types`: `Trend`, `LeaderboardRow`,
`LevelInfo` and the constant `LEVELS`. A numeric column as read at run time is a
`NumberField`: missing, `null`, a number, or (since fetched rows are cast to their
declared type without any check) something that is not a number. JavaScript's truthiness
is written out where the code relies on it. An empty user id is false. The row name uses
`display_name ?? "Anonymous"`, which keeps an empty name. The panel name uses
`display_name || "You"`, which replaces an empty name.

Negative point totals are neither clamped nor rejected. They reach no threshold and get
the floor tier, which is also the tier of 0 points because the floor's threshold is 0
(`NegativePointsAreNewbie`). A trend row does not keep its coordinates together: each of
the four coordinate columns is independent. Only `getTrendCoordinate` guarantees that a
coordinate is never half a pair, and that is where the model proves it.

`UserShownExactlyOnce` assumes that the ranked rows carry distinct ids. This holds when
the ranking returns one row per user profile. The card itself does not check it. With a
repeated id, every row carrying the user's id is marked "(You)" (`MarkedRowXorPanel`
still holds).

## Model

| member | source | states |
|---|---|---|
| `Types.LevelsTableWellFormed` | type.ts:65-71 | The ladder is non-empty and starts at threshold 0. Its thresholds strictly increase and are non-negative, and its tier names are pairwise distinct. |
| `Level.LevelIndex` | utils/level.ts:4-9 | The result is an index of the table (0 for an empty one). It is 0 or a tier whose threshold is reached, and no later tier's threshold is reached. |
| `Level.GetUserLevel` | utils/level.ts:3-11 | The scan returns the tier at `LevelIndex(LEVELS, points)`, which is an element of `LEVELS`. |
| `Level.UserLevel` | utils/level.ts:3-11 | The tier is one of `LEVELS`. It is the first tier or one whose threshold is reached, and no reached threshold is greater than its own. |
| `Level.LevelIndexUnique` | utils/level.ts:4-9 | Exactly one index meets the characterisation, so "last tier reached, else the first" is a full specification. |
| `Level.LevelIndexMonotone` | utils/level.ts:5-7 | For any table, p1 <= p2 implies that the tier index for p1 is at most the tier index for p2. |
| `Level.BelowFloorIsFirstTier` | utils/level.ts:4-6 | On an ascending table, points below the first threshold resolve to the first tier. |
| `Level.GreatestReachedThreshold` | utils/level.ts:4-10 | On a well-formed table and for points >= 0, the resolved tier's threshold is reached. No reached threshold exceeds it, and every larger threshold is out of reach. |
| `Level.NegativePointsAreNewbie` | utils/level.ts:4-6 | Negative points give `LEVELS[0]`, named "Newbie", which is the tier of 0 points. |
| `Level.UserLevelBands` | type.ts:66-70 | The bands are: below 50 Newbie, 50-149 Explorer, 150-299 Trendsetter, 300-499 Influencer, 500 and above Local Legend. |
| `Level.LevelBoundaries` | type.ts:66-70 | At the band edges, 49, 50, 149, 150, 299, 300, 499 and 500 resolve to the expected tiers. |
| `Leaderboard.HasRowWithId` | components/Leaderboard.tsx:16 | `data.some(...)` holds exactly when some row's id equals the given id. |
| `Leaderboard.UserInTop` | components/Leaderboard.tsx:16 | `userInTop10` holds exactly when the user id is present, is not empty, and equals some row's id. |
| `Leaderboard.RowsAbove` | components/Leaderboard.tsx:23 | The filter is no longer than the board, and every row it keeps has strictly more points. |
| `Leaderboard.RowsAboveMembers` | components/Leaderboard.tsx:23 | A row is kept exactly when it is on the board and has strictly more points. |
| `Leaderboard.RowsAboveCountsIndices` | components/Leaderboard.tsx:23 | The filter's length equals the number of board positions with strictly more points. |
| `Leaderboard.UserRank` | components/Leaderboard.tsx:19-24 | A rank exists exactly when a non-empty user id is given, the user is not listed and the profile is present. It then equals 1 + the number of rows with strictly more points, and lies between 1 and the number of rows plus 1. |
| `Leaderboard.RowsAboveAppend` | components/Leaderboard.tsx:23 | Filtering a concatenation concatenates the filtered parts, so the order is kept. |
| `Leaderboard.InsertedRowShiftsCount` | components/Leaderboard.tsx:23 | A row inserted anywhere raises the count by 1 if it has strictly more points, and by 0 otherwise. So equal points never worsen the rank. |
| `Leaderboard.RowsAboveAntitone` | components/Leaderboard.tsx:23 | More points never leave more rows above. |
| `Leaderboard.UserRankMonotone` | components/Leaderboard.tsx:19-24 | Raising the user's points keeps a rank defined and never increases it. |
| `Leaderboard.RowsAboveIsPrefix` | components/Leaderboard.tsx:21-23 | On a board sorted highest first, the rows above are exactly a prefix and every later row has at most the user's points. |
| `Leaderboard.ExampleRank` | components/Leaderboard.tsx:19-24 | With a board of 500, 450, 400 and 380 points and a user with 390 points who is not listed, the rank is 4. |
| `Leaderboard.RankLabelOf` | components/Leaderboard.tsx:112 | The rank label (the rank, or "?" when it is falsy) prints a number only for a present rank of at least 1, and that number is the rank. It prints "?" exactly when the rank is absent or 0. |
| `Leaderboard.ViewOfRow` | components/Leaderboard.tsx:39-92 | A row at index i is labelled i + 1 and shows its points. It is the user's exactly when the user id is non-empty and equals the row's id. Its name is `display_name ?? "Anonymous"`, with " (You)" appended exactly when it is the user's. |
| `Leaderboard.RowViews` | components/Leaderboard.tsx:39-92 | There is one view per row, in order. Row i is labelled i + 1 and shows its points. It is marked as the user's exactly when the user id is non-empty and equals the row's id. Its name is the row's display name, or "Anonymous" when it has none, followed by " (You)" exactly on the marked rows. |
| `Leaderboard.MarkedRowIffInTop` | components/Leaderboard.tsx:16-40 | Some listed row is marked "(You)" exactly when `userInTop10` holds. |
| `Leaderboard.PanelFor` | components/Leaderboard.tsx:99-147 | The panel appears exactly when a user id is given, the user is not listed and the profile is present. It shows the profile's points and the display name, or "You" when that name is missing or empty. Its rank is 1 + the number of rows with strictly more points. |
| `Leaderboard.RenderBoard` | components/Leaderboard.tsx:29-149 | The card is loading exactly when `loading` holds, and says "No rankings yet." exactly when it is not loading and the board is empty. Otherwise it lists one view per row, with the panel exactly when a rank is computed. The rows are the row views and the panel is the rank panel, so each row's label, points, mark and name and the panel's rank, name and points are as stated for those members. |
| `Leaderboard.PanelShowsRank` | components/Leaderboard.tsx:99-112 | The "Your Rank" panel appears exactly when a rank is computed. It then shows that rank, which is >= 1, so "?" never appears. |
| `Leaderboard.MarkedRowXorPanel` | components/Leaderboard.tsx:29-112 | Given a user id, a profile and a non-empty board, the user appears as a marked row or in the panel, never both and never neither. |
| `Leaderboard.UserShownExactlyOnce` | components/Leaderboard.tsx:29-112 | Given also distinct row ids, the user appears exactly once. Either the panel is shown and no row is marked, or there is no panel and exactly one row is marked. |
| `Leaderboard.EmptyBoardHidesRank` | components/Leaderboard.tsx:29-33 | On an empty board the rule gives rank 1, but the card shows "No rankings yet." and no panel. |
| `TrendMap.Coalesce` | components/TrendMap.tsx:22-23 | `a ?? b` yields the number x only when the newer value is x, or when it is null or missing and the legacy value is x. It yields no number exactly when the component is unresolved, and yields null or undefined only when both values are. |
| `TrendMap.GetTrendCoordinate` | components/TrendMap.tsx:21-28 | A pair is returned only when each component resolves to a number, from the newer column or, when that is null or missing, from the legacy one. Otherwise nothing is returned, and never half a pair. |
| `TrendMap.CoordinateIff` | components/TrendMap.tsx:22-25 | The result is `(x, y)` exactly when the latitude resolves to x and the longitude resolves to y. |
| `TrendMap.NewColumnWins` | components/TrendMap.tsx:22-23 | A number in `latitude` is used whatever `lat` holds, and the longitude is resolved independently. |
| `TrendMap.MixedColumns` | components/TrendMap.tsx:22-23 | A newer-column latitude pairs with a legacy-column longitude. |
| `TrendMap.ZeroLatitudeKept` | components/TrendMap.tsx:22 | A latitude of 0 in the newer column is kept, whatever `lat` holds and wherever the longitude comes from. `??` does not fall back on 0. |
| `TrendMap.NonNumberHidesLegacy` | components/TrendMap.tsx:22-27 | A non-number in `latitude` is not replaced by `lat`, so the trend gets no coordinate. |
| `TrendMap.TrendsWithCoords` | components/TrendMap.tsx:109-112 | The result is no longer than the input, and each kept trend has a coordinate. |
| `TrendMap.TrendsWithCoordsMembers` | components/TrendMap.tsx:110 | A trend is kept exactly when it is an input trend with a coordinate. |
| `TrendMap.TrendsWithCoordsAppend` | components/TrendMap.tsx:110 | The filter preserves the original order: it distributes over concatenation. |
| `TrendMap.TrendsWithCoordsIdempotent` | components/TrendMap.tsx:109-112 | Filtering the filtered list changes nothing. |
| `TrendMap.TrendsWithCoordsKeepsAll` | components/TrendMap.tsx:110 | Nothing is dropped exactly when every trend has a coordinate. |
| `TrendMap.MarkerFor` | components/TrendMap.tsx:175-184 | A marker exists exactly when the trend has a coordinate. It is keyed by the trend's id, titled with its title, and placed at that coordinate. |
| `TrendMap.RenderMarkers` | components/TrendMap.tsx:174-185 | There is one entry per shown trend, in order. Entry i is the marker for trend i: present exactly when that trend has a coordinate, keyed by its id, titled with its title and placed at its coordinate. |
| `TrendMap.EveryShownTrendHasMarker` | components/TrendMap.tsx:174-185 | Every trend kept by the filter becomes a marker keyed by its id and placed at its coordinate. The `return null` guard never fires. |

## Left out

- Every backend call is left out: loading trends (`loadTrends`), the services under `services/`, the leaderboard and radius-search procedures, point increments and realtime channels. They are calls into a hosted service whose code is not part of this model.
- Engagement counting, like and save toggling, and the reward ledger are left out, because their code is not part of this model.
- Device integrations are left out: location permission and the current position (`resolveLocation`), the image picker, and opening the external maps app (`openExternalDirections`).
- Floating-point values are left out. Coordinates and distances are an opaque type N that is only passed along. Region deltas and `toFixed` formatting are not modelled.
- Points are modelled as `int`. A fractional or NaN point total is not modelled (NaN would reach no threshold and give the first tier).
- React state, `useMemo` caching and rendering details are left out. The filter and the card are modelled as functions of their inputs. This leaves out styles, avatar images and the `Date.now()` cache-busting of avatar URLs, the `colors` prop, and the status chip and buttons of the map.
- `UserProfile` and `TrendComment` of `type.ts` are not modelled, because no modelled operation reads them. The leaderboard card takes only the profile's points, name and avatar (`UserSummary`).
- The empty-query short-circuit of the place search in `services/places.ts` is left out with the rest of that network call.
