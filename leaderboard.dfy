/** The leaderboard card (components/Leaderboard.tsx): whether the signed-in user is among
    the fetched top rows, the approximate rank shown when they are not, and what the card
    displays. */
module Leaderboard {
  import opened Types

  /** The signed-in user's own profile, as passed to the card. */
  datatype UserSummary = UserSummary(points: int, displayName: Option<string>, avatarUrl: Option<string>)

  /** JavaScript truthiness of an optional string: `null`, `undefined` and "" are false. */
  predicate IsTruthy(s: Option<string>) {
    s.Some? && s.value != ""
  }

  /** `data.some(item => item.id === id)`. */
  function HasRowWithId(data: seq<LeaderboardRow>, id: string): (found: bool)
    ensures found <==> exists i :: 0 <= i < |data| && data[i].id == id
  {
    if data == [] then false
    else data[0].id == id || HasRowWithId(data[1..], id)
  }

  /** `userInTop10`: a user id is given, it is not empty, and one of the rows carries it. */
  predicate UserInTop(userId: Option<string>, data: seq<LeaderboardRow>): (inTop: bool)
    ensures inTop <==> (userId.Some? && userId.value != "" &&
                        exists i :: 0 <= i < |data| && data[i].id == userId.value)
  {
    IsTruthy(userId) && HasRowWithId(data, userId.value)
  }

  /** `data.filter(item => item.points > points)`: the rows, in order, with strictly more
      points. */
  function RowsAbove(data: seq<LeaderboardRow>, points: int): (above: seq<LeaderboardRow>)
    ensures |above| <= |data|
    ensures forall i :: 0 <= i < |above| ==> above[i].points > points
    decreases |data|
  {
    if data == [] then []
    else
      var last := data[|data| - 1];
      RowsAbove(data[..|data| - 1], points) + (if last.points > points then [last] else [])
  }

  /** A row appears among the rows above exactly when it is one of the rows and has
      strictly more points. */
  lemma {:induction false} RowsAboveMembers(data: seq<LeaderboardRow>, points: int, row: LeaderboardRow)
    ensures row in RowsAbove(data, points) <==> row in data && row.points > points
    decreases |data|
  {
    if data != [] {
      var n := |data| - 1;
      RowsAboveMembers(data[..n], points, row);
      assert data == data[..n] + [data[n]];
    }
  }

  /** The positions of the rows with strictly more points than `points`. */
  ghost function IndicesAbove(data: seq<LeaderboardRow>, points: int): set<int> {
    set i | 0 <= i < |data| && data[i].points > points
  }

  /** The filter keeps one row per position whose points are strictly greater. */
  lemma {:induction false} RowsAboveCountsIndices(data: seq<LeaderboardRow>, points: int)
    ensures |RowsAbove(data, points)| == |IndicesAbove(data, points)|
    decreases |data|
  {
    if data != [] {
      var n := |data| - 1;
      var front := data[..n];
      RowsAboveCountsIndices(front, points);
      var before := IndicesAbove(front, points);
      var extra: set<int> := if data[n].points > points then {n} else {};
      assert RowsAbove(data, points) == RowsAbove(front, points) + (if data[n].points > points then [data[n]] else []);
      assert IndicesAbove(data, points) == before + extra by {
        forall i | 0 <= i < n ensures front[i] == data[i] { }
      }
      assert before * extra == {};
    }
  }

  /** `userRank`: computed only when a user id is given, that user is not among the rows,
      and their profile is known; it is then one more than the number of rows with
      strictly more points, which lies between 1 and one past the number of rows. */
  function UserRank(userId: Option<string>, data: seq<LeaderboardRow>, profile: Option<UserSummary>): (rank: Option<nat>)
    ensures rank.Some? <==> IsTruthy(userId) && !UserInTop(userId, data) && profile.Some?
    ensures rank.Some? ==> rank.value == |IndicesAbove(data, profile.value.points)| + 1
    ensures rank.Some? ==> 1 <= rank.value <= |data| + 1
  {
    if IsTruthy(userId) && !UserInTop(userId, data) && profile.Some? then
      RowsAboveCountsIndices(data, profile.value.points);
      Some(|RowsAbove(data, profile.value.points)| + 1)
    else
      None
  }

  /** Filtering a concatenation filters each part, keeping the order. */
  lemma {:induction false} RowsAboveAppend(a: seq<LeaderboardRow>, b: seq<LeaderboardRow>, points: int)
    ensures RowsAbove(a + b, points) == RowsAbove(a, points) + RowsAbove(b, points)
    decreases |b|
  {
    if b == [] {
      assert a + b == a;
    } else {
      var n := |b| - 1;
      assert (a + b)[..|a + b| - 1] == a + b[..n];
      RowsAboveAppend(a, b[..n], points);
    }
  }

  /** A row inserted anywhere in the list moves the count of rows above by one when it has
      strictly more points, and not at all otherwise: in particular a row with the same
      points as the user does not worsen the rank. */
  lemma InsertedRowShiftsCount(a: seq<LeaderboardRow>, row: LeaderboardRow, b: seq<LeaderboardRow>, points: int)
    ensures |RowsAbove(a + [row] + b, points)| ==
      |RowsAbove(a + b, points)| + (if row.points > points then 1 else 0)
  {
    RowsAboveAppend(a + [row], b, points);
    RowsAboveAppend(a, [row], points);
    RowsAboveAppend(a, b, points);
    assert RowsAbove([row], points) == RowsAbove([], points) + (if row.points > points then [row] else []);
  }

  /** More points never leave more rows above. */
  lemma {:induction false} RowsAboveAntitone(data: seq<LeaderboardRow>, p1: int, p2: int)
    requires p1 <= p2
    ensures |RowsAbove(data, p2)| <= |RowsAbove(data, p1)|
    decreases |data|
  {
    if data != [] {
      RowsAboveAntitone(data[..|data| - 1], p1, p2);
    }
  }

  /** Raising the user's points never increases the computed rank. */
  lemma UserRankMonotone(userId: Option<string>, data: seq<LeaderboardRow>, s1: UserSummary, s2: UserSummary)
    requires s1.points <= s2.points
    requires UserRank(userId, data, Some(s1)).Some?
    ensures UserRank(userId, data, Some(s2)).Some?
    ensures UserRank(userId, data, Some(s2)).value <= UserRank(userId, data, Some(s1)).value
  {
    RowsAboveAntitone(data, s1.points, s2.points);
  }

  /** Rows sorted by points, highest first, as the ranking call returns them. */
  ghost predicate SortedByPoints(data: seq<LeaderboardRow>) {
    forall i, j :: 0 <= i < j < |data| ==> data[i].points >= data[j].points
  }

  /** On a board sorted highest first, the rows above the user are exactly a prefix, so the
      approximate rank is the position the user would take in the list. */
  lemma {:induction false} RowsAboveIsPrefix(data: seq<LeaderboardRow>, points: int)
    requires SortedByPoints(data)
    ensures RowsAbove(data, points) == data[..|RowsAbove(data, points)|]
    ensures forall i :: |RowsAbove(data, points)| <= i < |data| ==> data[i].points <= points
    decreases |data|
  {
    if data != [] {
      var n := |data| - 1;
      var front := data[..n];
      assert SortedByPoints(front);
      RowsAboveIsPrefix(front, points);
      var k := |RowsAbove(front, points)|;
      if data[n].points > points {
        if k < n {
          assert false;
        }
        assert data[..n + 1] == front + [data[n]];
      } else {
        assert data[..k] == front[..k];
      }
    }
  }

  /** The worked example of the ranking rule: 500, 450, 400 and 380 points on the board,
      390 for the user, who is not listed: rank 4. */
  lemma ExampleRank()
    ensures UserRank(Some("me"),
                     [LeaderboardRow("a", 500, None, None), LeaderboardRow("b", 450, None, None),
                      LeaderboardRow("c", 400, None, None), LeaderboardRow("d", 380, None, None)],
                     Some(UserSummary(390, None, None))) == Some(4)
  {
    var data := [LeaderboardRow("a", 500, None, None), LeaderboardRow("b", 450, None, None),
                 LeaderboardRow("c", 400, None, None), LeaderboardRow("d", 380, None, None)];
    assert !HasRowWithId(data, "me");
    RowsAboveIsPrefix(data, 390);
  }

  /** What the "Your Rank" panel prints after `#`: `userRank || "?"`. */
  datatype RankLabel = Number(n: int) | QuestionMark

  /** One listed row: its position label, the name shown (with " (You)" appended for the
      signed-in user), whether it is highlighted as the user's, and its points. */
  datatype RowView = RowView(position: nat, name: string, isYou: bool, points: int)

  /** The "Your Rank" panel. */
  datatype RankPanel = RankPanel(rank: RankLabel, name: string, points: int)

  /** The card's three states: loading, nothing ranked yet, or the list with an optional
      panel beneath it. */
  datatype Board = Loading | NoRankings | Rankings(rows: seq<RowView>, panel: Option<RankPanel>)

  /** `userRank || "?"`: a rank of 0 or no rank at all prints "?". */
  function RankLabelOf(rank: Option<nat>): (text: RankLabel)
    ensures text.Number? ==> 1 <= text.n && rank == Some(text.n)
    ensures text.QuestionMark? <==> rank.None? || rank.value == 0
  {
    if rank.Some? && rank.value != 0 then Number(rank.value) else QuestionMark
  }

  /** `display_name ?? "Anonymous"`: a row's own name, even an empty one, or "Anonymous"
      when it has none. */
  function DisplayName(row: LeaderboardRow): string {
    if row.displayName.Some? then row.displayName.value else "Anonymous"
  }

  /** The row at `index`: `display_name ?? "Anonymous"` keeps an empty name. */
  function ViewOfRow(userId: Option<string>, row: LeaderboardRow, index: nat): (view: RowView)
    ensures view.position == index + 1 && view.points == row.points
    ensures view.isYou <==> IsTruthy(userId) && row.id == userId.value
    ensures view.name == DisplayName(row) + (if view.isYou then " (You)" else "")
  {
    var isYou := IsTruthy(userId) && userId.value == row.id;
    RowView(index + 1, DisplayName(row) + (if isYou then " (You)" else ""), isYou, row.points)
  }

  /** The listed rows, labelled 1, 2, ... in order, the user's own row marked. */
  function RowViews(userId: Option<string>, data: seq<LeaderboardRow>): (views: seq<RowView>)
    ensures |views| == |data|
    ensures forall i :: 0 <= i < |data| ==> views[i].position == i + 1 && views[i].points == data[i].points
    ensures forall i :: 0 <= i < |data| ==> (views[i].isYou <==> IsTruthy(userId) && data[i].id == userId.value)
    ensures forall i :: 0 <= i < |data| ==>
      views[i].name == DisplayName(data[i]) + (if views[i].isYou then " (You)" else "")
  {
    seq(|data|, i requires 0 <= i < |data| => ViewOfRow(userId, data[i], i))
  }

  /** The panel: shown when the user is not listed, a user id is given and the profile is
      known. Its name is `display_name || "You"`, so an empty name falls back too. */
  function PanelFor(userId: Option<string>, data: seq<LeaderboardRow>, profile: Option<UserSummary>): (panel: Option<RankPanel>)
    ensures panel.Some? <==> IsTruthy(userId) && !UserInTop(userId, data) && profile.Some?
    ensures panel.Some? ==> panel.value.points == profile.value.points
    ensures panel.Some? ==>
      panel.value.name == (if profile.value.displayName.Some? && profile.value.displayName.value != ""
                           then profile.value.displayName.value else "You")
    ensures panel.Some? ==> panel.value.rank == Number(|IndicesAbove(data, profile.value.points)| + 1)
  {
    if !UserInTop(userId, data) && IsTruthy(userId) && profile.Some? then
      var summary := profile.value;
      var name := if summary.displayName.Some? && summary.displayName.value != "" then summary.displayName.value else "You";
      Some(RankPanel(RankLabelOf(UserRank(userId, data, profile)), name, summary.points))
    else
      None
  }

  /** The whole card. */
  function RenderBoard(userId: Option<string>, data: seq<LeaderboardRow>, loading: bool, profile: Option<UserSummary>): (board: Board)
    ensures board.Loading? <==> loading
    ensures board.NoRankings? <==> !loading && data == []
    ensures board.Rankings? ==> |board.rows| == |data| && (board.panel.Some? <==> UserRank(userId, data, profile).Some?)
    ensures board.Rankings? ==> board.rows == RowViews(userId, data) && board.panel == PanelFor(userId, data, profile)
  {
    if loading then Loading
    else if |data| == 0 then NoRankings
    else Rankings(RowViews(userId, data), PanelFor(userId, data, profile))
  }

  /** The panel is shown under exactly the condition that produces a rank, and then shows
      that rank, which is at least 1: the "?" fallback never appears. */
  lemma PanelShowsRank(userId: Option<string>, data: seq<LeaderboardRow>, profile: Option<UserSummary>)
    ensures PanelFor(userId, data, profile).Some? <==> UserRank(userId, data, profile).Some?
    ensures PanelFor(userId, data, profile).Some? ==>
      1 <= UserRank(userId, data, profile).value &&
      PanelFor(userId, data, profile).value.rank == Number(UserRank(userId, data, profile).value)
  {
  }

  /** Some listed row is marked as the user's exactly when the user is in the top rows. */
  lemma MarkedRowIffInTop(userId: Option<string>, data: seq<LeaderboardRow>)
    ensures (exists i :: 0 <= i < |data| && RowViews(userId, data)[i].isYou) <==> UserInTop(userId, data)
  {
    var views := RowViews(userId, data);
    if UserInTop(userId, data) {
      var i :| 0 <= i < |data| && data[i].id == userId.value;
      assert views[i].isYou;
    }
  }

  /** With a user id and a profile, a non-empty board shows the user as a marked row of
      the list or in the panel, never both and never neither. */
  lemma MarkedRowXorPanel(userId: Option<string>, data: seq<LeaderboardRow>, profile: Option<UserSummary>)
    requires IsTruthy(userId) && profile.Some? && data != []
    ensures RenderBoard(userId, data, false, profile).Rankings?
    ensures var board := RenderBoard(userId, data, false, profile);
      (exists i :: 0 <= i < |board.rows| && board.rows[i].isYou) != board.panel.Some?
  {
    MarkedRowIffInTop(userId, data);
  }

  /** No two rows share an id, as for rows ranked from one row per user profile. */
  ghost predicate DistinctIds(data: seq<LeaderboardRow>) {
    forall i, j :: 0 <= i < j < |data| ==> data[i].id != data[j].id
  }

  /** With a user id, a profile, a non-empty board and distinct row ids, the user is shown
      exactly once: in the panel with no row marked, or with no panel and exactly one row
      marked. */
  lemma UserShownExactlyOnce(userId: Option<string>, data: seq<LeaderboardRow>, profile: Option<UserSummary>)
    requires IsTruthy(userId) && profile.Some? && data != []
    requires DistinctIds(data)
    ensures var board := RenderBoard(userId, data, false, profile);
      && board.Rankings?
      && (board.panel.Some? ==> forall i :: 0 <= i < |board.rows| ==> !board.rows[i].isYou)
      && (board.panel.None? ==>
            exists i :: (0 <= i < |board.rows| && board.rows[i].isYou &&
                         forall j :: 0 <= j < |board.rows| && board.rows[j].isYou ==> j == i))
  {
    MarkedRowXorPanel(userId, data, profile);
    var board := RenderBoard(userId, data, false, profile);
    if board.panel.None? {
      var i :| 0 <= i < |board.rows| && board.rows[i].isYou;
      forall j | 0 <= j < |board.rows| && board.rows[j].isYou
        ensures j == i
      {
        assert data[j].id == userId.value == data[i].id;
      }
    }
  }

  /** An empty board shows "No rankings yet." and no panel, although the rule would give
      the user rank 1. */
  lemma EmptyBoardHidesRank(userId: Option<string>, profile: Option<UserSummary>)
    requires IsTruthy(userId) && profile.Some?
    ensures UserRank(userId, [], profile) == Some(1)
    ensures RenderBoard(userId, [], false, profile) == NoRankings
  {
  }
}
