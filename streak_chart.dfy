/**
 * The results chart: the most recent finals, one bar per scored game
 * (+1 for a win, -1 for a loss), the win/loss totals and the current streak.
 */
module StreakChart {
  import opened Wrappers
  import opened JsText
  import opened EspnModel
  import opened EspnGames
  import Seqs

  /** The subject's view of one scored game. */
  datatype UscResult = UscResult(won: bool, uscScore: int, oppScore: int, opponent: Option<string>)

  /** `getUSCResult(game)`: absent unless both scores are known. */
  function GetUSCResult(g: Game): (r: Option<UscResult>)
    ensures r.None? <==> SubjectScore(g).None? || OpponentScore(g).None?
    ensures r.Some? ==> r.value.uscScore == SubjectScore(g).value && r.value.oppScore == OpponentScore(g).value
    ensures r.Some? ==> (r.value.won <==> r.value.uscScore > r.value.oppScore)
    ensures r.Some? ==> r.value.opponent == Or(Opponent(g).abbreviation, Opponent(g).name)
  {
    var uscScore := SubjectScore(g);
    var oppScore := OpponentScore(g);
    var opponent := Opponent(g);
    if uscScore.None? || oppScore.None? then None
    else Some(UscResult(uscScore.value > oppScore.value, uscScore.value, oppScore.value, Or(opponent.abbreviation, opponent.name)))
  }

  predicate IsFinalAt(g: Game, now: int) {
    GetGameState(g, now) == Final
  }

  function Finals(games: seq<Game>, now: int): seq<Game> {
    Seqs.Filter(games, (g: Game) => IsFinalAt(g, now))
  }

  /** `games.filter(final).reverse().slice(0, limit).reverse()`. */
  function CompletedGames(games: seq<Game>, now: int, limit: int): seq<Game> {
    Seqs.Reverse(Seqs.Take(Seqs.Reverse(Finals(games, now)), limit))
  }

  /** The window holds the last `min(limit, n)` finals, oldest first. */
  lemma CompletedGamesWindow(games: seq<Game>, now: int, limit: int)
    ensures var finals := Finals(games, now);
            var k := Seqs.SliceEnd(|finals|, limit);
            CompletedGames(games, now, limit) == finals[|finals| - k..]
            && (0 <= limit ==> k == if limit < |finals| then limit else |finals|)
    ensures forall g :: g in CompletedGames(games, now, limit) ==> g in games && IsFinalAt(g, now)
  {
    var finals := Finals(games, now);
    Seqs.FilterMembers(games, (g: Game) => IsFinalAt(g, now));
    Seqs.LastWindow(finals, limit);
    var k := Seqs.SliceEnd(|finals|, limit);
    forall g | g in CompletedGames(games, now, limit) ensures g in finals {
      var i :| 0 <= i < k && finals[|finals| - k..][i] == g;
      assert finals[|finals| - k + i] == g;
    }
  }

  /** One bar of the chart. */
  datatype ChartPoint = ChartPoint(
    name: Option<string>, value: int, win: bool, opponent: Option<string>, score: string, isConference: bool)

  predicate IsScored(g: Game) {
    GetUSCResult(g).Some?
  }

  /** The bar of a scored game. */
  function PointOf(g: Game): (p: ChartPoint)
    requires IsScored(g)
    ensures p.win <==> SubjectScore(g).value > OpponentScore(g).value
    ensures p.value == (if p.win then 1 else -1)
    ensures p.name == p.opponent == Or(Opponent(g).abbreviation, Opponent(g).name)
    ensures p.score == IntToString(SubjectScore(g).value) + "-" + IntToString(OpponentScore(g).value)
    ensures p.isConference == g.isConference
  {
    var result := GetUSCResult(g).value;
    ChartPoint(result.opponent, if result.won then 1 else -1, result.won, result.opponent,
               IntToString(result.uscScore) + "-" + IntToString(result.oppScore), g.isConference)
  }

  /** `completedGames.map(toPoint-or-null).filter(notNull)`. */
  function ChartData(completed: seq<Game>): (r: seq<ChartPoint>)
    ensures |r| <= |completed|
  {
    if completed == [] then []
    else match GetUSCResult(completed[0])
      case None => ChartData(completed[1..])
      case Some(_) => [PointOf(completed[0])] + ChartData(completed[1..])
  }

  /** The chart keeps the scored games, in order, one bar each. */
  lemma {:induction false} ChartDataOfScored(completed: seq<Game>)
    ensures var scored := Seqs.Filter(completed, IsScored);
            |ChartData(completed)| == |scored|
            && forall i :: 0 <= i < |scored| ==> ChartData(completed)[i] == PointOf(scored[i])
  {
    if completed != [] {
      ChartDataOfScored(completed[1..]);
      var scored := Seqs.Filter(completed, IsScored);
      var rest := Seqs.Filter(completed[1..], IsScored);
      if IsScored(completed[0]) {
        assert scored == [completed[0]] + rest;
        forall i | 0 <= i < |scored| ensures ChartData(completed)[i] == PointOf(scored[i]) {
          if i > 0 {
            assert scored[i] == rest[i - 1];
          }
        }
      }
    }
  }

  function ChartWins(data: seq<ChartPoint>): nat {
    |Seqs.Filter(data, (d: ChartPoint) => d.win)|
  }

  /** `losses = chartData.length - wins` counts exactly the lost bars. */
  lemma {:induction false} ChartLosses(data: seq<ChartPoint>)
    ensures |data| - ChartWins(data) == |Seqs.Filter(data, (d: ChartPoint) => !d.win)|
  {
    if data != [] {
      ChartLosses(data[1..]);
    }
  }

  // ---------------------------------------------------------------- streak

  datatype StreakType = W | L

  datatype Streak = Streak(kind: StreakType, count: nat)

  function TypeOf(win: bool): StreakType {
    if win then W else L
  }

  /** `s` is the run of equal results that ends the data: the last `count`
    * entries share the last entry's outcome and the one before them does not. */
  predicate IsCurrentStreak(data: seq<ChartPoint>, s: Streak)
    requires data != []
  {
    var last := data[|data| - 1].win;
    && 1 <= s.count <= |data|
    && s.kind == TypeOf(last)
    && (forall k :: |data| - s.count <= k < |data| ==> data[k].win == last)
    && (s.count < |data| ==> data[|data| - s.count - 1].win != last)
  }

  /** `calculateStreak(data)`. */
  method CalculateStreak(data: seq<ChartPoint>) returns (s: Streak)
    ensures data == [] ==> s == Streak(W, 0)
    ensures data != [] ==> IsCurrentStreak(data, s)
  {
    if |data| == 0 {
      return Streak(W, 0);
    }

    var reversed := Seqs.Reverse(data);
    var firstResult := reversed[0].win;
    var count := 0;

    var i := 0;
    while i < |reversed|
      invariant 0 <= i <= |reversed|
      invariant count == i
      invariant forall k :: 0 <= k < i ==> reversed[k].win == firstResult
    {
      if reversed[i].win == firstResult {
        count := count + 1;
      } else {
        break;
      }
      i := i + 1;
    }

    s := Streak(if firstResult then W else L, count);
    assert count >= 1 by {
      assert reversed[0].win == firstResult;
    }
    forall k | |data| - count <= k < |data| ensures data[k].win == firstResult {
      assert data[k] == reversed[|data| - 1 - k];
    }
    if count < |data| {
      assert data[|data| - count - 1] == reversed[count];
    }
  }

  /** The current streak is determined by the data. */
  lemma StreakUnique(data: seq<ChartPoint>, s: Streak, t: Streak)
    requires data != [] && IsCurrentStreak(data, s) && IsCurrentStreak(data, t)
    ensures s == t
  {
  }

  /** W, W, L, W, W, W ends with a streak of three wins. */
  lemma StreakExample(data: seq<ChartPoint>)
    requires |data| == 6
    requires data[0].win && data[1].win && !data[2].win && data[3].win && data[4].win && data[5].win
    ensures IsCurrentStreak(data, Streak(W, 3))
  {
  }

  /** The streak label appears only for a run of at least two equal results. */
  predicate ShowsStreakLabel(s: Streak) {
    s.count > 1
  }

  lemma StreakLabelMeansRepeat(data: seq<ChartPoint>, s: Streak)
    requires data != [] && IsCurrentStreak(data, s) && ShowsStreakLabel(s)
    ensures |data| >= 2 && data[|data| - 2].win == data[|data| - 1].win
  {
  }
}
