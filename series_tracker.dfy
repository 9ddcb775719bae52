/**
 * The series tracker: consecutive games against one opponent are grouped
 * into a series, and at most three multi-game series are chosen for
 * display, each with its win/loss tally.
 */
module SeriesTracker {
  import opened Wrappers
  import opened JsText
  import opened EspnModel
  import opened EspnGames
  import Seqs

  /** A run of games against one opponent; the opponent and the home flag are
    * those of the series' first game. */
  datatype Series = Series(
    opponentName: Option<string>,
    opponentAbbreviation: Option<string>,
    opponentLogo: string,
    games: seq<Game>,
    isHome: bool)

  /** The widest gap, in days from the series' first game, a series spans. */
  const MaxSeriesDays: real := 4.0

  /** The most games one series holds. */
  const MaxSeriesGames: nat := 4

  /** The series a game opens. */
  function NewSeries(g: Game): (s: Series)
    ensures s.games == [g]
  {
    var opponent := Opponent(g);
    Series(opponent.displayName, opponent.abbreviation, opponent.logo, [g], IsHomeSubject(g))
  }

  /** `(this - first) / (1000 * 60 * 60 * 24)`: the day distance of a game from
    * a series' first game, as a real number. */
  function DaysDiff(first: Game, g: Game): real {
    (g.date - first.date) as real / 86400000.0
  }

  lemma DaysDiffBound(first: Game, g: Game)
    ensures DaysDiff(first, g) <= MaxSeriesDays <==> g.date - first.date <= 4 * DayMs
  {
    assert DayMs == 86400000;
  }

  /** `g` joins the current series: same opponent abbreviation (two missing
    * abbreviations count as the same), at most four days after the series'
    * first game, and the series not yet full. */
  predicate CanJoin(current: Series, g: Game)
    requires current.games != []
  {
    current.opponentAbbreviation == Opponent(g).abbreviation
    && DaysDiff(current.games[0], g) <= MaxSeriesDays
    && |current.games| < MaxSeriesGames
  }

  /** One step of the grouping loop: extend the last series or open a new one. */
  function Step(series: seq<Series>, g: Game): (r: seq<Series>)
    requires forall i :: 0 <= i < |series| ==> series[i].games != []
    ensures forall i :: 0 <= i < |r| ==> r[i].games != []
    ensures |r| == |series| || |r| == |series| + 1
  {
    if series != [] && CanJoin(series[|series| - 1], g) then
      var current := series[|series| - 1];
      series[..|series| - 1] + [current.(games := current.games + [g])]
    else
      series + [NewSeries(g)]
  }

  /** The series of a date-sorted list of games, built left to right. */
  function Group(sorted: seq<Game>): (r: seq<Series>)
    ensures forall i :: 0 <= i < |r| ==> r[i].games != []
    ensures r == [] <==> sorted == []
  {
    if sorted == [] then [] else Step(Group(sorted[..|sorted| - 1]), sorted[|sorted| - 1])
  }

  /** Grouping one more game is one more step. */
  lemma GroupSnoc(sorted: seq<Game>, i: nat)
    requires i < |sorted|
    ensures Group(sorted[..i + 1]) == Step(Group(sorted[..i]), sorted[i])
  {
    Seqs.PrefixOfPrefix(sorted, i, i + 1);
  }

  /** Grouping one more game that joins the last series. */
  lemma GroupJoins(sorted: seq<Game>, i: nat)
    requires i < |sorted|
    requires var series := Group(sorted[..i]); series != [] && CanJoin(series[|series| - 1], sorted[i])
    ensures var series := Group(sorted[..i]);
            var current := series[|series| - 1];
            Group(sorted[..i + 1]) == series[..|series| - 1] + [current.(games := current.games + [sorted[i]])]
  {
    GroupSnoc(sorted, i);
  }

  /** Grouping one more game that opens a series. */
  lemma GroupOpens(sorted: seq<Game>, i: nat)
    requires i < |sorted|
    requires var series := Group(sorted[..i]); !(series != [] && CanJoin(series[|series| - 1], sorted[i]))
    ensures Group(sorted[..i + 1]) == Group(sorted[..i]) + [NewSeries(sorted[i])]
  {
    GroupSnoc(sorted, i);
  }

  /** `groupIntoSeries(games)`. `current` is the series last pushed: the source
    * pushes into that same object, which is the last element of `series`. */
  method GroupIntoSeries(games: seq<Game>) returns (series: seq<Series>)
    ensures series == Group(SortByDate(games))
  {
    var sorted := SortByDate(games);
    series := [];
    var current: Option<Series> := None;

    for i := 0 to |sorted|
      invariant series == Group(sorted[..i])
      invariant current.None? <==> series == []
      invariant current.Some? ==> current.value == series[|series| - 1]
    {
      var game := sorted[i];
      var isHomeUSC := IsHomeSubject(game);
      var opponent := Opponent(game);

      if current.Some? && current.value.opponentAbbreviation == opponent.abbreviation {
        var daysDiff := DaysDiff(current.value.games[0], game);
        if daysDiff <= MaxSeriesDays && |current.value.games| < MaxSeriesGames {
          GroupJoins(sorted, i);
          current := Some(current.value.(games := current.value.games + [game]));
          series := series[..|series| - 1] + [current.value];
          continue;
        }
      }
      GroupOpens(sorted, i);
      current := Some(Series(opponent.displayName, opponent.abbreviation, opponent.logo, [game], isHomeUSC));
      series := series + [current.value];
    }
    assert sorted[..|sorted|] == sorted;
  }

  // ---------------------------------------------------------------- properties of the grouping

  /** The games of all series, series by series. */
  function Flatten(series: seq<Series>): seq<Game> {
    if series == [] then [] else Flatten(series[..|series| - 1]) + series[|series| - 1].games
  }

  lemma FlattenSnoc(series: seq<Series>, s: Series)
    ensures Flatten(series + [s]) == Flatten(series) + s.games
  {
    Seqs.SnocPrefix(series, s);
  }

  /** Every game lands in exactly one series, and in order: concatenating the
    * series gives back the sorted input. */
  lemma {:induction false} GroupFlatten(sorted: seq<Game>)
    ensures Flatten(Group(sorted)) == sorted
  {
    if sorted != [] {
      var init := sorted[..|sorted| - 1];
      var g := sorted[|sorted| - 1];
      var series := Group(init);
      assert Group(sorted) == Step(series, g);
      GroupFlatten(init);
      if series != [] && CanJoin(series[|series| - 1], g) {
        var current := series[|series| - 1];
        var prefix := series[..|series| - 1];
        assert series == prefix + [current];
        assert Group(sorted) == prefix + [current.(games := current.games + [g])];
        FlattenSnoc(prefix, current);
        FlattenSnoc(prefix, current.(games := current.games + [g]));
      } else {
        assert Group(sorted) == series + [NewSeries(g)];
        FlattenSnoc(series, NewSeries(g));
      }
      Seqs.InitLast(sorted);
    }
  }

  /** What every series satisfies: one to four games, all against the
    * series' opponent abbreviation, each at most four days after the first,
    * with opponent and home flag taken from the first game. */
  predicate WellFormed(s: Series) {
    1 <= |s.games| <= MaxSeriesGames
    && s.opponentAbbreviation == Opponent(s.games[0]).abbreviation
    && s.opponentName == Opponent(s.games[0]).displayName
    && s.opponentLogo == Opponent(s.games[0]).logo
    && s.isHome == IsHomeSubject(s.games[0])
    && forall k :: 0 <= k < |s.games| ==>
         Opponent(s.games[k]).abbreviation == s.opponentAbbreviation
         && s.games[k].date - s.games[0].date <= 4 * DayMs
  }

  lemma {:induction false} GroupWellFormed(sorted: seq<Game>)
    ensures forall i :: 0 <= i < |Group(sorted)| ==> WellFormed(Group(sorted)[i])
  {
    if sorted != [] {
      var init := sorted[..|sorted| - 1];
      var g := sorted[|sorted| - 1];
      var series := Group(init);
      GroupWellFormed(init);
      if series != [] && CanJoin(series[|series| - 1], g) {
        var current := series[|series| - 1];
        DaysDiffBound(current.games[0], g);
        var joined := current.(games := current.games + [g]);
        assert WellFormed(joined) by {
          assert WellFormed(current);
          forall k | 0 <= k < |joined.games|
            ensures Opponent(joined.games[k]).abbreviation == joined.opponentAbbreviation
                    && joined.games[k].date - joined.games[0].date <= 4 * DayMs
          {
            if k < |current.games| {
              assert joined.games[k] == current.games[k];
            }
          }
        }
        assert Group(sorted) == series[..|series| - 1] + [joined];
      }
    }
  }

  /** No series could have taken the first game of the series after it. */
  predicate Maximal(r: seq<Series>)
    requires forall i :: 0 <= i < |r| ==> r[i].games != []
  {
    forall i :: 0 < i < |r| ==> !CanJoin(r[i - 1], r[i].games[0])
  }

  /** A new series starts only when the game cannot join the series before it. */
  lemma {:induction false} GroupMaximal(sorted: seq<Game>)
    ensures Maximal(Group(sorted))
  {
    if sorted != [] {
      var init := sorted[..|sorted| - 1];
      var g := sorted[|sorted| - 1];
      var series := Group(init);
      GroupMaximal(init);
      var r := Group(sorted);
      if series != [] && CanJoin(series[|series| - 1], g) {
        var current := series[|series| - 1];
        assert r == series[..|series| - 1] + [current.(games := current.games + [g])];
        forall i | 0 < i < |r| ensures !CanJoin(r[i - 1], r[i].games[0]) {
          assert r[i - 1] == series[i - 1];
          assert r[i].games[0] == series[i].games[0];
        }
      } else {
        assert r == series + [NewSeries(g)];
        forall i | 0 < i < |r| ensures !CanJoin(r[i - 1], r[i].games[0]) {
          assert r[i - 1] == series[i - 1];
          if i < |series| {
            assert r[i] == series[i];
          }
        }
      }
    }
  }

  /** Three games against the same opponent on days 0, 2 and 5: the first two
    * form a series, the third opens another (five days from the first). */
  lemma GroupExample(a: Game, b: Game, c: Game)
    requires b.homeTeam == a.homeTeam && b.awayTeam == a.awayTeam
    requires c.homeTeam == a.homeTeam && c.awayTeam == a.awayTeam
    requires b.date == a.date + 2 * DayMs && c.date == a.date + 5 * DayMs
    ensures var r := Group([a, b, c]);
            |r| == 2 && r[0].games == [a, b] && r[1].games == [c]
  {
    assert [a, b, c][..2] == [a, b];
    assert [a, b][..1] == [a];
    assert [a][..0] == [];
    var first := Group([a]);
    assert first == [NewSeries(a)];
    DaysDiffBound(a, b);
    assert CanJoin(first[0], b);
    var second := Group([a, b]);
    assert second == Step(first, b);
    assert [a] + [b] == [a, b];
    assert second == [NewSeries(a).(games := [a, b])];
    DaysDiffBound(a, c);
    assert !CanJoin(second[0], c);
  }

  // ---------------------------------------------------------------- selection

  predicate IsMultiGame(s: Series) {
    |s.games| > 1
  }

  /** Some game of the series is live or upcoming. */
  predicate HasOpenGame(s: Series, now: int) {
    exists k :: 0 <= k < |s.games| && (GetGameState(s.games[k], now) == Live || GetGameState(s.games[k], now) == Upcoming)
  }

  /** Every game of the series is final. */
  predicate AllFinal(s: Series, now: int) {
    forall k :: 0 <= k < |s.games| ==> GetGameState(s.games[k], now) == Final
  }

  function MultiGameSeries(games: seq<Game>): seq<Series> {
    Seqs.Filter(Group(SortByDate(games)), IsMultiGame)
  }

  function RelevantSeries(allSeries: seq<Series>, now: int): seq<Series> {
    Seqs.Filter(allSeries, (s: Series) => HasOpenGame(s, now))
  }

  function CompletedSeries(allSeries: seq<Series>, now: int): seq<Series> {
    Seqs.Filter(allSeries, (s: Series) => AllFinal(s, now))
  }

  /** `seriesToShow`: the last completed series, then the first two series
    * with a live or upcoming game, at most three in all. */
  function SeriesToShow(games: seq<Game>, now: int): seq<Series> {
    var allSeries := MultiGameSeries(games);
    var relevant := RelevantSeries(allSeries, now);
    var completed := CompletedSeries(allSeries, now);
    var lastCompleted := if completed != [] then [completed[|completed| - 1]] else [];
    Seqs.Take(lastCompleted + Seqs.Take(relevant, 2), 3)
  }
  /** The shown series before the final cut to three, which never cuts. */
  lemma SeriesToShowParts(games: seq<Game>, now: int)
    ensures var allSeries := MultiGameSeries(games);
            var relevant := RelevantSeries(allSeries, now);
            var completed := CompletedSeries(allSeries, now);
            var lastCompleted := if completed != [] then [completed[|completed| - 1]] else [];
            SeriesToShow(games, now) == lastCompleted + relevant[..if |relevant| < 2 then |relevant| else 2]
  {
    var allSeries := MultiGameSeries(games);
    var relevant := RelevantSeries(allSeries, now);
    var completed := CompletedSeries(allSeries, now);
    var lastCompleted := if completed != [] then [completed[|completed| - 1]] else [];
    var both := lastCompleted + Seqs.Take(relevant, 2);
    assert Seqs.Take(both, 3) == both;
  }

  /** Every shown series is the last completed one or a relevant one. */
  lemma SeriesToShowSources(games: seq<Game>, now: int)
    ensures var r := SeriesToShow(games, now);
            var allSeries := MultiGameSeries(games);
            forall i :: 0 <= i < |r| ==> r[i] in CompletedSeries(allSeries, now) || r[i] in RelevantSeries(allSeries, now)
  {
    var allSeries := MultiGameSeries(games);
    var relevant := RelevantSeries(allSeries, now);
    var completed := CompletedSeries(allSeries, now);
    var lastCompleted := if completed != [] then [completed[|completed| - 1]] else [];
    var r := SeriesToShow(games, now);
    SeriesToShowParts(games, now);
    forall i | 0 <= i < |r| ensures r[i] in completed || r[i] in relevant {
      if i >= |lastCompleted| {
        assert r[i] == relevant[i - |lastCompleted|];
      } else {
        assert r[i] == completed[|completed| - 1];
      }
    }
  }

  /** Every shown series is a multi-game series of the grouping. */
  lemma SeriesToShowGrouped(games: seq<Game>, now: int)
    ensures var r := SeriesToShow(games, now);
            forall i :: 0 <= i < |r| ==> IsMultiGame(r[i]) && r[i] in Group(SortByDate(games))
  {
    var allSeries := MultiGameSeries(games);
    var r := SeriesToShow(games, now);
    SeriesToShowSources(games, now);
    Seqs.FilterMembers(Group(SortByDate(games)), IsMultiGame);
    Seqs.FilterMembers(allSeries, (s: Series) => HasOpenGame(s, now));
    Seqs.FilterMembers(allSeries, (s: Series) => AllFinal(s, now));
    forall i | 0 <= i < |r| ensures r[i] in allSeries {
      assert r[i] in CompletedSeries(allSeries, now) || r[i] in RelevantSeries(allSeries, now);
    }
  }

  /** At most three multi-game series are shown: the most recently completed
    * one first, when there is one, then the first two still open. */
  lemma SeriesToShowShape(games: seq<Game>, now: int)
    ensures var r := SeriesToShow(games, now);
            var allSeries := MultiGameSeries(games);
            var relevant := RelevantSeries(allSeries, now);
            var completed := CompletedSeries(allSeries, now);
            && |r| <= 3
            && (forall i :: 0 <= i < |r| ==> IsMultiGame(r[i]) && r[i] in Group(SortByDate(games)))
            && (completed != [] ==> r[0] == completed[|completed| - 1] && AllFinal(r[0], now)
                                    && r[1..] == relevant[..if |relevant| < 2 then |relevant| else 2])
            && (completed == [] ==> r == relevant[..if |relevant| < 2 then |relevant| else 2])
            && (forall i :: 0 <= i < |r| ==> r[i] in completed || r[i] in relevant)
  {
    SeriesToShowParts(games, now);
    SeriesToShowSources(games, now);
    SeriesToShowGrouped(games, now);
  }


  /** No series is both completed and still open, so the shown list never
    * repeats a series. */
  lemma CompletedAndOpenDisjoint(s: Series, now: int)
    requires s.games != []
    ensures !(AllFinal(s, now) && HasOpenGame(s, now))
  {
  }

  // ---------------------------------------------------------------- tally

  /** A final game the subject won, missing scores counting as 0. */
  predicate IsSeriesWin(g: Game, now: int) {
    GetGameState(g, now) == Final && SubjectScore(g).GetOr(0) > OpponentScore(g).GetOr(0)
  }

  predicate IsSeriesLoss(g: Game, now: int) {
    GetGameState(g, now) == Final && SubjectScore(g).GetOr(0) < OpponentScore(g).GetOr(0)
  }

  predicate IsSeriesTie(g: Game, now: int) {
    GetGameState(g, now) == Final && SubjectScore(g).GetOr(0) == OpponentScore(g).GetOr(0)
  }

  function SeriesWins(games: seq<Game>, now: int): nat {
    |Seqs.Filter(games, (g: Game) => IsSeriesWin(g, now))|
  }

  function SeriesLosses(games: seq<Game>, now: int): nat {
    |Seqs.Filter(games, (g: Game) => IsSeriesLoss(g, now))|
  }

  function SeriesTies(games: seq<Game>, now: int): nat {
    |Seqs.Filter(games, (g: Game) => IsSeriesTie(g, now))|
  }

  function FinalCount(games: seq<Game>, now: int): nat {
    |Seqs.Filter(games, (g: Game) => GetGameState(g, now) == Final)|
  }

  /** Only final games count, each at most once: a tie is neither a win nor
    * a loss, so wins and losses together never exceed the finals. */
  lemma {:induction false} SeriesTallyBound(games: seq<Game>, now: int)
    ensures SeriesWins(games, now) + SeriesLosses(games, now) + SeriesTies(games, now) == FinalCount(games, now)
    ensures SeriesWins(games, now) + SeriesLosses(games, now) <= FinalCount(games, now)
  {
    if games != [] {
      SeriesTallyBound(games[1..], now);
    }
  }

  /** The series result shown once every game is final. */
  function SeriesResultLabel(wins: nat, losses: nat): (text: string)
    ensures text == "Won" <==> wins > losses
    ensures text == "Lost" <==> wins < losses
    ensures text == "Split" <==> wins == losses
  {
    if wins > losses then "Won" else if wins < losses then "Lost" else "Split"
  }
}
