/**
 * The two list views: upcoming games in schedule order, and recent results
 * newest first, each cut to a limit and replaced by a message when empty.
 */
module GameLists {
  import opened EspnModel
  import opened EspnGames
  import Seqs

  /** What a list view renders. */
  datatype ListView = EmptyMessage(text: string) | GameCards(games: seq<Game>)

  function View(games: seq<Game>, message: string): (v: ListView)
    ensures v.GameCards? ==> v.games == games && games != []
    ensures v.EmptyMessage? <==> games == []
  {
    if |games| == 0 then EmptyMessage(message) else GameCards(games)
  }

  // ---------------------------------------------------------------- schedule

  /** `games.filter(upcoming).slice(0, limit)`. */
  function UpcomingGames(games: seq<Game>, now: int, limit: int): seq<Game> {
    Seqs.Take(Seqs.Filter(games, (g: Game) => GetGameState(g, now) == Upcoming), limit)
  }

  function ScheduleList(games: seq<Game>, now: int, limit: int): ListView {
    View(UpcomingGames(games, now, limit), "No upcoming games scheduled")
  }

  /** The schedule shows a prefix of the upcoming games, in input order, at
    * most `limit` of them, all upcoming, and the message when there are none. */
  lemma ScheduleListShape(games: seq<Game>, now: int, limit: int)
    ensures var shown := UpcomingGames(games, now, limit);
            var upcoming := Seqs.Filter(games, (g: Game) => GetGameState(g, now) == Upcoming);
            && shown == upcoming[..|shown|]
            && (0 <= limit ==> |shown| == if limit < |upcoming| then limit else |upcoming|)
            && (forall g :: g in shown ==> g in games && GetGameState(g, now) == Upcoming)
            && (ScheduleList(games, now, limit) == EmptyMessage("No upcoming games scheduled") <==> shown == [])
  {
    var upcoming := Seqs.Filter(games, (g: Game) => GetGameState(g, now) == Upcoming);
    var shown := UpcomingGames(games, now, limit);
    Seqs.FilterMembers(games, (g: Game) => GetGameState(g, now) == Upcoming);
    forall g | g in shown ensures g in upcoming {
      var i :| 0 <= i < |shown| && shown[i] == g;
      assert upcoming[i] == g;
    }
  }

  // ---------------------------------------------------------------- results

  function FinalGames(games: seq<Game>, now: int): seq<Game> {
    Seqs.Filter(games, (g: Game) => GetGameState(g, now) == Final)
  }

  /** `games.filter(final).reverse().slice(0, limit)`. */
  function RecentGames(games: seq<Game>, now: int, limit: int): seq<Game> {
    Seqs.Take(Seqs.Reverse(FinalGames(games, now)), limit)
  }

  function ResultsList(games: seq<Game>, now: int, limit: int): ListView {
    View(RecentGames(games, now, limit), "No recent games")
  }

  /** The results are the last `min(limit, n)` finals, newest first. */
  lemma ResultsAreLastFinals(games: seq<Game>, now: int, limit: int)
    ensures var finals := FinalGames(games, now);
            RecentGames(games, now, limit) == Seqs.Reverse(finals[|finals| - Seqs.SliceEnd(|finals|, limit)..])
  {
    var finals := FinalGames(games, now);
    var shown := RecentGames(games, now, limit);
    Seqs.LastWindow(finals, limit);
    Seqs.ReverseReverse(shown);
  }

  /** The results show the last `min(limit, n)` finals, newest first, all of
    * them final, and the message when there are none. */
  lemma ResultsListShape(games: seq<Game>, now: int, limit: int)
    ensures var shown := RecentGames(games, now, limit);
            var finals := FinalGames(games, now);
            && shown == Seqs.Reverse(finals[|finals| - Seqs.SliceEnd(|finals|, limit)..])
            && (0 <= limit ==> |shown| == if limit < |finals| then limit else |finals|)
            && (forall g :: g in shown ==> g in games && GetGameState(g, now) == Final)
            && (ResultsList(games, now, limit) == EmptyMessage("No recent games") <==> shown == [])
  {
    var finals := FinalGames(games, now);
    var shown := RecentGames(games, now, limit);
    Seqs.FilterMembers(games, (g: Game) => GetGameState(g, now) == Final);
    ResultsAreLastFinals(games, now, limit);
    forall g | g in shown ensures g in finals {
      var i :| 0 <= i < |shown| && shown[i] == g;
      assert shown[i] == Seqs.Reverse(finals)[i] == finals[|finals| - 1 - i];
    }
  }
}
