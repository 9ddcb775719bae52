/**
 * The hero card at the top of the dashboard: which game it features (live,
 * then next upcoming, then most recent), the countdown to an upcoming game,
 * and the win/loss badge of a finished one.
 */
module SmartHero {
  import opened Wrappers
  import opened JsText
  import opened EspnModel
  import opened EspnGames
  import opened EspnTeamData
  import Seqs
  import opened GameCard

  // ---------------------------------------------------------------- countdown

  /** Days, hours and minutes of a non-negative millisecond difference, each
    * rounded down. */
  function CountdownParts(diff: int): (parts: (nat, nat, nat))
    requires diff >= 0
    ensures parts.1 <= 23 && parts.2 <= 59
    ensures var total := parts.0 * DayMs + parts.1 * HourMs + parts.2 * MinuteMs;
            total <= diff < total + MinuteMs
  {
    var days := diff / DayMs;
    var hours := (diff % DayMs) / HourMs;
    var minutes := (diff % HourMs) / MinuteMs;
    var dayRest := diff % DayMs;
    assert diff == days * DayMs + dayRest;
    assert dayRest == hours * HourMs + dayRest % HourMs;
    assert diff % HourMs == dayRest % HourMs;
    (days, hours, minutes)
  }

  /** `formatCountdown(date)` with the current time `now`. */
  function FormatCountdown(date: int, now: int): (text: string)
    ensures date < now ==> text == "Starting soon"
  {
    var diff := date - now;
    if diff < 0 then "Starting soon"
    else
      var parts := CountdownParts(diff);
      var days := parts.0;
      var hours := parts.1;
      var minutes := parts.2;
      if days > 0 then NatToString(days) + "d " + NatToString(hours) + "h"
      else if hours > 0 then NatToString(hours) + "h " + NatToString(minutes) + "m"
      else NatToString(minutes) + "m"
  }

  /** The format is chosen by the largest non-zero unit, whose count the text
    * starts with. */
  lemma CountdownFormat(date: int, now: int)
    requires now <= date
    ensures var parts := CountdownParts(date - now);
            var text := FormatCountdown(date, now);
            && (parts.0 > 0 ==> text == NatToString(parts.0) + "d " + NatToString(parts.1) + "h")
            && (parts.0 == 0 && parts.1 > 0 ==> text == NatToString(parts.1) + "h " + NatToString(parts.2) + "m")
            && (parts.0 == 0 && parts.1 == 0 ==> text == NatToString(parts.2) + "m")
            && ParseInt(text) == Some(if parts.0 > 0 then parts.0 else if parts.1 > 0 then parts.1 else parts.2)
  {
    var parts := CountdownParts(date - now);
    var text := FormatCountdown(date, now);
    if parts.0 > 0 {
      var tail := "d " + NatToString(parts.1) + "h";
      assert text == NatToString(parts.0) + tail;
      ParseIntOfNonNegative(parts.0, tail);
    } else if parts.1 > 0 {
      var tail := "h " + NatToString(parts.2) + "m";
      assert text == NatToString(parts.1) + tail;
      ParseIntOfNonNegative(parts.1, tail);
    } else {
      ParseIntOfNonNegative(parts.2, "m");
    }
  }

  // ---------------------------------------------------------------- badges

  /** `{s}` as a JSX child: an absent value renders nothing. */
  function JsxText(s: Option<string>): string {
    s.GetOr("")
  }

  /** `{n}` as a JSX child: a number renders its digits, an absent one nothing. */
  function JsxNumber(n: Option<int>): string {
    if n.Some? then IntToString(n.value) else ""
  }

  /** The live hero's header, rendered by JSX: the clock, " - ", the period
    * with the same short suffix the game card uses, and " Half". */
  function LiveHeader(g: Game): string {
    JsxText(g.status.displayClock) + " - " + JsxNumber(g.status.period)
    + ShortOrdinalSuffix(g.status.period) + " Half"
  }

  /** For a live game with both a clock and a period, the hero's header is the
    * game card's status label followed by " Half". */
  lemma LiveHeaderExtendsCardLabel(g: Game, now: int, dateLabel: string)
    requires GetGameState(g, now) == Live
    requires g.status.displayClock.Some? && g.status.period.Some?
    ensures LiveHeader(g) == StatusLabel(g, now, dateLabel) + " Half"
    ensures g.status.period == Some(3) ==> LiveHeader(g)[|LiveHeader(g)| - 7..] == "th Half"
  {
  }

  /** Without a clock the two differ: the card's template literal prints
    * "undefined" where the hero's JSX prints nothing. */
  lemma LiveHeaderWithoutClock(g: Game, now: int, dateLabel: string)
    requires GetGameState(g, now) == Live && g.status.displayClock.None?
    ensures LiveHeader(g)[..3] == " - "
    ensures StatusLabel(g, now, dateLabel)[..12] == "undefined - "
    ensures LiveHeader(g) != StatusLabel(g, now, dateLabel) + " Half"
  {
    var card := StatusLabel(g, now, dateLabel);
    var rest := JsxNumber(g.status.period) + ShortOrdinalSuffix(g.status.period) + " Half";
    assert LiveHeader(g) == " - " + rest;
    assert card == "undefined - " + (TemplateNumber(g.status.period) + ShortOrdinalSuffix(g.status.period));
    assert LiveHeader(g)[0] != (card + " Half")[0];
  }

  /** The recent-game badge: WIN when the subject scored more, a missing score
    * counting as 0. */
  predicate RecentWon(g: Game) {
    SubjectScore(g).GetOr(0) > OpponentScore(g).GetOr(0)
  }

  /** With both scores known the badge agrees with the scored result; with
    * only the subject's score known, any positive score is a win. */
  lemma RecentWonCases(g: Game)
    ensures SubjectScore(g).Some? && OpponentScore(g).Some?
            ==> (RecentWon(g) <==> SubjectScore(g).value > OpponentScore(g).value)
    ensures SubjectScore(g).None? && OpponentScore(g).None? ==> !RecentWon(g)
    ensures OpponentScore(g).None? && SubjectScore(g).Some? ==> (RecentWon(g) <==> SubjectScore(g).value > 0)
  {
  }

  // ---------------------------------------------------------------- precedence

  datatype Hero =
    | LoadingCard
    | NoDataCard
    | LiveHero(game: Game)
    | UpcomingHero(game: Game)
    | RecentHero(game: Game, record: string)
    | NoGamesCard

  predicate IsLiveAt(g: Game, now: int) {
    GetGameState(g, now) == Live
  }

  /** `SmartHero({data, isLoading})`. */
  function SelectHero(isLoading: bool, data: Option<TeamData>, now: int): (h: Hero)
    ensures isLoading ==> h == LoadingCard
    ensures !isLoading && data.None? ==> h == NoDataCard
    ensures h.LiveHero? ==> data.Some? && h.game in data.value.schedule && IsLiveAt(h.game, now)
    ensures h.UpcomingHero? ==> data.Some? && data.value.nextGame == Some(h.game) && GetGameState(h.game, now) == Upcoming
                                && forall g :: g in data.value.schedule ==> !IsLiveAt(g, now)
    ensures h.RecentHero? ==> data.Some? && data.value.lastGame == Some(h.game) && h.record == data.value.record.overall
    // loaded data: the first live game of the schedule wins
    ensures !isLoading && data.Some?
            ==> forall k :: (0 <= k < |data.value.schedule| && IsLiveAt(data.value.schedule[k], now)
                             && forall j :: 0 <= j < k ==> !IsLiveAt(data.value.schedule[j], now))
                            ==> h == LiveHero(data.value.schedule[k])
    // no live game: an upcoming next game, else the last game, else the empty card
    ensures !isLoading && data.Some? && (forall g :: g in data.value.schedule ==> !IsLiveAt(g, now))
            ==> var d := data.value;
                var upcoming := d.nextGame.Some? && GetGameState(d.nextGame.value, now) == Upcoming;
                && (upcoming ==> h == UpcomingHero(d.nextGame.value))
                && (!upcoming && d.lastGame.Some? ==> h == RecentHero(d.lastGame.value, d.record.overall))
                && (!upcoming && d.lastGame.None? ==> h == NoGamesCard)
  {
    if isLoading then LoadingCard
    else if data.None? then NoDataCard
    else
      var d := data.value;
      match Seqs.Find(d.schedule, (g: Game) => IsLiveAt(g, now))
      case Some(liveGame) => LiveHero(liveGame)
      case None =>
        if d.nextGame.Some? && GetGameState(d.nextGame.value, now) == Upcoming then UpcomingHero(d.nextGame.value)
        else if d.lastGame.Some? then RecentHero(d.lastGame.value, d.record.overall)
        else NoGamesCard
  }

  /** On the team data the dashboard builds, the hero is the next game when one
    * exists (live first, then upcoming), otherwise the last final, otherwise
    * the empty card. */
  lemma HeroOfTeamData(info: RawTeamInfo, schedule: seq<Game>, now: int)
    ensures var d := TeamDataOf(info, schedule, now);
            var h := SelectHero(false, Some(d), now);
            && (d.nextGame.Some? ==> h == (if IsLiveAt(d.nextGame.value, now) then LiveHero(d.nextGame.value) else UpcomingHero(d.nextGame.value)))
            && (d.nextGame.None? && d.lastGame.Some? ==> h == RecentHero(d.lastGame.value, d.record.overall))
            && (d.nextGame.None? && d.lastGame.None? ==> h == NoGamesCard)
  {
    var d := TeamDataOf(info, schedule, now);
    var sorted := SortByDate(schedule);
    assert d.schedule == sorted;
    Seqs.FindIsFilterHead(sorted, (g: Game) => IsLiveAt(g, now));
    assert Seqs.Filter(sorted, (g: Game) => IsLiveAt(g, now)) == LiveGames(sorted, now) by {
      FilterSame(sorted, now);
    }
    var future := FutureGames(sorted, now);
    if future != [] {
      assert future[0] in future;
    }
  }

  lemma {:induction false} FilterSame(s: seq<Game>, now: int)
    ensures Seqs.Filter(s, (g: Game) => IsLiveAt(g, now)) == GamesInState(s, now, Live)
  {
    if s != [] {
      FilterSame(s[1..], now);
    }
  }
}
