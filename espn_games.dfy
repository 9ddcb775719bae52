/**
 * Derived facts about a normalised `Game`: its lifecycle state, which side
 * is the subject team, the scoreboard status text for baseball, and the
 * chronological order of a schedule.
 */
module EspnGames {
  import opened Wrappers
  import opened JsText
  import opened EspnModel
  import Sorting

  // ---------------------------------------------------------------- state

  /** The provider's three known state codes. */
  predicate IsKnownState(state: Option<string>) {
    state == Some("in") || state == Some("post") || state == Some("pre")
  }

  /** `getGameState(game)`: the provider state when it is known, otherwise
    * final for a game dated before `now` and upcoming for any other. */
  function GetGameState(g: Game, now: int): (r: GameState)
    ensures r == Live <==> g.status.state == Some("in")
    ensures r == Final <==> g.status.state == Some("post") || (!IsKnownState(g.status.state) && g.date < now)
    ensures r == Upcoming <==> g.status.state == Some("pre") || (!IsKnownState(g.status.state) && now <= g.date)
  {
    var state := g.status.state;
    if state == Some("in") then Live
    else if state == Some("post") then Final
    else if state == Some("pre") then Upcoming
    else if g.date < now then Final
    else Upcoming
  }

  /** Only a game the provider marks in progress is live; the date fallback
    * never makes a game live, and moving `now` forward never turns a final
    * game back into an upcoming one. */
  lemma GameStateMonotone(g: Game, now: int, later: int)
    requires now <= later
    ensures GetGameState(g, now) == Final ==> GetGameState(g, later) == Final
    ensures GetGameState(g, later) == Upcoming ==> GetGameState(g, now) == Upcoming
    ensures GetGameState(g, now) == Live <==> GetGameState(g, later) == Live
  {
  }

  // ---------------------------------------------------------------- subject team

  /** The dashboard's subject is recognised by the abbreviation "SC" or by a
    * display name containing "South Carolina". */
  predicate IsSubjectTeam(t: Team) {
    t.abbreviation == Some("SC") || (t.displayName.Some? && Includes(t.displayName.value, "South Carolina"))
  }

  /** `isUSCGame(game)`. */
  function IsUSCGame(g: Game): (r: bool)
    ensures r <==> IsSubjectTeam(g.homeTeam) || IsSubjectTeam(g.awayTeam)
  {
    g.homeTeam.abbreviation == Some("SC")
    || g.awayTeam.abbreviation == Some("SC")
    || (g.homeTeam.displayName.Some? && Includes(g.homeTeam.displayName.value, "South Carolina"))
    || (g.awayTeam.displayName.Some? && Includes(g.awayTeam.displayName.value, "South Carolina"))
  }

  /** The subject is taken to be the home side exactly when the home team is
    * recognised; every other game treats the away side as the subject. */
  predicate IsHomeSubject(g: Game) {
    IsSubjectTeam(g.homeTeam)
  }

  function SubjectScore(g: Game): Option<int> {
    if IsHomeSubject(g) then g.homeScore else g.awayScore
  }

  function OpponentScore(g: Game): Option<int> {
    if IsHomeSubject(g) then g.awayScore else g.homeScore
  }

  function Opponent(g: Game): Team {
    if IsHomeSubject(g) then g.awayTeam else g.homeTeam
  }

  /** Subject and opponent are the two sides of the game, never the same side. */
  lemma SidesPartition(g: Game)
    ensures {SubjectScore(g), OpponentScore(g)} == {g.homeScore, g.awayScore}
    ensures Opponent(g) == (if IsHomeSubject(g) then g.awayTeam else g.homeTeam)
    ensures IsUSCGame(g) && !IsHomeSubject(g) ==> IsSubjectTeam(g.awayTeam)
  {
  }

  // ---------------------------------------------------------------- baseball status

  /** The suffix of an inning number: 1st, 2nd, 3rd, then "th" for every
    * other value, 11, 12 and 21 included. */
  function InningSuffix(period: int): (s: string)
    ensures |s| == 2 && !IsDigit(s[0])
    ensures period == 1 <==> s == "st"
    ensures period == 2 <==> s == "nd"
    ensures period == 3 <==> s == "rd"
    ensures !(1 <= period <= 3) ==> s == "th"
  {
    if period == 1 then "st" else if period == 2 then "nd" else if period == 3 then "rd" else "th"
  }

  /** The clock already names the half of the inning. */
  predicate NamesHalfInning(clock: string) {
    var lower := ToLower(clock);
    Includes(lower, "top") || Includes(lower, "bot") || Includes(lower, "mid") || Includes(lower, "end")
  }

  /** `formatBaseballStatus(game)`. */
  function FormatBaseballStatus(g: Game): (r: string)
    ensures r == "" <==> g.status.period.None? || g.status.period.value == 0
    ensures r != "" && Truthy(g.status.displayClock) && NamesHalfInning(g.status.displayClock.value)
            ==> r == g.status.displayClock.value
    ensures r != "" && !(Truthy(g.status.displayClock) && NamesHalfInning(g.status.displayClock.value))
            ==> ParseInt(r) == g.status.period && |r| > 2 && r[|r| - 2..] == InningSuffix(g.status.period.value)
  {
    var period := g.status.period;
    if period.None? || period.value == 0 then ""
    else
      var clock := g.status.displayClock;
      if Truthy(clock) && NamesHalfInning(clock.value) then clock.value
      else
        var suffix := InningSuffix(period.value);
        var text := IntToString(period.value) + suffix;
        ParseIntIgnoresTail(period.value, suffix);
        assert text[|text| - 2..] == suffix;
        text
  }

  /** Unless the clock names the half inning (an absent, empty or other clock
    * such as "0:00"), the status is the inning number and its suffix. */
  lemma FormatBaseballStatusOrdinal(g: Game, p: int)
    requires g.status.period == Some(p) && p != 0
    requires !(Truthy(g.status.displayClock) && NamesHalfInning(g.status.displayClock.value))
    ensures FormatBaseballStatus(g) == IntToString(p) + InningSuffix(p)
  {
  }

  lemma InningExamples()
    ensures IntToString(2) + InningSuffix(2) == "2nd"
    ensures IntToString(11) + InningSuffix(11) == "11th"
  {
    if true {
      assert IntToString(2) == [DigitChar(2)] == "2";
    }
    if true {
      assert NatToString(1) == [DigitChar(1)] == "1";
      assert IntToString(11) == NatToString(1) + [DigitChar(1)] == "11";
    }
  }

  // ---------------------------------------------------------------- chronology

  /** The schedule comparator: `a` may precede `b` when it is not later. */
  predicate DateNotAfter(a: Game, b: Game) {
    a.date <= b.date
  }

  lemma DateOrder()
    ensures Sorting.Total(DateNotAfter) && Sorting.Transitive(DateNotAfter)
  {
  }

  /** The schedule in ascending date order; games on the same date keep their
    * input order. */
  function SortByDate(games: seq<Game>): (r: seq<Game>)
    ensures multiset(r) == multiset(games)
    ensures forall i, j :: 0 <= i < j < |r| ==> r[i].date <= r[j].date
  {
    DateOrder();
    var r := Sorting.SortBy(games, DateNotAfter);
    assert forall i, j :: 0 <= i < j < |r| ==> r[i].date <= r[j].date by {
      forall i, j | 0 <= i < j < |r| ensures r[i].date <= r[j].date {
        Sorting.SortedPairwise(r, DateNotAfter, i, j);
      }
    }
    r
  }
  /** Sorting by date neither adds nor drops a game. */
  lemma SortByDateMembers(games: seq<Game>)
    ensures forall h :: h in SortByDate(games) <==> h in games
  {
    var r := SortByDate(games);
    assert forall h :: h in r <==> h in multiset(r);
    assert forall h :: h in games <==> h in multiset(games);
  }

}
