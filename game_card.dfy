/**
 * The game card: which side, if any, is marked the winner, the status line
 * above the teams, and when a team row shows its score.
 */
module GameCard {
  import opened Wrappers
  import opened JsText
  import opened EspnModel
  import opened EspnGames

  /** `homeWon`: a final game with both scores, the home score higher. */
  predicate HomeWon(g: Game, now: int) {
    GetGameState(g, now) == Final && g.homeScore.Some? && g.awayScore.Some? && g.homeScore.value > g.awayScore.value
  }

  /** `awayWon`: a final game with both scores, the away score higher. */
  predicate AwayWon(g: Game, now: int) {
    GetGameState(g, now) == Final && g.homeScore.Some? && g.awayScore.Some? && g.awayScore.value > g.homeScore.value
  }

  /** At most one side wins; a winner needs a final game with both scores; a
    * tie has no winner; and a final game with two different scores has one. */
  lemma WinnerFlags(g: Game, now: int)
    ensures !(HomeWon(g, now) && AwayWon(g, now))
    ensures HomeWon(g, now) || AwayWon(g, now) ==> GetGameState(g, now) == Final && g.homeScore.Some? && g.awayScore.Some?
    ensures g.homeScore.Some? && g.homeScore == g.awayScore ==> !HomeWon(g, now) && !AwayWon(g, now)
    ensures GetGameState(g, now) == Final && g.homeScore.Some? && g.awayScore.Some? && g.homeScore != g.awayScore
            ==> HomeWon(g, now) || AwayWon(g, now)
  {
  }

  /** The period suffix the game card and the live hero use: "st", "nd", then
    * "th" for every other period, 3 included. */
  function ShortOrdinalSuffix(period: Option<int>): (s: string)
    ensures s == "st" <==> period == Some(1)
    ensures s == "nd" <==> period == Some(2)
    ensures s == "th" <==> period != Some(1) && period != Some(2)
  {
    if period == Some(1) then "st" else if period == Some(2) then "nd" else "th"
  }

  /** The card's suffix agrees with the baseball status suffix except for
    * period 3, which the card writes "3th". */
  lemma SuffixesDifferOnlyAtThree(p: int)
    ensures ShortOrdinalSuffix(Some(p)) == InningSuffix(p) <==> p != 3
  {
  }

  /** `${n}` of an optional number. */
  function TemplateNumber(n: Option<int>): string {
    if n.Some? then IntToString(n.value) else "undefined"
  }

  /** The status line; `dateLabel` is the formatted game date, which the
    * model takes as given. */
  function StatusLabel(g: Game, now: int, dateLabel: string): (text: string)
    ensures GetGameState(g, now) == Final ==> text == "Final"
    ensures GetGameState(g, now) == Upcoming ==> text == dateLabel
    ensures GetGameState(g, now) == Live
            ==> text == TemplateText(g.status.displayClock) + " - " + TemplateNumber(g.status.period) + ShortOrdinalSuffix(g.status.period)
  {
    var state := GetGameState(g, now);
    if state == Final then "Final"
    else if state == Live then
      TemplateText(g.status.displayClock) + " - " + TemplateNumber(g.status.period) + ShortOrdinalSuffix(g.status.period)
    else dateLabel
  }

  /** A live label is never "Final", and its period part reads back as the
    * period. */
  lemma LiveLabel(g: Game, now: int, dateLabel: string, clock: string, p: int)
    requires GetGameState(g, now) == Live && g.status.displayClock == Some(clock) && g.status.period == Some(p)
    ensures var text := StatusLabel(g, now, dateLabel);
            text != "Final"
            && text[..|clock| + 3] == clock + " - "
            && ParseInt(text[|clock| + 3..]) == Some(p)
  {
    var text := StatusLabel(g, now, dateLabel);
    var suffix := ShortOrdinalSuffix(Some(p));
    assert text == clock + " - " + (IntToString(p) + suffix);
    assert text[|clock| + 3..] == IntToString(p) + suffix;
    ParseIntIgnoresTail(p, suffix);
    assert |text| >= |clock| + 3 + 3;
    assert text != "Final" by {
      if |clock| <= 2 {
        assert text[|clock| + 1] == '-';
      } else {
        assert |text| >= 6;
      }
    }
  }

  /** `score !== undefined && !Number.isNaN(score)`, with `NoStat` for
    * undefined and `NotANumber` for NaN. */
  predicate ScoreShown(score: Stat) {
    score.StatValue?
  }

  function StatOfScore(score: Option<int>): Stat {
    if score.Some? then StatValue(score.value) else NoStat
  }

  /** A parsed score is never NaN, so a row shows it exactly when it is present. */
  lemma ParsedScoreShown(score: Option<int>)
    ensures ScoreShown(StatOfScore(score)) <==> score.Some?
    ensures StatOfScore(score) != NotANumber
  {
  }
}
