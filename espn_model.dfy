/**
 * The data shapes of the provider client: the provider's loosely typed
 * records, decoded into datatypes whose every field is optional (`Raw*`),
 * and the normalised values the dashboard works with (`Team`, `Game`,
 * `TeamData`, `LinescoreEntry`, `StandingsEntry`). Dates are milliseconds
 * since the epoch.
 */
module EspnModel {
  import opened Wrappers

  /** Milliseconds in a minute, an hour and a day. */
  const MinuteMs: int := 1000 * 60
  const HourMs: int := 1000 * 60 * 60
  const DayMs: int := 1000 * 60 * 60 * 24

  /** A scalar the provider may send where a number is expected. */
  datatype JsValue = JsString(s: string) | JsNumber(n: int) | JsBool(b: bool)

  /** A field whose `null` and `undefined` are told apart by the code. */
  datatype Field<T> = Undefined | Null | Defined(value: T)

  /** A competitor's `score`: a nested `{value, displayValue}` object or a scalar. */
  datatype RawScore =
    | ScoreObject(value: Option<JsValue>, displayValue: Option<JsValue>)
    | ScoreScalar(scalar: JsValue)

  /** One entry of a competitor's `statistics` list. */
  datatype RawStatistic = RawStatistic(name: Option<string>, displayValue: Option<JsValue>, value: Option<JsValue>)

  /** The team-identity fields of a provider record; `firstLogoHref` is `logos[0].href`. */
  datatype RawTeam = RawTeam(
    id: Option<string>,
    name: Option<string>,
    shortDisplayName: Option<string>,
    abbreviation: Option<string>,
    displayName: Option<string>,
    logo: Option<string>,
    firstLogoHref: Option<string>)

  /** One per-inning entry of a competitor's `linescores` list. */
  datatype RawLinescore = RawLinescore(value: Option<int>, displayValue: Option<string>)

  /**
   * One side of a game. `team` is the nested team record; `own` holds the
   * team-identity fields found directly on the competitor record, which are
   * read when `team` is absent. `curatedRank` is `curatedRank.current` and
   * `firstRecordSummary` is `records[0].summary`.
   */
  datatype RawCompetitor = RawCompetitor(
    homeAway: Option<string>,
    team: Option<RawTeam>,
    own: RawTeam,
    curatedRank: Option<int>,
    firstRecordSummary: Option<string>,
    score: Option<RawScore>,
    hits: Field<JsValue>,
    errors: Field<JsValue>,
    statistics: Option<seq<RawStatistic>>,
    linescores: seq<RawLinescore>)

  datatype RawOdds = RawOdds(details: Option<string>, overUnder: Option<real>)

  /** `competition.broadcasts[i].names` and `competition.geoBroadcasts[i].media.shortName`. */
  datatype RawBroadcast = RawBroadcast(names: seq<string>)
  datatype RawGeoBroadcast = RawGeoBroadcast(mediaShortName: Option<string>)

  /** The first element of an event's `competitions`. An absent list is empty. */
  datatype RawCompetition = RawCompetition(
    competitors: seq<RawCompetitor>,
    odds: seq<RawOdds>,
    broadcasts: seq<RawBroadcast>,
    geoBroadcasts: seq<RawGeoBroadcast>,
    noteHeadlines: seq<Option<string>>,
    venueFullName: Option<string>)

  /** The status block, copied as the provider sends it. */
  datatype GameStatus = GameStatus(
    typeId: Option<string>,
    typeName: Option<string>,
    state: Option<string>,
    completed: Option<bool>,
    displayClock: Option<string>,
    period: Option<int>)

  datatype RawEvent = RawEvent(
    id: Option<string>,
    date: int,
    name: Option<string>,
    status: GameStatus,
    competitions: seq<RawCompetition>)

  datatype Sport = MensBasketball | WomensBasketball | Baseball

  datatype Team = Team(
    id: Option<string>,
    name: Option<string>,
    abbreviation: Option<string>,
    displayName: Option<string>,
    logo: string,
    record: Option<string>,
    rank: Option<int>)

  datatype Odds = Odds(spread: Option<string>, overUnder: Option<real>)

  /** A parsed box-score count: absent, `NaN`, or a number. */
  datatype Stat = NoStat | NotANumber | StatValue(n: int)

  datatype Game = Game(
    id: Option<string>,
    date: int,
    name: Option<string>,
    status: GameStatus,
    homeTeam: Team,
    awayTeam: Team,
    homeScore: Option<int>,
    awayScore: Option<int>,
    venue: Option<string>,
    broadcast: Option<string>,
    isConference: bool,
    odds: Option<Odds>,
    homeHits: Stat,
    awayHits: Stat,
    homeErrors: Stat,
    awayErrors: Stat,
    sport: Option<Sport>)

  datatype GameState = Live | Upcoming | Final

  /** One item of the team's `record.items`. */
  datatype RawRecordItem = RawRecordItem(recordType: Option<string>, summary: Option<string>)

  /** The team endpoint's `team` object. */
  datatype RawTeamInfo = RawTeamInfo(
    id: Option<string>,
    name: Option<string>,
    abbreviation: Option<string>,
    displayName: Option<string>,
    firstLogoHref: Option<string>,
    recordItems: seq<RawRecordItem>)

  datatype TeamRecord = TeamRecord(overall: string, conference: string)

  datatype TeamData = TeamData(
    team: Team,
    record: TeamRecord,
    nextGame: Option<Game>,
    lastGame: Option<Game>,
    schedule: seq<Game>)

  datatype LinescoreEntry = LinescoreEntry(inning: int, homeRuns: string, awayRuns: string)

  /** A parsed `hits`/`errors` count of the game summary: `NaN` or a number. */
  datatype SummaryCount = CountNaN | Count(n: int)

  datatype GameSummary = GameSummary(
    linescore: seq<LinescoreEntry>,
    homeHits: SummaryCount,
    awayHits: SummaryCount,
    homeErrors: SummaryCount,
    awayErrors: SummaryCount)

  datatype StandingsEntry = StandingsEntry(
    teamId: string,
    teamName: string,
    abbreviation: string,
    logo: string,
    overall: string,
    wins: int,
    losses: int,
    winPercent: string,
    streak: string,
    runDifferential: string)
}
