/**
 * The scalar parsers and the game normaliser of the provider client: one
 * provider event record becomes one `Game`. Scores, statistics and
 * box-score counts degrade to "absent" instead of failing; the conference
 * flag is always a concrete boolean.
 */
module EspnParse {
  import opened Wrappers
  import opened JsText
  import opened EspnModel
  import Seqs

  /** `String(v)`. */
  function JsToString(v: JsValue): string {
    match v
    case JsString(s) => s
    case JsNumber(n) => IntToString(n)
    case JsBool(b) => if b then "true" else "false"
  }

  /** `parseInt(String(v), 10)`. */
  function ParseValue(v: JsValue): Option<int> {
    ParseInt(JsToString(v))
  }

  /** A number reads back as itself. */
  lemma ParseValueOfNumber(v: JsValue)
    ensures v.JsNumber? ==> ParseValue(v) == Some(v.n)
  {
    if v.JsNumber? {
      ParseIntOfIntToString(v.n);
    }
  }

  // ---------------------------------------------------------------- scores

  /** The value `parseScore` reads: `score.value ?? score.displayValue` for an
    * object, the scalar itself otherwise. */
  function ScoreValue(score: RawScore): Option<JsValue> {
    match score
    case ScoreObject(value, displayValue) => if value.Some? then value else displayValue
    case ScoreScalar(scalar) => Some(scalar)
  }

  /** `parseScore(competitor)`: the leading integer of the score, or absent. */
  function ParseScore(competitor: Option<RawCompetitor>): (r: Option<int>)
    ensures competitor.None? || competitor.value.score.None? ==> r.None?
  {
    if competitor.None? then None
    else match competitor.value.score
      case None => None
      case Some(score) =>
        match ScoreValue(score)
        case None => None
        case Some(v) => ParseValue(v)
  }

  /** A numeric score, whether sent as a scalar or as the object's `value`,
    * is returned as that number, whatever the `displayValue`. */
  lemma ParseScoreNumber(c: RawCompetitor, n: int, displayValue: Option<JsValue>)
    requires c.score == Some(ScoreScalar(JsNumber(n))) || c.score == Some(ScoreObject(Some(JsNumber(n)), displayValue))
    ensures ParseScore(Some(c)) == Some(n)
  {
    ParseIntOfIntToString(n);
  }

  /** `value` is preferred over `displayValue`; `displayValue` is used only
    * when `value` is absent; an object with neither gives absent. */
  lemma ParseScoreObject(c: RawCompetitor, value: Option<JsValue>, displayValue: Option<JsValue>)
    requires c.score == Some(ScoreObject(value, displayValue))
    ensures value.Some? ==> ParseScore(Some(c)) == ParseValue(value.value)
    ensures value.None? && displayValue.Some? ==> ParseScore(Some(c)) == ParseValue(displayValue.value)
    ensures value.None? && displayValue.None? ==> ParseScore(Some(c)).None?
  {
  }

  /** A score string that does not start with a number is absent, not an error. */
  lemma ParseScoreNaN(c: RawCompetitor, s: string)
    requires c.score == Some(ScoreScalar(JsString(s)))
    requires var t := SignOf(TrimStart(s)).1; t == [] || !IsDigit(t[0])
    ensures ParseScore(Some(c)) == None
  {
    ParseIntNaN(s);
    assert ParseValue(JsString(s)) == None;
    assert ScoreValue(c.score.value) == Some(JsString(s));
  }

  // ---------------------------------------------------------------- statistics

  predicate HasName(stat: RawStatistic, statName: string) {
    stat.name == Some(statName)
  }

  /** `parseStatistic(competitor, statName)`: the first statistic named exactly
    * `statName`, its `displayValue ?? value` parsed; absent otherwise. */
  function ParseStatistic(competitor: Option<RawCompetitor>, statName: string): (r: Option<int>)
    ensures r.Some? ==> competitor.Some? && competitor.value.statistics.Some?
                        && exists k :: 0 <= k < |competitor.value.statistics.value|
                                       && HasName(competitor.value.statistics.value[k], statName)
  {
    if competitor.None? || competitor.value.statistics.None? then None
    else match Seqs.Find(competitor.value.statistics.value, (s: RawStatistic) => HasName(s, statName))
      case None => None
      case Some(stat) =>
        var raw := if stat.displayValue.Some? then stat.displayValue else stat.value;
        ParseInt(if raw.Some? then JsToString(raw.value) else "undefined")
  }

  /** The first exact-name match decides: its `displayValue` is preferred over
    * its `value`, and a statistic with neither is absent. */
  lemma ParseStatisticFirstMatch(c: RawCompetitor, statName: string, k: nat)
    requires c.statistics.Some? && k < |c.statistics.value|
    requires HasName(c.statistics.value[k], statName)
    requires forall j :: 0 <= j < k ==> !HasName(c.statistics.value[j], statName)
    ensures var stat := c.statistics.value[k];
            ParseStatistic(Some(c), statName)
            == if stat.displayValue.Some? then ParseValue(stat.displayValue.value)
               else if stat.value.Some? then ParseValue(stat.value.value)
               else None
  {
    Seqs.FindFirstMatch(c.statistics.value, (s: RawStatistic) => HasName(s, statName), k);
    ParseIntNonNumeric("undefined");
  }

  /** With no statistics list, or no statistic of that exact name, the result
    * is absent. */
  lemma ParseStatisticMissing(c: RawCompetitor, statName: string)
    requires c.statistics.None? || forall j :: 0 <= j < |c.statistics.value| ==> !HasName(c.statistics.value[j], statName)
    ensures ParseStatistic(Some(c), statName) == None
  {
  }

  // ---------------------------------------------------------------- teams

  /** A provider rank is kept only when it is non-zero and at most 25; the
    * provider's "unranked" value 99 is dropped. */
  function NormalizeRank(rawRank: Option<int>): (rank: Option<int>)
    ensures rank.Some? ==> rank == rawRank && rank.value != 0 && rank.value <= 25
    ensures rawRank.Some? && rawRank.value != 0 && rawRank.value <= 25 ==> rank == rawRank
  {
    if rawRank.Some? && rawRank.value != 0 && rawRank.value <= 25 then rawRank else None
  }

  lemma NormalizeRankExamples(r: int)
    ensures 26 <= r ==> NormalizeRank(Some(r)) == None
    ensures 1 <= r <= 25 ==> NormalizeRank(Some(r)) == Some(r)
    ensures NormalizeRank(Some(0)) == None && NormalizeRank(None) == None
  {
  }

  /** `parseTeam(teamData)`: the nested team record if present, else the
    * competitor record itself, with name, logo, record and rank fallbacks. */
  function ParseTeam(c: RawCompetitor): (t: Team)
    ensures t.rank == NormalizeRank(c.curatedRank)
    ensures t.record == c.firstRecordSummary
    ensures var team := if c.team.Some? then c.team.value else c.own;
            && t.id == team.id && t.abbreviation == team.abbreviation && t.displayName == team.displayName
            && t.name == Or(team.name, team.shortDisplayName)
            && (Truthy(t.name) <==> Truthy(team.name) || Truthy(team.shortDisplayName))
            && (Truthy(team.logo) ==> t.logo == team.logo.value)
            && (!Truthy(team.logo) && Truthy(team.firstLogoHref) ==> t.logo == team.firstLogoHref.value)
            && (!Truthy(team.logo) && !Truthy(team.firstLogoHref) ==> t.logo == "")
  {
    var team := if c.team.Some? then c.team.value else c.own;
    Team(
      team.id,
      Or(team.name, team.shortDisplayName),
      team.abbreviation,
      team.displayName,
      if Truthy(team.logo) then team.logo.value
      else if Truthy(team.firstLogoHref) then team.firstLogoHref.value
      else "",
      c.firstRecordSummary,
      NormalizeRank(c.curatedRank))
  }

  // ---------------------------------------------------------------- conference

  /** The conference's team abbreviations, with the provider's variants. */
  const SecTeams: seq<string> := [
    "ALA", "ARK", "AUB", "FLA", "UGA", "UK", "LSU", "MISS", "MSST",
    "MIZ", "SC", "TENN", "TAMU", "VAN", "OU", "TEX",
    "MIZZ", "OKLA", "TA&M", "BAMA"
  ]

  /** Note keywords that mark a neutral-site event rather than conference play. */
  const ExcludedNoteKeywords: seq<string> := ["championship", "tournament", "challenge", "classic", "invitational"]

  predicate IsSecAbbreviation(abbr: Option<string>) {
    abbr.Some? && ToUpper(abbr.value) in SecTeams
  }

  predicate IsTournamentNote(notes: string) {
    Includes(notes, "championship") || Includes(notes, "tournament") || Includes(notes, "challenge")
    || Includes(notes, "classic") || Includes(notes, "invitational")
  }

  /** The lower-cased first note headline, or "" when there is none. */
  function NoteText(comp: RawCompetition): string {
    if |comp.noteHeadlines| > 0 && comp.noteHeadlines[0].Some? then ToLower(comp.noteHeadlines[0].value) else ""
  }

  lemma TournamentNoteKeywords(notes: string)
    ensures IsTournamentNote(notes) <==> exists k :: 0 <= k < |ExcludedNoteKeywords| && Includes(notes, ExcludedNoteKeywords[k])
  {
    var w := ExcludedNoteKeywords;
    assert w[0] == "championship" && w[1] == "tournament" && w[2] == "challenge" && w[3] == "classic" && w[4] == "invitational";
  }

  /** Conference classification from the two nested-team abbreviations and the
    * lower-cased note text. */
  function IsConference(homeAbbr: Option<string>, awayAbbr: Option<string>, notes: string): (r: bool)
    ensures r ==> homeAbbr.Some? && awayAbbr.Some?
    ensures r <==> IsSecAbbreviation(homeAbbr) && IsSecAbbreviation(awayAbbr)
                   && forall k :: 0 <= k < |ExcludedNoteKeywords| ==> !Includes(notes, ExcludedNoteKeywords[k])
  {
    TournamentNoteKeywords(notes);
    var bothSec := IsSecAbbreviation(homeAbbr) && IsSecAbbreviation(awayAbbr);
    bothSec && !IsTournamentNote(notes)
  }

  /** The classification does not depend on which side is home. */
  lemma IsConferenceSymmetric(homeAbbr: Option<string>, awayAbbr: Option<string>, notes: string)
    ensures IsConference(homeAbbr, awayAbbr, notes) == IsConference(awayAbbr, homeAbbr, notes)
  {
  }

  /** Abbreviations are compared case-insensitively. */
  lemma IsConferenceIgnoresCase(homeAbbr: string, awayAbbr: string, notes: string)
    ensures IsConference(Some(ToUpper(homeAbbr)), Some(awayAbbr), notes) == IsConference(Some(homeAbbr), Some(awayAbbr), notes)
  {
    ToUpperIdempotent(homeAbbr);
  }

  /** A headline containing an excluded keyword in any letter case makes the
    * game non-conference, even between two conference members. */
  lemma TournamentNoteExcludes(comp: RawCompetition, homeAbbr: Option<string>, awayAbbr: Option<string>, w: string)
    requires |comp.noteHeadlines| > 0 && comp.noteHeadlines[0].Some?
    requires Includes(comp.noteHeadlines[0].value, w)
    requires ToLower(w) in ExcludedNoteKeywords
    ensures !IsConference(homeAbbr, awayAbbr, NoteText(comp))
  {
    IncludesToLower(comp.noteHeadlines[0].value, w);
  }

  // ---------------------------------------------------------------- games

  predicate IsSide(c: RawCompetitor, side: string) {
    c.homeAway == Some(side)
  }

  /** `competitors.find(c => c.homeAway === side)`. */
  function FindSide(competitors: seq<RawCompetitor>, side: string): Option<RawCompetitor> {
    Seqs.Find(competitors, (c: RawCompetitor) => IsSide(c, side))
  }

  /** `parseTeam` dereferences the competitor without a guard, so an event
    * without both a home and an away competitor cannot be normalised. */
  predicate HasBothSides(e: RawEvent) {
    |e.competitions| > 0
    && FindSide(e.competitions[0].competitors, "home").Some?
    && FindSide(e.competitions[0].competitors, "away").Some?
  }

  /** `homeCompetitor?.team?.abbreviation`. */
  function NestedAbbreviation(c: RawCompetitor): Option<string> {
    if c.team.Some? then c.team.value.abbreviation else None
  }

  /** Hits or errors: a direct field that is present (even `null`) is parsed
    * without a NaN filter; otherwise the named statistic is looked up. */
  function BoxCount(c: RawCompetitor, field: Field<JsValue>, statName: string): (r: Stat)
    ensures field.Undefined? ==> r != NotANumber
    ensures !field.Undefined? ==> r != NoStat
    ensures r.StatValue? && field.Undefined? ==> ParseStatistic(Some(c), statName) == Some(r.n)
  {
    if !field.Undefined? then
      match ParseInt(if field.Null? then "null" else JsToString(field.value))
      case Some(n) => StatValue(n)
      case None => NotANumber
    else
      match ParseStatistic(Some(c), statName)
      case Some(n) => StatValue(n)
      case None => NoStat
  }

  /** A direct numeric field is taken as it is. */
  lemma BoxCountDirectNumber(c: RawCompetitor, n: int, statName: string)
    ensures BoxCount(c, Defined(JsNumber(n)), statName) == StatValue(n)
  {
    ParseIntOfIntToString(n);
  }

  /** A `null` direct field yields NaN, where a missing statistic yields absent. */
  lemma BoxCountNull(c: RawCompetitor, statName: string)
    ensures BoxCount(c, Null, statName) == NotANumber
  {
    ParseIntNonNumeric("null");
  }

  /** `broadcasts[0].names[0] || geoBroadcasts[0].media.shortName`. */
  function BroadcastName(comp: RawCompetition): Option<string> {
    var primary := if |comp.broadcasts| > 0 && |comp.broadcasts[0].names| > 0 then Some(comp.broadcasts[0].names[0]) else None;
    var secondary := if |comp.geoBroadcasts| > 0 then comp.geoBroadcasts[0].mediaShortName else None;
    Or(primary, secondary)
  }

  /** `parseGame(event, sport)`. */
  function ParseGame(e: RawEvent, sport: Option<Sport>): (g: Game)
    requires HasBothSides(e)
    ensures g.date == e.date && g.status == e.status && g.sport == sport
    ensures var comp := e.competitions[0];
            var home := FindSide(comp.competitors, "home").value;
            var away := FindSide(comp.competitors, "away").value;
            && IsSide(home, "home") && IsSide(away, "away")
            && (g.isConference <==> IsSecAbbreviation(NestedAbbreviation(home)) && IsSecAbbreviation(NestedAbbreviation(away))
                                    && !IsTournamentNote(NoteText(comp)))
            && g.homeScore == ParseScore(Some(home)) && g.awayScore == ParseScore(Some(away))
            && g.homeTeam.rank == NormalizeRank(home.curatedRank) && g.awayTeam.rank == NormalizeRank(away.curatedRank)
            && g.homeTeam == ParseTeam(home) && g.awayTeam == ParseTeam(away)
            && g.homeHits == BoxCount(home, home.hits, "hits") && g.awayHits == BoxCount(away, away.hits, "hits")
            && g.homeErrors == BoxCount(home, home.errors, "errors") && g.awayErrors == BoxCount(away, away.errors, "errors")
            && g.broadcast == BroadcastName(comp)
  {
    var comp := e.competitions[0];
    var home := FindSide(comp.competitors, "home").value;
    var away := FindSide(comp.competitors, "away").value;
    var isConference := IsConference(NestedAbbreviation(home), NestedAbbreviation(away), NoteText(comp));
    Game(
      e.id, e.date, e.name, e.status,
      ParseTeam(home), ParseTeam(away),
      ParseScore(Some(home)), ParseScore(Some(away)),
      comp.venueFullName,
      BroadcastName(comp),
      isConference,
      if |comp.odds| > 0 then Some(Odds(comp.odds[0].details, comp.odds[0].overUnder)) else None,
      BoxCount(home, home.hits, "hits"), BoxCount(away, away.hits, "hits"),
      BoxCount(home, home.errors, "errors"), BoxCount(away, away.errors, "errors"),
      sport)
  }

  /** The competitor list with every home/away marker exchanged. */
  function SwapSides(cs: seq<RawCompetitor>): (r: seq<RawCompetitor>)
    ensures |r| == |cs|
  {
    if cs == [] then []
    else
      var c := cs[0];
      var marker := if c.homeAway == Some("home") then Some("away")
                    else if c.homeAway == Some("away") then Some("home")
                    else c.homeAway;
      [c.(homeAway := marker)] + SwapSides(cs[1..])
  }

  lemma {:induction false} FindSideSwapped(cs: seq<RawCompetitor>, side: string, other: string)
    requires (side, other) == ("home", "away") || (side, other) == ("away", "home")
    ensures var r := FindSide(SwapSides(cs), side);
            var o := FindSide(cs, other);
            r.Some? == o.Some? && (r.Some? ==> r.value == o.value.(homeAway := Some(side)))
  {
    if cs != [] {
      FindSideSwapped(cs[1..], side, other);
    }
  }

  /** Exchanging the home/away markers of an event exchanges the two teams and
    * scores and leaves the conference flag unchanged. */
  lemma ParseGameSwapSides(e: RawEvent, sport: Option<Sport>)
    requires HasBothSides(e)
    ensures var comp := e.competitions[0];
            var swapped := e.(competitions := [comp.(competitors := SwapSides(comp.competitors))] + e.competitions[1..]);
            HasBothSides(swapped)
            && ParseGame(swapped, sport).isConference == ParseGame(e, sport).isConference
            && ParseGame(swapped, sport).homeTeam == ParseGame(e, sport).awayTeam
            && ParseGame(swapped, sport).awayTeam == ParseGame(e, sport).homeTeam
            && ParseGame(swapped, sport).homeScore == ParseGame(e, sport).awayScore
            && ParseGame(swapped, sport).awayScore == ParseGame(e, sport).homeScore
  {
    var comp := e.competitions[0];
    var swapped := e.(competitions := [comp.(competitors := SwapSides(comp.competitors))] + e.competitions[1..]);
    FindSideSwapped(comp.competitors, "home", "away");
    FindSideSwapped(comp.competitors, "away", "home");
    var home := FindSide(comp.competitors, "home").value;
    var away := FindSide(comp.competitors, "away").value;
    var swappedComp := swapped.competitions[0];
    assert FindSide(swappedComp.competitors, "home").value == away.(homeAway := Some("home"));
    assert FindSide(swappedComp.competitors, "away").value == home.(homeAway := Some("away"));
    assert NoteText(swappedComp) == NoteText(comp);
    IsConferenceSymmetric(NestedAbbreviation(home), NestedAbbreviation(away), NoteText(comp));
    MarkerIrrelevant(home, Some("away"));
    MarkerIrrelevant(away, Some("home"));
  }

  /** Nothing the normaliser derives from a competitor depends on its marker. */
  lemma MarkerIrrelevant(c: RawCompetitor, marker: Option<string>)
    ensures ParseTeam(c.(homeAway := marker)) == ParseTeam(c)
    ensures ParseScore(Some(c.(homeAway := marker))) == ParseScore(Some(c))
    ensures NestedAbbreviation(c.(homeAway := marker)) == NestedAbbreviation(c)
  {
  }
}
