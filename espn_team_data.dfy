/**
 * `getTeamData`: the team card, its records, the chronologically sorted
 * schedule and the next and last games, with the conference record
 * recomputed from the schedule when the provider does not supply one.
 */
module EspnTeamData {
  import opened Wrappers
  import opened JsText
  import opened EspnModel
  import opened EspnGames
  import Seqs

  // ---------------------------------------------------------------- schedule parts

  /** The games of `sorted` in state `kind` at `now`, in schedule order. */
  function GamesInState(sorted: seq<Game>, now: int, kind: GameState): seq<Game> {
    Seqs.Filter(sorted, (g: Game) => GetGameState(g, now) == kind)
  }

  /** The games of one state are exactly the schedule's games in that state. */
  lemma GamesInStateMembers(sorted: seq<Game>, now: int, kind: GameState)
    ensures forall g :: g in GamesInState(sorted, now, kind) <==> g in sorted && GetGameState(g, now) == kind
  {
    Seqs.FilterMembers(sorted, (g: Game) => GetGameState(g, now) == kind);
  }

  function PastGames(sorted: seq<Game>, now: int): seq<Game> {
    GamesInState(sorted, now, Final)
  }

  function FutureGames(sorted: seq<Game>, now: int): seq<Game> {
    GamesInState(sorted, now, Upcoming)
  }

  function LiveGames(sorted: seq<Game>, now: int): seq<Game> {
    GamesInState(sorted, now, Live)
  }

  // ---------------------------------------------------------------- conference tally

  /** A final the tally looks at: a conference game with both scores known. */
  predicate IsScoredConferenceGame(g: Game) {
    g.isConference && SubjectScore(g).Some? && OpponentScore(g).Some?
  }

  /** A counted game the subject won by scoring strictly more. */
  predicate IsConferenceWin(g: Game) {
    IsScoredConferenceGame(g) && SubjectScore(g).value > OpponentScore(g).value
  }

  /** A counted game that is not a win; a tie counts here. */
  predicate IsConferenceLoss(g: Game) {
    IsScoredConferenceGame(g) && SubjectScore(g).value <= OpponentScore(g).value
  }

  function ConferenceWins(past: seq<Game>): nat {
    |Seqs.Filter(past, IsConferenceWin)|
  }

  function ConferenceLosses(past: seq<Game>): nat {
    |Seqs.Filter(past, IsConferenceLoss)|
  }

  /** Every scored conference final is exactly one of a win or a loss. */
  lemma {:induction false} TallyCountsEveryScoredGame(past: seq<Game>)
    ensures ConferenceWins(past) + ConferenceLosses(past) == |Seqs.Filter(past, IsScoredConferenceGame)|
  {
    if past != [] {
      TallyCountsEveryScoredGame(past[1..]);
    }
  }

  /** The tally of one more game adds that game's outcome and nothing else. */
  lemma TallyStep(past: seq<Game>, i: nat)
    requires i < |past|
    ensures ConferenceWins(past[..i + 1]) == ConferenceWins(past[..i]) + (if IsConferenceWin(past[i]) then 1 else 0)
    ensures ConferenceLosses(past[..i + 1]) == ConferenceLosses(past[..i]) + (if IsConferenceLoss(past[i]) then 1 else 0)
  {
    assert past[..i + 1] == past[..i] + [past[i]];
    Seqs.FilterAppend(past[..i], [past[i]], IsConferenceWin);
    Seqs.FilterAppend(past[..i], [past[i]], IsConferenceLoss);
  }

  /** A tied conference game is recorded as a loss. */
  lemma TieIsLoss(g: Game)
    requires g.isConference && g.homeScore.Some? && g.homeScore == g.awayScore
    ensures IsConferenceLoss(g) && !IsConferenceWin(g)
  {
  }

  // ---------------------------------------------------------------- records

  predicate IsConferenceItem(item: RawRecordItem) {
    item.recordType == Some("vsconf")
  }

  /** The `summary` of the first record item of type "vsconf". */
  function ApiConferenceRecord(info: RawTeamInfo): Option<string> {
    match Seqs.Find(info.recordItems, IsConferenceItem)
    case None => None
    case Some(item) => item.summary
  }

  /** The provider's conference record is replaced when it is missing, empty
    * or "0-0". */
  predicate NeedsRecount(api: Option<string>) {
    !Truthy(api) || api == Some("0-0")
  }

  /** "W-L". */
  function RecordText(wins: nat, losses: nat): string {
    NatToString(wins) + "-" + NatToString(losses)
  }

  /** The record text reads back as its win count. */
  lemma RecordTextWins(wins: nat, losses: nat)
    ensures ParseInt(RecordText(wins, losses)) == Some(wins)
  {
    var tail := "-" + NatToString(losses);
    assert RecordText(wins, losses) == IntToString(wins) + tail;
    ParseIntIgnoresTail(wins, tail);
  }

  /** The text after the separator reads back as the loss count. */
  lemma RecordTextLosses(wins: nat, losses: nat)
    ensures RecordText(wins, losses)[|NatToString(wins)| + 1..] == NatToString(losses)
    ensures ParseInt(NatToString(losses)) == Some(losses)
  {
    assert IntToString(losses) == NatToString(losses);
    ParseIntOfIntToString(losses);
  }

  /** The record text gives back its win count, read the way the dashboard
    * reads numbers, and the loss count follows the separator. */
  lemma RecordTextRoundTrip(wins: nat, losses: nat)
    ensures ParseInt(RecordText(wins, losses)) == Some(wins)
    ensures RecordText(wins, losses)[|NatToString(wins)| + 1..] == NatToString(losses)
    ensures ParseInt(RecordText(wins, losses)[|NatToString(wins)| + 1..]) == Some(losses)
  {
    RecordTextWins(wins, losses);
    RecordTextLosses(wins, losses);
  }

  /** The conference record after the fallback: the provider's value, else the
    * recomputed one when it counts at least one game, else "0-0". */
  function ConferenceRecord(api: Option<string>, past: seq<Game>): string {
    var wins := ConferenceWins(past);
    var losses := ConferenceLosses(past);
    var confRecord := if NeedsRecount(api) && (wins > 0 || losses > 0) then Some(RecordText(wins, losses)) else api;
    if Truthy(confRecord) then confRecord.value else "0-0"
  }

  lemma ConferenceRecordCases(api: Option<string>, past: seq<Game>)
    ensures !NeedsRecount(api) ==> ConferenceRecord(api, past) == api.value
    ensures NeedsRecount(api) && |Seqs.Filter(past, IsScoredConferenceGame)| > 0
            ==> ConferenceRecord(api, past) == RecordText(ConferenceWins(past), ConferenceLosses(past))
    ensures NeedsRecount(api) && |Seqs.Filter(past, IsScoredConferenceGame)| == 0
            ==> ConferenceRecord(api, past) == "0-0"
  {
    TallyCountsEveryScoredGame(past);
  }

  /** `team.record.items[0].summary || "0-0"`. */
  function OverallRecord(info: RawTeamInfo): string {
    if |info.recordItems| > 0 && Truthy(info.recordItems[0].summary) then info.recordItems[0].summary.value else "0-0"
  }

  function TeamCard(info: RawTeamInfo): Team {
    Team(info.id, info.name, info.abbreviation, info.displayName,
         if Truthy(info.firstLogoHref) then info.firstLogoHref.value else "",
         None, None)
  }

  // ---------------------------------------------------------------- team data

  function FirstOf(s: seq<Game>): Option<Game> {
    if s == [] then None else Some(s[0])
  }

  function LastOf(s: seq<Game>): Option<Game> {
    if s == [] then None else Some(s[|s| - 1])
  }

  /** The team data for the team record `info` and its `schedule`, at `now`:
    * the conference record follows the provider-or-recount rule over the
    * finals, the overall record falls back to "0-0". */
  function TeamDataOf(info: RawTeamInfo, schedule: seq<Game>, now: int): (d: TeamData)
    ensures d.record.conference == ConferenceRecord(ApiConferenceRecord(info), PastGames(SortByDate(schedule), now))
    ensures d.record.overall == OverallRecord(info)
    ensures multiset(d.schedule) == multiset(schedule)
    ensures forall i, j :: 0 <= i < j < |d.schedule| ==> d.schedule[i].date <= d.schedule[j].date
  {
    var sorted := SortByDate(schedule);
    var past := PastGames(sorted, now);
    var next := if LiveGames(sorted, now) != [] then FirstOf(LiveGames(sorted, now)) else FirstOf(FutureGames(sorted, now));
    TeamData(
      TeamCard(info),
      TeamRecord(OverallRecord(info), ConferenceRecord(ApiConferenceRecord(info), past)),
      next,
      LastOf(past),
      sorted)
  }

  /** `getTeamData` once the two provider responses are in hand. */
  method GetTeamData(info: RawTeamInfo, schedule: seq<Game>, now: int) returns (d: TeamData)
    ensures d == TeamDataOf(info, schedule, now)
  {
    var sorted := SortByDate(schedule);
    var pastGames := PastGames(sorted, now);
    var futureGames := FutureGames(sorted, now);
    var liveGames := LiveGames(sorted, now);

    var apiConfRecord := ApiConferenceRecord(info);
    var confRecord := apiConfRecord;
    if !Truthy(apiConfRecord) || apiConfRecord == Some("0-0") {
      var confWins: nat := 0;
      var confLosses: nat := 0;
      var i := 0;
      while i < |pastGames|
        invariant 0 <= i <= |pastGames|
        invariant confWins == ConferenceWins(pastGames[..i])
        invariant confLosses == ConferenceLosses(pastGames[..i])
      {
        var game := pastGames[i];
        TallyStep(pastGames, i);
        if game.isConference {
          var isHomeUSC := game.homeTeam.abbreviation == Some("SC")
                           || (game.homeTeam.displayName.Some? && Includes(game.homeTeam.displayName.value, "South Carolina"));
          var uscScore := if isHomeUSC then game.homeScore else game.awayScore;
          var oppScore := if isHomeUSC then game.awayScore else game.homeScore;
          assert uscScore == SubjectScore(game) && oppScore == OpponentScore(game);
          if uscScore.Some? && oppScore.Some? {
            if uscScore.value > oppScore.value {
              confWins := confWins + 1;
            } else {
              confLosses := confLosses + 1;
            }
          }
        }
        i := i + 1;
      }
      assert pastGames[..i] == pastGames;
      if confWins > 0 || confLosses > 0 {
        confRecord := Some(RecordText(confWins, confLosses));
      }
    }
    assert ConferenceRecord(apiConfRecord, pastGames) == if Truthy(confRecord) then confRecord.value else "0-0";

    var nextGame := if liveGames != [] then Some(liveGames[0]) else if futureGames != [] then Some(futureGames[0]) else None;
    var lastGame := if pastGames != [] then Some(pastGames[|pastGames| - 1]) else None;
    d := TeamData(
      TeamCard(info),
      TeamRecord(OverallRecord(info), if Truthy(confRecord) then confRecord.value else "0-0"),
      nextGame,
      lastGame,
      sorted);
  }

  // ---------------------------------------------------------------- next and last game

  /** The next game is a live game when there is one, otherwise an upcoming
    * one, and it is the earliest game of its kind in the schedule. */
  lemma NextGameIsEarliest(info: RawTeamInfo, schedule: seq<Game>, now: int)
    ensures var d := TeamDataOf(info, schedule, now);
            d.nextGame.Some? ==>
              var g := d.nextGame.value;
              && g in schedule
              && GetGameState(g, now) != Final
              && (GetGameState(g, now) == Upcoming ==> forall h :: h in schedule ==> GetGameState(h, now) != Live)
              && (forall h :: h in schedule && GetGameState(h, now) == GetGameState(g, now) ==> g.date <= h.date)
    ensures var d := TeamDataOf(info, schedule, now);
            d.nextGame.None? <==> forall h :: h in schedule ==> GetGameState(h, now) == Final
  {
    var sorted := SortByDate(schedule);
    SortByDateMembers(schedule);
    var live := LiveGames(sorted, now);
    var future := FutureGames(sorted, now);
    GamesInStateMembers(sorted, now, Live);
    GamesInStateMembers(sorted, now, Upcoming);
    if live != [] {
      EarliestOfKind(sorted, now, Live);
    } else if future != [] {
      EarliestOfKind(sorted, now, Upcoming);
    }
  }

  /** The last final of a date-sorted copy of the schedule is its latest final. */
  lemma LatestFinal(schedule: seq<Game>, sorted: seq<Game>, now: int)
    requires forall g :: g in sorted <==> g in schedule
    requires forall i, j :: 0 <= i < j < |sorted| ==> sorted[i].date <= sorted[j].date
    ensures var last := LastOf(PastGames(sorted, now));
            last.Some? ==>
              var g := last.value;
              && g in schedule
              && GetGameState(g, now) == Final
              && forall h :: h in schedule && GetGameState(h, now) == Final ==> h.date <= g.date
    ensures LastOf(PastGames(sorted, now)).None? <==> forall h :: h in schedule ==> GetGameState(h, now) != Final
  {
    GamesInStateMembers(sorted, now, Final);
    if PastGames(sorted, now) != [] {
      LatestOfKind(sorted, now, Final);
    }
  }

  /** The last game is the latest final of the schedule, and there is none
    * only when no game is final. */
  lemma LastGameIsLatestFinal(info: RawTeamInfo, schedule: seq<Game>, now: int)
    ensures var d := TeamDataOf(info, schedule, now);
            d.lastGame.Some? ==>
              var g := d.lastGame.value;
              && g in schedule
              && GetGameState(g, now) == Final
              && forall h :: h in schedule && GetGameState(h, now) == Final ==> h.date <= g.date
    ensures var d := TeamDataOf(info, schedule, now);
            d.lastGame.None? <==> forall h :: h in schedule ==> GetGameState(h, now) != Final
  {
    assert TeamDataOf(info, schedule, now).lastGame == LastOf(PastGames(SortByDate(schedule), now));
    SortByDateMembers(schedule);
    LatestFinal(schedule, SortByDate(schedule), now);
  }



  /** The first game of a kind in a date-sorted schedule is not later than
    * any other game of that kind. */
  lemma EarliestOfKind(sorted: seq<Game>, now: int, kind: GameState)
    requires forall i, j :: 0 <= i < j < |sorted| ==> sorted[i].date <= sorted[j].date
    requires GamesInState(sorted, now, kind) != []
    ensures var g := GamesInState(sorted, now, kind)[0];
            g in sorted && GetGameState(g, now) == kind
            && forall h :: h in sorted && GetGameState(h, now) == kind ==> g.date <= h.date
  {
    GamesInStateMembers(sorted, now, kind);
    Seqs.FilterFirstHasSmallestKey(sorted, (g: Game) => GetGameState(g, now) == kind, (g: Game) => g.date);
  }

  /** The last game of a kind in a date-sorted schedule is not earlier than
    * any other game of that kind. */
  lemma LatestOfKind(sorted: seq<Game>, now: int, kind: GameState)
    requires forall i, j :: 0 <= i < j < |sorted| ==> sorted[i].date <= sorted[j].date
    requires GamesInState(sorted, now, kind) != []
    ensures var s := GamesInState(sorted, now, kind);
            var g := s[|s| - 1];
            g in sorted && GetGameState(g, now) == kind
            && forall h :: h in sorted && GetGameState(h, now) == kind ==> h.date <= g.date
  {
    GamesInStateMembers(sorted, now, kind);
    Seqs.FilterLastHasLargestKey(sorted, (g: Game) => GetGameState(g, now) == kind, (g: Game) => g.date);
  }
}
