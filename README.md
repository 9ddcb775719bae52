# Gamecock dashboard core, in Dafny

This project models the data core of a sports dashboard for the South Carolina
Gamecocks. It covers:

- normalising the sports provider's raw events into games: scores, ranks, SEC
  conference detection, and box-score hits and errors;
- deciding whether a game is live, upcoming or final;
- building the team data: the date-sorted schedule, the conference record
  recounted from finals, and the next and last games;
- the baseball game summary and the SEC standings;
- the presentation logic of the components:
  - grouping games into series;
  - the win/loss streak chart;
  - the hero card's precedence and countdown;
  - the game card's labels and winner flags;
  - the padded baseball linescore;
  - the refresh interval;
  - the schedule and results lists.

Raw provider JSON is modelled by datatypes (`EspnModel`). JavaScript's own
primitives are written out in `JsText`:

- `parseInt(…, 10)`, `String(n)`, `includes`, ASCII case mapping, and a
  decimal `parseFloat`;
- `?.`, `??` and `||` on optional values.

`Seqs` holds `filter`, `find`, `reverse` and `slice`, and `Sorting` holds
`Array.prototype.sort` as a stable insertion sort. The current time is a
parameter `now`, in milliseconds, wherever the source reads the clock.
Dates are integer milliseconds.

The code that loops in the source is modelled as methods with loops, each
proved equal to the function the rest of the model uses:

| method | function it equals |
|---|---|
| `EspnTeamData.GetTeamData` (the conference tally) | `TeamDataOf` |
| `EspnSummary.GetGameSummary` | its pointwise linescore contract |
| `EspnStandings.FindConferenceEntries` | `ConferenceEntries` |
| `SeriesTracker.GroupIntoSeries` | `Group` |
| `StreakChart.CalculateStreak` | `IsCurrentStreak` |

Behaviour of the code that a reader might not expect, and which the model
keeps:

- A score-tied conference final counts as a conference loss.
- A direct `hits: null` becomes NaN on the scoreboard, but 0 in the game
  summary.
- Ranks are kept when they are non-zero and at most 25. A negative rank passes.
- There is no provider-side conference flag. A game is a conference game
  exactly when:
  - both teams' upper-cased abbreviations are in the fixed SEC list;
  - and the first note headline names none of "championship", "tournament",
    "challenge", "classic" or "invitational".
- Series grouping joins games up to 4 days after the series' first game. The
  comment above it says 3.
- Series of a single game are built, then filtered out for display.
- The game card's live label shows "3th" for period 3, while the baseball
  status formatter shows "3rd".
- The game card builds its live label with a template literal, so a missing
  clock or period prints "undefined". The live hero renders the same parts as
  JSX children, which print nothing for a missing value.

## Model

| member | source | states |
|---|---|---|
| JsText.ParseIntOfIntToString | src/lib/espn.ts:245-248 | `parseInt(String(n), 10)` gives back `n` for every integer |
| JsText.ParseIntIgnoresTail | src/lib/espn.ts:111 | `parseInt` reads the leading integer and ignores a tail that does not start with a digit |
| JsText.ParseIntNaN | src/lib/espn.ts:105 | a string whose text after white space and sign does not start with a digit parses to NaN |
| JsText.ParseIntNonNumeric | src/lib/espn.ts:212 | a string starting with a letter (such as "undefined") parses to NaN |
| JsText.ToUpperIdempotent | src/lib/espn.ts:155-157 | upper-casing an abbreviation twice is upper-casing it once |
| JsText.IncludesToLower | src/lib/espn.ts:161-167 | a word contained in a headline is still contained after both are lower-cased |
| JsText.Or | src/lib/espn.ts:142-144 | `a \|\| b` on optional strings: `a` when it is non-empty, otherwise `b` |
| JsText.ParseDecimal | src/lib/espn.ts:441-442 | a parsed win percentage comes from text containing a digit; anything else is NaN |
| JsText.FractionValue | src/lib/espn.ts:441-442 | the digits after a decimal point are worth at least 0 and less than 1 |
| JsText.ParseDecimalOf | src/lib/espn.ts:441-442 | an optionally signed `ip.fp` reads as the integer part plus the fraction's value, negated after "-", whatever non-digit follows |
| JsText.ParseDecimalWhole | src/lib/espn.ts:441-442 | an optionally signed digit run not followed by a digit or "." reads as that integer |
| JsText.ParseDecimalDash | src/lib/espn.ts:441-442 | the feed's "-" placeholder reads as NaN |
| Seqs.Filter | src/lib/espn.ts:285-291 | `filter` never grows the sequence, and every element it keeps satisfies the predicate |
| Seqs.FilterMembers | src/lib/espn.ts:285-291 | an element is in the filtered sequence iff it is in the input and satisfies the predicate |
| Seqs.FilterAppend | src/lib/espn.ts:302-314 | filtering a concatenation is concatenating the filtered parts |
| Seqs.Find | src/lib/espn.ts:134-139 | `find` is absent iff no element matches; otherwise it is the first matching element |
| Seqs.FindIsFilterHead | src/components/SmartHero.tsx:219 | `find` is the head of `filter`, or absent when the filter is empty |
| Seqs.FilterFirstHasSmallestKey | src/lib/espn.ts:333 | over a key-sorted sequence the first kept element has the smallest key among the matching ones |
| Seqs.FilterLastHasLargestKey | src/lib/espn.ts:334 | over a key-sorted sequence the last kept element has the largest key among the matching ones |
| Seqs.ReverseReverse | src/components/StreakChart.tsx:49-53 | reversing twice restores the sequence |
| Seqs.SliceEnd | src/components/ScheduleList.tsx:14 | `slice(0, end)` keeps `min(end, n)` elements, and a negative end counts from the back |
| Seqs.LastWindow | src/components/StreakChart.tsx:49-53 | reverse, `slice(0, limit)`, reverse keeps the last `min(limit, n)` elements, oldest first |
| Sorting.Insert | src/lib/espn.ts:281-283 | inserting into a sorted sequence keeps it sorted and adds exactly the element |
| Sorting.SortBy | src/lib/espn.ts:281-283 | the sort's result is ordered and a permutation of its input |
| Sorting.SortedPairwise | src/lib/espn.ts:439-445 | under a transitive comparator, adjacent order gives order between any two positions |
| Sorting.SortBySorted | src/lib/espn.ts:281-283 | sorting an already ordered sequence changes nothing (stability) |
| EspnParse.ParseValueOfNumber | src/lib/espn.ts:104 | a numeric value parses back to itself |
| EspnParse.ParseScore | src/lib/espn.ts:90-98 | no competitor or no score gives an absent score |
| EspnParse.ParseScoreNumber | src/lib/espn.ts:101-112 | a numeric score, scalar or in `score.value`, parses to that number |
| EspnParse.ParseScoreObject | src/lib/espn.ts:101-108 | an object score reads `value ?? displayValue`, and is absent when both are |
| EspnParse.ParseScoreNaN | src/lib/espn.ts:111-112 | a string score without leading digits gives an absent score rather than NaN |
| EspnParse.ParseStatistic | src/lib/espn.ts:208-214 | a found statistic value comes from a statistic with exactly that name |
| EspnParse.ParseStatisticFirstMatch | src/lib/espn.ts:210-213 | the first statistic with the name is used, `displayValue` before `value`; neither present gives absent |
| EspnParse.ParseStatisticMissing | src/lib/espn.ts:209-211 | no statistics, or none with the name, gives absent |
| EspnParse.NormalizeRank | src/lib/espn.ts:117-119 | a rank is kept iff it is present, non-zero and at most 25 |
| EspnParse.NormalizeRankExamples | src/lib/espn.ts:118-119 | 99 and every value above 25 are dropped; 1 to 25 are kept; 0 and absent are dropped |
| EspnParse.ParseTeam | src/lib/espn.ts:115-130 | the team comes from the nested `team` or the competitor itself: its id, abbreviation and display name are copied, the name is `name \|\| shortDisplayName`, the logo is `logo`, else the first logo's `href`, else "", the record is the first record summary, and the rank is the normalised rank |
| EspnParse.TournamentNoteKeywords | src/lib/espn.ts:162-167 | a note is a tournament note iff it contains one of the five keywords |
| EspnParse.IsConference | src/lib/espn.ts:146-170 | conference iff both abbreviations upper-case into the SEC list and the note contains no keyword |
| EspnParse.IsConferenceSymmetric | src/lib/espn.ts:157 | swapping home and away does not change conference detection |
| EspnParse.IsConferenceIgnoresCase | src/lib/espn.ts:155-157 | upper-casing an abbreviation beforehand changes nothing |
| EspnParse.TournamentNoteExcludes | src/lib/espn.ts:159-170 | a first headline containing a keyword, in any case, rules out a conference game |
| EspnParse.BoxCount | src/lib/espn.ts:200-203 | a present direct field is parsed (never "no statistic"); an absent field falls back to the named statistic (never NaN) |
| EspnParse.BoxCountDirectNumber | src/lib/espn.ts:200 | a numeric direct `hits` gives that number |
| EspnParse.BoxCountNull | src/lib/espn.ts:200 | a direct `hits: null` is parsed from "null" and gives NaN |
| EspnParse.ParseGame | src/lib/espn.ts:132-206 | date, status and sport pass through; each team is `parseTeam` of its own side, and the scores, hits and errors come from that side's competitor; the broadcast is the first broadcast name, else the geo broadcast's short name; `isConference` is the SEC rule |
| EspnParse.FindSideSwapped | src/lib/espn.ts:134-139 | after swapping every home/away marker, finding one side finds what the other side found before |
| EspnParse.ParseGameSwapSides | src/lib/espn.ts:132-206 | swapping the markers swaps the two teams and the two scores and keeps `isConference` |
| EspnParse.MarkerIrrelevant | src/lib/espn.ts:115-130 | the home/away marker does not affect the parsed team or score |
| EspnGames.GetGameState | src/lib/espn.ts:448-460 | "in" is live, "post" is final, "pre" is upcoming; otherwise a game dated before now is final, else upcoming |
| EspnGames.GameStateMonotone | src/lib/espn.ts:455-459 | as time passes, a final game stays final and only upcoming games can have been upcoming |
| EspnGames.IsUSCGame | src/lib/espn.ts:350-357 | a game involves the team iff either side is abbreviated "SC" or named "South Carolina" |
| EspnGames.SidesPartition | src/lib/espn.ts:304-307 | the team's and the opponent's scores are the game's two scores, from opposite sides |
| EspnGames.InningSuffix | src/lib/espn.ts:373 | "st", "nd" and "rd" exactly for 1, 2 and 3, "th" otherwise |
| EspnGames.FormatBaseballStatus | src/lib/espn.ts:359-375 | "" iff there is no period; a half-inning clock is shown as is; otherwise the text reads back as the period and ends with the period's suffix |
| EspnGames.FormatBaseballStatusOrdinal | src/lib/espn.ts:365-374 | unless the clock names a half inning (absent, empty, or a clock such as "0:00"), the status is the period followed by its suffix |
| EspnGames.InningExamples | src/lib/espn.ts:373-374 | period 2 shows "2nd" and period 11 shows "11th" |
| EspnGames.DateOrder | src/lib/espn.ts:281-283 | ordering by date is total and transitive |
| EspnGames.SortByDate | src/lib/espn.ts:281-283 | the sorted schedule is a permutation in non-decreasing date order |
| EspnGames.SortByDateMembers | src/lib/espn.ts:281-283 | sorting by date neither adds nor drops a game |
| EspnTeamData.TallyCountsEveryScoredGame | src/lib/espn.ts:302-314 | wins plus losses is the number of conference finals with both scores known |
| EspnTeamData.TallyStep | src/lib/espn.ts:309-312 | each game adds one to wins, one to losses, or nothing |
| EspnTeamData.TieIsLoss | src/lib/espn.ts:310-311 | a tied conference final counts as a loss and not a win |
| EspnTeamData.GamesInStateMembers | src/lib/espn.ts:285-291 | the past, upcoming and live lists hold exactly the schedule's games in that state |
| EspnTeamData.RecordTextRoundTrip | src/lib/espn.ts:317 | the "W-L" text reads back as its win count, and the text after the dash as its loss count |
| EspnTeamData.ConferenceRecordCases | src/lib/espn.ts:294-331 | a usable provider record is kept; otherwise it is recounted when any game was counted, else "0-0" |
| EspnTeamData.TeamDataOf | src/lib/espn.ts:281-336 | the conference record is the provider's, or the recount over the finals, else "0-0"; the overall record is the first record item's summary, else "0-0"; the schedule is the input schedule in date order |
| EspnTeamData.GetTeamData | src/lib/espn.ts:281-336 | the loop's tally gives exactly the team data the specification function defines |
| EspnTeamData.NextGameIsEarliest | src/lib/espn.ts:333 | the next game is the earliest live game, else the earliest upcoming one; absent iff every game is final |
| EspnTeamData.LastGameIsLatestFinal | src/lib/espn.ts:334 | the last game is the latest final; absent iff there is no final |
| EspnTeamData.EarliestOfKind | src/lib/espn.ts:285-291 | the first game of a state in the sorted schedule has the earliest date of that state |
| EspnTeamData.LatestOfKind | src/lib/espn.ts:285-291 | the last game of a state in the sorted schedule has the latest date of that state |
| EspnSummary.RunsTextCases | src/lib/espn.ts:238-239 | an inning with a numeric value shows that number; an inning past the side's list shows "-" |
| EspnSummary.SummaryCountOf | src/lib/espn.ts:245-248 | a missing or null count reads as 0 and a number as itself |
| EspnSummary.NullCountDiffers | src/lib/espn.ts:200-203 | null hits are 0 in the summary but NaN on the scoreboard, and a number agrees in both |
| EspnSummary.GetGameSummary | src/lib/espn.ts:224-249 | `max(home, away)` linescore entries, entry `i` being inning `i+1` with each side's runs; the four counts of each side |
| EspnSummary.LinescoreShape | src/lib/espn.ts:234-241 | innings are numbered 1..n consecutively, and a side shorter than the other shows "-" |
| EspnStandings.FindConferenceEntries | src/lib/espn.ts:403-412 | the nested loop with its breaks finds the entries the recursive definition finds |
| EspnStandings.ConferenceEntriesSource | src/lib/espn.ts:403-412 | the entries are empty or belong to a child with id "27" or a name containing "Southeastern" |
| EspnStandings.GetStat | src/lib/espn.ts:418-421 | the first statistic matching by name or abbreviation shows its `displayValue`, else its `value` as text, else "0"; with no match it shows "0" |
| EspnStandings.GetStatNum | src/lib/espn.ts:422-425 | the first matching statistic counts its `value`, or 0 without one; with no match it counts 0 |
| EspnStandings.GetStatAgreesWithNum | src/lib/espn.ts:418-425 | when the text comes from the numeric value, it reads back as the number |
| EspnStandings.BuildEntry | src/lib/espn.ts:427-438 | wins and losses are the numeric statistics; `overall` is the two texts joined by a dash; win percent, streak and run differential are the `winPercent`, `streak` and `pointDifferential` texts; the name is `displayName || name || ""`, the id, abbreviation and logo fall back to "", and a missing team gives empty texts |
| EspnStandings.RanksBeforeOrder | src/lib/espn.ts:439-445 | the comparator, win percentage descending then wins descending, is total and transitive |
| EspnStandings.Standings | src/lib/espn.ts:414-445 | the standings are a permutation of the built entries, ordered by the comparator |
| EspnStandings.StandingsOrder | src/lib/espn.ts:439-445 | an earlier entry has at least the win percentage, and on equal percentage at least the wins |
| EspnStandings.UnparsedWinPercentIsZero | src/lib/espn.ts:441-442 | every win percentage that does not parse, the "-" placeholder among them, sorts as 0 |
| EspnStandings.DecimalWinPercentKey | src/lib/espn.ts:441-442 | a win percentage written `ip.fp` sorts by its decimal value |
| SeriesTracker.NewSeries | src/components/SeriesTracker.tsx:48-58 | a new series holds just the game |
| SeriesTracker.DaysDiffBound | src/components/SeriesTracker.tsx:39-42 | at most 4 days apart iff at most four days of milliseconds apart |
| SeriesTracker.Step | src/components/SeriesTracker.tsx:28-59 | one game extends the last series or adds one non-empty series |
| SeriesTracker.Group | src/components/SeriesTracker.tsx:20-62 | every series is non-empty, and there are none iff there are no games |
| SeriesTracker.GroupIntoSeries | src/components/SeriesTracker.tsx:20-62 | the loop, with `current` aliasing the last series, computes the grouping of the date-sorted games |
| SeriesTracker.FlattenSnoc | src/components/SeriesTracker.tsx:43-58 | appending a series appends its games to the flattening |
| SeriesTracker.GroupFlatten | src/components/SeriesTracker.tsx:20-62 | the series, concatenated, are the sorted games: nothing lost, duplicated or reordered |
| SeriesTracker.GroupWellFormed | src/components/SeriesTracker.tsx:29-58 | each series has one opponent and side from its first game, and spans at most 4 days |
| SeriesTracker.GroupMaximal | src/components/SeriesTracker.tsx:36-46 | a series is closed only when the next game has another opponent, is over 4 days later, or the series holds 4 games |
| SeriesTracker.GroupExample | src/components/SeriesTracker.tsx:36-46 | games on days 0, 2 and 5 against one opponent form two series |
| SeriesTracker.SeriesToShowParts | src/components/SeriesTracker.tsx:120-139 | the shown series are the last completed multi-game series, if any, followed by at most the first two relevant ones |
| SeriesTracker.SeriesToShowSources | src/components/SeriesTracker.tsx:120-139 | every shown series is a completed or a relevant multi-game series |
| SeriesTracker.SeriesToShowGrouped | src/components/SeriesTracker.tsx:120-139 | every shown series holds more than one game and is one of the series the grouping produced |
| SeriesTracker.SeriesToShowShape | src/components/SeriesTracker.tsx:120-139 | at most 3 multi-game series: the last completed series first, then the first two with a live or upcoming game |
| SeriesTracker.CompletedAndOpenDisjoint | src/components/SeriesTracker.tsx:123-133 | no series is both completed and still open |
| SeriesTracker.SeriesTallyBound | src/components/SeriesTracker.tsx:152-169 | wins, losses and ties partition the finals of a series |
| SeriesTracker.SeriesResultLabel | src/components/SeriesTracker.tsx:191 | "Won" iff more wins, "Lost" iff more losses, "Split" iff equal |
| StreakChart.GetUSCResult | src/components/StreakChart.tsx:29-46 | absent iff a score is missing; otherwise the team's and the opponent's scores, won iff strictly more, and the opponent is its abbreviation, else its name |
| StreakChart.CompletedGamesWindow | src/components/StreakChart.tsx:48-53 | the chart shows the last `min(limit, n)` finals, oldest first |
| StreakChart.PointOf | src/components/StreakChart.tsx:60-67 | a point is a win iff the team scored more, with value 1 for a win and -1 for a loss; it is labelled with the opponent, scored as "team-opponent", and keeps the conference flag |
| StreakChart.ChartData | src/components/StreakChart.tsx:55-69 | the chart has no more points than games |
| StreakChart.ChartDataOfScored | src/components/StreakChart.tsx:55-69 | the points are the scored games' points, in order, unscored games dropped |
| StreakChart.ChartLosses | src/components/StreakChart.tsx:75-76 | points minus wins counts exactly the losing points |
| StreakChart.CalculateStreak | src/components/StreakChart.tsx:147-163 | empty data gives a W streak of 0; otherwise the kind of the latest result and the length of its final run |
| StreakChart.StreakUnique | src/components/StreakChart.tsx:147-163 | the current streak is unique |
| StreakChart.StreakExample | src/components/StreakChart.tsx:147-163 | W W L W W W gives a 3-game W streak |
| StreakChart.StreakLabelMeansRepeat | src/components/StreakChart.tsx:89 | a streak label is shown only when the last two results agree |
| GameCard.WinnerFlags | src/components/GameCard.tsx:78-87 | at most one side wins; a win needs a final with both scores; a tie has no winner; a decided final has one |
| GameCard.ShortOrdinalSuffix | src/components/GameCard.tsx:97 | "st" iff period 1, "nd" iff period 2, "th" for every other period |
| GameCard.SuffixesDifferOnlyAtThree | src/components/GameCard.tsx:97 | the card's suffix agrees with the baseball status suffix exactly when the period is not 3 |
| GameCard.StatusLabel | src/components/GameCard.tsx:94-98 | "Final" for finals, the date label for upcoming games, and clock, period and suffix for live games |
| GameCard.LiveLabel | src/components/GameCard.tsx:97 | the live label starts with the clock and " - ", and its rest reads back as the period |
| GameCard.ParsedScoreShown | src/components/GameCard.tsx:65 | a parsed score is shown iff it is present, and is never NaN |
| SmartHero.CountdownParts | src/components/SmartHero.tsx:16-22 | hours below 24, minutes below 60, and the parts add up to the difference less under a minute |
| SmartHero.FormatCountdown | src/components/SmartHero.tsx:18 | a game already past shows "Starting soon" |
| SmartHero.CountdownFormat | src/components/SmartHero.tsx:20-26 | days and hours when there are days, else hours and minutes, else minutes; the text reads back as its largest unit |
| SmartHero.LiveHeaderExtendsCardLabel | src/components/SmartHero.tsx:39-46 | with a clock and a period, the live hero header is the card's live label plus " Half", and period 3 ends "th Half" |
| SmartHero.LiveHeaderWithoutClock | src/components/SmartHero.tsx:39-46 | without a clock the hero header starts " - " while the card's label starts "undefined - ", so the two differ |
| SmartHero.RecentWonCases | src/components/SmartHero.tsx:150-155 | with both scores a win means scoring more; a missing score counts as 0 |
| SmartHero.SelectHero | src/components/SmartHero.tsx:192-241 | loading first, then no data; on loaded data the first live game of the schedule, else an upcoming next game, else the last game with the overall record, else the empty card |
| SmartHero.HeroOfTeamData | src/components/SmartHero.tsx:218-240 | over built team data the hero is the next game (live or upcoming), else the last game, else the no-games card |
| SmartHero.FilterSame | src/components/SmartHero.tsx:219 | the hero's live filter selects the same games as the team data's live filter |
| BaseballLinescore.TotalInnings | src/components/BaseballLinescore.tsx:33 | at least 9 and at least the innings played, and one of the two |
| BaseballLinescore.Innings | src/components/BaseballLinescore.tsx:34-41 | column `i` is inning `i+1` with the entry's runs, and empty cells past the linescore |
| BaseballLinescore.HighlightedColumns | src/components/BaseballLinescore.tsx:53-57 | at most one column is highlighted, and one is iff the game is live in a shown inning |
| BaseballLinescore.InningsOfSummary | src/components/BaseballLinescore.tsx:34-41 | over a summary's linescore the table shows both sides' runs from the summary, and "" after the innings played |
| UseTeamData.RefreshInterval | src/hooks/useTeamData.ts:11-23 | 30 s iff the next game is in progress; otherwise 5 min on its day, else 15 min; 15 min without a next game |
| UseTeamData.RefreshIntervalOrder | src/hooks/useTeamData.ts:5-9 | the intervals are 30 s < 5 min < 15 min, and game day never refreshes slower |
| GameLists.View | src/components/ScheduleList.tsx:16-30 | the message iff there are no games; otherwise the games themselves |
| GameLists.ScheduleListShape | src/components/ScheduleList.tsx:11-21 | a prefix of the upcoming games, `min(limit, n)` long, all upcoming, and the message iff empty |
| GameLists.ResultsAreLastFinals | src/components/ResultsList.tsx:11-15 | the results are the last `min(limit, n)` finals, newest first |
| GameLists.ResultsListShape | src/components/ResultsList.tsx:11-22 | every result is a final of the input, the count is `min(limit, n)`, and the message iff empty |

## Left out

- Fetching, HTTP errors and JSON decoding are not modelled. The model starts
  from decoded provider records and takes the team schedule as a parameter.
  `getGameSummary`'s `null` on a failed request is not modelled either.
- The clock, `new Date(…)`, `toDateString` and locale date formatting are
  parameters. These are `now`, the game's millisecond `date`, `isToday` and a
  `dateLabel`.
- Rendering of the JSX markup, CSS classes and images is not modelled. Only
  the values the components compute and choose between are, plus the live
  hero's header text.
- Component default parameters are not modelled. The lists default to 5 games
  and the chart to 10; here `limit` is always passed.
- React Query's scheduling is not modelled, and neither is `staleTime`. Only
  `getRefreshInterval` is.
- JavaScript numbers are integers here. `parseFloat` handles only decimals,
  without exponents or `Infinity`, and works on exact reals. Fractional
  provider values are not represented.
- `toUpperCase` and `toLowerCase` map ASCII letters only.
- EspnParse.ParseGame: requires both a home and an away competitor. In the
  source, `parseTeam` throws on a missing one.
- EspnGames.IsSubjectTeam: a team without a `displayName` is treated as not
  the subject. The source would throw on `undefined.includes`.
- SeriesTracker.GroupIntoSeries: `current` aliases the last pushed series.
  The model updates the last element of a sequence value instead of sharing a
  mutable object.
- SmartHero.SelectHero: each call uses one `now`. The source reads the clock
  again for each `getGameState` call.
- EspnTeamData.TeamDataOf: the team card and its logo fallback are field
  copies. They are not stated in its contract.
- The per-game series dots and the upcoming-game hero's layout are not
  modelled. Their win rule is the one `SmartHero.RecentWon` and the series
  tally state.
