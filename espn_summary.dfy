/**
 * `getGameSummary`: the inning-by-inning linescore of a baseball game and its
 * hits and errors, read from the two competitors of the summary's header.
 */
module EspnSummary {
  import opened Wrappers
  import opened JsText
  import opened EspnModel
  import opened EspnParse

  /** `ls[i]?.value?.toString() ?? ls[i]?.displayValue ?? "-"`. */
  function RunsText(ls: seq<RawLinescore>, i: nat): string {
    if i < |ls| && ls[i].value.Some? then IntToString(ls[i].value.value)
    else if i < |ls| && ls[i].displayValue.Some? then ls[i].displayValue.value
    else "-"
  }

  /** A numeric run count is shown as that number; an inning a side has no
    * entry for is shown as "-". */
  lemma RunsTextCases(ls: seq<RawLinescore>, i: nat)
    ensures i < |ls| && ls[i].value.Some? ==> ParseInt(RunsText(ls, i)) == ls[i].value
    ensures i >= |ls| ==> RunsText(ls, i) == "-"
  {
    if i < |ls| && ls[i].value.Some? {
      ParseIntOfIntToString(ls[i].value.value);
    }
  }

  /** `parseInt(String(x ?? 0), 10)`: a missing or `null` count reads as 0. */
  function SummaryCountOf(field: Field<JsValue>): (r: SummaryCount)
    ensures field.Undefined? || field.Null? ==> r == Count(0)
    ensures field.Defined? && field.value.JsNumber? ==> r == Count(field.value.n)
  {
    var text := if field.Defined? then JsToString(field.value) else IntToString(0);
    ParseIntOfIntToString(0);
    ParseValueOfNumber(if field.Defined? then field.value else JsNumber(0));
    match ParseInt(text)
    case Some(n) => Count(n)
    case None => CountNaN
  }

  /** The summary and the scoreboard read a `null` count differently: the
    * summary's `?? 0` makes it 0, the scoreboard parses it to `NaN`. A
    * numeric count reads the same in both. */
  lemma NullCountDiffers(c: RawCompetitor, statName: string, n: int)
    ensures SummaryCountOf(Null) == Count(0) && BoxCount(c, Null, statName) == NotANumber
    ensures SummaryCountOf(Defined(JsNumber(n))) == Count(n) && BoxCount(c, Defined(JsNumber(n)), statName) == StatValue(n)
  {
    BoxCountNull(c, statName);
    BoxCountDirectNumber(c, n, statName);
  }

  function LinescoresOf(c: Option<RawCompetitor>): seq<RawLinescore> {
    if c.Some? then c.value.linescores else []
  }

  function CountOf(c: Option<RawCompetitor>, hits: bool): SummaryCount {
    if c.None? then SummaryCountOf(Undefined)
    else SummaryCountOf(if hits then c.value.hits else c.value.errors)
  }

  function Max(a: nat, b: nat): nat {
    if a < b then b else a
  }

  /** `getGameSummary` on the header's competitor list (empty when the header
    * has none). */
  method GetGameSummary(competitors: seq<RawCompetitor>) returns (summary: GameSummary)
    ensures var homeLS := LinescoresOf(FindSide(competitors, "home"));
            var awayLS := LinescoresOf(FindSide(competitors, "away"));
            && |summary.linescore| == Max(|homeLS|, |awayLS|)
            && forall i :: 0 <= i < |summary.linescore| ==>
                 summary.linescore[i] == LinescoreEntry(i + 1, RunsText(homeLS, i), RunsText(awayLS, i))
    ensures summary.homeHits == CountOf(FindSide(competitors, "home"), true)
    ensures summary.awayHits == CountOf(FindSide(competitors, "away"), true)
    ensures summary.homeErrors == CountOf(FindSide(competitors, "home"), false)
    ensures summary.awayErrors == CountOf(FindSide(competitors, "away"), false)
  {
    var homeComp := FindSide(competitors, "home");
    var awayComp := FindSide(competitors, "away");

    var linescore: seq<LinescoreEntry> := [];
    var homeLS := LinescoresOf(homeComp);
    var awayLS := LinescoresOf(awayComp);

    var maxInnings := Max(|homeLS|, |awayLS|);
    for i := 0 to maxInnings
      invariant |linescore| == i
      invariant forall k :: 0 <= k < i ==> linescore[k] == LinescoreEntry(k + 1, RunsText(homeLS, k), RunsText(awayLS, k))
    {
      linescore := linescore + [LinescoreEntry(i + 1, RunsText(homeLS, i), RunsText(awayLS, i))];
    }

    summary := GameSummary(
      linescore,
      CountOf(homeComp, true), CountOf(awayComp, true),
      CountOf(homeComp, false), CountOf(awayComp, false));
  }

  /** The linescore numbers innings 1, 2, ... with no gap, covers the longer of
    * the two sides, and shows "-" for the innings only the other side has. */
  lemma LinescoreShape(homeLS: seq<RawLinescore>, awayLS: seq<RawLinescore>, linescore: seq<LinescoreEntry>)
    requires |linescore| == Max(|homeLS|, |awayLS|)
    requires forall i :: 0 <= i < |linescore| ==> linescore[i] == LinescoreEntry(i + 1, RunsText(homeLS, i), RunsText(awayLS, i))
    ensures forall i :: 0 < i < |linescore| ==> linescore[i].inning == linescore[i - 1].inning + 1
    ensures linescore != [] ==> linescore[0].inning == 1 && linescore[|linescore| - 1].inning == |linescore|
    ensures forall i :: |homeLS| <= i < |linescore| ==> linescore[i].homeRuns == "-"
    ensures forall i :: |awayLS| <= i < |linescore| ==> linescore[i].awayRuns == "-"
  {
  }
}
