/**
 * The baseball linescore table: the summary's innings padded to at least a
 * regulation nine, and the column of the inning being played highlighted.
 */
module BaseballLinescore {
  import opened Wrappers
  import opened EspnModel
  import EspnSummary

  /** Innings a regulation game has; the table never shows fewer. */
  const RegulationInnings: nat := 9

  /** One column of the table. */
  datatype InningColumn = InningColumn(inning: int, homeRuns: string, awayRuns: string)

  function TotalInnings(linescore: seq<LinescoreEntry>): (n: nat)
    ensures n >= RegulationInnings && n >= |linescore|
    ensures n == RegulationInnings || n == |linescore|
  {
    if RegulationInnings < |linescore| then |linescore| else RegulationInnings
  }

  /** `Array.from({length: totalInnings}, ...)`: column `i` is inning `i + 1`
    * with that entry's runs, or empty cells past the end of the linescore. */
  function Innings(linescore: seq<LinescoreEntry>): (r: seq<InningColumn>)
    ensures |r| == TotalInnings(linescore)
    ensures forall i :: 0 <= i < |r| ==> r[i].inning == i + 1
    ensures forall i :: 0 <= i < |linescore| ==> r[i].homeRuns == linescore[i].homeRuns && r[i].awayRuns == linescore[i].awayRuns
    ensures forall i :: |linescore| <= i < |r| ==> r[i].homeRuns == "" && r[i].awayRuns == ""
  {
    seq(TotalInnings(linescore), i requires 0 <= i < TotalInnings(linescore) =>
      if i < |linescore| then InningColumn(i + 1, linescore[i].homeRuns, linescore[i].awayRuns)
      else InningColumn(i + 1, "", ""))
  }

  /** `isLive && inn.inning === currentInning`; an absent flag is false and an
    * absent inning matches no column. */
  predicate Highlighted(isLive: bool, currentInning: Option<int>, column: InningColumn) {
    isLive && currentInning == Some(column.inning)
  }

  /** Exactly one column is highlighted while a game is live in an inning the
    * table shows, and none otherwise. */
  lemma HighlightedColumns(linescore: seq<LinescoreEntry>, isLive: bool, currentInning: Option<int>)
    ensures var cols := Innings(linescore);
            forall i, j :: 0 <= i < j < |cols| ==> !(Highlighted(isLive, currentInning, cols[i]) && Highlighted(isLive, currentInning, cols[j]))
    ensures var cols := Innings(linescore);
            (exists i :: 0 <= i < |cols| && Highlighted(isLive, currentInning, cols[i]))
            <==> isLive && currentInning.Some? && 1 <= currentInning.value <= |cols|
  {
    var cols := Innings(linescore);
    if isLive && currentInning.Some? && 1 <= currentInning.value <= |cols| {
      assert Highlighted(isLive, currentInning, cols[currentInning.value - 1]);
    }
  }

  /** Over a linescore the summary built from two sides' entries, the padded
    * table shows the summary's runs for the innings played and "" after. */
  lemma InningsOfSummary(homeLS: seq<RawLinescore>, awayLS: seq<RawLinescore>, linescore: seq<LinescoreEntry>)
    requires |linescore| == EspnSummary.Max(|homeLS|, |awayLS|)
    requires forall i :: 0 <= i < |linescore| ==>
               linescore[i] == LinescoreEntry(i + 1, EspnSummary.RunsText(homeLS, i), EspnSummary.RunsText(awayLS, i))
    ensures var cols := Innings(linescore);
            forall i :: 0 <= i < |cols| ==>
              cols[i].homeRuns == (if i < |linescore| then EspnSummary.RunsText(homeLS, i) else "")
              && cols[i].awayRuns == (if i < |linescore| then EspnSummary.RunsText(awayLS, i) else "")
              && cols[i].inning == (if i < |linescore| then linescore[i].inning else i + 1)
  {
  }
}
