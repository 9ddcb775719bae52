/**
 * `getBaseballStandings` after the fetch: locating the conference's entries
 * in the standings tree, turning each entry into a `StandingsEntry`, and
 * ordering the table by win percent with wins as the tiebreaker.
 */
module EspnStandings {
  import opened Wrappers
  import opened JsText
  import opened EspnModel
  import Seqs
  import Sorting

  /** One statistic of a standings entry; `value` is the numeric field. */
  datatype RawStandingsStat = RawStandingsStat(
    name: Option<string>, abbreviation: Option<string>, displayValue: Option<string>, value: Option<int>)

  datatype RawStandingsTeam = RawStandingsTeam(
    id: Option<string>, name: Option<string>, abbreviation: Option<string>,
    displayName: Option<string>, firstLogoHref: Option<string>)

  datatype RawStandingsEntry = RawStandingsEntry(team: Option<RawStandingsTeam>, stats: seq<RawStandingsStat>)

  /** A child of a group; `entries` is `standings.entries`. */
  datatype RawStandingsChild = RawStandingsChild(id: Option<string>, name: Option<string>, entries: Option<seq<RawStandingsEntry>>)

  /** A top-level group of the standings tree; an absent `children` list is empty. */
  datatype RawStandingsGroup = RawStandingsGroup(children: seq<RawStandingsChild>)

  // ---------------------------------------------------------------- locating the conference

  /** The conference's child: id "27", or a name mentioning "Southeastern". */
  predicate IsConferenceChild(child: RawStandingsChild) {
    child.id == Some("27") || (child.name.Some? && Includes(child.name.value, "Southeastern"))
  }

  function EntriesOf(child: RawStandingsChild): seq<RawStandingsEntry> {
    if child.entries.Some? then child.entries.value else []
  }

  /** Each group contributes the entries of its first conference child; the
    * first group whose contribution is non-empty decides. */
  function ConferenceEntries(groups: seq<RawStandingsGroup>): seq<RawStandingsEntry> {
    if groups == [] then []
    else
      var found := Seqs.Find(groups[0].children, IsConferenceChild);
      if found.Some? && EntriesOf(found.value) != [] then EntriesOf(found.value)
      else ConferenceEntries(groups[1..])
  }

  /** The nested search with its two `break`s. */
  method FindConferenceEntries(groups: seq<RawStandingsGroup>) returns (secEntries: seq<RawStandingsEntry>)
    ensures secEntries == ConferenceEntries(groups)
  {
    secEntries := [];
    var g := 0;
    while g < |groups|
      invariant 0 <= g <= |groups|
      invariant secEntries == []
      invariant ConferenceEntries(groups) == ConferenceEntries(groups[g..])
    {
      var children := groups[g].children;
      var c := 0;
      while c < |children|
        invariant 0 <= c <= |children|
        invariant secEntries == []
        invariant forall k :: 0 <= k < c ==> !IsConferenceChild(children[k])
      {
        if IsConferenceChild(children[c]) {
          secEntries := EntriesOf(children[c]);
          Seqs.FindFirstMatch(children, IsConferenceChild, c);
          break;
        }
        assert !IsConferenceChild(children[c]);
        c := c + 1;
      }
      assert groups[g..][1..] == groups[g + 1..];
      if |secEntries| > 0 {
        return;
      }
      g := g + 1;
    }
  }

  /** The entries found come from a conference child of some group, or there
    * are none; and when the first group has a conference child with entries,
    * later groups are never consulted. */
  lemma {:induction false} ConferenceEntriesSource(groups: seq<RawStandingsGroup>)
    ensures var r := ConferenceEntries(groups);
            r == [] || exists g, c :: 0 <= g < |groups| && 0 <= c < |groups[g].children|
                                      && IsConferenceChild(groups[g].children[c]) && r == EntriesOf(groups[g].children[c])
  {
    if groups != [] {
      var f := Seqs.Find(groups[0].children, IsConferenceChild);
      if f.Some? && EntriesOf(f.value) != [] {
        var c :| 0 <= c < |groups[0].children| && groups[0].children[c] == f.value && IsConferenceChild(groups[0].children[c]);
      } else {
        ConferenceEntriesSource(groups[1..]);
        var r := ConferenceEntries(groups[1..]);
        if r != [] {
          var g, c :| 0 <= g < |groups[1..]| && 0 <= c < |groups[1..][g].children|
                      && IsConferenceChild(groups[1..][g].children[c]) && r == EntriesOf(groups[1..][g].children[c]);
          assert groups[g + 1] == groups[1..][g];
        }
      }
    }
  }

  // ---------------------------------------------------------------- entries

  predicate IsStatNamed(s: RawStandingsStat, name: string) {
    s.name == Some(name) || s.abbreviation == Some(name)
  }

  /** A statistic's text: `displayValue ?? value.toString() ?? "0"`. */
  function StatText(stat: RawStandingsStat): string {
    if stat.displayValue.Some? then stat.displayValue.value
    else if stat.value.Some? then IntToString(stat.value.value)
    else "0"
  }

  /** `getStat(name)`: the text of the first statistic matching by name or
    * abbreviation, or "0" when none matches. */
  function GetStat(stats: seq<RawStandingsStat>, name: string): (r: string)
    ensures (forall k :: 0 <= k < |stats| ==> !IsStatNamed(stats[k], name)) ==> r == "0"
    ensures forall k :: (0 <= k < |stats| && IsStatNamed(stats[k], name)
                         && forall j :: 0 <= j < k ==> !IsStatNamed(stats[j], name)) ==> r == StatText(stats[k])
  {
    match Seqs.Find(stats, (s: RawStandingsStat) => IsStatNamed(s, name))
    case None => "0"
    case Some(stat) => StatText(stat)
  }

  /** `getStatNum(name)`: the first matching statistic's `value`, or 0 when
    * none matches or the match has no value. */
  function GetStatNum(stats: seq<RawStandingsStat>, name: string): (r: int)
    ensures (forall k :: 0 <= k < |stats| ==> !IsStatNamed(stats[k], name)) ==> r == 0
    ensures forall k :: (0 <= k < |stats| && IsStatNamed(stats[k], name)
                         && forall j :: 0 <= j < k ==> !IsStatNamed(stats[j], name)) ==> r == stats[k].value.GetOr(0)
  {
    var found := Seqs.Find(stats, (s: RawStandingsStat) => IsStatNamed(s, name));
    if found.Some? && found.value.value.Some? then found.value.value.value else 0
  }

  /** Without a display value, the text of a statistic reads back as the
    * number `GetStatNum` returns. */
  lemma GetStatAgreesWithNum(stats: seq<RawStandingsStat>, name: string)
    requires var f := Seqs.Find(stats, (s: RawStandingsStat) => IsStatNamed(s, name));
             f.Some? && f.value.displayValue.None?
    ensures ParseInt(GetStat(stats, name)) == Some(GetStatNum(stats, name))
  {
    var f := Seqs.Find(stats, (s: RawStandingsStat) => IsStatNamed(s, name));
    if f.value.value.Some? {
      ParseIntOfIntToString(f.value.value.value);
    } else {
      assert GetStat(stats, name) == "0" == IntToString(0);
      ParseIntOfIntToString(0);
    }
  }

  /** One row of the table. */
  function BuildEntry(entry: RawStandingsEntry): (e: StandingsEntry)
    ensures e.wins == GetStatNum(entry.stats, "wins") && e.losses == GetStatNum(entry.stats, "losses")
    ensures e.overall == GetStat(entry.stats, "wins") + "-" + GetStat(entry.stats, "losses")
    ensures e.winPercent == GetStat(entry.stats, "winPercent") && e.streak == GetStat(entry.stats, "streak")
            && e.runDifferential == GetStat(entry.stats, "pointDifferential")
    ensures entry.team.None? ==> e.teamId == "" && e.teamName == "" && e.abbreviation == "" && e.logo == ""
    ensures entry.team.Some? ==>
              var t := entry.team.value;
              && (Truthy(t.displayName) ==> e.teamName == t.displayName.value)
              && (!Truthy(t.displayName) && Truthy(t.name) ==> e.teamName == t.name.value)
              && (!Truthy(t.displayName) && !Truthy(t.name) ==> e.teamName == "")
              && e.abbreviation == (if Truthy(t.abbreviation) then t.abbreviation.value else "")
              && e.teamId == (if Truthy(t.id) then t.id.value else "")
              && e.logo == (if Truthy(t.firstLogoHref) then t.firstLogoHref.value else "")
  {
    var team := if entry.team.Some? then entry.team.value else RawStandingsTeam(None, None, None, None, None);
    var stats := entry.stats;
    StandingsEntry(
      if Truthy(team.id) then team.id.value else "",
      if Truthy(team.displayName) then team.displayName.value else if Truthy(team.name) then team.name.value else "",
      if Truthy(team.abbreviation) then team.abbreviation.value else "",
      if Truthy(team.firstLogoHref) then team.firstLogoHref.value else "",
      GetStat(stats, "wins") + "-" + GetStat(stats, "losses"),
      GetStatNum(stats, "wins"),
      GetStatNum(stats, "losses"),
      GetStat(stats, "winPercent"),
      GetStat(stats, "streak"),
      GetStat(stats, "pointDifferential"))
  }

  // ---------------------------------------------------------------- ordering

  /** `parseFloat(winPercent) || 0`. */
  function WinPercentKey(e: StandingsEntry): real {
    ParseDecimal(e.winPercent).GetOr(0.0)
  }

  /** The comparator: `a` may precede `b` when its win percent is higher, or
    * equal with at least as many wins. */
  predicate RanksBefore(a: StandingsEntry, b: StandingsEntry) {
    WinPercentKey(a) > WinPercentKey(b) || (WinPercentKey(a) == WinPercentKey(b) && a.wins >= b.wins)
  }

  lemma RanksBeforeOrder()
    ensures Sorting.Total(RanksBefore) && Sorting.Transitive(RanksBefore)
  {
  }

  /** The conference table: every entry mapped, then ordered by the comparator. */
  function Standings(entries: seq<RawStandingsEntry>): (r: seq<StandingsEntry>)
    ensures multiset(r) == multiset(seq(|entries|, i requires 0 <= i < |entries| => BuildEntry(entries[i])))
    ensures forall i, j :: 0 <= i < j < |r| ==> RanksBefore(r[i], r[j])
  {
    RanksBeforeOrder();
    var rows := seq(|entries|, i requires 0 <= i < |entries| => BuildEntry(entries[i]));
    var r := Sorting.SortBy(rows, RanksBefore);
    assert forall i, j :: 0 <= i < j < |r| ==> RanksBefore(r[i], r[j]) by {
      forall i, j | 0 <= i < j < |r| ensures RanksBefore(r[i], r[j]) {
        Sorting.SortedPairwise(r, RanksBefore, i, j);
      }
    }
    r
  }

  /** Higher win percent first; on equal win percent, more wins first; a win
    * percent that does not parse ranks as 0. */
  lemma StandingsOrder(entries: seq<RawStandingsEntry>, i: int, j: int)
    requires 0 <= i < j < |Standings(entries)|
    ensures var r := Standings(entries);
            WinPercentKey(r[i]) >= WinPercentKey(r[j])
            && (WinPercentKey(r[i]) == WinPercentKey(r[j]) ==> r[i].wins >= r[j].wins)
  {
  }

  /** A win percentage that `parseFloat` reads as NaN sorts as 0; the feed's
    * "-" placeholder is one. */
  lemma UnparsedWinPercentIsZero(e: StandingsEntry)
    ensures ParseDecimal(e.winPercent).None? ==> WinPercentKey(e) == 0.0
    ensures e.winPercent == "-" ==> WinPercentKey(e) == 0.0
  {
    ParseDecimalDash();
  }

  /** A win percentage written `ip.fp` sorts by its decimal value. */
  lemma DecimalWinPercentKey(e: StandingsEntry, ip: string, fp: string)
    requires AllDigits(ip) && AllDigits(fp) && (ip != [] || fp != [])
    requires e.winPercent == ip + "." + fp
    ensures WinPercentKey(e) == DecimalValue(ip, fp)
  {
    assert SignText(None) + (ip + "." + fp + "") == e.winPercent;
    ParseDecimalOf(None, ip, fp, "");
  }
}
