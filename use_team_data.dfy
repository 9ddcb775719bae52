/**
 * How often the team data is refetched: every 30 seconds while the next game
 * is in progress, every 5 minutes on its day, every 15 minutes otherwise.
 */
module UseTeamData {
  import opened Wrappers
  import opened EspnModel

  const LiveIntervalMs: nat := 30 * 1000
  const GameDayIntervalMs: nat := 5 * 60 * 1000
  const NormalIntervalMs: nat := 15 * 60 * 1000

  /** `getRefreshInterval(data)`; `isToday` says whether the next game's date
    * falls on the current calendar day. */
  function RefreshInterval(data: Option<TeamData>, isToday: bool): (ms: nat)
    ensures ms == LiveIntervalMs || ms == GameDayIntervalMs || ms == NormalIntervalMs
    ensures data.None? || data.value.nextGame.None? ==> ms == NormalIntervalMs
    ensures data.Some? && data.value.nextGame.Some?
            ==> (ms == LiveIntervalMs <==> data.value.nextGame.value.status.state == Some("in"))
    ensures data.Some? && data.value.nextGame.Some? && data.value.nextGame.value.status.state != Some("in")
            ==> ms == (if isToday then GameDayIntervalMs else NormalIntervalMs)
  {
    if data.None? || data.value.nextGame.None? then NormalIntervalMs
    else if data.value.nextGame.value.status.state == Some("in") then LiveIntervalMs
    else if isToday then GameDayIntervalMs
    else NormalIntervalMs
  }

  /** A live next game refreshes fastest, whatever its date, and the interval
    * never shortens as the game moves from another day to today. */
  lemma RefreshIntervalOrder(data: Option<TeamData>)
    ensures RefreshInterval(data, true) <= RefreshInterval(data, false)
    ensures data.Some? && data.value.nextGame.Some? && data.value.nextGame.value.status.state == Some("in")
            ==> RefreshInterval(data, true) == RefreshInterval(data, false) == 30000
    ensures LiveIntervalMs < GameDayIntervalMs < NormalIntervalMs && NormalIntervalMs == 900000
  {
  }
}
