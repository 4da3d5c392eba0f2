/** What an agent can say about its pane. */
module ReportTypes {
  import opened Prelude

  datatype AgentState = Working | Blocked | Idle

  /** One agent's statement about its own pane, dated in unix milliseconds by when it
      entered the state. */
  datatype Report = Report(state: AgentState, timestamp: int, activity: string)

  /** What one look at a pane's option shows: a report, which is always dated after
      the epoch, or nothing. */
  type Reading = r: Option<Report> | r.Some? ==> r.value.timestamp > 0 witness None

  /** Reading an option value by a clock. */
  type Parser = (string, int) -> Reading
}
