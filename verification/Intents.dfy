/** What each request of a writer process asks for, written out event by event
    (internal/report/events.go, cmd/tmux-web/report.go). */
module Intents {
  import opened Prelude
  import opened ReportTypes
  import opened ReportCodec
  import E = Events
  import W = Writer

  /** A subagent the turn launched is still running: both words as they were seen. */
  predicate SubagentRuns(p: E.Payload) {
    exists i | 0 <= i < |p.backgroundTasks| ::
      p.backgroundTasks[i].kind == "subagent" && p.backgroundTasks[i].status == "running"
  }

  /** A turn starts, or a tool is about to run in one. */
  predicate IsWorking(agent: string, event: string, p: E.Payload) {
    || (agent == "claude" && event in {"UserPromptSubmit", "PreToolUse"})
    || (agent == "claude" && event == "Notification" && p.notificationType == "quota_auto_resume_fired")
    || (agent == "opencode" && event in {"prompt", "session.execution.started", "session.step.started", "tool.execute.before"})
    || (agent == "pi" && event in {"input", "tool_execution_start"})
    || (agent == "pi" && event == "session_start" && !p.idle)
  }

  /** The agent has put a question on the screen. */
  predicate IsBlocked(agent: string, event: string, p: E.Payload) {
    || (agent == "claude" && event == "Notification" && p.notificationType == "permission_prompt")
    || (agent == "opencode" && event == "permission.asked")
    || (agent == "pi" && event == "ui_prompt_start")
  }

  /** A turn has just ended. */
  predicate IsTurnEnd(agent: string, event: string, p: E.Payload) {
    || (agent == "claude" && event == "Stop" && !SubagentRuns(p))
    || (agent == "opencode"
        && event in {"session.execution.succeeded", "session.execution.failed", "session.execution.interrupted"})
    || (agent == "pi" && event == "agent_settled")
  }

  /** A turn ended some time ago. */
  predicate IsResting(agent: string, event: string, p: E.Payload) {
    || (agent == "claude" && event == "Notification"
        && p.notificationType in {"idle_prompt", "quota_auto_resume_disabled"})
    || (agent == "pi" && event == "session_start" && p.idle)
  }

  /** The state an event reports, and whether it only restates it. */
  function Meaning(agent: string, event: string, p: E.Payload): Option<(AgentState, bool)> {
    if IsWorking(agent, event, p) then Some((Working, false))
    else if IsBlocked(agent, event, p) then Some((Blocked, false))
    else if IsTurnEnd(agent, event, p) then Some((Idle, false))
    else if IsResting(agent, event, p) then Some((Idle, true))
    else None
  }

  /** What the table says of an event, against what it means. */
  predicate Says(m: Option<E.Mapping>, meaning: Option<(AgentState, bool)>) {
    if m.None? || m.value.state.None? then meaning.None?
    else
      && meaning == Some((m.value.state.value, E.Reasserts(m.value)))
      && (E.DatesFromStanding(m.value) <==> meaning.value.1)
  }

  /** What a notification means, by its type. */
  function Notified(kind: string): Option<(AgentState, bool)> {
    if kind == "quota_auto_resume_fired" then Some((Working, false))
    else if kind == "permission_prompt" then Some((Blocked, false))
    else if kind == "idle_prompt" || kind == "quota_auto_resume_disabled" then Some((Idle, true))
    else None
  }

  lemma NotifiedIs(kind: string)
    ensures Says(if kind in E.CLAUDE_NOTIFICATIONS then Some(E.CLAUDE_NOTIFICATIONS[kind]) else Some(E.IGNORED), Notified(kind))
  {
  }

  lemma NotificationMeans(p: E.Payload)
    ensures Meaning("claude", "Notification", p) == Notified(p.notificationType)
  {
  }

  lemma ClaudeNotifications(p: E.Payload)
    ensures Says(E.Lookup("claude", "Notification", p), Meaning("claude", "Notification", p))
  {
    NotifiedIs(p.notificationType);
    NotificationMeans(p);
  }

  lemma ClaudeStops(p: E.Payload)
    ensures Says(E.Lookup("claude", "Stop", p), Meaning("claude", "Stop", p))
  {
    assert SubagentRuns(p) <==> E.Task("subagent", "running") in p.backgroundTasks;
  }

  lemma ClaudeMeans(event: string, p: E.Payload)
    ensures Says(E.Lookup("claude", event, p), Meaning("claude", event, p))
  {
    assert "claude" in E.RULES && E.RULES["claude"] == E.CLAUDE;
    if event == "Notification" {
      ClaudeNotifications(p);
    } else if event == "Stop" {
      ClaudeStops(p);
    }
  }

  lemma OpencodeMeans(event: string, p: E.Payload)
    ensures Says(E.Lookup("opencode", event, p), Meaning("opencode", event, p))
  {
    assert "opencode" in E.RULES && E.RULES["opencode"] == E.OPENCODE;
  }

  lemma PiMeans(event: string, p: E.Payload)
    ensures Says(E.Lookup("pi", event, p), Meaning("pi", event, p))
  {
    assert "pi" in E.RULES && E.RULES["pi"] == E.PI;
  }

  /** Every event of every agent, and every event of no agent. */
  lemma EventsMean(agent: string, event: string, p: E.Payload)
    ensures Says(E.Lookup(agent, event, p), Meaning(agent, event, p))
  {
    if agent == "claude" {
      ClaudeMeans(event, p);
    } else if agent == "opencode" {
      OpencodeMeans(event, p);
    } else if agent == "pi" {
      PiMeans(event, p);
    }
  }

  /** What an integration's request asks for: the state its event means, under the text it
      brings; re-asserted, and dated from the standing report, exactly when the turn ended
      some time ago; and nothing for an event that means nothing or a payload that is of
      no use. */
  lemma IntegrationIntends(q: W.Request)
    requires q.state == "" && q.text == "" && q.agent != "" && q.event != ""
    ensures var meaning := Meaning(q.agent, q.event, q.payload);
      W.Intended(E.RULES, q)
        == if !q.usable || meaning.None? then None
           else Some(W.Intent(meaning.value.0, q.activity, meaning.value.1, meaning.value.1))
  {
    EventsMean(q.agent, q.event, q.payload);
  }

  /** In particular a claude turn end writes idle unless a subagent is still running. */
  lemma ClaudeStopIntends(payload: E.Payload, activity: string)
    ensures var i := W.Intended(E.RULES, W.Request("", "", "claude", "Stop", true, payload, activity));
      && (i == None <==> exists k | 0 <= k < |payload.backgroundTasks| ::
            payload.backgroundTasks[k].kind == "subagent" && payload.backgroundTasks[k].status == "running")
      && (i != None ==> i == Some(W.Intent(Idle, activity, false, false)))
  {
    IntegrationIntends(W.Request("", "", "claude", "Stop", true, payload, activity));
  }

  /** What a person's request asks for: the state as it is spelled, always an edge. The two
      forms together, or half of the integration's, ask for nothing. */
  lemma ManualIntends(q: W.Request)
    requires (q.state != "" || q.text != "") || q.agent == "" || q.event == ""
    ensures W.Intended(E.RULES, q)
      == if q.agent != "" || q.event != "" then None
         else if q.state == "working" then Some(W.Intent(Working, q.text, false, false))
         else if q.state == "blocked" then Some(W.Intent(Blocked, q.text, false, false))
         else if q.state == "idle" then Some(W.Intent(Idle, q.text, false, false))
         else None
  {
  }

  /** A mapping that was never classified fails closed: one that comes to rest reads the
      standing report and is dated from it, and one that works is written as it is. A
      re-assertion is dated from now only where the table says so. */
  lemma UnclassifiedDefers(m: E.Mapping)
    ensures m.kind.KindUnclassified? ==>
              (m.state in {Some(Idle), Some(Blocked)} <==> E.Reasserts(m)) && (m.state == Some(Working) ==> !E.Reasserts(m))
    ensures E.DatesFromStanding(m)
      <==> (m.kind.KindReassertion? || (m.kind.KindUnclassified? && m.state in {Some(Idle), Some(Blocked)})) && !m.dates.DateFromNow?
  {
  }

  /** By any table: a mapping that re-asserts from now is read for and not dated from what
      it reads, and nothing is dated from the standing report that does not read it. */
  lemma AnyTableIntends(rules: map<string, E.AgentTable>, q: W.Request)
    requires W.Intended(rules, q).Some?
    ensures W.Intended(rules, q).value.fromStanding ==> W.Intended(rules, q).value.reassert
    ensures var m := E.LookupIn(rules, q.agent, q.event, q.payload);
      q.agent != "" && m.Some? && m.value.kind.KindReassertion? && m.value.dates.DateFromNow? ==>
        W.Intended(rules, q).value.reassert && !W.Intended(rules, q).value.fromStanding
  {
  }
}
