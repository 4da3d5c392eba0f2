/** What an agent's event means (internal/report/events.go): the state it writes, and
    whether and how the write defers to the report already standing. */
module Events {
  import opened Prelude
  import opened ReportTypes

  datatype Kind = KindUnclassified | KindEdge | KindReassertion
  datatype Dating = DateUnclassified | DateFromNow | DateFromStanding
  datatype Form = ClaudePermission | OpencodePermission | PiSelector

  /** What one event means. No state: the event is known and deliberately ignored. */
  datatype Mapping = Mapping(state: Option<AgentState>, kind: Kind, dates: Dating, form: Option<Form>)

  const IGNORED := Mapping(None, KindUnclassified, DateUnclassified, None)

  /** The parts of a payload the table reads, already decoded. A payload that does not
      have one reads as the empty value. */
  datatype Task = Task(kind: string, status: string)
  datatype Payload = Payload(notificationType: string, backgroundTasks: seq<Task>, idle: bool)

  datatype Discriminator = NotificationType | SubagentRunning | SessionIdle
  datatype Rule =
    | Plain(mapping: Mapping)
    | ByValue(discriminate: Discriminator, byValue: map<string, Mapping>)
  datatype TurnStart = TurnStart(event: string, value: string)
  datatype AgentTable = AgentTable(turnStart: TurnStart, events: map<string, Rule>)

  function Reasserts(m: Mapping): bool {
    match m.kind
    case KindEdge => false
    case KindReassertion => true
    case KindUnclassified => m.state == Some(Idle) || m.state == Some(Blocked)
  }

  function DatesFromStanding(m: Mapping): bool {
    if !Reasserts(m) then false else m.dates != DateFromNow
  }

  function Edge(s: AgentState): Mapping {
    Mapping(Some(s), KindEdge, DateUnclassified, None)
  }

  function Prompt(f: Form): Mapping {
    Mapping(Some(Blocked), KindEdge, DateUnclassified, Some(f))
  }

  const REPAIR := Mapping(Some(Idle), KindReassertion, DateFromStanding, None)

  const CLAUDE_NOTIFICATIONS: map<string, Mapping> := map[
    "permission_prompt" := Prompt(ClaudePermission),
    "quota_auto_resume_fired" := Edge(Working),
    "idle_prompt" := REPAIR,
    "quota_auto_resume_disabled" := REPAIR,
    "quota_auto_resume_stale" := IGNORED,
    "elicitation_dialog" := IGNORED,
    "elicitation_url_dialog" := IGNORED,
    "agent_needs_input" := IGNORED,
    "auth_success" := IGNORED,
    "elicitation_complete" := IGNORED,
    "elicitation_response" := IGNORED,
    "agent_completed" := IGNORED
  ]

  const CLAUDE_STOPS: map<string, Mapping> := map["settled" := Edge(Idle), "subagent_running" := IGNORED]

  const PI_SESSION_STARTS: map<string, Mapping> := map["working" := Edge(Working), "idle" := REPAIR]

  const CLAUDE := AgentTable(TurnStart("UserPromptSubmit", ""), map[
    "UserPromptSubmit" := Plain(Edge(Working)),
    "PreToolUse" := Plain(Edge(Working)),
    "Notification" := ByValue(NotificationType, CLAUDE_NOTIFICATIONS),
    "Stop" := ByValue(SubagentRunning, CLAUDE_STOPS)
  ])

  const OPENCODE := AgentTable(TurnStart("session.execution.started", ""), map[
    "prompt" := Plain(Edge(Working)),
    "session.execution.started" := Plain(Edge(Working)),
    "session.step.started" := Plain(Edge(Working)),
    "tool.execute.before" := Plain(Edge(Working)),
    "permission.asked" := Plain(Prompt(OpencodePermission)),
    "session.execution.succeeded" := Plain(Edge(Idle)),
    "session.execution.failed" := Plain(Edge(Idle)),
    "session.execution.interrupted" := Plain(Edge(Idle))
  ])

  const PI := AgentTable(TurnStart("input", ""), map[
    "session_start" := ByValue(SessionIdle, PI_SESSION_STARTS),
    "input" := Plain(Edge(Working)),
    "tool_execution_start" := Plain(Edge(Working)),
    "ui_prompt_start" := Plain(Prompt(PiSelector)),
    "agent_settled" := Plain(Edge(Idle))
  ])

  const AGENTS := ["claude", "opencode", "pi"]

  const RULES: map<string, AgentTable> := map["claude" := CLAUDE, "opencode" := OPENCODE, "pi" := PI]

  /** The discriminators. Stop reports a running subagent only for the one spelling
      that was ever seen; a session start falls to working. */
  function Discriminated(d: Discriminator, p: Payload): string {
    match d
    case NotificationType => p.notificationType
    case SubagentRunning => if Task("subagent", "running") in p.backgroundTasks then "subagent_running" else "settled"
    case SessionIdle => if p.idle then "idle" else "working"
  }

  /** claudeStopSubagentRunning, as the loop it is. */
  method StopSubagentRunning(p: Payload) returns (value: string)
    ensures value == Discriminated(SubagentRunning, p)
    ensures value == "subagent_running" <==>
              exists i | 0 <= i < |p.backgroundTasks| ::
                p.backgroundTasks[i].kind == "subagent" && p.backgroundTasks[i].status == "running"
    ensures value != "subagent_running" ==> value == "settled"
  {
    for i := 0 to |p.backgroundTasks|
      invariant forall k | 0 <= k < i :: p.backgroundTasks[k] != Task("subagent", "running")
    {
      var task := p.backgroundTasks[i];
      if task.kind == "subagent" && task.status == "running" {
        return "subagent_running";
      }
    }
    return "settled";
  }

  function LookupIn(table: map<string, AgentTable>, agent: string, event: string, p: Payload): Option<Mapping> {
    if agent !in table || event !in table[agent].events then None
    else
      match table[agent].events[event]
      case Plain(m) => Some(m)
      case ByValue(d, byValue) =>
        var v := Discriminated(d, p);
        Some(if v in byValue then byValue[v] else IGNORED)
  }

  function Lookup(agent: string, event: string, p: Payload): Option<Mapping> {
    LookupIn(RULES, agent, event, p)
  }

  // ------------------------------------------------------- what a table must keep

  function MappingsOf(r: Rule): set<Mapping> {
    match r
    case Plain(m) => {m}
    case ByValue(_, byValue) => byValue.Values
  }

  function FormsFor(agent: string): set<Form> {
    if agent == "claude" then {ClaudePermission}
    else if agent == "opencode" then {OpencodePermission}
    else if agent == "pi" then {PiSelector}
    else {}
  }

  /** A form is a blocked mapping's evidence, and one of the agent's own. */
  predicate FormFits(agent: string, m: Mapping) {
    if m.state == Some(Blocked) then m.form.Some? && m.form.value in FormsFor(agent) else m.form.None?
  }

  predicate FormsFit(agent: string, events: map<string, Rule>) {
    forall event, m | event in events && m in MappingsOf(events[event]) :: FormFits(agent, m)
  }

  function ResolveTurnStart(t: AgentTable): Option<Mapping> {
    if t.turnStart.event !in t.events then None
    else
      match t.events[t.turnStart.event]
      case Plain(m) => if t.turnStart.value == "" then Some(m) else None
      case ByValue(_, byValue) => if t.turnStart.value in byValue then Some(byValue[t.turnStart.value]) else None
  }

  /** The event a table names as its turn start, under the value it names where the event has
      values and under none where it has not, is a working edge. */
  predicate StartsTurns(t: AgentTable) {
    && t.turnStart.event in t.events
    && match t.events[t.turnStart.event]
       case Plain(m) => t.turnStart.value == "" && m.state == Some(Working) && m.kind.KindEdge?
       case ByValue(_, byValue) =>
         && t.turnStart.value in byValue
         && byValue[t.turnStart.value].state == Some(Working) && byValue[t.turnStart.value].kind.KindEdge?
  }

  /** The turn start is a working edge. */
  predicate TurnStarts(t: AgentTable) {
    var m := ResolveTurnStart(t);
    m.Some? && m.value.state == Some(Working) && m.value.kind == KindEdge
  }

  predicate TableFits(agent: string, t: AgentTable) {
    FormsFit(agent, t.events) && TurnStarts(t)
  }

  /** The three invariants a process refuses to start without. */
  ghost predicate RulesHold(table: map<string, AgentTable>, agents: seq<string>) {
    && (forall a :: a in agents <==> a in table)
    && (forall a | a in table :: TableFits(a, table[a]))
  }

  method CheckForms(agent: string, events: map<string, Rule>) returns (ok: bool)
    ensures ok <==> FormsFit(agent, events)
  {
    var left := events.Keys;
    while left != {}
      invariant left <= events.Keys
      invariant forall event, m | event in events.Keys - left && m in MappingsOf(events[event]) :: FormFits(agent, m)
      decreases |left|
    {
      var event :| event in left;
      var ms := MappingsOf(events[event]);
      while ms != {}
        invariant ms <= MappingsOf(events[event])
        invariant forall m | m in MappingsOf(events[event]) - ms :: FormFits(agent, m)
        decreases |ms|
      {
        var m :| m in ms;
        if !FormFits(agent, m) {
          return false;
        }
        ms := ms - {m};
      }
      left := left - {event};
    }
    return true;
  }

  method CheckRules(table: map<string, AgentTable>, agents: seq<string>) returns (ok: bool)
    ensures ok <==> RulesHold(table, agents)
    ensures ok <==>
              && (forall a :: a in agents <==> a in table)
              && (forall a | a in table :: FormsFit(a, table[a].events) && StartsTurns(table[a]))
  {
    var known: set<string> := {};
    for i := 0 to |agents|
      invariant forall a :: a in known <==> a in agents[..i]
      invariant forall a | a in agents[..i] :: a in table
    {
      known := known + {agents[i]};
      if agents[i] !in table {
        return false;
      }
    }
    assert agents[..|agents|] == agents;
    var left := table.Keys;
    while left != {}
      invariant left <= table.Keys
      invariant forall a | a in table.Keys - left :: a in known && TableFits(a, table[a])
      decreases |left|
    {
      var agent :| agent in left;
      if agent !in known {
        return false;
      }
      var fits := CheckForms(agent, table[agent].events);
      if !fits {
        return false;
      }
      var m := ResolveTurnStart(table[agent]);
      if m.None? || m.value.state != Some(Working) || m.value.kind != KindEdge {
        return false;
      }
      left := left - {agent};
    }
    return true;
  }

  // ------------------------------------------------------ what the shipped table says

  lemma ClaudeNotificationMappings(v: string)
    requires v in CLAUDE_NOTIFICATIONS
    ensures CLAUDE_NOTIFICATIONS[v] in {Prompt(ClaudePermission), Edge(Working), REPAIR, IGNORED}
  {
  }

  lemma ClaudeFits()
    ensures TableFits("claude", CLAUDE)
  {
    forall event, m | event in CLAUDE.events && m in MappingsOf(CLAUDE.events[event])
      ensures FormFits("claude", m)
    {
      if m in CLAUDE_NOTIFICATIONS.Values {
        var v :| v in CLAUDE_NOTIFICATIONS && CLAUDE_NOTIFICATIONS[v] == m;
        ClaudeNotificationMappings(v);
      }
    }
  }

  lemma OpencodeFits()
    ensures TableFits("opencode", OPENCODE)
  {
  }

  lemma PiFits()
    ensures TableFits("pi", PI)
  {
  }

  /** The shipped table passes its own check. */
  lemma ShippedRulesHold()
    ensures RulesHold(RULES, AGENTS)
  {
    ClaudeFits();
    OpencodeFits();
    PiFits();
  }

  lemma MappingsAreReached(agent: string, event: string, p: Payload)
    requires Lookup(agent, event, p).Some?
    ensures agent in RULES && event in RULES[agent].events
    ensures var m := Lookup(agent, event, p).value; m == IGNORED || m in MappingsOf(RULES[agent].events[event])
  {
    var rule := RULES[agent].events[event];
    if rule.ByValue? {
      var v := Discriminated(rule.discriminate, p);
      if v in rule.byValue {
        assert rule.byValue[v] in rule.byValue.Values;
      }
    }
  }

  /** The events that say an agent is resting without having been there when it came
      to rest. */
  predicate Restates(agent: string, event: string, p: Payload) {
    || (agent == "claude" && event == "Notification"
        && (p.notificationType == "idle_prompt" || p.notificationType == "quota_auto_resume_disabled"))
    || (agent == "pi" && event == "session_start" && p.idle)
  }

  /** What the protocol needs of a mapping that writes: it is an edge, or an idle
      re-assertion dated from the standing report. */
  predicate Orderly(m: Mapping, restates: bool) {
    && (Reasserts(m) <==> restates)
    && (Reasserts(m) ==> m.state == Some(Idle) && DatesFromStanding(m))
    && (!Reasserts(m) ==> m.kind == KindEdge)
  }

  lemma ClaudeNotificationIsOrderly(p: Payload)
    requires p.notificationType in CLAUDE_NOTIFICATIONS
    ensures var m := CLAUDE_NOTIFICATIONS[p.notificationType];
      m.state.Some? ==> Orderly(m, Restates("claude", "Notification", p))
  {
    ClaudeNotificationMappings(p.notificationType);
  }

  lemma ClaudeIsOrderly(event: string, p: Payload)
    requires event in CLAUDE.events
    ensures var m := LookupIn(RULES, "claude", event, p);
      m.Some? && (m.value.state.Some? ==> Orderly(m.value, Restates("claude", event, p)))
  {
    assert "claude" in RULES && RULES["claude"] == CLAUDE;
    if event == "Notification" && p.notificationType in CLAUDE_NOTIFICATIONS {
      ClaudeNotificationIsOrderly(p);
    }
  }

  lemma OpencodeIsOrderly(event: string, p: Payload)
    requires event in OPENCODE.events
    ensures var m := LookupIn(RULES, "opencode", event, p);
      m.Some? && (m.value.state.Some? ==> Orderly(m.value, Restates("opencode", event, p)))
  {
    assert "opencode" in RULES && RULES["opencode"] == OPENCODE;
  }

  lemma PiIsOrderly(event: string, p: Payload)
    requires event in PI.events
    ensures var m := LookupIn(RULES, "pi", event, p);
      m.Some? && (m.value.state.Some? ==> Orderly(m.value, Restates("pi", event, p)))
  {
    assert "pi" in RULES && RULES["pi"] == PI;
  }

  /** Every write the shipped table asks for is an edge, or an idle re-assertion dated
      from the standing report, and the re-assertions are exactly the events that
      restate. So no shipped event can date a repair from the moment it fires. */
  lemma ShippedWrites(agent: string, event: string, p: Payload)
    requires Lookup(agent, event, p).Some? && Lookup(agent, event, p).value.state.Some?
    ensures Orderly(Lookup(agent, event, p).value, Restates(agent, event, p))
  {
    MappingsAreReached(agent, event, p);
    if agent == "claude" {
      ClaudeIsOrderly(event, p);
    } else if agent == "opencode" {
      OpencodeIsOrderly(event, p);
    } else {
      PiIsOrderly(event, p);
    }
  }
}
