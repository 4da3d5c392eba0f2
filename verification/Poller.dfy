/** One poll (internal/tmux/poller.go): which of the two authorities decides each
    pane, what both of them remember afterwards, and what is published. */
module Poller {
  import opened Prelude
  import opened PaneMaps
  import opened PaneWalk
  import opened ReportTypes
  import opened Reports
  import C = Classifier

  /** Which authority decided a pane's state. */
  datatype Source = Nobody | Event | Screen

  datatype Question = Question(text: string, choices: seq<string>)

  /** The columns of a row a poll decides, beside the two it decides them from. */
  datatype Row = Row(paneID: string, command: string,
                     agentState: Option<AgentState>, activity: string, source: Source,
                     finishedAt: int, question: Option<Question>)

  /** The screen grammars, which this part of the model treats as given. */
  datatype Grammars = Grammars(isBlocked: (string, string) -> bool,
                               extract: (string, string) -> Option<Question>)

  /** What a poller is built over: the grammars, the capture hash, and the reader of
      the option. */
  datatype Env = Env(grammars: Grammars, hash: string -> int, parse: Parser)

  /** One pane, before or after a poll: what each authority remembers, and its row. */
  type Pane = Step<Entry, C.PaneState, Row>

  /** What one successful poll finds out about one agent pane. `capture` is what
      capture-pane answers if it is asked, None when it fails. */
  datatype Look = Look(shown: Reading, now: int, connected: bool, capture: Option<string>)

  function StateOf(v: C.Verdict): AgentState {
    if v.Idle? then Idle else Working
  }

  function EventRow(row: Row, rep: Report, finished: bool): Row {
    var r := row.(agentState := Some(rep.state), activity := rep.activity, source := Event);
    if rep.state == Idle && finished then r.(finishedAt := rep.timestamp) else r
  }

  function ScreenRow(g: Grammars, row: Row, st: C.Status, blocked: bool, capture: string): Row {
    var r := row.(agentState := Some(StateOf(st.verdict)), finishedAt := st.finishedAt, source := Screen);
    if blocked then r.(agentState := Some(Blocked), question := g.extract(KnownAgent(row.command), capture)) else r
  }

  /** The classifier's path: one capture, the grammars on it, and churn's verdict. */
  function FromScreen(env: Env, p: Pane, now: int, capture: string): Pane {
    var blocked := env.grammars.isBlocked(KnownAgent(p.row.command), capture);
    var after := C.Next(p.screen, env.hash(capture), now, blocked);
    p.(screen := Some(after), row := ScreenRow(env.grammars, p.row, C.Answer(p.screen, after), blocked, capture))
  }

  /** A resting report against one capture: a blocked one by rules 1 and 2, with the
      grammars run on the capture, an idle one by rule 3. */
  function Weighed(env: Env, p: Pane, rep: Report, now: int, capture: string): Pane
    requires p.report.Some?
  {
    var blocked := rep.state == Blocked && env.grammars.isBlocked(KnownAgent(p.row.command), capture);
    var after := C.Next(p.screen, env.hash(capture), now, blocked);
    var st := C.Answer(p.screen, after);
    var (e, stands) := if rep.state == Blocked then Checked(p.report.value, st.changed, blocked)
                       else Verified(p.report.value, st.verdict == C.Idle);
    Step(Some(e), Some(after),
         if stands then EventRow(p.row, rep, e.verified) else ScreenRow(env.grammars, p.row, st, blocked, capture))
  }

  /** One agent pane once its report has been looked at: `rep` is the one in force.
      A pane that is not captured keeps nothing about its screen. */
  function Decided(env: Env, p: Pane, rep: Option<Report>, look: Look): Pane
    requires rep.Some? ==> p.report.Some?
  {
    var capture := if look.connected && (rep.Some? ==> WantsScreen(p.report.value)) then look.capture else None;
    if rep.Some? && capture.Some? then Weighed(env, p, rep.value, look.now, capture.value)
    else if rep.Some? then
      p.(screen := None, row := EventRow(p.row, rep.value, !look.connected || p.report.value.verified))
    else if capture.Some? then FromScreen(env, p, look.now, capture.value)
    else p.(screen := None)
  }

  /** With no client connected the classifier remembers nothing at all. */
  function Watched(p: Pane, connected: bool): Pane {
    if connected then p else p.(screen := None)
  }

  /** One agent pane through one successful poll. */
  function PollAgent(env: Env, p: Pane, look: Look): Pane {
    var e := Seen(p.report, look.shown);
    Decided(env, Watched(p, look.connected).(report := e), InForce(e, look.now), look)
  }

  /** Any pane through one successful poll. A pane that runs no agent is forgotten by
      both authorities, and its row is left alone. */
  function PollPane(env: Env, p: Pane, look: Look): Pane {
    if KnownAgent(p.row.command) == "" then Step(None, None, p.row) else PollAgent(env, p, look)
  }

  /** What the rest of the machine answers while one poll runs. */
  datatype World = World(now: int, connected: bool, captures: string -> Option<string>)

  function RawOf(raw: map<string, string>, id: string): string {
    if id in raw then raw[id] else ""
  }

  function LookAt(env: Env, w: World, raw: map<string, string>, row: Row): Look {
    Look(Read(env.parse, RawOf(raw, row.paneID), row.command, w.now), w.now, w.connected, w.captures(row.paneID))
  }

  function PollRule(env: Env, raw: map<string, string>, w: World): Rule<Entry, C.PaneState, Row> {
    Rule((row: Row) => row.paneID,
         (row: Row) => KnownAgent(row.command) != "",
         (p: Pane) => PollPane(env, p, LookAt(env, w, raw, p.row)))
  }

  /** The rule on an agent's row: its option is looked at, then the row is decided. */
  lemma AgentStep(env: Env, raw: map<string, string>, w: World,
                  reports: map<string, Entry>, screens: map<string, C.PaneState>, row: Row)
    requires KnownAgent(row.command) != "" && (!w.connected ==> screens == map[])
    ensures var look := LookAt(env, w, raw, row);
      var e := Seen(At(reports, row.paneID), look.shown);
      StepOf(PollRule(env, raw, w), reports, screens, row)
        == Decided(env, Step(e, At(screens, row.paneID), row), InForce(e, w.now), look)
  {
  }

  lemma OverRow(env: Env, raw: map<string, string>, w: World, walk: Walk<Entry, C.PaneState, Row>, row: Row)
    ensures var after := StepOf(PollRule(env, raw, w), walk.reports, walk.screens, row);
      var agent := KnownAgent(row.command) != "";
      Over(PollRule(env, raw, w), walk, row)
        == Walk(if agent then Put(walk.reports, row.paneID, after.report) else walk.reports,
                if after.screen.Some? then Put(walk.screens, row.paneID, after.screen) else walk.screens,
                if agent then walk.agents + [row.paneID] else walk.agents,
                if after.screen.Some? then walk.captured + [row.paneID] else walk.captured,
                walk.out + [after.row])
  {
  }

  lemma PollRuleIsSound(env: Env, raw: map<string, string>, w: World)
    ensures Sound(PollRule(env, raw, w))
  {
  }

  /** A whole poll of these rows, from one pair of memories to the next. */
  ghost predicate Polled(env: Env, rows: seq<Row>, raw: map<string, string>, w: World,
                         reports: map<string, Entry>, screens: map<string, C.PaneState>,
                         out: seq<Row>, reports': map<string, Entry>, screens': map<string, C.PaneState>)
  {
    Passed(PollRule(env, raw, w), reports, screens, rows, out, reports', screens')
  }

  predicate OneRowPerPane(rows: seq<Row>) {
    forall i, j | 0 <= i < j < |rows| :: rows[i].paneID != rows[j].paneID
  }

  lemma UnwatchedStep(env: Env, raw: map<string, string>, w: World,
                      reports: map<string, Entry>, screens: map<string, C.PaneState>, row: Row)
    requires !w.connected
    ensures StepOf(PollRule(env, raw, w), reports, screens, row) == StepOf(PollRule(env, raw, w), reports, map[], row)
    ensures StepOf(PollRule(env, raw, w), reports, screens, row).screen.None?
  {
  }

  /** Disconnecting empties the classifier before anything is decided, and that is
      already part of every pane's own step. */
  lemma UnwatchedPoll(env: Env, rows: seq<Row>, raw: map<string, string>, w: World,
                      reports: map<string, Entry>, screens: map<string, C.PaneState>,
                      out: seq<Row>, reports': map<string, Entry>, screens': map<string, C.PaneState>)
    requires !w.connected && Polled(env, rows, raw, w, reports, map[], out, reports', screens')
    ensures Polled(env, rows, raw, w, reports, screens, out, reports', map[])
  {
    var rule := PollRule(env, raw, w);
    forall i | 0 <= i < |rows|
      ensures StepOf(rule, reports, screens, rows[i]) == StepOf(rule, reports, map[], rows[i])
      ensures StepOf(rule, reports, screens, rows[i]).screen.None?
    {
      UnwatchedStep(env, raw, w, reports, screens, rows[i]);
    }
  }

  /** What a poll brings: the rows, the raw option values keyed by pane, and the
      server's generation when the read carried one. */
  datatype Poll = Poll(rows: seq<Row>, raw: map<string, string>, generation: Option<string>)

  datatype PollResult = Answered(poll: Poll) | Failed(reason: string)

  /** Everything a poller holds. */
  datatype State = State(reports: map<string, Entry>, screens: map<string, C.PaneState>,
                         latest: seq<Row>, err: Option<string>, serverStart: string)

  const INITIAL := State(map[], map[], [], None, "")

  predicate Restarted(s: State, poll: Poll) {
    poll.generation.Some? && poll.generation.value != s.serverStart
  }

  /** One poll of the whole server, from one state to the next. */
  ghost predicate Refreshed(env: Env, s: State, res: PollResult, w: World, s': State) {
    match res
    case Failed(reason) => s' == s.(err := Some(reason))
    case Answered(poll) =>
      && s'.err.None?
      && s'.serverStart == (if poll.generation.Some? then poll.generation.value else s.serverStart)
      && Polled(env, poll.rows, poll.raw, w,
                if Restarted(s, poll) then map[] else s.reports, if Restarted(s, poll) then map[] else s.screens,
                s'.latest, s'.reports, s'.screens)
  }

  class Poller {
    const grammars: Grammars
    const classifier: C.Classifier
    const reports: Reports
    var latest: seq<Row>
    var err: Option<string>
    var serverStart: string

    ghost function Built(): Env
    {
      Env(grammars, classifier.hash, reports.parse)
    }

    constructor (env: Env)
      ensures fresh(classifier) && fresh(reports) && Built() == env
      ensures latest == [] && err.None? && serverStart == "" && classifier.panes == map[] && reports.panes == map[]
    {
      grammars := env.grammars;
      classifier := new C.Classifier(env.hash);
      reports := new Reports(env.parse);
      latest, err, serverStart := [], None, "";
    }

    method WeighReport(row: Row, rep: Report, capture: string, now: int) returns (out: Row)
      requires row.paneID in reports.panes
      modifies classifier, reports
      ensures var after := Weighed(Built(), Step(At(old(reports.panes), row.paneID), At(old(classifier.panes), row.paneID), row),
                                   rep, now, capture);
        && out == after.row
        && reports.panes == Put(old(reports.panes), row.paneID, after.report)
        && classifier.panes == Put(old(classifier.panes), row.paneID, after.screen)
    {
      var agent := KnownAgent(row.command);
      var stands, blocked := true, false;
      var st: C.Status;
      if rep.state == Blocked {
        blocked := grammars.isBlocked(agent, capture);
        st := classifier.Observe(row.paneID, capture, now, blocked);
        stands := reports.CorroborateBlocked(row.paneID, st.changed, blocked);
      } else {
        st := classifier.Observe(row.paneID, capture, now, false);
        stands := reports.Corroborate(row.paneID, st.verdict == C.Idle);
      }
      out := row;
      if stands {
        out := out.(agentState := Some(rep.state), activity := rep.activity, source := Event);
        var confirmed := reports.Confirmed(row.paneID, true);
        if rep.state == Idle && confirmed {
          out := out.(finishedAt := rep.timestamp);
        }
        return;
      }
      out := out.(agentState := Some(StateOf(st.verdict)), finishedAt := st.finishedAt, source := Screen);
      if blocked {
        out := out.(agentState := Some(Blocked), question := grammars.extract(agent, capture));
      }
    }

    method ClassifyScreen(row: Row, capture: string, now: int) returns (out: Row)
      modifies classifier
      ensures var after := FromScreen(Built(), Step(None, At(old(classifier.panes), row.paneID), row), now, capture);
        out == after.row && classifier.panes == Put(old(classifier.panes), row.paneID, after.screen)
    {
      var agent := KnownAgent(row.command);
      var blocked := grammars.isBlocked(agent, capture);
      var st := classifier.Observe(row.paneID, capture, now, blocked);
      out := row.(agentState := Some(StateOf(st.verdict)), finishedAt := st.finishedAt, source := Screen);
      if blocked {
        out := out.(agentState := Some(Blocked), question := grammars.extract(agent, capture));
      }
    }

    /** One agent's row, once its report has been looked at. */
    method ClassifyAgent(row: Row, rep: Option<Report>, w: World, ghost look: Look) returns (out: Row, captured: bool)
      requires rep.Some? ==> row.paneID in reports.panes
      requires look.now == w.now && look.connected == w.connected && look.capture == w.captures(row.paneID)
      modifies classifier, reports
      ensures var after := Decided(Built(), Step(At(old(reports.panes), row.paneID), At(old(classifier.panes), row.paneID), row), rep, look);
        && out == after.row
        && reports.panes == Put(old(reports.panes), row.paneID, after.report)
        && (captured <==> after.screen.Some?)
        && classifier.panes == if captured then Put(old(classifier.panes), row.paneID, after.screen) else old(classifier.panes)
    {
      if rep.Some? {
        var wanted := reports.NeedsScreen(row.paneID);
        var screen := if w.connected && wanted then w.captures(row.paneID) else None;
        if screen.Some? {
          out := WeighReport(row, rep.value, screen.value, w.now);
          return out, true;
        }
        out := row.(agentState := Some(rep.value.state), activity := rep.value.activity, source := Event);
        var confirmed := reports.Confirmed(row.paneID, w.connected);
        if rep.value.state == Idle && confirmed {
          out := out.(finishedAt := rep.value.timestamp);
        }
        return out, false;
      }
      var screen := if w.connected then w.captures(row.paneID) else None;
      if screen.None? {
        return row, false;
      }
      out := ClassifyScreen(row, screen.value, w.now);
      return out, true;
    }

    /** One row: the report first, a capture only where one is wanted, and the
        classifier where no report stands. */
    method ClassifyRow(row: Row, raw: map<string, string>, w: World) returns (out: Row, captured: bool)
      requires !w.connected ==> classifier.panes == map[]
      modifies classifier, reports
      ensures var after := StepOf(PollRule(Built(), raw, w), old(reports.panes), old(classifier.panes), row);
        && out == after.row && (captured <==> after.screen.Some?)
        && reports.panes == (if KnownAgent(row.command) != "" then Put(old(reports.panes), row.paneID, after.report)
                             else old(reports.panes))
        && classifier.panes == (if captured then Put(old(classifier.panes), row.paneID, after.screen)
                                else old(classifier.panes))
      ensures !w.connected ==> !captured
    {
      out, captured := row, false;
      if KnownAgent(row.command) != "" {
        AgentStep(Built(), raw, w, reports.panes, classifier.panes, row);
        var rep := reports.Observe(row.paneID, RawOf(raw, row.paneID), row.command, w.now);
        PutTwice(old(reports.panes), row.paneID);
        out, captured := ClassifyAgent(row, rep, w, LookAt(Built(), w, raw, row));
      }
    }

    /** The loop: every row, in place. */
    method ClassifyRows(rows: array<Row>, raw: map<string, string>, w: World) returns (agents: seq<string>, captured: seq<string>)
      requires !w.connected ==> classifier.panes == map[]
      modifies rows, classifier, reports
      ensures Walked(PollRule(Built(), raw, w), old(reports.panes), old(classifier.panes), old(rows[..]))
        == Walk(reports.panes, classifier.panes, agents, captured, rows[..])
      ensures !w.connected ==> classifier.panes == map[]
    {
      ghost var rule := PollRule(Built(), raw, w);
      ghost var rows0 := rows[..];
      agents, captured := [], [];
      for i := 0 to rows.Length
        invariant |rows0| == rows.Length && forall k | i <= k < rows.Length :: rows[k] == rows0[k]
        invariant !w.connected ==> classifier.panes == map[]
        invariant Walked(rule, old(reports.panes), old(classifier.panes), rows0[..i])
          == Walk(reports.panes, classifier.panes, agents, captured, rows[..i])
      {
        var row := rows[i];
        ghost var walk := Walk(reports.panes, classifier.panes, agents, captured, rows[..i]);
        assert row == rows0[i];
        WalkStep(rule, old(reports.panes), old(classifier.panes), rows0, i);
        OverRow(Built(), raw, w, walk, row);
        var out, took := ClassifyRow(row, raw, w);
        rows[i] := out;
        if KnownAgent(row.command) != "" {
          agents := agents + [row.paneID];
        }
        if took {
          captured := captured + [row.paneID];
        }
        assert rows[..i] == walk.out && rows[i] == out;
        assert rows[..i + 1] == walk.out + [out];
        assert Over(rule, walk, row) == Walk(reports.panes, classifier.panes, agents, captured, walk.out + [out]);
      }
      assert rows0[..rows.Length] == rows0 && rows[..rows.Length] == rows[..];
    }

    /** One poll's classification. With nobody connected the classifier is emptied
        first; at the end both memories are cut back to what this poll saw. */
    method Classify(rows: array<Row>, raw: map<string, string>, w: World)
      requires OneRowPerPane(rows[..])
      modifies rows, classifier, reports
      ensures Polled(Built(), old(rows[..]), raw, w, old(reports.panes), old(classifier.panes),
                     rows[..], reports.panes, classifier.panes)
    {
      if !w.connected {
        classifier.Retain([]);
      }
      ghost var screens0 := classifier.panes;
      var agents, captured := ClassifyRows(rows, raw, w);
      PollRuleIsSound(Built(), raw, w);
      WalkPasses(PollRule(Built(), raw, w), old(reports.panes), screens0, old(rows[..]));
      reports.Retain(agents);
      if w.connected {
        classifier.Retain(captured);
      } else {
        UnwatchedPoll(Built(), old(rows[..]), raw, w, old(reports.panes), old(classifier.panes),
                      rows[..], reports.panes, Keep(map[], captured));
      }
    }

    /** One poll. A failed one changes nothing but the error; a successful one on a
        different server generation forgets every pane before it decides any. */
    method Refresh(res: PollResult, w: World)
      requires res.Answered? ==> OneRowPerPane(res.poll.rows)
      modifies this, classifier, reports
      ensures Refreshed(Built(), State(old(reports.panes), old(classifier.panes), old(latest), old(err), old(serverStart)), res, w,
                        State(reports.panes, classifier.panes, latest, err, serverStart))
    {
      if res.Failed? {
        err := Some(res.reason);
        return;
      }
      var poll := res.poll;
      if poll.generation.Some? && poll.generation.value != serverStart {
        classifier.Retain([]);
        reports.Retain([]);
      }
      assert Keep(classifier.panes, []) == map[] && Keep(reports.panes, []) == map[];
      var rows := new Row[|poll.rows|](i requires 0 <= i < |poll.rows| => poll.rows[i]);
      assert rows[..] == poll.rows;
      Classify(rows, poll.raw, w);
      err := None;
      if poll.generation.Some? {
        serverStart := poll.generation.value;
      }
      latest := rows[..];
    }
  }
}
