/** Runs of the whole poller, cut down to what each pane sees of them. */
module ServerRuns {
  import opened Prelude
  import opened PaneMaps
  import opened PaneWalk
  import opened Poller
  import opened PaneRuns
  import opened Badges

  /** One turn of the poll loop: what tmux answered, and what the machine around it
      was like. */
  datatype Round = Round(res: PollResult, w: World)

  /** The states of a daemon from its start through these rounds. */
  ghost predicate IsRun(env: Env, rounds: seq<Round>, states: seq<State>) {
    && |states| == |rounds| + 1 && states[0] == INITIAL
    && forall i | 0 <= i < |rounds| ::
         && Refreshed(env, states[i], rounds[i].res, rounds[i].w, states[i + 1])
         && (rounds[i].res.Answered? ==> Deliverable(rounds[i].res.poll.rows))
  }

  /** Rows as the batched read delivers them: one per pane, nothing decided yet. */
  predicate Deliverable(rows: seq<Row>) {
    OneRowPerPane(rows) && forall i | 0 <= i < |rows| :: Undecided(rows[i])
  }

  function RowOf(rows: seq<Row>, id: string): (r: Option<Row>)
    ensures r.Some? ==> r.value in rows && r.value.paneID == id
    ensures r.None? ==> forall i | 0 <= i < |rows| :: rows[i].paneID != id
  {
    if rows == [] then None
    else if rows[0].paneID == id then Some(rows[0])
    else RowOf(rows[1..], id)
  }

  /** What one round is to one pane. */
  function TickOf(env: Env, s: State, round: Round, id: string): Tick {
    match round.res
    case Failed(_) => Missed
    case Answered(poll) =>
      var row := RowOf(poll.rows, id);
      if row.None? then Gone(Restarted(s, poll))
      else Listed(Restarted(s, poll), row.value, LookAt(env, round.w, poll.raw, row.value))
  }

  function MemoryIn(s: State, id: string): Memory {
    Memory(At(s.reports, id), At(s.screens, id))
  }

  /** A pane the poll lists: its own row's tick. */
  lemma ListedPane(env: Env, s: State, round: Round, s': State, i: nat)
    requires Refreshed(env, s, round.res, round.w, s') && round.res.Answered? && i < |round.res.poll.rows|
    requires OneRowPerPane(round.res.poll.rows)
    ensures |s'.latest| == |round.res.poll.rows|
    ensures var id := round.res.poll.rows[i].paneID;
      var t := TickOf(env, s, round, id);
      && t.Listed? && t.row == round.res.poll.rows[i]
      && Ticked(env, MemoryIn(s, id), t) == Step(At(s'.reports, id), At(s'.screens, id), s'.latest[i])
  {
    var poll := round.res.poll;
    var id := poll.rows[i].paneID;
    assert RowOf(poll.rows, id) == Some(poll.rows[i]);
    var rule := PollRule(env, poll.raw, round.w);
    var reports0 := if Restarted(s, poll) then map[] else s.reports;
    var screens0 := if Restarted(s, poll) then map[] else s.screens;
    assert StepOf(rule, reports0, screens0, poll.rows[i]) == Step(At(s'.reports, id), At(s'.screens, id), s'.latest[i]);
  }

  /** One round of the poller is, for every pane, that pane's own tick. */
  lemma RoundIsPanewise(env: Env, s: State, round: Round, s': State, id: string)
    requires Refreshed(env, s, round.res, round.w, s')
    requires round.res.Answered? ==> OneRowPerPane(round.res.poll.rows)
    ensures MemoryIn(s', id) == Next(env, MemoryIn(s, id), TickOf(env, s, round, id))
  {
    if round.res.Answered? {
      var poll := round.res.poll;
      var row := RowOf(poll.rows, id);
      if row.None? {
        assert Absent(PollRule(env, poll.raw, round.w), poll.rows, id);
      } else {
        var i :| 0 <= i < |poll.rows| && poll.rows[i] == row.value;
        ListedPane(env, s, round, s', i);
      }
    }
  }

  /** A pane's ticks over the first n rounds. */
  function TicksOf(env: Env, rounds: seq<Round>, states: seq<State>, id: string, n: nat): (ticks: seq<Tick>)
    requires n <= |rounds| < |states|
    ensures |ticks| == n
  {
    if n == 0 then [] else TicksOf(env, rounds, states, id, n - 1) + [TickOf(env, states[n - 1], rounds[n - 1], id)]
  }

  lemma AfterOneMore(env: Env, ticks: seq<Tick>, t: Tick)
    ensures After(env, ticks + [t]) == Next(env, After(env, ticks), t)
  {
    assert (ticks + [t])[..|ticks|] == ticks;
  }

  lemma {:induction false} RunIsPanewise(env: Env, rounds: seq<Round>, states: seq<State>, id: string, n: nat)
    requires IsRun(env, rounds, states) && n <= |rounds|
    ensures MemoryIn(states[n], id) == After(env, TicksOf(env, rounds, states, id, n))
  {
    if n > 0 {
      RunIsPanewise(env, rounds, states, id, n - 1);
      assert Refreshed(env, states[n - 1], rounds[n - 1].res, rounds[n - 1].w, states[n]);
      RoundIsPanewise(env, states[n - 1], rounds[n - 1], states[n], id);
      AfterOneMore(env, TicksOf(env, rounds, states, id, n - 1), TickOf(env, states[n - 1], rounds[n - 1], id));
    }
  }

  /** What the daemon learns of a listed pane: its own row, what its option's value says by
      the poll's clock if it runs an agent (an option without a value reads as the empty
      string), whether a client is connected, and what capturing it gives. */
  lemma TickLooks(env: Env, s: State, round: Round, id: string)
    requires TickOf(env, s, round, id).Listed?
    ensures round.res.Answered?
    ensures var t, poll := TickOf(env, s, round, id), round.res.poll;
      && t.row in poll.rows && t.row.paneID == id
      && t.look.now == round.w.now && t.look.connected == round.w.connected && t.look.capture == round.w.captures(id)
      && t.look.shown == if t.row.command !in {"claude", "opencode", "pi"} then None
                         else env.parse(if id in poll.raw then poll.raw[id] else "", round.w.now)
  {
  }

  /** What a round publishes: a failed one its reason, over everything as it was, and a
      successful one a row for each row of the poll, with no reason. */
  lemma RoundPublishes(env: Env, s: State, round: Round, s': State)
    requires Refreshed(env, s, round.res, round.w, s')
    ensures round.res.Failed? ==>
              && s'.err == Some(round.res.reason) && s'.latest == s.latest && s'.serverStart == s.serverStart
              && s'.reports == s.reports && s'.screens == s.screens
    ensures round.res.Answered? ==> s'.err == None && |s'.latest| == |round.res.poll.rows|
  {
  }

  /** Round k carried the server's generation, and no round from it to the n-th did. */
  predicate LastCarried(rounds: seq<Round>, n: nat, k: nat) {
    && k < n <= |rounds| && Carries(rounds[k])
    && forall j | k < j < n :: !Carries(rounds[j])
  }

  predicate Carries(round: Round) {
    round.res.Answered? && round.res.poll.generation.Some?
  }

  lemma {:induction false} GenerationIsKnown(env: Env, rounds: seq<Round>, states: seq<State>, n: nat)
    requires IsRun(env, rounds, states) && n <= |rounds|
    ensures forall k: nat | LastCarried(rounds, n, k) :: states[n].serverStart == rounds[k].res.poll.generation.value
    ensures (forall j | 0 <= j < n :: !Carries(rounds[j])) ==> states[n].serverStart == ""
  {
    if n > 0 {
      GenerationIsKnown(env, rounds, states, n - 1);
      assert Refreshed(env, states[n - 1], rounds[n - 1].res, rounds[n - 1].w, states[n]);
      forall k: nat | LastCarried(rounds, n, k)
        ensures states[n].serverStart == rounds[k].res.poll.generation.value
      {
        assert k < n - 1 ==> LastCarried(rounds, n - 1, k) && !Carries(rounds[n - 1]);
      }
    }
  }

  /** When every pane is forgotten: at a successful poll that carries a generation other
      than the last one carried, the empty one before any was. A poll that carries none
      forgets nothing. */
  lemma RestartIsAChange(env: Env, rounds: seq<Round>, states: seq<State>, n: nat, id: string)
    requires IsRun(env, rounds, states) && n < |rounds| && rounds[n].res.Answered?
    ensures !Carries(rounds[n]) ==> !TickOf(env, states[n], rounds[n], id).restarted
    ensures forall k: nat | Carries(rounds[n]) && LastCarried(rounds, n, k) ::
              TickOf(env, states[n], rounds[n], id).restarted
              <==> rounds[n].res.poll.generation.value != rounds[k].res.poll.generation.value
    ensures Carries(rounds[n]) && (forall j | 0 <= j < n :: !Carries(rounds[j])) ==>
              (TickOf(env, states[n], rounds[n], id).restarted <==> rounds[n].res.poll.generation.value != "")
  {
    GenerationIsKnown(env, rounds, states, n);
  }

  /** Badge integrity over every run of the poller: a finish on any row any poll
      publishes was earned. Sourced from the screen, the pane's capture really
      changed and then settled inside the pane's current unbroken stretch of captures in
      one server generation, and the finish is the poll it settled at. Sourced from a
      report, it is that report's own date, the report has been held since it was shown,
      and if a client is connected the classifier has said idle since then. */
  lemma BadgesAreEarned(env: Env, rounds: seq<Round>, states: seq<State>, n: nat, i: nat)
    requires n < |rounds| && n + 1 < |states| && i < |states[n + 1].latest|
    ensures IsRun(env, rounds, states) && rounds[n].res.Answered? ==> i < |rounds[n].res.poll.rows|
    ensures IsRun(env, rounds, states) && rounds[n].res.Answered? && states[n + 1].latest[i].finishedAt != 0 ==>
              var row := states[n + 1].latest[i];
              var ticks := TicksOf(env, rounds, states, rounds[n].res.poll.rows[i].paneID, n + 1);
              || (row.source == Screen && ScreenEarned(env, ticks, n, row.finishedAt))
              || (row.source == Event && EventEarned(env, ticks, row.finishedAt, rounds[n].w.connected))
  {
    if IsRun(env, rounds, states) && rounds[n].res.Answered? {
      ListedPane(env, states[n], rounds[n], states[n + 1], i);
      var row := states[n + 1].latest[i];
      if row.finishedAt != 0 {
        var id := rounds[n].res.poll.rows[i].paneID;
        var ticks := TicksOf(env, rounds, states, id, n + 1);
        RunIsPanewise(env, rounds, states, id, n);
        assert ticks[..n] == TicksOf(env, rounds, states, id, n);
        assert ticks[n] == TickOf(env, states[n], rounds[n], id) && Undecided(ticks[n].row);
        assert row == RowAt(env, ticks, n);
        FinishHasASource(env, Before(env, ticks, n), ticks[n]);
        if row.source == Screen {
          ScreenBadge(env, ticks, n);
        } else {
          EventBadge(env, ticks, n);
        }
      }
    }
  }
}
