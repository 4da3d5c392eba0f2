/** What a row shows, column by column, over every run of polls. */
module PaneRows {
  import opened Prelude
  import opened PaneWalk
  import opened ReportTypes
  import opened Reports
  import opened Poller
  import opened PaneRuns
  import opened Badges
  import opened BlockedEvidence
  import C = Classifier

  const AGENT_COMMANDS := {"claude", "opencode", "pi"}

  /** The entry the pane's memory holds once poll n is over. */
  function HeldAt(env: Env, ticks: seq<Tick>, n: nat): Option<Entry>
    requires n < |ticks| && ticks[n].Listed?
  {
    Ticked(env, Before(env, ticks, n), ticks[n]).report
  }

  /** Whether poll n weighed an idle report against its capture. Only then are the
      grammars not asked about it. */
  predicate WeighsIdle(env: Env, ticks: seq<Tick>, n: nat)
    requires n < |ticks| && ticks[n].Listed?
  {
    var t := ticks[n];
    var rep := InForce(Seen(if t.restarted then None else Before(env, ticks, n).report, t.look.shown), t.look.now);
    rep.Some? && rep.value.state == Idle
  }

  /** Who decides: a pane that runs no agent is left alone; an agent's row is its report's
      while that is in force once the poll has weighed it, otherwise the screen's if a
      client is connected and the capture was taken, and otherwise nobody's. */
  lemma WhoDecides(env: Env, ticks: seq<Tick>, n: nat)
    requires |ticks| == n + 1 && ticks[n].Listed? && Undecided(ticks[n].row)
    ensures var t, row := ticks[n], RowAt(env, ticks, n);
      row.source
        == if t.row.command !in AGENT_COMMANDS then Nobody
           else if InForce(HeldAt(env, ticks, n), t.look.now).Some? then Event
           else if Captures(t) then Screen else Nobody
    ensures RowAt(env, ticks, n).source == Nobody ==> RowAt(env, ticks, n) == ticks[n].row
  {
  }

  lemma EventColumns(env: Env, m: Memory, t: Tick)
    requires t.Listed? && Undecided(t.row) && Ticked(env, m, t).row.source == Event
    ensures var row, held := Ticked(env, m, t).row, Ticked(env, m, t).report;
      && held.Some?
      && row.agentState == Some(held.value.accepted.state) && row.activity == held.value.accepted.activity
      && row.question.None?
      && row.finishedAt
         == if held.value.accepted.state == Idle && (!t.look.connected || held.value.verified)
            then held.value.accepted.timestamp else 0
  {
  }

  /** A row its report decides shows that report's state and activity, asks nothing, and
      dates a finish only for an idle report, with nobody connected or once verified. */
  lemma EventRowShows(env: Env, ticks: seq<Tick>, n: nat)
    requires |ticks| == n + 1 && ticks[n].Listed? && Undecided(ticks[n].row)
    requires RowAt(env, ticks, n).source == Event
    ensures var row, held := RowAt(env, ticks, n), HeldAt(env, ticks, n);
      && held.Some?
      && var rep := held.value.accepted;
      && row.agentState == Some(rep.state) && row.activity == rep.activity && row.question.None?
      && row.finishedAt
         == if rep.state == Idle && (!ticks[n].look.connected || held.value.verified) then rep.timestamp else 0
  {
    EventColumns(env, Before(env, ticks, n), ticks[n]);
  }

  lemma ScreenColumns(env: Env, m: Memory, t: Tick)
    requires t.Listed? && Undecided(t.row) && Ticked(env, m, t).row.source == Screen
    ensures Captured(env, m, t) && Captures(t)
    ensures var p := Ticked(env, m, t);
      var rep := InForce(Seen(if t.restarted then None else m.report, t.look.shown), t.look.now);
      var idle := C.Answer(if t.restarted then None else m.screen, p.screen.value).verdict == C.Idle;
      var asks := FormOnScreen(env, t) && !(rep.Some? && rep.value.state == Idle);
      && p.row.agentState == Some(if asks then Blocked else if idle then Idle else Working)
      && p.row.question == (if asks then env.grammars.extract(t.row.command, t.look.capture.value) else None)
      && p.row.activity == t.row.activity
  {
  }

  /** A row the screen decides is blocked when the grammars were asked and find a dialog,
      which it then quotes, and otherwise idle exactly when the pane's captures have
      settled, and working when they have not. */
  lemma ScreenRowShows(env: Env, ticks: seq<Tick>, n: nat)
    requires |ticks| == n + 1 && ticks[n].Listed? && Undecided(ticks[n].row)
    requires RowAt(env, ticks, n).source == Screen
    ensures Captures(ticks[n])
    ensures var t, row := ticks[n], RowAt(env, ticks, n);
      var asks := env.grammars.isBlocked(t.row.command, t.look.capture.value) && !WeighsIdle(env, ticks, n);
      && row.agentState == Some(if asks then Blocked else if SettledAtPoll(env, ticks, n) then Idle else Working)
      && row.question == (if asks then env.grammars.extract(t.row.command, t.look.capture.value) else None)
      && row.activity == t.row.activity
  {
    ScreenColumns(env, Before(env, ticks, n), ticks[n]);
    VerdictIsASettle(env, ticks, n);
  }
}
