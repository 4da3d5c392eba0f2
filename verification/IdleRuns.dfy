/** Rule 3 over whole runs: when the screen confirms or overturns an idle report, however
    clients come and go, captures fail and polls fail in the middle of its window. */
module IdleRuns {
  import opened Prelude
  import opened PaneWalk
  import opened ReportTypes
  import opened Reports
  import opened Poller
  import opened PaneRuns
  import opened Badges
  import opened IdleEvidence
  import C = Classifier

  /** A run in which poll a takes the idle report up and no later poll shows anything
      newer: polls may fail, the client may come and go, captures may fail. */
  predicate IdleSince(env: Env, ticks: seq<Tick>, a: nat, rep: Report) {
    && a < |ticks| && rep.state == Idle && rep.timestamp > 0
    && Rereads(ticks[a], rep) && ticks[a].look.shown == Some(rep) && NewTo(Before(env, ticks, a), rep)
    && forall i | a <= i < |ticks| :: ticks[i].Missed? || (Rereads(ticks[i], rep) && Undecided(ticks[i].row))
  }

  /** The polls that count since poll a: a client connected and the capture taken. */
  function Counted(ticks: seq<Tick>, a: nat): nat
    requires a <= |ticks|
  {
    if |ticks| == a then 0
    else Counted(ticks[..|ticks| - 1], a) + if Captures(ticks[|ticks| - 1]) then 1 else 0
  }

  /** Poll i confirms the report: it counts, it is among the first N_IDLE that do, and the
      last captures of the pane's unbroken stretch hash equal there. */
  predicate ConfirmedAt(env: Env, ticks: seq<Tick>, a: nat, i: nat)
    requires a <= i < |ticks|
  {
    Captures(ticks[i]) && SettledAtPoll(env, ticks, i) && Counted(ticks[..i + 1], a) <= N_IDLE
  }

  predicate Confirmed(env: Env, ticks: seq<Tick>, a: nat) {
    exists i | a <= i < |ticks| :: ConfirmedAt(env, ticks, a, i)
  }

  /** The window ran out without a confirmation. */
  predicate RanOut(env: Env, ticks: seq<Tick>, a: nat)
    requires a <= |ticks|
  {
    !Confirmed(env, ticks, a) && Counted(ticks, a) >= N_IDLE
  }

  lemma ConfirmedIsLocal(env: Env, ticks: seq<Tick>, a: nat, n: nat, i: nat)
    requires a <= i < n <= |ticks|
    ensures ConfirmedAt(env, ticks[..n], a, i) <==> ConfirmedAt(env, ticks, a, i)
  {
    assert ticks[..n][..i + 1] == ticks[..i + 1];
  }

  lemma ConfirmedStays(env: Env, ticks: seq<Tick>, a: nat, n: nat)
    requires |ticks| == n + 1 && Confirmed(env, ticks[..n], a)
    ensures Confirmed(env, ticks, a)
  {
    var i: nat :| a <= i < n && ConfirmedAt(env, ticks[..n], a, i);
    ConfirmedIsLocal(env, ticks, a, n, i);
  }

  lemma ConfirmedNow(env: Env, ticks: seq<Tick>, a: nat, n: nat)
    requires |ticks| == n + 1 && a <= n && Confirmed(env, ticks, a) && !Confirmed(env, ticks[..n], a)
    ensures ConfirmedAt(env, ticks, a, n)
  {
    var i: nat :| a <= i <= n && ConfirmedAt(env, ticks, a, i);
    if i < n {
      ConfirmedIsLocal(env, ticks, a, n, i);
    }
  }

  lemma ConfirmedPrefix(env: Env, ticks: seq<Tick>, a: nat, n: nat)
    requires |ticks| == n + 1 && a <= n
    ensures Confirmed(env, ticks, a) <==> Confirmed(env, ticks[..n], a) || ConfirmedAt(env, ticks, a, n)
  {
    if Confirmed(env, ticks[..n], a) {
      ConfirmedStays(env, ticks, a, n);
    } else if Confirmed(env, ticks, a) {
      ConfirmedNow(env, ticks, a, n);
    }
  }

  /** One poll of an idle report neither confirmed nor overturned that does not count:
      nothing is learned, the classifier loses the pane, and the finish shows only to
      nobody. */
  lemma UncountedStep(env: Env, m: Memory, t: Tick, rep: Report)
    requires Rereads(t, rep) && Undecided(t.row) && !Captures(t) && rep.state == Idle && rep.timestamp > 0
    requires m.report.Some? && m.report.value.accepted == rep && !m.report.value.verified
    requires m.report.value.rejected != rep.timestamp
    ensures Ticked(env, m, t) == Step(m.report, None, EventRow(t.row, rep, !t.look.connected))
  {
  }

  /** One poll of an idle report that has been decided. */
  lemma DecidedPoll(env: Env, m: Memory, t: Tick, rep: Report)
    requires Rereads(t, rep) && Undecided(t.row) && rep.state == Idle && rep.timestamp > 0
    requires m.report.Some? && m.report.value.accepted == rep
    requires m.report.value.rejected == rep.timestamp || m.report.value.verified
    ensures Ticked(env, m, t).report == m.report
    ensures m.report.value.rejected != rep.timestamp ==> Ticked(env, m, t).row == EventRow(t.row, rep, true)
    ensures m.report.value.rejected == rep.timestamp ==>
              Ticked(env, m, t).row.source == if Captures(t) then Screen else Nobody
  {
  }

  /** Where an idle report taken up at poll a stands. */
  predicate IdleStands(env: Env, ticks: seq<Tick>, a: nat, e: Option<Entry>, rep: Report)
    requires a <= |ticks|
  {
    && e.Some? && e.value.accepted == rep
    && (e.value.verified <==> Confirmed(env, ticks, a))
    && (e.value.rejected == rep.timestamp <==> RanOut(env, ticks, a))
    && (!Confirmed(env, ticks, a) && Counted(ticks, a) < N_IDLE ==> e.value.windowPolls == Counted(ticks, a))
  }

  /** What its row shows at the last of these polls. The report is the row's until its
      window runs out, and its finish shows at once to nobody, and to a client from the
      poll that confirms it. */
  predicate IdleRow(env: Env, ticks: seq<Tick>, a: nat, row: Row, rep: Report)
    requires a < |ticks| && ticks[|ticks| - 1].Listed?
  {
    var t := ticks[|ticks| - 1];
    if RanOut(env, ticks, a) then row.source == if Captures(t) then Screen else Nobody
    else row == EventRow(t.row, rep, !t.look.connected || Confirmed(env, ticks, a))
  }

  /** Both, at the last of these polls. */
  predicate IdleOutcome(env: Env, ticks: seq<Tick>, a: nat, rep: Report)
    requires a < |ticks|
  {
    && IdleStands(env, ticks, a, After(env, ticks).report, rep)
    && (ticks[|ticks| - 1].Listed? ==> IdleRow(env, ticks, a, RowAt(env, ticks, |ticks| - 1), rep))
  }

  /** A poll of a report still undecided, from an entry with nothing else said about it. */
  lemma UndecidedPoll(env: Env, ticks: seq<Tick>, a: nat, n: nat, e: Entry, rep: Report)
    requires |ticks| == n + 1 && a <= n && rep.state == Idle && rep.timestamp > 0
    requires Rereads(ticks[n], rep) && Undecided(ticks[n].row)
    requires e.accepted == rep && e.rejected != rep.timestamp && !e.verified && !Confirmed(env, ticks[..n], a)
    requires e.windowPolls == Counted(ticks[..n], a) < N_IDLE
    requires var m := Before(env, ticks, n); Ticked(env, m, ticks[n]) == Ticked(env, Memory(Some(e), m.screen), ticks[n])
    ensures var p := Ticked(env, Before(env, ticks, n), ticks[n]);
      IdleStands(env, ticks, a, p.report, rep) && IdleRow(env, ticks, a, p.row, rep)
  {
    var m, t := Before(env, ticks, n), ticks[n];
    assert ticks[..n + 1] == ticks;
    ConfirmedPrefix(env, ticks, a, n);
    if Captures(t) {
      OpenWindowStep(env, Memory(Some(e), m.screen), t, rep);
      VerdictIsASettle(env, ticks, n);
    } else {
      UncountedStep(env, Memory(Some(e), m.screen), t, rep);
    }
  }

  lemma FirstIdlePoll(env: Env, ticks: seq<Tick>, a: nat, rep: Report)
    requires IdleSince(env, ticks, a, rep) && |ticks| == a + 1
    ensures IdleOutcome(env, ticks, a, rep)
  {
    TakenUp(env, Before(env, ticks, a), ticks[a], rep);
    UndecidedPoll(env, ticks, a, a, Entry(rep, 0, false, 0, 0), rep);
  }

  lemma StillUndecided(env: Env, ticks: seq<Tick>, a: nat, n: nat, rep: Report)
    requires |ticks| == n + 1 && a <= n && rep.state == Idle && rep.timestamp > 0
    requires Rereads(ticks[n], rep) && Undecided(ticks[n].row)
    requires IdleStands(env, ticks[..n], a, Before(env, ticks, n).report, rep)
    requires !Confirmed(env, ticks[..n], a) && Counted(ticks[..n], a) < N_IDLE
    ensures IdleOutcome(env, ticks, a, rep)
  {
    var m := Before(env, ticks, n);
    assert Memory(Some(m.report.value), m.screen) == m;
    UndecidedPoll(env, ticks, a, n, m.report.value, rep);
  }

  lemma AlreadyDecided(env: Env, ticks: seq<Tick>, a: nat, n: nat, rep: Report)
    requires |ticks| == n + 1 && a < n && rep.state == Idle && rep.timestamp > 0
    requires IdleStands(env, ticks[..n], a, Before(env, ticks, n).report, rep)
    requires ticks[n].Missed? || (Rereads(ticks[n], rep) && Undecided(ticks[n].row))
    requires ticks[n].Missed? || Confirmed(env, ticks[..n], a) || RanOut(env, ticks[..n], a)
    ensures IdleOutcome(env, ticks, a, rep)
  {
    assert ticks[..n + 1] == ticks;
    ConfirmedPrefix(env, ticks, a, n);
    if ticks[n].Listed? {
      DecidedPoll(env, Before(env, ticks, n), ticks[n], rep);
    }
  }

  lemma LaterIdlePoll(env: Env, ticks: seq<Tick>, a: nat, n: nat, rep: Report)
    requires |ticks| == n + 1 && a < n && rep.state == Idle && rep.timestamp > 0
    requires ticks[n].Missed? || (Rereads(ticks[n], rep) && Undecided(ticks[n].row))
    requires IdleStands(env, ticks[..n], a, Before(env, ticks, n).report, rep)
    ensures IdleOutcome(env, ticks, a, rep)
  {
    if ticks[n].Missed? || Confirmed(env, ticks[..n], a) || Counted(ticks[..n], a) >= N_IDLE {
      AlreadyDecided(env, ticks, a, n, rep);
    } else {
      StillUndecided(env, ticks, a, n, rep);
    }
  }

  lemma IdleSinceBefore(env: Env, ticks: seq<Tick>, a: nat, rep: Report)
    requires IdleSince(env, ticks, a, rep) && |ticks| > a + 1
    ensures IdleSince(env, ticks[..|ticks| - 1], a, rep)
  {
    assert ticks[..|ticks| - 1][..a] == ticks[..a];
  }

  /** Idle evidence is exact over every run. Counting only polls with a client connected
      and the capture taken, the report is confirmed at the first of the first N_IDLE
      whose pane had settled in its unbroken stretch of captures, and overturned at the
      N_IDLE-th when none had; failed polls, failed captures and polls with nobody
      connected say nothing, but the last two break the stretch. */
  lemma {:induction false} IdleEvidenceIsExact(env: Env, ticks: seq<Tick>, a: nat, rep: Report)
    requires IdleSince(env, ticks, a, rep)
    ensures IdleOutcome(env, ticks, a, rep)
  {
    if |ticks| == a + 1 {
      FirstIdlePoll(env, ticks, a, rep);
    } else {
      IdleSinceBefore(env, ticks, a, rep);
      IdleEvidenceIsExact(env, ticks[..|ticks| - 1], a, rep);
      LaterIdlePoll(env, ticks, a, |ticks| - 1, rep);
    }
  }

  predicate ShortStretchAt(env: Env, ticks: seq<Tick>, i: nat) {
    i < |ticks| && |Stretch(env, ticks[..i + 1])| <= C.SETTLE_AFTER
  }

  /** What breaks up the pane's captures costs the report, whatever the screen shows: if no
      stretch since it was taken up is longer than SETTLE_AFTER captures, nothing confirms
      it and the N_IDLE-th of them drops it, on a screen that never moves as on any
      other. */
  lemma ShortStretchesDrop(env: Env, ticks: seq<Tick>, a: nat, rep: Report)
    requires IdleSince(env, ticks, a, rep) && Counted(ticks, a) >= N_IDLE
    requires forall i | a <= i < |ticks| :: ShortStretchAt(env, ticks, i)
    ensures var e := After(env, ticks).report;
      e.Some? && e.value.accepted == rep && !e.value.verified && e.value.rejected == rep.timestamp
  {
    IdleEvidenceIsExact(env, ticks, a, rep);
    forall i | a <= i < |ticks|
      ensures !ConfirmedAt(env, ticks, a, i)
    {
      assert ShortStretchAt(env, ticks, i);
    }
  }
}
