/** Rules 1 and 2, exactly: when the screen overturns a blocked report. */
module BlockedEvidence {
  import opened Prelude
  import opened PaneWalk
  import opened ReportTypes
  import opened Reports
  import opened Poller
  import opened PaneRuns
  import opened Badges
  import opened IdleEvidence
  import C = Classifier

  /** The pane's capture at poll i differs from the one before it in its unbroken
      stretch of captures. */
  predicate MovedAt(env: Env, ticks: seq<Tick>, i: nat)
    requires i < |ticks|
  {
    var s := Stretch(env, ticks[..i + 1]);
    |s| >= 2 && s[|s| - 1] == i && ChangedIn(env, ticks[..i + 1], s, |s| - 1)
  }

  predicate FormOnScreen(env: Env, t: Tick)
    requires Captures(t)
  {
    env.grammars.isBlocked(KnownAgent(t.row.command), t.look.capture.value)
  }

  /** The polls counted since the report was taken up at poll a: connected, captured,
      unmoved and formless, starting over whenever a form is on screen. */
  function Formless(env: Env, ticks: seq<Tick>, a: nat): nat
    requires a <= |ticks|
  {
    if |ticks| == a then 0
    else
      var n, before := |ticks| - 1, Formless(env, ticks[..|ticks| - 1], a);
      if !Captures(ticks[n]) || MovedAt(env, ticks, n) then before
      else if FormOnScreen(env, ticks[n]) then 0
      else before + 1
  }

  /** Poll i overturns the blocked report taken up at poll a: its capture moved, or it
      is the N_BLOCKED-th unmoved formless one in a row. */
  predicate OverturnedAt(env: Env, ticks: seq<Tick>, a: nat, i: nat)
    requires a <= i < |ticks|
  {
    && Captures(ticks[i])
    && (MovedAt(env, ticks, i)
        || (!FormOnScreen(env, ticks[i]) && Formless(env, ticks[..i + 1], a) >= N_BLOCKED))
  }

  predicate Overturned(env: Env, ticks: seq<Tick>, a: nat) {
    exists i | a <= i < |ticks| :: OverturnedAt(env, ticks, a, i)
  }

  /** A run in which poll a takes the blocked report up and no later poll shows
      anything newer: polls may fail, the client may come and go, captures may fail. */
  predicate BlockedSince(env: Env, ticks: seq<Tick>, a: nat, rep: Report) {
    && a < |ticks| && rep.state == Blocked && rep.timestamp > 0
    && Rereads(ticks[a], rep) && ticks[a].look.shown == Some(rep) && NewTo(Before(env, ticks, a), rep)
    && forall i | a <= i < |ticks| :: ticks[i].Missed? || (Rereads(ticks[i], rep) && Undecided(ticks[i].row))
  }

  /** One poll of a blocked report still in force. */
  lemma BlockedStep(env: Env, m: Memory, t: Tick, rep: Report)
    requires Rereads(t, rep) && Undecided(t.row) && rep.state == Blocked && rep.timestamp > 0
    requires m.report.Some? && m.report.value.accepted == rep && m.report.value.rejected != rep.timestamp
    ensures !Captures(t) ==> Ticked(env, m, t) == Step(m.report, None, EventRow(t.row, rep, false))
    ensures Captures(t) ==>
      var form := FormOnScreen(env, t);
      var after := C.Next(m.screen, CaptureHash(env, t), t.look.now, form);
      var st := C.Answer(m.screen, after);
      var p := Ticked(env, m, t);
      && p.report == Some(Checked(m.report.value, st.changed, form).0) && p.screen == Some(after)
      && p.row == if Checked(m.report.value, st.changed, form).1 then EventRow(t.row, rep, false)
                  else ScreenRow(env.grammars, t.row, st, form, t.look.capture.value)
  {
  }

  /** Once overturned, reading the same report again changes nothing about it. */
  lemma OverturnedStep(env: Env, m: Memory, t: Tick, rep: Report)
    requires t.Missed? || Rereads(t, rep)
    requires m.report.Some? && m.report.value.accepted == rep && m.report.value.rejected == rep.timestamp
    ensures Next(env, m, t).report == m.report
  {
  }

  lemma ChangedAlike(env: Env, ticks: seq<Tick>, s: seq<nat>, h: seq<C.Observation>)
    requires Depicts(env, ticks, s, h) && h != []
    ensures C.Differs(h, |h| - 1) <==> |s| >= 2 && ChangedIn(env, ticks, s, |s| - 1)
  {
  }

  lemma MovedInStretch(env: Env, ticks: seq<Tick>, n: nat, s: seq<nat>, h: seq<C.Observation>)
    requires |ticks| == n + 1 && s == Stretch(env, ticks) && s != [] && s[|s| - 1] == n && Depicts(env, ticks, s, h)
    ensures MovedAt(env, ticks, n) <==> C.Differs(h, |h| - 1)
  {
    assert ticks[..n + 1] == ticks;
    ChangedAlike(env, ticks, s, h);
  }

  lemma MovedNow(env: Env, ticks: seq<Tick>, n: nat)
    requires |ticks| == n + 1 && Captured(env, Before(env, ticks, n), ticks[n])
    ensures MovedAt(env, ticks, n) <==> C.Differs(Sights(env, ticks), |Sights(env, ticks)| - 1)
  {
    StretchEndsNow(env, ticks, n);
    StretchDepicts(env, ticks);
    MovedInStretch(env, ticks, n, Stretch(env, ticks), Sights(env, ticks));
  }

  lemma ChangedIsMoved(env: Env, ticks: seq<Tick>, n: nat)
    requires |ticks| == n + 1 && Captured(env, Before(env, ticks, n), ticks[n]) && !ticks[n].restarted
    ensures C.Answer(Before(env, ticks, n).screen, Ticked(env, Before(env, ticks, n), ticks[n]).screen.value).changed
      <==> MovedAt(env, ticks, n)
  {
    CaptureAnswer(env, ticks, n);
    MovedNow(env, ticks, n);
  }

  lemma OverturnedIsLocal(env: Env, ticks: seq<Tick>, a: nat, n: nat, i: nat)
    requires a <= i < n <= |ticks|
    ensures OverturnedAt(env, ticks[..n], a, i) <==> OverturnedAt(env, ticks, a, i)
  {
    assert ticks[..n][..i + 1] == ticks[..i + 1];
  }

  lemma OverturnedPrefix(env: Env, ticks: seq<Tick>, a: nat, n: nat)
    requires |ticks| == n + 1 && a <= n
    ensures Overturned(env, ticks, a) <==> Overturned(env, ticks[..n], a) || OverturnedAt(env, ticks, a, n)
  {
    forall i | a <= i < n {
      OverturnedIsLocal(env, ticks, a, n, i);
    }
  }

  /** Where a blocked report taken up at poll a stands. */
  predicate BlockedStands(env: Env, ticks: seq<Tick>, a: nat, e: Option<Entry>, rep: Report)
    requires a <= |ticks|
  {
    && e.Some? && e.value.accepted == rep
    && (e.value.rejected == rep.timestamp <==> Overturned(env, ticks, a))
    && (!Overturned(env, ticks, a) ==> e.value.settledPolls == Formless(env, ticks, a))
  }

  /** What its row shows at the last of these polls: the report until it is
      overturned, and a dialog still on the overturning capture keeps the row blocked. */
  predicate BlockedRow(env: Env, ticks: seq<Tick>, a: nat, row: Row, rep: Report)
    requires a < |ticks|
  {
    var n := |ticks| - 1;
    && (!Overturned(env, ticks, a) ==> row.source == Event && row.agentState == Some(Blocked))
    && (OverturnedAt(env, ticks, a, n) && !Overturned(env, ticks[..n], a) ==>
          row.source == Screen && (row.agentState == Some(Blocked) <==> FormOnScreen(env, ticks[n])))
  }

  /** Both, at the last of these polls. */
  predicate BlockedOutcome(env: Env, ticks: seq<Tick>, a: nat, rep: Report)
    requires a < |ticks|
  {
    && BlockedStands(env, ticks, a, After(env, ticks).report, rep)
    && (ticks[|ticks| - 1].Listed? ==> BlockedRow(env, ticks, a, RowAt(env, ticks, |ticks| - 1), rep))
  }

  lemma StandingPoll(env: Env, ticks: seq<Tick>, a: nat, n: nat, e: Entry, rep: Report)
    requires |ticks| == n + 1 && a <= n && rep.state == Blocked && rep.timestamp > 0
    requires Rereads(ticks[n], rep) && Undecided(ticks[n].row)
    requires e.accepted == rep && e.rejected != rep.timestamp && !Overturned(env, ticks[..n], a)
    requires e.settledPolls == Formless(env, ticks[..n], a)
    requires var m := Before(env, ticks, n); Ticked(env, m, ticks[n]) == Ticked(env, Memory(Some(e), m.screen), ticks[n])
    ensures var p := Ticked(env, Before(env, ticks, n), ticks[n]);
      BlockedStands(env, ticks, a, p.report, rep) && BlockedRow(env, ticks, a, p.row, rep)
  {
    var m, t := Before(env, ticks, n), ticks[n];
    assert ticks[..n + 1] == ticks;
    OverturnedPrefix(env, ticks, a, n);
    BlockedStep(env, Memory(Some(e), m.screen), t, rep);
    if Captures(t) {
      ChangedIsMoved(env, ticks, n);
    }
  }

  lemma FirstPoll(env: Env, ticks: seq<Tick>, a: nat, rep: Report)
    requires BlockedSince(env, ticks, a, rep) && |ticks| == a + 1
    ensures BlockedOutcome(env, ticks, a, rep)
  {
    TakenUp(env, Before(env, ticks, a), ticks[a], rep);
    StandingPoll(env, ticks, a, a, Entry(rep, 0, false, 0, 0), rep);
  }

  lemma SettledPoll(env: Env, ticks: seq<Tick>, a: nat, n: nat, rep: Report)
    requires |ticks| == n + 1 && a < n
    requires BlockedStands(env, ticks[..n], a, Before(env, ticks, n).report, rep)
    requires ticks[n].Missed? || (Rereads(ticks[n], rep) && Overturned(env, ticks[..n], a))
    ensures BlockedOutcome(env, ticks, a, rep)
  {
    OverturnedPrefix(env, ticks, a, n);
    if Overturned(env, ticks[..n], a) {
      OverturnedStep(env, Before(env, ticks, n), ticks[n], rep);
    }
  }

  lemma StillStanding(env: Env, ticks: seq<Tick>, a: nat, n: nat, rep: Report)
    requires |ticks| == n + 1 && a <= n && rep.state == Blocked && rep.timestamp > 0
    requires Rereads(ticks[n], rep) && Undecided(ticks[n].row)
    requires BlockedStands(env, ticks[..n], a, Before(env, ticks, n).report, rep) && !Overturned(env, ticks[..n], a)
    ensures BlockedOutcome(env, ticks, a, rep)
  {
    var m := Before(env, ticks, n);
    assert Memory(Some(m.report.value), m.screen) == m;
    StandingPoll(env, ticks, a, n, m.report.value, rep);
  }

  lemma LaterPoll(env: Env, ticks: seq<Tick>, a: nat, n: nat, rep: Report)
    requires |ticks| == n + 1 && a < n && rep.state == Blocked && rep.timestamp > 0
    requires ticks[n].Missed? || (Rereads(ticks[n], rep) && Undecided(ticks[n].row))
    requires BlockedStands(env, ticks[..n], a, Before(env, ticks, n).report, rep)
    ensures BlockedOutcome(env, ticks, a, rep)
  {
    if ticks[n].Missed? || Overturned(env, ticks[..n], a) {
      SettledPoll(env, ticks, a, n, rep);
    } else {
      StillStanding(env, ticks, a, n, rep);
    }
  }

  lemma BlockedSinceBefore(env: Env, ticks: seq<Tick>, a: nat, rep: Report)
    requires BlockedSince(env, ticks, a, rep) && |ticks| > a + 1
    ensures BlockedSince(env, ticks[..|ticks| - 1], a, rep)
  {
    assert ticks[..|ticks| - 1][..a] == ticks[..a];
  }

  /** Blocked evidence is exact. Counting only polls with a client connected and the
      capture taken, the report is dropped at the first poll whose capture changed, or
      at the N_BLOCKED-th unchanged formless one since the later of its acceptance and
      the last one that showed a form; failed polls, failed captures and polls with
      nobody connected say nothing. */
  lemma {:induction false} BlockedEvidenceIsExact(env: Env, ticks: seq<Tick>, a: nat, rep: Report)
    requires BlockedSince(env, ticks, a, rep)
    ensures BlockedOutcome(env, ticks, a, rep)
  {
    if |ticks| == a + 1 {
      FirstPoll(env, ticks, a, rep);
    } else {
      BlockedSinceBefore(env, ticks, a, rep);
      BlockedEvidenceIsExact(env, ticks[..|ticks| - 1], a, rep);
      LaterPoll(env, ticks, a, |ticks| - 1, rep);
    }
  }
}
