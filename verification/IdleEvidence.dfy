/** Rule 3, exactly: when the screen confirms or overturns an idle report. */
module IdleEvidence {
  import opened Prelude
  import opened PaneWalk
  import opened ReportTypes
  import opened Reports
  import opened Poller
  import opened PaneRuns
  import opened Badges
  import C = Classifier

  /** A poll that shows nothing newer than rep, on the same server, in the same agent. */
  predicate Rereads(t: Tick, rep: Report) {
    && t.Listed? && !t.restarted && KnownAgent(t.row.command) != ""
    && t.look.shown.Some? && t.look.shown.value.timestamp <= rep.timestamp
  }

  predicate NewTo(m: Memory, rep: Report) {
    m.report.Some? ==> m.report.value.accepted.timestamp < rep.timestamp
  }

  /** An idle report from the poll that takes it up, on a pane the classifier has not
      seen, with a client connected and every capture succeeding. */
  predicate IdleWindow(m: Memory, ticks: seq<Tick>, rep: Report) {
    && rep.state == Idle && rep.timestamp > 0 && NewTo(m, rep) && m.screen.None?
    && (forall i | 0 <= i < |ticks| :: Rereads(ticks[i], rep) && Captures(ticks[i]) && Undecided(ticks[i].row))
    && (ticks != [] ==> ticks[0].look.shown == Some(rep))
  }

  /** The last SETTLE_AFTER + 1 of the first k captures hash equal. */
  predicate StillAt(env: Env, ticks: seq<Tick>, k: nat) {
    && C.SETTLE_AFTER < k <= |ticks|
    && (forall i | 0 <= i < k :: Captures(ticks[i]))
    && forall i | k - 1 - C.SETTLE_AFTER <= i < k :: CaptureHash(env, ticks[i]) == CaptureHash(env, ticks[k - 1])
  }

  /** The window saw the screen still at some poll up to the N_IDLE-th. */
  predicate ConfirmedIn(env: Env, ticks: seq<Tick>) {
    exists k | 0 <= k <= |ticks| && k <= N_IDLE :: StillAt(env, ticks, k)
  }

  function WindowSights(env: Env, ticks: seq<Tick>): (h: seq<C.Observation>)
    requires forall i | 0 <= i < |ticks| :: Captures(ticks[i])
    ensures |h| == |ticks|
    ensures forall i | 0 <= i < |h| :: h[i].hash == CaptureHash(env, ticks[i])
  {
    if ticks == [] then []
    else
      var t := ticks[|ticks| - 1];
      WindowSights(env, ticks[..|ticks| - 1]) + [C.Observation(CaptureHash(env, t), t.look.now, false)]
  }

  /** Where the window stands after some polls. */
  predicate Standing(env: Env, ticks: seq<Tick>, m: Memory, rep: Report)
    requires forall i | 0 <= i < |ticks| :: Captures(ticks[i])
  {
    && m.report.Some?
    && var e := m.report.value;
    && e.accepted == rep
    && (e.verified <==> ConfirmedIn(env, ticks))
    && (e.rejected == rep.timestamp <==> !ConfirmedIn(env, ticks) && |ticks| >= N_IDLE)
    && (!ConfirmedIn(env, ticks) && |ticks| < N_IDLE ==>
          e.windowPolls == |ticks| && m.screen == C.After(WindowSights(env, ticks)))
  }

  lemma StillAtPrefix(env: Env, ticks: seq<Tick>, n: nat, k: nat)
    requires n <= |ticks| && k <= n
    ensures StillAt(env, ticks[..n], k) <==> StillAt(env, ticks, k)
  {
    assert forall i | 0 <= i < k :: ticks[..n][i] == ticks[i];
    if StillAt(env, ticks, k) {
      assert forall i | k - 1 - C.SETTLE_AFTER <= i < k :: CaptureHash(env, ticks[..n][i]) == CaptureHash(env, ticks[i]);
    }
    if StillAt(env, ticks[..n], k) {
      assert forall i | k - 1 - C.SETTLE_AFTER <= i < k :: CaptureHash(env, ticks[..n][i]) == CaptureHash(env, ticks[i]);
    }
  }

  lemma ConfirmedStep(env: Env, ticks: seq<Tick>, n: nat)
    requires |ticks| == n + 1
    ensures ConfirmedIn(env, ticks) <==> ConfirmedIn(env, ticks[..n]) || (n + 1 <= N_IDLE && StillAt(env, ticks, n + 1))
  {
    forall k | 0 <= k <= n {
      StillAtPrefix(env, ticks, n, k);
    }
  }

  /** One poll of the window while it is open: the pane is captured, and the verdict
      on that capture is the evidence. */
  lemma OpenWindowStep(env: Env, m: Memory, t: Tick, rep: Report)
    requires Rereads(t, rep) && Captures(t) && Undecided(t.row) && rep.state == Idle && rep.timestamp > 0
    requires m.report.Some? && m.report.value.accepted == rep && !m.report.value.verified
    requires m.report.value.rejected != rep.timestamp
    ensures var after := C.Next(m.screen, CaptureHash(env, t), t.look.now, false);
      var idle := C.Answer(m.screen, after).verdict == C.Idle;
      var p := Ticked(env, m, t);
      && p.report == Some(Verified(m.report.value, idle).0) && p.screen == Some(after)
      && p.row == if Verified(m.report.value, idle).1 then EventRow(t.row, rep, idle)
                  else ScreenRow(env.grammars, t.row, C.Answer(m.screen, after), false, t.look.capture.value)
  {
  }

  /** A poll of a report the window has already decided. */
  lemma DecidedStep(env: Env, m: Memory, t: Tick, rep: Report)
    requires Rereads(t, rep) && Captures(t) && rep.state == Idle && rep.timestamp > 0
    requires m.report.Some? && m.report.value.accepted == rep
    requires m.report.value.rejected == rep.timestamp || m.report.value.verified
    ensures Ticked(env, m, t).report == m.report
    ensures m.report.value.rejected == rep.timestamp ==> Ticked(env, m, t).row.source == Screen
    ensures m.report.value.rejected != rep.timestamp ==> Ticked(env, m, t).row == EventRow(t.row, rep, true)
  {
  }

  lemma VerdictIsStillness(env: Env, ticks: seq<Tick>, n: nat)
    requires |ticks| == n + 1 && forall i | 0 <= i < |ticks| :: Captures(ticks[i])
    ensures var before := C.After(WindowSights(env, ticks[..n]));
      var after := C.Next(before, CaptureHash(env, ticks[n]), ticks[n].look.now, false);
      && C.After(WindowSights(env, ticks)) == Some(after)
      && (C.Answer(before, after).verdict == C.Idle <==> StillAt(env, ticks, n + 1))
  {
    var h := WindowSights(env, ticks);
    assert h[..n] == WindowSights(env, ticks[..n]);
    C.AnswerIsItsHistory(h);
    assert C.SettledAt(h, n, C.SETTLE_AFTER) <==> StillAt(env, ticks, n + 1) by {
      if StillAt(env, ticks, n + 1) {
        assert forall j | n - C.SETTLE_AFTER <= j < n :: h[j].hash == CaptureHash(env, ticks[j]);
      }
      if C.SettledAt(h, n, C.SETTLE_AFTER) {
        assert forall j | n - C.SETTLE_AFTER <= j < n + 1 :: CaptureHash(env, ticks[j]) == h[j].hash;
      }
    }
  }

  /** What the window publishes: the finish appears at the poll that confirms it and
      not before, and a rejected report has handed the row to the screen. */
  predicate WindowRow(env: Env, ticks: seq<Tick>, row: Row, rep: Report) {
    && (ConfirmedIn(env, ticks) ==> row.source == Event && row.finishedAt == rep.timestamp)
    && (!ConfirmedIn(env, ticks) && |ticks| < N_IDLE ==> row.source == Event && row.finishedAt == 0)
    && (!ConfirmedIn(env, ticks) && |ticks| >= N_IDLE ==> row.source == Screen)
  }

  /** What a poll inside the window does, in the window's own terms. */
  lemma OpenPollAnswer(env: Env, ticks: seq<Tick>, n: nat, before: Memory, rep: Report)
    requires |ticks| == n + 1 && n < N_IDLE && rep.state == Idle && rep.timestamp > 0
    requires (forall i | 0 <= i < |ticks| :: Captures(ticks[i])) && Rereads(ticks[n], rep) && Undecided(ticks[n].row)
    requires before.report.Some? && before.report.value.accepted == rep && !before.report.value.verified
    requires before.report.value.rejected != rep.timestamp && before.report.value.windowPolls == n
    requires before.screen == C.After(WindowSights(env, ticks[..n])) && !ConfirmedIn(env, ticks[..n])
    ensures var v, p := Verified(before.report.value, ConfirmedIn(env, ticks)), Ticked(env, before, ticks[n]);
      && p.report == Some(v.0) && p.screen == C.After(WindowSights(env, ticks))
      && (v.1 ==> p.row == EventRow(ticks[n].row, rep, ConfirmedIn(env, ticks))) && (!v.1 ==> p.row.source == Screen)
  {
    ConfirmedStep(env, ticks, n);
    OpenWindowStep(env, before, ticks[n], rep);
    VerdictIsStillness(env, ticks, n);
  }

  lemma VerdictStands(env: Env, ticks: seq<Tick>, e: Entry, rep: Report)
    requires 0 < |ticks| <= N_IDLE && (forall i | 0 <= i < |ticks| :: Captures(ticks[i])) && rep.timestamp > 0
    requires e.accepted == rep && !e.verified && e.rejected != rep.timestamp && e.windowPolls == |ticks| - 1
    ensures Standing(env, ticks, Memory(Some(Verified(e, ConfirmedIn(env, ticks)).0), C.After(WindowSights(env, ticks))), rep)
  {
  }

  lemma OpenPollStands(env: Env, ticks: seq<Tick>, n: nat, before: Memory, rep: Report)
    requires |ticks| == n + 1 && n < N_IDLE && rep.state == Idle && rep.timestamp > 0
    requires (forall i | 0 <= i < |ticks| :: Captures(ticks[i])) && Rereads(ticks[n], rep) && Undecided(ticks[n].row)
    requires before.report.Some? && before.report.value.accepted == rep && !before.report.value.verified
    requires before.report.value.rejected != rep.timestamp && before.report.value.windowPolls == n
    requires before.screen == C.After(WindowSights(env, ticks[..n])) && !ConfirmedIn(env, ticks[..n])
    ensures Standing(env, ticks, Next(env, before, ticks[n]), rep)
    ensures WindowRow(env, ticks, Ticked(env, before, ticks[n]).row, rep)
  {
    OpenPollAnswer(env, ticks, n, before, rep);
    var p := Ticked(env, before, ticks[n]);
    VerdictStands(env, ticks, before.report.value, rep);
    assert Next(env, before, ticks[n]) == Memory(p.report, p.screen);
  }

  lemma DecidedPollStands(env: Env, ticks: seq<Tick>, n: nat, before: Memory, rep: Report)
    requires |ticks| == n + 1 && rep.state == Idle && rep.timestamp > 0
    requires (forall i | 0 <= i < |ticks| :: Captures(ticks[i])) && Rereads(ticks[n], rep)
    requires Standing(env, ticks[..n], before, rep) && (ConfirmedIn(env, ticks[..n]) || n >= N_IDLE)
    ensures Standing(env, ticks, Next(env, before, ticks[n]), rep)
    ensures WindowRow(env, ticks, Ticked(env, before, ticks[n]).row, rep)
  {
    ConfirmedStep(env, ticks, n);
    DecidedStep(env, before, ticks[n], rep);
  }

  /** The poll that takes a report up does to it what it would to one already taken up. */
  lemma TakenUp(env: Env, m: Memory, t: Tick, rep: Report)
    requires t.Listed? && !t.restarted && KnownAgent(t.row.command) != "" && t.look.shown == Some(rep) && NewTo(m, rep)
    ensures Ticked(env, m, t) == Ticked(env, Memory(Some(Entry(rep, 0, false, 0, 0)), m.screen), t)
  {
  }

  /** Idle verification is exact: the report is confirmed at the first poll k up to
      N_IDLE whose last SETTLE_AFTER + 1 captures hash equal, and rejected at poll
      N_IDLE if there is none; either way nothing is left open past N_IDLE. */
  lemma {:induction false} IdleWindowIsExact(env: Env, m: Memory, ticks: seq<Tick>, rep: Report)
    requires IdleWindow(m, ticks, rep) && ticks != []
    ensures Standing(env, ticks, From(env, m, ticks), rep)
    ensures WindowRow(env, ticks, Ticked(env, From(env, m, ticks[..|ticks| - 1]), ticks[|ticks| - 1]).row, rep)
  {
    var n := |ticks| - 1;
    var init := ticks[..n];
    if n == 0 {
      TakenUp(env, m, ticks[0], rep);
      OpenPollStands(env, ticks, 0, Memory(Some(Entry(rep, 0, false, 0, 0)), None), rep);
    } else {
      assert IdleWindow(m, init, rep);
      IdleWindowIsExact(env, m, init, rep);
      var before := From(env, m, init);
      if ConfirmedIn(env, init) || n >= N_IDLE {
        DecidedPollStands(env, ticks, n, before, rep);
      } else {
        OpenPollStands(env, ticks, n, before, rep);
      }
    }
  }

  /** Changes in the window up to poll N_IDLE - SETTLE_AFTER never drop a report. */
  lemma EarlyRepaintsAreAbsorbed(env: Env, ticks: seq<Tick>)
    requires |ticks| >= N_IDLE && forall i | 0 <= i < |ticks| :: Captures(ticks[i])
    requires forall p | N_IDLE - C.SETTLE_AFTER <= p < N_IDLE :: CaptureHash(env, ticks[p]) == CaptureHash(env, ticks[p - 1])
    ensures ConfirmedIn(env, ticks)
  {
    assert CaptureHash(env, ticks[N_IDLE - C.SETTLE_AFTER]) == CaptureHash(env, ticks[N_IDLE - C.SETTLE_AFTER - 1]);
    assert StillAt(env, ticks, N_IDLE);
  }

  /** One change right after that, with nothing else moving, is enough to drop it. */
  lemma OneLateRepaintDrops(env: Env, ticks: seq<Tick>)
    requires |ticks| >= N_IDLE && forall i | 0 <= i < |ticks| :: Captures(ticks[i])
    requires var p := N_IDLE - C.SETTLE_AFTER; CaptureHash(env, ticks[p]) != CaptureHash(env, ticks[p - 1])
    ensures !ConfirmedIn(env, ticks)
  {
    var p := N_IDLE - C.SETTLE_AFTER;
    forall k | 0 <= k <= |ticks| && k <= N_IDLE
      ensures !StillAt(env, ticks, k)
    {
    }
  }

  /** With nobody connected the classifier forgets the pane, and the window does not
      forget what it has counted. */
  lemma UnwatchedStep(env: Env, m: Memory, t: Tick, rep: Report)
    requires Rereads(t, rep) && !t.look.connected && rep.state == Idle && rep.timestamp > 0
    requires m.report.Some? && m.report.value.accepted == rep && m.report.value.rejected != rep.timestamp
    ensures Next(env, m, t) == Memory(m.report, None)
  {
  }

  /** A window that is open, this many polls old, on a screen seen this many times. */
  predicate OpenAt(m: Memory, rep: Report, polls: nat, still: Option<nat>) {
    && m.report == Some(Entry(rep, polls, false, 0, 0))
    && (still.None? <==> m.screen.None?) && (still.Some? ==> m.screen.value.still <= still.value)
  }

  lemma OpenPoll(env: Env, m: Memory, t: Tick, rep: Report, polls: nat, still: Option<nat>)
    requires Rereads(t, rep) && Captures(t) && Undecided(t.row) && rep.state == Idle && rep.timestamp > 0
    requires OpenAt(m, rep, polls, still) && (still.Some? ==> still.value + 1 < C.SETTLE_AFTER)
    ensures var after := Next(env, m, t);
      if polls + 1 < N_IDLE then OpenAt(after, rep, polls + 1, Some(if still.Some? then still.value + 1 else 0))
      else after.report == Some(Entry(rep, polls + 1, false, 0, rep.timestamp))
  {
    OpenWindowStep(env, m, t, rep);
  }

  /** So a client that goes away in the middle of a window can cost a report on a screen
      that never moves: two polls before, one without anybody, and two after use the
      window up, and neither pair is the three captures a settled screen takes. */
  lemma DisconnectCanDropAStillScreen(env: Env, m: Memory, t: Tick, away: Tick, rep: Report)
    requires rep.state == Idle && rep.timestamp > 0 && NewTo(m, rep) && m.screen.None?
    requires Rereads(t, rep) && Captures(t) && Undecided(t.row) && t.look.shown == Some(rep)
    requires Rereads(away, rep) && !away.look.connected
    ensures var e := From(env, m, [t, t, away, t, t]).report;
      e.Some? && e.value.accepted == rep && e.value.rejected == rep.timestamp && !e.value.verified
  {
    var started := Memory(Some(Entry(rep, 0, false, 0, 0)), None);
    TakenUp(env, m, t, rep);
    var m1, m2 := Next(env, started, t), Next(env, Next(env, started, t), t);
    OpenPoll(env, started, t, rep, 0, None);
    OpenPoll(env, m1, t, rep, 1, Some(0));
    UnwatchedStep(env, m2, away, rep);
    var m3 := Next(env, m2, away);
    OpenPoll(env, m3, t, rep, 2, None);
    OpenPoll(env, Next(env, m3, t), t, rep, 3, Some(0));
    FiveTicks(env, m, t, t, away, t, t);
    assert Next(env, m, t) == m1;
  }

  lemma FiveTicks(env: Env, m: Memory, a: Tick, b: Tick, c: Tick, d: Tick, e: Tick)
    ensures From(env, m, [a, b, c, d, e])
      == Next(env, Next(env, Next(env, Next(env, Next(env, m, a), b), c), d), e)
  {
    assert From(env, m, [a, b]) == Next(env, Next(env, m, a), b) by {
      assert [a, b] == [a] + [b] && [a] == [] + [a];
      FromSnoc(env, m, [], a);
      FromSnoc(env, m, [a], b);
    }
    assert From(env, m, [a, b, c]) == Next(env, From(env, m, [a, b]), c) by {
      assert [a, b, c] == [a, b] + [c];
      FromSnoc(env, m, [a, b], c);
    }
    assert From(env, m, [a, b, c, d]) == Next(env, From(env, m, [a, b, c]), d) by {
      assert [a, b, c, d] == [a, b, c] + [d];
      FromSnoc(env, m, [a, b, c], d);
    }
    assert [a, b, c, d, e] == [a, b, c, d] + [e];
    FromSnoc(env, m, [a, b, c, d], e);
  }

  lemma FromSnoc(env: Env, m: Memory, ticks: seq<Tick>, t: Tick)
    ensures From(env, m, ticks + [t]) == Next(env, From(env, m, ticks), t)
  {
    assert (ticks + [t])[..|ticks|] == ticks;
  }
}
