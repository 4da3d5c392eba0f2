/** The protocol and the poll together: what finish a row can show. */
module Finishes {
  import opened Prelude
  import opened ReportTypes
  import opened ReportCodec
  import opened PaneWalk
  import opened Poller
  import P = Protocol
  import R = Reports
  import C = Classifier

  /** A row whose source is the report shows that report's own date or none. */
  lemma EventFinish(env: Env, p: Pane, rep: Option<Report>, look: Look)
    requires (rep.Some? ==> p.report.Some?) && p.row.source != Event && p.row.finishedAt == 0
    requires Decided(env, p, rep, look).row.source == Event
    ensures rep.Some? && Decided(env, p, rep, look).row.finishedAt in {0, rep.value.timestamp}
  {
  }

  /** The finish a row shows stays put. After any run that accepted idle;t, and however it
      goes on until an edge from t or later, a row the poll decides from the pane's report
      shows the finish t or none. */
  lemma FinishedAtStaysPut(before: seq<P.Step>, more: seq<P.Step>, t: int, finish: Report,
                           env: Env, screen: Option<C.PaneState>, row: Row, look: Look)
    requires P.Allowed(CODEC, P.INITIAL, before) && P.OrderlyRun(CODEC, P.INITIAL, before, t)
    requires var s := P.Run(CODEC, P.INITIAL, before);
      && P.Allowed(CODEC, s, more) && P.OrderlyRun(CODEC, s, more, t) && P.Forget !in more
      && s.daemon.Some? && s.daemon.value.accepted == finish && finish.timestamp == t
    requires row.source != Event && row.finishedAt == 0
    ensures var d := P.Run(CODEC, P.Run(CODEC, P.INITIAL, before), more).daemon;
      var rep := R.InForce(d, look.now);
      var decided := Decided(env, Step(d, screen, row), rep, look).row;
      decided.source == Event ==> decided.finishedAt in {0, t}
  {
    P.FinishStaysPut(before, more, t, finish, look.now);
    var d := P.Run(CODEC, P.Run(CODEC, P.INITIAL, before), more).daemon;
    var rep := R.InForce(d, look.now);
    if Decided(env, Step(d, screen, row), rep, look).row.source == Event {
      EventFinish(env, Step(d, screen, row), rep, look);
    }
  }
}
