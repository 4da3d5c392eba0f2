/** Badge integrity: what a finish on a row is evidence of, over every run of polls. */
module Badges {
  import opened Prelude
  import opened PaneMaps
  import opened PaneWalk
  import opened ReportTypes
  import opened Poller
  import opened PaneRuns
  import C = Classifier

  function CaptureHash(env: Env, t: Tick): int
    requires Captures(t)
  {
    env.hash(t.look.capture.value)
  }

  /** The three captures ending at place j of a stretch hash equal: the classifier's
      own notion of a settled screen. */
  predicate SettledIn(env: Env, ticks: seq<Tick>, s: seq<nat>, j: nat) {
    && Unbroken(ticks, s) && C.SETTLE_AFTER <= j < |s|
    && forall i | j - C.SETTLE_AFTER <= i < j :: CaptureHash(env, ticks[s[i]]) == CaptureHash(env, ticks[s[j]])
  }

  predicate ChangedIn(env: Env, ticks: seq<Tick>, s: seq<nat>, j: nat) {
    && Unbroken(ticks, s) && 0 < j < |s|
    && CaptureHash(env, ticks[s[j]]) != CaptureHash(env, ticks[s[j - 1]])
  }

  /** A finish the screen is the source of: somewhere in the pane's current unbroken
      stretch of captures, in one server generation, the screen really changed, then
      settled, and the finish is the poll it settled at. */
  predicate EarnedOnScreen(env: Env, ticks: seq<Tick>, s: seq<nat>, j: nat, finishedAt: int) {
    && SettledIn(env, ticks, s, j)
    && ChangedIn(env, ticks, s, j - C.SETTLE_AFTER)
    && finishedAt == UnixMilli(ticks[s[j]].look.now)
  }

  ghost predicate ScreenEarned(env: Env, ticks: seq<Tick>, n: nat, finishedAt: int) {
    exists s, j :: s != [] && s[|s| - 1] == n && EarnedOnScreen(env, ticks, s, j, finishedAt)
  }

  /** The observations h are what the stretch s of captures showed. */
  predicate Depicts(env: Env, ticks: seq<Tick>, s: seq<nat>, h: seq<C.Observation>) {
    && Unbroken(ticks, s) && |h| == |s|
    && (forall j | 0 <= j < |s| :: h[j].hash == CaptureHash(env, ticks[s[j]]) && h[j].now == ticks[s[j]].look.now)
  }

  lemma StretchDepicts(env: Env, ticks: seq<Tick>)
    ensures Depicts(env, ticks, Stretch(env, ticks), Sights(env, ticks))
  {
    StretchIsUnbroken(env, ticks);
    SightsAreTheStretch(env, ticks);
    var s, h := Stretch(env, ticks), Sights(env, ticks);
    forall j | 0 <= j < |s|
      ensures h[j].hash == CaptureHash(env, ticks[s[j]]) && h[j].now == ticks[s[j]].look.now
    {
      assert Shows(env, ticks, s[j], h[j]);
    }
  }

  lemma StretchEndsNow(env: Env, ticks: seq<Tick>, n: nat)
    requires |ticks| == n + 1 && ticks[n].Listed? && Captured(env, After(env, ticks[..n]), ticks[n])
    ensures Stretch(env, ticks) != [] && Stretch(env, ticks)[|Stretch(env, ticks)| - 1] == n
  {
  }

  lemma StampIsEarned(env: Env, ticks: seq<Tick>, s: seq<nat>, h: seq<C.Observation>, j: nat)
    requires Depicts(env, ticks, s, h) && j < |h| && C.StampsAt(h, j)
    ensures EarnedOnScreen(env, ticks, s, j, UnixMilli(h[j].now))
  {
    assert C.SettledAt(h, j, C.SETTLE_AFTER) && C.Differs(h, j - C.SETTLE_AFTER);
  }

  /** The finish of a row the screen decided is the last stamp of the current stretch. */
  lemma ScreenRowIsTheStretch(env: Env, ticks: seq<Tick>, n: nat)
    requires |ticks| == n + 1 && ticks[n].Listed? && Undecided(ticks[n].row) && RowAt(env, ticks, n).source == Screen
    ensures Captured(env, Before(env, ticks, n), ticks[n])
    ensures RowAt(env, ticks, n).finishedAt == C.LastStamp(Sights(env, ticks), |Sights(env, ticks)|)
  {
    ScreenRowStep(env, Before(env, ticks, n), ticks[n]);
    ScreenIsTheStretch(env, ticks);
    assert After(env, ticks).screen == Ticked(env, Before(env, ticks, n), ticks[n]).screen;
    C.ClassifierIsItsHistory(Sights(env, ticks));
  }

  lemma ScreenBadge(env: Env, ticks: seq<Tick>, n: nat)
    requires |ticks| == n + 1 && ticks[n].Listed? && Undecided(ticks[n].row)
    requires RowAt(env, ticks, n).source == Screen && RowAt(env, ticks, n).finishedAt != 0
    ensures ScreenEarned(env, ticks, n, RowAt(env, ticks, n).finishedAt)
  {
    ScreenRowIsTheStretch(env, ticks, n);
    StretchEndsNow(env, ticks, n);
    StretchDepicts(env, ticks);
    var s, h := Stretch(env, ticks), Sights(env, ticks);
    var j := C.StampGivenBy(h, |h|);
    StampIsEarned(env, ticks, s, h, j);
  }

  /** After the first b polls, rep is the report accepted for the pane. */
  predicate Holds(env: Env, ticks: seq<Tick>, b: nat, rep: Report) {
    b <= |ticks| && var e := Before(env, ticks, b).report; e.Some? && e.value.accepted == rep
  }

  /** A poll that leaves what is remembered of the pane where it was: it failed, or it
      listed the pane on the same server. */
  predicate Continues(t: Tick) {
    t.Missed? || (t.Listed? && !t.restarted)
  }

  /** Poll a showed the report, it has been the one accepted ever since, and nothing since
      emptied the memory it is held in. */
  predicate HeldSince(env: Env, ticks: seq<Tick>, a: nat, rep: Report) {
    && a < |ticks| && ticks[a].Listed? && ticks[a].look.shown == Some(rep)
    && (forall b | a < b < |ticks| :: Continues(ticks[b]))
    && forall b | a < b <= |ticks| :: Holds(env, ticks, b, rep)
  }

  /** At poll k, with a client connected, the pane's capture and the ones before it in
      its unbroken stretch had settled. */
  predicate SettledAtPoll(env: Env, ticks: seq<Tick>, k: nat) {
    && k < |ticks|
    && var s := Stretch(env, ticks[..k + 1]);
    && s != [] && s[|s| - 1] == k && SettledIn(env, ticks[..k + 1], s, |s| - 1)
  }

  /** Where a verified report's verification came from: the report was shown and held,
      and the classifier gave an idle verdict at some poll since. */
  ghost predicate VerifiedAfter(env: Env, ticks: seq<Tick>, rep: Report) {
    exists a: nat, k: nat :: a <= k < |ticks| && HeldSince(env, ticks, a, rep) && SettledAtPoll(env, ticks, k)
  }

  lemma HeldGrows(env: Env, ticks: seq<Tick>, n: nat, a: nat, rep: Report)
    requires |ticks| == n + 1 && HeldSince(env, ticks[..n], a, rep) && Holds(env, ticks, n + 1, rep) && Continues(ticks[n])
    ensures HeldSince(env, ticks, a, rep)
  {
    assert forall b | a < b < n :: ticks[..n][b] == ticks[b];
    forall b | a < b <= n
      ensures Holds(env, ticks, b, rep)
    {
      assert ticks[..n][..b] == ticks[..b];
      assert Holds(env, ticks[..n], b, rep);
    }
  }

  lemma VerifiedGrows(env: Env, ticks: seq<Tick>, n: nat, rep: Report)
    requires |ticks| == n + 1 && Holds(env, ticks, n + 1, rep) && Continues(ticks[n])
    ensures VerifiedAfter(env, ticks[..n], rep) ==> VerifiedAfter(env, ticks, rep)
  {
    var init := ticks[..n];
    if a: nat, k: nat :| a <= k < n && HeldSince(env, init, a, rep) && SettledAtPoll(env, init, k) {
      HeldGrows(env, ticks, n, a, rep);
      assert ticks[..k + 1] == init[..k + 1];
      assert SettledAtPoll(env, ticks, k);
    }
  }

  /** What one poll can do to a report's verification: a report that comes out
      verified either went in verified or was given an idle verdict on a capture. */
  lemma VerdictStep(env: Env, m: Memory, t: Tick)
    requires t.Listed? && Ticked(env, m, t).report.Some?
    ensures var e := if t.restarted then None else m.report; var e' := Ticked(env, m, t).report.value;
      && ((e.Some? && e'.accepted == e.value.accepted) || t.look.shown == Some(e'.accepted))
      && (e'.verified ==>
            || (e.Some? && e.value.accepted == e'.accepted && e.value.verified)
            || (Captured(env, m, t) && C.Answer(if t.restarted then None else m.screen, Ticked(env, m, t).screen.value).verdict == C.Idle))
  {
  }

  /** What the classifier answers a captured poll, from what the pane's current stretch
      showed it. */
  lemma CaptureAnswer(env: Env, ticks: seq<Tick>, n: nat)
    requires |ticks| == n + 1 && Captured(env, Before(env, ticks, n), ticks[n])
    ensures var h, m, t := Sights(env, ticks), Before(env, ticks, n), ticks[n];
      var a := C.Answer(if t.restarted then None else m.screen, Ticked(env, m, t).screen.value);
      && h != [] && (a.verdict == C.Idle <==> C.SettledAt(h, |h| - 1, C.SETTLE_AFTER)) && (a.changed <==> C.Differs(h, |h| - 1))
  {
    var init := ticks[..n];
    var h := Sights(env, ticks);
    ScreenIsTheStretch(env, ticks);
    ScreenIsTheStretch(env, init);
    assert h[..|h| - 1] == if ticks[n].restarted then [] else Sights(env, init);
    assert After(env, ticks).screen == Ticked(env, Before(env, ticks, n), ticks[n]).screen;
    C.AnswerIsItsHistory(h);
  }

  lemma SettledAlike(env: Env, ticks: seq<Tick>, s: seq<nat>, h: seq<C.Observation>)
    requires Depicts(env, ticks, s, h) && h != []
    ensures C.SettledAt(h, |h| - 1, C.SETTLE_AFTER) <==> SettledIn(env, ticks, s, |s| - 1)
  {
    var j := |h| - 1;
    if SettledIn(env, ticks, s, j) {
      assert forall i | j - C.SETTLE_AFTER <= i < j :: h[i].hash == CaptureHash(env, ticks[s[i]]);
    }
    if C.SettledAt(h, j, C.SETTLE_AFTER) {
      assert forall i | j - C.SETTLE_AFTER <= i < j :: h[i].hash == CaptureHash(env, ticks[s[i]]);
    }
  }

  /** The classifier says idle at a captured poll exactly when the screen has settled in
      the pane's current stretch. */
  lemma VerdictIsASettle(env: Env, ticks: seq<Tick>, n: nat)
    requires |ticks| == n + 1 && Captured(env, Before(env, ticks, n), ticks[n])
    ensures var m, t := Before(env, ticks, n), ticks[n];
      C.Answer(if t.restarted then None else m.screen, Ticked(env, m, t).screen.value).verdict == C.Idle
      <==> SettledAtPoll(env, ticks, n)
  {
    CaptureAnswer(env, ticks, n);
    StretchEndsNow(env, ticks, n);
    var s, h := Stretch(env, ticks), Sights(env, ticks);
    assert C.SettledAt(h, |h| - 1, C.SETTLE_AFTER) <==> SettledIn(env, ticks, s, |s| - 1) by {
      StretchDepicts(env, ticks);
      SettledAlike(env, ticks, s, h);
    }
    assert ticks[..n + 1] == ticks;
  }

  /** Where the report a pane holds came from, poll by poll: `held` and `verified` are
      about the report before this poll. */
  lemma ProvenanceStep(env: Env, ticks: seq<Tick>, n: nat, rep: Report, held: nat)
    requires |ticks| == n + 1 && !ticks[n].Missed? && Holds(env, ticks, n + 1, rep)
    requires Holds(env, ticks, n, rep) ==> HeldSince(env, ticks[..n], held, rep)
    requires Holds(env, ticks, n, rep) && Before(env, ticks, n).report.value.verified ==> VerifiedAfter(env, ticks[..n], rep)
    ensures HeldSince(env, ticks, held, rep) || HeldSince(env, ticks, n, rep)
    ensures Before(env, ticks, n + 1).report.value.verified ==> VerifiedAfter(env, ticks, rep)
  {
    assert ticks[..n + 1] == ticks;
    var t := ticks[n];
    VerdictStep(env, Before(env, ticks, n), t);
    var carried := !t.restarted && Holds(env, ticks, n, rep);
    var a := if carried then held else n;
    if carried {
      HeldGrows(env, ticks, n, held, rep);
    }
    assert HeldSince(env, ticks, a, rep);
    if Before(env, ticks, n + 1).report.value.verified {
      if carried && Before(env, ticks, n).report.value.verified {
        VerifiedGrows(env, ticks, n, rep);
      } else {
        VerdictIsASettle(env, ticks, n);
      }
    }
  }

  lemma {:induction false} ReportProvenance(env: Env, ticks: seq<Tick>, rep: Report) returns (a: nat)
    requires Holds(env, ticks, |ticks|, rep)
    ensures HeldSince(env, ticks, a, rep)
    ensures Before(env, ticks, |ticks|).report.value.verified ==> VerifiedAfter(env, ticks, rep)
  {
    var n := |ticks| - 1;
    assert ticks[..n + 1] == ticks;
    var init := ticks[..n];
    assert init[..n] == init;
    a := 0;
    if Holds(env, ticks, n, rep) {
      a := ReportProvenance(env, init, rep);
    }
    if ticks[n].Missed? {
      HeldGrows(env, ticks, n, a, rep);
      if Before(env, ticks, n + 1).report.value.verified {
        VerifiedGrows(env, ticks, n, rep);
      }
    } else {
      ProvenanceStep(env, ticks, n, rep, a);
      if !HeldSince(env, ticks, a, rep) {
        a := n;
      }
    }
  }

  /** A finish a report is the source of: the date of an idle report held since it was
      shown, and, when it has to be verified, verified since. */
  ghost predicate EventEarned(env: Env, ticks: seq<Tick>, finishedAt: int, verified: bool) {
    exists rep: Report, a: nat ::
      && rep.state == Idle && rep.timestamp == finishedAt && HeldSince(env, ticks, a, rep)
      && (verified ==> VerifiedAfter(env, ticks, rep))
  }

  /** A finish the agent's own report is the source of: it is that report's own date,
      and while a client is connected the classifier has agreed since the report was
      taken up. */
  lemma EventBadge(env: Env, ticks: seq<Tick>, n: nat)
    requires |ticks| == n + 1 && ticks[n].Listed? && Undecided(ticks[n].row)
    requires RowAt(env, ticks, n).source == Event && RowAt(env, ticks, n).finishedAt != 0
    ensures EventEarned(env, ticks, RowAt(env, ticks, n).finishedAt, ticks[n].look.connected)
  {
    assert ticks[..n + 1] == ticks;
    EventRowStep(env, Before(env, ticks, n), ticks[n]);
    var rep := Before(env, ticks, n + 1).report.value.accepted;
    var a := ReportProvenance(env, ticks, rep);
  }
}
