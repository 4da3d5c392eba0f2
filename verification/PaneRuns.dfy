/** One pane over a whole run of polls: connects, disconnects, failed captures,
    failed polls and server restarts, in any order. */
module PaneRuns {
  import opened Prelude
  import opened PaneMaps
  import opened PaneWalk
  import opened ReportTypes
  import opened Reports
  import opened Poller
  import C = Classifier

  /** What both authorities remember about the pane between polls. */
  datatype Memory = Memory(report: Option<Entry>, screen: Option<C.PaneState>)

  const NOTHING := Memory(None, None)

  /** What one poll does to the pane. */
  datatype Tick =
    | Missed                                             // the poll failed
    | Gone(restarted: bool)                              // the pane was not listed
    | Listed(restarted: bool, row: Row, look: Look)      // the pane was listed

  function Ticked(env: Env, m: Memory, t: Tick): Pane
    requires t.Listed?
  {
    var before := if t.restarted then NOTHING else m;
    PollPane(env, Step(before.report, before.screen, t.row), t.look)
  }

  function Next(env: Env, m: Memory, t: Tick): Memory {
    match t
    case Missed => m
    case Gone(_) => NOTHING
    case Listed(_, _, _) => var p := Ticked(env, m, t); Memory(p.report, p.screen)
  }

  /** The pane's memory after a run, from a given one. */
  function From(env: Env, m: Memory, ticks: seq<Tick>): Memory {
    if ticks == [] then m else Next(env, From(env, m, ticks[..|ticks| - 1]), ticks[|ticks| - 1])
  }

  /** ... and from a daemon that has just started. */
  function After(env: Env, ticks: seq<Tick>): Memory {
    From(env, NOTHING, ticks)
  }

  /** The memory the i-th poll started from. */
  function Before(env: Env, ticks: seq<Tick>, i: nat): Memory
    requires i <= |ticks|
  {
    After(env, ticks[..i])
  }

  /** The row the i-th poll published for the pane. */
  function RowAt(env: Env, ticks: seq<Tick>, i: nat): Row
    requires i < |ticks| && ticks[i].Listed?
  {
    Ticked(env, Before(env, ticks, i), ticks[i]).row
  }

  /** A row as the batched read delivers it, before anything is decided. */
  predicate Undecided(row: Row) {
    row.agentState.None? && row.source == Nobody && row.finishedAt == 0 && row.question.None?
  }

  // ------------------------------------------------- a step, seen from outside

  /** Whether the classifier was told a dialog is on this capture. In the idle window
      it is not asked: the row's finish is the report's own either way. */
  function Withheld(env: Env, m: Memory, t: Tick): bool
    requires t.Listed? && t.look.capture.Some?
  {
    var e := Seen(if t.restarted then None else m.report, t.look.shown);
    var rep := InForce(e, t.look.now);
    (rep.Some? ==> rep.value.state == Blocked)
    && env.grammars.isBlocked(KnownAgent(t.row.command), t.look.capture.value)
  }

  function Sighted(env: Env, m: Memory, t: Tick): C.Observation
    requires t.Listed? && t.look.capture.Some?
  {
    C.Observation(env.hash(t.look.capture.value), t.look.now, Withheld(env, m, t))
  }

  /** The pane's capture was taken and classified. */
  predicate Captured(env: Env, m: Memory, t: Tick) {
    t.Listed? && Ticked(env, m, t).screen.Some?
  }

  lemma CaptureStep(env: Env, m: Memory, t: Tick)
    requires Captured(env, m, t)
    ensures t.look.connected && t.look.capture.Some? && KnownAgent(t.row.command) != ""
    ensures var o := Sighted(env, m, t); var screen := if t.restarted then None else m.screen;
      Ticked(env, m, t).screen == Some(C.Next(screen, o.hash, o.now, o.blocked))
  {
  }

  lemma ScreenRowStep(env: Env, m: Memory, t: Tick)
    requires t.Listed? && Undecided(t.row) && Ticked(env, m, t).row.source == Screen
    ensures Captured(env, m, t) && Ticked(env, m, t).row.finishedAt == Ticked(env, m, t).screen.value.finishedAt
  {
  }

  lemma EventRowStep(env: Env, m: Memory, t: Tick)
    requires t.Listed? && Undecided(t.row)
    requires Ticked(env, m, t).row.source == Event && Ticked(env, m, t).row.finishedAt != 0
    ensures var e := Ticked(env, m, t).report;
      && e.Some? && e.value.accepted.state == Idle && Ticked(env, m, t).row.finishedAt == e.value.accepted.timestamp
      && (t.look.connected ==> e.value.verified)
  {
  }

  lemma FinishHasASource(env: Env, m: Memory, t: Tick)
    requires t.Listed? && Undecided(t.row) && Ticked(env, m, t).row.finishedAt != 0
    ensures Ticked(env, m, t).row.source != Nobody
  {
  }

  // -------------------------------------------- the current stretch of captures

  /** The polls of the pane's current unbroken stretch of captures, oldest first. */
  function Stretch(env: Env, ticks: seq<Tick>): seq<nat> {
    if ticks == [] then []
    else
      var n, t := |ticks| - 1, ticks[|ticks| - 1];
      if t.Missed? then Stretch(env, ticks[..n])
      else if !Captured(env, Before(env, ticks, n), t) then []
      else if t.restarted then [n]
      else Stretch(env, ticks[..n]) + [n]
  }

  /** ... and what the classifier was shown at each of them. */
  function Sights(env: Env, ticks: seq<Tick>): seq<C.Observation> {
    if ticks == [] then []
    else
      var n, t := |ticks| - 1, ticks[|ticks| - 1];
      if t.Missed? then Sights(env, ticks[..n])
      else if !Captured(env, Before(env, ticks, n), t) then []
      else
        CaptureStep(env, Before(env, ticks, n), t);
        var o := Sighted(env, Before(env, ticks, n), t);
        if t.restarted then [o] else Sights(env, ticks[..n]) + [o]
  }

  predicate Captures(t: Tick) {
    t.Listed? && t.look.connected && t.look.capture.Some?
  }

  /** These polls are an unbroken stretch of captures up to now: the pane was
      captured at each, every other poll since the first of them failed, and the
      server did not restart after the first. */
  predicate Unbroken(ticks: seq<Tick>, s: seq<nat>) {
    && (forall j | 0 <= j < |s| :: s[j] < |ticks| && Captures(ticks[s[j]]))
    && (forall j | 0 < j < |s| :: s[j - 1] < s[j] && !ticks[s[j]].restarted)
    && (forall i | 0 <= i < |ticks| && s != [] && s[0] <= i && i !in s :: ticks[i].Missed?)
  }

  lemma UnbrokenStays(ticks: seq<Tick>, s: seq<nat>)
    requires Unbroken(ticks, s)
    ensures Unbroken(ticks + [Missed], s)
  {
  }

  lemma UnbrokenGrows(ticks: seq<Tick>, s: seq<nat>, t: Tick)
    requires Unbroken(ticks, s) && Captures(t) && !t.restarted
    ensures Unbroken(ticks + [t], s + [|ticks|])
  {
    var all, longer := ticks + [t], s + [|ticks|];
    forall i | 0 <= i < |all| && longer[0] <= i && i !in longer
      ensures all[i].Missed?
    {
      assert longer[|s|] == |ticks|;
      assert i < |ticks| && s != [] && longer[0] == s[0];
      assert forall j | 0 <= j < |s| :: longer[j] == s[j];
    }
  }

  lemma StretchStep(env: Env, ticks: seq<Tick>)
    requires ticks != []
    ensures var n, t := |ticks| - 1, ticks[|ticks| - 1];
      || (t.Missed? && Stretch(env, ticks) == Stretch(env, ticks[..n]))
      || Stretch(env, ticks) == []
      || (Captures(t) && Stretch(env, ticks) == if t.restarted then [n] else Stretch(env, ticks[..n]) + [n])
  {
    var n, t := |ticks| - 1, ticks[|ticks| - 1];
    if !t.Missed? && Captured(env, Before(env, ticks, n), t) {
      CaptureStep(env, Before(env, ticks, n), t);
    }
  }

  lemma UnbrokenStarts(ticks: seq<Tick>, t: Tick)
    requires Captures(t)
    ensures Unbroken(ticks + [t], [|ticks|])
  {
    assert [|ticks|][0] == |ticks|;
  }

  lemma StretchStaysUnbroken(ticks: seq<Tick>, s: seq<nat>, t: Tick, s': seq<nat>)
    requires Unbroken(ticks, s)
    requires (t.Missed? && s' == s) || s' == [] || (Captures(t) && s' == if t.restarted then [|ticks|] else s + [|ticks|])
    ensures Unbroken(ticks + [t], s')
  {
    if s' != [] {
      if t.Missed? {
        UnbrokenStays(ticks, s);
      } else if t.restarted {
        UnbrokenStarts(ticks, t);
      } else {
        UnbrokenGrows(ticks, s, t);
      }
    }
  }

  lemma {:induction false} StretchIsUnbroken(env: Env, ticks: seq<Tick>)
    ensures Unbroken(ticks, Stretch(env, ticks))
  {
    if ticks != [] {
      var init, t := ticks[..|ticks| - 1], ticks[|ticks| - 1];
      assert ticks == init + [t];
      StretchIsUnbroken(env, init);
      StretchStep(env, ticks);
      StretchStaysUnbroken(init, Stretch(env, init), t, Stretch(env, ticks));
    }
  }

  /** The poll at i captured the pane and showed the classifier o. */
  predicate Shows(env: Env, ticks: seq<Tick>, i: nat, o: C.Observation) {
    && i < |ticks| && Captured(env, Before(env, ticks, i), ticks[i])
    && ticks[i].look.capture.Some? && o == Sighted(env, Before(env, ticks, i), ticks[i])
  }

  lemma {:induction false} SightsAreTheStretch(env: Env, ticks: seq<Tick>)
    ensures |Sights(env, ticks)| == |Stretch(env, ticks)|
    ensures forall j | 0 <= j < |Stretch(env, ticks)| :: Shows(env, ticks, Stretch(env, ticks)[j], Sights(env, ticks)[j])
  {
    if ticks != [] {
      var n, t := |ticks| - 1, ticks[|ticks| - 1];
      var init := ticks[..n];
      SightsAreTheStretch(env, init);
      forall j | 0 <= j < |Stretch(env, init)|
        ensures Shows(env, ticks, Stretch(env, init)[j], Sights(env, init)[j])
      {
        assert init[..Stretch(env, init)[j]] == ticks[..Stretch(env, init)[j]];
      }
      if Captured(env, Before(env, ticks, n), t) {
        CaptureStep(env, Before(env, ticks, n), t);
        assert Shows(env, ticks, n, Sighted(env, Before(env, ticks, n), t));
      }
    }
  }

  /** The classifier's memory of a pane is its memory of the current stretch. */
  lemma {:induction false} ScreenIsTheStretch(env: Env, ticks: seq<Tick>)
    ensures After(env, ticks).screen == C.After(Sights(env, ticks))
  {
    if ticks != [] {
      var n, t := |ticks| - 1, ticks[|ticks| - 1];
      ScreenIsTheStretch(env, ticks[..n]);
      if Captured(env, Before(env, ticks, n), t) {
        CaptureStep(env, Before(env, ticks, n), t);
        var o := Sighted(env, Before(env, ticks, n), t);
        if t.restarted {
          assert C.After([o]) == Some(C.Next(None, o.hash, o.now, o.blocked));
        }
      }
    }
  }
}
