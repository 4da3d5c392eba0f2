/** The screen-churn classifier (internal/tmux/state.go): whether an agent pane is
    working or idle from whether its capture is still changing, and when a run of
    work is dated as finished. */
module Classifier {
  import opened Prelude
  import opened PaneMaps

  const SETTLE_AFTER := 2
  const LATE_REPAINT_DWELL := 15 * NANOS_PER_SECOND
  const DWELL_MS := 15_000

  datatype Verdict = Working | Idle

  datatype Status = Status(verdict: Verdict, finishedAt: int, changed: bool)

  /** What is remembered between polls for one pane. */
  datatype PaneState = PaneState(hash: int, still: nat, finishedAt: int, everChanged: bool)

  predicate DwellPassed(finishedAt: int, now: int) {
    finishedAt == 0 || now - FromMilli(finishedAt) >= LATE_REPAINT_DWELL
  }

  /** One observation of one pane, whose capture hashes to `hash`. */
  function Next(p: Option<PaneState>, hash: int, now: int, blocked: bool): PaneState {
    if p.None? then PaneState(hash, 0, 0, false)
    else if p.value.hash != hash then p.value.(hash := hash, still := 0, everChanged := true)
    else
      var q := p.value.(still := p.value.still + 1);
      if q.still == SETTLE_AFTER && q.everChanged && !blocked && DwellPassed(q.finishedAt, now)
      then q.(finishedAt := UnixMilli(now)) else q
  }

  function Answer(before: Option<PaneState>, after: PaneState): Status {
    Status(if after.still < SETTLE_AFTER then Working else Idle,
           after.finishedAt,
           before.Some? && before.value.hash != after.hash)
  }

  class Classifier {
    // The capture is hashed whole. The hash itself is not modelled: all that
    // matters is that equal captures hash equal.
    const hash: string -> int
    var panes: map<string, PaneState>

    constructor (hash: string -> int)
      ensures this.hash == hash && panes == map[]
    {
      this.hash := hash;
      panes := map[];
    }

    method Observe(paneID: string, capture: string, now: int, blocked: bool) returns (status: Status)
      modifies this
      ensures var before := At(old(panes), paneID); var after := Next(before, hash(capture), now, blocked);
        && panes == Put(old(panes), paneID, Some(after))
        && status == Answer(before, after)
    {
      var sum := hash(capture);
      if paneID !in panes {
        panes := panes[paneID := PaneState(sum, 0, 0, false)];
        return Status(Working, 0, false);
      }
      var p := panes[paneID];
      var changed := false;
      if p.hash != sum {
        p := p.(hash := sum, still := 0, everChanged := true);
        changed := true;
      } else {
        p := p.(still := p.still + 1);
      }
      if p.still < SETTLE_AFTER {
        panes := panes[paneID := p];
        return Status(Working, p.finishedAt, changed);
      }
      if p.still == SETTLE_AFTER && p.everChanged && !blocked
        && (p.finishedAt == 0 || now - FromMilli(p.finishedAt) >= LATE_REPAINT_DWELL) {
        p := p.(finishedAt := UnixMilli(now));
      }
      panes := panes[paneID := p];
      return Status(Idle, p.finishedAt, changed);
    }

    method Retain(keep: seq<string>)
      modifies this
      ensures panes == Keep(old(panes), keep)
    {
      panes := Retained(panes, keep);
    }
  }

  // ------------------------------------------------------- the history it means

  /** One capture of a pane, since the classifier first saw it. */
  datatype Observation = Observation(hash: int, now: int, blocked: bool)

  /** What the classifier holds after these observations of a pane it had not seen. */
  function After(h: seq<Observation>): (p: Option<PaneState>)
    ensures p.None? <==> h == []
  {
    if h == [] then None
    else
      var o := h[|h| - 1];
      Some(Next(After(h[..|h| - 1]), o.hash, o.now, o.blocked))
  }

  predicate Differs(h: seq<Observation>, i: nat)
    requires i < |h|
  {
    i > 0 && h[i].hash != h[i - 1].hash
  }

  /** Observation i and the n before it all hash equal. */
  predicate SettledAt(h: seq<Observation>, i: nat, n: nat)
    requires i < |h|
  {
    n <= i && forall j | i - n <= j < i :: h[j].hash == h[i].hash
  }

  /** A run of work ends at i: the screen changed SETTLE_AFTER observations ago and
      has not changed since. */
  predicate RunEndsAt(h: seq<Observation>, i: nat)
    requires i < |h|
  {
    SettledAt(h, i, SETTLE_AFTER) && Differs(h, i - SETTLE_AFTER)
  }

  /** Observation i is dated as a finish: a run ends there, no dialog is on screen,
      and the last date given is at least the dwell ago. */
  predicate StampsAt(h: seq<Observation>, i: nat)
    requires i < |h|
    decreases i, 1
  {
    RunEndsAt(h, i) && !h[i].blocked && DwellPassed(LastStamp(h, i), h[i].now)
  }

  /** The date given by the last stamp among the first n observations, 0 for none. */
  function LastStamp(h: seq<Observation>, n: nat): int
    requires n <= |h|
    decreases n, 0
  {
    if n == 0 then 0
    else if StampsAt(h, n - 1) then UnixMilli(h[n - 1].now)
    else LastStamp(h, n - 1)
  }

  lemma {:induction false} StampsArePrefixLocal(h: seq<Observation>, g: seq<Observation>, n: nat)
    requires h <= g && n <= |h|
    ensures LastStamp(h, n) == LastStamp(g, n)
    ensures n < |h| ==> (StampsAt(h, n) <==> StampsAt(g, n))
  {
    if n > 0 {
      StampsArePrefixLocal(h, g, n - 1);
    }
  }

  /** The observation the current still run started at. */
  ghost predicate RunStart(h: seq<Observation>, s: nat) {
    && s < |h|
    && (forall j | s <= j < |h| :: h[j].hash == h[s].hash)
    && (s == 0 || Differs(h, s))
  }

  /** The incremental classifier is this function of the capture history. */
  lemma {:induction false} ClassifierIsItsHistory(h: seq<Observation>)
    requires h != []
    ensures var n := |h| - 1; var p := After(h).value;
      && p.hash == h[n].hash
      && p.still <= n
      && RunStart(h, n - p.still)
      && (p.everChanged <==> exists i :: 0 <= i < |h| && Differs(h, i))
      && p.finishedAt == LastStamp(h, |h|)
      && (p.still >= SETTLE_AFTER <==> SettledAt(h, n, SETTLE_AFTER))
      && (|h| > 1 ==> (Differs(h, n) <==> After(h[..n]).value.hash != p.hash))
  {
    var n := |h| - 1;
    var before, o := h[..n], h[n];
    if n > 0 {
      ClassifierIsItsHistory(before);
      StampsArePrefixLocal(before, h, n);
      var q := After(before).value;
      assert forall i | 0 <= i < n :: Differs(h, i) <==> Differs(before, i);
      var start := if q.hash == o.hash then n - 1 - q.still else n;
      assert RunStart(h, start);
      assert After(h).value.still == n - start;
      if n - start == SETTLE_AFTER {
        assert SettledAt(h, n, SETTLE_AFTER);
        assert q.everChanged <==> Differs(h, start) by {
          if start == 0 {
            assert forall i | 0 < i <= n :: h[i].hash == h[i - 1].hash;
          }
        }
      } else if n - start < SETTLE_AFTER {
        assert start == 0 || h[start - 1].hash != h[n].hash;
        assert !SettledAt(h, n, SETTLE_AFTER);
      } else {
        assert h[n - SETTLE_AFTER - 1].hash == h[n - SETTLE_AFTER].hash;
      }
    } else {
      assert RunStart(h, 0);
    }
  }

  /** What one observation answers, as a function of the history. */
  lemma AnswerIsItsHistory(h: seq<Observation>)
    requires h != []
    ensures var n := |h| - 1; var a := Answer(After(h[..n]), After(h).value);
      && (a.verdict == Idle <==> SettledAt(h, n, SETTLE_AFTER))
      && (a.verdict == Idle <==> n >= 2 && h[n].hash == h[n - 1].hash == h[n - 2].hash)
      && (a.changed <==> Differs(h, n))
      && a.finishedAt == LastStamp(h, |h|)
  {
    ClassifierIsItsHistory(h);
  }

  /** Every stamp ends a run that really changed the screen; a first sight that
      never moves is never dated. */
  lemma NoStampWithoutAChange(h: seq<Observation>, i: nat)
    requires i < |h| && StampsAt(h, i)
    ensures i > SETTLE_AFTER
    ensures exists c :: 0 < c < i && Differs(h, c)
  {
    assert Differs(h, i - SETTLE_AFTER);
  }

  /** A date that is not zero was given by an observation. */
  lemma {:induction false} StampGivenBy(h: seq<Observation>, n: nat) returns (i: nat)
    requires n <= |h| && LastStamp(h, n) != 0
    ensures i < n && StampsAt(h, i) && LastStamp(h, n) == UnixMilli(h[i].now)
  {
    if StampsAt(h, n - 1) {
      i := n - 1;
    } else {
      i := StampGivenBy(h, n - 1);
    }
  }

  lemma {:induction false} LastStampIsLast(h: seq<Observation>, n: nat) returns (i: nat)
    requires n <= |h|
    requires forall k | 0 <= k < n :: UnixMilli(h[k].now) > 0
    requires exists k :: 0 <= k < n && StampsAt(h, k)
    ensures i < n && StampsAt(h, i) && LastStamp(h, n) == UnixMilli(h[i].now) > 0
    ensures forall k | i < k < n :: !StampsAt(h, k)
  {
    if StampsAt(h, n - 1) {
      i := n - 1;
    } else {
      i := LastStampIsLast(h, n - 1);
    }
  }

  /** And every run that ends is dated, unless a dialog is on the screen or the date the
      pane already shows is less than fifteen seconds old; nothing else moves that date. */
  lemma FinishedRunIsDated(h: seq<Observation>, i: nat)
    requires i < |h|
    ensures var before := if i == 0 then 0 else After(h[..i]).value.finishedAt;
      var ended := i >= 3 && h[i].hash == h[i - 1].hash == h[i - 2].hash && h[i - 2].hash != h[i - 3].hash;
      After(h[..i + 1]).value.finishedAt
        == if ended && !h[i].blocked && (before == 0 || h[i].now - before * 1_000_000 >= 15_000_000_000)
           then UnixMilli(h[i].now) else before
  {
    var g := h[..i + 1];
    ClassifierIsItsHistory(g);
    StampsArePrefixLocal(h[..i], g, i);
    if i > 0 {
      ClassifierIsItsHistory(h[..i]);
      assert g[..i] == h[..i];
    }
    assert RunEndsAt(g, i) <==> i >= 3 && g[i].hash == g[i - 1].hash == g[i - 2].hash && g[i - 2].hash != g[i - 3].hash;
  }

  /** Two stamps are never closer than the dwell, and the screen changed between
      them. */
  lemma {:induction false} StampsAreApart(h: seq<Observation>, i: nat, j: nat)
    requires i < j < |h| && StampsAt(h, i) && StampsAt(h, j)
    requires forall k | 0 <= k < |h| :: UnixMilli(h[k].now) > 0
    ensures UnixMilli(h[j].now) - UnixMilli(h[i].now) >= DWELL_MS
    ensures exists c :: i < c < j && Differs(h, c)
    decreases j
  {
    var last := LastStampIsLast(h, j);
    if last > i {
      StampsAreApart(h, i, last);
    }
    assert i < j - SETTLE_AFTER && Differs(h, j - SETTLE_AFTER);
  }
}
