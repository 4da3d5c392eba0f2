/** Which report, if any, is in force for a pane (internal/tmux/reports.go): the
    ordering filter, the one rejection slot, and the three evidence rules. */
module Reports {
  import opened Prelude
  import opened PaneMaps
  import opened ReportTypes
  import C = Classifier

  const WORKING_TTL := 60 * NANOS_PER_SECOND
  const N_IDLE := C.SETTLE_AFTER + 2
  const N_BLOCKED := C.SETTLE_AFTER + 1

  /** The report a pane's memory holds, the evidence gathered about it, and the
      timestamp of the report the evidence overturned (0 for none). */
  datatype Entry = Entry(accepted: Report, windowPolls: nat, verified: bool, settledPolls: nat, rejected: int)

  function KnownAgent(command: string): string {
    if command in {"claude", "opencode", "pi"} then command else ""
  }

  /** A look at a pane's option: nothing when the pane runs no agent. */
  function Read(parse: Parser, raw: string, command: string, now: int): Reading {
    if KnownAgent(command) == "" then None else parse(raw, now)
  }

  // --------------------------------------------- one pane, one operation at a time

  /** A look at the option. Nothing shown forgets the pane; a strictly newer value is
      a new claim with nothing said about it yet; anything else changes nothing. */
  function Seen(e: Option<Entry>, shown: Reading): Option<Entry> {
    if shown.None? then None
    else if e.None? || shown.value.timestamp > e.value.accepted.timestamp
    then Some(Entry(shown.value, 0, false, 0, 0))
    else e
  }

  predicate Expired(r: Report, now: int) {
    r.state == Working && now - FromMilli(r.timestamp) > WORKING_TTL
  }

  function InForce(e: Option<Entry>, now: int): Option<Report> {
    if e.None? || e.value.accepted.timestamp == e.value.rejected || Expired(e.value.accepted, now) then None
    else Some(e.value.accepted)
  }

  function Reject(e: Entry): Entry {
    e.(rejected := e.accepted.timestamp)
  }

  /** Rule 3: the classifier's verdict on one poll of the idle window. */
  function Verified(e: Entry, idle: bool): (Entry, bool) {
    var counted := e.(windowPolls := e.windowPolls + 1);
    if idle then (counted.(verified := true), true)
    else if counted.windowPolls >= N_IDLE then (Reject(counted), false)
    else (counted, true)
  }

  /** Rules 1 and 2: a blocked report against one capture. */
  function Checked(e: Entry, changed: bool, formOnScreen: bool): (Entry, bool) {
    if changed then (Reject(e), false)
    else if formOnScreen then (e.(settledPolls := 0), true)
    else
      var counted := e.(settledPolls := e.settledPolls + 1);
      if counted.settledPolls >= N_BLOCKED then (Reject(counted), false) else (counted, true)
  }

  predicate WantsScreen(e: Entry) {
    match e.accepted.state
    case Idle => !e.verified
    case Blocked => true
    case Working => false
  }

  class Reports {
    // ParseReport, which is modelled on its own.
    const parse: Parser
    var panes: map<string, Entry>

    constructor (parse: Parser)
      ensures this.parse == parse && panes == map[]
    {
      this.parse := parse;
      panes := map[];
    }

    method Observe(paneID: string, raw: string, command: string, now: int) returns (rep: Option<Report>)
      modifies this
      ensures panes == Put(old(panes), paneID, Seen(At(old(panes), paneID), Read(parse, raw, command, now)))
      ensures rep == InForce(At(panes, paneID), now)
    {
      if KnownAgent(command) == "" {
        panes := panes - {paneID};
        return None;
      }
      var parsed := parse(raw, now);
      if parsed.None? {
        panes := panes - {paneID};
        return None;
      }
      // An entry that is not there yet stands at timestamp 0, below every report.
      if paneID !in panes || parsed.value.timestamp > panes[paneID].accepted.timestamp {
        panes := panes[paneID := Entry(parsed.value, 0, false, 0, 0)];
      }
      var st := panes[paneID];
      if st.accepted.timestamp == st.rejected {
        return None;
      }
      if st.accepted.state == Working && now - FromMilli(st.accepted.timestamp) > WORKING_TTL {
        return None;
      }
      return Some(st.accepted);
    }

    method NeedsScreen(paneID: string) returns (b: bool)
      ensures b <==> At(panes, paneID).Some? && WantsScreen(panes[paneID])
    {
      if paneID !in panes {
        return false;
      }
      var st := panes[paneID];
      match st.accepted.state
      case Idle => return !st.verified;
      case Blocked => return true;
      case Working => return false;
    }

    method Corroborate(paneID: string, idle: bool) returns (stands: bool)
      modifies this
      ensures paneID !in old(panes) ==> panes == old(panes) && !stands
      ensures paneID in old(panes) ==>
                (panes, stands) == (old(panes)[paneID := Verified(old(panes)[paneID], idle).0],
                                    Verified(old(panes)[paneID], idle).1)
    {
      if paneID !in panes {
        return false;
      }
      var st := panes[paneID];
      st := st.(windowPolls := st.windowPolls + 1);
      stands := true;
      if idle {
        st := st.(verified := true);
      } else if st.windowPolls >= N_IDLE {
        st := st.(rejected := st.accepted.timestamp);
        stands := false;
      }
      panes := panes[paneID := st];
    }

    method CorroborateBlocked(paneID: string, changed: bool, formOnScreen: bool) returns (stands: bool)
      modifies this
      ensures paneID !in old(panes) ==> panes == old(panes) && !stands
      ensures paneID in old(panes) ==>
                (panes, stands) == (old(panes)[paneID := Checked(old(panes)[paneID], changed, formOnScreen).0],
                                    Checked(old(panes)[paneID], changed, formOnScreen).1)
    {
      if paneID !in panes {
        return false;
      }
      var st := panes[paneID];
      stands := true;
      if changed {
        st := st.(rejected := st.accepted.timestamp);
        stands := false;
      } else if formOnScreen {
        st := st.(settledPolls := 0);
      } else {
        st := st.(settledPolls := st.settledPolls + 1);
        if st.settledPolls >= N_BLOCKED {
          st := st.(rejected := st.accepted.timestamp);
          stands := false;
        }
      }
      panes := panes[paneID := st];
    }

    method Confirmed(paneID: string, connected: bool) returns (b: bool)
      ensures b <==> paneID in panes && (!connected || panes[paneID].verified)
    {
      if paneID !in panes {
        return false;
      }
      if !connected {
        return true;
      }
      return panes[paneID].verified;
    }

    method Retain(keep: seq<string>)
      modifies this
      ensures panes == Keep(old(panes), keep)
    {
      panes := Retained(panes, keep);
    }
  }

  // ------------------------------------------------------ the history it means

  /** Everything that can happen to one pane's memory, in the order it happened. */
  datatype Event =
    | Saw(shown: Reading)
    | IdleVerdict(idle: bool)
    | BlockedVerdict(changed: bool, formOnScreen: bool)
    | Forgotten

  function Apply(e: Option<Entry>, ev: Event): Option<Entry> {
    match ev
    case Saw(shown) => Seen(e, shown)
    case IdleVerdict(idle) => if e.Some? then Some(Verified(e.value, idle).0) else None
    case BlockedVerdict(changed, form) => if e.Some? then Some(Checked(e.value, changed, form).0) else None
    case Forgotten => None
  }

  function EntryAfter(h: seq<Event>): Option<Entry> {
    if h == [] then None else Apply(EntryAfter(h[..|h| - 1]), h[|h| - 1])
  }

  /** The event shows the daemon a report. */
  predicate Shows(ev: Event) {
    ev.Saw? && ev.shown.Some?
  }

  function Stamp(ev: Event): int
    requires Shows(ev)
  {
    ev.shown.value.timestamp
  }

  /** The events that make the daemon forget the pane. */
  predicate Clears(ev: Event) {
    ev.Forgotten? || (ev.Saw? && ev.shown.None?)
  }

  /** Where the pane's current memory begins: just after the last clearing event. */
  function LifeStart(h: seq<Event>): (b: nat)
    ensures b <= |h|
    ensures forall j | b <= j < |h| :: !Clears(h[j])
    ensures b > 0 ==> Clears(h[b - 1])
  {
    if h == [] then 0
    else if Clears(h[|h| - 1]) then |h|
    else LifeStart(h[..|h| - 1])
  }

  /** Event i shows the first-seen report of greatest timestamp since b. */
  predicate FirstGreatest(h: seq<Event>, b: nat, i: nat) {
    && b <= i < |h| && Shows(h[i])
    && (forall j | b <= j < |h| && Shows(h[j]) :: Stamp(h[j]) <= Stamp(h[i]))
    && (forall j | b <= j < i && Shows(h[j]) :: Stamp(h[j]) < Stamp(h[i]))
  }

  /** The polls of the idle window among these events. */
  function WindowPolls(w: seq<Event>): nat {
    if w == [] then 0
    else WindowPolls(w[..|w| - 1]) + if w[|w| - 1].IdleVerdict? then 1 else 0
  }

  /** The unmoved, formless polls since a form was last on screen. */
  function FormlessPolls(w: seq<Event>): nat {
    if w == [] then 0
    else
      var before, ev := FormlessPolls(w[..|w| - 1]), w[|w| - 1];
      if !ev.BlockedVerdict? || ev.changed then before
      else if ev.formOnScreen then 0
      else before + 1
  }

  /** The evidence at k overturns the report these events are about. */
  predicate CondemnedBy(w: seq<Event>, k: nat)
    requires k < |w|
  {
    match w[k]
    case IdleVerdict(idle) => !idle && WindowPolls(w[..k + 1]) >= 4
    case BlockedVerdict(changed, form) => changed || (!form && FormlessPolls(w[..k + 1]) >= 3)
    case _ => false
  }

  predicate Condemned(w: seq<Event>) {
    exists k | 0 <= k < |w| :: CondemnedBy(w, k)
  }

  lemma CondemnedStep(w: seq<Event>)
    requires w != []
    ensures Condemned(w) <==> Condemned(w[..|w| - 1]) || CondemnedBy(w, |w| - 1)
  {
    var v := w[..|w| - 1];
    forall k | 0 <= k < |v|
      ensures CondemnedBy(v, k) <==> CondemnedBy(w, k)
    {
      assert v[..k + 1] == w[..k + 1];
    }
  }

  /** The evidence an entry holds is the evidence in these events. */
  predicate HoldsEvidence(e: Entry, w: seq<Event>) {
    && e.windowPolls == WindowPolls(w)
    && e.settledPolls == FormlessPolls(w)
    && (e.verified <==> IdleVerdict(true) in w)
    && e.rejected == if Condemned(w) then e.accepted.timestamp else 0
  }

  /** What a pane's memory is, as a function of its history: the first-seen value of
      greatest timestamp since it was last cleared, and the evidence since that
      value arrived. */
  predicate Remembers(h: seq<Event>, i: nat, e: Entry) {
    && FirstGreatest(h, LifeStart(h), i)
    && Some(e.accepted) == h[i].shown
    && HoldsEvidence(e, h[i + 1..])
  }

  lemma CountsStep(v: seq<Event>, ev: Event)
    ensures var w := v + [ev];
      && WindowPolls(w) == WindowPolls(v) + (if ev.IdleVerdict? then 1 else 0)
      && FormlessPolls(w) == (if !ev.BlockedVerdict? || ev.changed then FormlessPolls(v)
                              else if ev.formOnScreen then 0 else FormlessPolls(v) + 1)
      && (IdleVerdict(true) in w <==> IdleVerdict(true) in v || ev == IdleVerdict(true))
      && (Condemned(w) <==> Condemned(v) || CondemnedBy(w, |v|))
  {
    var w := v + [ev];
    assert w[..|w| - 1] == v && w[|w| - 1] == ev;
    CondemnedStep(w);
  }

  lemma EvidenceStep(e: Entry, v: seq<Event>, ev: Event)
    requires !Clears(ev) && (Shows(ev) ==> Stamp(ev) <= e.accepted.timestamp)
    requires HoldsEvidence(e, v)
    ensures var s := Apply(Some(e), ev);
      s.Some? && s.value.accepted == e.accepted && HoldsEvidence(s.value, v + [ev])
  {
    var w := v + [ev];
    CountsStep(v, ev);
    assert w[..|v| + 1] == w;
  }

  lemma NothingSaidYet(rep: Report)
    ensures HoldsEvidence(Entry(rep, 0, false, 0, 0), [])
  {
  }

  lemma NewerIsGreatest(before: seq<Event>, b: nat, ev: Event)
    requires b <= |before| && Shows(ev)
    requires forall j | b <= j < |before| && Shows(before[j]) :: Stamp(before[j]) < Stamp(ev)
    ensures FirstGreatest(before + [ev], b, |before|)
  {
    assert forall j | 0 <= j < |before| :: (before + [ev])[j] == before[j];
  }

  lemma NewerValueIsRemembered(before: seq<Event>, ev: Event)
    requires Shows(ev)
    requires forall j | LifeStart(before) <= j < |before| && Shows(before[j]) :: Stamp(before[j]) < Stamp(ev)
    ensures Remembers(before + [ev], |before|, Entry(ev.shown.value, 0, false, 0, 0))
  {
    var h := before + [ev];
    assert LifeStart(h) == LifeStart(before) by {
      assert h[..|h| - 1] == before;
    }
    NewerIsGreatest(before, LifeStart(before), ev);
    NothingSaidYet(ev.shown.value);
    assert h[|before| + 1..] == [];
  }

  lemma OlderValueIsNotRemembered(before: seq<Event>, ev: Event, i: nat, e: Entry)
    requires !Clears(ev) && Remembers(before, i, e)
    requires Shows(ev) ==> Stamp(ev) <= e.accepted.timestamp
    ensures var s := Apply(Some(e), ev); s.Some? && Remembers(before + [ev], i, s.value)
  {
    var h := before + [ev];
    assert h[..|h| - 1] == before;
    EvidenceStep(e, before[i + 1..], ev);
    assert h[i + 1..] == before[i + 1..] + [ev];
  }

  lemma {:induction false} MemoryIsItsHistory(h: seq<Event>) returns (i: nat)
    ensures EntryAfter(h).None? <==> forall j | LifeStart(h) <= j < |h| :: !Shows(h[j])
    ensures EntryAfter(h).Some? ==> Remembers(h, i, EntryAfter(h).value)
  {
    i := 0;
    if h != [] {
      var before, ev := h[..|h| - 1], h[|h| - 1];
      i := MemoryIsItsHistory(before);
      assert h == before + [ev];
      if !Clears(ev) {
        var e := EntryAfter(before);
        if Shows(ev) && (e.None? || Stamp(ev) > e.value.accepted.timestamp) {
          NewerValueIsRemembered(before, ev);
          i := |before|;
        } else if e.Some? {
          OlderValueIsNotRemembered(before, ev, i, e.value);
        }
      }
    }
  }

  lemma FirstGreatestIsUnique(h: seq<Event>, b: nat, i: nat, k: nat)
    requires FirstGreatest(h, b, i) && FirstGreatest(h, b, k)
    ensures i == k
  {
  }

  /** r is the first-seen value of greatest timestamp since the pane was last cleared,
      no evidence since it arrived has condemned it, and if it is a working report it is
      at most a minute old. */
  predicate StandsFrom(h: seq<Event>, i: nat, r: Report, now: int) {
    && FirstGreatest(h, LifeStart(h), i) && h[i].shown == Some(r) && !Condemned(h[i + 1..])
    && (r.state == Working ==> now - r.timestamp * 1_000_000 <= 60_000_000_000)
  }

  /** The report in force is a function of history. */
  lemma InForceIsItsHistory(h: seq<Event>, now: int, r: Report)
    ensures InForce(EntryAfter(h), now) == Some(r) <==> exists i: nat :: StandsFrom(h, i, r, now)
  {
    var i := MemoryIsItsHistory(h);
    if InForce(EntryAfter(h), now) == Some(r) {
      assert StandsFrom(h, i, r, now);
    }
    if k: nat :| StandsFrom(h, k, r, now) {
      assert Shows(h[k]) && EntryAfter(h).Some?;
      FirstGreatestIsUnique(h, LifeStart(h), i, k);
    }
  }

  /** So a working report is in force for its minute and a resting one for as long as
      nothing newer is shown and nothing condemns it. */
  lemma InForceUntil(h: seq<Event>, now: int, i: nat, r: Report)
    requires FirstGreatest(h, LifeStart(h), i) && h[i].shown == Some(r) && !Condemned(h[i + 1..])
    ensures InForce(EntryAfter(h), now)
      == if r.state != Working || now - r.timestamp * 1_000_000 <= 60_000_000_000 then Some(r) else None
  {
    var k := MemoryIsItsHistory(h);
    assert Shows(h[i]) && EntryAfter(h).Some?;
    FirstGreatestIsUnique(h, LifeStart(h), i, k);
  }

  /** A value that arrives late changes nothing, whichever order it arrives in: when
      no two different values share a timestamp, what is accepted depends only on
      which values were shown. */
  lemma ArrivalOrderIsIrrelevant(g: seq<Event>, h: seq<Event>)
    requires LifeStart(g) == LifeStart(h) == 0
    requires forall ev | Shows(ev) :: ev in g <==> ev in h
    requires forall p, q | p in g && q in g && Shows(p) && Shows(q) && Stamp(p) == Stamp(q) :: p == q
    ensures EntryAfter(g).Some? == EntryAfter(h).Some?
    ensures EntryAfter(g).Some? ==> EntryAfter(g).value.accepted == EntryAfter(h).value.accepted
  {
    var i := MemoryIsItsHistory(g);
    var j := MemoryIsItsHistory(h);
    if EntryAfter(g).Some? {
      assert g[i] in h;
    }
    if EntryAfter(h).Some? {
      assert h[j] in g;
    }
  }

  /** Carrying on from a memory through further events. */
  function Resume(e: Option<Entry>, more: seq<Event>): Option<Entry>
    decreases |more|
  {
    if more == [] then e else Resume(Apply(e, more[0]), more[1..])
  }

  lemma {:induction false} ResumeIsAfter(h: seq<Event>, more: seq<Event>)
    ensures Resume(EntryAfter(h), more) == EntryAfter(h + more)
    decreases |more|
  {
    if more == [] {
      assert h + more == h;
    } else {
      ResumeIsAfter(h + [more[0]], more[1..]);
      assert h + [more[0]] + more[1..] == h + more;
      assert (h + [more[0]])[..|h|] == h;
    }
  }

  /** A rejected report stays out of force until the pane is cleared or a strictly
      newer value is shown: no re-read of the standing value, no late older write
      and no later evidence brings it back. */
  lemma {:induction false} RejectionHolds(e: Entry, more: seq<Event>, now: int)
    requires e.rejected == e.accepted.timestamp
    requires forall k | 0 <= k < |more| :: !Clears(more[k]) && (Shows(more[k]) ==> Stamp(more[k]) <= e.accepted.timestamp)
    ensures var s := Resume(Some(e), more);
      && s.Some? && s.value.accepted == e.accepted && s.value.rejected == e.rejected
      && InForce(s, now).None?
    decreases |more|
  {
    if more != [] {
      var s := Apply(Some(e), more[0]).value;
      assert s.accepted == e.accepted && s.rejected == e.rejected;
      RejectionHolds(s, more[1..], now);
    }
  }

  /** The rejection slot never holds anything but the report it condemned. */
  lemma RejectionSlot(h: seq<Event>)
    ensures EntryAfter(h).Some? ==> EntryAfter(h).value.rejected in {0, EntryAfter(h).value.accepted.timestamp}
    ensures EntryAfter(h).Some? ==> EntryAfter(h).value.accepted.timestamp > 0
  {
    var i := MemoryIsItsHistory(h);
  }
}
