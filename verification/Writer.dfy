/** The writer half of the report protocol (cmd/tmux-web/report.go): one short-lived
    process stamps a time, reads the pane's option if its event is a re-assertion,
    and writes it. */
module Writer {
  import opened Prelude
  import opened ReportTypes
  import opened ReportCodec
  import E = Events
  import R = Reports

  /** A standing report that leaves a re-assertion with nothing to say: it already
      says so, or it is not older. */
  predicate Supersedes(rep: Report, state: AgentState, ms: int) {
    rep.state == state || rep.timestamp >= ms
  }

  /** The timestamp a re-assertion writes under, or nothing to write. The reading is
      by the writer's own stamp; a failed or unreadable read is no report at all. */
  function ReassertedStamp(standing: Reading, state: AgentState, ms: int, fromStanding: bool): (stamp: Option<int>) {
    if standing.None? then Some(ms)
    else if Supersedes(standing.value, state, ms) then None
    else if !fromStanding then Some(ms)
    else Some(standing.value.timestamp + 1)
  }

  /** What the option shows to a writer stamped ms. No value: the read failed, which
      is also how an unset option answers. */
  function Standing(parse: Parser, out: Option<string>, ms: int): Reading {
    if out.None? then None else parse(out.value, FromMilli(ms))
  }

  // ------------------------------------------------------------------- one process

  /** The command line and, for the integration form, the decoded payload and the
      activity line it carries. A payload of another session is not usable. */
  datatype Request = Request(state: string, text: string, agent: string, event: string,
                             usable: bool, payload: E.Payload, activity: string)

  datatype Intent = Intent(state: AgentState, text: string, reassert: bool, fromStanding: bool)

  predicate Manual(q: Request) {
    q.state != "" || q.text != ""
  }

  predicate Integration(q: Request) {
    q.agent != "" || q.event != ""
  }

  /** What a request asks to be written, if anything, by a table of rules. */
  function Intended(rules: map<string, E.AgentTable>, q: Request): Option<Intent> {
    if Manual(q) && Integration(q) then None
    else if Integration(q) then
      if q.agent == "" || q.event == "" || !q.usable then None
      else
        var m := E.LookupIn(rules, q.agent, q.event, q.payload);
        if m.None? || m.value.state.None? then None
        else Some(Intent(m.value.state.value, q.activity, E.Reasserts(m.value), E.DatesFromStanding(m.value)))
    else if StateNamed(q.state).None? then None
    else Some(Intent(StateNamed(q.state).value, q.text, false, false))
  }

  function StampFor(i: Intent, ms: int, out: Option<string>): Option<int> {
    if i.reassert then ReassertedStamp(Standing(PARSER, out, ms), i.state, ms, i.fromStanding) else Some(ms)
  }

  /** The value a process stamped ms writes when its read gives out and its clock
      reads now at the end. */
  function Written(i: Intent, ms: int, out: Option<string>, now: int): Option<string> {
    var stamp := StampFor(i, ms, out);
    if stamp.None? then None
    else
      var value := FormatReport(i.state, stamp.value, i.text);
      if ParseReport(value, now).None? then None else Some(value)
  }

  /** runReport's first half: which form was used, and what the table says of it. */
  method ReadRequest(rules: map<string, E.AgentTable>, q: Request) returns (intent: Option<Intent>)
    ensures intent == Intended(rules, q)
  {
    var manual, integration := q.state != "" || q.text != "", q.agent != "" || q.event != "";
    if manual && integration {
      return None;
    }
    if integration && (q.agent == "" || q.event == "") {
      return None;
    }
    var state, text := StateNamed(q.state), q.text;
    var reassert, fromStanding := false, false;
    if integration {
      if !q.usable {
        return None;
      }
      var m := E.LookupIn(rules, q.agent, q.event, q.payload);
      if m.None? || m.value.state.None? {
        return None;
      }
      state, text := m.value.state, q.activity;
      reassert, fromStanding := E.Reasserts(m.value), E.DatesFromStanding(m.value);
    }
    if state.None? {
      return None;
    }
    return Some(Intent(state.value, text, reassert, fromStanding));
  }

  /** runReport, in the order it works: the stamp first, then the table, then the read,
      then the check of its own value. */
  method RunReport(rules: map<string, E.AgentTable>, q: Request, inPane: bool, ms: int, out: Option<string>, now: int)
    returns (value: Option<string>)
    ensures value == if inPane && Intended(rules, q).Some? then Written(Intended(rules, q).value, ms, out, now) else None
  {
    var intent := ReadRequest(rules, q);
    if intent.None? || !inPane {
      return None;
    }
    var stamp := ms;
    if intent.value.reassert {
      var s := ReassertedStamp(Standing(PARSER, out, stamp), intent.value.state, stamp, intent.value.fromStanding);
      if s.None? {
        return None;
      }
      stamp := s.value;
    }
    var v := FormatReport(intent.value.state, stamp, intent.value.text);
    if ParseReport(v, now).None? {
      return None;
    }
    return Some(v);
  }

  // ------------------------------------------------------------- the compare-and-swap

  /** A manual report is always an edge; an integration's is what the shipped table
      says, so it never reads only to date itself from now. */
  lemma IntentsAreOrderly(q: Request)
    requires Intended(E.RULES, q).Some?
    ensures var i := Intended(E.RULES, q).value;
      && (i.reassert ==> i.state == Idle && i.fromStanding)
      && (i.reassert <==> !Manual(q) && E.Restates(q.agent, q.event, q.payload))
  {
    if !Manual(q) {
      E.ShippedWrites(q.agent, q.event, q.payload);
    }
  }

  /** A write is never dated after the process that makes it. */
  lemma NeverDatedAhead(standing: Reading, state: AgentState, ms: int, fromStanding: bool)
    requires ms > 0
    ensures var s := ReassertedStamp(standing, state, ms, fromStanding); s.Some? ==> 0 < s.value <= ms
  {
  }

  /** Exactly when a re-assertion is withheld. In particular nothing is written over a
      report stamped from ms to five seconds past it, and past that skew, where the
      report does not read, the write goes ahead dated ms. */
  lemma WithheldExactly(out: string, rep: Report, state: AgentState, ms: int, fromStanding: bool)
    requires Decode(out) == Some(rep)
    ensures var s := ReassertedStamp(Standing(PARSER, Some(out), ms), state, ms, fromStanding);
      && (s.None? <==> rep.timestamp <= ms + FUTURE_SKEW_MS && (rep.state == state || rep.timestamp >= ms))
      && (rep.timestamp > ms + FUTURE_SKEW_MS ==> s == Some(ms))
  {
  }

  /** The daemon takes a value when its memory becomes that value's report. */
  predicate Takes(e: R.Entry, value: string, now: int) {
    var shown := ParseReport(value, now);
    shown.Some? && R.Seen(Some(e), shown) == Some(R.Entry(shown.value, 0, false, 0, 0)) && shown.value != e.accepted
  }

  /** A value dated stamp, read by a daemon whose clock has reached it, is taken
      exactly when it is newer than what the daemon holds. */
  lemma TakenWhenNewer(e: R.Entry, state: AgentState, stamp: int, text: string, now: int)
    requires 0 < stamp <= MAX_INT64 && stamp <= UnixMilli(now)
    ensures Takes(e, FormatReport(state, stamp, text), now) <==> e.accepted.timestamp < stamp
  {
    ReportRoundTrip(state, stamp, text, now);
  }

  /** A repair dated from the report its writer read is a compare-and-swap: a daemon
      takes it if and only if what it has accepted is no newer than that report. So a
      lost turn end is repaired, and a daemon that knows more than the option refuses. */
  lemma CompareAndSwap(out: string, rep: Report, state: AgentState, ms: int, text: string, e: R.Entry, now: int)
    requires 0 < ms <= MAX_INT64 && ms <= UnixMilli(now)
    requires Standing(PARSER, Some(out), ms) == Some(rep) && !Supersedes(rep, state, ms)
    ensures ReassertedStamp(Standing(PARSER, Some(out), ms), state, ms, true) == Some(rep.timestamp + 1)
    ensures Takes(e, FormatReport(state, rep.timestamp + 1, text), now) <==> e.accepted.timestamp <= rep.timestamp
  {
    TakenWhenNewer(e, state, rep.timestamp + 1, text, now);
  }

  /** Past the skew the writer overwrites a report it cannot read; a daemon that already
      holds that report still refuses the write. */
  lemma PastTheSkewIsRefused(out: string, rep: Report, state: AgentState, ms: int, text: string, e: R.Entry, now: int)
    requires 0 < ms <= MAX_INT64 && ms <= UnixMilli(now)
    requires Decode(out) == Some(rep) && rep.timestamp > ms + FUTURE_SKEW_MS && e.accepted == rep
    ensures ReassertedStamp(Standing(PARSER, Some(out), ms), state, ms, true) == Some(ms)
    ensures !Takes(e, FormatReport(state, ms, text), now)
  {
    TakenWhenNewer(e, state, ms, text, now);
  }
}
