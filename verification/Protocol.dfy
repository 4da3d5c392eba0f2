/** The report protocol as a whole: any number of writer processes, each stamping,
    perhaps reading, and writing one pane's option at moments of its own, and one
    daemon that looks at the option when it polls
    (internal/report/events.go, cmd/tmux-web/report.go, internal/tmux/reports.go). */
module Protocol {
  import opened Prelude
  import opened ReportTypes
  import opened ReportCodec
  import E = Events
  import R = Reports
  import W = Writer

  /** A live writer: a re-assertion that has stamped and has yet to read, or any writer
      that has yet to set the value it settled on. */
  datatype Process =
    | Looking(state: AgentState, ms: int, activity: string, fromStanding: bool)
    | Holding(value: string)

  /** The pane's option (none: never set), the clock at the daemon's last poll, the
      daemon's memory of the pane, and the writers still running. */
  datatype System = System(option: Option<string>, clock: int, daemon: Option<R.Entry>, writers: map<nat, Process>)

  datatype Step =
    | Edge(id: nat, state: AgentState, ms: int, activity: string)
    | Repair(id: nat, state: AgentState, ms: int, activity: string, fromStanding: bool)
    | Look(id: nat, ok: bool)
    | Set(id: nat)
    | Die(id: nat)
    | Poll(now: int)
    | Evidence(ev: R.Event)
    | Forget

  const INITIAL := System(None, 0, None, map[])

  /** Any interleaving: a writer may start, go on or die at any time, and its stamp is
      whatever its own clock said. Only the daemon's clock does not run backwards. */
  predicate Enabled(s: System, step: Step) {
    match step
    case Edge(id, _, ms, _) => id !in s.writers && 0 < ms <= MAX_INT64
    case Repair(id, _, ms, _, _) => id !in s.writers && 0 < ms <= MAX_INT64
    case Look(id, _) => id in s.writers && s.writers[id].Looking?
    case Set(id) => id in s.writers && s.writers[id].Holding?
    case Die(id) => id in s.writers
    case Poll(now) => s.clock <= now
    case Evidence(ev) => ev.IdleVerdict? || ev.BlockedVerdict?
    case Forget => true
  }

  /** What a re-assertion finds when it looks. */
  function Found(wire: Wire, s: System, p: Process, ok: bool): Reading
    requires p.Looking?
  {
    W.Standing(wire.parse, if ok then s.option else None, p.ms)
  }

  function Shown(wire: Wire, s: System, now: int): Reading {
    if s.option.None? then None else wire.parse(s.option.value, now)
  }

  /** A re-assertion after its look: withheld, or about to write. */
  function Looked(wire: Wire, p: Process, found: Reading): Option<Process>
    requires p.Looking?
  {
    var stamp := W.ReassertedStamp(found, p.state, p.ms, p.fromStanding);
    if stamp.None? then None else Some(Holding(wire.format(p.state, stamp.value, p.activity)))
  }

  function Become(writers: map<nat, Process>, id: nat, p: Option<Process>): map<nat, Process> {
    if p.None? then writers - {id} else writers[id := p.value]
  }

  function Do(wire: Wire, s: System, step: Step): System
    requires Enabled(s, step)
  {
    match step
    case Edge(id, state, ms, activity) =>
      s.(writers := s.writers[id := Holding(wire.format(state, ms, activity))])
    case Repair(id, state, ms, activity, fromStanding) =>
      s.(writers := s.writers[id := Looking(state, ms, activity, fromStanding)])
    case Look(id, ok) =>
      s.(writers := Become(s.writers, id, Looked(wire, s.writers[id], Found(wire, s, s.writers[id], ok))))
    case Set(id) => s.(option := Some(s.writers[id].value), writers := s.writers - {id})
    case Die(id) => s.(writers := s.writers - {id})
    case Poll(now) => s.(clock := now, daemon := R.Seen(s.daemon, Shown(wire, s, now)))
    case Evidence(ev) => s.(daemon := R.Apply(s.daemon, ev))
    case Forget => s.(daemon := None)
  }

  predicate Allowed(wire: Wire, s: System, steps: seq<Step>)
    decreases |steps|
  {
    steps == [] || (Enabled(s, steps[0]) && Allowed(wire, Do(wire, s, steps[0]), steps[1..]))
  }

  function Run(wire: Wire, s: System, steps: seq<Step>): System
    requires Allowed(wire, s, steps)
    decreases |steps|
  {
    if steps == [] then s else Run(wire, Do(wire, s, steps[0]), steps[1..])
  }

  // ------------------------------------------------------------------- the promise

  /** A report that cannot move a finish dated t: older, or that finish itself. */
  predicate Fits(state: AgentState, timestamp: int, t: int) {
    timestamp < t || (timestamp == t && state == Idle)
  }

  /** Whoever reads this value, whenever, cannot be told of anything past t, and a
      reader whose clock has reached t is told something. */
  ghost predicate ValueFits(wire: Wire, v: string, t: int) {
    forall now: int ::
      && (wire.parse(v, now).Some? ==> Fits(wire.parse(v, now).value.state, wire.parse(v, now).value.timestamp, t))
      && (t <= UnixMilli(now) + FUTURE_SKEW_MS ==> wire.parse(v, now).Some?)
  }

  /** What is asked of the writers: edges stamped before t, or idle edges at t; idle
      re-assertions dated from the standing report; and a re-assertion that finds no
      report at all is itself not stamped after t. */
  predicate Orderly(wire: Wire, s: System, step: Step, t: int)
    requires Enabled(s, step)
  {
    match step
    case Edge(_, state, ms, _) => Fits(state, ms, t)
    case Repair(_, state, _, _, fromStanding) => state == Idle && fromStanding
    case Look(id, ok) => Found(wire, s, s.writers[id], ok).Some? || s.writers[id].ms <= t
    case _ => true
  }

  /** A process writes at most once: once it has set its value, or died, it is gone. */
  lemma WritesOnce(wire: Wire, s: System, id: nat)
    ensures Enabled(s, Set(id)) ==>
              var t := Do(wire, s, Set(id));
              t.option == Some(s.writers[id].value) && id !in t.writers && !Enabled(t, Set(id)) && !Enabled(t, Die(id))
    ensures Enabled(s, Die(id)) ==> var t := Do(wire, s, Die(id)); t.option == s.option && id !in t.writers
  {
  }

  /** A daemon that forgets the pane takes what the option then shows as a first sight, with
      no evidence against it and none for it. */
  lemma SeenAfresh(wire: Wire, s: System, now: int)
    requires s.clock <= now
    ensures var forgot := Do(wire, s, Forget);
      var shown := if s.option.None? then None else wire.parse(s.option.value, now);
      && forgot.daemon == None && forgot.option == s.option && forgot.clock == s.clock
      && Do(wire, forgot, Poll(now)).daemon == if shown.Some? then Some(R.Entry(shown.value, 0, false, 0, 0)) else None
  {
  }

  /** Four polls that do not find the screen settled overturn an idle report nothing has
      verified: from then on nothing is in force. */
  lemma EvidenceOverturns(wire: Wire, s: System, rep: Report, now: int)
    requires s.daemon == Some(R.Entry(rep, 0, false, 0, 0)) && rep.state == Idle && rep.timestamp > 0
    ensures var no := Evidence(R.IdleVerdict(false));
      var three := Do(wire, Do(wire, Do(wire, s, no), no), no);
      R.InForce(three.daemon, now) == Some(rep) && R.InForce(Do(wire, three, no).daemon, now) == None
  {
  }

  /** Only writers' starts and looks are ever restrained: whatever the state, a writer may
      die, one that holds a value may set it, and the daemon may poll at any later time,
      weigh evidence or forget the pane. */
  lemma NothingElseIsAsked(wire: Wire, s: System, id: nat, now: int, ev: R.Event, t: int)
    requires ev.IdleVerdict? || ev.BlockedVerdict?
    ensures Enabled(s, Forget) && Orderly(wire, s, Forget, t) && Enabled(s, Evidence(ev)) && Orderly(wire, s, Evidence(ev), t)
    ensures s.clock <= now ==> Enabled(s, Poll(now)) && Orderly(wire, s, Poll(now), t)
    ensures id in s.writers ==> Enabled(s, Die(id)) && Orderly(wire, s, Die(id), t)
    ensures id in s.writers && s.writers[id].Holding? ==> Enabled(s, Set(id)) && Orderly(wire, s, Set(id), t)
  {
  }

  predicate OrderlyRun(wire: Wire, s: System, steps: seq<Step>, t: int)
    requires Allowed(wire, s, steps)
    decreases |steps|
  {
    steps == [] || (Orderly(wire, s, steps[0], t) && OrderlyRun(wire, Do(wire, s, steps[0]), steps[1..], t))
  }

  ghost predicate WriterFits(wire: Wire, p: Process, t: int) {
    match p
    case Looking(state, ms, _, fromStanding) => state == Idle && fromStanding && 0 < ms <= MAX_INT64
    case Holding(value) => ValueFits(wire, value, t)
  }

  /** Nothing stored, held or about to be written can move a finish dated t. */
  ghost predicate Calm(wire: Wire, s: System, t: int) {
    && (s.option.Some? ==> ValueFits(wire, s.option.value, t))
    && (forall id | id in s.writers :: WriterFits(wire, s.writers[id], t))
    && (s.daemon.Some? ==> Fits(s.daemon.value.accepted.state, s.daemon.value.accepted.timestamp, t))
  }

  lemma FormattedFits(wire: Wire, state: AgentState, ms: int, activity: string, t: int)
    requires Faithful(wire) && 0 < ms <= MAX_INT64 && Fits(state, ms, t)
    ensures ValueFits(wire, wire.format(state, ms, activity), t)
  {
    var v := wire.format(state, ms, activity);
    forall now: int
      ensures wire.parse(v, now).Some? ==> Fits(wire.parse(v, now).value.state, wire.parse(v, now).value.timestamp, t)
      ensures t <= UnixMilli(now) + FUTURE_SKEW_MS ==> wire.parse(v, now).Some?
    {
      assert ReadsBack(wire, state, ms, activity, now);
    }
  }

  /** The heart of it. A repair that finds a report dates itself one past that report:
      the finish itself it leaves alone, so it lands at t at the latest. */
  lemma LookFits(wire: Wire, p: Process, found: Reading, t: int)
    requires Faithful(wire) && p.Looking? && WriterFits(wire, p, t)
    requires if found.Some? then Fits(found.value.state, found.value.timestamp, t) else p.ms <= t
    ensures var q := Looked(wire, p, found); q.Some? ==> WriterFits(wire, q.value, t)
  {
    var stamp := W.ReassertedStamp(found, p.state, p.ms, p.fromStanding);
    if stamp.Some? {
      FormattedFits(wire, Idle, stamp.value, p.activity, t);
    }
  }

  lemma StepIsCalm(wire: Wire, s: System, step: Step, t: int)
    requires Faithful(wire) && Calm(wire, s, t) && Enabled(s, step) && Orderly(wire, s, step, t)
    ensures Calm(wire, Do(wire, s, step), t)
  {
    match step
    case Edge(id, state, ms, activity) => FormattedFits(wire, state, ms, activity, t);
    case Look(id, ok) => LookFits(wire, s.writers[id], Found(wire, s, s.writers[id], ok), t);
    case Set(id) => assert WriterFits(wire, s.writers[id], t);
    case _ =>
  }

  /** In every interleaving no option value, no value about to be written and no report
      the daemon holds, forgotten and re-read as often as it likes, is dated after t,
      and whatever is dated t is idle. */
  lemma {:induction false} NothingPassesTheFinish(wire: Wire, s: System, steps: seq<Step>, t: int)
    requires Faithful(wire) && Calm(wire, s, t) && Allowed(wire, s, steps) && OrderlyRun(wire, s, steps, t)
    ensures Calm(wire, Run(wire, s, steps), t)
    decreases |steps|
  {
    if steps != [] {
      StepIsCalm(wire, s, steps[0], t);
      NothingPassesTheFinish(wire, Do(wire, s, steps[0]), steps[1..], t);
    }
  }

  /** The daemon never holds a report its clock does not believe, nor one with no option
      behind it. */
  predicate Believed(s: System) {
    s.daemon.Some? ==> s.option.Some? && s.daemon.value.accepted.timestamp <= UnixMilli(s.clock) + FUTURE_SKEW_MS
  }

  lemma StepIsBelieved(wire: Wire, s: System, step: Step)
    requires Faithful(wire) && Believed(s) && Enabled(s, step)
    ensures Believed(Do(wire, s, step))
  {
    match step
    case Evidence(ev) =>
      assert s.daemon.Some? ==> R.Apply(s.daemon, ev).value.accepted == s.daemon.value.accepted;
    case _ =>
  }

  lemma {:induction false} RunIsBelieved(wire: Wire, s: System, steps: seq<Step>)
    requires Faithful(wire) && Believed(s) && Allowed(wire, s, steps)
    ensures Believed(Run(wire, s, steps))
    decreases |steps|
  {
    if steps != [] {
      StepIsBelieved(wire, s, steps[0]);
      RunIsBelieved(wire, Do(wire, s, steps[0]), steps[1..]);
    }
  }

  /** One step leaves an accepted finish standing. */
  lemma StepKeepsTheFinish(wire: Wire, s: System, step: Step, t: int, finish: Report)
    requires Believed(s) && Calm(wire, s, t) && Enabled(s, step) && !step.Forget?
    requires s.daemon.Some? && s.daemon.value.accepted == finish && finish.timestamp == t
    ensures var d := Do(wire, s, step).daemon; d.Some? && d.value.accepted == finish
  {
    match step
    case Poll(now) => assert t <= UnixMilli(now) + FUTURE_SKEW_MS && Shown(wire, s, now).Some?;
    case _ =>
  }

  /** No re-dated finish: once the daemon has accepted idle;t, no interleaving of older
      edges, re-assertions, polls and evidence makes it hold anything else. */
  lemma {:induction false} NoRedatedFinish(wire: Wire, s: System, steps: seq<Step>, t: int, finish: Report)
    requires Faithful(wire) && Believed(s) && Calm(wire, s, t)
    requires Allowed(wire, s, steps) && OrderlyRun(wire, s, steps, t) && Forget !in steps
    requires s.daemon.Some? && s.daemon.value.accepted == finish && finish.timestamp == t
    ensures var d := Run(wire, s, steps).daemon; d.Some? && d.value.accepted == finish
    decreases |steps|
  {
    if steps != [] {
      StepIsCalm(wire, s, steps[0], t);
      StepIsBelieved(wire, s, steps[0]);
      StepKeepsTheFinish(wire, s, steps[0], t, finish);
      NoRedatedFinish(wire, Do(wire, s, steps[0]), steps[1..], t, finish);
    }
  }

  /** The protocol's promise, over whole runs from an option never set. However the run
      reached the poll that accepted idle;t, and however it goes on until an edge from
      t or later, the only report that can be in force afterwards is that same one, and
      the option never holds anything a first sight could date later. */
  lemma FinishStaysPut(before: seq<Step>, more: seq<Step>, t: int, finish: Report, now: int)
    requires Allowed(CODEC, INITIAL, before) && OrderlyRun(CODEC, INITIAL, before, t)
    requires var s := Run(CODEC, INITIAL, before);
      && Allowed(CODEC, s, more) && OrderlyRun(CODEC, s, more, t) && Forget !in more
      && s.daemon.Some? && s.daemon.value.accepted == finish && finish.timestamp == t
    ensures finish.state == Idle
    ensures Calm(CODEC, Run(CODEC, Run(CODEC, INITIAL, before), more), t)
    ensures R.InForce(Run(CODEC, Run(CODEC, INITIAL, before), more).daemon, now) in {None, Some(finish)}
  {
    var s := Run(CODEC, INITIAL, before);
    CodecIsFaithful();
    NothingPassesTheFinish(CODEC, INITIAL, before, t);
    RunIsBelieved(CODEC, INITIAL, before);
    NothingPassesTheFinish(CODEC, s, more, t);
    NoRedatedFinish(CODEC, s, more, t, finish);
  }

  // ------------------------------------------------------- the writers are these steps

  /** An edge's process is one step: what it holds afterwards is what the writer sets, by
      any clock that has not fallen more than the skew behind its stamp; past that the
      writer's own check refuses the value, and the process dies without a write. */
  lemma EdgeIsAWriter(s: System, id: nat, i: W.Intent, ms: int, out: Option<string>, now: int)
    requires !i.reassert && id !in s.writers && 0 < ms <= MAX_INT64
    ensures var p := Do(CODEC, s, Edge(id, i.state, ms, i.text)).writers[id];
      p.Holding? && W.Written(i, ms, out, now) == if ms <= UnixMilli(now) + FUTURE_SKEW_MS then Some(p.value) else None
  {
    ReportRoundTrip(i.state, ms, i.text, now);
  }

  /** A re-assertion's process is a stamp and then a look: whatever became of the system in
      between, it is gone exactly when the writer withholds, and otherwise holds what the
      writer sets, by a clock no further behind. */
  lemma RepairIsAWriter(s: System, id: nat, i: W.Intent, ms: int, ok: bool, now: int)
    requires i.reassert && id in s.writers && s.writers[id] == Looking(i.state, ms, i.text, i.fromStanding)
    requires 0 < ms <= MAX_INT64
    ensures var out := if ok then s.option else None;
      var after := Do(CODEC, s, Look(id, ok)).writers;
      var stamp := W.StampFor(i, ms, out);
      && (id in after <==> stamp.Some?) && (id in after ==> after[id].Holding?)
      && W.Written(i, ms, out, now)
         == if id in after && stamp.value <= UnixMilli(now) + FUTURE_SKEW_MS then Some(after[id].value) else None
  {
    var out := if ok then s.option else None;
    W.NeverDatedAhead(W.Standing(PARSER, out, ms), i.state, ms, i.fromStanding);
    var stamp := W.StampFor(i, ms, out);
    if stamp.Some? {
      ReportRoundTrip(i.state, stamp.value, i.text, now);
    }
  }

  /** Every re-assertion a request can lead to by the shipped table is one the promise
      allows, whatever finish it is about. */
  lemma ShippedRepairsAreOrderly(s: System, id: nat, q: W.Request, ms: int, t: int)
    requires var i := W.Intended(E.RULES, q); i.Some? && i.value.reassert
    requires id !in s.writers && 0 < ms <= MAX_INT64
    ensures var i := W.Intended(E.RULES, q).value;
      Orderly(CODEC, s, Repair(id, i.state, ms, i.text, i.fromStanding), t)
  {
    W.IntentsAreOrderly(q);
  }

  // -------------------------------------------------------- why each part is needed

  lemma Peel(wire: Wire, s: System, step: Step, rest: seq<Step>)
    requires Enabled(s, step) && Allowed(wire, Do(wire, s, step), rest)
    ensures Allowed(wire, s, [step] + rest) && Run(wire, s, [step] + rest) == Run(wire, Do(wire, s, step), rest)
  {
    assert ([step] + rest)[1..] == rest;
  }

  /** A turn ends at t and the daemon sees it; a working edge stamped earlier lands late;
      a repair stamped ms looks at what the edge left, writes, and the daemon polls. */
  function JitterStart(late: int, t: int, ms: int): seq<Step> {
    [Edge(0, Working, late, "")] + ([Edge(1, Idle, t, "")] + ([Set(1)] + ([Poll(FromMilli(ms))] + [])))
  }

  function JitterRest(ms: int, fromStanding: bool): seq<Step> {
    [Set(0)] + ([Repair(2, Idle, ms, "", fromStanding)] + ([Look(2, true)] + ([Set(2)] + ([Poll(FromMilli(ms))] + []))))
  }

  /** The daemon has just accepted this report. */
  predicate JustAccepted(d: Option<R.Entry>, state: AgentState, ms: int) {
    d.Some? && d.value.accepted.state == state && d.value.accepted.timestamp == ms
  }

  /** After the start: the finish accepted and standing, the late edge still to land. */
  predicate Jittered(wire: Wire, s: System, late: int, t: int, ms: int) {
    && s.clock == FromMilli(ms) && JustAccepted(s.daemon, Idle, t)
    && s.writers == map[0 := Holding(wire.format(Working, late, ""))]
  }

  lemma JitterBegins(wire: Wire, late: int, t: int, ms: int)
    requires Faithful(wire) && 0 < late <= t < ms <= MAX_INT64
    ensures Allowed(wire, INITIAL, JitterStart(late, t, ms))
    ensures Jittered(wire, Run(wire, INITIAL, JitterStart(late, t, ms)), late, t, ms)
  {
    var s1 := Do(wire, INITIAL, Edge(0, Working, late, ""));
    var s2 := Do(wire, s1, Edge(1, Idle, t, ""));
    var s3 := Do(wire, s2, Set(1));
    assert s3.writers == s1.writers;
    assert ReadsBack(wire, Idle, t, "", FromMilli(ms));
    Peel(wire, s3, Poll(FromMilli(ms)), []);
    Peel(wire, s2, Set(1), [Poll(FromMilli(ms))] + []);
    Peel(wire, s1, Edge(1, Idle, t, ""), [Set(1)] + ([Poll(FromMilli(ms))] + []));
    Peel(wire, INITIAL, Edge(0, Working, late, ""), [Edge(1, Idle, t, "")] + ([Set(1)] + ([Poll(FromMilli(ms))] + [])));
  }

  /** What the jitter does to the finish. Dated from the standing report it stays at t;
      dated from now it moves to ms, which is the badge storm; and a working edge stamped
      in the finish's own millisecond, which the promise leaves out, moves it by one. */
  lemma JitterEnds(wire: Wire, s: System, late: int, t: int, ms: int, fromStanding: bool)
    requires Faithful(wire) && 0 < late <= t < ms <= MAX_INT64 && Jittered(wire, s, late, t, ms)
    ensures Allowed(wire, s, JitterRest(ms, fromStanding))
    ensures JustAccepted(Run(wire, s, JitterRest(ms, fromStanding)).daemon, Idle,
                         if !fromStanding then ms else if late == t then t + 1 else t)
  {
    var s1 := Do(wire, s, Set(0));
    var s2 := Do(wire, s1, Repair(2, Idle, ms, "", fromStanding));
    assert ReadsBack(wire, Working, late, "", FromMilli(ms));
    var stamp := if fromStanding then late + 1 else ms;
    var s3 := Do(wire, s2, Look(2, true));
    assert s3.writers[2] == Holding(wire.format(Idle, stamp, ""));
    var s4 := Do(wire, s3, Set(2));
    assert ReadsBack(wire, Idle, stamp, "", FromMilli(ms));
    Peel(wire, s4, Poll(FromMilli(ms)), []);
    Peel(wire, s3, Set(2), [Poll(FromMilli(ms))] + []);
    Peel(wire, s2, Look(2, true), [Set(2)] + ([Poll(FromMilli(ms))] + []));
    Peel(wire, s1, Repair(2, Idle, ms, "", fromStanding), [Look(2, true)] + ([Set(2)] + ([Poll(FromMilli(ms))] + [])));
    Peel(wire, s, Set(0), [Repair(2, Idle, ms, "", fromStanding)] + ([Look(2, true)] + ([Set(2)] + ([Poll(FromMilli(ms))] + []))));
  }

  /** And why a blind repair is asked not to be stamped late: one whose read fails dates
      itself from now even over the finish it agrees with, and moves it. */
  function BlindRepair(ms: int): seq<Step> {
    [Repair(2, Idle, ms, "", true)] + ([Look(2, false)] + ([Set(2)] + ([Poll(FromMilli(ms))] + [])))
  }

  lemma FailedReadRedates(wire: Wire, s: System, t: int, ms: int)
    requires Faithful(wire) && 0 < t < ms <= MAX_INT64 && s.clock <= FromMilli(ms) && 2 !in s.writers
    requires JustAccepted(s.daemon, Idle, t)
    ensures Allowed(wire, s, BlindRepair(ms))
    ensures JustAccepted(Run(wire, s, BlindRepair(ms)).daemon, Idle, ms)
  {
    var s1 := Do(wire, s, Repair(2, Idle, ms, "", true));
    var s2 := Do(wire, s1, Look(2, false));
    var s3 := Do(wire, s2, Set(2));
    assert ReadsBack(wire, Idle, ms, "", FromMilli(ms));
    Peel(wire, s3, Poll(FromMilli(ms)), []);
    Peel(wire, s2, Set(2), [Poll(FromMilli(ms))] + []);
    Peel(wire, s1, Look(2, false), [Set(2)] + ([Poll(FromMilli(ms))] + []));
    Peel(wire, s, Repair(2, Idle, ms, "", true), [Look(2, false)] + ([Set(2)] + ([Poll(FromMilli(ms))] + [])));
  }
}
