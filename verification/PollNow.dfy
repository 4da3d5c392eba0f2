/** Forced polls (internal/tmux/poller.go): callers on any number of goroutines, one
    channel of capacity one, one pending batch under a lock, and the one goroutine
    that polls. Every step is what one goroutine does without another being able to
    come between. */
module PollNow {
  import opened Prelude

  /** Where the poll goroutine is. */
  datatype Loop =
    | Unstarted
    | Starting
    | FirstPoll
    | Selecting
    | TickTaken
    | TickPoll
    | Taken(batch: nat)
    | Ready(batch: nat)
    | ForcedPoll(batch: nat)
    | Answering(batch: nat)
    | Stopped

  datatype Why = First | Tick | Forced(batch: nat)

  /** One refresh, with the step it began and ended at. */
  datatype Refresh = Refresh(why: Why, began: nat, ended: Option<nat>)

  datatype Outcome = Fresh | GaveUp | Refused

  datatype Progress = Sending | Waiting | Returned(outcome: Outcome, at: nat)

  /** A call of PollNow: when it was made, the batch it joined, whether it found the
      loop's done channel published, and how far it has got. */
  datatype Call = Call(called: nat, batch: nat, done: bool, progress: Progress)

  /** A batch is a channel, numbered in the order they are made; `answered` holds the
      closed ones, each with the refresh that answered it. */
  datatype State = State(time: nat, pending: Option<nat>, next: nat, force: seq<nat>, answered: map<nat, nat>,
                         published: bool, cancelled: bool, loop: Loop, refreshes: seq<Refresh>, calls: map<nat, Call>)

  const INITIAL := State(0, None, 0, [], map[], false, false, Unstarted, [], map[])
  const CAPACITY := 1

  datatype Step =
    | Publish
    | Begin
    | End
    | TakeTick
    | TakeBatch
    | Clear
    | Close
    | Stop
    | Cancel
    | By(id: nat, act: Act)

  /** What a caller's goroutine does next. */
  datatype Act = Open | Send | Return | GiveUp | Refuse

  predicate At(s: State, id: nat, p: Progress) {
    id in s.calls && s.calls[id].progress == p
  }

  /** A call opens or joins a batch, sends it if it opened it, and then returns: because
      the batch was closed, because its own context ended, or because the loop it saw
      has been cancelled. */
  predicate May(s: State, id: nat, act: Act) {
    match act
    case Open => id !in s.calls
    case Send => At(s, id, Sending) && |s.force| < CAPACITY
    case Return => At(s, id, Waiting) && s.calls[id].batch in s.answered
    case GiveUp => At(s, id, Waiting)
    case Refuse => At(s, id, Waiting) && s.calls[id].done && s.cancelled
  }

  predicate Enabled(s: State, step: Step) {
    match step
    case Publish => s.loop.Unstarted?
    case Begin => s.loop.Starting? || s.loop.TickTaken? || s.loop.Ready?
    case End => s.loop.FirstPoll? || s.loop.TickPoll? || s.loop.ForcedPoll?
    case TakeTick => s.loop.Selecting?
    case TakeBatch => s.loop.Selecting? && s.force != []
    case Clear => s.loop.Taken?
    case Close => s.loop.Answering?
    case Stop => s.loop.Selecting? && s.cancelled
    case Cancel => true
    case By(id, act) => May(s, id, act)
  }

  function WhyOf(loop: Loop): Why {
    match loop
    case Ready(b) => Forced(b)
    case TickTaken => Tick
    case _ => First
  }

  function Begun(loop: Loop): Loop {
    match loop
    case Ready(b) => ForcedPoll(b)
    case TickTaken => TickPoll
    case _ => FirstPoll
  }

  function Ended(loop: Loop): Loop {
    match loop
    case ForcedPoll(b) => Answering(b)
    case _ => Selecting
  }

  function Leave(s: State, id: nat, o: Outcome): State
    requires id in s.calls
  {
    s.(calls := s.calls[id := s.calls[id].(progress := Returned(o, s.time))])
  }

  function Finish(rs: seq<Refresh>, time: nat): seq<Refresh>
  {
    if rs == [] then rs else rs[|rs| - 1 := rs[|rs| - 1].(ended := Some(time))]
  }

  function Acted(s: State, id: nat, act: Act): State
    requires May(s, id, act)
  {
    match act
    case Open =>
      if s.pending.Some? then s.(calls := s.calls[id := Call(s.time, s.pending.value, s.published, Waiting)])
      else s.(pending := Some(s.next), next := s.next + 1, calls := s.calls[id := Call(s.time, s.next, s.published, Sending)])
    case Send => s.(force := s.force + [s.calls[id].batch], calls := s.calls[id := s.calls[id].(progress := Waiting)])
    case Return => Leave(s, id, Fresh)
    case GiveUp => Leave(s, id, GaveUp)
    case Refuse => Leave(s, id, Refused)
  }

  /** What the step does. Every step takes one tick of time. */
  function Effect(s: State, step: Step): State
    requires Enabled(s, step)
  {
    match step
    case Publish => s.(published := true, loop := Starting)
    case Begin => s.(loop := Begun(s.loop), refreshes := s.refreshes + [Refresh(WhyOf(s.loop), s.time, None)])
    case End => s.(loop := Ended(s.loop), refreshes := Finish(s.refreshes, s.time))
    case TakeTick => s.(loop := TickTaken)
    case TakeBatch => s.(loop := Taken(s.force[0]), force := s.force[1..])
    case Clear => s.(loop := Ready(s.loop.batch), pending := None)
    case Close => s.(loop := Selecting, answered := s.answered[s.loop.batch := if |s.refreshes| > 0 then |s.refreshes| - 1 else 0])
    case Stop => s.(loop := Stopped)
    case Cancel => s.(cancelled := true)
    case By(id, act) => Acted(s, id, act)
  }

  function Do(s: State, step: Step): State
    requires Enabled(s, step)
  {
    Effect(s, step).(time := s.time + 1)
  }

  predicate Allowed(s: State, steps: seq<Step>)
    decreases |steps|
  {
    steps == [] || (Enabled(s, steps[0]) && Allowed(Do(s, steps[0]), steps[1..]))
  }

  function Run(s: State, steps: seq<Step>): State
    requires Allowed(s, steps)
    decreases |steps|
  {
    if steps == [] then s else Run(Do(s, steps[0]), steps[1..])
  }

  // ---------------------------------------------------------------- invariants

  /** The batch the loop has in hand and has already cleared, if any. */
  function InHand(loop: Loop): Option<nat> {
    if loop.Ready? || loop.ForcedPoll? || loop.Answering? then Some(loop.batch) else None
  }

  predicate Polling(loop: Loop) {
    loop.FirstPoll? || loop.TickPoll? || loop.ForcedPoll?
  }

  /** The hand-off: the pending batch is in exactly one place, with the caller that
      opened it, in the channel, or just taken from it. */
  ghost predicate HandOff(s: State) {
    && (s.force != [] ==> s.pending.Some? && s.force == [s.pending.value])
    && (s.loop.Taken? ==> s.pending == Some(s.loop.batch) && s.force == [])
    && (forall id | At(s, id, Sending) :: s.pending == Some(s.calls[id].batch) && s.force == [] && !s.loop.Taken?)
    && (forall i, j | At(s, i, Sending) && At(s, j, Sending) :: i == j)
  }

  /** Every batch is a number already given out, and a pending one is not yet answered
      nor in hand. */
  predicate Numbered(s: State) {
    && (s.pending.Some? ==> s.pending.value < s.next && s.pending.value !in s.answered && InHand(s.loop) != s.pending)
    && (InHand(s.loop).Some? ==> InHand(s.loop).value < s.next && InHand(s.loop).value !in s.answered)
    && (forall b | b in s.answered :: b < s.next)
    && (forall id | id in s.calls :: s.calls[id].batch < s.next && s.calls[id].called < s.time)
  }

  /** Refreshes never overlap: each one ends before the next begins, and only the last
      can be running, exactly while the loop is polling. */
  predicate Serial(s: State) {
    && (forall i | 0 <= i < |s.refreshes| :: s.refreshes[i].began < s.time)
    && (forall i | 0 <= i < |s.refreshes| && s.refreshes[i].ended.Some? ::
          s.refreshes[i].began < s.refreshes[i].ended.value < s.time)
    && (forall i, j | 0 <= i < j < |s.refreshes| ::
          s.refreshes[i].ended.Some? && s.refreshes[i].ended.value < s.refreshes[j].began)
    && (Polling(s.loop) <==> s.refreshes != [] && s.refreshes[|s.refreshes| - 1].ended.None?)
  }

  predicate AskedBefore(calls: map<nat, Call>, b: nat, began: nat) {
    forall id | id in calls && calls[id].batch == b :: calls[id].called < began
  }

  /** Refresh i answers this batch: it is the batch's own, begun after everyone in the
      batch had asked. */
  predicate Answers(rs: seq<Refresh>, i: nat, calls: map<nat, Call>, b: nat) {
    i < |rs| && rs[i].why == Forced(b) && AskedBefore(calls, b, rs[i].began)
  }

  predicate AnsweredBy(s: State, b: nat, at: nat) {
    && b in s.answered && s.answered[b] < |s.refreshes| && s.refreshes[s.answered[b]].ended.Some?
    && s.refreshes[s.answered[b]].ended.value < at
  }

  predicate Fresher(s: State) {
    && (forall b | b in s.answered :: Answers(s.refreshes, s.answered[b], s.calls, b) && AnsweredBy(s, b, s.time))
    && (s.loop.ForcedPoll? || s.loop.Answering? ==>
          s.refreshes != [] && Answers(s.refreshes, |s.refreshes| - 1, s.calls, s.loop.batch))
    && (forall id | id in s.calls && s.calls[id].progress.Returned? && s.calls[id].progress.outcome == Fresh ::
          AnsweredBy(s, s.calls[id].batch, s.calls[id].progress.at))
  }

  /** A batch costs one poll: a forced refresh is its batch's own, whether the batch is
      answered yet or still in hand. */
  predicate OneEach(s: State) {
    forall i | 0 <= i < |s.refreshes| && s.refreshes[i].why.Forced? ::
      var b := s.refreshes[i].why.batch;
      if b in s.answered then s.answered[b] == i
      else InHand(s.loop) == Some(b) && !s.loop.Ready? && i == |s.refreshes| - 1
  }

  ghost predicate Inv(s: State) {
    HandOff(s) && Numbered(s) && Serial(s) && Fresher(s) && OneEach(s)
  }

  lemma LoopHandsOff(s: State, step: Step)
    requires HandOff(s) && Enabled(s, step) && !step.By?
    ensures HandOff(Do(s, step))
  {
    assert Do(s, step).calls == s.calls;
    assert forall id | At(Do(s, step), id, Sending) :: At(s, id, Sending);
  }

  lemma ActHandsOff(s: State, id: nat, act: Act)
    requires HandOff(s) && May(s, id, act)
    ensures HandOff(Acted(s, id, act))
  {
    var t := Acted(s, id, act);
    assert t.loop == s.loop;
    forall i | At(t, i, Sending)
      ensures At(s, i, Sending) || (i == id && act.Open? && s.pending.None?)
    {
    }
  }

  lemma StepHandsOff(s: State, step: Step)
    requires HandOff(s) && Enabled(s, step)
    ensures HandOff(Do(s, step))
  {
    if step.By? {
      ActHandsOff(s, step.id, step.act);
      var t := Acted(s, step.id, step.act);
      assert forall i | At(Do(s, step), i, Sending) :: At(t, i, Sending);
    } else {
      LoopHandsOff(s, step);
    }
  }

  lemma LoopIsNumbered(s: State, step: Step)
    requires HandOff(s) && Numbered(s) && Enabled(s, step) && !step.By?
    ensures Numbered(Do(s, step))
  {
    assert Do(s, step).calls == s.calls && Do(s, step).next == s.next;
  }

  lemma ActIsNumbered(s: State, id: nat, act: Act)
    requires HandOff(s) && Numbered(s) && Enabled(s, By(id, act))
    ensures Numbered(Do(s, By(id, act)))
  {
    assert Do(s, By(id, act)).answered == s.answered && Do(s, By(id, act)).loop == s.loop;
  }

  lemma StepIsNumbered(s: State, step: Step)
    requires HandOff(s) && Numbered(s) && Enabled(s, step)
    ensures Numbered(Do(s, step))
  {
    if step.By? {
      ActIsNumbered(s, step.id, step.act);
    } else {
      LoopIsNumbered(s, step);
    }
  }

  lemma BeginIsSerial(s: State)
    requires Serial(s) && Enabled(s, Begin)
    ensures Serial(Do(s, Begin))
  {
  }

  lemma EndIsSerial(s: State)
    requires Serial(s) && Enabled(s, End)
    ensures Serial(Do(s, End))
  {
  }

  lemma StaysSerial(s: State, t: State)
    requires Serial(s) && t.refreshes == s.refreshes && Polling(t.loop) == Polling(s.loop) && s.time <= t.time
    ensures Serial(t)
  {
  }

  lemma ActIsSerial(s: State, id: nat, act: Act)
    requires Serial(s) && May(s, id, act)
    ensures Serial(Do(s, By(id, act)))
  {
    StaysSerial(s, Do(s, By(id, act)));
  }

  lemma LoopIsSerial(s: State, step: Step)
    requires Serial(s) && Enabled(s, step) && !step.Begin? && !step.End? && !step.By?
    ensures Serial(Do(s, step))
  {
    StaysSerial(s, Do(s, step));
  }

  lemma StepIsSerial(s: State, step: Step)
    requires Serial(s) && Enabled(s, step)
    ensures Serial(Do(s, step))
  {
    match step
    case Begin => BeginIsSerial(s);
    case End => EndIsSerial(s);
    case By(id, act) => ActIsSerial(s, id, act);
    case _ => LoopIsSerial(s, step);
  }

  lemma BeginIsFresh(s: State)
    requires Inv(s) && Enabled(s, Begin)
    ensures Fresher(Do(s, Begin))
  {
    var t := Do(s, Begin);
    assert forall i | 0 <= i < |s.refreshes| :: t.refreshes[i] == s.refreshes[i];
  }

  /** Ending a refresh leaves what it answers, and what answered earlier batches. */
  lemma EndKeepsAnswers(s: State)
    requires Serial(s) && Enabled(s, End)
    ensures var t := Do(s, End);
      && (forall i, b | Answers(s.refreshes, i, s.calls, b) :: Answers(t.refreshes, i, t.calls, b))
      && (forall b, at | AnsweredBy(s, b, at) :: AnsweredBy(t, b, at))
  {
    var t := Do(s, End);
    assert forall i | 0 <= i < |s.refreshes| ::
        t.refreshes[i].why == s.refreshes[i].why && t.refreshes[i].began == s.refreshes[i].began
        && (s.refreshes[i].ended.Some? ==> t.refreshes[i].ended == s.refreshes[i].ended);
  }

  lemma EndIsFresh(s: State)
    requires Fresher(s) && Serial(s) && Enabled(s, End)
    ensures Fresher(Do(s, End))
  {
    EndKeepsAnswers(s);
    var t := Do(s, End);
    assert forall b | b in t.answered :: AnsweredBy(s, b, s.time);
  }

  lemma CloseIsFresh(s: State)
    requires Fresher(s) && Numbered(s) && Serial(s) && Enabled(s, Close)
    ensures Fresher(Do(s, Close))
  {
    var t := Do(s, Close);
    assert AnsweredBy(t, s.loop.batch, t.time);
    assert forall b, at | AnsweredBy(s, b, at) && b != s.loop.batch :: AnsweredBy(t, b, at);
    assert s.loop.batch !in s.answered;
  }

  /** A new call in a batch that is neither answered nor in hand spoils no answer. */
  lemma JoinIsFresh(s: State, t: State, id: nat, c: Call)
    requires Fresher(s) && id !in s.calls && t.calls == s.calls[id := c] && s.time <= t.time
    requires t.refreshes == s.refreshes && t.answered == s.answered && t.loop == s.loop
    requires !c.progress.Returned? && c.batch !in s.answered && InHand(s.loop) != Some(c.batch)
    ensures Fresher(t)
  {
    forall b, began | b != c.batch && AskedBefore(s.calls, b, began)
      ensures AskedBefore(t.calls, b, began)
    {
    }
    assert forall b, at | AnsweredBy(s, b, at) :: AnsweredBy(t, b, at);
  }

  lemma OpenIsFresh(s: State, id: nat)
    requires Inv(s) && Enabled(s, By(id, Open))
    ensures Fresher(Do(s, By(id, Open)))
  {
    var t := Do(s, By(id, Open));
    JoinIsFresh(s, t, id, t.calls[id]);
  }

  /** The loop's steps that touch no refresh and no answer. */
  lemma LoopIsFresh(s: State, step: Step)
    requires Fresher(s) && Enabled(s, step) && !step.Begin? && !step.End? && !step.Close? && !step.By?
    ensures Fresher(Do(s, step))
  {
    var t := Do(s, step);
    assert t.refreshes == s.refreshes && t.answered == s.answered && t.calls == s.calls;
    assert forall b, at | AnsweredBy(s, b, at) :: AnsweredBy(t, b, at);
  }

  lemma ProgressIsFresh(s: State, t: State, id: nat, p: Progress)
    requires Fresher(s) && id in s.calls && t.calls == s.calls[id := s.calls[id].(progress := p)] && s.time <= t.time
    requires t.refreshes == s.refreshes && t.answered == s.answered && t.loop == s.loop
    requires p.Returned? && p.outcome == Fresh ==> s.calls[id].batch in s.answered && p.at == s.time
    ensures Fresher(t)
  {
    forall b, began | AskedBefore(s.calls, b, began)
      ensures AskedBefore(t.calls, b, began)
    {
    }
    assert forall b, at | AnsweredBy(s, b, at) :: AnsweredBy(t, b, at);
  }

  lemma ActIsFresh(s: State, id: nat, act: Act)
    requires Inv(s) && Enabled(s, By(id, act)) && !act.Open?
    ensures Fresher(Do(s, By(id, act)))
  {
    var t := Do(s, By(id, act));
    ProgressIsFresh(s, t, id, t.calls[id].progress);
  }

  lemma StepIsFresh(s: State, step: Step)
    requires Inv(s) && Enabled(s, step)
    ensures Fresher(Do(s, step))
  {
    match step
    case Begin => BeginIsFresh(s);
    case End => EndIsFresh(s);
    case Close => CloseIsFresh(s);
    case By(id, act) =>
      if act.Open? {
        OpenIsFresh(s, id);
      } else {
        ActIsFresh(s, id, act);
      }
    case _ => LoopIsFresh(s, step);
  }

  lemma BeginIsOneEach(s: State)
    requires Inv(s) && Enabled(s, Begin)
    ensures OneEach(Do(s, Begin))
  {
    assert forall i | 0 <= i < |s.refreshes| :: Do(s, Begin).refreshes[i] == s.refreshes[i];
  }

  lemma EndIsOneEach(s: State)
    requires OneEach(s) && Enabled(s, End)
    ensures OneEach(Do(s, End))
  {
    assert forall i | 0 <= i < |s.refreshes| :: Do(s, End).refreshes[i].why == s.refreshes[i].why;
  }

  lemma CloseIsOneEach(s: State)
    requires Inv(s) && Enabled(s, Close)
    ensures OneEach(Do(s, Close))
  {
  }

  lemma SamePolls(s: State, t: State)
    requires OneEach(s) && t.refreshes == s.refreshes && t.answered == s.answered
    requires InHand(s.loop).Some? && !s.loop.Ready? ==> t.loop == s.loop
    ensures OneEach(t)
  {
  }

  lemma ActLeavesPolls(s: State, id: nat, act: Act)
    requires OneEach(s) && May(s, id, act)
    ensures OneEach(Do(s, By(id, act)))
  {
    SamePolls(s, Do(s, By(id, act)));
  }

  lemma LoopLeavesPolls(s: State, step: Step)
    requires OneEach(s) && Enabled(s, step) && !step.Begin? && !step.End? && !step.Close? && !step.By?
    ensures OneEach(Do(s, step))
  {
    SamePolls(s, Do(s, step));
  }

  lemma StepIsOneEach(s: State, step: Step)
    requires Inv(s) && Enabled(s, step)
    ensures OneEach(Do(s, step))
  {
    match step
    case Begin => BeginIsOneEach(s);
    case End => EndIsOneEach(s);
    case Close => CloseIsOneEach(s);
    case By(id, act) => ActLeavesPolls(s, id, act);
    case _ => LoopLeavesPolls(s, step);
  }

  lemma StepHolds(s: State, step: Step)
    requires Inv(s) && Enabled(s, step)
    ensures Inv(Do(s, step))
  {
    StepHandsOff(s, step);
    StepIsNumbered(s, step);
    StepIsSerial(s, step);
    StepIsFresh(s, step);
    StepIsOneEach(s, step);
  }

  lemma {:induction false} RunHolds(s: State, steps: seq<Step>)
    requires Inv(s) && Allowed(s, steps)
    ensures Inv(Run(s, steps))
    decreases |steps|
  {
    if steps != [] {
      StepHolds(s, steps[0]);
      RunHolds(Do(s, steps[0]), steps[1..]);
    }
  }

  // ------------------------------------------------------------ what a caller gets

  /** A refresh that began after the call was made and had ended before it returned. */
  predicate Within(r: Refresh, called: nat, returned: nat) {
    r.ended.Some? && called < r.began < r.ended.value < returned
  }

  /** In every interleaving a call that returns without an error had a whole refresh to
      itself between its call and its return, made for its batch and no other; the
      refreshes never overlap; and no batch has two. */
  lemma ForcedPollsAreFresh(steps: seq<Step>, id: nat)
    requires Allowed(INITIAL, steps)
    requires var s := Run(INITIAL, steps);
      id in s.calls && s.calls[id].progress.Returned? && s.calls[id].progress.outcome == Fresh
    ensures var s := Run(INITIAL, steps);
      var c := s.calls[id];
      && Serial(s)
      && exists i: nat :: OnlyRefreshOf(s, i, c.batch) && Within(s.refreshes[i], c.called, c.progress.at)
  {
    RunHolds(INITIAL, steps);
    var s := Run(INITIAL, steps);
    var c := s.calls[id];
    assert AnsweredBy(s, c.batch, c.progress.at);
    var i := s.answered[c.batch];
    assert Answers(s.refreshes, i, s.calls, c.batch);
    assert OnlyRefreshOf(s, i, c.batch) && Within(s.refreshes[i], c.called, c.progress.at);
  }

  predicate OnlyRefreshOf(s: State, i: nat, b: nat) {
    i < |s.refreshes| && forall j | 0 <= j < |s.refreshes| :: s.refreshes[j].why == Forced(b) <==> j == i
  }

  lemma SenderFindsRoom(s: State, id: nat)
    requires HandOff(s) && At(s, id, Sending)
    ensures Enabled(s, By(id, Send))
  {
  }

  /** The send on the channel never blocks: whoever is about to send finds it empty,
      and a channel that is not empty holds exactly the pending batch. */
  lemma SendNeverBlocks(steps: seq<Step>)
    requires Allowed(INITIAL, steps)
    ensures forall id | At(Run(INITIAL, steps), id, Sending) :: Enabled(Run(INITIAL, steps), By(id, Send))
    ensures var s := Run(INITIAL, steps); s.force != [] ==> s.pending.Some? && s.force == [s.pending.value]
  {
    RunHolds(INITIAL, steps);
    forall id | At(Run(INITIAL, steps), id, Sending)
      ensures Enabled(Run(INITIAL, steps), By(id, Send))
    {
      SenderFindsRoom(Run(INITIAL, steps), id);
    }
  }

  /** A burst costs one poll: callers that share a batch are answered by the same one,
      and a batch is closed at most once because a closed one is never in hand again. */
  lemma BatchIsClosedOnce(steps: seq<Step>)
    requires Allowed(INITIAL, steps) && Enabled(Run(INITIAL, steps), Close)
    ensures Run(INITIAL, steps).loop.batch !in Run(INITIAL, steps).answered
  {
    RunHolds(INITIAL, steps);
  }

  /** What the flags say of a run: the loop was published, and has been cancelled. */
  lemma {:induction false} FlagsAre(s: State, steps: seq<Step>)
    requires Allowed(s, steps)
    ensures Run(s, steps).published <==> s.published || Publish in steps
    ensures Run(s, steps).cancelled <==> s.cancelled || Cancel in steps
    decreases |steps|
  {
    if steps != [] {
      FlagsAre(Do(s, steps[0]), steps[1..]);
      assert steps == [steps[0]] + steps[1..];
    }
  }

  /** The loop polls only once it has been published, and stops only once it has been
      cancelled. */
  predicate Lifecycle(s: State) {
    && (s.loop.Unstarted? <==> !s.published) && (s.refreshes != [] ==> s.published) && (s.loop.Stopped? ==> s.cancelled)
  }

  lemma {:induction false} LifecycleHolds(s: State, steps: seq<Step>)
    requires Lifecycle(s) && Allowed(s, steps)
    ensures Lifecycle(Run(s, steps))
    decreases |steps|
  {
    if steps != [] {
      LifecycleStep(s, steps[0]);
      LifecycleHolds(Do(s, steps[0]), steps[1..]);
    }
  }

  lemma LifecycleStep(s: State, step: Step)
    requires Lifecycle(s) && Enabled(s, step)
    ensures Lifecycle(Do(s, step))
  {
  }

  /** So a caller that comes while any poll is made already finds the loop. */
  lemma PublishedBeforePolling(steps: seq<Step>)
    requires Allowed(INITIAL, steps)
    ensures Run(INITIAL, steps).refreshes != [] ==> Publish in steps
    ensures Run(INITIAL, steps).loop.Stopped? ==> Cancel in steps
  {
    LifecycleHolds(INITIAL, steps);
    FlagsAre(INITIAL, steps);
  }

  /** A call refused so far found the loop published, and the loop has been cancelled. */
  predicate Refusals(s: State) {
    forall id | id in s.calls ::
      && (s.calls[id].done ==> s.published)
      && (s.calls[id].progress.Returned? && s.calls[id].progress.outcome == Refused ==> s.calls[id].done && s.cancelled)
  }

  lemma {:induction false} RefusalsHold(s: State, steps: seq<Step>)
    requires Refusals(s) && Allowed(s, steps)
    ensures Refusals(Run(s, steps))
    decreases |steps|
  {
    if steps != [] {
      RefusalStep(s, steps[0]);
      RefusalsHold(Do(s, steps[0]), steps[1..]);
    }
  }

  lemma RefusalStep(s: State, step: Step)
    requires Refusals(s) && Enabled(s, step)
    ensures Refusals(Do(s, step))
  {
  }

  /** A call is told the poller has stopped only when it has: the loop was published before
      it, and has been cancelled. A call that found no loop is never told so. */
  lemma RefusedWhenStopped(steps: seq<Step>, id: nat)
    requires Allowed(INITIAL, steps) && id in Run(INITIAL, steps).calls
    requires Run(INITIAL, steps).calls[id].progress.Returned? && Run(INITIAL, steps).calls[id].progress.outcome == Refused
    ensures Publish in steps && Cancel in steps
  {
    RefusalsHold(INITIAL, steps);
    FlagsAre(INITIAL, steps);
  }

  /** And none is left waiting: a call made after the loop was published can always return
      once its batch is answered or the loop has been cancelled. */
  lemma NoneIsLeftWaiting(steps: seq<Step>, id: nat, more: seq<Step>)
    requires Allowed(INITIAL, steps) && Enabled(Run(INITIAL, steps), By(id, Open)) && Publish in steps
    requires Allowed(Do(Run(INITIAL, steps), By(id, Open)), more) && Cancel in more
    requires At(Run(Do(Run(INITIAL, steps), By(id, Open)), more), id, Waiting)
    ensures Enabled(Run(Do(Run(INITIAL, steps), By(id, Open)), more), By(id, Refuse))
  {
    FlagsAre(INITIAL, steps);
    var joined := Do(Run(INITIAL, steps), By(id, Open));
    FlagsAre(joined, more);
    StillDone(joined, more, id);
  }

  lemma {:induction false} StillDone(s: State, steps: seq<Step>, id: nat)
    requires Allowed(s, steps) && id in s.calls && s.calls[id].done
    ensures var t := Run(s, steps); id in t.calls && t.calls[id].done
    decreases |steps|
  {
    if steps != [] {
      StillDone(Do(s, steps[0]), steps[1..], id);
    }
  }

  // ------------------------------------------------------------- and that it gets there

  lemma Ahead(s: State, step: Step, rest: seq<Step>)
    requires Enabled(s, step) && Allowed(Do(s, step), rest)
    ensures Allowed(s, [step] + rest) && Run(s, [step] + rest) == Run(Do(s, step), rest)
  {
    assert ([step] + rest)[1..] == rest;
  }

  lemma ThreeAhead(s: State, a: Step, b: Step, c: Step)
    requires Enabled(s, a) && Enabled(Do(s, a), b) && Enabled(Do(Do(s, a), b), c)
    ensures Allowed(s, [a, b, c]) && Run(s, [a, b, c]) == Do(Do(Do(s, a), b), c)
  {
    Ahead(Do(Do(s, a), b), c, []);
    Ahead(Do(s, a), b, [c]);
    Ahead(s, a, [b, c]);
    assert [c] + [] == [c] && [b] + [c] == [b, c] && [a] + [b, c] == [a, b, c];
  }

  /** The loop's own polls: the first once it starts, and one for each tick it takes. */
  lemma LoopPolls(s: State)
    ensures s.loop.Unstarted? ==>
              && Allowed(s, [Publish, Begin, End])
              && var t := Run(s, [Publish, Begin, End]);
              t.loop.Selecting? && t.refreshes == s.refreshes + [Refresh(First, s.time + 1, Some(s.time + 2))]
    ensures s.loop.Selecting? ==>
              && Allowed(s, [TakeTick, Begin, End])
              && var t := Run(s, [TakeTick, Begin, End]);
              t.loop.Selecting? && t.refreshes == s.refreshes + [Refresh(Tick, s.time + 1, Some(s.time + 2))]
    ensures s.loop.Selecting? && s.cancelled ==> Enabled(s, Stop) && Do(s, Stop).loop.Stopped?
  {
    if s.loop.Unstarted? {
      ThreeAhead(s, Publish, Begin, End);
      assert Do(Do(s, Publish), Begin).loop.FirstPoll?;
    } else if s.loop.Selecting? {
      ThreeAhead(s, TakeTick, Begin, End);
      assert Do(Do(s, TakeTick), Begin).loop.TickPoll?;
    }
  }

  /** The way a batch goes, from the send to the close. */
  lemma BatchGoes(s: State, b: nat)
    requires s.loop.Selecting? && s.force == [b]
    ensures Allowed(s, [TakeBatch, Clear, Begin]) && Allowed(Run(s, [TakeBatch, Clear, Begin]), [End, Close])
    ensures var polling := Run(s, [TakeBatch, Clear, Begin]);
      && polling.loop == ForcedPoll(b) && polling.force == [] && polling.pending == None && polling.calls == s.calls
      && var t := Run(polling, [End, Close]);
      && t.loop.Selecting? && t.force == [] && t.pending == None && t.calls == s.calls
      && t.refreshes == s.refreshes + [Refresh(Forced(b), s.time + 2, Some(s.time + 3))]
      && t.answered == s.answered[b := |s.refreshes|] && t.time == s.time + 5
  {
    ThreeAhead(s, TakeBatch, Clear, Begin);
    var polling := Run(s, [TakeBatch, Clear, Begin]);
    Ahead(Do(polling, End), Close, []);
    Ahead(polling, End, [Close]);
    assert [Close] + [] == [Close] && [End] + [Close] == [End, Close];
  }

  /** A forced poll gets there. From any state a run can reach, a caller about to send to a
      loop that is waiting sends, the loop takes the batch, polls once for it and closes
      it, and the call returns without an error. */
  lemma ForcedPollCompletes(s: State, id: nat) returns (sent: State, closed: State)
    requires HandOff(s) && At(s, id, Sending) && s.loop.Selecting?
    ensures Enabled(s, By(id, Send)) && sent == Do(s, By(id, Send))
    ensures Allowed(sent, [TakeBatch, Clear, Begin]) && Allowed(Run(sent, [TakeBatch, Clear, Begin]), [End, Close])
    ensures closed == Run(Run(sent, [TakeBatch, Clear, Begin]), [End, Close])
    ensures var b := s.calls[id].batch;
      closed.loop.Selecting? && closed.refreshes == s.refreshes + [Refresh(Forced(b), s.time + 3, Some(s.time + 4))]
    ensures Enabled(closed, By(id, Return)) && At(Do(closed, By(id, Return)), id, Returned(Fresh, s.time + 6))
  {
    BatchIsSent(s, id);
    sent := Do(s, By(id, Send));
    BatchGoes(sent, s.calls[id].batch);
    closed := Run(Run(sent, [TakeBatch, Clear, Begin]), [End, Close]);
    CallReturns(closed, id);
  }

  lemma BatchIsSent(s: State, id: nat)
    requires HandOff(s) && At(s, id, Sending)
    ensures Enabled(s, By(id, Send))
    ensures var t := Do(s, By(id, Send));
      && t.force == [s.calls[id].batch] && At(t, id, Waiting) && t.calls[id].batch == s.calls[id].batch
      && t.loop == s.loop && t.refreshes == s.refreshes && t.answered == s.answered && t.time == s.time + 1
  {
  }

  lemma CallReturns(s: State, id: nat)
    requires At(s, id, Waiting) && s.calls[id].batch in s.answered
    ensures Enabled(s, By(id, Return)) && At(Do(s, By(id, Return)), id, Returned(Fresh, s.time))
  {
  }
}
