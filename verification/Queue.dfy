/** The single slot in front of a long-lived agent's reports, and the claim that leaves
    one copy of an integration reporting (internal/integrations/queue.ts). */
module Queue {
  import opened Prelude
  import opened ReportTypes
  import opened ReportCodec
  import R = Reports

  // ---------------------------------------------------------------------- the slot

  /** Whether a child is running, and the one item waiting for it. */
  datatype Slot<Item> = Slot(running: bool, queued: Option<Item>)

  /** What the slot has been asked for and what it has started, oldest first. */
  datatype Log<Item> = Log(slot: Slot<Item>, pushed: seq<Item>, spawned: seq<Item>)

  function Pushed<Item>(l: Log<Item>, item: Item): Log<Item> {
    var pushed := l.pushed + [item];
    if l.slot.running then Log(Slot(true, Some(item)), pushed, l.spawned)
    else Log(Slot(true, l.slot.queued), pushed, l.spawned + [item])
  }

  /** The child that was running has exited. */
  function Drained<Item>(l: Log<Item>): Log<Item> {
    if l.slot.queued.Some? then Log(Slot(true, None), l.pushed, l.spawned + [l.slot.queued.value])
    else Log(Slot(false, None), l.pushed, l.spawned)
  }

  class Queue<Item> {
    var running: bool
    var queued: Option<Item>
    var spawned: seq<Item>
    ghost var pushed: seq<Item>

    ghost function Held(): Log<Item>
      reads this
    {
      Log(Slot(running, queued), pushed, spawned)
    }

    constructor ()
      ensures Held() == Log(Slot(false, None), [], [])
    {
      running, queued, spawned, pushed := false, None, [], [];
    }

    method Start(item: Item)
      modifies this
      ensures running && queued == old(queued) && pushed == old(pushed) && spawned == old(spawned) + [item]
    {
      running := true;
      spawned := spawned + [item];
    }

    method Push(item: Item)
      modifies this
      ensures Held() == Pushed(old(Held()), item)
    {
      pushed := pushed + [item];
      if running {
        queued := Some(item);
        return;
      }
      Start(item);
    }

    /** What runs when the child's promise settles, whichever way it does. */
    method Drain()
      modifies this
      ensures Held() == Drained(old(Held()))
    {
      running := false;
      var next := queued;
      queued := None;
      if next.Some? {
        Start(next.value);
      }
    }
  }

  /** `at` places each element of sub in all, in order. */
  predicate Places<Item(==)>(sub: seq<Item>, all: seq<Item>, at: seq<nat>) {
    && |at| == |sub|
    && (forall i | 0 <= i < |at| :: at[i] < |all| && all[at[i]] == sub[i])
    && (forall i, j | 0 <= i < j < |at| :: at[i] < at[j])
  }

  function Last<T>(s: seq<T>): T
    requires s != []
  {
    s[|s| - 1]
  }

  /** What the slot keeps: what it spawned is a subsequence of what was pushed, and the
      last push is either the last spawn or the item waiting. */
  ghost predicate Keeps<Item(!new)>(l: Log<Item>, at: seq<nat>) {
    && Places(l.spawned, l.pushed, at)
    && (l.slot.queued.Some? ==> l.slot.running && at != [] && Last(at) < |l.pushed| - 1 && l.slot.queued.value == Last(l.pushed))
    && (l.slot.queued.None? && l.pushed != [] ==> at != [] && Last(at) == |l.pushed| - 1)
    && (l.slot.running ==> l.pushed != [])
  }

  lemma PlacesOneMore<Item>(sub: seq<Item>, all: seq<Item>, at: seq<nat>, k: nat)
    requires Places(sub, all, at) && k < |all| && (at != [] ==> Last(at) < k)
    ensures Places(sub + [all[k]], all, at + [k])
  {
    var longer := at + [k];
    forall i, j | 0 <= i < j < |longer|
      ensures longer[i] < longer[j]
    {
      assert i < |at| && at[i] <= Last(at);
    }
  }

  lemma PlacesAmongMore<Item>(sub: seq<Item>, all: seq<Item>, at: seq<nat>, item: Item)
    requires Places(sub, all, at)
    ensures Places(sub, all + [item], at)
  {
  }

  lemma PushKeeps<Item(!new)>(l: Log<Item>, at: seq<nat>, item: Item) returns (at': seq<nat>)
    requires Keeps(l, at)
    ensures Keeps(Pushed(l, item), at')
  {
    PlacesAmongMore(l.spawned, l.pushed, at, item);
    at' := at;
    if !l.slot.running {
      PlacesOneMore(l.spawned, l.pushed + [item], at, |l.pushed|);
      at' := at + [|l.pushed|];
    }
  }

  lemma DrainKeeps<Item(!new)>(l: Log<Item>, at: seq<nat>) returns (at': seq<nat>)
    requires Keeps(l, at) && l.slot.running
    ensures Keeps(Drained(l), at')
  {
    at' := at;
    if l.slot.queued.Some? {
      PlacesOneMore(l.spawned, l.pushed, at, |l.pushed| - 1);
      at' := at + [|l.pushed| - 1];
    }
  }

  // --------------------------------------------------------------- the slot at work

  /** An event of an integration that only ever writes edges. */
  datatype Item = Item(state: AgentState, activity: string)

  /** How far the running child has got. */
  datatype Stage = Started | Stamped(ms: int) | Written(ms: int)

  /** The slot, its child, whether the last child there was has written, how many have
      exited, the last stamp any of them took, the pane's option, and the daemon's memory
      of the pane. */
  datatype Pipeline = Pipeline(log: Log<Item>, child: Option<Stage>, wrote: bool, exits: nat, last: int,
                               option: Option<string>, daemon: Option<R.Entry>)

  datatype Step =
    | Arrive(item: Item)
    | Stamp(ms: int)
    | Write
    | Exit
    | Poll(now: int)

  /** A child stamps, writes and exits, in that order, or fails and exits at any point; each
      stamp is later than the one before, because its process starts after the other has
      exited. */
  predicate Enabled(p: Pipeline, step: Step) {
    match step
    case Arrive(_) => true
    case Stamp(ms) => p.child == Some(Started) && p.last < ms && 0 < ms <= MAX_INT64
    case Write => p.child.Some? && p.child.value.Stamped? && p.log.spawned != []
    case Exit => p.child.Some?
    case Poll(_) => true
  }

  function ChildOf(l: Log<Item>): Option<Stage> {
    if l.slot.running then Some(Started) else None
  }

  function ValueOf(wire: Wire, item: Item, ms: int): string {
    wire.format(item.state, ms, item.activity)
  }

  function Shown(wire: Wire, option: Option<string>, now: int): Reading {
    if option.None? then None else wire.parse(option.value, now)
  }

  function Do(wire: Wire, p: Pipeline, step: Step): Pipeline
    requires Enabled(p, step)
  {
    match step
    case Arrive(item) =>
      if p.log.slot.running then p.(log := Pushed(p.log, item))
      else p.(log := Pushed(p.log, item), child := Some(Started), wrote := false)
    case Stamp(ms) => p.(child := Some(Stamped(ms)), last := ms)
    case Write => p.(child := Some(Written(p.child.value.ms)), wrote := true,
                     option := Some(ValueOf(wire, Last(p.log.spawned), p.child.value.ms)))
    case Exit =>
      var l := Drained(p.log);
      p.(log := l, child := ChildOf(l), wrote := p.wrote && !l.slot.running, exits := p.exits + 1)
    case Poll(now) => p.(daemon := R.Seen(p.daemon, Shown(wire, p.option, now)))
  }

  predicate Allowed(wire: Wire, p: Pipeline, steps: seq<Step>)
    decreases |steps|
  {
    steps == [] || (Enabled(p, steps[0]) && Allowed(wire, Do(wire, p, steps[0]), steps[1..]))
  }

  function Run(wire: Wire, p: Pipeline, steps: seq<Step>): Pipeline
    requires Allowed(wire, p, steps)
    decreases |steps|
  {
    if steps == [] then p else Run(wire, Do(wire, p, steps[0]), steps[1..])
  }

  /** Nothing read from the option, by whatever clock, is dated after `bound`. */
  ghost predicate ReadsUpTo(wire: Wire, option: Option<string>, bound: int) {
    forall now: int :: Shown(wire, option, now).Some? ==> Shown(wire, option, now).value.timestamp <= bound
  }

  predicate HoldsUpTo(d: Option<R.Entry>, bound: int) {
    d.Some? ==> d.value.accepted.timestamp <= bound
  }

  /** The last spawn's value is in the option, and a daemon that has taken a report of
      that date has taken this one. */
  predicate Delivered(wire: Wire, p: Pipeline) {
    && p.log.spawned != [] && 0 < p.last <= MAX_INT64
    && p.option == Some(ValueOf(wire, Last(p.log.spawned), p.last))
    && (p.daemon.Some? && p.daemon.value.accepted.timestamp == p.last ==>
          p.daemon.value.accepted.state == Last(p.log.spawned).state)
  }

  /** The children that have been spawned and have not exited. */
  function Running(p: Pipeline): nat {
    if p.child.Some? then 1 else 0
  }

  /** Where the child is and what has reached the daemon. Before the child stamps,
      nothing is dated after `last`; once it has stamped, everything in the option and
      the daemon is older; once it has written, its value stands. */
  ghost predicate InStep(wire: Wire, p: Pipeline) {
    && (p.child.Some? <==> p.log.slot.running) && |p.log.spawned| == p.exits + Running(p)
    && HoldsUpTo(p.daemon, p.last) && ReadsUpTo(wire, p.option, p.last)
    && (p.child.Some? ==> p.log.spawned != [])
    && (p.child.Some? && p.child.value.Stamped? ==>
          0 < p.last <= MAX_INT64 && p.child.value.ms == p.last
          && HoldsUpTo(p.daemon, p.last - 1) && ReadsUpTo(wire, p.option, p.last - 1))
    && (p.child.Some? ==> (p.wrote <==> p.child.value.Written?))
    && (p.wrote ==> Delivered(wire, p))
  }

  lemma WriteIsInStep(wire: Wire, p: Pipeline)
    requires Faithful(wire) && InStep(wire, p) && Enabled(p, Write)
    ensures InStep(wire, Do(wire, p, Write))
  {
    var item := Last(p.log.spawned);
    var option := Some(ValueOf(wire, item, p.last));
    forall now: int
      ensures Shown(wire, option, now).Some? ==> Shown(wire, option, now).value.timestamp <= p.last
    {
      assert ReadsBack(wire, item.state, p.last, item.activity, now);
    }
  }

  lemma PollIsInStep(wire: Wire, p: Pipeline, now: int)
    requires Faithful(wire) && InStep(wire, p)
    ensures InStep(wire, Do(wire, p, Poll(now)))
  {
    var shown := Shown(wire, p.option, now);
    if p.log.spawned != [] {
      var item := Last(p.log.spawned);
      assert 0 < p.last <= MAX_INT64 ==> ReadsBack(wire, item.state, p.last, item.activity, now);
    }
  }

  lemma StepIsInStep(wire: Wire, p: Pipeline, step: Step)
    requires Faithful(wire) && InStep(wire, p) && Enabled(p, step)
    ensures InStep(wire, Do(wire, p, step))
  {
    match step
    case Write => WriteIsInStep(wire, p);
    case Poll(now) => PollIsInStep(wire, p, now);
    case _ =>
  }

  lemma {:induction false} RunIsInStep(wire: Wire, p: Pipeline, steps: seq<Step>, at: seq<nat>) returns (at': seq<nat>)
    requires Faithful(wire) && InStep(wire, p) && Keeps(p.log, at) && Allowed(wire, p, steps)
    ensures InStep(wire, Run(wire, p, steps)) && Keeps(Run(wire, p, steps).log, at')
    decreases |steps|
  {
    at' := at;
    if steps != [] {
      StepIsInStep(wire, p, steps[0]);
      match steps[0] {
        case Arrive(item) => at' := PushKeeps(p.log, at, item);
        case Exit => at' := DrainKeeps(p.log, at);
        case _ =>
      }
      at' := RunIsInStep(wire, Do(wire, p, steps[0]), steps[1..], at');
    }
  }

  /** An idle slot in front of whatever the pane's option and the daemon hold, as long
      as neither holds anything newer than `last`. */
  ghost predicate Fresh(wire: Wire, p: Pipeline) {
    && p.log == Log(Slot(false, None), [], []) && p.child.None? && !p.wrote && p.exits == 0
    && HoldsUpTo(p.daemon, p.last) && ReadsUpTo(wire, p.option, p.last)
  }

  /** Bursts collapse and the last word gets through. Whatever the run, with children that
      fail at any point, at most one child is running, what was spawned is a subsequence
      of what was pushed, and once the slot is quiet the last spawn is the last push. If
      that child wrote, one poll by a clock that has reached its stamp makes the daemon
      hold the last event's state, whatever became of the children before it. */
  lemma LastWordGetsThrough(p: Pipeline, steps: seq<Step>, now: int) returns (at: seq<nat>)
    requires Fresh(CODEC, p) && Allowed(CODEC, p, steps)
    ensures var q := Run(CODEC, p, steps);
      && q.exits <= |q.log.spawned| <= q.exits + 1
      && Places(q.log.spawned, q.log.pushed, at)
      && (q.child.None? && q.log.pushed != [] ==>
            && q.log.spawned != [] && Last(q.log.spawned) == Last(q.log.pushed)
            && (q.wrote && q.last <= UnixMilli(now) + FUTURE_SKEW_MS ==>
                  var d := Do(CODEC, q, Poll(now)).daemon;
                  d.Some? && d.value.accepted.state == Last(q.log.pushed).state && d.value.accepted.timestamp == q.last))
  {
    CodecIsFaithful();
    var none: seq<nat> := [];
    at := RunIsInStep(CODEC, p, steps, none);
    var q := Run(CODEC, p, steps);
    if q.child.None? && q.log.pushed != [] && q.wrote {
      QuietPoll(CODEC, q, now);
    }
  }

  /** Nothing in the model holds the queue up: after any run another item may come and the
      daemon may poll, and a child may stamp, write and exit in turn, or exit where it is. */
  lemma NothingBlocks(p: Pipeline, item: Item, now: int, ms: int)
    requires p.last < ms && 0 < ms <= MAX_INT64
    ensures Enabled(p, Arrive(item)) && Enabled(p, Poll(now)) && (p.child.Some? ==> Enabled(p, Exit))
    ensures p.child == Some(Started) && p.log.spawned != [] ==>
              && Enabled(p, Stamp(ms)) && Enabled(Do(CODEC, p, Stamp(ms)), Write)
              && Enabled(Do(CODEC, Do(CODEC, p, Stamp(ms)), Write), Exit)
  {
  }

  lemma QuietPoll(wire: Wire, q: Pipeline, now: int)
    requires Faithful(wire) && InStep(wire, q) && Delivered(wire, q)
    ensures q.last <= UnixMilli(now) + FUTURE_SKEW_MS ==>
              var d := Do(wire, q, Poll(now)).daemon;
              d.Some? && d.value.accepted.state == Last(q.log.spawned).state && d.value.accepted.timestamp == q.last
  {
    var item := Last(q.log.spawned);
    assert ReadsBack(wire, item.state, q.last, item.activity, now);
  }

  // --------------------------------------------------------------------- the claim

  /** What two copies meet at: an object on a key of the process, or something that is
      not one of ours. Objects are told apart by number. */
  datatype Claimed = Claimed(id: nat, schema: int, owner: Option<nat>)

  /** A copy's predicate: the object it saw, and its own identity. */
  datatype Claim = Claim(id: nat, me: nat)

  datatype Place = Place(on: Option<Claimed>, made: nat)

  function SlotFor(p: Place): (Claimed, nat) {
    if p.on.Some? then (p.on.value, p.made) else (Claimed(p.made, -1, None), p.made + 1)
  }

  function AfterClaim(p: Place, me: nat, schema: int): Place {
    var (slot, made) := SlotFor(p);
    Place(Some(if schema >= slot.schema then Claimed(slot.id, schema, Some(me)) else slot), made)
  }

  function ClaimOf(p: Place, me: nat): Claim {
    Claim(SlotFor(p).0.id, me)
  }

  predicate Reports(p: Place, c: Claim) {
    p.on.Some? && p.on.value.id == c.id && p.on.value.owner == Some(c.me)
  }

  class Process {
    var on: Option<Claimed>
    var made: nat

    ghost function Held(): Place
      reads this
    {
      Place(on, made)
    }

    constructor ()
      ensures Held() == Place(None, 0)
    {
      on, made := None, 0;
    }

    method ClaimReporter(me: nat, schema: int) returns (c: Claim)
      modifies this
      ensures Held() == AfterClaim(old(Held()), me, schema)
      ensures c == ClaimOf(old(Held()), me)
    {
      if on.None? {
        on := Some(Claimed(made, -1, None));
        made := made + 1;
      }
      var slot := on.value;
      if schema >= slot.schema {
        slot := slot.(schema := schema, owner := Some(me));
        on := Some(slot);
      }
      return Claim(slot.id, me);
    }
  }

  /** Copies loading one after another, each with its schema, and now and then something
      foreign put on the key. */
  datatype Load = Copy(schema: int) | Foreign

  function PlaceAfter(h: seq<Load>): Place {
    if h == [] then Place(None, 0)
    else
      var n := |h| - 1;
      var p := PlaceAfter(h[..n]);
      match h[n]
      case Copy(schema) => AfterClaim(p, n, schema)
      case Foreign => p.(on := None)
  }

  /** The claim the copy loaded i-th was given. */
  function ClaimAt(h: seq<Load>, i: nat): Claim
    requires i < |h|
  {
    ClaimOf(PlaceAfter(h[..i]), i)
  }

  /** The copy loaded i-th is the last of the greatest schema there has been since
      anything foreign was on the key. */
  predicate Wins(h: seq<Load>, i: nat) {
    && i < |h| && h[i].Copy? && h[i].schema >= -1
    && (forall j | i < j < |h| :: h[j].Copy? && h[j].schema < h[i].schema)
    && (forall j | 0 <= j < i && h[j].Copy? && h[j].schema > h[i].schema :: exists k | j < k < i :: h[k].Foreign?)
  }

  /** What the object on the key says of the loads so far. */
  predicate Tells(h: seq<Load>, b: nat, p: Place) {
    && b <= |h| && (b > 0 ==> h[b - 1].Foreign?) && (forall j | b <= j < |h| :: h[j].Copy?)
    && (p.on.None? <==> b == |h|)
    && (p.on.Some? ==> p.on.value.id < p.made && Leads(h, b, p.on.value))
  }

  predicate Leads(h: seq<Load>, b: nat, slot: Claimed)
    requires b <= |h| && forall j | b <= j < |h| :: h[j].Copy?
  {
    && slot.schema >= -1 && (forall j | b <= j < |h| :: h[j].schema <= slot.schema)
    && match slot.owner
       case None => slot.schema == -1 && forall j | b <= j < |h| :: h[j].schema < -1
       case Some(o) => b <= o < |h| && h[o].schema == slot.schema && forall j | o < j < |h| :: h[j].schema < slot.schema
  }

  lemma TellsMore(h: seq<Load>, b: nat, p: Place, load: Load) returns (b': nat)
    requires Tells(h, b, p)
    ensures Tells(h + [load], b', match load case Copy(schema) => AfterClaim(p, |h|, schema) case Foreign => p.(on := None))
  {
    b' := if load.Foreign? then |h| + 1 else b;
  }

  lemma {:induction false} PlaceTells(h: seq<Load>) returns (b: nat)
    ensures Tells(h, b, PlaceAfter(h))
  {
    b := 0;
    if h != [] {
      var n := |h| - 1;
      b := PlaceTells(h[..n]);
      b := TellsMore(h[..n], b, PlaceAfter(h[..n]), h[n]);
      assert h[..n] + [h[n]] == h;
    }
  }

  /** Objects are never reused: a claim made since b is on the object now on the key,
      and one made before is not. */
  lemma {:induction false} ClaimsNow(h: seq<Load>, b: nat, i: nat)
    requires Tells(h, b, PlaceAfter(h)) && i < |h| && h[i].Copy?
    ensures PlaceAfter(h).on.Some? ==> (ClaimAt(h, i).id == PlaceAfter(h).on.value.id <==> i >= b)
    ensures ClaimAt(h, i).id < PlaceAfter(h).made
  {
    var n := |h| - 1;
    var c := PlaceTells(h[..n]);
    if i < n {
      ClaimsNow(h[..n], c, i);
      assert h[..n][..i] == h[..i];
    }
  }

  /** Exactly one copy reports. After any sequence of loads a copy's predicate holds if
      and only if it is the last claimant of the greatest schema since anything foreign
      was on the key. */
  lemma OneReporter(h: seq<Load>, i: nat)
    requires i < |h| && h[i].Copy?
    ensures Reports(PlaceAfter(h), ClaimAt(h, i)) <==> Wins(h, i)
  {
    var b := PlaceTells(h);
    ClaimsNow(h, b, i);
    if b > 0 {
      assert h[b - 1].Foreign?;
    }
  }
}
