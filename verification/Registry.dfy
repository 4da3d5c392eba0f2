/** The live half of revocation (internal/front/registry.go): one closer per open
    connection, and a sweep that severs everything a revoked device holds. */
module Registry {
  import opened Prelude

  // A closer is known by the connection it severs.
  type Conn = nat

  datatype State = State(next: nat, live: map<string, map<nat, Conn>>, revoked: set<string>)

  const EMPTY := State(0, map[], {})

  function ConnsOf(s: State, device: string): map<nat, Conn> {
    if device in s.live then s.live[device] else map[]
  }

  function Added(s: State, device: string, conn: Conn): State {
    if device in s.revoked then s
    else s.(next := s.next + 1, live := s.live[device := ConnsOf(s, device)[s.next := conn]])
  }

  function Removed(s: State, device: string, handle: nat): State {
    if device !in s.live then s
    else
      var left := s.live[device] - {handle};
      s.(live := if left == map[] then s.live - {device} else s.live[device := left])
  }

  function Swept(s: State, device: string): State {
    s.(live := s.live - {device}, revoked := s.revoked + {device})
  }

  class Registry {
    var next: nat
    var live: map<string, map<nat, Conn>>
    var revoked: set<string>
    // The closers handed to a goroutine of their own, in the order they were.
    var fired: seq<Conn>

    ghost function Held(): State
      reads this
    {
      State(next, live, revoked)
    }

    constructor ()
      ensures Held() == EMPTY && fired == []
    {
      next, live, revoked, fired := 0, map[], {}, [];
    }

    method Add(device: string, conn: Conn) returns (handle: Option<nat>)
      modifies this
      ensures Held() == Added(old(Held()), device, conn)
      ensures handle == if device in old(revoked) then None else Some(old(next))
      ensures fired == if device in old(revoked) then old(fired) + [conn] else old(fired)
    {
      if device in revoked {
        fired := fired + [conn];
        return None;
      }
      handle := Some(next);
      var conns: map<nat, Conn> := if device in live then live[device] else map[];
      live := live[device := conns[next := conn]];
      next := next + 1;
    }

    method Live() returns (b: bool)
      ensures b <==> live != map[]
    {
      b := |live| > 0;
    }

    method Remove(device: string, handle: nat)
      modifies this`live
      ensures Held() == Removed(old(Held()), device, handle)
    {
      if device !in live {
        return;
      }
      var conns: map<nat, Conn> := live[device] - {handle};
      live := live[device := conns];
      if |conns| == 0 {
        live := live - {device};
        assert live == old(live) - {device};
      }
    }

    /** Each closer of the map, on a goroutine of its own, in no particular order. */
    method FireAll(conns: map<nat, Conn>)
      modifies this`fired
      ensures exists order :: IsOrderOf(order, conns) && fired == old(fired) + Named(order, conns)
    {
      ghost var order: seq<nat> := [];
      var left := conns.Keys;
      while left != {}
        invariant left <= conns.Keys
        invariant forall h :: h in order <==> h in conns.Keys - left
        invariant forall i, j | 0 <= i < j < |order| :: order[i] != order[j]
        invariant fired == old(fired) + Named(order, conns)
        decreases |left|
      {
        var h :| h in left;
        assert h !in order;
        assert (order + [h])[..|order|] == order;
        left := left - {h};
        order := order + [h];
        fired := fired + [conns[h]];
      }
      assert IsOrderOf(order, conns);
    }

    /** The sweep under the lock, then the closers it took. */
    method CloseDevice(device: string)
      modifies this
      ensures Held() == Swept(old(Held()), device)
      ensures exists order ::
                && IsOrderOf(order, ConnsOf(old(Held()), device))
                && fired == old(fired) + Named(order, ConnsOf(old(Held()), device))
    {
      var conns: map<nat, Conn> := if device in live then live[device] else map[];
      live := live - {device};
      revoked := revoked + {device};
      FireAll(conns);
      assert conns == ConnsOf(old(Held()), device);
    }
  }

  /** Every handle of the map, once each. */
  ghost predicate IsOrderOf(order: seq<nat>, conns: map<nat, Conn>) {
    && (forall h :: h in order <==> h in conns)
    && (forall i, j | 0 <= i < j < |order| :: order[i] != order[j])
  }

  /** Each closer of the map runs at one place in the order and at no other. */
  lemma EachIsFiredOnce(order: seq<nat>, conns: map<nat, Conn>, h: nat)
    requires IsOrderOf(order, conns)
    ensures h in conns <==> exists i :: 0 <= i < |order| && order[i] == h
    ensures forall i, j | 0 <= i < |order| && 0 <= j < |order| && order[i] == order[j] :: i == j
    ensures |Named(order, conns)| == |conns|
  {
    OrderCounts(order, conns);
  }

  lemma {:induction false} OrderCounts(order: seq<nat>, conns: map<nat, Conn>)
    requires IsOrderOf(order, conns)
    ensures |order| == |conns|
  {
    if order == [] {
      assert conns.Keys == {};
    } else {
      var init, h := order[..|order| - 1], order[|order| - 1];
      var rest := conns - {h};
      forall k
        ensures k in init <==> k in rest
      {
        if k in order {
          var i :| 0 <= i < |order| && order[i] == k;
          assert i < |init| ==> init[i] == k;
        }
      }
      OrderCounts(init, rest);
      assert conns.Keys == rest.Keys + {h};
    }
  }

  function Named(order: seq<nat>, conns: map<nat, Conn>): (closers: seq<Conn>)
    requires forall h | h in order :: h in conns
    ensures |closers| == |order| && forall i | 0 <= i < |order| :: closers[i] == conns[order[i]]
  {
    if order == [] then [] else Named(order[..|order| - 1], conns) + [conns[order[|order| - 1]]]
  }

  // -------------------------------------------------------- any interleaving of calls

  /** Where a connection's closer is: registered, taken by the numbered sweep, held by
      the Add that refused it, running or run, or deregistered by its own connection. */
  datatype Phase = Live | Taken(sweep: nat) | Refused | Fired | Gone

  /** A connection that has called Add: its device, the handle it was given if it was
      registered, and where its closer is. */
  datatype Member = Member(device: string, handle: Option<nat>, phase: Phase)

  /** The registry; what each sweep took and has yet to fire; how often each closer has
      been fired; and every connection there has been. */
  datatype System = System(reg: State, sweeps: seq<map<nat, Conn>>, fires: map<Conn, nat>, members: map<Conn, Member>)

  const START := System(EMPTY, [], map[], map[])

  /** Each step is one critical section, or one closer started. */
  datatype Step =
    | Add(conn: Conn, device: string)
    | FireRefused(conn: Conn)
    | Remove(conn: Conn)
    | Sweep(device: string)
    | FireTaken(sweep: nat, handle: nat)

  /** A connection adds itself once; its remove function, which only a registered
      connection is given, may be called at any time and any number of times. */
  predicate Enabled(s: System, step: Step) {
    match step
    case Add(conn, _) => conn !in s.members
    case FireRefused(conn) => conn in s.members && s.members[conn].phase.Refused?
    case Remove(conn) => conn in s.members && s.members[conn].handle.Some?
    case Sweep(_) => true
    case FireTaken(k, h) => k < |s.sweeps| && h in s.sweeps[k]
  }

  function Fires(s: System, conn: Conn): nat {
    if conn in s.fires then s.fires[conn] else 0
  }

  function Fire(s: System, conn: Conn): System {
    var s := s.(fires := s.fires[conn := Fires(s, conn) + 1]);
    if conn in s.members then s.(members := s.members[conn := s.members[conn].(phase := Fired)]) else s
  }

  function Do(s: System, step: Step): System
    requires Enabled(s, step)
  {
    match step
    case Add(conn, device) =>
      var m := if device in s.reg.revoked then Member(device, None, Refused) else Member(device, Some(s.reg.next), Live);
      s.(reg := Added(s.reg, device, conn), members := s.members[conn := m])
    case FireRefused(conn) => Fire(s, conn)
    case Remove(conn) =>
      var m := s.members[conn];
      s.(reg := Removed(s.reg, m.device, m.handle.value),
         members := s.members[conn := m.(phase := if m.phase.Live? then Gone else m.phase)])
    case Sweep(device) =>
      var took := ConnsOf(s.reg, device);
      s.(reg := Swept(s.reg, device), sweeps := s.sweeps + [took],
         members := map c | c in s.members ::
           if s.members[c].device == device && s.members[c].phase.Live? then s.members[c].(phase := Taken(|s.sweeps|))
           else s.members[c])
    case FireTaken(k, h) =>
      Fire(s.(sweeps := s.sweeps[k := s.sweeps[k] - {h}]), s.sweeps[k][h])
  }

  /** The closer is registered under this handle. */
  predicate Registered(s: State, device: string, handle: nat, conn: Conn) {
    device in s.live && handle in s.live[device] && s.live[device][handle] == conn
  }

  predicate TakenBy(sweeps: seq<map<nat, Conn>>, k: nat, handle: nat, conn: Conn) {
    k < |sweeps| && handle in sweeps[k] && sweeps[k][handle] == conn
  }

  /** Every closer is in exactly the place its member says, and has been fired once if
      that place is Fired and never otherwise. */
  predicate MemberHolds(s: System, c: Conn)
    requires c in s.members
  {
    var m := s.members[c];
    && (m.handle.None? ==> m.phase.Refused? || m.phase.Fired?)
    && (m.phase.Refused? ==> m.handle.None?)
    && (m.handle.Some? ==>
          m.handle.value < s.reg.next
          && (m.phase.Live? <==> Registered(s.reg, m.device, m.handle.value, c)))
    && (m.phase.Taken? ==> TakenBy(s.sweeps, m.phase.sweep, m.handle.value, c))
    && (m.phase.Live? ==> m.device !in s.reg.revoked)
    && Fires(s, c) == if m.phase.Fired? then 1 else 0
  }

  /** Nothing is registered, taken or fired that is not some member's closer. */
  ghost predicate OnlyMembers(s: System) {
    && (forall d: string, h: nat, c: Conn | Registered(s.reg, d, h, c) ::
          c in s.members && s.members[c].device == d && s.members[c].handle == Some(h))
    && (forall k: nat, h: nat, c: Conn | TakenBy(s.sweeps, k, h, c) ::
          c in s.members && s.members[c].handle == Some(h) && s.members[c].phase == Taken(k))
    && (forall c | c in s.fires :: c in s.members)
  }

  predicate UniqueHandles(s: System) {
    forall c, d | c in s.members && d in s.members && c != d && s.members[c].handle.Some? ::
      s.members[c].handle != s.members[d].handle
  }

  /** A device with nothing open has no entry, and a revoked one never has. */
  predicate Tidy(r: State) {
    forall d | d in r.live :: r.live[d] != map[] && d !in r.revoked
  }

  ghost predicate Inv(s: System) {
    && (forall c | c in s.members :: MemberHolds(s, c))
    && OnlyMembers(s) && UniqueHandles(s) && Tidy(s.reg)
  }

  // ------------------------------------------------- what each section does, closer by closer

  lemma AddedIs(r: State, device: string, conn: Conn)
    requires Tidy(r) && device !in r.revoked
    requires forall h | h in ConnsOf(r, device) :: h < r.next
    ensures Tidy(Added(r, device, conn))
    ensures forall d: string, h: nat, c: Conn :: Registered(Added(r, device, conn), d, h, c)
              <==> if d == device && h == r.next then c == conn else Registered(r, d, h, c)
  {
    assert r.next in Added(r, device, conn).live[device];
  }

  lemma RemovedIs(r: State, device: string, handle: nat)
    requires Tidy(r)
    ensures Tidy(Removed(r, device, handle))
    ensures forall d: string, h: nat, c: Conn :: Registered(Removed(r, device, handle), d, h, c)
              <==> Registered(r, d, h, c) && !(d == device && h == handle)
  {
    if device in r.live && r.live[device] - {handle} == map[] {
      assert forall h | h in r.live[device] && h != handle :: h in r.live[device] - {handle};
    }
  }

  lemma SweptIs(r: State, device: string)
    requires Tidy(r)
    ensures Tidy(Swept(r, device))
    ensures forall d: string, h: nat, c: Conn :: Registered(Swept(r, device), d, h, c) <==> Registered(r, d, h, c) && d != device
    ensures forall h: nat, c: Conn :: h in ConnsOf(r, device) && ConnsOf(r, device)[h] == c <==> Registered(r, device, h, c)
  {
  }

  lemma SweepTakes(sweeps: seq<map<nat, Conn>>, took: map<nat, Conn>)
    ensures forall k: nat, h: nat, c: Conn :: TakenBy(sweeps + [took], k, h, c)
              <==> TakenBy(sweeps, k, h, c) || (k == |sweeps| && h in took && took[h] == c)
  {
  }

  lemma FireTakes(sweeps: seq<map<nat, Conn>>, k: nat, h: nat)
    requires k < |sweeps|
    ensures forall k': nat, h': nat, c: Conn :: TakenBy(sweeps[k := sweeps[k] - {h}], k', h', c)
              <==> TakenBy(sweeps, k', h', c) && !(k' == k && h' == h)
  {
  }

  lemma AddHolds(s: System, conn: Conn, device: string)
    requires Inv(s) && Enabled(s, Add(conn, device))
    ensures Inv(Do(s, Add(conn, device)))
  {
    if device !in s.reg.revoked {
      forall h | h in ConnsOf(s.reg, device)
        ensures h < s.reg.next
      {
        assert Registered(s.reg, device, h, s.reg.live[device][h]);
      }
      AddedIs(s.reg, device, conn);
    }
  }

  lemma RemoveHolds(s: System, conn: Conn)
    requires Inv(s) && Enabled(s, Remove(conn))
    ensures Inv(Do(s, Remove(conn)))
  {
    RemovedIs(s.reg, s.members[conn].device, s.members[conn].handle.value);
  }

  lemma SweepHolds(s: System, device: string)
    requires Inv(s)
    ensures Inv(Do(s, Sweep(device)))
  {
    SweptIs(s.reg, device);
    SweepTakes(s.sweeps, ConnsOf(s.reg, device));
    var t := Do(s, Sweep(device));
    forall k: nat, h: nat, c: Conn | TakenBy(t.sweeps, k, h, c)
      ensures c in t.members && t.members[c].handle == Some(h) && t.members[c].phase == Taken(k)
    {
      if !TakenBy(s.sweeps, k, h, c) {
        assert Registered(s.reg, device, h, c) && MemberHolds(s, c);
      }
    }
  }

  lemma FireRefusedHolds(s: System, conn: Conn)
    requires Inv(s) && Enabled(s, FireRefused(conn))
    ensures Inv(Do(s, FireRefused(conn)))
  {
  }

  lemma FireTakenHolds(s: System, k: nat, h: nat)
    requires Inv(s) && Enabled(s, FireTaken(k, h))
    ensures Inv(Do(s, FireTaken(k, h)))
  {
    FireTakes(s.sweeps, k, h);
    assert TakenBy(s.sweeps, k, h, s.sweeps[k][h]);
    var t := Do(s, FireTaken(k, h));
    forall k': nat, h': nat, c: Conn | TakenBy(t.sweeps, k', h', c)
      ensures c in t.members && t.members[c].handle == Some(h') && t.members[c].phase == Taken(k')
    {
      assert TakenBy(s.sweeps, k', h', c);
    }
  }

  lemma StepHolds(s: System, step: Step)
    requires Inv(s) && Enabled(s, step)
    ensures Inv(Do(s, step))
  {
    match step
    case Add(conn, device) => AddHolds(s, conn, device);
    case FireRefused(conn) => FireRefusedHolds(s, conn);
    case Remove(conn) => RemoveHolds(s, conn);
    case Sweep(device) => SweepHolds(s, device);
    case FireTaken(k, h) => FireTakenHolds(s, k, h);
  }

  predicate Allowed(s: System, steps: seq<Step>)
    decreases |steps|
  {
    steps == [] || (Enabled(s, steps[0]) && Allowed(Do(s, steps[0]), steps[1..]))
  }

  function Run(s: System, steps: seq<Step>): System
    requires Allowed(s, steps)
    decreases |steps|
  {
    if steps == [] then s else Run(Do(s, steps[0]), steps[1..])
  }

  lemma {:induction false} RunHolds(s: System, steps: seq<Step>)
    requires Inv(s) && Allowed(s, steps)
    ensures Inv(Run(s, steps))
    decreases |steps|
  {
    if steps != [] {
      StepHolds(s, steps[0]);
      RunHolds(Do(s, steps[0]), steps[1..]);
    }
  }

  // --------------------------------------------------------------------- revocation

  /** A connection of this device that deregistered itself, then as before. */
  predicate GoneOnlyIfBefore(before: System, s: System, device: string) {
    forall c | c in s.members && s.members[c].device == device && s.members[c].phase.Gone? ::
      c in before.members && before.members[c].device == device && before.members[c].phase.Gone?
  }

  lemma GoneChains(a: System, b: System, c: System, device: string)
    requires GoneOnlyIfBefore(a, b, device) && GoneOnlyIfBefore(b, c, device)
    ensures GoneOnlyIfBefore(a, c, device)
  {
  }

  /** Once revoked, a device's connections can no longer deregister themselves out of
      being severed, and the device stays revoked. */
  lemma RevokedStep(s: System, step: Step, device: string)
    requires Inv(s) && Enabled(s, step) && device in s.reg.revoked
    ensures device in Do(s, step).reg.revoked && GoneOnlyIfBefore(s, Do(s, step), device)
  {
    if step.Remove? {
      assert MemberHolds(s, step.conn);
    }
  }

  lemma {:induction false} RevokedRun(s: System, steps: seq<Step>, device: string)
    requires Inv(s) && Allowed(s, steps) && device in s.reg.revoked
    ensures device in Run(s, steps).reg.revoked && GoneOnlyIfBefore(s, Run(s, steps), device)
    decreases |steps|
  {
    if steps != [] {
      StepHolds(s, steps[0]);
      RevokedStep(s, steps[0], device);
      RevokedRun(Do(s, steps[0]), steps[1..], device);
      GoneChains(s, Do(s, steps[0]), Run(s, steps), device);
    }
  }

  /** Every started Add and every sweep has run to its end. */
  predicate Quiet(s: System) {
    && (forall k | 0 <= k < |s.sweeps| :: s.sweeps[k] == map[])
    && (forall c | c in s.members :: !s.members[c].phase.Refused?)
  }

  /** This connection is severed, or its closer is in the hands of a call that is about
      to sever it, or it had deregistered itself before the sweep. */
  predicate Severed(before: System, s: System, c: Conn)
    requires c in s.members
  {
    var m := s.members[c];
    || Fires(s, c) == 1
    || (m.phase.Refused? && Enabled(s, FireRefused(c)))
    || (m.phase.Taken? && m.handle.Some? && Enabled(s, FireTaken(m.phase.sweep, m.handle.value)))
    || (m.phase.Gone? && c in before.members && before.members[c].phase.Gone?)
  }

  lemma RevokedMember(before: System, s: System, device: string, c: Conn)
    requires Inv(s) && device in s.reg.revoked && GoneOnlyIfBefore(before, s, device)
    requires c in s.members && s.members[c].device == device
    ensures Severed(before, s, c)
    ensures Quiet(s) ==> Fires(s, c) == 1 || (c in before.members && before.members[c].phase.Gone? && Fires(s, c) == 0)
  {
    assert MemberHolds(s, c);
  }

  /** Revocation is complete. In every interleaving, from the moment CloseDevice has
      swept, every connection ever added for the device, before or since, is severed or
      about to be, or had already deregistered itself; and once the calls in flight have
      run out, every one that had not is severed exactly once. */
  lemma RevocationIsComplete(before: seq<Step>, more: seq<Step>, device: string)
    requires Allowed(START, before)
    requires Allowed(Do(Run(START, before), Sweep(device)), more)
    ensures var s0 := Run(START, before);
      var s := Run(Do(s0, Sweep(device)), more);
      forall c | c in s.members && s.members[c].device == device ::
        && Severed(s0, s, c)
        && (Quiet(s) ==> Fires(s, c) == 1 || (c in s0.members && s0.members[c].phase.Gone? && Fires(s, c) == 0))
  {
    var s0 := Run(START, before);
    RunHolds(START, before);
    var s1 := Do(s0, Sweep(device));
    SweepHolds(s0, device);
    RunHolds(s1, more);
    RevokedRun(s1, more, device);
    var s := Run(s1, more);
    forall c | c in s.members && s.members[c].device == device
      ensures Severed(s0, s, c)
      ensures Quiet(s) ==> Fires(s, c) == 1 || (c in s0.members && s0.members[c].phase.Gone? && Fires(s, c) == 0)
    {
      RevokedMember(s0, s, device, c);
    }
  }

  /** No closer is ever run twice, and one whose connection deregistered itself first is
      never run at all. */
  lemma ClosersRunAtMostOnce(steps: seq<Step>, c: Conn)
    requires Allowed(START, steps) && c in Run(START, steps).members
    ensures var s := Run(START, steps);
      Fires(s, c) == if s.members[c].phase.Fired? then 1 else 0
  {
    RunHolds(START, steps);
    assert MemberHolds(Run(START, steps), c);
  }

  /** What Live answers: whether any connection is registered at this moment. */
  lemma LiveIsExact(steps: seq<Step>)
    requires Allowed(START, steps)
    ensures var s := Run(START, steps);
      s.reg.live != map[] <==> exists c :: c in s.members && s.members[c].phase.Live?
  {
    RunHolds(START, steps);
    var s := Run(START, steps);
    if s.reg.live != map[] {
      var d :| d in s.reg.live;
      var h :| h in s.reg.live[d];
      var c := s.reg.live[d][h];
      assert Registered(s.reg, d, h, c) && MemberHolds(s, c);
    }
    if c :| c in s.members && s.members[c].phase.Live? {
      assert MemberHolds(s, c);
    }
  }
}
