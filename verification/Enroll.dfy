/** Enrolment links (internal/auth/enroll.go): single-use tokens with a lifetime, and
    a failure limiter that keeps at most ten times. */
module Enroll {
  import opened Prelude
  import S = Store

  const ENROLL_TTL := 600 * NANOS_PER_SECOND
  const MAX_REDEEM_FAILURES := 10
  const REDEEM_FAILURE_WINDOW := 60 * NANOS_PER_SECOND

  datatype Pending = Pending(token: string, name: string, expiresAt: int)

  datatype Outcome = Enrolled(name: string) | NotStored | Invalid | Expired | TooMany

  // ------------------------------------------------------------------ the limiter

  /** The times after the cutoff, in order. */
  function After(times: seq<int>, cutoff: int): seq<int> {
    if times == [] then []
    else After(times[..|times| - 1], cutoff) + if times[|times| - 1] > cutoff then [times[|times| - 1]] else []
  }

  function Min(a: nat, b: nat): nat {
    if a <= b then a else b
  }

  /** The last n of these times. */
  function Tail(times: seq<int>, n: nat): seq<int>
    requires n <= |times|
  {
    times[|times| - n..]
  }

  function LastTen(times: seq<int>): seq<int> {
    Tail(times, Min(|times|, MAX_REDEEM_FAILURES))
  }

  lemma LastTenIs(times: seq<int>)
    ensures LastTen(times) == if |times| >= MAX_REDEEM_FAILURES then times[|times| - MAX_REDEEM_FAILURES..] else times
  {
  }

  /** One failure recorded: what is kept, and whether there are too many. */
  function Recorded(failures: seq<int>, now: int): (seq<int>, bool) {
    var kept := After(failures, now - REDEEM_FAILURE_WINDOW) + [now];
    (LastTen(kept), |kept| >= MAX_REDEEM_FAILURES)
  }

  /** What the limiter holds after failures at these times. */
  function Kept(times: seq<int>): seq<int> {
    if times == [] then [] else Recorded(Kept(times[..|times| - 1]), times[|times| - 1]).0
  }

  predicate NonDecreasing(times: seq<int>) {
    forall i, j | 0 <= i < j < |times| :: times[i] <= times[j]
  }

  /** Exactly the last n of these times lie after the cutoff. */
  predicate Cuts(times: seq<int>, cutoff: int, n: nat) {
    n <= |times| && forall i | 0 <= i < |times| :: times[i] > cutoff <==> i >= |times| - n
  }

  lemma CutsBefore(times: seq<int>, cutoff: int, n: nat)
    requires Cuts(times, cutoff, n) && times != []
    ensures times[|times| - 1] > cutoff <==> n > 0
    ensures Cuts(times[..|times| - 1], cutoff, if n > 0 then n - 1 else 0)
  {
    var init, m: nat := times[..|times| - 1], if n > 0 then n - 1 else 0;
    forall i | 0 <= i < |init|
      ensures init[i] > cutoff <==> i >= |init| - m
    {
      assert init[i] == times[i];
    }
  }

  lemma TailSnoc(times: seq<int>, n: nat)
    requires 0 < n <= |times|
    ensures Tail(times, n) == Tail(times[..|times| - 1], n - 1) + [times[|times| - 1]]
  {
  }

  lemma {:induction false} CutsIsATail(times: seq<int>, cutoff: int, n: nat)
    requires Cuts(times, cutoff, n)
    ensures After(times, cutoff) == Tail(times, n)
  {
    if times != [] {
      CutsBefore(times, cutoff, n);
      CutsIsATail(times[..|times| - 1], cutoff, if n > 0 then n - 1 else 0);
      if n > 0 {
        TailSnoc(times, n);
      }
    }
  }

  lemma {:induction false} AfterCuts(times: seq<int>, cutoff: int)
    requires NonDecreasing(times)
    ensures Cuts(times, cutoff, |After(times, cutoff)|)
    ensures After(times, cutoff) == Tail(times, |After(times, cutoff)|)
  {
    if times != [] {
      var init := times[..|times| - 1];
      if times[|times| - 1] > cutoff {
        AfterCuts(init, cutoff);
        assert Cuts(times, cutoff, |After(init, cutoff)| + 1);
        CutsIsATail(times, cutoff, |After(init, cutoff)| + 1);
      } else {
        CutsIsATail(times, cutoff, 0);
      }
    }
  }

  lemma {:induction false} AfterShrinks(times: seq<int>, early: int, late: int)
    requires early <= late
    ensures |After(times, late)| <= |After(times, early)|
  {
    if times != [] {
      AfterShrinks(times[..|times| - 1], early, late);
    }
  }

  lemma TailOfTail(times: seq<int>, n: nat, k: nat)
    requires k <= n <= |times|
    ensures Tail(Tail(times, n), k) == Tail(times, k)
  {
  }

  lemma AfterOfTail(times: seq<int>, n: nat, cutoff: int)
    requires NonDecreasing(times) && n <= |times|
    ensures |After(times, cutoff)| <= |times|
    ensures After(Tail(times, n), cutoff) == Tail(times, Min(n, |After(times, cutoff)|))
  {
    AfterCuts(times, cutoff);
    var m := Min(n, |After(times, cutoff)|);
    assert forall i | 0 <= i < n :: Tail(times, n)[i] == times[|times| - n + i];
    CutsIsATail(Tail(times, n), cutoff, m);
    TailOfTail(times, n, m);
  }

  lemma LastTenOfTail(times: seq<int>, n: nat)
    requires n <= |times|
    ensures LastTen(Tail(times, n)) == Tail(times, Min(n, MAX_REDEEM_FAILURES))
  {
    TailOfTail(times, n, Min(n, MAX_REDEEM_FAILURES));
  }

  /** Dropping the old ones twice, with all but the last ten dropped between, is the
      same as dropping them once, as far as ten of them go. */
  lemma AfterLastTen(times: seq<int>, early: int, late: int)
    requires NonDecreasing(times) && early <= late
    ensures After(LastTen(After(times, early)), late) == LastTen(After(times, late))
  {
    AfterCuts(times, early);
    AfterCuts(times, late);
    AfterShrinks(times, early, late);
    var e, l := |After(times, early)|, |After(times, late)|;
    LastTenOfTail(times, e);
    LastTenOfTail(times, l);
    AfterOfTail(times, Min(e, MAX_REDEEM_FAILURES), late);
  }

  lemma AfterSnoc(times: seq<int>, now: int, cutoff: int)
    requires now > cutoff
    ensures After(times + [now], cutoff) == After(times, cutoff) + [now]
  {
    assert (times + [now])[..|times|] == times;
  }

  lemma LastTenSnoc(times: seq<int>, now: int)
    ensures LastTen(LastTen(times) + [now]) == LastTen(times + [now])
  {
    var n := Min(|times|, MAX_REDEEM_FAILURES);
    assert LastTen(times) + [now] == Tail(times + [now], n + 1);
    LastTenOfTail(times + [now], n + 1);
  }

  /** A limiter that holds the last ten of the failures in the window still does once
      it has recorded one more. */
  lemma RecordedKeepsTheWindow(kept: seq<int>, early: seq<int>, now: int)
    requires var cutoff := now - REDEEM_FAILURE_WINDOW; After(kept, cutoff) == LastTen(After(early, cutoff))
    ensures var cutoff := now - REDEEM_FAILURE_WINDOW;
      Recorded(kept, now) == (LastTen(After(early + [now], cutoff)), |After(early + [now], cutoff)| >= MAX_REDEEM_FAILURES)
  {
    var cutoff := now - REDEEM_FAILURE_WINDOW;
    AfterSnoc(early, now, cutoff);
    LastTenSnoc(After(early, cutoff), now);
  }

  lemma Earlier(times: seq<int>)
    requires NonDecreasing(times) && times != []
    ensures NonDecreasing(times[..|times| - 1])
    ensures |times| > 1 ==> times[|times| - 2] <= times[|times| - 1]
  {
  }

  /** What is kept from before answers for everything from before. */
  lemma KeptStandsFor(early: seq<int>, kept: seq<int>, now: int)
    requires NonDecreasing(early + [now])
    requires kept == if early == [] then [] else LastTen(After(early, early[|early| - 1] - REDEEM_FAILURE_WINDOW))
    ensures After(kept, now - REDEEM_FAILURE_WINDOW) == LastTen(After(early, now - REDEEM_FAILURE_WINDOW))
  {
    assert (early + [now])[..|early|] == early;
    Earlier(early + [now]);
    if early != [] {
      AfterLastTen(early, early[|early| - 1] - REDEEM_FAILURE_WINDOW, now - REDEEM_FAILURE_WINDOW);
    }
  }

  lemma KeptSnoc(times: seq<int>, now: int)
    ensures Kept(times + [now]) == Recorded(Kept(times), now).0
  {
    assert (times + [now])[..|times|] == times;
  }

  lemma KeptAfter(early: seq<int>, now: int)
    requires var cutoff := now - REDEEM_FAILURE_WINDOW; After(Kept(early), cutoff) == LastTen(After(early, cutoff))
    ensures Kept(early + [now]) == LastTen(After(early + [now], now - REDEEM_FAILURE_WINDOW))
  {
    KeptSnoc(early, now);
    RecordedKeepsTheWindow(Kept(early), early, now);
  }

  lemma AnswersNext(times: seq<int>, last: int, now: int)
    requires NonDecreasing(times + [now]) && times != [] && times[|times| - 1] == last
    requires Kept(times) == LastTen(After(times, last - REDEEM_FAILURE_WINDOW))
    ensures var cutoff := now - REDEEM_FAILURE_WINDOW; After(Kept(times), cutoff) == LastTen(After(times, cutoff))
  {
    KeptStandsFor(times, Kept(times), now);
  }

  lemma OrderedBelow(times: seq<int>, now: int)
    requires NonDecreasing(times + [now])
    ensures NonDecreasing(times)
  {
    assert (times + [now])[..|times|] == times;
    Earlier(times + [now]);
  }

  lemma {:induction false} KeptAnswersFor(times: seq<int>, now: int)
    requires NonDecreasing(times + [now])
    ensures After(Kept(times), now - REDEEM_FAILURE_WINDOW) == LastTen(After(times, now - REDEEM_FAILURE_WINDOW))
    decreases |times|
  {
    if times != [] {
      var before, last := times[..|times| - 1], times[|times| - 1];
      assert times == before + [last];
      OrderedBelow(times, now);
      KeptAnswersFor(before, last);
      KeptAfter(before, last);
      AnswersNext(times, last, now);
    }
  }

  /** This failure and nine before it, of all there ever were, lie inside the window. */
  ghost predicate TenInTheWindow(times: seq<int>, now: int) {
    |After(times + [now], now - REDEEM_FAILURE_WINDOW)| >= MAX_REDEEM_FAILURES
  }

  /** The bounded limiter answers as one that kept every failure there ever was would:
      under a clock that does not run backwards it trips exactly when ten failures,
      this one among them, lie inside the window. */
  lemma LimiterIsExact(times: seq<int>, now: int)
    requires NonDecreasing(times + [now])
    ensures Recorded(Kept(times), now).1 <==> TenInTheWindow(times, now)
  {
    KeptAnswersFor(times, now);
    RecordedKeepsTheWindow(Kept(times), times, now);
  }

  /** Ten in the window means that the ninth before this one is less than a minute old. */
  lemma TenMeans(times: seq<int>, now: int)
    requires NonDecreasing(times + [now])
    ensures TenInTheWindow(times, now) <==> |times| >= 9 && now - times[|times| - 9] < 60_000_000_000
  {
    var all, cutoff := times + [now], now - REDEEM_FAILURE_WINDOW;
    AfterCuts(all, cutoff);
    if |times| >= 9 {
      assert all[|all| - 10] == times[|times| - 9];
    }
  }

  /** The order of the times matters: with times that step back, a failure two minutes
      ahead makes the bounded list forget nine that the stepped-back window still holds.
      The daemon's own clock cannot give such times, since the times time.Now reads are
      ordered by their monotonic reading; a clock put in its place can. */
  lemma SteppingBackForgets(t: int)
    ensures var times := seq(9, _ => t) + [t + 2 * REDEEM_FAILURE_WINDOW];
      TenInTheWindow(times, t) && !Recorded(Kept(times), t).1
  {
    var nine := seq(9, _ => t);
    var later := t + 2 * REDEEM_FAILURE_WINDOW;
    var times := nine + [later];
    assert TenInTheWindow(times, t) by {
      CutsIsATail(nine, t - REDEEM_FAILURE_WINDOW, 9);
      AfterSnoc(nine, later, t - REDEEM_FAILURE_WINDOW);
      AfterSnoc(times, t, t - REDEEM_FAILURE_WINDOW);
    }
    assert Kept(times) == [later] by {
      assert NonDecreasing(times);
      CutsIsATail(times, later - REDEEM_FAILURE_WINDOW, 1);
      KeptAnswersFor(nine, later);
      KeptAfter(nine, later);
      assert Tail(times, 1) == [later];
    }
    assert After([later], t - REDEEM_FAILURE_WINDOW) == [later] by {
      CutsIsATail([later], t - REDEEM_FAILURE_WINDOW, 1);
    }
  }

  // -------------------------------------------------------------------- the links

  datatype State = State(pending: seq<Pending>, failures: seq<int>)

  /** The last entry with this token: the search runs to the end whatever it finds. */
  function Find(ps: seq<Pending>, token: string): (i: Option<nat>)
    ensures i.Some? ==> i.value < |ps| && ps[i.value].token == token
    ensures i.None? ==> forall p | p in ps :: p.token != token
  {
    if ps == [] then None
    else if ps[|ps| - 1].token == token then Some(|ps| - 1)
    else Find(ps[..|ps| - 1], token)
  }

  function Without(ps: seq<Pending>, i: nat): seq<Pending>
    requires i < |ps|
  {
    ps[..i] + ps[i + 1..]
  }

  function Unexpired(ps: seq<Pending>, now: int): (r: seq<Pending>)
    ensures forall p :: p in r <==> p in ps && now < p.expiresAt
  {
    if ps == [] then []
    else Unexpired(ps[..|ps| - 1], now) + if now < ps[|ps| - 1].expiresAt then [ps[|ps| - 1]] else []
  }

  function Minted(s: State, token: string, name: string, now: int): State {
    s.(pending := Unexpired(s.pending, now) + [Pending(token, name, now + ENROLL_TTL)])
  }

  function Failed(s: State, now: int, why: Outcome): (State, Outcome) {
    var (kept, tooMany) := Recorded(s.failures, now);
    (s.(failures := kept), if tooMany then TooMany else why)
  }

  function Redeemed(s: State, token: string, now: int, stored: bool): (State, Outcome) {
    var i := Find(s.pending, token);
    if i.None? then Failed(s, now, Invalid)
    else if now >= s.pending[i.value].expiresAt then Failed(s.(pending := Without(s.pending, i.value)), now, Expired)
    else if !stored then (s, NotStored)
    else (s.(pending := Without(s.pending, i.value)), Enrolled(s.pending[i.value].name))
  }

  class Enroller {
    const store: S.Store
    var pending: seq<Pending>
    var failures: seq<int>

    ghost function Held(): State
      reads this
    {
      State(pending, failures)
    }

    constructor (store: S.Store)
      ensures this.store == store && Held() == State([], [])
    {
      this.store := store;
      pending, failures := [], [];
    }

    method DropExpired(now: int)
      modifies this`pending
      ensures pending == Unexpired(old(pending), now)
    {
      var kept: seq<Pending> := [];
      for i := 0 to |pending|
        invariant kept == Unexpired(pending[..i], now)
      {
        assert pending[..i + 1][..i] == pending[..i];
        if now < pending[i].expiresAt {
          kept := kept + [pending[i]];
        }
      }
      assert pending[..|pending|] == pending;
      pending := kept;
    }

    /** The token is drawn by the caller and has never been drawn before. */
    method Mint(token: string, name: string, now: int)
      modifies this
      ensures Held() == Minted(old(Held()), token, name, now)
    {
      DropExpired(now);
      pending := pending + [Pending(token, name, now + ENROLL_TTL)];
    }

    method FindPending(token: string) returns (found: Option<nat>)
      ensures found == Find(pending, token)
    {
      found := None;
      for i := 0 to |pending|
        invariant found == Find(pending[..i], token)
      {
        assert pending[..i + 1][..i] == pending[..i];
        if pending[i].token == token {
          found := Some(i);
        }
      }
      assert pending[..|pending|] == pending;
    }

    method RecordFailure(now: int, why: Outcome) returns (answer: Outcome)
      modifies this`failures
      ensures (Held(), answer) == Failed(old(Held()), now, why)
    {
      var cutoff := now - REDEEM_FAILURE_WINDOW;
      var kept: seq<int> := [];
      for i := 0 to |failures|
        invariant kept == After(failures[..i], cutoff)
      {
        assert failures[..i + 1][..i] == failures[..i];
        if failures[i] > cutoff {
          kept := kept + [failures[i]];
        }
      }
      assert kept == After(failures, cutoff) by {
        assert failures[..|failures|] == failures;
      }
      failures := kept + [now];
      LastTenIs(failures);
      if |failures| >= MAX_REDEEM_FAILURES {
        failures := failures[|failures| - MAX_REDEEM_FAILURES..];
        return TooMany;
      }
      return why;
    }

    /** `drawn` is the device as it would be stored under its entry's name, nothing when
        no randomness could be had; `ok` whether the file can be written. */
    method Redeem(token: string, drawn: Option<S.Device>, ok: bool, now: int) returns (answer: Outcome)
      requires S.Keyed(store.devices)
      modifies this, store
      ensures (Held(), answer) == Redeemed(old(Held()), token, now, drawn.Some? && ok)
      ensures S.Keyed(store.devices)
      ensures answer.Enrolled? ==> store.devices == old(store.devices)[drawn.value.id := drawn.value.(name := answer.name)]
      ensures !answer.Enrolled? && !answer.NotStored? ==> store.devices == old(store.devices) && store.file == old(store.file)
      ensures answer.NotStored? && (drawn.Some? ==> drawn.value.id !in old(store.devices)) ==>
                store.devices == old(store.devices) && store.file == old(store.file)
    {
      ghost var s := Held();
      var i := FindPending(token);
      if i.None? {
        answer := RecordFailure(now, Invalid);
        return;
      }
      var p := pending[i.value];
      if now >= p.expiresAt {
        pending := Without(pending, i.value);
        assert Held() == s.(pending := Without(s.pending, i.value));
        answer := RecordFailure(now, Expired);
        return;
      }
      if drawn.None? {
        return NotStored;
      }
      var added := store.AddDevice(drawn.value.(name := p.name), ok);
      assert Held() == s;
      if !added {
        return NotStored;
      }
      pending := Without(pending, i.value);
      return Enrolled(p.name);
    }
  }

  // ------------------------------------------------------ what becomes of each link

  datatype Op = Mint(token: string, name: string, now: int) | Redeem(token: string, now: int, stored: bool)

  function Done(s: State, op: Op): State {
    match op
    case Mint(token, name, now) => Minted(s, token, name, now)
    case Redeem(token, now, stored) => Redeemed(s, token, now, stored).0
  }

  function StateAfter(h: seq<Op>): State {
    if h == [] then State([], []) else Done(StateAfter(h[..|h| - 1]), h[|h| - 1])
  }

  /** Redemption k enrolled a device. */
  predicate Spends(h: seq<Op>, k: nat, token: string) {
    && k < |h| && h[k].Redeem? && h[k].token == token
    && Redeemed(StateAfter(h[..k]), token, h[k].now, h[k].stored).1.Enrolled?
  }

  ghost predicate Spent(h: seq<Op>, token: string) {
    exists k :: Spends(h, k, token)
  }

  predicate MintedAt(h: seq<Op>, m: nat, token: string) {
    m < |h| && h[m].Mint? && h[m].token == token
  }

  ghost predicate IsMinted(h: seq<Op>, token: string) {
    exists m :: MintedAt(h, m, token)
  }

  /** No token is drawn twice. */
  ghost predicate Distinct(h: seq<Op>) {
    forall i, j, token | MintedAt(h, i, token) && MintedAt(h, j, token) :: i == j
  }

  predicate OneEach(ps: seq<Pending>) {
    forall i, j | 0 <= i < j < |ps| :: ps[i].token != ps[j].token
  }

  /** This entry is the link minted at m. */
  predicate From(h: seq<Op>, m: nat, p: Pending) {
    MintedAt(h, m, p.token) && p == Pending(h[m].token, h[m].name, h[m].now + ENROLL_TTL)
  }

  ghost predicate Comes(h: seq<Op>, p: Pending) {
    exists m :: From(h, m, p)
  }

  /** Every entry is a link that was minted and not spent, and none is spent unminted. */
  ghost predicate Accounted(h: seq<Op>) {
    var ps := StateAfter(h).pending;
    && OneEach(ps)
    && (forall p | p in ps :: Comes(h, p) && !Spent(h, p.token))
    && (forall token | Spent(h, token) :: IsMinted(h, token))
  }

  lemma UnexpiredOneEach(ps: seq<Pending>, now: int)
    requires OneEach(ps)
    ensures OneEach(Unexpired(ps, now))
  {
    if ps != [] {
      UnexpiredOneEach(ps[..|ps| - 1], now);
    }
  }

  lemma WithoutIs(ps: seq<Pending>, i: nat)
    requires i < |ps| && OneEach(ps)
    ensures OneEach(Without(ps, i))
    ensures forall p :: p in Without(ps, i) <==> p in ps && p.token != ps[i].token
  {
    var r := Without(ps, i);
    forall p | p in ps && p.token != ps[i].token
      ensures p in r
    {
      var k :| 0 <= k < |ps| && ps[k] == p;
      assert r[if k < i then k else k - 1] == p;
    }
  }

  /** What one more operation changes: the mints and the spendings so far stay as they
      were. */
  lemma OneMore(h: seq<Op>, op: Op)
    ensures var g := h + [op];
      && StateAfter(g) == Done(StateAfter(h), op)
      && (forall k, token :: Spends(g, k, token) <==>
            Spends(h, k, token)
            || (k == |h| && op.Redeem? && op.token == token
                && Redeemed(StateAfter(h), token, op.now, op.stored).1.Enrolled?))
      && (forall m, token :: MintedAt(g, m, token) <==> MintedAt(h, m, token) || (m == |h| && op.Mint? && op.token == token))
  {
    var g := h + [op];
    assert g[..|h|] == h;
    forall k | 0 <= k < |h|
      ensures g[..k] == h[..k]
    {
    }
  }

  lemma StateStep(h: seq<Op>, op: Op)
    ensures StateAfter(h + [op]) == Done(StateAfter(h), op)
  {
    OneMore(h, op);
  }

  predicate SpendsNow(s: State, op: Op, token: string) {
    op.Redeem? && op.token == token && Redeemed(s, token, op.now, op.stored).1.Enrolled?
  }

  lemma SpentStep(h: seq<Op>, op: Op, token: string)
    ensures Spent(h + [op], token) <==> Spent(h, token) || SpendsNow(StateAfter(h), op, token)
  {
    OneMore(h, op);
    if k :| Spends(h, k, token) {
      assert Spends(h + [op], k, token);
    }
    if SpendsNow(StateAfter(h), op, token) {
      assert Spends(h + [op], |h|, token);
    }
  }

  lemma IsMintedStep(h: seq<Op>, op: Op, token: string)
    ensures IsMinted(h + [op], token) <==> IsMinted(h, token) || (op.Mint? && op.token == token)
  {
    OneMore(h, op);
    if m :| MintedAt(h, m, token) {
      assert MintedAt(h + [op], m, token);
    }
    if op.Mint? && op.token == token {
      assert MintedAt(h + [op], |h|, token);
    }
  }

  lemma ComesStep(h: seq<Op>, op: Op, p: Pending)
    requires Comes(h, p)
    ensures Comes(h + [op], p) && IsMinted(h, p.token)
  {
    var m :| From(h, m, p);
    assert From(h + [op], m, p) && MintedAt(h, m, p.token);
  }

  lemma ComesNow(h: seq<Op>, token: string, name: string, now: int)
    ensures Comes(h + [Mint(token, name, now)], Pending(token, name, now + ENROLL_TTL))
  {
    assert From(h + [Mint(token, name, now)], |h|, Pending(token, name, now + ENROLL_TTL));
  }

  lemma DistinctBefore(h: seq<Op>, op: Op)
    requires Distinct(h + [op])
    ensures Distinct(h)
    ensures op.Mint? ==> !IsMinted(h, op.token)
  {
    OneMore(h, op);
    assert op.Mint? ==> MintedAt(h + [op], |h|, op.token);
  }

  lemma AppendOneEach(ps: seq<Pending>, p: Pending)
    requires OneEach(ps) && forall q | q in ps :: q.token != p.token
    ensures OneEach(ps + [p])
  {
  }

  /** An entry after a mint: one from before, or the new one. */
  lemma MintEntry(h: seq<Op>, op: Op, p: Pending)
    requires Accounted(h) && op.Mint? && !IsMinted(h, op.token)
    requires p in StateAfter(h).pending || p == Pending(op.token, op.name, op.now + ENROLL_TTL)
    ensures p in StateAfter(h).pending ==> p.token != op.token
    ensures Comes(h + [op], p) && !Spent(h + [op], p.token)
  {
    SpentStep(h, op, p.token);
    if p in StateAfter(h).pending {
      ComesStep(h, op, p);
    } else {
      ComesNow(h, op.token, op.name, op.now);
    }
  }

  lemma SpentWasMinted(h: seq<Op>, op: Op, token: string)
    requires Accounted(h)
    ensures Spent(h + [op], token) ==> IsMinted(h + [op], token)
  {
    SpentStep(h, op, token);
    IsMintedStep(h, op, token);
    if Spent(h + [op], token) && !Spent(h, token) {
      var ps := StateAfter(h).pending;
      ComesStep(h, op, ps[Find(ps, token).value]);
    }
  }

  lemma MintedComes(h: seq<Op>, op: Op, p: Pending)
    requires Accounted(h) && op.Mint? && !IsMinted(h, op.token) && p in StateAfter(h + [op]).pending
    ensures Comes(h + [op], p) && !Spent(h + [op], p.token)
  {
    StateStep(h, op);
    MintEntry(h, op, p);
  }

  lemma MintedOneEach(s: State, op: Op)
    requires op.Mint? && OneEach(s.pending) && forall q | q in s.pending :: q.token != op.token
    ensures OneEach(Done(s, op).pending)
  {
    UnexpiredOneEach(s.pending, op.now);
    AppendOneEach(Unexpired(s.pending, op.now), Pending(op.token, op.name, op.now + ENROLL_TTL));
  }

  lemma SpentWereMinted(h: seq<Op>, op: Op)
    requires Accounted(h)
    ensures forall token | Spent(h + [op], token) :: IsMinted(h + [op], token)
  {
    forall token | Spent(h + [op], token)
      ensures IsMinted(h + [op], token)
    {
      SpentWasMinted(h, op, token);
    }
  }

  lemma MintAccounts(h: seq<Op>, op: Op)
    requires Accounted(h) && op.Mint? && !IsMinted(h, op.token)
    ensures Accounted(h + [op])
  {
    StateStep(h, op);
    var ps := StateAfter(h).pending;
    forall q | q in ps
      ensures q.token != op.token
    {
      MintEntry(h, op, q);
    }
    MintedOneEach(StateAfter(h), op);
    forall p | p in StateAfter(h + [op]).pending
      ensures Comes(h + [op], p) && !Spent(h + [op], p.token)
    {
      MintedComes(h, op, p);
    }
    SpentWereMinted(h, op);
  }

  lemma RedeemAccounts(h: seq<Op>, op: Op)
    requires Accounted(h) && op.Redeem?
    ensures Accounted(h + [op])
  {
    StateStep(h, op);
    var ps := StateAfter(h).pending;
    var i := Find(ps, op.token);
    if i.Some? {
      WithoutIs(ps, i.value);
    }
    forall p | p in StateAfter(h + [op]).pending
      ensures Comes(h + [op], p) && !Spent(h + [op], p.token)
    {
      assert p in ps;
      ComesStep(h, op, p);
      SpentStep(h, op, p.token);
    }
    SpentWereMinted(h, op);
  }

  lemma {:induction false} HistoryAccounts(h: seq<Op>)
    requires Distinct(h)
    ensures Accounted(h)
  {
    if h != [] {
      var g, op := h[..|h| - 1], h[|h| - 1];
      assert g + [op] == h;
      DistinctBefore(g, op);
      HistoryAccounts(g);
      if op.Mint? {
        MintAccounts(g, op);
      } else {
        RedeemAccounts(g, op);
      }
    }
  }

  /** Whatever the clock does, a token is spent at most once. */
  lemma SpentAtMostOnce(h: seq<Op>, token: string, i: nat, j: nat)
    requires Distinct(h) && Spends(h, i, token) && Spends(h, j, token)
    ensures i == j
  {
    if i < j {
      SpentBeforeIsNotSpentAgain(h, token, i, j);
    } else if j < i {
      SpentBeforeIsNotSpentAgain(h, token, j, i);
    }
  }

  lemma PrefixIsDistinct(h: seq<Op>, n: nat)
    requires Distinct(h) && n <= |h|
    ensures Distinct(h[..n])
  {
    assert forall m, token | MintedAt(h[..n], m, token) :: MintedAt(h, m, token);
  }

  lemma SpentBeforeIsNotSpentAgain(h: seq<Op>, token: string, i: nat, j: nat)
    requires Distinct(h) && i < j && Spends(h, i, token)
    ensures !Spends(h, j, token)
  {
    if j < |h| {
      PrefixIsDistinct(h, j);
      HistoryAccounts(h[..j]);
      assert Spent(h[..j], token) by {
        assert h[..j][..i] == h[..i];
        assert Spends(h[..j], i, token);
      }
      var ps := StateAfter(h[..j]).pending;
      assert forall p | p in ps :: p.token != token;
      assert Find(ps, token).None?;
    }
  }

  /** The clock does not run backwards. */
  predicate Ordered(h: seq<Op>) {
    forall i, j | 0 <= i < j < |h| :: h[i].now <= h[j].now
  }

  /** The link minted at m can still be opened at this time. */
  ghost predicate Open(h: seq<Op>, m: nat, token: string, now: int) {
    MintedAt(h, m, token) && now < h[m].now + 600_000_000_000 && !Spent(h, token)
  }

  function Link(h: seq<Op>, m: nat): Pending
    requires m < |h| && h[m].Mint?
  {
    Pending(h[m].token, h[m].name, h[m].now + ENROLL_TTL)
  }

  /** A link that is neither spent nor past its time is still held. */
  ghost predicate HeldOpen(h: seq<Op>, now: int) {
    forall m: nat, token | Open(h, m, token, now) :: Link(h, m) in StateAfter(h).pending
  }

  /** An open link was open before, or is the one just minted. */
  lemma OpenBefore(h: seq<Op>, op: Op, m: nat, token: string)
    requires Open(h + [op], m, token, op.now)
    ensures m < |h| ==> Open(h, m, token, op.now) && Link(h + [op], m) == Link(h, m) && !SpendsNow(StateAfter(h), op, token)
    ensures m >= |h| ==> m == |h| && op.Mint?
  {
    SpentStep(h, op, token);
  }

  /** An operation leaves every unexpired entry it does not spend. */
  lemma KeepsOpen(s: State, op: Op, p: Pending)
    requires p in s.pending && op.now < p.expiresAt && OneEach(s.pending) && !SpendsNow(s, op, p.token)
    ensures p in Done(s, op).pending
  {
    if op.Redeem? && Find(s.pending, op.token).Some? {
      WithoutIs(s.pending, Find(s.pending, op.token).value);
    }
  }

  lemma OpenStaysHeld(h: seq<Op>, op: Op, m: nat, token: string)
    requires HeldOpen(h, op.now) && OneEach(StateAfter(h).pending) && Open(h + [op], m, token, op.now)
    ensures Link(h + [op], m) in Done(StateAfter(h), op).pending
  {
    OpenBefore(h, op, m, token);
    var s := StateAfter(h);
    if m < |h| {
      var link := Link(h, m);
      assert link in s.pending by {
        assert Open(h, m, token, op.now);
      }
      KeepsOpen(s, op, link);
    } else {
      assert Link(h + [op], m) == Minted(s, op.token, op.name, op.now).pending[|Unexpired(s.pending, op.now)|];
    }
  }

  lemma HeldOpenStep(h: seq<Op>, op: Op)
    requires HeldOpen(h, op.now) && Accounted(h)
    ensures HeldOpen(h + [op], op.now)
  {
    StateStep(h, op);
    forall m: nat, token | Open(h + [op], m, token, op.now)
      ensures Link(h + [op], m) in StateAfter(h + [op]).pending
    {
      OpenStaysHeld(h, op, m, token);
    }
  }

  lemma OrderedBefore(h: seq<Op>, op: Op)
    requires Ordered(h + [op])
    ensures Ordered(h)
    ensures h != [] ==> h[|h| - 1].now <= op.now
  {
    assert forall i | 0 <= i < |h| :: (h + [op])[i] == h[i];
    assert (h + [op])[|h|] == op;
  }

  lemma OpenEarlier(h: seq<Op>, earlier: int, now: int)
    requires HeldOpen(h, earlier) && earlier <= now
    ensures HeldOpen(h, now)
  {
    forall m: nat, token | Open(h, m, token, now)
      ensures Link(h, m) in StateAfter(h).pending
    {
      assert Open(h, m, token, earlier);
    }
  }

  lemma {:induction false} HistoryHoldsOpen(h: seq<Op>, now: int)
    requires Distinct(h) && Ordered(h) && (h != [] ==> h[|h| - 1].now <= now)
    ensures HeldOpen(h, now)
  {
    if h != [] {
      var g, op := h[..|h| - 1], h[|h| - 1];
      assert g + [op] == h;
      DistinctBefore(g, op);
      OrderedBefore(g, op);
      HistoryHoldsOpen(g, op.now);
      HistoryAccounts(g);
      HeldOpenStep(g, op);
      OpenEarlier(h, op.now, now);
    }
  }

  lemma FindIs(ps: seq<Pending>, p: Pending)
    requires p in ps && OneEach(ps)
    ensures Find(ps, p.token).Some? && ps[Find(ps, p.token).value] == p
  {
    var i := Find(ps, p.token).value;
    var k :| 0 <= k < |ps| && ps[k] == p;
    assert i == k;
  }

  ghost predicate SomeOpen(h: seq<Op>, token: string, now: int) {
    exists m: nat :: Open(h, m, token, now)
  }

  /** A link opens exactly when it may. Opened before its time is up and never spent, it
      enrols under its own name, or leaves everything as it was if the device could not
      be stored, whatever the limiter says. */
  lemma OpenLinkOpens(h: seq<Op>, token: string, now: int, stored: bool, m: nat)
    requires Distinct(h) && Ordered(h + [Redeem(token, now, stored)]) && Open(h, m, token, now)
    ensures Redeemed(StateAfter(h), token, now, stored).1 == if stored then Enrolled(h[m].name) else NotStored
    ensures !stored ==> Redeemed(StateAfter(h), token, now, stored).0 == StateAfter(h)
  {
    OrderedBefore(h, Redeem(token, now, stored));
    HistoryAccounts(h);
    HistoryHoldsOpen(h, now);
    FindIs(StateAfter(h).pending, Link(h, m));
  }

  /** A link for this token is still held, past its time or not. */
  ghost predicate Listed(h: seq<Op>, token: string) {
    exists p :: p in StateAfter(h).pending && p.token == token
  }

  /** Any other token is refused: told there were too many when ten failures lie in the
      last minute, this one among them, and otherwise that it has expired when its link is
      still listed, and that it is invalid when there is none: never minted, already
      spent, or dropped after its time. An expired link is unlisted by its refusal. */
  lemma OtherLinksDoNot(h: seq<Op>, token: string, now: int, stored: bool)
    requires Distinct(h) && !SomeOpen(h, token, now)
    ensures var (s, answer) := Redeemed(StateAfter(h), token, now, stored);
      && answer == (if Recorded(StateAfter(h).failures, now).1 then TooMany else if Listed(h, token) then Expired else Invalid)
      && (forall p :: p in s.pending <==> p in StateAfter(h).pending && p.token != token)
  {
    HistoryAccounts(h);
    var ps := StateAfter(h).pending;
    var i := Find(ps, token);
    if i.Some? {
      var p := ps[i.value];
      assert Comes(h, p) && !Spent(h, token);
      var k :| From(h, k, p);
      assert now < p.expiresAt ==> Open(h, k, token, now);
      WithoutIs(ps, i.value);
      assert p in ps && p.token == token;
    }
  }

  /** A link that was minted stays listed until it is spent or the ten minutes are over. */
  lemma OpenIsListed(h: seq<Op>, m: nat, token: string)
    requires Distinct(h) && Ordered(h) && MintedAt(h, m, token)
    requires !Spent(h, token) && h[|h| - 1].now < h[m].now + 600_000_000_000
    ensures Listed(h, token)
  {
    HistoryHoldsOpen(h, h[|h| - 1].now);
    assert Open(h, m, token, h[|h| - 1].now);
    assert Link(h, m) in StateAfter(h).pending && Link(h, m).token == token;
  }

  // ----------------------------------------------------- the limiter over a history

  predicate Refuses(s: State, op: Op) {
    op.Redeem? && Redeemed(s, op.token, op.now, op.stored).1 in {Invalid, Expired, TooMany}
  }

  /** When each refused redemption was, however long ago. */
  function FailureTimes(h: seq<Op>): seq<int> {
    if h == [] then []
    else
      var g, op := h[..|h| - 1], h[|h| - 1];
      if Refuses(StateAfter(g), op) then FailureTimes(g) + [op.now] else FailureTimes(g)
  }

  lemma OnlyRefusalsAreRecorded(s: State, op: Op)
    ensures Done(s, op).failures == if Refuses(s, op) then Recorded(s.failures, op.now).0 else s.failures
  {
  }

  lemma {:induction false} FailuresAreKept(h: seq<Op>)
    ensures StateAfter(h).failures == Kept(FailureTimes(h))
  {
    if h != [] {
      var g, op := h[..|h| - 1], h[|h| - 1];
      FailuresAreKept(g);
      OnlyRefusalsAreRecorded(StateAfter(g), op);
      KeptSnoc(FailureTimes(g), op.now);
    }
  }

  lemma OrderedGrows(times: seq<int>, earlier: int, now: int)
    requires NonDecreasing(times + [earlier]) && earlier <= now
    ensures NonDecreasing(times + [now]) && NonDecreasing(times + [earlier] + [now])
  {
    var a := times + [earlier];
    assert forall i | 0 <= i < |times| :: a[i] == times[i] && a[i] <= a[|times|];
  }

  lemma FailuresStayOrdered(h: seq<Op>, op: Op, now: int)
    requires NonDecreasing(FailureTimes(h) + [op.now]) && op.now <= now
    ensures NonDecreasing(FailureTimes(h + [op]) + [now])
  {
    var times := FailureTimes(h);
    assert FailureTimes(h + [op]) == if Refuses(StateAfter(h), op) then times + [op.now] else times by {
      assert (h + [op])[..|h|] == h;
    }
    OrderedGrows(times, op.now, now);
  }

  lemma {:induction false} FailuresAreOrdered(h: seq<Op>, now: int)
    requires Ordered(h) && (h != [] ==> h[|h| - 1].now <= now)
    ensures NonDecreasing(FailureTimes(h) + [now])
  {
    if h != [] {
      var g, op := h[..|h| - 1], h[|h| - 1];
      assert g + [op] == h;
      OrderedBefore(g, op);
      FailuresAreOrdered(g, op.now);
      FailuresStayOrdered(g, op, now);
    }
  }

  lemma TooManyIs(s: State, op: Op)
    requires op.Redeem?
    ensures Redeemed(s, op.token, op.now, op.stored).1.TooMany? <==> Refuses(s, op) && Recorded(s.failures, op.now).1
  {
  }

  lemma TimesAreOrdered(h: seq<Op>, op: Op)
    requires Ordered(h + [op])
    ensures NonDecreasing(FailureTimes(h) + [op.now])
  {
    OrderedBefore(h, op);
    FailuresAreOrdered(h, op.now);
  }

  lemma TenInHistory(h: seq<Op>, op: Op)
    requires Ordered(h + [op])
    ensures var times := FailureTimes(h);
      TenInTheWindow(times, op.now) <==> |times| >= 9 && op.now - times[|times| - 9] < 60_000_000_000
  {
    TimesAreOrdered(h, op);
    TenMeans(FailureTimes(h), op.now);
  }

  lemma LimiterOverHistory(h: seq<Op>, token: string, now: int, stored: bool)
    requires Ordered(h + [Redeem(token, now, stored)])
    ensures Redeemed(StateAfter(h), token, now, stored).1.TooMany?
      <==> Refuses(StateAfter(h), Redeem(token, now, stored)) && TenInTheWindow(FailureTimes(h), now)
  {
    var times := FailureTimes(h);
    TimesAreOrdered(h, Redeem(token, now, stored));
    LimiterIsExact(times, now);
    FailuresAreKept(h);
    TooManyIs(StateAfter(h), Redeem(token, now, stored));
  }

  /** What the limiter answers, over any history: a refused redemption is told there
      were too many exactly when ten refusals there ever were, itself among them, lie in
      the last minute; and nothing but a refusal is ever told so. */
  lemma LimiterOnHistory(h: seq<Op>, token: string, now: int, stored: bool)
    requires Ordered(h + [Redeem(token, now, stored)])
    ensures var times := FailureTimes(h);
      Redeemed(StateAfter(h), token, now, stored).1.TooMany?
      <==> && Refuses(StateAfter(h), Redeem(token, now, stored))
           && |times| >= 9 && now - times[|times| - 9] < 60_000_000_000
  {
    LimiterOverHistory(h, token, now, stored);
    TenInHistory(h, Redeem(token, now, stored));
  }
}
