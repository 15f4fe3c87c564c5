/** The shot protocol is not only safe but succeeds: on every bench on which commands take
    effect, engines arm, and pulses come within the polls of the wait that needs them. */
module HealthyRun {
  import opened TriggerBench
  import opened ShotProtocol
  import opened ReadyTrust

  // ---- events in time --------------------------------------------------------------

  /** What happens in `k` driver steps from time `t` on. */
  function Events(b: Bench, t: nat, k: nat): seq<Env>
    decreases k
  {
    if k == 0 then [] else b.script(t) + Events(b, t + 1, k - 1)
  }

  /** `es` occur in this order among `xs`. */
  predicate InOrder(es: seq<Env>, xs: seq<Env>)
    decreases |xs|
  {
    es == [] || (xs != [] && if xs[0] == es[0] then InOrder(es[1..], xs[1..]) else InOrder(es, xs[1..]))
  }

  /** They do before the last poll of a wait that starts at time `t`. */
  predicate Soon(b: Bench, t: nat, es: seq<Env>) {
    b.polls(t) > 0 && InOrder(es, Events(b, t, b.polls(t) - 1))
  }

  const MASTER: seq<Env> := [TakeEffect(0), BecomeReady(0), TimerEdge]

  /** What the wait for slave `j` waits for. If the master may be taken for complete too
      early, its pulse falls into the wait for the first slave. */
  function Arrival(j: nat, clears: bool): seq<Env> { if j == 1 && !clears then MASTER + [Deliver(1)] else [Deliver(j)] }

  /** Replies are legible; within any wait a slave's command takes effect and its engine
      arms, a pulse on its way arrives, and the master takes its command, arms and fires.
      `clears`: the master's CLEAR_SWEEPS takes effect in STOP. */
  ghost predicate Timely(b: Bench, n: nat, clears: bool) {
    && (forall t: nat :: b.legible(t) && Soon(b, t, MASTER))
    && (forall t: nat, j: nat | 1 <= j < n ::
        Soon(b, t, [TakeEffect(j), BecomeReady(j)]) && Soon(b, t, Arrival(j, clears)))
  }

  /** `n` scopes whose master does, or does not. */
  predicate Rig(w: World, n: nat, clears: bool) {
    WellFormed(w) && |w.scopes| == n && w.scopes[0].clearsInStop == clears
  }

  lemma {:induction false} InOrderTail(es: seq<Env>, xs: seq<Env>)
    requires es != [] && InOrder(es, xs)
    ensures InOrder(es[1..], xs)
    decreases |xs|
  {
    if xs[0] == es[0] {
      if |es| > 1 { if xs[0] == es[1] { InOrderTail(es[1..], xs[1..]); } }
    } else {
      InOrderTail(es, xs[1..]);
      if |es| > 1 && xs[0] == es[1] { InOrderTail(es[1..], xs[1..]); }
    }
  }

  // ---- a slave gets ready ----------------------------------------------------------

  /** An engine that has armed since SINGLE was written still shows it. */
  predicate Shows(s: Scope) { Awaiting(s) && (s.pending.None? && s.engine == Listening ==> HasReady(s.inr)) }

  /** What has yet to happen until it shows. */
  function ToReady(s: Scope, j: nat): seq<Env> {
    if s.pending.Some? then [TakeEffect(j), BecomeReady(j)] else if s.engine == Arming then [BecomeReady(j)] else []
  }

  predicate Arms(w: World, j: nat) { Along(w, j, During) && Shows(w.scopes[j]) }

  predicate ArmsAmong(w: World, j: nat, xs: seq<Env>) { Arms(w, j) && InOrder(ToReady(w.scopes[j], j), xs) }

  lemma StepArms(w: World, e: Env, j: nat, xs: seq<Env>)
    requires Arms(w, j)
    ensures Arms(EnvStep(w, e), j)
    ensures ArmsAmong(w, j, [e] + xs) ==> ArmsAmong(EnvStep(w, e), j, xs)
  {
    assert ([e] + xs)[1..] == xs;
    PlayOne(w, e);
    PlayStaysAlong(w, [e], j, During);
  }

  lemma {:induction false} PlayArms(w: World, es: seq<Env>, j: nat, xs: seq<Env>)
    requires Arms(w, j)
    ensures Arms(Play(w, es), j)
    ensures ArmsAmong(w, j, es + xs) ==> ArmsAmong(Play(w, es), j, xs)
    decreases |es|
  {
    if es == [] {
      assert es + xs == xs;
    } else {
      assert es + xs == [es[0]] + (es[1..] + xs);
      StepArms(w, es[0], j, es[1..] + xs);
      PlayArms(EnvStep(w, es[0]), es[1..], j, xs);
    }
  }

  lemma {:induction false} ReadbackArms(l: Live, b: Bench, j: nat, tries: nat)
    requires On(l, j) && Arms(l.w, j)
    ensures Arms(Readback(l, b, j, Single, tries).w, j)
    decreases tries
  {
    if tries > 0 {
      PlayArms(l.w, b.script(l.t), j, []);
      ReadbackArms(Settle(l, b), b, j, tries - 1);
    }
  }

  lemma AskedArms(l: Live, b: Bench, j: nat)
    requires On(l, j) && Along(l.w, j, Before)
    ensures Arms(Arm(l, b, j).w, j)
  {
    var w1 := Set(l.w, j, Cleared(At(l, j)));
    PlayStaysAlong(w1, b.script(l.t), j, Before);
    var l1 := Put(l, b, j, Cleared(At(l, j)));
    PlayStaysAlong(l1.w, b.script(l1.t), j, Before);
    var l2 := Settle(l1, b);
    PlayStaysAlong(l2.w, b.script(l2.t), j, Before);
    var l3 := Settle(l2, b);
    var w3 := Set(l3.w, j, Asked(At(l3, j), Single));
    assert Arms(w3, j);
    PlayArms(w3, b.script(l3.t), j, []);
    ReadbackArms(Put(l3, b, j, Asked(At(l3, j), Single)), b, j, READBACKS);
  }

  lemma {:induction false} PollSees(l: Live, b: Bench, j: nat, seen: Register, polls: nat)
    requires On(l, j) && polls > 0 && !HasReady(seen) && forall t: nat :: b.legible(t)
    requires ArmsAmong(l.w, j, Events(b, l.t, polls - 1))
    ensures PollReady(l, b, j, seen, polls).ok
    decreases polls
  {
    if !HasReady(At(l, j).inr) {
      var w' := Set(l.w, j, At(l, j).(inr := {}));
      assert polls > 1;
      PlayArms(w', b.script(l.t), j, Events(b, l.t + 1, polls - 2));
      PollSees(AfterInr(l, b, j), b, j, seen + InrValue(l, b, j), polls - 1);
    }
  }

  lemma ConfirmSucceeds(l: Live, b: Bench, j: nat, n: nat, clears: bool)
    requires Timely(b, n, clears) && On(l, j) && |l.w.scopes| == n && Along(l.w, j, Before)
    ensures ArmAndConfirm(l, b, j).ok
  {
    AskedArms(l, b, j);
    var asked := Arm(l, b, j);
    var s, es := At(asked, j), [TakeEffect(j), BecomeReady(j)];
    assert Soon(b, asked.t, es);
    InOrderTail(es, Events(b, asked.t, b.polls(asked.t) - 1));
    assert es[1..] == [BecomeReady(j)];
    PollSees(asked, b, j, {}, b.polls(asked.t));
  }

  // ---- a scope completes -----------------------------------------------------------

  /** What has yet to happen until the master has fired. */
  function ToFire(s: Scope): seq<Env> {
    if s.pending.Some? then MASTER else if s.engine == Arming then [BecomeReady(0), TimerEdge] else [TimerEdge]
  }

  /** What has yet to happen in shot `t` until scope `i` has captured. */
  function ToCapture(w: World, t: nat, i: nat): seq<Env>
    requires WellFormed(w) && i < |w.scopes|
  {
    if w.pulses == t then ToFire(w.scopes[0]) + if i == 0 then [] else [Deliver(i)]
    else if i == 0 || w.flight[i] == [] then []
    else [Deliver(i)]
  }

  predicate Captures(w: World, t: nat, i: nat, xs: seq<Env>) {
    i < |w.scopes| && FiringPhase(w, t, i) && InOrder(ToCapture(w, t, i), xs)
  }

  lemma FireTail(rest: seq<Env>)
    ensures (MASTER + rest)[1..] == [BecomeReady(0), TimerEdge] + rest
    ensures ([BecomeReady(0), TimerEdge] + rest)[1..] == [TimerEdge] + rest
    ensures ([TimerEdge] + rest)[1..] == rest
  {}

  lemma StepCaptures(w: World, e: Env, t: nat, i: nat, xs: seq<Env>)
    requires Captures(w, t, i, [e] + xs)
    ensures Captures(EnvStep(w, e), t, i, xs)
  {
    assert ([e] + xs)[1..] == xs;
    StepKeepsFiring(w, e, t, i);
    if i > 0 { assert SlaveFiring(w.scopes[i], w.flight[i], t, w.pulses == t + 1, i, i); }
    FireTail(if i == 0 then [] else [Deliver(i)]);
  }

  lemma {:induction false} PlayCaptures(w: World, es: seq<Env>, t: nat, i: nat, xs: seq<Env>)
    requires Captures(w, t, i, es + xs)
    ensures Captures(Play(w, es), t, i, xs)
    decreases |es|
  {
    if es == [] {
      assert es + xs == xs;
    } else {
      assert es + xs == [es[0]] + (es[1..] + xs);
      StepCaptures(w, es[0], t, i, es[1..] + xs);
      PlayCaptures(EnvStep(w, es[0]), es[1..], t, i, xs);
    }
  }

  lemma NothingLeft(w: World, t: nat, i: nat)
    requires Captures(w, t, i, [])
    ensures w.scopes[i].mode == Stopped && w.scopes[i].sweeps >= 1
  {
    if i > 0 { assert SlaveFiring(w.scopes[i], w.flight[i], t, w.pulses == t + 1, i, i); }
  }

  /** A scope that reads STOP with a counted sweep has both for good. */
  lemma StaysDone(w: World, es: seq<Env>, t: nat, i: nat)
    requires Captures(w, t, i, [])
    ensures Captures(Play(w, es), t, i, [])
  {
    assert InOrder([], es + []);
    PlayCaptures(w, es, t, i, []);
  }

  /** Enough happens in the next `m` driver steps. */
  predicate Due(l: Live, b: Bench, t: nat, i: nat, m: nat) { WellFormed(l.w) && Captures(l.w, t, i, Events(b, l.t, m)) }

  lemma StepDue(l: Live, b: Bench, t: nat, i: nat, m: nat) returns (l1: Live)
    requires m > 0 && Due(l, b, t, i, m)
    ensures l1 == Settle(l, b) && Due(l1, b, t, i, m - 1)
  {
    var es, xs := b.script(l.t), Events(b, l.t + 1, m - 1);
    assert Events(b, l.t, m) == es + xs;
    PlayCaptures(l.w, es, t, i, xs);
    l1 := Settle(l, b);
  }

  lemma DueNow(l: Live, b: Bench, t: nat, i: nat) returns (l1: Live)
    requires Due(l, b, t, i, 0)
    ensures At(l, i).mode == Stopped && At(l, i).sweeps >= 1
    ensures l1 == Settle(l, b) && Due(l1, b, t, i, 0)
  {
    NothingLeft(l.w, t, i);
    StaysDone(l.w, b.script(l.t), t, i);
    l1 := Settle(l, b);
  }

  /** A scope that is not complete has steps left. */
  lemma NotYet(l: Live, b: Bench, t: nat, i: nat, m: nat) returns (l1: Live)
    requires Due(l, b, t, i, m) && (At(l, i).mode != Stopped || At(l, i).sweeps == 0)
    ensures m > 0 && l1 == Settle(l, b) && Due(l1, b, t, i, m - 1)
  {
    if m == 0 { l1 := DueNow(l, b, t, i); }
    l1 := StepDue(l, b, t, i, m);
  }

  /** A STOP from before the arm took effect: the counter shows it at the next query. */
  lemma StaleStop(l: Live, b: Bench, t: nat, i: nat, m: nat) returns (l1: Live)
    requires Due(l, b, t, i, m) && At(Settle(l, b), i).sweeps == 0
    ensures m > 0 && l1 == Settle(l, b) && Due(l1, b, t, i, m - 1)
  {
    if m == 0 {
      l1 := DueNow(l, b, t, i);
      var l2 := DueNow(l1, b, t, i);
    }
    l1 := StepDue(l, b, t, i, m);
  }

  lemma StaleTurn(l: Live, b: Bench, t: nat, i: nat, m: nat) returns (l2: Live)
    requires Due(l, b, t, i, m) && At(Settle(l, b), i).sweeps == 0
    ensures m >= 2 && l2 == Settle(Settle(l, b), b) && Due(l2, b, t, i, m - 2)
  {
    var l1 := StaleStop(l, b, t, i, m);
    l2 := NotYet(l1, b, t, i, m - 1);
  }

  /** One turn of the completion wait that does not end it. */
  lemma PollTurn(l: Live, b: Bench, t: nat, i: nat, m: nat) returns (next: Live, left: nat)
    requires Due(l, b, t, i, m) && (At(l, i).mode != Stopped || At(Settle(l, b), i).sweeps == 0)
    ensures next == if At(l, i).mode != Stopped then Settle(l, b) else Settle(Settle(l, b), b)
    ensures left < m && Due(next, b, t, i, left)
  {
    if At(l, i).mode != Stopped {
      next := NotYet(l, b, t, i, m);
      left := m - 1;
    } else {
      next := StaleTurn(l, b, t, i, m);
      left := m - 2;
    }
  }

  lemma {:induction false} PollCompletes(l: Live, b: Bench, t: nat, i: nat, polls: nat, m: nat)
    requires On(l, i) && m < polls && (forall q: nat :: b.legible(q)) && Due(l, b, t, i, m)
    ensures PollComplete(l, b, i, polls).ok
    decreases polls
  {
    if At(l, i).mode != Stopped || At(Settle(l, b), i).sweeps == 0 {
      var next, left := PollTurn(l, b, t, i, m);
      PollCompletes(next, b, t, i, polls - 1, left);
    }
  }

  /** A tail of `MASTER + rest` comes in order if the whole does. */
  lemma TailInOrder(rest: seq<Env>, xs: seq<Env>)
    requires InOrder(MASTER + rest, xs)
    ensures InOrder([BecomeReady(0), TimerEdge] + rest, xs) && InOrder([TimerEdge] + rest, xs) && InOrder(rest, xs)
  {
    FireTail(rest);
    InOrderTail(MASTER + rest, xs);
    InOrderTail([BecomeReady(0), TimerEdge] + rest, xs);
    InOrderTail([TimerEdge] + rest, xs);
  }

  lemma CaptureIsSoon(w: World, t: nat, i: nat, n: nat, clears: bool, b: Bench, q: nat)
    requires Timely(b, n, clears) && Rig(w, n, clears) && i < n && FiringPhase(w, t, i)
    ensures b.polls(q) > 0 && Captures(w, t, i, Events(b, q, b.polls(q) - 1))
  {
    assert Soon(b, q, MASTER);
    var xs := Events(b, q, b.polls(q) - 1);
    if i == 0 {
      assert MASTER + [] == MASTER;
      TailInOrder([], xs);
    } else {
      assert Soon(b, q, Arrival(i, clears));
      if i == 1 && !clears { TailInOrder([Deliver(1)], xs); }
    }
  }

  lemma CompleteSucceeds(l: Live, b: Bench, t: nat, i: nat, n: nat, clears: bool)
    requires Timely(b, n, clears) && On(l, i) && Rig(l.w, n, clears) && FiringPhase(l.w, t, i)
    ensures WaitComplete(l, b, i).ok
  {
    PlayKeepsFiring(l.w, b.script(l.t), t, i);
    var l1 := Settle(l, b);
    CaptureIsSoon(l1.w, t, i, n, clears, b, l1.t);
    PollCompletes(l1, b, t, i, b.polls(l1.t), b.polls(l1.t) - 1);
  }

  // ---- whole runs ------------------------------------------------------------------

  /** Calls that succeed in the phases of a shot with these instruments. */
  ghost predicate Succeed(c: Calls, n: nat, clears: bool) {
    && (forall l: Live, j: nat, t: nat {:trigger Confirmed(l, j, t, c.confirm(l, j))} |
          On(l, j) && j >= 1 && Rig(l.w, n, clears) && ArmingPhase(l.w, t, j, false) :: c.confirm(l, j).ok)
    && (forall l: Live, j: nat, t: nat {:trigger Completed(l, j, t, c.complete(l, j))} |
          On(l, j) && Rig(l.w, n, clears) && FiringPhase(l.w, t, j) :: c.complete(l, j).ok)
  }

  lemma TimelySucceeds(b: Bench, n: nat, clears: bool)
    requires Timely(b, n, clears)
    ensures Succeed(Driver(b), n, clears)
  {
    var c := Driver(b);
    forall l: Live, j: nat, t: nat | On(l, j) && j >= 1 && Rig(l.w, n, clears) && ArmingPhase(l.w, t, j, false)
      ensures c.confirm(l, j).ok
    {
      assert SlaveArming(l.w.scopes[j], t, j, j, false);
      ConfirmSucceeds(l, b, j, n, clears);
    }
    forall l: Live, j: nat, t: nat | On(l, j) && Rig(l.w, n, clears) && FiringPhase(l.w, t, j)
      ensures c.complete(l, j).ok
    {
      CompleteSucceeds(l, b, t, j, n, clears);
    }
  }

  lemma {:induction false} SlavesSucceed(c: Calls, l: Live, j: nat, n: nat, clears: bool, t: nat)
    requires KeepsPhases(c) && Succeed(c, n, clears) && 1 <= j <= n && Rig(l.w, n, clears)
        && ArmingPhase(l.w, t, j, false)
    ensures ArmSlaves(c, l, j, n).ok
    decreases n - j
  {
    if j < n {
      var v := c.confirm(l, j);
      assert Confirmed(l, j, t, v);
      SlavesSucceed(c, v.l, j + 1, n, clears, t);
    }
  }

  lemma {:induction false} CompletionsSucceed(c: Calls, l: Live, j: nat, n: nat, clears: bool, t: nat)
    requires KeepsPhases(c) && Succeed(c, n, clears) && j <= n && Rig(l.w, n, clears) && FiringPhase(l.w, t, j)
    ensures WaitAll(c, l, j, n).ok
    decreases n - j
  {
    if j < n {
      var v := c.complete(l, j);
      assert Completed(l, j, t, v);
      CompletionsSucceed(c, v.l, j + 1, n, clears, t);
    }
  }

  lemma ShotSucceeds(c: Calls, l: Live, n: nat, clears: bool, t: nat)
    requires KeepsPhases(c) && Succeed(c, n, clears) && Rig(l.w, n, clears) && ArmingPhase(l.w, t, 1, false)
    ensures Shot(c, l).ok
  {
    SlavesSucceed(c, l, 1, n, clears, t);
    SlavesGetArmed(c, l, 1, n, t);
    var armed := ArmSlaves(c, l, 1, n);
    assert Fired(armed.l, t, c.fire(armed.l));
    CompletionsSucceed(c, c.fire(armed.l), 0, n, clears, t);
  }

  lemma {:induction false} ShotsSucceed(c: Calls, l: Live, n: nat, clears: bool, t: nat, shots: nat)
    requires KeepsPhases(c) && Succeed(c, n, clears)
    requires Rig(l.w, n, clears) && ArmingPhase(l.w, t, 1, false) && Dependable(l.w)
    ensures Shots(c, l, shots).done == shots
    decreases shots
  {
    if shots > 0 {
      ShotSucceeds(c, l, n, clears, t);
      ShotKeepsStep(c, l, t);
      ShotsSucceed(c, Shot(c, l).l, n, clears, t + 1, shots - 1);
    }
  }

  /** On every timely bench every shot of every run is confirmed, with any number of
      slaves, and every scope holds exactly the pulses so far; a lone scope has to be one
      that CLEAR_SWEEPS clears. */
  lemma EveryShotConfirmed(l: Live, b: Bench, t: nat, shots: nat)
    requires ArmingPhase(l.w, t, 1, false) && Dependable(l.w)
    requires Timely(b, |l.w.scopes|, l.w.scopes[0].clearsInStop)
    ensures var r := Shots(Driver(b), l, shots); r.done == shots && InStep(r.l.w, t + shots, false)
  {
    var n, clears := |l.w.scopes|, l.w.scopes[0].clearsInStop;
    DriverKeepsPhases(b);
    TimelySucceeds(b, n, clears);
    ShotsSucceed(Driver(b), l, n, clears, t, shots);
    EverySweepFromItsPulse(l, b, shots, t);
  }

  // ---- there are such benches ------------------------------------------------------

  function TakesFrom(i: nat, n: nat): seq<Env>
    decreases n - i
  {
    if i >= n then [] else [TakeEffect(i)] + TakesFrom(i + 1, n)
  }

  function ReadiesFrom(i: nat, n: nat): seq<Env>
    decreases n - i
  {
    if i >= n then [] else [BecomeReady(i)] + ReadiesFrom(i + 1, n)
  }

  function DeliversFrom(i: nat, n: nat): seq<Env>
    decreases n - i
  {
    if i >= n then [] else [Deliver(i)] + DeliversFrom(i + 1, n)
  }

  /** Everything happens after every driver step. */
  function PromptBench(n: nat): Bench {
    Bench(t => TakesFrom(0, n) + ReadiesFrom(0, n) + [TimerEdge] + DeliversFrom(0, n), t => true, t => 2)
  }

  lemma {:induction false} InOrderAppend(es: seq<Env>, fs: seq<Env>, xs: seq<Env>, ys: seq<Env>)
    requires InOrder(es, xs) && InOrder(fs, ys)
    ensures InOrder(es + fs, xs + ys)
    decreases |xs|
  {
    if xs == [] {
      assert es + fs == fs && xs + ys == ys;
    } else {
      assert (xs + ys)[1..] == xs[1..] + ys;
      if es == [] {
        assert es + fs == fs;
        InOrderAppend([], fs, xs[1..], ys);
        assert [] + fs == fs;
        if fs != [] && xs[0] == fs[0] { InOrderTail(fs, xs[1..] + ys); }
      } else {
        assert (es + fs)[1..] == es[1..] + fs;
        InOrderAppend(if xs[0] == es[0] then es[1..] else es, fs, xs[1..], ys);
      }
    }
  }

  lemma {:induction false} OneOfEach(i: nat, j: nat, n: nat)
    requires i <= j < n
    ensures InOrder([TakeEffect(j)], TakesFrom(i, n)) && InOrder([BecomeReady(j)], ReadiesFrom(i, n))
        && InOrder([Deliver(j)], DeliversFrom(i, n))
    decreases n - i
  {
    if i < j { OneOfEach(i + 1, j, n); }
  }

  /** The bench does all of it between any two driver steps. */
  lemma PromptOrder(j: nat, n: nat)
    requires j < n
    ensures var all := TakesFrom(0, n) + ReadiesFrom(0, n) + [TimerEdge] + DeliversFrom(0, n);
      InOrder([TakeEffect(j)] + [BecomeReady(j)] + [TimerEdge] + [Deliver(if j == 0 && n > 1 then 1 else j)], all)
  {
    var k := if j == 0 && n > 1 then 1 else j;
    var takes, readies, delivers := TakesFrom(0, n), ReadiesFrom(0, n), DeliversFrom(0, n);
    OneOfEach(0, j, n);
    OneOfEach(0, k, n);
    InOrderAppend([TakeEffect(j)], [BecomeReady(j)], takes, readies);
    InOrderAppend([TakeEffect(j)] + [BecomeReady(j)], [TimerEdge], takes + readies, [TimerEdge]);
    InOrderAppend([TakeEffect(j)] + [BecomeReady(j)] + [TimerEdge], [Deliver(k)], takes + readies + [TimerEdge],
        delivers);
  }

  lemma {:induction false} InOrderFront(es: seq<Env>, more: seq<Env>, xs: seq<Env>)
    requires InOrder(es + more, xs)
    ensures InOrder(es, xs)
    decreases |xs|
  {
    if es != [] {
      assert (es + more)[1..] == es[1..] + more;
      InOrderFront(if xs[0] == es[0] then es[1..] else es, more, xs[1..]);
    }
  }

  lemma {:induction false} InOrderBack(es: seq<Env>, more: seq<Env>, xs: seq<Env>)
    requires InOrder(es + more, xs)
    ensures InOrder(more, xs)
    decreases |es|
  {
    if es == [] {
      assert es + more == more;
    } else {
      assert (es + more)[1..] == es[1..] + more;
      InOrderTail(es + more, xs);
      InOrderBack(es[1..], more, xs);
    }
  }

  lemma PromptIsTimely(n: nat, clears: bool)
    requires n > 0
    ensures Timely(PromptBench(n), n, clears)
  {
    var b := PromptBench(n);
    var all := TakesFrom(0, n) + ReadiesFrom(0, n) + [TimerEdge] + DeliversFrom(0, n);
    forall t: nat ensures Events(b, t, b.polls(t) - 1) == all {
      assert all + Events(b, t + 1, 0) == all;
    }
    PromptOrder(0, n);
    var first := [TakeEffect(0)] + [BecomeReady(0)] + [TimerEdge];
    assert first == MASTER;
    InOrderFront(first, [Deliver(if n > 1 then 1 else 0)], all);
    forall t: nat, j: nat | 1 <= j < n
      ensures Soon(b, t, [TakeEffect(j), BecomeReady(j)]) && Soon(b, t, Arrival(j, clears))
    {
      PromptOrder(j, n);
      var arming := [TakeEffect(j)] + [BecomeReady(j)];
      assert arming == [TakeEffect(j), BecomeReady(j)];
      InOrderFront(arming + [TimerEdge], [Deliver(j)], all);
      InOrderFront(arming, [TimerEdge], all);
      InOrderBack(arming + [TimerEdge], [Deliver(j)], all);
    }
  }
}
