/** Runs of many synchronized shots: each shot arms and confirms every slave, arms
    the master once, and waits until every scope has completed. */
module ShotProtocol {
  import opened Common
  import opened TriggerBench

  /** Pulses 0 .. t-1, in order. */
  function Pulses(t: nat): seq<nat> { if t == 0 then [] else Pulses(t - 1) + [t - 1] }

  // ---- the protocol ------------------------------------------------------------

  /** The calls a shot is made of: arm and confirm slave `j`, arm the master, wait
      for scope `j` to complete. */
  datatype Calls = Calls(confirm: (Live, nat) -> Verdict, fire: Live -> Live, complete: (Live, nat) -> Verdict)

  /** The driver's own calls on a bench. */
  function Driver(b: Bench): Calls {
    Calls((l: Live, j: nat) => if On(l, j) then ArmAndConfirm(l, b, j) else Verdict(false, l),
          (l: Live) => if On(l, 0) then ArmMaster(l, b, 0) else l,
          (l: Live, j: nat) => if On(l, j) then WaitComplete(l, b, j) else Verdict(false, l))
  }

  /** Slaves `j` to `n - 1`, up to the first that is not confirmed. */
  function ArmSlaves(c: Calls, l: Live, j: nat, n: nat): Verdict
    decreases n - j
  {
    if j >= n then Verdict(true, l)
    else
      var v := c.confirm(l, j);
      if v.ok then ArmSlaves(c, v.l, j + 1, n) else v
  }

  function WaitAll(c: Calls, l: Live, j: nat, n: nat): Verdict
    decreases n - j
  {
    if j >= n then Verdict(true, l)
    else
      var v := c.complete(l, j);
      if v.ok then WaitAll(c, v.l, j + 1, n) else v
  }

  function Shot(c: Calls, l: Live): Verdict {
    var n := |l.w.scopes|;
    var armed := ArmSlaves(c, l, 1, n);
    if armed.ok then WaitAll(c, c.fire(armed.l), 0, n) else armed
  }

  datatype Campaign = Campaign(done: nat, l: Live)

  /** Up to `n` shots; the run stops at the first that is not confirmed. */
  function Shots(c: Calls, l: Live, n: nat): Campaign
    decreases n
  {
    if n == 0 then Campaign(0, l)
    else
      var v := Shot(c, l);
      if !v.ok then Campaign(0, v.l)
      else
        var rest := Shots(c, v.l, n - 1);
        Campaign(rest.done + 1, rest.l)
  }

  // ---- phases of one scope in shot t -------------------------------------------

  /** A scope whose next ready bit can only stem from the next arm: no stale bit, not
      arming or sweeping by itself, and no command under way that would arm it. */
  predicate Settled(s: Scope) {
    !HasReady(s.inr) && s.engine != Arming && !AutoRuns(s) && (s.pending.None? || s.pending == Some(Stopped))
  }

  /** SINGLE was written; a latched ready bit can only stem from this arm. */
  predicate Awaiting(s: Scope) {
    if s.pending.Some? then s.pending == Some(Single) && Settled(s.(pending := None))
    else s.mode == Single && s.engine != Idle && (s.engine == Arming ==> !HasReady(s.inr))
  }

  predicate Listens(s: Scope) { s.pending.None? && s.mode == Single && s.engine == Listening }

  /** Between shots. */
  predicate Quiet(s: Scope, t: nat) { s.captured == Pulses(t) && s.pending.None? && Settled(s) }

  predicate Asking(s: Scope, t: nat) { s.captured == Pulses(t) && Awaiting(s) }

  predicate Armed(s: Scope, t: nat) { s.captured == Pulses(t) && Listens(s) && !HasReady(s.inr) }

  predicate Caught(s: Scope, t: nat) {
    && s.captured == Pulses(t + 1) && s.pending.None? && s.mode == Stopped && s.engine == Idle
    && !HasReady(s.inr) && s.sweeps >= 1
  }

  predicate MasterIdle(s: Scope, t: nat) {
    s.captured == Pulses(t) && s.pending.None? && s.engine == Idle
  }

  predicate MasterOut(s: Scope, t: nat) {
    && s.captured == Pulses(t) && (s.clearsInStop ==> s.sweeps == 0)
    && if s.pending.Some? then s.pending == Some(Single) && s.engine == Idle else s.mode == Single && s.engine != Idle
  }

  predicate MasterFired(s: Scope, t: nat) { MasterIdle(s, t + 1) && s.mode == Stopped && s.sweeps >= 1 }

  /** The same instruments, later. */
  predicate Follows(l: Live, l': Live) { WellFormed(l.w) && WellFormed(l'.w) && SameSetup(l.w, l'.w) }

  // ---- phases of the bench -----------------------------------------------------

  predicate SlaveArming(s: Scope, t: nat, j: nat, m: nat, asking: bool) {
    if j < m then Armed(s, t) else if j == m && asking then Asking(s, t) else Quiet(s, t)
  }

  /** Slaves before `m` are armed, `m` is being armed if `asking`, the rest and the
      master are at rest, and no pulse is on its way. */
  predicate ArmingPhase(w: World, t: nat, m: nat, asking: bool) {
    && WellFormed(w) && w.pulses == t && MasterIdle(w.scopes[0], t)
    && (forall j: nat | 1 <= j < |w.scopes| :: w.flight[j] == [] && SlaveArming(w.scopes[j], t, j, m, asking))
  }

  predicate SlaveFiring(s: Scope, flight: seq<nat>, t: nat, fired: bool, j: nat, k: nat) {
    (fired && flight == [] && Caught(s, t)) || (k <= j && flight == (if fired then [t] else []) && Armed(s, t))
  }

  /** The master was armed; once it has fired, its pulse is on the way to a slave
      or was captured by it, and slaves before `k` have captured. Before, only a master
      that kept its count and its STOP can have been taken for complete. */
  predicate FiringPhase(w: World, t: nat, k: nat) {
    && WellFormed(w)
    && (if w.pulses == t then k <= (if w.scopes[0].clearsInStop then 0 else 1) && MasterOut(w.scopes[0], t)
        else w.pulses == t + 1 && MasterFired(w.scopes[0], t))
    && (forall j: nat | 1 <= j < |w.scopes| :: SlaveFiring(w.scopes[j], w.flight[j], t, w.pulses == t + 1, j, k))
  }

  // ---- what the phases say about the captures ----------------------------------

  /** Every scope holds the first `t` pulses in order; one shot more at most, and
      only if `more`. */
  predicate InStep(w: World, t: nat, more: bool) {
    forall j: nat | j < |w.scopes| ::
        w.scopes[j].captured == Pulses(t) || (more && w.scopes[j].captured == Pulses(t + 1))
  }

  lemma ArmingIsInStep(w: World, t: nat, m: nat, asking: bool)
    requires ArmingPhase(w, t, m, asking)
    ensures InStep(w, t, false)
  {
    forall j: nat | 1 <= j < |w.scopes| ensures w.scopes[j].captured == Pulses(t) {
      assert SlaveArming(w.scopes[j], t, j, m, asking);
    }
  }

  lemma FiringIsInStep(w: World, t: nat, k: nat)
    requires FiringPhase(w, t, k)
    ensures InStep(w, t, true)
  {
    forall j: nat | 1 <= j < |w.scopes| ensures w.scopes[j].captured in {Pulses(t), Pulses(t + 1)} {
      assert SlaveFiring(w.scopes[j], w.flight[j], t, w.pulses == t + 1, j, k);
    }
  }

  // ---- the environment keeps the phases ----------------------------------------

  lemma OwnStepsKeepArming(s: Scope, t: nat, j: nat, m: nat, asking: bool, bits: Register)
    requires SlaveArming(s, t, j, m, asking)
    ensures SlaveArming(Takes(s), t, j, m, asking) && SlaveArming(Ready(s), t, j, m, asking)
    ensures SlaveArming(FreeRun(s), t, j, m, asking) && SlaveArming(Status(s, bits), t, j, m, asking)
  {}

  lemma StepKeepsArming(w: World, e: Env, t: nat, m: nat, asking: bool)
    requires ArmingPhase(w, t, m, asking)
    ensures ArmingPhase(EnvStep(w, e), t, m, asking)
  {
    if !e.TimerEdge? && 1 <= e.i < |w.scopes| {
      OwnStepsKeepArming(w.scopes[e.i], t, e.i, m, asking, if e.Other? then e.bits else {});
    }
  }

  lemma {:induction false} PlayKeepsArming(w: World, es: seq<Env>, t: nat, m: nat, asking: bool)
    requires ArmingPhase(w, t, m, asking)
    ensures ArmingPhase(Play(w, es), t, m, asking)
    decreases |es|
  {
    if es != [] {
      StepKeepsArming(w, es[0], t, m, asking);
      PlayKeepsArming(EnvStep(w, es[0]), es[1..], t, m, asking);
    }
  }

  lemma OwnStepsKeepFiring(s: Scope, flight: seq<nat>, t: nat, fired: bool, j: nat, k: nat, bits: Register)
    requires SlaveFiring(s, flight, t, fired, j, k)
    ensures SlaveFiring(Takes(s), flight, t, fired, j, k) && SlaveFiring(Ready(s), flight, t, fired, j, k)
    ensures SlaveFiring(FreeRun(s), flight, t, fired, j, k) && SlaveFiring(Status(s, bits), flight, t, fired, j, k)
    ensures flight != [] ==> flight[1..] == [] && SlaveFiring(Hit(s, flight[0]), flight[1..], t, fired, j, k)
    ensures !fired ==> SlaveFiring(s, flight + [t], t, true, j, k)
  {}

  lemma StepKeepsFiring(w: World, e: Env, t: nat, k: nat)
    requires FiringPhase(w, t, k)
    ensures FiringPhase(EnvStep(w, e), t, k)
  {
    var w' := EnvStep(w, e);
    forall j: nat | 1 <= j < |w.scopes|
      ensures SlaveFiring(w'.scopes[j], w'.flight[j], t, w'.pulses == t + 1, j, k)
    {
      assert SlaveFiring(w.scopes[j], w.flight[j], t, w.pulses == t + 1, j, k);
      OwnStepsKeepFiring(w.scopes[j], w.flight[j], t, w.pulses == t + 1, j, k, if e.Other? then e.bits else {});
    }
  }

  lemma {:induction false} PlayKeepsFiring(w: World, es: seq<Env>, t: nat, k: nat)
    requires FiringPhase(w, t, k)
    ensures FiringPhase(Play(w, es), t, k)
    decreases |es|
  {
    if es != [] {
      StepKeepsFiring(w, es[0], t, k);
      PlayKeepsFiring(EnvStep(w, es[0]), es[1..], t, k);
    }
  }

  // ---- arming the slaves -------------------------------------------------------

  lemma {:induction false} ReadbackKeepsArming(l: Live, b: Bench, i: nat, m: Mode, tries: nat, t: nat, n: nat,
                                               asking: bool)
    requires On(l, i) && ArmingPhase(l.w, t, n, asking)
    ensures ArmingPhase(Readback(l, b, i, m, tries).w, t, n, asking)
    decreases tries
  {
    if tries > 0 {
      PlayKeepsArming(l.w, b.script(l.t), t, n, asking);
      ReadbackKeepsArming(Settle(l, b), b, i, m, tries - 1, t, n, asking);
    }
  }

  lemma AskedIsAsking(l: Live, b: Bench, j: nat, t: nat)
    requires On(l, j) && j >= 1 && ArmingPhase(l.w, t, j, false)
    ensures ArmingPhase(Put(l, b, j, Asked(At(l, j), Single)).w, t, j, true)
  {
    var w' := Set(l.w, j, Asked(At(l, j), Single));
    assert SlaveArming(At(l, j), t, j, j, false);
    PlayKeepsArming(w', b.script(l.t), t, j, true);
  }

  lemma ArmReachesAsking(l: Live, b: Bench, j: nat, t: nat)
    requires On(l, j) && j >= 1 && ArmingPhase(l.w, t, j, false)
    ensures ArmingPhase(Arm(l, b, j).w, t, j, true)
  {
    var w1 := Set(l.w, j, Cleared(At(l, j)));
    assert ArmingPhase(w1, t, j, false);
    PlayKeepsArming(w1, b.script(l.t), t, j, false);
    var l1 := Put(l, b, j, Cleared(At(l, j)));
    PlayKeepsArming(l1.w, b.script(l1.t), t, j, false);
    var l2 := Settle(l1, b);
    PlayKeepsArming(l2.w, b.script(l2.t), t, j, false);
    var l3 := Settle(l2, b);
    AskedIsAsking(l3, b, j, t);
    ReadbackKeepsArming(Put(l3, b, j, Asked(At(l3, j), Single)), b, j, Single, READBACKS, t, j, true);
  }

  lemma {:induction false} ReadyMeansArmed(l: Live, b: Bench, j: nat, seen: Register, polls: nat, t: nat)
    requires On(l, j) && j >= 1 && ArmingPhase(l.w, t, j, true) && !HasReady(seen)
    ensures var v := PollReady(l, b, j, seen, polls);
      if v.ok then ArmingPhase(v.l.w, t, j + 1, false) else ArmingPhase(v.l.w, t, j, true)
    decreases polls
  {
    if polls > 0 {
      assert SlaveArming(At(l, j), t, j, j, true);
      var w' := Set(l.w, j, At(l, j).(inr := {}));
      if HasReady(InrValue(l, b, j)) {
        assert ArmingPhase(w', t, j + 1, false);
        PlayKeepsArming(w', b.script(l.t), t, j + 1, false);
      } else {
        assert ArmingPhase(w', t, j, true);
        PlayKeepsArming(w', b.script(l.t), t, j, true);
        ReadyMeansArmed(AfterInr(l, b, j), b, j, seen + InrValue(l, b, j), polls - 1, t);
      }
    }
  }

  predicate Confirmed(l: Live, j: nat, t: nat, v: Verdict) {
    && Follows(l, v.l)
    && if v.ok then ArmingPhase(v.l.w, t, j + 1, false) else ArmingPhase(v.l.w, t, j, true)
  }

  /** In the arming phase a confirmation means that the engine has armed. */
  lemma ConfirmedMeansArmed(l: Live, b: Bench, j: nat, t: nat) returns (v: Verdict)
    requires On(l, j) && j >= 1 && ArmingPhase(l.w, t, j, false)
    ensures v == ArmAndConfirm(l, b, j) && Confirmed(l, j, t, v)
    ensures v.ok ==> v.l.w.scopes[j].engine == Listening
  {
    ArmReachesAsking(l, b, j, t);
    var asked := Arm(l, b, j);
    ReadyMeansArmed(asked, b, j, {}, b.polls(asked.t), t);
    v := PollReady(asked, b, j, {}, b.polls(asked.t));
    assert v.ok ==> SlaveArming(v.l.w.scopes[j], t, j, j + 1, false);
  }

  // ---- firing ------------------------------------------------------------------

  lemma {:induction false} ReadbackKeepsFiring(l: Live, b: Bench, i: nat, m: Mode, tries: nat, t: nat, k: nat)
    requires On(l, i) && FiringPhase(l.w, t, k)
    ensures FiringPhase(Readback(l, b, i, m, tries).w, t, k)
    decreases tries
  {
    if tries > 0 {
      PlayKeepsFiring(l.w, b.script(l.t), t, k);
      ReadbackKeepsFiring(Settle(l, b), b, i, m, tries - 1, t, k);
    }
  }

  /** If cleared the master's counter stays 0 until SINGLE is asked for: it is at rest. */
  predicate MasterCleared(w: World, t: nat) {
    ArmingPhase(w, t, |w.scopes|, false) && (w.scopes[0].clearsInStop ==> w.scopes[0].sweeps == 0)
  }

  lemma {:induction false} PlayKeepsMasterCleared(w: World, es: seq<Env>, t: nat)
    requires MasterCleared(w, t)
    ensures MasterCleared(Play(w, es), t)
    decreases |es|
  {
    if es != [] {
      StepKeepsArming(w, es[0], t, |w.scopes|, false);
      PlayKeepsMasterCleared(EnvStep(w, es[0]), es[1..], t);
    }
  }

  predicate Fired(l: Live, t: nat, l': Live) { Follows(l, l') && FiringPhase(l'.w, t, 0) }

  lemma AskedIsFiring(l: Live, b: Bench, t: nat)
    requires MasterCleared(l.w, t)
    ensures FiringPhase(Put(l, b, 0, Asked(At(l, 0), Single)).w, t, 0)
  {
    var w' := Set(l.w, 0, Asked(At(l, 0), Single));
    forall j: nat | 1 <= j < |w'.scopes| ensures SlaveFiring(w'.scopes[j], w'.flight[j], t, false, j, 0) {
      assert SlaveArming(l.w.scopes[j], t, j, |l.w.scopes|, false);
    }
    PlayKeepsFiring(w', b.script(l.t), t, 0);
  }

  lemma MasterArmReachesFiring(l: Live, b: Bench, t: nat)
    requires ArmingPhase(l.w, t, |l.w.scopes|, false)
    ensures Fired(l, t, ArmMaster(l, b, 0))
  {
    var w1 := Set(l.w, 0, Cleared(At(l, 0)));
    assert MasterCleared(w1, t);
    PlayKeepsMasterCleared(w1, b.script(l.t), t);
    var l1 := Put(l, b, 0, Cleared(At(l, 0)));
    PlayKeepsMasterCleared(l1.w, b.script(l1.t), t);
    var l2 := Settle(l1, b);
    PlayKeepsMasterCleared(l2.w, b.script(l2.t), t);
    var l3 := Settle(l2, b);
    AskedIsFiring(l3, b, t);
    var l4 := Put(l3, b, 0, Asked(At(l3, 0), Single));
    ReadbackKeepsFiring(l4, b, 0, Single, READBACKS, t, 0);
    var l5 := Arm(l, b, 0);
    PlayKeepsFiring(l5.w, b.script(l5.t), t, 0);
  }

  /** Scope `i` reads STOP, or a sweep counter above 0: what that proves. */
  lemma StopAndSweepMeanDone(w: World, t: nat, i: nat)
    requires FiringPhase(w, t, i) && i < |w.scopes|
    ensures i > 0 && w.scopes[i].mode == Stopped ==> FiringPhase(w, t, i + 1)
    ensures i == 0 && w.scopes[0].sweeps >= 1 ==> FiringPhase(w, t, 1)
  {
    forall j: nat | 1 <= j < |w.scopes|
      ensures i > 0 && w.scopes[i].mode == Stopped
              ==> SlaveFiring(w.scopes[j], w.flight[j], t, w.pulses == t + 1, j, i + 1)
    {
      assert SlaveFiring(w.scopes[j], w.flight[j], t, w.pulses == t + 1, j, i);
    }
    if i == 0 && w.scopes[0].sweeps >= 1 {
      forall j: nat | 1 <= j < |w.scopes| ensures SlaveFiring(w.scopes[j], w.flight[j], t, w.pulses == t + 1, j, 1) {
        assert SlaveFiring(w.scopes[j], w.flight[j], t, w.pulses == t + 1, j, 0);
      }
    }
  }

  lemma {:induction false} CompleteMeansCaught(l: Live, b: Bench, i: nat, polls: nat, t: nat)
    requires On(l, i) && FiringPhase(l.w, t, i)
    ensures var v := PollComplete(l, b, i, polls);
      FiringPhase(v.l.w, t, i) && (v.ok ==> FiringPhase(v.l.w, t, i + 1))
    decreases polls
  {
    if polls > 0 {
      var l1 := Settle(l, b);
      PlayKeepsFiring(l.w, b.script(l.t), t, i);
      PlayKeepsFiring(l1.w, b.script(l1.t), t, i);
      if ModeReply(l, b, i) != Some(Stopped) {
        CompleteMeansCaught(l1, b, i, polls - 1, t);
      } else if At(l1, i).sweeps == 0 {
        CompleteMeansCaught(Settle(l1, b), b, i, polls - 1, t);
      } else {
        StopAndSweepMeanDone(l.w, t, i);
        if i > 0 { PlayKeepsFiring(l.w, b.script(l.t), t, i + 1); }
        StopAndSweepMeanDone(l1.w, t, i);
        PlayKeepsFiring(l1.w, b.script(l1.t), t, i + 1);
      }
    }
  }

  predicate Completed(l: Live, j: nat, t: nat, v: Verdict) {
    Follows(l, v.l) && FiringPhase(v.l.w, t, j) && (v.ok ==> FiringPhase(v.l.w, t, j + 1))
  }

  lemma WaitMeansCaught(l: Live, b: Bench, j: nat, t: nat)
    requires On(l, j) && FiringPhase(l.w, t, j)
    ensures Completed(l, j, t, WaitComplete(l, b, j))
  {
    PlayKeepsFiring(l.w, b.script(l.t), t, j);
    CompleteMeansCaught(Settle(l, b), b, j, b.polls(l.t + 1), t);
  }

  /** A slave reads STOP only once it has captured; a lone scope has to be cleared. */
  predicate Dependable(w: World)
    requires WellFormed(w)
  {
    |w.scopes| > 1 || w.scopes[0].clearsInStop
  }

  lemma AllCaughtIsRest(w: World, t: nat)
    requires FiringPhase(w, t, |w.scopes|) && Dependable(w)
    ensures ArmingPhase(w, t + 1, 1, false)
  {
    forall j: nat | 1 <= j < |w.scopes| ensures w.flight[j] == [] && SlaveArming(w.scopes[j], t + 1, j, 1, false) {
      assert SlaveFiring(w.scopes[j], w.flight[j], t, w.pulses == t + 1, j, |w.scopes|);
    }
  }

  // ---- whole runs --------------------------------------------------------------

  /** What each call must do with the phases of a shot, whatever else it does. */
  ghost predicate KeepsPhases(c: Calls) {
    && (forall l: Live, j: nat, t: nat {:trigger Confirmed(l, j, t, c.confirm(l, j))} |
          On(l, j) && j >= 1 && ArmingPhase(l.w, t, j, false) :: Confirmed(l, j, t, c.confirm(l, j)))
    && (forall l: Live, t: nat {:trigger Fired(l, t, c.fire(l))} |
          ArmingPhase(l.w, t, |l.w.scopes|, false) :: Fired(l, t, c.fire(l)))
    && (forall l: Live, j: nat, t: nat {:trigger Completed(l, j, t, c.complete(l, j))} |
          On(l, j) && FiringPhase(l.w, t, j) :: Completed(l, j, t, c.complete(l, j)))
  }

  /** The driver's calls do so on every bench. */
  lemma DriverKeepsPhases(b: Bench)
    ensures KeepsPhases(Driver(b))
  {
    var c := Driver(b);
    forall l: Live, j: nat, t: nat | On(l, j) && j >= 1 && ArmingPhase(l.w, t, j, false)
      ensures Confirmed(l, j, t, c.confirm(l, j))
    {
      var v := ConfirmedMeansArmed(l, b, j, t);
    }
    forall l: Live, t: nat | ArmingPhase(l.w, t, |l.w.scopes|, false) ensures Fired(l, t, c.fire(l)) {
      MasterArmReachesFiring(l, b, t);
    }
    forall l: Live, j: nat, t: nat | On(l, j) && FiringPhase(l.w, t, j) ensures Completed(l, j, t, c.complete(l, j)) {
      WaitMeansCaught(l, b, j, t);
    }
  }

  lemma {:induction false} SlavesGetArmed(c: Calls, l: Live, j: nat, n: nat, t: nat)
    requires KeepsPhases(c) && 1 <= j <= n == |l.w.scopes| && ArmingPhase(l.w, t, j, false)
    ensures var v := ArmSlaves(c, l, j, n);
      Follows(l, v.l) && if v.ok then ArmingPhase(v.l.w, t, n, false) else InStep(v.l.w, t, false)
    decreases n - j
  {
    if j < n {
      var v := c.confirm(l, j);
      assert Confirmed(l, j, t, v);
      if v.ok {
        SlavesGetArmed(c, v.l, j + 1, n, t);
      } else {
        ArmingIsInStep(v.l.w, t, j, true);
      }
    }
  }

  /** When the master's turn comes, every slave's engine is listening and no pulse
      is under way that could trigger it early. */
  lemma MasterArmedLast(l: Live, b: Bench, t: nat)
    requires ArmingPhase(l.w, t, 1, false)
    ensures var v := ArmSlaves(Driver(b), l, 1, |l.w.scopes|);
      v.ok ==>
        && WellFormed(v.l.w) && |v.l.w.scopes| == |l.w.scopes|
        && forall j: nat | 1 <= j < |l.w.scopes| :: v.l.w.scopes[j].engine == Listening && v.l.w.flight[j] == []
  {
    DriverKeepsPhases(b);
    SlavesGetArmed(Driver(b), l, 1, |l.w.scopes|, t);
    var v := ArmSlaves(Driver(b), l, 1, |l.w.scopes|);
    var w := v.l.w;
    forall j: nat | v.ok && 1 <= j < |w.scopes| ensures w.scopes[j].engine == Listening && w.flight[j] == [] {
      assert SlaveArming(w.scopes[j], t, j, |w.scopes|, false);
    }
  }

  lemma {:induction false} AllGetCaught(c: Calls, l: Live, j: nat, n: nat, t: nat)
    requires KeepsPhases(c) && j <= n == |l.w.scopes| && FiringPhase(l.w, t, j)
    ensures var v := WaitAll(c, l, j, n);
      Follows(l, v.l) && if v.ok then FiringPhase(v.l.w, t, n) else InStep(v.l.w, t, true)
    decreases n - j
  {
    if j < n {
      var v := c.complete(l, j);
      assert Completed(l, j, t, v);
      if v.ok {
        AllGetCaught(c, v.l, j + 1, n, t);
      } else {
        FiringIsInStep(v.l.w, t, j);
      }
    }
  }

  /** Every scope is in step with the confirmed shots. */
  predicate KeepsUp(r: Campaign, t: nat, n: nat) {
    r.done <= n && InStep(r.l.w, t + r.done, true) && (r.done == n ==> InStep(r.l.w, t + n, false))
  }

  lemma ShotKeepsStep(c: Calls, l: Live, t: nat)
    requires KeepsPhases(c) && ArmingPhase(l.w, t, 1, false) && Dependable(l.w)
    ensures var v := Shot(c, l);
      Follows(l, v.l) && InStep(v.l.w, t, true) && (v.ok ==> ArmingPhase(v.l.w, t + 1, 1, false))
  {
    var n := |l.w.scopes|;
    SlavesGetArmed(c, l, 1, n, t);
    var armed := ArmSlaves(c, l, 1, n);
    if armed.ok {
      var fired := c.fire(armed.l);
      assert Fired(armed.l, t, fired);
      AllGetCaught(c, fired, 0, n, t);
      var v := WaitAll(c, fired, 0, n);
      if v.ok {
        FiringIsInStep(v.l.w, t, n);
        AllCaughtIsRest(v.l.w, t);
      }
    }
  }

  lemma {:induction false} ShotsKeepStep(c: Calls, l: Live, n: nat, t: nat)
    requires KeepsPhases(c) && ArmingPhase(l.w, t, 1, false) && Dependable(l.w)
    ensures KeepsUp(Shots(c, l, n), t, n)
    ensures Shots(c, l, n).done == n ==> ArmingPhase(Shots(c, l, n).l.w, t + n, 1, false)
    decreases n
  {
    if n == 0 {
      ArmingIsInStep(l.w, t, 1, false);
    } else {
      ShotKeepsStep(c, l, t);
      var v := Shot(c, l);
      if v.ok { ShotsKeepStep(c, v.l, n - 1, t + 1); }
    }
  }

  /** Any number of shots, any interleaving: after `done` confirmed shots every
      scope holds master pulses 0 .. t+done-1, each once and in order, so the sweep
      of shot k comes from pulse k on every scope; if the run was broken off, the
      unconfirmed shot's pulse is all there can be more. With a slave it does not matter
      whether CLEAR_SWEEPS takes effect in STOP. */
  lemma EverySweepFromItsPulse(l: Live, b: Bench, n: nat, t: nat)
    requires ArmingPhase(l.w, t, 1, false) && Dependable(l.w)
    ensures KeepsUp(Shots(Driver(b), l, n), t, n)
    ensures Shots(Driver(b), l, n).done == n ==> ArmingPhase(Shots(Driver(b), l, n).l.w, t + n, 1, false)
  {
    DriverKeepsPhases(b);
    ShotsKeepStep(Driver(b), l, n, t);
  }

  /** No pulse occurs twice, and pulse `k` is the `k`-th. */
  lemma {:induction false} PulsesAreDistinct(t: nat, k: nat)
    requires k < t
    ensures |Pulses(t)| == t && Pulses(t)[k] == k
  {
    if k < t - 1 { PulsesAreDistinct(t - 1, k); } else if t > 1 { PulsesAreDistinct(t - 1, 0); }
  }
}
