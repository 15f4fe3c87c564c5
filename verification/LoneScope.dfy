/** Exactly when runs of many shots stay in step, and the run in which they do not: one
    scope without slaves that ignores CLEAR_SWEEPS in STOP. */
module LoneScope {
  import opened TriggerBench
  import opened ShotProtocol

  /** Driver steps of a shot with one scope that reads STOP at once. */
  const STEPS: nat := 9

  /** From time `t` on every reply is legible and every wait makes one pass; whatever
      happens at all, happens right after SINGLE is written. */
  predicate Still(b: Bench, t: nat, at: nat) {
    && (forall q: nat | t <= q < t + STEPS :: b.legible(q) && b.polls(q) == 1)
    && (forall q: nat | t <= q < t + STEPS && q != at :: b.script(q) == [])
  }

  lemma Waits(l: Live, b: Bench, k: nat) returns (l': Live)
    requires WellFormed(l.w) && forall q: nat | l.t <= q < l.t + k :: b.script(q) == []
    ensures l' == Live(l.w, l.t + k)
    ensures k == 1 ==> l' == Settle(l, b)
    ensures k == 2 ==> l' == Settle(Settle(l, b), b)
  {
    l' := Live(l.w, l.t + k);
    if k > 0 { assert Settle(l, b) == Live(l.w, l.t + 1); }
    if k == 2 { assert Settle(Live(l.w, l.t + 1), b) == Live(l.w, l.t + 2); }
  }

  /** What the arm makes of a lone scope. */
  function ArmedWorld(w: World, es: seq<Env>): (w': World)
    requires WellFormed(w)
  {
    var cleared := Set(w, 0, Cleared(w.scopes[0]));
    Play(Set(cleared, 0, Asked(cleared.scopes[0], Single)), es)
  }

  lemma StillArm(l: Live, b: Bench) returns (l': Live)
    requires On(l, 0) && Still(b, l.t, l.t + 3) && ArmedWorld(l.w, b.script(l.t + 3)).scopes[0].mode == Stopped
    ensures l' == Live(ArmedWorld(l.w, b.script(l.t + 3)), l.t + 6) && l' == ArmMaster(l, b, 0)
  {
    var l1 := Live(Set(l.w, 0, Cleared(At(l, 0))), l.t + 1);
    var l0 := Waits(Live(l1.w, l.t), b, 1);
    assert Put(l, b, 0, Cleared(At(l, 0))) == l1;
    var l3 := Waits(l1, b, 2);
    var l4 := Put(l3, b, 0, Asked(At(l3, 0), Single));
    assert l4 == Live(ArmedWorld(l.w, b.script(l.t + 3)), l.t + 4);
    var l5 := Waits(l4, b, 1);
    assert Readback(l4, b, 0, Single, READBACKS) == l5;
    l' := Waits(l5, b, 1);
  }

  lemma StillShot(l: Live, b: Bench) returns (v: Verdict)
    requires On(l, 0) && |l.w.scopes| == 1 && Still(b, l.t, l.t + 3)
    requires var s := ArmedWorld(l.w, b.script(l.t + 3)).scopes[0]; s.mode == Stopped && s.sweeps >= 1
    ensures v == Shot(Driver(b), l) && v == Verdict(true, Live(ArmedWorld(l.w, b.script(l.t + 3)), l.t + STEPS))
  {
    var armed := StillArm(l, b);
    var l7 := Waits(armed, b, 1);
    var l8 := Waits(l7, b, 1);
    var l9 := Waits(l8, b, 1);
    v := Verdict(true, l9);
    assert PollComplete(l7, b, 0, 1) == v;
    assert WaitAll(Driver(b), armed, 0, 1) == v;
  }

  const SWEEP: seq<Env> := [TakeEffect(0), BecomeReady(0), TimerEdge]

  /** One sweep in the first shot, nothing in the second. */
  function LazyBench(t: nat): Bench { Bench(q => if q == t + 3 then SWEEP else [], q => true, q => 1) }

  lemma OneSweep(w: World)
    requires WellFormed(w) && w.scopes[0].engine == Idle
    ensures var s := ArmedWorld(w, SWEEP).scopes[0];
      s.mode == Stopped && s.sweeps >= 1 && s.clearsInStop == w.scopes[0].clearsInStop
      && s.captured == w.scopes[0].captured + [w.pulses]
  {
    var w1 := Set(w, 0, Cleared(w.scopes[0]));
    var w2 := Set(w1, 0, Asked(w1.scopes[0], Single));
    var w3 := EnvStep(w2, TakeEffect(0));
    var w4 := EnvStep(w3, BecomeReady(0));
    assert SWEEP[1..] == [BecomeReady(0), TimerEdge] && SWEEP[1..][1..] == [TimerEdge];
    assert Play(w4, [TimerEdge]) == EnvStep(w4, TimerEdge);
    assert Play(w3, SWEEP[1..]) == Play(w4, [TimerEdge]);
  }

  /** Two confirmed shots, one sweep: the second wait finds the counter of the first. */
  lemma SecondShotIsStale(l: Live, t: nat)
    requires ArmingPhase(l.w, t, 1, false) && !Dependable(l.w)
    ensures var r := Shots(Driver(LazyBench(l.t)), l, 2);
      r.done == 2 && |r.l.w.scopes| == 1 && r.l.w.scopes[0].captured == Pulses(t + 1)
  {
    var b := LazyBench(l.t);
    OneSweep(l.w);
    var v := StillShot(l, b);
    var u := StillShot(v.l, b);
    assert u.l.w.scopes[0].captured == v.l.w.scopes[0].captured == Pulses(t + 1);
    assert Shots(Driver(b), v.l, 1) == Campaign(1, u.l);
  }

  predicate InStepOn(l: Live, b: Bench, n: nat, t: nat) { KeepsUp(Shots(Driver(b), l, n), t, n) }

  lemma FallsBehind(r: Campaign, t: nat)
    requires r.done == 2 && |r.l.w.scopes| > 0 && r.l.w.scopes[0].captured == Pulses(t + 1)
    ensures !KeepsUp(r, t, 2)
  {
    PulsesAreDistinct(t + 1, 0);
    PulsesAreDistinct(t + 2, 0);
  }

  /** From rest, every run of every length on every bench keeps up with the pulses if and
      only if there is a slave or CLEAR_SWEEPS takes effect in STOP. */
  lemma InStepExactlyWhenDependable(l: Live, t: nat)
    requires ArmingPhase(l.w, t, 1, false)
    ensures Dependable(l.w) <==> forall b: Bench, n: nat :: InStepOn(l, b, n, t)
  {
    if Dependable(l.w) {
      forall b: Bench, n: nat ensures InStepOn(l, b, n, t) {
        EverySweepFromItsPulse(l, b, n, t);
      }
    } else {
      SecondShotIsStale(l, t);
      FallsBehind(Shots(Driver(LazyBench(l.t)), l, 2), t);
      assert !InStepOn(l, LazyBench(l.t), 2, t);
    }
  }
}
