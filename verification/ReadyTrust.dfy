/** Exactly when the ready confirmation of a slave can be trusted, and the runs in which
    it cannot. */
module ReadyTrust {
  import opened Common
  import opened TriggerBench
  import opened ShotProtocol

  // ---- when a ready confirmation can be trusted ----------------------------------

  /** The master is at rest, or about to be. */
  predicate AtRest(s: Scope) { s.engine == Idle && (s.pending.None? || s.pending == Some(Stopped)) }

  /** No pulse can reach slave `j`: none is on its way and the master sends none. */
  predicate Undisturbed(w: World, j: nat) {
    WellFormed(w) && 1 <= j < |w.scopes| && w.flight[j] == [] && AtRest(w.scopes[0])
  }

  datatype Phase = Before | During | After

  predicate InPhase(s: Scope, phase: Phase) {
    match phase case Before => Settled(s) case During => Awaiting(s) case After => Listens(s)
  }

  predicate Along(w: World, j: nat, phase: Phase) { Undisturbed(w, j) && InPhase(w.scopes[j], phase) }

  lemma {:induction false} PlayStaysAlong(w: World, es: seq<Env>, j: nat, phase: Phase)
    requires Along(w, j, phase)
    ensures Along(Play(w, es), j, phase)
    decreases |es|
  {
    if es != [] {
      assert Along(EnvStep(w, es[0]), j, phase);
      PlayStaysAlong(EnvStep(w, es[0]), es[1..], j, phase);
    }
  }

  lemma {:induction false} ReadbackStaysAlong(l: Live, b: Bench, j: nat, tries: nat)
    requires On(l, j) && Along(l.w, j, During)
    ensures Along(Readback(l, b, j, Single, tries).w, j, During)
    decreases tries
  {
    if tries > 0 {
      PlayStaysAlong(l.w, b.script(l.t), j, During);
      ReadbackStaysAlong(Settle(l, b), b, j, tries - 1);
    }
  }

  lemma ArmGetsAlong(l: Live, b: Bench, j: nat)
    requires On(l, j) && Along(l.w, j, Before)
    ensures Along(Arm(l, b, j).w, j, During)
  {
    var w1 := Set(l.w, j, Cleared(At(l, j)));
    PlayStaysAlong(w1, b.script(l.t), j, Before);
    var l1 := Put(l, b, j, Cleared(At(l, j)));
    PlayStaysAlong(l1.w, b.script(l1.t), j, Before);
    var l2 := Settle(l1, b);
    PlayStaysAlong(l2.w, b.script(l2.t), j, Before);
    var l3 := Settle(l2, b);
    var w3 := Set(l3.w, j, Asked(At(l3, j), Single));
    assert Along(w3, j, During);
    PlayStaysAlong(w3, b.script(l3.t), j, During);
    ReadbackStaysAlong(Put(l3, b, j, Asked(At(l3, j), Single)), b, j, READBACKS);
  }

  lemma {:induction false} PollGetsAlong(l: Live, b: Bench, j: nat, seen: Register, polls: nat)
    requires On(l, j) && Along(l.w, j, During) && !HasReady(seen)
    ensures var v := PollReady(l, b, j, seen, polls); v.ok ==> Along(v.l.w, j, After)
    decreases polls
  {
    if polls > 0 {
      var w' := Set(l.w, j, At(l, j).(inr := {}));
      if HasReady(InrValue(l, b, j)) {
        PlayStaysAlong(w', b.script(l.t), j, After);
      } else {
        PlayStaysAlong(w', b.script(l.t), j, During);
        PollGetsAlong(AfterInr(l, b, j), b, j, seen + InrValue(l, b, j), polls - 1);
      }
    }
  }

  predicate TrustedOn(l: Live, b: Bench, j: nat)
    requires On(l, j)
  {
    var v := ArmAndConfirm(l, b, j);
    v.ok ==> v.l.w.scopes[j].engine == Listening
  }

  lemma SettledIsTrusted(l: Live, b: Bench, j: nat)
    requires On(l, j) && Undisturbed(l.w, j) && Settled(At(l, j))
    ensures TrustedOn(l, b, j)
  {
    ArmGetsAlong(l, b, j);
    var asked := Arm(l, b, j);
    PollGetsAlong(asked, b, j, {}, b.polls(asked.t));
  }

  // ---- runs in which it cannot -----------------------------------------------------

  /** Queries that an arm makes before its first INR?. */
  const QUERIES: nat := 4 + READBACKS

  /** From time `t` on, for an arm and one poll: slave `j` sweeps, arms, takes a command
      and arms again before the SINGLE is written; the SINGLE takes effect at the INR?. */
  predicate Rash(b: Bench, t: nat, j: nat) {
    && b.script(t) == [AutoSweep(j), BecomeReady(j), TakeEffect(j), BecomeReady(j)]
    && (forall q: nat | t < q < t + QUERIES :: b.script(q) == [] && !b.legible(q))
    && b.script(t + QUERIES) == [TakeEffect(j)] && b.legible(t + QUERIES) && b.polls(t + QUERIES) == 1
  }

  lemma NothingPlayed(l: Live, b: Bench)
    requires WellFormed(l.w) && b.script(l.t) == []
    ensures Settle(l, b) == Live(l.w, l.t + 1)
  {}

  /** Illegible mode replies make the read-back use up its tries. */
  lemma {:induction false} BlindReadback(l: Live, b: Bench, j: nat, m: Mode, tries: nat)
    requires On(l, j) && forall q: nat | l.t <= q < l.t + tries :: b.script(q) == [] && !b.legible(q)
    ensures Readback(l, b, j, m, tries) == Live(l.w, l.t + tries)
    decreases tries
  {
    if tries > 0 {
      NothingPlayed(l, b);
      BlindReadback(Live(l.w, l.t + 1), b, j, m, tries - 1);
    }
  }

  /** An arm during which only its first and its mode command are followed by anything. */
  lemma BlindArm(l: Live, b: Bench, j: nat) returns (l': Live)
    requires On(l, j)
    requires forall q: nat | l.t < q < l.t + QUERIES && q != l.t + 3 :: b.script(q) == []
    requires forall q: nat | l.t < q < l.t + QUERIES :: !b.legible(q)
    ensures var w1 := Play(Set(l.w, j, Cleared(At(l, j))), b.script(l.t));
      l' == Live(Play(Set(w1, j, Asked(w1.scopes[j], Single)), b.script(l.t + 3)), l.t + QUERIES)
    ensures Arm(l, b, j) == l' && On(l', j)
  {
    var l1 := Put(l, b, j, Cleared(At(l, j)));
    NothingPlayed(l1, b);
    NothingPlayed(Settle(l1, b), b);
    var l3 := Settle(Settle(l1, b), b);
    var l4 := Put(l3, b, j, Asked(At(l3, j), Single));
    BlindReadback(l4, b, j, Single, READBACKS);
    l' := Live(l4.w, l.t + QUERIES);
  }

  lemma PlayOne(w: World, e: Env)
    requires WellFormed(w)
    ensures Play(w, [e]) == EnvStep(w, e)
  {}

  lemma PlayFour(w: World, a: Env, b: Env, c: Env, d: Env)
    requires WellFormed(w)
    ensures Play(w, [a, b, c, d]) == EnvStep(EnvStep(EnvStep(EnvStep(w, a), b), c), d)
  {
    assert [a, b, c, d][1..] == [b, c, d] && [b, c, d][1..] == [c, d] && [c, d][1..] == [d];
    var w1 := EnvStep(w, a);
    var w2 := EnvStep(w1, b);
    var w3 := EnvStep(w2, c);
    assert Play(w2, [c, d]) == Play(w3, [d]);
    PlayOne(w3, d);
  }

  lemma RashSteps(w: World, j: nat)
    requires WellFormed(w) && 1 <= j < |w.scopes| && !Settled(w.scopes[j])
    ensures HasReady(Play(w, [AutoSweep(j), BecomeReady(j), TakeEffect(j), BecomeReady(j)]).scopes[j].inr)
  {
    var w1 := EnvStep(w, AutoSweep(j));
    var w2 := EnvStep(w1, BecomeReady(j));
    var w3 := EnvStep(w2, TakeEffect(j));
    var w4 := EnvStep(w3, BecomeReady(j));
    assert HasReady(w4.scopes[j].inr);
    PlayFour(w, AutoSweep(j), BecomeReady(j), TakeEffect(j), BecomeReady(j));
  }

  /** A slave that is not settled is confirmed too early: its engine is still arming. */
  lemma ConfirmedTooEarly(l: Live, b: Bench, j: nat)
    requires On(l, j) && j >= 1 && !Settled(At(l, j)) && Rash(b, l.t, j)
    ensures var v := ArmAndConfirm(l, b, j); v.ok && v.l.w.scopes[j].engine == Arming
  {
    var w0 := Set(l.w, j, Cleared(At(l, j)));
    RashSteps(w0, j);
    var l5 := BlindArm(l, b, j);
    var w' := Set(l5.w, j, At(l5, j).(inr := {}));
    PlayOne(w', TakeEffect(j));
    assert HasReady(InrValue(l5, b, j));
    assert PollReady(l5, b, j, {}, 1) == Verdict(true, AfterInr(l5, b, j));
  }

  function RashBench(t: nat, j: nat): Bench {
    Bench(q => if q == t then [AutoSweep(j), BecomeReady(j), TakeEffect(j), BecomeReady(j)]
               else if q == t + QUERIES then [TakeEffect(j)] else [],
          q => q == t + QUERIES, q => 1)
  }

  const FIRE: seq<Env> := [BecomeReady(0), TimerEdge]

  function BeHit(j: nat): seq<Env> { [TakeEffect(j), BecomeReady(j), Deliver(j)] }

  /** Between the SINGLE and the first INR? the master fires, if it can; slave `j` arms
      and is hit. */
  function Crossing(j: nat): seq<Env> { FIRE + ([TakeEffect(0)] + FIRE) + BeHit(j) }

  function CrossingBench(t: nat, j: nat): Bench {
    Bench(q => if q == t + 3 then Crossing(j) else [], q => q == t + QUERIES, q => 1)
  }

  lemma {:induction false} PlayAppend(w: World, a: seq<Env>, b: seq<Env>)
    requires WellFormed(w)
    ensures Play(w, a + b) == Play(Play(w, a), b)
    decreases |a|
  {
    if a == [] {
      assert a + b == b;
    } else {
      assert (a + b)[1..] == a[1..] + b;
      PlayAppend(EnvStep(w, a[0]), a[1..], b);
    }
  }

  lemma PlayTwo(w: World, a: Env, b: Env)
    requires WellFormed(w)
    ensures Play(w, [a, b]) == EnvStep(EnvStep(w, a), b)
  {
    assert [a, b][1..] == [b];
    PlayOne(EnvStep(w, a), b);
  }

  lemma PlayThree(w: World, a: Env, b: Env, c: Env)
    requires WellFormed(w)
    ensures Play(w, [a, b, c]) == EnvStep(EnvStep(EnvStep(w, a), b), c)
  {
    assert [a, b, c][1..] == [b, c];
    PlayTwo(EnvStep(w, a), b, c);
  }

  predicate Hittable(w: World, w': World, j: nat)
    requires WellFormed(w) && j < |w.scopes|
  {
    WellFormed(w') && |w'.scopes| == |w.scopes| && w'.flight[j] != [] && w'.scopes[j] == w.scopes[j]
  }

  lemma Fires(w: World, j: nat)
    requires WellFormed(w) && 1 <= j < |w.scopes|
    ensures var w' := Play(w, FIRE);
      if w.flight[j] == [] && w.scopes[0].engine == Idle then w' == w else Hittable(w, w', j)
  {
    PlayTwo(w, BecomeReady(0), TimerEdge);
  }

  lemma StartsAndFires(w: World, j: nat)
    requires WellFormed(w) && 1 <= j < |w.scopes| && (w.flight[j] != [] || !AtRest(w.scopes[0]))
    requires w.flight[j] == [] ==> w.scopes[0].engine == Idle
    ensures Hittable(w, Play(w, [TakeEffect(0)] + FIRE), j)
  {
    PlayAppend(w, [TakeEffect(0)], FIRE);
    PlayOne(w, TakeEffect(0));
    Fires(EnvStep(w, TakeEffect(0)), j);
  }

  lemma IsHit(w: World, j: nat)
    requires WellFormed(w) && 1 <= j < |w.scopes| && w.flight[j] != [] && w.scopes[j].pending == Some(Single)
    ensures var s := Play(w, BeHit(j)).scopes[j]; s.engine == Idle && HasReady(s.inr)
  {
    PlayThree(w, TakeEffect(j), BecomeReady(j), Deliver(j));
  }

  lemma CrossingHits(w: World, j: nat)
    requires WellFormed(w) && 1 <= j < |w.scopes| && w.scopes[j].pending == Some(Single) && !Undisturbed(w, j)
    ensures var s := Play(w, Crossing(j)).scopes[j]; s.engine == Idle && HasReady(s.inr)
  {
    var w1 := Play(w, FIRE);
    var w2 := Play(w1, [TakeEffect(0)] + FIRE);
    Fires(w, j);
    StartsAndFires(w1, j);
    PlayAppend(w, FIRE, [TakeEffect(0)] + FIRE);
    PlayAppend(w, FIRE + ([TakeEffect(0)] + FIRE), BeHit(j));
    IsHit(w2, j);
  }

  /** A slave that a pulse can reach is confirmed after it was hit: it has stopped. */
  lemma ConfirmedTooLate(l: Live, j: nat)
    requires On(l, j) && j >= 1 && !Undisturbed(l.w, j)
    ensures var v := ArmAndConfirm(l, CrossingBench(l.t, j), j); v.ok && v.l.w.scopes[j].engine == Idle
  {
    var b := CrossingBench(l.t, j);
    var l5 := BlindArm(l, b, j);
    var w1 := Set(l.w, j, Cleared(At(l, j)));
    assert b.script(l.t) == [] && Play(w1, b.script(l.t)) == w1;
    var w2 := Set(w1, j, Asked(w1.scopes[j], Single));
    assert b.script(l.t + 3) == Crossing(j);
    CrossingHits(w2, j);
    NothingPlayed(Live(Set(l5.w, j, At(l5, j).(inr := {})), l5.t), b);
    assert PollReady(l5, b, j, {}, 1) == Verdict(true, AfterInr(l5, b, j));
  }

  /** A slave's confirmation means a listening engine on every bench if and only if, when
      it is armed, the slave is settled and no pulse can reach it. */
  lemma TrustedExactlyWhenSettled(l: Live, j: nat)
    requires On(l, j) && j >= 1
    ensures Settled(At(l, j)) && Undisturbed(l.w, j) <==> forall b :: TrustedOn(l, b, j)
  {
    if !Settled(At(l, j)) {
      ConfirmedTooEarly(l, RashBench(l.t, j), j);
      assert !TrustedOn(l, RashBench(l.t, j), j);
    } else if !Undisturbed(l.w, j) {
      ConfirmedTooLate(l, j);
      assert !TrustedOn(l, CrossingBench(l.t, j), j);
    } else {
      forall b ensures TrustedOn(l, b, j) {
        SettledIsTrusted(l, b, j);
      }
    }
  }

  // ---- arming again after a failed confirmation ------------------------------------

  /** The SINGLE takes effect, the one poll comes too soon, and the next arm is rash. */
  function RetryBench(t: nat, j: nat): Bench {
    var again := t + QUERIES + 1;
    var rash := RashBench(again, j);
    Bench(q => if q == t + 3 then [TakeEffect(j)] else if q < again then [] else rash.script(q),
          rash.legible, rash.polls)
  }

  lemma FailedConfirmation(l: Live, j: nat) returns (v: Verdict)
    requires On(l, j) && j >= 1 && Settled(At(l, j))
    ensures v == ArmAndConfirm(l, RetryBench(l.t, j), j) && !v.ok && On(v.l, j) && v.l.t == l.t + QUERIES + 1
    ensures At(v.l, j).engine == Arming && At(v.l, j).mode == Single && !HasReady(At(v.l, j).inr)
  {
    var b := RetryBench(l.t, j);
    var l5 := BlindArm(l, b, j);
    var w1 := Set(l.w, j, Cleared(At(l, j)));
    assert Play(w1, b.script(l.t)) == w1;
    PlayOne(Set(w1, j, Asked(w1.scopes[j], Single)), TakeEffect(j));
    NothingPlayed(Live(Set(l5.w, j, At(l5, j).(inr := {})), l5.t), b);
    v := Verdict(false, AfterInr(l5, b, j));
    assert PollReady(l5, b, j, {}, 1) == v;
  }

  /** From a clear latch: the first attempt fails and leaves the engine arming; the second
      is confirmed, by that, while its own SINGLE has just begun to arm. */
  lemma RetryConfirmedTooEarly(l: Live, j: nat)
    requires On(l, j) && j >= 1 && Settled(At(l, j))
    ensures var b := RetryBench(l.t, j);
      var first := ArmAndConfirm(l, b, j);
      var again := ArmAndConfirm(first.l, b, j);
      && !first.ok && !HasReady(first.l.w.scopes[j].inr)
      && again.ok && again.l.w.scopes[j].engine == Arming
  {
    var first := FailedConfirmation(l, j);
    ConfirmedTooEarly(first.l, RetryBench(l.t, j), j);
  }
}
