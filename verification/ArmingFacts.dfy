/** What one scope's arm, ready and completion calls guarantee, in every
    interleaving with what the instruments do on their own. */
module ArmingFacts {
  import opened Common
  import opened TriggerBench

  // ---- SINGLE is written once --------------------------------------------------

  /** SINGLE commands received so far, scope by scope. */
  function Singles(w: World): seq<nat> {
    seq(|w.scopes|, i requires 0 <= i < |w.scopes| => w.scopes[i].singles)
  }

  lemma {:induction false} PlayKeepsSingles(w: World, es: seq<Env>)
    requires WellFormed(w)
    ensures Singles(Play(w, es)) == Singles(w)
    decreases |es|
  {
    if es != [] {
      assert Singles(EnvStep(w, es[0])) == Singles(w);
      PlayKeepsSingles(EnvStep(w, es[0]), es[1..]);
    }
  }

  lemma {:induction false} ReadbackKeepsSingles(l: Live, b: Bench, i: nat, m: Mode, tries: nat)
    requires On(l, i)
    ensures Singles(Readback(l, b, i, m, tries).w) == Singles(l.w)
    decreases tries
  {
    if tries > 0 {
      PlayKeepsSingles(l.w, b.script(l.t));
      ReadbackKeepsSingles(Settle(l, b), b, i, m, tries - 1);
    }
  }

  /** Arming writes SINGLE exactly once, to this scope only, whatever the mode queries
      report, legibly or not; arming the master adds no second one. */
  lemma SingleWrittenOnce(l: Live, b: Bench, i: nat)
    requires On(l, i)
    ensures Singles(Arm(l, b, i).w) == Singles(l.w)[i := At(l, i).singles + 1]
    ensures Singles(ArmMaster(l, b, i).w) == Singles(l.w)[i := At(l, i).singles + 1]
  {
    var w1 := Set(l.w, i, Cleared(At(l, i)));
    assert Singles(w1) == Singles(l.w);
    PlayKeepsSingles(w1, b.script(l.t));
    var l1 := Put(l, b, i, Cleared(At(l, i)));
    PlayKeepsSingles(l1.w, b.script(l1.t));
    var l2 := Settle(l1, b);
    PlayKeepsSingles(l2.w, b.script(l2.t));
    var l3 := Settle(l2, b);
    assert Singles(l3.w)[i] == Singles(l.w)[i];
    var w3 := Set(l3.w, i, Asked(At(l3, i), Single));
    assert Singles(w3) == Singles(l.w)[i := At(l, i).singles + 1];
    PlayKeepsSingles(w3, b.script(l3.t));
    var l4 := Put(l3, b, i, Asked(At(l3, i), Single));
    ReadbackKeepsSingles(l4, b, i, Single, READBACKS);
    var l5 := Arm(l, b, i);
    assert l5 == Readback(l4, b, i, Single, READBACKS);
    PlayKeepsSingles(l5.w, b.script(l5.t));
  }

  // ---- the mode read-back ------------------------------------------------------

  /** The state after `q` mode queries in a row. */
  function AfterQueries(l: Live, b: Bench, q: nat): (l': Live)
    requires WellFormed(l.w)
    ensures WellFormed(l'.w) && |l'.w.scopes| == |l.w.scopes|
    decreases q
  {
    if q == 0 then l else AfterQueries(Settle(l, b), b, q - 1)
  }

  /** Query `q` reports the mode asked for, or STOP after SINGLE. */
  predicate Agrees(l: Live, b: Bench, i: nat, m: Mode, q: nat)
    requires On(l, i)
  {
    var seen := ModeReply(AfterQueries(l, b, q), b, i);
    seen == Some(m) || (m == Single && seen == Some(Stopped))
  }

  lemma AgreesShift(l: Live, b: Bench, i: nat, m: Mode, q: nat)
    requires On(l, i)
    ensures Agrees(Settle(l, b), b, i, m, q) == Agrees(l, b, i, m, q + 1)
  {}

  /** The read-back only queries, and ends at the first agreeing answer or after
      `tries` answers that do not agree; it never fails. */
  lemma {:induction false} ReadbackEndsAtAgreement(l: Live, b: Bench, i: nat, m: Mode, tries: nat) returns (q: nat)
    requires On(l, i)
    ensures q <= tries && Readback(l, b, i, m, tries) == AfterQueries(l, b, q)
    ensures forall k: nat | k + 1 < q :: !Agrees(l, b, i, m, k)
    ensures q > 0 && q < tries ==> Agrees(l, b, i, m, q - 1)
    ensures q == 0 ==> tries == 0
    decreases tries
  {
    if tries == 0 {
      q := 0;
    } else if Agrees(l, b, i, m, 0) {
      q := 1;
    } else {
      var rest := ReadbackEndsAtAgreement(Settle(l, b), b, i, m, tries - 1);
      q := rest + 1;
      forall k: nat | k + 1 < q ensures !Agrees(l, b, i, m, k) {
        if k > 0 { AgreesShift(l, b, i, m, k - 1); }
      }
      if rest > 0 { AgreesShift(l, b, i, m, rest - 1); }
    }
  }

  /** `set_trigger_mode` writes the mode it is given, once, after two commands that change
      nothing, and then makes at most 25 queries, the last of which agrees if there are
      fewer; of the scope only what is pending changes, and the count of SINGLEs. */
  lemma ModeWrittenOnce(l: Live, b: Bench, i: nat, m: Mode) returns (l2: Live, l3: Live, q: nat)
    requires On(l, i)
    ensures l2 == AfterQueries(l, b, 2) && On(l2, i) && On(l3, i)
    ensures var s := At(l2, i);
      var s' := s.(pending := Some(m), singles := s.singles + if m == Single then 1 else 0);
      l3 == Settle(Live(Set(l2.w, i, s'), l2.t), b)
    ensures SetMode(l, b, i, Some(m)) == AfterQueries(l3, b, q) && 1 <= q <= 25
    ensures q < 25 ==> Agrees(l3, b, i, m, q - 1)
    ensures forall k: nat | k + 1 < q :: !Agrees(l3, b, i, m, k)
  {
    l2 := Settle(Settle(l, b), b);
    assert AfterQueries(l, b, 2) == AfterQueries(Settle(l, b), b, 1) == AfterQueries(l2, b, 0);
    l3 := Put(l2, b, i, Asked(At(l2, i), m));
    q := ReadbackEndsAtAgreement(l3, b, i, m, READBACKS);
  }

  /** Any other string only queries. */
  lemma OtherStringOnlyQueries(l: Live, b: Bench, i: nat)
    requires On(l, i)
    ensures SetMode(l, b, i, None) == AfterQueries(l, b, 2)
  {
    assert AfterQueries(l, b, 2) == AfterQueries(Settle(l, b), b, 1);
  }

  // ---- freshness of completion -------------------------------------------------

  /** Every counted sweep of scope `i` ended after its `base`-th. */
  predicate CountedSince(l: Live, i: nat, base: nat) {
    On(l, i) && At(l, i).sweeps + base <= At(l, i).completed
  }

  lemma {:induction false} PlayKeepsCount(l: Live, es: seq<Env>, i: nat, base: nat)
    requires CountedSince(l, i, base)
    ensures CountedSince(Live(Play(l.w, es), l.t), i, base)
    decreases |es|
  {
    if es != [] {
      PlayKeepsCount(Live(EnvStep(l.w, es[0]), l.t), es[1..], i, base);
    }
  }

  lemma SettleKeepsCount(l: Live, b: Bench, i: nat, base: nat)
    requires CountedSince(l, i, base)
    ensures CountedSince(Settle(l, b), i, base)
  {
    PlayKeepsCount(l, b.script(l.t), i, base);
  }

  lemma {:induction false} ReadbackKeepsCount(l: Live, b: Bench, i: nat, m: Mode, tries: nat, base: nat)
    requires CountedSince(l, i, base)
    ensures CountedSince(Readback(l, b, i, m, tries), i, base)
    decreases tries
  {
    if tries > 0 {
      SettleKeepsCount(l, b, i, base);
      ReadbackKeepsCount(Settle(l, b), b, i, m, tries - 1, base);
    }
  }

  lemma {:induction false} CompletedGrows(w: World, es: seq<Env>, i: nat)
    requires WellFormed(w) && i < |w.scopes|
    ensures Play(w, es).scopes[i].completed >= w.scopes[i].completed
    decreases |es|
  {
    if es != [] {
      CompletedGrows(EnvStep(w, es[0]), es[1..], i);
    }
  }

  lemma {:induction false} CompleteMeansCounted(l: Live, b: Bench, i: nat, polls: nat, base: nat)
    requires CountedSince(l, i, base)
    ensures var v := PollComplete(l, b, i, polls);
      CountedSince(v.l, i, base) && (v.ok ==> At(v.l, i).completed > base)
    decreases polls
  {
    if polls > 0 {
      SettleKeepsCount(l, b, i, base);
      var l1 := Settle(l, b);
      SettleKeepsCount(l1, b, i, base);
      CompletedGrows(l1.w, b.script(l1.t), i);
      if ModeReply(l, b, i) != Some(Stopped) {
        CompleteMeansCounted(l1, b, i, polls - 1, base);
      } else if At(l1, i).sweeps == 0 {
        CompleteMeansCounted(Settle(l1, b), b, i, polls - 1, base);
      }
    }
  }

  /** A scope on which the arm-time CLEAR_SWEEPS leaves the counter at 0. */
  predicate ClearWorks(s: Scope) { s.clearsInStop || s.mode != Stopped || s.sweeps == 0 }

  /** Arming, then waiting for completion. */
  function ArmThenWait(l: Live, b: Bench, i: nat): (v: Verdict)
    requires On(l, i)
    ensures On(v.l, i)
  {
    WaitComplete(Arm(l, b, i), b, i)
  }

  lemma ArmStartsCount(l: Live, b: Bench, i: nat) returns (armed: Live)
    requires On(l, i) && ClearWorks(At(l, i))
    ensures armed == Arm(l, b, i) && CountedSince(armed, i, At(l, i).completed)
  {
    var base := At(l, i).completed;
    var s := Cleared(At(l, i));
    SettleKeepsCount(Live(Set(l.w, i, s), l.t), b, i, base);
    var l1 := Put(l, b, i, s);
    SettleKeepsCount(l1, b, i, base);
    SettleKeepsCount(Settle(l1, b), b, i, base);
    var l3 := Settle(Settle(l1, b), b);
    var asked := Asked(At(l3, i), Single);
    SettleKeepsCount(Live(Set(l3.w, i, asked), l3.t), b, i, base);
    ReadbackKeepsCount(Put(l3, b, i, asked), b, i, Single, READBACKS, base);
    armed := Arm(l, b, i);
  }

  /** Completion is fresh: a sweep ended after this arm's CLEAR_SWEEPS, although
      the arm accepts a STOP left over from before it took effect, and however
      late the arm and however early the edges. */
  lemma CompletionIsFresh(l: Live, b: Bench, i: nat)
    requires On(l, i) && ClearWorks(At(l, i))
    ensures var v := ArmThenWait(l, b, i); v.ok ==> At(v.l, i).completed > At(l, i).completed
  {
    var base := At(l, i).completed;
    var armed := ArmStartsCount(l, b, i);
    SettleKeepsCount(armed, b, i, base);
    CompleteMeansCounted(Settle(armed, b), b, i, b.polls(armed.t + 1), base);
  }

  /** The instruments do nothing, every reply is legible, each wait polls once. */
  function Still(): Bench { Bench(t => [], t => true, t => 1) }

  /** Without a working CLEAR_SWEEPS the guarantee fails: on a bench where nothing
      happens at all, the wait reports the previous shot's sweep as complete. */
  lemma StaleCompletion(l: Live, i: nat)
    requires On(l, i) && !ClearWorks(At(l, i))
    ensures var v := ArmThenWait(l, Still(), i);
      v.ok && At(v.l, i).completed == At(l, i).completed
  {
    var b := Still();
    var l1 := Put(l, b, i, Cleared(At(l, i)));
    assert At(l1, i) == At(l, i);
    var l4 := Put(Settle(Settle(l1, b), b), b, i, Asked(At(l1, i), Single));
    assert At(l4, i).mode == Stopped && At(l4, i).sweeps >= 1;
    assert Arm(l, b, i) == Settle(l4, b);
    var l6 := Settle(Settle(l4, b), b);
    assert At(l6, i) == At(l4, i);
    assert PollComplete(l6, b, i, 1).ok;
  }

  predicate FreshOn(l: Live, b: Bench, i: nat)
    requires On(l, i)
  {
    var v := ArmThenWait(l, b, i);
    v.ok ==> At(v.l, i).completed > At(l, i).completed
  }

  /** Exactly when a completion can be trusted on every bench: the caller can check
      `ClearWorks` on the scope before arming it. */
  lemma FreshExactlyWhenClearWorks(l: Live, i: nat)
    requires On(l, i)
    ensures ClearWorks(At(l, i)) <==> forall b :: FreshOn(l, b, i)
  {
    if ClearWorks(At(l, i)) {
      forall b ensures FreshOn(l, b, i) {
        CompletionIsFresh(l, b, i);
      }
    } else {
      StaleCompletion(l, i);
      assert !FreshOn(l, Still(), i);
    }
  }

  // ---- the ready bit -----------------------------------------------------------

  /** The bits of a 16-bit register value. */
  function BitsOf(value: nat): Register { set k: nat | k < 16 && Bit(value, k) }

  /** `value & 0x2000`. */
  lemma ReadyMask(value: nat)
    ensures HasReady(BitsOf(value)) <==> value / 0x2000 % 2 == 1
  {
    HighBits(value, 9);
    HighBits(value / 16, 5);
    HighBits(value / 16 / 16, 1);
    LowBits(value / 16 / 16 / 16);
  }

  // ---- no lost ready event -----------------------------------------------------

  /** The state after `k` INR queries in a row. */
  function AfterPolls(l: Live, b: Bench, i: nat, k: nat): (l': Live)
    requires On(l, i)
    ensures On(l', i)
    decreases k
  {
    if k == 0 then l else AfterPolls(AfterInr(l, b, i), b, i, k - 1)
  }

  /** This step makes scope `i`'s engine ready: it arms, or re-arms after a sweep. */
  predicate Raises(w: World, e: Env, i: nat)
    requires WellFormed(w) && i < |w.scopes|
  {
    var s := w.scopes[i];
    match e
    case BecomeReady(k) => k == i && s.engine == Arming
    case AutoSweep(k) => k == i > 0 && AutoRuns(s)
    case TimerEdge => i == 0 && s.engine == Listening && s.mode != Single
    case Deliver(k) => k == i > 0 && w.flight[i] != [] && s.engine == Listening && s.mode != Single
    case _ => false
  }

  /** While these steps were played, scope `i`'s engine became ready. */
  predicate Raised(w: World, es: seq<Env>, i: nat)
    requires WellFormed(w) && i < |w.scopes|
    decreases |es|
  {
    es != [] && (Raises(w, es[0], i) || Raised(EnvStep(w, es[0]), es[1..], i))
  }

  lemma {:induction false} LatchKeepsRaise(w: World, es: seq<Env>, i: nat)
    requires WellFormed(w) && i < |w.scopes|
    ensures HasReady(Play(w, es).scopes[i].inr) <==> HasReady(w.scopes[i].inr) || Raised(w, es, i)
    decreases |es|
  {
    if es != [] {
      LatchKeepsRaise(EnvStep(w, es[0]), es[1..], i);
    }
  }

  /** Since the query before the `k`-th one (or at the start, already latched) the
      ready bit was raised. */
  predicate ReadyBefore(l: Live, b: Bench, i: nat, k: nat)
    requires On(l, i)
  {
    if k == 0 then HasReady(At(l, i).inr)
    else
      var before := AfterPolls(l, b, i, k - 1);
      Raised(Set(before.w, i, At(before, i).(inr := {})), b.script(before.t), i)
  }

  lemma {:induction false} LatchAtPoll(l: Live, b: Bench, i: nat, k: nat)
    requires On(l, i)
    ensures HasReady(At(AfterPolls(l, b, i, k), i).inr) <==> ReadyBefore(l, b, i, k)
    ensures AfterPolls(l, b, i, k).t == l.t + k
    decreases k
  {
    if k == 1 {
      LatchKeepsRaise(Set(l.w, i, At(l, i).(inr := {})), b.script(l.t), i);
    } else if k > 1 {
      LatchAtPoll(AfterInr(l, b, i), b, i, k - 1);
    }
  }

  /** Query `k` finds the latched bit, and its reply is legible. */
  predicate SeenAt(l: Live, b: Bench, i: nat, k: nat)
    requires On(l, i)
  {
    b.legible(l.t + k) && HasReady(At(AfterPolls(l, b, i, k), i).inr)
  }

  lemma SeenShift(l: Live, b: Bench, i: nat, k: nat)
    requires On(l, i)
    ensures SeenAt(AfterInr(l, b, i), b, i, k) == SeenAt(l, b, i, k + 1)
  {}

  lemma {:induction false} PollFindsLatch(l: Live, b: Bench, i: nat, seen: Register, polls: nat)
    requires On(l, i) && !HasReady(seen)
    ensures PollReady(l, b, i, seen, polls).ok <==> exists k: nat :: k < polls && SeenAt(l, b, i, k)
    decreases polls
  {
    if polls > 0 {
      var l', seen' := AfterInr(l, b, i), seen + InrValue(l, b, i);
      assert HasReady(seen') <==> SeenAt(l, b, i, 0);
      if !HasReady(seen') {
        PollFindsLatch(l', b, i, seen', polls - 1);
        if k: nat :| k < polls - 1 && SeenAt(l', b, i, k) {
          SeenShift(l, b, i, k);
        }
        if k: nat :| k < polls && SeenAt(l, b, i, k) {
          SeenShift(l, b, i, k - 1);
        }
      }
    }
  }

  /** The reply to query `k` is legible, and the bit was raised since the query before it. */
  predicate NoticeableAt(l: Live, b: Bench, i: nat, k: nat)
    requires On(l, i)
  {
    b.legible(l.t + k) && ReadyBefore(l, b, i, k)
  }

  /** The wait reports ready exactly when some poll with a legible reply was
      preceded by a raise that no earlier query had consumed. */
  lemma ReadyExactlyWhenRaised(l: Live, b: Bench, i: nat)
    requires On(l, i)
    ensures WaitReady(l, b, i).ok <==> exists k: nat :: k < b.polls(l.t) && NoticeableAt(l, b, i, k)
  {
    PollFindsLatch(l, b, i, {}, b.polls(l.t));
    forall k: nat ensures SeenAt(l, b, i, k) <==> NoticeableAt(l, b, i, k) {
      LatchAtPoll(l, b, i, k);
    }
  }
}
