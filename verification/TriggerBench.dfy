/** LeCroy scopes on a bench, and the driver's arm, ready and completion calls.

    A scope is its configured mode, as TRIG_MODE? reports it, apart from its
    trigger engine, which follows later; the sweep counter that CLEAR_SWEEPS
    resets; and the read-to-clear INR register.  Scope 0 is the master: every
    trigger it captures sends a pulse to each slave, which arrives some time
    later.  Everything the instruments do on their own happens in lists of
    environment steps played after each command or query of the driver. */
module TriggerBench {
  import opened Common

  datatype Mode = Auto | Norm | Single | Stopped
  datatype Engine = Idle | Arming | Listening

  /** A status register as the set of its bits: `|` is union, a mask test is membership. */
  type Register = set<nat>

  /** INR_TRIGGER_READY is 0x2000, bit 13. */
  const TRIGGER_READY: nat := 13

  predicate HasReady(inr: Register) { TRIGGER_READY in inr }

  /** `pending` is a TRIG_MODE command not yet in effect. `completed`, `captured`
      and `singles` are histories: sweeps ever completed, pulses they came from,
      and SINGLE commands received. */
  datatype Scope = Scope(
    mode: Mode, pending: Option<Mode>, engine: Engine, sweeps: nat, inr: Register, clearsInStop: bool,
    completed: nat, captured: seq<nat>, singles: nat)

  /** A command takes effect: the mode changes at once, the engine starts over. */
  function Takes(s: Scope): Scope {
    if s.pending.None? then s
    else s.(mode := s.pending.value, pending := None, engine := if s.pending.value == Stopped then Idle else Arming)
  }

  /** The engine is armed and says so in the INR register. */
  function Ready(s: Scope): Scope {
    if s.engine != Arming then s else s.(engine := Listening, inr := s.inr + {TRIGGER_READY})
  }

  /** A trigger edge; it is lost unless the engine listens. Outside SINGLE the engine
      re-arms after the sweep, and says so again. */
  function Hit(s: Scope, pulse: nat): Scope {
    if s.engine != Listening then s
    else
      var caught := s.(sweeps := s.sweeps + 1, completed := s.completed + 1, captured := s.captured + [pulse]);
      if s.mode == Single then caught.(engine := Idle, mode := Stopped) else caught.(inr := s.inr + {TRIGGER_READY})
  }

  predicate AutoRuns(s: Scope) { s.engine == Listening && s.mode == Auto }

  /** A sweep an AUTO scope takes without any edge; it re-arms as well. */
  function FreeRun(s: Scope): Scope {
    if AutoRuns(s) then s.(sweeps := s.sweeps + 1, completed := s.completed + 1, inr := s.inr + {TRIGGER_READY}) else s
  }

  /** Other internal state changes recorded in the INR register. */
  function Status(s: Scope, bits: Register): Scope { s.(inr := s.inr + (bits - {TRIGGER_READY})) }

  /** `flight[i]`: master pulses on their way to scope `i`; `pulses`: how many were sent. */
  datatype World = World(scopes: seq<Scope>, flight: seq<seq<nat>>, pulses: nat)

  predicate WellFormed(w: World) { |w.scopes| == |w.flight| > 0 }

  /** As many scopes, and a master that treats CLEAR_SWEEPS in STOP alike. */
  predicate SameSetup(w: World, w': World)
    requires WellFormed(w) && WellFormed(w')
  {
    |w'.scopes| == |w.scopes| && w'.scopes[0].clearsInStop == w.scopes[0].clearsInStop
  }

  datatype Env =
    | TakeEffect(i: nat) | BecomeReady(i: nat) | TimerEdge | Deliver(i: nat)
    | AutoSweep(i: nat) | Other(i: nat, bits: Register)

  function Set(w: World, i: nat, s: Scope): World
    requires i < |w.scopes|
  {
    w.(scopes := w.scopes[i := s])
  }

  function EnvStep(w: World, e: Env): (w': World)
    requires WellFormed(w)
    ensures WellFormed(w') && SameSetup(w, w')
  {
    match e
    case TakeEffect(i) => if i < |w.scopes| then Set(w, i, Takes(w.scopes[i])) else w
    case BecomeReady(i) => if i < |w.scopes| then Set(w, i, Ready(w.scopes[i])) else w
    case AutoSweep(i) => if 0 < i < |w.scopes| then Set(w, i, FreeRun(w.scopes[i])) else w
    case Other(i, bits) => if i < |w.scopes| then Set(w, i, Status(w.scopes[i], bits)) else w
    case TimerEdge =>
      if w.scopes[0].engine != Listening then w
      else
        World(w.scopes[0 := Hit(w.scopes[0], w.pulses)],
              seq(|w.flight|, i requires 0 <= i < |w.flight| =>
                if i == 0 then w.flight[i] else w.flight[i] + [w.pulses]),
              w.pulses + 1)
    case Deliver(i) =>
      if 0 < i < |w.scopes| && w.flight[i] != []
      then Set(w, i, Hit(w.scopes[i], w.flight[i][0])).(flight := w.flight[i := w.flight[i][1..]])
      else w
  }

  function Play(w: World, es: seq<Env>): (w': World)
    requires WellFormed(w)
    ensures WellFormed(w') && SameSetup(w, w')
    decreases |es|
  {
    if es == [] then w else Play(EnvStep(w, es[0]), es[1..])
  }

  /** The environment of a run: what happens after the driver's `t`-th command or
      query, whether a reply at that moment is legible or else blank or garbled, and how
      many passes a wait that starts at that moment makes before its deadline. */
  datatype Bench = Bench(script: nat -> seq<Env>, legible: nat -> bool, polls: nat -> nat)

  datatype Live = Live(w: World, t: nat)

  predicate On(l: Live, i: nat) { WellFormed(l.w) && i < |l.w.scopes| }

  function At(l: Live, i: nat): Scope
    requires On(l, i)
  {
    l.w.scopes[i]
  }

  // ---- commands and queries ----------------------------------------------------

  function Settle(l: Live, b: Bench): (l': Live)
    requires WellFormed(l.w)
    ensures WellFormed(l'.w) && SameSetup(l.w, l'.w)
  {
    Live(Play(l.w, b.script(l.t)), l.t + 1)
  }

  /** A command that changes scope `i` to `s`. */
  function Put(l: Live, b: Bench, i: nat, s: Scope): (l': Live)
    requires On(l, i)
    ensures On(l', i) && |l'.w.scopes| == |l.w.scopes|
    ensures s.clearsInStop == At(l, i).clearsInStop ==> SameSetup(l.w, l'.w)
  {
    Settle(Live(Set(l.w, i, s), l.t), b)
  }

  function Cleared(s: Scope): Scope {
    if s.mode == Stopped && !s.clearsInStop then s else s.(sweeps := 0)
  }

  function Asked(s: Scope, m: Mode): Scope {
    s.(pending := Some(m), singles := if m == Single then s.singles + 1 else s.singles)
  }

  // ---- the driver's calls as functions ----------------------------------------

  const READBACKS: nat := 25

  /** The reply to TRIG_MODE?; None stands for any text that names no mode. */
  function ModeReply(l: Live, b: Bench, i: nat): Option<Mode>
    requires On(l, i)
  {
    if b.legible(l.t) then Some(At(l, i).mode) else None
  }

  /** The verification loop of `set_trigger_mode`. */
  function Readback(l: Live, b: Bench, i: nat, m: Mode, tries: nat): (l': Live)
    requires On(l, i)
    ensures On(l', i) && SameSetup(l.w, l'.w)
    decreases tries, l.t
  {
    if tries == 0 then l
    else
      var seen, l' := ModeReply(l, b, i), Settle(l, b);
      if seen == Some(m) || (m == Single && seen == Some(Stopped)) then l' else Readback(l', b, i, m, tries - 1)
  }

  /** `set_trigger_mode`; None stands for any other string, which only queries. */
  function SetMode(l: Live, b: Bench, i: nat, m: Option<Mode>): (l': Live)
    requires On(l, i)
    ensures On(l', i) && SameSetup(l.w, l'.w)
  {
    var queried := Settle(Settle(l, b), b);
    if m.None? then queried
    else Readback(Put(queried, b, i, Asked(At(queried, i), m.value)), b, i, m.value, READBACKS)
  }

  function Arm(l: Live, b: Bench, i: nat): (l': Live)
    requires On(l, i)
    ensures On(l', i) && SameSetup(l.w, l'.w)
  {
    SetMode(Put(l, b, i, Cleared(At(l, i))), b, i, Some(Single))
  }

  function ArmMaster(l: Live, b: Bench, i: nat): (l': Live)
    requires On(l, i)
    ensures On(l', i) && SameSetup(l.w, l'.w)
  {
    Settle(Arm(l, b, i), b)
  }

  /** One INR? query: the value the driver gets, and the register cleared. */
  function InrValue(l: Live, b: Bench, i: nat): Register
    requires On(l, i)
  {
    if b.legible(l.t) then At(l, i).inr else {}
  }

  function AfterInr(l: Live, b: Bench, i: nat): (l': Live)
    requires On(l, i)
    ensures On(l', i) && SameSetup(l.w, l'.w)
  {
    Put(l, b, i, At(l, i).(inr := {}))
  }

  datatype Verdict = Verdict(ok: bool, l: Live)

  /** The polling loop of `wait_for_trigger_ready`. */
  function PollReady(l: Live, b: Bench, i: nat, seen: Register, polls: nat): (v: Verdict)
    requires On(l, i)
    ensures On(v.l, i) && SameSetup(l.w, v.l.w)
    decreases polls, l.t
  {
    if polls == 0 then Verdict(false, l)
    else
      var seen', l' := seen + InrValue(l, b, i), AfterInr(l, b, i);
      if HasReady(seen') then Verdict(true, l') else PollReady(l', b, i, seen', polls - 1)
  }

  function WaitReady(l: Live, b: Bench, i: nat): (v: Verdict)
    requires On(l, i)
    ensures On(v.l, i) && SameSetup(l.w, v.l.w)
  {
    PollReady(l, b, i, {}, b.polls(l.t))
  }

  function ArmAndConfirm(l: Live, b: Bench, i: nat): (v: Verdict)
    requires On(l, i)
    ensures On(v.l, i) && SameSetup(l.w, v.l.w)
  {
    WaitReady(Arm(l, b, i), b, i)
  }

  /** The polling loop of `wait_for_stop_then_complete`. */
  function PollComplete(l: Live, b: Bench, i: nat, polls: nat): (v: Verdict)
    requires On(l, i)
    ensures On(v.l, i) && SameSetup(l.w, v.l.w)
    decreases polls, l.t
  {
    if polls == 0 then Verdict(false, l)
    else
      var l' := Settle(l, b);
      if ModeReply(l, b, i) != Some(Stopped) then PollComplete(l', b, i, polls - 1)
      else if At(l', i).sweeps >= 1 then Verdict(true, Settle(l', b))
      else PollComplete(Settle(l', b), b, i, polls - 1)
  }

  function WaitComplete(l: Live, b: Bench, i: nat): (v: Verdict)
    requires On(l, i)
    ensures On(v.l, i) && SameSetup(l.w, v.l.w)
  {
    PollComplete(Settle(l, b), b, i, b.polls(l.t + 1))
  }

  // ---- the driver --------------------------------------------------------------

  /** The instruments and the time line they share. */
  class Instruments {
    var live: Live
    const bench: Bench

    constructor (w: World, bench: Bench)
      ensures live == Live(w, 0) && this.bench == bench
    {
      live, this.bench := Live(w, 0), bench;
    }
  }

  class LeCroyScope {
    const rig: Instruments
    const index: nat

    constructor (rig: Instruments, index: nat)
      ensures this.rig == rig && this.index == index
    {
      this.rig, this.index := rig, index;
    }

    method Write(s: Scope)
      requires On(rig.live, index)
      modifies rig
      ensures rig.live == old(Put(rig.live, rig.bench, index, s))
    {
      rig.live := Put(rig.live, rig.bench, index, s);
    }

    /** A command or query that leaves the scope as it is. */
    method Touch()
      requires On(rig.live, index)
      modifies rig
      ensures rig.live == old(Settle(rig.live, rig.bench)) && On(rig.live, index)
    {
      rig.live := Settle(rig.live, rig.bench);
    }

    method QueryMode() returns (mode: Option<Mode>)
      requires On(rig.live, index)
      modifies rig
      ensures mode == old(ModeReply(rig.live, rig.bench, index))
      ensures rig.live == old(Settle(rig.live, rig.bench)) && On(rig.live, index)
    {
      mode := ModeReply(rig.live, rig.bench, index);
      Touch();
    }

    method ClearSweeps()
      requires On(rig.live, index)
      modifies rig
      ensures rig.live == old(Put(rig.live, rig.bench, index, Cleared(At(rig.live, index))))
    {
      Write(Cleared(At(rig.live, index)));
    }

    method SetTriggerMode(m: Option<Mode>) returns (previous: Option<Mode>)
      requires On(rig.live, index)
      modifies rig
      ensures previous == old(ModeReply(Settle(rig.live, rig.bench), rig.bench, index))
      ensures rig.live == old(SetMode(rig.live, rig.bench, index, m))
    {
      Touch();
      previous := QueryMode();
      if m.None? {
        return;
      }
      Write(Asked(At(rig.live, index), m.value));
      ghost var goal := Readback(rig.live, rig.bench, index, m.value, READBACKS);
      var i := 0;
      while i < READBACKS
        invariant 0 <= i <= READBACKS && On(rig.live, index)
        invariant goal == Readback(rig.live, rig.bench, index, m.value, READBACKS - i)
      {
        var text := QueryMode();
        if text == m || (m.value == Single && text == Some(Stopped)) {
          return;
        }
        i := i + 1;
      }
    }

    method ArmSingle()
      requires On(rig.live, index)
      modifies rig
      ensures rig.live == old(Arm(rig.live, rig.bench, index))
    {
      ClearSweeps();
      var _ := SetTriggerMode(Some(Single));
    }

    method ArmMasterSingle() returns (warned: bool)
      requires On(rig.live, index)
      modifies rig
      ensures rig.live == old(ArmMaster(rig.live, rig.bench, index))
      ensures warned <==>
        old(ModeReply(Arm(rig.live, rig.bench, index), rig.bench, index)) !in {Some(Single), Some(Stopped)}
    {
      ClearSweeps();
      var _ := SetTriggerMode(Some(Single));
      var mode := QueryMode();
      warned := mode !in {Some(Single), Some(Stopped)};
    }

    method ReadInr() returns (value: Register)
      requires On(rig.live, index)
      modifies rig
      ensures value == old(InrValue(rig.live, rig.bench, index))
      ensures rig.live == old(AfterInr(rig.live, rig.bench, index))
    {
      value := InrValue(rig.live, rig.bench, index);
      Write(At(rig.live, index).(inr := {}));
    }

    method WaitForTriggerReady() returns (ready: bool)
      requires On(rig.live, index)
      modifies rig
      ensures Verdict(ready, rig.live) == old(WaitReady(rig.live, rig.bench, index))
    {
      ghost var goal := WaitReady(rig.live, rig.bench, index);
      var seen: Register := {};
      var polls := rig.bench.polls(rig.live.t);
      while polls > 0
        invariant On(rig.live, index)
        invariant goal == PollReady(rig.live, rig.bench, index, seen, polls)
      {
        var value := ReadInr();
        seen := seen + value;
        if HasReady(seen) {
          return true;
        }
        polls := polls - 1;
      }
      return false;
    }

    method ArmSingleAndConfirm() returns (ready: bool)
      requires On(rig.live, index)
      modifies rig
      ensures Verdict(ready, rig.live) == old(ArmAndConfirm(rig.live, rig.bench, index))
    {
      ArmSingle();
      ready := WaitForTriggerReady();
    }

    method WaitForStopThenComplete() returns (complete: bool)
      requires On(rig.live, index)
      modifies rig
      ensures Verdict(complete, rig.live) == old(WaitComplete(rig.live, rig.bench, index))
    {
      ghost var goal := WaitComplete(rig.live, rig.bench, index);
      Touch();
      var polls := rig.bench.polls(rig.live.t);
      while polls > 0
        invariant On(rig.live, index)
        invariant goal == PollComplete(rig.live, rig.bench, index, polls)
      {
        var mode := QueryMode();
        if mode == Some(Stopped) {
          var sweeps := At(rig.live, index).sweeps;
          Touch();
          if sweeps >= 1 {
            return true;
          }
        }
        polls := polls - 1;
      }
      return false;
    }
  }
}
