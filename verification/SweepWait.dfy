/** `wait_for_sweeps`: waiting for an averaged acquisition on a scope whose sweep
    counter may fall when it is stopped, which makes the driver start over. */
module SweepWait {
  import opened Common

  /** The counter readings of the WAVEFORM? queries in order (the link drops after the
      last one), which of the two loop deadlines has passed at each time, and, for an
      attempt that starts with reading `s`, the first reading that counts sweeps since
      its CLEAR_SWEEPS (None: the clear never takes effect). */
  datatype Counter = Counter(
    readings: seq<int>, clearLate: nat -> bool, pollLate: nat -> bool, effect: nat -> Option<nat>)

  /** One attempt: the last count polled (0 if none), whether polling ended by its
      deadline, the count after STOP, and the position of the next reading. */
  datatype Attempt = Lost | Attempt(polled: int, timedOut: bool, final: int, next: nat)

  /** Readings used by the loop that waits for CLEAR_SWEEPS to show; None: link lost. */
  function ClearLoop(c: Counter, pos: nat, sweeps: int, initial: int): (r: Option<nat>)
    requires pos <= |c.readings|
    ensures r.Some? ==> pos <= r.value <= |c.readings|
    decreases |c.readings| - pos
  {
    if c.clearLate(pos) || sweeps <= 1 then Some(pos)
    else if pos == |c.readings| then None
    else
      var reading := c.readings[pos];
      if reading < initial || reading == 1 then Some(pos + 1) else ClearLoop(c, pos + 1, reading, initial)
  }

  datatype Polling = PollLost | Polled(polled: int, timedOut: bool, next: nat)

  function PollLoop(c: Counter, pos: nat, polled: int, goal: int): (r: Polling)
    requires pos <= |c.readings|
    ensures r.Polled? ==> pos <= r.next <= |c.readings|
    decreases |c.readings| - pos
  {
    if c.pollLate(pos) then Polled(polled, true, pos)
    else if pos == |c.readings| then PollLost
    else
      var reading := c.readings[pos];
      if reading >= goal then Polled(reading, false, pos + 1) else PollLoop(c, pos + 1, reading, goal)
  }

  function Once(c: Counter, pos: nat, goal: int): (a: Attempt)
    requires pos <= |c.readings|
    ensures a.Attempt? ==> pos < a.next <= |c.readings|
  {
    if pos == |c.readings| then Lost
    else
      var initial := c.readings[pos];
      match ClearLoop(c, pos + 1, initial, initial)
      case None => Lost
      case Some(from) =>
        match PollLoop(c, from, 0, goal)
        case PollLost => Lost
        case Polled(polled, timedOut, next) =>
          if next == |c.readings| then Lost else Attempt(polled, timedOut, c.readings[next], next + 1)
  }

  /** The counter fell after STOP: the average was restarted behind our back. */
  predicate Fell(a: Attempt) { a.Attempt? && a.polled > a.final }

  datatype Waited = Dropped(restarts: nat) | Done(timedOut: bool, count: int, restarts: nat, next: nat)

  function Wait(c: Counter, pos: nat, goal: int): Waited
    requires pos <= |c.readings|
    decreases |c.readings| - pos
  {
    match Once(c, pos, goal)
    case Lost => Dropped(0)
    case Attempt(polled, timedOut, final, next) =>
      if polled > final then
        match Wait(c, next, goal)
        case Dropped(restarts) => Dropped(restarts + 1)
        case Done(t, n, restarts, end) => Done(t, n, restarts + 1, end)
      else Done(timedOut, final, 0, next)
  }

  /** Commands of an attempt up to the loop that waits for the clear, between the two
      loops, and after polling; `set_trigger_mode` starts with COMM_HEADER OFF. */
  const RESTART := ["COMM_HEADER OFF", "TRIG_MODE AUTO", "CLEAR_SWEEPS", "COMM_HEADER OFF", "TRIG_MODE NORM"]
  const SHORT_READS := ["COMM_FORMAT DEF9,BYTE,BIN", "WAVEFORM_SETUP SP,0,NP,1,FP,1,SN,0", "COMM_HEADER OFF"]
  const FREEZE := ["COMM_HEADER OFF", "TRIG_MODE STOP"]
  /** A query for the counter, whatever the channel. */
  const READ := "WAVEFORM?"

  function Reads(n: nat): seq<string> { seq(n, i => READ) }

  /** An attempt with `clears` readings in the first loop and `polls` in the second. */
  function Script(clears: nat, polls: nat): seq<string> {
    [READ] + RESTART + Reads(clears) + SHORT_READS + Reads(polls) + FREEZE + [READ]
  }

  /** What the attempt that starts with reading `pos` writes, if the link holds. */
  function Attempted(c: Counter, pos: nat, goal: int): seq<string>
    requires pos < |c.readings|
  {
    match ClearLoop(c, pos + 1, c.readings[pos], c.readings[pos])
    case None => []
    case Some(from) =>
      match PollLoop(c, from, 0, goal)
      case PollLost => []
      case Polled(_, _, next) => Script(from - pos - 1, next - from)
  }

  function Written(c: Counter, pos: nat, goal: int): seq<string>
    requires pos <= |c.readings|
    decreases |c.readings| - pos
  {
    match Once(c, pos, goal)
    case Lost => []
    case Attempt(polled, _, final, next) =>
      Attempted(c, pos, goal) + if polled > final then Written(c, next, goal) else []
  }

  lemma MoreReads(before: seq<string>, n: nat)
    ensures before + Reads(n) + [READ] == before + Reads(n + 1)
  {}

  lemma NoReads(before: seq<string>)
    ensures before + Reads(0) == before
  {}

  lemma ScriptJoined(before: seq<string>, clears: nat, polls: nat)
    ensures before + [READ] + RESTART + Reads(clears) + (SHORT_READS + Reads(polls) + FREEZE) + [READ]
         == before + Script(clears, polls)
  {
    var a, b, c := RESTART, Reads(clears), SHORT_READS + Reads(polls) + FREEZE;
    assert before + [READ] + a + b + c + [READ] == before + ([READ] + a + b + c + [READ]);
    assert [READ] + a + b + c + [READ] == Script(clears, polls);
  }

  lemma Joined(before: seq<string>, first: seq<string>, rest: seq<string>)
    ensures before + first + rest == before + (first + rest)
  {}

  class LeCroyScope {
    const counter: Counter
    var pos: nat
    var gaaakCount: nat
    /** Commands and counter queries written, in order. */
    var written: seq<string>

    constructor (counter: Counter)
      ensures this.counter == counter && pos == 0 && gaaakCount == 0 && written == []
    {
      this.counter, pos, gaaakCount, written := counter, 0, 0, [];
    }

    /** One WAVEFORM? query; None when the link has dropped. */
    method ReadSweeps() returns (n: Option<int>)
      requires pos <= |counter.readings|
      modifies this`pos, this`written
      ensures written == old(written) + [READ]
      ensures if old(pos) == |counter.readings| then n.None? && pos == old(pos)
              else n == Some(counter.readings[old(pos)]) && pos == old(pos) + 1
    {
      written := written + [READ];
      if pos == |counter.readings| {
        return None;
      }
      n := Some(counter.readings[pos]);
      pos := pos + 1;
    }

    /** The loop that waits for the cleared counter; false when the link dropped. */
    method AwaitClear(initial: int) returns (linked: bool)
      requires pos <= |counter.readings|
      modifies this`pos, this`written
      ensures old(pos) <= pos <= |counter.readings|
      ensures old(ClearLoop(counter, pos, initial, initial)) == if linked then Some(pos) else None
      ensures written == old(written) + Reads(pos - old(pos) + if linked then 0 else 1)
    {
      var sweeps := initial;
      NoReads(written);
      while !counter.clearLate(pos) && sweeps > 1
        invariant old(pos) <= pos <= |counter.readings| && written == old(written) + Reads(pos - old(pos))
        invariant old(ClearLoop(counter, pos, initial, initial)) == ClearLoop(counter, pos, sweeps, initial)
        decreases |counter.readings| - pos
      {
        MoreReads(old(written), pos - old(pos));
        var read := ReadSweeps();
        if read.None? { return false; }
        sweeps := read.value;
        if sweeps < initial || sweeps == 1 {
          return true;
        }
      }
      return true;
    }

    /** The loop that polls the counter until it reaches `goal`. */
    method PollSweeps(goal: int) returns (p: Polling)
      requires pos <= |counter.readings|
      modifies this`pos, this`written
      ensures old(pos) <= pos <= |counter.readings|
      ensures p == old(PollLoop(counter, pos, 0, goal)) && (p.Polled? ==> pos == p.next)
      ensures written == old(written) + Reads(pos - old(pos) + if p.Polled? then 0 else 1)
    {
      var gaaak := 0;
      NoReads(written);
      while !counter.pollLate(pos)
        invariant old(pos) <= pos <= |counter.readings| && written == old(written) + Reads(pos - old(pos))
        invariant old(PollLoop(counter, pos, 0, goal)) == PollLoop(counter, pos, gaaak, goal)
        decreases |counter.readings| - pos
      {
        MoreReads(old(written), pos - old(pos));
        var read := ReadSweeps();
        if read.None? { return PollLost; }
        gaaak := read.value;
        if gaaak >= goal {
          return Polled(gaaak, false, pos);
        }
      }
      return Polled(gaaak, true, pos);
    }

    /** From AUTO to the end of the loop that waits for the clear. */
    method Restart(initial: int) returns (linked: bool)
      requires pos <= |counter.readings|
      modifies this`pos, this`written
      ensures old(pos) <= pos <= |counter.readings|
      ensures old(ClearLoop(counter, pos, initial, initial)) == if linked then Some(pos) else None
      ensures old(written) <= written
      ensures linked ==> written == old(written) + RESTART + Reads(pos - old(pos))
    {
      written := written + RESTART;
      linked := AwaitClear(initial);
    }

    /** From the shorter reads to STOP. */
    method PollAndFreeze(goal: int) returns (p: Polling)
      requires pos <= |counter.readings|
      modifies this`pos, this`written
      ensures old(pos) <= pos <= |counter.readings|
      ensures p == old(PollLoop(counter, pos, 0, goal)) && (p.Polled? ==> pos == p.next)
      ensures old(written) <= written
      ensures p.Polled? ==> written == old(written) + (SHORT_READS + Reads(pos - old(pos)) + FREEZE)
    {
      written := written + SHORT_READS;
      p := PollSweeps(goal);
      if p.PollLost? { return; }
      written := written + FREEZE;
      Joined(old(written), SHORT_READS, Reads(pos - old(pos)));
      Joined(old(written), SHORT_READS + Reads(pos - old(pos)), FREEZE);
    }

    /** One pass through `wait_for_sweeps`, up to the reading after STOP. */
    method RunAttempt(goal: int) returns (a: Attempt)
      requires pos <= |counter.readings|
      modifies this`pos, this`written
      ensures a == old(Once(counter, pos, goal)) && pos <= |counter.readings|
      ensures a.Lost? ==> old(written) <= written
      ensures a.Attempt? ==> pos == a.next && written == old(written) + old(Attempted(counter, pos, goal))
    {
      ghost var start := pos;
      var read := ReadSweeps();
      if read.None? { return Lost; }
      var linked := Restart(read.value);
      if !linked { return Lost; }
      ghost var from := pos;
      var polling := PollAndFreeze(goal);
      if polling.PollLost? { return Lost; }
      ScriptJoined(old(written), from - start - 1, pos - from);
      read := ReadSweeps();
      if read.None? { return Lost; }
      return Attempt(polling.polled, polling.timedOut, read.value, pos);
    }

    /** `wait_for_sweeps`; None when the connection error propagates. */
    method WaitForSweeps(goal: int) returns (r: Option<(bool, int)>)
      requires pos <= |counter.readings|
      modifies this
      ensures match old(Wait(counter, pos, goal))
        case Dropped(restarts) => r.None? && gaaakCount == old(gaaakCount) + restarts && old(written) <= written
        case Done(timedOut, count, restarts, next) =>
          r == Some((timedOut, count)) && gaaakCount == old(gaaakCount) + restarts && pos == next
          && written == old(written) + old(Written(counter, pos, goal))
      decreases |counter.readings| - pos
    {
      var a := RunAttempt(goal);
      if a.Lost? { return None; }
      ghost var first := old(Attempted(counter, pos, goal));
      if a.polled > a.final {
        gaaakCount := gaaakCount + 1;
        ghost var rest := Written(counter, pos, goal);
        r := WaitForSweeps(goal);
        Joined(old(written), first, rest);
        return;
      }
      Joined(old(written), first, []);
      return Some((a.timedOut, a.final));
    }
  }

  // ---- what the wait guarantees ------------------------------------------------

  /** Start of the `k`-th attempt of a wait that starts at `pos`. */
  function Start(c: Counter, pos: nat, goal: int, k: nat): (r: Option<nat>)
    requires pos <= |c.readings|
    ensures r.Some? ==> r.value <= |c.readings|
    decreases k
  {
    if k == 0 then Some(pos)
    else
      match Once(c, pos, goal)
      case Lost => None
      case Attempt(_, _, _, next) => Start(c, next, goal, k - 1)
  }

  /** A reading in which the cleared counter shows. */
  predicate Cleared(reading: int, initial: int) { reading < initial || reading == 1 }

  /** The first loop has a reason to end at reading `q`: its deadline, or the reading
      before, in which the clear shows or which is not above 1. */
  predicate ClearEnds(c: Counter, pos: nat, q: nat, sweeps: int, initial: int)
    requires pos <= q <= |c.readings|
  {
    || c.clearLate(q)
    || if q == pos then sweeps <= 1 else Cleared(c.readings[q - 1], initial) || c.readings[q - 1] <= 1
  }

  /** The loop after CLEAR_SWEEPS ends at its first reason to, or with the link. */
  lemma {:induction false} ClearLoopMeaning(c: Counter, pos: nat, sweeps: int, initial: int)
    requires pos <= |c.readings|
    ensures var r := ClearLoop(c, pos, sweeps, initial);
      && (r.Some? ==> ClearEnds(c, pos, r.value, sweeps, initial))
      && forall k | pos <= k < (if r.Some? then r.value else |c.readings| + 1) :: !ClearEnds(c, pos, k, sweeps, initial)
    decreases |c.readings| - pos
  {
    var r := ClearLoop(c, pos, sweeps, initial);
    if !ClearEnds(c, pos, pos, sweeps, initial) && pos < |c.readings| && !Cleared(c.readings[pos], initial) {
      ClearLoopMeaning(c, pos + 1, c.readings[pos], initial);
      forall k | pos < k < (if r.Some? then r.value else |c.readings| + 1)
        ensures !ClearEnds(c, pos, k, sweeps, initial)
      {
        assert !ClearEnds(c, pos + 1, k, c.readings[pos], initial);
      }
    }
  }

  /** The polling loop has a reason to end at reading `q`. */
  predicate PollEnds(c: Counter, pos: nat, q: nat, goal: int)
    requires pos <= q <= |c.readings|
  {
    c.pollLate(q) || (q > pos && c.readings[q - 1] >= goal)
  }

  /** Polling ends at its first reason to, or with the link. It holds the last reading,
      and is not timed out exactly if that reached the goal. */
  lemma {:induction false} PollingReachesGoal(c: Counter, pos: nat, polled: int, goal: int)
    requires pos <= |c.readings|
    ensures var r := PollLoop(c, pos, polled, goal);
      && (r.Polled? ==>
            && PollEnds(c, pos, r.next, goal)
            && r.polled == (if r.next == pos then polled else c.readings[r.next - 1])
            && (!r.timedOut <==> r.next > pos && r.polled >= goal))
      && forall k | pos <= k < (if r.Polled? then r.next else |c.readings| + 1) :: !PollEnds(c, pos, k, goal)
    decreases |c.readings| - pos
  {
    var r := PollLoop(c, pos, polled, goal);
    if !c.pollLate(pos) && pos < |c.readings| && c.readings[pos] < goal {
      PollingReachesGoal(c, pos + 1, c.readings[pos], goal);
      forall k | pos < k < (if r.Polled? then r.next else |c.readings| + 1) ensures !PollEnds(c, pos, k, goal) {
        assert !PollEnds(c, pos + 1, k, goal);
      }
    }
  }

  // ---- restarts and the returned count, over the readings --------------------------

  /** The attempt that starts with reading `s` polls from reading `from` on and ends with
      reading `next - 1`, the one after STOP. */
  predicate Runs(c: Counter, s: nat, goal: int, from: nat, next: nat) {
    && s < from < next <= |c.readings|
    && ClearLoop(c, s + 1, c.readings[s], c.readings[s]) == Some(from)
    && var p := PollLoop(c, from, 0, goal);
       p.Polled? && p.next == next - 1
  }

  /** The last count polled, 0 if there was none, is above the count after STOP. */
  predicate Falls(c: Counter, from: nat, next: nat)
    requires from < next <= |c.readings|
  {
    (if next - 1 == from then 0 else c.readings[next - 2]) > c.readings[next - 1]
  }

  /** What one attempt makes of its readings: it starts over exactly if the counter falls,
      and otherwise returns the count after STOP. */
  lemma AttemptOnReadings(c: Counter, s: nat, goal: int)
    requires s <= |c.readings|
    ensures Once(c, s, goal).Attempt? <==> exists from, next :: Runs(c, s, goal, from, next)
    ensures forall from, next | Runs(c, s, goal, from, next) ::
      Wait(c, s, goal) ==
        if Falls(c, from, next) then
          match Wait(c, next, goal)
          case Dropped(restarts) => Dropped(restarts + 1)
          case Done(timedOut, count, restarts, end) => Done(timedOut, count, restarts + 1, end)
        else Done(next - 1 == from || c.readings[next - 2] < goal, c.readings[next - 1], 0, next)
  {
    var a := Once(c, s, goal);
    if a.Attempt? {
      var from := ClearLoop(c, s + 1, c.readings[s], c.readings[s]).value;
      assert Runs(c, s, goal, from, a.next);
    }
    forall from, next | Runs(c, s, goal, from, next)
      ensures a == Attempt(if next - 1 == from then 0 else c.readings[next - 2],
                           next - 1 == from || c.readings[next - 2] < goal, c.readings[next - 1], next)
    {
      PollingReachesGoal(c, from, 0, goal);
    }
  }

  /** A wait that is not timed out returns a count of at least `goal`; no wait
      returns less than the last count its final attempt polled. */
  lemma {:induction false} WaitIsSound(c: Counter, pos: nat, goal: int)
    requires pos <= |c.readings| && Wait(c, pos, goal).Done?
    ensures var w := Wait(c, pos, goal);
      && Start(c, pos, goal, w.restarts).Some?
      && var last := Once(c, Start(c, pos, goal, w.restarts).value, goal);
      && last.Attempt? && last.polled <= last.final == w.count && last.timedOut == w.timedOut && last.next == w.next
      && (!w.timedOut ==> w.count >= goal)
    decreases |c.readings| - pos
  {
    var a := Once(c, pos, goal);
    if a.polled > a.final {
      WaitIsSound(c, a.next, goal);
    } else {
      PollingReachesGoal(c, ClearLoop(c, pos + 1, c.readings[pos], c.readings[pos]).value, 0, goal);
    }
  }

  lemma FirstAttempt(c: Counter, pos: nat, goal: int) returns (from: nat, next: nat)
    requires pos <= |c.readings| && Once(c, pos, goal).Attempt?
    ensures Runs(c, pos, goal, from, next) && Once(c, pos, goal).next == next
    ensures Fell(Once(c, pos, goal)) <==> Falls(c, from, next)
    ensures Once(c, pos, goal).final == c.readings[next - 1]
    ensures Once(c, pos, goal).timedOut <==> next - 1 == from || c.readings[next - 2] < goal
  {
    from := ClearLoop(c, pos + 1, c.readings[pos], c.readings[pos]).value;
    next := Once(c, pos, goal).next;
    PollingReachesGoal(c, from, 0, goal);
  }

  /** The number of restarts is exact: attempt `k` before the last ended with a fallen
      counter, and the next one starts with the reading behind it. */
  lemma {:induction false} RestartsAreFalls(c: Counter, pos: nat, goal: int, k: nat)
    returns (s: nat, from: nat, next: nat)
    requires pos <= |c.readings| && k < Wait(c, pos, goal).restarts
    ensures Start(c, pos, goal, k) == Some(s) && Start(c, pos, goal, k + 1) == Some(next)
    ensures Runs(c, s, goal, from, next) && Falls(c, from, next)
    decreases |c.readings| - pos
  {
    from, next := FirstAttempt(c, pos, goal);
    if k == 0 {
      s := pos;
      assert Start(c, next, goal, 0) == Some(next);
    } else {
      s, from, next := RestartsAreFalls(c, next, goal, k - 1);
    }
  }

  /** The last attempt of a wait that returns did not end with a fallen counter, and the
      count returned is the reading after its STOP; it is in time exactly if the last
      polled reading reached the goal. */
  lemma {:induction false} LastReadingReturned(c: Counter, pos: nat, goal: int) returns (s: nat, from: nat)
    requires pos <= |c.readings| && Wait(c, pos, goal).Done?
    ensures var w := Wait(c, pos, goal);
      && Start(c, pos, goal, w.restarts) == Some(s) && Runs(c, s, goal, from, w.next) && !Falls(c, from, w.next)
      && w.count == c.readings[w.next - 1]
      && (!w.timedOut <==> w.next - 1 > from && c.readings[w.next - 2] >= goal)
    decreases |c.readings| - pos
  {
    var next;
    from, next := FirstAttempt(c, pos, goal);
    s := pos;
    if Falls(c, from, next) { s, from := LastReadingReturned(c, next, goal); }
  }

  /** What one attempt writes, in order: it clears once, before it waits for the clear and
      polls, and stops once, after the last poll and before the last reading. */
  lemma ScriptInOrder(clears: nat, polls: nat) returns (w: seq<string>)
    ensures w == Script(clears, polls) && |w| == 12 + clears + polls
    ensures w[..6]
         == ["WAVEFORM?", "COMM_HEADER OFF", "TRIG_MODE AUTO", "CLEAR_SWEEPS", "COMM_HEADER OFF", "TRIG_MODE NORM"]
    ensures forall k | 6 <= k < 6 + clears :: w[k] == "WAVEFORM?"
    ensures w[6 + clears..9 + clears]
         == ["COMM_FORMAT DEF9,BYTE,BIN", "WAVEFORM_SETUP SP,0,NP,1,FP,1,SN,0", "COMM_HEADER OFF"]
    ensures forall k | 9 + clears <= k < 9 + clears + polls :: w[k] == "WAVEFORM?"
    ensures w[9 + clears + polls..] == ["COMM_HEADER OFF", "TRIG_MODE STOP", "WAVEFORM?"]
  {
    w := Script(clears, polls);
  }

  lemma AttemptedIsScript(c: Counter, s: nat, goal: int, from: nat, next: nat) returns (w: seq<string>)
    requires Runs(c, s, goal, from, next)
    ensures w == Script(from - (s + 1), next - 1 - from) && w == Attempted(c, s, goal)
  {
    w := Attempted(c, s, goal);
  }

  lemma WrittenOnce(c: Counter, s: nat, goal: int, a: Attempt) returns (w: seq<string>)
    requires s < |c.readings| && a == Once(c, s, goal) && a.Attempt?
    ensures w == Attempted(c, s, goal)
    ensures Written(c, s, goal) == w + if Fell(a) then Written(c, a.next, goal) else []
  {
    w := Attempted(c, s, goal);
  }

  lemma OnlyOneRun(c: Counter, s: nat, goal: int, from: nat, next: nat) returns (a: Attempt)
    requires Runs(c, s, goal, from, next)
    ensures a == Once(c, s, goal) && a.Attempt? && a.next == next && (Fell(a) <==> Falls(c, from, next))
  {
    a := Once(c, s, goal);
    var f, e := FirstAttempt(c, s, goal);
  }

  /** What a wait writes: for each of its attempts the script with as many queries as it
      makes readings. */
  lemma WrittenByAttempts(c: Counter, s: nat, goal: int, from: nat, next: nat)
    requires Runs(c, s, goal, from, next)
    ensures Written(c, s, goal)
         == Script(from - (s + 1), next - 1 - from) + if Falls(c, from, next) then Written(c, next, goal) else []
  {
    var a := OnlyOneRun(c, s, goal, from, next);
    var v := WrittenOnce(c, s, goal, a);
    var w := AttemptedIsScript(c, s, goal, from, next);
  }

  // ---- is the count newer than CLEAR_SWEEPS? ---------------------------------------

  /** Reading `p` is made before the clear takes effect. */
  predicate Before(p: nat, effect: Option<nat>) { effect.None? || p < effect.value }

  /** In the attempt that starts with reading `s`, up to `last`, the counter counts: it
      falls nowhere but where the clear takes effect, which is after reading `s`. */
  predicate Counts(c: Counter, s: nat, last: nat)
    requires last < |c.readings|
  {
    && Before(s, c.effect(s))
    && forall i, j | s <= i <= j <= last && (Before(i, c.effect(s)) ==> Before(j, c.effect(s))) ::
        c.readings[i] <= c.readings[j]
  }

  /** This counter's wait from `pos` ends with an attempt that starts with reading `s`. */
  predicate EndsFrom(c: Counter, pos: nat, goal: int, s: nat) {
    && pos <= |c.readings| && Wait(c, pos, goal).Done?
    && Start(c, pos, goal, Wait(c, pos, goal).restarts) == Some(s) && s < Wait(c, pos, goal).next <= |c.readings|
  }

  /** If this wait returns a count from an attempt that starts with reading `s` of `n0`,
      of a counter that counts, the count was accumulated since that attempt's clear. */
  predicate New(c: Counter, pos: nat, goal: int, s: nat, n0: int, effect: Option<nat>, success: bool) {
    EndsFrom(c, pos, goal, s) && c.readings[s] == n0 && c.effect(s) == effect
    && Counts(c, s, Wait(c, pos, goal).next - 1) && (success ==> !Wait(c, pos, goal).timedOut)
    ==> !Before(Wait(c, pos, goal).next - 1, effect)
  }

  /** So it is for every counter with these deadlines, and every wait on it. */
  ghost predicate AlwaysNew(s: nat, n0: int, goal: int, effect: Option<nat>, clearLate: nat -> bool, success: bool) {
    forall c: Counter, pos: nat | c.clearLate == clearLate :: New(c, pos, goal, s, n0, effect, success)
  }

  predicate GoesOn(p: nat, n0: int, effect: Option<nat>, clearLate: nat -> bool, success: bool) {
    Before(if success then p + 1 else p, effect) ==> n0 > 1 && !clearLate(p)
  }

  /** As long as the clear has no effect the loop that waits for it goes on: it is not
      skipped, and its deadline does not fall. The reading after STOP is one more. */
  ghost predicate Outlasts(s: nat, n0: int, effect: Option<nat>, clearLate: nat -> bool, success: bool) {
    forall p: nat | s < p :: GoesOn(p, n0, effect, clearLate, success)
  }

  /** A reading made before the clear takes effect is not below the first one. */
  lemma OldReading(c: Counter, s: nat, last: nat, i: nat)
    requires s <= i <= last < |c.readings| && Counts(c, s, last)
    ensures Before(i, c.effect(s)) ==> c.readings[s] <= c.readings[i]
  {}

  /** Where the last attempt of a wait is read. */
  lemma LastAttempt(c: Counter, pos: nat, goal: int, s: nat) returns (from: nat)
    requires EndsFrom(c, pos, goal, s)
    ensures ClearLoop(c, s + 1, c.readings[s], c.readings[s]) == Some(from)
    ensures var w := Wait(c, pos, goal); s < from <= w.next - 1 && (!w.timedOut ==> from < w.next - 1)
  {
    WaitIsSound(c, pos, goal);
    from := ClearLoop(c, s + 1, c.readings[s], c.readings[s]).value;
    PollingReachesGoal(c, from, 0, goal);
  }

  lemma OutlastIsNew(c: Counter, pos: nat, goal: int, s: nat, effect: Option<nat>, success: bool)
    requires EndsFrom(c, pos, goal, s) && c.effect(s) == effect
    requires Outlasts(s, c.readings[s], effect, c.clearLate, success)
    ensures New(c, pos, goal, s, c.readings[s], effect, success)
  {
    var w := Wait(c, pos, goal);
    var last := w.next - 1;
    var from := LastAttempt(c, pos, goal, s);
    ClearLoopMeaning(c, s + 1, c.readings[s], c.readings[s]);
    assert GoesOn(from, c.readings[s], effect, c.clearLate, success);
    if Counts(c, s, last) { OldReading(c, s, last, from - 1); }
  }

  /** The loop saw a reading that shows the clear: what the driver itself can check. */
  predicate ClearSeen(c: Counter, s: nat)
    requires s < |c.readings|
  {
    var from := ClearLoop(c, s + 1, c.readings[s], c.readings[s]);
    c.readings[s] > 1 && from.Some? && from.value > s + 1 && Cleared(c.readings[from.value - 1], c.readings[s])
  }

  lemma SeenIsNew(c: Counter, pos: nat, goal: int, s: nat)
    requires EndsFrom(c, pos, goal, s) && Counts(c, s, Wait(c, pos, goal).next - 1) && ClearSeen(c, s)
    ensures !Before(Wait(c, pos, goal).next - 1, c.effect(s))
  {
    var from := LastAttempt(c, pos, goal, s);
    OldReading(c, s, Wait(c, pos, goal).next - 1, from - 1);
  }

  // ---- a count that is old ---------------------------------------------------------

  function Max(a: int, b: int): int { if a < b then b else a }

  /** A counter that is never cleared, read `q` times in all. */
  function Stuck(s: nat, n0: int, goal: int, q: nat, effect: Option<nat>, clearLate: nat -> bool, success: bool)
    : Counter
  {
    Counter(seq(q, i => if i <= s then n0 else Max(0, Max(n0, goal))), clearLate, k => !success, k => effect)
  }

  lemma {:induction false} StuckClearLoop(c: Counter, pos: nat, q: nat, sweeps: int, n0: int)
    requires pos <= q <= |c.readings| && n0 > 1 && sweeps > 1 && c.clearLate(q)
    requires forall p: nat | pos <= p < q :: !c.clearLate(p) && c.readings[p] >= n0
    ensures ClearLoop(c, pos, sweeps, n0) == Some(q)
    decreases q - pos
  {
    if pos < q { StuckClearLoop(c, pos + 1, q, c.readings[pos], n0); }
  }

  /** The first time in s+1 .. p at which the loop ends without having seen the clear. */
  lemma {:induction false} FirstEnd(s: nat, p: nat, n0: int, clearLate: nat -> bool) returns (q: nat)
    requires s < p && (n0 <= 1 || clearLate(p))
    ensures s < q <= p && (if n0 <= 1 then q == s + 1 else clearLate(q) && forall i: nat | s < i < q :: !clearLate(i))
    decreases p
  {
    if n0 <= 1 {
      q := s + 1;
    } else if i: nat :| s < i < p && clearLate(i) {
      q := FirstEnd(s, i, n0, clearLate);
    } else {
      q := p;
    }
  }

  lemma StuckWait(s: nat, q: nat, n0: int, goal: int, effect: Option<nat>, clearLate: nat -> bool, success: bool,
                  c: Counter, last: nat)
    requires s < q && (if n0 <= 1 then q == s + 1 else clearLate(q) && forall i: nat | s < i < q :: !clearLate(i))
    requires last == (if success then q + 1 else q) && c == Stuck(s, n0, goal, last + 1, effect, clearLate, success)
    ensures Wait(c, s, goal) == Done(!success, Max(0, Max(n0, goal)), 0, last + 1)
  {
    var top := Max(0, Max(n0, goal));
    if n0 > 1 { StuckClearLoop(c, s + 1, q, n0, n0); }
    assert ClearLoop(c, s + 1, n0, n0) == Some(q);
    assert PollLoop(c, q, 0, goal) == if success then Polled(top, false, q + 1) else Polled(0, true, q);
    assert Once(c, s, goal) == Attempt(if success then top else 0, !success, top, last + 1);
  }

  lemma StuckIsNotNew(c: Counter, s: nat, n0: int, goal: int, effect: Option<nat>, clearLate: nat -> bool,
                      success: bool, last: nat)
    requires s <= last && c == Stuck(s, n0, goal, last + 1, effect, clearLate, success) && Before(last, effect)
    requires Wait(c, s, goal) == Done(!success, Max(0, Max(n0, goal)), 0, last + 1)
    ensures !New(c, s, goal, s, n0, effect, success)
  {
    assert Start(c, s, goal, 0) == Some(s);
    assert Counts(c, s, last);
  }

  lemma StuckIsOld(s: nat, n0: int, goal: int, effect: Option<nat>, clearLate: nat -> bool, success: bool, p: nat)
    returns (c: Counter)
    requires s < p && !GoesOn(p, n0, effect, clearLate, success)
    ensures c.clearLate == clearLate && !New(c, s, goal, s, n0, effect, success)
  {
    var q := FirstEnd(s, p, n0, clearLate);
    var last := if success then q + 1 else q;
    c := Stuck(s, n0, goal, last + 1, effect, clearLate, success);
    StuckWait(s, q, n0, goal, effect, clearLate, success, c, last);
    StuckIsNotNew(c, s, n0, goal, effect, clearLate, success, last);
  }

  /** Given the initial count, when the clear takes effect and when the clear loop's
      deadline falls: every count returned is new if and only if the deadline outlasts the
      clear's delay and the loop is not skipped, or the clear has no delay. With `success`
      the same for the counts that are reported in time. */
  lemma NewExactlyWhenDeadlineOutlastsClear(s: nat, n0: int, goal: int, effect: Option<nat>, clearLate: nat -> bool,
                                            success: bool)
    requires Before(s, effect)
    ensures AlwaysNew(s, n0, goal, effect, clearLate, success) <==> Outlasts(s, n0, effect, clearLate, success)
  {
    if Outlasts(s, n0, effect, clearLate, success) {
      forall c: Counter, pos: nat | c.clearLate == clearLate ensures New(c, pos, goal, s, n0, effect, success) {
        if EndsFrom(c, pos, goal, s) && c.readings[s] == n0 && c.effect(s) == effect {
          OutlastIsNew(c, pos, goal, s, effect, success);
        }
      }
    } else {
      var p: nat :| s < p && !GoesOn(p, n0, effect, clearLate, success);
      var c := StuckIsOld(s, n0, goal, effect, clearLate, success, p);
    }
  }

  /** Two runs that report five, and three, sweeps of the previous average as new: the
      clear loop times out, and it is skipped because the first reading is 1. */
  lemma OldCountsReturned()
    ensures var timedOut := Counter([5, 5, 5, 5], k => k >= 2, k => false, k => None);
      Wait(timedOut, 0, 3) == Done(false, 5, 0, 4) && Counts(timedOut, 0, 3) && Before(3, timedOut.effect(0))
    ensures var skipped := Counter([1, 3, 3], k => false, k => false, k => None);
      Wait(skipped, 0, 3) == Done(false, 3, 0, 3) && Counts(skipped, 0, 2) && Before(2, skipped.effect(0))
  {
    var c := Counter([5, 5, 5, 5], k => k >= 2, k => false, k => None);
    assert ClearLoop(c, 1, 5, 5) == ClearLoop(c, 2, 5, 5) == Some(2);
    assert PollLoop(c, 2, 0, 3) == Polled(5, false, 3);
    assert Once(c, 0, 3) == Attempt(5, false, 5, 4);
    var d := Counter([1, 3, 3], k => false, k => false, k => None);
    assert ClearLoop(d, 1, 1, 1) == Some(1);
    assert PollLoop(d, 1, 0, 3) == Polled(3, false, 2);
    assert Once(d, 0, 3) == Attempt(3, false, 3, 3);
  }
}
