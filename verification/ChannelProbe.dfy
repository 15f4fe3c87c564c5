/** Channel counting and trace discovery against a scope whose command-error
    register CMR latches the last error until it is read or cleared by *CLS. */
module ChannelProbe {
  /** Which trace names a scope accepts; what a rejected name latches in CMR, and
      whether a rejected name is left without any reply (the query times out). */
  datatype Device = Device(accepts: string -> bool, code: string -> int, silent: string -> bool)

  /** Rejections latch a non-zero code. */
  ghost predicate Latching(d: Device) { forall name :: !d.accepts(name) ==> d.code(name) != 0 }

  predicate Replies(d: Device, name: string) { d.accepts(name) || !d.silent(name) }

  /** CMR after the query `name:TRACE?`. */
  function AfterTrace(d: Device, cmr: int, name: string): int { if d.accepts(name) then cmr else d.code(name) }

  function ChannelName(n: nat): string
    requires n <= 9
  {
    ['C', "0123456789"[n]]
  }

  function Channels(n: nat): seq<string>
    requires n <= 9
  {
    seq(n, i requires 0 <= i < n => ChannelName(i + 1))
  }

  const VALID_COUNTS: set<int> := {2, 4, 8}

  // ---- specifications ----------------------------------------------------------

  /** Channels C1 .. Ck are accepted and C(k+1) is not (or k is 8), from `n` on. */
  function Contiguous(d: Device, n: nat): (k: nat)
    requires n <= 8
    ensures n <= k <= 8
    ensures forall i: nat | n < i <= k :: d.accepts(ChannelName(i))
    ensures k < 8 ==> !d.accepts(ChannelName(k + 1))
    decreases 8 - n
  {
    if n < 8 && d.accepts(ChannelName(n + 1)) then Contiguous(d, n + 1) else n
  }

  function ChannelCount(d: Device): nat {
    if Contiguous(d, 0) in VALID_COUNTS then Contiguous(d, 0) else 4
  }

  /** The discovery loop, with the register as the previous query left it. */
  function Discover(d: Device, cmr: int, names: seq<string>): seq<string>
    decreases |names|
  {
    if names == [] then []
    else
      var cmr' := AfterTrace(d, cmr, names[0]);
      if !Replies(d, names[0]) then Discover(d, cmr', names[1..])
      else if cmr' == 0 then [names[0]] + Discover(d, 0, names[1..])
      else Discover(d, 0, names[1..])
  }

  /** The candidates this scope really accepts. */
  function Accepted(d: Device, names: seq<string>): seq<string> {
    if names == [] then []
    else if d.accepts(names[0]) then [names[0]] + Accepted(d, names[1..])
    else Accepted(d, names[1..])
  }

  // ---- the channels of a scope ---------------------------------------------------

  /** A scope with `n` input channels: of C1 .. C8 it accepts exactly the first n. */
  ghost predicate HasChannels(d: Device, n: nat) {
    (n == 2 || n == 4 || n == 8) && forall i: nat | 1 <= i <= 8 :: d.accepts(ChannelName(i)) <==> i <= n
  }

  lemma {:induction false} AllAcceptedDiscovered(d: Device, names: seq<string>)
    requires forall i | 0 <= i < |names| :: d.accepts(names[i])
    ensures Discover(d, 0, names) == names
    decreases |names|
  {
    if names != [] {
      AllAcceptedDiscovered(d, names[1..]);
    }
  }

  /** The probe returns the true count and default discovery accepts exactly C1 .. Cn. */
  lemma CountAndDefaultDiscoveryExact(d: Device, n: nat)
    requires HasChannels(d, n)
    ensures ChannelCount(d) == n && Discover(d, 0, Channels(n)) == Channels(n)
    ensures n == 2 ==> Channels(n) == ["C1", "C2"]
    ensures n == 4 ==> Channels(n) == ["C1", "C2", "C3", "C4"]
    ensures n == 8 ==> Channels(n) == ["C1", "C2", "C3", "C4", "C5", "C6", "C7", "C8"]
  {
    var k := Contiguous(d, 0);
    assert k < 8 ==> (d.accepts(ChannelName(k + 1)) <==> k + 1 <= n);
    assert k > 0 ==> (d.accepts(ChannelName(k)) <==> k <= n);
    AllAcceptedDiscovered(d, Channels(n));
  }

  predicate AcceptsUpTo(d: Device, n: nat)
    requires n <= 8
  {
    (forall i: nat | 1 <= i <= n :: d.accepts(ChannelName(i))) && (n < 8 ==> !d.accepts(ChannelName(n + 1)))
  }

  lemma OneCount(d: Device, k: nat, n: nat)
    requires k <= 8 && n <= 8 && AcceptsUpTo(d, k)
    ensures AcceptsUpTo(d, n) <==> n == k
  {}

  /** On any scope the count is two if exactly C1 and C2 are accepted before the first
      rejection, eight if all are, and four otherwise. */
  lemma CountExactly(d: Device)
    ensures ChannelCount(d) == 2 || ChannelCount(d) == 4 || ChannelCount(d) == 8
    ensures ChannelCount(d) == 2 <==> AcceptsUpTo(d, 2)
    ensures ChannelCount(d) == 8 <==> AcceptsUpTo(d, 8)
  {
    var k := Contiguous(d, 0);
    assert AcceptsUpTo(d, k);
    OneCount(d, k, 2);
    OneCount(d, k, 8);
  }

  // ---- the driver --------------------------------------------------------------

  class LeCroyScope {
    const device: Device
    var cmr: int
    var nChannels: nat
    var validTraceNames: seq<string>

    constructor (device: Device, cmr: int)
      ensures this.device == device && this.cmr == cmr && validTraceNames == []
    {
      this.device, this.cmr, nChannels, validTraceNames := device, cmr, 4, [];
    }

    method ClearStatus()
      modifies this`cmr
      ensures cmr == 0
    {
      cmr := 0;
    }

    /** `name:TRACE?`; false when no reply comes. */
    method QueryTrace(name: string) returns (reply: bool)
      modifies this`cmr
      ensures reply == Replies(device, name) && cmr == AfterTrace(device, old(cmr), name)
    {
      cmr := AfterTrace(device, cmr, name);
      reply := Replies(device, name);
    }

    method QueryCmr() returns (code: int)
      modifies this`cmr
      ensures code == old(cmr) && cmr == 0
    {
      code, cmr := cmr, 0;
    }

    /** `_probe_channel_count`: exact for every initial register, whether rejected
        channels answer politely or stay silent. */
    method ProbeChannelCount() returns (count: nat)
      requires Latching(device)
      modifies this`cmr
      ensures count == ChannelCount(device)
    {
      count := 0;
      for n := 1 to 9
        invariant count == n - 1 && Contiguous(device, 0) == Contiguous(device, count)
      {
        ClearStatus();
        var reply := QueryTrace(ChannelName(n));
        if !reply {
          break;
        }
        var code := QueryCmr();
        if code != 0 {
          break;
        }
        count := n;
      }
      return if count in VALID_COUNTS then count else 4;
    }

    /** `_detect_channel_count`: `reported` is the VBS answer, 0 if unusable. */
    method DetectChannelCount(reported: int) returns (count: nat)
      requires Latching(device)
      modifies this`cmr
      ensures count == if reported in VALID_COUNTS then reported else ChannelCount(device)
    {
      if reported in VALID_COUNTS {
        return reported;
      }
      count := ProbeChannelCount();
    }

    /** The discovery loop of `__init__`. */
    method DiscoverTraces(candidates: seq<string>)
      modifies this`cmr, this`validTraceNames
      ensures validTraceNames == Discover(device, 0, candidates)
    {
      ClearStatus();
      validTraceNames := [];
      for i := 0 to |candidates|
        invariant Discover(device, 0, candidates) == validTraceNames + Discover(device, cmr, candidates[i..])
      {
        ghost var before := validTraceNames;
        var tr := candidates[i];
        assert candidates[i..][0] == tr && candidates[i..][1..] == candidates[i + 1..];
        var reply := QueryTrace(tr);
        if reply {
          var code := QueryCmr();
          if code == 0 {
            validTraceNames := validTraceNames + [tr];
            assert before + ([tr] + Discover(device, 0, candidates[i + 1..]))
                == validTraceNames + Discover(device, 0, candidates[i + 1..]);
          }
        }
      }
      assert candidates[|candidates|..] == [];
    }

    /** Detection followed by the default discovery over the detected channels: on a
        scope with n channels that reports n or nothing usable, exactly C1 .. Cn. */
    method Initialise(reported: int)
      requires Latching(device)
      modifies this
      ensures forall n | HasChannels(device, n) && (reported in VALID_COUNTS ==> reported == n) ::
        nChannels == n && validTraceNames == Channels(n)
      ensures nChannels == if reported in VALID_COUNTS then reported else ChannelCount(device)
      ensures validTraceNames == Discover(device, 0, Channels(nChannels))
    {
      nChannels := DetectChannelCount(reported);
      DiscoverTraces(Channels(nChannels));
      forall n | HasChannels(device, n) && (reported in VALID_COUNTS ==> reported == n)
        ensures nChannels == n && validTraceNames == Channels(n)
      {
        CountAndDefaultDiscoveryExact(device, n);
      }
    }
  }

  // ---- any candidate list --------------------------------------------------------

  /** No accepted name comes directly after one that sent no reply. */
  predicate NoneBlamed(d: Device, names: seq<string>) {
    forall i | 0 < i < |names| && d.accepts(names[i]) :: Replies(d, names[i - 1])
  }

  /** The same from the second name on; the first is blamed if the register is latched. */
  lemma NoneBlamedUnfolds(d: Device, names: seq<string>)
    requires |names| > 1
    ensures NoneBlamed(d, names) <==> NoneBlamed(d, names[1..]) && (d.accepts(names[1]) ==> Replies(d, names[0]))
  {
    var rest := names[1..];
    if NoneBlamed(d, rest) && (d.accepts(names[1]) ==> Replies(d, names[0])) {
      forall i | 0 < i < |names| && d.accepts(names[i]) ensures Replies(d, names[i - 1]) {
        if i > 1 { assert rest[i - 1] == names[i] && rest[i - 2] == names[i - 1]; }
      }
    }
    if NoneBlamed(d, names) {
      forall i | 0 < i < |rest| && d.accepts(rest[i]) ensures Replies(d, rest[i - 1]) {
        assert rest[i] == names[i + 1];
      }
    }
  }

  predicate FirstBlamed(d: Device, cmr: int, names: seq<string>) { cmr != 0 && names != [] && d.accepts(names[0]) }

  lemma {:induction false} DiscoveryExactness(d: Device, cmr: int, names: seq<string>)
    requires Latching(d)
    ensures |Discover(d, cmr, names)| <= |Accepted(d, names)|
    ensures NoneBlamed(d, names) && !FirstBlamed(d, cmr, names) ==> Discover(d, cmr, names) == Accepted(d, names)
    ensures !NoneBlamed(d, names) || FirstBlamed(d, cmr, names) ==> |Discover(d, cmr, names)| < |Accepted(d, names)|
    decreases |names|
  {
    if names != [] {
      var cmr' := AfterTrace(d, cmr, names[0]);
      DiscoveryExactness(d, if Replies(d, names[0]) then 0 else cmr', names[1..]);
      if |names| > 1 { NoneBlamedUnfolds(d, names); }
    }
  }

  /** Discovery over any candidate list finds exactly the accepted names if and
      only if none of them follows a rejected name that sent no reply. */
  lemma DiscoveryExactIffNoneBlamed(d: Device, names: seq<string>)
    requires Latching(d)
    ensures Discover(d, 0, names) == Accepted(d, names) <==> NoneBlamed(d, names)
  {
    DiscoveryExactness(d, 0, names);
  }

  /** In particular it is exact whenever rejected names are answered. */
  lemma PoliteRejectionsNeverBlame(d: Device, names: seq<string>)
    requires Latching(d) && forall i | 0 <= i < |names| :: Replies(d, names[i])
    ensures Discover(d, 0, names) == Accepted(d, names)
  {
    DiscoveryExactIffNoneBlamed(d, names);
  }

  /** Rejects "F1" without a reply and accepts everything else. */
  function SilentOnF1(): Device {
    Device(name => name != "F1", name => if name == "F1" then 1 else 0, name => true)
  }

  /** A valid channel that comes after it is dropped, though the scope accepts it. */
  lemma ValidNameDropped()
    ensures Latching(SilentOnF1())
    ensures Accepted(SilentOnF1(), ["F1", "C1"]) == ["C1"] && Discover(SilentOnF1(), 0, ["F1", "C1"]) == []
  {
    var d := SilentOnF1();
    assert ["F1", "C1"][1..] == ["C1"] && ["C1"][1..] == [];
    assert Accepted(d, ["C1"]) == ["C1"] && Discover(d, 1, ["C1"]) == Discover(d, 0, []);
  }
}
