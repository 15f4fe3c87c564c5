/** The patched `telnetlib`: raw and cooked queues, the IAC decoder (RFC 854,
    "The TELNET Command Structure") and the two implementations of `read_until`. */
module Telnet {
  import opened Common

  const IAC: Byte := 255
  const SE: Byte := 240

  /** DO, DONT, WILL and WONT. */
  predicate IsNegotiation(c: Byte) { 251 <= c <= 254 }

  /** Result of decoding a stretch of raw bytes: the pending IAC sequence, the
      text, and the bytes not looked at because the decoder raised TypeError
      (it indexes the integer constants DO..WONT when an option byte arrives). */
  datatype Decoded = Decoded(iac: seq<Byte>, text: seq<Byte>, crashed: bool, left: seq<Byte>)

  predicate IacState(iac: seq<Byte>) {
    || iac == []
    || iac == [IAC]
    || (|iac| == 2 && iac[0] == IAC && IsNegotiation(iac[1]))
  }

  function Prepend(text: seq<Byte>, d: Decoded): Decoded { d.(text := text + d.text) }

  /** The decoder as a function of the whole raw stream. `c == SB` compares an
      integer with a bytes object and is never true, so SB is swallowed like any
      other two-byte command and the subnegotiation buffer is never selected. */
  function Decode(iac: seq<Byte>, raw: seq<Byte>): (d: Decoded)
    requires IacState(iac)
    ensures IacState(d.iac)
    ensures d.crashed ==> d.iac == []
    ensures !d.crashed ==> d.left == []
    decreases |raw|
  {
    if raw == [] then Decoded(iac, [], false, [])
    else if iac == [] then
      if raw[0] != IAC then Prepend([raw[0]], Decode([], raw[1..])) else Decode([IAC], raw[1..])
    else if |iac| == 1 then
      if IsNegotiation(raw[0]) then Decode([IAC, raw[0]], raw[1..])
      else if raw[0] == IAC then Prepend([IAC], Decode([], raw[1..]))
      else Decode([], raw[1..])
    else Decoded([], [], true, raw[1..])
  }

  lemma PrependTwice(a: seq<Byte>, b: seq<Byte>, d: Decoded)
    ensures Prepend(a, Prepend(b, d)) == Prepend(a + b, d)
  {
    assert a + (b + d.text) == a + b + d.text;
  }

  /** Decoding in two pieces is decoding once. */
  lemma {:induction false} DecodeSplit(iac: seq<Byte>, a: seq<Byte>, b: seq<Byte>)
    requires IacState(iac)
    ensures var d := Decode(iac, a);
      Decode(iac, a + b) == if d.crashed then d.(left := d.left + b) else Prepend(d.text, Decode(d.iac, b))
    decreases |a|
  {
    if a == [] {
      assert a + b == b;
      assert Prepend([], Decode(iac, b)) == Decode(iac, b);
    } else {
      assert (a + b)[0] == a[0] && (a + b)[1..] == a[1..] + b;
      if iac == [] {
        DecodeSplit(if a[0] == IAC then [IAC] else [], a[1..], b);
      } else if |iac| == 1 {
        DecodeSplit(if IsNegotiation(a[0]) then [IAC, a[0]] else [], a[1..], b);
      }
      var d := Decode(iac, a);
      if !d.crashed {
        PrependTwice([a[0]], Decode([], a[1..]).text, Decode(d.iac, b));
      }
    }
  }

  /** `process_rawq` run after every `recv`. */
  function DecodeChunks(iac: seq<Byte>, chunks: seq<seq<Byte>>): (d: Decoded)
    requires IacState(iac)
    ensures IacState(d.iac)
    decreases |chunks|
  {
    if chunks == [] then Decoded(iac, [], false, [])
    else
      var d := Decode(iac, chunks[0]);
      if d.crashed then d.(left := d.left + Flatten(chunks[1..]))
      else Prepend(d.text, DecodeChunks(d.iac, chunks[1..]))
  }

  /** How the bytes were cut into `recv` results has no influence. */
  lemma {:induction false} ChunksAreOneDecode(iac: seq<Byte>, chunks: seq<seq<Byte>>)
    requires IacState(iac)
    ensures DecodeChunks(iac, chunks) == Decode(iac, Flatten(chunks))
    decreases |chunks|
  {
    if chunks != [] {
      var d := Decode(iac, chunks[0]);
      DecodeSplit(iac, chunks[0], Flatten(chunks[1..]));
      if !d.crashed { ChunksAreOneDecode(d.iac, chunks[1..]); }
    }
  }

  /** The data bytes a sender puts on the wire for `text`: each 0xFF doubled. */
  function Escape(text: seq<Byte>): seq<Byte> {
    if text == [] then []
    else (if text[0] == IAC then [IAC, IAC] else [text[0]]) + Escape(text[1..])
  }

  /** Escaped data is decoded to itself, and leaves no IAC sequence open. */
  lemma {:induction false} DecodeInvertsEscape(text: seq<Byte>)
    ensures Decode([], Escape(text)) == Decoded([], text, false, [])
  {
    if text != [] {
      var tail := Escape(text[1..]);
      DecodeInvertsEscape(text[1..]);
      if text[0] == IAC {
        assert ([IAC, IAC] + tail)[1..] == [IAC] + tail;
        assert ([IAC] + tail)[1..] == tail;
      } else {
        assert ([text[0]] + tail)[1..] == tail;
      }
      assert text == [text[0]] + text[1..];
    }
  }

  /** What a peer may put on the wire besides option negotiation: data, doubled if it is
      0xFF, and two-byte commands. */
  datatype Item = Data(b: Byte) | Command(c: Byte)

  predicate Sendable(items: seq<Item>) {
    forall i | 0 <= i < |items| && items[i].Command? :: items[i].c != 255 && !(251 <= items[i].c <= 254)
  }

  function WireOf(item: Item): seq<Byte> {
    match item case Data(b) => if b == 255 then [255, 255] else [b] case Command(c) => [255, c]
  }

  function OnWire(items: seq<Item>): seq<Byte> { if items == [] then [] else WireOf(items[0]) + OnWire(items[1..]) }

  function DataOf(items: seq<Item>): seq<Byte> {
    if items == [] then [] else (if items[0].Data? then [items[0].b] else []) + DataOf(items[1..])
  }

  lemma ItemDecoded(item: Item, tail: seq<Byte>)
    requires Sendable([item])
    ensures Decode([], WireOf(item) + tail) == Prepend(if item.Data? then [item.b] else [], Decode([], tail))
  {
    var raw := WireOf(item) + tail;
    assert [item][0] == item;
    if |WireOf(item)| == 1 {
      assert raw[1..] == tail;
    } else {
      assert raw[1..] == [raw[1]] + tail && raw[1..][1..] == tail;
      assert Decode([], raw) == Decode([IAC], raw[1..]);
    }
  }

  /** Commands are dropped and data kept. */
  lemma {:induction false} CommandsDropped(items: seq<Item>)
    requires Sendable(items)
    ensures Decode([], OnWire(items)) == Decoded([], DataOf(items), false, [])
  {
    if items != [] {
      ItemDecoded(items[0], OnWire(items[1..]));
      CommandsDropped(items[1..]);
    }
  }

  lemma OptionStops(command: Byte, option: Byte, rest: seq<Byte>)
    requires 251 <= command <= 254
    ensures Decode([], [255, command, option] + rest) == Decoded([], [], true, rest)
  {
    var raw := [255, command, option] + rest;
    assert raw[1..] == [command, option] + rest && raw[1..][1..] == [option] + rest && raw[1..][1..][1..] == rest;
    assert Decode([], raw) == Decode([IAC], raw[1..]) == Decode([IAC, command], raw[1..][1..]);
  }

  /** Up to the first option byte; there the decoder raises, with the bytes behind it
      still unread. */
  lemma DecodedUpToOption(items: seq<Item>, command: Byte, option: Byte, rest: seq<Byte>)
    requires Sendable(items) && 251 <= command <= 254
    ensures Decode([], OnWire(items) + ([255, command, option] + rest)) == Decoded([], DataOf(items), true, rest)
  {
    CommandsDropped(items);
    OptionStops(command, option, rest);
    DecodeSplit([], OnWire(items), [255, command, option] + rest);
    assert DataOf(items) + [] == DataOf(items);
  }

  /** On a stream without 0xFF the decoder is the identity. */
  lemma {:induction false} PlainTextUnchanged(raw: seq<Byte>)
    requires IAC !in raw
    ensures Decode([], raw) == Decoded([], raw, false, [])
  {
    if raw != [] {
      PlainTextUnchanged(raw[1..]);
      assert raw == [raw[0]] + raw[1..];
    }
  }

  /** An option byte can be told from the bytes alone: `raw[j..i+1]` is a whole run of
      0xFF, of odd length, so that its last byte opens a command; the command is DO,
      DONT, WILL or WONT; and one more byte follows. */
  predicate OptionAt(raw: seq<Byte>, j: nat, i: nat) {
    && j <= i && i + 2 < |raw|
    && (forall k | j <= k <= i :: raw[k] == IAC)
    && (j == 0 || raw[j - 1] != IAC) && (i - j) % 2 == 0
    && IsNegotiation(raw[i + 1])
  }

  ghost predicate HasOption(raw: seq<Byte>) { exists j: nat, i: nat :: OptionAt(raw, j, i) }

  /** The first `d` bytes hold no option, nor the start of a command that runs on. */
  predicate Closed(raw: seq<Byte>, d: nat) {
    d <= |raw| && ((d == 1 && raw[0] != IAC) || (d == 2 && raw[0] == IAC && !IsNegotiation(raw[1])))
  }

  lemma OptionBehind(raw: seq<Byte>, d: nat, j: nat, i: nat)
    requires Closed(raw, d) && OptionAt(raw, j, i)
    ensures HasOption(raw[d..])
  {
    var rest := raw[d..];
    assert raw[i] == IAC && raw[j] == IAC;
    assert forall k | 0 <= k < |rest| :: rest[k] == raw[k + d];
    assert OptionAt(rest, if j < d then 0 else j - d, i - d);
  }

  lemma OptionInFront(raw: seq<Byte>, d: nat, j: nat, i: nat)
    requires Closed(raw, d) && OptionAt(raw[d..], j, i)
    ensures HasOption(raw)
  {
    assert forall k | d <= k < |raw| :: raw[k] == raw[d..][k - d];
    assert OptionAt(raw, if j == 0 && d == 2 && raw[1] == IAC then 0 else j + d, i + d);
  }

  lemma OptionShift(raw: seq<Byte>, d: nat)
    requires Closed(raw, d)
    ensures HasOption(raw) <==> HasOption(raw[d..])
  {
    if j: nat, i: nat :| OptionAt(raw, j, i) { OptionBehind(raw, d, j, i); }
    if j: nat, i: nat :| OptionAt(raw[d..], j, i) { OptionInFront(raw, d, j, i); }
  }

  lemma {:induction false} CrashesOnOption(raw: seq<Byte>)
    ensures Decode([], raw).crashed <==> HasOption(raw)
    decreases |raw|
  {
    if |raw| < 2 {
      assert !HasOption(raw);
      assert raw != [] ==> raw[1..] == [];
    } else if raw[0] != IAC {
      OptionShift(raw, 1);
      CrashesOnOption(raw[1..]);
    } else if IsNegotiation(raw[1]) {
      assert raw[1..][1..] == raw[2..];
      assert Decode([], raw) == Decode([IAC, raw[1]], raw[2..]);
      if |raw| > 2 { assert OptionAt(raw, 0, 0); } else { assert !HasOption(raw); }
    } else {
      assert raw[1..][1..] == raw[2..];
      OptionShift(raw, 2);
      CrashesOnOption(raw[2..]);
    }
  }

  lemma OpenCommand(iac: seq<Byte>)
    requires IacState(iac)
    ensures Decode([], iac) == Decoded(iac, [], false, [])
  {
    if |iac| == 2 {
      assert iac[1..] == [iac[1]] && iac == [IAC, iac[1]];
      assert Decode([IAC], [iac[1]]) == Decode(iac, [iac[1]][1..]);
    }
  }

  /** The decoder raises TypeError exactly when the bytes of the open command and the
      new ones together hold an option byte. */
  lemma CrashesExactlyOnOption(iac: seq<Byte>, raw: seq<Byte>)
    requires IacState(iac)
    ensures Decode(iac, raw).crashed <==> HasOption(iac + raw)
  {
    DecodeSplit([], iac, raw);
    OpenCommand(iac);
    CrashesOnOption(iac + raw);
  }

  /** No 0xFF directly followed by 251..254. */
  predicate NoOptions(raw: seq<Byte>) {
    forall i :: 0 <= i < |raw| - 1 && raw[i] == IAC ==> !IsNegotiation(raw[i + 1])
  }

  lemma NoOptionsNoCrash(iac: seq<Byte>, raw: seq<Byte>)
    requires IacState(iac) && NoOptions(iac + raw)
    ensures !Decode(iac, raw).crashed
  {
    CrashesExactlyOnOption(iac, raw);
    var whole := iac + raw;
    forall j: nat, i: nat ensures !OptionAt(whole, j, i) {
      if i + 1 < |whole| && whole[i] == IAC { assert !IsNegotiation(whole[i + 1]); }
    }
  }

  /** The shortest stream that raises: IAC DO and any option. */
  lemma OptionByteCrashes(option: Byte)
    ensures Decode([], [IAC, 253, option]).crashed
  {
    assert OptionAt([IAC, 253, option], 0, 0);
    CrashesOnOption([IAC, 253, option]);
  }

  // ---- read_until --------------------------------------------------------------

  /** What one `poll` reports, and whether the deadline has passed afterwards.
      `Nothing` covers an empty result and flags other than POLLIN and POLLPRI. */
  datatype PollResult = Readable(late: bool) | Nothing(late: bool) | Interrupted

  /** The session as a reader sees it: cooked text, open IAC sequence, whether the
      peer has closed, the `recv` results to come, and whether decoding raised. */
  datatype Seen = Seen(text: seq<Byte>, iac: seq<Byte>, eof: bool, inbox: seq<seq<Byte>>, crashed: bool)

  function Head(inbox: seq<seq<Byte>>): seq<Byte> { if inbox == [] then [] else inbox[0] }
  function Tail(inbox: seq<seq<Byte>>): seq<seq<Byte>> { if inbox == [] then [] else inbox[1..] }

  /** One `recv` followed by one `process_rawq` of an otherwise empty raw queue. */
  function Receive(s: Seen): (s': Seen)
    requires IacState(s.iac)
    ensures IacState(s'.iac)
  {
    var d := Decode(s.iac, Head(s.inbox));
    Seen(if d.crashed then s.text else s.text + d.text, d.iac, Head(s.inbox) == [], Tail(s.inbox), d.crashed)
  }

  /** Waiting for `target`, searching the whole text from its start every time. */
  function Await(s: Seen, target: seq<Byte>, polls: seq<PollResult>): Seen
    requires IacState(s.iac)
    decreases |polls|
  {
    if s.crashed || s.eof || polls == [] || Find(s.text, target, 0).Some? then s
    else
      match polls[0]
      case Interrupted => Await(s, target, polls[1..])
      case Nothing(late) => if late then s else Await(s, target, polls[1..])
      case Readable(late) => if late then Receive(s) else Await(Receive(s), target, polls[1..])
  }

  /** One turn of the waiting loop. */
  lemma AwaitTurn(s: Seen, target: seq<Byte>, polls: seq<PollResult>)
    requires IacState(s.iac) && !s.crashed && !s.eof && polls != [] && Find(s.text, target, 0).None?
    ensures Await(s, target, polls) ==
      match polls[0]
      case Interrupted => Await(s, target, polls[1..])
      case Nothing(late) => if late then s else Await(s, target, polls[1..])
      case Readable(late) => if late then Receive(s) else Await(Receive(s), target, polls[1..])
  {}

  /** The loop is over: the decoder raised, the peer closed, the polls ended, or the
      text is there. */
  lemma AwaitOver(s: Seen, target: seq<Byte>, polls: seq<PollResult>)
    requires IacState(s.iac) && (s.crashed || s.eof || polls == [] || Find(s.text, target, 0).Some?)
    ensures Await(s, target, polls) == s
  {}

  /** The `select` reader's polls: one `Readable` per successful `select`. */
  function Selects(lates: seq<bool>): seq<PollResult> {
    if lates == [] then [] else [Readable(lates[0])] + Selects(lates[1..])
  }

  datatype ReadResult = Text(buf: seq<Byte>) | Eof | Crashed

  /** What `read_until` hands out, and what it leaves queued. */
  function HandOut(s: Seen, target: seq<Byte>): (ReadResult, seq<Byte>) {
    if s.crashed then (Crashed, s.text)
    else
      match Find(s.text, target, 0)
      case Some(i) => (Text(s.text[..i + |target|]), s.text[i + |target|..])
      case None => (if s.text == [] && s.eof then Eof else Text(s.text), [])
  }

  /** The `m`-th chunk is received before the deadline, or by the poll that meets it. */
  predicate Reaches(polls: seq<PollResult>, m: nat)
    decreases |polls|
  {
    m == 0 ||
    (polls != [] &&
     match polls[0]
     case Interrupted => Reaches(polls[1..], m)
     case Nothing(late) => !late && Reaches(polls[1..], m)
     case Readable(late) => m == 1 || (!late && Reaches(polls[1..], m - 1)))
  }

  /** The next `m` chunks, if that many are to come before the peer closes. */
  predicate Sends(s: Seen, m: nat) {
    (m > 0 ==> !s.eof) && m <= |s.inbox| && forall k | 0 <= k < m :: s.inbox[k] != []
  }

  /** The session's text once it has read that far. */
  function TextAfter(s: Seen, m: nat): seq<Byte>
    requires IacState(s.iac) && m <= |s.inbox|
  {
    s.text + Decode(s.iac, Flatten(s.inbox[..m])).text
  }

  /** With the next `m` chunks, which decode and arrive in time, the target is there. */
  predicate Arrives(s: Seen, target: seq<Byte>, polls: seq<PollResult>, m: nat)
    requires IacState(s.iac)
  {
    && Sends(s, m) && Reaches(polls, m)
    && !Decode(s.iac, Flatten(s.inbox[..m])).crashed && Find(TextAfter(s, m), target, 0).Some?
  }

  /** Receiving moves text from the stream to the session and loses none. */
  lemma ReceiveConserves(s: Seen, m: nat)
    requires IacState(s.iac) && Sends(s, m) && m > 0
    ensures var d, r := Decode(s.iac, Flatten(s.inbox[..m])), Receive(s);
      && r.inbox == s.inbox[1..] && Sends(r, m - 1)
      && (r.crashed ==> d.crashed)
      && (!r.crashed ==>
            TextAfter(r, m - 1) == TextAfter(s, m) && Decode(r.iac, Flatten(r.inbox[..m - 1])).crashed == d.crashed)
  {
    assert s.inbox[..m][1..] == s.inbox[1..][..m - 1];
    DecodeSplit(s.iac, s.inbox[0], Flatten(s.inbox[1..][..m - 1]));
  }

  lemma ReceiveArrives(s: Seen, target: seq<Byte>, polls: seq<PollResult>, m: nat)
    requires IacState(s.iac) && m > 0 && Arrives(s, target, polls, m) && polls[0].Readable?
    ensures !Receive(s).crashed && TextAfter(Receive(s), m - 1) == TextAfter(s, m)
    ensures Arrives(Receive(s), target, polls[1..], m - 1)
  {
    ReceiveConserves(s, m);
  }

  lemma TextSoFar(s: Seen)
    requires IacState(s.iac)
    ensures TextAfter(s, 0) == s.text && !Decode(s.iac, Flatten(s.inbox[..0])).crashed
  {
    assert Decode(s.iac, Flatten(s.inbox[..0])) == Decoded(s.iac, [], false, []);
  }

  /** The text in which the target first stands, as far as it was read. */
  predicate Finds(w: Seen, text: seq<Byte>, target: seq<Byte>) {
    !w.crashed && w.text <= text && Find(w.text, target, 0).Some? && Find(w.text, target, 0) == Find(text, target, 0)
  }

  lemma {:induction false} AwaitFinds(s: Seen, target: seq<Byte>, polls: seq<PollResult>, m: nat)
    requires IacState(s.iac) && !s.crashed && Arrives(s, target, polls, m)
    ensures Finds(Await(s, target, polls), TextAfter(s, m), target)
    decreases |polls|
  {
    TextSoFar(s);
    if Find(s.text, target, 0).Some? {
      AwaitOver(s, target, polls);
      FindStable(s.text, Decode(s.iac, Flatten(s.inbox[..m])).text, target);
    } else {
      AwaitTurn(s, target, polls);
      if polls[0].Readable? {
        ReceiveArrives(s, target, polls, m);
        if polls[0].late {
          TextSoFar(Receive(s));
        } else {
          AwaitFinds(Receive(s), target, polls[1..], m - 1);
        }
      } else {
        AwaitFinds(s, target, polls[1..], m);
      }
    }
  }

  /** However the stream is cut into `recv` results, whatever quiet or interrupted polls
      lie between them, and whatever follows: once the target has arrived in time, the
      reader returns the shortest prefix of the text that ends in it. */
  lemma ShortestPrefixReturned(s: Seen, target: seq<Byte>, polls: seq<PollResult>, m: nat)
    requires IacState(s.iac) && !s.crashed && Arrives(s, target, polls, m)
    ensures var text := TextAfter(s, m);
      HandOut(Await(s, target, polls), target).0 == Text(text[..Find(text, target, 0).value + |target|])
  {
    AwaitFinds(s, target, polls, m);
  }

  lemma NothingReceived(s: Seen)
    requires IacState(s.iac) && Head(s.inbox) == []
    ensures Receive(s).eof && TextAfter(Receive(s), 0) == s.text
  {
    TextSoFar(Receive(s));
  }

  /** A chunk received in time brings the target one chunk nearer. */
  lemma ArrivedBefore(s: Seen, target: seq<Byte>, polls: seq<PollResult>, m: nat)
    requires IacState(s.iac) && !s.eof && Find(s.text, target, 0).None?
    requires polls != [] && polls[0].Readable? && !Receive(s).crashed
    requires Arrives(Receive(s), target, if polls[0].late then [] else polls[1..], m)
    ensures Arrives(s, target, polls, m + 1)
  {
    assert Head(s.inbox) != [] by {
      if Head(s.inbox) == [] { NothingReceived(s); }
    }
    assert Sends(s, m + 1);
    ReceiveConserves(s, m + 1);
  }

  lemma {:induction false} FoundOnlyIfArrived(s: Seen, target: seq<Byte>, polls: seq<PollResult>) returns (m: nat)
    requires IacState(s.iac) && !s.crashed
    requires !Await(s, target, polls).crashed && Find(Await(s, target, polls).text, target, 0).Some?
    ensures Arrives(s, target, polls, m)
    decreases |polls|
  {
    TextSoFar(s);
    m := 0;
    if Find(s.text, target, 0).None? && !s.eof && polls != [] {
      AwaitTurn(s, target, polls);
      if polls[0].Readable? {
        var rest := if polls[0].late then [] else polls[1..];
        m := FoundOnlyIfArrived(Receive(s), target, rest);
        ArrivedBefore(s, target, polls, m);
        m := m + 1;
      } else {
        m := FoundOnlyIfArrived(s, target, polls[1..]);
      }
    }
  }

  /** The wait ends with the target exactly when the target arrives in time. */
  lemma FoundExactlyWhenArrived(s: Seen, target: seq<Byte>, polls: seq<PollResult>)
    requires IacState(s.iac) && !s.crashed
    ensures var w := Await(s, target, polls);
      !w.crashed && Find(w.text, target, 0).Some? <==> exists m: nat :: Arrives(s, target, polls, m)
  {
    var w := Await(s, target, polls);
    if !w.crashed && Find(w.text, target, 0).Some? {
      var m := FoundOnlyIfArrived(s, target, polls);
    }
    if m: nat :| Arrives(s, target, polls, m) {
      AwaitFinds(s, target, polls, m);
    }
  }

  // ---- a target that does not arrive ------------------------------------------------

  /** With the next `m` chunks, received in time, decoding raises. */
  predicate Bursts(s: Seen, polls: seq<PollResult>, m: nat)
    requires IacState(s.iac)
  {
    Sends(s, m) && Reaches(polls, m) && Decode(s.iac, Flatten(s.inbox[..m])).crashed
  }

  /** After `m` chunks the peer has closed: there is no other, or an empty one. */
  predicate ClosedAfter(s: Seen, m: nat) { m <= |s.inbox| && (m == |s.inbox| || s.inbox[m] == []) }

  /** The wait has heard `m` chunks when it ends: no later one is received in time, or the
      peer had closed by then. */
  predicate HeardOut(s: Seen, polls: seq<PollResult>, m: nat) {
    Sends(s, m) && Reaches(polls, m) && (s.eof || ClosedAfter(s, m) || !Reaches(polls, m + 1))
  }

  /** The end of the stream is noticed only by the `recv` behind the last chunk. */
  predicate SeesEnd(s: Seen, polls: seq<PollResult>, m: nat) { s.eof || (ClosedAfter(s, m) && Reaches(polls, m + 1)) }

  lemma ReceiveBursts(s: Seen, polls: seq<PollResult>, m: nat)
    requires IacState(s.iac) && !s.eof && Head(s.inbox) != [] && !Receive(s).crashed
    requires polls != [] && polls[0].Readable? && !polls[0].late
    ensures Bursts(Receive(s), polls[1..], m) <==> Bursts(s, polls, m + 1)
  {
    if m < |s.inbox| {
      assert Sends(s, m + 1) <==> Sends(Receive(s), m) by {
        forall k | 0 <= k < m + 1 ensures k > 0 ==> s.inbox[k] == Receive(s).inbox[k - 1] {}
      }
      if Sends(s, m + 1) { ReceiveConserves(s, m + 1); }
    }
  }

  lemma OneChunk(s: Seen, polls: seq<PollResult>)
    requires IacState(s.iac) && !s.eof && Head(s.inbox) != []
    requires polls != [] && polls[0].Readable?
    ensures Sends(s, 1) && Reaches(polls, 1) && (Receive(s).crashed <==> Bursts(s, polls, 1))
    ensures !Receive(s).crashed ==> Receive(s).text == TextAfter(s, 1)
  {
    ReceiveConserves(s, 1);
    TextSoFar(Receive(s));
    assert Flatten(s.inbox[..1]) == s.inbox[0] + [] == s.inbox[0];
  }

  lemma HeardOneMore(s: Seen, polls: seq<PollResult>, m: nat)
    requires IacState(s.iac) && !s.eof && Head(s.inbox) != [] && !Receive(s).crashed
    requires polls != [] && polls[0].Readable? && !polls[0].late
    requires HeardOut(Receive(s), polls[1..], m)
    ensures HeardOut(s, polls, m + 1) && TextAfter(s, m + 1) == TextAfter(Receive(s), m)
    ensures SeesEnd(s, polls, m + 1) <==> SeesEnd(Receive(s), polls[1..], m)
  {
    assert Sends(s, m + 1) by {
      forall k | 0 <= k < m + 1 ensures s.inbox[k] != [] { if k > 0 { assert s.inbox[k] == Receive(s).inbox[k - 1]; } }
    }
    ReceiveConserves(s, m + 1);
  }

  ghost predicate Missed(s: Seen, target: seq<Byte>, polls: seq<PollResult>)
    requires IacState(s.iac)
  {
    forall m: nat :: !Arrives(s, target, polls, m)
  }

  ghost predicate Calm(s: Seen, polls: seq<PollResult>)
    requires IacState(s.iac)
  {
    forall m: nat :: !Bursts(s, polls, m)
  }

  predicate Quiet(poll: PollResult) { poll.Interrupted? || (poll.Nothing? && !poll.late) }

  lemma NotYetThere(s: Seen, target: seq<Byte>, polls: seq<PollResult>)
    requires IacState(s.iac) && Missed(s, target, polls)
    ensures Find(s.text, target, 0).None?
  {
    TextSoFar(s);
    assert !Arrives(s, target, polls, 0);
  }

  lemma StillMissed(s: Seen, target: seq<Byte>, polls: seq<PollResult>)
    requires IacState(s.iac) && Missed(s, target, polls) && polls != []
    ensures Quiet(polls[0]) ==> Missed(s, target, polls[1..])
    ensures !s.eof && polls[0].Readable? && !polls[0].late && !Receive(s).crashed ==>
      Missed(Receive(s), target, polls[1..])
  {
    NotYetThere(s, target, polls);
    forall m: nat ensures Quiet(polls[0]) ==> !Arrives(s, target, polls[1..], m) {
      assert !Arrives(s, target, polls, m);
    }
    if !s.eof && polls[0].Readable? && !polls[0].late && !Receive(s).crashed {
      forall m: nat ensures !Arrives(Receive(s), target, polls[1..], m) {
        assert !Arrives(s, target, polls, m + 1);
        if Arrives(Receive(s), target, polls[1..], m) { ArrivedBefore(s, target, polls, m); }
      }
    }
  }

  lemma StillCalm(s: Seen, polls: seq<PollResult>)
    requires IacState(s.iac) && Calm(s, polls) && polls != []
    ensures Quiet(polls[0]) ==> Calm(s, polls[1..])
    ensures !s.eof && polls[0].Readable? && Head(s.inbox) != [] ==>
      !Receive(s).crashed && (!polls[0].late ==> Calm(Receive(s), polls[1..]))
  {
    forall m: nat ensures Quiet(polls[0]) ==> !Bursts(s, polls[1..], m) {
      assert !Bursts(s, polls, m);
    }
    if !s.eof && polls[0].Readable? && Head(s.inbox) != [] {
      OneChunk(s, polls);
      assert !Bursts(s, polls, 1);
      if !polls[0].late {
        forall m: nat ensures !Bursts(Receive(s), polls[1..], m) {
          assert !Bursts(s, polls, m + 1);
          ReceiveBursts(s, polls, m);
        }
      }
    }
  }

  /** What a wait that is in vain has heard and leaves behind. */
  predicate InVain(s: Seen, target: seq<Byte>, polls: seq<PollResult>, w: Seen, m: nat)
    requires IacState(s.iac)
  {
    && HeardOut(s, polls, m) && !w.crashed && w.text == TextAfter(s, m) && Find(w.text, target, 0).None?
    && (w.eof <==> SeesEnd(s, polls, m))
  }

  lemma VainReceive(s: Seen, target: seq<Byte>, polls: seq<PollResult>, w: Seen, m: nat)
    requires IacState(s.iac) && !s.eof && Head(s.inbox) != [] && !Receive(s).crashed
    requires polls != [] && polls[0].Readable? && !polls[0].late
    requires InVain(Receive(s), target, polls[1..], w, m)
    ensures InVain(s, target, polls, w, m + 1)
  {
    HeardOneMore(s, polls, m);
  }

  /** The last chunk came with the deadline. */
  lemma VainLate(s: Seen, target: seq<Byte>, polls: seq<PollResult>)
    requires IacState(s.iac) && !s.eof && Head(s.inbox) != [] && !Receive(s).crashed
    requires polls != [] && polls[0].Readable? && polls[0].late && Missed(s, target, polls)
    ensures InVain(s, target, polls, Receive(s), 1)
  {
    OneChunk(s, polls);
    assert !Arrives(s, target, polls, 1);
  }

  /** The wait ends without hearing anything: it is over, or the next chunk is empty. */
  lemma VainNow(s: Seen, target: seq<Byte>, polls: seq<PollResult>)
    requires IacState(s.iac) && !s.crashed && Find(s.text, target, 0).None?
    ensures s.eof || polls == [] || (polls[0].Nothing? && polls[0].late) ==> InVain(s, target, polls, s, 0)
    ensures !s.eof && polls != [] && polls[0].Readable? && Head(s.inbox) == [] ==>
      InVain(s, target, polls, Receive(s), 0) && Receive(s).eof
  {
    TextSoFar(s);
    if Head(s.inbox) == [] { NothingReceived(s); }
  }

  /** All there is to hear is heard. */
  lemma {:induction false} WaitsInVain(s: Seen, target: seq<Byte>, polls: seq<PollResult>) returns (m: nat)
    requires IacState(s.iac) && !s.crashed && Missed(s, target, polls) && Calm(s, polls)
    ensures InVain(s, target, polls, Await(s, target, polls), m)
    decreases |polls|
  {
    NotYetThere(s, target, polls);
    VainNow(s, target, polls);
    m := 0;
    if !s.eof && polls != [] {
      AwaitTurn(s, target, polls);
      StillMissed(s, target, polls);
      StillCalm(s, polls);
      if Quiet(polls[0]) {
        m := WaitsInVain(s, target, polls[1..]);
      } else if polls[0].Readable? && Head(s.inbox) == [] {
        AwaitOver(Receive(s), target, polls[1..]);
      } else if polls[0].Readable? && polls[0].late {
        VainLate(s, target, polls);
        m := 1;
      } else if polls[0].Readable? {
        m := WaitsInVain(Receive(s), target, polls[1..]);
        VainReceive(s, target, polls, Await(s, target, polls), m);
        m := m + 1;
      }
    }
  }

  /** A target that does not arrive in time, while decoding does not raise either: the
      reader hands out all text of the chunks it has heard and leaves nothing queued. It
      raises EOFError if and only if that text is empty and it has seen the peer close. */
  lemma NotFoundHandsOutAll(s: Seen, target: seq<Byte>, polls: seq<PollResult>) returns (m: nat)
    requires IacState(s.iac) && !s.crashed && Missed(s, target, polls) && Calm(s, polls)
    ensures HeardOut(s, polls, m)
    ensures HandOut(Await(s, target, polls), target)
         == (if TextAfter(s, m) == [] && SeesEnd(s, polls, m) then Eof else Text(TextAfter(s, m)), [])
  {
    m := WaitsInVain(s, target, polls);
  }

  lemma BurstGoesOn(s: Seen, polls: seq<PollResult>, m: nat)
    requires IacState(s.iac) && Bursts(s, polls, m) && !Receive(s).crashed && m > 0
    requires polls != [] && polls[0].Readable?
    ensures !polls[0].late && Bursts(Receive(s), polls[1..], m - 1)
  {
    ReceiveConserves(s, m);
    TextSoFar(Receive(s));
    if !polls[0].late { ReceiveBursts(s, polls, m - 1); }
  }

  lemma {:induction false} BurstRaises(s: Seen, target: seq<Byte>, polls: seq<PollResult>, m: nat)
    requires IacState(s.iac) && !s.crashed && Bursts(s, polls, m) && Missed(s, target, polls)
    ensures Await(s, target, polls).crashed
    decreases |polls|
  {
    TextSoFar(s);
    NotYetThere(s, target, polls);
    StillMissed(s, target, polls);
    AwaitTurn(s, target, polls);
    if Quiet(polls[0]) {
      BurstRaises(s, target, polls[1..], m);
    } else if Receive(s).crashed {
      AwaitOver(Receive(s), target, polls[1..]);
    } else {
      BurstGoesOn(s, polls, m);
      BurstRaises(Receive(s), target, polls[1..], m - 1);
    }
  }

  /** `read_until` raises TypeError exactly when an option byte is received in time and the
      target is not received before it. */
  lemma RaisesExactlyWhenBurst(s: Seen, target: seq<Byte>, polls: seq<PollResult>)
    requires IacState(s.iac) && !s.crashed
    ensures HandOut(Await(s, target, polls), target).0 == Crashed <==> !Calm(s, polls) && Missed(s, target, polls)
  {
    if !Missed(s, target, polls) {
      var m: nat :| Arrives(s, target, polls, m);
      AwaitFinds(s, target, polls, m);
    } else if !Calm(s, polls) {
      var m: nat :| Bursts(s, polls, m);
      BurstRaises(s, target, polls, m);
    } else {
      var m := WaitsInVain(s, target, polls);
    }
  }

  lemma TakenFirst<T>(pieces: seq<seq<T>>, m: nat) returns (rest: seq<T>)
    requires m <= |pieces|
    ensures Flatten(pieces) == Flatten(pieces[..m]) + rest
  {
    var front, back := pieces[..m], pieces[m..];
    rest := Flatten(back);
    FlattenAppend(front, back);
    assert front + back == pieces;
  }

  lemma DecodesOn(text: seq<Byte>, iac: seq<Byte>, x: seq<Byte>, y: seq<Byte>) returns (more: seq<Byte>)
    requires IacState(iac) && x <= y && !Decode(iac, x).crashed
    ensures text + Decode(iac, y).text == text + Decode(iac, x).text + more
  {
    var rest := y[|x|..];
    var first := Decode(iac, x).text;
    more := Decode(Decode(iac, x).iac, rest).text;
    DecodeSplit(iac, x, rest);
    assert x + rest == y;
    assert text + (first + more) == text + first + more;
  }

  /** The target stands in the same place whichever session has read further. */
  lemma SamePlace(text: seq<Byte>, more: seq<Byte>, target: seq<Byte>, i: nat)
    requires Find(text, target, 0) == Some(i)
    ensures Find(text + more, target, 0) == Some(i)
    ensures (text + more)[..i + |target|] == text[..i + |target|]
  {
    FindStable(text, more, target);
  }

  /** Two sessions that are sent the same bytes in different pieces, one reading
      with `poll` and one with `select`, return the same text if the target arrives
      in time in both. */
  lemma SplitAndPollerIrrelevant(text: seq<Byte>, iac: seq<Byte>, a: seq<seq<Byte>>, b: seq<seq<Byte>>,
                                 target: seq<Byte>, pollsA: seq<PollResult>, pollsB: seq<PollResult>,
                                 m: nat, n: nat)
    requires IacState(iac) && Flatten(a) == Flatten(b)
    requires Arrives(Seen(text, iac, false, a, false), target, pollsA, m)
    requires Arrives(Seen(text, iac, false, b, false), target, pollsB, n)
    ensures HandOut(Await(Seen(text, iac, false, a, false), target, pollsA), target).0
         == HandOut(Await(Seen(text, iac, false, b, false), target, pollsB), target).0
  {
    ShortestPrefixReturned(Seen(text, iac, false, a, false), target, pollsA, m);
    ShortestPrefixReturned(Seen(text, iac, false, b, false), target, pollsB, n);
    var restA := TakenFirst(a, m);
    var restB := TakenFirst(b, n);
    var x, y := Flatten(a[..m]), Flatten(b[..n]);
    assert x == Flatten(a)[..|x|] && y == Flatten(a)[..|y|];
    var first, second := text + Decode(iac, x).text, text + Decode(iac, y).text;
    if |x| <= |y| {
      var more := DecodesOn(text, iac, x, y);
      SamePlace(first, more, target, Find(first, target, 0).value);
    } else {
      var more := DecodesOn(text, iac, y, x);
      SamePlace(second, more, target, Find(second, target, 0).value);
    }
  }

  class Session {
    var rawq: seq<Byte>
    var irawq: nat
    var cookedq: seq<Byte>
    var iacseq: seq<Byte>
    var sb: nat
    var eof: bool
    /** Results of the `recv` calls still to come; afterwards the peer has closed. */
    var inbox: seq<seq<Byte>>

    // History since the session was opened or its queues were last flushed.
    ghost var origin: seq<Byte>
    ghost var received: seq<Byte>
    ghost var delivered: seq<Byte>

    ghost predicate QueuesOk()
      reads this
    {
      && (irawq < |rawq| || (rawq == [] && irawq == 0))
      && IacState(iacseq) && IacState(origin) && sb == 0
    }

    ghost function Pending(): seq<Byte>
      requires QueuesOk()
      reads this
    {
      rawq[irawq..]
    }

    /** Nothing lost, nothing invented: the text handed out plus the text queued
        is the decoding of all the raw bytes received minus those still queued. */
    ghost predicate Valid()
      reads this
      ensures Valid() ==> QueuesOk()
    {
      && QueuesOk()
      && |Pending()| <= |received|
      && received[|received| - |Pending()|..] == Pending()
      && Decode(origin, received[..|received| - |Pending()|]) == Decoded(iacseq, delivered + cookedq, false, [])
    }

    constructor (inbox: seq<seq<Byte>>)
      ensures Valid() && this.inbox == inbox && received == [] && delivered == [] && !eof
    {
      rawq, irawq, cookedq, iacseq, sb, eof := [], 0, [], [], 0, false;
      this.inbox := inbox;
      origin, received, delivered := [], [], [];
    }

    /** One `recv` appended to the raw queue. */
    method FillRawq() returns (ghost chunk: seq<Byte>)
      requires Valid()
      modifies this`rawq, this`irawq, this`inbox, this`eof, this`received
      ensures Valid()
      ensures chunk == Head(old(inbox)) && inbox == Tail(old(inbox))
      ensures Pending() == old(Pending()) + chunk && received == old(received) + chunk
      ensures eof == (chunk == [])
    {
      if irawq >= |rawq| {
        rawq, irawq := [], 0;
      }
      var buf := Head(inbox);
      inbox := Tail(inbox);
      eof := buf == [];
      chunk := buf;
      ghost var pending := Pending();
      rawq := rawq + buf;
      received := received + buf;
      assert Pending() == pending + buf;
      assert received[..|received| - |Pending()|] == old(received[..|received| - |Pending()|]);
      assert received[|received| - |Pending()|..] == Pending();
    }

    /** Next raw byte, filling an empty queue first; None is EOFError. */
    method RawqGetchar() returns (c: Option<Byte>)
      requires QueuesOk()
      modifies this`rawq, this`irawq, this`inbox, this`eof, this`received
      ensures QueuesOk()
      ensures old(rawq) != [] ==>
        && c.Some? && [c.value] + Pending() == old(Pending())
        && inbox == old(inbox) && eof == old(eof) && received == old(received)
      ensures old(rawq) == [] ==>
        && received == old(received) + Head(old(inbox)) && inbox == Tail(old(inbox))
        && (if c.Some? then [c.value] + Pending() == received[|old(received)|..] else eof && received == old(received))
    {
      if rawq == [] {
        var buf := Head(inbox);
        inbox := Tail(inbox);
        eof := buf == [];
        rawq := buf;
        received := received + buf;
        if eof {
          return None;
        }
      }
      c := Some(rawq[irawq]);
      irawq := irawq + 1;
      if irawq >= |rawq| {
        rawq, irawq := [], 0;
      }
    }

    /** The decoding loop of `process_rawq`: consumes the raw queue, or stops in
        the middle of it when the decoder raises. */
    method DecodeQueue() returns (buf: seq<Byte>, crashed: bool)
      requires QueuesOk()
      modifies this`rawq, this`irawq, this`iacseq, this`sb, this`inbox, this`eof, this`received
      ensures QueuesOk() && inbox == old(inbox) && eof == old(eof) && received == old(received)
      ensures Decoded(iacseq, buf, crashed, Pending()) == old(Decode(iacseq, Pending()))
      ensures !crashed ==> rawq == []
    {
      buf := [];
      ghost var whole := Decode(iacseq, Pending());
      while rawq != []
        invariant QueuesOk() && inbox == old(inbox) && eof == old(eof) && received == old(received)
        invariant whole == Prepend(buf, Decode(iacseq, Pending()))
        decreases |Pending()|
      {
        ghost var before := Pending();
        var next := RawqGetchar();
        var c := next.value;
        assert before[0] == c && before[1..] == Pending();
        PrependTwice(buf, [c], Decode([], Pending()));
        if iacseq == [] {
          if c != IAC {
            buf := buf + [c];
          } else {
            iacseq := iacseq + [c];
          }
        } else if |iacseq| == 1 {
          if IsNegotiation(c) {
            iacseq := iacseq + [c];
          } else {
            iacseq := [];
            if c == IAC {
              buf := buf + [c];
            } else if c == SE {
              sb := 0;
            }
          }
        } else {
          iacseq := [];
          return buf, true;
        }
      }
      return buf, false;
    }

    /** Moves the raw queue through the decoder into the cooked queue. When the
        decoder raises, the bytes decoded in this call are lost with it. */
    method ProcessRawq() returns (crashed: bool)
      requires Valid()
      modifies this`rawq, this`irawq, this`iacseq, this`sb, this`inbox, this`eof, this`received, this`cookedq
      ensures QueuesOk()
      ensures Decode(origin, received).crashed == crashed
      ensures var d := old(Decode(iacseq, Pending()));
        && crashed == d.crashed && iacseq == d.iac && Pending() == d.left
        && cookedq == old(cookedq) + if crashed then [] else d.text
      ensures !crashed ==> Valid() && rawq == []
      ensures inbox == old(inbox) && eof == old(eof) && received == old(received)
    {
      ghost var done, todo := received[..|received| - |Pending()|], Pending();
      assert received == done + todo;
      DecodeSplit(origin, done, todo);
      var buf;
      buf, crashed := DecodeQueue();
      if !crashed {
        assert delivered + (cookedq + buf) == delivered + cookedq + buf;
        assert received[..|received|] == received;
        cookedq := cookedq + buf;
      }
    }

    /** Hands out the cooked queue; EOFError when there is nothing and never will be. */
    method ReadVeryLazy() returns (r: ReadResult)
      requires Valid()
      modifies this`cookedq, this`delivered
      ensures Valid() && cookedq == []
      ensures r == if old(cookedq) == [] && eof && rawq == [] then Eof else Text(old(cookedq))
      ensures delivered == old(delivered) + old(cookedq)
    {
      var buf := cookedq;
      cookedq := [];
      delivered := delivered + buf;
      assert delivered + cookedq == old(delivered + cookedq);
      if buf == [] && eof && rawq == [] {
        return Eof;
      }
      return Text(buf);
    }

    /** Cuts the cooked queue behind the match that ends at `end`. */
    method TakeCooked(end: nat) returns (r: ReadResult)
      requires Valid() && end <= |cookedq|
      modifies this`cookedq, this`delivered
      ensures Valid() && r == Text(old(cookedq)[..end]) && cookedq == old(cookedq)[end..]
      ensures delivered == old(delivered) + old(cookedq)[..end]
    {
      r := Text(cookedq[..end]);
      delivered := delivered + cookedq[..end];
      cookedq := cookedq[end..];
      assert delivered + cookedq == old(delivered + cookedq);
    }

    ghost function View(): Seen
      requires QueuesOk()
      reads this
    {
      Seen(cookedq, iacseq, eof, inbox, false)
    }

    /** The reader's state once the bytes already queued are decoded. */
    ghost function Start(): Seen
      requires QueuesOk()
      reads this
    {
      var d := Decode(iacseq, Pending());
      Seen(if d.crashed then cookedq else cookedq + d.text, d.iac, eof, inbox, d.crashed)
    }

    /** The three lines both readers repeat: fill, decode, and search again from
        `|target|` bytes before the old end of the cooked queue. */
    method FillAndSearch(target: seq<Byte>) returns (i: Option<nat>, crashed: bool)
      requires Valid() && rawq == [] && Find(cookedq, target, 0).None?
      modifies this
      ensures QueuesOk() && crashed == Decode(origin, received).crashed
      ensures var s := old(Receive(View()));
        && crashed == s.crashed && inbox == s.inbox && cookedq == s.text
        && (!crashed ==> View() == s && Valid() && rawq == [] && i == Find(cookedq, target, 0))
      ensures delivered == old(delivered) && origin == old(origin)
    {
      var n := |target|;
      var from := if |cookedq| - n > 0 then |cookedq| - n else 0;
      ghost var before := cookedq;
      ghost var chunk := FillRawq();
      assert Pending() == chunk;
      crashed := ProcessRawq();
      if crashed {
        return None, true;
      }
      FindResume(before, cookedq[|before|..], target, from);
      assert before + cookedq[|before|..] == cookedq;
      i := Find(cookedq, target, from);
    }

    /** The waiting loop of `_read_until_with_poll`. */
    method WaitWithPoll(target: seq<Byte>, polls: seq<PollResult>) returns (i: Option<nat>, crashed: bool)
      requires Valid() && rawq == [] && !Decode(origin, received).crashed
      modifies this
      ensures QueuesOk() && crashed == Decode(origin, received).crashed
      ensures var s := old(Await(View(), target, polls));
        && crashed == s.crashed && inbox == s.inbox && cookedq == s.text
        && (!crashed ==> View() == s && Valid() && rawq == [] && i == Find(cookedq, target, 0))
      ensures delivered == old(delivered)
    {
      ghost var final := Await(View(), target, polls);
      i, crashed := Find(cookedq, target, 0), false;
      if i.Some? { return; }
      var next := 0;
      ghost var rest := polls;
      while i.None? && !eof && next < |polls|
        invariant Valid() && rawq == [] && i.None? && Find(cookedq, target, 0).None?
        invariant 0 <= next <= |polls| && rest == polls[next..]
        invariant delivered == old(delivered) && !crashed && !Decode(origin, received).crashed
        invariant final == Await(View(), target, rest)
      {
        var ready := polls[next];
        AwaitTurn(View(), target, rest);
        next, rest := next + 1, rest[1..];
        if ready.Interrupted? {
          continue;
        }
        if ready.Readable? {
          ghost var seen := Receive(View());
          i, crashed := FillAndSearch(target);
          if crashed || i.Some? {
            AwaitOver(seen, target, rest);
            return;
          }
        }
        if ready.late {
          return;
        }
      }
      AwaitOver(View(), target, rest);
    }

    /** The waiting loop of `_read_until_with_select`: `lates` has one entry per
        `select` that reports the socket readable; the one after them times out. */
    method WaitWithSelect(target: seq<Byte>, lates: seq<bool>) returns (i: Option<nat>, crashed: bool)
      requires Valid() && rawq == [] && !Decode(origin, received).crashed
      modifies this
      ensures QueuesOk() && crashed == Decode(origin, received).crashed
      ensures var s := old(Await(View(), target, Selects(lates)));
        && crashed == s.crashed && inbox == s.inbox && cookedq == s.text
        && (!crashed ==> View() == s && Valid() && rawq == [] && i == Find(cookedq, target, 0))
      ensures delivered == old(delivered)
    {
      ghost var final := Await(View(), target, Selects(lates));
      i, crashed := Find(cookedq, target, 0), false;
      if i.Some? { return; }
      var next := 0;
      while !eof && next < |lates|
        invariant Valid() && rawq == [] && i.None? && Find(cookedq, target, 0).None?
        invariant 0 <= next <= |lates|
        invariant delivered == old(delivered) && !crashed && !Decode(origin, received).crashed
        invariant final == Await(View(), target, Selects(lates[next..]))
      {
        var late := lates[next];
        next := next + 1;
        i, crashed := FillAndSearch(target);
        if crashed || i.Some? { return; }
        if late {
          break;
        }
      }
    }

    /** The end of either `read_until`. */
    method HandOutCooked(target: seq<Byte>, i: Option<nat>) returns (r: ReadResult)
      requires Valid() && rawq == [] && i == Find(cookedq, target, 0)
      modifies this`cookedq, this`delivered
      ensures Valid() && (r, cookedq) == HandOut(old(View()), target)
      ensures delivered == if r.Text? then old(delivered) + r.buf else old(delivered)
    {
      ghost var before := delivered;
      assert irawq == 0 && Pending() == [];
      if i.Some? {
        r := TakeCooked(i.value + |target|);
      } else {
        r := ReadVeryLazy();
        assert before + [] == before;
      }
    }

    /** `read_until` on top of `select.poll`. */
    method ReadUntilWithPoll(target: seq<Byte>, polls: seq<PollResult>) returns (r: ReadResult)
      requires Valid()
      modifies this
      ensures QueuesOk() && (r.Crashed? <==> Decode(origin, received).crashed)
      ensures !r.Crashed? ==> Valid()
      ensures r == HandOut(old(Await(Start(), target, polls)), target).0
      ensures cookedq == HandOut(old(Await(Start(), target, polls)), target).1
      ensures inbox == old(Await(Start(), target, polls)).inbox
      ensures r.Text? ==> delivered == old(delivered) + r.buf
      ensures !r.Text? ==> delivered == old(delivered)
    {
      var crashed := ProcessRawq();
      if crashed { return Crashed; }
      assert received[..|received|] == received;
      var i;
      i, crashed := WaitWithPoll(target, polls);
      if crashed { return Crashed; }
      r := HandOutCooked(target, i);
    }

    /** `read_until` on top of `select.select`. */
    method ReadUntilWithSelect(target: seq<Byte>, lates: seq<bool>) returns (r: ReadResult)
      requires Valid()
      modifies this
      ensures QueuesOk() && (r.Crashed? <==> Decode(origin, received).crashed)
      ensures !r.Crashed? ==> Valid()
      ensures r == HandOut(old(Await(Start(), target, Selects(lates))), target).0
      ensures cookedq == HandOut(old(Await(Start(), target, Selects(lates))), target).1
      ensures inbox == old(Await(Start(), target, Selects(lates))).inbox
      ensures r.Text? ==> delivered == old(delivered) + r.buf
      ensures !r.Text? ==> delivered == old(delivered)
    {
      var crashed := ProcessRawq();
      if crashed { return Crashed; }
      assert received[..|received|] == received;
      var i;
      i, crashed := WaitWithSelect(target, lates);
      if crashed { return Crashed; }
      r := HandOutCooked(target, i);
    }

    /** The three assignments with which `command` empties the queues before a
        binary read; an IAC sequence left open stays open. */
    method DropQueues()
      requires Valid()
      modifies this
      ensures Valid() && rawq == [] && irawq == 0 && cookedq == []
      ensures iacseq == old(iacseq) && inbox == old(inbox) && eof == old(eof)
      ensures origin == iacseq && received == [] && delivered == []
    {
      rawq, irawq, cookedq := [], 0, [];
      origin, received, delivered := iacseq, [], [];
    }
  }
}
