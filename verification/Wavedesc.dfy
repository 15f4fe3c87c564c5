/** The 346-byte LeCroy waveform descriptor: 62 fields in native (little-endian)
    byte order without alignment, as `=` at the head of the format asks. */
module Wavedesc {
  import opened Common

  const FIELDS: nat := 62
  const SIZE: nat := 346
  /** Bytes in front of the descriptor in a WAVEFORM? response. */
  const PREAMBLE: nat := 15
  const SWEEPS_PER_ACQ_OFFSET: nat := 15 + 148

  // Positions of the fields the driver uses.
  const COMM_TYPE: nat := 2
  const USER_TEXT: nat := 5
  const TRIGTIME_ARRAY: nat := 7
  const RIS_TIME_ARRAY: nat := 8
  const RES_ARRAY1: nat := 9
  const WAVE_ARRAY_1: nat := 10
  const SUBARRAY_COUNT: nat := 26
  const SWEEPS_PER_ACQ: nat := 27
  const VERTICAL_GAIN: nat := 30
  const VERTICAL_OFFSET: nat := 31
  const HORIZ_INTERVAL: nat := 36
  const HORIZ_OFFSET: nat := 37

  /** Format characters `<n>s`, h, l, f, d and B. */
  datatype Kind = Text(width: nat) | Short | Long | Single | Double | Octet

  function Width(k: Kind): nat {
    match k case Text(w) => w case Short => 2 case Long => 4 case Single => 4 case Double => 8 case Octet => 1
  }

  // ---- values ------------------------------------------------------------------

  /** A text, an integer, or the bits of a float. */
  datatype Value = Str(bytes: seq<Byte>) | Num(n: int) | Bits(bits: seq<Byte>)

  predicate Fits(k: Kind, v: Value) {
    match k
    case Text(w) => v.Str? && |v.bytes| == w
    case Short => v.Num? && -0x8000 <= v.n < 0x8000
    case Long => v.Num? && -0x8000_0000 <= v.n < 0x8000_0000
    case Octet => v.Num? && 0 <= v.n < 256
    case Single => v.Bits? && |v.bits| == 4
    case Double => v.Bits? && |v.bits| == 8
  }

  /** `width` little-endian bytes of `n` modulo 256^width. */
  function LittleEndian(n: int, width: nat): (b: seq<Byte>)
    ensures |b| == width
    decreases width
  {
    if width == 0 then [] else [n % 256] + LittleEndian(n / 256, width - 1)
  }

  /** Two's complement: the sign is in the last byte. */
  function Signed(b: seq<Byte>): int {
    if b == [] then 0
    else if |b| == 1 then (if b[0] < 128 then b[0] as int else b[0] as int - 256)
    else b[0] as int + 256 * Signed(b[1..])
  }

  function Put(k: Kind, v: Value): (b: seq<Byte>)
    requires Fits(k, v)
    ensures |b| == Width(k)
  {
    match v
    case Str(bytes) => bytes
    case Bits(bits) => bits
    case Num(n) => LittleEndian(n, Width(k))
  }

  function Get(k: Kind, b: seq<Byte>): Value
    requires |b| == Width(k)
  {
    match k
    case Text(_) => Str(b)
    case Single => Bits(b)
    case Double => Bits(b)
    case Octet => Num(b[0])
    case Short => Num(Signed(b))
    case Long => Num(Signed(b))
  }

  /** Signed integers of `w` bytes lie in [-Half(w), Half(w)). */
  function Half(w: nat): (p: int)
    ensures p > 0
  {
    if w <= 1 then 128 else 256 * Half(w - 1)
  }

  lemma DigitSplits(low: Byte, high: int)
    ensures (low + 256 * high) % 256 == low && (low + 256 * high) / 256 == high
  {}

  lemma {:induction false} SignedInverts(n: int, w: nat)
    requires w > 0 && -Half(w) <= n < Half(w)
    ensures Signed(LittleEndian(n, w)) == n
    decreases w
  {
    assert LittleEndian(n, w)[1..] == LittleEndian(n / 256, w - 1);
    if w > 1 {
      SignedInverts(n / 256, w - 1);
    }
  }

  lemma {:induction false} LittleEndianInverts(b: seq<Byte>)
    requires b != []
    ensures -Half(|b|) <= Signed(b) < Half(|b|) && LittleEndian(Signed(b), |b|) == b
  {
    if |b| == 1 {
      assert LittleEndian(Signed(b), 1) == [b[0]] + [];
    } else {
      LittleEndianInverts(b[1..]);
      DigitSplits(b[0], Signed(b[1..]));
      assert b == [b[0]] + b[1..];
    }
  }

  lemma GetPut(k: Kind, v: Value)
    requires Fits(k, v)
    ensures Get(k, Put(k, v)) == v
  {
    assert Half(2) == 0x8000 && Half(4) == 256 * (256 * Half(2));
    if k.Short? || k.Long? { SignedInverts(v.n, Width(k)); }
    if k.Octet? { assert LittleEndian(v.n, 1)[0] == v.n % 256; }
  }

  lemma PutGet(k: Kind, b: seq<Byte>)
    requires |b| == Width(k)
    ensures Fits(k, Get(k, b)) && Put(k, Get(k, b)) == b
  {
    assert Half(2) == 0x8000 && Half(4) == 256 * (256 * Half(2));
    if k.Short? || k.Long? { LittleEndianInverts(b); }
    if k.Octet? { assert LittleEndian(b[0], 1) == [b[0] % 256] + []; }
  }

  lemma SliceOfSlice(s: seq<Byte>, lo: nat, hi: nat, i: nat, j: nat)
    requires lo <= hi <= |s| && i <= j <= hi - lo
    ensures s[lo..hi][i..j] == s[lo + i..lo + j]
  {
    var a, b := s[lo..hi][i..j], s[lo + i..lo + j];
    assert |a| == |b| && forall k | 0 <= k < |a| :: a[k] == b[k];
  }

  // ---- formats -------------------------------------------------------------------

  function Size(fmt: seq<Kind>): nat { if fmt == [] then 0 else Width(fmt[0]) + Size(fmt[1..]) }

  predicate Sized(fmt: seq<Kind>, pieces: seq<seq<Byte>>) {
    |pieces| == |fmt| && forall i | 0 <= i < |fmt| :: |pieces[i]| == Width(fmt[i])
  }

  /** A buffer cut into its fields. */
  function Pieces(fmt: seq<Kind>, b: seq<Byte>): (ps: seq<seq<Byte>>)
    requires |b| == Size(fmt)
    ensures Sized(fmt, ps)
    decreases |fmt|
  {
    if fmt == [] then [] else [b[..Width(fmt[0])]] + Pieces(fmt[1..], b[Width(fmt[0])..])
  }

  lemma {:induction false} FlattenPieces(fmt: seq<Kind>, b: seq<Byte>)
    requires |b| == Size(fmt)
    ensures Flatten(Pieces(fmt, b)) == b
    decreases |fmt|
  {
    if fmt != [] {
      var w := Width(fmt[0]);
      FlattenPieces(fmt[1..], b[w..]);
      assert ([b[..w]] + Pieces(fmt[1..], b[w..]))[1..] == Pieces(fmt[1..], b[w..]);
      assert b == b[..w] + b[w..];
    }
  }

  lemma {:induction false} PiecesFlatten(fmt: seq<Kind>, ps: seq<seq<Byte>>)
    requires Sized(fmt, ps)
    ensures |Flatten(ps)| == Size(fmt) && Pieces(fmt, Flatten(ps)) == ps
    decreases |fmt|
  {
    if fmt != [] {
      PiecesFlatten(fmt[1..], ps[1..]);
      var b, w := Flatten(ps), Width(fmt[0]);
      assert b[..w] == ps[0] && b[w..] == Flatten(ps[1..]);
      assert ps == [ps[0]] + ps[1..];
    }
  }

  predicate Matches(fmt: seq<Kind>, vs: seq<Value>) {
    |vs| == |fmt| && forall i | 0 <= i < |fmt| :: Fits(fmt[i], vs[i])
  }

  function Putted(fmt: seq<Kind>, vs: seq<Value>): (ps: seq<seq<Byte>>)
    requires Matches(fmt, vs)
    ensures Sized(fmt, ps)
  {
    seq(|fmt|, i requires 0 <= i < |fmt| => Put(fmt[i], vs[i]))
  }

  /** `struct.pack`. */
  function Pack(fmt: seq<Kind>, vs: seq<Value>): seq<Byte>
    requires Matches(fmt, vs)
  {
    Flatten(Putted(fmt, vs))
  }

  /** `struct.unpack` of a buffer of the right length. */
  function Unpack(fmt: seq<Kind>, b: seq<Byte>): (vs: seq<Value>)
    requires |b| == Size(fmt)
    ensures |vs| == |fmt|
  {
    var ps := Pieces(fmt, b);
    seq(|fmt|, i requires 0 <= i < |fmt| => Get(fmt[i], ps[i]))
  }

  lemma UnpackPack(fmt: seq<Kind>, vs: seq<Value>)
    requires Matches(fmt, vs)
    ensures |Pack(fmt, vs)| == Size(fmt) && Unpack(fmt, Pack(fmt, vs)) == vs
  {
    PiecesFlatten(fmt, Putted(fmt, vs));
    forall i | 0 <= i < |fmt| ensures Get(fmt[i], Putted(fmt, vs)[i]) == vs[i] {
      GetPut(fmt[i], vs[i]);
    }
  }

  lemma PackUnpack(fmt: seq<Kind>, b: seq<Byte>)
    requires |b| == Size(fmt)
    ensures Matches(fmt, Unpack(fmt, b)) && Pack(fmt, Unpack(fmt, b)) == b
  {
    var ps := Pieces(fmt, b);
    forall i | 0 <= i < |fmt| ensures Fits(fmt[i], Get(fmt[i], ps[i])) && Put(fmt[i], Get(fmt[i], ps[i])) == ps[i] {
      PutGet(fmt[i], ps[i]);
    }
    assert Putted(fmt, Unpack(fmt, b)) == ps;
    FlattenPieces(fmt, b);
  }

  lemma {:induction false} SizeAppend(f: seq<Kind>, g: seq<Kind>)
    ensures Size(f + g) == Size(f) + Size(g)
  {
    if f == [] {
      assert f + g == g;
    } else {
      assert (f + g)[1..] == f[1..] + g;
      SizeAppend(f[1..], g);
    }
  }

  lemma MiddleOfThree(a: seq<Byte>, b: seq<Byte>, c: seq<Byte>)
    ensures (a + (b + c))[|a|..|a| + |b|] == b
  {}

  /** Field `i` of any format is cut from behind the fields before it. */
  lemma PieceAt(fmt: seq<Kind>, b: seq<Byte>, i: nat)
    requires |b| == Size(fmt) && i < |fmt|
    ensures var lo := Size(fmt[..i]);
      lo + Width(fmt[i]) <= |b| && Pieces(fmt, b)[i] == b[lo..lo + Width(fmt[i])]
  {
    var ps := Pieces(fmt, b);
    FlattenPieces(fmt, b);
    assert ps == ps[..i] + ps[i..];
    FlattenAppend(ps[..i], ps[i..]);
    PiecesFlatten(fmt[..i], ps[..i]);
    MiddleOfThree(Flatten(ps[..i]), ps[i], Flatten(ps[i..][1..]));
  }

  // ---- the descriptor --------------------------------------------------------------

  function Repeat(n: nat, k: Kind): (f: seq<Kind>)
    ensures |f| == n && forall i | 0 <= i < n :: f[i] == k
  {
    seq(n, i => k)
  }

  /** descriptor_name .. subarray_count. */
  function HeadFormat(): seq<Kind> {
    Repeat(2, Text(16)) + Repeat(2, Short) + Repeat(10, Long) + Repeat(1, Text(16)) + Repeat(1, Long)
    + Repeat(1, Text(16)) + Repeat(2, Short) + Repeat(8, Long)
  }

  /** points_per_pair .. horunit. */
  function MiddleFormat(): seq<Kind> {
    Repeat(2, Short) + Repeat(4, Single) + Repeat(2, Short) + Repeat(1, Single)
    + Repeat(2, Double) + Repeat(2, Text(48))
  }

  /** horiz_uncertainty .. wave_source. */
  function TailFormat(): seq<Kind> {
    Repeat(1, Single) + Repeat(1, Double) + Repeat(4, Octet) + Repeat(2, Short) + Repeat(1, Single)
    + Repeat(6, Short) + Repeat(1, Single) + Repeat(2, Short) + Repeat(2, Single) + Repeat(1, Short)
  }

  /** The format string `WAVEDESC_FMT`: the head, sweeps_per_acq, and the rest. */
  function Format(): seq<Kind> { HeadFormat() + ([Long] + (MiddleFormat() + TailFormat())) }

  lemma {:induction false} RepeatSize(n: nat, k: Kind)
    ensures Size(Repeat(n, k)) == n * Width(k)
  {
    if n > 0 {
      assert Repeat(n, k)[1..] == Repeat(n - 1, k);
      RepeatSize(n - 1, k);
    }
  }

  lemma Grow(f: seq<Kind>, n: nat, k: Kind) returns (g: seq<Kind>)
    ensures g == f + Repeat(n, k) && |g| == |f| + n && Size(g) == Size(f) + n * Width(k)
  {
    g := f + Repeat(n, k);
    RepeatSize(n, k);
    SizeAppend(f, Repeat(n, k));
  }

  lemma HeadLayout()
    ensures |HeadFormat()| == SWEEPS_PER_ACQ && Size(HeadFormat()) == 148
  {
    RepeatSize(2, Text(16));
    var f := Grow(Repeat(2, Text(16)), 2, Short);
    f := Grow(f, 10, Long);
    f := Grow(f, 1, Text(16));
    f := Grow(f, 1, Long);
    f := Grow(f, 1, Text(16));
    f := Grow(f, 2, Short);
    f := Grow(f, 8, Long);
  }

  lemma MiddleLayout()
    ensures |MiddleFormat()| == 13 && Size(MiddleFormat()) == 140
  {
    RepeatSize(2, Short);
    var f := Grow(Repeat(2, Short), 4, Single);
    f := Grow(f, 2, Short);
    f := Grow(f, 1, Single);
    f := Grow(f, 2, Double);
    f := Grow(f, 2, Text(48));
  }

  lemma TailLayout()
    ensures |TailFormat()| == 21 && Size(TailFormat()) == 54
  {
    RepeatSize(1, Single);
    var f := Grow(Repeat(1, Single), 1, Double);
    f := Grow(f, 4, Octet);
    f := Grow(f, 2, Short);
    f := Grow(f, 1, Single);
    f := Grow(f, 6, Short);
    f := Grow(f, 1, Single);
    f := Grow(f, 2, Short);
    f := Grow(f, 2, Single);
    f := Grow(f, 1, Short);
  }

  /** 62 fields, 346 bytes. */
  lemma Layout()
    ensures |Format()| == FIELDS && Size(Format()) == SIZE
  {
    HeadLayout();
    MiddleLayout();
    TailLayout();
    SizeAppend(MiddleFormat(), TailFormat());
    var rest := MiddleFormat() + TailFormat();
    assert ([Long] + rest)[1..] == rest;
    SizeAppend(HeadFormat(), [Long] + rest);
  }

  /** `translate_wavedesc_bytes`; None is struct's error for any other length. */
  function Decode(b: seq<Byte>): (wd: Option<seq<Value>>)
    ensures wd.Some? <==> |b| == SIZE
    ensures wd.Some? ==> |wd.value| == FIELDS
  {
    Layout();
    if |b| != SIZE then None else Some(Unpack(Format(), b))
  }

  function Encode(wd: seq<Value>): (b: seq<Byte>)
    requires Matches(Format(), wd)
    ensures |b| == SIZE
  {
    Layout();
    UnpackPack(Format(), wd);
    Pack(Format(), wd)
  }

  /** Decoding inverts packing, and packing inverts decoding, on all 346-byte strings. */
  lemma DescriptorRoundTrips(wd: seq<Value>, b: seq<Byte>)
    ensures Matches(Format(), wd) ==> Decode(Encode(wd)) == Some(wd)
    ensures |b| == SIZE ==> Matches(Format(), Decode(b).value) && Encode(Decode(b).value) == b
  {
    Layout();
    if Matches(Format(), wd) { UnpackPack(Format(), wd); }
    if |b| == SIZE {
      PackUnpack(Format(), b);
    }
  }

  // ---- the shortcut read of the sweep counter --------------------------------------

  /** `_read_sweeps_per_acq` on a WAVEFORM? response; None is struct's length error. */
  function ReadSweepsPerAcq(response: seq<Byte>): Option<int> {
    if |response| < SWEEPS_PER_ACQ_OFFSET + 4 then None
    else Some(Signed(response[SWEEPS_PER_ACQ_OFFSET..SWEEPS_PER_ACQ_OFFSET + 4]))
  }

  /** The counter can be read from any response that holds its four bytes. */
  lemma CounterReadable(response: seq<Byte>)
    ensures ReadSweepsPerAcq(response).Some? <==> |response| >= 167
    ensures |response| >= 167 ==> ReadSweepsPerAcq(response) == Some(Signed(response[163..167]))
  {}

  lemma CounterField(b: seq<Byte>)
    requires |b| == SIZE
    ensures Decode(b).value[SWEEPS_PER_ACQ] == Get(Long, b[148..152])
  {
    Layout();
    HeadLayout();
    assert Format()[..SWEEPS_PER_ACQ] == HeadFormat();
    PieceAt(Format(), b, SWEEPS_PER_ACQ);
  }

  /** The four bytes at the fixed offset lie in the descriptor behind 148 others. */
  lemma CounterBytes(response: seq<Byte>, b: seq<Byte>) returns (counter: seq<Byte>)
    requires |response| >= PREAMBLE + SIZE && b == response[PREAMBLE..PREAMBLE + SIZE]
    ensures |counter| == 4 && counter == b[148..152] && ReadSweepsPerAcq(response) == Some(Signed(counter))
  {
    counter := b[148..152];
    SliceOfSlice(response, PREAMBLE, PREAMBLE + SIZE, 148, 152);
  }

  lemma CounterOfDecoded(b: seq<Byte>, counter: seq<Byte>) returns (wd: seq<Value>)
    requires |b| == SIZE && |counter| == 4 && counter == b[148..152]
    ensures Decode(b) == Some(wd) && |wd| == FIELDS && wd[SWEEPS_PER_ACQ] == Num(Signed(counter))
  {
    wd := Decode(b).value;
    CounterField(b);
  }

  /** They are the counter field of the full decode. */
  lemma ShortcutAgreesWithDecode(response: seq<Byte>) returns (wd: seq<Value>)
    requires |response| >= PREAMBLE + SIZE
    ensures Decode(response[PREAMBLE..PREAMBLE + SIZE]) == Some(wd)
    ensures |wd| == FIELDS && ReadSweepsPerAcq(response).Some?
        && wd[SWEEPS_PER_ACQ] == Num(ReadSweepsPerAcq(response).value)
  {
    var b := response[PREAMBLE..PREAMBLE + SIZE];
    var counter := CounterBytes(response, b);
    wd := CounterOfDecoded(b, counter);
  }
}
