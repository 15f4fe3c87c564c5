/** Reading many shots of one channel from an archive: the reader that decodes the
    scaling once, and the reader that decodes it for every shot. */
module ShotArchive {
  import opened Common
  import Wavedesc
  import WavedescFields

  // ---- the archive ---------------------------------------------------------------

  /** What a descriptor says about volts and seconds; rounding is not modelled. */
  datatype Scaling = Scaling(gain: real, offset: real, dt: real, t0: real)

  type Decoder = seq<Byte> -> Option<Scaling>

  datatype ShotGroup = ShotGroup(skipped: bool, data: map<string, seq<int>>, headers: map<string, seq<Byte>>)

  /** One channel of one scope of an open archive, with the descriptor decoder. */
  datatype Channel = Channel(archive: map<string, map<int, ShotGroup>>, scope: string, name: string, decode: Decoder)

  datatype ReadError = MissingGroup | SkippedShot | MissingDataset | MissingHeader | UndecodableHeader

  /** `decode_wavedesc` and the four fields read from it, for any meaning of float bits. */
  function WavedescScaling(meaning: Wavedesc.Value -> real, header: seq<Byte>): (s: Option<Scaling>)
    ensures s.Some? <==> |header| == Wavedesc.SIZE
  {
    match Wavedesc.Decode(header)
    case None => None
    case Some(wd) =>
      Some(Scaling(meaning(wd[Wavedesc.VERTICAL_GAIN]), meaning(wd[Wavedesc.VERTICAL_OFFSET]),
                   meaning(wd[Wavedesc.HORIZ_INTERVAL]), meaning(wd[Wavedesc.HORIZ_OFFSET])))
  }

  /** The four numbers stand at these bytes of the header. */
  lemma ScalingFromBytes(meaning: Wavedesc.Value -> real, header: seq<Byte>) returns (s: Scaling)
    requires |header| == 346
    ensures WavedescScaling(meaning, header) == Some(s)
    ensures s.gain == meaning(Wavedesc.Bits(header[156..160])) && s.offset == meaning(Wavedesc.Bits(header[160..164]))
    ensures s.dt == meaning(Wavedesc.Bits(header[176..180])) && s.t0 == meaning(Wavedesc.Bits(header[180..188]))
  {
    s := WavedescScaling(meaning, header).value;
    var gain, offset, dt, t0 := WavedescFields.ScaleFieldsAt(header, Wavedesc.Decode(header).value);
  }

  function Group(c: Channel, shot: int): Option<ShotGroup> {
    if c.scope in c.archive && shot in c.archive[c.scope] then Some(c.archive[c.scope][shot]) else None
  }

  /** `_scope_channel_scaling`. */
  function ChannelScaling(c: Channel, shot: int): Result<Scaling, ReadError> {
    match Group(c, shot)
    case None => Err(MissingGroup)
    case Some(g) =>
      if c.name !in g.headers then Err(MissingHeader)
      else
        match c.decode(g.headers[c.name])
        case None => Err(UndecodableHeader)
        case Some(s) => Ok(s)
  }

  /** Digitiser codes to volts. */
  function Volts(raw: seq<int>, s: Scaling): (v: seq<real>)
    ensures |v| == |raw|
  {
    seq(|raw|, i requires 0 <= i < |raw| => raw[i] as real * s.gain - s.offset)
  }

  datatype Trace = Trace(volts: seq<real>, dt: real, t0: real)

  /** `read_hdf5_scope_data`: one shot, decoding its own header. */
  function ReadScopeData(c: Channel, shot: int): Result<Trace, ReadError> {
    match Group(c, shot)
    case None => Err(MissingGroup)
    case Some(g) =>
      if g.skipped then Err(SkippedShot)
      else if c.name !in g.data then Err(MissingDataset)
      else
        match ChannelScaling(c, shot)
        case Err(e) => Err(e)
        case Ok(s) => Ok(Trace(Volts(g.data[c.name], s), s.dt, s.t0))
  }

  // ---- the many-shot reader --------------------------------------------------------

  /** Samples of a shot that is there, not skipped, and has this channel. */
  function RawData(c: Channel, shot: int): Option<seq<int>> {
    match Group(c, shot)
    case None => None
    case Some(g) => if g.skipped || c.name !in g.data then None else Some(g.data[c.name])
  }

  /** Scaling of the first shot that has both samples and a header that decodes. */
  function FirstScaling(c: Channel, shots: seq<int>): Option<Scaling> {
    if shots == [] then None
    else if RawData(c, shots[0]).Some? && ChannelScaling(c, shots[0]).Ok? then Some(ChannelScaling(c, shots[0]).value)
    else FirstScaling(c, shots[1..])
  }

  /** Row width: the given one, else that of the first shot that has samples. */
  function RowWidth(c: Channel, shots: seq<int>, expected: Option<nat>): Option<nat> {
    if shots == [] then expected
    else
      var before := RowWidth(c, shots[..|shots| - 1], expected);
      if before.Some? then before
      else
        match RawData(c, shots[|shots| - 1])
        case None => None
        case Some(raw) => Some(|raw|)
  }

  /** One row; `None` is a row of NaN. */
  function Row(c: Channel, shot: int, width: nat, s: Scaling): Option<seq<real>> {
    match RawData(c, shot)
    case None => None
    case Some(raw) => if |raw| == width then Some(Volts(raw, s)) else None
  }

  function Rows(c: Channel, shots: seq<int>, width: nat, s: Scaling): (rows: seq<Option<seq<real>>>)
    ensures |rows| == |shots|
  {
    seq(|shots|, i requires 0 <= i < |shots| => Row(c, shots[i], width, s))
  }

  datatype Stack = Stack(rows: seq<Option<seq<real>>>, width: nat, dt: real, t0: real)

  function ReadShots(c: Channel, shots: seq<int>, expected: Option<nat>): Option<Stack> {
    match FirstScaling(c, shots)
    case None => None
    case Some(s) =>
      match RowWidth(c, shots, expected)
      case None => None
      case Some(w) => Some(Stack(Rows(c, shots, w, s), w, s.dt, s.t0))
  }

  /** `read_hdf5_scope_channel_shots`: two passes over the requested shots. */
  method ReadChannelShots(c: Channel, shots: seq<int>, expected: Option<nat>) returns (r: Option<Stack>)
    ensures r == ReadShots(c, shots, expected)
  {
    var scaling: Option<Scaling> := None;
    var next := 0;
    while next < |shots| && scaling.None?
      invariant 0 <= next <= |shots|
      invariant scaling.None? ==> FirstScaling(c, shots) == FirstScaling(c, shots[next..])
      invariant scaling.Some? ==> FirstScaling(c, shots) == scaling
      decreases |shots| - next, scaling.None?
    {
      var s := shots[next];
      assert shots[next..][1..] == shots[next + 1..];
      if RawData(c, s).Some? {
        var found := ChannelScaling(c, s);
        if found.Ok? { scaling := Some(found.value); }
      }
      next := next + 1;
    }
    if scaling.None? {
      assert shots[next..] == [];
      return None;
    }
    var nsamples, rows := expected, [];
    for i := 0 to |shots|
      invariant nsamples == RowWidth(c, shots[..i], expected)
      invariant |rows| == i
      invariant forall j | 0 <= j < i ::
          rows[j] == if nsamples.Some? then Row(c, shots[j], nsamples.value, scaling.value) else None
      invariant nsamples.None? ==> forall j | 0 <= j < i :: RawData(c, shots[j]).None?
    {
      var row: Option<seq<real>> := None;
      var raw := RawData(c, shots[i]);
      assert shots[..i + 1][..i] == shots[..i];
      if raw.Some? {
        if nsamples.None? { nsamples := Some(|raw.value|); }
        if |raw.value| == nsamples.value { row := Some(Volts(raw.value, scaling.value)); }
      }
      rows := rows + [row];
    }
    assert shots[..|shots|] == shots;
    if nsamples.None? {
      return None;
    }
    assert rows == Rows(c, shots, nsamples.value, scaling.value);
    r := Some(Stack(rows, nsamples.value, scaling.value.dt, scaling.value.t0));
  }

  // ---- what the stack is -----------------------------------------------------------

  /** The shots the per-shot reader can read are those with samples and a good header. */
  lemma ReadableExactly(c: Channel, shot: int)
    ensures ReadScopeData(c, shot).Ok? <==> RawData(c, shot).Some? && ChannelScaling(c, shot).Ok?
    ensures ReadScopeData(c, shot).Ok? ==>
      ReadScopeData(c, shot).value.volts == Volts(RawData(c, shot).value, ChannelScaling(c, shot).value)
  {}

  /** This shot of the archive is there and not marked as skipped. */
  predicate Present(c: Channel, shot: int) {
    && c.scope in c.archive && shot in c.archive[c.scope] && !c.archive[c.scope][shot].skipped
  }

  /** A shot can be read if and only if it is present, has samples and a header of this
      channel, and the header decodes; and why not, if it cannot. */
  lemma ReadExactly(c: Channel, shot: int)
    ensures var r := ReadScopeData(c, shot);
      if !(c.scope in c.archive && shot in c.archive[c.scope]) then r == Err(MissingGroup)
      else
        var g := c.archive[c.scope][shot];
        if g.skipped then r == Err(SkippedShot)
        else if c.name !in g.data then r == Err(MissingDataset)
        else if c.name !in g.headers then r == Err(MissingHeader)
        else if c.decode(g.headers[c.name]).None? then r == Err(UndecodableHeader)
        else r.Ok? && |r.value.volts| == |g.data[c.name]|
    ensures RawData(c, shot).Some? <==> Present(c, shot) && c.name in c.archive[c.scope][shot].data
  {}

  /** What a read shot holds: its samples times its header's gain minus its offset, and its
      header's sample spacing and start. */
  lemma TraceMeaning(c: Channel, shot: int, i: nat) returns (raw: seq<int>, s: Scaling)
    requires ReadScopeData(c, shot).Ok?
    ensures Present(c, shot) && c.name in c.archive[c.scope][shot].data && c.name in c.archive[c.scope][shot].headers
    ensures raw == c.archive[c.scope][shot].data[c.name]
    ensures c.decode(c.archive[c.scope][shot].headers[c.name]) == Some(s)
    ensures var trace := ReadScopeData(c, shot).value;
      && |trace.volts| == |raw| && trace.dt == s.dt && trace.t0 == s.t0
      && (i < |raw| ==> trace.volts[i] == raw[i] as real * s.gain - s.offset)
  {
    raw := c.archive[c.scope][shot].data[c.name];
    s := c.decode(c.archive[c.scope][shot].headers[c.name]).value;
  }

  /** The scaling in force is that of the first shot the per-shot reader can read. */
  lemma {:induction false} FirstScalingMeaning(c: Channel, shots: seq<int>) returns (k: nat)
    ensures k <= |shots| && (FirstScaling(c, shots).Some? <==> k < |shots|)
    ensures forall i | 0 <= i < k :: ReadScopeData(c, shots[i]).Err?
    ensures k < |shots| ==>
      ReadScopeData(c, shots[k]).Ok? && ChannelScaling(c, shots[k]) == Ok(FirstScaling(c, shots).value)
  {
    if shots == [] {
      k := 0;
    } else if ReadScopeData(c, shots[0]).Ok? {
      k := 0;
    } else {
      var rest := FirstScalingMeaning(c, shots[1..]);
      k := rest + 1;
      forall i | 0 <= i < k ensures ReadScopeData(c, shots[i]).Err? {
        if i > 0 { assert shots[1..][i - 1] == shots[i]; }
      }
    }
  }

  /** The width is the one asked for, else that of the first shot with samples. */
  lemma {:induction false} RowWidthMeaning(c: Channel, shots: seq<int>, expected: Option<nat>) returns (k: nat)
    ensures expected.Some? ==> RowWidth(c, shots, expected) == expected
    ensures k <= |shots| && forall i | 0 <= i < k :: RawData(c, shots[i]).None?
    ensures k < |shots| ==> RawData(c, shots[k]).Some?
    ensures expected.None? && k < |shots| ==> RowWidth(c, shots, expected) == Some(|RawData(c, shots[k]).value|)
    ensures expected.None? && k == |shots| ==> RowWidth(c, shots, expected) == None
  {
    if shots == [] {
      k := 0;
    } else {
      var front := shots[..|shots| - 1];
      k := RowWidthMeaning(c, front, expected);
      if k == |front| && RawData(c, shots[k]).None? { k := k + 1; }
    }
  }

  /** `None` is returned exactly when the per-shot reader fails on every requested shot. */
  lemma NothingReadable(c: Channel, shots: seq<int>, expected: Option<nat>)
    ensures ReadShots(c, shots, expected).None? <==> forall i | 0 <= i < |shots| :: ReadScopeData(c, shots[i]).Err?
  {
    var k := FirstScalingMeaning(c, shots);
    var w := RowWidthMeaning(c, shots, expected);
    if k < |shots| {
      ReadableExactly(c, shots[k]);
    }
  }

  /** A rectangular stack in request order, whose NaN rows are exactly the shots that
      are missing, skipped, without this channel, or of another length. */
  lemma StackShape(c: Channel, shots: seq<int>, expected: Option<nat>)
    requires ReadShots(c, shots, expected).Some?
    ensures var st := ReadShots(c, shots, expected).value;
      && |st.rows| == |shots|
      && (expected.Some? ==> st.width == expected.value)
      && forall i | 0 <= i < |shots| ::
        && (st.rows[i].Some? ==> |st.rows[i].value| == st.width)
        && (st.rows[i].None? <==> RawData(c, shots[i]).None? || |RawData(c, shots[i]).value| != st.width)
  {
    var k := RowWidthMeaning(c, shots, expected);
  }

  /** All headers of the channel that decode give one scaling. */
  ghost predicate SharedScaling(c: Channel) {
    forall a, b | ChannelScaling(c, a).Ok? && ChannelScaling(c, b).Ok? :: ChannelScaling(c, a) == ChannelScaling(c, b)
  }

  /** The fast reader refines the per-shot reader: where that one succeeds with the
      realised width, the row is its trace, with the same time axis. */
  lemma RefinesShotReader(c: Channel, shots: seq<int>, expected: Option<nat>, i: nat)
    requires SharedScaling(c) && i < |shots|
    requires ReadScopeData(c, shots[i]).Ok?
    ensures ReadShots(c, shots, expected).Some?
    ensures var (st, trace) := (ReadShots(c, shots, expected).value, ReadScopeData(c, shots[i]).value);
      && st.dt == trace.dt && st.t0 == trace.t0
      && st.rows[i] == if |trace.volts| == st.width then Some(trace.volts) else None
  {
    NothingReadable(c, shots, expected);
    var k := FirstScalingMeaning(c, shots);
    ReadableExactly(c, shots[i]);
  }

  /** It reads more than the per-shot reader in one case: a shot with samples whose own
      header is missing or does not decode. */
  lemma FilledWithoutHeader(c: Channel, shots: seq<int>, expected: Option<nat>, i: nat)
    requires ReadShots(c, shots, expected).Some? && i < |shots|
    requires ReadShots(c, shots, expected).value.rows[i].Some?
    ensures var own := ReadScopeData(c, shots[i]);
      && (own.Err? <==> ChannelScaling(c, shots[i]).Err?)
      && (own.Err? ==> own.error == MissingHeader || own.error == UndecodableHeader)
  {
    StackShape(c, shots, expected);
  }

  /** What a caller can see in the two headers and the samples: the same time axis, and
      the same volts, because gain and offset are equal, or there are no samples, or all
      samples are one code that both scalings send to the same voltage. */
  predicate SameTrace(raw: seq<int>, own: Scaling, used: Scaling) {
    && own.dt == used.dt && own.t0 == used.t0
    && ((own.gain == used.gain && own.offset == used.offset) || raw == []
        || ((forall i | 0 <= i < |raw| :: raw[i] == raw[0])
            && raw[0] as real * own.gain - own.offset == raw[0] as real * used.gain - used.offset))
  }

  /** Two codes on which two scalings agree determine gain and offset. */
  lemma TwoCodesFixScaling(x: int, y: int, a: Scaling, b: Scaling)
    requires x != y
    requires x as real * a.gain - a.offset == x as real * b.gain - b.offset
    requires y as real * a.gain - a.offset == y as real * b.gain - b.offset
    ensures a.gain == b.gain && a.offset == b.offset
  {
    var d, g := (x - y) as real, a.gain - b.gain;
    assert d * g == x as real * a.gain - x as real * b.gain - (y as real * a.gain - y as real * b.gain);
    assert d * g == 0.0 && d != 0.0;
    assert g == 0.0;
  }

  lemma SameVolts(raw: seq<int>, own: Scaling, used: Scaling)
    requires own.dt == used.dt && own.t0 == used.t0
    ensures Volts(raw, used) == Volts(raw, own) <==> SameTrace(raw, own, used)
  {
    if Volts(raw, used) == Volts(raw, own) && raw != [] {
      assert Volts(raw, own)[0] == Volts(raw, used)[0];
      if i :| 0 <= i < |raw| && raw[i] != raw[0] {
        assert Volts(raw, own)[i] == Volts(raw, used)[i];
        TwoCodesFixScaling(raw[i], raw[0], own, used);
      }
    }
    if SameTrace(raw, own, used) {
      forall i | 0 <= i < |raw| ensures Volts(raw, own)[i] == Volts(raw, used)[i] {
        assert raw[i] == raw[0] || own.gain == used.gain;
      }
    }
  }

  /** Without a shared scaling: volts, sample spacing and time offset of a row are the
      shot's own trace exactly when the two headers give the same trace. */
  lemma RowAgreesExactly(c: Channel, shots: seq<int>, expected: Option<nat>, i: nat)
    requires i < |shots| && ReadScopeData(c, shots[i]).Ok?
    requires RowWidth(c, shots, expected) == Some(|RawData(c, shots[i]).value|)
    ensures FirstScaling(c, shots).Some?
    ensures ReadShots(c, shots, expected).Some? && ReadShots(c, shots, expected).value.rows[i].Some?
    ensures var st := ReadShots(c, shots, expected).value;
      Trace(st.rows[i].value, st.dt, st.t0) == ReadScopeData(c, shots[i]).value
      <==> SameTrace(RawData(c, shots[i]).value, ChannelScaling(c, shots[i]).value, FirstScaling(c, shots).value)
  {
    NothingReadable(c, shots, expected);
    ReadableExactly(c, shots[i]);
    var own, used := ChannelScaling(c, shots[i]).value, FirstScaling(c, shots).value;
    if own.dt == used.dt && own.t0 == used.t0 {
      SameVolts(RawData(c, shots[i]).value, own, used);
    }
  }

  /** Two shots of one sample each, the second recorded with twice the gain. */
  function GainChanged(): Channel {
    Channel(map["scope" := map[1 := ShotGroup(false, map["C1" := [1]], map["C1" := [1]]),
                               2 := ShotGroup(false, map["C1" := [1]], map["C1" := [2]])]],
            "scope", "C1", header => if header == [] then None else Some(Scaling(header[0] as real, 0.0, 1.0, 0.0)))
  }

  /** The second row is scaled by the first shot's header: 1 volt instead of 2. */
  lemma WrongVolts()
    ensures ReadShots(GainChanged(), [1, 2], None) == Some(Stack([Some([1.0]), Some([1.0])], 1, 1.0, 0.0))
    ensures ReadScopeData(GainChanged(), 2) == Ok(Trace([2.0], 1.0, 0.0))
  {
    var c := GainChanged();
    assert RawData(c, 1) == Some([1]) && RawData(c, 2) == Some([1]);
    var used, own := Scaling(1.0, 0.0, 1.0, 0.0), Scaling(2.0, 0.0, 1.0, 0.0);
    assert ChannelScaling(c, 1) == Ok(used) && ChannelScaling(c, 2) == Ok(own);
    assert Volts([1], used) == [1.0] && Volts([1], own) == [2.0];
    assert FirstScaling(c, [1, 2]) == Some(used);
    assert [1, 2][..1] == [1] && [1][..0] == [];
    assert RowWidth(c, [1], None) == Some(1) && RowWidth(c, [1, 2], None) == Some(1);
    assert Rows(c, [1, 2], 1, used) == [Some([1.0]), Some([1.0])];
  }

  /** Reading in batches: with the width given, the stacks of two batches joined are the
      stack of the joined request. */
  lemma BatchesJoin(c: Channel, first: seq<int>, second: seq<int>, width: nat)
    requires SharedScaling(c)
    requires ReadShots(c, first, Some(width)).Some? && ReadShots(c, second, Some(width)).Some?
    ensures var (a, b) := (ReadShots(c, first, Some(width)).value, ReadShots(c, second, Some(width)).value);
      ReadShots(c, first + second, Some(width)) == Some(Stack(a.rows + b.rows, width, a.dt, a.t0))
  {
    var i := FirstScalingMeaning(c, first);
    var j := FirstScalingMeaning(c, first + second);
    assert (first + second)[i] == first[i];
    var k := FirstScalingMeaning(c, second);
    var u := RowWidthMeaning(c, first, Some(width));
    var v := RowWidthMeaning(c, second, Some(width));
    var w := RowWidthMeaning(c, first + second, Some(width));
    var s := FirstScaling(c, first).value;
    assert FirstScaling(c, second).value == s && FirstScaling(c, first + second).value == s;
    assert Rows(c, first + second, width, s) == Rows(c, first, width, s) + Rows(c, second, width, s);
  }
}
