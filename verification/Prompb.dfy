/** The remote_write protobuf encoder (pkg/prompb/prompb.go) and a decoder that inverts it. */
module Prompb {
  import opened GoTypes
  import opened Binary
  import opened Wire

  datatype Label = Label(name: bytes, value: bytes)

  /** The value is the 64-bit pattern of the float. */
  datatype Sample = Sample(value: uint64, timestamp: int64)

  datatype TimeSeries = TimeSeries(labels: seq<Label>, samples: seq<Sample>)

  datatype WriteRequest = WriteRequest(timeseries: seq<TimeSeries>)

  // ---------- Protocol Buffers fields ----------

  datatype Payload = Varint(v: uint64) | Fixed64(bits: uint64) | Len(data: bytes) | Fixed32(raw: bytes)

  datatype Field = Field(num: nat, payload: Payload)

  function WireType(p: Payload): nat {
    match p
    case Varint(_) => 0
    case Fixed64(_) => 1
    case Len(_) => 2
    case Fixed32(_) => 5
  }

  function PutPayload(p: Payload): bytes {
    match p
    case Varint(v) => PutUvarint(v)
    case Fixed64(bits) => PutLittle(bits, 8)
    case Len(data) => PutLength(|data|) + data
    case Fixed32(raw) => raw
  }

  function PutField(f: Field): (b: bytes)
    ensures |b| > 0
  {
    PutUvarint(8 * f.num + WireType(f.payload)) + PutPayload(f.payload)
  }

  function PutFields(fs: seq<Field>): bytes {
    if fs == [] then [] else PutField(fs[0]) + PutFields(fs[1..])
  }

  /** A varint as a strict reader takes it; "too short" and "overflow" reject. */
  function StrictUvarint(b: bytes, p: nat): (r: Option<(uint64, nat)>)
    requires p <= |b|
    ensures r.Some? ==> p < r.value.1 <= |b|
  {
    var (v, n) := UvarintAt(b, p);
    if n <= 0 then None else Some((v, p + n))
  }

  function ParsePayload(b: bytes, p: nat, wireType: nat): (r: Option<(Payload, nat)>)
    requires p <= |b|
    ensures r.Some? ==> p <= r.value.1 <= |b|
  {
    if wireType == 0 then
      var (v, q) :- StrictUvarint(b, p);
      Some((Varint(v), q))
    else if wireType == 1 then
      if p + 8 > |b| then None else Some((Fixed64(Little(b[p..p + 8]) % INT64_SPAN), p + 8))
    else if wireType == 2 then
      var (n, q) :- StrictUvarint(b, p);
      if q + n > |b| then None else Some((Len(b[q..q + n]), q + n))
    else if wireType == 5 then
      if p + 4 > |b| then None else Some((Fixed32(b[p..p + 4]), p + 4))
    else None
  }

  function ParseField(b: bytes, p: nat): (r: Option<(Field, nat)>)
    requires p <= |b|
    ensures r.Some? ==> p < r.value.1 <= |b|
  {
    var (tag, q) :- StrictUvarint(b, p);
    if tag / 8 == 0 then None
    else
      var (payload, q') :- ParsePayload(b, q, tag % 8);
      Some((Field(tag / 8, payload), q'))
  }

  /** Sections "Base 128 Varints" and "Length-Delimited Records" of the Protocol Buffers encoding guide. */
  function ParseFields(b: bytes, p: nat): Option<seq<Field>>
    requires p <= |b|
    decreases |b| - p
  {
    if p == |b| then Some([])
    else
      var (f, q) :- ParseField(b, p);
      var rest :- ParseFields(b, q);
      Some([f] + rest)
  }

  /** The fields a message may hold. */
  predicate FieldOk(f: Field) {
    && 0 < f.num < 0x2000_0000
    && (f.payload.Len? ==> |f.payload.data| < INT64_SPAN)
    && (f.payload.Fixed32? ==> |f.payload.raw| == 4)
  }

  lemma LenReadBack(b: bytes, p: nat, data: bytes)
    requires At(b, p, PutPayload(Len(data))) && |data| < INT64_SPAN
    ensures ParsePayload(b, p, 2) == Some((Len(data), p + |PutPayload(Len(data))|))
  {
    hide PutUvarint, UvarintAt;
    assert At(b, p, PutUvarint(|data|) + data);
    AtSplit(b, p, PutUvarint(|data|), data);
    UvarintRoundTrip(b, p, |data|);
  }

  lemma Fixed64ReadBack(b: bytes, p: nat, bits: uint64)
    requires At(b, p, PutLittle(bits, 8))
    ensures ParsePayload(b, p, 1) == Some((Fixed64(bits), p + 8))
  {
    hide PutLittle, Little;
    SpanIsPow256(8);
    LittleOfPut(bits, 8);
  }

  lemma PayloadReadBack(b: bytes, p: nat, x: Payload)
    requires At(b, p, PutPayload(x)) && FieldOk(Field(1, x))
    ensures ParsePayload(b, p, WireType(x)) == Some((x, p + |PutPayload(x)|))
  {
    hide PutUvarint, UvarintAt, PutLittle, PutLength;
    match x {
      case Varint(v) => UvarintRoundTrip(b, p, v);
      case Fixed64(bits) => Fixed64ReadBack(b, p, bits);
      case Len(data) => LenReadBack(b, p, data);
      case Fixed32(raw) =>
    }
  }

  lemma FieldReadBack(b: bytes, p: nat, f: Field)
    requires At(b, p, PutField(f)) && FieldOk(f)
    ensures ParseField(b, p) == Some((f, p + |PutField(f)|))
  {
    hide At, PutUvarint, PutPayload, ParsePayload, UvarintAt;
    var tag := 8 * f.num + WireType(f.payload);
    AtAll(b);
    UvarintRoundTrip(b, p, tag);
    assert tag / 8 == f.num && tag % 8 == WireType(f.payload);
    PayloadReadBack(b, p + |PutUvarint(tag)|, f.payload);
  }

  lemma {:induction false} FieldsReadBack(b: bytes, p: nat, fs: seq<Field>)
    requires At(b, p, PutFields(fs)) && p + |PutFields(fs)| == |b| && forall i :: 0 <= i < |fs| ==> FieldOk(fs[i])
    ensures ParseFields(b, p) == Some(fs)
    decreases |fs|
  {
    hide At, PutField, ParseField, FieldOk;
    AtAll(b);
    if fs != [] {
      FieldReadBack(b, p, fs[0]);
      FieldsReadBack(b, p + |PutField(fs[0])|, fs[1..]);
      assert [fs[0]] + fs[1..] == fs;
    }
  }

  /** The generic reader recovers every list of fields. */
  lemma FieldsRoundTrip(fs: seq<Field>)
    requires forall i :: 0 <= i < |fs| ==> FieldOk(fs[i])
    ensures ParseFields(PutFields(fs), 0) == Some(fs)
  {
    hide PutFields, ParseFields;
    FieldsReadBack(PutFields(fs), 0, fs);
  }

  lemma {:induction false} PayloadFits(fs: seq<Field>, i: nat)
    requires i < |fs| && fs[i].payload.Len?
    ensures |fs[i].payload.data| <= |PutFields(fs)|
  {
    if i > 0 {
      PayloadFits(fs[1..], i - 1);
    }
  }

  // ---------- The messages as fields ----------

  function LabelFields(l: Label): seq<Field> {
    [Field(1, Len(l.name)), Field(2, Len(l.value))]
  }

  /** The timestamp is a protobuf int64: plain two's complement, not zig-zag. */
  function SampleFields(s: Sample): seq<Field> {
    [Field(1, Fixed64(s.value)), Field(2, Varint(s.timestamp % INT64_SPAN))]
  }

  function SeriesFields(ts: TimeSeries): seq<Field> {
    seq(|ts.labels|, i requires 0 <= i < |ts.labels| => Field(1, Len(PutFields(LabelFields(ts.labels[i]))))) +
    seq(|ts.samples|, i requires 0 <= i < |ts.samples| => Field(2, Len(PutFields(SampleFields(ts.samples[i])))))
  }

  function RequestFields(r: WriteRequest): seq<Field> {
    seq(|r.timeseries|, i requires 0 <= i < |r.timeseries| => Field(1, Len(PutFields(SeriesFields(r.timeseries[i])))))
  }

  function PutRequest(r: WriteRequest): bytes {
    PutFields(RequestFields(r))
  }

  // ---------- A receiver's decoder ----------
  // Fields may come in any order, unknown ones are skipped, and of a repeated scalar the last one counts.

  function LastData(fs: seq<Field>, num: nat): bytes {
    if fs == [] then []
    else
      var f := fs[|fs| - 1];
      if f.num == num && f.payload.Len? then f.payload.data else LastData(fs[..|fs| - 1], num)
  }

  function LastBits(fs: seq<Field>, num: nat): uint64 {
    if fs == [] then 0
    else
      var f := fs[|fs| - 1];
      if f.num == num && f.payload.Fixed64? then f.payload.bits else LastBits(fs[..|fs| - 1], num)
  }

  function LastVarint(fs: seq<Field>, num: nat): uint64 {
    if fs == [] then 0
    else
      var f := fs[|fs| - 1];
      if f.num == num && f.payload.Varint? then f.payload.v else LastVarint(fs[..|fs| - 1], num)
  }

  function DecodeLabel(b: bytes): Option<Label> {
    var fs :- ParseFields(b, 0);
    Some(Label(LastData(fs, 1), LastData(fs, 2)))
  }

  function DecodeSample(b: bytes): Option<Sample> {
    var fs :- ParseFields(b, 0);
    Some(Sample(LastBits(fs, 1), ToInt64(LastVarint(fs, 2))))
  }

  /** Decodes every embedded message with field number `num`, in order. */
  function Embedded<T>(fs: seq<Field>, num: nat, decode: bytes -> Option<T>): Option<seq<T>> {
    if fs == [] then Some([])
    else if fs[0].num == num && fs[0].payload.Len? then
      var x :- decode(fs[0].payload.data);
      var rest :- Embedded(fs[1..], num, decode);
      Some([x] + rest)
    else Embedded(fs[1..], num, decode)
  }

  function DecodeSeries(b: bytes): Option<TimeSeries> {
    var fs :- ParseFields(b, 0);
    var labels :- Embedded(fs, 1, DecodeLabel);
    var samples :- Embedded(fs, 2, DecodeSample);
    Some(TimeSeries(labels, samples))
  }

  function DecodeRequest(b: bytes): Option<WriteRequest> {
    var fs :- ParseFields(b, 0);
    var timeseries :- Embedded(fs, 1, DecodeSeries);
    Some(WriteRequest(timeseries))
  }

  // ---------- The decoder inverts the encoder ----------

  lemma LabelRoundTrip(l: Label)
    requires |PutFields(LabelFields(l))| <= MAX_INT
    ensures DecodeLabel(PutFields(LabelFields(l))) == Some(l)
  {
    hide PutFields, ParseFields;
    var fs := LabelFields(l);
    PayloadFits(fs, 0);
    PayloadFits(fs, 1);
    FieldsRoundTrip(fs);
    assert fs[..1] == [fs[0]] && LastData(fs, 2) == l.value && LastData([fs[0]], 1) == l.name;
  }

  lemma SampleRoundTrip(s: Sample)
    ensures DecodeSample(PutFields(SampleFields(s))) == Some(s)
  {
    hide PutFields, ParseFields;
    var fs := SampleFields(s);
    FieldsRoundTrip(fs);
    assert fs[..1] == [fs[0]] && LastVarint(fs, 2) == s.timestamp % INT64_SPAN && LastBits([fs[0]], 1) == s.value;
  }

  /** Embedding messages that decode, then collecting them, gives them back. */
  lemma {:induction false} EmbeddedReadBack<T>(fs: seq<Field>, num: nat, decode: bytes -> Option<T>, xs: seq<T>)
    requires |fs| == |xs|
    requires forall i :: 0 <= i < |xs| ==>
               fs[i].num == num && fs[i].payload.Len? && decode(fs[i].payload.data) == Some(xs[i])
    ensures Embedded(fs, num, decode) == Some(xs)
    decreases |fs|
  {
    if xs != [] {
      EmbeddedReadBack(fs[1..], num, decode, xs[1..]);
      assert [xs[0]] + xs[1..] == xs;
    }
  }

  /** Fields with other numbers do not interfere, before or after. */
  lemma {:induction false} EmbeddedSkips<T>(head: seq<Field>, fs: seq<Field>, tail: seq<Field>, num: nat,
                                            decode: bytes -> Option<T>)
    requires forall i :: 0 <= i < |head| ==> head[i].num != num
    requires forall i :: 0 <= i < |tail| ==> tail[i].num != num
    ensures Embedded(head + fs + tail, num, decode) == Embedded(fs, num, decode)
    decreases |head| + |fs| + |tail|
  {
    var all := head + fs + tail;
    if head != [] {
      assert all[1..] == head[1..] + fs + tail;
      EmbeddedSkips(head[1..], fs, tail, num, decode);
    } else if fs != [] {
      assert all[0] == fs[0] && all[1..] == [] + fs[1..] + tail;
      EmbeddedSkips([], fs[1..], tail, num, decode);
    } else if tail != [] {
      assert all[0] == tail[0] && all[1..] == [] + [] + tail[1..];
      EmbeddedSkips([], [], tail[1..], num, decode);
    }
  }

  /** The embedded labels of a series, then its embedded samples. */
  lemma SeriesLabels(ts: TimeSeries)
    requires |PutFields(SeriesFields(ts))| <= MAX_INT
    ensures Embedded(SeriesFields(ts), 1, DecodeLabel) == Some(ts.labels)
  {
    hide PutFields, DecodeLabel, LabelFields, SampleFields;
    var fs, n := SeriesFields(ts), |ts.labels|;
    forall i | 0 <= i < n
      ensures DecodeLabel(fs[i].payload.data) == Some(ts.labels[i])
    {
      PayloadFits(fs, i);
      LabelRoundTrip(ts.labels[i]);
    }
    EmbeddedReadBack(fs[..n], 1, DecodeLabel, ts.labels);
    EmbeddedSkips([], fs[..n], fs[n..], 1, DecodeLabel);
    assert fs == [] + fs[..n] + fs[n..];
  }

  lemma SeriesSamples(ts: TimeSeries)
    ensures Embedded(SeriesFields(ts), 2, DecodeSample) == Some(ts.samples)
  {
    hide PutFields, DecodeSample, LabelFields, SampleFields;
    var fs, n := SeriesFields(ts), |ts.labels|;
    forall i | 0 <= i < |ts.samples|
      ensures DecodeSample(fs[n + i].payload.data) == Some(ts.samples[i])
    {
      SampleRoundTrip(ts.samples[i]);
    }
    EmbeddedReadBack(fs[n..], 2, DecodeSample, ts.samples);
    EmbeddedSkips(fs[..n], fs[n..], [], 2, DecodeSample);
    assert fs == fs[..n] + fs[n..] + [];
  }

  lemma SeriesRoundTrip(ts: TimeSeries)
    requires |PutFields(SeriesFields(ts))| <= MAX_INT
    ensures DecodeSeries(PutFields(SeriesFields(ts))) == Some(ts)
  {
    hide PutFields, ParseFields, Embedded;
    var fs := SeriesFields(ts);
    forall i | 0 <= i < |fs|
      ensures FieldOk(fs[i])
    {
      PayloadFits(fs, i);
    }
    FieldsRoundTrip(fs);
    SeriesLabels(ts);
    SeriesSamples(ts);
  }

  /**
   * A receiver gets back the same series: labels, value bits and timestamps, negative ones too. The bound is that the
   * encoding fits in memory.
   */
  lemma RequestRoundTrip(r: WriteRequest)
    requires |PutRequest(r)| <= MAX_INT
    ensures DecodeRequest(PutRequest(r)) == Some(r)
  {
    hide PutFields, ParseFields, DecodeSeries, SeriesFields;
    var fs := RequestFields(r);
    forall i | 0 <= i < |fs|
      ensures FieldOk(fs[i]) && DecodeSeries(fs[i].payload.data) == Some(r.timeseries[i])
    {
      PayloadFits(fs, i);
      SeriesRoundTrip(r.timeseries[i]);
    }
    FieldsRoundTrip(fs);
    EmbeddedReadBack(fs, 1, DecodeSeries, r.timeseries);
  }

  /** Different requests never share an encoding. */
  lemma EncodingInjective(r: WriteRequest, r': WriteRequest)
    requires |PutRequest(r)| <= MAX_INT && PutRequest(r) == PutRequest(r')
    ensures r == r'
  {
    RequestRoundTrip(r);
    RequestRoundTrip(r');
  }

  // ---------- The encoder ----------

  method AppendVarint(buf: bytes, v: uint64) returns (out: bytes)
    ensures out == buf + PutUvarint(v)
  {
    var tmp := new byte[MAX_VARINT_LEN];
    var n := PutUvarintInto(tmp, v);
    out := buf + tmp[..n];
  }

  /** The shift drops the high bits of the field number; for a wire type of three bits the bits do not overlap. */
  method AppendTag(buf: bytes, fieldNum: uint64, wireType: uint64) returns (out: bytes)
    ensures out == buf + PutUvarint(Or(8 * fieldNum % INT64_SPAN, wireType))
    ensures 8 * fieldNum < INT64_SPAN && wireType < 8 ==> out == buf + PutUvarint(8 * fieldNum + wireType)
  {
    hide Or, PutUvarint;
    SpanIsPow256(8);
    OrFits(8 * fieldNum % INT64_SPAN, wireType, 8);
    if wireType < 8 {
      OrOfLowBits(fieldNum, wireType);
    }
    out := AppendVarint(buf, Or(8 * fieldNum % INT64_SPAN, wireType));
  }

  method AppendString(buf: bytes, s: bytes) returns (out: bytes)
    ensures out == buf + PutPayload(Len(s))
  {
    out := AppendVarint(buf, |s| % INT64_SPAN);
    assert out + s == buf + (PutLength(|s|) + s);
    out := out + s;
  }

  /** A tag and the length-delimited bytes after it. */
  method AppendEmbedded(buf: bytes, fieldNum: nat, data: bytes) returns (out: bytes)
    requires fieldNum < 16
    ensures out == buf + PutField(Field(fieldNum, Len(data)))
  {
    hide PutUvarint, PutPayload;
    out := AppendTag(buf, fieldNum, 2);
    out := AppendString(out, data);
    assert out == buf + (PutUvarint(8 * fieldNum + 2) + PutPayload(Len(data)));
  }

  lemma TwoFields(f: Field, g: Field)
    ensures PutFields([f, g]) == PutField(f) + PutField(g)
  {
    hide PutField;
    assert [f, g][1..] == [g] && [g][1..] == [];
    assert PutFields([g]) == PutField(g) + [];
  }

  method MarshalLabel(l: Label) returns (res: Option<bytes>)
    ensures res == if l.name == [] then None else Some(PutFields(LabelFields(l)))
  {
    hide PutField, PutFields;
    if l.name == [] {
      return None;
    }
    var buf := AppendEmbedded([], 1, l.name);
    buf := AppendEmbedded(buf, 2, l.value);
    TwoFields(Field(1, Len(l.name)), Field(2, Len(l.value)));
    assert [] + PutField(Field(1, Len(l.name))) == PutField(Field(1, Len(l.name)));
    res := Some(buf);
  }

  method MarshalSample(s: Sample) returns (out: bytes)
    ensures out == PutFields(SampleFields(s))
  {
    hide PutUvarint, PutLittle, PutFields;
    var buf := AppendTag([], 1, 1);
    buf := buf + PutLittle(s.value, 8);
    assert buf == PutField(Field(1, Fixed64(s.value)));
    var tagged := AppendTag(buf, 2, 0);
    out := AppendVarint(tagged, s.timestamp % INT64_SPAN);
    assert out == buf + PutField(Field(2, Varint(s.timestamp % INT64_SPAN)));
    TwoFields(Field(1, Fixed64(s.value)), Field(2, Varint(s.timestamp % INT64_SPAN)));
  }

  lemma {:induction false} PutFieldsAppend(fs: seq<Field>, f: Field)
    ensures PutFields(fs + [f]) == PutFields(fs) + PutField(f)
    decreases |fs|
  {
    hide PutField;
    if fs == [] {
      assert fs + [f] == [f] && PutFields([f]) == PutField(f) + [];
    } else {
      assert (fs + [f])[1..] == fs[1..] + [f];
      PutFieldsAppend(fs[1..], f);
    }
  }

  predicate HasEmptyName(labels: seq<Label>) {
    exists i :: 0 <= i < |labels| && labels[i].name == []
  }

  method MarshalTimeSeries(ts: TimeSeries) returns (res: Option<bytes>)
    ensures res == if HasEmptyName(ts.labels) then None else Some(PutFields(SeriesFields(ts)))
  {
    hide PutField, PutFields, LabelFields, SampleFields;
    ghost var fs, n := SeriesFields(ts), |ts.labels|;
    var buf: bytes := [];
    NoFields(fs);
    for i := 0 to |ts.labels|
      invariant buf == PutFields(fs[..i]) && forall k :: 0 <= k < i ==> ts.labels[k].name != []
    {
      var lblBytes := MarshalLabel(ts.labels[i]);
      if lblBytes.None? {
        return None;
      }
      buf := AppendEmbedded(buf, 1, lblBytes.value);
      OneMore(fs, i);
    }
    for i := 0 to |ts.samples|
      invariant buf == PutFields(fs[..n + i])
    {
      var sBytes := MarshalSample(ts.samples[i]);
      buf := AppendEmbedded(buf, 2, sBytes);
      OneMore(fs, n + i);
    }
    assert fs[..n + |ts.samples|] == fs;
    res := Some(buf);
  }

  lemma NoFields(fs: seq<Field>)
    ensures PutFields(fs[..0]) == []
  {
  }

  lemma OneMore(fs: seq<Field>, i: nat)
    requires i < |fs|
    ensures PutFields(fs[..i + 1]) == PutFields(fs[..i]) + PutField(fs[i])
  {
    hide PutField;
    assert fs[..i + 1] == fs[..i] + [fs[i]];
    PutFieldsAppend(fs[..i], fs[i]);
  }

  predicate Unmarshallable(r: WriteRequest) {
    exists i :: 0 <= i < |r.timeseries| && HasEmptyName(r.timeseries[i].labels)
  }

  /** Fails exactly when some label name is empty. */
  method Marshal(r: WriteRequest) returns (res: Option<bytes>)
    ensures res.None? <==> Unmarshallable(r)
    ensures res.Some? ==> res.value == PutRequest(r)
    ensures res.Some? && |res.value| <= MAX_INT ==> DecodeRequest(res.value) == Some(r)
  {
    hide PutField, PutFields, SeriesFields, HasEmptyName, DecodeRequest;
    ghost var fs := RequestFields(r);
    var buf: bytes := [];
    NoFields(fs);
    for i := 0 to |r.timeseries|
      invariant buf == PutFields(fs[..i]) && forall k :: 0 <= k < i ==> !HasEmptyName(r.timeseries[k].labels)
    {
      var tsBytes := MarshalTimeSeries(r.timeseries[i]);
      if tsBytes.None? {
        return None;
      }
      buf := AppendEmbedded(buf, 1, tsBytes.value);
      OneMore(fs, i);
    }
    assert fs[..|r.timeseries|] == fs;
    if |buf| <= MAX_INT {
      RequestRoundTrip(r);
    }
    res := Some(buf);
  }
}
