/** Record batches and legacy message sets inside a Produce request (internal/broker/broker.go). */
module RecordBatch {
  import opened GoTypes
  import opened Binary
  import opened Wire

  /** `Millis` is time.UnixMilli of a batch's base timestamp, `Now` the wall clock at decoding. */
  datatype Stamp = Millis(ms: int) | Now

  datatype Message = Message(topic: bytes, partition: int, key: Option<bytes>, value: Option<bytes>, timestamp: Stamp)

  // ---------- What the decoders read ----------

  /** `n` headers, each two nullable byte strings that are thrown away. */
  function HeadersAt(b: bytes, p: nat, n: nat): (r: Outcome<nat>)
    requires p <= |b|
    ensures r.Ret? ==> p <= r.value <= |b|
    decreases n
  {
    if n == 0 then Ret(p)
    else
      var (_, q) :- VarBytesAt(b, p);
      var (_, q') :- VarBytesAt(b, q);
      HeadersAt(b, q', n - 1)
  }

  /** Length, attributes and the two deltas of a record, all thrown away. */
  function PrologueAt(b: bytes, p: nat): (q: nat)
    requires p <= |b|
    ensures p <= q <= |b|
    ensures p < |b| ==> p < q
  {
    var p1 := VarAt(b, p).1;
    var p2 := Skip(b, p1, 1);
    var p3 := VarAt(b, p2).1;
    VarAt(b, p3).1
  }

  /** Key and value of one record. */
  function RecordAt(b: bytes, p: nat): (r: Outcome<((Option<bytes>, Option<bytes>), nat)>)
    requires p <= |b|
    ensures r.Ret? ==> p <= r.value.1 <= |b|
    ensures r.Ret? && p < |b| ==> p < r.value.1
  {
    var (key, p1) :- VarBytesAt(b, PrologueAt(b, p));
    var (value, p2) :- VarBytesAt(b, p1);
    var (h, p3) := VarAt(b, p2);
    var q :- HeadersAt(b, p3, if h > 0 then h else 0);
    Ret(((key, value), q))
  }

  /** At most `n` records, fewer when the buffer ends first. */
  function RecordsAt(b: bytes, p: nat, n: nat, topic: bytes, partition: int, stamp: Stamp)
    : (r: Outcome<(seq<Message>, nat)>)
    requires p <= |b|
    ensures r.Ret? ==> p <= r.value.1 <= |b|
    decreases n
  {
    if n == 0 || p >= |b| then Ret(([], p))
    else
      var ((key, value), q) :- RecordAt(b, p);
      var (ms, q') :- RecordsAt(b, q, n - 1, topic, partition, stamp);
      Ret(([Message(topic, partition, key, value, stamp)] + ms, q'))
  }

  /** A magic-2 batch after its magic byte. The layout has no CRC between magic and attributes. */
  function BatchV2At(b: bytes, p: nat, topic: bytes, partition: int): (r: Outcome<(seq<Message>, nat)>)
    requires p <= |b|
    ensures r.Ret? ==> p <= r.value.1 <= |b|
  {
    var p1 := Skip(b, Skip(b, p, 2), 4);
    var (base, p2) := IntAt(b, p1, 8);
    var p3 := Skip(b, Skip(b, Skip(b, Skip(b, p2, 8), 8), 2), 4);
    var (n, p4) := IntAt(b, p3, 4);
    // A negative capacity stops `make`.
    if n < 0 then Fault else RecordsAt(b, p4, n, topic, partition, Millis(base))
  }

  /** A legacy message set: size-prefixed messages up to the first one not wholly present. */
  function LegacyAt(b: bytes, p: nat, topic: bytes, partition: int): (r: (seq<Message>, nat))
    requires p <= |b|
    ensures p <= r.1 <= |b|
    decreases |b| - p
  {
    if |b| - p < 12 then ([], p)
    else
      var (size, p1) := IntAt(b, Skip(b, p, 8), 4);
      if size <= 0 || size > |b| - p1 then ([], p1)
      else
        var (key, p2) := BytesAt(b, Skip(b, Skip(b, Skip(b, p1, 4), 1), 1));
        var (value, p3) := BytesAt(b, p2);
        var (ms, q) := LegacyAt(b, p3, topic, partition);
        ([Message(topic, partition, key, value, Now)] + ms, q)
  }

  /** A partition's records in either format, told apart by the magic byte. */
  function BatchAt(b: bytes, p: nat, topic: bytes, partition: int): (r: Outcome<(seq<Message>, nat)>)
    requires p <= |b|
    ensures r.Ret? ==> p <= r.value.1 <= |b|
  {
    if |b| - p < 17 then Ret(([], p))
    else
      var (magic, q) := IntAt(b, Skip(b, Skip(b, Skip(b, p, 8), 4), 4), 1);
      if magic == 2 then BatchV2At(b, q, topic, partition) else Ret(LegacyAt(b, p, topic, partition))
  }

  // ---------- The decoders ----------

  method DecodeRecordBatch(r: Reader, topic: bytes, partition: int) returns (res: Outcome<seq<Message>>)
    requires r.Valid()
    modifies r
    ensures r.Valid() && Does(BatchAt(r.buf, old(r.pos), topic, partition), res, r.pos)
  {
    if r.Remaining() < 17 {
      return Ret([]);
    }
    var pos := r.pos;
    var _ := r.ReadInt(8);
    var _ := r.ReadInt(4);
    var _ := r.ReadInt(4);
    var magic := r.ReadInt(1);
    if magic == 2 {
      res := DecodeRecordBatchV2(r, topic, partition);
      return;
    }
    r.pos := pos;
    var msgs := DecodeLegacyMessageSet(r, topic, partition);
    res := Ret(msgs);
  }

  method DecodeRecordBatchV2(r: Reader, topic: bytes, partition: int) returns (res: Outcome<seq<Message>>)
    requires r.Valid()
    modifies r
    ensures r.Valid() && Does(BatchV2At(r.buf, old(r.pos), topic, partition), res, r.pos)
  {
    var _ := r.ReadInt(2);
    var _ := r.ReadInt(4);
    var baseTimestamp := r.ReadInt(8);
    var _ := r.ReadInt(8);
    var _ := r.ReadInt(8);
    var _ := r.ReadInt(2);
    var _ := r.ReadInt(4);
    var nRecords := r.ReadInt(4);
    if nRecords < 0 {
      return Fault;
    }
    res := DecodeRecords(r, nRecords, topic, partition, Millis(baseTimestamp));
  }

  /** The record loop of a magic-2 batch. */
  method DecodeRecords(r: Reader, nRecords: nat, topic: bytes, partition: int, stamp: Stamp)
    returns (res: Outcome<seq<Message>>)
    requires r.Valid()
    modifies r
    ensures r.Valid() && Does(RecordsAt(r.buf, old(r.pos), nRecords, topic, partition, stamp), res, r.pos)
  {
    hide RecordAt;
    ghost var whole := RecordsAt(r.buf, r.pos, nRecords, topic, partition, stamp);
    var msgs: seq<Message> := [];
    assert whole.Ret? ==> [] + whole.value.0 == whole.value.0;
    var i := 0;
    while i < nRecords && r.Remaining() > 0
      invariant r.Valid() && 0 <= i <= nRecords
      invariant Continues(msgs, RecordsAt(r.buf, r.pos, nRecords - i, topic, partition, stamp), whole)
    {
      RecordsStep(r.buf, r.pos, nRecords - i, topic, partition, stamp, msgs, whole);
      var kv :- DecodeRecord(r);
      msgs := msgs + [Message(topic, partition, kv.0, kv.1, stamp)];
      i := i + 1;
    }
    assert msgs + [] == msgs;
    res := Ret(msgs);
  }

  /** Having `done` records and still to read `rest` amounts to `whole`. */
  ghost predicate Continues(done: seq<Message>, rest: Outcome<(seq<Message>, nat)>,
                            whole: Outcome<(seq<Message>, nat)>) {
    match rest
    case Fault => whole.Fault?
    case Ret((ms, q)) => whole == Ret((done + ms, q))
  }

  lemma RecordsStep(b: bytes, p: nat, n: nat, topic: bytes, partition: int, stamp: Stamp, done: seq<Message>,
                    whole: Outcome<(seq<Message>, nat)>)
    requires n > 0 && p < |b|
    requires Continues(done, RecordsAt(b, p, n, topic, partition, stamp), whole)
    ensures match RecordAt(b, p)
            case Fault => whole.Fault?
            case Ret(((key, value), q)) =>
              Continues(done + [Message(topic, partition, key, value, stamp)],
                        RecordsAt(b, q, n - 1, topic, partition, stamp), whole)
  {
    hide RecordAt;
    if RecordAt(b, p).Ret? {
      var ((key, value), q) := RecordAt(b, p).value;
      var m := Message(topic, partition, key, value, stamp);
      var rest := RecordsAt(b, q, n - 1, topic, partition, stamp);
      if rest.Ret? {
        assert (done + [m]) + rest.value.0 == done + ([m] + rest.value.0);
      }
    }
  }

  method DecodeRecord(r: Reader) returns (res: Outcome<(Option<bytes>, Option<bytes>)>)
    requires r.Valid()
    modifies r
    ensures r.Valid() && Does(RecordAt(r.buf, old(r.pos)), res, r.pos)
  {
    hide VarAt, IntAt, VarBytesAt, HeadersAt;
    var _ := r.ReadVarint();
    var _ := r.ReadInt(1);
    var _ := r.ReadVarint();
    var _ := r.ReadVarint();
    var key :- r.ReadVarBytes();
    var value :- r.ReadVarBytes();
    var nH := r.ReadVarint();
    var _ :- SkipHeaders(r, nH);
    res := Ret((key, value));
  }

  /** The header loop of a record. */
  method SkipHeaders(r: Reader, nH: int64) returns (res: Outcome<()>)
    requires r.Valid()
    modifies r
    ensures r.Valid()
    ensures match HeadersAt(r.buf, old(r.pos), if nH > 0 then nH else 0)
            case Fault => res.Fault?
            case Ret(q) => res == Ret(()) && r.pos == q
  {
    hide VarBytesAt;
    ghost var whole := HeadersAt(r.buf, r.pos, if nH > 0 then nH else 0);
    var h := 0;
    while h < nH
      invariant r.Valid() && 0 <= h && (h <= nH || h == 0)
      invariant HeadersAt(r.buf, r.pos, if nH > h then nH - h else 0) == whole
    {
      var _ :- r.ReadVarBytes();
      var _ :- r.ReadVarBytes();
      h := h + 1;
    }
    res := Ret(());
  }

  /** One iteration of the legacy loop, seen from its specification. */
  lemma LegacyStep(b: bytes, p: nat, topic: bytes, partition: int, done: seq<Message>, m: Message, p3: nat)
    requires p <= |b| && p3 <= |b|
    requires LegacyAt(b, p, topic, partition) ==
             var (ms, q) := LegacyAt(b, p3, topic, partition); ([m] + ms, q)
    ensures done + LegacyAt(b, p, topic, partition).0 == (done + [m]) + LegacyAt(b, p3, topic, partition).0
  {
  }

  method DecodeLegacyMessageSet(r: Reader, topic: bytes, partition: int) returns (msgs: seq<Message>)
    requires r.Valid()
    modifies r
    ensures r.Valid() && (msgs, r.pos) == LegacyAt(r.buf, old(r.pos), topic, partition)
  {
    msgs := [];
    assert msgs + LegacyAt(r.buf, r.pos, topic, partition).0 == LegacyAt(r.buf, r.pos, topic, partition).0;
    while r.Remaining() >= 12
      invariant r.Valid()
      invariant var (ms, q) := LegacyAt(r.buf, r.pos, topic, partition);
                (msgs + ms, q) == LegacyAt(r.buf, old(r.pos), topic, partition)
      decreases |r.buf| - r.pos
    {
      ghost var before := r.pos;
      var _ := r.ReadInt(8);
      var size := r.ReadInt(4);
      if size <= 0 || size > r.Remaining() {
        assert msgs + [] == msgs;
        return;
      }
      var _ := r.ReadInt(4);
      var _ := r.ReadInt(1);
      var _ := r.ReadInt(1);
      var key := r.ReadBytes();
      var value := r.ReadBytes();
      var m := Message(topic, partition, key, value, Now);
      LegacyStep(r.buf, before, topic, partition, msgs, m, r.pos);
      msgs := msgs + [m];
    }
    assert msgs + [] == msgs;
  }
}
