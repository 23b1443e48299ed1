/** What the record decoders recover from the layouts producers write, and how far they advance. */
module RecordBatchLaws {
  import opened GoTypes
  import opened Binary
  import opened Wire
  import opened RecordBatch

  // ---------- Progress ----------

  /** A batch never yields more messages than it announces, nor more than one per byte left. */
  lemma {:induction false} RecordCountBound(b: bytes, p: nat, n: nat, topic: bytes, partition: int, stamp: Stamp)
    requires p <= |b| && RecordsAt(b, p, n, topic, partition, stamp).Ret?
    ensures var (ms, q) := RecordsAt(b, p, n, topic, partition, stamp).value; |ms| <= n && |ms| <= q - p
    decreases n
  {
    hide RecordAt;
    if n > 0 && p < |b| {
      RecordCountBound(b, RecordAt(b, p).value.1, n - 1, topic, partition, stamp);
    }
  }

  /** Every legacy message costs at least its twelve-byte offset and size. */
  lemma {:induction false} LegacyCountBound(b: bytes, p: nat, topic: bytes, partition: int)
    requires p <= |b|
    ensures 12 * |LegacyAt(b, p, topic, partition).0| <= LegacyAt(b, p, topic, partition).1 - p
    decreases |b| - p
  {
    if |b| - p >= 12 {
      var (size, p1) := IntAt(b, Skip(b, p, 8), 4);
      if 0 < size <= |b| - p1 {
        var p2 := BytesAt(b, Skip(b, Skip(b, Skip(b, p1, 4), 1), 1)).1;
        LegacyCountBound(b, BytesAt(b, p2).1, topic, partition);
      }
    }
  }

  // ---------- Which format ----------

  /** Fewer than 17 bytes hold no batch; else the seventeenth tells: 2 is the batch format, all else the legacy one. */
  lemma FormatByMagic(b: bytes, p: nat, topic: bytes, partition: int)
    requires p <= |b|
    ensures |b| - p < 17 ==> BatchAt(b, p, topic, partition) == Ret(([], p))
    ensures |b| - p >= 17 && b[p + 16] == 2 ==>
              BatchAt(b, p, topic, partition) == BatchV2At(b, p + 17, topic, partition)
    ensures |b| - p >= 17 && b[p + 16] != 2 ==>
              BatchAt(b, p, topic, partition) == Ret(LegacyAt(b, p, topic, partition))
  {
    hide BatchV2At, LegacyAt;
    if |b| - p >= 17 {
      assert b[p + 16..p + 17] == [b[p + 16]];
      OneByte(b[p + 16]);
    }
  }

  lemma OneByte(c: byte)
    ensures GetInt([c]) == 2 <==> c == 2
  {
    assert [c][..0] == [];
    assert Big([c]) == c;
  }

  // ---------- Magic-2 batches in the layout the code reads ----------

  datatype WireRecord = WireRecord(length: int64, attributes: int, timestampDelta: int64, offsetDelta: int64,
                                   key: Option<bytes>, value: Option<bytes>,
                                   headers: seq<(Option<bytes>, Option<bytes>)>)

  datatype WireBatch = WireBatch(baseOffset: int, batchLength: int, leaderEpoch: int, attributes: int,
                                 lastOffsetDelta: int, baseTimestamp: int64, maxTimestamp: int,
                                 producerId: int, producerEpoch: int,
                                 baseSequence: int32, records: seq<WireRecord>)

  function PutHeaders(hs: seq<(Option<bytes>, Option<bytes>)>): bytes {
    if hs == [] then [] else PutVarBytes(hs[0].0) + (PutVarBytes(hs[0].1) + PutHeaders(hs[1..]))
  }

  /** The part of a record that its length counts. */
  function PutRecordBody(r: WireRecord): bytes {
    PutInt(r.attributes, 1) + (PutVarint(r.timestampDelta) + (PutVarint(r.offsetDelta) +
    (PutVarBytes(r.key) + (PutVarBytes(r.value) + (PutVarint(|r.headers|) + PutHeaders(r.headers))))))
  }

  function PutRecord(r: WireRecord): (b: bytes)
    ensures |b| > 0
  {
    PutVarint(r.length) + PutRecordBody(r)
  }

  function PutRecords(rs: seq<WireRecord>): bytes {
    if rs == [] then [] else PutRecord(rs[0]) + PutRecords(rs[1..])
  }

  /** From the attributes to the record count. */
  function PutBatchTail(wb: WireBatch): (b: bytes)
    ensures |b| == 40
  {
    PutInt(wb.attributes, 2) + (PutInt(wb.lastOffsetDelta, 4) + (PutInt(wb.baseTimestamp, 8) +
    (PutInt(wb.maxTimestamp, 8) + (PutInt(wb.producerId, 8) + (PutInt(wb.producerEpoch, 2) +
    (PutInt(wb.baseSequence, 4) + PutInt(|wb.records|, 4)))))))
  }

  function PutBatchHead(wb: WireBatch): (b: bytes)
    ensures |b| == 17
  {
    PutInt(wb.baseOffset, 8) + (PutInt(wb.batchLength, 4) + (PutInt(wb.leaderEpoch, 4) + PutInt(2, 1)))
  }

  function PutBatch(wb: WireBatch): bytes {
    PutBatchHead(wb) + (PutBatchTail(wb) + PutRecords(wb.records))
  }

  /** The messages a batch stands for. */
  function Messages(rs: seq<WireRecord>, topic: bytes, partition: int, stamp: Stamp): seq<Message> {
    seq(|rs|, i requires 0 <= i < |rs| => Message(topic, partition, rs[i].key, rs[i].value, stamp))
  }

  lemma {:induction false} HeadersReadBack(b: bytes, p: nat, hs: seq<(Option<bytes>, Option<bytes>)>)
    requires |b| <= MAX_INT && At(b, p, PutHeaders(hs))
    ensures HeadersAt(b, p, |hs|) == Ret(p + |PutHeaders(hs)|)
    decreases |hs|
  {
    hide At, VarBytesAt, PutVarBytes;
    if hs != [] {
      AtAll(b);
      VarBytesReadBack(b, p, hs[0].0);
      VarBytesReadBack(b, p + |PutVarBytes(hs[0].0)|, hs[0].1);
      HeadersReadBack(b, p + |PutVarBytes(hs[0].0)| + |PutVarBytes(hs[0].1)|, hs[1..]);
    }
  }

  lemma RecordReadBack(b: bytes, p: nat, r: WireRecord)
    requires |b| <= MAX_INT && At(b, p, PutRecord(r)) && |r.headers| <= MAX_INT
    ensures RecordAt(b, p) == Ret(((r.key, r.value), p + |PutRecord(r)|))
  {
    hide At, VarBytesAt, PutVarBytes, VarAt, PutVarint, PutInt, HeadersAt, PutHeaders, IntAt;
    AtAll(b);
    VarReadBack(b, p, r.length);
    var p2 := p + |PutVarint(r.length)| + 1;
    VarReadBack(b, p2, r.timestampDelta);
    var p3 := p2 + |PutVarint(r.timestampDelta)|;
    VarReadBack(b, p3, r.offsetDelta);
    var p4 := p3 + |PutVarint(r.offsetDelta)|;
    VarBytesReadBack(b, p4, r.key);
    var p5 := p4 + |PutVarBytes(r.key)|;
    VarBytesReadBack(b, p5, r.value);
    var p6 := p5 + |PutVarBytes(r.value)|;
    VarReadBack(b, p6, |r.headers|);
    HeadersReadBack(b, p6 + |PutVarint(|r.headers|)|, r.headers);
  }

  /** A record whose header count is negative has no headers. */
  lemma NegativeHeaderCount(b: bytes, p: nat, r: WireRecord, n: int64)
    requires |b| <= MAX_INT && n < 0
    requires At(b, p, PutVarint(r.length) + (PutInt(r.attributes, 1) + (PutVarint(r.timestampDelta) +
                      (PutVarint(r.offsetDelta) + (PutVarBytes(r.key) + (PutVarBytes(r.value) + PutVarint(n)))))))
    ensures RecordAt(b, p).Ret? && RecordAt(b, p).value.0 == (r.key, r.value)
    ensures RecordAt(b, p).value.1 ==
            p + |PutVarint(r.length)| + 1 + |PutVarint(r.timestampDelta)| + |PutVarint(r.offsetDelta)| +
            |PutVarBytes(r.key)| + |PutVarBytes(r.value)| + |PutVarint(n)|
  {
    hide At, VarBytesAt, PutVarBytes, VarAt, PutVarint, PutInt, PutHeaders, IntAt;
    AtAll(b);
    VarReadBack(b, p, r.length);
    var p2 := p + |PutVarint(r.length)| + 1;
    VarReadBack(b, p2, r.timestampDelta);
    var p3 := p2 + |PutVarint(r.timestampDelta)|;
    VarReadBack(b, p3, r.offsetDelta);
    var p4 := p3 + |PutVarint(r.offsetDelta)|;
    VarBytesReadBack(b, p4, r.key);
    var p5 := p4 + |PutVarBytes(r.key)|;
    VarBytesReadBack(b, p5, r.value);
    VarReadBack(b, p5 + |PutVarBytes(r.value)|, n);
  }

  lemma {:induction false} RecordsReadBack(b: bytes, p: nat, rs: seq<WireRecord>, topic: bytes, partition: int,
                                           stamp: Stamp)
    requires |b| <= MAX_INT && At(b, p, PutRecords(rs))
    requires forall r :: r in rs ==> |r.headers| <= MAX_INT
    ensures RecordsAt(b, p, |rs|, topic, partition, stamp) ==
            Ret((Messages(rs, topic, partition, stamp), p + |PutRecords(rs)|))
    decreases |rs|
  {
    hide At, RecordAt, PutRecord;
    if rs != [] {
      AtSplit(b, p, PutRecord(rs[0]), PutRecords(rs[1..]));
      RecordReadBack(b, p, rs[0]);
      RecordsReadBack(b, p + |PutRecord(rs[0])|, rs[1..], topic, partition, stamp);
      assert Messages(rs, topic, partition, stamp) ==
             [Message(topic, partition, rs[0].key, rs[0].value, stamp)] + Messages(rs[1..], topic, partition, stamp);
    }
  }

  /** What a batch tail at `p` tells BatchV2At. */
  lemma TailReadBack(b: bytes, p: nat, wb: WireBatch, topic: bytes, partition: int)
    requires At(b, p, PutBatchTail(wb)) && |wb.records| < 0x8000_0000
    ensures BatchV2At(b, p, topic, partition) ==
            RecordsAt(b, p + 40, |wb.records|, topic, partition, Millis(wb.baseTimestamp))
  {
    hide At, RecordsAt, IntAt, PutInt;
    AtAll(b);
    IntReadBack(b, p + 6, wb.baseTimestamp, 8);
    IntReadBack(b, p + 36, |wb.records|, 4);
  }

  lemma HeadReadBack(b: bytes, p: nat, wb: WireBatch, topic: bytes, partition: int)
    requires At(b, p, PutBatchHead(wb))
    ensures BatchAt(b, p, topic, partition) == BatchV2At(b, p + 17, topic, partition)
  {
    AtAll(b);
    IntReadBack(b, p + 16, 2, 1);
  }

  /** Every batch in the layout the code reads yields exactly its records, and the cursor ends right behind it. */
  lemma BatchReadBack(b: bytes, p: nat, wb: WireBatch, topic: bytes, partition: int)
    requires |b| <= MAX_INT && At(b, p, PutBatch(wb)) && |wb.records| < 0x8000_0000
    requires forall r :: r in wb.records ==> |r.headers| <= MAX_INT
    ensures BatchAt(b, p, topic, partition) ==
            Ret((Messages(wb.records, topic, partition, Millis(wb.baseTimestamp)), p + |PutBatch(wb)|))
  {
    hide At, BatchAt, BatchV2At, RecordsAt, PutBatchHead, PutBatchTail, PutRecords;
    AtAll(b);
    HeadReadBack(b, p, wb, topic, partition);
    TailReadBack(b, p + 17, wb, topic, partition);
    RecordsReadBack(b, p + 57, wb.records, topic, partition, Millis(wb.baseTimestamp));
  }

  // ---------- Legacy message sets cut short ----------

  /** A magic-0 message (section 5.3.3 "Old Message Format" of the Apache Kafka documentation). */
  datatype OldMessage = OldMessage(offset: int, crc: int, attributes: int, key: Option<bytes>, value: Option<bytes>)

  function OldBody(m: OldMessage): bytes {
    PutInt(m.crc, 4) + (PutInt(0, 1) + (PutInt(m.attributes, 1) + (PutBytes(m.key) + PutBytes(m.value))))
  }

  function PutOld(m: OldMessage): (b: bytes)
    ensures |b| == 12 + |OldBody(m)| >= 26
  {
    PutInt(m.offset, 8) + (PutInt(|OldBody(m)|, 4) + OldBody(m))
  }

  function PutOlds(ms: seq<OldMessage>): bytes {
    if ms == [] then [] else PutOld(ms[0]) + PutOlds(ms[1..])
  }

  function OldMessages(ms: seq<OldMessage>, topic: bytes, partition: int): seq<Message> {
    seq(|ms|, i requires 0 <= i < |ms| => Message(topic, partition, ms[i].key, ms[i].value, Now))
  }

  /** A whole message at the cursor is read, and nothing of it is left. */
  lemma OldReadBack(b: bytes, p: nat, m: OldMessage, topic: bytes, partition: int)
    requires |b| < 0x8000_0000 && At(b, p, PutOld(m))
    ensures LegacyAt(b, p, topic, partition) ==
            var (ms, q) := LegacyAt(b, p + |PutOld(m)|, topic, partition);
            ([Message(topic, partition, m.key, m.value, Now)] + ms, q)
  {
    hide At, BytesAt, PutBytes, IntAt, PutInt;
    AtAll(b);
    IntReadBack(b, p + 8, |OldBody(m)|, 4);
    BytesReadBack(b, p + 18, m.key);
    BytesReadBack(b, p + 18 + |PutBytes(m.key)|, m.value);
  }

  /** A message cut off at the end of the buffer is not read. */
  lemma OldCutShort(b: bytes, p: nat, m: OldMessage, topic: bytes, partition: int)
    requires p <= |b| && |b| - p < |PutOld(m)| < 0x8000_0000 && b[p..] == PutOld(m)[..|b| - p]
    ensures LegacyAt(b, p, topic, partition).0 == []
  {
    hide OldBody;
    if |b| - p >= 12 {
      SizeOfOld(m);
      assert b[p + 8..p + 12] == b[p..][8..12] == PutOld(m)[8..12];
    }
  }

  lemma SizeOfOld(m: OldMessage)
    requires |PutOld(m)| < 0x8000_0000
    ensures GetInt(PutOld(m)[8..12]) == |OldBody(m)|
  {
    hide PutInt, OldBody;
    AtAll(PutOld(m));
    Everywhere(PutOld(m));
    IntReadBack(PutOld(m), 8, |OldBody(m)|, 4);
  }

  /**
   * A list of magic-0 messages that ends the buffer and is cut at any byte: the decoder returns exactly the `k`
   * messages that are wholly present.
   */
  lemma {:induction false} TruncatedLegacySet(b: bytes, p: nat, ms: seq<OldMessage>, k: nat, topic: bytes,
                                              partition: int)
    requires p <= |b| < 0x8000_0000 && forall i :: 0 <= i < |ms| ==> |PutOld(ms[i])| < 0x8000_0000
    requires |b| - p <= |PutOlds(ms)| && b[p..] == PutOlds(ms)[..|b| - p]
    requires k <= |ms| && |PutOlds(ms[..k])| <= |b| - p && (k < |ms| ==> |b| - p < |PutOlds(ms[..k + 1])|)
    ensures LegacyAt(b, p, topic, partition).0 == OldMessages(ms[..k], topic, partition)
    decreases |ms|
  {
    hide At, LegacyAt, PutOld, PutOlds, OldMessages;
    if ms == [] {
      NoneWhole(b, p, ms, topic, partition);
    } else {
      FirstOld(ms, k);
      if k == 0 {
        NoneWhole(b, p, ms, topic, partition);
      } else {
        var first, rest := PutOld(ms[0]), PutOlds(ms[1..]);
        if k < |ms| {
          FirstOld(ms, k + 1);
        }
        FirstWhole(b, p, first, rest);
        OldReadBack(b, p, ms[0], topic, partition);
        TruncatedLegacySet(b, p + |first|, ms[1..], k - 1, topic, partition);
        OldMessagesStep(ms, k, topic, partition);
      }
    }
  }

  /** Nothing whole is left. */
  lemma NoneWhole(b: bytes, p: nat, ms: seq<OldMessage>, topic: bytes, partition: int)
    requires p <= |b| && |b| - p <= |PutOlds(ms)| && b[p..] == PutOlds(ms)[..|b| - p]
    requires ms != [] ==> |PutOld(ms[0])| < 0x8000_0000 && |b| - p < |PutOlds(ms[..1])|
    ensures LegacyAt(b, p, topic, partition).0 == OldMessages(ms[..0], topic, partition)
  {
    assert OldMessages(ms[..0], topic, partition) == [];
    if ms != [] {
      hide LegacyAt, PutOld, OldMessages;
      FirstOld(ms, 1);
      var first, rest := PutOld(ms[0]), PutOlds(ms[1..]);
      assert b[p..] == (first + rest)[..|b| - p] == first[..|b| - p];
      OldCutShort(b, p, ms[0], topic, partition);
    }
  }

  lemma FirstOld(ms: seq<OldMessage>, k: nat)
    requires k <= |ms| && ms != []
    ensures PutOlds(ms) == PutOld(ms[0]) + PutOlds(ms[1..])
    ensures k > 0 ==> |PutOlds(ms[..k])| == |PutOld(ms[0])| + |PutOlds(ms[1..][..k - 1])|
    ensures |PutOlds(ms[1..][..0])| == 0
  {
    hide PutOld;
    if k > 0 {
      assert ms[..k][1..] == ms[1..][..k - 1];
    }
  }

  /** The buffer from `p` holds a cut of `first + rest` that includes all of `first`. */
  lemma FirstWhole(b: bytes, p: nat, first: bytes, rest: bytes)
    requires p + |first| <= |b| <= p + |first| + |rest| && b[p..] == (first + rest)[..|b| - p]
    ensures At(b, p, first) && b[p + |first|..] == rest[..|b| - p - |first|]
  {
    assert b[p..p + |first|] == b[p..][..|first|];
    assert b[p + |first|..] == b[p..][|first|..];
  }

  lemma OldMessagesStep(ms: seq<OldMessage>, k: nat, topic: bytes, partition: int)
    requires 0 < k <= |ms|
    ensures OldMessages(ms[..k], topic, partition) ==
            [Message(topic, partition, ms[0].key, ms[0].value, Now)] + OldMessages(ms[1..][..k - 1], topic, partition)
  {
  }

  /** The same through `decodeRecordBatch`, which must first tell the format apart. */
  lemma TruncatedLegacyBatch(b: bytes, p: nat, ms: seq<OldMessage>, k: nat, topic: bytes, partition: int)
    requires p <= |b| < 0x8000_0000 && forall i :: 0 <= i < |ms| ==> |PutOld(ms[i])| < 0x8000_0000
    requires |b| - p <= |PutOlds(ms)| && b[p..] == PutOlds(ms)[..|b| - p]
    requires k <= |ms| && |PutOlds(ms[..k])| <= |b| - p && (k < |ms| ==> |b| - p < |PutOlds(ms[..k + 1])|)
    ensures BatchAt(b, p, topic, partition).Ret?
    ensures BatchAt(b, p, topic, partition).value.0 == OldMessages(ms[..k], topic, partition)
  {
    hide LegacyAt, BatchV2At, PutInt, PutOld, GetInt;
    if |b| - p >= 17 {
      MagicOfOlds(b, p, ms);
      TruncatedLegacySet(b, p, ms, k, topic, partition);
    } else if k > 0 {
      FirstOld(ms, k);
    }
  }

  /** The byte taken for the magic is that of the first message. */
  lemma MagicOfOlds(b: bytes, p: nat, ms: seq<OldMessage>)
    requires p + 17 <= |b| && |b| - p <= |PutOlds(ms)| && b[p..] == PutOlds(ms)[..|b| - p]
    ensures GetInt(b[p + 16..p + 17]) == 0
  {
    hide PutInt, PutOld, GetInt;
    MagicOfOld(ms[0]);
    FirstOld(ms, 0);
    var first, rest := PutOld(ms[0]), PutOlds(ms[1..]);
    var cut := (first + rest)[..|b| - p];
    assert b[p + 16] == b[p..][16] == cut[16] == first[16];
    assert b[p + 16..p + 17] == [first[16]] == first[16..17];
  }

  lemma MagicOfOld(m: OldMessage)
    ensures GetInt(PutOld(m)[16..17]) == 0
  {
    hide PutInt;
    AtAll(PutOld(m));
    Everywhere(PutOld(m));
    IntReadBack(PutOld(m), 16, 0, 1);
  }
}
