/**
 * What the record decoder makes of magic-2 batches in the published layout. Section 5.3.1 "Record Batch" of the
 * Apache Kafka documentation has a CRC between magic and attributes, which the code does not skip.
 */
module PublishedBatch {
  import opened GoTypes
  import opened Binary
  import opened Wire
  import opened RecordBatch
  import opened RecordBatchLaws

  function PutPublishedBatch(wb: WireBatch, crc: int): bytes {
    PutBatchHead(wb) + (PutInt(crc, 4) + (PutBatchTail(wb) + PutRecords(wb.records)))
  }

  /**
   * Four bytes off, the code takes the base sequence for the record count: it faults when the base sequence is
   * negative, as it always is without idempotence, reads no record when it is 0, and otherwise decodes records from the
   * real count onwards.
   */
  lemma PublishedBatchReadsBaseSequence(b: bytes, p: nat, wb: WireBatch, crc: int, topic: bytes, partition: int)
    requires At(b, p, PutPublishedBatch(wb, crc))
    ensures p + 61 <= |b|
    ensures wb.baseSequence < 0 ==> BatchAt(b, p, topic, partition).Fault?
    ensures wb.baseSequence == 0 ==> BatchAt(b, p, topic, partition) == Ret(([], p + 57))
    ensures wb.baseSequence > 0 ==>
              BatchAt(b, p, topic, partition) ==
              RecordsAt(b, p + 57, wb.baseSequence, topic, partition, Millis(Int(b, p + 23, 8)))
  {
    hide At, BatchAt, RecordAt, IntAt, PutInt, PutBatchHead, PutRecords;
    AtAll(b);
    HeadReadBack(b, p, wb, topic, partition);
    IntReadBack(b, p + 53, wb.baseSequence, 4);
    var base := Int(b, p + 23, 8);
    assert BatchV2At(b, p + 17, topic, partition) ==
           if wb.baseSequence < 0 then Fault
           else RecordsAt(b, p + 57, wb.baseSequence, topic, partition, Millis(base));
  }

  // ---------- The first record read ----------

  /** The length of a record counts its body, as the documentation has it. */
  predicate Framed(r: WireRecord) {
    r.length == |PutRecordBody(r)|
  }

  /** The bytes of the count that the code takes for varints are complete ones; every count below 128 is like that. */
  predicate PlainCount(n: nat) {
    n < 0x8000_0000 && n / 0x100 % 0x100 < 128 && n % 0x100 < 128
  }

  lemma OneByteVarint(b: bytes, p: nat)
    requires p < |b| && b[p] < 128
    ensures VarAt(b, p).1 == p + 1
    ensures b[p] == 0 ==> VarAt(b, p).0 == 0
  {
    assert UvarintFrom(b, p, 0) == (b[p], 1);
  }

  lemma FourBytes(n: nat)
    requires n < 0x8000_0000
    ensures PutInt(n, 4) == [n / 0x100_0000, n / 0x1_0000 % 0x100, n / 0x100 % 0x100, n % 0x100]
  {
    hide PutBig;
    PutBigStep(n, 4);
    PutBigStep(n / 0x100, 3);
    assert n / 0x100 / 0x100 == n / 0x1_0000;
    PutBigStep(n / 0x1_0000, 2);
    assert n / 0x1_0000 / 0x100 == n / 0x100_0000;
    PutBigStep(n / 0x100_0000, 1);
    assert |PutBig(n / 0x100_0000 / 0x100, 0)| == 0;
  }

  /** The real count passes for a whole record prologue. */
  lemma CountAsPrologue(b: bytes, p: nat, n: nat)
    requires PlainCount(n) && At(b, p, PutInt(n, 4))
    ensures PrologueAt(b, p) == p + 4
  {
    hide VarAt, PutInt;
    FourBytes(n);
    var s := b[p..p + 4];
    assert b[p] == s[0] && b[p + 2] == s[2] && b[p + 3] == s[3];
    OneByteVarint(b, p);
    OneByteVarint(b, p + 2);
    OneByteVarint(b, p + 3);
  }

  /** Read as nullable bytes, a whole record is its body. */
  lemma BodyAsBytes(b: bytes, p: nat, r: WireRecord)
    requires |b| <= MAX_INT && At(b, p, PutRecord(r)) && Framed(r)
    ensures VarBytesAt(b, p) == Ret((Some(PutRecordBody(r)), p + |PutRecord(r)|))
  {
    hide At, PutRecordBody, VarBytesAt;
    VarBytesReadBack(b, p, Some(PutRecordBody(r)));
  }

  /** The body is longer than the key in it. */
  lemma BodyIsNotKey(r: WireRecord)
    ensures Some(PutRecordBody(r)) != r.key
  {
    hide PutInt, PutVarint, PutHeaders;
    if r.key.Some? {
      assert |PutRecordBody(r)| > |r.key.value|;
    }
  }

  /** A first record is read from the count and the records, or the attempt faults; its key is a whole record body. */
  lemma FirstMessage(b: bytes, p: nat, rs: seq<WireRecord>, n: nat, topic: bytes, partition: int, stamp: Stamp)
    requires |b| <= MAX_INT && n > 0 && PlainCount(|rs|) && forall r :: r in rs ==> Framed(r)
    requires At(b, p, PutInt(|rs|, 4)) && At(b, p + 4, PutRecords(rs))
    ensures var got := RecordsAt(b, p, n, topic, partition, stamp);
            got.Ret? ==> got.value.0 != [] && (rs != [] ==> got.value.0[0].key == Some(PutRecordBody(rs[0])))
  {
    hide At, VarBytesAt, HeadersAt, PrologueAt, PutRecord, PutRecordBody, PutInt;
    AtAll(b);
    CountAsPrologue(b, p, |rs|);
    if rs != [] {
      assert rs[0] in rs;
      BodyAsBytes(b, p + 4, rs[0]);
    }
  }

  /**
   * A published batch yields its records only when it has none and its base sequence is 0, and then the cursor stops
   * four bytes short. So it is never read back. Only for a positive base sequence this depends on the bytes of the
   * count and on the lengths of the records.
   */
  lemma PublishedBatchMisread(b: bytes, p: nat, wb: WireBatch, crc: int, topic: bytes, partition: int)
    requires |b| <= MAX_INT && At(b, p, PutPublishedBatch(wb, crc))
    requires wb.baseSequence > 0 ==> PlainCount(|wb.records|) && forall r :: r in wb.records ==> Framed(r)
    ensures var got := BatchAt(b, p, topic, partition);
            var meant := Messages(wb.records, topic, partition, Millis(wb.baseTimestamp));
            && (got.Ret? && got.value.0 == meant <==> wb.records == [] && wb.baseSequence == 0)
            && got != Ret((meant, p + |PutPublishedBatch(wb, crc)|))
  {
    hide At, BatchAt, RecordsAt, PutInt, PutBatchHead, PutRecords, PutRecordBody;
    PublishedBatchReadsBaseSequence(b, p, wb, crc, topic, partition);
    AtAll(b);
    if wb.baseSequence > 0 {
      FirstMessage(b, p + 57, wb.records, wb.baseSequence, topic, partition, Millis(Int(b, p + 23, 8)));
      if wb.records != [] {
        BodyIsNotKey(wb.records[0]);
      }
    }
  }

  /** A negative base sequence is not the only fault: with a positive one, so does a first length whose end wraps. */
  lemma PositiveSequenceCanFault(b: bytes, p: nat, wb: WireBatch, crc: int, topic: bytes, partition: int)
    requires |b| <= MAX_INT && At(b, p, PutPublishedBatch(wb, crc)) && wb.baseSequence > 0
    requires PlainCount(|wb.records|) && wb.records != []
    requires p + 61 + |PutVarint(wb.records[0].length)| + wb.records[0].length > MAX_INT
    ensures BatchAt(b, p, topic, partition).Fault?
  {
    hide At, BatchAt, HeadersAt, PrologueAt, VarAt, SliceAt, PutVarint, PutInt, PutBatchHead, PutRecordBody;
    PublishedBatchReadsBaseSequence(b, p, wb, crc, topic, partition);
    AtAll(b);
    CountAsPrologue(b, p + 57, |wb.records|);
    VarReadBack(b, p + 61, wb.records[0].length);
  }

  // ---------- Counts that are not plain ----------

  /** A record of nothing: no key bytes, no value bytes, no headers, all deltas 0. */
  const NOTHING := WireRecord(6, 0, 0, 0, Some([]), Some([]), [])

  function Nothings(n: nat): seq<WireRecord> {
    if n == 0 then [] else [NOTHING] + Nothings(n - 1)
  }

  /** A record that reads back as nothing although it has one header, if its reading starts three bytes early. */
  const ALMOST := WireRecord(8, 0, 0, 2, Some([]), Some([]), [(Some([]), Some([]))])

  /** A batch of `rs` with as high a base sequence, and else zeros. */
  function BatchOf(rs: seq<WireRecord>): WireBatch
    requires |rs| < 256
  {
    WireBatch(0, 0, 0, 0, 0, 0, 0, 0, 0, |rs|, rs)
  }

  lemma NothingBytes()
    ensures PutRecord(NOTHING) == [12, 0, 0, 0, 0, 0, 0] && Framed(NOTHING)
  {
    ZeroByte();
    assert PutVarint(6) == [12];
    assert PutRecordBody(NOTHING) == [0, 0, 0, 0, 0, 0];
  }

  lemma AlmostBytes()
    ensures PutRecord(ALMOST) == [16, 0, 0, 4, 0, 0, 2, 0, 0] && Framed(ALMOST)
  {
    ZeroByte();
    assert PutVarint(8) == [16] && PutVarint(2) == [4] && PutVarint(1) == [2];
    assert ALMOST.headers[1..] == [];
    assert PutHeaders(ALMOST.headers) == [0, 0];
    assert PutRecordBody(ALMOST) == [0, 0, 4, 0, 0, 2, 0, 0];
  }

  lemma ZeroByte()
    ensures PutInt(0, 1) == [0] && PutVarint(0) == [0] && PutVarBytes(Some([])) == [0]
  {
    assert PutBig(0, 0) == [];
  }

  /** From `p` on stand `k` records of nothing. */
  ghost predicate Row(b: bytes, p: nat, k: nat) {
    p + 7 * k <= |b| && forall j :: p <= j < p + 7 * k ==> b[j] == if (j - p) % 7 == 0 then 12 else 0
  }

  lemma {:induction false} NothingsAre(k: nat)
    ensures |Nothings(k)| == k && forall r :: r in Nothings(k) ==> r == NOTHING
  {
    if k > 0 {
      NothingsAre(k - 1);
    }
  }

  lemma {:induction false} NothingsBytes(k: nat, end: seq<WireRecord>)
    ensures var all := PutRecords(Nothings(k) + end);
            Row(all, 0, k) && all[7 * k..] == PutRecords(end)
  {
    hide PutRecord, PutRecords, Row;
    if k == 0 {
      assert Nothings(0) + end == end;
      EmptyRow(PutRecords(end));
    } else {
      assert Nothings(k)[0] == NOTHING && Nothings(k)[1..] == Nothings(k - 1);
      hide Nothings;
      NothingsBytes(k - 1, end);
      PutFirst(Nothings(k), end);
      NothingBytes();
      OneMoreRow(PutRecords(Nothings(k - 1) + end), k - 1);
    }
  }

  lemma EmptyRow(b: bytes)
    ensures Row(b, 0, 0) && b[7 * 0..] == b
  {
  }

  lemma PutFirst(rs: seq<WireRecord>, end: seq<WireRecord>)
    requires rs != []
    ensures PutRecords(rs + end) == PutRecord(rs[0]) + PutRecords(rs[1..] + end)
  {
    hide PutRecord;
    assert (rs + end)[1..] == rs[1..] + end;
  }

  lemma OneMoreRow(rest: bytes, k: nat)
    requires Row(rest, 0, k)
    ensures var all := [12, 0, 0, 0, 0, 0, 0] + rest; Row(all, 0, k + 1) && all[7 * (k + 1)..] == rest[7 * k..]
  {
    var all := [12, 0, 0, 0, 0, 0, 0] + rest;
    forall j | 0 <= j < 7 * (k + 1)
      ensures all[j] == if j % 7 == 0 then 12 else 0
    {
      if j >= 7 {
        assert all[j] == rest[j - 7] && (j - 7) % 7 == j % 7;
      }
    }
  }

  lemma ZeroAsBytes(b: bytes, p: nat)
    requires p < |b| && b[p] == 0
    ensures VarBytesAt(b, p) == Ret((Some([]), p + 1))
  {
    OneByteVarint(b, p);
    assert b[p + 1..p + 1] == [];
  }

  /** Three zero bytes, a varint and three more zero bytes pass for a record of nothing. */
  lemma ShiftedNothing(b: bytes, p: nat, q: nat)
    requires p + 6 <= q + 3 <= |b| && b[p] == b[p + 1] == b[p + 2] == 0 && VarAt(b, p + 3).1 == q
    requires b[q] == b[q + 1] == b[q + 2] == 0
    ensures RecordAt(b, p) == Ret(((Some([]), Some([])), q + 3))
  {
    hide VarAt, VarBytesAt;
    OneByteVarint(b, p);
    OneByteVarint(b, p + 2);
    ZeroAsBytes(b, q);
    ZeroAsBytes(b, q + 1);
    OneByteVarint(b, q + 2);
  }

  /** The last record, read three bytes early: its offset delta passes for two headers, which use up the rest. */
  lemma ShiftedAlmost(b: bytes, p: nat)
    requires |b| == p + 12 && b[p..] == [0, 0, 0] + PutRecord(ALMOST)
    ensures RecordAt(b, p) == Ret(((Some([]), Some([])), p + 12))
  {
    hide VarAt, VarBytesAt, PutRecord;
    AlmostBytes();
    var s := b[p..];
    assert s == [0, 0, 0, 16, 0, 0, 4, 0, 0, 2, 0, 0];
    assert forall j :: 0 <= j < 12 ==> b[p + j] == s[j];
    OneByteVarint(b, p);
    OneByteVarint(b, p + 2);
    OneByteVarint(b, p + 3);
    ZeroAsBytes(b, p + 4);
    ZeroAsBytes(b, p + 5);
    SmallVarint(b, p + 6, 2);
    ZeroAsBytes(b, p + 7);
    ZeroAsBytes(b, p + 8);
    SmallVarint(b, p + 9, 1);
    assert VarBytesAt(b, p + 9) == SliceAt(b, p + 10, 1) == Ret((Some(b[p + 10..p + 11]), p + 11)) by {
      OneByteSlice(b, p + 9);
    }
    ZeroAsBytes(b, p + 11);
    TwoHeaders(b, p + 7, p + 8, p + 9, p + 11, p + 12);
  }

  lemma SmallVarint(b: bytes, p: nat, v: nat)
    requires p < |b| && b[p] == 2 * v < 128
    ensures VarAt(b, p) == (v, p + 1)
  {
    assert UvarintFrom(b, p, 0) == (b[p], 1);
  }

  lemma OneByteSlice(b: bytes, p: nat)
    requires p + 2 <= |b| && VarAt(b, p) == (1, p + 1)
    ensures VarBytesAt(b, p) == SliceAt(b, p + 1, 1) == Ret((Some(b[p + 1..p + 2]), p + 2))
  {
    hide VarAt;
  }

  lemma TwoHeaders(b: bytes, p: nat, p1: nat, p2: nat, p3: nat, p4: nat)
    requires p <= |b| && p1 <= |b| && p2 <= |b| && p3 <= |b|
    requires VarBytesAt(b, p).Ret? && VarBytesAt(b, p).value.1 == p1
    requires VarBytesAt(b, p1).Ret? && VarBytesAt(b, p1).value.1 == p2
    requires VarBytesAt(b, p2).Ret? && VarBytesAt(b, p2).value.1 == p3
    requires VarBytesAt(b, p3).Ret? && VarBytesAt(b, p3).value.1 == p4
    ensures HeadersAt(b, p, 2) == Ret(p4)
  {
    hide VarBytesAt;
    assert HeadersAt(b, p4, 0) == Ret(p4);
    assert HeadersAt(b, p2, 1) == Ret(p4);
  }

  /** The messages of records that all are without key and value bytes. */
  function Blanks(n: nat, topic: bytes, partition: int, stamp: Stamp): seq<Message> {
    seq(n, _ => Message(topic, partition, Some([]), Some([]), stamp))
  }

  lemma BlankMessages(rs: seq<WireRecord>, topic: bytes, partition: int, stamp: Stamp)
    requires forall r :: r in rs ==> r.key == Some([]) && r.value == Some([])
    ensures Messages(rs, topic, partition, stamp) == Blanks(|rs|, topic, partition, stamp)
  {
    var ms := Messages(rs, topic, partition, stamp);
    forall i | 0 <= i < |rs|
      ensures ms[i] == Message(topic, partition, Some([]), Some([]), stamp)
    {
      assert rs[i] in rs;
    }
  }

  lemma OneMoreBlank(k: nat, topic: bytes, partition: int, stamp: Stamp, rest: Outcome<(seq<Message>, nat)>)
    requires k > 0
    ensures rest.Ret? ==>
              Blanks(k, topic, partition, stamp) + rest.value.0 ==
              [Message(topic, partition, Some([]), Some([]), stamp)] +
              (Blanks(k - 1, topic, partition, stamp) + rest.value.0)
  {
  }

  /** `k` records of nothing, read three bytes early, and what is read behind them. */
  lemma {:induction false} ShiftedNothings(b: bytes, p: nat, k: nat, n: nat, topic: bytes, partition: int, stamp: Stamp)
    requires p + 3 <= |b| && b[p] == b[p + 1] == b[p + 2] == 0 && Row(b, p + 3, k)
    ensures RecordsAt(b, p, k + n, topic, partition, stamp) ==
            match RecordsAt(b, p + 7 * k, n, topic, partition, stamp)
            case Fault => Fault
            case Ret((ms, q)) => Ret((Blanks(k, topic, partition, stamp) + ms, q))
    decreases k
  {
    hide VarAt, RecordAt;
    var rest := RecordsAt(b, p + 7 * k, n, topic, partition, stamp);
    if k == 0 {
      assert rest.Ret? ==> Blanks(0, topic, partition, stamp) + rest.value.0 == rest.value.0;
    } else {
      OneByteVarint(b, p + 3);
      ShiftedNothing(b, p, p + 4);
      assert Row(b, p + 10, k - 1);
      ShiftedNothings(b, p + 7, k - 1, n, topic, partition, stamp);
      OneMoreBlank(k, topic, partition, stamp, rest);
    }
  }

  /** The base timestamp is read four bytes early; here there are zeros. */
  lemma ZeroBase(b: bytes, p: nat)
    requires At(b, p, PutInt(0, 4) + PutInt(0, 8))
    ensures Int(b, p, 8) == 0
  {
    hide At;
    assert PutInt(0, 4) + PutInt(0, 8) == PutInt(0, 8) + PutInt(0, 4) by {
      ZeroBytes(4);
      ZeroBytes(8);
    }
    AtAll(b);
    IntReadBack(b, p, 0, 8);
  }

  lemma {:induction false} ZeroBytes(w: nat)
    ensures PutBig(0, w) == seq(w, _ => 0)
  {
    if w > 0 {
      ZeroBytes(w - 1);
    }
  }

  /** The bytes of such a batch that the record loop sees. */
  lemma BehindCount(b: bytes, rs: seq<WireRecord>, crc: int)
    requires 128 <= |rs| < 256 && b == PutPublishedBatch(BatchOf(rs), crc)
    ensures |b| == 61 + |PutRecords(rs)| && b[61..] == PutRecords(rs) && Int(b, 23, 8) == 0
    ensures b[57] == b[58] == b[59] == 0 && b[60] == |rs|
  {
    hide IntAt, PutInt, PutBatchHead, PutRecords;
    FourBytes(|rs|);
    var tail := PutBatchTail(BatchOf(rs));
    assert tail[36..40] == PutInt(|rs|, 4);
    forall j | 57 <= j < 61
      ensures b[j] == PutInt(|rs|, 4)[j - 57]
    {
      assert b[j] == tail[j - 21] == tail[36..40][j - 57];
    }
    assert tail[2..14] == PutInt(0, 4) + PutInt(0, 8);
    assert b[23..35] == tail[2..14];
    ZeroBase(b, 23);
  }

  /** The last byte of such a count and the length of the first record pass for one varint. */
  lemma CountRunsOn(b: bytes, n: nat)
    requires 128 <= n < 256 && |b| > 61 && b[60] == n && b[61] < 128
    ensures VarAt(b, 60).1 == 62
  {
    var next: nat := b[61];
    assert UvarintFrom(b, 60, 0) == (n - 128 + 128 * next, 2);
  }

  lemma ReadThreeBytesEarly(k: nat, end: seq<WireRecord>, crc: int, topic: bytes, partition: int)
    requires 0 < k && 128 <= k + |end| < 256 && |Nothings(k) + end| == k + |end|
    ensures var b := PutPublishedBatch(BatchOf(Nothings(k) + end), crc);
            && |b| == 61 + 7 * k + |PutRecords(end)|
            && b[58 + 7 * k..] == [0, 0, 0] + PutRecords(end)
            && BatchAt(b, 0, topic, partition) ==
               match RecordsAt(b, 58 + 7 * k, |end|, topic, partition, Millis(0))
               case Fault => Fault
               case Ret((ms, q)) => Ret((Blanks(k, topic, partition, Millis(0)) + ms, q))
  {
    hide At, BatchAt, Int, RecordAt, PutPublishedBatch, VarAt, Nothings, PutRecords, Blanks;
    var rs := Nothings(k) + end;
    var b := PutPublishedBatch(BatchOf(rs), crc);
    Everywhere(b);
    PublishedBatchReadsBaseSequence(b, 0, BatchOf(rs), crc, topic, partition);
    BehindCount(b, rs, crc);
    NothingsBytes(k, end);
    RowBehind(b, rs, k, end);
    CountRunsOn(b, |rs|);
    ShiftedNothing(b, 57, 62);
    assert Row(b, 68, k - 1);
    hide Row;
    ShiftedNothings(b, 65, k - 1, |end|, topic, partition, Millis(0));
    OneMoreBlank(k, topic, partition, Millis(0), RecordsAt(b, 58 + 7 * k, |end|, topic, partition, Millis(0)));
  }

  lemma RowBehind(b: bytes, rs: seq<WireRecord>, k: nat, end: seq<WireRecord>)
    requires 0 < k && |b| == 61 + |PutRecords(rs)| && b[61..] == PutRecords(rs)
    requires Row(PutRecords(rs), 0, k) && PutRecords(rs)[7 * k..] == PutRecords(end)
    ensures Row(b, 61, k) && |b| == 61 + 7 * k + |PutRecords(end)| && b[58 + 7 * k..] == [0, 0, 0] + PutRecords(end)
  {
    hide PutRecords;
    assert forall j :: 61 <= j < |b| ==> b[j] == b[61..][j - 61];
    assert b[61 + 7 * k..] == b[61..][7 * k..];
    assert b[58 + 7 * k..] == b[58 + 7 * k..61 + 7 * k] + b[61 + 7 * k..];
  }

  /**
   * A count whose varint bytes are not complete can shift the records into place: a published batch of 128 to 255
   * records of nothing yields all of them when its base sequence equals their number, though the cursor stops short.
   */
  lemma NothingsAreRead(n: nat, crc: int, topic: bytes, partition: int)
    requires 128 <= n < 256
    ensures |Nothings(n)| == n
    ensures BatchAt(PutPublishedBatch(BatchOf(Nothings(n)), crc), 0, topic, partition) ==
            Ret((Messages(Nothings(n), topic, partition, Millis(0)), 58 + 7 * n))
  {
    hide BatchAt, PutPublishedBatch, Messages, Blanks, PutRecords, RecordAt;
    NothingsAre(n);
    assert Nothings(n) + [] == Nothings(n);
    ReadThreeBytesEarly(n, [], crc, topic, partition);
    var blanks := Blanks(n, topic, partition, Millis(0));
    assert blanks + [] == blanks;
    BlankMessages(Nothings(n), topic, partition, Millis(0));
  }

  /** With one header in the last record, even the cursor ends where it should: the batch is read back by accident. */
  lemma SomeAreReadBack(n: nat, crc: int, topic: bytes, partition: int)
    requires 128 <= n < 256
    ensures var rs := Nothings(n - 1) + [ALMOST];
            && |rs| == n && (forall r :: r in rs ==> Framed(r))
            && var b := PutPublishedBatch(BatchOf(rs), crc);
            BatchAt(b, 0, topic, partition) == Ret((Messages(rs, topic, partition, Millis(0)), |b|))
  {
    hide BatchAt, PutPublishedBatch, Framed, PutRecord, RecordAt, PutRecordBody, Messages;
    var k, rs := n - 1, Nothings(n - 1) + [ALMOST];
    NothingBytes();
    AlmostBytes();
    NothingsAre(k);
    ReadThreeBytesEarly(k, [ALMOST], crc, topic, partition);
    var b := PutPublishedBatch(BatchOf(rs), crc);
    assert PutRecords([ALMOST]) == PutRecord(ALMOST) + [];
    ShiftedAlmost(b, 58 + 7 * k);
    assert RecordsAt(b, |b|, 0, topic, partition, Millis(0)) == Ret(([], |b|));
    var m := Message(topic, partition, Some([]), Some([]), Millis(0));
    assert RecordsAt(b, 58 + 7 * k, 1, topic, partition, Millis(0)) == Ret(([m] + [], |b|));
    BlankMessages(rs, topic, partition, Millis(0));
    assert Blanks(n, topic, partition, Millis(0)) == Blanks(k, topic, partition, Millis(0)) + ([m] + []);
  }
}
