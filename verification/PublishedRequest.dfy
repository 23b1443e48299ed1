/**
 * What becomes of Produce requests as the published protocol has them (internal/broker/broker.go, handleProduce). From
 * version 3 on they have the layout the code reads up to their batches, which have a CRC; before, they have no
 * transactional id (section "Produce API (Key: 0)" of the Apache Kafka protocol guide).
 */
module PublishedRequest {
  import opened GoTypes
  import opened Binary
  import opened Wire
  import opened RecordBatch
  import opened RecordBatchLaws
  import opened PublishedBatch
  import opened Produce
  import opened Broker

  // ---------- Versions 3 to 8 ----------

  /** A request body up to the first partition's batch. */
  datatype Opening = Opening(transactionalId: Option<bytes>, acks: int, timeout: int, nTopics: int32,
                             topic: bytes, nPartitions: int32, partition: int32, size: int)

  function PutOpening(o: Opening): bytes {
    PutNullableString(o.transactionalId) + (PutInt(o.acks, 2) + (PutInt(o.timeout, 4) + (PutInt(o.nTopics, 4) +
    (PutNullableString(Some(o.topic)) + (PutInt(o.nPartitions, 4) +
    (PutInt(o.partition, 4) + PutInt(o.size, 4)))))))
  }

  predicate OpeningOk(o: Opening) {
    && (o.transactionalId.Some? ==> |o.transactionalId.value| < 0x8000) && |o.topic| < 0x8000
    && o.nTopics > 0 && o.nPartitions > 0
  }

  /** A fault in the first batch is the end of the request. */
  lemma FirstBatchFaults(b: bytes, p: nat, o: Opening)
    requires At(b, p, PutOpening(o)) && OpeningOk(o)
    requires BatchAt(b, p + |PutOpening(o)|, o.topic, o.partition).Fault?
    ensures ProduceAt(b, p, false).Fault? && ProduceSent(b, p, false) == []
  {
    hide At, IntAt, StringAt, PutInt, PutNullableString, BatchAt;
    AtAll(b);
    NullableReadBack(b, p, o.transactionalId);
    var p1 := p + |PutNullableString(o.transactionalId)| + 6;
    IntReadBack(b, p1, o.nTopics, 4);
    NullableReadBack(b, p1 + 4, Some(o.topic));
    var p2 := p1 + 4 + |PutNullableString(Some(o.topic))|;
    IntReadBack(b, p2, o.nPartitions, 4);
    IntReadBack(b, p2 + 4, o.partition, 4);
    assert PartitionsAt(b, p2 + 4, o.nPartitions, o.topic, false).Fault?;
    assert PartitionsSent(b, p2 + 4, o.nPartitions, o.topic, false) == [];
    assert TopicsAt(b, p1 + 4, o.nTopics, false).Fault? && TopicsSent(b, p1 + 4, o.nTopics, false) == [];
  }

  /**
   * A published request of versions 3 to 8 whose first batch has a negative base sequence, as every producer without
   * idempotence writes, stops the process, whatever follows, and nothing of it is queued.
   */
  lemma NonIdempotentProducerFaults(version: int, corrID: int32, clientId: Option<bytes>, o: Opening, wb: WireBatch,
                                    crc: int, rest: bytes)
    requires 0 <= version <= 8 && (clientId.Some? ==> |clientId.value| < 0x8000) && OpeningOk(o)
    requires wb.baseSequence < 0
    ensures var body := PutHeader(0, version, corrID, clientId) +
                        (PutOpening(o) + (PutPublishedBatch(wb, crc) + rest));
            Faults(body) && Carried(body) == []
  {
    hide At, PutHeader, PutOpening, PutPublishedBatch, HeaderAt, ProduceAt, ProduceSent, BatchAt;
    var body := PutHeader(0, version, corrID, clientId) + (PutOpening(o) + (PutPublishedBatch(wb, crc) + rest));
    Everywhere(body);
    AtAll(body);
    HeaderReadBack(body, 0, version, corrID, clientId);
    var p := |PutHeader(0, version, corrID, clientId)|;
    PublishedBatchReadsBaseSequence(body, p + |PutOpening(o)|, wb, crc, o.topic, o.partition);
    FirstBatchFaults(body, p, o);
  }

  // ---------- Versions 0 to 2 ----------

  /** Up to the first topic's name. */
  function PutOldOpening(acks: int, timeout: int, nTopics: nat, topic: bytes): bytes {
    PutInt(acks, 2) + (PutInt(timeout, 4) + (PutInt(nTopics, 4) + PutNullableString(Some(topic))))
  }

  lemma TwoBytes(n: nat)
    requires n < 0x8000
    ensures PutInt(n, 2) == [n / 0x100, n % 0x100]
  {
    hide PutBig;
    PutBigStep(n, 2);
    PutBigStep(n / 0x100, 1);
    assert |PutBig(n / 0x100 / 0x100, 0)| == 0;
  }

  lemma FourByteInt(a: byte, b: byte, c: byte, d: byte)
    ensures GetInt([a, b, c, d]) == ToInt32(((a as int * 0x100 + b) * 0x100 + c) * 0x100 + d)
  {
    assert Big([]) == 0;
    assert [a][..0] == [];
    assert [a, b][..1] == [a];
    assert [a, b, c][..2] == [a, b];
    assert [a, b, c, d][..3] == [a, b, c];
    assert Big([a]) == a;
    assert Big([a, b]) == a as int * 0x100 + b;
    assert Big([a, b, c]) == (a as int * 0x100 + b) * 0x100 + c;
  }

  /**
   * In a published request of versions 0 to 2 the code takes `acks` for the length of a transactional id: it finds the
   * number of topics two bytes late, or three when `acks` is 1, and reads topics from within the first topic's name.
   */
  lemma OldRequestMiscounted(b: bytes, p: nat, acks: int, timeout: int, nTopics: nat, topic: bytes)
    requires At(b, p, PutOldOpening(acks, timeout, nTopics, topic))
    requires -1 <= acks <= 1 && nTopics < 0x8000_0000 && 0 < |topic| < 0x8000
    ensures acks < 1 ==>
              var n := ToInt32(0x1_0000 * (nTopics % 0x1_0000) + |topic|);
              ProduceAt(b, p, false) == TopicsAt(b, p + 12, Times(n), false)
    ensures acks == 1 ==>
              var n := ToInt32(0x100_0000 * (nTopics % 0x100) + 0x100 * |topic| + topic[0]);
              ProduceAt(b, p, false) == TopicsAt(b, p + 13, Times(n), false)
  {
    hide TopicsAt, PutInt, GetInt, ToInt32, PutOldOpening, At;
    OldOpeningBytes(b, p, acks, timeout, nTopics, topic);
    IntReadBack(b, p, acks, 2);
    if acks < 1 {
      TwoLateCount(nTopics, |topic|);
    } else {
      ThreeLateCount(nTopics, |topic|, topic[0]);
    }
  }

  lemma TwoLateCount(n: nat, len: nat)
    requires len < 0x8000
    ensures GetInt([n / 0x100 % 0x100, n % 0x100, len / 0x100, len % 0x100]) == ToInt32(0x1_0000 * (n % 0x1_0000) + len)
  {
    hide GetInt, ToInt32;
    var high, low, c, d := n / 0x100 % 0x100, n % 0x100, len / 0x100, len % 0x100;
    FourByteInt(high, low, c, d);
    TwoLowBytes(n);
    assert ((high * 0x100 + low) * 0x100 + c) * 0x100 + d == 0x1_0000 * (high * 0x100 + low) + (c * 0x100 + d);
    assert c * 0x100 + d == len;
  }

  lemma TwoLowBytes(n: nat)
    ensures n / 0x100 % 0x100 * 0x100 + n % 0x100 == n % 0x1_0000
  {
  }

  lemma ThreeLateCount(n: nat, len: nat, c: byte)
    requires len < 0x8000
    ensures GetInt([n % 0x100, len / 0x100, len % 0x100, c]) == ToInt32(0x100_0000 * (n % 0x100) + 0x100 * len + c)
  {
    hide GetInt, ToInt32;
    FourByteInt(n % 0x100, len / 0x100, len % 0x100, c);
  }

  lemma OldOpeningBytes(b: bytes, p: nat, acks: int, timeout: int, nTopics: nat, topic: bytes)
    requires At(b, p, PutOldOpening(acks, timeout, nTopics, topic))
    requires nTopics < 0x8000_0000 && 0 < |topic| < 0x8000
    ensures p + 13 <= |b| && At(b, p, PutInt(acks, 2))
    ensures b[p + 8..p + 12] == [nTopics / 0x100 % 0x100, nTopics % 0x100, |topic| / 0x100, |topic| % 0x100]
    ensures b[p + 9..p + 13] == [nTopics % 0x100, |topic| / 0x100, |topic| % 0x100, topic[0]]
  {
    hide PutInt, At;
    AtAll(b);
    FourBytes(nTopics);
    TwoBytes(|topic|);
    SlicesAcross(b, p, PutInt(nTopics, 4), PutInt(|topic|, 2), topic);
  }

  lemma SlicesAcross(b: bytes, p: nat, count: bytes, length: bytes, topic: bytes)
    requires At(b, p + 6, count) && At(b, p + 10, length) && At(b, p + 12, topic)
    requires |count| == 4 && |length| == 2 && topic != []
    ensures p + 13 <= |b|
    ensures b[p + 8..p + 12] == [count[2], count[3], length[0], length[1]]
    ensures b[p + 9..p + 13] == [count[3], length[0], length[1], topic[0]]
  {
    BytesOf(b, p + 6, count);
    BytesOf(b, p + 10, length);
    BytesOf(b, p + 12, topic);
    hide At;
    assert b[p + 8] == count[2] && b[p + 9] == count[3];
    assert b[p + 10] == length[0] && b[p + 11] == length[1] && b[p + 12] == topic[0];
  }

  lemma BytesOf(b: bytes, p: nat, s: bytes)
    requires At(b, p, s)
    ensures p + |s| <= |b| && forall j :: 0 <= j < |s| ==> s[j] == b[p + j]
  {
    forall j | 0 <= j < |s|
      ensures s[j] == b[p + j]
    {
      assert b[p..p + |s|][j] == b[p + j];
    }
  }
}
