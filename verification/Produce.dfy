/** The body of a Produce request (internal/broker/broker.go, handleProduce). */
module Produce {
  import opened GoTypes
  import opened Binary
  import opened Wire
  import opened RecordBatch
  import opened RecordBatchLaws

  // ---------- What the nested loops read ----------

  /** `n` partitions of one topic. */
  function PartitionsAt(b: bytes, p: nat, n: nat, topic: bytes, flexible: bool): (r: Outcome<(seq<Message>, nat)>)
    requires p <= |b|
    ensures r.Ret? ==> p <= r.value.1 <= |b|
    decreases n
  {
    if n == 0 then Ret(([], p))
    else
      var (partition, p1) := IntAt(b, p, 4);
      var (ms, p2) :- BatchAt(b, Skip(b, p1, 4), topic, partition);
      var (rest, q) :- PartitionsAt(b, Tagged(b, p2, flexible), n - 1, topic, flexible);
      Ret((ms + rest, q))
  }

  /** Tagged fields end each structure of the flexible encoding. */
  function Tagged(b: bytes, p: nat, flexible: bool): (q: nat)
    requires p <= |b|
    ensures p <= q <= |b|
  {
    if flexible then UvarAt(b, p).1 else p
  }

  function NameAt(b: bytes, p: nat, flexible: bool): (r: Outcome<(bytes, nat)>)
    requires p <= |b|
    ensures r.Ret? ==> p <= r.value.1 <= |b|
  {
    if flexible then CompactAt(b, p) else Ret(StringAt(b, p))
  }

  /** An array length: four bytes, or an unsigned varint one too high that is cut to 32 bits. */
  function CountAt(b: bytes, p: nat, flexible: bool): (r: (int, nat))
    requires p <= |b|
    ensures p <= r.1 <= |b|
  {
    if flexible then
      var (u, q) := UvarAt(b, p);
      (ToInt32(ToInt32(u) - 1), q)
    else IntAt(b, p, 4)
  }

  function Times(n: int): nat { if n > 0 then n else 0 }

  function TopicsAt(b: bytes, p: nat, n: nat, flexible: bool): (r: Outcome<(seq<Message>, nat)>)
    requires p <= |b|
    ensures r.Ret? ==> p <= r.value.1 <= |b|
    decreases n
  {
    if n == 0 then Ret(([], p))
    else
      var (topic, p1) :- NameAt(b, p, flexible);
      var (nPartitions, p2) := CountAt(b, p1, flexible);
      var (ms, p3) :- PartitionsAt(b, p2, Times(nPartitions), topic, flexible);
      var (rest, q) :- TopicsAt(b, Tagged(b, p3, flexible), n - 1, flexible);
      Ret((ms + rest, q))
  }

  /** The whole body: transactional id, acks, timeout, topics. */
  function ProduceAt(b: bytes, p: nat, flexible: bool): (r: Outcome<(seq<Message>, nat)>)
    requires p <= |b|
    ensures r.Ret? ==> p <= r.value.1 <= |b|
  {
    var (_, p1) :- NameAt(b, p, flexible);
    var (nTopics, p2) := CountAt(b, Skip(b, Skip(b, p1, 2), 4), flexible);
    var (ms, p3) :- TopicsAt(b, p2, Times(nTopics), flexible);
    Ret((ms, Tagged(b, p3, flexible)))
  }

  // ---------- What is sent to the queue ----------

  /** Each partition's messages are sent before the next is decoded, so a fault finds those of the earlier ones sent. */
  function PartitionsSent(b: bytes, p: nat, n: nat, topic: bytes, flexible: bool): seq<Message>
    requires p <= |b|
    decreases n
  {
    if n == 0 then []
    else
      var (partition, p1) := IntAt(b, p, 4);
      match BatchAt(b, Skip(b, p1, 4), topic, partition)
      case Fault => []
      case Ret((ms, p2)) => ms + PartitionsSent(b, Tagged(b, p2, flexible), n - 1, topic, flexible)
  }

  function TopicsSent(b: bytes, p: nat, n: nat, flexible: bool): seq<Message>
    requires p <= |b|
    decreases n
  {
    if n == 0 || NameAt(b, p, flexible).Fault? then []
    else
      var (topic, p1) := NameAt(b, p, flexible).value;
      var (nPartitions, p2) := CountAt(b, p1, flexible);
      PartitionsSent(b, p2, Times(nPartitions), topic, flexible) +
      match PartitionsAt(b, p2, Times(nPartitions), topic, flexible)
      case Fault => []
      case Ret((_, p3)) => TopicsSent(b, Tagged(b, p3, flexible), n - 1, flexible)
  }

  function ProduceSent(b: bytes, p: nat, flexible: bool): seq<Message>
    requires p <= |b|
  {
    match NameAt(b, p, flexible)
    case Fault => []
    case Ret((_, p1)) =>
      var (nTopics, p2) := CountAt(b, Skip(b, Skip(b, p1, 2), 4), flexible);
      TopicsSent(b, p2, Times(nTopics), flexible)
  }

  lemma {:induction false} AllPartitionsSent(b: bytes, p: nat, n: nat, topic: bytes, flexible: bool)
    requires p <= |b| && PartitionsAt(b, p, n, topic, flexible).Ret?
    ensures PartitionsSent(b, p, n, topic, flexible) == PartitionsAt(b, p, n, topic, flexible).value.0
    decreases n
  {
    hide BatchAt, IntAt, UvarAt;
    if n > 0 {
      var (partition, p1) := IntAt(b, p, 4);
      var p2 := BatchAt(b, Skip(b, p1, 4), topic, partition).value.1;
      AllPartitionsSent(b, Tagged(b, p2, flexible), n - 1, topic, flexible);
    }
  }

  lemma {:induction false} AllTopicsSent(b: bytes, p: nat, n: nat, flexible: bool)
    requires p <= |b| && TopicsAt(b, p, n, flexible).Ret?
    ensures TopicsSent(b, p, n, flexible) == TopicsAt(b, p, n, flexible).value.0
    decreases n
  {
    hide NameAt, CountAt, PartitionsAt, PartitionsSent, Tagged;
    if n > 0 {
      var (topic, p1) := NameAt(b, p, flexible).value;
      var (nPartitions, p2) := CountAt(b, p1, flexible);
      AllPartitionsSent(b, p2, Times(nPartitions), topic, flexible);
      var p3 := PartitionsAt(b, p2, Times(nPartitions), topic, flexible).value.1;
      AllTopicsSent(b, Tagged(b, p3, flexible), n - 1, flexible);
    }
  }

  /** A request that does not fault has all its messages sent. */
  lemma EverythingSent(b: bytes, p: nat, flexible: bool)
    requires p <= |b| && ProduceAt(b, p, flexible).Ret?
    ensures ProduceSent(b, p, flexible) == ProduceAt(b, p, flexible).value.0
  {
    hide NameAt, CountAt, IntAt, TopicsAt, TopicsSent;
    var p1 := NameAt(b, p, flexible).value.1;
    var (nTopics, p2) := CountAt(b, Skip(b, Skip(b, p1, 2), 4), flexible);
    AllTopicsSent(b, p2, Times(nTopics), flexible);
  }

  // ---------- Requests in the non-flexible layout ----------

  datatype WirePartition = WirePartition(partition: int32, size: int, batch: WireBatch)

  datatype WireTopic = WireTopic(name: bytes, partitions: seq<WirePartition>)

  datatype WireProduce = WireProduce(transactionalId: Option<bytes>, acks: int, timeout: int, topics: seq<WireTopic>)

  /** A nullable string as a producer writes it; unlike `writeString`, an empty one keeps its length 0. */
  function PutNullableString(s: Option<bytes>): bytes {
    if s.None? then PutInt(-1, 2) else PutInt(|s.value|, 2) + s.value
  }

  function PutPartition(w: WirePartition): bytes {
    PutInt(w.partition, 4) + (PutInt(w.size, 4) + PutBatch(w.batch))
  }

  function PutPartitions(ws: seq<WirePartition>): bytes {
    if ws == [] then [] else PutPartition(ws[0]) + PutPartitions(ws[1..])
  }

  function PutTopic(t: WireTopic): bytes {
    PutNullableString(Some(t.name)) + (PutInt(|t.partitions|, 4) + PutPartitions(t.partitions))
  }

  function PutTopics(ts: seq<WireTopic>): bytes {
    if ts == [] then [] else PutTopic(ts[0]) + PutTopics(ts[1..])
  }

  function PutProduce(w: WireProduce): bytes {
    PutNullableString(w.transactionalId) +
    (PutInt(w.acks, 2) + (PutInt(w.timeout, 4) + (PutInt(|w.topics|, 4) + PutTopics(w.topics))))
  }

  /** Every count fits its field. */
  predicate PartitionFits(w: WirePartition) {
    && |w.batch.records| < 0x8000_0000
    && forall r :: r in w.batch.records ==> |r.headers| <= MAX_INT
  }

  predicate TopicFits(t: WireTopic) {
    |t.name| < 0x8000 && |t.partitions| < 0x8000_0000 && forall w :: w in t.partitions ==> PartitionFits(w)
  }

  predicate ProduceFits(w: WireProduce) {
    && (w.transactionalId.Some? ==> |w.transactionalId.value| < 0x8000)
    && |w.topics| < 0x8000_0000
    && forall t :: t in w.topics ==> TopicFits(t)
  }

  /** The records a request carries, in order, with their topic and partition. */
  function PartitionMessages(ws: seq<WirePartition>, topic: bytes): seq<Message> {
    if ws == [] then []
    else Messages(ws[0].batch.records, topic, ws[0].partition, Millis(ws[0].batch.baseTimestamp)) +
         PartitionMessages(ws[1..], topic)
  }

  function TopicMessages(ts: seq<WireTopic>): seq<Message> {
    if ts == [] then [] else PartitionMessages(ts[0].partitions, ts[0].name) + TopicMessages(ts[1..])
  }

  lemma NullableReadBack(b: bytes, p: nat, s: Option<bytes>)
    requires (s.Some? ==> |s.value| < 0x8000) && At(b, p, PutNullableString(s))
    ensures StringAt(b, p) == (if s.None? then [] else s.value, p + |PutNullableString(s)|)
  {
    AtAll(b);
    IntReadBack(b, p, if s.None? then -1 else |s.value|, 2);
  }

  lemma {:induction false} PartitionsReadBack(b: bytes, p: nat, ws: seq<WirePartition>, topic: bytes)
    requires |b| <= MAX_INT && At(b, p, PutPartitions(ws)) && forall w :: w in ws ==> PartitionFits(w)
    ensures PartitionsAt(b, p, |ws|, topic, false) == Ret((PartitionMessages(ws, topic), p + |PutPartitions(ws)|))
    decreases |ws|
  {
    hide At, IntAt, BatchAt, PutInt, PutBatch, Messages;
    AtAll(b);
    if ws != [] {
      assert ws[0] in ws;
      IntReadBack(b, p, ws[0].partition, 4);
      BatchReadBack(b, p + 8, ws[0].batch, topic, ws[0].partition);
      PartitionsReadBack(b, p + |PutPartition(ws[0])|, ws[1..], topic);
    }
  }

  /** Name, partition count and partitions of one topic. */
  lemma TopicReadBack(b: bytes, p: nat, t: WireTopic, p1: nat)
    requires |b| <= MAX_INT && At(b, p, PutTopic(t)) && TopicFits(t)
    requires p1 == p + |PutNullableString(Some(t.name))|
    ensures NameAt(b, p, false) == Ret((t.name, p1)) && p1 + 4 <= p + |PutTopic(t)| <= |b|
    ensures CountAt(b, p1, false) == (|t.partitions|, p1 + 4)
    ensures PartitionsAt(b, p1 + 4, |t.partitions|, t.name, false) ==
            Ret((PartitionMessages(t.partitions, t.name), p + |PutTopic(t)|))
  {
    hide At, IntAt, StringAt, PartitionsAt, PutInt, PutPartitions, PutNullableString, PartitionMessages;
    AtAll(b);
    NullableReadBack(b, p, Some(t.name));
    IntReadBack(b, p1, |t.partitions|, 4);
    PartitionsReadBack(b, p1 + 4, t.partitions, t.name);
  }

  lemma {:induction false} TopicsReadBack(b: bytes, p: nat, ts: seq<WireTopic>)
    requires |b| <= MAX_INT && At(b, p, PutTopics(ts)) && forall t :: t in ts ==> TopicFits(t)
    ensures TopicsAt(b, p, |ts|, false) == Ret((TopicMessages(ts), p + |PutTopics(ts)|))
    decreases |ts|
  {
    hide At, NameAt, CountAt, PartitionsAt, PutTopic, PutNullableString, PartitionMessages;
    AtAll(b);
    if ts != [] {
      assert ts[0] in ts;
      TopicReadBack(b, p, ts[0], p + |PutNullableString(Some(ts[0].name))|);
      TopicsReadBack(b, p + |PutTopic(ts[0])|, ts[1..]);
    }
  }

  /**
   * The Produce decoder inverts the encoder: from any request in the layout the code reads, wherever it stands, it
   * recovers exactly the records, in order and with their topic and partition, and stops right behind the request.
   */
  lemma ProduceReadBack(b: bytes, p: nat, w: WireProduce)
    requires |b| <= MAX_INT && At(b, p, PutProduce(w)) && ProduceFits(w)
    ensures ProduceAt(b, p, false) == Ret((TopicMessages(w.topics), p + |PutProduce(w)|))
  {
    hide At, IntAt, StringAt, TopicsAt, PutInt, PutTopics, PutNullableString, TopicMessages;
    AtAll(b);
    NullableReadBack(b, p, w.transactionalId);
    var p1 := p + |PutNullableString(w.transactionalId)| + 6;
    IntReadBack(b, p1, |w.topics|, 4);
    TopicsReadBack(b, p1 + 4, w.topics);
  }

  /** A body up to the number of topics, and a topic up to the number of partitions. */
  function PutUpToTopics(w: WireProduce, n: int): bytes {
    PutNullableString(w.transactionalId) + (PutInt(w.acks, 2) + (PutInt(w.timeout, 4) + PutInt(n, 4)))
  }

  function PutUpToPartitions(name: bytes, n: int): bytes {
    PutNullableString(Some(name)) + PutInt(n, 4)
  }

  /** A negative number of topics is none, and a topic with a negative number of partitions has none. */
  lemma NegativeTopics(b: bytes, p: nat, w: WireProduce, n: int32)
    requires ProduceFits(w) && n < 0 && At(b, p, PutUpToTopics(w, n))
    ensures ProduceAt(b, p, false) == Ret(([], p + |PutUpToTopics(w, n)|))
  {
    hide At, IntAt, StringAt, PutInt, PutNullableString;
    AtAll(b);
    NullableReadBack(b, p, w.transactionalId);
    IntReadBack(b, p + |PutNullableString(w.transactionalId)| + 6, n, 4);
  }

  lemma NegativePartitions(b: bytes, p: nat, name: bytes, n: int32)
    requires |name| < 0x8000 && n < 0 && At(b, p, PutUpToPartitions(name, n))
    ensures p <= |b| && TopicsAt(b, p, 1, false) == Ret(([], p + |PutUpToPartitions(name, n)|))
  {
    hide At, IntAt, StringAt, PutInt, PutNullableString;
    AtAll(b);
    NullableReadBack(b, p, Some(name));
    var q := p + |PutNullableString(Some(name))|;
    IntReadBack(b, q, n, 4);
    assert NameAt(b, p, false) == Ret((name, q)) && CountAt(b, q, false) == (n, q + 4);
    hide NameAt, CountAt;
    assert PartitionsAt(b, q + 4, 0, name, false) == Ret(([], q + 4));
    assert TopicsAt(b, q + 4, 0, false) == Ret(([], q + 4));
    var none: seq<Message> := [];
    assert none + none == none;
  }

  /** The whole body is consumed when nothing follows it. */
  lemma ProduceInverse(header: bytes, w: WireProduce)
    requires |header + PutProduce(w)| <= MAX_INT && ProduceFits(w)
    ensures ProduceAt(header + PutProduce(w), |header|, false) ==
            Ret((TopicMessages(w.topics), |header + PutProduce(w)|))
  {
    hide ProduceAt, PutProduce, TopicMessages;
    assert At(header + PutProduce(w), |header|, PutProduce(w));
    ProduceReadBack(header + PutProduce(w), |header|, w);
  }
}
