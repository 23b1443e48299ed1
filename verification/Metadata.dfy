/** The Metadata request and response (internal/broker/broker.go, handleMetadata). */
module Metadata {
  import opened GoTypes
  import opened Binary
  import opened Wire
  import opened Produce

  // ---------- The request ----------

  /** `n` requested topic names. */
  function NamesAt(b: bytes, p: nat, n: nat, flexible: bool): (r: Outcome<(seq<bytes>, nat)>)
    requires p <= |b|
    ensures r.Ret? ==> p <= r.value.1 <= |b|
    decreases n
  {
    if n == 0 then Ret(([], p))
    else
      var (name, p1) :- NameAt(b, p, flexible);
      var (rest, q) :- NamesAt(b, Tagged(b, p1, flexible), n - 1, flexible);
      Ret(([name] + rest, q))
  }

  /** A flexible count is cut to 64 bits here, not to 32 as in a Produce request. */
  function NameCountAt(b: bytes, p: nat, flexible: bool): (r: (int, nat))
    requires p <= |b|
    ensures p <= r.1 <= |b|
  {
    if flexible then
      var (u, q) := UvarAt(b, p);
      (ToInt64(ToInt64(u) - 1), q)
    else IntAt(b, p, 4)
  }

  function RequestedAt(b: bytes, p: nat, flexible: bool): (r: Outcome<(seq<bytes>, nat)>)
    requires p <= |b|
    ensures r.Ret? ==> p <= r.value.1 <= |b|
  {
    var (n, p1) := NameCountAt(b, p, flexible);
    var (names, q) :- NamesAt(b, p1, Times(n), flexible);
    Ret((names, Tagged(b, q, flexible)))
  }

  // ---------- The response the code writes ----------

  function PutCount(n: nat, flexible: bool): bytes {
    if flexible then PutLength(n + 1) else PutInt(n, 4)
  }

  function PutName(s: bytes, flexible: bool): bytes {
    if flexible then PutLength(|s| + 1) + s else PutString(s)
  }

  function PutNull(flexible: bool): bytes {
    if flexible then PutUvarint(0) else PutInt(-1, 2)
  }

  function PutTags(flexible: bool): bytes {
    if flexible then PutUvarint(0) else []
  }

  const NO_OPERATIONS := -0x8000_0000

  function PutPartitionHead(v: int): bytes {
    PutInt(0, 2) + (PutInt(0, 4) + (PutInt(1, 4) + (if v >= 7 then PutInt(0, 4) else [])))
  }

  /** Replicas [1], in-sync replicas [1] and, from version 5 on, no offline replicas. */
  function PutReplicas(v: int): bytes {
    var f := v >= 9;
    PutCount(1, f) + (PutInt(1, 4) + (PutCount(1, f) + (PutInt(1, 4) +
    ((if v >= 5 then PutCount(0, f) else []) + PutTags(f)))))
  }

  function PutPartitionMeta(v: int): bytes {
    PutPartitionHead(v) + PutReplicas(v)
  }

  function PutTopicHead(v: int, name: bytes): bytes {
    var f := v >= 9;
    PutInt(0, 2) + (PutName(name, f) + ((if v >= 9 then seq(16, _ => 0) else []) +
    ((if v >= 1 then PutInt(0, 1) else []) + PutCount(1, f))))
  }

  function PutTopicTail(v: int): bytes {
    (if v >= 8 then PutInt(NO_OPERATIONS, 4) else []) + PutTags(v >= 9)
  }

  function PutTopicMeta(v: int, name: bytes): bytes {
    PutTopicHead(v, name) + (PutPartitionMeta(v) + PutTopicTail(v))
  }

  function PutTopicsMeta(v: int, names: seq<bytes>): bytes {
    if names == [] then [] else PutTopicMeta(v, names[0]) + PutTopicsMeta(v, names[1..])
  }

  /** The one broker, with id 1 and no rack. */
  function PutBroker(v: int, host: bytes, port: int): bytes {
    var f := v >= 9;
    PutInt(1, 4) + (PutName(host, f) + (PutInt(port, 4) + (PutNull(f) + PutTags(f))))
  }

  function PutMetadataHead(v: int, corrID: int, host: bytes, port: int): bytes {
    var f := v >= 9;
    PutInt(corrID, 4) + (PutTags(f) + (PutInt(0, 4) + (PutCount(1, f) + (PutBroker(v, host, port) +
    ((if v >= 2 then PutNull(f) else []) + (if v >= 1 then PutInt(1, 4) else []))))))
  }

  function PutMetadataTail(v: int): bytes {
    (if v >= 8 then PutInt(0, 4) else []) + PutTags(v >= 9)
  }

  function PutMetadata(v: int, corrID: int, host: bytes, port: int, names: seq<bytes>): bytes {
    PutMetadataHead(v, corrID, host, port) +
    (PutCount(|names|, v >= 9) + (PutTopicsMeta(v, names) + PutMetadataTail(v)))
  }

  // ---------- A client's decoder, versions 0 to 8 ----------
  // Section "Metadata API (Key: 3)" of the Apache Kafka protocol guide. Any missing byte, negative array length
  // or null where none is allowed rejects the response. Before version 3 the published response has no throttle time;
  // there the decoder is one for the layout the code writes.

  datatype BrokerView = BrokerView(node: int, host: bytes, port: int, rack: Option<bytes>)

  datatype PartitionView = PartitionView(error: int, index: int, leader: int, epoch: Option<int>,
                                         replicas: seq<int>, isr: seq<int>, offline: Option<seq<int>>)

  datatype TopicView = TopicView(error: int, name: bytes, internal: bool, partitions: seq<PartitionView>,
                                 operations: Option<int>)

  datatype MetadataView = MetadataView(corrID: int, throttle: int, brokers: seq<BrokerView>, cluster: Option<bytes>,
                                       controller: Option<int>, topics: seq<TopicView>, operations: Option<int>)

  function StrictInt(b: bytes, p: nat, w: Width): (r: Option<(int, nat)>)
    requires p <= |b|
    ensures r.Some? ==> p <= r.value.1 <= |b|
  {
    if p + w > |b| then None else Some(IntAt(b, p, w))
  }

  /** A field that only versions from `since` on have. */
  function SinceInt(b: bytes, p: nat, v: int, since: int): (r: Option<(Option<int>, nat)>)
    requires p <= |b|
    ensures r.Some? ==> p <= r.value.1 <= |b|
  {
    if v < since then Some((None, p))
    else
      var (n, q) :- StrictInt(b, p, 4);
      Some((Some(n), q))
  }

  function NullableName(b: bytes, p: nat): (r: Option<(Option<bytes>, nat)>)
    requires p <= |b|
    ensures r.Some? ==> p <= r.value.1 <= |b|
  {
    var (n, q) :- StrictInt(b, p, 2);
    if n == -1 then Some((None, q))
    else if n < 0 || q + n > |b| then None
    else Some((Some(b[q..q + n]), q + n))
  }

  function StrictName(b: bytes, p: nat): (r: Option<(bytes, nat)>)
    requires p <= |b|
    ensures r.Some? ==> p <= r.value.1 <= |b|
  {
    var (s, q) :- NullableName(b, p);
    if s.None? then None else Some((s.value, q))
  }

  function StrictCount(b: bytes, p: nat): (r: Option<(nat, nat)>)
    requires p <= |b|
    ensures r.Some? ==> p <= r.value.1 <= |b|
  {
    var (n, q) :- StrictInt(b, p, 4);
    if n < 0 then None else Some((n, q))
  }

  function StrictUvarint(b: bytes, p: nat): (r: Option<(nat, nat)>)
    requires p <= |b|
    ensures r.Some? ==> p <= r.value.1 <= |b|
  {
    var (v, n) := UvarintAt(b, p);
    if n <= 0 then None else Some((v, p + n))
  }

  /** The end of a structure: from version 3 on, no tagged fields. */
  function TagsAt(b: bytes, p: nat, flexible: bool): (r: Option<nat>)
    requires p <= |b|
    ensures r.Some? ==> p <= r.value <= |b|
  {
    if !flexible then Some(p)
    else
      var (n, q) :- StrictUvarint(b, p);
      if n == 0 then Some(q) else None
  }

  function ArrayLength(b: bytes, p: nat, flexible: bool): (r: Option<(nat, nat)>)
    requires p <= |b|
    ensures r.Some? ==> p <= r.value.1 <= |b|
  {
    if !flexible then StrictCount(b, p)
    else
      var (n, q) :- StrictUvarint(b, p);
      if n == 0 then None else Some((n - 1, q))
  }

  function IdsAt(b: bytes, p: nat, n: nat): (r: Option<(seq<int>, nat)>)
    requires p <= |b|
    ensures r.Some? ==> p <= r.value.1 <= |b|
    decreases n
  {
    if n == 0 then Some(([], p))
    else
      var (id, p1) :- StrictInt(b, p, 4);
      var (rest, q) :- IdsAt(b, p1, n - 1);
      Some(([id] + rest, q))
  }

  function Ids(b: bytes, p: nat): (r: Option<(seq<int>, nat)>)
    requires p <= |b|
    ensures r.Some? ==> p <= r.value.1 <= |b|
  {
    var (n, q) :- StrictCount(b, p);
    IdsAt(b, q, n)
  }

  function DecodeBroker(b: bytes, p: nat): (r: Option<(BrokerView, nat)>)
    requires p <= |b|
    ensures r.Some? ==> p <= r.value.1 <= |b|
  {
    var (node, p1) :- StrictInt(b, p, 4);
    var (host, p2) :- StrictName(b, p1);
    var (port, p3) :- StrictInt(b, p2, 4);
    var (rack, q) :- NullableName(b, p3);
    Some((BrokerView(node, host, port, rack), q))
  }

  function DecodeBrokers(b: bytes, p: nat, n: nat): (r: Option<(seq<BrokerView>, nat)>)
    requires p <= |b|
    ensures r.Some? ==> p <= r.value.1 <= |b|
    decreases n
  {
    if n == 0 then Some(([], p))
    else
      var (one, p1) :- DecodeBroker(b, p);
      var (rest, q) :- DecodeBrokers(b, p1, n - 1);
      Some(([one] + rest, q))
  }

  function DecodePartition(b: bytes, p: nat, v: int): (r: Option<(PartitionView, nat)>)
    requires p <= |b|
    ensures r.Some? ==> p <= r.value.1 <= |b|
  {
    var (error, p1) :- StrictInt(b, p, 2);
    var (index, p2) :- StrictInt(b, p1, 4);
    var (leader, p3) :- StrictInt(b, p2, 4);
    var (epoch, p4) :- SinceInt(b, p3, v, 7);
    var (replicas, p5) :- Ids(b, p4);
    var (isr, p6) :- Ids(b, p5);
    if v < 5 then Some((PartitionView(error, index, leader, epoch, replicas, isr, None), p6))
    else
      var (offline, q) :- Ids(b, p6);
      Some((PartitionView(error, index, leader, epoch, replicas, isr, Some(offline)), q))
  }

  function DecodePartitions(b: bytes, p: nat, n: nat, v: int): (r: Option<(seq<PartitionView>, nat)>)
    requires p <= |b|
    ensures r.Some? ==> p <= r.value.1 <= |b|
    decreases n
  {
    if n == 0 then Some(([], p))
    else
      var (one, p1) :- DecodePartition(b, p, v);
      var (rest, q) :- DecodePartitions(b, p1, n - 1, v);
      Some(([one] + rest, q))
  }

  function DecodeTopic(b: bytes, p: nat, v: int): (r: Option<(TopicView, nat)>)
    requires p <= |b|
    ensures r.Some? ==> p <= r.value.1 <= |b|
  {
    var (error, p1) :- StrictInt(b, p, 2);
    var (name, p2) :- StrictName(b, p1);
    var (internal, p3) :- if v < 1 then Some((0, p2)) else StrictInt(b, p2, 1);
    var (n, p4) :- StrictCount(b, p3);
    var (partitions, p5) :- DecodePartitions(b, p4, n, v);
    var (operations, q) :- SinceInt(b, p5, v, 8);
    Some((TopicView(error, name, internal != 0, partitions, operations), q))
  }

  function DecodeTopics(b: bytes, p: nat, n: nat, v: int): (r: Option<(seq<TopicView>, nat)>)
    requires p <= |b|
    ensures r.Some? ==> p <= r.value.1 <= |b|
    decreases n
  {
    if n == 0 then Some(([], p))
    else
      var (one, p1) :- DecodeTopic(b, p, v);
      var (rest, q) :- DecodeTopics(b, p1, n - 1, v);
      Some(([one] + rest, q))
  }

  /** Everything before the topics. */
  function DecodeHead(b: bytes, v: int): (r: Option<(MetadataView, nat)>)
    ensures r.Some? ==> r.value.1 <= |b|
  {
    var (corrID, p1) :- StrictInt(b, 0, 4);
    var (throttle, p2) :- StrictInt(b, p1, 4);
    var (n, p3) :- StrictCount(b, p2);
    var (brokers, p4) :- DecodeBrokers(b, p3, n);
    var (cluster, p5) :- if v < 2 then Some((None, p4)) else NullableName(b, p4);
    var (controller, q) :- SinceInt(b, p5, v, 1);
    Some((MetadataView(corrID, throttle, brokers, cluster, controller, [], None), q))
  }

  /** The whole response; bytes left over reject it. */
  function DecodeMetadata(b: bytes, v: int): Option<MetadataView> {
    var (head, p1) :- DecodeHead(b, v);
    var (n, p2) :- StrictCount(b, p1);
    var (topics, p3) :- DecodeTopics(b, p2, n, v);
    var (operations, q) :- SinceInt(b, p3, v, 8);
    if q < |b| then None else Some(head.(topics := topics, operations := operations))
  }

  // ---------- Clients read what the code writes ----------

  predicate Readable(name: bytes) { 0 < |name| < 0x8000 }

  function ExpectedPartition(v: int): PartitionView {
    PartitionView(0, 0, 1, if v >= 7 then Some(0) else None, [1], [1], if v >= 5 then Some([]) else None)
  }

  /** One leader-1 partition. */
  function ExpectedTopic(v: int, name: bytes): TopicView {
    TopicView(0, name, false, [ExpectedPartition(v)], if v >= 8 then Some(NO_OPERATIONS) else None)
  }

  function ExpectedTopics(v: int, names: seq<bytes>): seq<TopicView> {
    if names == [] then [] else [ExpectedTopic(v, names[0])] + ExpectedTopics(v, names[1..])
  }

  function ExpectedMetadata(v: int, corrID: int, host: bytes, port: int, names: seq<bytes>): MetadataView {
    MetadataView(corrID, 0, [BrokerView(1, host, port, None)], None, if v >= 1 then Some(1) else None,
                 ExpectedTopics(v, names), if v >= 8 then Some(0) else None)
  }

  lemma TagsDecode(b: bytes, p: nat, flexible: bool)
    requires At(b, p, PutTags(flexible))
    ensures p <= |b| && TagsAt(b, p, flexible) == Some(p + |PutTags(flexible)|)
  {
    if flexible {
      UvarintRoundTrip(b, p, 0);
    }
  }

  lemma ArrayLengthDecodes(b: bytes, p: nat, n: nat, flexible: bool)
    requires n < 0x7fff_ffff && At(b, p, PutCount(n, flexible))
    ensures p <= |b| && ArrayLength(b, p, flexible) == Some((n, p + |PutCount(n, flexible)|))
  {
    hide At, UvarintAt, PutUvarint, IntAt, PutInt, GetInt;
    AtMeans(b, p, PutCount(n, flexible));
    if flexible {
      UvarintRoundTrip(b, p, n + 1);
    } else {
      IntReadBack(b, p, n, 4);
    }
  }

  lemma NameDecodes(b: bytes, p: nat, s: bytes)
    requires |s| < 0x8000 && At(b, p, PutString(s))
    ensures StrictName(b, p) == if s == [] then None else Some((s, p + |PutString(s)|))
  {
    AtSplit(b, p, PutInt(|s|, 2), s);
    IntReadBack(b, p, if s == [] then -1 else |s|, 2);
  }

  /** A one-element array of id 1, and an empty one. */
  lemma IdsDecode(b: bytes, p: nat)
    requires At(b, p, PutInt(1, 4)) && At(b, p + 4, PutInt(1, 4))
    ensures Ids(b, p) == Some(([1], p + 8))
  {
    hide At, IntAt, PutInt;
    AtAll(b);
    IntReadBack(b, p, 1, 4);
    IntReadBack(b, p + 4, 1, 4);
    assert IdsAt(b, p + 8, 0) == Some(([], p + 8));
    assert [1] + [] == [1];
  }

  lemma NoIdsDecode(b: bytes, p: nat)
    requires At(b, p, PutInt(0, 4))
    ensures Ids(b, p) == Some(([], p + 4))
  {
    hide At, IntAt, PutInt;
    AtAll(b);
    IntReadBack(b, p, 0, 4);
  }

  lemma PartitionHeadDecodes(b: bytes, p: nat, v: int)
    requires 0 <= v <= 8 && At(b, p, PutPartitionHead(v))
    ensures p + 10 <= |b| && StrictInt(b, p, 2) == Some((0, p + 2)) && StrictInt(b, p + 2, 4) == Some((0, p + 6))
    ensures StrictInt(b, p + 6, 4) == Some((1, p + 10))
    ensures SinceInt(b, p + 10, v, 7) == Some((if v >= 7 then Some(0) else None, p + |PutPartitionHead(v)|))
  {
    hide At, IntAt, PutInt;
    AtAll(b);
    IntReadBack(b, p, 0, 2);
    IntReadBack(b, p + 2, 0, 4);
    IntReadBack(b, p + 6, 1, 4);
    if v >= 7 {
      IntReadBack(b, p + 10, 0, 4);
    }
  }

  lemma ReplicasDecode(b: bytes, p: nat, v: int)
    requires 0 <= v <= 8 && At(b, p, PutReplicas(v))
    ensures p + 16 <= |b| && Ids(b, p) == Some(([1], p + 8)) && Ids(b, p + 8) == Some(([1], p + 16))
    ensures v >= 5 ==> Ids(b, p + 16) == Some(([], p + 20))
  {
    hide At, PutInt, Ids;
    AtAll(b);
    IdsDecode(b, p);
    IdsDecode(b, p + 8);
    if v >= 5 {
      NoIdsDecode(b, p + 16);
    }
  }

  lemma PartitionDecodes(b: bytes, p: nat, v: int)
    requires 0 <= v <= 8 && At(b, p, PutPartitionMeta(v))
    ensures DecodePartition(b, p, v) == Some((ExpectedPartition(v), p + |PutPartitionMeta(v)|))
  {
    hide At, StrictInt, SinceInt, Ids, PutInt, PutPartitionHead;
    AtAll(b);
    PartitionHeadDecodes(b, p, v);
    ReplicasDecode(b, p + |PutPartitionHead(v)|, v);
  }

  lemma OnePartition(b: bytes, p: nat, v: int, q: nat)
    requires p <= |b| && DecodePartition(b, p, v) == Some((ExpectedPartition(v), q))
    ensures DecodePartitions(b, p, 1, v) == Some(([ExpectedPartition(v)], q))
  {
    hide DecodePartition;
    assert DecodePartitions(b, q, 0, v) == Some(([], q));
    assert [ExpectedPartition(v)] + [] == [ExpectedPartition(v)];
  }

  /** Error, name, internal flag and partition count; an empty name is written as null, which no client accepts. */
  lemma TopicHeadDecodes(b: bytes, p: nat, v: int, name: bytes)
    requires 0 <= v <= 8 && |name| < 0x8000 && At(b, p, PutTopicHead(v, name))
    ensures p + 2 <= |b| && StrictInt(b, p, 2) == Some((0, p + 2))
    ensures name == [] ==> StrictName(b, p + 2) == None
    ensures name != [] ==> StrictName(b, p + 2) == Some((name, p + 2 + |PutString(name)|))
    ensures var p2 := p + 2 + |PutString(name)|;
            var p3 := if v < 1 then p2 else p2 + 1;
            && p3 + 4 <= |b| && (v >= 1 ==> StrictInt(b, p2, 1) == Some((0, p3)))
            && StrictCount(b, p3) == Some((1, p + |PutTopicHead(v, name)|))
  {
    hide At, IntAt, PutInt, PutString, StrictName;
    AtAll(b);
    IntReadBack(b, p, 0, 2);
    NameDecodes(b, p + 2, name);
    var p2 := p + 2 + |PutString(name)|;
    if v >= 1 {
      IntReadBack(b, p2, 0, 1);
    }
    IntReadBack(b, if v < 1 then p2 else p2 + 1, 1, 4);
  }

  lemma TopicTailDecodes(b: bytes, p: nat, v: int)
    requires 0 <= v <= 8 && At(b, p, PutTopicTail(v))
    ensures p <= |b|
    ensures SinceInt(b, p, v, 8) == Some((if v >= 8 then Some(NO_OPERATIONS) else None, p + |PutTopicTail(v)|))
  {
    if v >= 8 {
      AtAll(b);
      IntReadBack(b, p, NO_OPERATIONS, 4);
    }
  }

  lemma TopicDecodes(b: bytes, p: nat, v: int, name: bytes)
    requires 0 <= v <= 8 && |name| < 0x8000 && At(b, p, PutTopicMeta(v, name))
    ensures DecodeTopic(b, p, v) ==
            if name == [] then None else Some((ExpectedTopic(v, name), p + |PutTopicMeta(v, name)|))
  {
    hide At, StrictInt, StrictCount, SinceInt, StrictName, PutPartitionMeta, DecodePartitions, PutTopicHead,
      PutTopicTail, ExpectedPartition;
    AtAll(b);
    TopicHeadDecodes(b, p, v, name);
    if name != [] {
      var p4 := p + |PutTopicHead(v, name)|;
      PartitionDecodes(b, p4, v);
      var q := p4 + |PutPartitionMeta(v)|;
      OnePartition(b, p4, v, q);
      TopicTailDecodes(b, q, v);
    }
  }

  lemma {:induction false} TopicsDecode(b: bytes, p: nat, v: int, names: seq<bytes>)
    requires 0 <= v <= 8 && (forall s :: s in names ==> |s| < 0x8000) && At(b, p, PutTopicsMeta(v, names))
    ensures DecodeTopics(b, p, |names|, v) ==
            if [] in names then None else Some((ExpectedTopics(v, names), p + |PutTopicsMeta(v, names)|))
    decreases |names|
  {
    hide At, DecodeTopic, PutTopicMeta, ExpectedTopic;
    if names == [] {
      AtAll(b);
    } else {
      AtSplit(b, p, PutTopicMeta(v, names[0]), PutTopicsMeta(v, names[1..]));
      FirstOrRest(names);
      TopicDecodes(b, p, v, names[0]);
      if names[0] != [] {
        TopicsDecode(b, p + |PutTopicMeta(v, names[0])|, v, names[1..]);
      }
    }
  }

  lemma FirstOrRest(names: seq<bytes>)
    requires names != []
    ensures forall s :: s in names <==> s == names[0] || s in names[1..]
  {
    assert names == [names[0]] + names[1..];
  }

  lemma BrokerDecodes(b: bytes, p: nat, v: int, host: bytes, port: int32)
    requires 0 <= v <= 8 && Readable(host) && At(b, p, PutBroker(v, host, port))
    ensures DecodeBroker(b, p) == Some((BrokerView(1, host, port, None), p + |PutBroker(v, host, port)|))
  {
    hide At, IntAt, PutInt, PutString, StrictName;
    AtAll(b);
    IntsReadBack(b);
    NameDecodes(b, p + 4, host);
  }

  lemma HeadDecodes(b: bytes, v: int, corrID: int32, host: bytes, port: int32)
    requires 0 <= v <= 8 && Readable(host) && At(b, 0, PutMetadataHead(v, corrID, host, port))
    ensures DecodeHead(b, v) == Some((ExpectedMetadata(v, corrID, host, port, []).(operations := None),
                                   |PutMetadataHead(v, corrID, host, port)|))
  {
    hide At, IntAt, PutInt, PutBroker, DecodeBroker;
    AtAll(b);
    IntsReadBack(b);
    BrokerDecodes(b, 12, v, host, port);
    var p4 := 12 + |PutBroker(v, host, port)|;
    assert DecodeBrokers(b, p4, 0) == Some(([], p4));
    assert [BrokerView(1, host, port, None)] + [] == [BrokerView(1, host, port, None)];
  }

  /**
   * In every version from 0 to 8 and for every enumeration of the topics, a client reads back the correlation id, the
   * one broker at the advertised host and port, and one leader-1 partition per topic, and nothing is left over; it
   * rejects the response exactly when a topic has the empty name.
   */
  lemma MetadataDecodes(v: int, corrID: int32, host: bytes, port: int32, names: seq<bytes>)
    requires 0 <= v <= 8 && Readable(host) && |names| < 0x8000_0000 && (forall s :: s in names ==> |s| < 0x8000)
    ensures DecodeMetadata(PutMetadata(v, corrID, host, port, names), v) ==
            if [] in names then None else Some(ExpectedMetadata(v, corrID, host, port, names))
  {
    hide At, IntAt, PutInt, PutMetadataHead, DecodeHead, DecodeTopics, PutTopicsMeta;
    var b := PutMetadata(v, corrID, host, port, names);
    Everywhere(b);
    AtAll(b);
    IntsReadBack(b);
    HeadDecodes(b, v, corrID, host, port);
    TopicsDecode(b, |PutMetadataHead(v, corrID, host, port)| + 4, v, names);
  }

  /** No client reads a longer name than the length field can say. */
  lemma NamesAreShort(b: bytes, p: nat)
    requires p <= |b|
    ensures StrictName(b, p).Some? ==> |StrictName(b, p).value.0| < 0x8000
  {
  }

  lemma TopicNamesAreShort(b: bytes, p: nat, v: int)
    requires p <= |b|
    ensures DecodeTopic(b, p, v).Some? ==> |DecodeTopic(b, p, v).value.0.name| < 0x8000
  {
    hide StrictInt, StrictCount, SinceInt, StrictName, DecodePartitions;
    if DecodeTopic(b, p, v).Some? {
      NamesAreShort(b, StrictInt(b, p, 2).value.1);
    }
  }

  lemma UnreadableTopic(b: bytes, p: nat, v: int, name: bytes)
    requires 0 <= v <= 8 && At(b, p, PutTopicMeta(v, name)) && !Readable(name)
    ensures p <= |b| && (DecodeTopic(b, p, v).Some? ==> DecodeTopic(b, p, v).value.0 != ExpectedTopic(v, name))
  {
    hide DecodeTopic, PutTopicMeta;
    if name == [] {
      TopicDecodes(b, p, v, name);
    } else {
      TopicNamesAreShort(b, p, v);
    }
  }

  lemma {:induction false} UnreadableTopics(b: bytes, p: nat, v: int, names: seq<bytes>)
    requires 0 <= v <= 8 && At(b, p, PutTopicsMeta(v, names)) && exists s :: s in names && !Readable(s)
    ensures p <= |b|
    ensures DecodeTopics(b, p, |names|, v).Some? ==>
              DecodeTopics(b, p, |names|, v).value.0 != ExpectedTopics(v, names)
    decreases |names|
  {
    hide At, DecodeTopic, PutTopicMeta, ExpectedTopic, Readable;
    AtAll(b);
    var got := DecodeTopics(b, p, |names|, v);
    if !Readable(names[0]) {
      UnreadableTopic(b, p, v, names[0]);
      assert got.Some? ==> got.value.0[0] != ExpectedTopics(v, names)[0];
    } else {
      ReadableMeans(names[0]);
      TopicDecodes(b, p, v, names[0]);
      assert exists s :: s in names[1..] && !Readable(s);
      UnreadableTopics(b, p + |PutTopicMeta(v, names[0])|, v, names[1..]);
      assert got.Some? ==> got.value.0[1..] != ExpectedTopics(v, names)[1..];
    }
  }

  lemma ReadableMeans(name: bytes)
    ensures Readable(name) <==> name != [] && |name| < 0x8000
  {
  }

  /**
   * A client gets back what the broker means exactly when every topic name is neither empty nor longer than its length
   * field can say; a request in the flexible encoding can create topics with longer names.
   */
  lemma MetadataReadBackExactly(v: int, corrID: int32, host: bytes, port: int32, names: seq<bytes>)
    requires 0 <= v <= 8 && Readable(host) && |names| < 0x8000_0000
    ensures var got := DecodeMetadata(PutMetadata(v, corrID, host, port, names), v);
            got == Some(ExpectedMetadata(v, corrID, host, port, names)) <==> forall s :: s in names ==> Readable(s)
  {
    hide At, IntAt, PutInt, PutMetadataHead, DecodeHead, DecodeTopics, PutTopicsMeta, ExpectedTopics;
    if forall s :: s in names ==> Readable(s) {
      MetadataDecodes(v, corrID, host, port, names);
    } else {
      var b := PutMetadata(v, corrID, host, port, names);
      Everywhere(b);
      AtAll(b);
      IntsReadBack(b);
      HeadDecodes(b, v, corrID, host, port);
      UnreadableTopics(b, |PutMetadataHead(v, corrID, host, port)| + 4, v, names);
    }
  }

  /** The topics a client sees are exactly the enumerated names. */
  lemma {:induction false} ExpectedTopicNames(v: int, names: seq<bytes>, i: nat)
    requires i < |names|
    ensures |ExpectedTopics(v, names)| == |names| && ExpectedTopics(v, names)[i] == ExpectedTopic(v, names[i])
  {
    if |names| > 1 {
      ExpectedTopicNames(v, names[1..], if i > 0 then i - 1 else 0);
    }
  }
}
