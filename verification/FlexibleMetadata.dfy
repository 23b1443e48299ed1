/**
 * The Metadata response from version 9 on, in the layout the code writes (internal/broker/broker.go, handleMetadata):
 * a topic has the 16 bytes of an id, which the published response has only from version 10 on.
 */
module FlexibleMetadata {
  import opened GoTypes
  import opened Binary
  import opened Wire
  import opened Metadata

  // ---------- A reader of that layout ----------

  /** A compact string; null is not one. */
  function StrictCompact(b: bytes, p: nat): (r: Option<(bytes, nat)>)
    requires p <= |b|
    ensures r.Some? ==> p <= r.value.1 <= |b|
  {
    var (n, q) :- StrictUvarint(b, p);
    if n == 0 || q + n - 1 > |b| then None else Some((b[q..q + n - 1], q + n - 1))
  }

  /** A null in place of a compact string. */
  function NullAt(b: bytes, p: nat): (r: Option<nat>)
    requires p <= |b|
    ensures r.Some? ==> p <= r.value <= |b|
  {
    TagsAt(b, p, true)
  }

  function CompactIds(b: bytes, p: nat): (r: Option<(seq<int>, nat)>)
    requires p <= |b|
    ensures r.Some? ==> p <= r.value.1 <= |b|
  {
    var (n, q) :- ArrayLength(b, p, true);
    IdsAt(b, q, n)
  }

  /** The one broker. */
  function FlexibleBroker(b: bytes, p: nat): (r: Option<(BrokerView, nat)>)
    requires p <= |b|
    ensures r.Some? ==> p <= r.value.1 <= |b|
  {
    var (node, p1) :- StrictInt(b, p, 4);
    var (host, p2) :- StrictCompact(b, p1);
    var (port, p3) :- StrictInt(b, p2, 4);
    var p4 :- NullAt(b, p3);
    var q :- TagsAt(b, p4, true);
    Some((BrokerView(node, host, port, None), q))
  }

  function FlexibleHead(b: bytes): (r: Option<(MetadataView, nat)>)
    ensures r.Some? ==> r.value.1 <= |b|
  {
    var (corrID, p1) :- StrictInt(b, 0, 4);
    var p2 :- TagsAt(b, p1, true);
    var (throttle, p3) :- StrictInt(b, p2, 4);
    var (n, p4) :- ArrayLength(b, p3, true);
    if n != 1 then None
    else
      var (one, p5) :- FlexibleBroker(b, p4);
      var p6 :- NullAt(b, p5);
      var (controller, q) :- StrictInt(b, p6, 4);
      Some((MetadataView(corrID, throttle, [one], None, Some(controller), [], None), q))
  }

  function FlexiblePartition(b: bytes, p: nat): (r: Option<(PartitionView, nat)>)
    requires p <= |b|
    ensures r.Some? ==> p <= r.value.1 <= |b|
  {
    var (error, p1) :- StrictInt(b, p, 2);
    var (index, p2) :- StrictInt(b, p1, 4);
    var (leader, p3) :- StrictInt(b, p2, 4);
    var (epoch, p4) :- StrictInt(b, p3, 4);
    var (replicas, p5) :- CompactIds(b, p4);
    var (isr, p6) :- CompactIds(b, p5);
    var (offline, p7) :- CompactIds(b, p6);
    var q :- TagsAt(b, p7, true);
    Some((PartitionView(error, index, leader, Some(epoch), replicas, isr, Some(offline)), q))
  }

  function FlexibleTopic(b: bytes, p: nat): (r: Option<(TopicView, nat)>)
    requires p <= |b|
    ensures r.Some? ==> p <= r.value.1 <= |b|
  {
    var (error, p1) :- StrictInt(b, p, 2);
    var (name, p2) :- StrictCompact(b, p1);
    if p2 + 16 > |b| then None
    else
      var (internal, p3) :- StrictInt(b, p2 + 16, 1);
      var (n, p4) :- ArrayLength(b, p3, true);
      if n != 1 then None
      else
        var (one, p5) :- FlexiblePartition(b, p4);
        var (operations, p6) :- StrictInt(b, p5, 4);
        var q :- TagsAt(b, p6, true);
        Some((TopicView(error, name, internal != 0, [one], Some(operations)), q))
  }

  function FlexibleTopics(b: bytes, p: nat, n: nat): (r: Option<(seq<TopicView>, nat)>)
    requires p <= |b|
    ensures r.Some? ==> p <= r.value.1 <= |b|
    decreases n
  {
    if n == 0 then Some(([], p))
    else
      var (one, p1) :- FlexibleTopic(b, p);
      var (rest, q) :- FlexibleTopics(b, p1, n - 1);
      Some(([one] + rest, q))
  }

  function DecodeFlexible(b: bytes): Option<MetadataView> {
    var (head, p1) :- FlexibleHead(b);
    var (n, p2) :- ArrayLength(b, p1, true);
    var (topics, p3) :- FlexibleTopics(b, p2, n);
    var (operations, p4) :- StrictInt(b, p3, 4);
    var q :- TagsAt(b, p4, true);
    if q < |b| then None else Some(head.(topics := topics, operations := Some(operations)))
  }

  // ---------- It reads what the code writes ----------

  lemma NameParts(s: bytes)
    requires |s| < MAX_INT
    ensures PutName(s, true) == PutUvarint(|s| + 1) + s
  {
    hide PutUvarint, PutLength, PutString;
    SmallLength(|s| + 1);
  }

  /** A compact string stands at `p`, its bytes at `q`. */
  lemma CompactStands(b: bytes, p: nat, s: bytes, q: nat)
    requires p <= |b| && StrictUvarint(b, p) == Some((|s| + 1, q)) && At(b, q, s)
    ensures StrictCompact(b, p) == Some((s, q + |s|))
  {
    hide StrictUvarint;
  }

  lemma CompactDecodes(b: bytes, p: nat, s: bytes)
    requires |s| < MAX_INT && At(b, p, PutName(s, true))
    ensures p <= |b| && StrictCompact(b, p) == Some((s, p + |PutName(s, true)|))
  {
    hide At, PutName, PutUvarint, UvarintAt, StrictCompact;
    NameParts(s);
    AtMeans(b, p, PutName(s, true));
    AtSplit(b, p, PutUvarint(|s| + 1), s);
    UvarintRoundTrip(b, p, |s| + 1);
    CompactStands(b, p, s, p + |PutUvarint(|s| + 1)|);
  }

  lemma NullDecodes(b: bytes, p: nat)
    requires At(b, p, PutNull(true))
    ensures p <= |b| && NullAt(b, p) == Some(p + |PutNull(true)|)
  {
    hide At;
    AtMeans(b, p, PutNull(true));
    TagsDecode(b, p, true);
  }

  lemma CompactIdsDecode(b: bytes, p: nat)
    requires At(b, p, PutCount(1, true)) && At(b, p + |PutCount(1, true)|, PutInt(1, 4))
    ensures p <= |b| && CompactIds(b, p) == Some(([1], p + |PutCount(1, true)| + 4))
  {
    hide At, IntAt, PutInt, PutCount, ArrayLength;
    AtAll(b);
    ArrayLengthDecodes(b, p, 1, true);
    var q := p + |PutCount(1, true)|;
    IntReadBack(b, q, 1, 4);
    assert IdsAt(b, q + 4, 0) == Some(([], q + 4));
    assert [1] + [] == [1];
  }

  lemma NoCompactIdsDecode(b: bytes, p: nat)
    requires At(b, p, PutCount(0, true))
    ensures p <= |b| && CompactIds(b, p) == Some(([], p + |PutCount(0, true)|))
  {
    hide At, PutCount, ArrayLength;
    AtMeans(b, p, PutCount(0, true));
    ArrayLengthDecodes(b, p, 0, true);
  }

  lemma FlexibleBrokerDecodes(b: bytes, p: nat, v: int, host: bytes, port: int32)
    requires v >= 9 && |host| < MAX_INT && At(b, p, PutBroker(v, host, port))
    ensures p <= |b| && FlexibleBroker(b, p) == Some((BrokerView(1, host, port, None), p + |PutBroker(v, host, port)|))
  {
    hide At, IntAt, PutInt, PutName, PutNull, PutTags, StrictCompact, NullAt, TagsAt;
    AtAll(b);
    IntReadBack(b, p, 1, 4);
    CompactDecodes(b, p + 4, host);
    var p2 := p + 4 + |PutName(host, true)|;
    IntReadBack(b, p2, port, 4);
    NullDecodes(b, p2 + 4);
    TagsDecode(b, p2 + 4 + |PutNull(true)|, true);
  }

  lemma FlexibleHeadDecodes(b: bytes, v: int, corrID: int32, host: bytes, port: int32)
    requires v >= 9 && |host| < MAX_INT && At(b, 0, PutMetadataHead(v, corrID, host, port))
    ensures FlexibleHead(b) == Some((ExpectedMetadata(9, corrID, host, port, []).(operations := None),
                                     |PutMetadataHead(v, corrID, host, port)|))
  {
    hide At, IntAt, PutInt, PutTags, PutNull, PutCount, PutBroker, TagsAt, NullAt, ArrayLength, FlexibleBroker;
    AtAll(b);
    IntReadBack(b, 0, corrID, 4);
    TagsDecode(b, 4, true);
    var p2 := 4 + |PutTags(true)|;
    IntReadBack(b, p2, 0, 4);
    ArrayLengthDecodes(b, p2 + 4, 1, true);
    var p4 := p2 + 4 + |PutCount(1, true)|;
    FlexibleBrokerDecodes(b, p4, v, host, port);
    var p5 := p4 + |PutBroker(v, host, port)|;
    NullDecodes(b, p5);
    IntReadBack(b, p5 + |PutNull(true)|, 1, 4);
  }

  lemma FlexiblePartitionDecodes(b: bytes, p: nat, v: int)
    requires v >= 9 && At(b, p, PutPartitionMeta(v))
    ensures p <= |b| && FlexiblePartition(b, p) == Some((ExpectedPartition(9), p + |PutPartitionMeta(v)|))
  {
    hide At, IntAt, PutInt, PutTags, PutCount, TagsAt, CompactIds;
    AtAll(b);
    IntReadBack(b, p, 0, 2);
    IntReadBack(b, p + 2, 0, 4);
    IntReadBack(b, p + 6, 1, 4);
    IntReadBack(b, p + 10, 0, 4);
    CompactIdsDecode(b, p + 14);
    var p5 := p + 14 + |PutCount(1, true)| + 4;
    CompactIdsDecode(b, p5);
    var p6 := p5 + |PutCount(1, true)| + 4;
    NoCompactIdsDecode(b, p6);
    TagsDecode(b, p6 + |PutCount(0, true)|, true);
  }

  lemma FlexibleTopicDecodes(b: bytes, p: nat, v: int, name: bytes)
    requires v >= 9 && |name| < MAX_INT && At(b, p, PutTopicMeta(v, name))
    ensures p <= |b| && FlexibleTopic(b, p) == Some((ExpectedTopic(9, name), p + |PutTopicMeta(v, name)|))
  {
    hide At, IntAt, PutInt, PutName, PutTags, PutCount, PutPartitionMeta, StrictCompact, TagsAt, ArrayLength,
      FlexiblePartition, ExpectedPartition;
    AtAll(b);
    IntReadBack(b, p, 0, 2);
    CompactDecodes(b, p + 2, name);
    var p2 := p + 2 + |PutName(name, true)|;
    IntReadBack(b, p2 + 16, 0, 1);
    ArrayLengthDecodes(b, p2 + 17, 1, true);
    var p4 := p2 + 17 + |PutCount(1, true)|;
    FlexiblePartitionDecodes(b, p4, v);
    var p5 := p4 + |PutPartitionMeta(v)|;
    IntReadBack(b, p5, NO_OPERATIONS, 4);
    TagsDecode(b, p5 + 4, true);
  }

  lemma {:induction false} FlexibleTopicsDecode(b: bytes, p: nat, v: int, names: seq<bytes>)
    requires v >= 9 && (forall s :: s in names ==> |s| < MAX_INT) && At(b, p, PutTopicsMeta(v, names))
    ensures p <= |b|
    ensures FlexibleTopics(b, p, |names|) == Some((ExpectedTopics(9, names), p + |PutTopicsMeta(v, names)|))
    decreases |names|
  {
    hide At, FlexibleTopic, PutTopicMeta, ExpectedTopic;
    AtMeans(b, p, PutTopicsMeta(v, names));
    if names != [] {
      AtSplit(b, p, PutTopicMeta(v, names[0]), PutTopicsMeta(v, names[1..]));
      assert names[0] in names;
      FlexibleTopicDecodes(b, p, v, names[0]);
      FlexibleTopicsDecode(b, p + |PutTopicMeta(v, names[0])|, v, names[1..]);
    }
  }

  /**
   * From version 9 on too the response holds the correlation id, the broker's host and port and one leader-1 partition
   * per topic, whatever the names and their order, and nothing else.
   */
  lemma FlexibleMetadataRead(v: int, corrID: int32, host: bytes, port: int32, names: seq<bytes>)
    requires v >= 9 && |host| < MAX_INT && |names| < 0x7fff_ffff && forall s :: s in names ==> |s| < MAX_INT
    ensures DecodeFlexible(PutMetadata(v, corrID, host, port, names)) ==
            Some(ExpectedMetadata(9, corrID, host, port, names))
  {
    hide At, IntAt, PutInt, PutTags, PutCount, PutMetadataHead, PutTopicsMeta, FlexibleHead, FlexibleTopics, TagsAt,
      ArrayLength;
    var b := PutMetadata(v, corrID, host, port, names);
    Everywhere(b);
    AtAll(b);
    FlexibleHeadDecodes(b, v, corrID, host, port);
    var p1 := |PutMetadataHead(v, corrID, host, port)|;
    ArrayLengthDecodes(b, p1, |names|, true);
    var p2 := p1 + |PutCount(|names|, true)|;
    FlexibleTopicsDecode(b, p2, v, names);
    var p3 := p2 + |PutTopicsMeta(v, names)|;
    IntReadBack(b, p3, 0, 4);
    TagsDecode(b, p3 + 4, true);
  }
}
