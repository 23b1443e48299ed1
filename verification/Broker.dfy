/** Requests, responses and connections of the broker (internal/broker/broker.go). */
module Broker {
  import opened GoTypes
  import opened Binary
  import opened Wire
  import opened RecordBatch
  import opened Produce
  import opened Metadata

  // ---------- Requests ----------

  datatype Header = Header(apiKey: int, version: int, corrID: int, pos: nat)

  predicate IsFlexible(apiKey: int, version: int) {
    if apiKey == 18 then version >= 3
    else if apiKey == 3 || apiKey == 0 then version >= 9
    else version >= 6
  }

  /** The request header; a client id, and in the flexible form tagged fields, are skipped. */
  function HeaderAt(body: bytes): (r: Outcome<Header>)
    ensures r.Ret? ==> r.value.pos <= |body|
  {
    var (key, p1) := IntAt(body, 0, 2);
    var (version, p2) := IntAt(body, p1, 2);
    var (corrID, p3) := IntAt(body, p2, 4);
    var (_, p4) :- NameAt(body, p3, IsFlexible(key, version));
    Ret(Header(key, version, corrID, Tagged(body, p4, IsFlexible(key, version))))
  }

  /** Whether handling a request stops the process is settled by its bytes. */
  predicate Faults(body: bytes) {
    match HeaderAt(body)
    case Fault => true
    case Ret(h) =>
      if h.apiKey == 3 then RequestedAt(body, h.pos, h.version >= 9).Fault?
      else if h.apiKey == 0 then ProduceAt(body, h.pos, h.version >= 9).Fault?
      else false
  }

  /** The topics a request names, and the messages it carries; of a faulting request, those before the fault. */
  function Requested(body: bytes): seq<bytes> {
    match HeaderAt(body)
    case Fault => []
    case Ret(h) =>
      if h.apiKey == 3 && RequestedAt(body, h.pos, h.version >= 9).Ret?
      then RequestedAt(body, h.pos, h.version >= 9).value.0 else []
  }

  function Carried(body: bytes): seq<Message> {
    match HeaderAt(body)
    case Fault => []
    case Ret(h) =>
      if h.apiKey == 0 then ProduceSent(body, h.pos, h.version >= 9) else []
  }

  // ---------- Responses ----------

  /** Supported API keys with their version ranges. */
  const SUPPORTED: seq<(int, int, int)> := [(0, 0, 8), (3, 0, 9), (18, 0, 3), (17, 0, 1), (36, 0, 2)]

  function PutApis(apis: seq<(int, int, int)>, flexible: bool): bytes {
    if apis == [] then []
    else
      PutInt(apis[0].0, 2) + (PutInt(apis[0].1, 2) + (PutInt(apis[0].2, 2) +
      (PutTags(flexible) + PutApis(apis[1..], flexible))))
  }

  function PutApiVersions(corrID: int, version: int): bytes {
    var f := version >= 3;
    PutInt(corrID, 4) + (PutInt(0, 2) + (PutCount(|SUPPORTED|, f) +
    (PutApis(SUPPORTED, f) + (PutInt(0, 4) + PutTags(f)))))
  }

  function PutProduceReply(corrID: int, flexible: bool): bytes {
    PutInt(corrID, 4) + (PutTags(flexible) + (PutInt(0, 4) + (PutCount(0, flexible) + PutTags(flexible))))
  }

  function PutSaslHandshake(corrID: int): bytes {
    PutInt(corrID, 4) + (PutInt(33, 2) + PutInt(0, 4))
  }

  function PutSaslAuthenticate(corrID: int): bytes {
    PutInt(corrID, 4) + (PutInt(58, 2) + (PutInt(-1, 2) + PutInt(-1, 4)))
  }

  function PutError(corrID: int, code: int): bytes {
    PutInt(corrID, 4) + PutInt(code, 2)
  }

  /** The response to a request with header `h`, with the topics in the order the map gave them. */
  ghost predicate Answers(h: Header, host: bytes, port: int, names: seq<bytes>, resp: bytes) {
    resp ==
    if h.apiKey == 18 then PutApiVersions(h.corrID, h.version)
    else if h.apiKey == 3 then PutMetadata(h.version, h.corrID, host, port, names)
    else if h.apiKey == 0 then PutProduceReply(h.corrID, h.version >= 9)
    else if h.apiKey == 17 then PutSaslHandshake(h.corrID)
    else if h.apiKey == 36 then PutSaslAuthenticate(h.corrID)
    else PutError(h.corrID, 35)
  }

  /** The four bytes a client finds its answer by; they are zero when the request ends before them. */
  function CorrelationBytes(body: bytes): bytes {
    if |body| >= 8 then body[4..8] else [0, 0, 0, 0]
  }

  /** Every kind of response starts with the correlation id of its request, byte for byte. */
  lemma AnswerStartsWithCorrelation(body: bytes, host: bytes, port: int, names: seq<bytes>, resp: bytes)
    requires |body| >= 4 && HeaderAt(body).Ret? && Answers(HeaderAt(body).value, host, port, names, resp)
    ensures |resp| >= 4 && resp[..4] == CorrelationBytes(body)
  {
    hide PutInt, NameAt, Tagged, PutApis, PutTags, PutCount, PutBroker, PutTopicsMeta, PutMetadataTail;
    if |body| >= 8 {
      PutOfGetInt(body[4..8]);
    } else {
      PutOfGetInt([0, 0, 0, 0]);
      ZeroInt();
    }
  }

  lemma ZeroInt()
    ensures GetInt([0, 0, 0, 0]) == 0
  {
    assert Big([0, 0, 0, 0]) == 0 by {
      assert [0, 0, 0, 0][..3] == [0, 0, 0];
      assert [0, 0, 0][..2] == [0, 0];
      assert [0, 0][..1] == [0];
      assert [0][..0] == [];
    }
  }

  // ---------- Requests in the layout the code reads ----------

  /** A non-flexible request header. */
  function PutHeader(apiKey: int, version: int, corrID: int, clientId: Option<bytes>): bytes {
    PutInt(apiKey, 2) + (PutInt(version, 2) + (PutInt(corrID, 4) + PutNullableString(clientId)))
  }

  function PutNames(names: seq<bytes>): bytes {
    if names == [] then [] else PutNullableString(Some(names[0])) + PutNames(names[1..])
  }

  function PutProduceRequest(version: int, corrID: int, clientId: Option<bytes>, w: WireProduce): bytes {
    PutHeader(0, version, corrID, clientId) + PutProduce(w)
  }

  function PutMetadataRequest(version: int, corrID: int, clientId: Option<bytes>, names: seq<bytes>): bytes {
    PutHeader(3, version, corrID, clientId) + (PutInt(|names|, 4) + PutNames(names))
  }

  lemma HeaderReadBack(body: bytes, apiKey: int, version: int, corrID: int32, clientId: Option<bytes>)
    requires Fits(apiKey, 2) && Fits(version, 2) && (clientId.Some? ==> |clientId.value| < 0x8000)
    requires version <= if apiKey == 18 then 2 else if apiKey == 0 || apiKey == 3 then 8 else 5
    requires At(body, 0, PutHeader(apiKey, version, corrID, clientId))
    ensures HeaderAt(body) == Ret(Header(apiKey, version, corrID, |PutHeader(apiKey, version, corrID, clientId)|))
  {
    hide At, IntAt, PutInt, StringAt, PutNullableString;
    AtAll(body);
    IntReadBack(body, 0, apiKey, 2);
    IntReadBack(body, 2, version, 2);
    IntReadBack(body, 4, corrID, 4);
    NullableReadBack(body, 8, clientId);
  }

  /**
   * Handling a Produce request of versions 0 to 8 in the layout the code reads queues exactly the records in it. That
   * layout has a transactional id in all those versions and no CRC in its batches.
   */
  lemma ProduceRequestServed(version: int, corrID: int32, clientId: Option<bytes>, w: WireProduce)
    requires 0 <= version <= 8 && (clientId.Some? ==> |clientId.value| < 0x8000) && ProduceFits(w)
    requires |PutProduceRequest(version, corrID, clientId, w)| <= MAX_INT
    ensures var body := PutProduceRequest(version, corrID, clientId, w);
            !Faults(body) && Carried(body) == TopicMessages(w.topics) && Requested(body) == []
  {
    hide At, PutHeader, PutProduce, HeaderAt, ProduceAt, ProduceSent, TopicMessages;
    var body := PutProduceRequest(version, corrID, clientId, w);
    Everywhere(body);
    AtAll(body);
    HeaderReadBack(body, 0, version, corrID, clientId);
    ProduceReadBack(body, |PutHeader(0, version, corrID, clientId)|, w);
    EverythingSent(body, |PutHeader(0, version, corrID, clientId)|, false);
  }

  lemma {:induction false} NamesReadBack(b: bytes, p: nat, names: seq<bytes>)
    requires At(b, p, PutNames(names)) && forall i :: 0 <= i < |names| ==> |names[i]| < 0x8000
    ensures NamesAt(b, p, |names|, false) == Ret((names, p + |PutNames(names)|))
    decreases |names|
  {
    hide At, StringAt, PutNullableString;
    AtAll(b);
    if names != [] {
      NullableReadBack(b, p, Some(names[0]));
      NamesReadBack(b, p + |PutNullableString(Some(names[0]))|, names[1..]);
      assert [names[0]] + names[1..] == names;
    }
  }

  /** A Metadata request of versions 0 to 8 asks for exactly the names in it. */
  lemma MetadataRequestServed(version: int, corrID: int32, clientId: Option<bytes>, names: seq<bytes>)
    requires 0 <= version <= 8 && (clientId.Some? ==> |clientId.value| < 0x8000)
    requires |names| < 0x8000_0000 && forall i :: 0 <= i < |names| ==> |names[i]| < 0x8000
    ensures var body := PutMetadataRequest(version, corrID, clientId, names);
            !Faults(body) && Requested(body) == names && Carried(body) == []
  {
    hide At, PutHeader, PutNames, HeaderAt, NamesAt, IntAt, PutInt;
    var body := PutMetadataRequest(version, corrID, clientId, names);
    Everywhere(body);
    AtAll(body);
    HeaderReadBack(body, 3, version, corrID, clientId);
    var p := |PutHeader(3, version, corrID, clientId)|;
    IntReadBack(body, p, |names|, 4);
    NamesReadBack(body, p + 4, names);
  }

  /** A negative number of names, as the null that asks for all topics, names none. */
  lemma NullNamesServed(version: int, corrID: int32, clientId: Option<bytes>, n: int32)
    requires 0 <= version <= 8 && (clientId.Some? ==> |clientId.value| < 0x8000) && n < 0
    ensures var body := PutHeader(3, version, corrID, clientId) + PutInt(n, 4);
            !Faults(body) && Requested(body) == [] && Carried(body) == []
  {
    hide At, PutHeader, HeaderAt, IntAt, PutInt;
    var body := PutHeader(3, version, corrID, clientId) + PutInt(n, 4);
    Everywhere(body);
    AtAll(body);
    HeaderReadBack(body, 3, version, corrID, clientId);
    IntReadBack(body, |PutHeader(3, version, corrID, clientId)|, n, 4);
  }

  // ---------- The flexible Metadata request, in the layout the code reads ----------

  function PutFlexibleNames(names: seq<bytes>): bytes {
    if names == [] then [] else PutCompact(names[0]) + (PutUvarint(0) + PutFlexibleNames(names[1..]))
  }

  /** The client id is a compact string here too, and no structure has tagged fields. */
  function PutFlexibleHeader(apiKey: int, version: int, corrID: int, clientId: bytes): bytes {
    PutInt(apiKey, 2) + (PutInt(version, 2) + (PutInt(corrID, 4) + (PutCompact(clientId) + PutUvarint(0))))
  }

  function PutFlexibleMetadataRequest(version: int, corrID: int, clientId: bytes, names: seq<bytes>): bytes {
    PutFlexibleHeader(3, version, corrID, clientId) +
    (PutLength(|names| + 1) + (PutFlexibleNames(names) + PutUvarint(0)))
  }

  lemma ZeroTag(b: bytes, p: nat)
    requires At(b, p, PutUvarint(0))
    ensures p < |b| && Tagged(b, p, true) == p + 1 && |PutUvarint(0)| == 1
  {
    UvarintRoundTrip(b, p, 0);
  }

  lemma {:induction false} FlexibleNamesReadBack(b: bytes, p: nat, names: seq<bytes>)
    requires |b| < MAX_INT && At(b, p, PutFlexibleNames(names))
    ensures NamesAt(b, p, |names|, true) == Ret((names, p + |PutFlexibleNames(names)|))
    decreases |names|
  {
    hide At, CompactAt, PutCompact, PutUvarint, UvarAt, StringAt;
    AtAll(b);
    if names != [] {
      CompactReadBack(b, p, names[0]);
      ZeroTag(b, p + |PutCompact(names[0])|);
      FlexibleNamesReadBack(b, p + |PutCompact(names[0])| + 1, names[1..]);
      assert [names[0]] + names[1..] == names;
    }
  }

  /** From version 3 of ApiVersions, 9 of Metadata and Produce, and 6 of all else. */
  lemma FlexibleHeaderReadBack(body: bytes, apiKey: int, version: int, corrID: int32, clientId: bytes)
    requires Fits(apiKey, 2) && Fits(version, 2) && |body| < MAX_INT
    requires version >= if apiKey == 18 then 3 else if apiKey == 0 || apiKey == 3 then 9 else 6
    requires At(body, 0, PutFlexibleHeader(apiKey, version, corrID, clientId))
    ensures HeaderAt(body) ==
            Ret(Header(apiKey, version, corrID, |PutFlexibleHeader(apiKey, version, corrID, clientId)|))
  {
    hide At, IntAt, PutInt, CompactAt, PutCompact, PutUvarint, UvarAt, StringAt;
    AtAll(body);
    IntReadBack(body, 0, apiKey, 2);
    IntReadBack(body, 2, version, 2);
    IntReadBack(body, 4, corrID, 4);
    CompactReadBack(body, 8, clientId);
    ZeroTag(body, 8 + |PutCompact(clientId)|);
  }

  /** The count of a flexible Produce request, cut to 32 bits. */
  lemma CountReadBack(b: bytes, p: nat, n: nat)
    requires n < 0x7fff_ffff && At(b, p, PutLength(n + 1))
    ensures p <= |b| && CountAt(b, p, true) == (n, p + |PutLength(n + 1)|)
  {
    hide PutUvarint, UvarintAt;
    UvarintRoundTrip(b, p, n + 1);
  }

  lemma NameCountReadBack(b: bytes, p: nat, n: nat)
    requires n < MAX_INT && At(b, p, PutLength(n + 1))
    ensures p <= |b| && NameCountAt(b, p, true) == (n, p + |PutLength(n + 1)|)
  {
    hide PutUvarint, UvarintAt;
    UvarintRoundTrip(b, p, n + 1);
  }

  /** A flexible Metadata request asks for exactly the names in it. */
  lemma FlexibleMetadataRequestServed(version: int, corrID: int32, clientId: bytes, names: seq<bytes>)
    requires 9 <= version < 0x8000 && |PutFlexibleMetadataRequest(version, corrID, clientId, names)| < MAX_INT
    requires |names| < MAX_INT
    ensures var body := PutFlexibleMetadataRequest(version, corrID, clientId, names);
            !Faults(body) && Requested(body) == names && Carried(body) == []
  {
    hide At, PutFlexibleHeader, PutFlexibleNames, HeaderAt, NamesAt, PutLength, PutUvarint, NameCountAt, Tagged;
    var body := PutFlexibleMetadataRequest(version, corrID, clientId, names);
    Everywhere(body);
    AtAll(body);
    FlexibleHeaderReadBack(body, 3, version, corrID, clientId);
    var p := |PutFlexibleHeader(3, version, corrID, clientId)|;
    NameCountReadBack(body, p, |names|);
    FlexibleNamesReadBack(body, p + |PutLength(|names| + 1)|, names);
  }

  // ---------- The queue of decoded messages ----------

  const QUEUE_CAPACITY := 4096

  /** Sends that never block: a message is dropped when the channel is full. */
  function Enqueue(queue: seq<Message>, ms: seq<Message>): (r: seq<Message>)
    ensures |queue| <= QUEUE_CAPACITY ==> |r| <= QUEUE_CAPACITY
    decreases |ms|
  {
    if ms == [] then queue
    else Enqueue(if |queue| < QUEUE_CAPACITY then queue + [ms[0]] else queue, ms[1..])
  }

  lemma {:induction false} EnqueueConcat(queue: seq<Message>, a: seq<Message>, b: seq<Message>)
    ensures Enqueue(queue, a + b) == Enqueue(Enqueue(queue, a), b)
    decreases |a|
  {
    if a == [] {
      assert a + b == b;
    } else {
      assert (a + b)[1..] == a[1..] + b;
      EnqueueConcat(if |queue| < QUEUE_CAPACITY then queue + [a[0]] else queue, a[1..], b);
    }
  }

  /** With no reader in between, exactly the first messages that fit are kept. */
  lemma {:induction false} EnqueueKeepsPrefix(queue: seq<Message>, ms: seq<Message>)
    requires |queue| <= QUEUE_CAPACITY
    ensures |queue| <= 4096 && Enqueue(queue, ms) == queue + ms[..if |queue + ms| <= 4096 then |ms| else 4096 - |queue|]
    decreases |ms|
  {
    if ms != [] {
      if |queue| < QUEUE_CAPACITY {
        EnqueueKeepsPrefix(queue + [ms[0]], ms[1..]);
      } else {
        EnqueueKeepsPrefix(queue, ms[1..]);
      }
    }
  }

  // ---------- The broker ----------

  /** The bytes of "localhost". */
  const LOCALHOST: bytes := [108, 111, 99, 97, 108, 104, 111, 115, 116]

  /** A slice holding each key of a Go map once, in whatever order the map gave them. */
  ghost predicate Enumerates(xs: seq<bytes>, s: set<bytes>) {
    (forall i, j :: 0 <= i < j < |xs| ==> xs[i] != xs[j]) && (forall x :: x in xs <==> x in s)
  }

  lemma {:induction false} EnumerationLength(xs: seq<bytes>, s: set<bytes>)
    requires Enumerates(xs, s)
    ensures |xs| == |s|
    decreases |xs|
  {
    if xs == [] {
      assert s == {};
    } else {
      var n := |xs| - 1;
      assert xs[n] in xs;
      forall x
        ensures x in xs[..n] <==> x in s - {xs[n]}
      {
        assert xs == xs[..n] + [xs[n]];
      }
      EnumerationLength(xs[..n], s - {xs[n]});
    }
  }

  function NonEmpty(names: seq<bytes>): set<bytes> {
    set x | x in names && x != []
  }

  /** What was appended one by one was appended at once. */
  lemma Joined(x: bytes, a: bytes, b: bytes, c: bytes, d: bytes)
    ensures x + a + b + c + d == x + (a + (b + (c + d)))
  {
    assert x + a + b + (c + d) == x + a + (b + (c + d)) == x + (a + (b + (c + d)));
  }

  class Broker {
    const autoCreate: bool
    const advertisedHost: bytes
    const advertisedPort: int
    var topicSet: set<bytes>
    var msgCh: seq<Message>

    constructor (topics: seq<bytes>, autoCreate: bool, host: bytes, port: int)
      ensures Valid() && msgCh == [] && topicSet == (set t | t in topics)
      ensures this.autoCreate == autoCreate && advertisedHost == host && advertisedPort == port
    {
      this.autoCreate := autoCreate;
      advertisedHost := host;
      advertisedPort := port;
      topicSet := set t | t in topics;
      msgCh := [];
    }

    ghost predicate Valid()
      reads this
    {
      |msgCh| <= QUEUE_CAPACITY
    }

    function Host(): (h: bytes)
      ensures h == if advertisedHost == [] then LOCALHOST else advertisedHost
    {
      if advertisedHost == [] then Ascii("localhost") else advertisedHost
    }

    function Port(): (p: int)
      ensures p == if advertisedPort == 0 then 9092 else advertisedPort
    {
      if advertisedPort == 0 then 9092 else advertisedPort
    }

    // ----- Metadata -----

    method ReadRequested(r: Reader, flexible: bool) returns (res: Outcome<seq<bytes>>)
      requires r.Valid()
      modifies r
      ensures r.Valid() && Does(RequestedAt(r.buf, old(r.pos), flexible), res, r.pos)
    {
      hide UvarAt, IntAt, NamesAt;
      var n: int;
      if flexible {
        var u := r.ReadUvarint();
        n := ToInt64(ToInt64(u) - 1);
      } else {
        n := r.ReadInt(4);
      }
      var names :- ReadNames(r, n, flexible);
      if flexible {
        var _ := r.ReadUvarint();
      }
      res := Ret(names);
    }

    method ReadNames(r: Reader, n: int, flexible: bool) returns (res: Outcome<seq<bytes>>)
      requires r.Valid()
      modifies r
      ensures r.Valid() && Does(NamesAt(r.buf, old(r.pos), Times(n), flexible), res, r.pos)
    {
      hide UvarAt, StringAt, CompactAt;
      ghost var whole := NamesAt(r.buf, r.pos, Times(n), flexible);
      var names: seq<bytes> := [];
      assert whole.Ret? ==> names + whole.value.0 == whole.value.0;
      var i := 0;
      while i < n
        invariant r.Valid() && 0 <= i && (i <= n || i == 0)
        invariant match NamesAt(r.buf, r.pos, Times(n - i), flexible)
                  case Fault => whole.Fault?
                  case Ret((rest, q)) => whole == Ret((names + rest, q))
      {
        var name: bytes;
        if flexible {
          name :- r.ReadCompactString();
          var _ := r.ReadUvarint();
        } else {
          name := r.ReadString();
        }
        assert forall rest: seq<bytes> {:trigger [name] + rest} :: names + ([name] + rest) == names + [name] + rest;
        names := names + [name];
        i := i + 1;
      }
      assert names + [] == names;
      res := Ret(names);
    }

    /** The locked section that auto-creates topics. */
    method AutoCreate(requested: seq<bytes>)
      requires Valid()
      modifies this`topicSet
      ensures topicSet == old(topicSet) + if autoCreate then NonEmpty(requested) else {}
      ensures forall t :: t in topicSet <==> t in old(topicSet) || (autoCreate && t in requested && t != [])
    {
      if autoCreate {
        for i := 0 to |requested|
          invariant topicSet == old(topicSet) + NonEmpty(requested[..i])
        {
          var t := requested[i];
          assert requested[..i + 1] == requested[..i] + [t];
          if t != [] && t !in topicSet {
            topicSet := topicSet + {t};
          }
        }
        assert requested[..|requested|] == requested;
      }
    }

    /** Copies the topic set into a slice, in an order Go leaves open. */
    method ListTopics() returns (names: seq<bytes>)
      ensures Enumerates(names, topicSet)
    {
      names := [];
      var rest := topicSet;
      while rest != {}
        invariant rest <= topicSet && Enumerates(names, topicSet - rest)
        decreases |rest|
      {
        var t :| t in rest;
        names := names + [t];
        rest := rest - {t};
      }
    }

    method HandleMetadata(r: Reader, corrID: int, version: int) returns (res: Outcome<bytes>, names: seq<bytes>)
      requires Valid() && r.Valid()
      modifies r, this`topicSet
      ensures match RequestedAt(r.buf, old(r.pos), version >= 9)
              case Fault => res.Fault? && topicSet == old(topicSet)
              case Ret((requested, _)) =>
                && topicSet == old(topicSet) + (if autoCreate then NonEmpty(requested) else {})
                && Enumerates(names, topicSet)
                && res == Ret(PutMetadata(version, corrID, if advertisedHost == [] then LOCALHOST else advertisedHost,
                                          if advertisedPort == 0 then 9092 else advertisedPort, names))
    {
      hide RequestedAt, PutMetadataHead, PutTopicsMeta, PutCount, PutTags, PutInt;
      names := [];
      var requested :- ReadRequested(r, version >= 9);
      AutoCreate(requested);
      names := ListTopics();
      var w := new Writer();
      WriteMetadataHead(w, version, corrID, Host(), Port());
      ghost var head := w.buf;
      assert head == PutMetadataHead(version, corrID, Host(), Port());
      WriteCount(w, |names|, version >= 9);
      WriteTopicsMeta(w, version, names);
      WriteIntIf(w, version >= 8, 0, 4);
      WriteTags(w, version >= 9);
      Joined(head, PutCount(|names|, version >= 9), PutTopicsMeta(version, names),
             if version >= 8 then PutInt(0, 4) else [], PutTags(version >= 9));
      res := Ret(w.buf);
    }

    // ----- Produce -----

    method HandleProduce(r: Reader, corrID: int, version: int) returns (res: Outcome<bytes>)
      requires Valid() && r.Valid()
      modifies r, this`msgCh
      ensures Valid() && msgCh == Enqueue(old(msgCh), ProduceSent(r.buf, old(r.pos), version >= 9))
      ensures match ProduceAt(r.buf, old(r.pos), version >= 9)
              case Fault => res.Fault?
              case Ret((_, q)) => r.pos == q && res == Ret(PutProduceReply(corrID, version >= 9))
    {
      hide UvarAt, IntAt, StringAt, CompactAt, TopicsAt, TopicsSent, Enqueue, PutInt, PutCount, PutTags;
      var flexible := version >= 9;
      EnqueueNone(msgCh);
      if flexible {
        var _ :- r.ReadCompactString();
      } else {
        var _ := r.ReadString();
      }
      var _ := r.ReadInt(2);
      var _ := r.ReadInt(4);
      var nTopics := ReadCount(r, flexible);
      var _ :- ProduceTopics(r, nTopics, flexible);
      if flexible {
        var _ := r.ReadUvarint();
      }
      var w := new Writer();
      w.WriteInt(corrID, 4);
      assert w.buf == PutInt(corrID, 4);
      WriteTags(w, flexible);
      w.WriteInt(0, 4);
      WriteCount(w, 0, flexible);
      WriteTags(w, flexible);
      Joined(PutInt(corrID, 4), PutTags(flexible), PutInt(0, 4), PutCount(0, flexible), PutTags(flexible));
      res := Ret(w.buf);
    }

    method ReadCount(r: Reader, flexible: bool) returns (n: int)
      requires r.Valid()
      modifies r
      ensures r.Valid() && (n, r.pos) == CountAt(r.buf, old(r.pos), flexible)
    {
      if flexible {
        var u := r.ReadUvarint();
        n := ToInt32(ToInt32(u) - 1);
      } else {
        n := r.ReadInt(4);
      }
    }

    /** The topic loop. */
    method ProduceTopics(r: Reader, nTopics: int, flexible: bool) returns (res: Outcome<()>)
      requires Valid() && r.Valid()
      modifies r, this`msgCh
      ensures Valid() && r.Valid()
      ensures Passed(TopicsAt(r.buf, old(r.pos), Times(nTopics), flexible), res, r.pos)
      ensures msgCh == Enqueue(old(msgCh), TopicsSent(r.buf, old(r.pos), Times(nTopics), flexible))
    {
      hide UvarAt, CompactAt, StringAt, CountAt, TopicsAt, TopicsSent, PartitionsAt, PartitionsSent, Enqueue,
        TopicsLeft;
      ghost var done: seq<Message>, p0 := [], r.pos;
      EnqueueNone(msgCh);
      TopicsBegin(r.buf, p0, Times(nTopics), flexible);
      var i := 0;
      while i < nTopics
        invariant Valid() && r.Valid() && 0 <= i && (i <= nTopics || i == 0)
        invariant msgCh == Enqueue(old(msgCh), done)
        invariant TopicsLeft(r.buf, r.pos, Times(nTopics - i), flexible, done, p0, Times(nTopics))
      {
        TopicStep(r.buf, r.pos, Times(nTopics - i), flexible, done, p0, Times(nTopics));
        var topic: bytes;
        if flexible {
          topic :- r.ReadCompactString();
        } else {
          topic := r.ReadString();
        }
        var nPartitions := ReadCount(r, flexible);
        ghost var more := PartitionsSent(r.buf, r.pos, Times(nPartitions), topic, flexible);
        EnqueueConcat(old(msgCh), done, more);
        var _ :- ProducePartitions(r, nPartitions, topic, flexible);
        if flexible {
          var _ := r.ReadUvarint();
        }
        done := done + more;
        i := i + 1;
      }
      TopicsEnd(r.buf, r.pos, flexible, done, p0, Times(nTopics));
      res := Ret(());
    }

    /** The partition loop of one topic, with its sends. */
    method ProducePartitions(r: Reader, nPartitions: int, topic: bytes, flexible: bool) returns (res: Outcome<()>)
      requires Valid() && r.Valid()
      modifies r, this`msgCh
      ensures Valid() && r.Valid()
      ensures Passed(PartitionsAt(r.buf, old(r.pos), Times(nPartitions), topic, flexible), res, r.pos)
      ensures msgCh == Enqueue(old(msgCh), PartitionsSent(r.buf, old(r.pos), Times(nPartitions), topic, flexible))
    {
      hide UvarAt, IntAt, BatchAt, PartitionsAt, PartitionsSent, Enqueue, PartitionsLeft;
      ghost var done: seq<Message>, p0 := [], r.pos;
      EnqueueNone(msgCh);
      PartitionsBegin(r.buf, p0, Times(nPartitions), topic, flexible);
      var j := 0;
      while j < nPartitions
        invariant Valid() && r.Valid() && 0 <= j && (j <= nPartitions || j == 0)
        invariant msgCh == Enqueue(old(msgCh), done)
        invariant PartitionsLeft(r.buf, r.pos, Times(nPartitions - j), topic, flexible, done, p0, Times(nPartitions))
      {
        PartitionStep(r.buf, r.pos, Times(nPartitions - j), topic, flexible, done, p0, Times(nPartitions));
        var partition := r.ReadInt(4);
        var _ := r.ReadInt(4);
        var msgs :- DecodeRecordBatch(r, topic, partition);
        Send(msgs);
        if flexible {
          var _ := r.ReadUvarint();
        }
        EnqueueConcat(old(msgCh), done, msgs);
        done := done + msgs;
        j := j + 1;
      }
      PartitionsEnd(r.buf, r.pos, topic, flexible, done, p0, Times(nPartitions));
      res := Ret(());
    }

    /** One non-blocking send per message. */
    method Send(msgs: seq<Message>)
      requires Valid()
      modifies this`msgCh
      ensures Valid() && msgCh == Enqueue(old(msgCh), msgs)
    {
      for i := 0 to |msgs|
        invariant Valid() && Enqueue(msgCh, msgs[i..]) == Enqueue(old(msgCh), msgs)
      {
        assert msgs[i..][1..] == msgs[i + 1..];
        if |msgCh| < QUEUE_CAPACITY {
          msgCh := msgCh + [msgs[i]];
        }
      }
    }

    // ----- ApiVersions and dispatch -----

    method HandleApiVersions(corrID: int, version: int) returns (resp: bytes)
      ensures resp == PutApiVersions(corrID, version)
    {
      hide PutApis, PutInt, PutCount, PutTags;
      var f := version >= 3;
      var w := new Writer();
      w.WriteInt(corrID, 4);
      w.WriteInt(0, 2);
      ghost var head := w.buf;
      WriteCount(w, |SUPPORTED|, f);
      WriteApis(w, SUPPORTED, f);
      w.WriteInt(0, 4);
      WriteTags(w, f);
      Joined(head, PutCount(|SUPPORTED|, f), PutApis(SUPPORTED, f), PutInt(0, 4), PutTags(f));
      resp := w.buf;
    }

    /** A request answered, refused as too short, or fatal. */
    method HandleRequest(body: bytes) returns (res: Outcome<Option<bytes>>, names: seq<bytes>)
      requires Valid() && |body| <= MAX_FRAME
      modifies this`topicSet, this`msgCh
      ensures Valid()
      ensures |body| < 4 ==> res == Ret(None) && topicSet == old(topicSet) && msgCh == old(msgCh)
      ensures |body| >= 4 ==> (res.Fault? <==> Faults(body))
      ensures |body| >= 4 ==> topicSet == old(topicSet) + if autoCreate then NonEmpty(Requested(body)) else {}
      ensures |body| >= 4 ==> msgCh == Enqueue(old(msgCh), Carried(body))
      ensures |body| >= 4 && res.Ret? && HeaderAt(body).value.apiKey == 3 ==> Enumerates(names, topicSet)
      ensures |body| >= 4 && res.Ret? ==>
                res.value.Some? && Answers(HeaderAt(body).value, Host(), Port(), names, res.value.value)
    {
      hide UvarAt, IntAt, StringAt, CompactAt, RequestedAt, ProduceAt, ProduceSent, Enqueue, NonEmpty, Enumerates,
        PutApiVersions, PutMetadata, PutProduceReply, PutError, PutSaslHandshake, PutSaslAuthenticate;
      names := [];
      if |body| < 4 {
        return Ret(None), names;
      }
      QuietRequest(msgCh);
      var r := new Reader(body);
      var apiKey := r.ReadInt(2);
      var apiVersion := r.ReadInt(2);
      var correlationID := r.ReadInt(4);
      if IsFlexible(apiKey, apiVersion) {
        var _ :- r.ReadCompactString();
        var _ := r.ReadUvarint();
      } else {
        var _ := r.ReadString();
      }
      var resp: Outcome<bytes>;
      match apiKey {
        case 18 =>
          var bs := HandleApiVersions(correlationID, apiVersion);
          resp := Ret(bs);
        case 3 =>
          resp, names := HandleMetadata(r, correlationID, apiVersion);
        case 0 =>
          resp := HandleProduce(r, correlationID, apiVersion);
        case 17 =>
          var bs := HandleSaslHandshake(correlationID);
          resp := Ret(bs);
        case 36 =>
          var bs := HandleSaslAuthenticate(correlationID);
          resp := Ret(bs);
        case _ =>
          var bs := BuildErrorResponse(correlationID, 35);
          resp := Ret(bs);
      }
      var value :- resp;
      res := Ret(Some(value));
    }
  }

  lemma QuietRequest(queue: seq<Message>)
    ensures Enqueue(queue, []) == queue && NonEmpty([]) == {}
  {
  }

  /** Having decoded to where `spec` says. */
  ghost predicate Passed(spec: Outcome<(seq<Message>, nat)>, res: Outcome<()>, pos: nat) {
    match spec
    case Fault => res.Fault?
    case Ret((_, q)) => res == Ret(()) && pos == q
  }

  /** What is left to decode ends as the whole does. */
  ghost predicate SameEnd(rest: Outcome<(seq<Message>, nat)>, whole: Outcome<(seq<Message>, nat)>) {
    match rest
    case Fault => whole.Fault?
    case Ret((_, q)) => whole.Ret? && whole.value.1 == q
  }

  /** Of `n0` partitions from `p0` on, `n` are left at `p` and the messages `done` have been sent. */
  ghost predicate PartitionsLeft(b: bytes, p: nat, n: nat, topic: bytes, flexible: bool, done: seq<Message>,
                                 p0: nat, n0: nat)
    requires p <= |b| && p0 <= |b|
  {
    && SameEnd(PartitionsAt(b, p, n, topic, flexible), PartitionsAt(b, p0, n0, topic, flexible))
    && done + PartitionsSent(b, p, n, topic, flexible) == PartitionsSent(b, p0, n0, topic, flexible)
  }

  lemma PartitionsBegin(b: bytes, p: nat, n: nat, topic: bytes, flexible: bool)
    requires p <= |b|
    ensures PartitionsLeft(b, p, n, topic, flexible, [], p, n)
  {
    hide PartitionsAt, PartitionsSent;
    var sent := PartitionsSent(b, p, n, topic, flexible);
    assert [] + sent == sent;
  }

  lemma PartitionStep(b: bytes, p: nat, n: nat, topic: bytes, flexible: bool, done: seq<Message>, p0: nat, n0: nat)
    requires p <= |b| && p0 <= |b| && n > 0 && PartitionsLeft(b, p, n, topic, flexible, done, p0, n0)
    ensures var (partition, p1) := IntAt(b, p, 4);
            match BatchAt(b, Skip(b, p1, 4), topic, partition)
            case Fault =>
              PartitionsAt(b, p0, n0, topic, flexible).Fault? && done == PartitionsSent(b, p0, n0, topic, flexible)
            case Ret((ms, p2)) =>
              PartitionsLeft(b, Tagged(b, p2, flexible), n - 1, topic, flexible, done + ms, p0, n0)
  {
    hide IntAt, BatchAt, UvarAt;
    var (partition, p1) := IntAt(b, p, 4);
    match BatchAt(b, Skip(b, p1, 4), topic, partition)
    case Fault => assert done + [] == done;
    case Ret((ms, p2)) =>
      var rest := PartitionsSent(b, Tagged(b, p2, flexible), n - 1, topic, flexible);
      assert done + (ms + rest) == done + ms + rest;
  }

  lemma PartitionsEnd(b: bytes, p: nat, topic: bytes, flexible: bool, done: seq<Message>, p0: nat, n0: nat)
    requires p <= |b| && p0 <= |b| && PartitionsLeft(b, p, 0, topic, flexible, done, p0, n0)
    ensures Passed(PartitionsAt(b, p0, n0, topic, flexible), Ret(()), p)
    ensures done == PartitionsSent(b, p0, n0, topic, flexible)
  {
    assert done + [] == done;
  }

  /** The same for topics. */
  ghost predicate TopicsLeft(b: bytes, p: nat, n: nat, flexible: bool, done: seq<Message>, p0: nat, n0: nat)
    requires p <= |b| && p0 <= |b|
  {
    && SameEnd(TopicsAt(b, p, n, flexible), TopicsAt(b, p0, n0, flexible))
    && done + TopicsSent(b, p, n, flexible) == TopicsSent(b, p0, n0, flexible)
  }

  lemma TopicsBegin(b: bytes, p: nat, n: nat, flexible: bool)
    requires p <= |b|
    ensures TopicsLeft(b, p, n, flexible, [], p, n)
  {
    hide TopicsAt, TopicsSent;
    var sent := TopicsSent(b, p, n, flexible);
    assert [] + sent == sent;
  }

  lemma TopicStep(b: bytes, p: nat, n: nat, flexible: bool, done: seq<Message>, p0: nat, n0: nat)
    requires p <= |b| && p0 <= |b| && n > 0 && TopicsLeft(b, p, n, flexible, done, p0, n0)
    ensures match NameAt(b, p, flexible)
            case Fault => TopicsAt(b, p0, n0, flexible).Fault? && done == TopicsSent(b, p0, n0, flexible)
            case Ret((topic, p1)) =>
              var (nPartitions, p2) := CountAt(b, p1, flexible);
              var more := PartitionsSent(b, p2, Times(nPartitions), topic, flexible);
              match PartitionsAt(b, p2, Times(nPartitions), topic, flexible)
              case Fault => TopicsAt(b, p0, n0, flexible).Fault? && done + more == TopicsSent(b, p0, n0, flexible)
              case Ret((_, p3)) => TopicsLeft(b, Tagged(b, p3, flexible), n - 1, flexible, done + more, p0, n0)
  {
    hide NameAt, CountAt, PartitionsAt, PartitionsSent, Tagged;
    match NameAt(b, p, flexible)
    case Fault => assert done + [] == done;
    case Ret((topic, p1)) =>
      var (nPartitions, p2) := CountAt(b, p1, flexible);
      var more := PartitionsSent(b, p2, Times(nPartitions), topic, flexible);
      match PartitionsAt(b, p2, Times(nPartitions), topic, flexible)
      case Fault => assert more + [] == more;
      case Ret((_, p3)) =>
        var rest := TopicsSent(b, Tagged(b, p3, flexible), n - 1, flexible);
        assert done + (more + rest) == done + more + rest;
  }

  lemma TopicsEnd(b: bytes, p: nat, flexible: bool, done: seq<Message>, p0: nat, n0: nat)
    requires p <= |b| && p0 <= |b| && TopicsLeft(b, p, 0, flexible, done, p0, n0)
    ensures Passed(TopicsAt(b, p0, n0, flexible), Ret(()), p) && done == TopicsSent(b, p0, n0, flexible)
  {
    assert done + [] == done;
  }

  lemma EnqueueNone(queue: seq<Message>)
    ensures queue == Enqueue(queue, [])
  {
  }

  // ---------- Writing responses ----------

  method WriteCount(w: Writer, n: nat, flexible: bool)
    modifies w
    ensures w.buf == old(w.buf) + PutCount(n, flexible)
  {
    if flexible {
      w.WriteUvarint((n + 1) % INT64_SPAN);
    } else {
      w.WriteInt(n, 4);
    }
  }

  method WriteName(w: Writer, s: bytes, flexible: bool)
    modifies w
    ensures w.buf == old(w.buf) + PutName(s, flexible)
  {
    if flexible {
      w.WriteCompactString(s);
    } else {
      w.WriteString(s);
    }
  }

  method WriteNull(w: Writer, flexible: bool)
    modifies w
    ensures w.buf == old(w.buf) + PutNull(flexible)
  {
    if flexible {
      w.WriteUvarint(0);
    } else {
      w.WriteInt(-1, 2);
    }
  }

  method WriteTags(w: Writer, flexible: bool)
    modifies w
    ensures w.buf == old(w.buf) + PutTags(flexible)
  {
    if flexible {
      w.WriteUvarint(0);
    }
  }

  method WriteIntIf(w: Writer, present: bool, v: int, width: Width)
    modifies w
    ensures w.buf == old(w.buf) + if present then PutInt(v, width) else []
  {
    if present {
      w.WriteInt(v, width);
    }
  }

  method WriteBroker(w: Writer, v: int, host: bytes, port: int)
    modifies w
    ensures w.buf == old(w.buf) + PutBroker(v, host, port)
  {
    hide PutInt, PutTags, PutName, PutNull;
    var f := v >= 9;
    w.WriteInt(1, 4);
    ghost var head := w.buf;
    WriteName(w, host, f);
    w.WriteInt(port, 4);
    WriteNull(w, f);
    WriteTags(w, f);
    Joined(head, PutName(host, f), PutInt(port, 4), PutNull(f), PutTags(f));
  }

  method WriteMetadataHead(w: Writer, v: int, corrID: int, host: bytes, port: int)
    modifies w
    ensures w.buf == old(w.buf) + PutMetadataHead(v, corrID, host, port)
  {
    hide PutInt, PutTags, PutCount, PutNull, PutBroker;
    var f := v >= 9;
    w.WriteInt(corrID, 4);
    WriteTags(w, f);
    w.WriteInt(0, 4);
    ghost var head := w.buf;
    WriteCount(w, 1, f);
    WriteBroker(w, v, host, port);
    if v >= 2 {
      WriteNull(w, f);
    }
    WriteIntIf(w, v >= 1, 1, 4);
    ghost var cluster := if v >= 2 then PutNull(f) else [];
    ghost var controller := if v >= 1 then PutInt(1, 4) else [];
    Joined(head, PutCount(1, f), PutBroker(v, host, port), cluster, controller);
    Joined(old(w.buf), PutInt(corrID, 4), PutTags(f), PutInt(0, 4),
           PutCount(1, f) + (PutBroker(v, host, port) + (cluster + controller)));
  }

  method WriteTopicsMeta(w: Writer, v: int, names: seq<bytes>)
    modifies w
    ensures w.buf == old(w.buf) + PutTopicsMeta(v, names)
  {
    hide PutTopicMeta;
    assert names[0..] == names;
    for i := 0 to |names|
      invariant w.buf + PutTopicsMeta(v, names[i..]) == old(w.buf) + PutTopicsMeta(v, names)
    {
      ghost var before := w.buf;
      WriteTopicMeta(w, v, names[i]);
      assert names[i..][1..] == names[i + 1..];
      assert before + (PutTopicMeta(v, names[i]) + PutTopicsMeta(v, names[i + 1..])) ==
             w.buf + PutTopicsMeta(v, names[i + 1..]);
    }
  }

  method WriteTopicMeta(w: Writer, v: int, name: bytes)
    modifies w
    ensures w.buf == old(w.buf) + PutTopicMeta(v, name)
  {
    hide PutTopicHead, PutPartitionMeta, PutTags, PutInt;
    WriteTopicHead(w, v, name);
    ghost var head := w.buf;
    WritePartitionMeta(w, v);
    WriteIntIf(w, v >= 8, NO_OPERATIONS, 4);
    WriteTags(w, v >= 9);
    Joined(old(w.buf), PutTopicHead(v, name), PutPartitionMeta(v), if v >= 8 then PutInt(NO_OPERATIONS, 4) else [],
           PutTags(v >= 9));
  }

  method WriteTopicHead(w: Writer, v: int, name: bytes)
    modifies w
    ensures w.buf == old(w.buf) + PutTopicHead(v, name)
  {
    hide PutInt, PutCount, PutName;
    var f := v >= 9;
    w.WriteInt(0, 2);
    ghost var head := w.buf;
    WriteName(w, name, f);
    if v >= 9 {
      w.buf := w.buf + seq(16, _ => 0);
    }
    if v >= 1 {
      w.WriteBool(false);
    }
    WriteCount(w, 1, f);
    Joined(head, PutName(name, f), if v >= 9 then seq(16, _ => 0) else [],
           if v >= 1 then PutInt(0, 1) else [], PutCount(1, f));
  }

  method WritePartitionMeta(w: Writer, v: int)
    modifies w
    ensures w.buf == old(w.buf) + PutPartitionMeta(v)
  {
    hide PutInt, PutReplicas;
    w.WriteInt(0, 2);
    w.WriteInt(0, 4);
    w.WriteInt(1, 4);
    WriteIntIf(w, v >= 7, 0, 4);
    Joined(old(w.buf), PutInt(0, 2), PutInt(0, 4), PutInt(1, 4), if v >= 7 then PutInt(0, 4) else []);
    WriteReplicas(w, v);
    assert old(w.buf) + (PutPartitionHead(v) + PutReplicas(v)) == old(w.buf) + PutPartitionHead(v) + PutReplicas(v);
  }

  method WriteReplicas(w: Writer, v: int)
    modifies w
    ensures w.buf == old(w.buf) + PutReplicas(v)
  {
    hide PutInt, PutTags, PutCount;
    var f := v >= 9;
    WriteCount(w, 1, f);
    w.WriteInt(1, 4);
    ghost var replicas := w.buf;
    WriteCount(w, 1, f);
    w.WriteInt(1, 4);
    if v >= 5 {
      WriteCount(w, 0, f);
    }
    WriteTags(w, f);
    ghost var none := if v >= 5 then PutCount(0, f) else [];
    Joined(replicas, PutCount(1, f), PutInt(1, 4), none, PutTags(f));
    ghost var isr := PutCount(1, f) + (PutInt(1, 4) + (none + PutTags(f)));
    assert old(w.buf) + (PutCount(1, f) + (PutInt(1, 4) + isr)) == old(w.buf) + PutCount(1, f) + PutInt(1, 4) + isr;
  }

  method WriteApis(w: Writer, apis: seq<(int, int, int)>, flexible: bool)
    modifies w
    ensures w.buf == old(w.buf) + PutApis(apis, flexible)
  {
    hide PutInt, PutTags;
    assert apis[0..] == apis;
    for i := 0 to |apis|
      invariant w.buf + PutApis(apis[i..], flexible) == old(w.buf) + PutApis(apis, flexible)
    {
      ghost var before := w.buf;
      w.WriteInt(apis[i].0, 2);
      w.WriteInt(apis[i].1, 2);
      w.WriteInt(apis[i].2, 2);
      WriteTags(w, flexible);
      assert apis[i..][1..] == apis[i + 1..];
      OneApi(before, apis[i], flexible, PutApis(apis[i + 1..], flexible));
    }
  }

  lemma OneApi(x: bytes, api: (int, int, int), flexible: bool, rest: bytes)
    ensures x + PutInt(api.0, 2) + PutInt(api.1, 2) + PutInt(api.2, 2) + PutTags(flexible) + rest ==
            x + (PutInt(api.0, 2) + (PutInt(api.1, 2) + (PutInt(api.2, 2) + (PutTags(flexible) + rest))))
  {
    hide PutInt, PutTags;
    Joined(x, PutInt(api.0, 2), PutInt(api.1, 2), PutInt(api.2, 2), PutTags(flexible) + rest);
  }

  method HandleSaslHandshake(corrID: int) returns (resp: bytes)
    ensures resp == PutSaslHandshake(corrID)
  {
    var w := new Writer();
    w.WriteInt(corrID, 4);
    w.WriteInt(33, 2);
    w.WriteInt(0, 4);
    resp := w.buf;
  }

  method HandleSaslAuthenticate(corrID: int) returns (resp: bytes)
    ensures resp == PutSaslAuthenticate(corrID)
  {
    hide PutInt;
    var w := new Writer();
    w.WriteInt(corrID, 4);
    w.WriteInt(58, 2);
    w.WriteInt(-1, 2);
    w.WriteInt(-1, 4);
    Joined([], PutInt(corrID, 4), PutInt(58, 2), PutInt(-1, 2), PutInt(-1, 4));
    resp := w.buf;
  }

  method BuildErrorResponse(corrID: int, code: int) returns (resp: bytes)
    ensures resp == PutError(corrID, code)
  {
    var w := new Writer();
    w.WriteInt(corrID, 4);
    w.WriteInt(code, 2);
    resp := w.buf;
  }
}
