/** One client connection: framing, dispatch and the order of responses (internal/broker/broker.go, handleConn). */
module Connection {
  import opened GoTypes
  import opened Binary
  import opened Wire
  import opened RecordBatch
  import opened Produce
  import opened Metadata
  import opened Broker
  import opened Replies
  import opened FlexibleMetadata

  // ---------- Framing ----------

  /** The bodies of the length-prefixed frames in `input[p..]`, up to the first that is cut off or of a bad size. */
  function FramesFrom(input: bytes, p: nat, limit: nat): (fs: seq<bytes>)
    requires p <= |input|
    ensures forall f :: f in fs ==> 0 < |f| <= limit
    decreases |input| - p
  {
    if p + 4 > |input| then []
    else
      var size := GetInt(input[p..p + 4]);
      if size <= 0 || size > limit || p + 4 + size > |input| then []
      else [input[p + 4..p + 4 + size]] + FramesFrom(input, p + 4 + size, limit)
  }

  function PutFrames(fs: seq<bytes>): bytes {
    if fs == [] then [] else PutInt(|fs[0]|, 4) + (fs[0] + PutFrames(fs[1..]))
  }

  /** The first `cut` bytes of the frame around `f`. */
  function CutFrame(f: bytes, cut: nat): bytes
    requires cut < 4 + |f|
  {
    (PutInt(|f|, 4) + f)[..cut]
  }

  lemma {:induction false} FramesStandingAt(input: bytes, p: nat, fs: seq<bytes>, f: bytes, cut: nat, limit: nat)
    requires limit < 0x8000_0000 && forall i :: 0 <= i < |fs| ==> 0 < |fs[i]| <= limit
    requires |f| < 0x8000_0000 && cut < 4 + |f|
    requires At(input, p, PutFrames(fs)) && input[p + |PutFrames(fs)|..] == CutFrame(f, cut)
    ensures FramesFrom(input, p, limit) == fs
    decreases |fs|
  {
    hide At, PutInt, FramesFrom, CutFrame;
    AtAll(input);
    if fs == [] {
      CutFrameUnread(input, p, f, cut, limit);
    } else {
      FrameStandingAt(input, p, fs[0], limit);
      FramesStandingAt(input, p + 4 + |fs[0]|, fs[1..], f, cut, limit);
    }
  }

  lemma CutFrameUnread(input: bytes, p: nat, f: bytes, cut: nat, limit: nat)
    requires p <= |input| && |f| < 0x8000_0000 && cut < 4 + |f| && input[p..] == CutFrame(f, cut)
    ensures FramesFrom(input, p, limit) == []
  {
    hide PutInt;
    if cut >= 4 {
      assert input[p..p + 4] == input[p..][..4] == PutInt(|f|, 4);
      GetOfPutInt(|f|, 4);
    }
  }

  lemma FrameStandingAt(input: bytes, p: nat, f: bytes, limit: nat)
    requires 0 < |f| <= limit < 0x8000_0000 && At(input, p, PutInt(|f|, 4)) && At(input, p + 4, f)
    ensures FramesFrom(input, p, limit) == [f] + FramesFrom(input, p + 4 + |f|, limit)
  {
    hide GetInt, PutInt;
    IntReadBack(input, p, |f|, 4);
  }

  /**
   * Framing loses nothing: the peer recovers the frames, whatever their number and content, and takes nothing for a
   * frame that is cut off behind them.
   */
  lemma FramesReadBack(fs: seq<bytes>, f: bytes, cut: nat, limit: nat)
    requires limit < 0x8000_0000 && forall i :: 0 <= i < |fs| ==> 0 < |fs[i]| <= limit
    requires |f| < 0x8000_0000 && cut < 4 + |f|
    ensures FramesFrom(PutFrames(fs) + CutFrame(f, cut), 0, limit) == fs
  {
    hide PutFrames, CutFrame;
    var input := PutFrames(fs) + CutFrame(f, cut);
    assert At(input, 0, PutFrames(fs));
    FramesStandingAt(input, 0, fs, f, cut, limit);
  }

  lemma WholeFramesReadBack(fs: seq<bytes>, limit: nat)
    requires limit < 0x8000_0000 && forall i :: 0 <= i < |fs| ==> 0 < |fs[i]| <= limit
    ensures FramesFrom(PutFrames(fs), 0, limit) == fs
  {
    hide PutFrames;
    FramesReadBack(fs, [], 0, limit);
    assert PutFrames(fs) + CutFrame([], 0) == PutFrames(fs);
  }

  lemma {:induction false} PutFramesAppend(fs: seq<bytes>, f: bytes)
    ensures PutFrames(fs + [f]) == PutFrames(fs) + (PutInt(|f|, 4) + f)
    decreases |fs|
  {
    hide PutInt;
    if fs == [] {
      assert fs + [f] == [f];
      assert PutFrames([f]) == PutInt(|f|, 4) + (f + []);
    } else {
      assert (fs + [f])[1..] == fs[1..] + [f];
      PutFramesAppend(fs[1..], f);
      Joined([], PutInt(|fs[0]|, 4), fs[0], PutFrames(fs[1..]), PutInt(|f|, 4) + f);
    }
  }

  // ---------- Whole connections ----------

  /**
   * The loop ends at the end of the input or a bad size, at a request too short, by a fault, when told to stop, or when
   * the peer takes only the first `cut` bytes of a reply.
   */
  datatype Ending = Drained | Refused | Faulted | Stopped | WriteFailed(resp: bytes, cut: nat)

  /** The messages of all the requests, in order. */
  function AllCarried(bodies: seq<bytes>): seq<Message> {
    if bodies == [] then [] else AllCarried(bodies[..|bodies| - 1]) + Carried(bodies[|bodies| - 1])
  }

  function AllRequested(bodies: seq<bytes>): set<bytes> {
    if bodies == [] then {} else AllRequested(bodies[..|bodies| - 1]) + NonEmpty(Requested(bodies[|bodies| - 1]))
  }

  /** The topic set after `bodies` have been served, when no other connection interferes. */
  function TopicsAfter(autoCreate: bool, topics0: set<bytes>, bodies: seq<bytes>): set<bytes> {
    topics0 + if autoCreate then AllRequested(bodies) else {}
  }

  /** What serving `bodies` does to the queue and the topic set when no other connection interferes. */
  ghost predicate Served(autoCreate: bool, queue0: seq<Message>, topics0: set<bytes>, bodies: seq<bytes>,
                         queue: seq<Message>, topics: set<bytes>) {
    queue == Enqueue(queue0, AllCarried(bodies)) && topics == TopicsAfter(autoCreate, topics0, bodies)
  }

  /** An answer to `body`; to a metadata request, one that lists exactly `topics`. */
  ghost predicate IsReply(b: Broker, topics: set<bytes>, body: bytes, resp: bytes) {
    && |body| >= 4 && !Faults(body)
    && exists names ::
         && Answers(HeaderAt(body).value, b.Host(), b.Port(), names, resp)
         && (HeaderAt(body).value.apiKey == 3 ==> Enumerates(names, topics))
  }

  /** Each reply answers the frame at its place, with the topics known once that frame is served. */
  ghost predicate Exchanged(b: Broker, topics0: set<bytes>, frames: seq<bytes>, replies: seq<bytes>) {
    && |replies| <= |frames|
    && forall i :: 0 <= i < |replies| ==>
         IsReply(b, TopicsAfter(b.autoCreate, topics0, frames[..i + 1]), frames[i], replies[i])
  }

  /** The first frames have been answered and `p` is behind them. */
  ghost predicate Midway(b: Broker, queue0: seq<Message>, topics0: set<bytes>, input: bytes, p: nat,
                         replies: seq<bytes>, queue: seq<Message>, topics: set<bytes>) {
    var frames := FramesFrom(input, 0, MAX_FRAME);
    && p <= |input| && |replies| <= |frames| && frames[|replies|..] == FramesFrom(input, p, MAX_FRAME)
    && Exchanged(b, topics0, frames, replies)
    && Served(b.autoCreate, queue0, topics0, frames[..|replies|], queue, topics)
  }

  /**
   * The framing loop on everything the peer sends. The output is one length-prefixed reply for each of the first
   * |replies| frames, in order, and the loop stops early only where `end` says. A request that faults, or whose reply
   * does not get through, has been served all the same.
   */
  method HandleConn(b: Broker, input: bytes) returns (output: bytes, end: Ending, replies: seq<bytes>)
    requires b.Valid()
    modifies b`topicSet, b`msgCh
    ensures b.Valid()
    ensures var frames, n := FramesFrom(input, 0, MAX_FRAME), |replies|;
            && n <= |frames| && Exchanged(b, old(b.topicSet), frames, replies)
            && (!end.WriteFailed? ==> output == PutFrames(replies))
            && var served := if end.Faulted? || end.WriteFailed? then n + 1 else n;
            && served <= |frames|
            && Served(b.autoCreate, old(b.msgCh), old(b.topicSet), frames[..served], b.msgCh, b.topicSet)
            && match end
               case Drained => n == |frames|
               case Refused => n < |frames| && |frames[n]| < 4
               case Faulted => |frames[n]| >= 4 && Faults(frames[n])
               case Stopped => true
               case WriteFailed(resp, cut) =>
                 && IsReply(b, b.topicSet, frames[n], resp) && cut < 4 + |resp|
                 && output == PutFrames(replies) + CutFrame(resp, cut)
  {
    hide FramesFrom, PutFrames, Exchanged, Answers, Enumerates, Faults, Carried, Requested, Served, Enqueue, NonEmpty,
      Midway, CutFrame, HeaderAt, IsReply;
    var p := 0;
    output, replies := [], [];
    NothingYet(b, b.msgCh, b.topicSet, input);
    while true
      invariant b.Valid() && p <= |input| && output == PutFrames(replies)
      invariant Midway(b, old(b.msgCh), old(b.topicSet), input, p, replies, b.msgCh, b.topicSet)
      decreases |input| - p
    {
      ghost var queue, topics := b.msgCh, b.topicSet;
      Paused(b, old(b.msgCh), old(b.topicSet), input, p, replies, queue, topics);
      if * {
        return output, Stopped, replies;
      }
      var frame := ReadFrame(input, p);
      if frame.None? {
        return output, Drained, replies;
      }
      var body := frame.value;
      NextFrame(b, old(b.msgCh), old(b.topicSet), input, p, replies, queue, topics, body);
      var res, names := b.HandleRequest(body);
      if res.Fault? {
        return output, Faulted, replies;
      }
      if res.value.None? {
        return output, Refused, replies;
      }
      var resp := res.value.value;
      FaultFreeHeader(body);
      IsAnswer(b, b.topicSet, body, names, resp);
      if * {
        var cut: nat :| cut < 4 + |resp|;
        output := output + CutFrame(resp, cut);
        return output, WriteFailed(resp, cut), replies;
      }
      Answered(b, old(b.msgCh), old(b.topicSet), input, p, replies, queue, topics, body, resp);
      PutFramesAppend(replies, resp);
      output := output + (PutInt(|resp|, 4) + resp);
      replies := replies + [resp];
      p := p + 4 + |body|;
    }
  }

  /** Reads the size and the body of the next frame; None is a closed or a misbehaving peer. */
  method ReadFrame(input: bytes, p: nat) returns (frame: Option<bytes>)
    requires p <= |input|
    ensures frame.None? ==> FramesFrom(input, p, MAX_FRAME) == []
    ensures frame.Some? ==> |frame.value| <= 33_554_432
    ensures p + 4 <= |input| ==>
              var size := GetInt(input[p..p + 4]);
              0 < size <= 33_554_432 && p + 4 + size <= |input| ==> frame == Some(input[p + 4..p + 4 + size])
    ensures frame.Some? ==>
              && 0 < |frame.value| <= MAX_FRAME && p + 4 + |frame.value| <= |input|
              && FramesFrom(input, p, MAX_FRAME) == [frame.value] + FramesFrom(input, p + 4 + |frame.value|, MAX_FRAME)
  {
    if p + 4 > |input| {
      return None;
    }
    var size := GetInt(input[p..p + 4]);
    if size <= 0 || size > MAX_FRAME {
      return None;
    }
    if p + 4 + size > |input| {
      return None;
    }
    frame := Some(input[p + 4..p + 4 + size]);
  }

  lemma NothingYet(b: Broker, queue: seq<Message>, topics: set<bytes>, input: bytes)
    ensures Midway(b, queue, topics, input, 0, [], queue, topics) && PutFrames([]) == []
  {
    hide FramesFrom;
    var frames := FramesFrom(input, 0, MAX_FRAME);
    assert frames[0..] == frames && frames[..0] == [];
  }

  /** Between two requests; if no frame follows, all have been answered. */
  lemma Paused(b: Broker, queue0: seq<Message>, topics0: set<bytes>, input: bytes, p: nat,
               replies: seq<bytes>, queue: seq<Message>, topics: set<bytes>)
    requires Midway(b, queue0, topics0, input, p, replies, queue, topics)
    ensures var frames := FramesFrom(input, 0, MAX_FRAME);
            && |replies| <= |frames| && Exchanged(b, topics0, frames, replies)
            && Served(b.autoCreate, queue0, topics0, frames[..|replies|], queue, topics)
            && (p <= |input| && FramesFrom(input, p, MAX_FRAME) == [] ==> |replies| == |frames|)
  {
    hide FramesFrom, Exchanged, Served;
  }

  /** The frame at `p` is the next; once it is handled, the frames up to it have been served. */
  lemma NextFrame(b: Broker, queue0: seq<Message>, topics0: set<bytes>, input: bytes, p: nat,
                  replies: seq<bytes>, queue: seq<Message>, topics: set<bytes>, body: bytes)
    requires Midway(b, queue0, topics0, input, p, replies, queue, topics) && p + 4 + |body| <= |input|
    requires FramesFrom(input, p, MAX_FRAME) == [body] + FramesFrom(input, p + 4 + |body|, MAX_FRAME)
    ensures var frames, n := FramesFrom(input, 0, MAX_FRAME), |replies|;
            && n < |frames| && frames[n] == body
            && frames[n + 1..] == FramesFrom(input, p + 4 + |body|, MAX_FRAME)
            && var queue', topics' := Enqueue(queue, Carried(body)),
                                      topics + if b.autoCreate then NonEmpty(Requested(body)) else {};
            Served(b.autoCreate, queue0, topics0, frames[..n + 1], queue', topics')
  {
    hide FramesFrom, Exchanged, Served, Enqueue, Carried, NonEmpty, Requested;
    var frames, n := FramesFrom(input, 0, MAX_FRAME), |replies|;
    assert frames[n..][0] == body && frames[n + 1..] == frames[n..][1..];
    ServedOneMore(b.autoCreate, queue0, topics0, frames, n, queue, topics, Enqueue(queue, Carried(body)),
                  topics + if b.autoCreate then NonEmpty(Requested(body)) else {});
  }

  lemma IsAnswer(b: Broker, topics: set<bytes>, body: bytes, names: seq<bytes>, resp: bytes)
    requires |body| >= 4 && !Faults(body) && HeaderAt(body).Ret?
    requires Answers(HeaderAt(body).value, b.Host(), b.Port(), names, resp)
    requires HeaderAt(body).value.apiKey == 3 ==> Enumerates(names, topics)
    ensures IsReply(b, topics, body, resp)
  {
    hide Answers, Enumerates, Faults, HeaderAt;
  }

  lemma TopicsServed(autoCreate: bool, queue0: seq<Message>, topics0: set<bytes>, bodies: seq<bytes>,
                     queue: seq<Message>, topics: set<bytes>)
    requires Served(autoCreate, queue0, topics0, bodies, queue, topics)
    ensures topics == TopicsAfter(autoCreate, topics0, bodies)
  {
  }

  lemma Answered(b: Broker, queue0: seq<Message>, topics0: set<bytes>, input: bytes, p: nat,
                 replies: seq<bytes>, queue: seq<Message>, topics: set<bytes>, body: bytes, resp: bytes)
    requires Midway(b, queue0, topics0, input, p, replies, queue, topics) && p + 4 + |body| <= |input|
    requires FramesFrom(input, p, MAX_FRAME) == [body] + FramesFrom(input, p + 4 + |body|, MAX_FRAME)
    requires IsReply(b, topics + if b.autoCreate then NonEmpty(Requested(body)) else {}, body, resp)
    ensures var queue', topics' := Enqueue(queue, Carried(body)),
                                   topics + if b.autoCreate then NonEmpty(Requested(body)) else {};
            Midway(b, queue0, topics0, input, p + 4 + |body|, replies + [resp], queue', topics')
  {
    hide FramesFrom, IsReply, Served, Enqueue, Carried, NonEmpty, Requested, TopicsAfter;
    NextFrame(b, queue0, topics0, input, p, replies, queue, topics, body);
    var frames, n := FramesFrom(input, 0, MAX_FRAME), |replies|;
    TopicsServed(b.autoCreate, queue0, topics0, frames[..n + 1], Enqueue(queue, Carried(body)),
                 topics + if b.autoCreate then NonEmpty(Requested(body)) else {});
  }

  lemma ServedOneMore(autoCreate: bool, queue0: seq<Message>, topics0: set<bytes>, frames: seq<bytes>, i: nat,
                      queue: seq<Message>, topics: set<bytes>, queue': seq<Message>, topics': set<bytes>)
    requires i < |frames| && Served(autoCreate, queue0, topics0, frames[..i], queue, topics)
    requires queue' == Enqueue(queue, Carried(frames[i]))
    requires topics' == topics + if autoCreate then NonEmpty(Requested(frames[i])) else {}
    ensures Served(autoCreate, queue0, topics0, frames[..i + 1], queue', topics')
  {
    hide Carried, Requested, Enqueue, NonEmpty;
    assert frames[..i + 1][..i] == frames[..i];
    EnqueueConcat(queue0, AllCarried(frames[..i]), Carried(frames[i]));
  }

  /**
   * What a client that sends well-sized frames of at least four bytes gets back when the loop drains them: reading
   * the output by its length prefixes yields one reply per request, in order, each starting with the correlation
   * id of its request, whichever handler ran.
   */
  lemma OneReplyPerRequest(b: Broker, topics0: set<bytes>, requests: seq<bytes>, replies: seq<bytes>)
    requires forall i :: 0 <= i < |requests| ==> 4 <= |requests[i]| <= MAX_FRAME
    requires |replies| == |FramesFrom(PutFrames(requests), 0, MAX_FRAME)|
    requires Exchanged(b, topics0, FramesFrom(PutFrames(requests), 0, MAX_FRAME), replies)
    requires forall i :: 0 <= i < |replies| ==> |replies[i]| < 0x8000_0000
    ensures var received := FramesFrom(PutFrames(replies), 0, 0x7fff_ffff);
            && |received| == |requests|
            && forall i :: 0 <= i < |requests| ==>
                 |received[i]| >= 4 && received[i][..4] == CorrelationBytes(requests[i])
  {
    hide PutFrames, IsReply, CorrelationBytes, TopicsAfter;
    WholeFramesReadBack(requests, MAX_FRAME);
    forall i | 0 <= i < |replies|
      ensures |replies[i]| >= 4 && replies[i][..4] == CorrelationBytes(requests[i])
    {
      ReplyCorrelates(b, TopicsAfter(b.autoCreate, topics0, requests[..i + 1]), requests[i], replies[i]);
    }
    WholeFramesReadBack(replies, 0x7fff_ffff);
  }

  lemma ReplyCorrelates(b: Broker, topics: set<bytes>, body: bytes, resp: bytes)
    requires IsReply(b, topics, body, resp)
    ensures |resp| >= 4 && resp[..4] == CorrelationBytes(body)
  {
    hide Answers, Enumerates, CorrelationBytes;
    FaultFreeHeader(body);
    var names :| Answers(HeaderAt(body).value, b.Host(), b.Port(), names, resp);
    AnswerStartsWithCorrelation(body, b.Host(), b.Port(), names, resp);
  }

  lemma FaultFreeHeader(body: bytes)
    requires !Faults(body)
    ensures HeaderAt(body).Ret?
  {
  }

  /**
   * What a metadata client learns on a connection: its reply decodes to the advertised host and port, or localhost and
   * 9092 where none is configured, and exactly the topics known once its request is served, its own among them where
   * they are auto-created, if and only if all those topics have names a client can read.
   */
  lemma MetadataReplyTells(b: Broker, topics0: set<bytes>, frames: seq<bytes>, replies: seq<bytes>, i: nat,
                           version: int, corrID: int32, clientId: Option<bytes>, names: seq<bytes>)
    requires Exchanged(b, topics0, frames, replies) && i < |replies|
    requires 0 <= version <= 8 && (clientId.Some? ==> |clientId.value| < 0x8000)
    requires |names| < 0x8000_0000 && forall k :: 0 <= k < |names| ==> |names[k]| < 0x8000
    requires frames[i] == PutMetadataRequest(version, corrID, clientId, names)
    requires Readable(b.Host()) && -0x8000_0000 <= b.Port() < 0x8000_0000
    requires |TopicsAfter(b.autoCreate, topics0, frames[..i + 1])| < 0x8000_0000
    ensures var topics := TopicsAfter(b.autoCreate, topics0, frames[..i + 1]);
            && (forall t :: b.autoCreate && t in names && t != [] ==> t in topics)
            && exists order ::
                 && Enumerates(order, topics)
                 && var host, port := if b.advertisedHost == [] then LOCALHOST else b.advertisedHost,
                                      if b.advertisedPort == 0 then 9092 else b.advertisedPort;
                    var seen := Some(ExpectedMetadata(version, corrID, host, port, order));
                    DecodeMetadata(replies[i], version) == seen <==> forall t :: t in topics ==> Readable(t)
  {
    hide IsReply, TopicsAfter, NonEmpty, DecodeMetadata, ExpectedMetadata, Readable, Enumerates, PutMetadataRequest;
    var topics := TopicsAfter(b.autoCreate, topics0, frames[..i + 1]);
    LastRequested(b.autoCreate, topics0, frames, i, version, corrID, clientId, names);
    var order := MetadataReplyReadBack(b, topics, replies[i], version, corrID, clientId, names);
  }

  lemma LastRequested(autoCreate: bool, topics0: set<bytes>, frames: seq<bytes>, i: nat,
                      version: int, corrID: int32, clientId: Option<bytes>, names: seq<bytes>)
    requires i < |frames| && frames[i] == PutMetadataRequest(version, corrID, clientId, names)
    requires 0 <= version <= 8 && (clientId.Some? ==> |clientId.value| < 0x8000)
    requires |names| < 0x8000_0000 && forall k :: 0 <= k < |names| ==> |names[k]| < 0x8000
    ensures forall t :: autoCreate && t in names && t != [] ==> t in TopicsAfter(autoCreate, topics0, frames[..i + 1])
  {
    hide PutMetadataRequest, Faults, Requested, Carried;
    MetadataRequestServed(version, corrID, clientId, names);
    assert frames[..i + 1][..i] == frames[..i];
  }

  lemma MetadataReplyReadBack(b: Broker, topics: set<bytes>, resp: bytes, version: int, corrID: int32,
                              clientId: Option<bytes>, names: seq<bytes>) returns (order: seq<bytes>)
    requires IsReply(b, topics, PutMetadataRequest(version, corrID, clientId, names), resp)
    requires 0 <= version <= 8 && (clientId.Some? ==> |clientId.value| < 0x8000) && |topics| < 0x8000_0000
    requires Readable(b.Host()) && -0x8000_0000 <= b.Port() < 0x8000_0000
    ensures Enumerates(order, topics)
    ensures var seen := Some(ExpectedMetadata(version, corrID, b.Host(), b.Port(), order));
            DecodeMetadata(resp, version) == seen <==> forall t :: t in topics ==> Readable(t)
  {
    hide PutMetadataRequest, HeaderAt, Faults, PutMetadata, DecodeMetadata, ExpectedMetadata, Readable;
    MetadataHeader(version, corrID, clientId, names);
    var h := HeaderAt(PutMetadataRequest(version, corrID, clientId, names)).value;
    order :| Answers(h, b.Host(), b.Port(), order, resp) && Enumerates(order, topics);
    EnumerationLength(order, topics);
    MetadataReadBackExactly(version, corrID, b.Host(), b.Port(), order);
    EnumeratesAll(order, topics);
  }

  lemma EnumeratesAll(order: seq<bytes>, topics: set<bytes>)
    requires Enumerates(order, topics)
    ensures (forall t :: t in order ==> Readable(t)) <==> (forall t :: t in topics ==> Readable(t))
  {
    hide Readable;
  }

  /** The same from version 9 on, whose request and response are in the flexible layouts the code has for them. */
  lemma FlexibleMetadataReplyTells(b: Broker, topics: set<bytes>, resp: bytes, version: int, corrID: int32,
                                   clientId: bytes, names: seq<bytes>) returns (order: seq<bytes>)
    requires 9 <= version < 0x8000 && |PutFlexibleMetadataRequest(version, corrID, clientId, names)| < MAX_INT
    requires |names| < MAX_INT && |topics| < 0x7fff_ffff && forall t :: t in topics ==> |t| < MAX_INT
    requires |b.advertisedHost| < MAX_INT && -0x8000_0000 <= b.advertisedPort < 0x8000_0000
    requires IsReply(b, topics, PutFlexibleMetadataRequest(version, corrID, clientId, names), resp)
    ensures Enumerates(order, topics)
    ensures var host, port := if b.advertisedHost == [] then LOCALHOST else b.advertisedHost,
                              if b.advertisedPort == 0 then 9092 else b.advertisedPort;
            DecodeFlexible(resp) == Some(ExpectedMetadata(9, corrID, host, port, order))
  {
    hide PutFlexibleMetadataRequest, HeaderAt, Faults, PutMetadata, DecodeFlexible, ExpectedMetadata;
    var body := PutFlexibleMetadataRequest(version, corrID, clientId, names);
    FlexibleMetadataHeader(body, version, corrID, clientId, names);
    order :| Answers(HeaderAt(body).value, b.Host(), b.Port(), order, resp) && Enumerates(order, topics);
    EnumerationLength(order, topics);
    FlexibleMetadataRead(version, corrID, b.Host(), b.Port(), order);
  }

  lemma FlexibleMetadataHeader(body: bytes, version: int, corrID: int32, clientId: bytes, names: seq<bytes>)
    requires 9 <= version < 0x8000 && |body| < MAX_INT
    requires body == PutFlexibleMetadataRequest(version, corrID, clientId, names)
    ensures var h := HeaderAt(body);
            h.Ret? && h.value.apiKey == 3 && h.value.version == version && h.value.corrID == corrID
  {
    hide At, PutFlexibleHeader, PutFlexibleNames, PutLength, PutUvarint, HeaderAt;
    Everywhere(body);
    AtAll(body);
    FlexibleHeaderReadBack(body, 3, version, corrID, clientId);
  }

  /** Key, version and correlation id of a request, and what its reply must be. */
  ghost predicate TellsClient(apiKey: int, version: int, corrID: int, resp: bytes) {
    match apiKey
    case 0 => 0 <= version <= 8 ==> AcknowledgesNothing(resp, corrID)
    case 3 => true
    case 17 => RefusesMechanism(resp, corrID)
    case 18 =>
      && (1 <= version <= 3 ==>
            ApiVersionsAt(resp, version) == Some((ApiVersionsView(corrID, 0, ANNOUNCED, Some(0)), |resp|)))
      && (version == 0 ==>
            && |resp| >= 4 && resp[|resp| - 4..] == [0, 0, 0, 0]
            && ApiVersionsAt(resp, 0) == Some((ApiVersionsView(corrID, 0, ANNOUNCED, None), |resp| - 4)))
    case 36 => RefusesCredentials(resp, corrID)
    case _ => RefusesKey(resp, corrID)
  }

  /**
   * What every reply but a metadata one tells a client, by the key of its request: the supported version ranges, that
   * nothing is acknowledged in particular, or which error refuses it.
   */
  lemma ReplyTells(b: Broker, topics: set<bytes>, body: bytes, resp: bytes)
    requires IsReply(b, topics, body, resp) && |body| >= 8
    ensures TellsClient(GetInt(body[0..2]), GetInt(body[2..4]), GetInt(body[4..8]), resp)
  {
    hide GetInt, ApiVersionsAt, PutApiVersions, PutProduceReply, PutSaslHandshake, PutSaslAuthenticate, PutError,
      AcknowledgesNothing, RefusesMechanism, RefusesCredentials, RefusesKey, Enumerates, PutMetadata, NameAt, Tagged;
    FaultFreeHeader(body);
    var h := HeaderAt(body).value;
    var corrID: int32 := h.corrID;
    match h.apiKey {
      case 0 => ProduceReplyRead(corrID);
      case 17 => SaslHandshakeRead(corrID);
      case 18 =>
        if h.version == 0 {
          ApiVersionsReadInVersion0(corrID);
        } else if 1 <= h.version <= 3 {
          ApiVersionsRead(corrID, h.version);
        }
      case 36 => SaslAuthenticateRead(corrID);
      case _ => ErrorRead(corrID);
    }
  }

  lemma MetadataHeader(version: int, corrID: int32, clientId: Option<bytes>, names: seq<bytes>)
    requires 0 <= version <= 8 && (clientId.Some? ==> |clientId.value| < 0x8000)
    ensures var h := HeaderAt(PutMetadataRequest(version, corrID, clientId, names));
            h.Ret? && h.value.apiKey == 3 && h.value.version == version && h.value.corrID == corrID
  {
    hide At, PutHeader, PutNames, HeaderAt, PutInt;
    var body := PutMetadataRequest(version, corrID, clientId, names);
    Everywhere(body);
    AtAll(body);
    HeaderReadBack(body, 3, version, corrID, clientId);
  }

  /** A Produce request of versions 0 to 8 in the layout the code reads. */
  datatype Sent = Sent(version: int, corrID: int32, clientId: Option<bytes>, produce: WireProduce)

  function SentBody(r: Sent): bytes {
    PutProduceRequest(r.version, r.corrID, r.clientId, r.produce)
  }

  predicate SentOk(r: Sent) {
    && 0 <= r.version <= 8 && (r.clientId.Some? ==> |r.clientId.value| < 0x8000) && ProduceFits(r.produce)
    && |SentBody(r)| <= MAX_FRAME
  }

  function AllSent(rs: seq<Sent>): seq<Message> {
    if rs == [] then [] else AllSent(rs[..|rs| - 1]) + TopicMessages(rs[|rs| - 1].produce.topics)
  }

  /**
   * What a connection carries in all whose Produce requests are in the layout the code reads is what its requests
   * carry, record by record and in order.
   */
  lemma {:induction false} ProducerConnection(rs: seq<Sent>)
    requires forall i :: 0 <= i < |rs| ==> SentOk(rs[i])
    ensures var bodies := seq(|rs|, i requires 0 <= i < |rs| => SentBody(rs[i]));
            AllCarried(bodies) == AllSent(rs) && AllRequested(bodies) == {}
    decreases |rs|
  {
    hide SentBody, Carried, Requested, TopicMessages;
    if rs != [] {
      var n := |rs| - 1;
      var bodies := seq(|rs|, i requires 0 <= i < |rs| => SentBody(rs[i]));
      ProducerConnection(rs[..n]);
      assert bodies[..n] == seq(n, i requires 0 <= i < n => SentBody(rs[..n][i]));
      SentServed(rs[n]);
    }
  }

  lemma SentServed(r: Sent)
    requires SentOk(r)
    ensures !Faults(SentBody(r)) && Requested(SentBody(r)) == []
    ensures Carried(SentBody(r)) == TopicMessages(r.produce.topics)
  {
    hide Carried, Requested, TopicMessages, Faults;
    ProduceRequestServed(r.version, r.corrID, r.clientId, r.produce);
  }
}
