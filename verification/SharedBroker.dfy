/**
 * The broker's shared state under every interleaving of its connections and of the one consumer of its queue
 * (internal/broker/broker.go). Steps are the sections the mutex and the channel make atomic; decoding a request
 * touches only that connection's buffer.
 */
module SharedBroker {
  import opened GoTypes
  import opened RecordBatch
  import opened Broker

  datatype Config = Config(configured: set<bytes>, autoCreate: bool)

  /** Where a connection is: between requests, in handleMetadata, or sending what a request carries. */
  datatype Conn =
    | Idle
    | Asking(names: seq<bytes>)
    | Created(names: seq<bytes>)
    | Listed(names: seq<bytes>, answer: set<bytes>)
    | Sending(rest: seq<Message>, fatal: bool)

  /** A queued message with where it came from: the `index`-th message decoded on connection `conn`. */
  datatype Entry = Entry(conn: nat, index: nat, msg: Message)

  /** A fault of one connection stops the process. `decoded`, `asked` and `delivered` are history. */
  datatype State = State(topicSet: set<bytes>, queue: seq<Entry>, conns: seq<Conn>, crashed: bool,
                         decoded: seq<seq<Message>>, asked: set<bytes>, delivered: seq<Entry>)

  datatype Step =
    | ReceiveMetadata(c: nat, body: bytes)
    | AutoCreate(c: nat)
    | List(c: nat)
    | Answer(c: nat)
    | ReceiveProduce(c: nat, body: bytes)
    | Send(c: nat)
    | EndProduce(c: nat)
    | Crash(c: nat)
    | Deliver

  ghost predicate Init(cfg: Config, s: State) {
    && s.topicSet == cfg.configured && s.queue == [] && s.delivered == [] && s.asked == {} && !s.crashed
    && |s.decoded| == |s.conns|
    && forall c :: 0 <= c < |s.conns| ==> s.conns[c] == Idle && s.decoded[c] == []
  }

  predicate Enabled(s: State, step: Step) {
    if s.crashed then false
    else if step.Deliver? then s.queue != []
    else
      && step.c < |s.conns| == |s.decoded|
      && var conn := s.conns[step.c];
         match step
         case ReceiveMetadata(_, body) => conn.Idle? && !Faults(body)
         case ReceiveProduce(_, _) => conn.Idle?
         case AutoCreate(_) => conn.Asking?
         case List(_) => conn.Created?
         case Answer(_) => conn.Listed?
         case Send(_) => conn.Sending? && 0 < |conn.rest| <= |s.decoded[step.c]|
         case EndProduce(_) => conn.Sending? && conn.rest == [] && !conn.fatal
         case Crash(_) => conn.Sending? && conn.rest == [] && conn.fatal
  }

  /**
   * One step. `ReceiveProduce` also stands for any request that faults: what it carries up to the fault is sent, then
   * the process stops.
   */
  function Do(cfg: Config, s: State, step: Step): State
    requires Enabled(s, step)
  {
    match step
    case ReceiveMetadata(c, body) =>
      s.(conns := s.conns[c := Asking(Requested(body))], asked := s.asked + NonEmpty(Requested(body)))
    case AutoCreate(c) =>
      var names := s.conns[c].names;
      s.(conns := s.conns[c := Created(names)],
         topicSet := s.topicSet + if cfg.autoCreate then NonEmpty(names) else {})
    case List(c) => s.(conns := s.conns[c := Listed(s.conns[c].names, s.topicSet)])
    case Answer(c) => s.(conns := s.conns[c := Idle])
    case ReceiveProduce(c, body) =>
      s.(conns := s.conns[c := Sending(Carried(body), Faults(body))],
         decoded := s.decoded[c := s.decoded[c] + Carried(body)])
    case Send(c) =>
      var rest := s.conns[c].rest;
      s.(conns := s.conns[c := Sending(rest[1..], s.conns[c].fatal)],
         queue := if |s.queue| < QUEUE_CAPACITY then s.queue + [Entry(c, |s.decoded[c]| - |rest|, rest[0])]
                  else s.queue)
    case EndProduce(c) => s.(conns := s.conns[c := Idle])
    case Crash(_) => s.(crashed := true)
    case Deliver => s.(queue := s.queue[1..], delivered := s.delivered + [s.queue[0]])
  }

  ghost predicate Next(cfg: Config, s: State, s': State) {
    exists step :: Enabled(s, step) && s' == Do(cfg, s, step)
  }

  /** A run: any number of steps by anyone. */
  ghost predicate Run(cfg: Config, trace: seq<State>) {
    && trace != [] && Init(cfg, trace[0])
    && forall i :: 0 <= i < |trace| - 1 ==> Next(cfg, trace[i], trace[i + 1])
  }

  // ---------- What every step keeps ----------

  function Left(conn: Conn): nat {
    if conn.Sending? then |conn.rest| else 0
  }

  ghost predicate TopicsOk(cfg: Config, s: State, c: nat)
    requires c < |s.conns|
  {
    match s.conns[c]
    case Asking(names) => NonEmpty(names) <= s.asked
    case Created(names) => NonEmpty(names) <= s.asked && (cfg.autoCreate ==> NonEmpty(names) <= s.topicSet)
    case Listed(names, answer) =>
      cfg.configured <= answer <= s.topicSet && (cfg.autoCreate ==> NonEmpty(names) <= answer)
    case _ => true
  }

  ghost predicate SendOk(s: State, c: nat)
    requires c < |s.conns| == |s.decoded|
  {
    var left := Left(s.conns[c]);
    && left <= |s.decoded[c]|
    && (s.conns[c].Sending? ==> s.conns[c].rest == s.decoded[c][|s.decoded[c]| - left..])
  }

  /** An entry is what its connection decoded at that index, and that message has been sent. */
  ghost predicate EntryOk(s: State, e: Entry)
    requires |s.conns| == |s.decoded|
  {
    && e.conn < |s.conns|
    && e.index + Left(s.conns[e.conn]) < |s.decoded[e.conn]|
    && s.decoded[e.conn][e.index] == e.msg
  }

  /** Messages of one connection keep their order. */
  ghost predicate InOrder(es: seq<Entry>) {
    forall i, j :: 0 <= i < j < |es| && es[i].conn == es[j].conn ==> es[i].index < es[j].index
  }

  ghost predicate Inv(cfg: Config, s: State) {
    && |s.conns| == |s.decoded|
    && |s.queue| <= QUEUE_CAPACITY
    && cfg.configured <= s.topicSet <= cfg.configured + s.asked
    && (forall c :: 0 <= c < |s.conns| ==> TopicsOk(cfg, s, c) && SendOk(s, c))
    && InOrder(s.delivered + s.queue)
    && (forall e :: e in s.delivered + s.queue ==> EntryOk(s, e))
  }

  /** The comparison of lengths in `Enabled` holds off no send. */
  lemma SendReady(cfg: Config, s: State, c: nat)
    requires Inv(cfg, s) && !s.crashed && c < |s.conns| && s.conns[c].Sending? && s.conns[c].rest != []
    ensures Enabled(s, Send(c))
  {
    assert SendOk(s, c);
  }

  lemma SendKeepsOrder(s: State, c: nat, es: seq<Entry>)
    requires c < |s.conns| == |s.decoded| && SendOk(s, c) && s.conns[c].Sending? && s.conns[c].rest != []
    requires InOrder(es) && forall e :: e in es ==> EntryOk(s, e)
    ensures InOrder(es + [Entry(c, |s.decoded[c]| - |s.conns[c].rest|, s.conns[c].rest[0])])
  {
    var es' := es + [Entry(c, |s.decoded[c]| - |s.conns[c].rest|, s.conns[c].rest[0])];
    forall i, j | 0 <= i < j < |es'| && es'[i].conn == es'[j].conn
      ensures es'[i].index < es'[j].index
    {
      assert es'[i] in es;
    }
  }

  lemma SendKeepsInv(cfg: Config, s: State, c: nat)
    requires Inv(cfg, s) && Enabled(s, Send(c))
    ensures Inv(cfg, Do(cfg, s, Send(c)))
  {
    hide NonEmpty;
    var s', all := Do(cfg, s, Send(c)), s.delivered + s.queue;
    var rest := s.conns[c].rest;
    assert SendOk(s, c);
    var sent := Entry(c, |s.decoded[c]| - |rest|, rest[0]);
    assert rest[1..] == s.decoded[c][|s.decoded[c]| - |rest| + 1..];
    forall d | 0 <= d < |s.conns|
      ensures TopicsOk(cfg, s', d) && SendOk(s', d)
    {
      assert TopicsOk(cfg, s, d) && SendOk(s, d);
    }
    forall e | e in all + [sent]
      ensures EntryOk(s', e)
    {
      if e in all {
        assert EntryOk(s, e);
      } else {
        assert e == sent;
      }
    }
    if |s.queue| < QUEUE_CAPACITY {
      SendKeepsOrder(s, c, all);
      assert s'.delivered + s'.queue == all + [sent];
    } else {
      forall e | e in all
        ensures EntryOk(s', e)
      {
        assert e in all + [sent];
      }
    }
  }

  lemma ReceiveProduceKeepsInv(cfg: Config, s: State, c: nat, body: bytes)
    requires Inv(cfg, s) && Enabled(s, ReceiveProduce(c, body))
    ensures Inv(cfg, Do(cfg, s, ReceiveProduce(c, body)))
  {
    hide NonEmpty, Carried, Faults;
    var s' := Do(cfg, s, ReceiveProduce(c, body));
    forall d | 0 <= d < |s.conns|
      ensures TopicsOk(cfg, s', d) && SendOk(s', d)
    {
      assert TopicsOk(cfg, s, d) && SendOk(s, d);
    }
    forall e | e in s'.delivered + s'.queue
      ensures EntryOk(s', e)
    {
      assert EntryOk(s, e);
    }
  }

  /** The steps of handleMetadata and the end of a request touch no message. */
  lemma OtherStepKeepsInv(cfg: Config, s: State, step: Step)
    requires Inv(cfg, s) && Enabled(s, step) && !step.Send? && !step.ReceiveProduce? && !step.Deliver?
    ensures Inv(cfg, Do(cfg, s, step))
  {
    hide NonEmpty, Requested, Faults;
    var s' := Do(cfg, s, step);
    assert TopicsOk(cfg, s, step.c);
    forall d | 0 <= d < |s.conns|
      ensures TopicsOk(cfg, s', d) && SendOk(s', d)
    {
      assert TopicsOk(cfg, s, d) && SendOk(s, d);
    }
    forall e | e in s'.delivered + s'.queue
      ensures EntryOk(s', e)
    {
      assert EntryOk(s, e);
    }
  }

  lemma DeliverKeepsInv(cfg: Config, s: State)
    requires Inv(cfg, s) && Enabled(s, Deliver)
    ensures Inv(cfg, Do(cfg, s, Deliver))
  {
    var s' := Do(cfg, s, Deliver);
    assert s'.delivered + s'.queue == s.delivered + s.queue;
    forall d | 0 <= d < |s.conns|
      ensures TopicsOk(cfg, s', d) && SendOk(s', d)
    {
      assert TopicsOk(cfg, s, d) && SendOk(s, d);
    }
    forall e | e in s'.delivered + s'.queue
      ensures EntryOk(s', e)
    {
      assert EntryOk(s, e);
    }
  }

  lemma {:induction false} RunKeepsInv(cfg: Config, trace: seq<State>, i: nat)
    requires Run(cfg, trace) && i < |trace|
    ensures Inv(cfg, trace[i])
  {
    hide Inv, Do, Enabled;
    if i == 0 {
      InitHasInv(cfg, trace[0]);
    } else {
      RunKeepsInv(cfg, trace, i - 1);
      assert Next(cfg, trace[i - 1], trace[i - 1 + 1]);
      var step :| Enabled(trace[i - 1], step) && trace[i] == Do(cfg, trace[i - 1], step);
      match step {
        case Send(c) => SendKeepsInv(cfg, trace[i - 1], c);
        case ReceiveProduce(c, body) => ReceiveProduceKeepsInv(cfg, trace[i - 1], c, body);
        case Deliver => DeliverKeepsInv(cfg, trace[i - 1]);
        case _ => OtherStepKeepsInv(cfg, trace[i - 1], step);
      }
    }
  }

  lemma InitHasInv(cfg: Config, s: State)
    requires Init(cfg, s)
    ensures Inv(cfg, s)
  {
  }

  // ---------- What holds over whole runs ----------

  /** The topic set only grows, from the configured names, and only by names some client asked for. */
  lemma {:induction false} TopicSetGrows(cfg: Config, trace: seq<State>, i: nat, j: nat)
    requires Run(cfg, trace) && i <= j < |trace|
    ensures trace[i].topicSet <= trace[j].topicSet
    ensures cfg.configured <= trace[j].topicSet <= cfg.configured + trace[j].asked
    ensures !cfg.autoCreate ==> trace[j].topicSet == cfg.configured
    ensures [] in trace[j].topicSet ==> [] in cfg.configured
    decreases j
  {
    hide Requested, Carried, Faults;
    RunKeepsInv(cfg, trace, j);
    if j > 0 {
      TopicSetGrows(cfg, trace, if i < j then i else j - 1, j - 1);
      assert Next(cfg, trace[j - 1], trace[j - 1 + 1]);
    }
  }

  /** With auto-creation on, a metadata answer includes every non-empty name its own request asked for. */
  lemma AnswerIncludesRequest(cfg: Config, trace: seq<State>, i: nat, c: nat)
    requires Run(cfg, trace) && i < |trace| && c < |trace[i].conns| && trace[i].conns[c].Listed?
    ensures cfg.configured <= trace[i].conns[c].answer
    ensures forall t :: cfg.autoCreate && t in trace[i].conns[c].names && t != [] ==> t in trace[i].conns[c].answer
  {
    RunKeepsInv(cfg, trace, i);
    assert TopicsOk(cfg, trace[i], c);
  }

  /** The messages delivered from one connection, and the places at which it decoded them. */
  function DeliveredFrom(es: seq<Entry>, c: nat): seq<Message> {
    if es == [] then []
    else DeliveredFrom(es[..|es| - 1], c) + if es[|es| - 1].conn == c then [es[|es| - 1].msg] else []
  }

  function PlacesFrom(es: seq<Entry>, c: nat): seq<nat> {
    if es == [] then []
    else PlacesFrom(es[..|es| - 1], c) + if es[|es| - 1].conn == c then [es[|es| - 1].index] else []
  }

  ghost predicate Picks<T(!new)>(xs: seq<T>, ys: seq<T>, places: seq<nat>) {
    && |places| == |xs|
    && (forall i :: 0 <= i < |xs| ==> places[i] < |ys| && xs[i] == ys[places[i]])
    && forall i, j :: 0 <= i < j < |xs| ==> places[i] < places[j]
  }

  /** `xs` is `ys` with some elements left out. */
  ghost predicate IsSubsequence<T(!new)>(xs: seq<T>, ys: seq<T>) {
    exists places :: Picks(xs, ys, places)
  }

  /** One more element, from behind all places so far. */
  lemma PicksAppend<T(!new)>(xs: seq<T>, ys: seq<T>, places: seq<nat>, p: nat)
    requires Picks(xs, ys, places) && p < |ys| && forall q :: q in places ==> q < p
    ensures Picks(xs + [ys[p]], ys, places + [p])
  {
    forall i | 0 <= i < |places|
      ensures places[i] < p
    {
      assert places[i] in places;
    }
  }

  lemma {:induction false} PlacesPick(s: State, es: seq<Entry>, c: nat, hi: nat)
    requires c < |s.conns| == |s.decoded| && InOrder(es)
    requires forall e :: e in es ==> EntryOk(s, e) && (e.conn == c ==> e.index < hi)
    ensures Picks(DeliveredFrom(es, c), s.decoded[c], PlacesFrom(es, c))
    ensures forall p :: p in PlacesFrom(es, c) ==> p < hi
    decreases |es|
  {
    if es != [] {
      var last, init := es[|es| - 1], es[..|es| - 1];
      assert last in es && EntryOk(s, last);
      forall e | e in init
        ensures EntryOk(s, e) && (e.conn == c ==> e.index < hi)
        ensures last.conn == c && e.conn == c ==> e.index < last.index
      {
        assert e in es;
      }
      assert DeliveredFrom(es, c) == DeliveredFrom(init, c) + if last.conn == c then [last.msg] else [];
      assert PlacesFrom(es, c) == PlacesFrom(init, c) + if last.conn == c then [last.index] else [];
      hide DeliveredFrom, PlacesFrom, Picks;
      PlacesPick(s, init, c, if last.conn == c then last.index else hi);
      if last.conn == c {
        PicksAppend(DeliveredFrom(init, c), s.decoded[c], PlacesFrom(init, c), last.index);
      } else {
        assert DeliveredFrom(es, c) == DeliveredFrom(init, c) && PlacesFrom(es, c) == PlacesFrom(init, c);
      }
    }
  }

  /**
   * The queue never exceeds its capacity, and whatever was delivered from a connection is, in order, a subsequence
   * of the messages that connection decoded.
   */
  lemma QueueBoundedAndOrdered(cfg: Config, trace: seq<State>, i: nat, c: nat)
    requires Run(cfg, trace) && i < |trace| && c < |trace[i].conns|
    ensures |trace[i].queue| <= 4096
    ensures c < |trace[i].decoded| && IsSubsequence(DeliveredFrom(trace[i].delivered, c), trace[i].decoded[c])
  {
    RunKeepsInv(cfg, trace, i);
    var s := trace[i];
    forall e | e in s.delivered
      ensures EntryOk(s, e)
    {
      assert e in s.delivered + s.queue;
    }
    forall i, j | 0 <= i < j < |s.delivered| && s.delivered[i].conn == s.delivered[j].conn
      ensures s.delivered[i].index < s.delivered[j].index
    {
      assert (s.delivered + s.queue)[i] == s.delivered[i] && (s.delivered + s.queue)[j] == s.delivered[j];
    }
    PlacesPick(s, s.delivered, c, |s.decoded[c]|);
  }

  // ---------- Nothing is lost without need ----------

  lemma DeliveredAppend(es: seq<Entry>, e: Entry, c: nat)
    ensures DeliveredFrom(es + [e], c) == DeliveredFrom(es, c) + if e.conn == c then [e.msg] else []
  {
    assert (es + [e])[..|es|] == es;
  }

  /** Of what a connection decoded, all but what it still has to send is in the queue or delivered. */
  ghost predicate AllSentOn(s: State, c: nat)
    requires c < |s.conns| == |s.decoded| && SendOk(s, c)
  {
    DeliveredFrom(s.delivered + s.queue, c) == s.decoded[c][..|s.decoded[c]| - Left(s.conns[c])]
  }

  /** The message sent is the next one decoded. */
  lemma NextSent(s: State, c: nat)
    requires c < |s.conns| == |s.decoded| && SendOk(s, c) && s.conns[c].Sending? && s.conns[c].rest != []
    ensures var rest, n := s.conns[c].rest, |s.decoded[c]| - |s.conns[c].rest|;
            && 0 <= n < |s.decoded[c]| && rest[0] == s.decoded[c][n] && rest[1..] == s.decoded[c][n + 1..]
            && s.decoded[c][..n + 1] == s.decoded[c][..n] + [rest[0]]
  {
  }

  lemma SendKeepsAllSent(cfg: Config, s: State, d: nat, c: nat)
    requires Inv(cfg, s) && Enabled(s, Send(d)) && |s.queue| < QUEUE_CAPACITY && c < |s.conns|
    requires SendOk(s, c) && AllSentOn(s, c)
    ensures var s' := Do(cfg, s, Send(d)); c < |s'.conns| == |s'.decoded| && SendOk(s', c) && AllSentOn(s', c)
  {
    assert SendOk(s, d);
    var rest := s.conns[d].rest;
    var e := Entry(d, |s.decoded[d]| - |rest|, rest[0]);
    assert s.delivered + (s.queue + [e]) == s.delivered + s.queue + [e];
    DeliveredAppend(s.delivered + s.queue, e, c);
    hide NonEmpty, Inv, DeliveredFrom, SendOk, AllSentOn;
    var s' := Do(cfg, s, Send(d));
    if c == d {
      SentByItself(s, s', c);
    } else {
      SentByAnother(s, s', c, DeliveredFrom(s.delivered + s.queue, c));
    }
  }

  lemma SentByItself(s: State, s': State, c: nat)
    requires c < |s.conns| == |s.decoded| == |s'.conns| == |s'.decoded| && SendOk(s, c) && AllSentOn(s, c)
    requires s.conns[c].Sending? && s.conns[c].rest != [] && s'.decoded[c] == s.decoded[c]
    requires s'.conns[c] == s.conns[c].(rest := s.conns[c].rest[1..])
    requires DeliveredFrom(s'.delivered + s'.queue, c) ==
             DeliveredFrom(s.delivered + s.queue, c) + [s.conns[c].rest[0]]
    ensures SendOk(s', c) && AllSentOn(s', c)
  {
    hide DeliveredFrom;
    NextSent(s, c);
  }

  lemma SentByAnother(s: State, s': State, c: nat, before: seq<Message>)
    requires c < |s.conns| == |s.decoded| == |s'.conns| == |s'.decoded| && SendOk(s, c) && AllSentOn(s, c)
    requires s'.decoded[c] == s.decoded[c] && s'.conns[c] == s.conns[c]
    requires DeliveredFrom(s.delivered + s.queue, c) == before
    requires DeliveredFrom(s'.delivered + s'.queue, c) == before + []
    ensures SendOk(s', c) && AllSentOn(s', c)
  {
    hide DeliveredFrom;
    assert before + [] == before;
  }

  /** A step of the connection that sends nothing. */
  lemma OwnStepKeepsAllSent(s: State, s': State, c: nat)
    requires c < |s.conns| == |s.decoded| == |s'.conns| == |s'.decoded| && SendOk(s, c) && AllSentOn(s, c)
    requires s'.delivered + s'.queue == s.delivered + s.queue
    requires
      || (s'.decoded[c] == s.decoded[c] && Left(s'.conns[c]) == Left(s.conns[c]) == 0)
      || (s'.decoded[c] == s.decoded[c] && s'.conns[c] == s.conns[c])
      || (Left(s.conns[c]) == 0 && s'.conns[c].Sending? && s'.decoded[c] == s.decoded[c] + s'.conns[c].rest)
    ensures SendOk(s', c) && AllSentOn(s', c)
  {
    hide DeliveredFrom;
  }

  lemma StepKeepsAllSent(cfg: Config, s: State, step: Step, c: nat)
    requires Inv(cfg, s) && Enabled(s, step) && |s.queue| < QUEUE_CAPACITY && c < |s.conns|
    requires SendOk(s, c) && AllSentOn(s, c)
    ensures var s' := Do(cfg, s, step); c < |s'.conns| == |s'.decoded| && SendOk(s', c) && AllSentOn(s', c)
  {
    if step.Send? {
      SendKeepsAllSent(cfg, s, step.c, c);
    } else {
      QuietStep(cfg, s, step, c);
      hide Inv, Enabled, Do, SendOk, AllSentOn, Left;
      OwnStepKeepsAllSent(s, Do(cfg, s, step), c);
    }
  }

  /** What a step that sends nothing does to a connection. */
  lemma QuietStep(cfg: Config, s: State, step: Step, c: nat)
    requires |s.conns| == |s.decoded| && Enabled(s, step) && c < |s.conns| && !step.Send?
    ensures var s' := Do(cfg, s, step);
            && |s'.conns| == |s.conns| && |s'.decoded| == |s.decoded|
            && s'.delivered + s'.queue == s.delivered + s.queue
            && (|| (s'.decoded[c] == s.decoded[c] && Left(s'.conns[c]) == Left(s.conns[c]) == 0)
                || (s'.decoded[c] == s.decoded[c] && s'.conns[c] == s.conns[c])
                || (Left(s.conns[c]) == 0 && s'.conns[c].Sending?
                    && s'.decoded[c] == s.decoded[c] + s'.conns[c].rest))
  {
    hide NonEmpty, Carried, Requested, Faults;
    var s' := Do(cfg, s, step);
    assert s'.delivered + s'.queue == s.delivered + s.queue;
  }

  /** As long as the queue never fills up, every message a connection has sent is queued or delivered, in order. */
  lemma {:induction false} NothingDropped(cfg: Config, trace: seq<State>, i: nat, c: nat)
    requires Run(cfg, trace) && i < |trace| && c < |trace[0].conns|
    requires forall j :: 0 <= j < i ==> |trace[j].queue| < 4096
    ensures var s := trace[i];
            && c < |s.conns| == |s.decoded| && Left(s.conns[c]) <= |s.decoded[c]|
            && DeliveredFrom(s.delivered + s.queue, c) == s.decoded[c][..|s.decoded[c]| - Left(s.conns[c])]
    decreases i
  {
    AllSentInRun(cfg, trace, i, c);
  }

  lemma {:induction false} AllSentInRun(cfg: Config, trace: seq<State>, i: nat, c: nat)
    requires Run(cfg, trace) && i < |trace| && c < |trace[0].conns|
    requires forall j :: 0 <= j < i ==> |trace[j].queue| < QUEUE_CAPACITY
    ensures var s := trace[i]; c < |s.conns| == |s.decoded| && SendOk(s, c) && AllSentOn(s, c)
    decreases i
  {
    if i > 0 {
      hide Inv, Do, Enabled, AllSentOn, SendOk, Init;
      AllSentInRun(cfg, trace, i - 1, c);
      RunKeepsInv(cfg, trace, i - 1);
      assert Next(cfg, trace[i - 1], trace[i - 1 + 1]);
      var step :| Enabled(trace[i - 1], step) && trace[i] == Do(cfg, trace[i - 1], step);
      StepKeepsAllSent(cfg, trace[i - 1], step, c);
    }
  }

  /** The topics of a metadata answer are those of the shared set at some moment after its own were created. */
  lemma {:induction false} AnswerIsSnapshot(cfg: Config, trace: seq<State>, i: nat, c: nat) returns (j: nat)
    requires Run(cfg, trace) && i < |trace| && c < |trace[i].conns| && trace[i].conns[c].Listed?
    ensures j < i && c < |trace[j].conns| && trace[j].conns[c] == Created(trace[i].conns[c].names)
    ensures trace[i].conns[c].answer == trace[j].topicSet
    decreases i
  {
    hide NonEmpty, Carried, Requested, Faults;
    if i > 0 {
      assert Next(cfg, trace[i - 1], trace[i - 1 + 1]);
      if trace[i - 1].conns[c] == trace[i].conns[c] {
        j := AnswerIsSnapshot(cfg, trace, i - 1, c);
      } else {
        j := i - 1;
      }
    }
  }
}
