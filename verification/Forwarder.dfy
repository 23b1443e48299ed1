/** What a flush makes of a batch, for metrics and for logs (internal/forwarder/forwarder.go). */
module Forwarder {
  import opened GoTypes
  import opened Relabel
  import Prompb
  import Loki

  /** A metric sample; the time is in nanoseconds since the epoch. */
  datatype MetricSample = MetricSample(name: bytes, labels: Labels, value: uint64, nanos: int)

  datatype LogEntry = LogEntry(labels: Labels, nanos: int64, line: bytes)

  function NameLabel(): bytes { Ascii("__name__") }

  /** time.Time.UnixMilli. */
  function UnixMilli(nanos: int): int64 {
    ToInt64(nanos / 1_000_000)
  }

  // ---------- Merging labels ----------

  /** `src` copied over `base`, but for the keys in `rest`. */
  ghost function Partly(base: Labels, src: Labels, rest: set<bytes>): Labels {
    base + (src - rest)
  }

  lemma PartlyEnds(base: Labels, src: Labels)
    ensures Partly(base, src, src.Keys) == base && Partly(base, src, {}) == base + src
  {
    assert src - {} == src;
  }

  lemma PartlyNext(base: Labels, src: Labels, rest: set<bytes>, k: bytes)
    requires k in rest && rest <= src.Keys
    ensures Partly(base, src, rest)[k := src[k]] == Partly(base, src, rest - {k})
  {
    assert src - (rest - {k}) == (src - rest)[k := src[k]];
  }

  /** Copies one map over another, in map order. */
  method CopyOver(base: Labels, src: Labels) returns (m: Labels)
    ensures m == base + src
  {
    hide Partly;
    PartlyEnds(base, src);
    m := base;
    var rest := src.Keys;
    while rest != {}
      invariant rest <= src.Keys && m == Partly(base, src, rest)
      decreases |rest|
    {
      var k :| k in rest;
      PartlyNext(base, src, rest, k);
      m := m[k := src[k]];
      rest := rest - {k};
    }
  }

  /** The second set overrides the first. */
  method Merge(low: Labels, high: Labels) returns (m: Labels)
    ensures m == low + high
  {
    m := CopyOver(map[], low);
    m := CopyOver(m, high);
    assert map[] + low == low;
  }

  // ---------- Metrics: from samples to series ----------

  /** Sample labels override extra labels, and the metric name overrides both. */
  function Merged(extra: Labels, s: MetricSample): Labels {
    (extra + s.labels)[NameLabel() := s.name]
  }

  /** `out` is what the rules can make of `m`, under some iteration orders. */
  ghost predicate CanYield(rules: seq<Rule>, m: Labels, out: Option<Labels>) {
    exists schedules: seq<seq<bytes>> ::
      |schedules| == |rules| && Permitted(rules, schedules, m) && ApplyRules(rules, schedules, m) == out
  }

  /** The labels of a series: each name once, and the same map. */
  ghost predicate Lists(ls: seq<Prompb.Label>, m: Labels) {
    && (forall i, j :: 0 <= i < j < |ls| ==> ls[i].name != ls[j].name)
    && (forall l :: l in ls ==> l.name in m && m[l.name] == l.value)
    && (forall k :: k in m ==> Prompb.Label(k, m[k]) in ls)
  }

  ghost predicate IsSeries(s: MetricSample, m: Labels, ts: Prompb.TimeSeries) {
    Lists(ts.labels, m) && ts.samples == [Prompb.Sample(s.value, UnixMilli(s.nanos))]
  }

  /** One series per kept sample, in batch order. */
  ghost predicate SeriesOf(batch: seq<MetricSample>, outs: seq<Option<Labels>>, ts: seq<Prompb.TimeSeries>)
    requires |outs| == |batch|
  {
    if batch == [] then ts == []
    else
      var n := |batch| - 1;
      match outs[n]
      case None => SeriesOf(batch[..n], outs[..n], ts)
      case Some(m) => ts != [] && IsSeries(batch[n], m, ts[|ts| - 1]) && SeriesOf(batch[..n], outs[..n], ts[..|ts| - 1])
  }

  /** What a batch becomes: each sample's labels merged and relabelled, the kept ones turned into series. */
  ghost predicate Built(extra: Labels, rules: seq<Rule>, batch: seq<MetricSample>, outs: seq<Option<Labels>>,
                        ts: seq<Prompb.TimeSeries>) {
    && |outs| == |batch|
    && (forall i :: 0 <= i < |batch| ==> CanYield(rules, Merged(extra, batch[i]), outs[i]))
    && SeriesOf(batch, outs, ts)
  }

  lemma BuiltNext(extra: Labels, rules: seq<Rule>, batch: seq<MetricSample>, outs: seq<Option<Labels>>,
                  ts: seq<Prompb.TimeSeries>,
                  s: MetricSample, out: Option<Labels>, ts': seq<Prompb.TimeSeries>)
    requires Built(extra, rules, batch, outs, ts) && CanYield(rules, Merged(extra, s), out)
    requires out.None? ==> ts' == ts
    requires out.Some? ==> |ts'| == |ts| + 1 && ts'[..|ts|] == ts && IsSeries(s, out.value, ts'[|ts|])
    ensures Built(extra, rules, batch + [s], outs + [out], ts')
  {
    hide CanYield, Merged, IsSeries;
    assert (batch + [s])[..|batch|] == batch && (outs + [out])[..|outs|] == outs;
  }

  /** Copies a label map into a slice, in map order. */
  method ListLabels(m: Labels) returns (ls: seq<Prompb.Label>)
    ensures Lists(ls, m)
  {
    ls := [];
    var rest := m.Keys;
    while rest != {}
      invariant rest <= m.Keys
      invariant forall i, j :: 0 <= i < j < |ls| ==> ls[i].name != ls[j].name
      invariant forall l :: l in ls ==> l.name in m.Keys - rest && m[l.name] == l.value
      invariant forall k :: k in m.Keys - rest ==> Prompb.Label(k, m[k]) in ls
      decreases |rest|
    {
      var k :| k in rest;
      ls := ls + [Prompb.Label(k, m[k])];
      rest := rest - {k};
    }
  }

  /** What became of a flush. */
  datatype Flushed = Nothing | AllDropped | MarshalFailed | SendFailed(body: bytes) | Sent(body: bytes)

  class MetricsForwarder {
    const batchSize: int
    const extraLabels: Labels
    const rules: seq<Rule>
    var pending: seq<MetricSample>

    constructor (batchSize: int, extraLabels: Labels, rules: seq<Rule>)
      ensures this.batchSize == batchSize && this.extraLabels == extraLabels && this.rules == rules && pending == []
    {
      this.batchSize := batchSize;
      this.extraLabels := extraLabels;
      this.rules := rules;
      pending := [];
    }

    /** The locked section of Submit. */
    method Append(samples: seq<MetricSample>) returns (sz: nat)
      modifies this
      ensures pending == old(pending) + samples && sz == |pending|
    {
      pending := pending + samples;
      sz := |pending|;
    }

    /** The locked section of flush; an empty batch means there was nothing to take. */
    method TakeBatch() returns (batch: seq<MetricSample>)
      modifies this
      ensures batch == old(pending) && pending == []
    {
      if |pending| == 0 {
        return [];
      }
      batch := pending;
      pending := [];
    }

    /** Submit when no other thread runs in between: the threshold flushes everything. */
    method Submit(samples: seq<MetricSample>, sendWorks: bool) returns (res: Flushed)
      modifies this
      ensures pending == if |old(pending) + samples| >= batchSize then [] else old(pending) + samples
      ensures batchSize >= 1 ==> |pending| < batchSize
    {
      res := Nothing;
      var sz := Append(samples);
      if sz >= batchSize {
        var batch, outs, ts;
        res, batch, outs, ts := Flush(sendWorks);
      }
    }

    /** Merges, relabels and lists the labels of one sample; None when a rule drops it. */
    method BuildOne(s: MetricSample) returns (series: Option<Prompb.TimeSeries>, out: Option<Labels>)
      ensures CanYield(rules, Merged(extraLabels, s), out) && (out.Some? <==> series.Some?)
      ensures out.Some? ==> IsSeries(s, out.value, series.value)
    {
      hide Permitted, ApplyRules;
      var lbls := Merge(extraLabels, s.labels);
      var labels := new LabelSet(lbls[NameLabel() := s.name]);
      var keep, schedules := Apply(rules, labels);
      if !keep {
        return None, None;
      }
      var pbLbls := ListLabels(labels.m);
      series := Some(Prompb.TimeSeries(pbLbls, [Prompb.Sample(s.value, UnixMilli(s.nanos))]));
      out := Some(labels.m);
    }

    /**
     * Takes the batch and sends it; whether the HTTP request works is given. The body, decoded as a receiver would,
     * holds one series per kept sample in batch order; the marshaller fails exactly on an empty label name.
     */
    method Flush(sendWorks: bool)
      returns (res: Flushed, batch: seq<MetricSample>, outs: seq<Option<Labels>>, ts: seq<Prompb.TimeSeries>)
      modifies this
      ensures batch == old(pending) && pending == [] && Built(extraLabels, rules, batch, outs, ts)
      ensures res.Nothing? <==> batch == []
      ensures res.AllDropped? <==> batch != [] && ts == []
      ensures res.MarshalFailed? <==> ts != [] && Prompb.Unmarshallable(Prompb.WriteRequest(ts))
      ensures res.Sent? || res.SendFailed? ==>
                && (res.Sent? <==> sendWorks)
                && res.body == Prompb.PutRequest(Prompb.WriteRequest(ts))
                && (|res.body| <= MAX_INT ==> Prompb.DecodeRequest(res.body) == Some(Prompb.WriteRequest(ts)))
    {
      hide Built, IsSeries, CanYield, Merged, Prompb.Unmarshallable, Prompb.PutRequest, Prompb.DecodeRequest;
      outs, ts := [], [];
      batch := TakeBatch();
      NothingBuilt(extraLabels, rules, batch[..0]);
      for i := 0 to |batch|
        invariant batch == old(pending) && pending == []
        invariant |outs| == i && Built(extraLabels, rules, batch[..i], outs, ts)
      {
        var series, out := BuildOne(batch[i]);
        ghost var before := ts;
        if series.Some? {
          ts := ts + [series.value];
        }
        BuiltNext(extraLabels, rules, batch[..i], outs, before, batch[i], out, ts);
        assert batch[..i + 1] == batch[..i] + [batch[i]];
        outs := outs + [out];
      }
      assert batch[..|batch|] == batch;
      if |ts| == 0 {
        return if batch == [] then Nothing else AllDropped, batch, outs, ts;
      }
      NoSeries(extraLabels, rules, batch, outs, ts);
      var data := Prompb.Marshal(Prompb.WriteRequest(ts));
      if data.None? {
        return MarshalFailed, batch, outs, ts;
      }
      res := if sendWorks then Sent(data.value) else SendFailed(data.value);
    }
  }

  lemma NothingBuilt(extra: Labels, rules: seq<Rule>, batch: seq<MetricSample>)
    requires batch == []
    ensures Built(extra, rules, batch, [], [])
  {
  }

  lemma NoSeries(extra: Labels, rules: seq<Rule>, batch: seq<MetricSample>, outs: seq<Option<Labels>>,
                 ts: seq<Prompb.TimeSeries>)
    requires Built(extra, rules, batch, outs, ts) && ts != []
    ensures batch != []
  {
  }

  // ---------- What a receiver of a flush sees ----------

  /** How many samples relabelling kept, and which sample the k-th kept one is. */
  function KeptPlaces(outs: seq<Option<Labels>>): seq<nat> {
    if outs == [] then []
    else KeptPlaces(outs[..|outs| - 1]) + if outs[|outs| - 1].Some? then [|outs| - 1] else []
  }

  /** The places of the kept samples ascend and are exactly those. */
  lemma {:induction false} KeptPlacesExact(outs: seq<Option<Labels>>)
    ensures var ps := KeptPlaces(outs);
            && (forall i, j :: 0 <= i < j < |ps| ==> ps[i] < ps[j])
            && (forall p :: p in ps <==> 0 <= p < |outs| && outs[p].Some?)
    decreases |outs|
  {
    if outs != [] {
      var n := |outs| - 1;
      KeptPlacesExact(outs[..n]);
      var before := KeptPlaces(outs[..n]);
      forall i | 0 <= i < |before|
        ensures before[i] < n
      {
        assert before[i] in before;
      }
      assert forall p :: 0 <= p < n ==> outs[..n][p] == outs[p];
    }
  }

  /** A time in milliseconds is the one in nanoseconds rounded down, wherever it fits 64 bits. */
  lemma MillisRoundDown(nanos: int)
    requires -0x8000_0000_0000_0000 * 1_000_000 <= nanos < 0x8000_0000_0000_0000 * 1_000_000
    ensures 1_000_000 * UnixMilli(nanos) <= nanos < 1_000_000 * (UnixMilli(nanos) + 1)
  {
    var t := nanos / 1_000_000;
    assert -0x8000_0000_0000_0000 <= t < 0x8000_0000_0000_0000;
    InRange64(t);
  }

  /** `ts` has each of the labels `m` once, the sample's value, and its time in whole milliseconds. */
  ghost predicate Tells(ts: Prompb.TimeSeries, s: MetricSample, m: Labels) {
    && |ts.labels| == |m| && (forall k :: k in m ==> Prompb.Label(k, m[k]) in ts.labels)
    && |ts.samples| == 1 && ts.samples[0].value == s.value
    && (-0x8000_0000_0000_0000 * 1_000_000 <= s.nanos < 0x8000_0000_0000_0000 * 1_000_000 ==>
          1_000_000 * ts.samples[0].timestamp <= s.nanos < 1_000_000 * (ts.samples[0].timestamp + 1))
  }

  lemma SeriesTells(s: MetricSample, m: Labels, ts: Prompb.TimeSeries)
    requires IsSeries(s, m, ts)
    ensures Tells(ts, s, m)
  {
    ListLength(ts.labels, m);
    if -0x8000_0000_0000_0000 * 1_000_000 <= s.nanos < 0x8000_0000_0000_0000 * 1_000_000 {
      MillisRoundDown(s.nanos);
    }
  }

  lemma {:induction false} ListLength(ls: seq<Prompb.Label>, m: Labels)
    requires Lists(ls, m)
    ensures |ls| == |m|
    decreases |ls|
  {
    if ls == [] {
      assert m.Keys == {};
    } else {
      var n := |ls| - 1;
      var l := ls[n];
      assert l in ls && ls == ls[..n] + [l];
      ListLength(ls[..n], m - {l.name});
      assert m.Keys == (m - {l.name}).Keys + {l.name};
    }
  }

  /**
   * Series by series: the k-th series of a flush is the k-th kept sample, with its value, its time in milliseconds and
   * labels that are the relabelled merge; dropped samples leave nothing behind.
   */
  lemma {:induction false} SeriesByPlace(batch: seq<MetricSample>, outs: seq<Option<Labels>>,
                                         ts: seq<Prompb.TimeSeries>, k: nat)
    requires |outs| == |batch| && SeriesOf(batch, outs, ts)
    ensures |ts| == |KeptPlaces(outs)|
    ensures k < |ts| ==>
              var i := KeptPlaces(outs)[k];
              i < |batch| && outs[i].Some? && Tells(ts[k], batch[i], outs[i].value)
    decreases |batch|
  {
    hide IsSeries, Tells;
    if batch != [] {
      var n := |batch| - 1;
      assert KeptPlaces(outs) == KeptPlaces(outs[..n]) + if outs[n].Some? then [n] else [];
      hide KeptPlaces;
      if outs[n].None? {
        SeriesByPlace(batch[..n], outs[..n], ts, k);
      } else {
        SeriesByPlace(batch[..n], outs[..n], ts[..|ts| - 1], k);
        SeriesTells(batch[n], outs[n].value, ts[|ts| - 1]);
      }
    }
  }

  /** A kept sample whose relabelled labels include an empty name makes the batch fail to marshal; nothing else does. */
  lemma {:induction false} EmptyNameLosesBatch(batch: seq<MetricSample>, outs: seq<Option<Labels>>,
                                               ts: seq<Prompb.TimeSeries>)
    requires |outs| == |batch| && SeriesOf(batch, outs, ts)
    ensures Prompb.Unmarshallable(Prompb.WriteRequest(ts)) <==>
            exists i :: 0 <= i < |outs| && outs[i].Some? && [] in outs[i].value
    decreases |batch|
  {
    if batch != [] {
      var n := |batch| - 1;
      assert outs == outs[..n] + [outs[n]];
      if outs[n].None? {
        EmptyNameLosesBatch(batch[..n], outs[..n], ts);
      } else {
        var m := |ts| - 1;
        EmptyNameLosesBatch(batch[..n], outs[..n], ts[..m]);
        assert ts == ts[..m] + [ts[m]];
        ListedEmptyName(ts[m].labels, outs[n].value);
      }
    }
  }

  lemma ListedEmptyName(ls: seq<Prompb.Label>, m: Labels)
    requires Lists(ls, m)
    ensures Prompb.HasEmptyName(ls) <==> [] in m
  {
    if [] in m {
      assert Prompb.Label([], m[[]]) in ls;
    }
    if i :| 0 <= i < |ls| && ls[i].name == [] {
      assert ls[i] in ls;
    }
  }

  /** The bytes of "__name__". */
  const NAME: bytes := [95, 95, 110, 97, 109, 101, 95, 95]

  /** When no rule changes labels, a series carries the name it was submitted under and the overriding labels. */
  lemma UnrelabelledSeries(extra: Labels, s: MetricSample, ts: Prompb.TimeSeries, out: Option<Labels>)
    requires CanYield([], Merged(extra, s), out) && out.Some? && IsSeries(s, out.value, ts)
    ensures Prompb.Label(NAME, s.name) in ts.labels
    ensures forall k :: k in s.labels && k != NAME ==> Prompb.Label(k, s.labels[k]) in ts.labels
    ensures forall k :: k in extra && k !in s.labels && k != NAME ==> Prompb.Label(k, extra[k]) in ts.labels
    ensures forall l :: l in ts.labels ==> l.name in extra || l.name in s.labels || l.name == NAME
  {
    var m := Merged(extra, s);
    assert NameLabel() == NAME;
    hide Merged, NameLabel;
    assert out.value == m;
    MergedPrecedence(extra, s, m, NAME);
    assert m[NAME] == s.name && NAME in m;
    forall k | k in s.labels && k != NAME
      ensures Prompb.Label(k, s.labels[k]) in ts.labels
    {
      assert k in m && m[k] == s.labels[k];
    }
    forall k | k in extra && k !in s.labels && k != NAME
      ensures Prompb.Label(k, extra[k]) in ts.labels
    {
      assert k in m && m[k] == extra[k];
    }
  }

  lemma MergedPrecedence(extra: Labels, s: MetricSample, m: Labels, name: bytes)
    requires m == Merged(extra, s) && name == NameLabel()
    ensures m.Keys == extra.Keys + s.labels.Keys + {name} && m[name] == s.name
    ensures forall k :: k in s.labels && k != name ==> m[k] == s.labels[k]
    ensures forall k :: k in extra && k !in s.labels && k != name ==> m[k] == extra[k]
  {
  }

  // ---------- Logs ----------

  /** The entries relabelling kept, in batch order, with their relabelled labels. */
  ghost predicate EntriesOf(batch: seq<LogEntry>, outs: seq<Option<Labels>>, es: seq<Loki.Entry>)
    requires |outs| == |batch|
  {
    if batch == [] then es == []
    else
      var n := |batch| - 1;
      match outs[n]
      case None => EntriesOf(batch[..n], outs[..n], es)
      case Some(m) =>
        && es != [] && es[|es| - 1] == Loki.Entry(m, batch[n].nanos, batch[n].line)
        && EntriesOf(batch[..n], outs[..n], es[..|es| - 1])
  }

  ghost predicate LogsBuilt(extra: Labels, rules: seq<Rule>, batch: seq<LogEntry>, outs: seq<Option<Labels>>,
                            es: seq<Loki.Entry>) {
    && |outs| == |batch|
    && (forall i :: 0 <= i < |batch| ==> CanYield(rules, extra + batch[i].labels, outs[i]))
    && EntriesOf(batch, outs, es)
  }

  lemma LogsBuiltNext(extra: Labels, rules: seq<Rule>, batch: seq<LogEntry>, outs: seq<Option<Labels>>,
                      es: seq<Loki.Entry>,
                      e: LogEntry, out: Option<Labels>)
    requires LogsBuilt(extra, rules, batch, outs, es) && CanYield(rules, extra + e.labels, out)
    ensures LogsBuilt(extra, rules, batch + [e], outs + [out],
                      if out.None? then es else es + [Loki.Entry(out.value, e.nanos, e.line)])
  {
    hide CanYield;
    assert (batch + [e])[..|batch|] == batch && (outs + [out])[..|outs|] == outs;
    if out.Some? {
      assert (es + [Loki.Entry(out.value, e.nanos, e.line)])[..|es|] == es;
    }
  }

  /** Without rules a stream has the entry's labels and the extra labels they do not override, and no others. */
  lemma UnrelabelledEntry(extra: Labels, rules: seq<Rule>, batch: seq<LogEntry>, outs: seq<Option<Labels>>,
                          es: seq<Loki.Entry>, i: nat)
    requires LogsBuilt(extra, rules, batch, outs, es) && rules == [] && i < |batch|
    ensures outs[i].Some?
    ensures var m := outs[i].value;
            && (forall k :: k in m <==> k in extra || k in batch[i].labels)
            && (forall k :: k in batch[i].labels ==> m[k] == batch[i].labels[k])
            && (forall k :: k in extra && k !in batch[i].labels ==> m[k] == extra[k])
  {
    assert CanYield(rules, extra + batch[i].labels, outs[i]);
  }

  /** The k-th entry of a push is the k-th kept one, with its time, its line and its relabelled labels. */
  lemma {:induction false} EntriesByPlace(batch: seq<LogEntry>, outs: seq<Option<Labels>>, es: seq<Loki.Entry>, k: nat)
    requires |outs| == |batch| && EntriesOf(batch, outs, es)
    ensures |es| == |KeptPlaces(outs)|
    ensures k < |es| ==>
              var i := KeptPlaces(outs)[k];
              && i < |batch| && outs[i].Some? && es[k].labels == outs[i].value
              && es[k].nanos == batch[i].nanos && es[k].line == batch[i].line
    decreases |batch|
  {
    if batch != [] {
      var n := |batch| - 1;
      assert KeptPlaces(outs) == KeptPlaces(outs[..n]) + if outs[n].Some? then [n] else [];
      hide KeptPlaces;
      EntriesByPlace(batch[..n], outs[..n], if outs[n].None? then es else es[..|es| - 1], k);
    }
  }

  class LogForwarder {
    const batchSize: int
    const extraLabels: Labels
    const rules: seq<Rule>
    var pending: seq<LogEntry>

    constructor (batchSize: int, extraLabels: Labels, rules: seq<Rule>)
      ensures this.batchSize == batchSize && this.extraLabels == extraLabels && this.rules == rules && pending == []
    {
      this.batchSize := batchSize;
      this.extraLabels := extraLabels;
      this.rules := rules;
      pending := [];
    }

    /** Submit when no other thread runs in between. */
    method Submit(entry: LogEntry)
      modifies this
      ensures pending == if |old(pending)| + 1 >= batchSize then [] else old(pending) + [entry]
    {
      pending := pending + [entry];
      var sz := |pending|;
      if sz >= batchSize {
        var batch, outs, es, streams := Flush();
      }
    }

    /** Takes the batch, relabels it and groups what is kept into streams. */
    method Flush()
      returns (batch: seq<LogEntry>, outs: seq<Option<Labels>>, es: seq<Loki.Entry>, streams: seq<Loki.Stream>)
      modifies this
      ensures batch == old(pending) && pending == [] && LogsBuilt(extraLabels, rules, batch, outs, es)
      ensures Loki.GroupedByPrint(es, streams) && Loki.AllHold(es, streams)
      ensures (forall e :: e in es ==> Loki.Clean(e.labels)) ==> Loki.GroupedByLabels(es, streams)
    {
      hide CanYield, Loki.GroupedByPrint, Loki.GroupedByLabels, Loki.Clean, Loki.AllHold;
      outs, es := [], [];
      batch := pending;
      pending := [];
      for i := 0 to |batch|
        invariant batch == old(pending) && pending == []
        invariant |outs| == i && LogsBuilt(extraLabels, rules, batch[..i], outs, es)
      {
        var out := RelabelOne(batch[i]);
        LogsBuiltNext(extraLabels, rules, batch[..i], outs, es, batch[i], out);
        assert batch[..i + 1] == batch[..i] + [batch[i]];
        if out.Some? {
          es := es + [Loki.Entry(out.value, batch[i].nanos, batch[i].line)];
        }
        outs := outs + [out];
      }
      assert batch[..|batch|] == batch;
      streams := Loki.PushStreams(es);
    }

    method RelabelOne(e: LogEntry) returns (out: Option<Labels>)
      ensures CanYield(rules, extraLabels + e.labels, out)
    {
      hide Permitted, ApplyRules;
      var streamLabels := Merge(extraLabels, e.labels);
      var labels := new LabelSet(streamLabels);
      var keep, schedules := Apply(rules, labels);
      out := if keep then Some(labels.m) else None;
    }
  }
}
