/** Grouping log entries into Loki streams (pkg/lokiwriter/writer.go). */
module Loki {
  import opened GoTypes
  import opened Order

  type Labels = map<bytes, bytes>

  datatype Entry = Entry(labels: Labels, nanos: int64, line: bytes)

  /** Values are pairs of a timestamp numeral and a line. */
  datatype Stream = Stream(labels: Labels, values: seq<(bytes, bytes)>)

  const EQUALS: byte := 61
  const COMMA: byte := 44

  // ---------- Fingerprints ----------

  function Render(keys: seq<bytes>, m: Labels): bytes
    requires forall k :: k in keys ==> k in m
  {
    if keys == [] then [] else keys[0] + ([EQUALS] + (m[keys[0]] + ([COMMA] + Render(keys[1..], m))))
  }

  /** The label set in sorted key order. */
  ghost function Fingerprint(m: Labels): bytes {
    Render(Listing(m.Keys), m)
  }

  /** The text before the first `c`, and the text after it. */
  function Cut(b: bytes, c: byte): Option<(bytes, bytes)> {
    if b == [] then None
    else if b[0] == c then Some(([], b[1..]))
    else
      var (head, tail) :- Cut(b[1..], c);
      Some(([b[0]] + head, tail))
  }

  lemma {:induction false} CutFinds(head: bytes, c: byte, tail: bytes)
    requires c !in head
    ensures Cut(head + ([c] + tail), c) == Some((head, tail))
  {
    var b := head + ([c] + tail);
    if head == [] {
      assert b == [c] + tail;
    } else {
      assert b[1..] == head[1..] + ([c] + tail);
      CutFinds(head[1..], c, tail);
      assert [head[0]] + head[1..] == head;
    }
  }

  lemma {:induction false} CutIsShorter(b: bytes, c: byte)
    ensures Cut(b, c).Some? ==> |Cut(b, c).value.1| < |b| && c !in Cut(b, c).value.0
  {
    if b != [] && b[0] != c {
      CutIsShorter(b[1..], c);
    }
  }

  /** Reads a fingerprint back: up to '=' a key, up to ',' a value. */
  function Parse(b: bytes): Option<seq<(bytes, bytes)>>
    decreases |b|
  {
    if b == [] then Some([])
    else
      var (key, b1) :- Cut(b, EQUALS);
      CutIsShorter(b, EQUALS);
      CutIsShorter(b1, COMMA);
      var (value, b2) :- Cut(b1, COMMA);
      var rest :- Parse(b2);
      Some([(key, value)] + rest)
  }

  function Pairs(keys: seq<bytes>, m: Labels): seq<(bytes, bytes)>
    requires forall k :: k in keys ==> k in m
  {
    if keys == [] then [] else [(keys[0], m[keys[0]])] + Pairs(keys[1..], m)
  }

  /** No '=' in a key, no ',' in a value. */
  predicate Clean(m: Labels) {
    forall k :: k in m ==> EQUALS !in k && COMMA !in m[k]
  }

  predicate CleanPair(p: (bytes, bytes)) {
    EQUALS !in p.0 && COMMA !in p.1
  }

  lemma {:induction false} ParseOfRender(keys: seq<bytes>, m: Labels)
    requires (forall k :: k in keys ==> k in m) && Clean(m)
    ensures Parse(Render(keys, m)) == Some(Pairs(keys, m))
    decreases |keys|
  {
    hide Cut;
    if keys != [] {
      var k := keys[0];
      assert k in keys;
      CutFinds(k, EQUALS, m[k] + ([COMMA] + Render(keys[1..], m)));
      CutFinds(m[k], COMMA, Render(keys[1..], m));
      ParseOfRender(keys[1..], m);
    }
  }

  lemma {:induction false} ParsedPairsAreClean(b: bytes)
    requires Parse(b).Some?
    ensures forall i :: 0 <= i < |Parse(b).value| ==> CleanPair(Parse(b).value[i])
    decreases |b|
  {
    hide Cut;
    if b != [] {
      var (key, b1) := Cut(b, EQUALS).value;
      CutIsShorter(b, EQUALS);
      CutIsShorter(b1, COMMA);
      ParsedPairsAreClean(Cut(b1, COMMA).value.1);
    }
  }

  lemma {:induction false} PairsAt(keys: seq<bytes>, m: Labels, i: nat)
    requires (forall k :: k in keys ==> k in m) && i < |keys|
    ensures |Pairs(keys, m)| == |keys| && Pairs(keys, m)[i] == (keys[i], m[keys[i]])
    decreases |keys|
  {
    if |keys| > 1 {
      PairsAt(keys[1..], m, if i == 0 then 0 else i - 1);
    }
  }

  /** The parser inverts the fingerprint of exactly the clean label sets. */
  lemma FingerprintInvertible(m: Labels)
    ensures Parse(Fingerprint(m)) == Some(Pairs(Listing(m.Keys), m)) <==> Clean(m)
  {
    var keys := Listing(m.Keys);
    if Clean(m) {
      ParseOfRender(keys, m);
    }
    if Parse(Fingerprint(m)) == Some(Pairs(keys, m)) {
      ParsedPairsAreClean(Fingerprint(m));
      forall k | k in m
        ensures EQUALS !in k && COMMA !in m[k]
      {
        assert k in keys;
        var i :| 0 <= i < |keys| && keys[i] == k;
        PairsAt(keys, m, i);
        assert CleanPair(Pairs(keys, m)[i]);
      }
    }
  }

  /** Clean label sets with one fingerprint are equal. */
  lemma FingerprintInjective(m: Labels, m': Labels)
    requires Clean(m) && Clean(m') && Fingerprint(m) == Fingerprint(m')
    ensures m == m'
  {
    FingerprintInvertible(m);
    FingerprintInvertible(m');
    SamePairs(m, m');
    SamePairs(m', m);
  }

  lemma SamePairs(m: Labels, m': Labels)
    requires Pairs(Listing(m.Keys), m) == Pairs(Listing(m'.Keys), m')
    ensures forall k :: k in m ==> k in m' && m[k] == m'[k]
  {
    var keys, keys' := Listing(m.Keys), Listing(m'.Keys);
    if keys != [] {
      PairsAt(keys, m, 0);
    }
    if keys' != [] {
      PairsAt(keys', m', 0);
    }
    forall k | k in m
      ensures k in m' && m[k] == m'[k]
    {
      assert k in keys;
      var i :| 0 <= i < |keys| && keys[i] == k;
      PairsAt(keys, m, i);
      PairsAt(keys', m', i);
      assert keys'[i] in keys';
    }
  }

  lemma ListingOne(a: bytes)
    ensures Listing({a}) == [a]
  {
    assert IsListing([a], {a});
    ListingUnique(Listing({a}), [a], {a});
  }

  lemma ListingTwo(a: bytes, b: bytes)
    requires Less(a, b)
    ensures Listing({a, b}) == [a, b]
  {
    assert IsListing([a, b], {a, b});
    ListingUnique(Listing({a, b}), [a, b], {a, b});
  }

  /** A comma in a value can make two different label sets share a fingerprint: a="x,b=y" and a="x", b="y". */
  lemma UncleanCollision(a: byte, b: byte, x: byte, y: byte)
    requires a < b
    ensures Fingerprint(map[[a] := [x, COMMA, b, EQUALS, y]]) == Fingerprint(map[[a] := [x], [b] := [y]])
    ensures map[[a] := [x, COMMA, b, EQUALS, y]] != map[[a] := [x], [b] := [y]]
  {
    var one: Labels, two: Labels := map[[a] := [x, COMMA, b, EQUALS, y]], map[[a] := [x], [b] := [y]];
    ListingOne([a]);
    ListingTwo([a], [b]);
    assert one.Keys == {[a]} && two.Keys == {[a], [b]};
    assert Render([[a]], one) == [a, EQUALS, x, COMMA, b, EQUALS, y, COMMA] by {
      assert [[a]][1..] == [];
    }
    assert Render([[a], [b]], two) == [a, EQUALS, x, COMMA, b, EQUALS, y, COMMA] by {
      assert [[a], [b]][1..] == [[b]] && [[b]][1..] == [];
      assert Render([[b]], two) == [b, EQUALS, y, COMMA];
    }
    assert [b] in two && [b] !in one;
  }

  // ---------- Which label sets share a fingerprint ----------

  function Count(b: bytes, c: byte): (n: nat)
    ensures n == 0 <==> c !in b
  {
    if b == [] then 0 else (if b[0] == c then 1 else 0) + Count(b[1..], c)
  }

  lemma {:induction false} CountConcat(a: bytes, b: bytes, c: byte)
    ensures Count(a + b, c) == Count(a, c) + Count(b, c)
    decreases |a|
  {
    if a == [] {
      assert a + b == b;
    } else {
      assert (a + b)[1..] == a[1..] + b;
      CountConcat(a[1..], b, c);
    }
  }

  lemma CountAround(k: bytes, t: bytes)
    ensures Count(k + ([EQUALS] + t), EQUALS) == Count(k, EQUALS) + 1 + Count(t, EQUALS)
  {
    CountConcat(k, [EQUALS] + t, EQUALS);
    CountConcat([EQUALS], t, EQUALS);
    assert [EQUALS][1..] == [];
  }

  /** Cutting loses nothing. */
  lemma {:induction false} CutSplits(b: bytes, c: byte)
    ensures Cut(b, c).Some? <==> c in b
    ensures Cut(b, c).Some? ==> b == Cut(b, c).value.0 + ([c] + Cut(b, c).value.1) && c !in Cut(b, c).value.0
  {
    if b == [] {
    } else if b[0] == c {
      assert b == [] + ([c] + b[1..]);
    } else {
      CutSplits(b[1..], c);
      assert c in b <==> c in b[1..];
      if Cut(b[1..], c).Some? {
        var (head, tail) := Cut(b[1..], c).value;
        assert Cut(b, c) == Some(([b[0]] + head, tail));
        assert b == [b[0]] + (head + ([c] + tail)) == ([b[0]] + head) + ([c] + tail);
      }
    }
  }

  /** The fingerprint of one label. */
  function OnePrint(k: bytes, v: bytes): (b: bytes)
    ensures b == k + [61] + v + [44]
  {
    k + ([EQUALS] + (v + [COMMA]))
  }

  lemma OneLabel(k: bytes, v: bytes)
    ensures Fingerprint(map[k := v]) == OnePrint(k, v)
  {
    var m: Labels := map[k := v];
    ListingOne(k);
    assert m.Keys == {k};
    assert Render([k][1..], m) == [];
    assert Render([k], m) == k + ([EQUALS] + (v + ([COMMA] + [])));
    assert [COMMA] + [] == [COMMA];
  }

  /** Each label brings a '=', and every fingerprint but the empty one ends with a ','. */
  lemma {:induction false} RenderCounts(keys: seq<bytes>, m: Labels)
    requires forall k :: k in keys ==> k in m
    ensures Count(Render(keys, m), EQUALS) >= |keys|
    ensures keys == [] <==> Render(keys, m) == []
    ensures keys != [] ==> Render(keys, m)[|Render(keys, m)| - 1] == COMMA
    decreases |keys|
  {
    hide Count;
    if keys != [] {
      var v, rest := m[keys[0]], Render(keys[1..], m);
      RenderCounts(keys[1..], m);
      CountAround(keys[0], v + ([COMMA] + rest));
      CountConcat(v, [COMMA] + rest, EQUALS);
      CountConcat([COMMA], rest, EQUALS);
    }
  }

  /** With at most one '=' there is at most one label, and its name has no '='. */
  lemma FewLabels(m: Labels)
    requires Count(Fingerprint(m), EQUALS) <= 1
    ensures m == map[] <==> Fingerprint(m) == []
    ensures m == map[] || exists k, v :: EQUALS !in k && m == map[k := v]
  {
    hide Count;
    var keys := Listing(m.Keys);
    RenderCounts(keys, m);
    if m != map[] {
      var k := keys[0];
      forall x | x in m
        ensures x == k
      {
        assert x in keys;
      }
      assert k in keys;
      assert m == map[k := m[k]];
      OneLabel(k, m[k]);
      CountAround(k, m[k] + [COMMA]);
      assert EQUALS !in k;
    }
  }

  lemma AtMostOneEquals(m: Labels, m': Labels)
    requires Count(Fingerprint(m), EQUALS) <= 1 && Fingerprint(m') == Fingerprint(m)
    ensures m' == m
  {
    hide Fingerprint, Count;
    FewLabels(m);
    FewLabels(m');
    if m != map[] {
      var k, v :| EQUALS !in k && m == map[k := v];
      var k', v' :| EQUALS !in k' && m' == map[k' := v'];
      OneLabel(k, v);
      OneLabel(k', v');
      CutFinds(k, EQUALS, v + [COMMA]);
      CutFinds(k', EQUALS, v' + [COMMA]);
      assert v == (v + [COMMA])[..|v|] && v' == (v' + [COMMA])[..|v'|];
    }
  }

  /** A fingerprint cut at its first '=' is that of one label. */
  lemma CutPrint(m: Labels) returns (k: bytes, v: bytes)
    requires Count(Fingerprint(m), EQUALS) > 1
    ensures Fingerprint(m) == OnePrint(k, v) && EQUALS !in k && EQUALS in v
  {
    hide Count, Cut;
    var fp := Fingerprint(m);
    RenderCounts(Listing(m.Keys), m);
    CutSplits(fp, EQUALS);
    var (head, tail) := Cut(fp, EQUALS).value;
    CountAround(head, tail);
    assert fp[|fp| - 1] == ([EQUALS] + tail)[|tail|];
    k, v := head, tail[..|tail| - 1];
    assert tail == v + [COMMA];
  }

  /** A fingerprint with two '=' or more is shared: cut at the first, or else at the second, it is that of one label. */
  lemma MoreThanOneEquals(m: Labels) returns (other: Labels)
    requires Count(Fingerprint(m), EQUALS) > 1
    ensures Fingerprint(other) == Fingerprint(m) && other != m
  {
    hide Fingerprint, Count, Cut;
    var k, v := CutPrint(m);
    other := map[k := v];
    OneLabel(k, v);
    if other == m {
      CutSplits(v, EQUALS);
      var (v1, v2) := Cut(v, EQUALS).value;
      var k' := k + ([EQUALS] + v1);
      assert OnePrint(k', v2) == k + ([EQUALS] + ((v1 + ([EQUALS] + v2)) + [COMMA]));
      other := map[k' := v2];
      OneLabel(k', v2);
      assert k' in other && |k'| > |k|;
    }
  }

  /** A label set has its fingerprint for itself exactly when the fingerprint holds at most one '='. */
  lemma PrintUniqueExactly(m: Labels)
    ensures (forall m' :: Fingerprint(m') == Fingerprint(m) ==> m' == m) <==> Count(Fingerprint(m), EQUALS) <= 1
  {
    hide Fingerprint, Count;
    if Count(Fingerprint(m), EQUALS) <= 1 {
      forall m' | Fingerprint(m') == Fingerprint(m)
        ensures m' == m
      {
        AtMostOneEquals(m, m');
      }
    } else {
      var other := MoreThanOneEquals(m);
    }
  }

  /** Collects the keys in map order and sorts them. */
  method SortedKeys(labels: Labels) returns (sorted: seq<bytes>)
    ensures sorted == Listing(labels.Keys)
  {
    var keys := CollectKeys(labels.Keys);
    sorted := SortStrings(keys);
    ListingUnique(sorted, Listing(labels.Keys), labels.Keys);
  }

  /** Writes the labels out in sorted key order. */
  method FingerprintOf(labels: Labels) returns (fp: bytes)
    ensures fp == Fingerprint(labels)
  {
    var sorted := SortedKeys(labels);
    fp := [];
    assert sorted[0..] == sorted;
    for i := 0 to |sorted|
      invariant fp + Render(sorted[i..], labels) == Render(sorted, labels)
    {
      var k := sorted[i];
      assert k in sorted;
      assert sorted[i..][1..] == sorted[i + 1..];
      Flat(fp, k, labels[k], Render(sorted[i + 1..], labels));
      fp := fp + k + [EQUALS] + labels[k] + [COMMA];
    }
  }

  lemma Flat(fp: bytes, k: bytes, v: bytes, rest: bytes)
    ensures fp + k + [EQUALS] + v + [COMMA] + rest == fp + (k + ([EQUALS] + (v + ([COMMA] + rest))))
  {
    assert fp + k + [EQUALS] + (v + ([COMMA] + rest)) == fp + k + ([EQUALS] + (v + ([COMMA] + rest)));
    assert fp + k + [EQUALS] + v + ([COMMA] + rest) == fp + k + [EQUALS] + (v + ([COMMA] + rest));
  }

  // ---------- Grouping ----------

  function ValueOf(e: Entry): (bytes, bytes) {
    (Decimal(e.nanos), e.line)
  }

  /** The values of the entries with one fingerprint, in order; and of those with one label set. */
  ghost function ValuesWithPrint(es: seq<Entry>, fp: bytes): seq<(bytes, bytes)> {
    if es == [] then []
    else
      var last := es[|es| - 1];
      ValuesWithPrint(es[..|es| - 1], fp) + if Fingerprint(last.labels) == fp then [ValueOf(last)] else []
  }

  function ValuesWithLabels(es: seq<Entry>, labels: Labels): seq<(bytes, bytes)> {
    if es == [] then []
    else
      var last := es[|es| - 1];
      ValuesWithLabels(es[..|es| - 1], labels) + if last.labels == labels then [ValueOf(last)] else []
  }

  /** What grouping by fingerprint achieves on any entries. */
  ghost predicate GroupedByPrint(es: seq<Entry>, streams: seq<Stream>) {
    && (forall i, j :: 0 <= i < j < |streams| ==> Fingerprint(streams[i].labels) != Fingerprint(streams[j].labels))
    && (forall s :: s in streams ==>
          && s.values == ValuesWithPrint(es, Fingerprint(s.labels))
          && exists e :: e in es && e.labels == s.labels)
    && (forall e :: e in es ==> exists s :: s in streams && Fingerprint(s.labels) == Fingerprint(e.labels))
  }

  /** One stream per label set, holding all its entries in input order. */
  ghost predicate GroupedByLabels(es: seq<Entry>, streams: seq<Stream>) {
    && (forall i, j :: 0 <= i < j < |streams| ==> streams[i].labels != streams[j].labels)
    && (forall s :: s in streams ==>
          s.values == ValuesWithLabels(es, s.labels) && exists e :: e in es && e.labels == s.labels)
    && (forall e :: e in es ==> exists s :: s in streams && s.labels == e.labels)
  }

  /** Entries that share the fingerprint of `labels` share `labels`. */
  ghost predicate OwnPrint(es: seq<Entry>, labels: Labels) {
    forall e :: e in es && Fingerprint(e.labels) == Fingerprint(labels) ==> e.labels == labels
  }

  lemma {:induction false} SameValues(es: seq<Entry>, labels: Labels)
    requires OwnPrint(es, labels)
    ensures ValuesWithPrint(es, Fingerprint(labels)) == ValuesWithLabels(es, labels)
    decreases |es|
  {
    hide Fingerprint;
    if es != [] {
      assert es[|es| - 1] in es;
      assert OwnPrint(es[..|es| - 1], labels);
      SameValues(es[..|es| - 1], labels);
    }
  }

  /** Grouping by fingerprint is grouping by labels exactly when no two label sets that occur share a fingerprint. */
  lemma GroupingExactly(es: seq<Entry>, streams: seq<Stream>)
    requires GroupedByPrint(es, streams)
    ensures GroupedByLabels(es, streams) <==> forall e :: e in es ==> OwnPrint(es, e.labels)
  {
    hide Fingerprint, GroupedByPrint, GroupedByLabels;
    if forall e :: e in es ==> OwnPrint(es, e.labels) {
      OwnPrintsGroup(es, streams);
    }
    if GroupedByLabels(es, streams) {
      forall d, e | d in es && e in es && Fingerprint(d.labels) == Fingerprint(e.labels)
        ensures d.labels == e.labels
      {
        SamePrintSameStream(es, streams, d, e);
      }
    }
  }

  lemma SamePrintSameStream(es: seq<Entry>, streams: seq<Stream>, d: Entry, e: Entry)
    requires GroupedByPrint(es, streams) && GroupedByLabels(es, streams)
    requires d in es && e in es && Fingerprint(d.labels) == Fingerprint(e.labels)
    ensures d.labels == e.labels
  {
    hide Fingerprint, GroupedByLabels;
    var i := StreamOf(es, streams, d);
    var j := StreamOf(es, streams, e);
    assert i == j;
  }

  lemma StreamOf(es: seq<Entry>, streams: seq<Stream>, e: Entry) returns (i: nat)
    requires GroupedByLabels(es, streams) && e in es
    ensures i < |streams| && streams[i].labels == e.labels
  {
    hide ValuesWithLabels;
    var s :| s in streams && s.labels == e.labels;
    i :| 0 <= i < |streams| && streams[i] == s;
  }

  lemma OwnPrintsGroup(es: seq<Entry>, streams: seq<Stream>)
    requires GroupedByPrint(es, streams) && forall e :: e in es ==> OwnPrint(es, e.labels)
    ensures GroupedByLabels(es, streams)
  {
    hide Fingerprint, ValuesWithPrint, ValuesWithLabels;
    forall s | s in streams
      ensures s.values == ValuesWithLabels(es, s.labels)
    {
      var e :| e in es && e.labels == s.labels;
      SameValues(es, s.labels);
    }
    forall e | e in es
      ensures exists s :: s in streams && s.labels == e.labels
    {
      var s :| s in streams && Fingerprint(s.labels) == Fingerprint(e.labels);
      var d :| d in es && d.labels == s.labels;
      assert OwnPrint(es, e.labels);
    }
  }

  /** For clean labels it is: equal labels share a stream, different never do. */
  lemma CleanGrouping(es: seq<Entry>, streams: seq<Stream>)
    requires GroupedByPrint(es, streams) && forall e :: e in es ==> Clean(e.labels)
    ensures GroupedByLabels(es, streams)
  {
    hide Fingerprint, Clean, GroupedByPrint, GroupedByLabels;
    forall d, e | d in es && e in es && Fingerprint(d.labels) == Fingerprint(e.labels)
      ensures d.labels == e.labels
    {
      FingerprintInjective(d.labels, e.labels);
    }
    GroupingExactly(es, streams);
  }

  /** The grouping loop of Push on the map from fingerprints to streams, as far as it has come. */
  ghost predicate Grouped(es: seq<Entry>, grouped: map<bytes, Stream>) {
    && (forall fp :: fp in grouped ==>
          && Fingerprint(grouped[fp].labels) == fp && grouped[fp].values == ValuesWithPrint(es, fp)
          && exists e :: e in es && e.labels == grouped[fp].labels)
    && (forall e :: e in es ==> Fingerprint(e.labels) in grouped)
  }

  lemma {:induction false} NoValues(es: seq<Entry>, fp: bytes)
    requires forall e :: e in es ==> Fingerprint(e.labels) != fp
    ensures ValuesWithPrint(es, fp) == []
    decreases |es|
  {
    hide Fingerprint;
    if es != [] {
      assert es[|es| - 1] in es;
      NoValues(es[..|es| - 1], fp);
    }
  }

  lemma OneMoreValue(es: seq<Entry>, e: Entry, fp: bytes)
    ensures ValuesWithPrint(es + [e], fp) ==
            ValuesWithPrint(es, fp) + if Fingerprint(e.labels) == fp then [ValueOf(e)] else []
  {
    hide Fingerprint, ValueOf;
    assert (es + [e])[..|es|] == es;
  }

  lemma GroupedNext(es: seq<Entry>, e: Entry, grouped: map<bytes, Stream>, grouped': map<bytes, Stream>)
    requires Grouped(es, grouped)
    requires var fp := Fingerprint(e.labels);
             var s := if fp in grouped then grouped[fp] else Stream(e.labels, []);
             grouped' == grouped[fp := s.(values := s.values + [ValueOf(e)])]
    ensures Grouped(es + [e], grouped')
  {
    hide Fingerprint, ValueOf, ValuesWithPrint;
    var own := Fingerprint(e.labels);
    if own !in grouped {
      NoValues(es, own);
    }
    forall fp | fp in grouped'
      ensures Fingerprint(grouped'[fp].labels) == fp && grouped'[fp].values == ValuesWithPrint(es + [e], fp)
      ensures exists d :: d in es + [e] && d.labels == grouped'[fp].labels
    {
      OneMoreValue(es, e, fp);
      if fp in grouped {
        var d :| d in es && d.labels == grouped[fp].labels;
        assert d in es + [e];
      } else {
        assert e in es + [e];
      }
    }
  }

  // ---------- What a stream holds ----------

  /** The places of the entries with one fingerprint, in order. */
  ghost function PlacesWithPrint(es: seq<Entry>, fp: bytes): seq<nat> {
    if es == [] then []
    else
      var n := |es| - 1;
      PlacesWithPrint(es[..n], fp) + if Fingerprint(es[n].labels) == fp then [n] else []
  }

  lemma {:induction false} PlacesExact(es: seq<Entry>, fp: bytes)
    ensures var ps := PlacesWithPrint(es, fp);
            && (forall i, j :: 0 <= i < j < |ps| ==> ps[i] < ps[j])
            && (forall p :: p in ps <==> 0 <= p < |es| && Fingerprint(es[p].labels) == fp)
    decreases |es|
  {
    hide Fingerprint;
    if es != [] {
      var n := |es| - 1;
      PlacesExact(es[..n], fp);
      var before := PlacesWithPrint(es[..n], fp);
      forall i | 0 <= i < |before|
        ensures before[i] < n
      {
        assert before[i] in before;
      }
      assert forall p :: 0 <= p < n ==> es[..n][p] == es[p];
    }
  }

  /** The value for an entry: a numeral that reads as its time, and its line. */
  predicate IsValue(value: (bytes, bytes), e: Entry) {
    ReadDecimal(value.0) == Some(e.nanos) && value.1 == e.line
  }

  /** `places` are, in order, those of the entries with the stream's fingerprint, and the values are theirs in turn. */
  ghost predicate HoldsEntries(s: Stream, es: seq<Entry>, places: seq<nat>) {
    && |places| == |s.values|
    && (forall i, j :: 0 <= i < j < |places| ==> places[i] < places[j])
    && (forall p :: p in places <==> 0 <= p < |es| && Fingerprint(es[p].labels) == Fingerprint(s.labels))
    && (forall i :: 0 <= i < |places| ==> places[i] < |es| && IsValue(s.values[i], es[places[i]]))
  }

  lemma {:induction false} ValuesByPlace(es: seq<Entry>, fp: bytes, i: nat)
    ensures |ValuesWithPrint(es, fp)| == |PlacesWithPrint(es, fp)|
    ensures i < |ValuesWithPrint(es, fp)| ==>
              var p := PlacesWithPrint(es, fp)[i];
              p < |es| && IsValue(ValuesWithPrint(es, fp)[i], es[p])
    decreases |es|
  {
    hide Fingerprint, ReadDecimal, Decimal;
    if es != [] {
      ValuesByPlace(es[..|es| - 1], fp, i);
      DecimalRead(es[|es| - 1].nanos);
    }
  }

  lemma StreamHolds(es: seq<Entry>, s: Stream)
    requires s.values == ValuesWithPrint(es, Fingerprint(s.labels))
    ensures HoldsEntries(s, es, PlacesWithPrint(es, Fingerprint(s.labels)))
  {
    hide Fingerprint, ValuesWithPrint, PlacesWithPrint, IsValue;
    var fp := Fingerprint(s.labels);
    PlacesExact(es, fp);
    ValuesByPlace(es, fp, 0);
    forall i | 0 <= i < |s.values|
      ensures PlacesWithPrint(es, fp)[i] < |es| && IsValue(s.values[i], es[PlacesWithPrint(es, fp)[i]])
    {
      ValuesByPlace(es, fp, i);
    }
  }

  /** Every stream holds its entries' times and lines, in input order. */
  ghost predicate AllHold(es: seq<Entry>, streams: seq<Stream>) {
    forall s :: s in streams ==> exists places :: HoldsEntries(s, es, places)
  }

  lemma StreamsHold(es: seq<Entry>, streams: seq<Stream>)
    requires GroupedByPrint(es, streams)
    ensures AllHold(es, streams)
  {
    hide Fingerprint, HoldsEntries, ValuesWithPrint;
    forall s | s in streams
      ensures exists places :: HoldsEntries(s, es, places)
    {
      StreamHolds(es, s);
    }
  }

  /** The streams of a push; what happens to them on the network is another matter. */
  method PushStreams(entries: seq<Entry>) returns (streams: seq<Stream>)
    ensures GroupedByPrint(entries, streams) && AllHold(entries, streams)
    ensures (forall e :: e in entries ==> Clean(e.labels)) ==> GroupedByLabels(entries, streams)
  {
    hide Fingerprint, Clean, ValuesWithPrint, GroupedByLabels, ValueOf, Grouped, AllHold;
    var grouped: map<bytes, Stream> := map[];
    assert Grouped(entries[..0], grouped) by {
      NothingGrouped(entries[..0]);
    }
    for i := 0 to |entries|
      invariant Grouped(entries[..i], grouped)
    {
      var e := entries[i];
      ghost var before := grouped;
      var fp := FingerprintOf(e.labels);
      if fp !in grouped {
        grouped := grouped[fp := Stream(e.labels, [])];
      }
      grouped := grouped[fp := grouped[fp].(values := grouped[fp].values + [ValueOf(e)])];
      ghost var s := if fp in before then before[fp] else Stream(e.labels, []);
      assert grouped == before[fp := s.(values := s.values + [ValueOf(e)])];
      GroupedNext(entries[..i], e, before, grouped);
      assert entries[..i + 1] == entries[..i] + [e];
    }
    assert entries[..|entries|] == entries;
    streams := CollectStreams(entries, grouped);
    StreamsHold(entries, streams);
    if forall e :: e in entries ==> Clean(e.labels) {
      CleanGrouping(entries, streams);
    }
  }

  lemma NothingGrouped(es: seq<Entry>)
    requires es == []
    ensures Grouped(es, map[])
  {
  }

  /** Copies the streams out of the map, in map order. */
  method CollectStreams(ghost entries: seq<Entry>, grouped: map<bytes, Stream>) returns (streams: seq<Stream>)
    requires Grouped(entries, grouped)
    ensures GroupedByPrint(entries, streams)
  {
    hide Fingerprint, ValuesWithPrint;
    streams := [];
    var rest := grouped.Keys;
    while rest != {}
      invariant rest <= grouped.Keys
      invariant forall i, j :: 0 <= i < j < |streams| ==>
                  Fingerprint(streams[i].labels) != Fingerprint(streams[j].labels)
      invariant forall s :: s in streams ==>
                  Fingerprint(s.labels) in grouped.Keys - rest && s == grouped[Fingerprint(s.labels)]
      invariant forall fp :: fp in grouped.Keys - rest ==> grouped[fp] in streams
      decreases |rest|
    {
      var fp :| fp in rest;
      streams := streams + [grouped[fp]];
      rest := rest - {fp};
    }
  }
}
