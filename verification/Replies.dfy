/**
 * What clients read in the replies other than Metadata (internal/broker/broker.go). The decoders follow the sections on
 * each request in the Apache Kafka protocol guide; a missing byte, a negative array length or tagged fields where none
 * are known reject a reply.
 */
module Replies {
  import opened GoTypes
  import opened Binary
  import opened Wire
  import opened Metadata
  import opened Broker

  // ---------- ApiVersions ----------

  datatype ApiRange = ApiRange(apiKey: int, min: int, max: int)

  datatype ApiVersionsView = ApiVersionsView(corrID: int, error: int, apis: seq<ApiRange>, throttle: Option<int>)

  function ApiAt(b: bytes, p: nat, flexible: bool): (r: Option<(ApiRange, nat)>)
    requires p <= |b|
    ensures r.Some? ==> p <= r.value.1 <= |b|
  {
    var (apiKey, p1) :- StrictInt(b, p, 2);
    var (min, p2) :- StrictInt(b, p1, 2);
    var (max, p3) :- StrictInt(b, p2, 2);
    var q :- TagsAt(b, p3, flexible);
    Some((ApiRange(apiKey, min, max), q))
  }

  function ApisAt(b: bytes, p: nat, n: nat, flexible: bool): (r: Option<(seq<ApiRange>, nat)>)
    requires p <= |b|
    ensures r.Some? ==> p <= r.value.1 <= |b|
    decreases n
  {
    if n == 0 then Some(([], p))
    else
      var (api, p1) :- ApiAt(b, p, flexible);
      var (rest, q) :- ApisAt(b, p1, n - 1, flexible);
      Some(([api] + rest, q))
  }

  /** The reply in versions 0 to 3, and where it ends. */
  function ApiVersionsAt(b: bytes, version: int): (r: Option<(ApiVersionsView, nat)>)
    ensures r.Some? ==> r.value.1 <= |b|
  {
    var flexible := version >= 3;
    var (corrID, p1) :- StrictInt(b, 0, 4);
    var (error, p2) :- StrictInt(b, p1, 2);
    var (n, p3) :- ArrayLength(b, p2, flexible);
    var (apis, p4) :- ApisAt(b, p3, n, flexible);
    var (throttle, p5) :- SinceInt(b, p4, version, 1);
    var q :- TagsAt(b, p5, flexible);
    Some((ApiVersionsView(corrID, error, apis, throttle), q))
  }

  /** Key 0 is Produce, 3 Metadata, 18 ApiVersions, 17 SaslHandshake and 36 SaslAuthenticate. */
  const ANNOUNCED: seq<ApiRange> :=
    [ApiRange(0, 0, 8), ApiRange(3, 0, 9), ApiRange(18, 0, 3), ApiRange(17, 0, 1), ApiRange(36, 0, 2)]

  /** The ranges that the entries of an announcement stand for. */
  function Ranges(apis: seq<(int, int, int)>): seq<ApiRange> {
    if apis == [] then [] else [ApiRange(apis[0].0, apis[0].1, apis[0].2)] + Ranges(apis[1..])
  }

  /** Where the parts of the first entry and the other entries stand. */
  lemma FirstApi(b: bytes, p: nat, apis: seq<(int, int, int)>, flexible: bool)
    requires apis != [] && At(b, p, PutApis(apis, flexible))
    ensures var p4 := p + 6 + |PutTags(flexible)|;
            && At(b, p, PutInt(apis[0].0, 2)) && At(b, p + 2, PutInt(apis[0].1, 2))
            && At(b, p + 4, PutInt(apis[0].2, 2)) && At(b, p + 6, PutTags(flexible))
            && At(b, p4, PutApis(apis[1..], flexible)) && p4 <= |b|
            && p + |PutApis(apis, flexible)| == p4 + |PutApis(apis[1..], flexible)|
  {
    hide At, PutInt, PutTags;
    AtAll(b);
  }

  lemma ApiDecodes(b: bytes, p: nat, api: (int, int, int), flexible: bool)
    requires Fits(api.0, 2) && Fits(api.1, 2) && Fits(api.2, 2)
    requires At(b, p, PutInt(api.0, 2)) && At(b, p + 2, PutInt(api.1, 2)) && At(b, p + 4, PutInt(api.2, 2))
    requires At(b, p + 6, PutTags(flexible))
    ensures p <= |b| && ApiAt(b, p, flexible) == Some((ApiRange(api.0, api.1, api.2), p + 6 + |PutTags(flexible)|))
  {
    hide At, IntAt, PutInt, PutTags, TagsAt, Fits;
    AtAll(b);
    IntReadBack(b, p, api.0, 2);
    IntReadBack(b, p + 2, api.1, 2);
    IntReadBack(b, p + 4, api.2, 2);
    TagsDecode(b, p + 6, flexible);
  }

  lemma {:induction false} ApisDecode(b: bytes, p: nat, apis: seq<(int, int, int)>, flexible: bool)
    requires At(b, p, PutApis(apis, flexible))
    requires forall i :: 0 <= i < |apis| ==> Fits(apis[i].0, 2) && Fits(apis[i].1, 2) && Fits(apis[i].2, 2)
    ensures p <= |b| && ApisAt(b, p, |apis|, flexible) == Some((Ranges(apis), p + |PutApis(apis, flexible)|))
    decreases |apis|
  {
    hide At, PutTags, PutApis, Fits, ApiAt, ApisAt, Ranges;
    AtMeans(b, p, PutApis(apis, flexible));
    if apis == [] {
      NoApis(b, p, flexible);
    } else {
      var p1 := p + 6 + |PutTags(flexible)|;
      FirstApi(b, p, apis, flexible);
      ApiDecodes(b, p, apis[0], flexible);
      ApisDecode(b, p1, apis[1..], flexible);
      OneMoreApi(b, p, apis, flexible, p1, p + |PutApis(apis, flexible)|);
    }
  }

  lemma NoApis(b: bytes, p: nat, flexible: bool)
    requires p <= |b|
    ensures PutApis([], flexible) == [] && ApisAt(b, p, 0, flexible) == Some((Ranges([]), p))
  {
  }

  lemma OneMoreApi(b: bytes, p: nat, apis: seq<(int, int, int)>, flexible: bool, p1: nat, q: nat)
    requires apis != [] && p <= |b| && p1 <= |b|
    requires ApiAt(b, p, flexible) == Some((ApiRange(apis[0].0, apis[0].1, apis[0].2), p1))
    requires ApisAt(b, p1, |apis| - 1, flexible) == Some((Ranges(apis[1..]), q))
    ensures ApisAt(b, p, |apis|, flexible) == Some((Ranges(apis), q))
  {
    hide ApiAt;
  }

  lemma SupportedRanges()
    ensures Ranges(SUPPORTED) == ANNOUNCED && |SUPPORTED| == 5
    ensures forall i :: 0 <= i < |SUPPORTED| ==>
                          Fits(SUPPORTED[i].0, 2) && Fits(SUPPORTED[i].1, 2) && Fits(SUPPORTED[i].2, 2)
  {
    assert SUPPORTED[4..] == [SUPPORTED[4]] && SUPPORTED[3..][1..] == SUPPORTED[4..];
    assert SUPPORTED[2..][1..] == SUPPORTED[3..] && SUPPORTED[1..][1..] == SUPPORTED[2..];
    assert Ranges(SUPPORTED[4..]) == [ANNOUNCED[4]];
    assert Ranges(SUPPORTED[3..]) == ANNOUNCED[3..];
    assert Ranges(SUPPORTED[2..]) == ANNOUNCED[2..];
  }

  /** Where the parts of a reply stand. */
  lemma ApiVersionsParts(b: bytes, corrID: int32, version: int)
    requires b == PutApiVersions(corrID, version)
    ensures var flexible := version >= 3;
            var p3 := 6 + |PutCount(5, flexible)|;
            var p4 := p3 + |PutApis(SUPPORTED, flexible)|;
            && At(b, 0, PutInt(corrID, 4)) && At(b, 4, PutInt(0, 2)) && At(b, 6, PutCount(5, flexible))
            && At(b, p3, PutApis(SUPPORTED, flexible)) && At(b, p4, PutInt(0, 4)) && At(b, p4 + 4, PutTags(flexible))
            && |b| == p4 + 4 + |PutTags(flexible)|
  {
    hide At, PutInt, PutCount, PutApis, PutTags;
    Everywhere(b);
    AtAll(b);
  }

  /** Correlation id, error and the length of the array. */
  lemma ApiVersionsHead(b: bytes, corrID: int32, version: int)
    requires b == PutApiVersions(corrID, version)
    ensures var p3 := 6 + |PutCount(5, version >= 3)|;
            && 6 <= p3 <= |b| && ArrayLength(b, 6, version >= 3) == Some((5, p3))
            && StrictInt(b, 0, 4) == Some((corrID, 4)) && StrictInt(b, 4, 2) == Some((0, 6))
  {
    hide At, IntAt, PutApiVersions, PutInt, PutCount, PutApis, PutTags, ArrayLength;
    ApiVersionsParts(b, corrID, version);
    IntReadBack(b, 0, corrID, 4);
    IntReadBack(b, 4, 0, 2);
    ArrayLengthDecodes(b, 6, 5, version >= 3);
    AtMeans(b, 6, PutCount(5, version >= 3));
  }

  /** The array. */
  lemma ApiVersionsApis(b: bytes, corrID: int32, version: int, p3: nat)
    requires b == PutApiVersions(corrID, version) && p3 == 6 + |PutCount(5, version >= 3)|
    ensures p3 <= |b|
    ensures ApisAt(b, p3, |SUPPORTED|, version >= 3) ==
            Some((Ranges(SUPPORTED), p3 + |PutApis(SUPPORTED, version >= 3)|))
  {
    hide *;
    SupportedRanges();
    ApiVersionsParts(b, corrID, version);
    ApisDecode(b, p3, SUPPORTED, version >= 3);
  }

  /** The throttle time and the end. */
  lemma ApiVersionsEnd(b: bytes, corrID: int32, version: int, p4: nat)
    requires b == PutApiVersions(corrID, version)
    requires p4 == 6 + |PutCount(5, version >= 3)| + |PutApis(SUPPORTED, version >= 3)|
    ensures p4 + 4 <= |b| && b[p4..p4 + 4] == PutInt(0, 4)
    ensures StrictInt(b, p4, 4) == Some((0, p4 + 4)) && TagsAt(b, p4 + 4, version >= 3) == Some(|b|)
  {
    hide *;
    ApiVersionsParts(b, corrID, version);
    ThrottleDecodes(b, p4);
    TagsDecode(b, p4 + 4, version >= 3);
  }

  lemma ThrottleDecodes(b: bytes, p: nat)
    requires At(b, p, PutInt(0, 4))
    ensures p + 4 <= |b| && b[p..p + 4] == PutInt(0, 4) && StrictInt(b, p, 4) == Some((0, p + 4))
  {
    hide PutInt;
    IntReadBack(b, p, 0, 4);
  }

  /** In versions 1 to 3 a client reads exactly the announced ranges, no error and no throttling, with nothing left. */
  lemma ApiVersionsRead(corrID: int32, version: int)
    requires 1 <= version <= 3
    ensures var b := PutApiVersions(corrID, version);
            ApiVersionsAt(b, version) == Some((ApiVersionsView(corrID, 0, ANNOUNCED, Some(0)), |b|))
  {
    hide IntAt, PutApiVersions, ArrayLength, ApisAt, TagsAt, PutCount, PutApis, StrictInt;
    ApiVersionsHead(PutApiVersions(corrID, version), corrID, version);
    var p3 := 6 + |PutCount(5, version >= 3)|;
    ApiVersionsApis(PutApiVersions(corrID, version), corrID, version, p3);
    ApiVersionsEnd(PutApiVersions(corrID, version), corrID, version, p3 + |PutApis(SUPPORTED, version >= 3)|);
    SupportedRanges();
  }

  /** In version 0, which has no throttle time, a client reads the same ranges, and four zero bytes are left over. */
  lemma ApiVersionsReadInVersion0(corrID: int32)
    ensures var b := PutApiVersions(corrID, 0);
            && |b| >= 4 && b[|b| - 4..] == [0, 0, 0, 0]
            && ApiVersionsAt(b, 0) == Some((ApiVersionsView(corrID, 0, ANNOUNCED, None), |b| - 4))
  {
    var b := PutApiVersions(corrID, 0);
    FourZeros();
    hide IntAt, PutApiVersions, ArrayLength, ApisAt, PutCount, PutApis, StrictInt, PutInt;
    ApiVersionsHead(b, corrID, 0);
    var p3 := 6 + |PutCount(5, false)|;
    ApiVersionsApis(b, corrID, 0, p3);
    ApiVersionsEnd(b, corrID, 0, p3 + |PutApis(SUPPORTED, false)|);
    SupportedRanges();
    assert TagsAt(b, |b| - 4, false) == Some(|b| - 4);
  }

  lemma FourZeros()
    ensures PutInt(0, 4) == [0, 0, 0, 0]
  {
    hide PutBig;
    PutBigStep(0, 4);
    PutBigStep(0, 3);
    PutBigStep(0, 2);
    PutBigStep(0, 1);
    assert |PutBig(0, 0)| == 0;
  }

  // ---------- The replies without content ----------

  /** Correlation id, an empty array of topics and no throttling: no partition is acknowledged by itself. */
  ghost predicate AcknowledgesNothing(b: bytes, corrID: int) {
    && |b| == 12 && StrictInt(b, 0, 4) == Some((corrID, 4))
    && StrictCount(b, 4) == Some((0, 8)) && StrictInt(b, 8, 4) == Some((0, 12))
  }

  /** Error 33, "unsupported SASL mechanism", and an empty array of mechanisms. */
  ghost predicate RefusesMechanism(b: bytes, corrID: int) {
    && |b| == 10 && StrictInt(b, 0, 4) == Some((corrID, 4))
    && StrictInt(b, 4, 2) == Some((33, 6)) && StrictCount(b, 6) == Some((0, 10))
  }

  /** Error 58, "SASL authentication failed", no message, and null for the bytes of the mechanism. */
  ghost predicate RefusesCredentials(b: bytes, corrID: int) {
    && |b| == 12 && StrictInt(b, 0, 4) == Some((corrID, 4)) && StrictInt(b, 4, 2) == Some((58, 6))
    && NullableName(b, 6) == Some((None, 8)) && StrictInt(b, 8, 4) == Some((-1, 12))
  }

  /** Error 35, "unsupported version", and nothing else. */
  ghost predicate RefusesKey(b: bytes, corrID: int) {
    |b| == 6 && StrictInt(b, 0, 4) == Some((corrID, 4)) && StrictInt(b, 4, 2) == Some((35, 6))
  }

  lemma ProduceReplyRead(corrID: int32)
    ensures AcknowledgesNothing(PutProduceReply(corrID, false), corrID)
  {
    var b := PutProduceReply(corrID, false);
    hide At, IntAt, PutInt;
    Everywhere(b);
    AtAll(b);
    IntReadBack(b, 0, corrID, 4);
    IntReadBack(b, 4, 0, 4);
    IntReadBack(b, 8, 0, 4);
  }

  lemma SaslHandshakeRead(corrID: int32)
    ensures RefusesMechanism(PutSaslHandshake(corrID), corrID)
  {
    var b := PutSaslHandshake(corrID);
    hide At, IntAt, PutInt;
    Everywhere(b);
    AtAll(b);
    IntReadBack(b, 0, corrID, 4);
    IntReadBack(b, 4, 33, 2);
    IntReadBack(b, 6, 0, 4);
  }

  lemma SaslAuthenticateRead(corrID: int32)
    ensures RefusesCredentials(PutSaslAuthenticate(corrID), corrID)
  {
    var b := PutSaslAuthenticate(corrID);
    hide At, IntAt, PutInt;
    Everywhere(b);
    AtAll(b);
    IntReadBack(b, 0, corrID, 4);
    IntReadBack(b, 4, 58, 2);
    IntReadBack(b, 6, -1, 2);
    IntReadBack(b, 8, -1, 4);
  }

  lemma ErrorRead(corrID: int32)
    ensures RefusesKey(PutError(corrID, 35), corrID)
  {
    var b := PutError(corrID, 35);
    hide At, IntAt, PutInt;
    Everywhere(b);
    AtAll(b);
    IntReadBack(b, 0, corrID, 4);
    IntReadBack(b, 4, 35, 2);
  }
}
