/**
 * Legacy message sets that do not end the buffer (internal/broker/broker.go). The decoder ignores the size that
 * precedes each set, so it reads on into whatever follows.
 */
module LegacyPartitions {
  import opened GoTypes
  import opened Binary
  import opened Wire
  import opened RecordBatch
  import opened RecordBatchLaws
  import opened Produce

  // ---------- One set and what follows it ----------

  /** A set is read whole, and then whatever stands behind it. */
  lemma {:induction false} LegacyReadsOn(b: bytes, p: nat, ms: seq<OldMessage>, topic: bytes, partition: int)
    requires |b| < 0x8000_0000 && At(b, p, PutOlds(ms))
    ensures p + |PutOlds(ms)| <= |b|
    ensures var (rest, q) := LegacyAt(b, p + |PutOlds(ms)|, topic, partition);
            LegacyAt(b, p, topic, partition) == (OldMessages(ms, topic, partition) + rest, q)
    decreases |ms|
  {
    hide At, LegacyAt, PutOld, OldMessages;
    AtAll(b);
    if ms == [] {
      NoOldMessages(LegacyAt(b, p, topic, partition).0, topic, partition);
    } else {
      OldReadBack(b, p, ms[0], topic, partition);
      LegacyReadsOn(b, p + |PutOld(ms[0])|, ms[1..], topic, partition);
      FirstOldMessage(ms, topic, partition, LegacyAt(b, p + |PutOlds(ms)|, topic, partition).0);
    }
  }

  lemma NoOldMessages(rest: seq<Message>, topic: bytes, partition: int)
    ensures OldMessages([], topic, partition) + rest == rest && OldMessages([], topic, partition) == []
  {
  }

  lemma FirstOldMessage(ms: seq<OldMessage>, topic: bytes, partition: int, rest: seq<Message>)
    requires ms != []
    ensures OldMessages(ms, topic, partition) + rest ==
            [Message(topic, partition, ms[0].key, ms[0].value, Now)] + (OldMessages(ms[1..], topic, partition) + rest)
  {
  }

  /** What would be the size of a message at `q` is one that the loop stops at. */
  predicate StopsAt(b: bytes, q: nat)
    requires q + 12 <= |b|
  {
    var size := Int(b, q + 8, 4);
    size <= 0 || size > |b| - q - 12
  }

  lemma LegacyEnds(b: bytes, q: nat, topic: bytes, partition: int)
    requires q <= |b|
    ensures var (rest, end) := LegacyAt(b, q, topic, partition);
            && (rest == [] <==> |b| - q < 12 || StopsAt(b, q))
            && (|b| - q < 12 ==> end == q)
            && (|b| - q >= 12 ==> end >= q + 12)
            && (|b| - q >= 12 && rest == [] ==> end == q + 12)
  {
    hide BytesAt, GetInt;
  }

  /**
   * The decoder gets the messages of a set right exactly when fewer than twelve bytes follow or they hold no possible
   * size, and it stops right behind the set exactly when fewer than twelve bytes follow; else it stops at least twelve
   * bytes late.
   */
  lemma LegacySetFollowed(b: bytes, p: nat, ms: seq<OldMessage>, topic: bytes, partition: int)
    requires |b| < 0x8000_0000 && At(b, p, PutOlds(ms))
    ensures var q := p + |PutOlds(ms)|;
            && q <= |b|
            && var (got, end) := LegacyAt(b, p, topic, partition);
            && (got == OldMessages(ms, topic, partition) <==> |b| - q < 12 || StopsAt(b, q))
            && (end == q <==> |b| - q < 12)
            && (|b| - q >= 12 ==> end >= q + 12)
  {
    hide At, OldMessages, PutOlds, LegacyAt, StopsAt;
    LegacyReadsOn(b, p, ms, topic, partition);
    LegacyEnds(b, p + |PutOlds(ms)|, topic, partition);
    var own, rest := OldMessages(ms, topic, partition), LegacyAt(b, p + |PutOlds(ms)|, topic, partition).0;
    assert own + rest == own <==> rest == [] by {
      assert |own + rest| == |own| + |rest|;
      assert rest == [] ==> own + rest == own;
    }
  }

  // ---------- How much of the buffer messages take ----------

  /** The bytes a message takes when none of its fields is cut off. */
  function Weight(m: Message): nat {
    26 + (if m.key.Some? then |m.key.value| else 0) + (if m.value.Some? then |m.value.value| else 0)
  }

  function Weights(ms: seq<Message>): nat {
    if ms == [] then 0 else Weight(ms[0]) + Weights(ms[1..])
  }

  /** The bytes a last message may lack at the end of the buffer; missing lengths read as 0. */
  function Slack(m: Message): nat {
    if m.key == Some([]) && m.value == Some([]) then 13 else 4
  }

  lemma OneWeight(b: bytes, p: nat, m: Message)
    requires p + 12 <= |b| && !StopsAt(b, p)
    requires m.key == BytesAt(b, Skip(b, Skip(b, Skip(b, p + 12, 4), 1), 1)).0
    requires m.value == BytesAt(b, BytesAt(b, Skip(b, Skip(b, Skip(b, p + 12, 4), 1), 1)).1).0
    ensures var end := BytesAt(b, BytesAt(b, Skip(b, Skip(b, Skip(b, p + 12, 4), 1), 1)).1).1;
            && Weight(m) <= end - p + Slack(m)
            && (|b| - end >= 4 ==> Weight(m) <= end - p)
  {
    hide GetInt;
  }

  lemma {:induction false} LegacyWeight(b: bytes, p: nat, topic: bytes, partition: int)
    requires p <= |b|
    ensures var (ms, end) := LegacyAt(b, p, topic, partition);
            ms != [] ==> Weights(ms) <= end - p + Slack(ms[|ms| - 1])
    decreases |b| - p
  {
    hide BytesAt, Slack, Weight, GetInt;
    if |b| - p >= 12 && !StopsAt(b, p) {
      var (key, p2) := BytesAt(b, Skip(b, Skip(b, Skip(b, p + 12, 4), 1), 1));
      var (value, p3) := BytesAt(b, p2);
      OneWeight(b, p, Message(topic, partition, key, value, Now));
      LegacyWeight(b, p3, topic, partition);
    }
  }

  lemma {:induction false} OldWeights(ms: seq<OldMessage>, topic: bytes, partition: int)
    ensures Weights(OldMessages(ms, topic, partition)) == |PutOlds(ms)|
  {
    hide PutInt;
    if ms != [] {
      OldWeights(ms[1..], topic, partition);
      assert OldMessages(ms, topic, partition)[1..] == OldMessages(ms[1..], topic, partition);
    }
  }

  // ---------- Two partitions in one request ----------

  /** A partition with a legacy set; its size field is not used by the decoder. */
  function PutOldPartition(partition: int32, size: int, ms: seq<OldMessage>): bytes {
    PutInt(partition, 4) + (PutInt(size, 4) + PutOlds(ms))
  }

  /** The partition number found twelve bytes late: the low half of the first message's offset. */
  function LateNumber(ms: seq<OldMessage>): int
    requires ms != []
  {
    GetInt(PutInt(ms[0].offset, 8)[4..8])
  }

  lemma {:induction false} OnePartitionNumber(b: bytes, p: nat, topic: bytes, partition: int)
    requires p <= |b|
    ensures forall m :: m in LegacyAt(b, p, topic, partition).0 ==> m.partition == partition
    decreases |b| - p
  {
    hide BytesAt, GetInt;
    if |b| - p >= 12 && !StopsAt(b, p) {
      var p2 := BytesAt(b, Skip(b, Skip(b, Skip(b, p + 12, 4), 1), 1)).1;
      OnePartitionNumber(b, BytesAt(b, p2).1, topic, partition);
    }
  }

  lemma {:induction false} RecordsOfOnePartition(b: bytes, p: nat, n: nat, topic: bytes, partition: int, stamp: Stamp)
    requires p <= |b| && RecordsAt(b, p, n, topic, partition, stamp).Ret?
    ensures forall m :: m in RecordsAt(b, p, n, topic, partition, stamp).value.0 ==>
                          m.partition == partition && m.timestamp == stamp
    decreases n
  {
    hide RecordAt;
    if n > 0 && p < |b| {
      RecordsOfOnePartition(b, RecordAt(b, p).value.1, n - 1, topic, partition, stamp);
    }
  }

  /**
   * Messages of a set that is read more than four bytes late cannot all come out right: the rest of the buffer does not
   * hold them, unless the partition number is wrong anyway or the last message has neither key nor value bytes.
   */
  lemma LateSetIsWrong(b: bytes, p: nat, ms: seq<OldMessage>, topic: bytes, number: int, partition: int)
    requires p <= |b| && ms != [] && |b| - p + 4 < |PutOlds(ms)|
    requires number == partition ==>
               var m := ms[|ms| - 1]; !(m.key == Some([]) && m.value == Some([]))
    ensures var got := BatchAt(b, p, topic, number);
            !(got.Ret? && got.value.0 == OldMessages(ms, topic, partition))
  {
    hide LegacyAt, RecordsAt, IntAt, PutOlds, Weights;
    var want := OldMessages(ms, topic, partition);
    assert want[0].partition == partition && want[0].timestamp == Now && want[0] in want;
    assert want[|want| - 1].key == ms[|ms| - 1].key && want[|want| - 1].value == ms[|ms| - 1].value;
    OnePartitionNumber(b, p, topic, number);
    LegacyWeight(b, p, topic, number);
    OldWeights(ms, topic, partition);
    BatchSource(b, p, topic, number);
  }

  /** Where the messages of a batch come from: nowhere, a magic-2 batch, or the legacy decoder. */
  lemma BatchSource(b: bytes, p: nat, topic: bytes, partition: int)
    requires p <= |b|
    ensures var got := BatchAt(b, p, topic, partition);
            got.Ret? ==>
              || got.value.0 == []
              || (forall m :: m in got.value.0 ==> m.timestamp != Now)
              || got.value == LegacyAt(b, p, topic, partition)
  {
    hide LegacyAt, RecordsAt, IntAt;
    forall q: nat, n: nat, base: int | q <= |b| && RecordsAt(b, q, n, topic, partition, Millis(base)).Ret?
      ensures forall m :: m in RecordsAt(b, q, n, topic, partition, Millis(base)).value.0 ==> m.timestamp != Now
    {
      RecordsOfOnePartition(b, q, n, topic, partition, Millis(base));
    }
  }

  lemma MagicAt(b: bytes, p: nat, m: OldMessage, topic: bytes, partition: int)
    requires At(b, p, PutOld(m))
    ensures BatchAt(b, p, topic, partition) == Ret(LegacyAt(b, p, topic, partition))
  {
    hide LegacyAt, BatchV2At, PutOld, GetInt;
    MagicOfOld(m);
    var s := PutOld(m);
    assert b[p + 16] == b[p..p + |s|][16] == s[16];
    assert b[p + 16..p + 17] == [s[16]] == s[16..17];
  }

  /** A partition header before a message passes for an offset; the byte taken for the magic is the top of its size. */
  lemma MagicOfHeader(b: bytes, p: nat, partition: int, size: int, m: OldMessage, topic: bytes, number: int)
    requires |b| <= MAX_FRAME
    requires At(b, p, PutInt(partition, 4)) && At(b, p + 4, PutInt(size, 4)) && At(b, p + 8, PutOld(m))
    ensures BatchAt(b, p, topic, number) == Ret(LegacyAt(b, p, topic, number))
  {
    hide LegacyAt, BatchV2At, GetInt, OldBody;
    hide PutInt;
    AtAll(b);
    var n := |OldBody(m)|;
    FourBytesTop(n);
    assert b[p + 16] == b[p + 16..p + 20][0] == PutInt(n, 4)[0];
    assert b[p + 16..p + 17] == [b[p + 16]];
    SmallMagic(b[p + 16]);
  }

  lemma FourBytesTop(n: nat)
    requires n < MAX_FRAME
    ensures PutInt(n, 4)[0] < 2
  {
    var v := n / 256 / 256 / 256;
    assert v < 2;
    assert PutBig(v, 1) == [v];
    assert PutBig(n / 256 / 256, 2)[0] == PutBig(v, 1)[0];
    assert PutBig(n / 256, 3)[0] == PutBig(n / 256 / 256, 2)[0];
    assert PutBig(n, 4)[0] == PutBig(n / 256, 3)[0];
  }

  lemma SmallMagic(c: byte)
    requires c < 2
    ensures GetInt([c]) != 2
  {
    assert [c][..0] == [];
    assert Big([c]) == c;
  }

  /** The first set is taken for what it is. */
  lemma FirstSet(b: bytes, p: nat, ms1: seq<OldMessage>, partition2: int32, size2: int, ms2: seq<OldMessage>,
                 topic: bytes, partition1: int)
    requires |b| <= MAX_FRAME && At(b, p, PutOlds(ms1) + PutOldPartition(partition2, size2, ms2))
    requires p + |PutOlds(ms1) + PutOldPartition(partition2, size2, ms2)| == |b|
    ensures BatchAt(b, p, topic, partition1) == Ret(LegacyAt(b, p, topic, partition1))
  {
    hide At, LegacyAt, PutOld, PutInt, BatchV2At;
    AtAll(b);
    if ms1 != [] {
      MagicAt(b, p, ms1[0], topic, partition1);
    } else if ms2 != [] {
      assert p + 8 + |PutOlds(ms2)| == |b|;
      MagicOfHeader(b, p, partition2, size2, ms2[0], topic, partition1);
    } else {
      assert |b| - p == 8;
      TooShort(b, p, topic, partition1);
    }
  }

  lemma TooShort(b: bytes, p: nat, topic: bytes, partition: int)
    requires p <= |b| < p + 12
    ensures BatchAt(b, p, topic, partition) == Ret(([], p)) && LegacyAt(b, p, topic, partition) == ([], p)
  {
  }

  lemma LateNumberAt(b: bytes, p: nat, ms: seq<OldMessage>)
    requires ms != [] && At(b, p, PutOlds(ms))
    ensures p + 26 <= |b| && IntAt(b, p + 4, 4) == (LateNumber(ms), p + 8)
  {
    hide PutInt, GetInt, OldBody;
    AtAll(b);
    var offset := PutInt(ms[0].offset, 8);
    assert At(b, p, offset);
    assert b[p + 4..p + 8] == b[p..p + 8][4..8];
  }

  /** Offsets below 2^32 start with four zero bytes, which no message size does. */
  lemma SmallOffsetStops(b: bytes, q: nat, ms: seq<OldMessage>)
    requires ms != [] && At(b, q + 8, PutOlds(ms)) && 0 <= ms[0].offset < INT32_SPAN
    ensures q + 12 <= |b| && StopsAt(b, q)
  {
    hide PutInt, GetInt, At, OldBody;
    AtAll(b);
    HighHalf(ms[0].offset);
    IntReadBack(b, q + 8, 0, 4);
  }

  lemma HighHalf(v: nat)
    requires v < INT32_SPAN
    ensures PutInt(v, 8) == PutInt(0, 4) + PutInt(v, 8)[4..]
  {
    hide PutBig;
    PutBigStep(v, 8);
    PutBigStep(v / 0x100, 7);
    PutBigStep(v / 0x100 / 0x100, 6);
    PutBigStep(v / 0x100 / 0x100 / 0x100, 5);
  }

  /** What the partition loop makes of two partitions, in terms of what it reads in each round. */
  lemma TwoRounds(b: bytes, p: nat, topic: bytes, one: (seq<Message>, nat))
    requires p + 8 <= |b| && one.1 <= |b| && BatchAt(b, p + 8, topic, Int(b, p, 4)) == Ret(one)
    ensures PartitionsAt(b, p, 2, topic, false) ==
            var (number, q) := IntAt(b, one.1, 4);
            match BatchAt(b, Skip(b, q, 4), topic, number)
            case Fault => Fault
            case Ret((ms, end)) => Ret((one.0 + ms, end))
  {
    hide BatchAt, GetInt;
    var (number, q) := IntAt(b, one.1, 4);
    match BatchAt(b, Skip(b, q, 4), topic, number)
    case Fault =>
    case Ret((ms, end)) =>
      assert PartitionsAt(b, end, 0, topic, false) == Ret(([], end));
      assert ms + [] == ms;
  }

  /** In a buffer that ends with two sets in their partitions. */
  ghost predicate TwoSets(b: bytes, p: nat, partition1: int32, size1: int, ms1: seq<OldMessage>,
                          partition2: int32, size2: int, ms2: seq<OldMessage>) {
    var two := PutOldPartition(partition1, size1, ms1) + PutOldPartition(partition2, size2, ms2);
    |b| <= MAX_FRAME && At(b, p, two) && p + |two| == |b|
  }

  lemma TwoSetsParts(b: bytes, p: nat, partition1: int32, size1: int, ms1: seq<OldMessage>,
                     partition2: int32, size2: int, ms2: seq<OldMessage>, topic: bytes)
    requires TwoSets(b, p, partition1, size1, ms1, partition2, size2, ms2)
    ensures var q := p + 8 + |PutOlds(ms1)|;
            && q + 8 + |PutOlds(ms2)| == |b| && |b| < 0x8000_0000
            && At(b, p + 8, PutOlds(ms1)) && At(b, q + 8, PutOlds(ms2))
            && IntAt(b, p, 4) == (partition1, p + 4) && IntAt(b, q, 4) == (partition2, q + 4)
            && BatchAt(b, p + 8, topic, partition1) == Ret(LegacyAt(b, p + 8, topic, partition1))
  {
    hide At, PutInt, IntAt, BatchAt, LegacyAt, PutOlds;
    AtAll(b);
    var first, second := PutOldPartition(partition1, size1, ms1), PutOldPartition(partition2, size2, ms2);
    assert first + second == PutInt(partition1, 4) + (PutInt(size1, 4) + (PutOlds(ms1) + second));
    IntReadBack(b, p, partition1, 4);
    IntReadBack(b, p + 8 + |PutOlds(ms1)|, partition2, 4);
    FirstSet(b, p + 8, ms1, partition2, size2, ms2, topic, partition1);
  }

  /**
   * When the second set's first offset does not pass for a size, as none below 2^32 does, the first set comes out
   * right. The second is entered twelve bytes late, with half of that offset for its partition.
   */
  lemma SecondSetEnteredLate(b: bytes, p: nat, partition1: int32, size1: int, ms1: seq<OldMessage>,
                             partition2: int32, size2: int, ms2: seq<OldMessage>, topic: bytes)
    requires TwoSets(b, p, partition1, size1, ms1, partition2, size2, ms2) && ms2 != []
    ensures var q := p + 8 + |PutOlds(ms1)|;
            && q + 34 <= |b|
            && (StopsAt(b, q) ==>
                  PartitionsAt(b, p, 2, topic, false) ==
                  match BatchAt(b, q + 20, topic, LateNumber(ms2))
                  case Fault => Fault
                  case Ret((ms, end)) => Ret((OldMessages(ms1, topic, partition1) + ms, end)))
  {
    hide At, PutInt, IntAt, BatchAt, LegacyAt, PutOlds, OldMessages, StopsAt, TwoSets, LateNumber, PartitionsAt;
    TwoSetsParts(b, p, partition1, size1, ms1, partition2, size2, ms2, topic);
    var q := p + 8 + |PutOlds(ms1)|;
    LateNumberAt(b, q + 8, ms2);
    LegacySetFollowed(b, p + 8, ms1, topic, partition1);
    LegacyReadsOn(b, p + 8, ms1, topic, partition1);
    LegacyEnds(b, q, topic, partition1);
    if StopsAt(b, q) {
      TwoRounds(b, p, topic, (OldMessages(ms1, topic, partition1), q + 12));
    }
  }

  /**
   * Of two different partitions at the end of a request, both come out right exactly when the second is empty, unless
   * the first offset of the second happens to hold its number and its last message has neither key nor value bytes.
   */
  lemma TwoLegacyPartitions(b: bytes, p: nat, partition1: int32, size1: int, ms1: seq<OldMessage>,
                            partition2: int32, size2: int, ms2: seq<OldMessage>, topic: bytes)
    requires TwoSets(b, p, partition1, size1, ms1, partition2, size2, ms2) && partition1 != partition2
    requires ms2 != [] && LateNumber(ms2) == partition2 ==>
               var m := ms2[|ms2| - 1]; !(m.key == Some([]) && m.value == Some([]))
    ensures var got := PartitionsAt(b, p, 2, topic, false);
            (got.Ret? && got.value.0 == OldMessages(ms1, topic, partition1) + OldMessages(ms2, topic, partition2))
            <==> ms2 == []
  {
    assert PutOlds([]) == [];
    hide At, PutInt, IntAt, BatchAt, LegacyAt, PutOlds, OldMessages, StopsAt, TwoSets, LateNumber, PartitionsAt;
    TwoSetsParts(b, p, partition1, size1, ms1, partition2, size2, ms2, topic);
    var q := p + 8 + |PutOlds(ms1)|;
    var own, other := OldMessages(ms1, topic, partition1), OldMessages(ms2, topic, partition2);
    if ms2 == [] {
      NoSecondSet(b, p, ms1, topic, partition1);
    } else {
      SecondSetEnteredLate(b, p, partition1, size1, ms1, partition2, size2, ms2, topic);
      if StopsAt(b, q) {
        LateSetIsWrong(b, q + 20, ms2, topic, LateNumber(ms2), partition2);
        var late := BatchAt(b, q + 20, topic, LateNumber(ms2));
        if late.Ret? {
          SamePrefix(own, late.value.0, other);
        }
      } else {
        ReadsOnIsWrong(b, p, partition1, ms1, partition2, ms2, topic);
      }
    }
  }

  lemma SamePrefix(own: seq<Message>, ms: seq<Message>, other: seq<Message>)
    ensures own + ms == own + other <==> ms == other
  {
    if own + ms == own + other {
      assert (own + ms)[|own|..] == ms && (own + other)[|own|..] == other;
    }
  }

  lemma NoSecondSet(b: bytes, p: nat, ms1: seq<OldMessage>, topic: bytes, partition1: int32)
    requires |b| == p + 16 + |PutOlds(ms1)| < 0x8000_0000 && At(b, p + 8, PutOlds(ms1))
    requires IntAt(b, p, 4) == (partition1, p + 4)
    requires BatchAt(b, p + 8, topic, partition1) == Ret(LegacyAt(b, p + 8, topic, partition1))
    ensures PartitionsAt(b, p, 2, topic, false) ==
            Ret((OldMessages(ms1, topic, partition1) + OldMessages([], topic, Int(b, |b| - 8, 4)), |b|))
  {
    hide At, PutInt, GetInt, BatchAt, LegacyAt, PutOlds, OldMessages, PartitionsAt;
    var q := p + 8 + |PutOlds(ms1)|;
    LegacySetFollowed(b, p + 8, ms1, topic, partition1);
    TwoRounds(b, p, topic, (OldMessages(ms1, topic, partition1), q));
    TooShort(b, |b|, topic, Int(b, q, 4));
    NoOldMessages([], topic, Int(b, q, 4));
  }

  lemma ReadsOnIsWrong(b: bytes, p: nat, partition1: int32, ms1: seq<OldMessage>, partition2: int32,
                       ms2: seq<OldMessage>, topic: bytes)
    requires p + 8 + |PutOlds(ms1)| + 12 <= |b| < 0x8000_0000 && At(b, p + 8, PutOlds(ms1))
    requires !StopsAt(b, p + 8 + |PutOlds(ms1)|) && partition1 != partition2 && ms2 != []
    requires IntAt(b, p, 4) == (partition1, p + 4)
    requires BatchAt(b, p + 8, topic, partition1) == Ret(LegacyAt(b, p + 8, topic, partition1))
    ensures var got := PartitionsAt(b, p, 2, topic, false);
            got.Ret? ==>
              got.value.0 != OldMessages(ms1, topic, partition1) + OldMessages(ms2, topic, partition2)
  {
    hide At, PutInt, GetInt, BatchAt, LegacyAt, PutOlds, PartitionsAt, StopsAt;
    var q := p + 8 + |PutOlds(ms1)|;
    var own, other := OldMessages(ms1, topic, partition1), OldMessages(ms2, topic, partition2);
    var (rest, end) := LegacyAt(b, q, topic, partition1);
    LegacyReadsOn(b, p + 8, ms1, topic, partition1);
    LegacyEnds(b, q, topic, partition1);
    OnePartitionNumber(b, q, topic, partition1);
    TwoRounds(b, p, topic, (own + rest, end));
    var got := PartitionsAt(b, p, 2, topic, false);
    if got.Ret? {
      assert rest[0] in rest;
      assert got.value.0[|own|] == rest[0] && (own + other)[|own|] == other[0];
    }
  }
}
