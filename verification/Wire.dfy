/** The broker's cursor reader and appending writer (internal/broker/broker.go). */
module Wire {
  import opened GoTypes
  import opened Binary

  /** The largest request body the framing loop passes on: 32 MiB. */
  const MAX_FRAME := 33554432

  // ---------- What each read yields, and where it leaves the cursor ----------

  /** A big-endian integer; with too few bytes left the value is 0 and the cursor stays. */
  function IntAt(b: bytes, p: nat, w: Width): (r: (int, nat))
    requires p <= |b|
    ensures p <= r.1 <= |b| && Fits(r.0, w)
    ensures p + w <= |b| ==> r.1 == p + w
  {
    if p + w > |b| then (0, p) else (GetInt(b[p..p + w]), p + w)
  }

  /** Just the value, or just the new cursor, of IntAt. */
  function Int(b: bytes, p: nat, w: Width): int
    requires p <= |b|
  {
    IntAt(b, p, w).0
  }

  function Skip(b: bytes, p: nat, w: Width): (q: nat)
    requires p <= |b|
    ensures p <= q <= |b|
  {
    IntAt(b, p, w).1
  }

  /** An unsigned varint; a malformed one reads as 0 and leaves the cursor. */
  function UvarAt(b: bytes, p: nat): (r: (uint64, nat))
    requires p <= |b|
    ensures p <= r.1 <= |b|
  {
    var (v, n) := UvarintAt(b, p);
    (v, if n > 0 then p + n else p)
  }

  function VarAt(b: bytes, p: nat): (r: (int64, nat))
    requires p <= |b|
    ensures p <= r.1 <= |b|
  {
    var (v, n) := VarintAt(b, p);
    (v, if n > 0 then p + n else p)
  }

  /** A string with a two-byte length; a negative or overlong length reads as the empty string. */
  function StringAt(b: bytes, p: nat): (r: (bytes, nat))
    requires p <= |b|
    ensures p <= r.1 <= |b|
  {
    var (n, q) := IntAt(b, p, 2);
    if n < 0 || q + n > |b| then ([], q) else (b[q..q + n], q + n)
  }

  /** Nullable bytes with a four-byte length; a negative or overlong length reads as nil. */
  function BytesAt(b: bytes, p: nat): (r: (Option<bytes>, nat))
    requires p <= |b|
    ensures p <= r.1 <= |b|
  {
    var (n, q) := IntAt(b, p, 4);
    if n < 0 || q + n > |b| then (None, q) else (Some(b[q..q + n]), q + n)
  }

  /**
   * `n` bytes from `q` under the guard `n < 0 || q + n > len(b)` in 64-bit arithmetic. A sum that wraps is
   * negative, passes the guard, and the slice expression after it faults.
   */
  function SliceAt(b: bytes, q: nat, n: int64): (r: Outcome<(Option<bytes>, nat)>)
    requires q <= |b|
    ensures r.Ret? ==> q <= r.value.1 <= |b|
    ensures |b| <= MAX_INT ==> (r.Fault? <==> q + n > MAX_INT)
  {
    if n < 0 || ToInt64(q + n) > |b| then Ret((None, q))
    else if q + n > |b| then Fault
    else Ret((Some(b[q..q + n]), q + n))
  }

  /** Nullable bytes with a zig-zag varint length. */
  function VarBytesAt(b: bytes, p: nat): (r: Outcome<(Option<bytes>, nat)>)
    requires p <= |b|
    ensures r.Ret? ==> p <= r.value.1 <= |b|
  {
    var (n, q) := VarAt(b, p);
    SliceAt(b, q, n)
  }

  /** A compact string: an unsigned varint holding the length plus one, converted to a 64-bit int. */
  function CompactAt(b: bytes, p: nat): (r: Outcome<(bytes, nat)>)
    requires p <= |b|
    ensures r.Ret? ==> p <= r.value.1 <= |b|
  {
    var (u, q) := UvarAt(b, p);
    var (s, q') :- SliceAt(b, q, ToInt64(ToInt64(u) - 1));
    Ret((if s.None? then [] else s.value, q'))
  }

  // ---------- Written values are read back ----------

  lemma IntReadBack(b: bytes, p: nat, v: int, w: Width)
    requires Fits(v, w) && At(b, p, PutInt(v, w))
    ensures IntAt(b, p, w) == (v, p + w)
  {
    GetOfPutInt(v, w);
  }

  /** IntReadBack for every integer known to stand in `b`. */
  lemma IntsReadBack(b: bytes)
    ensures forall p: nat, v: int, w: Width {:trigger At(b, p, PutInt(v, w))} ::
              At(b, p, PutInt(v, w)) && Fits(v, w) ==> IntAt(b, p, w) == (v, p + w)
  {
    forall p: nat, v: int, w: Width | At(b, p, PutInt(v, w)) && Fits(v, w)
      ensures IntAt(b, p, w) == (v, p + w)
    {
      IntReadBack(b, p, v, w);
    }
  }

  lemma VarReadBack(b: bytes, p: nat, v: int64)
    requires At(b, p, PutVarint(v))
    ensures VarAt(b, p) == (v, p + |PutVarint(v)|)
  {
    VarintRoundTrip(b, p, v);
  }

  /** Nullable bytes as a producer writes them: a signed varint length, -1 for null. */
  function PutVarBytes(v: Option<bytes>): bytes {
    if v.None? then PutVarint(-1) else PutVarint(|v.value|) + v.value
  }

  lemma VarBytesReadBack(b: bytes, p: nat, v: Option<bytes>)
    requires |b| <= MAX_INT && At(b, p, PutVarBytes(v))
    ensures VarBytesAt(b, p) == Ret((v, p + |PutVarBytes(v)|))
  {
    if v.None? {
      VarReadBack(b, p, -1);
    } else {
      AtSplit(b, p, PutVarint(|v.value|), v.value);
      VarReadBack(b, p, |v.value|);
    }
  }

  /** Nullable bytes with a four-byte length. */
  function PutBytes(v: Option<bytes>): bytes {
    if v.None? then PutInt(-1, 4) else PutInt(|v.value|, 4) + v.value
  }

  lemma BytesReadBack(b: bytes, p: nat, v: Option<bytes>)
    requires |b| < 0x8000_0000 && At(b, p, PutBytes(v))
    ensures BytesAt(b, p) == (v, p + |PutBytes(v)|)
  {
    if v.None? {
      IntReadBack(b, p, -1, 4);
    } else {
      AtSplit(b, p, PutInt(|v.value|, 4), v.value);
      IntReadBack(b, p, |v.value|, 4);
    }
  }

  /** What `writeString` appends: an empty string becomes null. */
  function PutString(s: bytes): bytes {
    if s == [] then PutInt(-1, 2) else PutInt(|s|, 2) + s
  }

  lemma StringReadBack(b: bytes, p: nat, s: bytes)
    requires |s| < 0x8000 && At(b, p, PutString(s))
    ensures StringAt(b, p) == (s, p + |PutString(s)|)
  {
    if s == [] {
      IntReadBack(b, p, -1, 2);
    } else {
      AtSplit(b, p, PutInt(|s|, 2), s);
      IntReadBack(b, p, |s|, 2);
    }
  }

  /** `uint64(n)` as an unsigned varint. */
  function PutLength(n: nat): bytes {
    PutUvarint(n % INT64_SPAN)
  }

  /** A compact string as a client writes it. */
  function PutCompact(s: bytes): bytes {
    PutLength(|s| + 1) + s
  }

  lemma SmallLength(n: nat)
    requires n < INT64_SPAN
    ensures PutLength(n) == PutUvarint(n)
  {
    hide PutUvarint;
    OneLap(n, INT64_SPAN);
  }

  lemma CompactReadBack(b: bytes, p: nat, s: bytes)
    requires |b| < MAX_INT && At(b, p, PutCompact(s))
    ensures CompactAt(b, p) == Ret((s, p + |PutCompact(s)|))
  {
    hide PutUvarint, PutLength, UvarintAt, ToInt64;
    SmallLength(|s| + 1);
    AtSplit(b, p, PutUvarint(|s| + 1), s);
    UvarintRoundTrip(b, p, |s| + 1);
    InRange64(|s| + 1);
    InRange64(|s|);
    InRange64(p + |PutCompact(s)|);
  }

  /** A null compact string reads as the empty one. */
  lemma NullCompactReads(b: bytes, p: nat)
    requires At(b, p, PutUvarint(0))
    ensures p < |b| && CompactAt(b, p) == Ret(([], p + 1))
  {
    UvarintRoundTrip(b, p, 0);
  }

  // ---------- What does not fit ----------

  /** A negative length, or one that passes the end, reads as the empty string, and only the length is consumed. */
  lemma BadStringLength(b: bytes, p: nat, n: int)
    requires Fits(n, 2) && At(b, p, PutInt(n, 2)) && (n < 0 || p + 2 + n > |b|)
    ensures StringAt(b, p) == ([], p + 2)
  {
    hide PutInt;
    IntReadBack(b, p, n, 2);
  }

  lemma BadBytesLength(b: bytes, p: nat, n: int)
    requires Fits(n, 4) && At(b, p, PutInt(n, 4)) && (n < 0 || p + 4 + n > |b|)
    ensures BytesAt(b, p) == (None, p + 4)
  {
    hide PutInt;
    IntReadBack(b, p, n, 4);
  }

  /** The same for varint lengths, as long as the end does not wrap; where it does, the read faults. */
  lemma BadVarBytesLength(b: bytes, p: nat, n: int64)
    requires |b| <= MAX_INT && At(b, p, PutVarint(n))
    ensures var q := p + |PutVarint(n)|;
            && (n < 0 || |b| < q + n <= MAX_INT ==> VarBytesAt(b, p) == Ret((None, q)))
            && (q + n > MAX_INT ==> VarBytesAt(b, p).Fault?)
  {
    hide PutVarint;
    VarReadBack(b, p, n);
  }

  /** Where fewer bytes are left than an integer takes, it reads as 0, and nothing is consumed. */
  lemma ShortInt(b: bytes, p: nat, w: Width)
    requires p <= |b| < p + w
    ensures IntAt(b, p, w) == (0, p)
  {
  }

  /** A varint that the buffer cuts off reads as 0, signed or not, and nothing is consumed. */
  lemma ShortVarint(b: bytes, p: nat)
    requires p <= |b| <= p + MAX_VARINT_LEN && forall j :: p <= j < |b| ==> b[j] >= 128
    ensures UvarAt(b, p) == (0, p) && VarAt(b, p) == (0, p)
  {
    AllContinue(b, p, 0);
  }

  lemma {:induction false} AllContinue(b: bytes, p: nat, i: nat)
    requires p + i <= |b| <= p + MAX_VARINT_LEN && forall j :: p <= j < |b| ==> b[j] >= 128
    ensures UvarintFrom(b, p, i) == (0, 0)
    decreases |b| - i
  {
    if p + i < |b| {
      AllContinue(b, p, i + 1);
    }
  }

  /** Ten bytes without an end, or a tenth above 1, are too long for 64 bits: 0 again, and nothing is consumed. */
  lemma LongVarint(b: bytes, p: nat)
    requires p + MAX_VARINT_LEN <= |b| && forall j :: p <= j < p + 9 ==> b[j] >= 128
    requires 1 < b[p + 9] < 128 || (b[p + 9] >= 128 && p + 10 < |b|)
    ensures UvarAt(b, p) == (0, p) && VarAt(b, p) == (0, p)
  {
    TooLong(b, p, 0);
  }

  lemma {:induction false} TooLong(b: bytes, p: nat, i: nat)
    requires i <= 9 && p + MAX_VARINT_LEN <= |b| && forall j :: p <= j < p + 9 ==> b[j] >= 128
    requires 1 < b[p + 9] < 128 || (b[p + 9] >= 128 && p + 10 < |b|)
    ensures UvarintFrom(b, p, i).0 == 0 && UvarintFrom(b, p, i).1 < 0
    decreases 9 - i
  {
    if i < 9 {
      TooLong(b, p, i + 1);
    } else if b[p + 9] >= 128 {
      assert UvarintFrom(b, p, 10) == (0, -11);
    }
  }

  // ---------- The reader ----------

  /** A method that may fault did what `spec` says: the same value, and the cursor where it says. */
  ghost predicate Does<T>(spec: Outcome<(T, nat)>, r: Outcome<T>, pos: nat) {
    match spec
    case Fault => r.Fault?
    case Ret((v, q)) => r == Ret(v) && pos == q
  }

  class Reader {
    const buf: bytes
    var pos: nat

    ghost predicate Valid()
      reads this
    {
      pos <= |buf| <= MAX_FRAME
    }

    constructor (body: bytes)
      requires |body| <= MAX_FRAME
      ensures Valid() && buf == body && pos == 0
    {
      buf := body;
      pos := 0;
    }

    function Remaining(): (n: nat)
      requires Valid()
      reads this
      ensures n == 0 <==> pos == |buf|
    {
      |buf| - pos
    }

    method ReadInt(w: Width) returns (v: int)
      requires Valid()
      modifies this
      ensures Valid() && (v, pos) == IntAt(buf, old(pos), w)
    {
      if pos + w > |buf| {
        return 0;
      }
      v := GetInt(buf[pos..pos + w]);
      pos := pos + w;
    }

    method ReadString() returns (s: bytes)
      requires Valid()
      modifies this
      ensures Valid() && (s, pos) == StringAt(buf, old(pos))
    {
      var n := ReadInt(2);
      if n < 0 || pos + n > |buf| {
        return [];
      }
      s := buf[pos..pos + n];
      pos := pos + n;
    }

    method ReadCompactString() returns (r: Outcome<bytes>)
      requires Valid()
      modifies this
      ensures Valid() && Does(CompactAt(buf, old(pos)), r, pos)
    {
      var u := ReadUvarint();
      var n := ToInt64(ToInt64(u) - 1);
      if n < 0 || ToInt64(pos + n) > |buf| {
        return Ret([]);
      }
      if pos + n > |buf| {
        return Fault;
      }
      var s := buf[pos..pos + n];
      pos := pos + n;
      return Ret(s);
    }

    method ReadBytes() returns (v: Option<bytes>)
      requires Valid()
      modifies this
      ensures Valid() && (v, pos) == BytesAt(buf, old(pos))
    {
      var n := ReadInt(4);
      if n < 0 || pos + n > |buf| {
        return None;
      }
      v := Some(buf[pos..pos + n]);
      pos := pos + n;
    }

    method ReadUvarint() returns (v: uint64)
      requires Valid()
      modifies this
      ensures Valid() && (v, pos) == UvarAt(buf, old(pos))
    {
      var u, n := Uvarint(buf, pos);
      if n > 0 {
        pos := pos + n;
      }
      v := u;
    }

    method ReadVarint() returns (v: int64)
      requires Valid()
      modifies this
      ensures Valid() && (v, pos) == VarAt(buf, old(pos))
    {
      var u, n := Uvarint(buf, pos);
      v := u / 2;
      if u % 2 != 0 {
        v := -v - 1;
      }
      if n > 0 {
        pos := pos + n;
      }
    }

    method ReadVarBytes() returns (r: Outcome<Option<bytes>>)
      requires Valid()
      modifies this
      ensures Valid() && Does(VarBytesAt(buf, old(pos)), r, pos)
    {
      var n := ReadVarint();
      if n < 0 || ToInt64(pos + n) > |buf| {
        return Ret(None);
      }
      if pos + n > |buf| {
        return Fault;
      }
      var v := Some(buf[pos..pos + n]);
      pos := pos + n;
      return Ret(v);
    }
  }

  // ---------- The writer ----------

  class Writer {
    var buf: bytes

    constructor ()
      ensures buf == []
    {
      buf := [];
    }

    method WriteInt(v: int, w: Width)
      modifies this
      ensures buf == old(buf) + PutInt(v, w)
    {
      buf := buf + PutInt(v, w);
    }

    method WriteBool(v: bool)
      modifies this
      ensures buf == old(buf) + PutInt(if v then 1 else 0, 1)
    {
      if v {
        WriteInt(1, 1);
      } else {
        WriteInt(0, 1);
      }
    }

    method WriteString(s: bytes)
      modifies this
      ensures buf == old(buf) + PutString(s)
    {
      if s == [] {
        WriteInt(-1, 2);
        return;
      }
      WriteInt(|s|, 2);
      buf := buf + s;
    }

    method WriteCompactString(s: bytes)
      modifies this
      ensures buf == old(buf) + (PutLength(|s| + 1) + s)
    {
      WriteUvarint((|s| + 1) % INT64_SPAN);
      buf := buf + s;
    }

    method WriteUvarint(v: uint64)
      modifies this
      ensures buf == old(buf) + PutUvarint(v)
    {
      var tmp := new byte[MAX_VARINT_LEN];
      var n := PutUvarintInto(tmp, v);
      buf := buf + tmp[..n];
    }
  }
}
