/** The parts of Go's encoding/binary that the bridge uses: fixed-width integers and base-128 varints. */
module Binary {
  import opened GoTypes

  // ---------- Fixed-width integers ----------

  type Width = w: nat | w == 1 || w == 2 || w == 4 || w == 8 witness 1

  function Span(w: Width): nat {
    if w == 1 then 0x100 else if w == 2 then 0x1_0000 else if w == 4 then INT32_SPAN else INT64_SPAN
  }

  function Pow256(w: nat): (p: nat)
    ensures p > 0
  {
    if w == 0 then 1 else 256 * Pow256(w - 1)
  }

  lemma SpanIsPow256(w: Width)
    ensures Span(w) == Pow256(w)
  {
    assert Pow256(1) == 0x100;
    assert Pow256(2) == 0x1_0000;
    assert Pow256(3) == 0x100_0000;
    assert Pow256(4) == INT32_SPAN;
    assert Pow256(5) == 0x100_0000_0000;
    assert Pow256(6) == 0x1_0000_0000_0000;
    assert Pow256(7) == 0x100_0000_0000_0000;
    assert Pow256(8) == INT64_SPAN;
  }

  /** BigEndian.PutUint of `w` bytes. */
  function PutBig(v: nat, w: nat): (b: bytes)
    ensures |b| == w
  {
    if w == 0 then [] else PutBig(v / 256, w - 1) + [v % 256]
  }

  lemma PutBigStep(v: nat, w: nat)
    requires w > 0
    ensures PutBig(v, w) == PutBig(v / 0x100, w - 1) + [v % 0x100]
  {
  }

  /** BigEndian.Uint of all of `b`. */
  function Big(b: bytes): nat {
    if b == [] then 0 else Big(b[..|b| - 1]) * 256 + b[|b| - 1]
  }

  /** LittleEndian.PutUint of `w` bytes. */
  function PutLittle(v: nat, w: nat): (b: bytes)
    ensures |b| == w
  {
    if w == 0 then [] else [v % 256] + PutLittle(v / 256, w - 1)
  }

  function Little(b: bytes): nat {
    if b == [] then 0 else b[0] + 256 * Little(b[1..])
  }

  lemma {:induction false} BigOfPut(v: nat, w: nat)
    requires v < Pow256(w)
    ensures Big(PutBig(v, w)) == v
  {
    if w > 0 {
      BigOfPut(v / 256, w - 1);
      assert PutBig(v, w)[..w - 1] == PutBig(v / 256, w - 1);
    }
  }

  lemma {:induction false} LittleOfPut(v: nat, w: nat)
    requires v < Pow256(w)
    ensures Little(PutLittle(v, w)) == v
  {
    if w > 0 {
      LittleOfPut(v / 256, w - 1);
      assert PutLittle(v, w)[1..] == PutLittle(v / 256, w - 1);
    }
  }

  /** Big-endian integers end with the low byte, little-endian ones are the same bytes the other way round. */
  lemma {:induction false} ByteOrder(v: nat, w: nat, i: nat)
    requires i < w
    ensures PutBig(v, w)[w - 1] == v % 256 && PutLittle(v, w)[i] == PutBig(v, w)[w - 1 - i]
    decreases w
  {
    if i > 0 {
      ByteOrder(v / 256, w - 1, i - 1);
    }
  }

  lemma {:induction false} BigInRange(b: bytes)
    ensures Big(b) < Pow256(|b|)
  {
    if b != [] {
      BigInRange(b[..|b| - 1]);
    }
  }

  /** The integers a signed field of `w` bytes can hold. */
  predicate Fits(v: int, w: Width) {
    0 - Span(w) <= 2 * v < Span(w)
  }

  /** A signed integer written in `w` bytes; wider values lose their high bytes, as a Go conversion does. */
  function PutInt(v: int, w: Width): (b: bytes)
    ensures |b| == w
  {
    PutBig(v % Span(w), w)
  }

  /** A signed integer read from all of `b`. */
  function GetInt(b: bytes): (v: int)
    requires |b| == 1 || |b| == 2 || |b| == 4 || |b| == 8
    ensures Fits(v, |b|)
  {
    BigInRange(b);
    SpanIsPow256(|b|);
    Wrap(Big(b), Span(|b|))
  }

  lemma WrapFits(v: int, w: Width)
    requires Fits(v, w)
    ensures Wrap(v % Span(w), Span(w)) == v
  {
    if w == 1 {
    } else if w == 2 {
    } else if w == 4 {
    } else {
    }
  }

  lemma GetOfPutInt(v: int, w: Width)
    requires Fits(v, w)
    ensures GetInt(PutInt(v, w)) == v
  {
    SpanIsPow256(w);
    BigOfPut(v % Span(w), w);
    WrapFits(v, w);
  }

  lemma {:induction false} PutOfBig(b: bytes)
    ensures PutBig(Big(b), |b|) == b
  {
    if b != [] {
      PutOfBig(b[..|b| - 1]);
      assert b == b[..|b| - 1] + [b[|b| - 1]];
    }
  }

  /** Reading and writing are inverse both ways. */
  lemma PutOfGetInt(b: bytes)
    requires |b| == 1 || |b| == 2 || |b| == 4 || |b| == 8
    ensures PutInt(GetInt(b), |b|) == b
  {
    SpanIsPow256(|b|);
    BigInRange(b);
    PutOfBig(b);
    WrapBack(Big(b), |b|);
  }

  lemma WrapBack(u: nat, w: Width)
    requires u < Span(w)
    ensures Wrap(u, Span(w)) % Span(w) == u
  {
    OneLap(u, Span(w));
  }

  /** One span less leaves the same remainder. */
  lemma OneLap(u: nat, d: nat)
    requires u < d
    ensures u % d == u && (u - d) % d == u
  {
    var q, r := (u - d) / d, (u - d) % d;
    assert u - r == (q + 1) * d;
  }

  // ---------- Bitwise or ----------

  function Or(a: nat, b: nat): nat {
    if a == 0 then b
    else if b == 0 then a
    else (if a % 2 == 1 || b % 2 == 1 then 1 else 0) + 2 * Or(a / 2, b / 2)
  }

  lemma OrHalf(a: nat, b: nat, c: nat)
    requires Or(a / 2, b / 2) < c
    ensures Or(a, b) < 2 * c
  {
  }

  lemma OrByte(a: nat, b: nat, c: nat)
    requires Or(a / 256, b / 256) < c
    ensures Or(a, b) < 256 * c
  {
    hide Or;
    assert a / 128 / 2 == a / 256 && b / 128 / 2 == b / 256;
    OrHalf(a / 128, b / 128, c);
    assert a / 64 / 2 == a / 128 && b / 64 / 2 == b / 128;
    OrHalf(a / 64, b / 64, 2 * c);
    assert a / 32 / 2 == a / 64 && b / 32 / 2 == b / 64;
    OrHalf(a / 32, b / 32, 4 * c);
    OrFiveBits(a, b, 8 * c);
  }

  lemma OrFiveBits(a: nat, b: nat, c: nat)
    requires Or(a / 32, b / 32) < c
    ensures Or(a, b) < 32 * c
  {
    hide Or;
    assert a / 16 / 2 == a / 32 && b / 16 / 2 == b / 32;
    OrHalf(a / 16, b / 16, c);
    assert a / 8 / 2 == a / 16 && b / 8 / 2 == b / 16;
    OrHalf(a / 8, b / 8, 2 * c);
    assert a / 4 / 2 == a / 8 && b / 4 / 2 == b / 8;
    OrHalf(a / 4, b / 4, 4 * c);
    assert a / 2 / 2 == a / 4 && b / 2 / 2 == b / 4;
    OrHalf(a / 2, b / 2, 8 * c);
    OrHalf(a, b, 16 * c);
  }

  /** The bits of the result are bits of the operands. */
  lemma {:induction false} OrFits(a: nat, b: nat, w: nat)
    requires a < Pow256(w) && b < Pow256(w)
    ensures Or(a, b) < Pow256(w)
  {
    if w > 0 {
      OrFits(a / 256, b / 256, w - 1);
      OrByte(a, b, Pow256(w - 1));
    }
  }

  /** Three low bits beside a multiple of 8 do not overlap. */
  lemma OrOfLowBits(a: nat, low: nat)
    requires low < 8
    ensures Or(8 * a, low) == 8 * a + low
  {
    assert Or(2 * a, low / 4) == 2 * a + low / 4;
    assert Or(4 * a, low / 2) == 4 * a + low / 2;
  }

  // ---------- Base-128 varints ----------

  const MAX_VARINT_LEN := 10

  /** The values still representable after `i` groups of seven bits: 2^(64 - 7 i). */
  function VarintCap(i: nat): (c: nat)
    requires i < MAX_VARINT_LEN
    ensures c >= 2
    decreases MAX_VARINT_LEN - i
  {
    if i == MAX_VARINT_LEN - 1 then 2 else 128 * VarintCap(i + 1)
  }

  lemma CapAtStart()
    ensures VarintCap(0) == INT64_SPAN
  {
    assert VarintCap(6) == 0x40_0000;
    assert VarintCap(3) == 0x800_0000_0000;
  }

  /** The base-128 varint of `v`. */
  function PutUvarint(v: nat): (b: bytes)
    ensures |b| >= 1
  {
    if v < 128 then [v] else [v % 128 + 128] + PutUvarint(v / 128)
  }

  /**
   * binary.Uvarint on `b[p..]`, of which the first `i` bytes were consumed: the value of the rest and the
   * total byte count, or the value 0 with count 0 ("too short") or a negative count ("overflow").
   */
  function UvarintFrom(b: bytes, p: nat, i: nat): (r: (nat, int))
    requires p + i <= |b|
    ensures r.1 > 0 ==> i < r.1 && p + r.1 <= |b| && i < MAX_VARINT_LEN && r.0 < VarintCap(i)
    ensures r.1 <= 0 ==> r.0 == 0
    decreases |b| - i
  {
    if p + i == |b| then (0, 0)
    else if i >= MAX_VARINT_LEN then (0, -(i + 1))
    else if b[p + i] < 128 then
      if i == MAX_VARINT_LEN - 1 && b[p + i] > 1 then (0, -(i + 1)) else (b[p + i], i + 1)
    else
      var (v, n) := UvarintFrom(b, p, i + 1);
      if n <= 0 then (0, n) else (b[p + i] - 128 + 128 * v, n)
  }

  function UvarintAt(b: bytes, p: nat): (r: (uint64, int))
    requires p <= |b|
    ensures r.1 > 0 ==> p + r.1 <= |b|
    ensures r.1 <= 0 ==> r.0 == 0
  {
    CapAtStart();
    UvarintFrom(b, p, 0)
  }

  /** binary.Varint: the zig-zag decoding of binary.Uvarint. */
  function VarintAt(b: bytes, p: nat): (r: (int64, int))
    requires p <= |b|
    ensures r.1 > 0 ==> p + r.1 <= |b|
    ensures r.1 <= 0 ==> r.0 == 0
  {
    var (u, n) := UvarintAt(b, p);
    (if u % 2 == 0 then u / 2 else -(u / 2) - 1, n)
  }

  function ZigZag(v: int): nat {
    if v >= 0 then 2 * v else -2 * v - 1
  }

  function PutVarint(v: int): (b: bytes)
    ensures |b| >= 1
  {
    PutUvarint(ZigZag(v))
  }

  lemma {:induction false} UvarintFromRoundTrip(b: bytes, p: nat, i: nat, v: nat)
    requires i < MAX_VARINT_LEN && v < VarintCap(i)
    requires At(b, p + i, PutUvarint(v))
    ensures UvarintFrom(b, p, i) == (v, i + |PutUvarint(v)|)
    decreases v
  {
    assert b[p + i] == b[p + i..p + i + |PutUvarint(v)|][0];
    if v >= 128 {
      AtSplit(b, p + i, [v % 128 + 128], PutUvarint(v / 128));
      UvarintFromRoundTrip(b, p, i + 1, v / 128);
    }
  }

  /** A decoder finds the written value, and its length, wherever the varint stands. */
  lemma UvarintRoundTrip(b: bytes, p: nat, v: uint64)
    requires At(b, p, PutUvarint(v))
    ensures UvarintAt(b, p) == (v, |PutUvarint(v)|)
  {
    CapAtStart();
    UvarintFromRoundTrip(b, p, 0, v);
  }

  lemma VarintRoundTrip(b: bytes, p: nat, v: int64)
    requires At(b, p, PutVarint(v))
    ensures VarintAt(b, p) == (v, |PutVarint(v)|)
  {
    UvarintRoundTrip(b, p, ZigZag(v));
  }

  /** One group of seven bits moves from what is to be written to what is. */
  lemma GroupWritten(done: bytes, x: nat, i: nat)
    requires x >= 128 && i < MAX_VARINT_LEN && x < VarintCap(i)
    ensures done + [x % 128 + 128] + PutUvarint(x / 128) == done + PutUvarint(x)
    ensures i + 1 < MAX_VARINT_LEN && x / 128 < VarintCap(i + 1)
  {
  }

  lemma LastGroup(x: nat)
    requires x < 128
    ensures PutUvarint(x) == [x]
  {
  }

  /** binary.PutUvarint on a scratch buffer, as the library writes it. */
  method PutUvarintInto(buf: array<byte>, v: uint64) returns (n: nat)
    requires buf.Length >= MAX_VARINT_LEN
    modifies buf
    ensures n <= MAX_VARINT_LEN && buf[..n] == PutUvarint(v)
  {
    hide PutUvarint, VarintCap;
    CapAtStart();
    var x: nat := v;
    var i := 0;
    ghost var done: bytes := [];
    assert done + PutUvarint(x) == PutUvarint(v);
    while x >= 128
      invariant 0 <= i < MAX_VARINT_LEN && x < VarintCap(i)
      invariant buf[..i] == done && done + PutUvarint(x) == PutUvarint(v)
      decreases x
    {
      GroupWritten(done, x, i);
      buf[i] := x % 128 + 128;
      done := done + [x % 128 + 128];
      x := x / 128;
      i := i + 1;
    }
    LastGroup(x);
    buf[i] := x;
    n := i + 1;
  }

  /** `v` with the digit `d` added at weight `unit`. */
  function Plus(v: nat, unit: nat, d: nat): nat {
    v + unit * d
  }

  /** The decoding result when `v` came from the bytes so far, the next one counts `unit` times, and `rest` follows. */
  function Resume(v: nat, unit: nat, rest: (nat, int)): (nat, int) {
    if rest.1 <= 0 then (0, rest.1) else (Plus(v, unit, rest.0), rest.1)
  }

  lemma ResumeNext(b: bytes, p: nat, i: nat, v: nat, unit: nat)
    requires p + i < |b| && i < MAX_VARINT_LEN && b[p + i] >= 128
    ensures Resume(v, unit, UvarintFrom(b, p, i)) ==
            Resume(Plus(v, unit, b[p + i] - 128), 128 * unit, UvarintFrom(b, p, i + 1))
  {
    hide Plus;
    PlusTwice(v, unit, b[p + i] - 128, UvarintFrom(b, p, i + 1).0);
  }

  lemma PlusTwice(v: nat, unit: nat, low: nat, rest: nat)
    ensures Plus(v, unit, low + 128 * rest) == Plus(Plus(v, unit, low), 128 * unit, rest)
  {
    assert unit * (low + 128 * rest) == unit * low + unit * (128 * rest);
    assert unit * (128 * rest) == (128 * unit) * rest;
  }

  /** How decoding ends: too short, overflow, or a last byte. */
  lemma ResumeLast(b: bytes, p: nat, i: nat, v: nat, unit: nat)
    requires p + i <= |b| && (p + i < |b| && i < MAX_VARINT_LEN ==> b[p + i] < 128)
    ensures p + i == |b| ==> Resume(v, unit, UvarintFrom(b, p, i)) == (0, 0)
    ensures p + i < |b| && (i >= MAX_VARINT_LEN || (i == MAX_VARINT_LEN - 1 && b[p + i] > 1)) ==>
              Resume(v, unit, UvarintFrom(b, p, i)) == (0, -(i + 1))
    ensures p + i < |b| && (i < MAX_VARINT_LEN - 1 || (i == MAX_VARINT_LEN - 1 && b[p + i] <= 1)) ==>
              Resume(v, unit, UvarintFrom(b, p, i)) == (Plus(v, unit, b[p + i]), i + 1)
  {
    hide Plus;
  }

  /** Nothing has been read. */
  lemma ResumeFirst(b: bytes, p: nat)
    requires p <= |b|
    ensures UvarintAt(b, p) == Resume(0, 1, UvarintFrom(b, p, 0))
  {
  }

  /** binary.Uvarint on `b[p..]`, as the library's loop computes it. */
  method Uvarint(b: bytes, p: nat) returns (v: nat, n: int)
    requires p <= |b|
    ensures (v, n) == UvarintAt(b, p)
  {
    assert MAX_VARINT_LEN == 10;
    hide *;
    v := 0;
    var unit: nat, i: nat := 1, 0;
    ResumeFirst(b, p);
    while p + i < |b|
      invariant 0 <= i <= MAX_VARINT_LEN && p + i <= |b|
      invariant UvarintAt(b, p) == Resume(v, unit, UvarintFrom(b, p, i))
    {
      if i == MAX_VARINT_LEN {
        ResumeLast(b, p, i, v, unit);
        return 0, -(i + 1);
      }
      if b[p + i] < 128 {
        ResumeLast(b, p, i, v, unit);
        if i == MAX_VARINT_LEN - 1 && b[p + i] > 1 {
          return 0, -(i + 1);
        }
        return Plus(v, unit, b[p + i]), i + 1;
      }
      ResumeNext(b, p, i, v, unit);
      v := Plus(v, unit, b[p + i] - 128);
      unit := 128 * unit;
      i := i + 1;
    }
    ResumeLast(b, p, i, v, unit);
    return 0, 0;
  }
}
