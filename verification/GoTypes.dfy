/** The Go values the bridge works on: bytes, strings, sized integers, and results that may be absent or fault. */
module GoTypes {
  type byte = x: int | 0 <= x < 256

  /** A Go `[]byte`, and also a Go `string`, which is a read-only sequence of bytes. */
  type bytes = seq<byte>

  const INT32_SPAN := 0x1_0000_0000
  const INT64_SPAN := 0x1_0000_0000_0000_0000
  const MAX_INT := 0x7fff_ffff_ffff_ffff

  type uint64 = x: int | 0 <= x < 0x1_0000_0000_0000_0000
  type int64 = x: int | -0x8000_0000_0000_0000 <= x < 0x8000_0000_0000_0000
  type int32 = x: int | -0x8000_0000 <= x < 0x8000_0000

  datatype Option<+T> = None | Some(value: T) {
    predicate IsFailure() { None? }

    function PropagateFailure<U>(): Option<U>
      requires None?
    {
      None
    }

    function Extract(): T
      requires Some?
    {
      value
    }
  }

  /** What a Go call does: it returns, or it stops the process with a run-time error. */
  datatype Outcome<+T> = Fault | Ret(value: T) {
    predicate IsFailure() { Fault? }

    function PropagateFailure<U>(): Outcome<U>
      requires Fault?
    {
      Fault
    }

    function Extract(): T
      requires Ret?
    {
      value
    }
  }

  /** The conversion `uintN(v)` followed by `intN(...)`, for the span 2^N. */
  function Wrap(v: int, span: int): int
    requires span > 0
  {
    var u := v % span;
    if u < (span + 1) / 2 then u else u - span
  }

  function ToInt32(v: int): int32 { Wrap(v, INT32_SPAN) }
  function ToInt64(v: int): int64 { Wrap(v, INT64_SPAN) }

  lemma InRange64(t: int64)
    ensures ToInt64(t) == t
  {
  }

  /** The bytes of an ASCII literal. */
  function Ascii(s: string): bytes
    requires forall i :: 0 <= i < |s| ==> s[i] < 128 as char
  {
    seq(|s|, i requires 0 <= i < |s| => s[i] as int)
  }

  /** `s` stands in `b` at position `p`. */
  ghost predicate At(b: bytes, p: nat, s: bytes) {
    p + |s| <= |b| && b[p..p + |s|] == s
  }

  lemma Everywhere(b: bytes)
    ensures At(b, 0, b)
  {
  }

  lemma AtMeans(b: bytes, p: nat, s: bytes)
    requires At(b, p, s)
    ensures p + |s| <= |b| && b[p..p + |s|] == s
  {
  }

  lemma AtSplit(b: bytes, p: nat, s: bytes, t: bytes)
    ensures At(b, p, s + t) <==> At(b, p, s) && At(b, p + |s|, t)
  {
    if At(b, p, s + t) {
      assert b[p..p + |s|] == (s + t)[..|s|];
      assert b[p + |s|..p + |s| + |t|] == (s + t)[|s|..];
    }
    if At(b, p, s) && At(b, p + |s|, t) {
      assert b[p..p + |s + t|] == b[p..p + |s|] + b[p + |s|..p + |s| + |t|];
    }
  }

  /** Splits every concatenation known to stand in `b`. */
  lemma AtAll(b: bytes)
    ensures forall p: nat, s: bytes, t: bytes {:trigger At(b, p, s + t)} ::
              At(b, p, s + t) ==> At(b, p, s) && At(b, p + |s|, t)
    ensures forall p: nat, s: bytes :: At(b, p, s) ==> p + |s| <= |b|
  {
    forall p: nat, s: bytes, t: bytes | At(b, p, s + t)
      ensures At(b, p, s) && At(b, p + |s|, t)
    {
      AtSplit(b, p, s, t);
    }
  }
}
