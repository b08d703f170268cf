/** Fixed-width integers, their byte orders, and the prefix parsers every decoder is built from. */
module Bytes {
  type byte = x: int | 0 <= x < 0x100
  type u16 = x: int | 0 <= x < 0x1_0000
  type u32 = x: int | 0 <= x < 0x1_0000_0000
  type bytes = seq<byte>

  datatype Option<+T> = None | Some(value: T) {
    predicate IsFailure() { None? }

    function PropagateFailure<U>(): Option<U>
      requires None?
    {
      None
    }

    function Extract(): T
      requires Some?
    {
      value
    }
  }

  /** A value read off the front of a byte string, and what follows it. */
  datatype Taken<+T> = Taken(value: T, rest: bytes)

  // ---- Big endian: TPM commands and replies ----

  function U16(v: u16): (b: bytes)
    ensures |b| == 2
  {
    [v / 0x100, v % 0x100]
  }

  function U32(v: u32): (b: bytes)
    ensures |b| == 4
  {
    U16(v / 0x1_0000) + U16(v % 0x1_0000)
  }

  function ReadU16(b: bytes, at: nat): u16
    requires at + 2 <= |b|
  {
    var (hi: int, lo: int) := (b[at], b[at + 1]);
    hi * 0x100 + lo
  }

  function ReadU32(b: bytes, at: nat): u32
    requires at + 4 <= |b|
  {
    var (hi: int, lo: int) := (ReadU16(b, at), ReadU16(b, at + 2));
    hi * 0x1_0000 + lo
  }

  /** A TPM2B: a 16-bit length, then that many bytes. */
  function Framed(b: bytes): (f: bytes)
    requires |b| < 0x1_0000
    ensures |f| == 2 + |b|
  {
    U16(|b|) + b
  }

  function Take(b: bytes, n: nat): (t: Option<Taken<bytes>>)
    ensures t.Some? <==> n <= |b|
    ensures t.Some? ==> |t.value.value| == n && b == t.value.value + t.value.rest
  {
    if n <= |b| then Some(Taken(b[..n], b[n..])) else None
  }

  function Take16(b: bytes): (t: Option<Taken<u16>>)
    ensures t.Some? <==> 2 <= |b|
  {
    if 2 <= |b| then Some(Taken(ReadU16(b, 0), b[2..])) else None
  }

  function Take32(b: bytes): (t: Option<Taken<u32>>)
    ensures t.Some? <==> 4 <= |b|
  {
    if 4 <= |b| then Some(Taken(ReadU32(b, 0), b[4..])) else None
  }

  function Take8(b: bytes): (t: Option<Taken<byte>>)
    ensures t.Some? <==> 1 <= |b|
  {
    if 1 <= |b| then Some(Taken(b[0], b[1..])) else None
  }

  function TakeFramed(b: bytes): Option<Taken<bytes>> {
    var n :- Take16(b);
    Take(n.rest, n.value)
  }

  lemma Take8Of(v: byte, rest: bytes)
    ensures Take8([v] + rest) == Some(Taken(v, rest))
  {
  }

  lemma Take16Of(v: u16, rest: bytes)
    ensures Take16(U16(v) + rest) == Some(Taken(v, rest))
  {
    assert (U16(v) + rest)[2..] == rest;
  }

  lemma Take32Of(v: u32, rest: bytes)
    ensures Take32(U32(v) + rest) == Some(Taken(v, rest))
  {
    ReadU32At([], v, rest);
    assert [] + U32(v) + rest == U32(v) + rest;
    assert (U32(v) + rest)[4..] == rest;
  }

  lemma TakeOf(b: bytes, rest: bytes)
    ensures Take(b + rest, |b|) == Some(Taken(b, rest))
  {
    assert (b + rest)[..|b|] == b;
    assert (b + rest)[|b|..] == rest;
  }

  lemma TakeFramedOf(b: bytes, rest: bytes)
    requires |b| < 0x1_0000
    ensures TakeFramed(Framed(b) + rest) == Some(Taken(b, rest))
  {
    assert Framed(b) + rest == U16(|b|) + (b + rest);
    Take16Of(|b|, b + rest);
    TakeOf(b, rest);
  }

  /** What a successful TakeFramed consumed was a frame. */
  lemma TakeFramedInverse(b: bytes)
    requires TakeFramed(b).Some?
    ensures |TakeFramed(b).value.value| < 0x1_0000
    ensures b == Framed(TakeFramed(b).value.value) + TakeFramed(b).value.rest
  {
    var t := TakeFramed(b).value;
    assert U16(|t.value|) == b[..2];
  }

  /** The number at an offset, when the writer put it there. */
  lemma ReadU16At(pre: bytes, v: u16, post: bytes)
    ensures ReadU16(pre + U16(v) + post, |pre|) == v
  {
  }

  lemma ReadU32At(pre: bytes, v: u32, post: bytes)
    ensures ReadU32(pre + U32(v) + post, |pre|) == v
  {
    var (hi, lo) := (v / 0x1_0000, v % 0x1_0000);
    ReadU16At(pre, hi, U16(lo) + post);
    ReadU16At(pre + U16(hi), lo, post);
    var b := pre + U32(v) + post;
    hide U16, ReadU16;
    assert b == pre + U16(hi) + (U16(lo) + post);
    assert b == pre + U16(hi) + U16(lo) + post;
  }

  // ---- Little endian: the measured-boot log and UEFI structures ----

  function Le16(v: u16): (b: bytes)
    ensures |b| == 2
  {
    [v % 0x100, v / 0x100]
  }

  function Le32(v: u32): (b: bytes)
    ensures |b| == 4
  {
    Le16(v % 0x1_0000) + Le16(v / 0x1_0000)
  }

  function ReadLe16(b: bytes, at: nat): u16
    requires at + 2 <= |b|
  {
    var (lo: int, hi: int) := (b[at], b[at + 1]);
    lo + hi * 0x100
  }

  function ReadLe32(b: bytes, at: nat): u32
    requires at + 4 <= |b|
  {
    var (lo: int, hi: int) := (ReadLe16(b, at), ReadLe16(b, at + 2));
    lo + hi * 0x1_0000
  }

  lemma ReadLe16At(pre: bytes, v: u16, post: bytes)
    ensures ReadLe16(pre + Le16(v) + post, |pre|) == v
  {
  }

  lemma ReadLe32At(pre: bytes, v: u32, post: bytes)
    ensures ReadLe32(pre + Le32(v) + post, |pre|) == v
  {
    var (lo, hi) := (v % 0x1_0000, v / 0x1_0000);
    ReadLe16At(pre, lo, Le16(hi) + post);
    ReadLe16At(pre + Le16(lo), hi, post);
    var b := pre + Le32(v) + post;
    hide Le16, ReadLe16;
    assert b == pre + Le16(lo) + (Le16(hi) + post);
    assert b == pre + Le16(lo) + Le16(hi) + post;
  }

  lemma ReadLe16Of(v: u16, rest: bytes)
    ensures ReadLe16(Le16(v) + rest, 0) == v
    ensures (Le16(v) + rest)[2..] == rest
  {
  }

  lemma ReadLe32Of(v: u32, rest: bytes)
    ensures ReadLe32(Le32(v) + rest, 0) == v
    ensures (Le32(v) + rest)[4..] == rest
  {
    hide Le32, ReadLe32;
    ReadLe32At([], v, rest);
    assert [] + Le32(v) + rest == Le32(v) + rest;
  }

  lemma Digits16(lo: nat, hi: nat)
    requires lo < 0x1_0000
    ensures (lo + hi * 0x1_0000) % 0x1_0000 == lo && (lo + hi * 0x1_0000) / 0x1_0000 == hi
  {
  }

  lemma Digits32(lo: nat, hi: nat)
    requires lo < 0x1_0000_0000
    ensures (lo + hi * 0x1_0000_0000) % 0x1_0000_0000 == lo && (lo + hi * 0x1_0000_0000) / 0x1_0000_0000 == hi
  {
  }

  lemma Le16OfRead(b: bytes, at: nat)
    requires at + 2 <= |b|
    ensures Le16(ReadLe16(b, at)) == b[at..at + 2]
  {
  }

  lemma Le32OfRead(b: bytes, at: nat)
    requires at + 4 <= |b|
    ensures Le32(ReadLe32(b, at)) == b[at..at + 4]
  {
    Le16OfRead(b, at);
    Le16OfRead(b, at + 2);
    hide Le16, ReadLe16;
    Digits16(ReadLe16(b, at), ReadLe16(b, at + 2));
    assert b[at..at + 4] == b[at..at + 2] + b[at + 2..at + 4];
  }
}
