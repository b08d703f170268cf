/** Cutting the Intel on-die chain: one byte stream of DER SEQUENCEs, split anywhere across NV indices. */
module IntelChain {
  import opened Bytes

  const MAX_CERTIFICATES := 8

  /** The one stream that was split across the slots. */
  function Flatten(parts: seq<bytes>): bytes {
    if parts == [] then [] else parts[0] + Flatten(parts[1..])
  }

  lemma {:induction false} FlattenStep(parts: seq<bytes>, b: bytes)
    ensures Flatten(parts + [b]) == Flatten(parts) + b
  {
    if parts == [] {
      assert [b][1..] == [];
    } else {
      assert (parts + [b])[1..] == parts[1..] + [b];
      FlattenStep(parts[1..], b);
    }
  }

  /** A big-endian number of `count` bytes. */
  function BigEndian(b: bytes, at: nat, count: nat): nat
    requires at + count <= |b|
  {
    if count == 0 then 0 else BigEndian(b, at, count - 1) * 0x100 + b[at + count - 1] as int
  }

  /** Bytes in the definite-length SEQUENCE at `offset`, 0 when there is not a whole one there. */
  function DerSize(data: bytes, offset: nat): (n: nat)
    ensures n != 0 ==> 2 <= n && offset + n <= |data|
  {
    if offset + 2 > |data| || data[offset] != 0x30 then 0 else
    var lengthByte := data[offset + 1];
    if lengthByte < 0x80 then (if offset + 2 + lengthByte as int <= |data| then 2 + lengthByte as int else 0) else
    var lengthBytes := lengthByte as int - 0x80;
    if lengthBytes == 0 || lengthBytes > 4 || offset + 2 + lengthBytes > |data| then 0 else
    var total := 2 + lengthBytes + BigEndian(data, offset + 2, lengthBytes);
    if offset + total <= |data| then total else 0
  }

  /** 64-bit arithmetic: length is at most 32 bits wide, so the sums stay far below 2^64. */
  method DerObjectSize(data: bytes, offset: nat) returns (size: nat)
    ensures size == DerSize(data, offset)
  {
    if offset + 2 > |data| || data[offset] != 0x30 { return 0; }
    var lengthByte := data[offset + 1];
    if lengthByte < 0x80 {
      var total: nat := 2 + lengthByte as int;
      return if offset + total <= |data| then total else 0;
    }
    var lengthBytes: nat := lengthByte as int - 0x80;
    if lengthBytes == 0 || lengthBytes > 4 { return 0; }
    if offset + 2 + lengthBytes > |data| { return 0; }
    var length: nat := 0;
    for i := 0 to lengthBytes
      invariant length == BigEndian(data, offset + 2, i)
    {
      length := length * 0x100 + data[offset + 2 + i] as int;
    }
    var total: nat := 2 + lengthBytes + length;
    return if offset + total <= |data| then total else 0;
  }

  lemma {:induction false} LengthFits32Bits(b: bytes, at: nat, count: nat)
    requires at + count <= |b| && count <= 4
    ensures BigEndian(b, at, count) < [1, 0x100, 0x1_0000, 0x100_0000, 0x1_0000_0000][count]
  {
    if count > 0 { LengthFits32Bits(b, at, count - 1); }
  }

  /** At most `room` certificates cut off the stream from `offset`. */
  function Cut(stream: bytes, offset: nat, room: nat): seq<bytes>
    requires offset <= |stream|
    decreases room
  {
    var size := DerSize(stream, offset);
    if room == 0 || size == 0 then []
    else [stream[offset..offset + size]] + Cut(stream, offset + size, room - 1)
  }

  /** The cutting loop, appending to what the caller already has. */
  method CutChain(stream: bytes, before: seq<bytes>) returns (certificates: seq<bytes>)
    ensures certificates
      == before + Cut(stream, 0, if |before| < MAX_CERTIFICATES then MAX_CERTIFICATES - |before| else 0)
  {
    hide DerSize;
    certificates := before;
    var offset := 0;
    ghost var whole := before + Cut(stream, 0, if |before| < MAX_CERTIFICATES then MAX_CERTIFICATES - |before| else 0);
    while offset < |stream| && |certificates| < MAX_CERTIFICATES
      invariant offset <= |stream|
      invariant whole == certificates
        + Cut(stream, offset, if |certificates| < MAX_CERTIFICATES then MAX_CERTIFICATES - |certificates| else 0)
      decreases |stream| - offset
    {
      var size := DerObjectSize(stream, offset);
      CutStep(stream, offset, certificates, MAX_CERTIFICATES - |certificates|);
      if size == 0 { break; }
      certificates := certificates + [stream[offset..offset + size]];
      offset := offset + size;
    }
    if offset == |stream| { CutAtEnd(stream, MAX_CERTIFICATES); }
  }

  lemma CutStep(stream: bytes, offset: nat, front: seq<bytes>, room: nat)
    requires offset <= |stream| && 0 < room
    ensures var size := DerSize(stream, offset);
      front + Cut(stream, offset, room) ==
        if size == 0 then front else front + [stream[offset..offset + size]] + Cut(stream, offset + size, room - 1)
  {
    hide DerSize;
  }

  lemma CutAtEnd(stream: bytes, room: nat)
    ensures forall r: nat :: Cut(stream, |stream|, r) == []
  {
  }
}
