/** The three-byte PCR selection bitmaps of PcrRead and Quote. */
module PcrBitmap {
  import opened Bytes

  const SELECT_BYTES := 3
  const PCR_COUNT := 24

  /** The contents of a PCR of the SHA-256 bank. */
  type PcrDigest = b: bytes | |b| == 32 witness seq(32, _ => 0)

  // ---- Bits of a byte ----

  function Power(n: nat): (p: nat)
    ensures 1 <= p
  {
    if n == 0 then 1 else 2 * Power(n - 1)
  }

  predicate HasBit(b: nat, bit: nat) {
    if bit == 0 then b % 2 == 1 else HasBit(b / 2, bit - 1)
  }

  /** b | (1 << bit) */
  function OrBit(b: nat, bit: nat): nat {
    if bit == 0 then (if b % 2 == 1 then b else b + 1) else 2 * OrBit(b / 2, bit - 1) + b % 2
  }

  lemma {:induction false} OrBitFits(b: nat, bit: nat, width: nat)
    requires bit < width && b < Power(width)
    ensures OrBit(b, bit) < Power(width)
    decreases bit
  {
    hide *;
    var half := Power(width - 1);
    PowerStep(width);
    OrBitStep(b, bit);
    assert b / 2 < half;
    if bit > 0 { OrBitFits(b / 2, bit - 1, width - 1); }
  }

  lemma PowerStep(n: nat)
    requires n > 0
    ensures Power(n) == 2 * Power(n - 1)
  {
  }

  lemma OrBitStep(b: nat, bit: nat)
    ensures bit == 0 ==> OrBit(b, bit) == b + (b + 1) % 2
    ensures bit > 0 ==> OrBit(b, bit) == 2 * OrBit(b / 2, bit - 1) + b % 2
  {
  }

  lemma {:induction false} OrBitSets(b: nat, bit: nat, other: nat)
    ensures HasBit(OrBit(b, bit), other) <==> HasBit(b, other) || other == bit
    decreases bit
  {
    if bit > 0 && other > 0 {
      OrBitSets(b / 2, bit - 1, other - 1);
      assert OrBit(b, bit) / 2 == OrBit(b / 2, bit - 1);
    }
  }

  lemma {:induction false} ZeroHasNoBits(bit: nat)
    ensures !HasBit(0, bit)
  {
    if bit > 0 { ZeroHasNoBits(bit - 1); }
  }

  /** What the first n bits of a number weigh, bit k as much as 2 to the k. */
  function Weight(b: nat, n: nat): nat {
    if n == 0 then 0 else Weight(b, n - 1) + (if HasBit(b, n - 1) then Power(n - 1) else 0)
  }

  lemma {:induction false} WeightOfHalf(b: nat, n: nat)
    ensures Weight(b, n + 1) == b % 2 + 2 * Weight(b / 2, n)
  {
    if n > 0 {
      WeightOfHalf(b, n - 1);
      PowerStep(n);
      assert HasBit(b, n) == HasBit(b / 2, n - 1);
    }
  }

  /** The bits of a number weigh what it is. */
  lemma {:induction false} BitsWeigh(b: nat, n: nat)
    requires b < Power(n)
    ensures Weight(b, n) == b
  {
    if n > 0 {
      PowerStep(n);
      BitsWeigh(b / 2, n - 1);
      WeightOfHalf(b, n - 1);
    }
  }

  lemma ByteIsEightBits()
    ensures Power(8) == 256
  {
    assert Power(4) == 16;
  }

  // ---- Bitmaps ----

  predicate Selects(bitmap: bytes, pcr: nat) {
    pcr / 8 < |bitmap| && HasBit(bitmap[pcr / 8], pcr % 8)
  }

  /** bitmap[pcr / 8] |= 1 << (pcr % 8) */
  function Mark(bitmap: bytes, pcr: nat): (m: bytes)
    requires pcr / 8 < |bitmap|
    ensures |m| == |bitmap|
  {
    OrBitFits(bitmap[pcr / 8], pcr % 8, 8);
    ByteIsEightBits();
    bitmap[pcr / 8 := OrBit(bitmap[pcr / 8], pcr % 8)]
  }

  lemma MarkSelects(bitmap: bytes, pcr: nat, other: nat)
    requires pcr / 8 < |bitmap|
    ensures Selects(Mark(bitmap, pcr), other) <==> Selects(bitmap, other) || other == pcr
  {
    hide HasBit, OrBit;
    OrBitSets(bitmap[pcr / 8], pcr % 8, other % 8);
    assert other == 8 * (other / 8) + other % 8 && pcr == 8 * (pcr / 8) + pcr % 8;
  }

  lemma EmptySelectsNothing(pcr: nat)
    ensures !Selects([0, 0, 0], pcr)
  {
    hide HasBit;
    ZeroHasNoBits(pcr % 8);
  }

  /** The bitmap selecting exactly the expressible indices of a list. */
  function BitmapOf(pcrs: seq<u32>): (b: bytes)
    ensures |b| == SELECT_BYTES
    decreases |pcrs|
  {
    if pcrs == [] then [0, 0, 0] else
    var last := |pcrs| - 1;
    if pcrs[last] < PCR_COUNT then Mark(BitmapOf(pcrs[..last]), pcrs[last]) else BitmapOf(pcrs[..last])
  }

  /** Bit i is set exactly when i is listed and below 24. */
  lemma {:induction false} BitmapOfSelects(pcrs: seq<u32>, i: nat)
    ensures Selects(BitmapOf(pcrs), i) <==> i in pcrs && i < PCR_COUNT
    decreases |pcrs|
  {
    hide Selects, Mark;
    if pcrs == [] {
      EmptySelectsNothing(i);
    } else {
      var last := |pcrs| - 1;
      assert pcrs == pcrs[..last] + [pcrs[last]];
      BitmapOfSelects(pcrs[..last], i);
      if pcrs[last] < PCR_COUNT { MarkSelects(BitmapOf(pcrs[..last]), pcrs[last], i); }
    }
  }

  /** Quote's bitmap is the union of the ones PcrRead sends for the same list, one index at a time. */
  lemma BitmapIsUnion(pcrs: seq<u32>, i: nat)
    ensures Selects(BitmapOf(pcrs), i) <==> exists pcr | pcr in pcrs :: Selects(BitmapOf([pcr]), i)
  {
    hide Selects, BitmapOf;
    BitmapOfSelects(pcrs, i);
    forall pcr | pcr in pcrs ensures Selects(BitmapOf([pcr]), i) <==> i == pcr && i < PCR_COUNT {
      BitmapOfSelects([pcr], i);
    }
  }

  /** The bitmap PcrRead sends; an index it cannot express selects nothing. */
  method OneBitmap(pcrIndex: u32) returns (bitmap: bytes)
    ensures bitmap == BitmapOf([pcrIndex])
  {
    hide Mark;
    bitmap := [0, 0, 0];
    assert [pcrIndex][..0] == [];
    if pcrIndex < PCR_COUNT { bitmap := Mark(bitmap, pcrIndex); }
  }

  /** The bitmap Quote sends. */
  method UnionBitmap(pcrIndices: seq<u32>) returns (bitmap: bytes)
    ensures bitmap == BitmapOf(pcrIndices)
  {
    hide Mark;
    bitmap := [0, 0, 0];
    for k := 0 to |pcrIndices|
      invariant bitmap == BitmapOf(pcrIndices[..k])
    {
      var index := pcrIndices[k];
      assert pcrIndices[..k + 1][..k] == pcrIndices[..k];
      if index < PCR_COUNT { bitmap := Mark(bitmap, index); }
    }
    assert pcrIndices[..|pcrIndices|] == pcrIndices;
  }
}
