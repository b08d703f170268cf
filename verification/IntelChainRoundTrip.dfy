/** Writing a chain of DER SEQUENCEs, and that cutting recovers it. */
module IntelChainRoundTrip {
  import opened Bytes
  import opened IntelChain
  import T = TpmCommands

  // ---- Definite-length SEQUENCEs ----

  /** `n` in `count` big-endian bytes. */
  function Digits(n: nat, count: nat): (b: bytes)
    ensures |b| == count
  {
    if count == 0 then [] else Digits(n / 0x100, count - 1) + [n % 0x100]
  }

  function Limit(count: nat): (n: nat)
    ensures 1 <= n
  {
    if count == 0 then 1 else 0x100 * Limit(count - 1)
  }

  /** A SEQUENCE with the short length form, or with `lengthBytes` length bytes. */
  datatype Sequence = Short(content: bytes) | Long(lengthBytes: nat, content: bytes)

  predicate WellFormed(s: Sequence) {
    match s
    case Short(content) => |content| < 0x80
    case Long(lengthBytes, content) => 1 <= lengthBytes <= 4 && |content| < Limit(lengthBytes)
  }

  function Der(s: Sequence): bytes
    requires WellFormed(s)
  {
    match s
    case Short(content) => [0x30, |content|] + content
    case Long(lengthBytes, content) => [0x30, 0x80 + lengthBytes] + (Digits(|content|, lengthBytes) + content)
  }

  lemma {:induction false} BigEndianOf(pre: bytes, n: nat, count: nat, post: bytes)
    requires n < Limit(count)
    ensures BigEndian(pre + Digits(n, count) + post, |pre|, count) == n
    decreases count
  {
    if count > 0 {
      assert pre + Digits(n, count) + post == pre + Digits(n / 0x100, count - 1) + ([n % 0x100] + post);
      BigEndianOf(pre, n / 0x100, count - 1, [n % 0x100] + post);
      BigEndianIgnoresRest(pre + Digits(n, count) + post, pre + Digits(n / 0x100, count - 1) + ([n % 0x100] + post),
                           |pre|, count - 1);
    }
  }

  lemma BigEndianIgnoresRest(b: bytes, c: bytes, at: nat, count: nat)
    requires b == c && at + count <= |b|
    ensures BigEndian(b, at, count) == BigEndian(c, at, count)
  {
  }

  lemma DerSizeOf(pre: bytes, s: Sequence, post: bytes)
    requires WellFormed(s)
    ensures DerSize(pre + Der(s) + post, |pre|) == |Der(s)|
  {
    hide BigEndian, Digits;
    if s.Long? {
      var k := s.lengthBytes;
      var (head, digits) := ([0x30, 0x80 + k], Digits(|s.content|, k));
      LongForm(pre, head, digits, s.content, post);
      BigEndianOf(pre + head, |s.content|, k, s.content + post);
    } else {
      ShortForm(pre, [0x30, |s.content|], s.content, post);
    }
  }

  lemma ShortForm(pre: bytes, head: bytes, content: bytes, post: bytes)
    requires |head| == 2
    ensures var data := pre + (head + content) + post;
      |data| == |pre| + 2 + |content| + |post| && data[|pre|] == head[0] && data[|pre| + 1] == head[1]
  {
  }

  lemma LongForm(pre: bytes, head: bytes, digits: bytes, content: bytes, post: bytes)
    requires |head| == 2
    ensures var data := pre + (head + (digits + content)) + post;
      && |data| == |pre| + 2 + |digits| + |content| + |post| && data[|pre|] == head[0] && data[|pre| + 1] == head[1]
      && data == (pre + head) + digits + (content + post)
  {
  }

  /** Reading a size looks at nothing before the offset. */
  lemma DerSizeShift(pre: bytes, data: bytes)
    ensures DerSize(pre + data, |pre|) == DerSize(data, 0)
  {
    if |data| >= 2 && data[1] >= 0x80 {
      var k := data[1] as int - 0x80;
      if k <= 4 && 2 + k <= |data| { BigEndianShift(pre, data, 2, k); }
    }
  }

  lemma {:induction false} BigEndianShift(pre: bytes, data: bytes, at: nat, count: nat)
    requires at + count <= |data|
    ensures BigEndian(pre + data, |pre| + at, count) == BigEndian(data, at, count)
    decreases count
  {
    if count > 0 { BigEndianShift(pre, data, at, count - 1); }
  }

  // ---- Chains ----

  function Ders(chain: seq<Sequence>): (ds: seq<bytes>)
    requires forall s | s in chain :: WellFormed(s)
    ensures |ds| == |chain|
  {
    if chain == [] then [] else [Der(chain[0])] + Ders(chain[1..])
  }

  lemma {:induction false} CutOfChain(pre: bytes, chain: seq<Sequence>, padding: bytes, room: nat)
    requires forall s | s in chain :: WellFormed(s)
    requires DerSize(padding, 0) == 0
    ensures Cut(pre + (Flatten(Ders(chain)) + padding), |pre|, room)
         == Ders(chain)[..if |chain| < room then |chain| else room]
    decreases |chain|
  {
    hide DerSize, Der, WellFormed;
    var stream := pre + (Flatten(Ders(chain)) + padding);
    if chain == [] {
      assert stream == pre + padding;
      DerSizeShift(pre, padding);
    } else if room > 0 {
      assert chain[0] in chain;
      var (d, more) := (Der(chain[0]), Flatten(Ders(chain[1..])) + padding);
      assert stream == pre + d + more;
      DerSizeOf(pre, chain[0], more);
      SequenceIsSomething(chain[0]);
      assert stream[|pre|..|pre| + |d|] == d;
      CutOfChain(pre + d, chain[1..], padding, room - 1);
    }
  }

  /** Whatever is behind it, a chain at the front of what is left is cut first. */
  lemma {:induction false} LeadingCut(pre: bytes, chain: seq<Sequence>, more: bytes, room: nat)
    requires forall s | s in chain :: WellFormed(s)
    ensures Ders(chain)[..if |chain| < room then |chain| else room]
         <= Cut(pre + (Flatten(Ders(chain)) + more), |pre|, room)
    decreases |chain|
  {
    hide DerSize, Der, WellFormed;
    var stream := pre + (Flatten(Ders(chain)) + more);
    if chain != [] && room > 0 {
      assert chain[0] in chain;
      var (d, rest) := (Der(chain[0]), Flatten(Ders(chain[1..])) + more);
      assert stream == pre + d + rest;
      DerSizeOf(pre, chain[0], rest);
      SequenceIsSomething(chain[0]);
      assert stream[|pre|..|pre| + |d|] == d;
      LeadingCut(pre + d, chain[1..], more, room - 1);
    }
  }

  lemma SequenceIsSomething(s: Sequence)
    requires WellFormed(s)
    ensures |Der(s)| >= 2
  {
  }

  /**
   * The chain survives any chunking: however its stream, with any padding that does not open a SEQUENCE, is split
   * into slots, and with whatever empty slots between, the first eight certificates come out unchanged and in order.
   */
  lemma ChainSurvivesChunking(slots: seq<bytes>, chain: seq<Sequence>, padding: bytes)
    requires forall s | s in chain :: WellFormed(s)
    requires DerSize(padding, 0) == 0
    requires Flatten(slots) == Flatten(Ders(chain)) + padding
    ensures Cut(Flatten(slots), 0, MAX_CERTIFICATES)
         == Ders(chain)[..if |chain| < MAX_CERTIFICATES then |chain| else MAX_CERTIFICATES]
  {
    hide DerSize, Flatten, Ders, WellFormed;
    CutOfChain([], chain, padding, MAX_CERTIFICATES);
    assert [] + Flatten(slots) == Flatten(slots);
  }

  /** What the NV indices hold, absent ones being empty. */
  function OnDieSlots(nv: map<u32, bytes>): seq<bytes> {
    seq(16, i requires 0 <= i < 16 => T.Contents(nv, T.ODCA_BASE + i))
  }

  /** Unless the TPM withholds an index that exists, the chain stored in it comes out, split as it may be. */
  lemma StoredChainIsRead(nv: map<u32, bytes>, withheld: set<u32>, slots: seq<bytes>, chain: seq<Sequence>,
                          padding: bytes)
    requires T.SlotsRead(nv, withheld, slots)
    requires forall index | index in withheld :: !(T.ODCA_BASE <= index < T.ODCA_BASE + 16)
    requires forall s | s in chain :: WellFormed(s)
    requires DerSize(padding, 0) == 0 && Flatten(OnDieSlots(nv)) == Flatten(Ders(chain)) + padding
    ensures Cut(Flatten(slots), 0, MAX_CERTIFICATES)
         == Ders(chain)[..if |chain| < MAX_CERTIFICATES then |chain| else MAX_CERTIFICATES]
  {
    hide DerSize, Flatten, Ders, WellFormed, T.Contents;
    forall i | 0 <= i < 16 ensures slots[i] == OnDieSlots(nv)[i] {
      assert T.ReadAs(nv, withheld, T.ODCA_BASE + i, slots[i]);
    }
    assert slots == OnDieSlots(nv);
    ChainSurvivesChunking(slots, chain, padding);
  }

  lemma {:induction false} FlattenSplit(parts: seq<bytes>, n: nat)
    requires n <= |parts|
    ensures Flatten(parts) == Flatten(parts[..n]) + Flatten(parts[n..])
  {
    if n == 0 {
      assert parts[..0] == [] && parts[0..] == parts;
    } else {
      FlattenSplit(parts[1..], n - 1);
      assert parts[..n][1..] == parts[1..][..n - 1] && parts[1..][n - 1..] == parts[n..];
    }
  }

  lemma {:induction false} DersOfFront(chain: seq<Sequence>, n: nat)
    requires n <= |chain| && forall s | s in chain :: WellFormed(s)
    ensures Ders(chain)[..n] == Ders(chain[..n])
  {
    hide Der, WellFormed;
    if n > 0 {
      assert chain[0] in chain && chain[..n][0] in chain[..n] && chain[..n][1..] == chain[1..][..n - 1];
      DersOfFront(chain[1..], n - 1);
    }
  }

  /** Two streams that agree up to `k`, of which the first opens with `front` no longer than that. */
  lemma Agree(front: bytes, rest: bytes, common: bytes, a: bytes, b: bytes)
    requires front + rest == common + a && |front| <= |common|
    ensures common + b == front + (common[|front|..] + b)
  {
    assert front == (front + rest)[..|front|] == (common + a)[..|front|] == common[..|front|];
    assert common == common[..|front|] + common[|front|..];
  }

  /**
   * With a slot withheld the chain is glued together behind it; but the certificates that lie whole in the slots in
   * front of the first one withheld are still the stored ones, and come first.
   */
  lemma LeadingSurvive(nv: map<u32, bytes>, withheld: set<u32>, slots: seq<bytes>, chain: seq<Sequence>, padding: bytes,
                       w: nat, n: nat)
    requires T.SlotsRead(nv, withheld, slots)
    requires w <= 16 && forall index | index in withheld :: !(T.ODCA_BASE <= index < T.ODCA_BASE + w)
    requires forall s | s in chain :: WellFormed(s)
    requires Flatten(OnDieSlots(nv)) == Flatten(Ders(chain)) + padding
    requires n <= |chain| && |Flatten(Ders(chain)[..n])| <= |Flatten(OnDieSlots(nv)[..w])|
    ensures Ders(chain)[..if n < MAX_CERTIFICATES then n else MAX_CERTIFICATES]
         <= Cut(Flatten(slots), 0, MAX_CERTIFICATES)
  {
    hide DerSize, Flatten, Ders, WellFormed, T.Contents;
    var stored := OnDieSlots(nv);
    forall i | 0 <= i < w ensures slots[i] == stored[i] {
      assert T.ReadAs(nv, withheld, T.ODCA_BASE + i, slots[i]);
    }
    assert slots[..w] == stored[..w];
    FlattenSplit(slots, w);
    FlattenSplit(stored, w);
    FlattenSplit(Ders(chain), n);
    DersOfFront(chain, n);
    var front, common := Flatten(Ders(chain)[..n]), Flatten(stored[..w]);
    var rest := Flatten(Ders(chain)[n..]);
    assert front + (rest + padding) == common + Flatten(stored[w..]);
    Agree(front, rest + padding, common, Flatten(stored[w..]), Flatten(slots[w..]));
    var more := common[|front|..] + Flatten(slots[w..]);
    LeadingCut([], chain[..n], more, MAX_CERTIFICATES);
    assert [] + (front + more) == Flatten(slots);
    assert Ders(chain[..n])[..if n < MAX_CERTIFICATES then n else MAX_CERTIFICATES]
        == Ders(chain)[..if n < MAX_CERTIFICATES then n else MAX_CERTIFICATES];
  }

  /** One certificate split over three slots, the middle one withheld: what is cut was never stored. */
  lemma GluedTogether(nv: map<u32, bytes>, slots: seq<bytes>)
    requires nv == map[T.ODCA_BASE := [0x30, 2, 7], T.ODCA_BASE + 1 := [7], T.ODCA_BASE + 2 := [0x30, 0]]
    requires slots == [[0x30, 2, 7], [], [0x30, 0]] + NoSlots(13)
    ensures T.SlotsRead(nv, {T.ODCA_BASE + 1}, slots)
    ensures Flatten(OnDieSlots(nv)) == Flatten(Ders([Short([7, 7]), Short([])]))
    ensures Cut(Flatten(slots), 0, MAX_CERTIFICATES) == [[0x30, 2, 7, 0x30]]
    ensures [0x30, 2, 7, 0x30] !in Ders([Short([7, 7]), Short([])])
  {
    var chain: seq<Sequence> := [Short([7, 7]), Short([])];
    TwoDers(Short([7, 7]), Short([]));
    assert Der(Short([7, 7])) == [0x30, 2, 7, 7] && Der(Short([])) == [0x30, 0];
    ThreeSlots([0x30, 2, 7], [7], [0x30, 0], 13);
    ThreeSlots([0x30, 2, 7], [], [0x30, 0], 13);
    ThreeStored(nv, [0x30, 2, 7], [7], [0x30, 0]);
    TwoParts([0x30, 2, 7, 7], [0x30, 0]);
    var stream := [0x30, 2, 7, 0x30, 0];
    assert Flatten(slots) == stream && stream[0..4] == [0x30, 2, 7, 0x30];
    assert DerSize(stream, 0) == 4 && DerSize(stream, 4) == 0;
  }

  lemma ThreeStored(nv: map<u32, bytes>, a: bytes, b: bytes, c: bytes)
    requires nv == map[T.ODCA_BASE := a, T.ODCA_BASE + 1 := b, T.ODCA_BASE + 2 := c]
    ensures OnDieSlots(nv) == [a, b, c] + NoSlots(13)
  {
    var stored := [a, b, c] + NoSlots(13);
    forall i | 0 <= i < 16 ensures T.Contents(nv, T.ODCA_BASE + i) == stored[i] {
      if i > 2 { assert T.ODCA_BASE + i !in nv && stored[i] == NoSlots(13)[i - 3]; }
    }
  }

  lemma TwoDers(a: Sequence, b: Sequence)
    requires WellFormed(a) && WellFormed(b)
    ensures Ders([a, b]) == [Der(a), Der(b)]
  {
    hide Der;
    assert [a, b][1..] == [b] && [b][1..] == [];
    assert Ders([b]) == [Der(b)] + Ders([]) == [Der(b)];
  }

  function NoSlots(n: nat): (s: seq<bytes>)
    ensures |s| == n && forall i | 0 <= i < n :: s[i] == []
  {
    seq(n, _ => [])
  }

  lemma {:induction false} NoBytes(n: nat)
    ensures Flatten(NoSlots(n)) == []
  {
    if n > 0 {
      assert NoSlots(n)[1..] == NoSlots(n - 1);
      NoBytes(n - 1);
    }
  }

  lemma TwoParts(a: bytes, b: bytes)
    ensures Flatten([a, b]) == a + b
  {
    assert [a, b][1..] == [b] && [b][1..] == [];
    assert Flatten([b]) == b + Flatten([]) == b;
  }

  lemma FlattenCons(part: bytes, parts: seq<bytes>)
    ensures Flatten([part] + parts) == part + Flatten(parts)
  {
    assert ([part] + parts)[1..] == parts;
  }

  lemma ThreeSlots(a: bytes, b: bytes, c: bytes, n: nat)
    ensures Flatten([a, b, c] + NoSlots(n)) == a + (b + c)
  {
    hide Flatten;
    NoBytes(n);
    assert [a, b, c] + NoSlots(n) == [a] + ([b] + ([c] + NoSlots(n)));
    FlattenCons(c, NoSlots(n));
    FlattenCons(b, [c] + NoSlots(n));
    FlattenCons(a, [b] + ([c] + NoSlots(n)));
    assert c + [] == c;
  }

  /** Padding whose first byte is not 0x30 opens no SEQUENCE, nor does none at all. */
  lemma PaddingIsSafe(padding: bytes)
    ensures padding == [] || padding[0] != 0x30 ==> DerSize(padding, 0) == 0
  {
  }

  /** From any stream at all, the certificates cut are consecutive and from the front. */
  lemma {:induction false} CutIsPrefix(stream: bytes, offset: nat, room: nat)
    requires offset <= |stream|
    ensures |Cut(stream, offset, room)| <= room
    ensures Flatten(Cut(stream, offset, room)) <= stream[offset..]
    decreases room
  {
    hide DerSize;
    var size := DerSize(stream, offset);
    if room > 0 && size != 0 {
      CutIsPrefix(stream, offset + size, room - 1);
      var more := Cut(stream, offset + size, room - 1);
      assert ([stream[offset..offset + size]] + more)[1..] == more;
      assert stream[offset..] == stream[offset..offset + size] + stream[offset + size..];
    }
  }

  /** On literal bytes: the short form, and two length bytes with the high one first. */
  lemma LiteralSizes(content: bytes, more: bytes)
    requires |content| == 0x0102
    ensures DerSize([0x30, 2, 7, 7] + more, 0) == 4 && DerSize([0x30, 0x82, 1, 2] + content + more, 0) == 4 + 0x0102
  {
    var b := [0x30, 0x82, 1, 2] + content + more;
    assert b[0] == 0x30 && b[1] == 0x82 && b[2] == 1 && b[3] == 2;
    assert BigEndian(b, 2, 0) == 0 && BigEndian(b, 2, 1) == 1 && BigEndian(b, 2, 2) == 0x0102;
  }
}
