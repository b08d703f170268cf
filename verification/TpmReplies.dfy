/** Where the fields of a well-formed reply are, and the reader of a PCR_Read reply. */
module TpmReplies {
  import opened Bytes
  import opened TpmWire
  import opened TpmDevice

  lemma ReplyHeader(a: Answer)
    requires Small(a)
    ensures var r := Reply(a);
      && |r| == 10 + |ReplyBody(a)| && r[10..] == ReplyBody(a)
      && ReadU16(r, 0) == ReplyTag(a) && ReadU32(r, 6) == 0
  {
    hide U16, U32, ReadU16, ReadU32, ReplyBody, ReplyTag;
    var (tag, size, body) := (ReplyTag(a), (10 + |ReplyBody(a)|) % 0x1_0000_0000, ReplyBody(a));
    ReadU16At([], tag, U32(size) + (U32(0) + body));
    ReadU32At(U16(tag) + U32(size), 0, body);
    HeaderParts(U16(tag), U32(size), U32(0), body);
  }

  lemma HeaderParts(tag: bytes, size: bytes, code: bytes, body: bytes)
    requires |tag| == 2 && |size| == 4 && |code| == 4
    ensures var r := tag + (size + (code + body));
      && |r| == 10 + |body| && r[10..] == body
      && r == [] + tag + (size + (code + body)) && r == (tag + size) + code + body
  {
  }

  /** What is in the body is in the reply, ten bytes further on. */
  lemma InReply(r: bytes, pre: bytes, part: bytes, post: bytes)
    requires 10 <= |r| && r[10..] == pre + (part + post)
    ensures r == (r[..10] + pre) + part + post
  {
    assert r == r[..10] + r[10..];
  }

  /** A number in the body, by its offset in the whole reply. */
  lemma WordInBody(a: Answer, pre: bytes, v: u32, post: bytes)
    requires Small(a) && ReplyBody(a) == pre + (U32(v) + post)
    ensures |Reply(a)| >= 14 + |pre| && ReadU32(Reply(a), 10 + |pre|) == v
  {
    hide U32, ReadU32, Reply, ReplyBody, Small;
    ReplyHeader(a);
    InReply(Reply(a), pre, U32(v), post);
    ReadU32At(Reply(a)[..10] + pre, v, post);
  }

  lemma HalfInBody(a: Answer, pre: bytes, v: u16, post: bytes)
    requires Small(a) && ReplyBody(a) == pre + (U16(v) + post)
    ensures |Reply(a)| >= 12 + |pre| && ReadU16(Reply(a), 10 + |pre|) == v
  {
    hide U16, ReadU16, Reply, ReplyBody, Small;
    ReplyHeader(a);
    InReply(Reply(a), pre, U16(v), post);
    ReadU16At(Reply(a)[..10] + pre, v, post);
  }

  /** A TPM2B in the body: its length field, and its bytes. */
  lemma FrameInBody(a: Answer, pre: bytes, b: bytes, post: bytes)
    requires Small(a) && |b| < 0x1_0000 && ReplyBody(a) == pre + (Framed(b) + post)
    ensures var (r, at) := (Reply(a), 10 + |pre|);
      && |r| == at + 2 + |b| + |post| && ReadU16(r, at) == |b|
      && r[at..at + 2 + |b|] == Framed(b) && r[at + 2..at + 2 + |b|] == b && r[at + 2 + |b|..] == post
  {
    assert Framed(b) == U16(|b|) + b;
    hide U16, ReadU16, Reply, ReplyBody, Small, Framed;
    ReplyHeader(a);
    SizeThenBytes(pre, U16(|b|), b, post);
    HalfInBody(a, pre, |b|, b + post);
    InReply(Reply(a), pre, Framed(b), post);
    SliceMiddle(Reply(a)[..10] + pre, U16(|b|), b, post);
  }

  lemma SizeThenBytes(pre: bytes, size: bytes, b: bytes, post: bytes)
    ensures pre + ((size + b) + post) == pre + (size + (b + post))
  {
  }

  lemma SliceMiddle(pre: bytes, size: bytes, b: bytes, post: bytes)
    ensures var r := pre + (size + b) + post;
      && r[|pre|..|pre| + |size| + |b|] == size + b
      && r[|pre| + |size|..|pre| + |size| + |b|] == b
      && r[|pre| + |size| + |b|..] == post
  {
  }

  lemma CreatedReply(a: Answer)
    requires a.Created? && Small(a) && a.public != []
    ensures var r := Reply(a);
      && 20 + |a.public| <= |r| && ReadU32(r, 6) == 0 && ReadU32(r, 10) == a.handle
      && 0 < ReadU32(r, 14) && 18 + ReadU32(r, 14) <= |r|
      && ReadU16(r, 18) == |a.public| && r[18..20 + |a.public|] == Framed(a.public)
  {
    hide Reply, ReplyBody, U32, Framed, ReadU32, ReadU16, Small;
    var size := 2 + |a.public| + |a.moreParams|;
    CreatedFits(a);
    var tail := Framed(a.public) + (a.moreParams + a.authArea);
    ReplyHeader(a);
    CreatedBody(a, tail);
    WordInBody(a, [], a.handle, U32(size) + tail);
    WordInBody(a, U32(a.handle), size, tail);
    FrameInBody(a, U32(a.handle) + U32(size), a.public, a.moreParams + a.authArea);
  }

  lemma CreatedFits(a: Answer)
    requires a.Created? && Small(a)
    ensures |a.public| + |a.moreParams| + |a.authArea| < MAX_REPLY
  {
  }

  lemma CreatedBody(a: Answer, tail: bytes)
    requires a.Created? && Small(a) && tail == Framed(a.public) + (a.moreParams + a.authArea)
    ensures var size := 2 + |a.public| + |a.moreParams|;
      && ReplyBody(a) == [] + (U32(a.handle) + (U32(size) + tail))
      && ReplyBody(a) == U32(a.handle) + (U32(size) + tail)
      && ReplyBody(a) == (U32(a.handle) + U32(size)) + tail
  {
    hide U32, Framed;
  }

  lemma StartedReply(a: Answer)
    requires a.Started? && Small(a)
    ensures var r := Reply(a);
      |r| >= 14 && ReadU32(r, 6) == 0 && ReadU16(r, 0) == ST_NO_SESSIONS && ReadU32(r, 10) == a.handle
  {
    ReplyHeader(a);
    WordInBody(a, [], a.handle, Framed(a.nonce)) by { assert ReplyBody(a) == [] + (U32(a.handle) + Framed(a.nonce)); }
  }

  lemma RecoveredReply(a: Answer)
    requires a.Recovered? && Small(a)
    ensures var r := Reply(a);
      && 16 + |a.secret| <= |r| && ReadU32(r, 6) == 0 && 2 <= ReadU32(r, 10)
      && ReadU16(r, 14) == |a.secret| && r[16..16 + |a.secret|] == a.secret
  {
    ReplyHeader(a);
    var size := 2 + |a.secret|;
    WordInBody(a, [], size, Framed(a.secret) + a.authArea) by {
      assert ReplyBody(a) == [] + (U32(size) + (Framed(a.secret) + a.authArea));
    }
    FrameInBody(a, U32(size), a.secret, a.authArea);
  }

  lemma AttestedReply(a: Answer)
    requires a.Attested? && Small(a)
    ensures var r := Reply(a);
      && |r| == 16 + |a.attest| + |a.signature| + |a.authArea| && ReadU32(r, 6) == 0
      && ReadU16(r, 14) == |a.attest| && r[16..16 + |a.attest|] == a.attest
      && r[16 + |a.attest|..] == a.signature + a.authArea
  {
    ReplyHeader(a);
    FrameInBody(a, U32(2 + |a.attest| + |a.signature|), a.attest, a.signature + a.authArea);
  }

  lemma NvContentsReply(a: Answer)
    requires a.NvContents? && Small(a)
    ensures var r := Reply(a);
      && 16 + |a.data| <= |r| && ReadU32(r, 6) == 0
      && ReadU16(r, 14) == |a.data| && r[16..16 + |a.data|] == a.data
  {
    ReplyHeader(a);
    FrameInBody(a, U32(2 + |a.data|), a.data, a.authArea);
  }

  lemma NvDescribedReply(a: Answer)
    requires a.NvDescribed? && Small(a)
    ensures var r := Reply(a);
      && ReadU32(r, 6) == 0 && ReadU16(r, 10) == 14 + |a.policy| && 26 + |a.policy| <= |r|
      && ReadU16(r, 22) == |a.policy| && ReadU16(r, 24 + |a.policy|) == a.dataSize
  {
    ReplyHeader(a);
    var public := NvPublic(a.index, a.nameAlg, a.attributes, a.policy, a.dataSize);
    FrameInBody(a, [], public, Framed(a.name)) by { assert ReplyBody(a) == [] + (Framed(public) + Framed(a.name)); }
    var head := U16(|public|) + U32(a.index) + U16(a.nameAlg) + U32(a.attributes);
    PublicParts(a, head);
    HalfInBody(a, head, |a.policy|, a.policy + (U16(a.dataSize) + Framed(a.name)));
    HalfInBody(a, head + U16(|a.policy|) + a.policy, a.dataSize, Framed(a.name));
  }

  lemma PublicParts(a: Answer, head: bytes)
    requires a.NvDescribed? && Small(a)
    requires head == U16(14 + |a.policy|) + U32(a.index) + U16(a.nameAlg) + U32(a.attributes)
    ensures |head| == 12
    ensures ReplyBody(a) == head + (U16(|a.policy|) + (a.policy + (U16(a.dataSize) + Framed(a.name))))
    ensures ReplyBody(a) == (head + U16(|a.policy|) + a.policy) + (U16(a.dataSize) + Framed(a.name))
  {
    hide U16, U32;
    Regroup(U16(14 + |a.policy|), U32(a.index), U16(a.nameAlg), U32(a.attributes), U16(|a.policy|), a.policy,
            U16(a.dataSize), Framed(a.name));
  }

  lemma Regroup(size: bytes, index: bytes, alg: bytes, attributes: bytes, n: bytes, policy: bytes, data: bytes,
                name: bytes)
    ensures (size + (index + (alg + (attributes + ((n + policy) + data))))) + name
         == (size + index + alg + attributes) + (n + (policy + (data + name)))
    ensures (size + (index + (alg + (attributes + ((n + policy) + data))))) + name
         == (size + index + alg + attributes + n + policy) + (data + name)
  {
  }

  // ---- PCR_Read ----

  /** What follows `count` selections. */
  function SkipSelections(b: bytes, count: nat): Option<bytes>
    decreases count
  {
    if count == 0 then Some(b)
    else if |b| < 3 || |b| < 3 + b[2] as int then None
    else SkipSelections(b[3 + b[2]..], count - 1)
  }

  /** The first digest of a PCR_Read reply that has one. */
  function FirstDigest(reply: bytes): Option<bytes> {
    if |reply| < 14 then None else
    var count :- Take32(reply[14..]);
    var rest :- SkipSelections(count.rest, count.value);
    DigestFrom(rest)
  }

  function DigestFrom(rest: bytes): Option<bytes> {
    var digests :- Take32(rest);
    if digests.value == 0 then None else
    var d :- TakeFramed(digests.rest);
    Some(d.value)
  }

  lemma {:induction false} SkipSelectionsOf(ss: seq<Selection>, rest: bytes)
    requires forall s | s in ss :: |s.bitmap| < 0x100
    ensures SkipSelections(SelectionList(ss) + rest, |ss|) == Some(rest)
  {
    if ss == [] {
      assert SelectionList(ss) + rest == rest;
    } else {
      assert ss[0] in ss;
      SkipSelectionsOf(ss[1..], rest);
      var more := SelectionList(ss[1..]) + rest;
      SelectionInFront(U16(ss[0].hash), ss[0].bitmap, SelectionList(ss[1..]), rest);
      hide U16;
      SkipFirst(SelectionList(ss) + rest, ss[0].bitmap, more, |ss|);
    }
  }

  lemma SelectionInFront(hash: bytes, bitmap: bytes, list: bytes, rest: bytes)
    requires |hash| == 2 && |bitmap| < 0x100
    ensures var b := (hash + ([|bitmap|] + bitmap) + list) + rest;
      3 + |bitmap| <= |b| && b[2] == |bitmap| && b[3 + |bitmap|..] == list + rest
  {
  }

  lemma SkipFirst(b: bytes, bitmap: bytes, more: bytes, count: nat)
    requires count > 0 && 3 + |bitmap| <= |b| && b[2] == |bitmap| && b[3 + |bitmap|..] == more
    ensures SkipSelections(b, count) == SkipSelections(more, count - 1)
  {
  }

  /** Whatever selections precede them, the first digest is found. */
  lemma FirstDigestOf(a: Answer)
    requires a.Digested? && Small(a)
    ensures FirstDigest(Reply(a)) == if a.digests == [] then None else Some(a.digests[0])
  {
    var tail := U32(|a.digests|) + FramedList(a.digests);
    DigestedTail(a, tail);
    hide Reply, SkipSelections, U32, Take32, FramedList;
    Take32Of(|a.selections|, SelectionList(a.selections) + tail);
    SkipSelectionsOf(a.selections, tail);
    DigestFromOf(a.digests);
  }

  lemma DigestedTail(a: Answer, tail: bytes)
    requires a.Digested? && Small(a) && tail == U32(|a.digests|) + FramedList(a.digests)
    ensures |Reply(a)| >= 14
    ensures Reply(a)[14..] == U32(|a.selections|) + (SelectionList(a.selections) + tail)
  {
    DigestedBody(a, tail);
    hide U32, Reply, ReplyBody, SelectionsBytes, FramedList, Small;
    ReplyHeader(a);
    assert Reply(a)[14..] == Reply(a)[10..][4..];
  }

  lemma DigestedBody(a: Answer, tail: bytes)
    requires a.Digested? && Small(a) && tail == U32(|a.digests|) + FramedList(a.digests)
    ensures ReplyBody(a) == U32(a.counter) + (U32(|a.selections|) + (SelectionList(a.selections) + tail))
  {
    hide U32, FramedList, SelectionList;
  }

  lemma DigestFromOf(ds: seq<bytes>)
    requires |ds| < MAX_REPLY && forall d | d in ds :: |d| < MAX_REPLY
    ensures DigestFrom(U32(|ds|) + FramedList(ds)) == if ds == [] then None else Some(ds[0])
  {
    hide U32, Take32, TakeFramed, Framed;
    Take32Of(|ds|, FramedList(ds));
    if ds != [] {
      assert ds[0] in ds;
      TakeFramedOf(ds[0], FramedList(ds[1..]));
    }
  }

  /** Whatever a reply claims, it holds no more selections than a third of its bytes. */
  lemma {:induction false} SelectionsAreBounded(b: bytes, count: nat)
    requires SkipSelections(b, count).Some?
    ensures 3 * count + |SkipSelections(b, count).value| <= |b|
    decreases count
  {
    if count > 0 { SelectionsAreBounded(b[3 + b[2]..], count - 1); }
  }

  /** The selection loop: it reads inside the reply whatever the count says, and ends with the reply. */
  method SkipSelectionLoop(reply: bytes, start: nat, count: u32) returns (ok: bool, offset: nat)
    requires start <= |reply|
    ensures ok && offset <= |reply| ==> SkipSelections(reply[start..], count) == Some(reply[offset..])
    ensures !ok || offset > |reply| ==> SkipSelections(reply[start..], count) == None
  {
    ok, offset := true, start;
    var i := 0;
    while i < count
      invariant 0 <= i <= count
      invariant if offset <= |reply|
        then SkipSelections(reply[start..], count) == SkipSelections(reply[offset..], count - i)
                else SkipSelections(reply[start..], count) == None
    {
      SkipOne(reply, offset, count - i);
      offset := offset + 2;
      if offset >= |reply| { return false, offset; }
      var selectSize := reply[offset];
      offset := offset + 1 + selectSize as int;
      i := i + 1;
    }
  }

  lemma SkipOne(reply: bytes, at: nat, count: nat)
    requires count > 0
    ensures at <= |reply| ==>
      if at + 2 >= |reply| then SkipSelections(reply[at..], count) == None
      else if at + 3 + reply[at + 2] as int > |reply| then SkipSelections(reply[at..], count) == None
      else SkipSelections(reply[at..], count) == SkipSelections(reply[at + 3 + reply[at + 2] as int..], count - 1)
  {
    if at <= |reply| && at + 2 < |reply| {
      var b := reply[at..];
      assert b[2] == reply[at + 2];
      if at + 3 + reply[at + 2] as int <= |reply| {
        assert b[3 + b[2]..] == reply[at + 3 + reply[at + 2] as int..];
      }
    }
  }

  /** The body of PcrRead after the response code was found good; any bytes may follow. */
  method ReadDigest(reply: bytes) returns (digest: Option<bytes>)
    requires 10 <= |reply|
    ensures digest == FirstDigest(reply)
  {
    hide SkipSelections, ReadU32, ReadU16;
    var offset := 10 + 4;
    FirstDigestAt(reply);
    if offset + 4 > |reply| { return None; }
    var selectionCount := ReadU32(reply, offset);
    offset := offset + 4;
    var ok;
    ok, offset := SkipSelectionLoop(reply, offset, selectionCount);
    if !ok { return None; }
    if offset + 4 > |reply| { return None; }
    DigestAt(reply, offset);
    var digestCount := ReadU32(reply, offset);
    offset := offset + 4;
    if digestCount > 0 && offset + 2 <= |reply| {
      var digestSize := ReadU16(reply, offset);
      offset := offset + 2;
      if offset + digestSize <= |reply| { return Some(reply[offset..offset + digestSize]); }
    }
    return None;
  }

  lemma FirstDigestAt(reply: bytes)
    ensures FirstDigest(reply) ==
      if |reply| < 18 then None else
      match SkipSelections(reply[18..], ReadU32(reply, 14)) case None => None case Some(rest) => DigestFrom(rest)
  {
    hide SkipSelections;
    if 18 <= |reply| {
      assert ReadU32(reply[14..], 0) == ReadU32(reply, 14);
      hide ReadU32;
      assert reply[14..][4..] == reply[18..];
    }
  }

  lemma DigestAt(reply: bytes, at: nat)
    requires at + 4 <= |reply|
    ensures DigestFrom(reply[at..]) ==
      if ReadU32(reply, at) == 0 || at + 6 > |reply| || at + 6 + ReadU16(reply, at + 4) > |reply| then None
      else Some(reply[at + 6..at + 6 + ReadU16(reply, at + 4)])
  {
    assert ReadU32(reply[at..], 0) == ReadU32(reply, at);
    assert reply[at..][4..] == reply[at + 4..];
    if at + 6 <= |reply| {
      assert ReadU16(reply[at + 4..], 0) == ReadU16(reply, at + 4);
      assert reply[at + 4..][2..] == reply[at + 6..];
      var size := ReadU16(reply, at + 4);
      if at + 6 + size <= |reply| { assert reply[at + 6..][..size] == reply[at + 6..at + 6 + size]; }
    }
    hide ReadU32, ReadU16;
  }
}
