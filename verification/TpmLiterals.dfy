/** The commands as literal bytes, and the two key templates: what a trace of the TPM would show. */
module TpmLiterals {
  import opened Bytes
  import opened PcrBitmap
  import opened TpmWire
  import opened TpmWireRoundTrip
  import opened TpmMarshal
  import opened TpmCommandBytes

  // ---- Byte orders ----

  /** The number with these digits to the base 256. */
  function Number(a: int, b: int, c: int, d: int): int { 0x100_0000 * a + 0x1_0000 * b + 0x100 * c + d }

  lemma BigEndianIs(v: u32, w: u16)
    ensures Number(U32(v)[0], U32(v)[1], U32(v)[2], U32(v)[3]) == v && Number(0, 0, U16(w)[0], U16(w)[1]) == w
  {
  }

  lemma LittleEndianIs(v: u32, w: u16)
    ensures Number(Le32(v)[3], Le32(v)[2], Le32(v)[1], Le32(v)[0]) == v && Number(0, 0, Le16(w)[1], Le16(w)[0]) == w
  {
  }

  /** Reading, on any bytes: the TPM's are big endian, the log's little. */
  lemma ReadsAre(b: bytes, at: nat)
    requires at + 4 <= |b|
    ensures ReadU32(b, at) == Number(b[at], b[at + 1], b[at + 2], b[at + 3])
    ensures ReadLe32(b, at) == Number(b[at + 3], b[at + 2], b[at + 1], b[at])
    ensures ReadU16(b, at) == Number(0, 0, b[at], b[at + 1]) && ReadLe16(b, at) == Number(0, 0, b[at + 1], b[at])
  {
  }

  // ---- Commands ----

  /** An authorization area with one empty password. */
  const PASSWORD_AREA: bytes := [0, 0, 0, 9, 0x40, 0, 0, 9, 0, 0, 1, 0, 0]

  lemma PasswordAreaIs()
    ensures U32(9) + AuthArea([PASSWORD]) == PASSWORD_AREA && |AuthArea([PASSWORD])| == 9
  {
    assert [PASSWORD][1..] == [];
    assert AuthArea([]) == [];
    assert Framed([]) == [0, 0];
  }

  /** Tag, size, code, handles and parameters of a command without authorizations. */
  lemma PlainFrame(code: u32, handles: seq<u32>, params: bytes)
    requires |handles| == HandleCount(code) && |params| < 0x1_0000_0000 - 100
    ensures WellFormedFrame(Frame(code, handles, [], params))
    ensures FrameBytes(Frame(code, handles, [], params)) ==
      [0x80, 1] + (U32(|params| + 10 + 4 * |handles|) + (U32(code) + (HandleBytes(handles) + params)))
  {
    var f := Frame(code, handles, [], params);
    hide U32, HandleBytes;
    assert FrameTail(f) == HandleBytes(handles) + params;
    assert U16(0x8001) == [0x80, 1];
  }

  lemma FrameWith(f: Frame, area: bytes)
    requires |f.handles| == HandleCount(f.code) && |f.params| < 0x1_0000_0000 - 100 && f.auths != []
    requires (forall a | a in f.auths :: WellFormedAuth(a)) && 4 <= |area| <= 50 && |f.handles| <= 2
    requires U32(|AuthArea(f.auths)| % 0x1_0000_0000) + AuthArea(f.auths) == area
    ensures WellFormedFrame(f)
    ensures FrameBytes(f) == [0x80, 2] + (U32(|f.params| + 10 + |area| + 4 * |f.handles|)
      + (U32(f.code) + (HandleBytes(f.handles) + (area + f.params))))
  {
    assert U16(0x8002) == [0x80, 2];
    hide U32, U16, AuthArea, HandleBytes, WellFormedAuth, HandleCount;
    assert FrameTail(f) == HandleBytes(f.handles) + (area + f.params);
  }

  /** And of one with an empty password. */
  lemma PasswordFrame(code: u32, handles: seq<u32>, params: bytes)
    requires |handles| == HandleCount(code) && |params| < 0x1_0000_0000 - 100
    ensures WellFormedFrame(Frame(code, handles, [PASSWORD], params))
    ensures FrameBytes(Frame(code, handles, [PASSWORD], params)) ==
      [0x80, 2] + (U32(|params| + 23 + 4 * |handles|)
        + (U32(code) + (HandleBytes(handles) + (PASSWORD_AREA + params))))
  {
    var f := Frame(code, handles, [PASSWORD], params);
    OnePassword(f.auths);
    AtMostTwo(code);
    hide *;
    FrameWith(f, PASSWORD_AREA);
  }

  lemma AtMostTwo(code: u32)
    ensures HandleCount(code) <= 2
  {
  }

  lemma OnePassword(auths: seq<Auth>)
    requires auths == [PASSWORD]
    ensures (forall a | a in auths :: WellFormedAuth(a)) && |PASSWORD_AREA| == 13
    ensures U32(|AuthArea(auths)| % 0x1_0000_0000) + AuthArea(auths) == PASSWORD_AREA
  {
    ShortPassword();
    PasswordAreaIs();
    hide AuthArea, U32, PASSWORD_AREA;
  }

  /** The password of the key to activate, and the session for the key that unwraps. */
  function TwoAreas(session: u32): bytes {
    [0, 0, 0, 18, 0x40, 0, 0, 9, 0, 0, 1, 0, 0] + (U32(session) + [0, 0, 1, 0, 0])
  }

  lemma TwoAreasAre(session: u32)
    ensures var auths := [PASSWORD, ContinuedSession(session)];
      && (forall a | a in auths :: WellFormedAuth(a)) && |AuthArea(auths)| == 18
      && U32(18) + AuthArea(auths) == TwoAreas(session)
  {
    var auths := [PASSWORD, ContinuedSession(session)];
    assert auths[1..] == [ContinuedSession(session)] && auths[1..][1..] == [];
    assert AuthArea([]) == [] && Framed([]) == [0, 0];
    assert U32(18) == [0, 0, 0, 18] && U32(0x4000_0009) == [0x40, 0, 0, 9];
    hide U32, Framed;
    assert AuthBytes(PASSWORD) == [0x40, 0, 0, 9, 0, 0, 1, 0, 0];
    assert AuthBytes(ContinuedSession(session)) == U32(session) + [0, 0, 1, 0, 0];
  }

  /** The activation: the key, the key that unwraps, an empty password, the session, and the two blobs in order. */
  lemma ActivateIs(ak: u32, ek: u32, session: u32, blob: bytes, secret: bytes)
    requires |blob| < 0x1_0000 && |secret| < 0x1_0000
    ensures WellFormed(ActivateOf(ak, ek, session, blob, secret)) && Fits(ActivateOf(ak, ek, session, blob, secret))
    ensures Encode(ActivateOf(ak, ek, session, blob, secret)) == [0x80, 2] + (U32(44 + |blob| + |secret|)
      + ([0, 0, 1, 0x47] + ((U32(ak) + U32(ek)) + (TwoAreas(session)
      + ((U16(|blob|) + blob) + (U16(|secret|) + secret))))))
  {
    var f := Frame(CC_ACTIVATE_CREDENTIAL, [ak, ek], [PASSWORD, ContinuedSession(session)],
                   (U16(|blob|) + blob) + (U16(|secret|) + secret));
    assert |f.params| == 4 + |blob| + |secret|;
    assert |TwoAreas(session)| == 22 && U32(0x147) == [0, 0, 1, 0x47];
    TwoAreasAre(session);
    TwoHandles(ak, ek);
    ActivateFrameIs(ak, ek, session, blob, secret, f);
    hide U32, U16, AuthArea, HandleBytes, WellFormedAuth, FrameBytes, WellFormedFrame, TwoAreas;
    hide CommandFrame, WellFormed;
    FrameWith(f, TwoAreas(session));
  }

  lemma ActivateFrameIs(ak: u32, ek: u32, session: u32, blob: bytes, secret: bytes, f: Frame)
    requires |blob| < 0x1_0000 && |secret| < 0x1_0000
    requires f == Frame(CC_ACTIVATE_CREDENTIAL, [ak, ek], [PASSWORD, ContinuedSession(session)],
                        (U16(|blob|) + blob) + (U16(|secret|) + secret))
    ensures var c := ActivateOf(ak, ek, session, blob, secret); WellFormed(c) && CommandFrame(c) == f
    ensures |f.handles| == HandleCount(f.code)
  {
    hide U16;
  }

  /** Creating a key: nothing sensitive, the template behind its size, no outside data, no PCRs. */
  lemma CreateIs(hierarchy: u32, template: Template)
    requires WellFormedTemplate(template) && |TemplateBytes(template)| < 0x1_0000
    ensures WellFormed(CreateOf(hierarchy, template)) && Fits(CreateOf(hierarchy, template))
    ensures Encode(CreateOf(hierarchy, template)) == [0x80, 2] + (U32(41 + |TemplateBytes(template)|)
      + ([0, 0, 1, 0x31] + (U32(hierarchy) + (PASSWORD_AREA + ([0, 4, 0, 0, 0, 0]
      + ((U16(|TemplateBytes(template)|) + TemplateBytes(template)) + [0, 0, 0, 0, 0, 0]))))))
  {
    var t := TemplateBytes(template);
    var params := [0, 4, 0, 0, 0, 0] + ((U16(|t|) + t) + [0, 0, 0, 0, 0, 0]);
    hide TemplateBytes, WellFormedTemplate;
    ShortPassword();
    NothingElse();
    assert CommandFrame(CreateOf(hierarchy, template)) == Frame(CC_CREATE_PRIMARY, [hierarchy], [PASSWORD], params) by {
      hide U16, U32, SelectionsBytes;
    }
    OneHandle(hierarchy);
    PasswordFrame(CC_CREATE_PRIMARY, [hierarchy], params);
    assert U32(0x131) == [0, 0, 1, 0x31];
    hide U32, U16, HandleBytes, PASSWORD_AREA, CommandFrame, FrameBytes, WellFormedFrame;
  }

  lemma NothingElse()
    ensures Framed(Framed([]) + Framed([])) == [0, 4, 0, 0, 0, 0]
    ensures WellFormedSelections([]) && Framed([]) + SelectionsBytes([]) == [0, 0, 0, 0, 0, 0]
  {
    assert SelectionList([]) == [] && U32(0) == [0, 0, 0, 0];
  }

  lemma OneHandle(handle: u32)
    ensures HandleBytes([handle]) == U32(handle) && HandleBytes([]) == []
  {
    assert [handle][1..] == [];
    hide U32;
  }

  lemma TwoHandles(a: u32, b: u32)
    ensures HandleBytes([a, b]) == U32(a) + U32(b)
  {
    assert [a, b][1..] == [b];
    OneHandle(b);
    hide U32;
  }

  lemma FlushIs(handle: u32)
    ensures Encode(FlushContext(handle)) == [0x80, 1] + ([0, 0, 0, 14] + ([0, 0, 1, 0x65] + U32(handle)))
  {
    CodesOfOne();
    hide U32;
    assert CommandFrame(FlushContext(handle)) == Frame(CC_FLUSH_CONTEXT, [], [], U32(handle));
    PlainFrame(CC_FLUSH_CONTEXT, [], U32(handle));
    OneHandle(handle);
    hide HandleBytes, CommandFrame, FrameBytes, WellFormedFrame;
    assert [] + U32(handle) == U32(handle);
  }

  lemma CodesOfOne()
    ensures U32(14) == [0, 0, 0, 14] && U32(0x165) == [0, 0, 1, 0x65]
    ensures U32(0x173) == [0, 0, 1, 0x73] && U32(0x169) == [0, 0, 1, 0x69]
  {
  }

  lemma ReadPublicIs(handle: u32)
    ensures Encode(ReadPublic(handle)) == [0x80, 1] + ([0, 0, 0, 14] + ([0, 0, 1, 0x73] + U32(handle)))
  {
    assert CommandFrame(ReadPublic(handle)) == Frame(CC_READ_PUBLIC, [handle], [], []);
    PlainFrame(CC_READ_PUBLIC, [handle], []);
    OneHandle(handle);
    CodesOfOne();
    hide U32, HandleBytes, CommandFrame, FrameBytes, WellFormedFrame;
    assert U32(handle) + [] == U32(handle);
  }

  lemma NvReadPublicIs(index: u32)
    ensures Encode(NvReadPublic(index)) == [0x80, 1] + ([0, 0, 0, 14] + ([0, 0, 1, 0x69] + U32(index)))
  {
    assert CommandFrame(NvReadPublic(index)) == Frame(CC_NV_READ_PUBLIC, [index], [], []);
    PlainFrame(CC_NV_READ_PUBLIC, [index], []);
    OneHandle(index);
    CodesOfOne();
    hide U32, HandleBytes, CommandFrame, FrameBytes, WellFormedFrame;
    assert U32(index) + [] == U32(index);
  }

  lemma OneBankIs(bitmap: bytes)
    requires |bitmap| == 3
    ensures WellFormedSelections(Bank(bitmap))
    ensures SelectionsBytes(Bank(bitmap)) == [0, 0, 0, 1] + ([0, 0x0B] + ([3] + bitmap))
  {
    assert Bank(bitmap)[1..] == [];
    assert SelectionList([]) == [];
    assert U32(1) == [0, 0, 0, 1] && U16(0x0B) == [0, 0x0B];
    hide U32, U16;
  }

  /** Reading one PCR of the SHA-256 bank. */
  lemma PcrReadIs(pcr: u32)
    ensures WellFormed(PcrReadOf(pcr)) && Fits(PcrReadOf(pcr))
    ensures Encode(PcrReadOf(pcr)) == [0x80, 1] + ([0, 0, 0, 20] + ([0, 0, 1, 0x7E]
      + ([0, 0, 0, 1] + ([0, 0x0B] + ([3] + BitmapOf([pcr]))))))
  {
    hide BitmapOf;
    var bitmap := BitmapOf([pcr]);
    OneBankIs(bitmap);
    OneHandle(0);
    var params := [0, 0, 0, 1] + ([0, 0x0B] + ([3] + bitmap));
    assert CommandFrame(PcrReadOf(pcr)) == Frame(CC_PCR_READ, [], [], params);
    PlainFrame(CC_PCR_READ, [], params);
    assert U32(20) == [0, 0, 0, 20] && U32(0x17E) == [0, 0, 1, 0x7E];
    hide U32, HandleBytes, CommandFrame, FrameBytes, WellFormedFrame;
    assert [] + params == params;
  }

  /** Making a key persistent, or no longer, by the owner. */
  lemma EvictIs(key: u32, persistent: u32)
    ensures WellFormed(EvictOf(key, persistent)) && Fits(EvictOf(key, persistent))
    ensures Encode(EvictOf(key, persistent)) == [0x80, 2] + ([0, 0, 0, 35] + ([0, 0, 1, 0x20]
      + (([0x40, 0, 0, 1] + U32(key)) + (PASSWORD_AREA + U32(persistent)))))
  {
    ShortPassword();
    assert CommandFrame(EvictOf(key, persistent))
      == Frame(CC_EVICT_CONTROL, [RH_OWNER, key], [PASSWORD], U32(persistent));
    PasswordFrame(CC_EVICT_CONTROL, [RH_OWNER, key], U32(persistent));
    TwoHandles(RH_OWNER, key);
    assert U32(35) == [0, 0, 0, 35] && U32(0x120) == [0, 0, 1, 0x20] && U32(0x4000_0001) == [0x40, 0, 0, 1];
    hide U32, HandleBytes, PASSWORD_AREA, CommandFrame, FrameBytes, WellFormedFrame;
  }

  lemma ShortPassword()
    ensures WellFormedAuth(PASSWORD)
  {
  }

  /** Reading an NV index by its own authority. */
  lemma NvReadIs(index: u32, size: u16, offset: u16)
    ensures WellFormed(NvReadOf(index, size, offset)) && Fits(NvReadOf(index, size, offset))
    ensures Encode(NvReadOf(index, size, offset)) == [0x80, 2] + ([0, 0, 0, 35] + ([0, 0, 1, 0x4E]
      + ((U32(index) + U32(index)) + (PASSWORD_AREA + (U16(size) + U16(offset))))))
  {
    ShortPassword();
    var params := U16(size) + U16(offset);
    assert CommandFrame(NvReadOf(index, size, offset)) == Frame(CC_NV_READ, [index, index], [PASSWORD], params);
    PasswordFrame(CC_NV_READ, [index, index], params);
    TwoHandles(index, index);
    assert U32(35) == [0, 0, 0, 35] && U32(0x14E) == [0, 0, 1, 0x4E];
    hide U32, U16, HandleBytes, PASSWORD_AREA, CommandFrame, FrameBytes, WellFormedFrame;
  }

  /** The policy session: unsalted, unbound, SHA-256, with the fixed nonce. */
  lemma StartIs()
    ensures WellFormed(StartOf()) && Fits(StartOf())
    ensures Encode(StartOf()) == [0x80, 1] + ([0, 0, 0, 59] + ([0, 0, 1, 0x76]
      + (([0x40, 0, 0, 7] + [0x40, 0, 0, 7]) + ([0, 32] + SessionNonce() + [0, 0, 1, 0, 0x10, 0, 0x0B]))))
    ensures forall i | 0 <= i < 32 :: SessionNonce()[i] == (7 * i + 3) % 256
  {
    NonceIs();
    hide SessionNonce;
    StartParams();
    assert CommandFrame(StartOf()) == Frame(CC_START_AUTH_SESSION, [RH_NULL, RH_NULL], [], StartOfParams());
    PlainFrame(CC_START_AUTH_SESSION, [RH_NULL, RH_NULL], StartOfParams());
    TwoHandles(RH_NULL, RH_NULL);
    assert U32(59) == [0, 0, 0, 59] && U32(0x176) == [0, 0, 1, 0x76] && U32(0x4000_0007) == [0x40, 0, 0, 7];
    hide U32, HandleBytes, CommandFrame, FrameBytes, WellFormedFrame;
  }

  lemma NonceIs()
    ensures forall i | 0 <= i < 32 :: SessionNonce()[i] == (7 * i + 3) % 256
  {
  }

  function StartOfParams(): bytes { [0, 32] + SessionNonce() + [0, 0, 1, 0, 0x10, 0, 0x0B] }

  lemma StartParams()
    ensures WellFormed(StartOf()) && Params(StartOf()) == StartOfParams() && |StartOfParams()| == 41
  {
    hide SessionNonce;
  }

  /** Satisfying the policy by the endorsement hierarchy. */
  lemma PolicySecretIs(session: u32)
    ensures WellFormed(PolicySecretOf(session)) && Fits(PolicySecretOf(session))
    ensures Encode(PolicySecretOf(session)) == [0x80, 2] + ([0, 0, 0, 41] + ([0, 0, 1, 0x51]
      + (([0x40, 0, 0, 0x0B] + U32(session)) + (PASSWORD_AREA + [0, 0, 0, 0, 0, 0, 0, 0, 0, 0]))))
  {
    ShortPassword();
    var params: bytes := [0, 0, 0, 0, 0, 0, 0, 0, 0, 0];
    assert Params(PolicySecretOf(session)) == params;
    assert CommandFrame(PolicySecretOf(session))
      == Frame(CC_POLICY_SECRET, [RH_ENDORSEMENT, session], [PASSWORD], params);
    PasswordFrame(CC_POLICY_SECRET, [RH_ENDORSEMENT, session], params);
    TwoHandles(RH_ENDORSEMENT, session);
    assert U32(41) == [0, 0, 0, 41] && U32(0x151) == [0, 0, 1, 0x51] && U32(0x4000_000B) == [0x40, 0, 0, 0x0B];
    hide U32, HandleBytes, PASSWORD_AREA, Params, CommandFrame, FrameBytes, WellFormedFrame;
  }

  function QuoteOfParams(nonce: bytes, pcrs: seq<u32>): bytes
    requires |nonce| < 0x1_0000
  {
    (U16(|nonce|) + nonce) + ([0, 0x14, 0, 0x0B] + ([0, 0, 0, 1] + ([0, 0x0B] + ([3] + BitmapOf(pcrs)))))
  }

  lemma QuoteParamsAre(handle: u32, nonce: bytes, pcrs: seq<u32>)
    requires |nonce| < 0x1_0000
    ensures WellFormed(QuoteOf(handle, nonce, pcrs))
    ensures Params(QuoteOf(handle, nonce, pcrs)) == QuoteOfParams(nonce, pcrs)
    ensures |QuoteOfParams(nonce, pcrs)| == |nonce| + 16
  {
    hide BitmapOf;
    ShortPassword();
    OneBankIs(BitmapOf(pcrs));
    assert SchemeBytes(QUOTE_SCHEME) == [0, 0x14, 0, 0x0B];
    hide U16, SelectionsBytes, SchemeBytes, Bank;
  }

  /** The quote: its nonce behind its size, RSASSA with SHA-256, and the one bank. */
  lemma QuoteIs(handle: u32, nonce: bytes, pcrs: seq<u32>)
    requires |nonce| < 0x1_0000
    ensures WellFormed(QuoteOf(handle, nonce, pcrs)) && Fits(QuoteOf(handle, nonce, pcrs))
    ensures Encode(QuoteOf(handle, nonce, pcrs)) == [0x80, 2] + (U32(43 + |nonce|) + ([0, 0, 1, 0x58]
      + (U32(handle) + (PASSWORD_AREA + QuoteOfParams(nonce, pcrs)))))
  {
    QuoteParamsAre(handle, nonce, pcrs);
    var params := QuoteOfParams(nonce, pcrs);
    assert CommandFrame(QuoteOf(handle, nonce, pcrs)) == Frame(CC_QUOTE, [handle], [PASSWORD], params) by {
      hide Params;
    }
    PasswordFrame(CC_QUOTE, [handle], params);
    OneHandle(handle);
    assert U32(0x158) == [0, 0, 1, 0x58];
    hide U32, HandleBytes, PASSWORD_AREA, Params, CommandFrame, FrameBytes, WellFormedFrame, QuoteOfParams;
  }

  /** The selection of the evidence's six PCRs. */
  lemma EvidenceBitmapIs()
    ensures BitmapOf([0, 1, 2, 3, 4, 7]) == [0x9F, 0, 0]
  {
    var s: seq<u32> := [0, 1, 2, 3, 4, 7];
    NothingMarked();
    assert s[..1] == [] + [0] && s[..2] == s[..1] + [1] && s[..3] == s[..2] + [2] && s[..4] == s[..3] + [3];
    assert s[..5] == s[..4] + [4] && s == s[..5] + [7];
    hide BitmapOf;
    OneMoreMarked([], 0, 0, 0x01);
    OneMoreMarked(s[..1], 1, 0x01, 0x03);
    OneMoreMarked(s[..2], 2, 0x03, 0x07);
    OneMoreMarked(s[..3], 3, 0x07, 0x0F);
    OneMoreMarked(s[..4], 4, 0x0F, 0x1F);
    OneMoreMarked(s[..5], 7, 0x1F, 0x9F);
  }

  lemma NothingMarked()
    ensures BitmapOf([]) == [0, 0, 0]
  {
  }

  lemma OneMoreMarked(pcrs: seq<u32>, pcr: u32, before: byte, after: byte)
    requires BitmapOf(pcrs) == [before, 0, 0] && pcr < 8 && OrBit(before, pcr) == after
    ensures BitmapOf(pcrs + [pcr]) == [after, 0, 0]
  {
    assert (pcrs + [pcr])[..|pcrs|] == pcrs;
    hide OrBit;
  }

  // ---- Key templates ----

  /** RSA, SHA-256, a restricted signing key, no policy, no symmetric cipher, RSASSA over SHA-256, 2048 bits. */
  lemma AkTemplateIs()
    ensures TemplateBytes(AkTemplate()) == (([0, 1] + [0, 0x0B] + [0, 5, 0, 0x72] + [0, 0] + [0, 0x10]) + [0, 0x14]
      + [0, 0x0B] + [8, 0] + [0, 0, 0, 0] + [1, 0]) + Zeros(256)
  {
    AkTemplateBytes();
    AkWords();
    hide Zeros, TemplateBytes, U16, U32, AK_ATTRIBUTES;
    assert [] + [0, 1] == [0, 1];
  }

  lemma AkWords()
    ensures U16(1) == [0, 1] && U16(0x0B) == [0, 0x0B] && U32(AK_ATTRIBUTES) == [0, 5, 0, 0x72] && U16(0) == [0, 0]
    ensures U16(0x10) == [0, 0x10] && U16(0x14) == [0, 0x14] && U16(2048) == [8, 0] && U32(0) == [0, 0, 0, 0]
    ensures U16(256) == [1, 0]
  {
  }

  /** RSA, SHA-256, a restricted decryption key, the standard policy, AES-128 CFB, no scheme, 2048 bits. */
  lemma EkTemplateIs()
    ensures TemplateBytes(EkTemplate()) == [0, 1, 0, 0x0B, 0, 3, 0, 0xB2, 0, 0x20] + EK_POLICY
      + [0, 6, 0, 0x80, 0, 0x43, 0, 0x10, 8, 0, 0, 0, 0, 0, 1, 0] + Zeros(256)
  {
    EkTemplateBytes();
    hide Zeros, TemplateBytes, EK_POLICY;
  }
}
