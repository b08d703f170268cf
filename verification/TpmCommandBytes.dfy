/** The command buffers of src/tpm/tpm_commands.cpp, and that each decodes to the operation intended. */
module TpmCommandBytes {
  import opened Bytes
  import opened TpmWire
  import opened TpmWireRoundTrip
  import opened TpmMarshal
  import opened PcrBitmap

  // ---- The size patch of SendCommand ----

  function Sized(data: bytes): bytes {
    if |data| < 6 then data else data[..2] + U32(|data| % 0x1_0000_0000) + data[6..]
  }

  /** A command as its builder leaves it, the size still zero. */
  function Unsized(f: Frame): bytes
    requires forall a | a in f.auths :: WellFormedAuth(a)
  {
    U16(FrameTag(f)) + (U32(0) + (U32(f.code) + FrameTail(f)))
  }

  /** A frame whose handles and authorizations are right; its parameters may be any bytes. */
  predicate Framable(f: Frame) {
    |f.handles| == HandleCount(f.code) && forall a | a in f.auths :: WellFormedAuth(a)
  }

  /** The frame is recovered exactly when the buffer's length fits the size field. */
  lemma SizedFrame(f: Frame)
    requires Framable(f)
    ensures TakeFrame(Sized(Unsized(f))) == if |Unsized(f)| < 0x1_0000_0000 then Some(f) else None
  {
    if |Unsized(f)| < 0x1_0000_0000 {
      SizedIsFrame(f);
      hide Unsized, Sized, TakeFrame;
      TakeFrameOf(f);
    } else {
      OverflowIsNoFrame(f);
    }
  }

  lemma SizedIsFrame(f: Frame)
    requires Framable(f) && |Unsized(f)| < 0x1_0000_0000
    ensures WellFormedFrame(f) && Sized(Unsized(f)) == FrameBytes(f)
  {
    hide U16, U32, Sized, FrameTail, FrameTag, WellFormedAuth;
    SizedOf(U16(FrameTag(f)), U32(f.code) + FrameTail(f));
  }

  lemma OverflowIsNoFrame(f: Frame)
    requires Framable(f) && |Unsized(f)| >= 0x1_0000_0000
    ensures TakeFrame(Sized(Unsized(f))) == None
  {
    hide U16, U32, Sized, FrameTail, FrameTag, WellFormedAuth, TakeFrame;
    var rest := U32(f.code) + FrameTail(f);
    SizedOf(U16(FrameTag(f)), rest);
    WrongSize(Sized(Unsized(f)), FrameTag(f), |Unsized(f)| % 0x1_0000_0000, rest);
  }

  lemma SizedOf(tag: bytes, rest: bytes)
    requires |tag| == 2
    ensures var data := tag + (U32(0) + rest);
      Sized(data) == tag + (U32(|data| % 0x1_0000_0000) + rest)
  {
    hide U32;
  }

  lemma WrongSize(b: bytes, tag: u16, size: u32, rest: bytes)
    requires b == U16(tag) + (U32(size) + rest) && size != |b|
    ensures TakeFrame(b) == None
  {
    hide U16, U32, Take16, Take32, TakeHandles, TakeAuths;
    Take16Of(tag, U32(size) + rest);
    Take32Of(size, rest);
  }

  lemma SizedDecodes(c: Command)
    requires WellFormed(c) && |Unsized(CommandFrame(c))| < 0x1_0000_0000
    ensures Decode(Sized(Unsized(CommandFrame(c)))) == Some(c)
  {
    hide Sized, Unsized, TakeFrame, Interpret, CommandFrame, WellFormed;
    InterpretOf(c);
    SizedFrame(CommandFrame(c));
  }

  // ---- Shapes ----

  lemma PlainShape(code: u32, hs: seq<u32>, params: bytes)
    ensures Unsized(Frame(code, hs, [], params))
         == U16(ST_NO_SESSIONS) + (U32(0) + (U32(code) + (HandleBytes(hs) + params)))
  {
    hide U16, U32, HandleBytes;
    assert [] + params == params;
  }

  lemma PasswordShape(code: u32, hs: seq<u32>, params: bytes)
    ensures Unsized(Frame(code, hs, [PASSWORD], params))
         == U16(ST_SESSIONS) + (U32(0) + (U32(code) + (HandleBytes(hs) + ((U32(9) + AuthBytes(PASSWORD)) + params))))
  {
    PasswordSize();
    hide U16, U32, HandleBytes, AuthBytes;
    assert AuthBytes(PASSWORD) + [] == AuthBytes(PASSWORD);
    assert AuthArea([PASSWORD]) == AuthBytes(PASSWORD);
  }

  lemma OneHandle(h: u32)
    ensures HandleBytes([h]) == U32(h)
  {
    hide U32;
    assert U32(h) + HandleBytes([]) == U32(h);
  }

  lemma TwoHandles(h: u32, k: u32)
    ensures HandleBytes([h, k]) == U32(h) + U32(k)
  {
    hide U32;
    OneHandle(k);
    assert [h, k][1..] == [k];
  }

  // ---- The commands ----

  method FlushCommand(handle: u32) returns (cmd: ByteVector)
    ensures fresh(cmd) && Decode(Sized(cmd.data)) == Some(FlushContext(handle))
  {
    hide U16, U32, Sized, Decode, Unsized;
    var c := FlushContext(handle);
    PlainShape(CC_FLUSH_CONTEXT, [], U32(handle));
    cmd := new ByteVector();
    BeginCommand(cmd, ST_NO_SESSIONS, CC_FLUSH_CONTEXT);
    WriteU32(cmd, handle);
    assert cmd.data == Unsized(CommandFrame(c));
    SizedDecodes(c);
  }

  method ReadPublicCommand(handle: u32) returns (cmd: ByteVector)
    ensures fresh(cmd) && Decode(Sized(cmd.data)) == Some(ReadPublic(handle))
  {
    hide U16, U32, Sized, Decode, Unsized;
    var c := ReadPublic(handle);
    PlainShape(CC_READ_PUBLIC, [handle], []);
    OneHandle(handle);
    cmd := new ByteVector();
    BeginCommand(cmd, ST_NO_SESSIONS, CC_READ_PUBLIC);
    WriteU32(cmd, handle);
    assert cmd.data == Unsized(CommandFrame(c));
    SizedDecodes(c);
  }

  method PcrReadCommand(pcrIndex: u32) returns (cmd: ByteVector)
    ensures fresh(cmd) && Decode(Sized(cmd.data)) == Some(PcrReadOf(pcrIndex))
  {
    hide U16, U32, Sized, Decode, Unsized, BitmapOf;
    var c := PcrReadOf(pcrIndex);
    PlainShape(CC_PCR_READ, [], SelectionsBytes(c.selections));
    OneSelection(BitmapOf([pcrIndex]));
    hide SelectionsBytes;
    cmd := new ByteVector();
    BeginCommand(cmd, ST_NO_SESSIONS, CC_PCR_READ);
    WriteU32(cmd, 1);
    WriteU16(cmd, ALG_SHA256);
    WriteBytes(cmd, [3]);
    var bitmap := OneBitmap(pcrIndex);
    WriteBytes(cmd, bitmap);
    assert cmd.data == Unsized(CommandFrame(c));
    SizedDecodes(c);
  }

  /** The SHA-256 bank of the PCRs a bitmap selects. */
  function Bank(bitmap: bytes): seq<Selection> {
    [Selection(ALG_SHA256, bitmap)]
  }

  function PcrReadOf(pcrIndex: u32): Command { PcrRead(Bank(BitmapOf([pcrIndex]))) }

  lemma OneSelection(bitmap: bytes)
    requires |bitmap| == 3
    ensures WellFormedSelections(Bank(bitmap))
    ensures SelectionsBytes(Bank(bitmap)) == U32(1) + (U16(ALG_SHA256) + ([3] + bitmap))
  {
    hide U16, U32;
    assert SelectionList(Bank(bitmap)) == SelectionBytes(Bank(bitmap)[0]) + [];
  }

  // ---- Quote ----

  const QUOTE_SCHEME := HashScheme(ALG_RSASSA, ALG_SHA256)

  function QuoteOf(handle: u32, nonce: bytes, pcrs: seq<u32>): Command {
    Quote(handle, PASSWORD, nonce, QUOTE_SCHEME, Bank(BitmapOf(pcrs)))
  }

  function QuoteFrame(handle: u32, nonce: bytes, pcrs: seq<u32>): Frame {
    OneSelection(BitmapOf(pcrs));
    Frame(CC_QUOTE, [handle], [PASSWORD],
          (U16(|nonce| % 0x1_0000) + nonce) + (SchemeBytes(QUOTE_SCHEME) + SelectionsBytes(Bank(BitmapOf(pcrs)))))
  }

  /** What a TPM takes the quote command to be, whatever the nonce. */
  function QuoteRequest(handle: u32, nonce: bytes, pcrs: seq<u32>): Option<Command> {
    var f := QuoteFrame(handle, nonce, pcrs);
    if |Unsized(f)| < 0x1_0000_0000 then Interpret(f) else None
  }

  /** It is the intended quote exactly when the nonce's length fits its 16-bit field. */
  lemma QuoteIsIntended(handle: u32, nonce: bytes, pcrs: seq<u32>)
    ensures QuoteRequest(handle, nonce, pcrs) == Some(QuoteOf(handle, nonce, pcrs)) <==> |nonce| < 0x1_0000
  {
    var f := QuoteFrame(handle, nonce, pcrs);
    if |nonce| < 0x1_0000 {
      ShortQuote(handle, nonce, pcrs);
    } else {
      QuoteDataIsShort(f);
      hide Unsized, Interpret, QuoteFrame;
    }
  }

  /**
   * If it is a command at all, it is a quote by the handle of the front of the nonce: as much as the size field says.
   */
  predicate QuotesFront(c: Option<Command>, handle: u32, nonce: bytes) {
    c.Some? ==>
      && c.value.Quote? && c.value.signHandle == handle && c.value.auth == PASSWORD
      && c.value.qualifyingData == nonce[..|nonce| % 0x1_0000]
  }

  lemma QuoteTakesFront(handle: u32, nonce: bytes, pcrs: seq<u32>)
    ensures QuotesFront(QuoteRequest(handle, nonce, pcrs), handle, nonce)
  {
    hide Interpret, Unsized, BitmapOf, SelectionsBytes, SchemeBytes, U16;
    var rest := SchemeBytes(QUOTE_SCHEME) + SelectionsBytes(Bank(BitmapOf(pcrs)));
    InterpretsFront(QuoteFrame(handle, nonce, pcrs), handle, nonce, rest);
  }

  lemma InterpretsFront(f: Frame, handle: u32, nonce: bytes, rest: bytes)
    requires f == Frame(CC_QUOTE, [handle], [PASSWORD], (U16(|nonce| % 0x1_0000) + nonce) + rest)
    ensures QuotesFront(Interpret(f), handle, nonce)
  {
    assert Interpret(f) == ReadQuoteParams(f);
    FrameTakesFront(nonce, rest);
    hide Interpret, TakeScheme, TakeSelections, TakeFramed, U16;
  }

  lemma FrameTakesFront(b: bytes, rest: bytes)
    ensures TakeFramed((U16(|b| % 0x1_0000) + b) + rest).Some?
    ensures TakeFramed((U16(|b| % 0x1_0000) + b) + rest).value.value == b[..|b| % 0x1_0000]
  {
    var n := |b| % 0x1_0000;
    hide U16, Take16;
    assert (U16(n) + b) + rest == U16(n) + (b + rest);
    Take16Of(n, b + rest);
    assert (b + rest)[..n] == b[..n];
  }

  lemma ShortQuote(handle: u32, nonce: bytes, pcrs: seq<u32>)
    requires |nonce| < 0x1_0000
    ensures QuoteRequest(handle, nonce, pcrs) == Some(QuoteOf(handle, nonce, pcrs))
  {
    var (c, f) := (QuoteOf(handle, nonce, pcrs), QuoteFrame(handle, nonce, pcrs));
    OneSelection(BitmapOf(pcrs));
    assert WellFormed(c) && CommandFrame(c) == f by { hide U16, BitmapOf, SelectionsBytes; }
    assert |f.params| < 0x2_0000;
    QuoteIsSmall(f);
    InterpretOf(c);
    hide Unsized, CommandFrame, WellFormed, BitmapOf, Interpret, QuoteFrame, QuoteOf;
  }

  lemma QuoteDataIsShort(f: Frame)
    requires f.code == CC_QUOTE && |f.handles| == 1 && |f.auths| == 1
    ensures Interpret(f).Some? ==> Interpret(f).value.Quote? && |Interpret(f).value.qualifyingData| < 0x1_0000
  {
    assert Interpret(f) == ReadQuoteParams(f);
    hide Interpret, TakeScheme, TakeSelections, TakeFramed;
    if TakeFramed(f.params).Some? { TakeFramedInverse(f.params); }
  }

  lemma QuoteIsSmall(f: Frame)
    requires |f.handles| == 1 && f.auths == [PASSWORD] && |f.params| < 0x2_0000
    ensures |Unsized(f)| < 0x1_0000_0000
  {
    PasswordShape(f.code, f.handles, f.params);
    PasswordSize();
    hide Unsized, U16, U32, HandleBytes;
  }

  lemma QuoteShape(handle: u32, nonce: bytes, pcrs: seq<u32>)
    ensures Unsized(QuoteFrame(handle, nonce, pcrs)) ==
      U16(ST_SESSIONS) + (U32(0) + (U32(CC_QUOTE) + (U32(handle) + ((U32(9) + AuthBytes(PASSWORD))
      + ((U16(|nonce| % 0x1_0000) + nonce) + ((U16(ALG_RSASSA) + U16(ALG_SHA256))
      + (U32(1) + (U16(ALG_SHA256) + ([3] + BitmapOf(pcrs))))))))))
  {
    PasswordShape(CC_QUOTE, [handle], QuoteFrame(handle, nonce, pcrs).params);
    OneHandle(handle);
    OneSelection(BitmapOf(pcrs));
    hide U16, U32, Unsized, BitmapOf, SelectionsBytes, AuthBytes, HandleBytes;
  }

  /** The bytes in the order they are written. */
  lemma QuoteWritten(handle: u32, nonce: bytes, pcrs: seq<u32>)
    ensures Decode(Sized([] + (U16(ST_SESSIONS) + (U32(0) + U32(CC_QUOTE))) + U32(handle)
      + (U32(9) + AuthBytes(PASSWORD)) + (U16(|nonce| % 0x1_0000) + nonce) + U16(ALG_RSASSA) + U16(ALG_SHA256)
      + U32(1) + U16(ALG_SHA256) + [3] + BitmapOf(pcrs)))
      == QuoteRequest(handle, nonce, pcrs)
  {
    QuoteDecodes(handle, nonce, pcrs);
    QuoteShape(handle, nonce, pcrs);
    RegroupQuote(U16(ST_SESSIONS), U32(0), U32(CC_QUOTE), U32(handle), U32(9) + AuthBytes(PASSWORD),
                 U16(|nonce| % 0x1_0000) + nonce, U16(ALG_RSASSA), U16(ALG_SHA256), U32(1), [3], BitmapOf(pcrs));
    hide *;
  }

  lemma QuoteDecodes(handle: u32, nonce: bytes, pcrs: seq<u32>)
    ensures Decode(Sized(Unsized(QuoteFrame(handle, nonce, pcrs)))) == QuoteRequest(handle, nonce, pcrs)
  {
    SizedFrame(QuoteFrame(handle, nonce, pcrs));
    hide Sized, TakeFrame, Unsized, Interpret, QuoteFrame;
  }

  lemma RegroupQuote(tag: bytes, zero: bytes, code: bytes, handle: bytes, auth: bytes, data: bytes,
                     alg: bytes, hash: bytes, one: bytes, three: bytes, bitmap: bytes)
    ensures [] + (tag + (zero + code)) + handle + auth + data + alg + hash + one + hash + three + bitmap
         == tag + (zero + (code + (handle + (auth + (data + ((alg + hash) + (one + (hash + (three + bitmap)))))))))
  {
  }

  method QuoteCommand(akHandle: u32, nonce: bytes, pcrIndices: seq<u32>) returns (cmd: ByteVector)
    ensures fresh(cmd) && Decode(Sized(cmd.data)) == QuoteRequest(akHandle, nonce, pcrIndices)
  {
    QuoteWritten(akHandle, nonce, pcrIndices);
    hide U16, U32, Sized, Decode, BitmapOf, AuthBytes, QuoteRequest;
    cmd := new ByteVector();
    BeginCommand(cmd, ST_SESSIONS, CC_QUOTE);
    WriteU32(cmd, akHandle);
    WritePasswordAuth(cmd);
    WriteTPM2B(cmd, nonce);
    WriteU16(cmd, ALG_RSASSA);
    WriteU16(cmd, ALG_SHA256);
    WriteU32(cmd, 1);
    WriteU16(cmd, ALG_SHA256);
    WriteBytes(cmd, [3]);
    var bitmap := UnionBitmap(pcrIndices);
    WriteBytes(cmd, bitmap);
  }

  // ---- Primary keys ----

  function CreateOf(hierarchy: u32, template: Template): Command {
    CreatePrimary(hierarchy, PASSWORD, [], [], template, [], [])
  }

  lemma CreateShape(hierarchy: u32, t: Template)
    requires WellFormedTemplate(t) && |TemplateBytes(t)| < 0x1000
    ensures WellFormed(CreateOf(hierarchy, t)) && |Unsized(CommandFrame(CreateOf(hierarchy, t)))| < 0x1_0000_0000
    ensures Unsized(CommandFrame(CreateOf(hierarchy, t))) ==
      U16(ST_SESSIONS) + (U32(0) + (U32(CC_CREATE_PRIMARY) + (U32(hierarchy) + ((U32(9) + AuthBytes(PASSWORD))
      + ((U16(4) + (U16(0) + U16(0))) + (Framed(TemplateBytes(t)) + (U16(0) + U32(0))))))))
  {
    var c := CreateOf(hierarchy, t);
    PasswordShape(CC_CREATE_PRIMARY, [hierarchy], Params(c));
    OneHandle(hierarchy);
    PasswordSize();
    NothingFramed();
    hide U16, U32, HandleBytes, AuthBytes, TemplateBytes, WellFormedTemplate, Unsized;
  }

  lemma NothingFramed()
    ensures Framed([]) == U16(0) && Framed(Framed([]) + Framed([])) == U16(4) + (U16(0) + U16(0))
    ensures WellFormedSelections([]) && SelectionsBytes([]) == U32(0)
  {
    hide U16, U32;
    assert U16(0) + [] == U16(0) && U32(0) + [] == U32(0);
  }

  /** The bytes in the order they are written. */
  lemma CreateWritten(hierarchy: u32, t: Template)
    requires WellFormedTemplate(t) && |TemplateBytes(t)| < 0x1000
    ensures Decode(Sized([] + (U16(ST_SESSIONS) + (U32(0) + U32(CC_CREATE_PRIMARY))) + U32(hierarchy)
      + (U32(9) + AuthBytes(PASSWORD)) + U16(4) + U16(0) + U16(0) + Framed(TemplateBytes(t)) + U16(0) + U32(0)))
      == Some(CreateOf(hierarchy, t))
  {
    CreateShape(hierarchy, t);
    SizedDecodes(CreateOf(hierarchy, t));
    RegroupCreate(U16(ST_SESSIONS), U32(0), U32(CC_CREATE_PRIMARY), U32(hierarchy), U32(9) + AuthBytes(PASSWORD),
                  U16(4), U16(0), Framed(TemplateBytes(t)));
    hide *;
  }

  lemma RegroupCreate(tag: bytes, zero: bytes, code: bytes, handle: bytes, auth: bytes, four: bytes, none: bytes,
                      template: bytes)
    ensures [] + (tag + (zero + code)) + handle + auth + four + none + none + template + none + zero
         == tag + (zero + (code + (handle + (auth + ((four + (none + none)) + (template + (none + zero)))))))
  {
  }

  method CreateEkCommand() returns (cmd: ByteVector)
    ensures fresh(cmd) && Decode(Sized(cmd.data)) == Some(CreateOf(RH_ENDORSEMENT, EkTemplate()))
  {
    TemplatesFit();
    CreateWritten(RH_ENDORSEMENT, EkTemplate());
    hide U16, U32, Sized, Decode, AuthBytes, TemplateBytes, EkTemplate, WellFormedTemplate, Framed, CreateOf;
    cmd := new ByteVector();
    BeginCommand(cmd, ST_SESSIONS, CC_CREATE_PRIMARY);
    WriteU32(cmd, 0x4000_000B);
    WritePasswordAuth(cmd);
    WriteU16(cmd, 4);
    WriteU16(cmd, 0);
    WriteU16(cmd, 0);
    WriteEkTemplate(cmd);
    WriteU16(cmd, 0);
    WriteU32(cmd, 0);
  }

  method CreateAkCommand(parentHandle: u32) returns (cmd: ByteVector)
    ensures fresh(cmd) && Decode(Sized(cmd.data)) == Some(CreateOf(parentHandle, AkTemplate()))
  {
    TemplatesFit();
    CreateWritten(parentHandle, AkTemplate());
    hide U16, U32, Sized, Decode, AuthBytes, TemplateBytes, AkTemplate, WellFormedTemplate, Framed, CreateOf;
    cmd := new ByteVector();
    BeginCommand(cmd, ST_SESSIONS, CC_CREATE_PRIMARY);
    WriteU32(cmd, parentHandle);
    WritePasswordAuth(cmd);
    WriteU16(cmd, 4);
    WriteU16(cmd, 0);
    WriteU16(cmd, 0);
    WriteAkTemplate(cmd);
    WriteU16(cmd, 0);
    WriteU32(cmd, 0);
  }

  // ---- Sessions and credential activation ----

  /** The caller nonce: i * 7 + 3, truncated to a byte. */
  function SessionNonce(): (b: bytes)
    ensures |b| == 32
  {
    seq(32, i => (i * 7 + 3) % 0x100)
  }

  function StartOf(): Command {
    StartAuthSession(RH_NULL, RH_NULL, SessionNonce(), [], 0x01, NoSymmetric, ALG_SHA256)
  }

  lemma StartWritten()
    ensures Decode(Sized([] + (U16(ST_NO_SESSIONS) + (U32(0) + U32(CC_START_AUTH_SESSION))) + U32(RH_NULL)
      + U32(RH_NULL) + U16(32) + SessionNonce() + U16(0) + [0x01] + U16(ALG_NULL) + U16(ALG_SHA256))) == Some(StartOf())
  {
    StartShape();
    SizedDecodes(StartOf());
    RegroupStart(U16(ST_NO_SESSIONS), U32(0), U32(CC_START_AUTH_SESSION), U32(RH_NULL), U16(32), SessionNonce(),
                 U16(0), [0x01], U16(ALG_NULL), U16(ALG_SHA256));
    hide *;
  }

  lemma StartShape()
    ensures WellFormed(StartOf()) && |Unsized(CommandFrame(StartOf()))| < 0x1_0000_0000
    ensures Unsized(CommandFrame(StartOf())) ==
      U16(ST_NO_SESSIONS) + (U32(0) + (U32(CC_START_AUTH_SESSION) + ((U32(RH_NULL) + U32(RH_NULL))
      + ((U16(32) + SessionNonce()) + (U16(0) + ([0x01] + (U16(ALG_NULL) + U16(ALG_SHA256))))))))
  {
    PlainShape(CC_START_AUTH_SESSION, [RH_NULL, RH_NULL], Params(StartOf()));
    TwoHandles(RH_NULL, RH_NULL);
    NothingFramed();
    hide U16, U32, HandleBytes, Unsized, SessionNonce;
  }

  lemma RegroupStart(tag: bytes, zero: bytes, code: bytes, noKey: bytes, size: bytes, nonce: bytes,
                     none: bytes, kind: bytes, symmetric: bytes, hash: bytes)
    ensures [] + (tag + (zero + code)) + noKey + noKey + size + nonce + none + kind + symmetric + hash
         == tag + (zero + (code + ((noKey + noKey) + ((size + nonce) + (none + (kind + (symmetric + hash)))))))
  {
  }

  method StartSessionCommand() returns (cmd: ByteVector)
    ensures fresh(cmd) && Decode(Sized(cmd.data)) == Some(StartOf())
  {
    StartWritten();
    hide U16, U32, Sized, Decode, StartOf;
    var nonce := [];
    for i := 0 to 32
      invariant |nonce| == i && forall k | 0 <= k < i :: nonce[k] == (k * 7 + 3) % 0x100
    {
      nonce := nonce + [(i * 7 + 3) % 0x100];
    }
    assert nonce == SessionNonce();
    hide SessionNonce;
    cmd := new ByteVector();
    BeginCommand(cmd, ST_NO_SESSIONS, CC_START_AUTH_SESSION);
    WriteU32(cmd, 0x4000_0007);
    WriteU32(cmd, 0x4000_0007);
    WriteU16(cmd, 32);
    WriteBytes(cmd, nonce);
    WriteU16(cmd, 0);
    WriteBytes(cmd, [0x01]);
    WriteU16(cmd, 0x0010);
    WriteU16(cmd, 0x000B);
  }

  function PolicySecretOf(session: u32): Command {
    PolicySecret(RH_ENDORSEMENT, session, PASSWORD, [], [], [], 0)
  }

  lemma PolicySecretWritten(session: u32)
    ensures Decode(Sized([] + (U16(ST_SESSIONS) + (U32(0) + U32(CC_POLICY_SECRET))) + U32(RH_ENDORSEMENT) + U32(session)
      + (U32(9) + AuthBytes(PASSWORD)) + U16(0) + U16(0) + U16(0) + U32(0))) == Some(PolicySecretOf(session))
  {
    PolicySecretShape(session);
    SizedDecodes(PolicySecretOf(session));
    RegroupPolicy(U16(ST_SESSIONS), U32(0), U32(CC_POLICY_SECRET), U32(RH_ENDORSEMENT), U32(session),
                  U32(9) + AuthBytes(PASSWORD), U16(0));
    hide *;
  }

  lemma PolicySecretShape(session: u32)
    ensures WellFormed(PolicySecretOf(session)) && |Unsized(CommandFrame(PolicySecretOf(session)))| < 0x1_0000_0000
    ensures Unsized(CommandFrame(PolicySecretOf(session))) ==
      U16(ST_SESSIONS) + (U32(0) + (U32(CC_POLICY_SECRET) + ((U32(RH_ENDORSEMENT) + U32(session))
      + ((U32(9) + AuthBytes(PASSWORD)) + (U16(0) + (U16(0) + (U16(0) + U32(0))))))))
  {
    PasswordShape(CC_POLICY_SECRET, [RH_ENDORSEMENT, session], Params(PolicySecretOf(session)));
    TwoHandles(RH_ENDORSEMENT, session);
    NothingFramed();
    PasswordSize();
    hide U16, U32, HandleBytes, Unsized, AuthBytes;
  }

  lemma RegroupPolicy(tag: bytes, zero: bytes, code: bytes, handle: bytes, session: bytes, auth: bytes, none: bytes)
    ensures [] + (tag + (zero + code)) + handle + session + auth + none + none + none + zero
         == tag + (zero + (code + ((handle + session) + (auth + (none + (none + (none + zero)))))))
  {
  }

  method PolicySecretCommand(session: u32) returns (cmd: ByteVector)
    ensures fresh(cmd) && Decode(Sized(cmd.data)) == Some(PolicySecretOf(session))
  {
    PolicySecretWritten(session);
    hide U16, U32, Sized, Decode, AuthBytes, PolicySecretOf;
    cmd := new ByteVector();
    BeginCommand(cmd, ST_SESSIONS, CC_POLICY_SECRET);
    WriteU32(cmd, 0x4000_000B);
    WriteU32(cmd, session);
    WritePasswordAuth(cmd);
    WriteU16(cmd, 0);
    WriteU16(cmd, 0);
    WriteU16(cmd, 0);
    WriteU32(cmd, 0);
  }

  function ActivateOf(ak: u32, ek: u32, session: u32, blob: bytes, secret: bytes): Command {
    ActivateCredential(ak, ek, PASSWORD, ContinuedSession(session), blob, secret)
  }

  function ActivateFrame(ak: u32, ek: u32, session: u32, credentialBlob: bytes, encryptedSecret: bytes): Frame {
    Frame(CC_ACTIVATE_CREDENTIAL, [ak, ek], [PASSWORD, ContinuedSession(session)], credentialBlob + encryptedSecret)
  }

  /** What a TPM takes the activation to be: both blobs are sent as they came. */
  function ActivateRequest(ak: u32, ek: u32, session: u32, credentialBlob: bytes, encryptedSecret: bytes)
    : Option<Command>
  {
    var f := ActivateFrame(ak, ek, session, credentialBlob, encryptedSecret);
    if |Unsized(f)| < 0x1_0000_0000 then Interpret(f) else None
  }

  /** It is an activation of two given blobs exactly when what was sent is their two TPM2B framings. */
  lemma ActivateIsIntended(ak: u32, ek: u32, session: u32, credentialBlob: bytes, encryptedSecret: bytes, blob: bytes,
                           secret: bytes)
    requires |blob| < 0x1_0000 && |secret| < 0x1_0000
    ensures ActivateRequest(ak, ek, session, credentialBlob, encryptedSecret)
         == Some(ActivateOf(ak, ek, session, blob, secret))
       <==> credentialBlob + encryptedSecret == Framed(blob) + Framed(secret)
  {
    var f := ActivateFrame(ak, ek, session, credentialBlob, encryptedSecret);
    InterpretActivate(f);
    if f.params == Framed(blob) + Framed(secret) {
      ActivateIsSmall(f);
      ReadFramedPair(blob, secret);
      hide Framed, TakeFramed, Unsized, Interpret;
    } else {
      FramedPairRead(f.params);
      hide Framed, TakeFramed, Unsized, Interpret;
    }
  }

  lemma ReadFramedPair(blob: bytes, secret: bytes)
    requires |blob| < 0x1_0000 && |secret| < 0x1_0000
    ensures TakeFramed(Framed(blob) + Framed(secret)) == Some(Taken(blob, Framed(secret)))
    ensures TakeFramed(Framed(secret)) == Some(Taken(secret, []))
  {
    hide Framed, TakeFramed;
    TakeFramedOf(blob, Framed(secret));
    TakeFramedOf(secret, []);
    assert Framed(secret) + [] == Framed(secret);
  }

  lemma FramedPairRead(b: bytes)
    ensures TakeFramed(b).Some? ==>
      var t := TakeFramed(b).value;
      |t.value| < 0x1_0000 &&
      (TakeFramed(t.rest).Some? && TakeFramed(t.rest).value.rest == [] ==>
         |TakeFramed(t.rest).value.value| < 0x1_0000 && b == Framed(t.value) + Framed(TakeFramed(t.rest).value.value))
  {
    hide Framed, TakeFramed;
    if TakeFramed(b).Some? {
      TakeFramedInverse(b);
      var rest := TakeFramed(b).value.rest;
      if TakeFramed(rest).Some? {
        TakeFramedInverse(rest);
        assert Framed(TakeFramed(rest).value.value) + [] == Framed(TakeFramed(rest).value.value);
      }
    }
  }

  lemma InterpretActivate(f: Frame)
    requires f.code == CC_ACTIVATE_CREDENTIAL && |f.handles| == 2 && |f.auths| == 2
    ensures Interpret(f) == ReadActivateParams(f)
  {
  }

  lemma ActivateIsSmall(f: Frame)
    requires |f.handles| == 2 && |f.auths| == 2 && f.auths[0] == PASSWORD
    requires f.auths[1] == ContinuedSession(f.auths[1].session)
    requires |f.params| < 0x3_0000
    ensures |Unsized(f)| < 0x1_0000_0000
  {
    TwoAuths(f.auths[1].session);
    assert f.auths == [PASSWORD, ContinuedSession(f.auths[1].session)];
    hide U16, U32, HandleBytes, AuthArea;
  }

  lemma TwoAuths(session: u32)
    ensures AuthArea([PASSWORD, ContinuedSession(session)])
         == AuthBytes(PASSWORD) + AuthBytes(ContinuedSession(session))
    ensures |AuthArea([PASSWORD, ContinuedSession(session)])| == 18
  {
    PasswordSize();
    AuthSize(session);
    hide AuthBytes;
    var auths := [PASSWORD, ContinuedSession(session)];
    assert auths[1..] == [ContinuedSession(session)];
    assert AuthArea(auths[1..]) == AuthBytes(ContinuedSession(session)) + [];
  }

  lemma ActivateWritten(ak: u32, ek: u32, session: u32, credentialBlob: bytes, encryptedSecret: bytes)
    ensures Decode(Sized([] + (U16(ST_SESSIONS) + (U32(0) + U32(CC_ACTIVATE_CREDENTIAL))) + U32(ak) + U32(ek) + U32(18)
      + ([] + AuthBytes(PASSWORD) + AuthBytes(ContinuedSession(session))) + credentialBlob + encryptedSecret))
      == ActivateRequest(ak, ek, session, credentialBlob, encryptedSecret)
  {
    ActivateDecodes(ActivateFrame(ak, ek, session, credentialBlob, encryptedSecret));
    ActivateShape(ak, ek, session, credentialBlob + encryptedSecret);
    RegroupActivate(U16(ST_SESSIONS), U32(0), U32(CC_ACTIVATE_CREDENTIAL), U32(ak), U32(ek), U32(18),
                    AuthBytes(PASSWORD), AuthBytes(ContinuedSession(session)), credentialBlob, encryptedSecret);
    hide Sized, Unsized, Decode, U16, U32, AuthBytes, Interpret;
  }

  lemma ActivateDecodes(f: Frame)
    requires Framable(f)
    ensures Decode(Sized(Unsized(f))) == if |Unsized(f)| < 0x1_0000_0000 then Interpret(f) else None
  {
    SizedFrame(f);
    hide Sized, TakeFrame, Unsized, Interpret;
  }

  lemma ActivateShape(ak: u32, ek: u32, session: u32, params: bytes)
    ensures Unsized(Frame(CC_ACTIVATE_CREDENTIAL, [ak, ek], [PASSWORD, ContinuedSession(session)], params)) ==
      U16(ST_SESSIONS) + (U32(0) + (U32(CC_ACTIVATE_CREDENTIAL) + ((U32(ak) + U32(ek))
      + ((U32(18) + (AuthBytes(PASSWORD) + AuthBytes(ContinuedSession(session)))) + params))))
  {
    TwoAuths(session);
    TwoHandles(ak, ek);
    hide U16, U32, HandleBytes, AuthBytes, AuthArea;
  }

  lemma RegroupActivate(tag: bytes, zero: bytes, code: bytes, ak: bytes, ek: bytes, size: bytes,
                        password: bytes, session: bytes, blob: bytes, secret: bytes)
    ensures [] + (tag + (zero + code)) + ak + ek + size + ([] + password + session) + blob + secret
         == tag + (zero + (code + ((ak + ek) + ((size + (password + session)) + (blob + secret)))))
  {
  }

  method ActivateCommand(ak: u32, ek: u32, session: u32, credentialBlob: bytes, encryptedSecret: bytes)
    returns (cmd: ByteVector)
    ensures fresh(cmd)
    ensures Decode(Sized(cmd.data)) == ActivateRequest(ak, ek, session, credentialBlob, encryptedSecret)
  {
    ActivateWritten(ak, ek, session, credentialBlob, encryptedSecret);
    PasswordSize();
    AuthSize(session);
    hide U16, U32, Sized, Decode, AuthBytes, ActivateRequest;
    var authArea := new ByteVector();
    WriteAuth(authArea, RS_PW);
    WriteAuth(authArea, session);
    cmd := new ByteVector();
    BeginCommand(cmd, ST_SESSIONS, CC_ACTIVATE_CREDENTIAL);
    WriteU32(cmd, ak);
    WriteU32(cmd, ek);
    WriteU32(cmd, |authArea.data|);
    WriteBytes(cmd, authArea.data);
    WriteBytes(cmd, credentialBlob);
    WriteBytes(cmd, encryptedSecret);
  }

  // ---- Persistence and NV ----

  function EvictOf(key: u32, persistent: u32): Command { EvictControl(RH_OWNER, key, PASSWORD, persistent) }

  lemma EvictWritten(key: u32, persistent: u32)
    ensures Decode(Sized([] + (U16(ST_SESSIONS) + (U32(0) + U32(CC_EVICT_CONTROL))) + U32(RH_OWNER) + U32(key)
      + (U32(9) + AuthBytes(PASSWORD)) + U32(persistent))) == Some(EvictOf(key, persistent))
  {
    var c := EvictOf(key, persistent);
    PasswordShape(CC_EVICT_CONTROL, [RH_OWNER, key], U32(persistent));
    TwoHandles(RH_OWNER, key);
    PasswordSize();
    RegroupSix(U16(ST_SESSIONS), U32(0), U32(CC_EVICT_CONTROL), U32(RH_OWNER), U32(key), U32(9) + AuthBytes(PASSWORD),
               U32(persistent));
    hide U16, U32, HandleBytes, Unsized, AuthBytes, Sized, Decode;
    SizedDecodes(c);
  }

  lemma RegroupSix(tag: bytes, zero: bytes, code: bytes, a: bytes, b: bytes, auth: bytes, params: bytes)
    ensures [] + (tag + (zero + code)) + a + b + auth + params
         == tag + (zero + (code + ((a + b) + (auth + params))))
  {
  }

  method EvictCommand(key: u32, persistent: u32) returns (cmd: ByteVector)
    ensures fresh(cmd) && Decode(Sized(cmd.data)) == Some(EvictOf(key, persistent))
  {
    EvictWritten(key, persistent);
    hide U16, U32, Sized, Decode, AuthBytes, EvictOf;
    cmd := new ByteVector();
    BeginCommand(cmd, ST_SESSIONS, CC_EVICT_CONTROL);
    WriteU32(cmd, RH_OWNER);
    WriteU32(cmd, key);
    WritePasswordAuth(cmd);
    WriteU32(cmd, persistent);
  }

  method NvReadPublicCommand(index: u32) returns (cmd: ByteVector)
    ensures fresh(cmd) && Decode(Sized(cmd.data)) == Some(NvReadPublic(index))
  {
    hide U16, U32, Sized, Decode, Unsized;
    var c := NvReadPublic(index);
    PlainShape(CC_NV_READ_PUBLIC, [index], []);
    OneHandle(index);
    cmd := new ByteVector();
    BeginCommand(cmd, ST_NO_SESSIONS, CC_NV_READ_PUBLIC);
    WriteU32(cmd, index);
    assert cmd.data == Unsized(CommandFrame(c));
    SizedDecodes(c);
  }

  function NvReadOf(index: u32, size: u16, offset: u16): Command { NvRead(index, index, PASSWORD, size, offset) }

  lemma NvReadWritten(index: u32, size: u16, offset: u16)
    ensures Decode(Sized([] + (U16(ST_SESSIONS) + (U32(0) + U32(CC_NV_READ))) + U32(index) + U32(index)
      + (U32(9) + AuthBytes(PASSWORD)) + U16(size) + U16(offset))) == Some(NvReadOf(index, size, offset))
  {
    var c := NvReadOf(index, size, offset);
    PasswordShape(CC_NV_READ, [index, index], U16(size) + U16(offset));
    TwoHandles(index, index);
    PasswordSize();
    RegroupSix(U16(ST_SESSIONS), U32(0), U32(CC_NV_READ), U32(index), U32(index), U32(9) + AuthBytes(PASSWORD),
               U16(size) + U16(offset));
    RegroupLast([] + (U16(ST_SESSIONS) + (U32(0) + U32(CC_NV_READ))) + U32(index) + U32(index)
                  + (U32(9) + AuthBytes(PASSWORD)),
                U16(size), U16(offset));
    hide U16, U32, HandleBytes, Unsized, AuthBytes, Sized, Decode;
    SizedDecodes(c);
  }

  lemma RegroupLast(front: bytes, a: bytes, b: bytes)
    ensures front + a + b == front + (a + b)
  {
  }

  method NvReadCommand(index: u32, size: u16, offset: u16) returns (cmd: ByteVector)
    ensures fresh(cmd) && Decode(Sized(cmd.data)) == Some(NvReadOf(index, size, offset))
  {
    NvReadWritten(index, size, offset);
    hide U16, U32, Sized, Decode, AuthBytes, NvReadOf;
    cmd := new ByteVector();
    BeginCommand(cmd, ST_SESSIONS, CC_NV_READ);
    WriteU32(cmd, index);
    WriteU32(cmd, index);
    WritePasswordAuth(cmd);
    WriteU16(cmd, size);
    WriteU16(cmd, offset);
  }
}
