/**
 * TPM 2.0 command bytes: the structures of Part 2 and the command layout of Parts 1 and 3 of the TPM 2.0 Library
 * Specification, for the commands this library sends. The decoder is what a TPM does with a buffer.
 */
module TpmWire {
  import opened Bytes

  const ST_NO_SESSIONS: u16 := 0x8001
  const ST_SESSIONS: u16 := 0x8002

  const CC_PCR_READ: u32 := 0x0000_017E
  const CC_QUOTE: u32 := 0x0000_0158
  const CC_FLUSH_CONTEXT: u32 := 0x0000_0165
  const CC_CREATE_PRIMARY: u32 := 0x0000_0131
  const CC_ACTIVATE_CREDENTIAL: u32 := 0x0000_0147
  const CC_START_AUTH_SESSION: u32 := 0x0000_0176
  const CC_POLICY_SECRET: u32 := 0x0000_0151
  const CC_EVICT_CONTROL: u32 := 0x0000_0120
  const CC_READ_PUBLIC: u32 := 0x0000_0173
  const CC_NV_READ: u32 := 0x0000_014E
  const CC_NV_READ_PUBLIC: u32 := 0x0000_0169

  const ALG_RSA: u16 := 0x0001
  const ALG_AES: u16 := 0x0006
  const ALG_SHA256: u16 := 0x000B
  const ALG_NULL: u16 := 0x0010
  const ALG_RSASSA: u16 := 0x0014
  const ALG_CFB: u16 := 0x0043

  const RH_OWNER: u32 := 0x4000_0001
  const RH_NULL: u32 := 0x4000_0007
  const RS_PW: u32 := 0x4000_0009
  const RH_ENDORSEMENT: u32 := 0x4000_000B

  // ---- Structures ----

  datatype Auth = Auth(session: u32, nonce: bytes, attributes: byte, hmac: bytes)
  datatype Selection = Selection(hash: u16, bitmap: bytes)
  datatype Symmetric = NoSymmetric | SymmetricKey(alg: u16, keyBits: u16, mode: u16)
  datatype Scheme = NoScheme | HashScheme(alg: u16, hash: u16)

  /** TPMT_PUBLIC of an RSA key. */
  datatype Template = Template(
    nameAlg: u16, attributes: u32, authPolicy: bytes,
    symmetric: Symmetric, scheme: Scheme, keyBits: u16, exponent: u32, unique: bytes)

  /** Everything in a command but what its parameters mean. */
  datatype Frame = Frame(code: u32, handles: seq<u32>, auths: seq<Auth>, params: bytes)

  datatype Command =
    | PcrRead(selections: seq<Selection>)
    | Quote(signHandle: u32, auth: Auth, qualifyingData: bytes, scheme: Scheme, selections: seq<Selection>)
    | FlushContext(handle: u32)
    | CreatePrimary(hierarchy: u32, auth: Auth, userAuth: bytes, sensitiveData: bytes, template: Template,
                    outsideInfo: bytes, creationPcrs: seq<Selection>)
    | StartAuthSession(tpmKey: u32, bind: u32, nonce: bytes, salt: bytes, sessionType: byte, symmetric: Symmetric,
                       authHash: u16)
    | PolicySecret(authHandle: u32, policySession: u32, auth: Auth, nonceTpm: bytes, cpHash: bytes, policyRef: bytes,
                   expiration: u32)
    | ActivateCredential(activateHandle: u32, keyHandle: u32, akAuth: Auth, ekAuth: Auth, credentialBlob: bytes,
                         secret: bytes)
    | ReadPublic(handle: u32)
    | EvictControl(authHandle: u32, objectHandle: u32, auth: Auth, persistentHandle: u32)
    | NvReadPublic(index: u32)
    | NvRead(authHandle: u32, index: u32, auth: Auth, size: u16, offset: u16)

  // ---- The outer layout ----

  function HandleCount(code: u32): nat {
    if code in {CC_QUOTE, CC_CREATE_PRIMARY, CC_READ_PUBLIC, CC_NV_READ_PUBLIC} then 1
    else if code in {CC_START_AUTH_SESSION, CC_POLICY_SECRET, CC_ACTIVATE_CREDENTIAL, CC_EVICT_CONTROL, CC_NV_READ}
    then 2
    else 0
  }

  function TakeHandles(b: bytes, count: nat): (t: Option<Taken<seq<u32>>>)
    ensures t.Some? ==> |t.value.value| == count
  {
    if count == 0 then Some(Taken([], b)) else
    var h :- Take32(b);
    var hs :- TakeHandles(h.rest, count - 1);
    Some(Taken([h.value] + hs.value, hs.rest))
  }

  function TakeAuth(b: bytes): (t: Option<Taken<Auth>>)
    ensures t.Some? ==> |t.value.rest| < |b|
  {
    var session :- Take32(b);
    var nonce :- TakeFramed(session.rest);
    var attributes :- Take8(nonce.rest);
    var hmac :- TakeFramed(attributes.rest);
    Some(Taken(Auth(session.value, nonce.value, attributes.value, hmac.value), hmac.rest))
  }

  function TakeAuths(b: bytes): Option<seq<Auth>>
    decreases |b|
  {
    if b == [] then Some([]) else
    var a :- TakeAuth(b);
    var rest :- TakeAuths(a.rest);
    Some([a.value] + rest)
  }

  /** Tag, size and code; handles; the authorization area when the tag announces one; the rest is parameters. */
  function TakeFrame(b: bytes): Option<Frame> {
    var tag :- Take16(b);
    var size :- Take32(tag.rest);
    var code :- Take32(size.rest);
    var handles :- TakeHandles(code.rest, HandleCount(code.value));
    if size.value != |b| then None
    else if tag.value == ST_NO_SESSIONS then Some(Frame(code.value, handles.value, [], handles.rest))
    else if tag.value != ST_SESSIONS then None
    else
      var areaSize :- Take32(handles.rest);
      var area :- Take(areaSize.rest, areaSize.value);
      var auths :- TakeAuths(area.value);
      if auths == [] then None else Some(Frame(code.value, handles.value, auths, area.rest))
  }

  function HandleBytes(hs: seq<u32>): (b: bytes)
    ensures |b| == 4 * |hs|
  {
    if hs == [] then [] else U32(hs[0]) + HandleBytes(hs[1..])
  }

  predicate WellFormedAuth(a: Auth) {
    |a.nonce| < 0x1_0000 && |a.hmac| < 0x1_0000
  }

  function AuthBytes(a: Auth): bytes
    requires WellFormedAuth(a)
  {
    U32(a.session) + (Framed(a.nonce) + ([a.attributes] + Framed(a.hmac)))
  }

  function AuthArea(auths: seq<Auth>): bytes
    requires forall a | a in auths :: WellFormedAuth(a)
  {
    if auths == [] then [] else AuthBytes(auths[0]) + AuthArea(auths[1..])
  }

  predicate WellFormedFrame(f: Frame) {
    && |f.handles| == HandleCount(f.code)
    && (forall a | a in f.auths :: WellFormedAuth(a))
    && |FrameTail(f)| + 10 < 0x1_0000_0000
  }

  /** What follows the ten header bytes. */
  function FrameTail(f: Frame): bytes
    requires forall a | a in f.auths :: WellFormedAuth(a)
  {
    HandleBytes(f.handles)
    + ((if f.auths == [] then [] else U32(|AuthArea(f.auths)| % 0x1_0000_0000) + AuthArea(f.auths)) + f.params)
  }

  function FrameTag(f: Frame): u16 {
    if f.auths == [] then ST_NO_SESSIONS else ST_SESSIONS
  }

  function FrameBytes(f: Frame): bytes
    requires WellFormedFrame(f)
  {
    U16(FrameTag(f)) + (U32(|FrameTail(f)| + 10) + (U32(f.code) + FrameTail(f)))
  }

  lemma {:induction false} TakeHandlesOf(hs: seq<u32>, rest: bytes)
    ensures TakeHandles(HandleBytes(hs) + rest, |hs|) == Some(Taken(hs, rest))
  {
    hide Take32, U32;
    if hs == [] {
      assert HandleBytes(hs) + rest == rest;
    } else {
      assert HandleBytes(hs) + rest == U32(hs[0]) + (HandleBytes(hs[1..]) + rest);
      Take32Of(hs[0], HandleBytes(hs[1..]) + rest);
      TakeHandlesOf(hs[1..], rest);
      assert [hs[0]] + hs[1..] == hs;
    }
  }

  lemma TakeAuthOf(a: Auth, rest: bytes)
    requires WellFormedAuth(a)
    ensures TakeAuth(AuthBytes(a) + rest) == Some(Taken(a, rest))
  {
    hide U32, Framed, Take32, TakeFramed, Take8;
    var (hmac, attr) := (Framed(a.hmac) + rest, [a.attributes] + (Framed(a.hmac) + rest));
    var nonce := Framed(a.nonce) + attr;
    assert AuthBytes(a) + rest == U32(a.session) + nonce;
    Take32Of(a.session, nonce);
    TakeFramedOf(a.nonce, attr);
    Take8Of(a.attributes, hmac);
    TakeFramedOf(a.hmac, rest);
  }

  lemma {:induction false} TakeAuthsOf(auths: seq<Auth>)
    requires forall a | a in auths :: WellFormedAuth(a)
    ensures TakeAuths(AuthArea(auths)) == Some(auths)
  {
    hide TakeAuth, AuthBytes, WellFormedAuth;
    if auths != [] {
      assert auths[0] in auths;
      TakeAuthOf(auths[0], AuthArea(auths[1..]));
      TakeAuthsOf(auths[1..]);
      AuthIsSomething(auths[0]);
      assert [auths[0]] + auths[1..] == auths;
    }
  }

  lemma AuthIsSomething(a: Auth)
    requires WellFormedAuth(a)
    ensures |AuthBytes(a)| >= 9
  {
  }

  lemma TakeFrameOf(f: Frame)
    requires WellFormedFrame(f)
    ensures TakeFrame(FrameBytes(f)) == Some(f)
  {
    hide U16, U32, Take16, Take32, Take, TakeHandles, TakeAuths, AuthArea, HandleBytes, HandleCount, WellFormedAuth;
    var tail, area := FrameTail(f), AuthArea(f.auths);
    Take16Of(FrameTag(f), U32(|tail| + 10) + (U32(f.code) + tail));
    Take32Of(|tail| + 10, U32(f.code) + tail);
    Take32Of(f.code, tail);
    if f.auths == [] {
      assert tail == HandleBytes(f.handles) + f.params;
      TakeHandlesOf(f.handles, f.params);
    } else {
      var rest := U32(|area|) + (area + f.params);
      assert tail == HandleBytes(f.handles) + rest;
      TakeHandlesOf(f.handles, rest);
      Take32Of(|area|, area + f.params);
      TakeOf(area, f.params);
      TakeAuthsOf(f.auths);
    }
  }

  // ---- Parameter structures ----

  function TakeSymmetric(b: bytes): Option<Taken<Symmetric>> {
    var alg :- Take16(b);
    if alg.value == ALG_NULL then Some(Taken(NoSymmetric, alg.rest)) else
    var keyBits :- Take16(alg.rest);
    var mode :- Take16(keyBits.rest);
    Some(Taken(SymmetricKey(alg.value, keyBits.value, mode.value), mode.rest))
  }

  function TakeScheme(b: bytes): Option<Taken<Scheme>> {
    var alg :- Take16(b);
    if alg.value == ALG_NULL then Some(Taken(NoScheme, alg.rest)) else
    var hash :- Take16(alg.rest);
    Some(Taken(HashScheme(alg.value, hash.value), hash.rest))
  }

  function TakeSelection(b: bytes): Option<Taken<Selection>> {
    var hash :- Take16(b);
    var size :- Take8(hash.rest);
    var bitmap :- Take(size.rest, size.value);
    Some(Taken(Selection(hash.value, bitmap.value), bitmap.rest))
  }

  function TakeSelectionList(b: bytes, count: nat): Option<Taken<seq<Selection>>>
    decreases count
  {
    if count == 0 then Some(Taken([], b)) else
    var s :- TakeSelection(b);
    var ss :- TakeSelectionList(s.rest, count - 1);
    Some(Taken([s.value] + ss.value, ss.rest))
  }

  /** TPML_PCR_SELECTION. */
  function TakeSelections(b: bytes): Option<Taken<seq<Selection>>> {
    var count :- Take32(b);
    TakeSelectionList(count.rest, count.value)
  }

  /** The whole of a TPM2B_PUBLIC's contents. */
  function ReadTemplate(b: bytes): Option<Template> {
    var alg :- Take16(b);
    var nameAlg :- Take16(alg.rest);
    var attributes :- Take32(nameAlg.rest);
    var policy :- TakeFramed(attributes.rest);
    var symmetric :- TakeSymmetric(policy.rest);
    var scheme :- TakeScheme(symmetric.rest);
    var keyBits :- Take16(scheme.rest);
    var exponent :- Take32(keyBits.rest);
    var unique :- TakeFramed(exponent.rest);
    if alg.value != ALG_RSA || unique.rest != [] then None
    else Some(Template(nameAlg.value, attributes.value, policy.value, symmetric.value, scheme.value,
                       keyBits.value, exponent.value, unique.value))
  }

  function SymmetricBytes(s: Symmetric): bytes {
    match s
    case NoSymmetric => U16(ALG_NULL)
    case SymmetricKey(alg, keyBits, mode) => U16(alg) + (U16(keyBits) + U16(mode))
  }

  function SchemeBytes(s: Scheme): bytes {
    match s
    case NoScheme => U16(ALG_NULL)
    case HashScheme(alg, hash) => U16(alg) + U16(hash)
  }

  predicate WellFormedSymmetric(s: Symmetric) { s.SymmetricKey? ==> s.alg != ALG_NULL }
  predicate WellFormedScheme(s: Scheme) { s.HashScheme? ==> s.alg != ALG_NULL }

  function SelectionBytes(s: Selection): bytes
    requires |s.bitmap| < 0x100
  {
    U16(s.hash) + ([|s.bitmap|] + s.bitmap)
  }

  predicate WellFormedSelections(ss: seq<Selection>) {
    |ss| < 0x1_0000_0000 && forall s | s in ss :: |s.bitmap| < 0x100
  }

  function SelectionList(ss: seq<Selection>): bytes
    requires forall s | s in ss :: |s.bitmap| < 0x100
  {
    if ss == [] then [] else SelectionBytes(ss[0]) + SelectionList(ss[1..])
  }

  function SelectionsBytes(ss: seq<Selection>): bytes
    requires WellFormedSelections(ss)
  {
    U32(|ss|) + SelectionList(ss)
  }

  predicate WellFormedTemplate(t: Template) {
    |t.authPolicy| < 0x1_0000 && |t.unique| < 0x1_0000 && WellFormedSymmetric(t.symmetric) && WellFormedScheme(t.scheme)
  }

  function TemplateBytes(t: Template): bytes
    requires WellFormedTemplate(t)
  {
    U16(ALG_RSA) + (U16(t.nameAlg) + (U32(t.attributes) + (Framed(t.authPolicy)
    + (SymmetricBytes(t.symmetric)
    + (SchemeBytes(t.scheme) + (U16(t.keyBits) + (U32(t.exponent) + Framed(t.unique))))))))
  }

  lemma TakeSymmetricOf(s: Symmetric, rest: bytes)
    requires WellFormedSymmetric(s)
    ensures TakeSymmetric(SymmetricBytes(s) + rest) == Some(Taken(s, rest))
  {
    hide U16, Take16;
    match s
    case NoSymmetric => Take16Of(ALG_NULL, rest);
    case SymmetricKey(alg, keyBits, mode) =>
      assert SymmetricBytes(s) + rest == U16(alg) + (U16(keyBits) + (U16(mode) + rest));
      Take16Of(alg, U16(keyBits) + (U16(mode) + rest));
      Take16Of(keyBits, U16(mode) + rest);
      Take16Of(mode, rest);
  }

  lemma TakeSchemeOf(s: Scheme, rest: bytes)
    requires WellFormedScheme(s)
    ensures TakeScheme(SchemeBytes(s) + rest) == Some(Taken(s, rest))
  {
    hide U16, Take16;
    match s
    case NoScheme => Take16Of(ALG_NULL, rest);
    case HashScheme(alg, hash) =>
      assert SchemeBytes(s) + rest == U16(alg) + (U16(hash) + rest);
      Take16Of(alg, U16(hash) + rest);
      Take16Of(hash, rest);
  }

  lemma TakeSelectionOf(s: Selection, rest: bytes)
    requires |s.bitmap| < 0x100
    ensures TakeSelection(SelectionBytes(s) + rest) == Some(Taken(s, rest))
  {
    hide U16, Take16, Take8, Take;
    assert SelectionBytes(s) + rest == U16(s.hash) + ([|s.bitmap|] + (s.bitmap + rest));
    Take16Of(s.hash, [|s.bitmap|] + (s.bitmap + rest));
    Take8Of(|s.bitmap|, s.bitmap + rest);
    TakeOf(s.bitmap, rest);
  }

  lemma {:induction false} TakeSelectionListOf(ss: seq<Selection>, rest: bytes)
    requires forall s | s in ss :: |s.bitmap| < 0x100
    ensures TakeSelectionList(SelectionList(ss) + rest, |ss|) == Some(Taken(ss, rest))
  {
    hide TakeSelection, SelectionBytes;
    if ss == [] {
      assert SelectionList(ss) + rest == rest;
    } else {
      assert ss[0] in ss;
      assert SelectionList(ss) + rest == SelectionBytes(ss[0]) + (SelectionList(ss[1..]) + rest);
      TakeSelectionOf(ss[0], SelectionList(ss[1..]) + rest);
      TakeSelectionListOf(ss[1..], rest);
      assert [ss[0]] + ss[1..] == ss;
    }
  }

  lemma TakeSelectionsOf(ss: seq<Selection>, rest: bytes)
    requires WellFormedSelections(ss)
    ensures TakeSelections(SelectionsBytes(ss) + rest) == Some(Taken(ss, rest))
  {
    hide U32, Take32, TakeSelectionList, SelectionList;
    assert SelectionsBytes(ss) + rest == U32(|ss|) + (SelectionList(ss) + rest);
    Take32Of(|ss|, SelectionList(ss) + rest);
    TakeSelectionListOf(ss, rest);
  }

  lemma ReadTemplateOf(t: Template)
    requires WellFormedTemplate(t)
    ensures ReadTemplate(TemplateBytes(t)) == Some(t)
  {
    hide U16, U32, Framed, Take16, Take32, TakeFramed, TakeSymmetric, TakeScheme, SymmetricBytes, SchemeBytes;
    hide WellFormedSymmetric, WellFormedScheme;
    var unique := Framed(t.unique);
    var exponent := U32(t.exponent) + unique;
    var keyBits := U16(t.keyBits) + exponent;
    var scheme := SchemeBytes(t.scheme) + keyBits;
    var symmetric := SymmetricBytes(t.symmetric) + scheme;
    var policy := Framed(t.authPolicy) + symmetric;
    var attributes := U32(t.attributes) + policy;
    Take16Of(ALG_RSA, U16(t.nameAlg) + attributes);
    Take16Of(t.nameAlg, attributes);
    Take32Of(t.attributes, policy);
    TakeFramedOf(t.authPolicy, symmetric);
    TakeSymmetricOf(t.symmetric, scheme);
    TakeSchemeOf(t.scheme, keyBits);
    Take16Of(t.keyBits, exponent);
    Take32Of(t.exponent, unique);
    TakeFramedOf(t.unique, []);
    assert unique + [] == unique;
  }

  // ---- What a frame commands ----

  function ReadQuoteParams(f: Frame): Option<Command>
    requires |f.handles| == 1 && |f.auths| == 1
  {
    var data :- TakeFramed(f.params);
    var scheme :- TakeScheme(data.rest);
    var selections :- TakeSelections(scheme.rest);
    if selections.rest != [] then None
    else Some(Quote(f.handles[0], f.auths[0], data.value, scheme.value, selections.value))
  }

  function ReadCreateParams(f: Frame): Option<Command>
    requires |f.handles| == 1 && |f.auths| == 1
  {
    var sensitive :- TakeFramed(f.params);
    var userAuth :- TakeFramed(sensitive.value);
    var data :- TakeFramed(userAuth.rest);
    var public :- TakeFramed(sensitive.rest);
    var template :- ReadTemplate(public.value);
    var outside :- TakeFramed(public.rest);
    var pcrs :- TakeSelections(outside.rest);
    if data.rest != [] || pcrs.rest != [] then None
    else Some(CreatePrimary(f.handles[0], f.auths[0], userAuth.value, data.value, template, outside.value, pcrs.value))
  }

  function ReadStartParams(f: Frame): Option<Command>
    requires |f.handles| == 2
  {
    var nonce :- TakeFramed(f.params);
    var salt :- TakeFramed(nonce.rest);
    var sessionType :- Take8(salt.rest);
    var symmetric :- TakeSymmetric(sessionType.rest);
    var hash :- Take16(symmetric.rest);
    if hash.rest != [] then None
    else Some(StartAuthSession(f.handles[0], f.handles[1], nonce.value, salt.value, sessionType.value, symmetric.value,
                               hash.value))
  }

  function ReadPolicySecretParams(f: Frame): Option<Command>
    requires |f.handles| == 2 && |f.auths| == 1
  {
    var nonce :- TakeFramed(f.params);
    var cpHash :- TakeFramed(nonce.rest);
    var policyRef :- TakeFramed(cpHash.rest);
    var expiration :- Take32(policyRef.rest);
    if expiration.rest != [] then None
    else Some(PolicySecret(f.handles[0], f.handles[1], f.auths[0], nonce.value, cpHash.value, policyRef.value,
                           expiration.value))
  }

  function ReadActivateParams(f: Frame): Option<Command>
    requires |f.handles| == 2 && |f.auths| == 2
  {
    var blob :- TakeFramed(f.params);
    var secret :- TakeFramed(blob.rest);
    if secret.rest != [] then None
    else Some(ActivateCredential(f.handles[0], f.handles[1], f.auths[0], f.auths[1], blob.value, secret.value))
  }

  function ReadSelectionParams(f: Frame): Option<Command> {
    var selections :- TakeSelections(f.params);
    if selections.rest != [] then None else Some(PcrRead(selections.value))
  }

  function ReadFlushParams(f: Frame): Option<Command> {
    var handle :- Take32(f.params);
    if handle.rest != [] then None else Some(FlushContext(handle.value))
  }

  function ReadEvictParams(f: Frame): Option<Command>
    requires |f.handles| == 2 && |f.auths| == 1
  {
    var persistent :- Take32(f.params);
    if persistent.rest != [] then None
    else Some(EvictControl(f.handles[0], f.handles[1], f.auths[0], persistent.value))
  }

  function ReadNvReadParams(f: Frame): Option<Command>
    requires |f.handles| == 2 && |f.auths| == 1
  {
    var size :- Take16(f.params);
    var offset :- Take16(size.rest);
    if offset.rest != [] then None
    else Some(NvRead(f.handles[0], f.handles[1], f.auths[0], size.value, offset.value))
  }

  /** Authorizations a command takes. */
  function AuthCount(code: u32): nat {
    if code == CC_ACTIVATE_CREDENTIAL then 2
    else if code in {CC_QUOTE, CC_CREATE_PRIMARY, CC_POLICY_SECRET, CC_EVICT_CONTROL, CC_NV_READ} then 1
    else 0
  }

  function Interpret(f: Frame): Option<Command> {
    if |f.handles| != HandleCount(f.code) || |f.auths| != AuthCount(f.code) then None
    else if f.code == CC_PCR_READ then ReadSelectionParams(f)
    else if f.code == CC_QUOTE then ReadQuoteParams(f)
    else if f.code == CC_FLUSH_CONTEXT then ReadFlushParams(f)
    else if f.code == CC_CREATE_PRIMARY then ReadCreateParams(f)
    else if f.code == CC_START_AUTH_SESSION then ReadStartParams(f)
    else if f.code == CC_POLICY_SECRET then ReadPolicySecretParams(f)
    else if f.code == CC_ACTIVATE_CREDENTIAL then ReadActivateParams(f)
    else if f.code == CC_EVICT_CONTROL then ReadEvictParams(f)
    else if f.code == CC_NV_READ then ReadNvReadParams(f)
    else if f.params != [] then None
    else if f.code == CC_READ_PUBLIC then Some(ReadPublic(f.handles[0]))
    else if f.code == CC_NV_READ_PUBLIC then Some(NvReadPublic(f.handles[0]))
    else None
  }

  /** The operation a TPM takes a buffer to ask for. */
  function Decode(b: bytes): Option<Command> {
    var f :- TakeFrame(b);
    Interpret(f)
  }
}
