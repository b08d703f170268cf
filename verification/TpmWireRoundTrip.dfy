/** Every well-formed command survives its own encoding. */
module TpmWireRoundTrip {
  import opened Bytes
  import opened TpmWire

  predicate Short(b: bytes) { |b| < 0x1_0000 }

  /** The lengths fit the fields that announce them. */
  predicate WellFormed(c: Command) {
    (match c
     case PcrRead(ss) => WellFormedSelections(ss)
     case Quote(_, auth, data, scheme, ss) =>
       WellFormedAuth(auth) && Short(data) && WellFormedScheme(scheme) && WellFormedSelections(ss)
     case FlushContext(_) => true
     case CreatePrimary(_, auth, userAuth, data, template, outside, ss) =>
       WellFormedAuth(auth) && |userAuth| + |data| + 4 < 0x1_0000 && WellFormedTemplate(template)
       && Short(TemplateBytes(template)) && Short(outside) && WellFormedSelections(ss)
     case StartAuthSession(_, _, nonce, salt, _, symmetric, _) =>
       Short(nonce) && Short(salt) && WellFormedSymmetric(symmetric)
     case PolicySecret(_, _, auth, nonce, cpHash, policyRef, _) =>
       WellFormedAuth(auth) && Short(nonce) && Short(cpHash) && Short(policyRef)
     case ActivateCredential(_, _, akAuth, ekAuth, blob, secret) =>
       WellFormedAuth(akAuth) && WellFormedAuth(ekAuth) && Short(blob) && Short(secret)
     case ReadPublic(_) => true
     case EvictControl(_, _, auth, _) => WellFormedAuth(auth)
     case NvReadPublic(_) => true
     case NvRead(_, _, auth, _, _) => WellFormedAuth(auth))
  }

  function Params(c: Command): bytes
    requires WellFormed(c)
  {
    match c
    case PcrRead(ss) => SelectionsBytes(ss)
    case Quote(_, _, data, scheme, ss) => Framed(data) + (SchemeBytes(scheme) + SelectionsBytes(ss))
    case FlushContext(handle) => U32(handle)
    case CreatePrimary(_, _, userAuth, data, template, outside, ss) =>
      Framed(Framed(userAuth) + Framed(data))
      + (Framed(TemplateBytes(template)) + (Framed(outside) + SelectionsBytes(ss)))
    case StartAuthSession(_, _, nonce, salt, sessionType, symmetric, hash) =>
      Framed(nonce) + (Framed(salt) + ([sessionType] + (SymmetricBytes(symmetric) + U16(hash))))
    case PolicySecret(_, _, _, nonce, cpHash, policyRef, expiration) =>
      Framed(nonce) + (Framed(cpHash) + (Framed(policyRef) + U32(expiration)))
    case ActivateCredential(_, _, _, _, blob, secret) => Framed(blob) + Framed(secret)
    case ReadPublic(_) => []
    case EvictControl(_, _, _, persistent) => U32(persistent)
    case NvReadPublic(_) => []
    case NvRead(_, _, _, size, offset) => U16(size) + U16(offset)
  }

  function CommandFrame(c: Command): Frame
    requires WellFormed(c)
  {
    match c
    case PcrRead(_) => Frame(CC_PCR_READ, [], [], Params(c))
    case Quote(handle, auth, _, _, _) => Frame(CC_QUOTE, [handle], [auth], Params(c))
    case FlushContext(_) => Frame(CC_FLUSH_CONTEXT, [], [], Params(c))
    case CreatePrimary(hierarchy, auth, _, _, _, _, _) => Frame(CC_CREATE_PRIMARY, [hierarchy], [auth], Params(c))
    case StartAuthSession(key, bind, _, _, _, _, _) => Frame(CC_START_AUTH_SESSION, [key, bind], [], Params(c))
    case PolicySecret(handle, session, auth, _, _, _, _) =>
      Frame(CC_POLICY_SECRET, [handle, session], [auth], Params(c))
    case ActivateCredential(ak, ek, akAuth, ekAuth, _, _) =>
      Frame(CC_ACTIVATE_CREDENTIAL, [ak, ek], [akAuth, ekAuth], Params(c))
    case ReadPublic(handle) => Frame(CC_READ_PUBLIC, [handle], [], Params(c))
    case EvictControl(owner, key, auth, _) => Frame(CC_EVICT_CONTROL, [owner, key], [auth], Params(c))
    case NvReadPublic(index) => Frame(CC_NV_READ_PUBLIC, [index], [], Params(c))
    case NvRead(handle, index, auth, _, _) => Frame(CC_NV_READ, [handle, index], [auth], Params(c))
  }

  lemma QuoteParams(c: Command)
    requires c.Quote? && WellFormed(c)
    ensures ReadQuoteParams(CommandFrame(c)) == Some(c)
  {
    hide Framed, TakeFramed, SchemeBytes, TakeScheme, SelectionsBytes;
    hide TakeSelections, WellFormedSelections, WellFormedScheme;
    var ss := SelectionsBytes(c.selections);
    TakeFramedOf(c.qualifyingData, SchemeBytes(c.scheme) + ss);
    TakeSchemeOf(c.scheme, ss);
    TakeSelectionsOf(c.selections, []);
    assert ss + [] == ss;
  }

  lemma CreateParams(c: Command)
    requires c.CreatePrimary? && WellFormed(c)
    ensures ReadCreateParams(CommandFrame(c)) == Some(c)
  {
    hide Framed, TakeFramed, ReadTemplate, TemplateBytes, SelectionsBytes;
    hide TakeSelections, WellFormedSelections, WellFormedTemplate;
    var (ss, data) := (SelectionsBytes(c.creationPcrs), Framed(c.sensitiveData));
    var outside := Framed(c.outsideInfo) + ss;
    var template := Framed(TemplateBytes(c.template)) + outside;
    TakeFramedOf(Framed(c.userAuth) + data, template);
    TakeFramedOf(c.userAuth, data);
    TakeFramedOf(c.sensitiveData, []);
    TakeFramedOf(TemplateBytes(c.template), outside);
    ReadTemplateOf(c.template);
    TakeFramedOf(c.outsideInfo, ss);
    TakeSelectionsOf(c.creationPcrs, []);
    assert ss + [] == ss && data + [] == data;
  }

  lemma StartParams(c: Command)
    requires c.StartAuthSession? && WellFormed(c)
    ensures ReadStartParams(CommandFrame(c)) == Some(c)
  {
    hide Framed, TakeFramed, SymmetricBytes, TakeSymmetric, U16, Take16, Take8, WellFormedSymmetric;
    var hash := U16(c.authHash);
    var symmetric := SymmetricBytes(c.symmetric) + hash;
    TakeFramedOf(c.nonce, Framed(c.salt) + ([c.sessionType] + symmetric));
    TakeFramedOf(c.salt, [c.sessionType] + symmetric);
    Take8Of(c.sessionType, symmetric);
    TakeSymmetricOf(c.symmetric, hash);
    Take16Of(c.authHash, []);
    assert hash + [] == hash;
  }

  lemma PolicySecretParams(c: Command)
    requires c.PolicySecret? && WellFormed(c)
    ensures ReadPolicySecretParams(CommandFrame(c)) == Some(c)
  {
    hide Framed, TakeFramed, U32, Take32;
    var expiration := U32(c.expiration);
    TakeFramedOf(c.nonceTpm, Framed(c.cpHash) + (Framed(c.policyRef) + expiration));
    TakeFramedOf(c.cpHash, Framed(c.policyRef) + expiration);
    TakeFramedOf(c.policyRef, expiration);
    Take32Of(c.expiration, []);
    assert expiration + [] == expiration;
  }

  lemma ActivateParams(c: Command)
    requires c.ActivateCredential? && WellFormed(c)
    ensures ReadActivateParams(CommandFrame(c)) == Some(c)
  {
    hide Framed, TakeFramed;
    TakeFramedOf(c.credentialBlob, Framed(c.secret));
    TakeFramedOf(c.secret, []);
    assert Framed(c.secret) + [] == Framed(c.secret);
  }

  lemma PcrParams(c: Command)
    requires c.PcrRead? && WellFormed(c)
    ensures ReadSelectionParams(CommandFrame(c)) == Some(c)
  {
    hide SelectionsBytes, TakeSelections, WellFormedSelections;
    TakeSelectionsOf(c.selections, []);
    assert SelectionsBytes(c.selections) + [] == SelectionsBytes(c.selections);
  }

  lemma WordParams(v: u32)
    ensures Take32(U32(v)) == Some(Taken(v, []))
  {
    hide U32, Take32;
    Take32Of(v, []);
    assert U32(v) + [] == U32(v);
  }

  lemma NvReadParams(c: Command)
    requires c.NvRead? && WellFormed(c)
    ensures ReadNvReadParams(CommandFrame(c)) == Some(c)
  {
    hide U16, Take16;
    Take16Of(c.size, U16(c.offset));
    Take16Of(c.offset, []);
    assert U16(c.offset) + [] == U16(c.offset);
  }

  lemma InterpretOf(c: Command)
    requires WellFormed(c)
    ensures Interpret(CommandFrame(c)) == Some(c)
    ensures |CommandFrame(c).handles| == HandleCount(CommandFrame(c).code)
    ensures forall a | a in CommandFrame(c).auths :: WellFormedAuth(a)
  {
    hide ReadQuoteParams, ReadCreateParams, ReadStartParams, ReadPolicySecretParams;
    hide ReadActivateParams, ReadSelectionParams, ReadNvReadParams;
    hide Params, Take32, WellFormedAuth, WellFormedSelections, WellFormedTemplate, TemplateBytes;
    match c
    case PcrRead(_) => PcrParams(c);
    case Quote(_, _, _, _, _) => QuoteParams(c);
    case FlushContext(handle) => FlushParams(handle);
    case CreatePrimary(_, _, _, _, _, _, _) => CreateParams(c);
    case StartAuthSession(_, _, _, _, _, _, _) => StartParams(c);
    case PolicySecret(_, _, _, _, _, _, _) => PolicySecretParams(c);
    case ActivateCredential(_, _, _, _, _, _) => ActivateParams(c);
    case ReadPublic(_) => NoParams(c);
    case EvictControl(_, _, _, persistent) => EvictParams(c);
    case NvReadPublic(_) => NoParams(c);
    case NvRead(_, _, _, _, _) => NvReadParams(c);
  }

  lemma FlushParams(handle: u32)
    ensures Params(FlushContext(handle)) == U32(handle) && Take32(U32(handle)) == Some(Taken(handle, []))
  {
    WordParams(handle);
  }

  lemma EvictParams(c: Command)
    requires c.EvictControl? && WellFormed(c)
    ensures Params(c) == U32(c.persistentHandle)
    ensures Take32(U32(c.persistentHandle)) == Some(Taken(c.persistentHandle, []))
  {
    WordParams(c.persistentHandle);
  }

  lemma NoParams(c: Command)
    requires c.ReadPublic? || c.NvReadPublic?
    ensures Params(c) == []
  {
  }

  /** The whole command fits its 32-bit size field. */
  predicate Fits(c: Command)
    requires WellFormed(c)
  {
    WellFormedFrame(CommandFrame(c))
  }

  function Encode(c: Command): bytes
    requires WellFormed(c) && Fits(c)
  {
    FrameBytes(CommandFrame(c))
  }

  /** A TPM decodes an encoded command to that command. */
  lemma DecodeOfEncode(c: Command)
    requires WellFormed(c) && Fits(c)
    ensures Decode(Encode(c)) == Some(c)
  {
    hide FrameBytes, TakeFrame, Interpret, CommandFrame, WellFormed;
    TakeFrameOf(CommandFrame(c));
    InterpretOf(c);
  }
}
