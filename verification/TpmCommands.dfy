/** The TpmCommands class of src/tpm/tpm_commands.cpp over the device: what each method sends, changes and returns. */
module TpmCommands {
  import opened Bytes
  import opened TpmWire
  import opened TpmMarshal
  import opened TpmCommandBytes
  import opened TpmDevice
  import opened TpmReplies
  import opened PcrBitmap
  import opened IntelChain

  // ---- HRESULTs ----

  type HResult = u32

  const S_OK: HResult := 0
  const E_FAIL: HResult := 0x8000_4005
  const RH_E_MALFORMED_RESPONSE: HResult := 0x8007_000D
  const RH_E_NOT_OPEN: HResult := 0x8007_139F

  predicate Failed(hr: HResult) { hr >= 0x8000_0000 }

  /** A response code widened into FACILITY_TPM_SOFTWARE. */
  function HrFromTpmRc(rc: u32): (hr: HResult)
    ensures Failed(hr) <==> rc != 0
    ensures hr == S_OK <==> rc == 0
  {
    if rc == 0 then S_OK else 0x8029_0000 + rc % 0x1_0000
  }

  // ---- Effects, on device states ----

  function Flushed(s: State, ctx: nat, handle: u32): State
    requires ctx in s.contexts
  {
    After(s, ctx, FlushContext(handle), Refused)
  }

  function FlushLost(s: State, ctx: nat, handle: u32): State {
    Unperformed(s, ctx, Some(FlushContext(handle)))
  }

  /** The handle is flushed, or the refusal is noted and the handle, if it is live, lost. */
  ghost predicate FlushTried(s: State, ctx: nat, handle: u32, s': State, t: Tally, t': Tally) {
    ctx in s.contexts
    && if t' == t then s' == Flushed(s, ctx, handle)
       else t' == t.(flushes := t.flushes + 1) && s' == FlushLost(s, ctx, handle)
  }

  function Minted(s: State, ctx: nat, handle: u32, key: Key): State
    requires ctx in s.contexts
  {
    WithContext(s, ctx, s.contexts[ctx].(transients := s.contexts[ctx].transients[handle := key]))
  }

  /** A key as TPM2_CreatePrimary makes it. */
  predicate IsPrimary(k: Key, hierarchy: u32, template: Template) {
    k.hierarchy == hierarchy && k.template == template && 0 < |k.public| < MAX_REPLY
  }

  /** One session more, opened here, whose flush was refused. */
  ghost predicate SessionLost(before: Context, session: u32, after: Context) {
    && IsSessionHandle(session) && session !in before.sessions
    && after.transients == before.transients && after.lostObjects == before.lostObjects
    && after.lostSessions == before.lostSessions + {session}
    && after.sessions.Keys == before.sessions.Keys + {session} && after.sessions - {session} == before.sessions
  }

  /** A new primary key, and nothing else. */
  ghost predicate CreatedKey(s: State, ctx: nat, handle: u32, hierarchy: u32, template: Template, s': State) {
    && ctx in s.contexts && ctx in s'.contexts
    && IsTransientHandle(handle) && handle !in s.contexts[ctx].transients && handle in s'.contexts[ctx].transients
    && IsPrimary(s'.contexts[ctx].transients[handle], hierarchy, template)
    && s' == Minted(s, ctx, handle, s'.contexts[ctx].transients[handle])
  }

  lemma StepFlush(chip: Chip, s: State, ctx: nat, handle: u32, a: Answer, s': State, t: Tally, t': Tally)
    requires ctx in s.contexts && Step(chip, s, ctx, Some(FlushContext(handle)), a, s')
    requires t' == if a.Refused? then Noted(t, s, ctx, Some(FlushContext(handle))) else t
    ensures FlushTried(s, ctx, handle, s', t, t')
    ensures Sound(s.contexts[ctx]) ==> ctx in s'.contexts && Sound(s'.contexts[ctx])
  {
  }

  lemma StepCreate(chip: Chip, s: State, ctx: Option<nat>, hierarchy: u32, template: Template, a: Answer, s': State)
    requires ctx.Some? ==> Step(chip, s, ctx.value, Some(CreateOf(hierarchy, template)), a, s')
    requires ctx == None ==> a == Refused && s' == s
    ensures !Activates(Some(CreateOf(hierarchy, template)))
    ensures forall t: Tally, c: nat :: Noted(t, s, c, Some(CreateOf(hierarchy, template))) == Blamed(t, true)
    ensures a.Refused? ==> s' == s
    ensures !a.Refused? ==>
      && a.Created? && Small(a) && a.public != [] && ctx.Some?
      && CreatedKey(s, ctx.value, a.handle, hierarchy, template, s')
      && s'.contexts[ctx.value].transients[a.handle].public == a.public
  {
  }

  lemma CreatedIsSound(s: State, ctx: nat, handle: u32, hierarchy: u32, template: Template, s': State)
    requires CreatedKey(s, ctx, handle, hierarchy, template, s') && Sound(s.contexts[ctx])
    ensures Sound(s'.contexts[ctx])
  {
  }

  lemma ProbeNoted(t: Tally, s: State, ctx: nat, handle: u32)
    requires ctx in s.contexts
    ensures Noted(t, s, ctx, Some(ReadPublic(handle)))
         == if KeyAt(s, ctx, handle).Some? then t.(probes := t.probes + 1) else t
  {
  }

  lemma StepReadPublic(chip: Chip, s: State, ctx: nat, handle: u32, a: Answer, s': State)
    requires Step(chip, s, ctx, Some(ReadPublic(handle)), a, s')
    ensures s' == s && (a.Refused? || a.Done?)
    ensures !a.Refused? ==> ctx in s.contexts && KeyAt(s, ctx, handle).Some?
  {
  }

  lemma StepEvict(chip: Chip, s: State, ctx: nat, key: u32, slot: u32, a: Answer, s': State)
    requires Step(chip, s, ctx, Some(EvictOf(key, slot)), a, s')
    ensures !Activates(Some(EvictOf(key, slot)))
    ensures forall t: Tally :: Noted(t, s, ctx, Some(EvictOf(key, slot))) == Blamed(t, true)
    ensures a.Refused? ==> s' == s
    ensures !a.Refused? ==> a.Done? && IsOwnerPersistentHandle(slot) && ctx in s.contexts
    ensures !a.Refused? && IsTransientHandle(key) ==>
      key in s.contexts[ctx].transients && s' == s.(persistent := s.persistent[slot := s.contexts[ctx].transients[key]])
    ensures !a.Refused? && !IsTransientHandle(key) ==>
      key == slot && slot in s.persistent && s' == s.(persistent := s.persistent - {slot})
  {
  }

  lemma StepStart(chip: Chip, s: State, ctx: nat, a: Answer, s': State)
    requires Step(chip, s, ctx, Some(StartOf()), a, s')
    ensures !Activates(Some(StartOf()))
    ensures forall t: Tally :: Noted(t, s, ctx, Some(StartOf())) == Blamed(t, true)
    ensures a.Refused? ==> s' == s
    ensures !a.Refused? ==>
      && a.Started? && ctx in s.contexts && IsSessionHandle(a.handle) && a.handle !in s.contexts[ctx].sessions
      && s' == SessionSet(s, ctx, a.handle, false)
  {
    hide SessionNonce;
  }

  function SessionSet(s: State, ctx: nat, session: u32, satisfied: bool): State
    requires ctx in s.contexts
  {
    WithContext(s, ctx, s.contexts[ctx].(sessions := s.contexts[ctx].sessions[session := satisfied]))
  }

  lemma StepPolicySecret(chip: Chip, s: State, ctx: nat, session: u32, a: Answer, s': State)
    requires ctx in s.contexts && Step(chip, s, ctx, Some(PolicySecretOf(session)), a, s')
    ensures !Activates(Some(PolicySecretOf(session)))
    ensures forall t: Tally :: Noted(t, s, ctx, Some(PolicySecretOf(session))) == Blamed(t, true)
    ensures a.Refused? ==> s' == s
    ensures !a.Refused? ==> a.Done? && session in s.contexts[ctx].sessions && s' == SessionSet(s, ctx, session, true)
  {
  }

  lemma StepPcrRead(chip: Chip, s: State, ctx: nat, pcr: u32, a: Answer, s': State)
    requires Step(chip, s, ctx, Some(PcrReadOf(pcr)), a, s')
    ensures forall t: Tally :: Noted(t, s, ctx, Some(PcrReadOf(pcr))) == Blamed(t, true)
    ensures s' == s
    ensures !a.Refused? ==>
      && a.Digested?
      && var pcrs := chip.pcrs(a.moment); a.digests == if pcr < PCR_COUNT && pcr in pcrs then [pcrs[pcr]] else []
  {
    forall i: nat ensures Selects(BitmapOf([pcr]), i) <==> i == pcr && i < PCR_COUNT { BitmapOfSelects([pcr], i); }
    hide BitmapOf, Selects;
    if a.Digested? { OneDigest(BitmapOf([pcr]), chip.pcrs(a.moment), 0, pcr); }
  }

  lemma {:induction false} OneDigest(bitmap: bytes, pcrs: Pcrs, from: nat, pcr: nat)
    requires |bitmap| == SELECT_BYTES && from <= PCR_COUNT
    requires forall i: nat :: Selects(bitmap, i) <==> i == pcr && i < PCR_COUNT
    ensures SelectedDigests(bitmap, pcrs, from) == if from <= pcr < PCR_COUNT && pcr in pcrs then [pcrs[pcr]] else []
    decreases PCR_COUNT - from
  {
    hide Selects;
    if from < PCR_COUNT { OneDigest(bitmap, pcrs, from + 1, pcr); }
  }

  lemma StepQuote(chip: Chip, s: State, ctx: nat, handle: u32, nonce: bytes, pcrs: seq<u32>, a: Answer, s': State)
    requires Step(chip, s, ctx, QuoteRequest(handle, nonce, pcrs), a, s')
    ensures forall t: Tally :: Noted(t, s, ctx, QuoteRequest(handle, nonce, pcrs)) == Blamed(t, true)
    ensures s' == s
    ensures !a.Refused? ==>
      && a.Attested? && ctx in s.contexts && QuoteRequest(handle, nonce, pcrs).Some?
      && IsQuoteOf(chip, a.moment, s, ctx, QuoteRequest(handle, nonce, pcrs).value, a.attest,
                   a.signature + a.authArea, a.authArea)
  {
    hide QuoteRequest, BitmapOf, IsReplyArea;
    QuoteRequestQuotes(handle, nonce, pcrs);
    if !a.Refused? { AreaIsSomething(a.authArea); }
  }

  lemma AreaIsSomething(area: bytes)
    requires IsReplyArea(area, 1)
    ensures area != []
  {
  }

  lemma QuoteRequestQuotes(handle: u32, nonce: bytes, pcrs: seq<u32>)
    ensures QuoteRequest(handle, nonce, pcrs).Some? ==> QuoteRequest(handle, nonce, pcrs).value.Quote?
  {
    QuoteTakesFront(handle, nonce, pcrs);
    hide QuoteRequest;
  }

  /**
   * The chip's attestation of what the command asks for, over what the PCRs held at that moment, and its signature
   * with the reply's authorization area, which is never empty, behind it.
   */
  ghost predicate IsQuoteOf(chip: Chip, moment: nat, s: State, ctx: nat, c: Command, quoted: bytes, signature: bytes,
                            area: bytes)
    requires ctx in s.contexts
  {
    && c.Quote? && KeyAt(s, ctx, c.signHandle).Some?
    && quoted == chip.attest(KeyAt(s, ctx, c.signHandle).value, c.qualifyingData, c.scheme, c.selections,
                             QuotedDigests(c.selections, chip.pcrs(moment)))
    && signature == chip.sign(KeyAt(s, ctx, c.signHandle).value, quoted) + area
    && area != [] && IsReplyArea(area, 1)
  }

  function Contents(nv: map<u32, bytes>, index: u32): bytes {
    if index in nv then nv[index] else []
  }

  /** Read as it is, or withheld and read as nothing. */
  predicate ReadAs(nv: map<u32, bytes>, withheld: set<u32>, index: u32, data: bytes) {
    data == Contents(nv, index) || (data == [] && index in withheld)
  }

  /** The sixteen slots of the on-die chain, as they were read. */
  predicate SlotsRead(nv: map<u32, bytes>, withheld: set<u32>, slots: seq<bytes>) {
    |slots| == 16 && forall i | 0 <= i < 16 :: ReadAs(nv, withheld, ODCA_BASE + i, slots[i])
  }

  lemma StepNvPublic(chip: Chip, s: State, ctx: nat, index: u32, a: Answer, s': State)
    requires Step(chip, s, ctx, Some(NvReadPublic(index)), a, s')
    ensures forall t: Tally ::
      Noted(t, s, ctx, Some(NvReadPublic(index)))
      == if index in s.nv then t.(withheld := t.withheld + {index}) else t
    ensures s' == s
    ensures !a.Refused? ==> a.NvDescribed? && index in s.nv && a.dataSize == |s.nv[index]|
  {
  }

  lemma StepNvRead(chip: Chip, s: State, ctx: nat, index: u32, size: u16, offset: u16, a: Answer, s': State)
    requires Step(chip, s, ctx, Some(NvReadOf(index, size, offset)), a, s')
    ensures !Activates(Some(NvReadOf(index, size, offset)))
    ensures forall t: Tally ::
      Noted(t, s, ctx, Some(NvReadOf(index, size, offset)))
      == if index in s.nv then t.(withheld := t.withheld + {index}) else t
    ensures s' == s
    ensures !a.Refused? ==>
      && a.NvContents? && index in s.nv
      && 0 < |a.data| <= size && offset + |a.data| <= |s.nv[index]|
      && a.data == s.nv[index][offset..offset + |a.data|]
  {
  }

  /** The secret a challenge yields on this chip, if its two blobs are TPM2B-framed as they came. */
  ghost predicate Unseals(chip: Chip, ak: Key, ek: Key, credentialBlob: bytes, encryptedSecret: bytes, secret: bytes) {
    exists blob: bytes, sealed: bytes :: |blob| < 0x1_0000 && |sealed| < 0x1_0000
      && credentialBlob + encryptedSecret == Framed(blob) + Framed(sealed)
      && chip.unseal(ak, ek, blob, sealed) == Some(secret)
  }

  lemma StepActivate(chip: Chip, s: State, ctx: nat, ak: u32, ek: u32, session: u32,
                     credentialBlob: bytes, encryptedSecret: bytes, a: Answer, s': State)
    requires ctx in s.contexts
    requires Step(chip, s, ctx, ActivateRequest(ak, ek, session, credentialBlob, encryptedSecret), a, s')
    ensures forall t: Tally ::
      Noted(t, s, ctx, ActivateRequest(ak, ek, session, credentialBlob, encryptedSecret)) == Blamed(t, true)
    ensures a.Refused? ==> s' == s
    ensures !a.Refused? ==>
      && a.Recovered? && session in s.contexts[ctx].sessions && s.contexts[ctx].sessions[session]
      && ak in s.contexts[ctx].transients && ek in s.contexts[ctx].transients
      && s' == SessionSet(s, ctx, session, false)
      && Unseals(chip, s.contexts[ctx].transients[ak], s.contexts[ctx].transients[ek], credentialBlob, encryptedSecret,
                 a.secret)
  {
    var c := ActivateRequest(ak, ek, session, credentialBlob, encryptedSecret);
    ActivateParts(ak, ek, session, credentialBlob, encryptedSecret);
    hide ActivateRequest, Framed;
    if !a.Refused? {
      assert c.value.akAuth == PASSWORD && KeepsSession(c.value.ekAuth);
      assert Unseals(chip, s.contexts[ctx].transients[ak], s.contexts[ctx].transients[ek], credentialBlob,
                     encryptedSecret, a.secret);
    }
  }

  lemma ActivateParts(ak: u32, ek: u32, session: u32, credentialBlob: bytes, encryptedSecret: bytes)
    ensures var c := ActivateRequest(ak, ek, session, credentialBlob, encryptedSecret);
      c.Some? ==>
        && c.value.ActivateCredential?
        && |c.value.credentialBlob| < 0x1_0000 && |c.value.secret| < 0x1_0000
        && c.value == ActivateOf(ak, ek, session, c.value.credentialBlob, c.value.secret)
        && credentialBlob + encryptedSecret == Framed(c.value.credentialBlob) + Framed(c.value.secret)
  {
    var f := ActivateFrame(ak, ek, session, credentialBlob, encryptedSecret);
    InterpretActivate(f);
    FramedPairRead(f.params);
    hide Interpret, Framed, TakeFramed, Unsized;
  }

  function SlotCleared(s: State, slot: u32): State {
    s.(persistent := s.persistent - {slot})
  }

  /** One more session is open than before, and nothing else is different. */
  ghost predicate Using(before: State, ctx: nat, session: u32, s: State) {
    && ctx in before.contexts && ctx in s.contexts
    && s == WithContext(before, ctx, s.contexts[ctx])
    && s.contexts[ctx] == before.contexts[ctx].(sessions := s.contexts[ctx].sessions)
    && session in s.contexts[ctx].sessions && s.contexts[ctx].sessions - {session} == before.contexts[ctx].sessions
  }

  lemma StartUses(s: State, ctx: nat, session: u32)
    requires ctx in s.contexts && session !in s.contexts[ctx].sessions
    ensures Using(s, ctx, session, SessionSet(s, ctx, session, false))
  {
    var c := s.contexts[ctx];
    assert c.sessions[session := false] - {session} == c.sessions;
  }

  lemma SetKeepsUsing(before: State, ctx: nat, session: u32, s: State, satisfied: bool)
    requires Using(before, ctx, session, s)
    ensures Using(before, ctx, session, SessionSet(s, ctx, session, satisfied))
    ensures s.contexts[ctx].transients == before.contexts[ctx].transients
  {
    var c := s.contexts[ctx];
    assert c.sessions[session := satisfied] - {session} == c.sessions - {session};
  }

  /** Open a session, use it, and flush it, or try to. */
  lemma SessionRound(before: Context, session: u32, used: Context)
    requires Sound(before) && IsSessionHandle(session) && session !in before.sessions
    requires used == before.(sessions := used.sessions) && session in used.sessions
    requires used.sessions - {session} == before.sessions
    ensures FlushedFrom(used, session) == before
    ensures SessionLost(before, session, LostFrom(used, session))
  {
    assert session !in before.transients && session !in before.lostSessions && session !in before.lostObjects;
    assert before.transients - {session} == before.transients;
    assert before.lostObjects - {session} == before.lostObjects;
    assert before.lostSessions - {session} == before.lostSessions;
    assert used.sessions.Keys == before.sessions.Keys + {session};
    assert before.lostObjects + {} == before.lostObjects;
  }

  /** Two changes to one context are one. */
  lemma SameContexts(s: State, ctx: nat, s1: State, s2: State)
    requires ctx in s.contexts && ctx in s1.contexts && ctx in s2.contexts
    requires s1 == WithContext(s, ctx, s1.contexts[ctx]) && s2 == WithContext(s1, ctx, s2.contexts[ctx])
    ensures s2 == WithContext(s, ctx, s2.contexts[ctx])
    ensures s2.contexts[ctx] == s.contexts[ctx] ==> s2 == s
  {
    assert s2.contexts == s.contexts[ctx := s2.contexts[ctx]];
    assert s2.contexts[ctx] == s.contexts[ctx] ==> s2.contexts == s.contexts;
  }

  const ODCA_BASE := 0x01C0_0100

  /** Every request asks for at most 1024 bytes, inside the index. */
  ghost predicate ReadsInside(requests: seq<Option<Command>>, index: u32, size: nat) {
    forall i | 0 <= i < |requests| ::
      exists want: u16, offset: u16 ::
        requests[i] == Some(NvReadOf(index, want, offset)) && 0 < want <= 1024 && offset + want <= size
  }

  /** The four commands of a successful activation. */
  function Conversation(ak: u32, ek: u32, session: u32, credentialBlob: bytes, encryptedSecret: bytes)
    : seq<Option<Command>>
  {
    [Some(StartOf()), Some(PolicySecretOf(session)), ActivateRequest(ak, ek, session, credentialBlob, encryptedSecret),
     Some(FlushContext(session))]
  }

  class TpmCommands {
    const tpm: Tpm
    var context: Option<nat>

    constructor (tpm: Tpm)
      ensures this.tpm == tpm && context == None
    {
      this.tpm, context := tpm, None;
    }

    ghost predicate Valid()
      reads this, tpm
    {
      context.Some? ==> context.value in tpm.state.contexts && Sound(tpm.state.contexts[context.value])
    }

    method Open() returns (hr: HResult)
      requires Valid()
      modifies this, tpm`state, tpm`tally
      ensures Valid() && (hr == S_OK || Failed(hr)) && (hr == S_OK ==> context.Some?)
      ensures tpm.tally == Blamed(old(tpm.tally), hr != S_OK)
      ensures old(context).Some? ==> hr == S_OK && context == old(context) && tpm.state == old(tpm.state)
      ensures old(context) == None && hr != S_OK ==> context == None && tpm.state == old(tpm.state)
      ensures old(context) == None && hr == S_OK ==>
        context.value !in old(tpm.state).contexts
        && tpm.state == WithContext(old(tpm.state), context.value, EMPTY_CONTEXT)
    {
      if context.Some? { return S_OK; }
      var result, id := tpm.OpenContext();
      if result != 0 { return result; }
      context := Some(id);
      return S_OK;
    }

    method Close()
      modifies this, tpm`state
      ensures context == None
      ensures tpm.state == if old(context) == None then old(tpm.state)
        else old(tpm.state).(contexts := old(tpm.state).contexts - {old(context).value})
    {
      if context.Some? { tpm.CloseContext(context.value); }
      context := None;
    }

    /** Patches the size into the buffer, submits it, and hands back the reply. */
    method SendCommand(command: ByteVector) returns (hr: HResult, response: bytes, ghost a: Answer)
      modifies command, tpm
      ensures command.data == if old(context) == None then old(command.data) else Sized(old(command.data))
      ensures context == None ==>
        hr == RH_E_NOT_OPEN && response == [] && a == Refused && tpm.state == old(tpm.state) && tpm.log == old(tpm.log)
      ensures context.Some? ==>
        && tpm.log == old(tpm.log) + [Decode(Sized(old(command.data)))]
        && Step(tpm.chip, old(tpm.state), context.value, Decode(Sized(old(command.data))), a, tpm.state)
        && Timely(a, |old(tpm.log)|)
        && tpm.tally ==
             if a.Refused? then Noted(old(tpm.tally), old(tpm.state), context.value, Decode(Sized(old(command.data))))
             else old(tpm.tally)
      ensures context == None ==> tpm.tally == old(tpm.tally)
      ensures hr != 0 ==> response == []
      ensures if a.Refused? then hr != 0 || ReportsFailure(response)
        else context.Some? && Small(a) && hr == 0 && response == Reply(a)
    {
      hide U32, Decode, Performs, After, ReportsFailure, Reply, Small;
      a := Refused;
      if context == None { return RH_E_NOT_OPEN, [], a; }
      if |command.data| >= 6 {
        var size := |command.data| % 0x1_0000_0000;
        PatchedSize(command.data, size);
        command.data := command.data[2 := U32(size)[0]];
        command.data := command.data[3 := U32(size)[1]];
        command.data := command.data[4 := U32(size)[2]];
        command.data := command.data[5 := U32(size)[3]];
      }
      var result, reply;
      result, reply, a := tpm.Submit(context.value, command.data);
      if result != 0 { return result, [], a; }
      return S_OK, reply, a;
    }

    method FlushContext(handle: u32) returns (hr: HResult)
      requires Valid()
      modifies tpm
      ensures Valid()
      ensures Quiet(old(tpm.log), tpm.log)
      ensures context == None ==> tpm.state == old(tpm.state) && tpm.log == old(tpm.log) && tpm.tally == old(tpm.tally)
      ensures context.Some? ==> tpm.log == old(tpm.log) + [Some(TpmWire.FlushContext(handle))]
      ensures context.Some? ==> FlushTried(old(tpm.state), context.value, handle, tpm.state, old(tpm.tally), tpm.tally)
    {
      hide Sized, Decode, Reply, Performs, After, Step, Noted, FlushTried;
      var cmd := FlushCommand(handle);
      var resp;
      ghost var a;
      hr, resp, a := SendCommand(cmd);
      if context.Some? {
        StepFlush(tpm.chip, old(tpm.state), context.value, handle, a, tpm.state, old(tpm.tally), tpm.tally);
      }
    }

    /** One CreatePrimary: on success a handle is live in the context, and only then. */
    method CreateEk() returns (hr: HResult, handle: u32)
      requires Valid()
      modifies tpm
      ensures Valid() && (hr == S_OK || Failed(hr))
      ensures Quiet(old(tpm.log), tpm.log)
      ensures tpm.tally == Blamed(old(tpm.tally), context.Some? && hr != S_OK)
      ensures context == None ==> hr != S_OK && tpm.state == old(tpm.state) && tpm.log == old(tpm.log)
      ensures context.Some? ==> tpm.log == old(tpm.log) + [Some(CreateOf(RH_ENDORSEMENT, EkTemplate()))]
      ensures hr != S_OK ==> handle == 0 && tpm.state == old(tpm.state)
      ensures hr == S_OK ==> CreatedKey(old(tpm.state), context.value, handle, RH_ENDORSEMENT, EkTemplate(), tpm.state)
    {
      hide Sized, Decode, Reply, CreateOf, EkTemplate, Performs, After, Step, Noted, CreatedKey;
      handle := 0;
      var cmd := CreateEkCommand();
      var resp;
      ghost var a;
      hr, resp, a := SendCommand(cmd);
      StepCreate(tpm.chip, old(tpm.state), context, RH_ENDORSEMENT, EkTemplate(), a, tpm.state);
      if !a.Refused? {
        CreatedIsSound(old(tpm.state), context.value, a.handle, RH_ENDORSEMENT, EkTemplate(), tpm.state);
      }
      if !a.Refused? { CreatedReply(a); }
      if Failed(hr) { return; }
      if |resp| < 14 { return RH_E_MALFORMED_RESPONSE, 0; }
      var rc := ReadU32(resp, 6);
      if rc != 0 { return HrFromTpmRc(rc), 0; }
      handle := ReadU32(resp, 10);
      return S_OK, handle;
    }

    /** The public area handed out is the created key's, framed. */
    method CreateAndLoadAk(parentHandle: u32) returns (hr: HResult, handle: u32, publicArea: bytes)
      requires Valid()
      modifies tpm
      ensures Valid() && (hr == S_OK || Failed(hr))
      ensures Quiet(old(tpm.log), tpm.log)
      ensures tpm.tally == Blamed(old(tpm.tally), context.Some? && hr != S_OK)
      ensures context == None ==> hr != S_OK && tpm.state == old(tpm.state) && tpm.log == old(tpm.log)
      ensures context.Some? ==> tpm.log == old(tpm.log) + [Some(CreateOf(parentHandle, AkTemplate()))]
      ensures hr != S_OK ==> handle == 0 && publicArea == [] && tpm.state == old(tpm.state)
      ensures hr == S_OK ==>
        && CreatedKey(old(tpm.state), context.value, handle, parentHandle, AkTemplate(), tpm.state)
        && publicArea == Framed(tpm.state.contexts[context.value].transients[handle].public)
    {
      hide Sized, Decode, Reply, CreateOf, AkTemplate, Performs, After, Step, Noted, Minted;
      handle, publicArea := 0, [];
      var cmd := CreateAkCommand(parentHandle);
      var resp;
      ghost var a;
      hr, resp, a := SendCommand(cmd);
      StepCreate(tpm.chip, old(tpm.state), context, parentHandle, AkTemplate(), a, tpm.state);
      if !a.Refused? { CreatedIsSound(old(tpm.state), context.value, a.handle, parentHandle, AkTemplate(), tpm.state); }
      if !a.Refused? { CreatedReply(a); }
      if Failed(hr) { return; }
      if |resp| < 14 { return RH_E_MALFORMED_RESPONSE, 0, []; }
      var rc := ReadU32(resp, 6);
      if rc != 0 { return HrFromTpmRc(rc), 0, []; }
      handle := ReadU32(resp, 10);
      if |resp| >= 20 {
        var paramSize := ReadU32(resp, 14);
        if paramSize > 0 && 18 + paramSize as int <= |resp| {
          var pubSize := ReadU16(resp, 18);
          if pubSize > 0 && 20 + pubSize as int <= |resp| {
            publicArea := resp[18..20 + pubSize as int];
          }
        }
      }
      return S_OK, handle, publicArea;
    }

    /** Present means there. A reply that the slot is empty and a failure to ask look the same: absent. */
    method IsPersistentPresent(handle: u32) returns (present: bool)
      requires Valid()
      modifies tpm
      ensures Valid() && tpm.state == old(tpm.state)
      ensures Quiet(old(tpm.log), tpm.log)
      ensures tpm.tally == old(tpm.tally) || tpm.tally == old(tpm.tally).(probes := old(tpm.tally).probes + 1)
      ensures context.Some? && !present ==>
        KeyAt(tpm.state, context.value, handle).None? || tpm.tally.probes > old(tpm.tally).probes
      ensures present ==> context.Some? && KeyAt(tpm.state, context.value, handle).Some?
      ensures context == None ==> !present && tpm.log == old(tpm.log)
      ensures context.Some? ==> tpm.log == old(tpm.log) + [Some(ReadPublic(handle))]
    {
      hide Sized, Decode, Reply, Performs, After, Step, Noted;
      var cmd := ReadPublicCommand(handle);
      var hr, resp;
      ghost var a;
      hr, resp, a := SendCommand(cmd);
      if context.Some? {
        ProbeNoted(old(tpm.tally), old(tpm.state), context.value, handle);
        StepReadPublic(tpm.chip, old(tpm.state), context.value, handle, a, tpm.state);
      }
      if !a.Refused? { ReplyHeader(a); }
      if Failed(hr) { return false; }
      if |resp| < 10 { return false; }
      return ReadU32(resp, 6) == 0;
    }

    /** One EvictControl command: the key is made persistent, or the slot named by itself is cleared. */
    method Evict(key: u32, slot: u32) returns (hr: HResult)
      requires Valid()
      modifies tpm
      ensures Valid() && (hr == S_OK || Failed(hr))
      ensures Quiet(old(tpm.log), tpm.log)
      ensures tpm.tally == Blamed(old(tpm.tally), context.Some? && hr != S_OK)
      ensures context == None ==> hr != S_OK && tpm.log == old(tpm.log)
      ensures context.Some? ==> tpm.log == old(tpm.log) + [Some(EvictOf(key, slot))]
      ensures hr != S_OK ==> tpm.state == old(tpm.state)
      ensures hr == S_OK ==> context.Some? && IsOwnerPersistentHandle(slot)
      ensures hr == S_OK && IsTransientHandle(key) ==>
        && key in old(tpm.state).contexts[context.value].transients
        && tpm.state == old(tpm.state).(persistent :=
             old(tpm.state).persistent[slot := old(tpm.state).contexts[context.value].transients[key]])
      ensures hr == S_OK && !IsTransientHandle(key) ==>
        && key == slot && slot in old(tpm.state).persistent
        && tpm.state == old(tpm.state).(persistent := old(tpm.state).persistent - {slot})
    {
      hide Sized, Decode, Reply, Performs, After, Step, Noted, EvictOf;
      var cmd := EvictCommand(key, slot);
      var resp;
      ghost var a;
      hr, resp, a := SendCommand(cmd);
      if context.Some? { StepEvict(tpm.chip, old(tpm.state), context.value, key, slot, a, tpm.state); }
      if !a.Refused? { ReplyHeader(a); }
      if Failed(hr) { return; }
      if |resp| < 10 { return RH_E_MALFORMED_RESPONSE; }
      var rc := ReadU32(resp, 6);
      if rc != 0 { return HrFromTpmRc(rc); }
      return S_OK;
    }

    /** An occupied slot is cleared first, so a failure leaves it as it was or empty, and no third key. */
    method EvictControl(transientHandle: u32, persistentHandle: u32) returns (hr: HResult)
      requires Valid() && IsTransientHandle(transientHandle) && IsOwnerPersistentHandle(persistentHandle)
      modifies tpm
      ensures Valid() && (hr == S_OK || Failed(hr))
      ensures Quiet(old(tpm.log), tpm.log)
      ensures tpm.tally == Blamed(old(tpm.tally).(probes := tpm.tally.probes), context.Some? && hr != S_OK)
      ensures old(tpm.tally).probes <= tpm.tally.probes
      ensures hr == S_OK ==>
        && context.Some? && transientHandle in old(tpm.state).contexts[context.value].transients
        && tpm.state == old(tpm.state).(persistent :=
             old(tpm.state).persistent[
               persistentHandle := old(tpm.state).contexts[context.value].transients[transientHandle]])
      ensures hr != S_OK ==> tpm.state == old(tpm.state) || tpm.state == SlotCleared(old(tpm.state), persistentHandle)
      ensures context.Some? ==>
        || tpm.log == old(tpm.log) + [Some(ReadPublic(persistentHandle)),
                                      Some(EvictOf(transientHandle, persistentHandle))]
        || tpm.log == old(tpm.log) + [Some(ReadPublic(persistentHandle)),
                                      Some(EvictOf(persistentHandle, persistentHandle))]
        || tpm.log == old(tpm.log) + [Some(ReadPublic(persistentHandle)),
                                      Some(EvictOf(persistentHandle, persistentHandle)),
                                      Some(EvictOf(transientHandle, persistentHandle))]
    {
      hide EvictOf;
      var present := IsPersistentPresent(persistentHandle);
      if present {
        hr := Evict(persistentHandle, persistentHandle);
        if Failed(hr) { return; }
      }
      hr := Evict(transientHandle, persistentHandle);
    }

    // ---- Credential activation ----

    method StartSession() returns (hr: HResult, session: u32)
      requires Valid()
      modifies tpm
      ensures Valid() && (hr == S_OK || Failed(hr))
      ensures Quiet(old(tpm.log), tpm.log)
      ensures tpm.tally == Blamed(old(tpm.tally), context.Some? && hr != S_OK)
      ensures context == None ==> hr != S_OK && tpm.log == old(tpm.log)
      ensures context.Some? ==> tpm.log == old(tpm.log) + [Some(StartOf())]
      ensures hr != S_OK ==> session == 0 && tpm.state == old(tpm.state)
      ensures hr == S_OK ==>
        && context.Some? && IsSessionHandle(session) && session !in old(tpm.state).contexts[context.value].sessions
        && tpm.state == SessionSet(old(tpm.state), context.value, session, false)
    {
      hide Sized, Decode, Reply, Performs, After, Step, Noted, StartOf;
      session := 0;
      var cmd := StartSessionCommand();
      var resp;
      ghost var a;
      hr, resp, a := SendCommand(cmd);
      if context.Some? { StepStart(tpm.chip, old(tpm.state), context.value, a, tpm.state); }
      if Failed(hr) { return; }
      if |resp| < 14 {
        if !a.Refused? { StartedReply(a); }
        return RH_E_MALFORMED_RESPONSE, 0;
      }
      var rc := ReadU32(resp, 6);
      if rc != 0 {
        if !a.Refused? { StartedReply(a); }
        return HrFromTpmRc(rc), 0;
      }
      var handleOffset := if ReadU16(resp, 0) == ST_SESSIONS then 14 else 10;
      StartedReply(a);
      if |resp| < handleOffset + 4 { return RH_E_MALFORMED_RESPONSE, session; }
      session := ReadU32(resp, handleOffset);
      return S_OK, session;
    }

    method SatisfyPolicy(session: u32) returns (hr: HResult)
      requires Valid() && context.Some?
      modifies tpm
      ensures Valid() && (hr == S_OK || Failed(hr))
      ensures Quiet(old(tpm.log), tpm.log)
      ensures tpm.tally == Blamed(old(tpm.tally), context.Some? && hr != S_OK)
      ensures tpm.log == old(tpm.log) + [Some(PolicySecretOf(session))]
      ensures hr != S_OK ==> tpm.state == old(tpm.state)
      ensures hr == S_OK ==>
        && session in old(tpm.state).contexts[context.value].sessions
        && tpm.state == SessionSet(old(tpm.state), context.value, session, true)
    {
      hide Sized, Decode, Reply, Performs, After, Step, Noted, PolicySecretOf;
      var cmd := PolicySecretCommand(session);
      var resp;
      ghost var a;
      hr, resp, a := SendCommand(cmd);
      StepPolicySecret(tpm.chip, old(tpm.state), context.value, session, a, tpm.state);
      if !a.Refused? { ReplyHeader(a); }
      if Failed(hr) { return; }
      if |resp| < 10 { return RH_E_MALFORMED_RESPONSE; }
      var rc := ReadU32(resp, 6);
      if rc != 0 { return HrFromTpmRc(rc); }
      return S_OK;
    }

    method Activate(akHandle: u32, ekHandle: u32, session: u32, credentialBlob: bytes, encryptedSecret: bytes)
      returns (hr: HResult, secret: bytes)
      requires Valid() && context.Some?
      modifies tpm
      ensures Valid() && (hr == S_OK || Failed(hr))
      ensures AtMostOne(old(tpm.log), tpm.log)
      ensures tpm.tally == Blamed(old(tpm.tally), context.Some? && hr != S_OK)
      ensures tpm.log == old(tpm.log) + [ActivateRequest(akHandle, ekHandle, session, credentialBlob, encryptedSecret)]
      ensures hr != S_OK ==> secret == [] && tpm.state == old(tpm.state)
      ensures hr == S_OK ==>
        && session in old(tpm.state).contexts[context.value].sessions
        && akHandle in old(tpm.state).contexts[context.value].transients
        && ekHandle in old(tpm.state).contexts[context.value].transients
        && tpm.state == SessionSet(old(tpm.state), context.value, session, false)
        && Unseals(tpm.chip, old(tpm.state).contexts[context.value].transients[akHandle],
                   old(tpm.state).contexts[context.value].transients[ekHandle], credentialBlob, encryptedSecret, secret)
    {
      hide Sized, Decode, Reply, Performs, After, Step, Noted, ActivateRequest, Unseals;
      secret := [];
      var cmd := ActivateCommand(akHandle, ekHandle, session, credentialBlob, encryptedSecret);
      var resp;
      ghost var a;
      hr, resp, a := SendCommand(cmd);
      StepActivate(tpm.chip, old(tpm.state), context.value, akHandle, ekHandle, session, credentialBlob,
                   encryptedSecret, a, tpm.state);
      if !a.Refused? { RecoveredReply(a); }
      if Failed(hr) { return; }
      if |resp| < 10 { return RH_E_MALFORMED_RESPONSE, []; }
      var rc := ReadU32(resp, 6);
      if rc != 0 { return HrFromTpmRc(rc), []; }
      if |resp| < 16 { return RH_E_MALFORMED_RESPONSE, []; }
      if ReadU32(resp, 10) < 2 { return RH_E_MALFORMED_RESPONSE, []; }
      var secretSize := ReadU16(resp, 14);
      if 16 + secretSize as int > |resp| { return RH_E_MALFORMED_RESPONSE, []; }
      return S_OK, resp[16..16 + secretSize as int];
    }

    /**
     * Start a policy session, satisfy the EK policy with it, activate, and flush the session whatever happened.
     * The session is the only thing opened, and it outlives the call only if its flush was refused.
     */
    method ActivateCredential(akHandle: u32, ekHandle: u32, credentialBlob: bytes, encryptedSecret: bytes)
      returns (hr: HResult, secret: bytes, ghost session: u32)
      requires Valid()
      modifies tpm
      ensures Valid() && (hr == S_OK || Failed(hr))
      ensures AtMostOne(old(tpm.log), tpm.log)
      ensures tpm.tally == Blamed(old(tpm.tally).(flushes := tpm.tally.flushes), context.Some? && hr != S_OK)
      ensures old(tpm.tally).flushes <= tpm.tally.flushes
      ensures tpm.tally.flushes == old(tpm.tally).flushes ==> tpm.state == old(tpm.state)
      ensures context == None ==> hr != S_OK && tpm.state == old(tpm.state)
      ensures hr != S_OK ==> secret == []
      ensures context.Some? ==>
        && (tpm.tally.flushes != old(tpm.tally).flushes ==>
              SessionLost(old(tpm.state).contexts[context.value], session, tpm.state.contexts[context.value]))
        && tpm.state == WithContext(old(tpm.state), context.value, tpm.state.contexts[context.value])
      ensures hr == S_OK ==>
        && akHandle in old(tpm.state).contexts[context.value].transients
        && ekHandle in old(tpm.state).contexts[context.value].transients
        && Unseals(tpm.chip, old(tpm.state).contexts[context.value].transients[akHandle],
                   old(tpm.state).contexts[context.value].transients[ekHandle], credentialBlob, encryptedSecret, secret)
        && tpm.log == old(tpm.log) + Conversation(akHandle, ekHandle, session, credentialBlob, encryptedSecret)
    {
      hide Unseals, ActivateRequest;
      var sessionHandle;
      hr, secret, sessionHandle := RunActivation(akHandle, ekHandle, credentialBlob, encryptedSecret);
      session := sessionHandle;
      if sessionHandle != 0 {
        ghost var c, used := tpm.state.contexts[context.value], tpm.state;
        var _ := FlushContext(sessionHandle);
        SessionRound(old(tpm.state).contexts[context.value], sessionHandle, c);
        SameContexts(old(tpm.state), context.value, used, tpm.state);
      }
    }

    /** The three commands before the flush; the session, once started, is the caller's to flush. */
    method RunActivation(akHandle: u32, ekHandle: u32, credentialBlob: bytes, encryptedSecret: bytes)
      returns (hr: HResult, secret: bytes, session: u32)
      requires Valid()
      modifies tpm
      ensures Valid() && (hr == S_OK || Failed(hr))
      ensures AtMostOne(old(tpm.log), tpm.log)
      ensures tpm.tally == Blamed(old(tpm.tally), context.Some? && hr != S_OK)
      ensures context == None ==> hr != S_OK
      ensures hr != S_OK ==> secret == []
      ensures session == 0 ==> hr != S_OK && tpm.state == old(tpm.state)
      ensures session != 0 ==>
        && context.Some? && IsSessionHandle(session) && session !in old(tpm.state).contexts[context.value].sessions
        && Using(old(tpm.state), context.value, session, tpm.state)
      ensures hr == S_OK ==>
        && akHandle in old(tpm.state).contexts[context.value].transients
        && ekHandle in old(tpm.state).contexts[context.value].transients
        && Unseals(tpm.chip, old(tpm.state).contexts[context.value].transients[akHandle],
                   old(tpm.state).contexts[context.value].transients[ekHandle], credentialBlob, encryptedSecret, secret)
        && tpm.log == old(tpm.log) + [Some(StartOf()), Some(PolicySecretOf(session)),
                                      ActivateRequest(akHandle, ekHandle, session, credentialBlob, encryptedSecret)]
    {
      hide Unseals, ActivateRequest, Using, Sound;
      secret := [];
      hr, session := StartSession();
      if Failed(hr) { return; }
      StartUses(old(tpm.state), context.value, session);
      ghost var started := tpm.state;
      hr := SatisfyPolicy(session);
      if Failed(hr) { return; }
      SetKeepsUsing(old(tpm.state), context.value, session, started, true);
      ghost var satisfied := tpm.state;
      hr, secret := Activate(akHandle, ekHandle, session, credentialBlob, encryptedSecret);
      SetKeepsUsing(old(tpm.state), context.value, session, satisfied, false);
    }

    // ---- Reading PCRs, quotes and NV ----

    method PcrRead(pcrIndex: u32) returns (hr: HResult, digest: bytes)
      requires Valid()
      modifies tpm
      ensures Valid() && (hr == S_OK || Failed(hr)) && tpm.state == old(tpm.state)
      ensures tpm.tally == Blamed(old(tpm.tally), tpm.tally.refusals > old(tpm.tally).refusals)
      ensures context.Some? && pcrIndex < PCR_COUNT && pcrIndex in tpm.chip.pcrs(|old(tpm.log)|) ==>
        (hr != S_OK <==> tpm.tally.refusals > old(tpm.tally).refusals)
      ensures context == None ==> hr != S_OK && tpm.log == old(tpm.log)
      ensures context.Some? ==> tpm.log == old(tpm.log) + [Some(PcrReadOf(pcrIndex))]
      ensures hr != S_OK ==> digest == []
      ensures hr == S_OK ==>
        && context.Some? && pcrIndex < PCR_COUNT && |digest| == 32
        && var pcrs := tpm.chip.pcrs(|old(tpm.log)|); pcrIndex in pcrs && digest == pcrs[pcrIndex]
    {
      hide Sized, Decode, Reply, Performs, After, Step, Noted, PcrReadOf;
      digest := [];
      var cmd := PcrReadCommand(pcrIndex);
      var resp;
      ghost var a;
      hr, resp, a := SendCommand(cmd);
      if context.Some? { StepPcrRead(tpm.chip, old(tpm.state), context.value, pcrIndex, a, tpm.state); }
      if !a.Refused? { ReplyHeader(a); FirstDigestOf(a); }
      if Failed(hr) { return; }
      if |resp| < 10 { return RH_E_MALFORMED_RESPONSE, []; }
      var rc := ReadU32(resp, 6);
      if rc != 0 { return HrFromTpmRc(rc), []; }
      var found := ReadDigest(resp);
      if found.None? { return RH_E_MALFORMED_RESPONSE, []; }
      return S_OK, found.value;
    }

    method Quote(akHandle: u32, nonce: bytes, pcrIndices: seq<u32>)
      returns (hr: HResult, quoted: bytes, signature: bytes, ghost area: bytes)
      requires Valid()
      modifies tpm
      ensures Valid() && (hr == S_OK || Failed(hr)) && tpm.state == old(tpm.state)
      ensures tpm.tally == Blamed(old(tpm.tally), context.Some? && hr != S_OK)
      ensures context == None ==> hr != S_OK && tpm.log == old(tpm.log)
      ensures context.Some? ==> tpm.log == old(tpm.log) + [QuoteRequest(akHandle, nonce, pcrIndices)]
      ensures hr != S_OK ==> quoted == [] && signature == []
      ensures hr == S_OK ==>
        && context.Some? && QuoteRequest(akHandle, nonce, pcrIndices).Some?
        && IsQuoteOf(tpm.chip, |old(tpm.log)|, tpm.state, context.value,
                     QuoteRequest(akHandle, nonce, pcrIndices).value,
                     quoted, signature, area)
    {
      hide Sized, Decode, Reply, Performs, After, Step, Noted, QuoteRequest, BitmapOf, IsQuoteOf;
      quoted, signature, area := [], [], [];
      var cmd := QuoteCommand(akHandle, nonce, pcrIndices);
      var resp;
      ghost var a;
      hr, resp, a := SendCommand(cmd);
      if context.Some? {
        StepQuote(tpm.chip, old(tpm.state), context.value, akHandle, nonce, pcrIndices, a, tpm.state);
      }
      if !a.Refused? {
        AttestedReply(a);
        area := a.authArea;
      }
      if Failed(hr) { return; }
      if |resp| < 10 { return RH_E_MALFORMED_RESPONSE, [], [], []; }
      var rc := ReadU32(resp, 6);
      if rc != 0 { return HrFromTpmRc(rc), [], [], []; }
      var offset: nat := 10;
      if offset + 4 > |resp| { return RH_E_MALFORMED_RESPONSE, [], [], []; }
      offset := offset + 4;
      if offset + 2 > |resp| { return RH_E_MALFORMED_RESPONSE, [], [], []; }
      var attestSize: nat := ReadU16(resp, offset);
      offset := offset + 2;
      if offset + attestSize > |resp| { return RH_E_MALFORMED_RESPONSE, [], [], []; }
      quoted := resp[offset..offset + attestSize];
      offset := offset + attestSize;
      if offset < |resp| { signature := resp[offset..]; }
      return S_OK, quoted, signature, area;
    }

    /** TPM2_NV_ReadPublic: the size of an index, which must not be zero. */
    method ReadNvSize(nvIndex: u32) returns (hr: HResult, dataSize: u16)
      requires Valid()
      modifies tpm
      ensures Valid() && (hr == S_OK || Failed(hr)) && tpm.state == old(tpm.state)
      ensures Quiet(old(tpm.log), tpm.log)
      ensures old(tpm.tally).withheld <= tpm.tally.withheld
      ensures context.Some? && hr != S_OK ==> Contents(tpm.state.nv, nvIndex) == [] || nvIndex in tpm.tally.withheld
      ensures tpm.tally == old(tpm.tally).(withheld := tpm.tally.withheld)
      ensures context == None ==> hr != S_OK && tpm.log == old(tpm.log)
      ensures context.Some? ==> tpm.log == old(tpm.log) + [Some(NvReadPublic(nvIndex))]
      ensures hr == S_OK ==> nvIndex in tpm.state.nv && 0 < dataSize == |tpm.state.nv[nvIndex]|
    {
      hide Sized, Decode, Reply, Performs, After, Step, Noted;
      dataSize := 0;
      var cmd := NvReadPublicCommand(nvIndex);
      var resp;
      ghost var a;
      hr, resp, a := SendCommand(cmd);
      if context.Some? { StepNvPublic(tpm.chip, old(tpm.state), context.value, nvIndex, a, tpm.state); }
      if !a.Refused? { NvDescribedReply(a); }
      if Failed(hr) { return; }
      if |resp| < 10 { return RH_E_MALFORMED_RESPONSE, 0; }
      var rc := ReadU32(resp, 6);
      if rc != 0 { return HrFromTpmRc(rc), 0; }
      var offset: nat := 10;
      if offset + 2 > |resp| { return RH_E_MALFORMED_RESPONSE, dataSize; }
      var nvPublicSize: nat := ReadU16(resp, offset);
      offset := offset + 2;
      if offset + nvPublicSize > |resp| { return RH_E_MALFORMED_RESPONSE, dataSize; }
      var inner := offset;
      if inner + 4 + 2 + 4 + 2 > |resp| { return RH_E_MALFORMED_RESPONSE, dataSize; }
      inner := inner + 4 + 2 + 4;
      var policySize: nat := ReadU16(resp, inner);
      inner := inner + 2;
      if inner + policySize + 2 > |resp| { return RH_E_MALFORMED_RESPONSE, dataSize; }
      inner := inner + policySize;
      dataSize := ReadU16(resp, inner);
      if dataSize == 0 { return RH_E_MALFORMED_RESPONSE, 0; }
      return S_OK, dataSize;
    }

    /** One TPM2_NV_Read; the TPM may return fewer bytes than asked for, but some. */
    method ReadNvChunk(nvIndex: u32, want: u16, readOffset: u16) returns (hr: HResult, chunk: bytes)
      requires Valid() && context.Some?
      modifies tpm
      ensures Valid() && (hr == S_OK || Failed(hr)) && tpm.state == old(tpm.state)
      ensures Quiet(old(tpm.log), tpm.log)
      ensures old(tpm.tally).withheld <= tpm.tally.withheld
      ensures hr != S_OK && nvIndex in tpm.state.nv ==> nvIndex in tpm.tally.withheld
      ensures tpm.tally == old(tpm.tally).(withheld := tpm.tally.withheld)
      ensures tpm.log == old(tpm.log) + [Some(NvReadOf(nvIndex, want, readOffset))]
      ensures hr == S_OK ==>
        && nvIndex in tpm.state.nv && 0 < |chunk| <= want && readOffset + |chunk| <= |tpm.state.nv[nvIndex]|
        && chunk == tpm.state.nv[nvIndex][readOffset..readOffset + |chunk|]
    {
      hide Sized, Decode, Reply, Performs, After, Step, Noted, NvReadOf;
      chunk := [];
      var cmd := NvReadCommand(nvIndex, want, readOffset);
      var resp;
      ghost var a;
      hr, resp, a := SendCommand(cmd);
      StepNvRead(tpm.chip, old(tpm.state), context.value, nvIndex, want, readOffset, a, tpm.state);
      if !a.Refused? { NvContentsReply(a); }
      if Failed(hr) { return; }
      if |resp| < 10 { return RH_E_MALFORMED_RESPONSE, []; }
      var rc := ReadU32(resp, 6);
      if rc != 0 { return HrFromTpmRc(rc), []; }
      var bufferOffset: nat := 10 + 4;
      if bufferOffset + 2 > |resp| { return RH_E_MALFORMED_RESPONSE, []; }
      var got: nat := ReadU16(resp, bufferOffset);
      bufferOffset := bufferOffset + 2;
      if got == 0 || bufferOffset + got > |resp| { return RH_E_MALFORMED_RESPONSE, []; }
      return S_OK, resp[bufferOffset..bufferOffset + got];
    }

    /**
     * The whole of an index, in chunks of at most 1024. The 16-bit offset always equals the bytes collected, so
     * it never wraps.
     */
    method ReadNvData(nvIndex: u32) returns (hr: HResult, data: bytes, ghost requests: seq<Option<Command>>)
      requires Valid()
      modifies tpm
      ensures Valid() && (hr == S_OK || Failed(hr)) && tpm.state == old(tpm.state)
      ensures Quiet(old(tpm.log), tpm.log)
      ensures old(tpm.tally).withheld <= tpm.tally.withheld
      ensures context.Some? ==> ReadAs(tpm.state.nv, tpm.tally.withheld, nvIndex, data)
      ensures tpm.tally == old(tpm.tally).(withheld := tpm.tally.withheld)
      ensures hr == S_OK ==> nvIndex in tpm.state.nv && data == tpm.state.nv[nvIndex] && data != []
      ensures hr != S_OK ==> data == []
      ensures context.Some? ==> tpm.log == old(tpm.log) + [Some(NvReadPublic(nvIndex))] + requests
      ensures context.Some? && requests != [] ==>
        nvIndex in tpm.state.nv && ReadsInside(requests, nvIndex, |tpm.state.nv[nvIndex]|)
    {
      data, requests := [], [];
      var dataSize;
      hr, dataSize := ReadNvSize(nvIndex);
      if hr != S_OK { return; }
      var readOffset: u16 := 0;
      while readOffset < dataSize
        invariant Valid() && context.Some? && tpm.state == old(tpm.state)
        invariant tpm.tally == old(tpm.tally).(withheld := tpm.tally.withheld)
        invariant old(tpm.tally).withheld <= tpm.tally.withheld && nvIndex in tpm.state.nv
        invariant readOffset as int == |data| <= dataSize as int == |tpm.state.nv[nvIndex]|
        invariant data == tpm.state.nv[nvIndex][..|data|]
        invariant tpm.log == old(tpm.log) + [Some(NvReadPublic(nvIndex))] + requests
        invariant ReadsInside(requests, nvIndex, |tpm.state.nv[nvIndex]|)
        decreases dataSize - readOffset
      {
        var remaining: u16 := dataSize - readOffset;
        var want: u16 := if remaining > 1024 then 1024 else remaining;
        var chunk;
        hr, chunk := ReadNvChunk(nvIndex, want, readOffset);
        requests := requests + [Some(NvReadOf(nvIndex, want, readOffset))];
        if hr != S_OK { return hr, [], requests; }
        data := data + chunk;
        readOffset := (readOffset + |chunk|) % 0x1_0000;
      }
      assert tpm.state.nv[nvIndex][..|data|] == tpm.state.nv[nvIndex];
      if data == [] { return RH_E_MALFORMED_RESPONSE, data, requests; }
      return S_OK, data, requests;
    }

    /** The concatenation of the sixteen slots that could be read, cut into certificates. */
    method ReadIntelOdcaIntermediates(before: seq<bytes>) returns (certificates: seq<bytes>, ghost slots: seq<bytes>)
      requires Valid()
      modifies tpm
      ensures Valid() && tpm.state == old(tpm.state)
      ensures Quiet(old(tpm.log), tpm.log)
      ensures tpm.tally == old(tpm.tally).(withheld := tpm.tally.withheld)
      ensures context.Some? ==> SlotsRead(tpm.state.nv, tpm.tally.withheld, slots)
      ensures old(tpm.tally).withheld <= tpm.tally.withheld
      ensures certificates
        == before + Cut(Flatten(slots), 0, if |before| < MAX_CERTIFICATES then MAX_CERTIFICATES - |before| else 0)
    {
      hide Cut, Activates;
      var stream := [];
      slots := [];
      for i := 0 to 16
        invariant Valid() && tpm.state == old(tpm.state) && tpm.tally == old(tpm.tally).(withheld := tpm.tally.withheld)
        invariant |slots| == i && stream == Flatten(slots)
        invariant old(tpm.tally).withheld <= tpm.tally.withheld && Quiet(old(tpm.log), tpm.log)
        invariant context.Some? ==>
          forall k | 0 <= k < i :: ReadAs(tpm.state.nv, tpm.tally.withheld, ODCA_BASE + k, slots[k])
      {
        var hr, slot;
        ghost var requests;
        ghost var logged := tpm.log;
        hr, slot, requests := ReadNvData(ODCA_BASE + i);
        QuietStays(old(tpm.log), logged, tpm.log);
        FlattenStep(slots, slot);
        if hr == S_OK && slot != [] { stream := stream + slot; }
        slots := slots + [slot];
      }
      if stream == [] {
        CutAtEnd([], 0);
        return before, slots;
      }
      certificates := CutChain(stream, before);
    }
  }

  lemma PatchedSize(data: bytes, size: u32)
    requires 6 <= |data|
    ensures data[2 := U32(size)[0]][3 := U32(size)[1]][4 := U32(size)[2]][5 := U32(size)[3]]
         == data[..2] + U32(size) + data[6..]
  {
    hide U32;
  }
}
