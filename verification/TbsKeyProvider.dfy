/** The TbsKeyProvider state machine of src/tpm/tbs_key_provider.cpp. */
module TbsKeyProvider {
  import opened Bytes
  import opened TpmWire
  import opened TpmMarshal
  import opened TpmCommandBytes
  import opened TpmDevice
  import T = TpmCommands

  type HResult = T.HResult

  /** The non-zero handles a provider holds. */
  function Held(akHandle: u32, ekHandle: u32): set<u32> {
    (if akHandle != 0 then {akHandle} else {}) + (if ekHandle != 0 then {ekHandle} else {})
  }

  /**
   * Conservation: what is live in the context is what the provider holds, plus what could not be flushed, and no
   * session is kept. Held handles are not among the lost.
   */
  ghost predicate Conserved(c: Context, akHandle: u32, ekHandle: u32) {
    && Sound(c)
    && c.transients.Keys == Held(akHandle, ekHandle) + c.lostObjects
    && Held(akHandle, ekHandle) !! c.lostObjects
    && (akHandle != 0 ==> akHandle != ekHandle)
    && c.sessions.Keys == c.lostSessions
  }

  /** The attestation key template under the owner hierarchy. */
  predicate IsAk(k: Key) { T.IsPrimary(k, RH_OWNER, AkTemplate()) }
  predicate IsEk(k: Key) { T.IsPrimary(k, RH_ENDORSEMENT, EkTemplate()) }

  /** What the handles stand for. */
  ghost predicate Named(c: Context, akHandle: u32, ekHandle: u32, akPublicArea: bytes) {
    && (ekHandle != 0 ==> ekHandle in c.transients && IsEk(c.transients[ekHandle]))
    && (akHandle != 0 ==>
          && akHandle in c.transients && IsAk(c.transients[akHandle])
          && akPublicArea == Framed(c.transients[akHandle].public))
  }

  /** Only these handles were lost, and no session. */
  ghost predicate LostAmong(c: Context, handles: set<u32>, c': Context) {
    c.lostObjects <= c'.lostObjects <= c.lostObjects + handles && c'.lostSessions == c.lostSessions
  }

  ghost predicate FlushTried(c: Context, handles: set<u32>, c': Context, t: Tally, t': Tally) {
    && t' == t.(flushes := t'.flushes) && t.flushes <= t'.flushes
    && LostAmong(c, handles, c') && (t' == t ==> LostAmong(c, {}, c'))
  }

  /** Flushes, and after them a mint that failed or not, and the flushes it took. */
  lemma FlushedTwice(c: Context, handles: set<u32>, c1: Context, minted: set<u32>, c2: Context,
                     t: Tally, t1: Tally, t2: Tally, failed: bool)
    requires FlushTried(c, handles, c1, t, t1) && FlushTried(c1, minted, c2, Blamed(t1, failed), t2)
    ensures FlushTried(c, handles + minted, c2, Blamed(t, failed), t2)
  {
  }

  lemma FlushedMinted(c: Context, c1: Context, minted: set<u32>, c2: Context, t: Tally, t': Tally)
    requires LostAmong(c, {}, c1) && FlushTried(c1, minted, c2, t, t')
    ensures FlushTried(c, minted, c2, t, t')
  {
  }

  lemma NothingTried(c: Context, t: Tally)
    ensures FlushTried(c, {}, c, t, t)
  {
  }

  /** An AK was asked for. */
  ghost predicate MintsAk(before: seq<Option<Command>>, after: seq<Option<Command>>) {
    exists k :: |before| <= k < |after| && after[k] == Some(CreateOf(RH_OWNER, AkTemplate()))
  }

  lemma MintLogged(before: seq<Option<Command>>, after: seq<Option<Command>>)
    requires after == before + [Some(CreateOf(RH_OWNER, AkTemplate()))]
    ensures MintsAk(before, after)
  {
    hide CreateOf, AkTemplate;
    assert after[|before|] == Some(CreateOf(RH_OWNER, AkTemplate()));
  }

  lemma MintLoggedLater(a: seq<Option<Command>>, b: seq<Option<Command>>, c: seq<Option<Command>>)
    requires Quiet(a, b) && Quiet(b, c)
    ensures MintsAk(a, b) || MintsAk(b, c) ==> MintsAk(a, c)
  {
    hide CreateOf, AkTemplate, Activates;
    if MintsAk(a, b) {
      var k :| |a| <= k < |b| && b[k] == Some(CreateOf(RH_OWNER, AkTemplate()));
      assert c[k] == b[k];
    }
  }

  class Provider {
    const tpm: T.TpmCommands
    const persistentHandle: u32
    var ekHandle: u32
    var akHandle: u32
    var akPublicArea: bytes

    constructor (device: Tpm, persistentHandle: u32)
      ensures this.persistentHandle == persistentHandle && fresh(tpm) && tpm.tpm == device && tpm.context == None
      ensures ekHandle == 0 && akHandle == 0 && akPublicArea == []
    {
      this.persistentHandle := persistentHandle;
      tpm := new T.TpmCommands(device);
      ekHandle, akHandle, akPublicArea := 0, 0, [];
    }

    ghost predicate Valid()
      reads this, tpm, tpm.tpm
    {
      && IsOwnerPersistentHandle(persistentHandle)
      && tpm.Valid()
      && (tpm.context == None ==> akHandle == 0 && ekHandle == 0)
      && (tpm.context.Some? ==>
          && Conserved(tpm.tpm.state.contexts[tpm.context.value], akHandle, ekHandle)
          && Named(tpm.tpm.state.contexts[tpm.context.value], akHandle, ekHandle, akPublicArea))
    }

    /** Nothing but this provider's own context differs from `before`. */
    ghost predicate OnlyContext(before: State)
      reads this, tpm, tpm.tpm
    {
      tpm.context.Some? ==>
        tpm.context.value in tpm.tpm.state.contexts
        && tpm.tpm.state == WithContext(before, tpm.context.value, tpm.tpm.state.contexts[tpm.context.value])
    }

    /**
     * Since `before` and `t` only flushes of these handles can have been refused, and only they can have been lost:
     * with no flush refused the lost are as they were.
     */
    ghost predicate Flushed(before: State, handles: set<u32>, t: Tally)
      reads this, tpm, tpm.tpm
    {
      if tpm.context == None then tpm.tpm.tally == t else
      && tpm.context.value in before.contexts && tpm.context.value in tpm.tpm.state.contexts
      && FlushTried(before.contexts[tpm.context.value], handles, tpm.tpm.state.contexts[tpm.context.value], t,
                    tpm.tpm.tally)
    }

    /** Nothing was lost. */
    ghost predicate Kept(before: State)
      reads this, tpm, tpm.tpm
    {
      && tpm.context.Some? && tpm.context.value in before.contexts && tpm.context.value in tpm.tpm.state.contexts
      && LostAmong(before.contexts[tpm.context.value], {}, tpm.tpm.state.contexts[tpm.context.value])
    }

    method Open() returns (hr: HResult)
      requires Valid() && tpm.context == None
      modifies tpm, tpm.tpm
      ensures Valid() && akHandle == old(akHandle) && akPublicArea == old(akPublicArea)
      ensures hr == T.S_OK || T.Failed(hr)
      ensures tpm.tpm.log == old(tpm.tpm.log)
      ensures tpm.tpm.tally == Blamed(old(tpm.tpm.tally), hr != T.S_OK)
      ensures hr != T.S_OK ==> tpm.context == None && tpm.tpm.state == old(tpm.tpm.state)
      ensures hr == T.S_OK ==>
        && tpm.context.Some? && tpm.context.value !in old(tpm.tpm.state).contexts
        && tpm.tpm.state == WithContext(old(tpm.tpm.state), tpm.context.value, EMPTY_CONTEXT)
    {
      hr := tpm.Open();
    }

    method FlushAk()
      requires Valid() && akHandle != 0
      modifies this`akHandle, tpm.tpm
      ensures Valid() && akHandle == 0 && OnlyContext(old(tpm.tpm.state))
      ensures Quiet(old(tpm.tpm.log), tpm.tpm.log)
      ensures Flushed(old(tpm.tpm.state), {old(akHandle)}, old(tpm.tpm.tally))
    {
      var _ := tpm.FlushContext(akHandle);
      ghost var c, c' := old(tpm.tpm.state).contexts[tpm.context.value], tpm.tpm.state.contexts[tpm.context.value];
      FlushOne(c, akHandle, ekHandle, c');
      akHandle := 0;
    }

    method FlushEk()
      requires Valid() && ekHandle != 0 && akHandle == 0
      modifies this`ekHandle, tpm.tpm
      ensures Valid() && ekHandle == 0 && OnlyContext(old(tpm.tpm.state))
      ensures Quiet(old(tpm.tpm.log), tpm.tpm.log)
      ensures Flushed(old(tpm.tpm.state), {old(ekHandle)}, old(tpm.tpm.tally))
    {
      var _ := tpm.FlushContext(ekHandle);
      ghost var c, c' := old(tpm.tpm.state).contexts[tpm.context.value], tpm.tpm.state.contexts[tpm.context.value];
      FlushOne(c, ekHandle, 0, c');
      ekHandle := 0;
    }

    /** Best effort: afterwards nothing is held, and what is still live is lost. */
    method FlushTransients()
      requires Valid()
      modifies this`akHandle, this`ekHandle, tpm.tpm
      ensures Valid() && akHandle == 0 && ekHandle == 0 && OnlyContext(old(tpm.tpm.state))
      ensures Quiet(old(tpm.tpm.log), tpm.tpm.log)
      ensures Flushed(old(tpm.tpm.state), Held(old(akHandle), old(ekHandle)), old(tpm.tpm.tally))
      ensures tpm.context == None ==> tpm.tpm.state == old(tpm.tpm.state)
    {
      hide Conserved, Named, Quiet;
      ghost var l0 := tpm.tpm.log;
      SameLog(l0);
      if akHandle != 0 { FlushAk(); }
      ghost var l1 := tpm.tpm.log;
      if ekHandle != 0 { FlushEk(); }
      SameLog(l1);
      QuietStays(l0, l1, tpm.tpm.log);
    }

    method DeleteAk() returns (hr: HResult)
      requires Valid()
      modifies this`akHandle, this`ekHandle, tpm.tpm
      ensures Valid() && hr == T.S_OK && akHandle == 0 && ekHandle == 0 && OnlyContext(old(tpm.tpm.state))
      ensures Quiet(old(tpm.tpm.log), tpm.tpm.log)
      ensures Flushed(old(tpm.tpm.state), Held(old(akHandle), old(ekHandle)), old(tpm.tpm.tally))
      ensures tpm.context == None ==> tpm.tpm.state == old(tpm.tpm.state)
      ensures tpm.tpm.tally == old(tpm.tpm.tally).(flushes := tpm.tpm.tally.flushes)
      ensures Since(old(tpm.tpm.tally), tpm.tpm.tally)
    {
      FlushTransients();
      return T.S_OK;
    }

    /** Also the destructor: the context goes, and everything live or lost in it. */
    method Close()
      requires Valid()
      modifies this`akHandle, this`ekHandle, tpm, tpm.tpm
      ensures Valid() && tpm.context == None && akHandle == 0 && ekHandle == 0
      ensures Quiet(old(tpm.tpm.log), tpm.tpm.log)
      ensures tpm.tpm.tally == old(tpm.tpm.tally).(flushes := tpm.tpm.tally.flushes)
      ensures Since(old(tpm.tpm.tally), tpm.tpm.tally)
      ensures tpm.tpm.state == if old(tpm.context) == None then old(tpm.tpm.state)
        else old(tpm.tpm.state).(contexts := old(tpm.tpm.state).contexts - {old(tpm.context).value})
    {
      FlushTransients();
      ghost var flushed := tpm.tpm.state;
      tpm.Close();
      if old(tpm.context).Some? {
        CloseForgets(old(tpm.tpm.state), old(tpm.context).value, flushed);
      }
    }

    /** Both keys, or neither. */
    method CreateAk() returns (hr: HResult, ghost minted: set<u32>)
      requires Valid()
      modifies this, tpm.tpm
      ensures Valid() && OnlyContext(old(tpm.tpm.state))
      ensures Quiet(old(tpm.tpm.log), tpm.tpm.log)
      ensures hr == T.S_OK ==> MintsAk(old(tpm.tpm.log), tpm.tpm.log)
      ensures Flushed(old(tpm.tpm.state), Held(old(akHandle), old(ekHandle)) + minted,
                      Blamed(old(tpm.tpm.tally), tpm.context.Some? && hr != T.S_OK))
      ensures |minted| <= 1 && (hr == T.S_OK ==> minted == {})
      ensures tpm.context == None ==> tpm.tpm.state == old(tpm.tpm.state)
      ensures hr == T.S_OK || T.Failed(hr)
      ensures hr == T.S_OK ==> akHandle != 0 && ekHandle != 0 && akPublicArea != []
      ensures hr != T.S_OK ==> akHandle == 0 && ekHandle == 0
    {
      hide Conserved, Named, Quiet, FlushTried, LostAmong, MintsAk;
      FlushTransients();
      ForgetPublicArea();
      ghost var s1, t1, l1 := tpm.tpm.state, tpm.tpm.tally, tpm.tpm.log;
      hr, minted := MintBoth();
      QuietStays(old(tpm.tpm.log), l1, tpm.tpm.log);
      MintLoggedLater(old(tpm.tpm.log), l1, tpm.tpm.log);
      if tpm.context.Some? {
        ghost var ctx := tpm.context.value;
        FlushedTwice(old(tpm.tpm.state).contexts[ctx], Held(old(akHandle), old(ekHandle)), s1.contexts[ctx], minted,
                     tpm.tpm.state.contexts[ctx], old(tpm.tpm.tally), t1, tpm.tpm.tally, hr != T.S_OK);
      }
    }

    /** From nothing held; on failure the EK, if it was minted, is flushed again. */
    method MintBoth() returns (hr: HResult, ghost minted: set<u32>)
      requires Valid() && akHandle == 0 && ekHandle == 0 && akPublicArea == []
      modifies this, tpm.tpm
      ensures Valid() && OnlyContext(old(tpm.tpm.state)) && (hr == T.S_OK || T.Failed(hr))
      ensures Quiet(old(tpm.tpm.log), tpm.tpm.log) && (hr == T.S_OK ==> MintsAk(old(tpm.tpm.log), tpm.tpm.log))
      ensures Flushed(old(tpm.tpm.state), minted, Blamed(old(tpm.tpm.tally), tpm.context.Some? && hr != T.S_OK))
      ensures |minted| <= 1 && (hr == T.S_OK ==> minted == {})
      ensures tpm.context == None ==> tpm.tpm.state == old(tpm.tpm.state)
      ensures hr == T.S_OK ==> akHandle != 0 && ekHandle != 0 && akPublicArea != []
      ensures hr != T.S_OK ==> akHandle == 0 && ekHandle == 0
    {
      hide Conserved, Named, Quiet, FlushTried, LostAmong, MintsAk;
      minted := {};
      hr := MintEk();
      ghost var l1 := tpm.tpm.log;
      if T.Failed(hr) || ekHandle == 0 {
        if tpm.context.Some? { NothingTried(tpm.tpm.state.contexts[tpm.context.value], tpm.tpm.tally); }
        if !T.Failed(hr) { hr := T.E_FAIL; }
        return;
      }
      ghost var ctx, s1 := tpm.context.value, tpm.tpm.state;
      hr := MintAk();
      ghost var s2, l2 := tpm.tpm.state, tpm.tpm.log;
      QuietStays(old(tpm.tpm.log), l1, l2);
      MintLoggedLater(old(tpm.tpm.log), l1, l2);
      if T.Failed(hr) || akHandle == 0 || akPublicArea == [] {
        minted := {ekHandle};
        assert minted == Held(0, ekHandle);
        FlushTransients();
        QuietStays(old(tpm.tpm.log), l2, tpm.tpm.log);
        FlushedMinted(old(tpm.tpm.state).contexts[ctx], s1.contexts[ctx], minted, tpm.tpm.state.contexts[ctx],
                      Blamed(old(tpm.tpm.tally), true), tpm.tpm.tally);
        if !T.Failed(hr) { hr := T.E_FAIL; }
        return;
      }
      NothingTried(s2.contexts[ctx], tpm.tpm.tally);
      FlushedMinted(s1.contexts[ctx], s2.contexts[ctx], {}, s2.contexts[ctx], tpm.tpm.tally, tpm.tpm.tally);
      FlushedMinted(old(tpm.tpm.state).contexts[ctx], s1.contexts[ctx], {}, s2.contexts[ctx], tpm.tpm.tally,
                    tpm.tpm.tally);
      return T.S_OK, {};
    }

    /** Nothing is loaded: a persistent key is used in place. */
    method LoadAk() returns (hr: HResult)
      requires Valid()
      modifies tpm.tpm
      ensures Valid() && tpm.tpm.state == old(tpm.tpm.state) && (hr == T.S_OK || T.Failed(hr))
      ensures Quiet(old(tpm.tpm.log), tpm.tpm.log)
      ensures
        || tpm.tpm.tally == old(tpm.tpm.tally)
        || tpm.tpm.tally == old(tpm.tpm.tally).(probes := old(tpm.tpm.tally).probes + 1)
      ensures tpm.context.Some? && hr != T.S_OK ==>
        persistentHandle !in tpm.tpm.state.persistent || tpm.tpm.tally.probes > old(tpm.tpm.tally).probes
      ensures hr == T.S_OK ==> tpm.context.Some? && persistentHandle in tpm.tpm.state.persistent
    {
      hide Conserved, Named;
      var present := tpm.IsPersistentPresent(persistentHandle);
      return if present then T.S_OK else T.E_FAIL;
    }

    method ForgetPublicArea()
      requires Valid() && akHandle == 0
      modifies this`akPublicArea
      ensures Valid() && akPublicArea == []
    {
      akPublicArea := [];
    }

    method MintEk() returns (hr: HResult)
      requires Valid() && akHandle == 0 && ekHandle == 0 && akPublicArea == []
      modifies this`ekHandle, tpm.tpm
      ensures Valid() && OnlyContext(old(tpm.tpm.state)) && (hr == T.S_OK || T.Failed(hr))
      ensures Quiet(old(tpm.tpm.log), tpm.tpm.log)
      ensures tpm.tpm.tally == Blamed(old(tpm.tpm.tally), tpm.context.Some? && hr != T.S_OK)
      ensures tpm.context.Some? ==> Kept(old(tpm.tpm.state))
      ensures if hr == T.S_OK then tpm.context.Some? && ekHandle != 0
        else ekHandle == 0 && tpm.tpm.state == old(tpm.tpm.state)
    {
      hide EkTemplate;
      hr, ekHandle := tpm.CreateEk();
      if hr == T.S_OK { EkCreated(old(tpm.tpm.state), tpm.context.value, ekHandle, tpm.tpm.state); }
    }

    method MintAk() returns (hr: HResult)
      requires Valid() && akHandle == 0 && ekHandle != 0 && akPublicArea == []
      modifies this`akHandle, this`akPublicArea, tpm.tpm
      ensures Valid() && OnlyContext(old(tpm.tpm.state)) && (hr == T.S_OK || T.Failed(hr))
      ensures Quiet(old(tpm.tpm.log), tpm.tpm.log)
      ensures tpm.context.Some? ==> MintsAk(old(tpm.tpm.log), tpm.tpm.log)
      ensures tpm.tpm.tally == Blamed(old(tpm.tpm.tally), tpm.context.Some? && hr != T.S_OK)
      ensures tpm.context.Some? ==> Kept(old(tpm.tpm.state))
      ensures if hr == T.S_OK then akHandle != 0 && akPublicArea != []
        else akHandle == 0 && akPublicArea == [] && tpm.tpm.state == old(tpm.tpm.state)
    {
      hide EkTemplate, AkTemplate, T.CreatedKey;
      hr, akHandle, akPublicArea := tpm.CreateAndLoadAk(RH_OWNER);
      if tpm.context.Some? { MintLogged(old(tpm.tpm.log), tpm.tpm.log); }
      if hr == T.S_OK {
        AkCreated(old(tpm.tpm.state), tpm.context.value, ekHandle, akHandle, akPublicArea, tpm.tpm.state);
      }
    }

    /** The secret recovered is the one the chip unseals for exactly the two keys held. */
    method ActivateCredential(credentialBlob: bytes, encryptedSecret: bytes)
      returns (hr: HResult, secret: bytes, ghost session: u32)
      requires Valid()
      modifies tpm.tpm
      ensures Valid() && OnlyContext(old(tpm.tpm.state)) && (hr == T.S_OK || T.Failed(hr))
      ensures AtMostOne(old(tpm.tpm.log), tpm.tpm.log)
      ensures tpm.tpm.tally ==
        Blamed(old(tpm.tpm.tally).(flushes := tpm.tpm.tally.flushes), akHandle != 0 && ekHandle != 0 && hr != T.S_OK)
      ensures tpm.tpm.tally.flushes == old(tpm.tpm.tally).flushes ==> tpm.tpm.state == old(tpm.tpm.state)
      ensures tpm.tpm.tally.flushes != old(tpm.tpm.tally).flushes ==>
        && tpm.context.Some? && old(tpm.tpm.tally).flushes < tpm.tpm.tally.flushes
        && T.SessionLost(old(tpm.tpm.state).contexts[tpm.context.value], session,
                         tpm.tpm.state.contexts[tpm.context.value])
      ensures tpm.context == None ==> tpm.tpm.state == old(tpm.tpm.state)
      ensures hr != T.S_OK ==> secret == []
      ensures hr == T.S_OK ==>
        && tpm.context.Some? && akHandle != 0 && ekHandle != 0
        && var keys := tpm.tpm.state.contexts[tpm.context.value].transients;
           T.Unseals(tpm.tpm.chip, keys[akHandle], keys[ekHandle], credentialBlob, encryptedSecret, secret)
      ensures tpm.context.Some? ==>
        tpm.tpm.state.contexts[tpm.context.value].transients
          == old(tpm.tpm.state).contexts[tpm.context.value].transients
    {
      hide T.Unseals;
      secret, session := [], 0;
      if akHandle == 0 || ekHandle == 0 { return T.RH_E_NOT_OPEN, [], 0; }
      hr, secret, session := tpm.ActivateCredential(akHandle, ekHandle, credentialBlob, encryptedSecret);
      ghost var ctx := tpm.context.value;
      if tpm.tpm.tally.flushes != old(tpm.tpm.tally).flushes {
        SessionConserved(old(tpm.tpm.state).contexts[ctx], session, tpm.tpm.state.contexts[ctx], akHandle, ekHandle);
      }
    }

    /** On success the slot holds the AK that was held; on failure it is as it was, or cleared. */
    method PersistAk() returns (hr: HResult)
      requires Valid()
      modifies this`akHandle, this`ekHandle, tpm.tpm
      ensures Valid() && (hr == T.S_OK || T.Failed(hr))
      ensures Quiet(old(tpm.tpm.log), tpm.tpm.log)
      ensures old(akHandle) != 0 ==>
        && old(tpm.tpm.tally).probes <= tpm.tpm.tally.probes
        && Flushed(old(tpm.tpm.state), if hr == T.S_OK then Held(old(akHandle), old(ekHandle)) else {},
                   Blamed(old(tpm.tpm.tally).(probes := tpm.tpm.tally.probes), hr != T.S_OK))
      ensures hr == T.S_OK ==>
        && tpm.context.Some? && old(akHandle) != 0 && akHandle == 0 && ekHandle == 0
        && OnlyContext(SlotSet(old(tpm.tpm.state), persistentHandle,
                               old(tpm.tpm.state).contexts[tpm.context.value].transients[old(akHandle)]))
      ensures hr != T.S_OK ==>
        && akHandle == old(akHandle) && ekHandle == old(ekHandle)
        && (tpm.tpm.state == old(tpm.tpm.state) || tpm.tpm.state == T.SlotCleared(old(tpm.tpm.state), persistentHandle))
      ensures Since(old(tpm.tpm.tally), tpm.tpm.tally) && tpm.tpm.tally.withheld == old(tpm.tpm.tally).withheld
      ensures old(akHandle) != 0 && hr != T.S_OK ==> tpm.tpm.tally.refusals > old(tpm.tpm.tally).refusals
    {
      hide Conserved, Named;
      if akHandle == 0 { return T.RH_E_NOT_OPEN; }
      AkIsTransient(this);
      hr := tpm.EvictControl(akHandle, persistentHandle);
      if T.Failed(hr) { return; }
      FlushTransients();
      return T.S_OK;
    }
  }

  lemma SameLog(log: seq<Option<Command>>)
    ensures Quiet(log, log) && AtMostOne(log, log)
  {
  }

  lemma AkIsTransient(p: Provider)
    requires p.Valid() && p.akHandle != 0
    ensures p.tpm.context.Some? && IsTransientHandle(p.akHandle)
    ensures p.akHandle in p.tpm.tpm.state.contexts[p.tpm.context.value].transients
  {
  }

  function SlotSet(s: State, slot: u32, key: Key): State {
    s.(persistent := s.persistent[slot := key])
  }

  lemma SessionConserved(c: Context, session: u32, c': Context, akHandle: u32, ekHandle: u32)
    requires Conserved(c, akHandle, ekHandle) && T.SessionLost(c, session, c') && Sound(c')
    ensures Conserved(c', akHandle, ekHandle)
  {
  }

  lemma FlushOne(c: Context, handle: u32, other: u32, c': Context)
    requires handle != 0 && Conserved(c, handle, other)
    requires c' == FlushedFrom(c, handle) || c' == LostFrom(c, handle)
    ensures Conserved(c', 0, other)
    ensures forall h | h in c'.transients && h != handle :: h in c.transients && c'.transients[h] == c.transients[h]
    ensures other != 0 ==> other in c'.transients
    ensures LostAmong(c, {handle}, c') && (c' == FlushedFrom(c, handle) ==> LostAmong(c, {}, c'))
  {
    assert handle in c.transients && handle !in c.sessions;
  }

  lemma CloseForgets(s: State, ctx: nat, s': State)
    requires ctx in s'.contexts && s' == WithContext(s, ctx, s'.contexts[ctx])
    ensures s'.(contexts := s'.contexts - {ctx}) == s.(contexts := s.contexts - {ctx})
  {
    assert s'.contexts - {ctx} == s.contexts - {ctx};
  }

  lemma EkCreated(s: State, ctx: nat, handle: u32, s': State)
    requires ctx in s.contexts && Conserved(s.contexts[ctx], 0, 0)
    requires T.CreatedKey(s, ctx, handle, RH_ENDORSEMENT, EkTemplate(), s')
    ensures handle != 0 && Conserved(s'.contexts[ctx], 0, handle) && Named(s'.contexts[ctx], 0, handle, [])
    ensures s' == WithContext(s, ctx, s'.contexts[ctx])
  {
    hide EkTemplate;
  }

  lemma AkCreated(s: State, ctx: nat, ekHandle: u32, handle: u32, area: bytes, s': State)
    requires ctx in s.contexts && ekHandle != 0
    requires Conserved(s.contexts[ctx], 0, ekHandle) && Named(s.contexts[ctx], 0, ekHandle, [])
    requires T.CreatedKey(s, ctx, handle, RH_OWNER, AkTemplate(), s')
    requires area == Framed(s'.contexts[ctx].transients[handle].public)
    ensures handle != 0 && area != [] && Conserved(s'.contexts[ctx], handle, ekHandle)
    ensures Named(s'.contexts[ctx], handle, ekHandle, area) && s' == WithContext(s, ctx, s'.contexts[ctx])
    ensures LostAmong(s.contexts[ctx], {}, s'.contexts[ctx])
  {
    hide EkTemplate, AkTemplate;
  }
}
