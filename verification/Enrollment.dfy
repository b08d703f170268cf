/** RootHeraldEnrollBegin and RootHeraldEnrollComplete of src/client/rootherald_win.cpp. */
module Enrollment {
  import opened Bytes
  import opened Json
  import opened TpmWire
  import opened TpmDevice
  import opened TbsKeyProvider
  import opened EnrollmentRuns
  import opened JsonValues
  import T = TpmCommands
  import C = IntelChain
  import I = Intermediates
  import Base64

  datatype Status =
    | OK | INVALID_ARG | ELEVATION_REQUIRED | EK_READ_FAILED | TPM_UNAVAILABLE | AK_FAILED | NOT_ENROLLED
    | ACTIVATION_FAILED | QUOTE_FAILED | INTERNAL

  /** Owner-persistent NV slot for the AK. */
  const AK_SLOT: u32 := 0x8102_9301

  // ---- The enrollment object ----

  /** The enroll object's fields, in the ascending key order of the map. No EK certificate is an empty one. */
  function EnrollFields(ekPub: bytes, ekCert: bytes, intermediates: seq<bytes>, akPublicArea: bytes): seq<Field> {
    [Field("akPublicArea", Base64.Encode(akPublicArea))]
    + (if ekCert == [] then [] else [Field("ekCertPem", Pem(ekCert))])
    + (if intermediates == [] then [] else [Field("ekCertificateChain", PemArray(intermediates))])
    + [Field("ekPublicKey", Base64.Encode(ekPub)), Field("platform", "windows")]
  }

  function ActivateFields(deviceId: string, secret: bytes): seq<Field> {
    [Field("decryptedSecret", Base64.Encode(secret)), Field("deviceId", deviceId)]
  }

  /** A challenge with a field missing. */
  predicate Malformed(challenge: string) {
    || Get(challenge, "deviceId") == "" || Get(challenge, "credentialBlob") == ""
    || Get(challenge, "encryptedSecret") == ""
  }

  /** A call from the host, with what the platform supplies to it. */
  datatype Call =
    | Begin(elevated: bool, ekPub: bytes, ekCert: bytes, store: seq<bytes>, memory: bool)
    | Complete(challenge: string, memory: bool)

  /**
   * No chain, when the TPM cannot be opened; else the on-die one, cut from the sixteen slots as they were read,
   * merged with the store.
   */
  ghost predicate Gathered(nv: map<u32, bytes>, withheld: set<u32>, slots: seq<bytes>, store: seq<bytes>,
                           sha256: I.Hash,
                           merged: seq<bytes>)
  {
    if slots == [] then merged == [] else
    && T.SlotsRead(nv, withheld, slots)
    && I.IsMerge(C.Cut(C.Flatten(slots), 0, C.MAX_CERTIFICATES), store, sha256, merged)
  }

  // ---- What a call answers for ----

  datatype Outcome = Outcome(status: Status, json: Option<string>)

  datatype Platform = Platform(chip: Chip, decode64: string -> bytes, sha256: I.Hash, nv: map<u32, bytes>)

  /** Whether the challenge of a Complete call yields this secret with these keys. */
  ghost predicate Yields(p: Platform, challenge: string, flight: Flight, secret: bytes)
    requires flight.InFlight?
  {
    T.Unseals(p.chip, flight.ak, flight.ek,
              p.decode64(Get(challenge, "credentialBlob")), p.decode64(Get(challenge, "encryptedSecret")), secret)
  }

  /** What EnrollBegin returned, and why, and what it was an event of. */
  ghost predicate BeginAccounts(p: Platform, call: Call, o: Outcome, e: Event, t: Tally, t': Tally)
    requires call.Begin?
  {
    && (e.Begun? || e.BeginFailed?) && (e.Begun? <==> o.status == OK) && (o.json.Some? <==> o.status == OK)
    && o.status in {OK, ELEVATION_REQUIRED, EK_READ_FAILED, INTERNAL, TPM_UNAVAILABLE, AK_FAILED}
    && (o.status == ELEVATION_REQUIRED <==> !call.elevated)
    && (o.status == EK_READ_FAILED <==> call.elevated && call.ekPub == [])
    && (o.status == INTERNAL ==> !call.memory) && (o.status == OK ==> call.memory)
    && (o.status == TPM_UNAVAILABLE || o.status == AK_FAILED ==> t'.refusals > t.refusals)
    && (o.status == OK ==> exists slots, intermediates ::
          && Gathered(p.nv, t'.withheld, slots, call.store, p.sha256, intermediates)
          && (slots == [] ==> t'.refusals > t.refusals)
          && o.json == Some(Text(EnrollFields(call.ekPub, call.ekCert, intermediates, e.publicArea))))
  }

  /** What EnrollComplete returned, and why, and what it was an event of. */
  ghost predicate CompleteAccounts(p: Platform, challenge: string, memory: bool, flight: Flight, o: Outcome, e: Event,
                                   t: Tally, t': Tally)
  {
    && !e.Begun? && !e.BeginFailed?
    && (o.status == NOT_ENROLLED <==> flight.Idle?)
    && (o.status == INVALID_ARG <==> flight.InFlight? && Malformed(challenge))
    && (e.Rejected? <==> o.status == NOT_ENROLLED || o.status == INVALID_ARG)
    && (o.status == ACTIVATION_FAILED <==> e.ActivationFailed?) && (o.status == AK_FAILED <==> e.PersistFailed?)
    && (o.status == OK <==> e.Completed? && memory) && (o.status == INTERNAL <==> e.Completed? && !memory)
    && (e.PersistFailed? || e.Completed? ==> flight.InFlight? && Yields(p, challenge, flight, e.secret))
    && (e.PersistFailed? ==> t'.refusals > t.refusals)
    && (e.ActivationFailed? ==> flight.InFlight? && (t'.refusals > t.refusals || Yields(p, challenge, flight, [])))
    && o.json == (if o.status == OK then Some(Text(ActivateFields(Get(challenge, "deviceId"), e.secret))) else None)
  }

  ghost predicate Accounts(p: Platform, call: Call, a: EnrollmentRuns.Enrollment, o: Outcome, e: Event, t: Tally,
                           t': Tally) {
    Since(t, t') &&
    match call
    case Begin(_, _, _, _, _) => BeginAccounts(p, call, o, e, t, t')
    case Complete(challenge, memory) => CompleteAccounts(p, challenge, memory, a.flight, o, e, t, t')
  }

  /** What one call submitted. */
  ghost predicate Logged(call: Call, o: Outcome, e: Event, log: seq<Option<Command>>, log': seq<Option<Command>>) {
    match call
    case Begin(_, _, _, _, _) => Quiet(log, log') && (o.status == OK ==> MintsAk(log, log'))
    case Complete(_, _) => AtMostOne(log, log') && (e.Rejected? ==> log' == log)
  }

  /** A run with everything seen along the way: between calls the enrollment, the tally and the log. */
  datatype Record = Record(calls: seq<Call>, outcomes: seq<Outcome>, states: seq<EnrollmentRuns.Enrollment>,
                           events: seq<Event>,
                           tallies: seq<Tally>, logs: seq<seq<Option<Command>>>)

  ghost predicate IsRecord(p: Platform, r: Record) {
    && |r.outcomes| == |r.events| == |r.calls| && |r.states| == |r.tallies| == |r.logs| == |r.calls| + 1
    && IsRun(r.states, r.events)
    && (forall i | 0 <= i < |r.calls| ::
          Accounts(p, r.calls[i], r.states[i], r.outcomes[i], r.events[i], r.tallies[i], r.tallies[i + 1]))
    && (forall i | 0 <= i < |r.calls| :: Logged(r.calls[i], r.outcomes[i], r.events[i], r.logs[i], r.logs[i + 1]))
  }

  // ---- The driver ----

  class Client {
    const device: Tpm
    /** The digest and Base64 reader of the platform. */
    const sha256: bytes -> bytes
    const decode64: string -> bytes
    /** g_enrollProvider. */
    var provider: Provider?

    constructor (device: Tpm, sha256: bytes -> bytes, decode64: string -> bytes)
      requires device.state.contexts == map[]
      ensures this.device == device && this.sha256 == sha256 && this.decode64 == decode64
      ensures provider == null && Valid() && Abs().flight == Idle
    {
      this.device, this.sha256, this.decode64, provider := device, sha256, decode64, null;
    }

    /** Nothing was lost in the provider's context: live in it are exactly the keys held, and no session. */
    ghost predicate Spotless(p: Provider)
      reads p, p.tpm, p.tpm.tpm
    {
      && p.tpm.context.Some? && p.tpm.context.value in p.tpm.tpm.state.contexts
      && p.tpm.tpm.state.contexts[p.tpm.context.value].lostObjects == {}
      && p.tpm.tpm.state.contexts[p.tpm.context.value].transients.Keys == Held(p.akHandle, p.ekHandle)
      && p.tpm.tpm.state.contexts[p.tpm.context.value].sessions == map[]
    }

    /** In flight means both handles and a public area, and nothing else live in the TPM on our account. */
    ghost predicate InFlightValid()
      requires provider != null
      reads this, device, provider, provider.tpm, provider.tpm.tpm
    {
      && provider.Valid() && provider.tpm.tpm == device && provider.persistentHandle == AK_SLOT
      && provider.tpm.context.Some? && provider.akHandle != 0 && provider.ekHandle != 0 && provider.akPublicArea != []
      && Spotless(provider)
    }

    ghost predicate Holds()
      reads this, device, provider, if provider == null then {} else {provider.tpm, provider.tpm.tpm}
    {
      provider == null || InFlightValid()
    }

    ghost function OpenContexts(): set<nat>
      reads this, device, provider, if provider == null then {} else {provider.tpm, provider.tpm.tpm}
    {
      if provider == null || provider.tpm.context == None then {} else {provider.tpm.context.value}
    }

    /** No context is open but that of the enrollment in flight. */
    ghost predicate Valid()
      reads this, device, provider, if provider == null then {} else {provider.tpm, provider.tpm.tpm}
    {
      Holds() && device.state.contexts.Keys == OpenContexts()
    }

    ghost function Abs(): EnrollmentRuns.Enrollment
      requires Holds()
      reads this, device, provider, if provider == null then {} else {provider.tpm, provider.tpm.tpm}
    {
      var slot := if AK_SLOT in device.state.persistent then Some(device.state.persistent[AK_SLOT]) else None;
      if provider == null then Enrollment(Idle, slot) else
      var keys := device.state.contexts[provider.tpm.context.value].transients;
      Enrollment(InFlight(keys[provider.akHandle], keys[provider.ekHandle]), slot)
    }

    /** The on-die chain read in a context of its own, merged with the Windows store. */
    method GatherIntermediates(store: seq<bytes>) returns (merged: seq<bytes>, ghost slots: seq<bytes>)
      modifies device
      ensures device.state == old(device.state) && |merged| <= I.MAX_INTERMEDIATES
      ensures Since(old(device.tally), device.tally) && Quiet(old(device.log), device.log)
      ensures slots == [] ==> device.tally.refusals > old(device.tally).refusals
      ensures Gathered(device.state.nv, device.tally.withheld, slots, store, sha256, merged)
    {
      hide I.IsMerge, C.Cut, T.ReadAs, Activates;
      merged, slots := [], [];
      var tpm := new T.TpmCommands(device);
      var hr := tpm.Open();
      if !T.Failed(hr) {
        var chain;
        chain, slots := tpm.ReadIntelOdcaIntermediates([]);
        assert [] + C.Cut(C.Flatten(slots), 0, C.MAX_CERTIFICATES) == C.Cut(C.Flatten(slots), 0, C.MAX_CERTIFICATES);
        merged := I.Merge(chain, store, sha256);
      }
      tpm.Close();
      assert device.state.contexts == old(device.state).contexts;
    }

    /** A new provider with both keys minted, or no trace of one. */
    method MintProvider() returns (status: Status, p: Provider)
      modifies device
      ensures status == OK || status == TPM_UNAVAILABLE || status == AK_FAILED
      ensures device.tally == Blamed(old(device.tally).(flushes := device.tally.flushes), status != OK)
      ensures Since(old(device.tally), device.tally) && Quiet(old(device.log), device.log)
      ensures status == OK ==> MintsAk(old(device.log), device.log) && Spotless(p)
      ensures fresh(p) && fresh(p.tpm) && p.tpm.tpm == device && p.persistentHandle == AK_SLOT
      ensures status != OK ==> device.state == old(device.state)
      ensures status == OK ==>
        && p.Valid() && p.tpm.context.Some? && p.akHandle != 0 && p.ekHandle != 0 && p.akPublicArea != []
        && p.tpm.context.value !in old(device.state).contexts && p.OnlyContext(old(device.state))
    {
      hide Conserved, Named, Sound, Quiet, MintsAk, FlushTried;
      p := new Provider(device, AK_SLOT);
      SameLog(device.log);
      var hr := p.Open();
      if T.Failed(hr) { return TPM_UNAVAILABLE, p; }
      ghost var ctx, s1, t1 := p.tpm.context.value, device.state, device.tally;
      ghost var minted;
      hr, minted := p.CreateAk();
      ghost var s2, l2 := device.state, device.log;
      Fresh(p, s1, t1, minted, T.Failed(hr));
      if T.Failed(hr) {
        p.Close();
        QuietStays(old(device.log), l2, device.log);
        ContextGone(old(device.state), ctx, s1, s2, device.state);
        return AK_FAILED, p;
      }
      return OK, p;
    }

    /** In a context that was empty, what a provider holds after minting is all there is. */
    lemma Fresh(p: Provider, s: State, t: Tally, minted: set<u32>, failed: bool)
      requires p.Valid() && p.tpm.context.Some? && p.tpm.context.value in s.contexts
      requires s.contexts[p.tpm.context.value] == EMPTY_CONTEXT
      requires p.Flushed(s, Held(0, 0) + minted, Blamed(t, failed)) && (!failed ==> minted == {})
      ensures Since(t, p.tpm.tpm.tally) && p.tpm.tpm.tally == Blamed(t, failed).(flushes := p.tpm.tpm.tally.flushes)
      ensures !failed ==> Spotless(p)
    {
      hide Named, Sound;
      assert Held(0, 0) == {};
    }

    /** What is in flight is not touched by what happens in another context. */
    twostate lemma StillHolds(ctx: nat)
      requires old(Valid()) && unchanged(this) && (provider != null ==> unchanged(provider) && unchanged(provider.tpm))
      requires ctx !in old(device.state).contexts && ctx in device.state.contexts
      requires device.state == WithContext(old(device.state), ctx, device.state.contexts[ctx])
      ensures Holds()
    {
      hide Conserved, Named, Sound;
    }

    /** DeleteAk, and then the destructor: no trace of the provider remains. */
    method Discard(p: Provider, ghost before: State)
      requires p.Valid() && p.tpm.tpm == device && p.tpm.context.Some?
      requires p.tpm.context.value !in before.contexts && p.OnlyContext(before)
      modifies p, p.tpm, device
      ensures device.state == before && Quiet(old(device.log), device.log)
      ensures device.tally == old(device.tally).(flushes := device.tally.flushes)
      ensures Since(old(device.tally), device.tally)
    {
      hide Conserved, Named, Sound, Quiet, LostAmong;
      ghost var s2, ctx := device.state, p.tpm.context.value;
      var _ := p.DeleteAk();
      ghost var s3, l3 := device.state, device.log;
      p.Close();
      QuietStays(old(device.log), l3, device.log);
      ContextGone(before, ctx, s2, s3, device.state);
    }

    /** Parks the new provider; the one it replaces, if any, is destroyed, and its context with it. */
    method Park(p: Provider, ghost before: State)
      requires Holds() && before.contexts.Keys == OpenContexts()
      requires p != provider && (provider != null ==> p.tpm != provider.tpm) && p.tpm.tpm == device
      requires p.Valid() && p.persistentHandle == AK_SLOT && p.tpm.context.Some?
      requires p.akHandle != 0 && p.ekHandle != 0 && p.akPublicArea != [] && Spotless(p)
      requires p.tpm.context.value !in before.contexts && p.OnlyContext(before)
      modifies this`provider, device, provider, if provider == null then {} else {provider.tpm}
      ensures provider == p && Valid()
      ensures device.state.persistent == old(device.state).persistent && device.state.nv == old(device.state).nv
      ensures p.akPublicArea == old(p.akPublicArea)
      ensures device.tally == old(device.tally).(flushes := device.tally.flushes)
      ensures Since(old(device.tally), device.tally)
      ensures Quiet(old(device.log), device.log)
      ensures Abs().flight.InFlight? && IsAk(Abs().flight.ak) && IsEk(Abs().flight.ek)
      ensures p.akPublicArea == Framed(Abs().flight.ak.public)
    {
      var replaced := provider;
      provider := p;
      if replaced != null { replaced.Close(); }
    }

    /** From here on the call touches the TPM's keys: mints them, builds the object, and parks the provider. */
    method Launch(ekPub: bytes, ekCert: bytes, intermediates: seq<bytes>, memory: bool)
      returns (status: Status, json: Option<string>, ghost e: Event)
      requires Valid()
      modifies this`provider, device, provider, if provider == null then {} else {provider.tpm}
      ensures Valid() && Next(old(Abs()), e, Abs()) && (e.Begun? || e.BeginFailed?)
      ensures status == OK || status == TPM_UNAVAILABLE || status == AK_FAILED || status == INTERNAL
      ensures status == OK <==> e.Begun?
      ensures status == OK ==> provider != null && fresh(provider) && fresh(provider.tpm)
      ensures status == INTERNAL ==> !memory
      ensures status == OK ==> memory
      ensures Since(old(device.tally), device.tally) && device.tally.withheld == old(device.tally).withheld
      ensures status == TPM_UNAVAILABLE || status == AK_FAILED ==> device.tally.refusals > old(device.tally).refusals
      ensures Quiet(old(device.log), device.log) && (status == OK ==> MintsAk(old(device.log), device.log))
      ensures json ==
        if status == OK then Some(Text(EnrollFields(ekPub, ekCert, intermediates, e.publicArea))) else None
      ensures status != OK ==> provider == old(provider) && device.state == old(device.state)
      ensures device.state.persistent == old(device.state).persistent && device.state.nv == old(device.state).nv
    {
      hide Conserved, Named, Sound, EnrollFields, Text, Quiet, MintsAk, InFlightValid, FlushTried;
      json, e := None, BeginFailed;
      var p;
      status, p := MintProvider();
      ghost var l1 := device.log;
      if status != OK { SameHolds(); return; }
      var text := JsonBuild(EnrollFields(ekPub, ekCert, intermediates, p.akPublicArea));
      if !memory {
        Discard(p, old(device.state));
        QuietStays(old(device.log), l1, device.log);
        SameHolds();
        return INTERNAL, json, e;
      }
      ghost var publicArea := p.akPublicArea;
      StillHolds(p.tpm.context.value);
      Park(p, old(device.state));
      QuietStays(old(device.log), l1, device.log);
      MintLoggedLater(old(device.log), l1, device.log);
      json, e := Some(text), Begun(publicArea);
    }

    /**
     * Everything the call reads from the platform is an argument: elevation, the EK public key (empty when it
     * cannot be read) and certificate, the Windows intermediate store, and whether memory can be had.
     */
    method EnrollBegin(elevated: bool, ekPub: bytes, ekCert: bytes, store: seq<bytes>, memory: bool)
      returns (status: Status, json: Option<string>, ghost e: Event)
      requires Valid()
      modifies this`provider, device, provider, if provider == null then {} else {provider.tpm}
      ensures Valid() && Next(old(Abs()), e, Abs())
      ensures BeginAccounts(PlatformOf(), Begin(elevated, ekPub, ekCert, store, memory), Outcome(status, json), e,
                            old(device.tally), device.tally)
      ensures status == OK ==> provider != null && fresh(provider) && fresh(provider.tpm)
      ensures status != OK ==> provider == old(provider) && device.state == old(device.state)
      ensures Since(old(device.tally), device.tally)
      ensures Quiet(old(device.log), device.log) && (status == OK ==> MintsAk(old(device.log), device.log))
      ensures device.state.persistent == old(device.state).persistent && device.state.nv == old(device.state).nv
    {
      hide InFlightValid, EnrollFields, Text, Gathered, Quiet, MintsAk, Next;
      SameLog(device.log);
      json, e := None, BeginFailed;
      if !elevated { NothingBegan(Abs()); return ELEVATION_REQUIRED, json, e; }
      if ekPub == [] { NothingBegan(Abs()); return EK_READ_FAILED, json, e; }
      var intermediates;
      ghost var slots;
      intermediates, slots := GatherIntermediates(store);
      SameHolds();
      ghost var l1 := device.log;
      status, json, e := Launch(ekPub, ekCert, intermediates, memory);
      QuietStays(old(device.log), l1, device.log);
      MintLoggedLater(old(device.log), l1, device.log);
    }

    /** Nothing here depends on the log or the tally. */
    twostate lemma SameHolds()
      requires old(Valid()) && unchanged(this) && (provider != null ==> unchanged(provider) && unchanged(provider.tpm))
      requires device.state == old(device.state)
      ensures Valid() && Abs() == old(Abs())
    {
      hide Conserved, Named, Sound;
    }

    /** Drops what is in flight: its destructor closes the context. */
    method Drop()
      requires provider != null && provider.Valid() && provider.tpm.tpm == device && provider.tpm.context.Some?
      requires device.state.contexts.Keys == {provider.tpm.context.value}
      modifies this`provider, device, provider, provider.tpm
      ensures provider == null && Valid()
      ensures device.state.persistent == old(device.state).persistent && device.state.nv == old(device.state).nv
      ensures device.tally == old(device.tally).(flushes := device.tally.flushes)
      ensures Since(old(device.tally), device.tally)
      ensures Quiet(old(device.log), device.log)
    {
      var dropped := provider;
      dropped.Close();
      provider := null;
    }

    /** The activation failed: the keys are flushed and the provider destroyed. */
    method Abandon()
      requires provider != null && provider.Valid() && provider.tpm.tpm == device && provider.tpm.context.Some?
      requires device.state.contexts.Keys == {provider.tpm.context.value}
      modifies this`provider, device, provider, provider.tpm
      ensures provider == null && Valid()
      ensures device.state.persistent == old(device.state).persistent && device.state.nv == old(device.state).nv
      ensures device.tally == old(device.tally).(flushes := device.tally.flushes)
      ensures Since(old(device.tally), device.tally)
      ensures Quiet(old(device.log), device.log)
    {
      hide Conserved, Named, Sound, Quiet, FlushTried;
      var _ := provider.DeleteAk();
      ghost var l1 := device.log;
      Drop();
      QuietStays(old(device.log), l1, device.log);
    }

    /** Activation proved: the AK is evicted to the slot, and the provider destroyed either way. */
    method Keep(secret: bytes, ghost ak: Key) returns (status: Status, ghost e: Event)
      requires provider != null && provider.Valid() && provider.tpm.tpm == device && provider.tpm.context.Some?
      requires provider.persistentHandle == AK_SLOT && provider.akHandle != 0
      requires device.state.contexts.Keys == {provider.tpm.context.value}
      requires provider.akHandle in device.state.contexts[provider.tpm.context.value].transients
      requires ak == device.state.contexts[provider.tpm.context.value].transients[provider.akHandle]
      modifies this`provider, device, provider, provider.tpm
      ensures provider == null && Valid() && device.state.nv == old(device.state).nv
      ensures status == (if e.PersistFailed? then AK_FAILED else OK)
      ensures if e.PersistFailed?
        then e == PersistFailed(secret) && device.tally.refusals > old(device.tally).refusals
          && (device.state.persistent == old(device.state).persistent
              || device.state.persistent == old(device.state).persistent - {AK_SLOT})
        else e == Completed(secret) && device.state.persistent == old(device.state).persistent[AK_SLOT := ak]
      ensures Since(old(device.tally), device.tally) && device.tally.withheld == old(device.tally).withheld
      ensures Quiet(old(device.log), device.log)
    {
      hide Conserved, Named, Sound, Quiet, FlushTried;
      var hr := provider.PersistAk();
      ghost var l1 := device.log;
      if T.Failed(hr) {
        Drop();
        QuietStays(old(device.log), l1, device.log);
        return AK_FAILED, PersistFailed(secret);
      }
      Drop();
      QuietStays(old(device.log), l1, device.log);
      return OK, Completed(secret);
    }

    /** The TPM half of EnrollComplete: the in-flight keys are used once, whatever happens. */
    method Redeem(credentialBlob: bytes, encryptedSecret: bytes) returns (status: Status, secret: bytes, ghost e: Event)
      requires Valid() && provider != null
      modifies this`provider, device, provider, provider.tpm
      ensures Valid() && provider == null && Next(old(Abs()), e, Abs()) && IsActivation(e)
      ensures status == (if e.ActivationFailed? then ACTIVATION_FAILED else if e.PersistFailed? then AK_FAILED else OK)
      ensures status == OK ==> e == Completed(secret)
      ensures !e.ActivationFailed? ==>
        T.Unseals(device.chip, old(Abs()).flight.ak, old(Abs()).flight.ek, credentialBlob, encryptedSecret, e.secret)
      ensures Since(old(device.tally), device.tally) && device.tally.withheld == old(device.tally).withheld
      ensures AtMostOne(old(device.log), device.log) && device.state.nv == old(device.state).nv
      ensures e.PersistFailed? ==> device.tally.refusals > old(device.tally).refusals
      ensures e.ActivationFailed? ==>
        || device.tally.refusals > old(device.tally).refusals
        || T.Unseals(device.chip, old(Abs()).flight.ak, old(Abs()).flight.ek, credentialBlob, encryptedSecret, [])
    {
      hide Named, Sound, T.Unseals, Quiet, AtMostOne, FlushTried, LostAmong, T.SessionLost;
      ghost var ak, ek := Abs().flight.ak, Abs().flight.ek;
      var hr;
      ghost var session;
      hr, secret, session := provider.ActivateCredential(credentialBlob, encryptedSecret);
      ghost var l1 := device.log;
      if T.Failed(hr) || secret == [] {
        Abandon();
        QuietStays(old(device.log), l1, device.log);
        return ACTIVATION_FAILED, [], ActivationFailed;
      }
      status, e := Keep(secret, ak);
      QuietStays(old(device.log), l1, device.log);
      if status != OK { secret := []; }
    }

    method EnrollComplete(challenge: string, memory: bool)
      returns (status: Status, json: Option<string>, ghost e: Event)
      requires Valid()
      modifies this`provider, device, provider, if provider == null then {} else {provider.tpm}
      ensures Valid() && Next(old(Abs()), e, Abs()) && (provider == null || provider == old(provider))
      ensures CompleteAccounts(PlatformOf(), challenge, memory, old(Abs()).flight, Outcome(status, json), e,
                               old(device.tally), device.tally)
      ensures e.Rejected? ==>
        provider == old(provider) && device.state == old(device.state) && device.log == old(device.log)
      ensures Since(old(device.tally), device.tally) && device.tally.withheld == old(device.tally).withheld
      ensures AtMostOne(old(device.log), device.log) && device.state.nv == old(device.state).nv
    {
      hide Text, Get, ActivateFields, T.Unseals, InFlightValid, Next, AtMostOne, CompleteAccounts, Malformed;
      json, e := None, Rejected;
      NothingBegan(Abs());
      SameLog(device.log);
      RejectedAccounts(PlatformOf(), challenge, memory, Abs().flight, device.tally);
      if provider == null { return NOT_ENROLLED, json, e; }
      var deviceId := JsonGet(challenge, "deviceId");
      var credBlob := JsonGet(challenge, "credentialBlob");
      var encSecret := JsonGet(challenge, "encryptedSecret");
      MalformedMeans(challenge);
      if deviceId == "" || credBlob == "" || encSecret == "" { return INVALID_ARG, json, e; }
      ghost var flight := Abs().flight;
      var secret;
      status, secret, e := Redeem(decode64(credBlob), decode64(encSecret));
      RedeemedAccounts(PlatformOf(), challenge, memory, flight, status, secret, e, old(device.tally), device.tally);
      if status != OK { return; }
      var text := JsonBuild(ActivateFields(deviceId, secret));
      if !memory { return INTERNAL, json, e; }
      json := Some(text);
    }

    /** One call from the host. */
    method Perform(call: Call) returns (o: Outcome, ghost e: Event)
      requires Valid()
      modifies this`provider, device, provider, if provider == null then {} else {provider.tpm}
      ensures Valid() && (provider != null ==> provider == old(provider) || (fresh(provider) && fresh(provider.tpm)))
      ensures device.state.nv == old(device.state).nv && Next(old(Abs()), e, Abs())
      ensures Accounts(PlatformOf(), call, old(Abs()), o, e, old(device.tally), device.tally)
      ensures Logged(call, o, e, old(device.log), device.log)
    {
      hide Next, Accounts, Logged, InFlightValid;
      match call {
        case Begin(_, _, _, _, _) => o, e := PerformBegin(call);
        case Complete(_, _) => o, e := PerformComplete(call);
      }
    }

    method PerformBegin(call: Call) returns (o: Outcome, ghost e: Event)
      requires call.Begin?
      requires Valid()
      modifies this`provider, device, provider, if provider == null then {} else {provider.tpm}
      ensures Valid() && (provider != null ==> provider == old(provider) || (fresh(provider) && fresh(provider.tpm)))
      ensures device.state.nv == old(device.state).nv && Next(old(Abs()), e, Abs())
      ensures Accounts(PlatformOf(), call, old(Abs()), o, e, old(device.tally), device.tally)
      ensures Logged(call, o, e, old(device.log), device.log)
    {
      hide Next, BeginAccounts, CompleteAccounts, InFlightValid, Quiet, AtMostOne, MintsAk, Since;
      var status, json;
      status, json, e := EnrollBegin(call.elevated, call.ekPub, call.ekCert, call.store, call.memory);
      o := Outcome(status, json);
    }

    method PerformComplete(call: Call) returns (o: Outcome, ghost e: Event)
      requires call.Complete?
      requires Valid()
      modifies this`provider, device, provider, if provider == null then {} else {provider.tpm}
      ensures Valid() && (provider != null ==> provider == old(provider) || (fresh(provider) && fresh(provider.tpm)))
      ensures device.state.nv == old(device.state).nv && Next(old(Abs()), e, Abs())
      ensures Accounts(PlatformOf(), call, old(Abs()), o, e, old(device.tally), device.tally)
      ensures Logged(call, o, e, old(device.log), device.log)
    {
      hide Next, BeginAccounts, CompleteAccounts, InFlightValid, Quiet, AtMostOne, MintsAk, Since;
      var status, json;
      status, json, e := EnrollComplete(call.challenge, call.memory);
      o := Outcome(status, json);
    }

    /** Any sequence of calls is a run of the protocol, call by call accounted for, whatever the TPM refuses. */
    method Run(calls: seq<Call>) returns (outcomes: seq<Outcome>, ghost r: Record)
      requires Valid() && provider == null
      modifies this`provider, device
      ensures Valid() && device.state.nv == old(device.state).nv
      ensures IsRecord(PlatformOf(), r) && r.calls == calls && r.outcomes == outcomes
      ensures r.states[0] == old(Abs()) && r.states[|calls|] == Abs()
      ensures r.logs[0] == old(device.log) && r.logs[|calls|] == device.log
      ensures r.tallies[0] == old(device.tally) && r.tallies[|calls|] == device.tally
    {
      hide Next, Accounts, Logged, InFlightValid;
      outcomes := [];
      ghost var states, events, tallies, logs := [Abs()], [], [device.tally], [device.log];
      for i := 0 to |calls|
        invariant Valid() && (provider != null ==> fresh(provider) && fresh(provider.tpm))
        invariant device.state.nv == old(device.state).nv
        invariant |outcomes| == |events| == i && |states| == |tallies| == |logs| == i + 1
        invariant states[0] == old(Abs()) && tallies[0] == old(device.tally) && logs[0] == old(device.log)
        invariant states[i] == Abs() && tallies[i] == device.tally && logs[i] == device.log
        invariant forall k | 0 <= k < i :: Next(states[k], events[k], states[k + 1])
        invariant forall k | 0 <= k < i ::
          Accounts(PlatformOf(), calls[k], states[k], outcomes[k], events[k], tallies[k], tallies[k + 1])
        invariant forall k | 0 <= k < i :: Logged(calls[k], outcomes[k], events[k], logs[k], logs[k + 1])
      {
        var o;
        ghost var e;
        o, e := Perform(calls[i]);
        outcomes := outcomes + [o];
        states, events, tallies, logs := states + [Abs()], events + [e], tallies + [device.tally], logs + [device.log];
      }
      r := Record(calls, outcomes, states, events, tallies, logs);
    }

    /** What a run's outcomes depend on beside the calls. */
    ghost function PlatformOf(): Platform
      reads device
    {
      Platform(device.chip, decode64, sha256, device.state.nv)
    }
  }

  lemma RejectedAccounts(p: Platform, challenge: string, memory: bool, flight: Flight, t: Tally)
    ensures flight.Idle? ==> CompleteAccounts(p, challenge, memory, flight, Outcome(NOT_ENROLLED, None), Rejected, t, t)
    ensures flight.InFlight? && Malformed(challenge) ==>
      CompleteAccounts(p, challenge, memory, flight, Outcome(INVALID_ARG, None), Rejected, t, t)
  {
    hide Malformed, Text, Get, ActivateFields, Yields;
  }

  lemma RedeemedAccounts(p: Platform, challenge: string, memory: bool, flight: Flight, status: Status, secret: bytes,
                         e: Event,
                         t: Tally, t': Tally)
    requires flight.InFlight? && !Malformed(challenge) && IsActivation(e)
    requires status == (if e.ActivationFailed? then ACTIVATION_FAILED else if e.PersistFailed? then AK_FAILED else OK)
    requires status == OK ==> e == Completed(secret)
    requires !e.ActivationFailed? ==> Yields(p, challenge, flight, e.secret)
    requires e.PersistFailed? ==> t'.refusals > t.refusals
    requires e.ActivationFailed? ==> t'.refusals > t.refusals || Yields(p, challenge, flight, [])
    ensures status != OK ==> CompleteAccounts(p, challenge, memory, flight, Outcome(status, None), e, t, t')
    ensures status == OK && !memory ==>
      CompleteAccounts(p, challenge, memory, flight, Outcome(INTERNAL, None), e, t, t')
    ensures status == OK && memory ==>
      CompleteAccounts(p, challenge, memory, flight,
                       Outcome(OK, Some(Text(ActivateFields(Get(challenge, "deviceId"), secret)))), e, t, t')
  {
    hide Malformed, Text, Get, ActivateFields, Yields;
  }

  lemma MalformedMeans(challenge: string)
    ensures Malformed(challenge) <==>
      || Get(challenge, "deviceId") == "" || Get(challenge, "credentialBlob") == ""
      || Get(challenge, "encryptedSecret") == ""
  {
    hide Get;
  }

  lemma NothingBegan(a: EnrollmentRuns.Enrollment)
    ensures Next(a, BeginFailed, a) && Next(a, Rejected, a)
  {
  }

  /** A context opened, used and closed leaves the device as it was. */
  lemma ContextGone(s0: State, ctx: nat, s1: State, s2: State, s3: State)
    requires ctx !in s0.contexts && ctx in s1.contexts && ctx in s2.contexts
    requires s1 == WithContext(s0, ctx, s1.contexts[ctx]) && s2 == WithContext(s1, ctx, s2.contexts[ctx])
    requires s3 == s2.(contexts := s2.contexts - {ctx})
    ensures s3 == s0
  {
    assert s3.contexts == s0.contexts;
  }
}
