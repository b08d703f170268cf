/**
 * The TPM behind TBS, as far as this library can observe it. A submitted buffer is decoded and either performed,
 * with a well-formed reply, or refused; any command may be refused, whatever was asked.
 */
module TpmDevice {
  import opened Bytes
  import opened TpmWire
  import opened PcrBitmap

  // ---- State ----

  predicate IsTransientHandle(h: u32) { 0x8000_0000 <= h < 0x8100_0000 }
  predicate IsOwnerPersistentHandle(h: u32) { 0x8100_0000 <= h < 0x8180_0000 }
  predicate IsSessionHandle(h: u32) { 0x0200_0000 <= h < 0x0400_0000 }

  /** A primary key: where and from what it was made, and its TPMT_PUBLIC bytes. */
  datatype Key = Key(hierarchy: u32, template: Template, public: bytes)

  /**
   * One TBS context. `lostObjects` and `lostSessions` are bookkeeping: live handles whose flush was refused, which
   * stay live until the context is closed.
   */
  datatype Context = Context(transients: map<u32, Key>, sessions: map<u32, bool>, lostObjects: set<u32>,
                             lostSessions: set<u32>)

  /** Handles are of their kind, and only what is live can be lost. */
  predicate Sound(c: Context) {
    && (forall h | h in c.transients :: IsTransientHandle(h))
    && (forall h | h in c.sessions :: IsSessionHandle(h))
    && c.lostObjects <= c.transients.Keys && c.lostSessions <= c.sessions.Keys
  }

  const EMPTY_CONTEXT := Context(map[], map[], {}, {})

  datatype State = State(contexts: map<nat, Context>, persistent: map<u32, Key>, nv: map<u32, bytes>)

  /** The SHA-256 bank: the PCRs that are there, and what they hold. */
  type Pcrs = map<nat, PcrDigest>

  /**
   * What the chip computes that this model does not: credential recovery, attestation structures over the digests of
   * the selected PCRs, and signatures. And what the PCRs hold when its n-th command arrives: any software can extend
   * them between two commands, so `pcrs` is any function at all.
   */
  datatype Chip = Chip(
    unseal: (Key, Key, bytes, bytes) -> Option<bytes>,
    attest: (Key, bytes, Scheme, seq<Selection>, seq<bytes>) -> bytes,
    sign: (Key, bytes) -> bytes,
    pcrs: nat -> Pcrs)

  // ---- Replies ----

  datatype Answer =
    | Refused
    | Done(tag: u16, body: bytes)
    | Created(handle: u32, public: bytes, moreParams: bytes, authArea: bytes)
    | Started(handle: u32, nonce: bytes)
    | Recovered(secret: bytes, authArea: bytes)
    | Digested(counter: u32, selections: seq<Selection>, digests: seq<bytes>, moment: nat)
    | Attested(attest: bytes, signature: bytes, authArea: bytes, moment: nat)
    | NvDescribed(index: u32, nameAlg: u16, attributes: u32, policy: bytes, dataSize: u16, name: bytes)
    | NvContents(data: bytes, authArea: bytes)

  function FramedList(ds: seq<bytes>): bytes
    requires forall d | d in ds :: |d| < 0x1_0000
  {
    if ds == [] then [] else Framed(ds[0]) + FramedList(ds[1..])
  }

  function NvPublic(index: u32, nameAlg: u16, attributes: u32, policy: bytes, dataSize: u16): (b: bytes)
    requires |policy| < 0x1_0000
    ensures |b| == 14 + |policy|
  {
    U32(index) + (U16(nameAlg) + (U32(attributes) + (Framed(policy) + U16(dataSize))))
  }

  const MAX_REPLY := 4096

  /** The parts of a reply fit the 4096-byte buffer it is returned in. */
  predicate Small(a: Answer) {
    match a
    case Refused => true
    case Done(_, body) => |body| < MAX_REPLY
    case Created(_, public, params, area) => |public| + |params| + |area| < MAX_REPLY
    case Started(_, nonce) => |nonce| < MAX_REPLY
    case Recovered(secret, area) => |secret| + |area| < MAX_REPLY
    case Digested(_, selections, digests, _) =>
      |selections| < MAX_REPLY && |digests| < MAX_REPLY
      && (forall s | s in selections :: |s.bitmap| < 0x100) && (forall d | d in digests :: |d| < MAX_REPLY)
    case Attested(attest, signature, area, _) => |attest| + |signature| + |area| < MAX_REPLY
    case NvDescribed(_, _, _, policy, _, name) => |policy| + |name| < MAX_REPLY
    case NvContents(data, area) => |data| + |area| < MAX_REPLY
  }

  function ReplyTag(a: Answer): u16 {
    match a
    case Done(tag, _) => tag
    case Started(_, _) => ST_NO_SESSIONS
    case Digested(_, _, _, _) => ST_NO_SESSIONS
    case NvDescribed(_, _, _, _, _, _) => ST_NO_SESSIONS
    case _ => ST_SESSIONS
  }

  /** What follows the response code; replies to commands with sessions carry a parameter size. */
  function ReplyBody(a: Answer): bytes
    requires Small(a)
  {
    match a
    case Refused => []
    case Done(_, body) => body
    case Created(handle, public, params, area) =>
      U32(handle) + (U32(2 + |public| + |params|) + (Framed(public) + (params + area)))
    case Started(handle, nonce) => U32(handle) + Framed(nonce)
    case Recovered(secret, area) => U32(2 + |secret|) + (Framed(secret) + area)
    case Digested(counter, selections, digests, _) =>
      U32(counter) + (SelectionsBytes(selections) + (U32(|digests|) + FramedList(digests)))
    case Attested(attest, signature, area, _) => U32(2 + |attest| + |signature|) + (Framed(attest) + (signature + area))
    case NvDescribed(index, nameAlg, attributes, policy, dataSize, name) =>
      Framed(NvPublic(index, nameAlg, attributes, policy, dataSize)) + Framed(name)
    case NvContents(data, area) => U32(2 + |data|) + (Framed(data) + area)
  }

  function Reply(a: Answer): bytes
    requires Small(a)
  {
    U16(ReplyTag(a)) + (U32((10 + |ReplyBody(a)|) % 0x1_0000_0000) + (U32(0) + ReplyBody(a)))
  }

  /** The reply, if that is what it was, reports a failure or is too short to report anything. */
  predicate ReportsFailure(reply: bytes) {
    |reply| < 10 || ReadU32(reply, 6) != 0
  }

  // ---- What each command needs, answers and does ----

  predicate EmptyPassword(a: Auth) {
    a.session == RS_PW && a.nonce == [] && a.hmac == []
  }

  /** The authorization area of a reply: for each session a nonce, the attributes, and an acknowledgment. */
  predicate IsReplyArea(area: bytes, sessions: nat) {
    if sessions == 0 then area == [] else
    var nonce := TakeFramed(area);
    nonce.Some? && nonce.value.rest != [] &&
    var ack := TakeFramed(nonce.value.rest[1..]);
    ack.Some? && IsReplyArea(ack.value.rest, sessions - 1)
  }

  predicate KeepsSession(a: Auth) {
    a.attributes % 2 == 1
  }

  /** An stClear object cannot be made persistent. */
  predicate StClear(k: Key) { HasBit(k.template.attributes, 2) }

  /** A key by handle, as a context sees it. */
  function KeyAt(s: State, ctx: nat, handle: u32): Option<Key>
    requires ctx in s.contexts
  {
    if handle in s.contexts[ctx].transients then Some(s.contexts[ctx].transients[handle])
    else if handle in s.persistent then Some(s.persistent[handle])
    else None
  }

  /** The digests of the selected PCRs that exist, in ascending order from `pcr`. */
  function SelectedDigests(bitmap: bytes, pcrs: Pcrs, pcr: nat): seq<bytes>
    decreases 8 * |bitmap| - pcr
  {
    if pcr >= 8 * |bitmap| then []
    else (if Selects(bitmap, pcr) && pcr in pcrs then [pcrs[pcr]] else []) + SelectedDigests(bitmap, pcrs, pcr + 1)
  }

  /** What a quote attests: the digests of each selection in turn; there is no bank but SHA-256. */
  function QuotedDigests(selections: seq<Selection>, pcrs: Pcrs): seq<bytes> {
    if selections == [] then [] else
    (if selections[0].hash == ALG_SHA256 then SelectedDigests(selections[0].bitmap, pcrs, 0) else [])
    + QuotedDigests(selections[1..], pcrs)
  }

  /** An answer about PCRs is given from what they hold at the moment. */
  predicate Timely(a: Answer, moment: nat) {
    a.Digested? || a.Attested? ==> a.moment == moment
  }

  /** Whether the TPM may perform the command with this answer. */
  predicate Performs(chip: Chip, s: State, ctx: nat, c: Command, a: Answer)
    requires ctx in s.contexts
  {
    var context := s.contexts[ctx];
    Small(a) &&
    match c
    case PcrRead(selections) =>
      && a.Digested? && |selections| == 1 && selections[0].hash == ALG_SHA256
      && a.digests == SelectedDigests(selections[0].bitmap, chip.pcrs(a.moment), 0)
    case Quote(handle, auth, data, scheme, selections) =>
      && a.Attested? && EmptyPassword(auth) && KeyAt(s, ctx, handle).Some?
      && a.attest == chip.attest(KeyAt(s, ctx, handle).value, data, scheme, selections,
                                 QuotedDigests(selections, chip.pcrs(a.moment)))
      && a.signature == chip.sign(KeyAt(s, ctx, handle).value, a.attest) && IsReplyArea(a.authArea, 1)
    case FlushContext(handle) =>
      && a.Done? && (handle in context.transients || handle in context.sessions)
    case CreatePrimary(hierarchy, auth, userAuth, data, template, outside, pcrs) =>
      && a.Created? && EmptyPassword(auth) && hierarchy in {RH_OWNER, RH_ENDORSEMENT}
      && IsTransientHandle(a.handle) && a.handle !in context.transients && a.public != [] && IsReplyArea(a.authArea, 1)
    case StartAuthSession(key, bind, nonce, salt, sessionType, symmetric, hash) =>
      && a.Started? && key == RH_NULL && bind == RH_NULL && |nonce| >= 16
      && IsSessionHandle(a.handle) && a.handle !in context.sessions
    case PolicySecret(handle, session, auth, nonce, cpHash, policyRef, expiration) =>
      && a.Done? && a.tag == ST_SESSIONS && EmptyPassword(auth) && handle == RH_ENDORSEMENT
      && session in context.sessions
    case ActivateCredential(ak, ek, akAuth, ekAuth, blob, secret) =>
      && a.Recovered? && EmptyPassword(akAuth)
      && ak in context.transients && ek in context.transients
      && ekAuth.session in context.sessions && context.sessions[ekAuth.session] && IsReplyArea(a.authArea, 2)
      && chip.unseal(context.transients[ak], context.transients[ek], blob, secret) == Some(a.secret)
    case ReadPublic(handle) =>
      && a.Done? && KeyAt(s, ctx, handle).Some?
    case EvictControl(owner, handle, auth, persistent) =>
      && a.Done? && EmptyPassword(auth) && owner == RH_OWNER && IsOwnerPersistentHandle(persistent)
      && (if IsTransientHandle(handle)
          then handle in context.transients && persistent !in s.persistent && !StClear(context.transients[handle])
          else handle == persistent && handle in s.persistent)
    case NvReadPublic(index) =>
      && a.NvDescribed? && index in s.nv && a.index == index && a.dataSize == |s.nv[index]|
    case NvRead(handle, index, auth, size, offset) =>
      && a.NvContents? && EmptyPassword(auth) && handle == index && index in s.nv && IsReplyArea(a.authArea, 1)
      && 0 < |a.data| <= size && offset + |a.data| <= |s.nv[index]|
      && a.data == s.nv[index][offset..offset + |a.data|]
  }

  function WithContext(s: State, ctx: nat, context: Context): State {
    s.(contexts := s.contexts[ctx := context])
  }

  function FlushedFrom(c: Context, handle: u32): Context {
    Context(c.transients - {handle}, c.sessions - {handle}, c.lostObjects - {handle}, c.lostSessions - {handle})
  }

  function LostFrom(c: Context, handle: u32): Context {
    Context(c.transients, c.sessions,
            c.lostObjects + (if handle in c.transients then {handle} else {}),
            c.lostSessions + (if handle in c.sessions then {handle} else {}))
  }

  /** The state once a command has been performed. */
  function After(s: State, ctx: nat, c: Command, a: Answer): State
    requires ctx in s.contexts
  {
    var context := s.contexts[ctx];
    match c
    case FlushContext(handle) =>
      WithContext(s, ctx, FlushedFrom(context, handle))
    case CreatePrimary(hierarchy, _, _, _, template, _, _) =>
      if !a.Created? then s else
      WithContext(s, ctx, context.(transients := context.transients[a.handle := Key(hierarchy, template, a.public)]))
    case StartAuthSession(_, _, _, _, _, _, _) =>
      if !a.Started? then s else
      WithContext(s, ctx, context.(sessions := context.sessions[a.handle := false]))
    case PolicySecret(_, session, _, _, _, _, _) =>
      WithContext(s, ctx, context.(sessions := context.sessions[session := true]))
    case ActivateCredential(_, _, _, ekAuth, _, _) =>
      WithContext(s, ctx, context.(sessions :=
        if KeepsSession(ekAuth) then context.sessions[ekAuth.session := false]
        else context.sessions - {ekAuth.session}))
    case EvictControl(_, handle, _, persistent) =>
      if IsTransientHandle(handle) && handle in context.transients
      then s.(persistent := s.persistent[persistent := context.transients[handle]])
      else s.(persistent := s.persistent - {persistent})
    case _ => s
  }

  /** The state once a command has been refused: unchanged, but a handle whose flush was refused is lost. */
  function Unperformed(s: State, ctx: nat, c: Option<Command>): State {
    if ctx !in s.contexts || c.None? || !c.value.FlushContext? then s else
    WithContext(s, ctx, LostFrom(s.contexts[ctx], c.value.handle))
  }

  /** One submission: refused, or performed with a well-formed answer. */
  ghost predicate Step(chip: Chip, s: State, ctx: nat, c: Option<Command>, a: Answer, s': State) {
    if a.Refused? then s' == Unperformed(s, ctx, c)
    else c.Some? && ctx in s.contexts && Performs(chip, s, ctx, c.value, a) && s' == After(s, ctx, c.value, a)
  }

  // ---- Refusals ----

  /**
   * What was refused so far: flushes, probes for a key that is there, reads of NV indices that exist, and anything
   * else. A refusal to say that nothing is there is not one.
   */
  datatype Tally = Tally(refusals: nat, flushes: nat, probes: nat, withheld: set<u32>)

  const NOTHING_REFUSED := Tally(0, 0, 0, {})

  function Noted(t: Tally, s: State, ctx: nat, c: Option<Command>): Tally {
    if c.None? then Blamed(t, true) else
    match c.value
    case FlushContext(_) => t.(flushes := t.flushes + 1)
    case ReadPublic(handle) =>
      if ctx in s.contexts && KeyAt(s, ctx, handle).Some? then t.(probes := t.probes + 1) else t
    case NvReadPublic(index) => if index in s.nv then t.(withheld := t.withheld + {index}) else t
    case NvRead(_, index, _, _, _) => if index in s.nv then t.(withheld := t.withheld + {index}) else t
    case _ => Blamed(t, true)
  }

  /** A call that fails if and only if something it needed was refused. */
  function Blamed(t: Tally, failed: bool): Tally {
    if failed then t.(refusals := t.refusals + 1) else t
  }

  // ---- Logs of what was submitted ----

  predicate Activates(c: Option<Command>) { c.Some? && c.value.ActivateCredential? }

  /** More was submitted, but no activation. */
  ghost predicate Quiet(before: seq<Option<Command>>, after: seq<Option<Command>>) {
    before <= after && forall k | |before| <= k < |after| :: !Activates(after[k])
  }

  /** More was submitted, and at most one activation among it. */
  ghost predicate AtMostOne(before: seq<Option<Command>>, after: seq<Option<Command>>) {
    before <= after && forall j, k | |before| <= j < k < |after| :: !(Activates(after[j]) && Activates(after[k]))
  }

  lemma QuietStays(a: seq<Option<Command>>, b: seq<Option<Command>>, c: seq<Option<Command>>)
    ensures Quiet(a, b) && Quiet(b, c) ==> Quiet(a, c)
    ensures Quiet(a, b) && AtMostOne(b, c) ==> AtMostOne(a, c)
    ensures AtMostOne(a, b) && Quiet(b, c) ==> AtMostOne(a, c)
  {
    hide Activates;
    if |b| <= |c| && b <= c { assert forall k | 0 <= k < |b| :: c[k] == b[k]; }
  }

  /** Refusals only add up. */
  predicate Since(t: Tally, t': Tally) {
    t.refusals <= t'.refusals && t.flushes <= t'.flushes && t.probes <= t'.probes && t.withheld <= t'.withheld
  }

  class Tpm {
    const chip: Chip
    var state: State
    var tally: Tally
    /** Every buffer submitted, as the TPM decoded it. */
    var log: seq<Option<Command>>

    constructor (chip: Chip, state: State)
      ensures this.chip == chip && this.state == state && log == [] && tally == NOTHING_REFUSED
    {
      this.chip, this.state, log, tally := chip, state, [], NOTHING_REFUSED;
    }

    /** Tbsi_Context_Create. A TBS result other than success is a failing HRESULT. */
    method OpenContext() returns (tbs: u32, id: nat)
      modifies this`state, this`tally
      ensures tally == Blamed(old(tally), tbs != 0)
      ensures tbs == 0 || tbs >= 0x8000_0000
      ensures tbs != 0 ==> state == old(state)
      ensures tbs == 0 ==> id !in old(state).contexts && state == WithContext(old(state), id, EMPTY_CONTEXT)
    {
      tbs, id := *, *;
      if (tbs == 0 && id in state.contexts) || 0 < tbs < 0x8000_0000 { tbs := 0x8028_4001; }
      if tbs == 0 { state := WithContext(state, id, EMPTY_CONTEXT); } else { tally := Blamed(tally, true); }
    }

    /** Tbsip_Context_Close: whatever is live in the context goes with it. */
    method CloseContext(id: nat)
      modifies this`state
      ensures state == old(state).(contexts := old(state).contexts - {id})
    {
      state := state.(contexts := state.contexts - {id});
    }

    /** Tbsip_Submit_Command. */
    method Submit(ctx: nat, command: bytes) returns (tbs: u32, reply: bytes, ghost a: Answer)
      modifies this
      ensures log == old(log) + [Decode(command)]
      ensures tally == if a.Refused? then Noted(old(tally), old(state), ctx, Decode(command)) else old(tally)
      ensures Step(chip, old(state), ctx, Decode(command), a, state) && Timely(a, |old(log)|)
      ensures a.Refused? ==> tbs != 0 || ReportsFailure(reply)
      ensures !a.Refused? ==> Small(a) && tbs == 0 && reply == Reply(a)
    {
      hide Performs, After, Decode, Noted;
      var c, moment := Decode(command), |log|;
      log := log + [c];
      var answer: Answer := *;
      if c.Some? && ctx in state.contexts && !answer.Refused? && Timely(answer, moment)
        && Performs(chip, state, ctx, c.value, answer) {
        PerformsIsSmall(chip, state, ctx, c.value, answer);
        state := After(state, ctx, c.value, answer);
        tbs, reply, a := 0, Reply(answer), answer;
      } else {
        tally := Noted(tally, state, ctx, c);
        state := Unperformed(state, ctx, c);
        tbs, reply, a := *, *, Refused;
        if tbs == 0 && !ReportsFailure(reply) { reply := []; }
      }
    }
  }

  lemma PerformsIsSmall(chip: Chip, s: State, ctx: nat, c: Command, a: Answer)
    requires ctx in s.contexts && Performs(chip, s, ctx, c, a)
    ensures Small(a)
  {
  }
}
