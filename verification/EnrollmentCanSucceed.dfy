/**
 * The device's rules do not rule enrollment out: a TPM that refuses nothing can answer every command of an
 * enrollment, and the answers lead from an empty context to the AK in its slot and nothing else changed.
 */
module EnrollmentCanSucceed {
  import opened Bytes
  import opened TpmWire
  import opened TpmMarshal
  import opened TpmCommandBytes
  import opened TpmDevice
  import opened TbsKeyProvider
  import opened Enrollment
  import T = TpmCommands

  /** What a TPM answers to a password: no nonce, continueSession, no acknowledgment. */
  const PASSWORD_REPLY: bytes := [0, 0, 1, 0, 0]

  lemma PasswordReplies()
    ensures IsReplyArea(PASSWORD_REPLY, 1) && IsReplyArea(PASSWORD_REPLY + PASSWORD_REPLY, 2)
  {
    NoReplies();
    hide IsReplyArea;
    OneReply([], 0);
    assert PASSWORD_REPLY + [] == PASSWORD_REPLY;
    OneReply(PASSWORD_REPLY, 1);
  }

  lemma NoReplies()
    ensures IsReplyArea([], 0)
  {
  }

  lemma OneReply(rest: bytes, n: nat)
    requires IsReplyArea(rest, n)
    ensures IsReplyArea(PASSWORD_REPLY + rest, n + 1)
  {
    var ack := Framed([]) + rest;
    TakeFramedOf([], [1] + ack);
    TakeFramedOf([], rest);
    ReplyParts(rest);
    hide TakeFramed, Framed;
    assert ([1] + ack)[1..] == ack;
  }

  lemma ReplyParts(rest: bytes)
    ensures PASSWORD_REPLY + rest == Framed([]) + ([1] + (Framed([]) + rest))
  {
    assert Framed([]) == [0, 0];
  }

  lemma KeyCanBeMade(chip: Chip, s: State, ctx: nat, handle: u32, hierarchy: u32, template: Template, public: bytes)
    requires ctx in s.contexts && IsTransientHandle(handle) && handle !in s.contexts[ctx].transients
    requires hierarchy in {RH_OWNER, RH_ENDORSEMENT} && 0 < |public| < MAX_REPLY - 5
    ensures Step(chip, s, ctx, Some(CreateOf(hierarchy, template)), Created(handle, public, [], PASSWORD_REPLY),
                 T.Minted(s, ctx, handle, Key(hierarchy, template, public)))
  {
    PasswordReplies();
    hide IsReplyArea;
  }

  lemma SessionCanStart(chip: Chip, s: State, ctx: nat, session: u32, nonce: bytes)
    requires ctx in s.contexts && IsSessionHandle(session) && session !in s.contexts[ctx].sessions
    requires |nonce| < MAX_REPLY
    ensures Step(chip, s, ctx, Some(StartOf()), Started(session, nonce), T.SessionSet(s, ctx, session, false))
  {
  }

  lemma PolicyCanBeSatisfied(chip: Chip, s: State, ctx: nat, session: u32)
    requires ctx in s.contexts && session in s.contexts[ctx].sessions
    ensures Step(chip, s, ctx, Some(PolicySecretOf(session)), Done(ST_SESSIONS, []),
                 T.SessionSet(s, ctx, session, true))
  {
  }

  lemma CredentialCanBeActivated(chip: Chip, s: State, ctx: nat, ak: u32, ek: u32, session: u32,
                                 blob: bytes, sealed: bytes, secret: bytes)
    requires ctx in s.contexts && ak in s.contexts[ctx].transients && ek in s.contexts[ctx].transients
    requires session in s.contexts[ctx].sessions && s.contexts[ctx].sessions[session] && |secret| < MAX_REPLY - 10
    requires chip.unseal(s.contexts[ctx].transients[ak], s.contexts[ctx].transients[ek], blob, sealed) == Some(secret)
    ensures Step(chip, s, ctx, Some(ActivateOf(ak, ek, session, blob, sealed)),
                 Recovered(secret, PASSWORD_REPLY + PASSWORD_REPLY),
                 T.SessionSet(s, ctx, session, false))
  {
    PasswordReplies();
    hide IsReplyArea;
  }

  lemma SessionCanBeFlushed(chip: Chip, s: State, ctx: nat, session: u32)
    requires ctx in s.contexts && session in s.contexts[ctx].sessions
    ensures Step(chip, s, ctx, Some(FlushContext(session)), Done(ST_NO_SESSIONS, []), T.Flushed(s, ctx, session))
  {
  }

  /** The AK template does not set stClear, so the key it makes can be persisted. */
  lemma AkCanBePersisted(chip: Chip, s: State, ctx: nat, handle: u32)
    requires ctx in s.contexts && IsTransientHandle(handle) && handle in s.contexts[ctx].transients
    requires IsAk(s.contexts[ctx].transients[handle]) && AK_SLOT !in s.persistent
    ensures Step(chip, s, ctx, Some(EvictOf(handle, AK_SLOT)), Done(ST_SESSIONS, []),
                 SlotSet(s, AK_SLOT, s.contexts[ctx].transients[handle]))
  {
  }

  // ---- Conversations ----

  datatype Exchange = Exchange(command: Command, answer: Answer, after: State)

  ghost predicate Follows(chip: Chip, ctx: nat, s: State, path: seq<Exchange>)
    decreases |path|
  {
    path == []
    || (&& Step(chip, s, ctx, Some(path[0].command), path[0].answer, path[0].after)
        && Follows(chip, ctx, path[0].after, path[1..]))
  }

  function End(s: State, path: seq<Exchange>): State {
    if path == [] then s else path[|path| - 1].after
  }

  lemma {:induction false} FollowsOn(chip: Chip, ctx: nat, s: State, path: seq<Exchange>, x: Exchange)
    requires Follows(chip, ctx, s, path) && Step(chip, End(s, path), ctx, Some(x.command), x.answer, x.after)
    ensures Follows(chip, ctx, s, path + [x])
    decreases |path|
  {
    hide Step;
    if path == [] {
      assert path + [x] == [x] && [x][1..] == [];
    } else {
      FollowsOn(chip, ctx, path[0].after, path[1..], x);
      assert (path + [x])[1..] == path[1..] + [x];
    }
  }

  function Commands(path: seq<Exchange>): (cs: seq<Command>)
    ensures |cs| == |path|
  {
    if path == [] then [] else Commands(path[..|path| - 1]) + [path[|path| - 1].command]
  }

  lemma OneMore(chip: Chip, ctx: nat, s: State, path: seq<Exchange>, x: Exchange)
    requires Follows(chip, ctx, s, path) && Step(chip, End(s, path), ctx, Some(x.command), x.answer, x.after)
    ensures Follows(chip, ctx, s, path + [x]) && End(s, path + [x]) == x.after
    ensures Commands(path + [x]) == Commands(path) + [x.command]
  {
    hide Step, Follows;
    FollowsOn(chip, ctx, s, path, x);
    assert (path + [x])[..|path|] == path;
  }

  /** The six commands up to a proven activation, from an empty context. */
  lemma ActivationCanBeReached(chip: Chip, s: State, ctx: nat, ek: u32, ekPublic: bytes, ak: u32, akPublic: bytes,
                               session: u32, nonce: bytes, blob: bytes, sealed: bytes, secret: bytes)
    returns (path: seq<Exchange>)
    requires ctx in s.contexts && s.contexts[ctx] == EMPTY_CONTEXT
    requires IsTransientHandle(ek) && IsTransientHandle(ak) && ek != ak && IsSessionHandle(session)
    requires 0 < |ekPublic| < MAX_REPLY - 5 && 0 < |akPublic| < MAX_REPLY - 5 && |nonce| < MAX_REPLY
    requires |secret| < MAX_REPLY - 10
    requires chip.unseal(Key(RH_OWNER, AkTemplate(), akPublic), Key(RH_ENDORSEMENT, EkTemplate(), ekPublic), blob,
                         sealed)
      == Some(secret)
    ensures Follows(chip, ctx, s, path) && End(s, path) == BothMade(s, ctx, ek, ekPublic, ak, akPublic)
    ensures Commands(path) == [CreateOf(RH_ENDORSEMENT, EkTemplate()), CreateOf(RH_OWNER, AkTemplate()), StartOf(),
                               PolicySecretOf(session), ActivateOf(ak, ek, session, blob, sealed),
                               FlushContext(session)]
  {
    hide Step, Follows, End, Commands, CreateOf, StartOf, PolicySecretOf, ActivateOf;
    hide T.SessionSet, AkTemplate, EkTemplate, Sound;
    path := [];
    NothingSaid(chip, ctx, s);
    var s1 := T.Minted(s, ctx, ek, Key(RH_ENDORSEMENT, EkTemplate(), ekPublic));
    KeyCanBeMade(chip, s, ctx, ek, RH_ENDORSEMENT, EkTemplate(), ekPublic);
    path := Say(chip, ctx, s, path, Exchange(CreateOf(RH_ENDORSEMENT, EkTemplate()),
                                             Created(ek, ekPublic, [], PASSWORD_REPLY), s1));
    var s2 := T.Minted(s1, ctx, ak, Key(RH_OWNER, AkTemplate(), akPublic));
    KeyCanBeMade(chip, s1, ctx, ak, RH_OWNER, AkTemplate(), akPublic);
    path := Say(chip, ctx, s, path, Exchange(CreateOf(RH_OWNER, AkTemplate()),
                                             Created(ak, akPublic, [], PASSWORD_REPLY), s2));
    BothAreSound(s, ctx, ek, ekPublic, ak, akPublic);
    ActivationCanSucceed(chip, s2, ctx, ak, ek, session, nonce, blob, sealed, secret);
    var s3 := T.SessionSet(s2, ctx, session, false);
    var s4 := T.SessionSet(s3, ctx, session, true);
    var s5 := T.SessionSet(s4, ctx, session, false);
    path := Say(chip, ctx, s, path, Exchange(StartOf(), Started(session, nonce), s3));
    path := Say(chip, ctx, s, path, Exchange(PolicySecretOf(session), Done(ST_SESSIONS, []), s4));
    path := Say(chip, ctx, s, path, Exchange(ActivateOf(ak, ek, session, blob, sealed),
                                             Recovered(secret, PASSWORD_REPLY + PASSWORD_REPLY), s5));
    path := Say(chip, ctx, s, path, Exchange(FlushContext(session), Done(ST_NO_SESSIONS, []), s2));
  }

  function BothMade(s: State, ctx: nat, ek: u32, ekPublic: bytes, ak: u32, akPublic: bytes): State
    requires ctx in s.contexts
  {
    T.Minted(T.Minted(s, ctx, ek, Key(RH_ENDORSEMENT, EkTemplate(), ekPublic)), ctx, ak,
             Key(RH_OWNER, AkTemplate(), akPublic))
  }

  lemma BothAreSound(s: State, ctx: nat, ek: u32, ekPublic: bytes, ak: u32, akPublic: bytes)
    requires ctx in s.contexts && s.contexts[ctx] == EMPTY_CONTEXT
    requires IsTransientHandle(ek) && IsTransientHandle(ak) && ek != ak
    ensures var c := BothMade(s, ctx, ek, ekPublic, ak, akPublic).contexts[ctx];
      && Sound(c) && c.sessions == map[] && c.lostObjects == {} && c.lostSessions == {}
      && BothMade(s, ctx, ek, ekPublic, ak, akPublic) == WithContext(s, ctx, c)
      && c.transients == map[ek := Key(RH_ENDORSEMENT, EkTemplate(), ekPublic),
                             ak := Key(RH_OWNER, AkTemplate(), akPublic)]
  {
    hide AkTemplate, EkTemplate;
  }

  lemma NothingSaid(chip: Chip, ctx: nat, s: State)
    ensures Follows(chip, ctx, s, []) && End(s, []) == s && Commands([]) == []
  {
  }

  lemma Say(chip: Chip, ctx: nat, s: State, path: seq<Exchange>, x: Exchange) returns (longer: seq<Exchange>)
    requires Follows(chip, ctx, s, path) && Step(chip, End(s, path), ctx, Some(x.command), x.answer, x.after)
    ensures Follows(chip, ctx, s, longer) && End(s, longer) == x.after
    ensures Commands(longer) == Commands(path) + [x.command]
  {
    hide Follows, Step, End, Commands;
    longer := path + [x];
    OneMore(chip, ctx, s, path, x);
  }

  /**
   * A whole enrollment can succeed: in a context of its own, with the slot empty, a TPM can answer every command from
   * the first key to the last flush, and once the context is closed the AK is in its slot and nothing else changed.
   */
  lemma EnrollmentCanSucceed(chip: Chip, s: State, ctx: nat, ek: u32, ekPublic: bytes, ak: u32, akPublic: bytes,
                             session: u32, nonce: bytes, blob: bytes, sealed: bytes, secret: bytes)
    returns (path: seq<Exchange>)
    requires ctx !in s.contexts && AK_SLOT !in s.persistent
    requires IsTransientHandle(ek) && IsTransientHandle(ak) && ek != ak && IsSessionHandle(session)
    requires 0 < |ekPublic| < MAX_REPLY - 5 && 0 < |akPublic| < MAX_REPLY - 5 && |nonce| < MAX_REPLY
    requires |secret| < MAX_REPLY - 10
    requires chip.unseal(Key(RH_OWNER, AkTemplate(), akPublic), Key(RH_ENDORSEMENT, EkTemplate(), ekPublic), blob,
                         sealed)
      == Some(secret)
    ensures var start := WithContext(s, ctx, EMPTY_CONTEXT);
      && Follows(chip, ctx, start, path)
      && Commands(path) == [CreateOf(RH_ENDORSEMENT, EkTemplate()), CreateOf(RH_OWNER, AkTemplate()), StartOf(),
                            PolicySecretOf(session), ActivateOf(ak, ek, session, blob, sealed), FlushContext(session),
                            ReadPublic(AK_SLOT), EvictOf(ak, AK_SLOT), FlushContext(ak), FlushContext(ek)]
      && End(start, path).(contexts := End(start, path).contexts - {ctx})
           == SlotSet(s, AK_SLOT, Key(RH_OWNER, AkTemplate(), akPublic))
  {
    hide Step, Follows, End, Commands, CreateOf, StartOf, PolicySecretOf, ActivateOf;
    hide EvictOf, AkTemplate, EkTemplate, Sound;
    var start := WithContext(s, ctx, EMPTY_CONTEXT);
    path := ActivationCanBeReached(chip, start, ctx, ek, ekPublic, ak, akPublic, session, nonce, blob, sealed, secret);
    var s2 := BothMade(start, ctx, ek, ekPublic, ak, akPublic);
    BothAreSound(start, ctx, ek, ekPublic, ak, akPublic);
    ProbeIsRefused(chip, s2, ctx);
    path := Say(chip, ctx, start, path, Exchange(ReadPublic(AK_SLOT), Refused, s2));
    var key := Key(RH_OWNER, AkTemplate(), akPublic);
    AkCanBePersisted(chip, s2, ctx, ak) by { assert IsAk(key); }
    var s3 := SlotSet(s2, AK_SLOT, key);
    path := Say(chip, ctx, start, path, Exchange(EvictOf(ak, AK_SLOT), Done(ST_SESSIONS, []), s3));
    KeyCanBeFlushed(chip, s3, ctx, ak);
    var s4 := T.Flushed(s3, ctx, ak);
    path := Say(chip, ctx, start, path, Exchange(FlushContext(ak), Done(ST_NO_SESSIONS, []), s4));
    KeyCanBeFlushed(chip, s4, ctx, ek);
    var s5 := T.Flushed(s4, ctx, ek);
    path := Say(chip, ctx, start, path, Exchange(FlushContext(ek), Done(ST_NO_SESSIONS, []), s5));
    NothingLeft(s, ctx, s2, ak, ek, key);
  }

  lemma NothingLeft(s: State, ctx: nat, made: State, ak: u32, ek: u32, key: Key)
    requires ctx !in s.contexts && ctx in made.contexts
    requires made == WithContext(WithContext(s, ctx, EMPTY_CONTEXT), ctx, made.contexts[ctx])
    ensures var end := T.Flushed(T.Flushed(SlotSet(made, AK_SLOT, key), ctx, ak), ctx, ek);
      end.(contexts := end.contexts - {ctx}) == SlotSet(s, AK_SLOT, key)
  {
    var end := T.Flushed(T.Flushed(SlotSet(made, AK_SLOT, key), ctx, ak), ctx, ek);
    assert end.contexts - {ctx} == s.contexts;
  }

  /** The slot is empty, and the probe says so by failing. */
  lemma ProbeIsRefused(chip: Chip, s: State, ctx: nat)
    requires ctx in s.contexts
    ensures Step(chip, s, ctx, Some(ReadPublic(AK_SLOT)), Refused, s)
  {
  }

  lemma KeyCanBeFlushed(chip: Chip, s: State, ctx: nat, handle: u32)
    requires ctx in s.contexts && handle in s.contexts[ctx].transients
    ensures Step(chip, s, ctx, Some(FlushContext(handle)), Done(ST_NO_SESSIONS, []), T.Flushed(s, ctx, handle))
  {
  }

  /** The four commands of an activation can be answered, and leave no trace. */
  lemma ActivationCanSucceed(chip: Chip, s: State, ctx: nat, ak: u32, ek: u32, session: u32, nonce: bytes,
                             blob: bytes, sealed: bytes, secret: bytes)
    requires ctx in s.contexts && Sound(s.contexts[ctx])
    requires ak in s.contexts[ctx].transients && ek in s.contexts[ctx].transients
    requires IsSessionHandle(session) && session !in s.contexts[ctx].sessions && |nonce| < MAX_REPLY
    requires |secret| < MAX_REPLY - 10
    requires chip.unseal(s.contexts[ctx].transients[ak], s.contexts[ctx].transients[ek], blob, sealed) == Some(secret)
    ensures var s1 := T.SessionSet(s, ctx, session, false);
      var s2 := T.SessionSet(s1, ctx, session, true);
      var s3 := T.SessionSet(s2, ctx, session, false);
      && Step(chip, s, ctx, Some(StartOf()), Started(session, nonce), s1)
      && Step(chip, s1, ctx, Some(PolicySecretOf(session)), Done(ST_SESSIONS, []), s2)
      && Step(chip, s2, ctx, Some(ActivateOf(ak, ek, session, blob, sealed)),
              Recovered(secret, PASSWORD_REPLY + PASSWORD_REPLY), s3)
      && Step(chip, s3, ctx, Some(FlushContext(session)), Done(ST_NO_SESSIONS, []), s)
  {
    var s1 := T.SessionSet(s, ctx, session, false);
    var s2 := T.SessionSet(s1, ctx, session, true);
    var s3 := T.SessionSet(s2, ctx, session, false);
    SessionCanStart(chip, s, ctx, session, nonce);
    PolicyCanBeSatisfied(chip, s1, ctx, session);
    CredentialCanBeActivated(chip, s2, ctx, ak, ek, session, blob, sealed, secret);
    SessionCanBeFlushed(chip, s3, ctx, session);
    FlushUndoes(s, ctx, session, s3);
  }

  lemma FlushUndoes(s: State, ctx: nat, session: u32, s3: State)
    requires ctx in s.contexts && Sound(s.contexts[ctx]) && IsSessionHandle(session)
    requires session !in s.contexts[ctx].sessions
    requires s3 == T.SessionSet(T.SessionSet(T.SessionSet(s, ctx, session, false), ctx, session, true), ctx, session,
                                false)
    ensures T.Flushed(s3, ctx, session) == s
  {
    var c, c3 := s.contexts[ctx], s3.contexts[ctx];
    assert session !in c.transients && session !in c.lostObjects && session !in c.lostSessions;
    assert c3.sessions - {session} == c.sessions;
    assert c3.transients - {session} == c.transients;
    assert FlushedFrom(c3, session) == c;
    assert T.Flushed(s3, ctx, session).contexts == s.contexts;
  }
}
