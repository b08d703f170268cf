/**
 * Every sequence of calls, in terms of what was called, what was returned and what was submitted: the lemmas about
 * runs, stated over the record Client.Run hands back.
 */
module EnrollmentHistory {
  import opened Bytes
  import opened Json
  import opened TpmWire
  import opened TpmMarshal
  import opened TpmCommandBytes
  import opened TpmDevice
  import opened TbsKeyProvider
  import opened EnrollmentRuns
  import opened Enrollment
  import opened EnrollmentMessages
  import Base64

  predicate Emits(r: Record, i: nat)
    requires i < |r.calls| && i < |r.outcomes|
  {
    r.calls[i].Begin? && r.outcomes[i].status == OK
  }

  /** The credential of the call was put to the TPM. */
  predicate Redeems(r: Record, i: nat)
    requires i < |r.calls| && i < |r.outcomes|
  {
    r.calls[i].Complete? && r.outcomes[i].status !in {NOT_ENROLLED, INVALID_ARG}
  }

  lemma EventsAreCalls(p: Platform, r: Record, i: nat)
    requires IsRecord(p, r) && i < |r.calls|
    ensures Emits(r, i) <==> r.events[i].Begun?
    ensures Redeems(r, i) <==> IsActivation(r.events[i])
    ensures Next(r.states[i], r.events[i], r.states[i + 1])
  {
    hide Next, BeginAccounts, CompleteAccounts, Logged;
    assert Accounts(p, r.calls[i], r.states[i], r.outcomes[i], r.events[i], r.tallies[i], r.tallies[i + 1]);
    if r.calls[i].Begin? {
      BegunIsOk(p, r.calls[i], r.outcomes[i], r.events[i], r.tallies[i], r.tallies[i + 1]);
    } else {
      RedeemedIsNotRejected(p, r.calls[i].challenge, r.calls[i].memory, r.states[i].flight, r.outcomes[i], r.events[i],
                            r.tallies[i], r.tallies[i + 1]);
    }
  }

  lemma BegunIsOk(p: Platform, call: Call, o: Outcome, e: Event, t: Tally, t': Tally)
    requires call.Begin? && BeginAccounts(p, call, o, e, t, t')
    ensures (e.Begun? <==> o.status == OK) && (e.Begun? || e.BeginFailed?)
  {
    hide Gathered, Text, EnrollFields;
  }

  lemma RedeemedIsNotRejected(p: Platform, challenge: string, memory: bool, flight: Flight, o: Outcome, e: Event,
                              t: Tally, t': Tally)
    requires CompleteAccounts(p, challenge, memory, flight, o, e, t, t')
    ensures (e.Rejected? <==> o.status in {NOT_ENROLLED, INVALID_ARG}) && !e.Begun? && !e.BeginFailed?
  {
    hide Malformed, Text, Get, ActivateFields, Yields;
  }

  /** The latest call before `i` that emitted an enroll object. */
  predicate IsLatest(r: Record, b: nat, i: nat)
    requires i <= |r.calls| && |r.calls| == |r.outcomes|
  {
    b < i && Emits(r, b) && forall k | b < k < i :: !Emits(r, k)
  }

  /** What the other end reads in the enroll object a call emitted is this key's public area. */
  predicate Emitted(r: Record, b: nat, key: Key)
    requires b < |r.outcomes|
  {
    && IsAk(key) && r.outcomes[b].json.Some?
    && Base64.Decode(Get(r.outcomes[b].json.value, "akPublicArea")) == Some(Framed(key.public))
  }

  lemma BegunEmits(p: Platform, call: Call, o: Outcome, e: Event, t: Tally, t': Tally, key: Key)
    requires call.Begin? && BeginAccounts(p, call, o, e, t, t')
    requires e.Begun? && IsAk(key) && e.publicArea == Framed(key.public)
    ensures o.json.Some? && Base64.Decode(Get(o.json.value, "akPublicArea")) == Some(Framed(key.public))
  {
    hide Gathered, Text, EnrollFields, Get, Base64.Encode, Base64.Decode, Framed;
    var slots, intermediates :|
      && Gathered(p.nv, t'.withheld, slots, call.store, p.sha256, intermediates)
      && (slots == [] ==> t'.refusals > t.refusals)
      && o.json == Some(Text(EnrollFields(call.ekPub, call.ekCert, intermediates, e.publicArea)));
    FirstFieldReads(call.ekPub, call.ekCert, intermediates, key.public);
  }

  lemma FirstFieldReads(ekPub: bytes, ekCert: bytes, intermediates: seq<bytes>, public: bytes)
    requires |public| < 0x1_0000
    ensures var text := Text(EnrollFields(ekPub, ekCert, intermediates, Framed(public)));
      Base64.Decode(Get(text, "akPublicArea")) == Some(Framed(public))
  {
    hide Get, Text, Base64.Encode, Base64.Decode, Framed;
    EnrollReadsBack(ekPub, ekCert, intermediates, public, 0);
    Base64.DecodeOfEncode(Framed(public));
  }

  /** What is in flight is the AK emitted by the latest successful EnrollBegin, with no activation since. */
  lemma InFlightIsEmitted(p: Platform, r: Record, i: nat) returns (b: nat)
    requires IsRecord(p, r) && i <= |r.calls| && r.states[i].flight.InFlight?
    ensures IsLatest(r, b, i) && Emitted(r, b, r.states[i].flight.ak)
    ensures forall k | b < k < i :: !Redeems(r, k)
  {
    hide Next, Accounts, Logged, IsActivation, IsAk, Framed, Emits, Redeems, Get, Base64.Encode, Base64.Decode;
    InFlightIsLatest(r.states, r.events, i);
    b := LatestBegun(r.events, i);
    forall k: nat | k < i
      ensures (Emits(r, k) <==> r.events[k].Begun?) && (Redeems(r, k) <==> IsActivation(r.events[k]))
    {
      EventsAreCalls(p, r, k);
    }
    LatestEmits(p, r, b, r.states[i].flight.ak);
  }

  lemma LatestEmits(p: Platform, r: Record, b: nat, key: Key)
    requires IsRecord(p, r) && b < |r.calls| && Emits(r, b) && r.events[b].Begun?
    requires IsAk(key) && r.events[b].publicArea == Framed(key.public)
    ensures Emitted(r, b, key)
  {
    hide BeginAccounts, Logged, IsAk, Framed, Get, Base64.Encode, Base64.Decode;
    assert Accounts(p, r.calls[b], r.states[b], r.outcomes[b], r.events[b], r.tallies[b], r.tallies[b + 1]);
    BegunEmits(p, r.calls[b], r.outcomes[b], r.events[b], r.tallies[b], r.tallies[b + 1], key);
  }

  /**
   * After an EnrollComplete that returned OK, the slot holds exactly the AK whose public area the other end reads in
   * the object of the latest successful EnrollBegin.
   */
  lemma OkHoldsEmitted(p: Platform, r: Record, i: nat) returns (b: nat)
    requires IsRecord(p, r) && i < |r.calls|
    requires r.calls[i].Complete? && r.outcomes[i].status == OK
    ensures IsLatest(r, b, i) && r.states[i + 1].slot.Some? && Emitted(r, b, r.states[i + 1].slot.value)
  {
    hide Accounts, Logged, IsAk, Framed, Get, Base64.Encode, Base64.Decode, Emitted, IsLatest;
    EventsAreCalls(p, r, i);
    OkIsCompleted(p, r, i);
    b := InFlightIsEmitted(p, r, i);
  }

  lemma OkIsCompleted(p: Platform, r: Record, i: nat)
    requires IsRecord(p, r) && i < |r.calls| && r.calls[i].Complete? && r.outcomes[i].status in {OK, INTERNAL}
    ensures r.events[i].Completed?
  {
    hide Logged, Next, Text, Get, ActivateFields, Yields, Malformed;
    assert Accounts(p, r.calls[i], r.states[i], r.outcomes[i], r.events[i], r.tallies[i], r.tallies[i + 1]);
  }

  /**
   * The slot changes only in an EnrollComplete whose challenge yields, with the keys in flight, a non-empty secret. It
   * then holds the AK that was in flight; or nothing, when the call says AK_FAILED, and the TPM refused something.
   */
  lemma SlotChangesAreEarned(p: Platform, r: Record, i: nat)
    requires IsRecord(p, r) && i < |r.calls| && r.states[i + 1].slot != r.states[i].slot
    ensures r.calls[i].Complete? && r.states[i].flight.InFlight?
    ensures exists secret :: secret != [] && Yields(p, r.calls[i].challenge, r.states[i].flight, secret)
    ensures || (r.outcomes[i].status in {OK, INTERNAL} && r.states[i + 1].slot == Some(r.states[i].flight.ak))
            || (r.outcomes[i].status == AK_FAILED && r.states[i + 1].slot == None
                && r.tallies[i + 1].refusals > r.tallies[i].refusals)
  {
    hide Logged, Text, Get, ActivateFields, Yields, Malformed, BeginAccounts, IsAk, IsEk, Framed;
    assert Accounts(p, r.calls[i], r.states[i], r.outcomes[i], r.events[i], r.tallies[i], r.tallies[i + 1]);
    assert Next(r.states[i], r.events[i], r.states[i + 1]);
    EventsAreCalls(p, r, i);
    assert r.events[i].secret != [] && Yields(p, r.calls[i].challenge, r.states[i].flight, r.events[i].secret);
  }

  /** Between two calls that put a credential to the TPM there is a successful EnrollBegin. */
  lemma CallsAreSingleUse(p: Platform, r: Record, i: nat, j: nat) returns (k: nat)
    requires IsRecord(p, r) && i < j < |r.calls| && Redeems(r, i) && Redeems(r, j)
    ensures i < k < j && Emits(r, k)
  {
    hide Accounts, Logged, Next, IsActivation, Emits, Redeems;
    EventsAreCalls(p, r, i);
    EventsAreCalls(p, r, j);
    ActivationIsSingleUse(r.states, r.events, i, j);
    k :| i < k < j && r.events[k].Begun?;
    EventsAreCalls(p, r, k);
  }

  // ---- On the commands submitted ----

  lemma {:induction false} LogGrows(p: Platform, r: Record, i: nat, j: nat)
    requires IsRecord(p, r) && i <= j <= |r.calls|
    ensures r.logs[i] <= r.logs[j]
    decreases j
  {
    hide Accounts, Next, Activates, MintsAk;
    if i < j {
      LogGrows(p, r, i, j - 1);
      assert Logged(r.calls[j - 1], r.outcomes[j - 1], r.events[j - 1], r.logs[j - 1], r.logs[j]);
    }
  }

  /** The call during which a command was submitted. */
  lemma {:induction false} SubmittedIn(p: Platform, r: Record, n: nat, m: nat) returns (i: nat)
    requires IsRecord(p, r) && n <= |r.calls| && |r.logs[0]| <= m < |r.logs[n]|
    ensures i < n && |r.logs[i]| <= m < |r.logs[i + 1]| && r.logs[i + 1] <= r.logs[n]
    decreases n
  {
    hide Accounts, Logged, Next;
    if m >= |r.logs[n - 1]| {
      i := n - 1;
    } else {
      i := SubmittedIn(p, r, n - 1, m);
      LogGrows(p, r, n - 1, n);
    }
  }

  /** A call that submits an activation puts a credential to the TPM, and submits no other. */
  lemma ActivatesRedeems(p: Platform, r: Record, i: nat, m: nat, n: nat)
    requires IsRecord(p, r) && i < |r.calls| && |r.logs[i]| <= m <= n < |r.logs[i + 1]|
    requires Activates(r.logs[i + 1][m]) && Activates(r.logs[i + 1][n])
    ensures Redeems(r, i) && m == n
  {
    hide Accounts, Next, Activates, MintsAk;
    assert Logged(r.calls[i], r.outcomes[i], r.events[i], r.logs[i], r.logs[i + 1]);
    if r.calls[i].Complete? && !Redeems(r, i) { RejectedIsIdle(p, r, i); }
  }

  lemma RejectedIsIdle(p: Platform, r: Record, i: nat)
    requires IsRecord(p, r) && i < |r.calls| && r.calls[i].Complete? && !Redeems(r, i)
    ensures r.events[i].Rejected?
  {
    hide Logged, Next, Text, Get, ActivateFields, Yields, Malformed;
    assert Accounts(p, r.calls[i], r.states[i], r.outcomes[i], r.events[i], r.tallies[i], r.tallies[i + 1]);
  }

  /**
   * Single use, on the wire: between any two ActivateCredential commands the calls submit there is a CreatePrimary of
   * the AK template under the owner.
   */
  lemma ActivationsAreSingleUse(p: Platform, r: Record, m: nat, n: nat) returns (q: nat)
    requires IsRecord(p, r)
    requires var log := r.logs[|r.calls|]; |r.logs[0]| <= m < n < |log| && Activates(log[m]) && Activates(log[n])
    ensures m < q < n && r.logs[|r.calls|][q] == Some(CreateOf(RH_OWNER, AkTemplate()))
  {
    hide Accounts, Logged, Next, Activates, Redeems, Emits, CreateOf, AkTemplate;
    var last := |r.calls|;
    var i := SubmittedIn(p, r, last, m);
    var j := SubmittedIn(p, r, last, n);
    ActivatesRedeems(p, r, i, m, m);
    ActivatesRedeems(p, r, j, n, n);
    if j < i { LogGrows(p, r, j + 1, i); }
    if i == j { ActivatesRedeems(p, r, i, m, n); }
    var k := CallsAreSingleUse(p, r, i, j);
    q := MintedIn(p, r, k);
    LogGrows(p, r, i + 1, k);
    LogGrows(p, r, k + 1, j);
    LogGrows(p, r, k + 1, last);
  }

  lemma MintedIn(p: Platform, r: Record, k: nat) returns (q: nat)
    requires IsRecord(p, r) && k < |r.calls| && Emits(r, k)
    ensures |r.logs[k]| <= q < |r.logs[k + 1]| && r.logs[k + 1][q] == Some(CreateOf(RH_OWNER, AkTemplate()))
  {
    hide Accounts, Next, Quiet, CreateOf, AkTemplate;
    assert Logged(r.calls[k], r.outcomes[k], r.events[k], r.logs[k], r.logs[k + 1]);
    q :| |r.logs[k]| <= q < |r.logs[k + 1]| && r.logs[k + 1][q] == Some(CreateOf(RH_OWNER, AkTemplate()));
  }
}
