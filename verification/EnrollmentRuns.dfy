/**
 * The enrollment protocol as a state machine: what is in flight, what is in the persistent slot, and what every
 * run of EnrollBegin and EnrollComplete calls, with failures anywhere, keeps.
 */
module EnrollmentRuns {
  import opened Bytes
  import opened TpmDevice
  import opened TbsKeyProvider

  /** The keys of the enrollment between EnrollBegin and EnrollComplete. */
  datatype Flight = Idle | InFlight(ak: Key, ek: Key)

  datatype Enrollment = Enrollment(flight: Flight, slot: Option<Key>)

  /** How one call went. A completed call may still fail to hand out its JSON for want of memory. */
  datatype Event =
    | Begun(publicArea: bytes)
    | BeginFailed
    | Rejected
    | ActivationFailed
    | PersistFailed(secret: bytes)
    | Completed(secret: bytes)

  ghost predicate Next(a: Enrollment, e: Event, a': Enrollment) {
    match e
    case Begun(publicArea) =>
      && a'.slot == a.slot && a'.flight.InFlight? && IsAk(a'.flight.ak) && IsEk(a'.flight.ek)
      && publicArea == Framed(a'.flight.ak.public)
    case BeginFailed => a' == a
    case Rejected => a' == a
    case ActivationFailed => a.flight.InFlight? && a' == Enrollment(Idle, a.slot)
    case PersistFailed(secret) =>
      && a.flight.InFlight? && secret != [] && a'.flight == Idle && (a'.slot == a.slot || a'.slot == None)
    case Completed(secret) =>
      a.flight.InFlight? && secret != [] && a' == Enrollment(Idle, Some(a.flight.ak))
  }

  /** The credential was put to the TPM. */
  predicate IsActivation(e: Event) {
    e.ActivationFailed? || e.PersistFailed? || e.Completed?
  }

  /** A run: states around events, starting with nothing in flight. */
  ghost predicate IsRun(states: seq<Enrollment>, events: seq<Event>) {
    && |states| == |events| + 1
    && states[0].flight == Idle
    && forall i | 0 <= i < |events| :: Next(states[i], events[i], states[i + 1])
  }

  /** The last successful EnrollBegin before `n`, -1 when there is none. */
  function LatestBegun(events: seq<Event>, n: nat): (b: int)
    requires n <= |events|
    ensures -1 <= b < n
    ensures b != -1 ==> events[b].Begun?
    ensures forall k | b < k < n :: !events[k].Begun?
  {
    if n == 0 then -1 else if events[n - 1].Begun? then n - 1 else LatestBegun(events, n - 1)
  }

  /** What is in flight was put there by the latest successful EnrollBegin, and no activation came between. */
  lemma {:induction false} InFlightIsLatest(states: seq<Enrollment>, events: seq<Event>, n: nat)
    requires IsRun(states, events) && n <= |events| && states[n].flight.InFlight?
    ensures var b := LatestBegun(events, n);
      && b != -1 && IsAk(states[n].flight.ak) && events[b].publicArea == Framed(states[n].flight.ak.public)
      && forall k | b < k < n :: !IsActivation(events[k])
  {
    hide IsAk, IsEk, Framed;
    if n > 0 {
      assert Next(states[n - 1], events[n - 1], states[n]);
      if !events[n - 1].Begun? { InFlightIsLatest(states, events, n - 1); }
    }
  }

  /** The slot changes only in a call whose activation yielded a secret. */
  lemma SlotChangesByActivation(states: seq<Enrollment>, events: seq<Event>, i: nat)
    requires IsRun(states, events) && i < |events| && states[i + 1].slot != states[i].slot
    ensures (events[i].Completed? || events[i].PersistFailed?) && events[i].secret != []
  {
    assert Next(states[i], events[i], states[i + 1]);
  }

  /** Once completed, the slot holds exactly the AK whose public area the latest successful EnrollBegin emitted. */
  lemma CompletedHoldsLatest(states: seq<Enrollment>, events: seq<Event>, i: nat)
    requires IsRun(states, events) && i < |events| && events[i].Completed?
    ensures var b := LatestBegun(events, i);
      && b != -1 && states[i + 1].slot.Some? && IsAk(states[i + 1].slot.value)
      && events[b].publicArea == Framed(states[i + 1].slot.value.public)
  {
    hide IsAk, Framed;
    assert Next(states[i], events[i], states[i + 1]);
    InFlightIsLatest(states, events, i);
  }

  /** When eviction fails the slot is as it was or empty. */
  lemma FailedEvictionLeavesNoThirdKey(states: seq<Enrollment>, events: seq<Event>, i: nat)
    requires IsRun(states, events) && i < |events| && !events[i].Completed?
    ensures states[i + 1].slot == states[i].slot || (events[i].PersistFailed? && states[i + 1].slot == None)
  {
    assert Next(states[i], events[i], states[i + 1]);
  }

  /** At every point of a run the slot holds what it held at first, nothing, or an AK some EnrollBegin emitted. */
  lemma {:induction false} SlotIsAccountedFor(states: seq<Enrollment>, events: seq<Event>, n: nat)
    requires IsRun(states, events) && n <= |events|
    ensures || states[n].slot == states[0].slot
            || states[n].slot == None
            || exists b | 0 <= b < n ::
                 events[b].Begun? && IsAk(states[n].slot.value)
                 && events[b].publicArea == Framed(states[n].slot.value.public)
  {
    hide IsAk, Framed, LatestBegun;
    if n > 0 {
      SlotIsAccountedFor(states, events, n - 1);
      if events[n - 1].Completed? {
        CompletedHoldsLatest(states, events, n - 1);
      } else {
        FailedEvictionLeavesNoThirdKey(states, events, n - 1);
      }
    }
  }

  /** A challenge is single-use: between any two activations there is a successful EnrollBegin. */
  lemma ActivationIsSingleUse(states: seq<Enrollment>, events: seq<Event>, i: nat, j: nat)
    requires IsRun(states, events) && i < j < |events| && IsActivation(events[i]) && IsActivation(events[j])
    ensures exists k | i < k < j :: events[k].Begun?
  {
    hide IsAk, IsEk, Framed;
    assert Next(states[j], events[j], states[j + 1]);
    InFlightIsLatest(states, events, j);
    var b := LatestBegun(events, j);
    assert i <= b;
    assert events[b].Begun?;
  }
}
