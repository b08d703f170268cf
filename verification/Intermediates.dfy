/** The merge of the on-die chain with the Windows intermediate store, in GatherEkEnrollData. */
module Intermediates {
  import opened Bytes

  const MAX_INTERMEDIATES := 8

  /** A digest, or nothing when hashing failed. */
  type Hash = bytes -> bytes

  /** The fingerprints of certificates that hash, in order. */
  function Fingerprints(cs: seq<bytes>, sha256: Hash): seq<bytes> {
    if cs == [] then [] else
    var last := |cs| - 1;
    Fingerprints(cs[..last], sha256) + Known(sha256(cs[last]))
  }

  /** A fingerprint worth remembering. */
  function Known(fingerprint: bytes): seq<bytes> {
    if fingerprint == [] then [] else [fingerprint]
  }

  /** The indices of the store entries taken: those not seen before, while there is room. */
  function Taken(store: seq<bytes>, from: nat, seen: seq<bytes>, room: nat, sha256: Hash): seq<nat>
    requires from <= |store|
    decreases |store| - from
  {
    if from == |store| || room == 0 then [] else
    var fingerprint := sha256(store[from]);
    if fingerprint in seen then Taken(store, from + 1, seen, room, sha256)
    else [from] + Taken(store, from + 1, seen + Known(fingerprint), room - 1, sha256)
  }

  predicate Within(indices: seq<nat>, n: nat) {
    forall j | 0 <= j < |indices| :: indices[j] < n
  }

  function Select(store: seq<bytes>, indices: seq<nat>): (cs: seq<bytes>)
    requires Within(indices, |store|)
    ensures |cs| == |indices|
  {
    seq(|indices|, k requires 0 <= k < |indices| => store[indices[k]])
  }

  predicate Between(indices: seq<nat>, from: nat, n: nat) {
    forall j | 0 <= j < |indices| :: from <= indices[j] < n
  }

  predicate Ascending(indices: seq<nat>) {
    forall j, k | 0 <= j < k < |indices| :: indices[j] < indices[k]
  }

  lemma ConsAscends(i: nat, more: seq<nat>, n: nat)
    requires i < n && Between(more, i + 1, n)
    ensures Between([i] + more, i, n) && (Ascending(more) ==> Ascending([i] + more))
  {
    var t := [i] + more;
    assert forall j | 0 < j < |t| :: t[j] == more[j - 1];
  }

  /** The indices taken ascend and fit the room. */
  lemma {:induction false} TakenAscend(store: seq<bytes>, from: nat, seen: seq<bytes>, room: nat, sha256: Hash)
    requires from <= |store|
    ensures var t := Taken(store, from, seen, room, sha256); |t| <= room && Between(t, from, |store|) && Ascending(t)
    decreases |store| - from
  {
    if from < |store| && room > 0 {
      hide Between, Ascending;
      var fingerprint := sha256(store[from]);
      if fingerprint in seen {
        TakenAscend(store, from + 1, seen, room, sha256);
        StartsLower(Taken(store, from + 1, seen, room, sha256), from, |store|);
      } else {
        TakenAscend(store, from + 1, seen + Known(fingerprint), room - 1, sha256);
        ConsAscends(from, Taken(store, from + 1, seen + Known(fingerprint), room - 1, sha256), |store|);
      }
    }
  }

  lemma StartsLower(indices: seq<nat>, from: nat, n: nat)
    requires Between(indices, from + 1, n)
    ensures Between(indices, from, n)
  {
  }

  /** What is taken differs in fingerprint from everything seen. */
  lemma {:induction false} TakenIsNew(store: seq<bytes>, from: nat, seen: seq<bytes>, room: nat, sha256: Hash, j: nat)
    requires from <= |store| && j < |Taken(store, from, seen, room, sha256)|
    ensures var i := Taken(store, from, seen, room, sha256)[j]; i < |store| && sha256(store[i]) !in seen
    decreases |store| - from
  {
    var fingerprint := sha256(store[from]);
    if fingerprint in seen {
      TakenIsNew(store, from + 1, seen, room, sha256, j);
    } else if j > 0 {
      TakenIsNew(store, from + 1, seen + Known(fingerprint), room - 1, sha256, j - 1);
    }
  }

  /** And, if it hashed at all, from everything else that is taken. */
  lemma {:induction false} TakenDiffer(store: seq<bytes>, from: nat, seen: seq<bytes>, room: nat, sha256: Hash, j: nat,
                                       k: nat)
    requires from <= |store| && j < k < |Taken(store, from, seen, room, sha256)|
    ensures var t := Taken(store, from, seen, room, sha256);
      t[j] < t[k] < |store| && (sha256(store[t[j]]) != [] ==> sha256(store[t[j]]) != sha256(store[t[k]]))
    decreases |store| - from
  {
    TakenAscend(store, from, seen, room, sha256);
    var fingerprint := sha256(store[from]);
    if fingerprint in seen {
      TakenDiffer(store, from + 1, seen, room, sha256, j, k);
    } else if j > 0 {
      TakenDiffer(store, from + 1, seen + Known(fingerprint), room - 1, sha256, j - 1, k - 1);
    } else {
      TakenIsNew(store, from + 1, seen + Known(fingerprint), room - 1, sha256, k - 1);
    }
  }

  /** With room to spare, every hashable store entry's fingerprint is represented. */
  lemma {:induction false} TakenAreComplete(store: seq<bytes>, from: nat, seen: seq<bytes>, room: nat, sha256: Hash,
                                            i: nat)
    requires from <= i < |store| && sha256(store[i]) != []
    requires |Taken(store, from, seen, room, sha256)| < room
    ensures sha256(store[i]) in seen
      || exists k | k in Taken(store, from, seen, room, sha256) :: k < |store| && sha256(store[k]) == sha256(store[i])
    decreases |store| - from
  {
    TakenAscend(store, from, seen, room, sha256);
    var fingerprint := sha256(store[from]);
    if fingerprint in seen {
      if i > from { TakenAreComplete(store, from + 1, seen, room, sha256, i); }
    } else {
      var t := Taken(store, from, seen, room, sha256);
      var more := Taken(store, from + 1, seen + Known(fingerprint), room - 1, sha256);
      assert from in t && forall k | k in more :: k in t;
      if i > from { TakenAreComplete(store, from + 1, seen + Known(fingerprint), room - 1, sha256, i); }
    }
  }

  /** All on-die certificates first and in order, then an order-preserving choice from the store, eight in all. */
  ghost predicate IsMerge(onDie: seq<bytes>, store: seq<bytes>, sha256: Hash, merged: seq<bytes>) {
    if |onDie| >= MAX_INTERMEDIATES then merged == onDie[..MAX_INTERMEDIATES] else
    var taken := Taken(store, 0, Fingerprints(onDie, sha256), MAX_INTERMEDIATES - |onDie|, sha256);
    Within(taken, |store|) && merged == onDie + Select(store, taken)
  }

  /** On-die certificates are not deduplicated among themselves. */
  method Merge(onDie: seq<bytes>, store: seq<bytes>, sha256: Hash) returns (merged: seq<bytes>)
    ensures IsMerge(onDie, store, sha256, merged) && |merged| <= MAX_INTERMEDIATES
  {
    hide Taken, Fingerprints, Select, Known, Within;
    NothingSelected(store);
    merged := onDie;
    ghost var taken: seq<nat> := [];
    var seen := RememberAll(onDie, sha256);
    ghost var room := if |onDie| < MAX_INTERMEDIATES then MAX_INTERMEDIATES - |onDie| else 0;
    ghost var all := Taken(store, 0, seen, room, sha256);
    TakenFits(store, seen, room, sha256);
    assert [] + all == all;
    assert onDie + [] == onDie;
    var i := 0;
    while i < |store|
      invariant 0 <= i <= |store|
      invariant Within(taken, |store|)
      invariant merged == onDie + Select(store, taken)
      invariant |taken| <= room
      invariant all == taken + Taken(store, i, seen, room - |taken|, sha256)
    {
      TakenStep(store, i, seen, room - |taken|, sha256, taken);
      if |merged| >= MAX_INTERMEDIATES { break; }
      var fingerprint := sha256(store[i]);
      var duplicate := AlreadySeen(seen, fingerprint);
      if duplicate { i := i + 1; continue; }
      if fingerprint != [] { seen := seen + [fingerprint]; }
      SelectStep(store, taken, i);
      merged := merged + [store[i]];
      taken := taken + [i];
      i := i + 1;
    }
    TakenStops(store, i, seen, room - |taken|, sha256, taken);
    if |merged| > MAX_INTERMEDIATES { merged := merged[..MAX_INTERMEDIATES]; }
  }

  /** The fingerprints of what is already there. */
  method RememberAll(cs: seq<bytes>, sha256: Hash) returns (seen: seq<bytes>)
    ensures seen == Fingerprints(cs, sha256)
  {
    seen := [];
    for i := 0 to |cs|
      invariant seen == Fingerprints(cs[..i], sha256)
    {
      var fingerprint := sha256(cs[i]);
      assert cs[..i + 1][..i] == cs[..i];
      if fingerprint != [] { seen := seen + [fingerprint]; }
    }
    assert cs[..|cs|] == cs;
  }

  /** The memcmp loop. */
  method AlreadySeen(seen: seq<bytes>, fingerprint: bytes) returns (duplicate: bool)
    ensures duplicate <==> fingerprint in seen
  {
    for i := 0 to |seen|
      invariant fingerprint !in seen[..i]
    {
      if |seen[i]| == |fingerprint| && seen[i] == fingerprint { return true; }
      assert seen[..i + 1] == seen[..i] + [seen[i]];
    }
    assert seen[..|seen|] == seen;
    return false;
  }

  lemma TakenStep(store: seq<bytes>, from: nat, seen: seq<bytes>, room: nat, sha256: Hash, front: seq<nat>)
    requires from < |store|
    ensures var fingerprint := sha256(store[from]);
      front + Taken(store, from, seen, room, sha256) ==
        if room == 0 then front
        else if fingerprint in seen then front + Taken(store, from + 1, seen, room, sha256)
        else (front + [from]) + Taken(store, from + 1, if fingerprint == [] then seen else seen + [fingerprint],
                                      room - 1, sha256)
  {
    assert seen + [] == seen;
  }

  lemma TakenStops(store: seq<bytes>, from: nat, seen: seq<bytes>, room: nat, sha256: Hash, front: seq<nat>)
    requires from <= |store|
    ensures from == |store| || room == 0 ==> front + Taken(store, from, seen, room, sha256) == front
  {
  }

  lemma TakenFits(store: seq<bytes>, seen: seq<bytes>, room: nat, sha256: Hash)
    ensures |Taken(store, 0, seen, room, sha256)| <= room
  {
    TakenAscend(store, 0, seen, room, sha256);
  }

  lemma NothingSelected(store: seq<bytes>)
    ensures Within([], |store|) && Select(store, []) == []
  {
  }

  lemma SelectStep(store: seq<bytes>, indices: seq<nat>, i: nat)
    requires i < |store| && Within(indices, |store|)
    ensures Within(indices + [i], |store|) && Select(store, indices + [i]) == Select(store, indices) + [store[i]]
  {
  }

  // ---- What is merged ----

  lemma {:induction false} FingerprintsAre(cs: seq<bytes>, sha256: Hash, f: bytes)
    ensures f in Fingerprints(cs, sha256) <==> f != [] && exists k :: 0 <= k < |cs| && sha256(cs[k]) == f
  {
    if cs != [] {
      var last := |cs| - 1;
      FingerprintsAre(cs[..last], sha256, f);
      assert forall k | 0 <= k < last :: cs[..last][k] == cs[k];
    }
  }

  /** No certificate out of the store has the fingerprint of anything merged in front of it, on-die or not. */
  lemma MergedDiffer(onDie: seq<bytes>, store: seq<bytes>, sha256: Hash, merged: seq<bytes>, j: nat, k: nat)
    requires IsMerge(onDie, store, sha256, merged)
    requires |onDie| <= j < |merged| && k < j && sha256(merged[j]) != []
    ensures sha256(merged[j]) != sha256(merged[k])
  {
    var seen := Fingerprints(onDie, sha256);
    var room := MAX_INTERMEDIATES - |onDie|;
    var taken := Taken(store, 0, seen, room, sha256);
    FingerprintsAre(onDie, sha256, sha256(merged[j]));
    TakenIsNew(store, 0, seen, room, sha256, j - |onDie|);
    hide Taken, Fingerprints;
    assert merged[j] == store[taken[j - |onDie|]];
    if k < |onDie| {
      assert merged[k] == onDie[k];
    } else {
      TakenDiffer(store, 0, seen, room, sha256, k - |onDie|, j - |onDie|);
      assert merged[k] == store[taken[k - |onDie|]];
    }
  }

  /** With fewer than eight merged, every store certificate that hashes has the fingerprint of something merged. */
  lemma MergedAreComplete(onDie: seq<bytes>, store: seq<bytes>, sha256: Hash, merged: seq<bytes>, i: nat)
    requires IsMerge(onDie, store, sha256, merged)
    requires |merged| < 8 && i < |store| && sha256(store[i]) != []
    ensures exists k :: 0 <= k < |merged| && sha256(merged[k]) == sha256(store[i])
  {
    var seen := Fingerprints(onDie, sha256);
    var room := MAX_INTERMEDIATES - |onDie|;
    var taken := Taken(store, 0, seen, room, sha256);
    FingerprintsAre(onDie, sha256, sha256(store[i]));
    TakenAreComplete(store, 0, seen, room, sha256, i);
    hide Taken, Fingerprints;
    if sha256(store[i]) in seen {
      var k :| 0 <= k < |onDie| && sha256(onDie[k]) == sha256(store[i]);
      assert merged[k] == onDie[k];
    } else {
      var s :| s in taken && s < |store| && sha256(store[s]) == sha256(store[i]);
      var k :| 0 <= k < |taken| && taken[k] == s;
      assert merged[|onDie| + k] == store[s];
    }
  }

  /** The on-die certificates come first, all or the first eight; behind them are store certificates in store order. */
  lemma MergedInOrder(onDie: seq<bytes>, store: seq<bytes>, sha256: Hash, merged: seq<bytes>)
    returns (picked: seq<nat>)
    requires IsMerge(onDie, store, sha256, merged)
    ensures |merged| <= 8 && (|onDie| < 8 ==> onDie <= merged) && (|onDie| >= 8 ==> merged == onDie[..8])
    ensures forall j, k | 0 <= j < k < |picked| :: picked[j] < picked[k] < |store|
    ensures |onDie| < 8 ==> |merged| == |onDie| + |picked|
    ensures forall k | 0 <= k < |picked| && |onDie| + k < |merged| ::
      picked[k] < |store| && merged[|onDie| + k] == store[picked[k]]
  {
    picked := [];
    if |onDie| < MAX_INTERMEDIATES {
      var seen := Fingerprints(onDie, sha256);
      picked := Taken(store, 0, seen, MAX_INTERMEDIATES - |onDie|, sha256);
      TakenAscend(store, 0, seen, MAX_INTERMEDIATES - |onDie|, sha256);
      hide Taken, Fingerprints;
    }
  }
}
