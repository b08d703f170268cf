/**
 * PCR values read one command after another, and then quoted, while other software may extend the PCRs in between:
 * what the values are, and when they are those that were quoted.
 */
module EvidencePcrs {
  import opened Bytes
  import opened PcrBitmap
  import opened TpmDevice
  import opened TpmCommandBytes

  predicate Distinct(pcrs: seq<u32>) {
    forall i, j | 0 <= i < j < |pcrs| :: pcrs[i] != pcrs[j]
  }

  predicate CanBeRead(pcr: u32, pcrs: Pcrs) {
    pcr < PCR_COUNT && pcr in pcrs
  }

  /** What is read when the commands for these PCRs are the ones from the n-th on. */
  function ReadOver(at: nat -> Pcrs, n: nat, pcrs: seq<u32>): (values: Pcrs)
    ensures forall pcr | pcr in values :: pcr in pcrs
    decreases |pcrs|
  {
    if pcrs == [] then map[] else
    var more := ReadOver(at, n + 1, pcrs[1..]);
    if pcrs[0] in at(n) then more[pcrs[0] := at(n)[pcrs[0]]] else more
  }

  lemma DistinctTail(pcrs: seq<u32>)
    requires Distinct(pcrs) && pcrs != []
    ensures Distinct(pcrs[1..]) && forall i | 0 < i < |pcrs| :: pcrs[i] != pcrs[0]
  {
  }

  /** Each value is what its own PCR held at its own moment. */
  lemma {:induction false} ReadOverAt(at: nat -> Pcrs, n: nat, pcrs: seq<u32>, i: nat)
    requires Distinct(pcrs) && i < |pcrs| && pcrs[i] in at(n + i)
    ensures pcrs[i] in ReadOver(at, n, pcrs) && ReadOver(at, n, pcrs)[pcrs[i]] == at(n + i)[pcrs[i]]
    decreases i
  {
    if i > 0 {
      DistinctTail(pcrs);
      hide Distinct;
      assert pcrs[1..][i - 1] == pcrs[i];
      ReadOverAt(at, n + 1, pcrs[1..], i - 1);
    }
  }

  predicate AllRead(at: nat -> Pcrs, n: nat, pcrs: seq<u32>) {
    forall i | 0 <= i < |pcrs| :: CanBeRead(pcrs[i], at(n + i))
  }

  predicate AllReadUpTo(at: nat -> Pcrs, n: nat, pcrs: seq<u32>, count: nat)
    requires count <= |pcrs|
  {
    forall i | 0 <= i < count :: CanBeRead(pcrs[i], at(n + i))
  }

  lemma AllReadIs(at: nat -> Pcrs, n: nat, pcrs: seq<u32>)
    ensures AllReadUpTo(at, n, pcrs, 0) && (AllReadUpTo(at, n, pcrs, |pcrs|) <==> AllRead(at, n, pcrs))
  {
  }

  lemma OneMoreRead(at: nat -> Pcrs, n: nat, pcrs: seq<u32>, i: nat)
    requires i < |pcrs|
    ensures CanBeRead(pcrs[i], at(n + i)) <==> pcrs[i] < PCR_COUNT && pcrs[i] in at(n + i)
    ensures AllReadUpTo(at, n, pcrs, i) && CanBeRead(pcrs[i], at(n + i)) ==> AllReadUpTo(at, n, pcrs, i + 1)
    ensures AllRead(at, n, pcrs) ==> CanBeRead(pcrs[i], at(n + i))
  {
  }

  /** None of the PCRs read has changed by the moment of the quote, which comes right behind. */
  predicate Settled(at: nat -> Pcrs, n: nat, pcrs: seq<u32>) {
    forall i | 0 <= i < |pcrs| && pcrs[i] in at(n + i) ::
      pcrs[i] in at(n + |pcrs|) && at(n + |pcrs|)[pcrs[i]] == at(n + i)[pcrs[i]]
  }

  // ---- Digests selected by a bitmap ----

  /** The selected PCRs from `from` on are there, and hold the same. */
  predicate Same(bitmap: bytes, p: Pcrs, q: Pcrs, from: nat) {
    forall i: nat | from <= i < 8 * |bitmap| && Selects(bitmap, i) && i in p :: i in q && q[i] == p[i]
  }

  predicate There(bitmap: bytes, p: Pcrs, from: nat) {
    forall i: nat | from <= i < 8 * |bitmap| && Selects(bitmap, i) :: i in p
  }

  lemma {:induction false} FewerDigests(bitmap: bytes, p: Pcrs, q: Pcrs, from: nat)
    requires There(bitmap, p, from)
    ensures |SelectedDigests(bitmap, q, from)| <= |SelectedDigests(bitmap, p, from)|
    decreases 8 * |bitmap| - from
  {
    hide Selects;
    if from < 8 * |bitmap| { FewerDigests(bitmap, p, q, from + 1); }
  }

  lemma {:induction false} DigestsAgreeIff(bitmap: bytes, p: Pcrs, q: Pcrs, from: nat)
    requires There(bitmap, p, from)
    ensures SelectedDigests(bitmap, p, from) == SelectedDigests(bitmap, q, from) <==> Same(bitmap, p, q, from)
    decreases 8 * |bitmap| - from
  {
    hide Selects;
    if from < 8 * |bitmap| {
      DigestsAgreeIff(bitmap, p, q, from + 1);
      FewerDigests(bitmap, p, q, from + 1);
      var (a, b) := (SelectedDigests(bitmap, p, from + 1), SelectedDigests(bitmap, q, from + 1));
      if Selects(bitmap, from) {
        assert SelectedDigests(bitmap, p, from) == [p[from]] + a;
        if from in q {
          assert SelectedDigests(bitmap, q, from) == [q[from]] + b;
          ConsAgrees(p[from], a, q[from], b);
        } else {
          assert SelectedDigests(bitmap, q, from) == [] + b == b;
        }
      } else {
        assert [] + a == a && [] + b == b;
      }
    }
  }

  lemma ConsAgrees(x: bytes, a: seq<bytes>, y: bytes, b: seq<bytes>)
    ensures [x] + a == [y] + b <==> x == y && a == b
  {
    if [x] + a == [y] + b {
      assert ([x] + a)[0] == ([y] + b)[0] && ([x] + a)[1..] == a && ([y] + b)[1..] == b;
    }
  }

  lemma OneBank(bitmap: bytes, pcrs: Pcrs)
    ensures QuotedDigests(Bank(bitmap), pcrs) == SelectedDigests(bitmap, pcrs, 0)
  {
    assert Bank(bitmap)[1..] == [];
    assert SelectedDigests(bitmap, pcrs, 0) + [] == SelectedDigests(bitmap, pcrs, 0);
  }

  /** The digests of the values read are the digests quoted if and only if no PCR read has changed in between. */
  lemma ValuesAreQuotedIff(at: nat -> Pcrs, n: nat, pcrs: seq<u32>)
    requires Distinct(pcrs) && AllRead(at, n, pcrs)
    ensures QuotedDigests(Bank(BitmapOf(pcrs)), ReadOver(at, n, pcrs))
         == QuotedDigests(Bank(BitmapOf(pcrs)), at(n + |pcrs|))
       <==> Settled(at, n, pcrs)
  {
    hide Selects, BitmapOf, ReadOver, SelectedDigests, QuotedDigests, Bank;
    var bitmap, values, later := BitmapOf(pcrs), ReadOver(at, n, pcrs), at(n + |pcrs|);
    forall i: nat ensures Selects(bitmap, i) <==> i in pcrs && i < PCR_COUNT { BitmapOfSelects(pcrs, i); }
    forall i: nat | i < |pcrs| ensures pcrs[i] in values && values[pcrs[i]] == at(n + i)[pcrs[i]] {
      ReadOverAt(at, n, pcrs, i);
    }
    OneBank(bitmap, values);
    OneBank(bitmap, later);
    DigestsAgreeIff(bitmap, values, later, 0);
    SameIsSettled(at, n, pcrs, bitmap, values);
  }

  lemma SameIsSettled(at: nat -> Pcrs, n: nat, pcrs: seq<u32>, bitmap: bytes, values: Pcrs)
    requires AllRead(at, n, pcrs) && |bitmap| == SELECT_BYTES
    requires forall i: nat :: Selects(bitmap, i) <==> i in pcrs && i < PCR_COUNT
    requires forall i: nat | i < |pcrs| :: pcrs[i] in values && values[pcrs[i]] == at(n + i)[pcrs[i]]
    ensures Same(bitmap, values, at(n + |pcrs|), 0) <==> Settled(at, n, pcrs)
  {
    hide Selects;
    var later := at(n + |pcrs|);
    if Same(bitmap, values, later, 0) {
      forall i | 0 <= i < |pcrs| ensures pcrs[i] in later && later[pcrs[i]] == at(n + i)[pcrs[i]] {
        assert CanBeRead(pcrs[i], at(n + i)) && Selects(bitmap, pcrs[i]);
      }
    }
    if Settled(at, n, pcrs) {
      forall k: nat | Selects(bitmap, k) && k in values ensures k in later && later[k] == values[k] {
        var i :| 0 <= i < |pcrs| && pcrs[i] == k;
        assert CanBeRead(pcrs[i], at(n + i));
      }
    }
  }
}
