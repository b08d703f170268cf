/** Printing the log, that parsing undoes it, and what a cut-off log yields. */
module EventLogRoundTrip {
  import opened Bytes
  import opened EventLog

  // ---- The printer ----

  predicate WellFormedDigest(d: Digest) {
    DigestSize(d.alg) != 0 && |d.value| == DigestSize(d.alg)
  }

  predicate WellFormed(e: Event) {
    |e.digests| <= MAX_DIGESTS && (forall d | d in e.digests :: WellFormedDigest(d)) && |e.data| < 0x1_0000_0000
  }

  function PrintDigest(d: Digest): bytes {
    Le16(d.alg) + d.value
  }

  function PrintDigests(ds: seq<Digest>): bytes {
    if ds == [] then [] else PrintDigest(ds[0]) + PrintDigests(ds[1..])
  }

  function PrintData(data: bytes): bytes
    requires |data| < 0x1_0000_0000
  {
    Le32(|data|) + data
  }

  function Print(e: Event): bytes
    requires WellFormed(e)
  {
    Le32(e.pcrIndex) + (Le32(e.eventType) + (Le32(|e.digests|) + (PrintDigests(e.digests) + PrintData(e.data))))
  }

  function PrintAll(es: seq<Event>): bytes
    requires forall e | e in es :: WellFormed(e)
  {
    if es == [] then [] else Print(es[0]) + PrintAll(es[1..])
  }

  // ---- Parsing undoes printing ----

  lemma TakeDigestOf(d: Digest, rest: bytes)
    requires WellFormedDigest(d)
    ensures TakeDigest(PrintDigest(d) + rest) == Some(Taken(d, rest))
  {
    hide DigestSize, Le16, ReadLe16;
    var s := PrintDigest(d) + rest;
    assert s == Le16(d.alg) + (d.value + rest);
    ReadLe16Of(d.alg, d.value + rest);
    assert s[2..2 + |d.value|] == d.value && s[2 + |d.value|..] == rest;
  }

  lemma {:induction false} TakeDigestsOf(ds: seq<Digest>, rest: bytes)
    requires forall d | d in ds :: WellFormedDigest(d)
    ensures TakeDigests(PrintDigests(ds) + rest, |ds|) == Some(Taken(ds, rest))
  {
    hide TakeDigest, PrintDigest, WellFormedDigest;
    if ds == [] {
      assert PrintDigests(ds) + rest == rest;
    } else {
      var more := PrintDigests(ds[1..]) + rest;
      assert PrintDigests(ds) + rest == PrintDigest(ds[0]) + more;
      assert ds[0] in ds;
      TakeDigestOf(ds[0], more);
      TakeDigestsOf(ds[1..], rest);
      assert [ds[0]] + ds[1..] == ds;
    }
  }

  lemma TakeDataOf(data: bytes, rest: bytes)
    requires |data| < 0x1_0000_0000
    ensures TakeData(PrintData(data) + rest) == Some(Taken(data, rest))
  {
    hide Le32, ReadLe32;
    var s := PrintData(data) + rest;
    assert s == Le32(|data|) + (data + rest);
    ReadLe32Of(|data|, data + rest);
    assert s[4..4 + |data|] == data && s[4 + |data|..] == rest;
  }

  lemma TakeEventOf(e: Event, rest: bytes)
    requires WellFormed(e)
    ensures TakeEvent(Print(e) + rest) == Some(Taken(e, rest))
  {
    var tail := PrintData(e.data) + rest;
    var body := PrintDigests(e.digests) + tail;
    var s := Print(e) + rest;
    ThreeWords(e.pcrIndex, e.eventType, |e.digests|, body);
    assert s == Le32(e.pcrIndex) + (Le32(e.eventType) + (Le32(|e.digests|) + body)) by {
      hide Le32, PrintData, PrintDigests;
    }
    TakeDigestsOf(e.digests, tail);
    TakeDataOf(e.data, rest);
    hide Le32, ReadLe32, PrintDigests, PrintData, TakeDigests, TakeData, Print;
  }

  lemma ThreeWords(a: u32, b: u32, c: u32, body: bytes)
    ensures var s := Le32(a) + (Le32(b) + (Le32(c) + body));
      |s| == 12 + |body| && ReadLe32(s, 0) == a && ReadLe32(s, 4) == b && ReadLe32(s, 8) == c && s[12..] == body
  {
    var s := Le32(a) + (Le32(b) + (Le32(c) + body));
    ReadLe32Of(a, Le32(b) + (Le32(c) + body));
    ReadLe32At(Le32(a), b, Le32(c) + body);
    ReadLe32At(Le32(a) + Le32(b), c, body);
    hide Le32, ReadLe32;
    assert s == Le32(a) + Le32(b) + (Le32(c) + body);
    assert s == Le32(a) + Le32(b) + Le32(c) + body;
  }

  lemma {:induction false} EventsOfPrint(es: seq<Event>, rest: bytes)
    requires forall e | e in es :: WellFormed(e)
    requires TakeEvent(rest).None?
    ensures Events(PrintAll(es) + rest) == es
  {
    hide TakeEvent, Print, WellFormed;
    if es == [] {
      assert PrintAll(es) + rest == rest;
    } else {
      var more := PrintAll(es[1..]) + rest;
      assert es[0] in es;
      assert PrintAll(es) + rest == Print(es[0]) + more;
      TakeEventOf(es[0], more);
      EventsOfPrint(es[1..], rest);
    }
  }

  // ---- Printing undoes parsing: nothing but records is consumed ----

  lemma PrintOfTakeDigest(s: bytes)
    requires TakeDigest(s).Some?
    ensures var t := TakeDigest(s).value; WellFormedDigest(t.value) && s == PrintDigest(t.value) + t.rest
  {
    Le16OfRead(s, 0);
    hide DigestSize, Le16, ReadLe16;
  }

  lemma {:induction false} PrintOfTakeDigests(s: bytes, count: nat)
    requires TakeDigests(s, count).Some?
    ensures var t := TakeDigests(s, count).value;
      && |t.value| == count && (forall d | d in t.value :: WellFormedDigest(d))
      && s == PrintDigests(t.value) + t.rest
    decreases count
  {
    hide TakeDigest, PrintDigest, WellFormedDigest;
    if count > 0 {
      PrintOfTakeDigest(s);
      var d := TakeDigest(s).value;
      PrintOfTakeDigests(d.rest, count - 1);
      var ds := TakeDigests(d.rest, count - 1).value;
      assert ([d.value] + ds.value)[1..] == ds.value;
      assert s == PrintDigest(d.value) + PrintDigests(ds.value) + ds.rest;
    }
  }

  lemma PrintOfTakeData(s: bytes)
    requires TakeData(s).Some?
    ensures var t := TakeData(s).value; |t.value| < 0x1_0000_0000 && s == PrintData(t.value) + t.rest
  {
    Le32OfRead(s, 0);
    hide Le32, ReadLe32;
  }

  lemma TakeEventParts(s: bytes)
    requires TakeEvent(s).Some?
    ensures var t := TakeEvent(s).value; var e := t.value;
      && WellFormed(e) && 12 <= |s|
      && e.pcrIndex == ReadLe32(s, 0) && e.eventType == ReadLe32(s, 4) && |e.digests| == ReadLe32(s, 8)
      && s[12..] == PrintDigests(e.digests) + (PrintData(e.data) + t.rest)
  {
    hide ReadLe32, TakeDigests, TakeData, PrintDigests, PrintData, WellFormedDigest;
    PrintOfTakeDigests(s[12..], ReadLe32(s, 8));
    PrintOfTakeData(TakeDigests(s[12..], ReadLe32(s, 8)).value.rest);
  }

  lemma PrintOfTakeEvent(s: bytes)
    requires TakeEvent(s).Some?
    ensures var t := TakeEvent(s).value; WellFormed(t.value) && s == Print(t.value) + t.rest
  {
    var t := TakeEvent(s).value;
    TakeEventParts(s);
    Le32OfRead(s, 0);
    Le32OfRead(s, 4);
    Le32OfRead(s, 8);
    hide Le32, ReadLe32, TakeEvent, PrintDigests, PrintData, WellFormed;
    FourParts(s, PrintDigests(t.value.digests), PrintData(t.value.data), t.rest);
  }

  lemma FourParts(s: bytes, digests: bytes, data: bytes, rest: bytes)
    requires 12 <= |s| && s[12..] == digests + (data + rest)
    ensures s == (s[0..4] + (s[4..8] + (s[8..12] + (digests + data)))) + rest
  {
    assert s == s[0..4] + s[4..8] + s[8..12] + s[12..];
  }

  /** The bytes the walk leaves unread. */
  function Unread(s: bytes): bytes
    decreases |s|
  {
    match TakeEvent(s) case None => s case Some(t) => Unread(t.rest)
  }

  /** Re-encoding the records as read reproduces exactly the consumed bytes of any log. */
  lemma {:induction false} PrintOfEvents(s: bytes)
    ensures forall e | e in Events(s) :: WellFormed(e)
    ensures s == PrintAll(Events(s)) + Unread(s)
    ensures TakeEvent(Unread(s)).None?
    decreases |s|
  {
    hide TakeEvent, Print, WellFormed;
    if TakeEvent(s).Some? {
      var t := TakeEvent(s).value;
      assert |t.rest| < |s|;
      PrintOfTakeEvent(s);
      PrintOfEvents(t.rest);
      var es := Events(t.rest);
      assert Events(s) == [t.value] + es && ([t.value] + es)[1..] == es;
      assert s == Print(t.value) + PrintAll(es) + Unread(s);
    }
  }

  // ---- Whole logs ----

  /** A TCG_PCR_EVENT carrying the Spec ID: index, EV_NO_ACTION, a SHA-1 digest, and its data. */
  function PrintHeader(pcrIndex: u32, digest: bytes, data: bytes): bytes
    requires |digest| == 20 && |data| < 0x1_0000_0000
  {
    Le32(pcrIndex) + (Le32(EV_NO_ACTION) + (digest + PrintData(data)))
  }

  lemma HeaderLengthOf(pcrIndex: u32, digest: bytes, data: bytes, rest: bytes)
    requires |digest| == 20 && |data| < 0x1_0000_0000
    ensures HeaderLength(PrintHeader(pcrIndex, digest, data) + rest) == |PrintHeader(pcrIndex, digest, data)|
  {
    var raw := PrintHeader(pcrIndex, digest, data) + rest;
    ReadLe32At(Le32(pcrIndex), EV_NO_ACTION, digest + PrintData(data) + rest);
    ReadLe32At(Le32(pcrIndex) + Le32(EV_NO_ACTION) + digest, |data|, data + rest);
    hide Le32, ReadLe32;
    assert raw == Le32(pcrIndex) + Le32(EV_NO_ACTION) + (digest + PrintData(data) + rest);
    assert raw == (Le32(pcrIndex) + Le32(EV_NO_ACTION) + digest) + Le32(|data|) + (data + rest);
  }

  /**
   * Parsing undoes printing: behind any Spec ID header, the records printed are the records read, and nothing
   * after them that is not itself a record is mistaken for one.
   */
  lemma LogEventsOfPrint(pcrIndex: u32, digest: bytes, data: bytes, es: seq<Event>, rest: bytes)
    requires |digest| == 20 && |data| < 0x1_0000_0000
    requires forall e | e in es :: WellFormed(e)
    requires TakeEvent(rest).None?
    ensures LogEvents(PrintHeader(pcrIndex, digest, data) + (PrintAll(es) + rest)) == es
  {
    hide TakeEvent, PrintHeader, WellFormed, HeaderLength;
    var header, body := PrintHeader(pcrIndex, digest, data), PrintAll(es) + rest;
    HeaderLengthOf(pcrIndex, digest, data, body);
    assert (header + body)[|header|..] == body;
    EventsOfPrint(es, rest);
  }

  predicate DistinctAlgorithms(ds: seq<Digest>) {
    forall i, j | 0 <= i < j < |ds| :: ds[i].alg != ds[j].alg
  }

  lemma {:induction false} FiledHolds(ds: seq<Digest>, i: nat)
    requires DistinctAlgorithms(ds) && i < |ds|
    ensures ds[i].alg in Filed(ds) && Filed(ds)[ds[i].alg] == ds[i].value
    decreases |ds|
  {
    var last := |ds| - 1;
    if i < last { FiledHolds(ds[..last], i); }
  }

  lemma {:induction false} FiledComesFrom(ds: seq<Digest>, alg: u16)
    requires alg in Filed(ds)
    ensures exists i | 0 <= i < |ds| :: ds[i].alg == alg
  {
    var last := |ds| - 1;
    if ds[last].alg != alg {
      FiledComesFrom(ds[..last], alg);
      var i :| 0 <= i < last && ds[..last][i].alg == alg;
      assert ds[i].alg == alg;
    }
  }

  /** Of several digests of one algorithm the last is kept. */
  lemma {:induction false} FiledKeepsLast(ds: seq<Digest>, i: nat)
    requires i < |ds| && forall j | i < j < |ds| :: ds[j].alg != ds[i].alg
    ensures ds[i].alg in Filed(ds) && Filed(ds)[ds[i].alg] == ds[i].value
    decreases |ds|
  {
    var last := |ds| - 1;
    if i < last { FiledKeepsLast(ds[..last], i); }
  }

  /** With distinct algorithms the filed digests are the ones read, no more and no fewer. */
  lemma {:induction false} FiledIsFaithful(ds: seq<Digest>)
    requires DistinctAlgorithms(ds)
    ensures forall i | 0 <= i < |ds| :: ds[i].alg in Filed(ds) && Filed(ds)[ds[i].alg] == ds[i].value
    ensures |Filed(ds)| == |ds|
  {
    forall i | 0 <= i < |ds| ensures ds[i].alg in Filed(ds) && Filed(ds)[ds[i].alg] == ds[i].value {
      FiledHolds(ds, i);
    }
    if ds != [] {
      var last := |ds| - 1;
      FiledIsFaithful(ds[..last]);
      if ds[last].alg in Filed(ds[..last]) {
        FiledComesFrom(ds[..last], ds[last].alg);
        assert false;
      }
    }
  }

  // ---- Cutting a log short ----

  /** Cutting a record stream anywhere keeps a prefix of its records. */
  lemma {:induction false} EventsOfCut(s: bytes, n: nat)
    requires n <= |s|
    ensures Events(s[..n]) <= Events(s)
    decreases n
  {
    hide TakeEvent, Print, WellFormed;
    var cut := s[..n];
    if TakeEvent(cut).Some? {
      var t := TakeEvent(cut).value;
      PrintOfTakeEvent(cut);
      var rest := t.rest + s[n..];
      assert s == Print(t.value) + rest by { assert s == cut + s[n..]; }
      TakeEventOf(t.value, rest);
      assert |t.rest| < n;
      assert rest[..|t.rest|] == t.rest;
      EventsOfCut(rest, |t.rest|);
    }
  }

  /** Every record occupied at least sixteen bytes, which bounds their number and every counter over them. */
  lemma {:induction false} EventsAreFew(s: bytes)
    ensures 16 * |Events(s)| <= |s|
    decreases |s|
  {
    hide TakeEvent;
    if TakeEvent(s).Some? {
      assert |TakeEvent(s).value.rest| + 16 <= |s|;
      EventsAreFew(TakeEvent(s).value.rest);
    }
  }

  lemma HeaderOfCut(raw: bytes, n: nat)
    requires HeaderLength(raw) <= n <= |raw|
    ensures HeaderLength(raw[..n]) == HeaderLength(raw)
  {
    if 32 <= n {
      assert forall at: nat | at + 4 <= 32 :: ReadLe32(raw[..n], at) == ReadLe32(raw, at);
    }
  }

  /**
   * Truncation monotonicity: cut at or after the end of the header it skips, a log yields a prefix of the
   * entries of the whole, which number at most a sixteenth of its bytes.
   */
  lemma CutLogKeepsPrefix(raw: bytes, n: nat)
    requires HeaderLength(raw) <= n <= |raw|
    ensures ToEntries(LogEvents(raw[..n])) <= ToEntries(LogEvents(raw))
    ensures 16 * |ToEntries(LogEvents(raw))| <= |raw|
  {
    hide *;
    var skip := HeaderLength(raw);
    HeaderOfCut(raw, n);
    LogIsBehindHeader(raw[..n]);
    LogIsBehindHeader(raw);
    CutBehind(raw, skip, n);
    EventsOfCut(raw[skip..], n - skip);
    EventsAreFew(raw[skip..]);
    EntriesOfPrefix(LogEvents(raw[..n]), LogEvents(raw));
  }

  lemma LogIsBehindHeader(raw: bytes)
    ensures HeaderLength(raw) <= |raw| && LogEvents(raw) == Events(raw[HeaderLength(raw)..])
  {
  }

  lemma CutBehind(raw: bytes, skip: nat, n: nat)
    requires skip <= n <= |raw|
    ensures raw[..n][skip..] == raw[skip..][..n - skip]
  {
  }

  lemma EntriesOfPrefix(es: seq<Event>, more: seq<Event>)
    requires es <= more
    ensures ToEntries(es) <= ToEntries(more)
  {
    hide ToEntry;
  }

  /** The proviso is needed: cut inside it, the header is not skipped but read as records. */
  lemma CutHeaderIsRead(raw: bytes, n: nat)
    requires n < HeaderLength(raw)
    ensures LogEvents(raw[..n]) == Events(raw[..n])
  {
    hide Events;
    if 32 <= n {
      assert ReadLe32(raw[..n], 4) == ReadLe32(raw, 4) && ReadLe32(raw[..n], 28) == ReadLe32(raw, 28);
    }
    assert raw[..n][0..] == raw[..n];
  }

  /**
   * For any log and any cut: what is left is a prefix exactly when the header is whole, or what is read of it is one.
   */
  lemma CutKeepsPrefixIff(raw: bytes, n: nat)
    requires n <= |raw|
    ensures LogEvents(raw[..n]) <= LogEvents(raw) <==> HeaderLength(raw) <= n || Events(raw[..n]) <= LogEvents(raw)
  {
    hide *;
    if HeaderLength(raw) <= n {
      HeaderOfCut(raw, n);
      LogIsBehindHeader(raw[..n]);
      LogIsBehindHeader(raw);
      CutBehind(raw, HeaderLength(raw), n);
      EventsOfCut(raw[HeaderLength(raw)..], n - HeaderLength(raw));
    } else {
      CutHeaderIsRead(raw, n);
    }
  }

  /** A Spec ID header as firmware writes it, its digest zero, and the log behind it. */
  function SpecIdLog(pcrIndex: u32, data: bytes, rest: bytes): bytes
    requires |data| < 0x1_0000_0000
  {
    PrintHeader(pcrIndex, ZeroDigest(), data) + rest
  }

  /** What the front of such a header reads as. */
  function Spurious(pcrIndex: u32): Event {
    Event(pcrIndex, EV_NO_ACTION, [], [])
  }

  /** Cut inside the header, the log reads as nothing, or as one record that was never logged. */
  lemma CutHeaderReadsAs(pcrIndex: u32, data: bytes, rest: bytes, n: nat)
    requires |data| < 0x1_0000_0000 && n < 32 + |data|
    ensures LogEvents(SpecIdLog(pcrIndex, data, rest)[..n]) == if n < 16 then [] else [Spurious(pcrIndex)]
  {
    var raw := SpecIdLog(pcrIndex, data, rest);
    HeaderLengthOf(pcrIndex, ZeroDigest(), data, rest);
    assert HeaderLength(raw) == 32 + |data| by { HeaderSize(pcrIndex, data); }
    hide TakeEvent, Print, PrintHeader, Events, HeaderLength, LogEvents, SpecIdLog;
    CutHeaderIsRead(raw, n);
    var cut := raw[..n];
    if n < 16 {
      TooShort(cut);
    } else {
      var more := raw[16..n];
      SpecIdParts(pcrIndex, data, rest, n);
      TakeEventOf(Spurious(pcrIndex), more);
      OneEvent(cut);
      if n < 32 { TooShort(more); } else { NoMoreEvents(more, data, n - 32); }
    }
  }

  lemma HeaderSize(pcrIndex: u32, data: bytes)
    requires |data| < 0x1_0000_0000
    ensures |PrintHeader(pcrIndex, ZeroDigest(), data)| == 32 + |data|
  {
    hide Le32, ZeroDigest;
  }

  lemma TooShort(s: bytes)
    requires |s| < 16
    ensures Events(s) == []
  {
    hide TakeEvent;
  }

  lemma OneEvent(s: bytes)
    requires TakeEvent(s).Some?
    ensures Events(s) == [TakeEvent(s).value.value] + Events(TakeEvent(s).value.rest)
  {
    hide TakeEvent;
  }

  /** The rest of the header asks for more data than the cut has left of it. */
  lemma NoMoreEvents(s: bytes, data: bytes, n: nat)
    requires n < |data| < 0x1_0000_0000 && s == seq(12, _ => 0) + (Le32(|data|) + data[..n])
    ensures Events(s) == []
  {
    var z := seq(12, _ => 0);
    assert z == Le32(0) + (Le32(0) + Le32(0));
    ReadLe32Of(|data|, data[..n]);
    ZerosRead(s);
    assert s[12..] == Le32(|data|) + data[..n];
    hide Le32, ReadLe32;
    assert TakeData(s[12..]).None?;
    assert TakeDigests(s[12..], 0).Some?;
  }

  lemma ZerosRead(s: bytes)
    requires 12 <= |s| && forall i | 0 <= i < 12 :: s[i] == 0
    ensures ReadLe32(s, 8) == 0
  {
  }

  lemma SpecIdParts(pcrIndex: u32, data: bytes, rest: bytes, n: nat)
    requires |data| < 0x1_0000_0000 && 16 <= n < 32 + |data|
    ensures n <= |SpecIdLog(pcrIndex, data, rest)|
    ensures var raw := SpecIdLog(pcrIndex, data, rest);
      && raw[..n] == Print(Spurious(pcrIndex)) + raw[16..n]
      && (32 <= n ==> raw[16..n] == seq(12, _ => 0) + (Le32(|data|) + data[..n - 32]))
  {
    hide Le32;
    HeaderCut(Le32(pcrIndex), Le32(EV_NO_ACTION), Le32(0), seq(12, _ => 0), Le32(|data|), data, rest, n);
  }

  lemma HeaderCut(a: bytes, b: bytes, z: bytes, w: bytes, size: bytes, data: bytes, rest: bytes, n: nat)
    requires |a| == |b| == |z| == |size| == 4 && |w| == 12 && 16 <= n < 32 + |data|
    ensures var raw := (a + (b + ((z + (z + w)) + (size + data)))) + rest;
      && n <= |raw|
      && raw[..n] == (a + (b + (z + ([] + (z + []))))) + raw[16..n]
      && (32 <= n ==> raw[16..n] == w + (size + data[..n - 32]))
  {
  }

  /**
   * The exact condition, for a log behind a Spec ID header: a cut keeps a prefix of the entries if and only if it
   * leaves less than sixteen bytes, or the whole header, or the log itself opens with the spurious record.
   */
  lemma CutSpecIdLogIff(pcrIndex: u32, data: bytes, rest: bytes, n: nat)
    requires |data| < 0x1_0000_0000 && n <= |SpecIdLog(pcrIndex, data, rest)|
    ensures var raw := SpecIdLog(pcrIndex, data, rest);
      ToEntries(LogEvents(raw[..n])) <= ToEntries(LogEvents(raw))
      <==> n < 16 || 32 + |data| <= n || (LogEvents(raw) != [] && LogEvents(raw)[0] == Spurious(pcrIndex))
  {
    var raw := SpecIdLog(pcrIndex, data, rest);
    HeaderLengthOf(pcrIndex, ZeroDigest(), data, rest);
    assert HeaderLength(raw) == 32 + |data| by { HeaderSize(pcrIndex, data); }
    hide Events, HeaderLength, LogEvents, SpecIdLog, ToEntry, Filed;
    if 32 + |data| <= n {
      CutLogKeepsPrefix(raw, n);
    } else {
      CutHeaderReadsAs(pcrIndex, data, rest, n);
      if LogEvents(raw) != [] { SameEntry(LogEvents(raw)[0], pcrIndex); }
    }
  }

  /** Only the spurious record files as it does. */
  lemma SameEntry(e: Event, pcrIndex: u32)
    ensures ToEntry(e) == ToEntry(Spurious(pcrIndex)) <==> e == Spurious(pcrIndex)
  {
    if e.digests != [] {
      var last := |e.digests| - 1;
      assert e.digests[last].alg in Filed(e.digests);
    }
  }

  /** So a log of a header alone, which has no entries, has one when its last byte is missing. */
  lemma CutHeaderMisleads()
    ensures var raw := PrintHeader(0, ZeroDigest(), [7]);
      LogEvents(raw) == [] && LogEvents(raw[..|raw| - 1]) != []
  {
    var raw := PrintHeader(0, ZeroDigest(), [7]);
    HeaderSize(0, [7]);
    assert raw + [] == raw;
    HeaderLengthOf(0, ZeroDigest(), [7], []);
    assert SpecIdLog(0, [7], []) == raw && raw[|raw|..] == [];
    hide PrintHeader, Events, HeaderLength, SpecIdLog;
    TooShort([]);
    CutHeaderReadsAs(0, [7], [], |raw| - 1);
  }

  function ZeroDigest(): (d: bytes)
    ensures |d| == 20
  {
    Le32(0) + (Le32(0) + seq(12, _ => 0))
  }
}
