/** The measured-boot log: TCG_PCR_EVENT2 records behind an optional legacy header, and their classification. */
module EventLog {
  import opened Bytes
  import opened EfiVariable

  // ---- Records ----

  datatype Digest = Digest(alg: u16, value: bytes)

  /** A record in log order, before its digests are filed by algorithm. */
  datatype Event = Event(pcrIndex: u32, eventType: u32, digests: seq<Digest>, data: bytes)

  const MAX_DIGESTS := 8

  /** Bytes in a digest of the algorithm; 0 when the size is not known. */
  function DigestSize(alg: u16): nat {
    if alg == 0x0004 then 20 else if alg == 0x000B then 32 else if alg == 0x000C then 48
    else if alg == 0x000D then 64 else if alg == 0x0012 then 32 else 0
  }

  function TakeDigest(s: bytes): (t: Option<Taken<Digest>>)
    ensures t.Some? ==> |t.value.rest| + 2 <= |s|
  {
    if |s| < 2 then None else
    var alg := ReadLe16(s, 0);
    var size := DigestSize(alg);
    if size == 0 || |s| < 2 + size then None
    else Some(Taken(Digest(alg, s[2..2 + size]), s[2 + size..]))
  }

  function TakeDigests(s: bytes, count: nat): (t: Option<Taken<seq<Digest>>>)
    ensures t.Some? ==> |t.value.rest| <= |s|
    decreases count
  {
    if count == 0 then Some(Taken([], s)) else
    match TakeDigest(s)
    case None => None
    case Some(d) =>
      match TakeDigests(d.rest, count - 1)
      case None => None
      case Some(ds) => Some(Taken([d.value] + ds.value, ds.rest))
  }

  /** Event data behind its 32-bit length. */
  function TakeData(s: bytes): (t: Option<Taken<bytes>>)
    ensures t.Some? ==> |t.value.rest| + 4 <= |s|
  {
    if |s| < 4 then None else
    var size := ReadLe32(s, 0);
    if |s| < 4 + size then None else Some(Taken(s[4..4 + size], s[4 + size..]))
  }

  function TakeEvent(s: bytes): (t: Option<Taken<Event>>)
    ensures t.Some? ==> |t.value.rest| + 16 <= |s|
  {
    if |s| < 12 then None else
    var (pcrIndex, eventType, count) := (ReadLe32(s, 0), ReadLe32(s, 4), ReadLe32(s, 8));
    if count > MAX_DIGESTS then None else
    match TakeDigests(s[12..], count)
    case None => None
    case Some(ds) =>
      match TakeData(ds.rest)
      case None => None
      case Some(d) => Some(Taken(Event(pcrIndex, eventType, ds.value, d.value), d.rest))
  }

  /** Every whole record at the front of `s`; the walk ends at the first that is malformed or cut short. */
  function Events(s: bytes): seq<Event>
    decreases |s|
  {
    match TakeEvent(s)
    case None => []
    case Some(t) => [t.value] + Events(t.rest)
  }

  // ---- The legacy header ----

  const HEADER_FIXED_BYTES := 32
  const EV_NO_ACTION: u32 := 0x0000_0003

  /** Bytes the Spec ID header occupies: 32 + its data, or nothing when the log does not open with one. */
  function HeaderLength(raw: bytes): (n: nat)
    ensures n <= |raw|
  {
    if |raw| < HEADER_FIXED_BYTES || ReadLe32(raw, 4) != EV_NO_ACTION then 0 else
    var skip := HEADER_FIXED_BYTES + ReadLe32(raw, 28);
    if skip <= |raw| then skip else 0
  }

  function LogEvents(raw: bytes): seq<Event> {
    Events(raw[HeaderLength(raw)..])
  }

  // ---- Classification ----

  const EV_POST_CODE: u32 := 0x0000_0001
  const EV_SEPARATOR: u32 := 0x0000_0004
  const EV_S_CRTM_CONTENTS: u32 := 0x0000_0007
  const EV_S_CRTM_VERSION: u32 := 0x0000_0008
  const EV_CPU_MICROCODE: u32 := 0x0000_0009
  const EV_PLATFORM_CONFIG_FLAGS: u32 := 0x0000_000A
  const EV_COMPACT_HASH: u32 := 0x0000_000C
  const EV_EFI_VARIABLE_DRIVER_CONFIG: u32 := 0x8000_0001
  const EV_EFI_VARIABLE_BOOT: u32 := 0x8000_0002
  const EV_EFI_BOOT_SERVICES_APPLICATION: u32 := 0x8000_0003
  const EV_EFI_BOOT_SERVICES_DRIVER: u32 := 0x8000_0004
  const EV_EFI_RUNTIME_SERVICES_DRIVER: u32 := 0x8000_0005
  const EV_EFI_GPT_EVENT: u32 := 0x8000_0006
  const EV_EFI_ACTION: u32 := 0x8000_0007
  const EV_EFI_PLATFORM_FIRMWARE_BLOB: u32 := 0x8000_0008
  const EV_EFI_HANDOFF_TABLES: u32 := 0x8000_0009
  const EV_EFI_PLATFORM_FIRMWARE_BLOB2: u32 := 0x8000_000A
  const EV_EFI_HANDOFF_TABLES2: u32 := 0x8000_000B
  const EV_EFI_VARIABLE_BOOT2: u32 := 0x8000_000C
  const EV_EFI_VARIABLE_AUTHORITY: u32 := 0x8000_00E0

  datatype Label = Verified | Unknown | Policy
  datatype Verdict = Pass | Warning | Fail

  datatype Entry = Entry(
    pcrIndex: u32,
    eventType: u32,
    digests: map<u16, bytes>,
    eventData: bytes,
    classification: Label)

  datatype Analysis = Analysis(
    entries: seq<Entry>,
    secureBootEnabled: bool,
    secureBootMicrosoftKeys: bool,
    verifiedCount: nat,
    unknownCount: nat,
    policyCount: nat,
    verdict: Verdict)

  predicate IsVariableEvent(eventType: u32) {
    || eventType == EV_EFI_VARIABLE_DRIVER_CONFIG || eventType == EV_EFI_VARIABLE_BOOT
    || eventType == EV_EFI_VARIABLE_BOOT2
  }

  predicate IsPolicyEvent(eventType: u32) {
    IsVariableEvent(eventType)
    || eventType == EV_SEPARATOR || eventType == EV_EFI_ACTION || eventType == EV_EFI_VARIABLE_AUTHORITY
    || eventType == EV_EFI_GPT_EVENT || eventType == EV_NO_ACTION
    || eventType == EV_EFI_HANDOFF_TABLES || eventType == EV_EFI_HANDOFF_TABLES2
    || eventType == EV_PLATFORM_CONFIG_FLAGS
  }

  predicate IsVerifiedEvent(eventType: u32) {
    eventType == EV_EFI_BOOT_SERVICES_APPLICATION || eventType == EV_EFI_BOOT_SERVICES_DRIVER
    || eventType == EV_EFI_PLATFORM_FIRMWARE_BLOB || eventType == EV_EFI_PLATFORM_FIRMWARE_BLOB2
    || eventType == EV_S_CRTM_VERSION || eventType == EV_POST_CODE || eventType == EV_S_CRTM_CONTENTS
    || eventType == EV_CPU_MICROCODE || eventType == EV_COMPACT_HASH
    || eventType == EV_EFI_RUNTIME_SERVICES_DRIVER
  }

  /** PCR 11 to 14 carry Windows OS measurements, so an unlisted type there is not unknown. */
  function Classify(pcrIndex: u32, eventType: u32): Label {
    if IsPolicyEvent(eventType) then Policy
    else if IsVerifiedEvent(eventType) || 11 <= pcrIndex <= 14 then Verified
    else Unknown
  }

  /** std::map keeps one digest per algorithm, the last one read. */
  function Filed(digests: seq<Digest>): map<u16, bytes> {
    if digests == [] then map[] else
    var last := |digests| - 1;
    Filed(digests[..last])[digests[last].alg := digests[last].value]
  }

  function ToEntry(e: Event): Entry {
    Entry(e.pcrIndex, e.eventType, Filed(e.digests), e.data, Classify(e.pcrIndex, e.eventType))
  }

  function ToEntries(es: seq<Event>): (entries: seq<Entry>)
    ensures |entries| == |es| && forall i | 0 <= i < |es| :: entries[i] == ToEntry(es[i])
  {
    seq(|es|, i requires 0 <= i < |es| => ToEntry(es[i]))
  }

  function Count(entries: seq<Entry>, kind: Label): nat {
    if entries == [] then 0 else
    var last := |entries| - 1;
    Count(entries[..last], kind) + (if entries[last].classification == kind then 1 else 0)
  }

  function EventVariableName(data: bytes): string {
    match Parse(data) case None => "" case Some(v) => NameText(v.name)
  }

  predicate IsSecureBootEvent(e: Entry) {
    IsVariableEvent(e.eventType) && EventVariableName(e.eventData) == "SecureBoot"
  }

  /** The variable's data is a single byte, 1 for enabled. */
  predicate SecureBootValue(data: bytes) {
    Parse(data).Some? && 1 <= |Parse(data).value.data| && Parse(data).value.data[0] == 1
  }

  predicate IsMicrosoftKeyEvent(e: Entry) {
    IsVariableEvent(e.eventType) && EventVariableName(e.eventData) in {"db", "KEK"}
  }

  ghost predicate HasMicrosoftKeyEvent(entries: seq<Entry>) {
    exists i | 0 <= i < |entries| :: IsMicrosoftKeyEvent(entries[i])
  }

  /** `enabled` is the value in the last SecureBoot variable event, false when there is none. */
  ghost predicate LastSecureBoot(entries: seq<Entry>, enabled: bool) {
    || (!enabled && forall i | 0 <= i < |entries| :: !IsSecureBootEvent(entries[i]))
    || exists i | 0 <= i < |entries| ::
         && IsSecureBootEvent(entries[i])
         && enabled == SecureBootValue(entries[i].eventData)
         && forall j | i < j < |entries| :: !IsSecureBootEvent(entries[j])
  }

  // ---- The walk ----

  method ExtractEfiVariableName(data: bytes) returns (name: string)
    requires |data| < 0x1_0000_0000_0000_0000
    ensures name == EventVariableName(data)
  {
    var v := TryParse(data);
    if v.None? { return ""; }
    ParsedNameIsEven(data);
    name := VariableName(v.value);
  }

  lemma ParsedNameIsEven(raw: bytes)
    requires Parse(raw).Some?
    ensures |Parse(raw).value.name| % 2 == 0
  {
  }

  method IsSecureBootEnabled(name: string, data: bytes) returns (enabled: bool)
    requires |data| < 0x1_0000_0000_0000_0000
    ensures enabled <==> name == "SecureBoot" && SecureBootValue(data)
  {
    if name != "SecureBoot" { return false; }
    if |data| < 33 { return false; }
    var v := TryParse(data);
    if v.None? || |v.value.data| < 1 { return false; }
    enabled := v.value.data[0] == 1;
  }

  /** The digest loop: the cursor, the digests by algorithm, and (ghost) as read. */
  method ReadDigests(raw: bytes, start: nat, count: nat)
    returns (p: nat, truncated: bool, digests: map<u16, bytes>, ghost asRead: seq<Digest>)
    requires start <= |raw|
    ensures start <= p <= |raw| && digests == Filed(asRead)
    ensures truncated <==> TakeDigests(raw[start..], count).None?
    ensures !truncated ==> TakeDigests(raw[start..], count) == Some(Taken(asRead, raw[p..]))
  {
    hide DigestSize, ReadLe16, Filed, TakeDigest, TakeDigests, Prepend;
    p, truncated, digests, asRead := start, false, map[], [];
    var remaining := |raw| - p;
    ghost var whole := TakeDigests(raw[start..], count);
    PrependNothing(whole);
    FiledNothing();
    var i := 0;
    while i < count
      invariant 0 <= i <= count && start <= p && p + remaining == |raw| && 0 <= remaining
      invariant !truncated && digests == Filed(asRead)
      invariant whole == Prepend(asRead, TakeDigests(raw[p..], count - i))
    {
      DigestsStep(raw, p, count - i, asRead);
      if remaining < 2 { truncated := true; break; }
      var alg := ReadLe16(raw, p);
      p, remaining := p + 2, remaining - 2;
      var size := DigestSize(alg);
      if size == 0 { truncated := true; break; }
      if remaining < size { truncated := true; break; }
      FiledStep(asRead, Digest(alg, raw[p..p + size]));
      digests := digests[alg := raw[p..p + size]];
      asRead := asRead + [Digest(alg, raw[p..p + size])];
      p, remaining := p + size, remaining - size;
      i := i + 1;
    }
    if !truncated { DigestsDone(raw[p..], asRead); }
  }

  lemma FiledNothing()
    ensures Filed([]) == map[]
  {
  }

  lemma FiledStep(ds: seq<Digest>, d: Digest)
    ensures Filed(ds + [d]) == Filed(ds)[d.alg := d.value]
  {
    assert (ds + [d])[..|ds|] == ds;
  }

  lemma DigestsDone(s: bytes, front: seq<Digest>)
    ensures Prepend(front, TakeDigests(s, 0)) == Some(Taken(front, s))
  {
    assert front + [] == front;
  }

  /** One turn of the digest loop at `at`, in terms of the whole log. */
  lemma DigestsStep(raw: bytes, at: nat, count: nat, front: seq<Digest>)
    requires at <= |raw| && 0 < count
    ensures var t := Prepend(front, TakeDigests(raw[at..], count));
      if at + 2 > |raw| then t.None? else
      var (alg, size) := (ReadLe16(raw, at), DigestSize(ReadLe16(raw, at)));
      if size == 0 || at + 2 + size > |raw| then t.None?
      else t == Prepend(front + [Digest(alg, raw[at + 2..at + 2 + size])], TakeDigests(raw[at + 2 + size..], count - 1))
  {
    hide DigestSize, ReadLe16;
    if at + 2 <= |raw| {
      TakeDigestAt(raw, at);
      var (alg, size) := (ReadLe16(raw, at), DigestSize(ReadLe16(raw, at)));
      if size != 0 && at + 2 + size <= |raw| {
        var d := Digest(alg, raw[at + 2..at + 2 + size]);
        PrependStep(front, d, TakeDigests(raw[at + 2 + size..], count - 1));
      }
    }
  }

  ghost function Prepend(front: seq<Digest>, t: Option<Taken<seq<Digest>>>): Option<Taken<seq<Digest>>> {
    match t case None => None case Some(ds) => Some(Taken(front + ds.value, ds.rest))
  }

  lemma PrependNothing(t: Option<Taken<seq<Digest>>>)
    ensures Prepend([], t) == t
  {
    if t.Some? { assert [] + t.value.value == t.value.value; }
  }

  lemma TakeDigestAt(raw: bytes, at: nat)
    requires at + 2 <= |raw|
    ensures var (alg, size) := (ReadLe16(raw, at), DigestSize(ReadLe16(raw, at)));
      TakeDigest(raw[at..]) == if size == 0 || at + 2 + size > |raw| then None
        else Some(Taken(Digest(alg, raw[at + 2..at + 2 + size]), raw[at + 2 + size..]))
  {
    hide DigestSize, ReadLe16;
    ReadLe16Slice(raw, at);
    var (s, size) := (raw[at..], DigestSize(ReadLe16(raw, at)));
    if at + 2 + size <= |raw| {
      assert s[2..2 + size] == raw[at + 2..at + 2 + size];
      assert s[2 + size..] == raw[at + 2 + size..];
    }
  }

  lemma PrependStep(front: seq<Digest>, d: Digest, t: Option<Taken<seq<Digest>>>)
    ensures Prepend(front, Prepend([d], t)) == Prepend(front + [d], t)
  {
    if t.Some? { assert front + ([d] + t.value.value) == front + [d] + t.value.value; }
  }

  /** One record, up to its event data. A record that is malformed or cut short is not emitted. */
  method ReadRecord(raw: bytes, start: nat)
    returns (ok: bool, p: nat, pcrIndex: u32, eventType: u32, digests: map<u16, bytes>, data: bytes, ghost e: Event)
    requires start <= |raw|
    ensures ok <==> TakeEvent(raw[start..]).Some?
    ensures ok ==> start <= p <= |raw| && TakeEvent(raw[start..]) == Some(Taken(e, raw[p..]))
    ensures ok ==> e.pcrIndex == pcrIndex && e.eventType == eventType && digests == Filed(e.digests) && e.data == data
    ensures |data| <= |raw|
  {
    hide ReadLe32, Filed, TakeDigests, TakeData;
    ok, p, pcrIndex, eventType, digests, data, e := false, start, 0, 0, map[], [], Event(0, 0, [], []);
    var remaining := |raw| - p;
    RecordAt(raw, start);
    if remaining < 12 { return; }
    pcrIndex := ReadLe32(raw, p);
    p, remaining := p + 4, remaining - 4;
    eventType := ReadLe32(raw, p);
    p, remaining := p + 4, remaining - 4;
    if remaining < 4 { return; }
    var count := ReadLe32(raw, p);
    p, remaining := p + 4, remaining - 4;
    if count > MAX_DIGESTS { return; }
    var truncated;
    ghost var asRead;
    p, truncated, digests, asRead := ReadDigests(raw, p, count);
    remaining := |raw| - p;
    if truncated { return; }
    DataAt(raw, p);
    if remaining < 4 { return; }
    var size := ReadLe32(raw, p);
    p, remaining := p + 4, remaining - 4;
    if remaining < size { return; }
    data := raw[p..p + size];
    p, remaining := p + size, remaining - size;
    ok, e := true, Event(pcrIndex, eventType, asRead, data);
  }

  lemma DataAt(raw: bytes, at: nat)
    requires at <= |raw|
    ensures TakeData(raw[at..]) ==
      if at + 4 > |raw| || at + 4 + ReadLe32(raw, at) > |raw| then None
      else Some(Taken(raw[at + 4..at + 4 + ReadLe32(raw, at)], raw[at + 4 + ReadLe32(raw, at)..]))
  {
    if at + 4 <= |raw| {
      ReadLe32Slice(raw, at, 0);
      hide ReadLe32;
      var (s, size) := (raw[at..], ReadLe32(raw, at));
      if at + 4 + size <= |raw| {
        assert s[4..4 + size] == raw[at + 4..at + 4 + size];
        assert s[4 + size..] == raw[at + 4 + size..];
      }
    }
  }

  lemma ReadLe32Slice(b: bytes, from: nat, at: nat)
    requires from + at + 4 <= |b|
    ensures ReadLe32(b[from..], at) == ReadLe32(b, from + at)
  {
  }

  /** TakeEvent at an offset, in terms of the whole log. */
  lemma RecordAt(raw: bytes, at: nat)
    requires at <= |raw|
    ensures TakeEvent(raw[at..]) ==
      if at + 12 > |raw| || ReadLe32(raw, at + 8) > MAX_DIGESTS then None else
      match TakeDigests(raw[at + 12..], ReadLe32(raw, at + 8))
      case None => None
      case Some(ds) =>
        match TakeData(ds.rest)
        case None => None
        case Some(d) => Some(Taken(Event(ReadLe32(raw, at), ReadLe32(raw, at + 4), ds.value, d.value), d.rest))
  {
    if at + 12 <= |raw| {
      ReadLe32Slice(raw, at, 0);
      ReadLe32Slice(raw, at, 4);
      ReadLe32Slice(raw, at, 8);
      hide ReadLe32;
      assert raw[at..][12..] == raw[at + 12..];
    }
  }

  /** The counters and flags say what the entries they were gathered from say. */
  ghost predicate Summarises(a: Analysis) {
    && a.verifiedCount == Count(a.entries, Verified)
    && a.unknownCount == Count(a.entries, Unknown)
    && a.policyCount == Count(a.entries, Policy)
    && a.verifiedCount + a.unknownCount + a.policyCount == |a.entries|
    && LastSecureBoot(a.entries, a.secureBootEnabled)
    && (a.secureBootMicrosoftKeys <==> HasMicrosoftKeyEvent(a.entries))
  }

  /** The switch on the event type: count the entry, note what a variable event reveals, and keep it. */
  method Record(a: Analysis, pcrIndex: u32, eventType: u32, digests: map<u16, bytes>, data: bytes)
    returns (r: Analysis)
    requires |data| < 0x1_0000_0000_0000_0000 && Summarises(a)
    ensures Summarises(r)
    ensures r.entries == a.entries + [Entry(pcrIndex, eventType, digests, data, Classify(pcrIndex, eventType))]
  {
    hide Count, HasMicrosoftKeyEvent, LastSecureBoot, SecureBootValue, EventVariableName;
    hide Classify, IsVariableEvent, IsPolicyEvent, IsVerifiedEvent;
    ClassifyCases(pcrIndex, eventType);
    r := a;
    var classification;
    if IsVariableEvent(eventType) {
      classification := Policy;
      r := r.(policyCount := r.policyCount + 1);
      var name := ExtractEfiVariableName(data);
      if name == "SecureBoot" {
        var enabled := IsSecureBootEnabled(name, data);
        r := r.(secureBootEnabled := enabled);
      }
      if name == "db" || name == "KEK" {
        r := r.(secureBootMicrosoftKeys := true);
      }
    } else if IsPolicyEvent(eventType) {
      classification := Policy;
      r := r.(policyCount := r.policyCount + 1);
    } else if IsVerifiedEvent(eventType) || 11 <= pcrIndex <= 14 {
      classification := Verified;
      r := r.(verifiedCount := r.verifiedCount + 1);
    } else {
      classification := Unknown;
      r := r.(unknownCount := r.unknownCount + 1);
    }
    var entry := Entry(pcrIndex, eventType, digests, data, classification);
    r := r.(entries := r.entries + [entry]);
    SecureBootStep(a.entries, a.secureBootEnabled, entry);
    KeysStep(a.entries, entry);
    CountStep(a.entries, entry, Verified);
    CountStep(a.entries, entry, Unknown);
    CountStep(a.entries, entry, Policy);
  }

  lemma ClassifyCases(pcrIndex: u32, eventType: u32)
    ensures IsVariableEvent(eventType) ==> IsPolicyEvent(eventType)
    ensures Classify(pcrIndex, eventType) ==
      if IsPolicyEvent(eventType) then Policy
      else if IsVerifiedEvent(eventType) || 11 <= pcrIndex <= 14 then Verified else Unknown
  {
  }

  lemma CountStep(es: seq<Entry>, e: Entry, kind: Label)
    ensures Count(es + [e], kind) == Count(es, kind) + (if e.classification == kind then 1 else 0)
  {
    assert (es + [e])[..|es|] == es;
  }

  lemma KeysStep(es: seq<Entry>, e: Entry)
    ensures HasMicrosoftKeyEvent(es + [e]) <==> HasMicrosoftKeyEvent(es) || IsMicrosoftKeyEvent(e)
  {
    hide IsMicrosoftKeyEvent;
    var all := es + [e];
    assert all[|es|] == e && forall i | 0 <= i < |es| :: all[i] == es[i];
  }

  lemma SecureBootStep(es: seq<Entry>, enabled: bool, e: Entry)
    requires LastSecureBoot(es, enabled)
    ensures LastSecureBoot(es + [e], if IsSecureBootEvent(e) then SecureBootValue(e.eventData) else enabled)
  {
    hide IsSecureBootEvent, SecureBootValue;
    var all := es + [e];
    assert all[|es|] == e && forall i | 0 <= i < |es| :: all[i] == es[i];
  }

  method ParseAndAnalyzeEventLog(raw: bytes) returns (analysis: Analysis)
    requires |raw| < 0x1_0000_0000_0000_0000
    ensures analysis.entries == ToEntries(LogEvents(raw))
    ensures Summarises(analysis)
    ensures forall i | 0 <= i < |analysis.entries| :: |analysis.entries[i].eventData| <= |raw|
    ensures analysis.verdict == Pass <==> analysis.secureBootEnabled && analysis.unknownCount == 0
    ensures analysis.verdict == Warning <==> analysis.secureBootEnabled && analysis.unknownCount > 0
  {
    hide ReadLe32, TakeEvent, Summarises, ToEntries, Filed, Classify, Events;
    analysis := Analysis([], false, false, 0, 0, 0, Fail);
    SummaryOfNothing(analysis);
    ToEntriesOfNothing();
    var p: nat, remaining: nat := 0, |raw|;
    if remaining >= 32 {
      var eventType := ReadLe32(raw, p + 4);
      if eventType == EV_NO_ACTION {
        var eventDataSize := ReadLe32(raw, p + 28);
        var skip: nat := 32 + eventDataSize as int;
        if skip <= remaining {
          p := p + skip;
          remaining := remaining - skip;
        }
      }
    }
    assert p == HeaderLength(raw);
    ghost var es: seq<Event> := [];
    while remaining >= 12
      invariant p + remaining == |raw| && Summarises(analysis)
      invariant LogEvents(raw) == es + Events(raw[p..])
      invariant analysis.entries == ToEntries(es)
      invariant forall i | 0 <= i < |analysis.entries| :: |analysis.entries[i].eventData| <= |raw|
      decreases remaining
    {
      EventsStep(raw, p, es);
      var ok, q, pcrIndex, eventType, digests, data;
      ghost var e;
      ok, q, pcrIndex, eventType, digests, data, e := ReadRecord(raw, p);
      if !ok { break; }
      assert |raw[q..]| < |raw[p..]|;
      p, remaining := q, |raw| - q;
      analysis := Record(analysis, pcrIndex, eventType, digests, data);
      ToEntriesStep(es, e);
      es := es + [e];
    }
    NoEventsLeft(raw[p..], es);
    SummaryKept(analysis);
    if analysis.secureBootEnabled {
      if analysis.unknownCount == 0 {
        analysis := analysis.(verdict := Pass);
      } else {
        analysis := analysis.(verdict := Warning);
      }
    } else {
      analysis := analysis.(verdict := Fail);
    }
  }

  lemma SummaryOfNothing(a: Analysis)
    requires a.entries == [] && !a.secureBootEnabled && !a.secureBootMicrosoftKeys
    requires a.verifiedCount == a.unknownCount == a.policyCount == 0
    ensures Summarises(a)
  {
  }

  lemma SummaryKept(a: Analysis)
    requires Summarises(a)
    ensures forall v :: Summarises(a.(verdict := v))
  {
    hide Count, LastSecureBoot, HasMicrosoftKeyEvent;
  }

  lemma ToEntriesOfNothing()
    ensures ToEntries([]) == []
  {
  }

  lemma ToEntriesStep(es: seq<Event>, e: Event)
    ensures ToEntries(es + [e]) == ToEntries(es) + [ToEntry(e)]
  {
  }

  lemma EventsStep(raw: bytes, at: nat, front: seq<Event>)
    requires at <= |raw|
    ensures match TakeEvent(raw[at..])
      case None => front + Events(raw[at..]) == front
      case Some(t) => |t.rest| < |raw[at..]| && front + Events(raw[at..]) == front + [t.value] + Events(t.rest)
  {
    hide TakeEvent;
  }

  lemma NoEventsLeft(s: bytes, front: seq<Event>)
    requires |s| < 12 || TakeEvent(s).None?
    ensures front + Events(s) == front
  {
  }
}
