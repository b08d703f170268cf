/** CollectEvidenceFields of src/client/rootherald_win.cpp: what is measured, what is quoted, and that they agree. */
module Evidence {
  import opened Bytes
  import opened Json
  import opened JsonRoundTrip
  import opened JsonNesting
  import opened JsonValues
  import opened PcrBitmap
  import opened TpmDevice
  import opened DeviceId
  import opened EvidenceText
  import opened EvidencePcrs
  import S = SignatureList
  import opened SecureBootText
  import opened Enrollment
  import Base64
  import T = TpmCommands
  import K = TbsKeyProvider
  import C = TpmCommandBytes
  import I = IntelChain

  type Hash = bytes -> bytes

  // ---- PCR values ----

  lemma PcrItemText(pcr: u32, value: bytes)
    ensures "\"" + Decimal(pcr) + "\":\"" + Hex(value) + "\"" == FieldText(Field(Decimal(pcr), Hex(value)))
  {
    hide Decimal, Hex, Flat, Spliced, KeyName, Escape;
    HexIsFlat(value);
    FlatIsPlain(Hex(value));
  }

  const BANK_PREFIX := "{\"sha256\":{"

  lemma OneField(f: Field)
    requires Spliced(f.value)
    ensures Text([f]) == (("{" + Quoted(f.key)) + ":") + f.value + "}"
  {
    assert [f][1..] == [];
    assert Items([], false) == "}";
    var head := Quoted(f.key) + ":";
    assert FieldText(f) == head + f.value;
    hide Quoted, FieldText;
    assert Text([f]) == "{" + ("" + FieldText(f) + "}");
  }

  lemma PcrTextLayout(pcrs: seq<u32>, values: Pcrs)
    ensures PcrText(pcrs, values) == BANK_PREFIX + Items(PcrFields(pcrs, values), true) + "}"
  {
    hide PcrFields, Items;
    var v := Text(PcrFields(pcrs, values));
    assert Spliced(v);
    OneField(Field("sha256", v));
    assert ("{" + Quoted("sha256")) + ":" + "{" == BANK_PREFIX;
    hide Text, Quoted;
    Prefixed("{" + Quoted("sha256") + ":", "{", Items(PcrFields(pcrs, values), true));
  }

  lemma Prefixed(a: string, b: string, c: string)
    ensures a + (b + c) + "}" == (a + b) + c + "}"
  {
  }

  /** One entry of the loop. */
  method AppendPcr(start: string, first: bool, pcr: u32, value: bytes) returns (json: string)
    ensures json == start + ((if first then "" else ",") + FieldText(Field(Decimal(pcr), Hex(value))))
  {
    hide Decimal, Hex, FieldText;
    var hex := BytesToHex(value);
    json := start;
    if !first { json := json + ","; }
    json := json + ("\"" + Decimal(pcr) + "\":\"" + hex + "\"");
    PcrItemText(pcr, value);
    Reassociate(start, if first then "" else ",", FieldText(Field(Decimal(pcr), Hex(value))));
  }

  /** What is written is the text up to the i-th field. */
  predicate SameSoFar(fields: seq<Field>, i: nat, json: string, first: bool)
    requires i <= |fields|
  {
    json + Items(fields[i..], first) == BANK_PREFIX + Items(fields, true)
  }

  lemma NothingWritten(fields: seq<Field>)
    ensures SameSoFar(fields, 0, BANK_PREFIX, true)
  {
    assert fields[0..] == fields;
  }

  lemma WrittenNext(fields: seq<Field>, i: nat, json: string, first: bool)
    requires i < |fields| && SameSoFar(fields, i, json, first)
    ensures SameSoFar(fields, i + 1, json + ((if first then "" else ",") + FieldText(fields[i])), false)
  {
    hide Items, FieldText;
    ItemsStep(fields, i, first);
    Reassociate(json, (if first then "" else ",") + FieldText(fields[i]), Items(fields[i + 1..], false));
  }

  /** One round: an empty value counts as none. */
  method ReadNext(tpm: T.TpmCommands, pcrs: seq<u32>, i: nat, ghost start: nat) returns (ok: bool, value: bytes)
    requires tpm.Valid() && Distinct(pcrs) && i < |pcrs| && |tpm.tpm.log| == start + i
    requires AllReadUpTo(tpm.tpm.chip.pcrs, start, pcrs, i)
    modifies tpm.tpm
    ensures tpm.Valid() && tpm.tpm.state == old(tpm.tpm.state) && old(tpm.tpm.log) <= tpm.tpm.log
    ensures Since(old(tpm.tpm.tally), tpm.tpm.tally)
    ensures !ok && tpm.context.Some? && AllRead(tpm.tpm.chip.pcrs, start, pcrs) ==>
      tpm.tpm.tally.refusals > old(tpm.tpm.tally).refusals
    ensures ok ==>
      && |tpm.tpm.log| == start + i + 1 && AllReadUpTo(tpm.tpm.chip.pcrs, start, pcrs, i + 1)
      && value == PcrValue(ReadOver(tpm.tpm.chip.pcrs, start, pcrs), pcrs[i])
  {
    hide ReadOver, Distinct, AllRead, CanBeRead, AllReadUpTo;
    var hr;
    hr, value := tpm.PcrRead(pcrs[i]);
    OneMoreRead(tpm.tpm.chip.pcrs, start, pcrs, i);
    if T.Failed(hr) || value == [] { return false, []; }
    ReadOverAt(tpm.tpm.chip.pcrs, start, pcrs, i);
    ok := true;
  }

  /** Reads each PCR in turn, or gives up at the first that cannot be read or is empty. */
  method ReadPcrValues(tpm: T.TpmCommands, pcrs: seq<u32>) returns (ok: bool, json: string)
    requires tpm.Valid() && Distinct(pcrs)
    modifies tpm.tpm
    ensures tpm.Valid() && tpm.tpm.state == old(tpm.tpm.state) && old(tpm.tpm.log) <= tpm.tpm.log
    ensures Since(old(tpm.tpm.tally), tpm.tpm.tally)
    ensures !ok && tpm.context.Some? && AllRead(tpm.tpm.chip.pcrs, |old(tpm.tpm.log)|, pcrs) ==>
      tpm.tpm.tally.refusals > old(tpm.tpm.tally).refusals
    ensures ok ==>
      && |tpm.tpm.log| == |old(tpm.tpm.log)| + |pcrs| && AllRead(tpm.tpm.chip.pcrs, |old(tpm.tpm.log)|, pcrs)
      && json == PcrText(pcrs, ReadOver(tpm.tpm.chip.pcrs, |old(tpm.tpm.log)|, pcrs))
  {
    hide PcrFields, Decimal, Hex, FieldText, Items, PcrText, ReadOver, Distinct;
    hide AllRead, CanBeRead, AllReadUpTo, SameSoFar;
    ghost var at, start := tpm.tpm.chip.pcrs, |tpm.tpm.log|;
    ghost var values := ReadOver(at, start, pcrs);
    ghost var fields := PcrFields(pcrs, values);
    json := BANK_PREFIX;
    var first := true;
    AllReadIs(at, start, pcrs);
    NothingWritten(fields);
    for i := 0 to |pcrs|
      invariant tpm.Valid() && tpm.tpm.state == old(tpm.tpm.state)
      invariant first == (i == 0)
      invariant SameSoFar(fields, i, json, first)
      invariant old(tpm.tpm.log) <= tpm.tpm.log
      invariant |tpm.tpm.log| == start + i
      invariant AllReadUpTo(at, start, pcrs, i)
      invariant Since(old(tpm.tpm.tally), tpm.tpm.tally)
    {
      var read, pcrValue := ReadNext(tpm, pcrs, i, start);
      if !read { return false, ""; }
      WrittenNext(fields, i, json, first);
      json := AppendPcr(json, first, pcrs[i], pcrValue);
      first := false;
    }
    Closed(fields, json, first);
    PcrTextLayout(pcrs, values);
    ok := true;
    json := json + "}}";
  }

  lemma Closed(fields: seq<Field>, json: string, first: bool)
    requires SameSoFar(fields, |fields|, json, first)
    ensures json + "}}" == BANK_PREFIX + Items(fields, true) + "}"
  {
    assert fields[|fields|..] == [];
    assert Items([], first) == "}";
    hide Items;
    assert json + "}}" == (json + "}") + "}";
  }

  // ---- The evidence ----

  /** What the platform supplies: certificate and key of the EK (empty when absent) and the boot log. */
  datatype Machine = Machine(ekCert: bytes, ekPub: bytes, eventLog: bytes)

  /** The certificate, when it is long enough to be one. */
  function Certificate(m: Machine): bytes {
    if |m.ekCert| > 32 then m.ekCert else []
  }

  /** From the certificate when there is one, else from the public key. */
  predicate IdFrom(id: string, m: Machine, sha1: Hash, sha256: Hash) {
    if Certificate(m) != [] then IsIdOf(id, sha256(m.ekCert), sha1)
    else if m.ekPub != [] then IsIdOf(id, sha256(m.ekPub), sha1)
    else id == ""
  }

  /** DeriveLocalDeviceId */
  method DeriveDeviceId(m: Machine, sha1: Hash, sha256: Hash) returns (id: string)
    ensures IdShaped(id) && IdFrom(id, m, sha1, sha256)
  {
    hide IsGuid, IdShaped, Flat;
    EmptyIsShaped();
    if |m.ekCert| <= 32 && m.ekPub == [] { return ""; }
    var fingerprint := sha256(if |m.ekCert| > 32 then m.ekCert else m.ekPub);
    id := ComputeDeviceId(fingerprint, sha1);
    if id != "" { GuidIsShaped(id, Stamped(sha1(NAMESPACE + fingerprint))); }
  }

  lemma EmptyIsShaped()
    ensures IdShaped("")
  {
  }

  /** No AK in the slot, or the TPM would not open a context or say that there is one. */
  predicate NotFound(s: State, t: Tally, t': Tally) {
    AK_SLOT !in s.persistent || t'.refusals > t.refusals || t'.probes > t.probes
  }

  /** A provider over the persisted AK, in a context of its own, or none. */
  method SelectEnrolledProvider(device: Tpm) returns (p: K.Provider?)
    modifies device
    ensures Since(old(device.tally), device.tally) && old(device.log) <= device.log
    ensures p == null ==> device.state == old(device.state) && NotFound(device.state, old(device.tally), device.tally)
    ensures p != null ==>
      && fresh(p) && fresh(p.tpm) && p.tpm.tpm == device && p.Valid() && p.tpm.context.Some?
      && p.persistentHandle == AK_SLOT && AK_SLOT in device.state.persistent
      && p.tpm.context.value !in old(device.state).contexts
      && device.state == WithContext(old(device.state), p.tpm.context.value, EMPTY_CONTEXT)
  {
    p := new K.Provider(device, AK_SLOT);
    var hr := p.Open();
    if T.Failed(hr) { return null; }
    ghost var ctx, s1 := p.tpm.context.value, device.state;
    hr := p.LoadAk();
    if T.Failed(hr) {
      p.Close();
      ContextGone(old(device.state), ctx, s1, s1, device.state);
      return null;
    }
  }

  lemma AllAreThere(chip: Chip, n: nat)
    requires PcrsAreThere(chip)
    ensures AllRead(chip.pcrs, n, EVIDENCE_PCRS)
  {
    hide CanBeRead;
    forall i | 0 <= i < |EVIDENCE_PCRS| ensures CanBeRead(EVIDENCE_PCRS[i], chip.pcrs(n + i)) {
      assert EVIDENCE_PCRS[i] in EVIDENCE_PCRS;
    }
  }

  lemma SlotKey(s: State, ctx: nat)
    requires ctx in s.contexts && s.contexts[ctx] == EMPTY_CONTEXT && AK_SLOT in s.persistent
    ensures KeyAt(s, ctx, AK_SLOT) == Some(s.persistent[AK_SLOT])
  {
  }

  /** The on-die chain as its slots were read. */
  ghost predicate IsOnDieChain(chain: seq<bytes>, nv: map<u32, bytes>, withheld: set<u32>) {
    exists slots :: T.SlotsRead(nv, withheld, slots) && chain == I.Cut(I.Flatten(slots), 0, I.MAX_CERTIFICATES)
  }

  /** The PCRs the evidence is about are never missing. */
  ghost predicate PcrsAreThere(chip: Chip) {
    forall n: nat, pcr | pcr in EVIDENCE_PCRS :: CanBeRead(pcr, chip.pcrs(n))
  }

  /**
   * The chip's attestation by this key of the front of the nonce, as much as its 16-bit size says, and of these PCRs
   * when that is all of it, as they were at that moment; and its signature with something behind it.
   */
  ghost predicate IsQuote(chip: Chip, moment: nat, ak: Key, nonce: bytes, quoted: bytes, signature: bytes) {
    && (exists scheme, selections ::
          quoted == chip.attest(ak, nonce[..|nonce| % 0x1_0000], scheme, selections,
                                QuotedDigests(selections, chip.pcrs(moment))))
    && (|nonce| < 0x1_0000 ==> quoted == Attested(chip, ak, nonce, chip.pcrs(moment)))
    && (exists area :: area != [] && signature == chip.sign(ak, quoted) + area)
  }

  /** The attestation of these PCR values that the evidence asks for. */
  function Attested(chip: Chip, ak: Key, nonce: bytes, pcrs: Pcrs): bytes {
    AttestedAs(chip, ak, nonce, QuotedDigests(C.Bank(BitmapOf(EVIDENCE_PCRS)), pcrs))
  }

  lemma QuoteIsOfSlot(chip: Chip, moment: nat, s: State, ctx: nat, nonce: bytes, quoted: bytes, signature: bytes,
                      area: bytes)
    requires ctx in s.contexts && s.contexts[ctx] == EMPTY_CONTEXT && AK_SLOT in s.persistent
    requires C.QuoteRequest(AK_SLOT, nonce, EVIDENCE_PCRS).Some?
    requires T.IsQuoteOf(chip, moment, s, ctx, C.QuoteRequest(AK_SLOT, nonce, EVIDENCE_PCRS).value, quoted, signature,
                         area)
    ensures IsQuote(chip, moment, s.persistent[AK_SLOT], nonce, quoted, signature)
  {
    hide C.QuoteRequest, BitmapOf, IsReplyArea, QuotedDigests;
    SlotKey(s, ctx);
    C.QuoteTakesFront(AK_SLOT, nonce, EVIDENCE_PCRS);
    C.QuoteIsIntended(AK_SLOT, nonce, EVIDENCE_PCRS);
    var c := C.QuoteRequest(AK_SLOT, nonce, EVIDENCE_PCRS).value;
    assert quoted == chip.attest(s.persistent[AK_SLOT], nonce[..|nonce| % 0x1_0000], c.scheme, c.selections,
                                  QuotedDigests(c.selections, chip.pcrs(moment)));
  }

  /**
   * The evidence is true: its PCR values are what each PCR held at its own moment, from the command `since` on, and
   * the quote is the chip's, by this key, over this nonce and what the PCRs held right behind.
   */
  ghost predicate IsTrue(e: Evidence, chip: Chip, since: nat, ak: Key, nonce: bytes) {
    && e.nonce == nonce && e.pcrs == ReadOver(chip.pcrs, since, EVIDENCE_PCRS)
    && AllRead(chip.pcrs, since, EVIDENCE_PCRS)
    && IsQuote(chip, since + |EVIDENCE_PCRS|, ak, nonce, e.quoted, e.signature)
  }

  lemma PcrsDiffer()
    ensures Distinct(EVIDENCE_PCRS)
  {
  }

  /**
   * The quote is one of the values the evidence carries if no PCR changed between its own reading and the quote; and,
   * if attestations of different digests differ, only then. So whoever checks the quote against the values finds out.
   */
  lemma QuoteIsOfValuesIff(e: Evidence, chip: Chip, since: nat, ak: Key, nonce: bytes)
    requires IsTrue(e, chip, since, ak, nonce) && |nonce| < 0x1_0000
    ensures Settled(chip.pcrs, since, EVIDENCE_PCRS) ==> e.quoted == Attested(chip, ak, nonce, e.pcrs)
    ensures TellsApart(chip, ak, nonce) ==>
      (e.quoted == Attested(chip, ak, nonce, e.pcrs) <==> Settled(chip.pcrs, since, EVIDENCE_PCRS))
  {
    hide BitmapOf, QuotedDigests, ReadOver, Settled, C.Bank, Distinct;
    PcrsDiffer();
    ValuesAreQuotedIff(chip.pcrs, since, EVIDENCE_PCRS);
  }

  /** It does happen: PCR 0 extended right behind its reading, and the quote is of another value. */
  lemma ExtendedInBetween(since: nat)
    ensures AllRead(Extended(since), since, EVIDENCE_PCRS) && !Settled(Extended(since), since, EVIDENCE_PCRS)
  {
    assert EVIDENCE_PCRS[0] == 0;
    assert Extended(since)(since + 0)[0] != Extended(since)(since + |EVIDENCE_PCRS|)[0] by { DigestsDiffer(); }
  }

  const BLANK: Pcrs := map pcr: nat | pcr < PCR_COUNT :: ZEROS
  const ZEROS: PcrDigest := seq(32, _ => 0)
  const ONES: PcrDigest := seq(32, _ => 1)

  function Extended(since: nat): nat -> Pcrs {
    n => if n <= since then BLANK else BLANK[0 := ONES]
  }

  lemma DigestsDiffer()
    ensures ZEROS != ONES
  {
    assert ZEROS[0] != ONES[0];
  }

  /** Attestations over different digests differ. */
  ghost predicate TellsApart(chip: Chip, ak: Key, nonce: bytes) {
    forall ds, ds' | AttestedAs(chip, ak, nonce, ds) == AttestedAs(chip, ak, nonce, ds') :: ds == ds'
  }

  function AttestedAs(chip: Chip, ak: Key, nonce: bytes, digests: seq<bytes>): bytes {
    chip.attest(ak, nonce, C.QUOTE_SCHEME, C.Bank(BitmapOf(EVIDENCE_PCRS)), digests)
  }

  /** PCR values, then the quote, then the on-die chain, all in one context. */
  method Measure(tpm: T.TpmCommands, nonce: bytes)
    returns (ok: bool, pcrValues: string, quoted: bytes, signature: bytes, chain: seq<bytes>)
    requires tpm.Valid() && tpm.context.Some? && tpm.tpm.state.contexts[tpm.context.value] == EMPTY_CONTEXT
    requires AK_SLOT in tpm.tpm.state.persistent
    modifies tpm.tpm
    ensures tpm.tpm.state == old(tpm.tpm.state)
    ensures Since(old(tpm.tpm.tally), tpm.tpm.tally)
    ensures old(tpm.tpm.log) <= tpm.tpm.log
    ensures !ok && PcrsAreThere(tpm.tpm.chip) ==> tpm.tpm.tally.refusals > old(tpm.tpm.tally).refusals
    ensures ok ==> pcrValues == PcrText(EVIDENCE_PCRS, ReadOver(tpm.tpm.chip.pcrs, |old(tpm.tpm.log)|, EVIDENCE_PCRS))
    ensures ok ==> |old(tpm.tpm.log)| + |EVIDENCE_PCRS| < |tpm.tpm.log|
    ensures ok ==> IsOnDieChain(chain, tpm.tpm.state.nv, tpm.tpm.tally.withheld)
    ensures ok ==> forall id, cert, log, report ::
      IsTrue(Evidence(id, cert, chain, log, ReadOver(tpm.tpm.chip.pcrs, |old(tpm.tpm.log)|, EVIDENCE_PCRS), nonce,
                      quoted, signature, report),
             tpm.tpm.chip, |old(tpm.tpm.log)|, tpm.tpm.state.persistent[AK_SLOT], nonce)
  {
    hide PcrText, BitmapOf, I.Cut, I.Flatten, T.SlotsRead, IsQuote, T.IsQuoteOf, C.QuoteRequest, ReadOver, Distinct;
    hide Activates, AllRead, PcrsAreThere;
    quoted, signature, chain := [], [], [];
    PcrsDiffer();
    if PcrsAreThere(tpm.tpm.chip) { AllAreThere(tpm.tpm.chip, |tpm.tpm.log|); }
    ok, pcrValues := ReadPcrValues(tpm, EVIDENCE_PCRS);
    if !ok { return; }
    var hr;
    ghost var area;
    hr, quoted, signature, area := tpm.Quote(AK_SLOT, nonce, EVIDENCE_PCRS);
    if T.Failed(hr) { return false, pcrValues, quoted, signature, chain; }
    QuoteIsOfSlot(tpm.tpm.chip, |old(tpm.tpm.log)| + |EVIDENCE_PCRS|, tpm.tpm.state, tpm.context.value, nonce, quoted,
                  signature, area);
    ghost var slots;
    chain, slots := tpm.ReadIntelOdcaIntermediates([]);
    assert [] + I.Cut(I.Flatten(slots), 0, I.MAX_CERTIFICATES) == I.Cut(I.Flatten(slots), 0, I.MAX_CERTIFICATES);
    assert IsOnDieChain(chain, tpm.tpm.state.nv, tpm.tpm.tally.withheld);
  }

  /** The parts of the evidence that identify the machine. */
  ghost predicate Describes(e: Evidence, m: Machine, sha1: Hash, sha256: Hash, decode: bytes -> S.CertInfo) {
    && IdFrom(e.deviceId, m, sha1, sha256) && e.ekCert == Certificate(m) && e.eventLog == m.eventLog
    && IsFindingsOf(e.secureBoot, m.eventLog, decode)
  }

  /** The map, in its iteration order. */
  method Assemble(m: Machine, id: string, pcrValues: string, quote: string, chain: seq<bytes>, secureBoot: string,
                  ghost e: Evidence)
    returns (fields: seq<Field>)
    requires e.deviceId == id && e.ekCert == Certificate(m) && e.chain == chain
    requires e.eventLog == m.eventLog && pcrValues == PcrText(EVIDENCE_PCRS, e.pcrs)
    requires quote == Text(QuoteFields(e.nonce, e.quoted, e.signature)) && e.secureBoot == secureBoot
    ensures fields == EvidenceFields(e)
  {
    hide PcrText, Text, QuoteFields, Pem, PemArray, Base64.Encode;
    fields := [];
    if id != "" { fields := fields + [Field("deviceId", id)]; }
    if |m.ekCert| > 32 { fields := fields + [Field("ekCertPem", Pem(m.ekCert))]; }
    if chain != [] {
      var pems := BuildPemArray(chain);
      fields := fields + [Field("ekCertificateChain", pems)];
    }
    if m.eventLog != [] { fields := fields + [Field("eventLog", Base64.Encode(m.eventLog))]; }
    fields := fields + [Field("pcrValues", pcrValues), Field("quote", quote), Field("secureBootChain", secureBoot)];
  }

  /** Measures and assembles. `decode` is the X.509 decoder. */
  method Attest(tpm: T.TpmCommands, nonce: bytes, m: Machine, sha1: Hash, sha256: Hash, decode: bytes -> S.CertInfo)
    returns (ok: bool, fields: seq<Field>, ghost e: Evidence)
    requires |m.eventLog| < 0x1_0000_0000_0000_0000
    requires tpm.Valid() && tpm.context.Some? && tpm.tpm.state.contexts[tpm.context.value] == EMPTY_CONTEXT
    requires AK_SLOT in tpm.tpm.state.persistent
    modifies tpm.tpm
    ensures tpm.tpm.state == old(tpm.tpm.state)
    ensures Since(old(tpm.tpm.tally), tpm.tpm.tally)
    ensures old(tpm.tpm.log) <= tpm.tpm.log && (ok ==> |old(tpm.tpm.log)| + |EVIDENCE_PCRS| < |tpm.tpm.log|)
    ensures !ok && PcrsAreThere(tpm.tpm.chip) ==> tpm.tpm.tally.refusals > old(tpm.tpm.tally).refusals
    ensures !ok ==> fields == []
    ensures ok ==>
      && IsTrue(e, tpm.tpm.chip, |old(tpm.tpm.log)|, tpm.tpm.state.persistent[AK_SLOT], nonce)
      && Describes(e, m, sha1, sha256, decode) && IdShaped(e.deviceId) && fields == EvidenceFields(e)
    ensures ok ==> IsOnDieChain(e.chain, tpm.tpm.state.nv, tpm.tpm.tally.withheld)
  {
    hide PcrText, Text, IdShaped, IsTrue, EvidenceFields, QuoteFields, IsOnDieChain, ReadOver, PcrsAreThere;
    ghost var values := ReadOver(tpm.tpm.chip.pcrs, |tpm.tpm.log|, EVIDENCE_PCRS);
    fields, e := [], Evidence("", [], [], [], map[], [], [], [], "");
    var pcrValues, quoted, signature, chain;
    ok, pcrValues, quoted, signature, chain := Measure(tpm, nonce);
    if !ok { return; }
    var quote := JsonBuild(QuoteFields(nonce, quoted, signature));
    var secureBoot := SecureBootJson(m.eventLog, decode);
    var id := DeriveDeviceId(m, sha1, sha256);
    e := Evidence(id, Certificate(m), chain, m.eventLog, values, nonce, quoted, signature, secureBoot);
    fields := Assemble(m, id, pcrValues, quote, chain, secureBoot, e);
  }

  method CollectQuoted(device: Tpm, nonceText: string, decode64: string -> bytes, m: Machine,
                       sha1: Hash, sha256: Hash, decode: bytes -> S.CertInfo)
    returns (status: Status, fields: seq<Field>, ghost e: Evidence)
    requires |m.eventLog| < 0x1_0000_0000_0000_0000
    requires AK_SLOT in device.state.persistent
    modifies device
    ensures device.state == old(device.state)
    ensures status in {OK, TPM_UNAVAILABLE, INVALID_ARG, QUOTE_FAILED}
    ensures status == TPM_UNAVAILABLE || (status == QUOTE_FAILED && PcrsAreThere(device.chip)) ==>
      device.tally.refusals > old(device.tally).refusals
    ensures status == INVALID_ARG <==> decode64(nonceText) == [] && status != TPM_UNAVAILABLE
    ensures Since(old(device.tally), device.tally) && old(device.log) <= device.log
    ensures status == OK ==> decode64(nonceText) != [] && |old(device.log)| + |EVIDENCE_PCRS| < |device.log|
    ensures status == OK ==>
      && IsTrue(e, device.chip, |old(device.log)|, device.state.persistent[AK_SLOT], decode64(nonceText))
      && Describes(e, m, sha1, sha256, decode) && IdShaped(e.deviceId) && fields == EvidenceFields(e)
    ensures status == OK ==> IsOnDieChain(e.chain, device.state.nv, device.tally.withheld)
  {
    hide IdShaped, IsTrue, EvidenceFields, Describes, PcrsAreThere, IsOnDieChain;
    fields, e := [], Evidence("", [], [], [], map[], [], [], [], "");
    var tpm := new T.TpmCommands(device);
    var hr := tpm.Open();
    if T.Failed(hr) { return TPM_UNAVAILABLE, fields, e; }
    ghost var ctx, s1 := tpm.context.value, device.state;
    var nonce := decode64(nonceText);
    if nonce == [] {
      status := INVALID_ARG;
    } else {
      var ok;
      ok, fields, e := Attest(tpm, nonce, m, sha1, sha256, decode);
      status := if ok then OK else QUOTE_FAILED;
    }
    tpm.Close();
    ContextGone(old(device.state), ctx, s1, s1, device.state);
  }

  /** Whatever happens, the TPM is left as it was. */
  method CollectEvidence(device: Tpm, nonceText: string, decode64: string -> bytes, m: Machine,
                         sha1: Hash, sha256: Hash, decode: bytes -> S.CertInfo, memory: bool)
    returns (status: Status, json: Option<string>, ghost e: Evidence, ghost since: nat)
    requires |m.eventLog| < 0x1_0000_0000_0000_0000
    modifies device
    ensures device.state == old(device.state)
    ensures status in {OK, NOT_ENROLLED, TPM_UNAVAILABLE, INVALID_ARG, QUOTE_FAILED, INTERNAL}
    ensures AK_SLOT !in device.state.persistent ==> status == NOT_ENROLLED
    ensures status == NOT_ENROLLED ==> NotFound(device.state, old(device.tally), device.tally)
    ensures status == INTERNAL ==> !memory
    ensures status == OK ==> memory
    ensures status == TPM_UNAVAILABLE || (status == QUOTE_FAILED && PcrsAreThere(device.chip)) ==>
      device.tally.refusals > old(device.tally).refusals
    ensures status == INVALID_ARG <==> decode64(nonceText) == [] && status != TPM_UNAVAILABLE && status != NOT_ENROLLED
    ensures status == OK <==> json.Some?
    ensures status == OK ==>
      && decode64(nonceText) != [] && AK_SLOT in device.state.persistent
      && |old(device.log)| <= since && since + |EVIDENCE_PCRS| < |device.log|
      && IsTrue(e, device.chip, since, device.state.persistent[AK_SLOT], decode64(nonceText))
      && Describes(e, m, sha1, sha256, decode) && json == Some(Text(EvidenceFields(e)))
    ensures status == OK ==> IsOnDieChain(e.chain, device.state.nv, device.tally.withheld)
    ensures status == OK ==> Base64.Decode(Get(Get(json.value, "quote"), "nonce")) == Some(decode64(nonceText))
  {
    hide Text, IdShaped, IsTrue, EvidenceFields, Describes, Get;
    hide Base64.Encode, Base64.Decode, PcrsAreThere, IsOnDieChain;
    json, e, since := None, Evidence("", [], [], [], map[], [], [], [], ""), 0;
    var provider := SelectEnrolledProvider(device);
    if provider == null { return NOT_ENROLLED, json, e, since; }
    ghost var ctx, s1 := provider.tpm.context.value, device.state;
    var fields;
    since := |device.log|;
    status, fields, e := CollectQuoted(device, nonceText, decode64, m, sha1, sha256, decode);
    provider.Close();
    ContextGone(old(device.state), ctx, s1, s1, device.state);
    if status != OK { return; }
    var text := JsonBuild(fields);
    if !memory { return INTERNAL, json, e, since; }
    json := Some(text);
    TrueNonce(e, device.chip, since, device.state.persistent[AK_SLOT], decode64(nonceText));
    NonceIsRecovered(e);
  }

  lemma TrueNonce(e: Evidence, chip: Chip, since: nat, ak: Key, nonce: bytes)
    requires IsTrue(e, chip, since, ak, nonce)
    ensures e.nonce == nonce
  {
  }
}
