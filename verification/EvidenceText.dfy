/**
 * The evidence object: what is nested in what, and what the verifying side reads out of it. Fields are in the
 * ascending key order of the maps they are built from.
 */
module EvidenceText {
  import opened Bytes
  import opened Json
  import opened JsonRoundTrip
  import opened JsonNesting
  import opened JsonValues
  import opened DeviceId
  import opened PcrBitmap
  import opened PemRoundTrip
  import Base64

  /** The PCRs read and quoted. */
  const EVIDENCE_PCRS: seq<u32> := [0, 1, 2, 3, 4, 7]

  // ---- PCR values ----

  /** std::to_string */
  function Decimal(n: nat): (s: string)
    ensures s != ""
  {
    (if n < 10 then "" else Decimal(n / 10)) + [HEX[n % 10]]
  }

  /** The number a text of digits stands for, the front of it already read as `so`. */
  function NumberFrom(s: string, so: nat): Option<nat> {
    if s == "" then Some(so)
    else if '0' <= s[0] <= '9' then NumberFrom(s[1..], so * 10 + (s[0] as int - '0' as int))
    else None
  }

  function NumberOf(s: string): Option<nat> {
    if s == "" then None else NumberFrom(s, 0)
  }

  lemma {:induction false} NumberOfOneMore(s: string, c: char, so: nat)
    requires NumberFrom(s, so).Some? && '0' <= c <= '9'
    ensures NumberFrom(s + [c], so) == Some(NumberFrom(s, so).value * 10 + (c as int - '0' as int))
  {
    if s == "" {
      assert s + [c] == [c] && [c][1..] == "";
    } else {
      assert (s + [c])[1..] == s[1..] + [c];
      NumberOfOneMore(s[1..], c, so * 10 + (s[0] as int - '0' as int));
    }
  }

  lemma DigitIs(n: nat)
    requires n < 10
    ensures '0' <= HEX[n] <= '9' && HEX[n] as int - '0' as int == n
  {
  }

  /** The text of a number reads as that number, and has no zero in front. */
  lemma {:induction false} NumberOfDecimal(n: nat)
    ensures NumberOf(Decimal(n)) == Some(n) && (Decimal(n)[0] == '0' ==> n == 0)
  {
    DigitIs(n % 10);
    hide HEX;
    if n < 10 {
      NumberOfOneMore("", HEX[n % 10], 0);
      assert "" + [HEX[n % 10]] == Decimal(n);
    } else {
      NumberOfDecimal(n / 10);
      NumberOfOneMore(Decimal(n / 10), HEX[n % 10], 0);
      assert Decimal(n) == Decimal(n / 10) + [HEX[n % 10]];
    }
  }

  function PcrValue(values: map<nat, PcrDigest>, pcr: nat): (v: bytes)
    ensures |v| == 0 || |v| == 32
  {
    if pcr in values then values[pcr] else []
  }

  function PcrFields(pcrs: seq<u32>, values: map<nat, PcrDigest>): (fs: seq<Field>)
    ensures |fs| == |pcrs|
    ensures forall i | 0 <= i < |fs| :: fs[i] == Field(Decimal(pcrs[i]), Hex(PcrValue(values, pcrs[i])))
  {
    if pcrs == [] then []
    else [Field(Decimal(pcrs[0]), Hex(PcrValue(values, pcrs[0])))] + PcrFields(pcrs[1..], values)
  }

  function PcrText(pcrs: seq<u32>, values: map<nat, PcrDigest>): string {
    Text([Field("sha256", Text(PcrFields(pcrs, values)))])
  }

  lemma HexIsFlat(b: bytes)
    ensures Flat(Hex(b)) && !Spliced(Hex(b)) && |Hex(b)| == 2 * |b|
  {
    hide Hex, Spliced;
    HexChars(b);
    NotSpliced(Hex(b));
    forall c | c in Hex(b) ensures IsHexDigit(c) { HexRange(c); }
    hide HEX;
  }

  lemma NotSpliced(s: string)
    requires forall c | c in s :: c in HEX
    ensures !Spliced(s)
  {
    forall i | 0 <= i < |s| ensures IsHexDigit(s[i]) { HexRange(s[i]); }
    hide HEX;
    assert 2 < |s| ==> s[2] != 'l';
  }

  predicate IsHexDigit(c: char) { '0' <= c <= '9' || 'a' <= c <= 'f' }

  lemma HexRange(c: char)
    requires c in HEX
    ensures IsHexDigit(c)
  {
  }

  lemma {:induction false} DecimalChars(n: nat)
    ensures forall i | 0 <= i < |Decimal(n)| :: '0' <= Decimal(n)[i] <= '9'
  {
    if n >= 10 { DecimalChars(n / 10); }
  }

  lemma DecimalIsName(n: nat)
    ensures KeyName(Decimal(n)) && Flat(Decimal(n))
  {
    hide Decimal, KeyName, Flat;
    DecimalChars(n);
    AlphanumericIsName(Decimal(n));
  }

  lemma {:induction false} DecimalInjective(m: nat, n: nat)
    requires Decimal(m) == Decimal(n)
    ensures m == n
  {
    var s, t := Decimal(m), Decimal(n);
    assert s[|s| - 1] == HEX[m % 10] && t[|t| - 1] == HEX[n % 10];
    HexDigitInjective(m % 10, n % 10);
    if m >= 10 && n >= 10 {
      assert s[..|s| - 1] == Decimal(m / 10) && t[..|t| - 1] == Decimal(n / 10);
      DecimalInjective(m / 10, n / 10);
    }
  }

  /** Every PCR read is there under its number, and nothing under any other. */
  lemma PcrFieldsRead(pcrs: seq<u32>, values: map<nat, PcrDigest>, pcr: u32)
    requires forall i, j | 0 <= i < j < |pcrs| :: pcrs[i] != pcrs[j]
    ensures Get(Text(PcrFields(pcrs, values)), Decimal(pcr)) == if pcr in pcrs then Hex(PcrValue(values, pcr)) else ""
  {
    hide Decimal, Hex, KeyName, Decoy, Get, Text, Flat, Contains, Clear, Spliced, SelfDelimited, HEX;
    var fields, k := PcrFields(pcrs, values), Decimal(pcr);
    DecimalIsName(pcr);
    forall i | 0 <= i < |fields|
      ensures KeyName(fields[i].key) && (pcrs[i] != pcr ==> fields[i].key != k) && !Spliced(fields[i].value)
      ensures Clear(fields[i].value, k)
    {
      DecimalIsName(pcrs[i]);
      if fields[i].key == k { DecimalInjective(pcrs[i], pcr); }
      HexIsFlat(PcrValue(values, pcrs[i]));
      FewDigits(pcr, 10);
      FlatIsClear(fields[i].value, k);
    }
    if pcr in pcrs {
      var i :| 0 <= i < |pcrs| && pcrs[i] == pcr;
      forall a, b | 0 <= a < b < |fields| ensures fields[a].key != fields[b].key {
        if fields[a].key == fields[b].key { DecimalInjective(pcrs[a], pcrs[b]); }
      }
      ReadsField(fields, i);
    } else {
      ClearParts(fields, k);
      GetAbsent(fields, k);
    }
  }

  lemma ClearParts(fields: seq<Field>, k: string)
    requires forall i | 0 <= i < |fields| :: Clear(fields[i].value, k)
    ensures forall f | f in fields :: !Decoy(f.value, k)
    ensures forall f | f in fields && Spliced(f.value) :: !Contains(f.value, Quoted(k))
  {
    hide Decoy, Contains, Spliced;
  }

  function Ten(k: nat): (n: nat)
    ensures 1 <= n
  {
    if k == 0 then 1 else 10 * Ten(k - 1)
  }

  /** No 32-bit number is as long as the hex of a digest. */
  lemma {:induction false} FewDigits(n: nat, k: nat)
    requires 1 <= k && n < Ten(k)
    ensures |Decimal(n)| <= k
  {
    if n >= 10 { FewDigits(n / 10, k - 1); }
  }

  // ---- The quote ----

  function QuoteFields(nonce: bytes, quoted: bytes, signature: bytes): seq<Field> {
    [Field("nonce", Base64.Encode(nonce)), Field("quoted", Base64.Encode(quoted)),
     Field("signature", Base64.Encode(signature))]
  }

  lemma QuoteShape(nonce: bytes, quoted: bytes, signature: bytes)
    ensures var fields := QuoteFields(nonce, quoted, signature);
      && WellNamed(fields) && forall f | f in fields :: Flat(f.key) && Flat(f.value) && Alphanumeric(f.key)
  {
    hide Base64.Encode, KeyName, Flat, Alphanumeric;
    QuoteNames();
    AlphanumericIsName("nonce");
    AlphanumericIsName("quoted");
    AlphanumericIsName("signature");
    Base64IsFlat(nonce);
    Base64IsFlat(quoted);
    Base64IsFlat(signature);
  }

  lemma QuoteNames()
    ensures Alphanumeric("nonce") && Alphanumeric("quoted") && Alphanumeric("signature")
  {
  }

  lemma QuoteUnambiguous(nonce: bytes, quoted: bytes, signature: bytes, i: nat)
    requires i < 3
    ensures var fields := QuoteFields(nonce, quoted, signature);
      Unambiguous(fields, i) && (!Spliced(fields[i].value) || SelfDelimited(fields[i].value))
  {
    var fields := QuoteFields(nonce, quoted, signature);
    QuoteShape(nonce, quoted, signature);
    hide SelfDelimited, Base64.Encode, Clear, Decoy, WellNamed, Flat, Spliced, Alphanumeric;
    FlatReads(fields[i].value);
    if i > 0 { Base64IsClear(nonce, fields[i].key); }
    if i > 1 { Base64IsClear(quoted, fields[i].key); }
  }

  /** Whatever the three values, each is read back: no Base64 text has the length of the later keys. */
  lemma QuoteReads(nonce: bytes, quoted: bytes, signature: bytes)
    ensures var t := Text(QuoteFields(nonce, quoted, signature));
      && Get(t, "nonce") == Base64.Encode(nonce)
      && Get(t, "quoted") == Base64.Encode(quoted)
      && Get(t, "signature") == Base64.Encode(signature)
  {
    var fields := QuoteFields(nonce, quoted, signature);
    QuoteShape(nonce, quoted, signature);
    hide Get, Text, SelfDelimited, Base64.Encode, Unambiguous, WellNamed, Flat, Spliced, Alphanumeric;
    forall i: nat | i < 3 ensures Get(Text(fields), fields[i].key) == fields[i].value {
      QuoteUnambiguous(nonce, quoted, signature, i);
      ReadsField(fields, i);
    }
    assert fields[0].key == "nonce" && fields[1].key == "quoted" && fields[2].key == "signature";
  }

  lemma FlatReads(v: string)
    requires Flat(v)
    ensures Tidy(v) && (!Spliced(v) || SelfDelimited(v))
  {
    hide Flat;
    TidyReads(v);
  }

  /** The quote is one value, and a key that is none of its three is nowhere in it. */
  lemma QuoteIsClear(nonce: bytes, quoted: bytes, signature: bytes, k: string)
    requires KeyName(k) && |k| % 4 != 0 && k != "nonce" && k != "quoted" && k != "signature"
    ensures var t := Text(QuoteFields(nonce, quoted, signature)); Spliced(t) && SelfDelimited(t) && Clear(t, k)
  {
    var fields := QuoteFields(nonce, quoted, signature);
    QuoteShape(nonce, quoted, signature);
    Base64IsClear(nonce, k);
    Base64IsClear(quoted, k);
    Base64IsClear(signature, k);
    hide Text, SelfDelimited, Base64.Encode, Clear, Decoy, Flat, Spliced, Alphanumeric, KeyName;
    forall f | f in fields ensures Tidy(f.value) { FlatReads(f.value); }
    TextIsTidy(fields);
    TextLacks(fields, k);
    SplicedIsClear(Text(fields), k);
  }

  lemma SplicedIsClear(v: string, k: string)
    requires Spliced(v) && !Contains(v, Quoted(k))
    ensures Clear(v, k)
  {
  }

  /** The PCR object is one value, and no key starting otherwise than a hex digit is in it, but "sha256". */
  lemma PcrTextIsClear(pcrs: seq<u32>, values: map<nat, PcrDigest>, k: string)
    requires pcrs != [] && KeyName(k) && !IsHexDigit(k[0]) && k != "sha256"
    ensures var t := PcrText(pcrs, values); Spliced(t) && SelfDelimited(t) && Clear(t, k)
  {
    assert k != "";
    hide Text, SelfDelimited, Clear, Flat, Spliced, KeyName, Decimal, Hex, Tidy, Alphanumeric;
    var inner := PcrFields(pcrs, values);
    forall f | f in inner ensures KeyName(f.key) && Flat(f.key) && f.key != k && Tidy(f.value) && Clear(f.value, k) {
      var i :| 0 <= i < |inner| && inner[i] == f;
      PcrFieldIsClear(pcrs[i], PcrValue(values, pcrs[i]), k);
    }
    TextIsTidy(inner);
    TextLacks(inner, k);
    SplicedIsClear(Text(inner), k);
    BankIsName();
    AlphanumericIsName("sha256");
    TextIsTidy([Field("sha256", Text(inner))]);
    TextLacks([Field("sha256", Text(inner))], k);
    SplicedIsClear(PcrText(pcrs, values), k);
  }

  lemma BankIsName()
    ensures Alphanumeric("sha256")
  {
  }

  lemma PcrFieldIsClear(pcr: u32, value: bytes, k: string)
    requires k != "" && !IsHexDigit(k[0])
    ensures var f := Field(Decimal(pcr), Hex(value));
      KeyName(f.key) && Flat(f.key) && f.key != k && Tidy(f.value) && Clear(f.value, k)
  {
    hide Clear, Flat, Spliced, KeyName, Decimal, Hex;
    DecimalIsName(pcr);
    DecimalChars(pcr);
    HexIsFlat(value);
    HexHead(value);
    FlatIsClear(Hex(value), k);
  }

  lemma HexHead(value: bytes)
    ensures Hex(value) != "" ==> IsHexDigit(Hex(value)[0])
  {
    hide Hex;
    HexChars(value);
    if Hex(value) != "" { HexRange(Hex(value)[0]); }
  }

  /** The whole bank is read back from the PCR object. */
  lemma PcrTextReads(pcrs: seq<u32>, values: map<nat, PcrDigest>)
    requires pcrs != []
    ensures Get(PcrText(pcrs, values), "sha256") == Text(PcrFields(pcrs, values))
  {
    hide Get, Text, SelfDelimited, Flat, Spliced, KeyName, Decimal, Hex, Tidy, Alphanumeric, Clear;
    var inner := PcrFields(pcrs, values);
    forall f | f in inner ensures Flat(f.key) && Tidy(f.value) {
      var i :| 0 <= i < |inner| && inner[i] == f;
      PcrFieldIsClear(pcrs[i], PcrValue(values, pcrs[i]), "x");
    }
    TextIsTidy(inner);
    BankIsName();
    AlphanumericIsName("sha256");
    ReadsField([Field("sha256", Text(inner))], 0);
  }

  // ---- The evidence ----

  /** What the evidence says. An absent certificate, chain, log or id is an empty one. */
  datatype Evidence = Evidence(
    deviceId: string, ekCert: bytes, chain: seq<bytes>, eventLog: bytes,
    pcrs: map<nat, PcrDigest>, nonce: bytes, quoted: bytes, signature: bytes,
    secureBoot: string)

  function EvidenceFields(e: Evidence): seq<Field> {
    (if e.deviceId == "" then [] else [Field("deviceId", e.deviceId)])
    + (if e.ekCert == [] then [] else [Field("ekCertPem", Pem(e.ekCert))])
    + (if e.chain == [] then [] else [Field("ekCertificateChain", PemArray(e.chain))])
    + (if e.eventLog == [] then [] else [Field("eventLog", Base64.Encode(e.eventLog))])
    + [Field("pcrValues", PcrText(EVIDENCE_PCRS, e.pcrs)),
       Field("quote", Text(QuoteFields(e.nonce, e.quoted, e.signature))),
       Field("secureBootChain", e.secureBoot)]
  }

  predicate IsEvidenceKey(k: string) {
    || k == "deviceId" || k == "ekCertPem" || k == "ekCertificateChain" || k == "eventLog"
    || k == "pcrValues" || k == "quote" || k == "secureBootChain"
  }

  predicate IsEvidenceField(f: Field, e: Evidence) {
    || f == Field("deviceId", e.deviceId)
    || f == Field("ekCertPem", Pem(e.ekCert))
    || f == Field("ekCertificateChain", PemArray(e.chain))
    || f == Field("eventLog", Base64.Encode(e.eventLog))
    || f == Field("pcrValues", PcrText(EVIDENCE_PCRS, e.pcrs))
    || f == Field("quote", Text(QuoteFields(e.nonce, e.quoted, e.signature)))
  }

  /** The keys in front of "eventLog", whose length a Base64 text can have, hold no Base64. */
  predicate IsEarly(k: string) { k == "deviceId" || k == "ekCertPem" || k == "ekCertificateChain" || k == "eventLog" }

  lemma EvidenceKeyShape(k: string)
    requires IsEvidenceKey(k)
    ensures KeyName(k) && k[0] !in "-,]" && |k| < 36 && (IsEarly(k) || |k| % 4 != 0)
  {
    EarlyNames();
    LateNames();
    hide Alphanumeric, KeyName;
    AlphanumericIsName(k);
  }

  lemma EarlyNames()
    ensures Alphanumeric("deviceId") && Alphanumeric("ekCertPem") && Alphanumeric("ekCertificateChain")
    ensures Alphanumeric("eventLog")
  {
  }

  lemma LateNames()
    ensures Alphanumeric("pcrValues") && Alphanumeric("quote") && Alphanumeric("secureBootChain")
  {
  }

  function One(present: bool): nat { if present then 1 else 0 }

  /** Where a key is in the object, if it is. */
  function Place(e: Evidence, k: string): nat {
    if k == "deviceId" then 0
    else if k == "ekCertPem" then One(e.deviceId != "")
    else if k == "ekCertificateChain" then One(e.deviceId != "") + One(e.ekCert != [])
    else
      var n := One(e.deviceId != "") + One(e.ekCert != []) + One(e.chain != []);
      if k == "eventLog" then n
      else if k == "pcrValues" then n + One(e.eventLog != [])
      else if k == "quote" then n + One(e.eventLog != []) + 1
      else n + One(e.eventLog != []) + 2
  }

  lemma EvidenceAt(e: Evidence, j: nat)
    requires j < |EvidenceFields(e)|
    ensures var f := EvidenceFields(e)[j];
      && IsEvidenceKey(f.key) && Place(e, f.key) == j
      && (if j == |EvidenceFields(e)| - 1 then f == Field("secureBootChain", e.secureBoot) else IsEvidenceField(f, e))
  {
    hide Pem, PemArray, Base64.Encode, PcrText, Text, QuoteFields;
  }

  lemma EvidenceTail(e: Evidence)
    ensures var fields := EvidenceFields(e);
      && 3 <= |fields|
      && fields[|fields| - 2] == Field("quote", Text(QuoteFields(e.nonce, e.quoted, e.signature)))
      && fields[|fields| - 3] == Field("pcrValues", PcrText(EVIDENCE_PCRS, e.pcrs))
  {
    hide Pem, PemArray, Base64.Encode, PcrText, Text, QuoteFields;
  }

  /** No id, or the text of a Guid. */
  predicate IdShaped(id: string) {
    id == "" || (|id| == 36 && Flat(id))
  }

  lemma GuidIsShaped(s: string, b: bytes)
    requires IsGuid(s, b)
    ensures IdShaped(s)
  {
    hide Placed;
    GuidChars(s, b);
    forall c | c in s ensures c == '-' || IsHexDigit(c) { if c != '-' { HexRange(c); } }
    hide HEX;
  }

  lemma OptionalIsClear(f: Field, e: Evidence, k: string)
    requires IdShaped(e.deviceId) && IsEvidenceField(f, e) && IsEvidenceKey(k) && Place(e, f.key) < Place(e, k)
    requires f.key != "pcrValues" && f.key != "quote"
    ensures Clear(f.value, k)
  {
    EvidenceKeyShape(k);
    assert k != "";
    hide Pem, PemArray, Base64.Encode, Clear, KeyName, SelfDelimited, Flat, PcrText, Text, QuoteFields;
    if f.key == "deviceId" {
      FlatIsClear(f.value, k);
    } else if f.key == "ekCertPem" {
      PemIsClear(e.ekCert, k);
    } else if f.key == "ekCertificateChain" {
      ArrayIsClear(e.chain, k);
    } else {
      Base64IsClear(e.eventLog, k);
    }
  }

  lemma FieldIsClear(f: Field, e: Evidence, k: string)
    requires IdShaped(e.deviceId) && IsEvidenceField(f, e) && IsEvidenceKey(k) && Place(e, f.key) < Place(e, k)
    ensures Clear(f.value, k)
  {
    EvidenceKeyShape(k);
    assert k != "";
    hide Pem, PemArray, Base64.Encode, Clear, KeyName, SelfDelimited, Flat, PcrText;
    hide Text, QuoteFields, IdShaped, Spliced;
    if f.key == "pcrValues" {
      PcrTextIsClear(EVIDENCE_PCRS, e.pcrs, k);
    } else if f.key == "quote" {
      QuoteIsClear(e.nonce, e.quoted, e.signature, k);
    } else {
      OptionalIsClear(f, e, k);
    }
  }

  lemma FieldIsReadable(f: Field, e: Evidence)
    requires IdShaped(e.deviceId) && IsEvidenceField(f, e)
    ensures Readable(f.value)
  {
    LateNames();
    hide Pem, PemArray, Base64.Encode, Clear, KeyName, SelfDelimited, Flat, PcrText;
    hide Text, QuoteFields, Spliced, Alphanumeric;
    AlphanumericIsName("secureBootChain");
    if f.key == "deviceId" {
      if e.deviceId != "" { FlatReads(f.value); } else { EmptyReads(); }
    } else if f.key == "ekCertPem" {
      PemIsClear(e.ekCert, "secureBootChain");
    } else if f.key == "ekCertificateChain" {
      ArrayIsClear(e.chain, "secureBootChain");
    } else if f.key == "eventLog" {
      Base64IsFlat(e.eventLog);
      FlatReads(f.value);
    } else if f.key == "pcrValues" {
      PcrTextIsClear(EVIDENCE_PCRS, e.pcrs, "secureBootChain");
    } else {
      QuoteIsClear(e.nonce, e.quoted, e.signature, "secureBootChain");
    }
  }

  lemma EmptyReads()
    ensures Readable("")
  {
  }

  lemma EvidenceIsUnambiguous(e: Evidence, i: nat)
    requires IdShaped(e.deviceId) && i < |EvidenceFields(e)|
    ensures WellNamed(EvidenceFields(e)) && Unambiguous(EvidenceFields(e), i)
  {
    hide EvidenceFields, IsEvidenceField, IsEvidenceKey, KeyName, Clear, Decoy, IdShaped, Place;
    var fields := EvidenceFields(e);
    forall j: nat | j < |fields|
      ensures KeyName(fields[j].key) && IsEvidenceKey(fields[j].key) && Place(e, fields[j].key) == j
      ensures j < |fields| - 1 ==> IsEvidenceField(fields[j], e)
    {
      EvidenceAt(e, j);
      EvidenceKeyShape(fields[j].key);
    }
    forall j | 0 <= j < i ensures Clear(fields[j].value, fields[i].key) { FieldIsClear(fields[j], e, fields[i].key); }
  }

  /**
   * Every field of the evidence is read back as it was put in. Only the last, the client's own Secure Boot report,
   * carries text from certificates, and is read back exactly when that text does not unbalance its brackets.
   */
  lemma EvidenceReadsBack(e: Evidence, i: nat)
    requires IdShaped(e.deviceId) && i < |EvidenceFields(e)|
    ensures var fields := EvidenceFields(e);
      Get(Text(fields), fields[i].key) == fields[i].value <==> i < |fields| - 1 || Readable(e.secureBoot)
  {
    hide EvidenceFields, IsEvidenceField, IsEvidenceKey, WellNamed, Unambiguous, Spliced;
    hide SelfDelimited, Get, Text, IdShaped;
    EvidenceIsUnambiguous(e, i);
    EvidenceAt(e, i);
    if i < |EvidenceFields(e)| - 1 { FieldIsReadable(EvidenceFields(e)[i], e); }
    GetUndoesBuild(EvidenceFields(e), i);
  }

  /** The nonce, like the attestation and its signature, is recovered from inside the evidence text. */
  lemma NonceIsRecovered(e: Evidence)
    requires IdShaped(e.deviceId)
    ensures var quote := Get(Text(EvidenceFields(e)), "quote");
      && Get(quote, "nonce") == Base64.Encode(e.nonce)
      && Get(quote, "quoted") == Base64.Encode(e.quoted)
      && Get(quote, "signature") == Base64.Encode(e.signature)
    ensures var quote := Get(Text(EvidenceFields(e)), "quote");
      && Base64.Decode(Get(quote, "nonce")) == Some(e.nonce)
      && Base64.Decode(Get(quote, "quoted")) == Some(e.quoted)
      && Base64.Decode(Get(quote, "signature")) == Some(e.signature)
  {
    Base64.DecodeOfEncode(e.nonce);
    Base64.DecodeOfEncode(e.quoted);
    Base64.DecodeOfEncode(e.signature);
    hide Base64.Decode;
    hide EvidenceFields, QuoteFields, Spliced, SelfDelimited, Get, Text, IdShaped, Base64.Encode, PcrText;
    EvidenceTail(e);
    EvidenceReadsBack(e, |EvidenceFields(e)| - 2);
    QuoteReads(e.nonce, e.quoted, e.signature);
  }

  /** What the evidence has under a PCR's number. */
  function PcrRead(e: Evidence, pcr: u32): string {
    Get(Get(Get(Text(EvidenceFields(e)), "pcrValues"), "sha256"), Decimal(pcr))
  }

  lemma PcrReadIs(e: Evidence, pcr: u32)
    requires IdShaped(e.deviceId)
    ensures PcrRead(e, pcr) == if Selects(BitmapOf(EVIDENCE_PCRS), pcr) then Hex(PcrValue(e.pcrs, pcr)) else ""
  {
    hide EvidenceFields, QuoteFields, Spliced, SelfDelimited, Get, Text, IdShaped, PcrText;
    hide Decimal, Hex, PcrFields, Selects, BitmapOf;
    EvidenceTail(e);
    EvidenceReadsBack(e, |EvidenceFields(e)| - 3);
    PcrTextReads(EVIDENCE_PCRS, e.pcrs);
    PcrFieldsRead(EVIDENCE_PCRS, e.pcrs, pcr);
    BitmapOfSelects(EVIDENCE_PCRS, pcr);
  }

  /**
   * The PCR values in the evidence are those of exactly the PCRs the quote selects, which are 0 to 4 and 7: what is
   * under a number is the text of the 32 bytes of that PCR, and nothing under any other.
   */
  lemma PcrsAreTheQuotedOnes(e: Evidence, pcr: u32)
    requires IdShaped(e.deviceId)
    ensures Selects(BitmapOf(EVIDENCE_PCRS), pcr) <==> pcr in {0, 1, 2, 3, 4, 7}
    ensures pcr in {0, 1, 2, 3, 4, 7} && pcr in e.pcrs ==> Unhex(PcrRead(e, pcr)) == Some(e.pcrs[pcr])
    ensures pcr !in {0, 1, 2, 3, 4, 7} ==> PcrRead(e, pcr) == ""
  {
    SixPcrs(pcr);
    hide PcrRead, Hex, Selects, BitmapOf, Unhex, EVIDENCE_PCRS;
    PcrReadIs(e, pcr);
    BitmapOfSelects(EVIDENCE_PCRS, pcr);
    UnhexOfHex(PcrValue(e.pcrs, pcr));
  }

  lemma SixPcrs(pcr: u32)
    ensures pcr in EVIDENCE_PCRS <==> pcr in {0, 1, 2, 3, 4, 7}
  {
  }

  // ---- The other fields, by their names ----

  lemma IdAt(e: Evidence)
    requires e.deviceId != ""
    ensures EvidenceFields(e)[0] == Field("deviceId", e.deviceId)
  {
    hide Pem, PemArray, Base64.Encode, PcrText, Text, QuoteFields;
  }

  lemma CertAt(e: Evidence) returns (i: nat)
    requires e.ekCert != []
    ensures i < |EvidenceFields(e)| - 3 && EvidenceFields(e)[i] == Field("ekCertPem", Pem(e.ekCert))
  {
    hide Pem, PemArray, Base64.Encode, PcrText, Text, QuoteFields;
    i := One(e.deviceId != "");
  }

  lemma ChainAt(e: Evidence) returns (i: nat)
    requires e.chain != []
    ensures i < |EvidenceFields(e)| - 3 && EvidenceFields(e)[i] == Field("ekCertificateChain", PemArray(e.chain))
  {
    hide Pem, PemArray, Base64.Encode, PcrText, Text, QuoteFields;
    i := One(e.deviceId != "") + One(e.ekCert != []);
  }

  lemma LogAt(e: Evidence)
    requires e.eventLog != []
    ensures |EvidenceFields(e)| >= 4
    ensures EvidenceFields(e)[|EvidenceFields(e)| - 4] == Field("eventLog", Base64.Encode(e.eventLog))
  {
    hide Pem, PemArray, Base64.Encode, PcrText, Text, QuoteFields;
  }

  /** What is there of id, certificate, chain and log is recovered from the evidence under its name, byte for byte. */
  lemma EvidenceSays(e: Evidence)
    requires IdShaped(e.deviceId)
    ensures e.deviceId != "" ==> Get(Text(EvidenceFields(e)), "deviceId") == e.deviceId
    ensures e.ekCert != [] ==> ReadPem(Get(Text(EvidenceFields(e)), "ekCertPem")) == Some(e.ekCert)
    ensures e.chain != [] ==> ReadChain(Get(Text(EvidenceFields(e)), "ekCertificateChain")) == Some(e.chain)
    ensures e.eventLog != [] ==> Base64.Decode(Get(Text(EvidenceFields(e)), "eventLog")) == Some(e.eventLog)
  {
    hide EvidenceFields, Get, Text, IdShaped, Base64.Encode, Base64.Decode, Pem, PemArray, ReadPem, ReadChain;
    hide PcrText, QuoteFields, Readable;
    EvidenceTail(e);
    if e.deviceId != "" {
      IdAt(e);
      EvidenceReadsBack(e, 0);
    }
    if e.ekCert != [] {
      var i := CertAt(e);
      EvidenceReadsBack(e, i);
      PemReads(e.ekCert);
    }
    if e.chain != [] {
      var i := ChainAt(e);
      EvidenceReadsBack(e, i);
      ChainReads(e.chain);
    }
    if e.eventLog != [] {
      LogAt(e);
      EvidenceReadsBack(e, |EvidenceFields(e)| - 4);
      Base64.DecodeOfEncode(e.eventLog);
    }
  }
}
