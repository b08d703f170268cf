/** What the other end reads out of the two objects enrollment emits, with the reader of json_helpers.h. */
module EnrollmentMessages {
  import opened Bytes
  import opened Json
  import opened JsonRoundTrip
  import opened JsonNesting
  import opened JsonValues
  import opened JsonForeign
  import opened PemRoundTrip
  import opened Enrollment
  import Base64

  // ---- The enroll object ----

  predicate IsEnrollKey(k: string) {
    k == "akPublicArea" || k == "ekCertPem" || k == "ekCertificateChain" || k == "ekPublicKey" || k == "platform"
  }

  lemma EnrollKeyShape(k: string)
    requires IsEnrollKey(k)
    ensures KeyName(k) && k[0] !in "-,]" && (|k| % 4 != 0 || k == "akPublicArea" || k == "platform")
  {
    assert Alphanumeric(k);
    hide KeyName, Alphanumeric;
    AlphanumericIsName(k);
  }

  lemma EnrollKeysDiffer(ekPub: bytes, ekCert: bytes, intermediates: seq<bytes>, area: bytes)
    ensures var fields := EnrollFields(ekPub, ekCert, intermediates, area);
      && (forall f | f in fields :: IsEnrollKey(f.key))
      && (forall i, j | 0 <= i < j < |fields| :: fields[i].key != fields[j].key)
  {
    hide Pem, PemArray, Base64.Encode;
  }

  lemma EnrollIsWellNamed(ekPub: bytes, ekCert: bytes, intermediates: seq<bytes>, area: bytes)
    ensures WellNamed(EnrollFields(ekPub, ekCert, intermediates, area))
  {
    EnrollKeysDiffer(ekPub, ekCert, intermediates, area);
    hide KeyName, EnrollFields, IsEnrollKey;
    forall f | f in EnrollFields(ekPub, ekCert, intermediates, area) ensures KeyName(f.key) { EnrollKeyShape(f.key); }
  }

  predicate IsEnrollField(f: Field, ekPub: bytes, ekCert: bytes, intermediates: seq<bytes>, area: bytes) {
    || f == Field("akPublicArea", Base64.Encode(area))
    || f == Field("ekCertPem", Pem(ekCert))
    || f == Field("ekCertificateChain", PemArray(intermediates))
    || f == Field("ekPublicKey", Base64.Encode(ekPub))
    || f == Field("platform", "windows")
  }

  lemma EnrollValues(ekPub: bytes, ekCert: bytes, intermediates: seq<bytes>, area: bytes, j: nat)
    requires j < |EnrollFields(ekPub, ekCert, intermediates, area)|
    ensures var fields := EnrollFields(ekPub, ekCert, intermediates, area);
      && IsEnrollField(fields[j], ekPub, ekCert, intermediates, area)
      && (fields[j].key == "akPublicArea" <==> j == 0)
      && (fields[j].key == "ekPublicKey" <==> j == |fields| - 2)
      && (fields[j].key == "platform" <==> j == |fields| - 1)
  {
    hide Pem, PemArray, Base64.Encode;
  }

  /** A framed public area never spells a key: its first byte is zero, or it is longer than any. */
  lemma FrameIsNoKey(public: bytes)
    requires |public| < 0x1_0000
    ensures Base64.Encode(Framed(public)) != "platform"
  {
    var b := Framed(public);
    if |public| < 0x100 {
      assert b[0] == 0;
      FirstDigit(b);
    } else {
      Base64Grows(b);
    }
  }

  lemma FirstDigit(b: bytes)
    requires b != []
    ensures Base64.Encode(b) != "" && Base64.Encode(b)[0] == Base64.Digit(b[0] / 4)
  {
  }

  lemma {:induction false} Base64Grows(b: bytes)
    ensures |b| <= |Base64.Encode(b)|
    decreases |b|
  {
    hide Base64.Quad;
    if |b| > 3 { Base64Grows(b[3..]); }
  }

  /** Each value can be read back, and cannot be taken for another field's key, except that one may spell "platform". */
  lemma EnrollFieldIsClear(f: Field, ekPub: bytes, ekCert: bytes, intermediates: seq<bytes>, public: bytes, k: string)
    requires |public| < 0x1_0000 && IsEnrollField(f, ekPub, ekCert, intermediates, Framed(public))
    requires IsEnrollKey(k) && k != "akPublicArea"
    ensures !Spliced(f.value) || SelfDelimited(f.value)
    ensures Clear(f.value, k) || f.key == "platform" || (f.key == "ekPublicKey" && k == "platform" && Decoy(f.value, k))
  {
    EnrollKeyShape(k);
    FrameIsNoKey(public);
    Base64IsFlat(Framed(public));
    Base64IsFlat(ekPub);
    TidyReads(Base64.Encode(Framed(public)));
    TidyReads(Base64.Encode(ekPub));
    ArrayIsClear(intermediates, k);
    PemIsClear(ekCert, k);
    if |k| % 4 != 0 || Base64.Encode(Framed(public)) != k { Base64IsClear(Framed(public), k); }
    if |k| % 4 != 0 || Base64.Encode(ekPub) != k { Base64IsClear(ekPub, k); }
    hide Pem, PemArray, Base64.Encode, Clear, SelfDelimited, KeyName, Tidy, Flat, Framed;
  }

  /** Every field the server is sent is read back as it was put in. */
  lemma EnrollReadsBack(ekPub: bytes, ekCert: bytes, intermediates: seq<bytes>, public: bytes, i: nat)
    requires |public| < 0x1_0000 && i < |EnrollFields(ekPub, ekCert, intermediates, Framed(public))|
    ensures var fields := EnrollFields(ekPub, ekCert, intermediates, Framed(public));
      Get(Text(fields), fields[i].key) == fields[i].value
  {
    hide EnrollFields, IsEnrollField, IsEnrollKey, WellNamed, Clear, Decoy, Get, Text, Spliced, SelfDelimited, Framed;
    var area := Framed(public);
    var fields := EnrollFields(ekPub, ekCert, intermediates, area);
    EnrollIsWellNamed(ekPub, ekCert, intermediates, area);
    EnrollKeysDiffer(ekPub, ekCert, intermediates, area);
    forall j: nat | j < |fields|
      ensures IsEnrollField(fields[j], ekPub, ekCert, intermediates, area)
      ensures (fields[j].key == "akPublicArea" <==> j == 0) && (fields[j].key == "ekPublicKey" <==> j == |fields| - 2)
      ensures fields[j].key == "platform" <==> j == |fields| - 1
    {
      EnrollValues(ekPub, ekCert, intermediates, area, j);
    }
    SomeOtherKey();
    EnrollFieldIsClear(fields[i], ekPub, ekCert, intermediates, public, "ekPublicKey");
    assert Unambiguous(fields, i) by {
      forall j | 0 <= j < i
        ensures Clear(fields[j].value, fields[i].key) || (j == i - 1 && Decoy(fields[j].value, fields[i].key))
      {
        EnrollFieldIsClear(fields[j], ekPub, ekCert, intermediates, public, fields[i].key);
      }
    }
    ReadsField(fields, i);
  }

  lemma SomeOtherKey()
    ensures IsEnrollKey("ekPublicKey")
  {
  }

  /** The enroll object by its names: what the server is told of key, certificate and chain, byte for byte. */
  lemma EnrollSays(ekPub: bytes, ekCert: bytes, intermediates: seq<bytes>, public: bytes)
    requires |public| < 0x1_0000
    ensures var t := Text(EnrollFields(ekPub, ekCert, intermediates, Framed(public)));
      && Base64.Decode(Get(t, "akPublicArea")) == Some(Framed(public))
      && Base64.Decode(Get(t, "ekPublicKey")) == Some(ekPub)
      && Get(t, "platform") == "windows"
      && (ekCert != [] ==> ReadPem(Get(t, "ekCertPem")) == Some(ekCert))
      && (intermediates != [] ==> ReadChain(Get(t, "ekCertificateChain")) == Some(intermediates))
  {
    hide EnrollFields, Get, Text, Base64.Encode, Base64.Decode, Pem, PemArray, ReadPem, ReadChain, Framed;
    var fields := EnrollFields(ekPub, ekCert, intermediates, Framed(public));
    EnrollPlaces(ekPub, ekCert, intermediates, Framed(public));
    EnrollReadsBack(ekPub, ekCert, intermediates, public, 0);
    EnrollReadsBack(ekPub, ekCert, intermediates, public, |fields| - 2);
    EnrollReadsBack(ekPub, ekCert, intermediates, public, |fields| - 1);
    Base64.DecodeOfEncode(Framed(public));
    Base64.DecodeOfEncode(ekPub);
    if ekCert != [] {
      EnrollReadsBack(ekPub, ekCert, intermediates, public, 1);
      PemReads(ekCert);
    }
    if intermediates != [] {
      EnrollReadsBack(ekPub, ekCert, intermediates, public, |fields| - 3);
      ChainReads(intermediates);
    }
  }

  lemma EnrollPlaces(ekPub: bytes, ekCert: bytes, intermediates: seq<bytes>, area: bytes)
    ensures var fields := EnrollFields(ekPub, ekCert, intermediates, area);
      && |fields| >= 3 && fields[0] == Field("akPublicArea", Base64.Encode(area))
      && fields[|fields| - 2] == Field("ekPublicKey", Base64.Encode(ekPub))
      && fields[|fields| - 1] == Field("platform", "windows")
      && (ekCert != [] ==> |fields| >= 4 && fields[1] == Field("ekCertPem", Pem(ekCert)))
      && (intermediates != [] ==>
            |fields| >= 4 && fields[|fields| - 3] == Field("ekCertificateChain", PemArray(intermediates)))
  {
    hide Base64.Encode, Pem, PemArray;
  }

  // ---- The activate object ----

  lemma ActivateIsWellNamed(deviceId: string, secret: bytes)
    ensures WellNamed(ActivateFields(deviceId, secret))
  {
    hide Base64.Encode, KeyName;
    AlphanumericIsName("decryptedSecret");
    AlphanumericIsName("deviceId");
  }

  lemma ActivateIsUnambiguous(deviceId: string, secret: bytes)
    ensures var fields := ActivateFields(deviceId, secret);
      && Unambiguous(fields, 0) && Unambiguous(fields, 1)
      && (!Spliced(fields[0].value) || SelfDelimited(fields[0].value))
  {
    hide Base64.Encode, SelfDelimited, Tidy, Flat, Contains;
    Base64IsFlat(secret);
    TidyReads(Base64.Encode(secret));
    if Base64.Encode(secret) == "deviceId" {
      assert Decoy(ActivateFields(deviceId, secret)[0].value, "deviceId");
    } else {
      Base64IsClear(secret, "deviceId");
    }
  }

  /**
   * The recovered secret is always read back. The device id, which came out of the challenge and goes in last, is
   * read back exactly when it was quoted or delimits itself; a secret whose Base64 spells "deviceId" does no harm.
   */
  lemma ActivateReadsBack(deviceId: string, secret: bytes)
    ensures Get(Text(ActivateFields(deviceId, secret)), "decryptedSecret") == Base64.Encode(secret)
    ensures Base64.Decode(Get(Text(ActivateFields(deviceId, secret)), "decryptedSecret")) == Some(secret)
    ensures Get(Text(ActivateFields(deviceId, secret)), "deviceId") == deviceId
       <==> !Spliced(deviceId) || SelfDelimited(deviceId)
  {
    hide Get, Text, SelfDelimited, Base64.Encode, Base64.Decode, Unambiguous, WellNamed, Spliced;
    var fields := ActivateFields(deviceId, secret);
    ActivateIsWellNamed(deviceId, secret);
    ActivateIsUnambiguous(deviceId, secret);
    ReadsField(fields, 0);
    Base64.DecodeOfEncode(secret);
    GetUndoesBuild(fields, 1);
  }

  // ---- The challenge ----

  /**
   * A challenge as any server may write it: with the three members in any order and among others, spaced as JSON
   * allows but for line breaks behind a colon, none of their values empty, each is read and the challenge is accepted.
   */
  lemma ChallengeReads(lead: string, ms: seq<Member>, tail: string, d: nat, c: nat, s: nat)
    requires Gap(lead) && d < |ms| && c < |ms| && s < |ms| && forall m | m in ms :: WellFormed(m)
    requires ms[d].key == "deviceId" && ms[c].key == "credentialBlob" && ms[s].key == "encryptedSecret"
    requires Reachable(ms, d) && Reachable(ms, c) && Reachable(ms, s)
    requires ms[d].value.text != "" && ms[c].value.text != "" && ms[s].value.text != ""
    ensures var t := lead + MembersText(ms, tail);
      && !Malformed(t) && Get(t, "deviceId") == ms[d].value.text
      && Get(t, "credentialBlob") == ms[c].value.text && Get(t, "encryptedSecret") == ms[s].value.text
  {
    hide Get, MembersText, Reachable, WellFormed, Gap;
    ForeignReads(lead, ms, tail, d);
    ForeignReads(lead, ms, tail, c);
    ForeignReads(lead, ms, tail, s);
  }

  /** As most writers print it: a blank behind each colon and each comma. */
  lemma SpacedChallenge(deviceId: string, blob: string, secret: string)
    requires deviceId != "" && blob != "" && secret != "" && '"' !in deviceId && '"' !in blob
    requires deviceId != "credentialBlob" && deviceId != "encryptedSecret" && blob != "encryptedSecret"
    ensures var t := "{" + MembersText(Spaced(deviceId, blob, secret), "");
      && !Malformed(t) && Get(t, "deviceId") == deviceId
      && Get(t, "credentialBlob") == blob && Get(t, "encryptedSecret") == secret
  {
    var ms := Spaced(deviceId, blob, secret);
    ChallengeNames();
    hide Get, MembersText, Malformed, EndsWith;
    forall i, k | 0 <= i < 2 && k in {"credentialBlob", "encryptedSecret"}
      ensures !EndsWith(ms[i].value.text, "\"" + k)
    {
      if EndsWith(ms[i].value.text, "\"" + k) { EndHasQuote(ms[i].value.text, k); }
    }
    ChallengeReads("{", ms, "", 0, 1, 2);
  }

  function Spaced(deviceId: string, blob: string, secret: string): seq<Member> {
    [Member("deviceId", "", " ", Str(deviceId), ", "), Member("credentialBlob", "", " ", Str(blob), ", "),
     Member("encryptedSecret", "", " ", Str(secret), "}")]
  }

  lemma ChallengeNames()
    ensures Name("deviceId") && Name("credentialBlob") && Name("encryptedSecret")
  {
    DeviceIdIsName();
    BlobIsName();
    SecretIsName();
  }

  lemma DeviceIdIsName()
    ensures Name("deviceId")
  {
  }

  lemma BlobIsName()
    ensures Name("credentialBlob")
  {
  }

  lemma SecretIsName()
    ensures Name("encryptedSecret")
  {
  }

  /** A challenge as a server may write it, with the device id in front. */
  function Challenge(deviceId: string, rest: string): string {
    "{" + (Quoted("deviceId") + (":" + (Quoted(Escape(deviceId)) + rest)))
  }

  /**
   * The smallest device id that is not read back: quoted in the challenge, whatever else is in that, it is read right
   * there, but the activate object splices it raw, and the other end does not read it.
   */
  lemma BracketIdMisleads(rest: string, secret: bytes)
    ensures Get(Challenge("{", rest), "deviceId") == "{"
    ensures Get(Text(ActivateFields("{", secret)), "deviceId") != "{"
  {
    hide Get, Text, ActivateFields, Escape, ReadValue;
    GetAtKey("{", "deviceId", Quoted(Escape("{")) + rest);
    ReadQuoted("{", rest);
    ActivateReadsBack("{", secret);
    assert Spliced("{") && "{"[1..] == "" && !SelfDelimited("{");
  }
}
