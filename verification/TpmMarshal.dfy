/** The command builders of src/tpm/tpm_commands.cpp: byte vectors grown in place. */
module TpmMarshal {
  import opened Bytes
  import opened TpmWire

  /** std::vector<uint8_t>. */
  class ByteVector {
    var data: bytes

    constructor ()
      ensures data == []
    {
      data := [];
    }
  }

  const PASSWORD := Auth(RS_PW, [], 1, [])

  function ContinuedSession(handle: u32): Auth {
    Auth(handle, [], 1, [])
  }

  function Zeros(n: nat): (b: bytes)
    ensures |b| == n
  {
    seq(n, _ => 0)
  }

  const EK_POLICY: bytes := [
    0x83, 0x71, 0x97, 0x67, 0x44, 0x84, 0xB3, 0xF8, 0x1A, 0x90, 0xCC, 0x8D, 0x46, 0xA5, 0xD7, 0x24,
    0xFD, 0x52, 0xD7, 0x6E, 0x06, 0x52, 0x0B, 0x64, 0xF2, 0xA1, 0xDA, 0x1B, 0x33, 0x14, 0x69, 0xAA]

  /** fixedTPM, fixedParent, sensitiveDataOrigin, userWithAuth, restricted, sign. */
  const AK_ATTRIBUTES: u32 := 0x0000_0002 + 0x0000_0010 + 0x0000_0020 + 0x0000_0040 + 0x0001_0000 + 0x0004_0000

  /** fixedTPM, fixedParent, sensitiveDataOrigin, adminWithPolicy, restricted, decrypt. */
  const EK_ATTRIBUTES: u32 := 0x0000_0002 + 0x0000_0010 + 0x0000_0020 + 0x0000_0080 + 0x0001_0000 + 0x0002_0000

  /** RSA-2048 restricted signing key, RSASSA over SHA-256. */
  function AkTemplate(): Template {
    Template(ALG_SHA256, AK_ATTRIBUTES, [], NoSymmetric, HashScheme(ALG_RSASSA, ALG_SHA256), 2048, 0, Zeros(256))
  }

  /** RSA-2048 restricted decryption key, AES-128-CFB, standard EK policy. */
  function EkTemplate(): Template {
    Template(ALG_SHA256, EK_ATTRIBUTES, EK_POLICY, SymmetricKey(ALG_AES, 128, ALG_CFB), NoScheme, 2048, 0, Zeros(256))
  }

  // ---- Appending ----

  method WriteU16(buf: ByteVector, v: u16)
    modifies buf
    ensures buf.data == old(buf.data) + U16(v)
  {
    hide U16;
    buf.data := buf.data + U16(v);
  }

  method WriteU32(buf: ByteVector, v: u32)
    modifies buf
    ensures buf.data == old(buf.data) + U32(v)
  {
    hide U32;
    buf.data := buf.data + U32(v);
  }

  method WriteBytes(buf: ByteVector, data: bytes)
    modifies buf
    ensures buf.data == old(buf.data) + data
  {
    buf.data := buf.data + data;
  }

  /** The length is truncated to 16 bits; the bytes are not. */
  method WriteTPM2B(buf: ByteVector, data: bytes)
    modifies buf
    ensures buf.data == old(buf.data) + (U16(|data| % 0x1_0000) + data)
    ensures |data| < 0x1_0000 ==> buf.data == old(buf.data) + Framed(data)
  {
    hide U16;
    WriteU16(buf, |data| % 0x1_0000);
    if |data| > 0 { WriteBytes(buf, data); }
  }

  method BeginCommand(buf: ByteVector, tag: u16, code: u32)
    modifies buf
    ensures buf.data == old(buf.data) + (U16(tag) + (U32(0) + U32(code)))
  {
    hide U16, U32;
    WriteU16(buf, tag);
    WriteU32(buf, 0);
    WriteU32(buf, code);
  }

  /** One authorization with an empty nonce and HMAC and continueSession set. */
  method WriteAuth(buf: ByteVector, session: u32)
    modifies buf
    ensures buf.data == old(buf.data) + AuthBytes(ContinuedSession(session))
  {
    hide U16, U32;
    WriteU32(buf, session);
    WriteU16(buf, 0);
    WriteBytes(buf, [0x01]);
    WriteU16(buf, 0);
    assert Framed([]) == U16(0);
  }

  method WritePasswordAuth(buf: ByteVector)
    modifies buf
    ensures buf.data == old(buf.data) + (U32(9) + AuthBytes(PASSWORD))
  {
    hide U16, U32, Framed;
    var auth := new ByteVector();
    WriteAuth(auth, RS_PW);
    PasswordSize();
    hide AuthBytes;
    assert auth.data == AuthBytes(PASSWORD);
    WriteU32(buf, |auth.data|);
    WriteBytes(buf, auth.data);
  }

  lemma PasswordSize()
    ensures |AuthBytes(PASSWORD)| == 9
  {
  }

  lemma AuthSize(session: u32)
    ensures |AuthBytes(ContinuedSession(session))| == 9
  {
  }

  /** push_back(0), n times. */
  method WriteZeros(buf: ByteVector, n: nat)
    modifies buf
    ensures buf.data == old(buf.data) + Zeros(n)
  {
    var i := 0;
    while i < n
      invariant 0 <= i <= n && buf.data == old(buf.data) + Zeros(i)
    {
      WriteBytes(buf, [0]);
      i := i + 1;
    }
  }

  lemma TemplatesFit()
    ensures WellFormedTemplate(AkTemplate()) && |TemplateBytes(AkTemplate())| == 280
    ensures WellFormedTemplate(EkTemplate()) && |TemplateBytes(EkTemplate())| == 314
  {
    hide U16, U32;
  }

  lemma AkTemplateBytes()
    ensures TemplateBytes(AkTemplate()) ==
      [] + U16(1) + U16(0x0B) + U32(AK_ATTRIBUTES) + U16(0) + U16(0x10) + U16(0x14) + U16(0x0B) + U16(2048) + U32(0)
      + U16(256) + Zeros(256)
  {
    hide U16, U32, Zeros;
    assert Framed([]) == U16(0);
  }

  lemma EkTemplateBytes()
    ensures TemplateBytes(EkTemplate()) ==
      [] + U16(1) + U16(0x0B) + U32(EK_ATTRIBUTES) + U16(32) + EK_POLICY + U16(6) + U16(128) + U16(0x43) + U16(0x10)
      + U16(2048) + U32(0) + U16(256) + Zeros(256)
  {
    assert |EK_POLICY| == 32;
    hide U16, U32, Zeros, EK_POLICY;
  }

  /** The public area WriteAkTemplate frames. */
  method AkPublicArea() returns (pub: ByteVector)
    ensures fresh(pub) && WellFormedTemplate(AkTemplate()) && pub.data == TemplateBytes(AkTemplate())
  {
    TemplatesFit();
    AkTemplateBytes();
    hide U16, U32, Zeros, TemplateBytes, AkTemplate, WellFormedTemplate;
    pub := new ByteVector();
    WriteU16(pub, 0x0001);
    WriteU16(pub, 0x000B);
    WriteU32(pub, AK_ATTRIBUTES);
    WriteU16(pub, 0);
    WriteU16(pub, 0x0010);
    WriteU16(pub, 0x0014);
    WriteU16(pub, 0x000B);
    WriteU16(pub, 2048);
    WriteU32(pub, 0);
    WriteU16(pub, 256);
    WriteZeros(pub, 256);
  }

  /** The public area WriteEkTemplate frames. */
  method EkPublicArea() returns (pub: ByteVector)
    ensures fresh(pub) && WellFormedTemplate(EkTemplate()) && pub.data == TemplateBytes(EkTemplate())
  {
    TemplatesFit();
    EkTemplateBytes();
    hide U16, U32, Zeros, TemplateBytes, EkTemplate, WellFormedTemplate, EK_POLICY;
    pub := new ByteVector();
    WriteU16(pub, 0x0001);
    WriteU16(pub, 0x000B);
    WriteU32(pub, EK_ATTRIBUTES);
    WriteU16(pub, 32);
    WriteBytes(pub, EK_POLICY);
    WriteU16(pub, 0x0006);
    WriteU16(pub, 128);
    WriteU16(pub, 0x0043);
    WriteU16(pub, 0x0010);
    WriteU16(pub, 2048);
    WriteU32(pub, 0);
    WriteU16(pub, 256);
    WriteZeros(pub, 256);
  }

  method WriteAkTemplate(buf: ByteVector)
    modifies buf
    ensures WellFormedTemplate(AkTemplate()) && |TemplateBytes(AkTemplate())| < 0x1_0000
    ensures buf.data == old(buf.data) + Framed(TemplateBytes(AkTemplate()))
  {
    TemplatesFit();
    hide U16, TemplateBytes;
    var pub := AkPublicArea();
    WriteU16(buf, |pub.data| % 0x1_0000);
    WriteBytes(buf, pub.data);
  }

  method WriteEkTemplate(buf: ByteVector)
    modifies buf
    ensures WellFormedTemplate(EkTemplate()) && |TemplateBytes(EkTemplate())| < 0x1_0000
    ensures buf.data == old(buf.data) + Framed(TemplateBytes(EkTemplate()))
  {
    TemplatesFit();
    hide U16, TemplateBytes;
    var pub := EkPublicArea();
    WriteU16(buf, |pub.data| % 0x1_0000);
    WriteBytes(buf, pub.data);
  }
}
