/** The EFI_SIGNATURE_LIST walker of src/boot/secureboot_validator.cpp. */
module SignatureList {
  import opened Bytes
  import opened EfiVariable

  /** What the X.509 decoder reports of a certificate; an empty subject means it did not decode. */
  datatype CertInfo = CertInfo(subject: string, issuer: string, isMicrosoft: bool, isKnownOem: bool, oemName: string)

  const EFI_CERT_X509_GUID: bytes := [
    0xa1, 0x59, 0xc0, 0xa5, 0xe4, 0x94, 0xa7, 0x4a, 0x87, 0xb5, 0xab, 0x15, 0x5c, 0x2b, 0xf0, 0x72]

  const EFI_CERT_SHA256_GUID: bytes := [
    0x26, 0x16, 0xc4, 0xc1, 0x4c, 0x50, 0x92, 0x40, 0xac, 0xa9, 0x41, 0xf9, 0x36, 0x93, 0x43, 0x28]

  const LIST_HEADER_BYTES := 28
  const OWNER_BYTES := 16
  const MAX_CERT_BYTES := 65536
  const INT_MAX := 0x7FFF_FFFF

  // ---- What the walk finds ----

  /** The certificate in one entry, if it is small enough and decodes. */
  function CertOf(der: bytes, decode: bytes -> CertInfo): seq<CertInfo> {
    if 0 < |der| < MAX_CERT_BYTES && decode(der).subject != "" then [decode(der)] else []
  }

  /** The certificates in the entries of `size` bytes between two offsets. */
  function EntryCerts(s: bytes, offset: nat, end: nat, size: nat, decode: bytes -> CertInfo): seq<CertInfo>
    requires end <= |s| && OWNER_BYTES < size
    decreases end - offset
  {
    if offset + size > end then []
    else CertOf(s[offset + OWNER_BYTES..offset + size], decode) + EntryCerts(s, offset + size, end, size, decode)
  }

  /** How many entries of `size` bytes a walk between two offsets visits. */
  function EntryCount(offset: nat, end: nat, size: nat): nat
    requires 0 < size
    decreases end - offset
  {
    if offset + size > end then 0 else 1 + EntryCount(offset + size, end, size)
  }

  datatype Found = Found(certs: seq<CertInfo>, hashes: nat)

  /** What the list at the front of `s` contributes; s holds its whole 28-byte header and all `listSize` bytes. */
  function InList(s: bytes, listSize: nat, decode: bytes -> CertInfo): Found
    requires LIST_HEADER_BYTES <= |s| && listSize <= |s|
  {
    var entries := LIST_HEADER_BYTES + ReadLe32(s, 20);
    var size := ReadLe32(s, 24);
    if size <= OWNER_BYTES then Found([], 0)
    else if s[..16] == EFI_CERT_X509_GUID then Found(EntryCerts(s, entries, listSize, size, decode), 0)
    else if s[..16] == EFI_CERT_SHA256_GUID then Found([], EntryCount(entries, listSize, size))
    else Found([], 0)
  }

  function Walk(s: bytes, decode: bytes -> CertInfo): Found
    decreases |s|
  {
    if |s| < LIST_HEADER_BYTES then Found([], 0) else
    var listSize := ReadLe32(s, 16);
    if listSize == 0 || listSize > |s| then Found([], 0) else
    var (here, more) := (InList(s, listSize, decode), Walk(s[listSize..], decode));
    Found(here.certs + more.certs, here.hashes + more.hashes)
  }

  function InVariable(variableData: bytes, decode: bytes -> CertInfo): Found {
    match Parse(variableData) case None => Found([], 0) case Some(v) => Walk(v.data, decode)
  }

  function Clamp(count: nat): nat {
    if count > INT_MAX then INT_MAX else count
  }

  // ---- The walk ----

  /** Dividing counts the entries a walk would visit. */
  lemma {:induction false} DivisionCounts(offset: nat, end: nat, size: nat)
    requires 0 < size && offset <= end
    ensures (end - offset) / size == EntryCount(offset, end, size)
    decreases end - offset
  {
    if offset + size <= end {
      DivisionCounts(offset + size, end, size);
      DivisionStep(end - offset, size);
    } else {
      DivisionSmall(end - offset, size);
    }
  }

  lemma DivisionStep(a: nat, b: nat)
    requires 0 < b <= a
    ensures a / b == 1 + (a - b) / b
  {
    var (q, r) := ((a - b) / b, (a - b) % b);
    Distribute(q, 1, b);
    QuotientIsUnique(a / b, q + 1, a % b, r, b);
  }

  lemma QuotientIsUnique(q: int, q': int, r: int, r': int, b: int)
    requires 0 <= r < b && 0 <= r' < b && q * b + r == q' * b + r'
    ensures q == q'
  {
    if q < q' { Gap(q, q' - q, b); }
    if q' < q { Gap(q', q - q', b); }
  }

  lemma Gap(x: int, d: nat, b: nat)
    requires 0 < d && 0 < b
    ensures x * b + b <= (x + d) * b
  {
    Distribute(x, d, b);
    AtLeast(d, b);
  }

  lemma Distribute(x: int, d: int, b: int)
    ensures (x + d) * b == x * b + d * b
  {
  }

  lemma {:induction false} AtLeast(d: nat, b: nat)
    requires 0 < d
    ensures b <= d * b
  {
    if d > 1 {
      AtLeast(d - 1, b);
      Distribute(d - 1, 1, b);
    }
  }

  lemma DivisionSmall(a: nat, b: nat)
    requires a < b
    ensures a / b == 0
  {
  }

  method ReadEntryCerts(s: bytes, entries: nat, listSize: nat, size: nat, decode: bytes -> CertInfo)
    returns (certs: seq<CertInfo>)
    requires listSize <= |s| && OWNER_BYTES < size
    ensures certs == EntryCerts(s, entries, listSize, size, decode)
  {
    hide EntryCerts, CertOf;
    certs := [];
    var offset := entries;
    ghost var all := EntryCerts(s, entries, listSize, size, decode);
    assert [] + all == all;
    while offset + size <= listSize
      invariant certs + EntryCerts(s, offset, listSize, size, decode) == all
      decreases listSize - offset
    {
      var der := s[offset + OWNER_BYTES..offset + size];
      EntryCertsStep(s, offset, listSize, size, decode, certs);
      CertOfCases(der, decode, certs);
      if |der| > 0 && |der| < MAX_CERT_BYTES {
        var info := decode(der);
        if info.subject != "" { certs := certs + [info]; }
      }
      offset := offset + size;
    }
    EntryCertsEnd(s, offset, listSize, size, decode, certs);
  }

  lemma CertOfCases(der: bytes, decode: bytes -> CertInfo, certs: seq<CertInfo>)
    ensures certs + CertOf(der, decode)
         == if 0 < |der| < MAX_CERT_BYTES && decode(der).subject != "" then certs + [decode(der)] else certs
  {
  }

  lemma EntryCertsStep(s: bytes, offset: nat, end: nat, size: nat, decode: bytes -> CertInfo, certs: seq<CertInfo>)
    requires end <= |s| && OWNER_BYTES < size && offset + size <= end
    ensures certs + EntryCerts(s, offset, end, size, decode)
         == (certs + CertOf(s[offset + OWNER_BYTES..offset + size], decode))
            + EntryCerts(s, offset + size, end, size, decode)
  {
    hide CertOf;
    Reassociate(certs, CertOf(s[offset + OWNER_BYTES..offset + size], decode),
                EntryCerts(s, offset + size, end, size, decode));
  }

  lemma EntryCertsEnd(s: bytes, offset: nat, end: nat, size: nat, decode: bytes -> CertInfo, certs: seq<CertInfo>)
    requires end <= |s| && OWNER_BYTES < size && offset + size > end
    ensures certs + EntryCerts(s, offset, end, size, decode) == certs
  {
  }

  lemma Reassociate(a: seq<CertInfo>, b: seq<CertInfo>, c: seq<CertInfo>)
    ensures a + (b + c) == (a + b) + c
  {
  }

  /** One list; the SHA-256 entries are counted by division. */
  method ReadList(s: bytes, listSize: nat, decode: bytes -> CertInfo) returns (certs: seq<CertInfo>, hashes: nat)
    requires LIST_HEADER_BYTES <= |s| && listSize <= |s|
    ensures Found(certs, hashes) == InList(s, listSize, decode)
  {
    hide ReadLe32, EntryCerts, EntryCount, EFI_CERT_X509_GUID, EFI_CERT_SHA256_GUID;
    certs, hashes := [], 0;
    var headerSize, size := ReadLe32(s, 20), ReadLe32(s, 24);
    var isX509, isSha256 := s[..16] == EFI_CERT_X509_GUID, s[..16] == EFI_CERT_SHA256_GUID;
    var entries: nat := LIST_HEADER_BYTES + headerSize as int;
    if isX509 && size > OWNER_BYTES {
      certs := ReadEntryCerts(s, entries, listSize, size, decode);
    } else if isSha256 && size > OWNER_BYTES && entries < listSize {
      DivisionCounts(entries, listSize, size);
      hashes := (listSize - entries) / size;
    } else if isSha256 && size > OWNER_BYTES {
      NothingToCount(entries, listSize, size);
    }
  }

  lemma NothingToCount(entries: nat, end: nat, size: nat)
    requires 0 < size && end <= entries
    ensures EntryCount(entries, end, size) == 0
  {
  }

  method ParseEfiSignatureList(variableData: bytes, decode: bytes -> CertInfo)
    returns (certs: seq<CertInfo>, sha256Count: nat)
    requires |variableData| < 0x1_0000_0000_0000_0000
    ensures certs == InVariable(variableData, decode).certs
    ensures sha256Count == Clamp(InVariable(variableData, decode).hashes)
  {
    hide Parse, InList, ReadLe32;
    certs, sha256Count := [], 0;
    var v := TryParse(variableData);
    if v.None? { return; }
    var data := v.value.data;
    var at: nat, remaining: nat, hashes: nat := 0, |data|, 0;
    assert data[0..] == data;
    ghost var whole := Walk(data, decode);
    while remaining >= LIST_HEADER_BYTES
      invariant 0 <= at && 0 <= remaining && at + remaining == |data|
      invariant Joined(certs, hashes, Walk(data[at..], decode)) == whole
      decreases remaining
    {
      var s := data[at..];
      var listSize := ReadLe32(s, 16);
      if listSize == 0 || listSize > remaining { break; }
      var here, count := ReadList(s, listSize, decode);
      WalkStep(s, decode, certs, hashes);
      certs := certs + here;
      hashes := hashes + count;
      assert s[listSize..] == data[at + listSize..];
      at := at + listSize;
      remaining := remaining - listSize;
    }
    assert certs + [] == certs;
    sha256Count := if hashes > INT_MAX then INT_MAX else hashes;
  }

  ghost function Joined(certs: seq<CertInfo>, hashes: nat, f: Found): Found {
    Found(certs + f.certs, hashes + f.hashes)
  }

  lemma WalkStep(s: bytes, decode: bytes -> CertInfo, certs: seq<CertInfo>, hashes: nat)
    requires LIST_HEADER_BYTES <= |s| && 0 < ReadLe32(s, 16) <= |s|
    ensures var (listSize, here) := (ReadLe32(s, 16), InList(s, ReadLe32(s, 16), decode));
      Joined(certs, hashes, Walk(s, decode))
      == Joined(certs + here.certs, hashes + here.hashes, Walk(s[listSize..], decode))
  {
    hide InList, ReadLe32;
    var listSize := ReadLe32(s, 16);
    Reassociate(certs, InList(s, listSize, decode).certs, Walk(s[listSize..], decode).certs);
  }
}
