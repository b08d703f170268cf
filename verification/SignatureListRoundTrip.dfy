/** Printing signature lists, and that the walker undoes it. */
module SignatureListRoundTrip {
  import opened Bytes
  import opened SignatureList
  import opened EfiVariable

  datatype Signature = Signature(owner: bytes, data: bytes)
  datatype SigList = SigList(sigType: bytes, header: bytes, size: nat, signatures: seq<Signature>)

  /** Every signature has the list's size; the list's own size fits its 32-bit field. */
  predicate WellFormed(l: SigList) {
    && |l.sigType| == 16 && OWNER_BYTES < l.size < 0x1_0000_0000 && |l.header| < 0x1_0000_0000
    && (forall s | s in l.signatures :: |s.owner| == OWNER_BYTES && |s.data| == l.size - OWNER_BYTES)
    && |PrintSignatures(l.signatures)| + LIST_HEADER_BYTES + |l.header| < 0x1_0000_0000
  }

  function PrintSignatures(ss: seq<Signature>): bytes {
    if ss == [] then [] else (ss[0].owner + ss[0].data) + PrintSignatures(ss[1..])
  }

  function ListSize(l: SigList): nat {
    LIST_HEADER_BYTES + |l.header| + |PrintSignatures(l.signatures)|
  }

  function Print(l: SigList): bytes
    requires WellFormed(l)
  {
    l.sigType + Le32(ListSize(l)) + Le32(|l.header|) + Le32(l.size) + l.header + PrintSignatures(l.signatures)
  }

  function PrintAll(ls: seq<SigList>): bytes
    requires forall l | l in ls :: WellFormed(l)
  {
    if ls == [] then [] else Print(ls[0]) + PrintAll(ls[1..])
  }

  // ---- What a reader should find ----

  function CertsOf(ss: seq<Signature>, decode: bytes -> CertInfo): seq<CertInfo> {
    if ss == [] then [] else CertOf(ss[0].data, decode) + CertsOf(ss[1..], decode)
  }

  function Contents(l: SigList, decode: bytes -> CertInfo): Found {
    if l.sigType == EFI_CERT_X509_GUID then Found(CertsOf(l.signatures, decode), 0)
    else if l.sigType == EFI_CERT_SHA256_GUID then Found([], |l.signatures|)
    else Found([], 0)
  }

  function AllContents(ls: seq<SigList>, decode: bytes -> CertInfo): Found {
    if ls == [] then Found([], 0) else
    var (here, more) := (Contents(ls[0], decode), AllContents(ls[1..], decode));
    Found(here.certs + more.certs, here.hashes + more.hashes)
  }

  // ---- Walking undoes printing ----

  predicate Sized(ss: seq<Signature>, size: nat) {
    OWNER_BYTES < size && forall s | s in ss :: |s.owner| == OWNER_BYTES && |s.data| == size - OWNER_BYTES
  }

  lemma {:induction false} EntryCertsOf(pre: bytes, ss: seq<Signature>, post: bytes, size: nat,
                                        decode: bytes -> CertInfo)
    requires Sized(ss, size)
    ensures var s := pre + PrintSignatures(ss) + post;
      EntryCerts(s, |pre|, |pre| + |PrintSignatures(ss)|, size, decode) == CertsOf(ss, decode)
    decreases |ss|
  {
    hide CertOf;
    if ss != [] {
      assert ss[0] in ss;
      EntryCertsOf(pre + (ss[0].owner + ss[0].data), ss[1..], post, size, decode);
      EntryAt(pre, ss[0].owner, ss[0].data, PrintSignatures(ss[1..]), post);
    }
  }

  lemma EntryAt(pre: bytes, owner: bytes, data: bytes, more: bytes, post: bytes)
    ensures var s := pre + ((owner + data) + more) + post;
      && s == (pre + (owner + data)) + more + post
      && s[|pre| + |owner|..|pre| + |owner| + |data|] == data
  {
  }

  lemma {:induction false} EntryCountOf(ss: seq<Signature>, offset: nat, size: nat)
    requires Sized(ss, size)
    ensures EntryCount(offset, offset + |PrintSignatures(ss)|, size) == |ss|
    decreases |ss|
  {
    if ss != [] {
      assert ss[0] in ss;
      EntryCountOf(ss[1..], offset + size, size);
    }
  }

  lemma PrintedHeader(l: SigList, rest: bytes)
    requires WellFormed(l)
    ensures var s := Print(l) + rest;
      && LIST_HEADER_BYTES <= ListSize(l) <= |s| && s[ListSize(l)..] == rest
      && s[..16] == l.sigType && ReadLe32(s, 16) == ListSize(l) && ReadLe32(s, 20) == |l.header|
      && ReadLe32(s, 24) == l.size
  {
    hide Le32, ReadLe32, PrintSignatures;
    var (t, a, b, c, body) := (l.sigType, Le32(ListSize(l)), Le32(|l.header|), Le32(l.size),
                               l.header + PrintSignatures(l.signatures));
    var s := Print(l) + rest;
    ReadLe32At(t, ListSize(l), b + c + body + rest);
    assert s == t + a + (b + c + body + rest);
    ReadLe32At(t + a, |l.header|, c + body + rest);
    assert s == t + a + b + (c + body + rest);
    ReadLe32At(t + a + b, l.size, body + rest);
    assert s == t + a + b + c + (body + rest);
  }

  lemma InListOf(l: SigList, rest: bytes, decode: bytes -> CertInfo)
    requires WellFormed(l)
    ensures |Print(l)| == ListSize(l) >= LIST_HEADER_BYTES
    ensures InList(Print(l) + rest, ListSize(l), decode) == Contents(l, decode)
  {
    PrintedHeader(l, rest);
    var pre := PrintedFront(l, rest);
    EntryCertsOf(pre, l.signatures, rest, l.size, decode);
    EntryCountOf(l.signatures, |pre|, l.size);
    hide Le32, ReadLe32, PrintSignatures, EntryCerts, EntryCount, CertsOf;
    hide Print, EFI_CERT_X509_GUID, EFI_CERT_SHA256_GUID;
  }

  lemma PrintedFront(l: SigList, rest: bytes) returns (pre: bytes)
    requires WellFormed(l)
    ensures |pre| == LIST_HEADER_BYTES + |l.header| && |Print(l)| == ListSize(l)
    ensures Print(l) + rest == pre + PrintSignatures(l.signatures) + rest
  {
    hide Le32, PrintSignatures;
    pre := l.sigType + Le32(ListSize(l)) + Le32(|l.header|) + Le32(l.size) + l.header;
  }

  /** The walker finds what was printed, list after list, and stops at what is too short to be a list. */
  lemma {:induction false} WalkOfPrint(ls: seq<SigList>, rest: bytes, decode: bytes -> CertInfo)
    requires forall l | l in ls :: WellFormed(l)
    requires |rest| < LIST_HEADER_BYTES
    ensures Walk(PrintAll(ls) + rest, decode) == AllContents(ls, decode)
  {
    hide InList, Contents, Print, WellFormed, ListSize, ReadLe32;
    if ls == [] {
      assert PrintAll(ls) + rest == rest;
    } else {
      var more := PrintAll(ls[1..]) + rest;
      assert ls[0] in ls;
      assert PrintAll(ls) + rest == Print(ls[0]) + more;
      PrintedHeader(ls[0], more);
      InListOf(ls[0], more, decode);
      WalkOfPrint(ls[1..], rest, decode);
    }
  }

  /** The same through the variable record that carries the lists. */
  lemma InVariableOfPrint(guid: bytes, name: bytes, ls: seq<SigList>, trailing: bytes, decode: bytes -> CertInfo)
    requires |guid| == 16 && |name| % 2 == 0 && |name| / 2 <= MAX_NAME_CHARS
    requires (forall l | l in ls :: WellFormed(l)) && |PrintAll(ls)| < 0x1_0000_0000_0000_0000
    ensures InVariable(Encode(guid, Variable(name, PrintAll(ls))) + trailing, decode) == AllContents(ls, decode)
  {
    hide Parse, Encode, Walk, AllContents;
    ParseOfEncode(guid, Variable(name, PrintAll(ls)), trailing);
    WalkOfPrint(ls, [], decode);
    assert PrintAll(ls) + [] == PrintAll(ls);
  }
}
