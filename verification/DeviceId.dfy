/** Hex text, and the device id derived from an EK fingerprint. */
module DeviceId {
  import opened Bytes

  const HEX := "0123456789abcdef"

  function HexByte(v: byte): (s: string)
    ensures |s| == 2
  {
    [HEX[v / 16], HEX[v % 16]]
  }

  /** BytesToHex */
  function Hex(b: bytes): string {
    if b == [] then "" else Hex(b[..|b| - 1]) + HexByte(b[|b| - 1])
  }

  method BytesToHex(data: bytes) returns (result: string)
    ensures result == Hex(data)
  {
    hide HexByte;
    result := "";
    for i := 0 to |data|
      invariant result == Hex(data[..i])
    {
      var b := data[i];
      assert data[..i + 1][..i] == data[..i];
      result := result + HexByte(b);
    }
    assert data[..|data|] == data;
  }

  lemma {:induction false} HexChars(b: bytes)
    ensures |Hex(b)| == 2 * |b| && forall c | c in Hex(b) :: c in HEX
  {
    if b != [] {
      HexChars(b[..|b| - 1]);
      var v := b[|b| - 1];
      assert HEX[v / 16] in HEX && HEX[v % 16] in HEX;
    }
  }

  // ---- Reading hex ----

  /** The value of a digit, or none for any other character. */
  function DigitValue(c: char): (n: Option<nat>)
    ensures n.Some? ==> n.value < 16
  {
    if '0' <= c <= '9' then Some(c as int - '0' as int)
    else if 'a' <= c <= 'f' then Some(c as int - 'a' as int + 10)
    else None
  }

  /** Two characters a byte, the high digit first, front to back. */
  function Unhex(s: string): Option<bytes> {
    if s == "" then Some([]) else if |s| < 2 then None else
    var high :- DigitValue(s[0]);
    var low :- DigitValue(s[1]);
    var more :- Unhex(s[2..]);
    Some([high * 16 + low] + more)
  }

  lemma DigitOfHex(n: nat)
    requires n < 16
    ensures DigitValue(HEX[n]) == Some(n)
  {
  }

  lemma UnhexByte(v: byte)
    ensures Unhex(HexByte(v)) == Some([v])
  {
    DigitOfHex(v / 16);
    DigitOfHex(v % 16);
    hide DigitValue, HEX;
    assert HexByte(v)[2..] == "" && Unhex("") == Some([]);
    assert [v] + [] == [v] && v / 16 * 16 + v % 16 == v;
  }

  lemma UnhexStep(x: char, y: char, t: string)
    ensures Unhex([x, y] + t) ==
      if DigitValue(x) == None || DigitValue(y) == None || Unhex(t) == None then None
      else Some([DigitValue(x).value * 16 + DigitValue(y).value] + Unhex(t).value)
  {
    hide DigitValue;
    assert ([x, y] + t)[2..] == t;
  }

  lemma {:induction false} UnhexConcat(s: string, t: string)
    requires Unhex(s).Some? && Unhex(t).Some?
    ensures Unhex(s + t) == Some(Unhex(s).value + Unhex(t).value)
  {
    if s == "" {
      assert s + t == t && Unhex(s).value + Unhex(t).value == Unhex(t).value;
    } else {
      assert |s| >= 2;
      UnhexSplit(s);
      hide DigitValue, Unhex;
      var pair, more := [s[0], s[1]], s[2..];
      UnhexConcat(more, t);
      UnhexStep(s[0], s[1], more);
      UnhexStep(s[0], s[1], more + t);
      Associates(pair, more, t);
      Associates([DigitValue(s[0]).value * 16 + DigitValue(s[1]).value], Unhex(more).value, Unhex(t).value);
    }
  }

  lemma UnhexSplit(s: string)
    requires |s| >= 2 && Unhex(s).Some?
    ensures s == [s[0], s[1]] + s[2..] && Unhex(s[2..]).Some?
  {
    hide DigitValue;
  }

  lemma Associates<T>(a: seq<T>, b: seq<T>, c: seq<T>)
    ensures (a + b) + c == a + (b + c)
  {
  }

  /** Whatever the bytes, reading their text gives them back. */
  lemma {:induction false} UnhexOfHex(b: bytes)
    ensures Unhex(Hex(b)) == Some(b)
  {
    hide HexByte, Unhex;
    if b == [] {
      NothingUnhexed();
    } else {
      var last := |b| - 1;
      UnhexOfHex(b[..last]);
      UnhexByte(b[last]);
      UnhexConcat(Hex(b[..last]), HexByte(b[last]));
      assert b == b[..last] + [b[last]];
    }
  }

  lemma NothingUnhexed()
    ensures Unhex("") == Some([])
  {
  }

  // ---- The device id ----

  const NAMESPACE: bytes :=
    [0x52, 0x6F, 0x6F, 0x74, 0x48, 0x65, 0x72, 0x61, 0x6C, 0x64, 0x44, 0x65, 0x76, 0x49, 0x44, 0x76]

  /** The first sixteen bytes of the hash, with the version and variant bits set. */
  function Stamped(hash: bytes): (b: bytes)
    requires 16 <= |hash|
    ensures |b| == 16
  {
    hash[..16][6 := hash[6] % 16 + 0x50][8 := hash[8] % 64 + 0x80]
  }

  /** Where the text of byte i starts: .NET prints a Guid's first three groups least significant byte first. */
  const PLACE: seq<nat> := [6, 4, 2, 0, 11, 9, 16, 14, 19, 21, 24, 26, 28, 30, 32, 34]

  predicate PrintsByte(s: string, at: nat, v: byte) {
    at + 2 <= |s| && s[at] == HexByte(v)[0] && s[at + 1] == HexByte(v)[1]
  }

  predicate Hyphenated(s: string) {
    |s| == 36 && s[8] == '-' && s[13] == '-' && s[18] == '-' && s[23] == '-'
  }

  /** The first n bytes are in their places. */
  predicate Placed(s: string, b: bytes, n: nat) {
    |b| == 16 && n <= 16 && forall i | 0 <= i < n :: PrintsByte(s, PLACE[i], b[i])
  }

  /** The text of a .NET Guid with these bytes. */
  predicate IsGuid(s: string, b: bytes) {
    Hyphenated(s) && Placed(s, b, 16)
  }

  /** The hexByte calls of one group, which prints bytes n onward in the order given. */
  method AppendGroup(start: string, b: bytes, order: seq<nat>, ghost n: nat) returns (s: string)
    requires Placed(start, b, n) && n + |order| <= 16
    requires forall k | 0 <= k < |order| :: order[k] < 16 && PLACE[order[k]] == |start| + 2 * k
    requires forall i | n <= i < n + |order| :: i in order
    ensures |s| == |start| + 2 * |order| && start <= s && Placed(s, b, n + |order|)
  {
    hide HexByte;
    s := start;
    for k := 0 to |order|
      invariant |s| == |start| + 2 * k && start <= s
      invariant forall j | 0 <= j < k :: PrintsByte(s, PLACE[order[j]], b[order[j]])
    {
      s := s + HexByte(b[order[k]]);
    }
    GroupPlaced(start, s, b, order, n);
  }

  lemma GroupPlaced(start: string, s: string, b: bytes, order: seq<nat>, n: nat)
    requires Placed(start, b, n) && start <= s && n + |order| <= 16
    requires forall j | 0 <= j < |order| :: order[j] < 16 && PrintsByte(s, PLACE[order[j]], b[order[j]])
    requires forall i | n <= i < n + |order| :: i in order
    ensures Placed(s, b, n + |order|)
  {
    hide HexByte;
    forall i | 0 <= i < n + |order| ensures PrintsByte(s, PLACE[i], b[i]) {
      if i < n {
        assert PrintsByte(start, PLACE[i], b[i]);
      } else {
        assert i in order;
        var j :| 0 <= j < |order| && order[j] == i;
        assert PrintsByte(s, PLACE[order[j]], b[order[j]]);
      }
    }
  }

  method PrintGuid(b: bytes) returns (s: string)
    requires |b| == 16
    ensures IsGuid(s, b)
  {
    hide PrintsByte;
    s := PrintSwapped(b);
    StillPlaced(s, b, 8);
    s := AppendGroup(s + "-", b, [8, 9], 8);
    StillPlaced(s, b, 10);
    s := AppendGroup(s + "-", b, [10, 11, 12, 13, 14, 15], 10);
  }

  /** The three byte-swapped groups. */
  method PrintSwapped(b: bytes) returns (s: string)
    requires |b| == 16
    ensures |s| == 18 && s[8] == '-' && s[13] == '-' && Placed(s, b, 8)
  {
    hide PrintsByte;
    s := AppendGroup("", b, [3, 2, 1, 0], 0);
    StillPlaced(s, b, 4);
    s := AppendGroup(s + "-", b, [5, 4], 4);
    StillPlaced(s, b, 6);
    s := AppendGroup(s + "-", b, [7, 6], 6);
  }

  lemma StillPlaced(s: string, b: bytes, n: nat)
    requires Placed(s, b, n)
    ensures Placed(s + "-", b, n)
  {
    hide HexByte;
  }

  /** What the id of a fingerprint is: nothing, or the stamped hash as a Guid. */
  predicate IsIdOf(s: string, fingerprint: bytes, sha1: bytes -> bytes) {
    var hash := sha1(NAMESPACE + fingerprint);
    if |fingerprint| != 32 || |hash| < 16 then s == "" else IsGuid(s, Stamped(hash))
  }

  /** A fingerprint of the wrong length, like an absent hash, gives the empty id. */
  method ComputeDeviceId(fingerprint: bytes, sha1: bytes -> bytes) returns (s: string)
    ensures IsIdOf(s, fingerprint, sha1)
  {
    hide HexByte, IsGuid;
    if |fingerprint| != 32 { return ""; }
    var hash := sha1(NAMESPACE + fingerprint);
    if |hash| < 16 { return ""; }
    var b := hash[..16];
    b := b[6 := b[6] % 16 + 0x50];
    b := b[8 := b[8] % 64 + 0x80];
    s := PrintGuid(b);
  }

  // ---- What the id says ----

  lemma HexByteInjective(v: byte, w: byte)
    requires HexByte(v) == HexByte(w)
    ensures v == w
  {
    HexDigitInjective(v / 16, w / 16);
    HexDigitInjective(v % 16, w % 16);
  }

  lemma HexDigitInjective(m: nat, n: nat)
    requires m < 16 && n < 16 && HEX[m] == HEX[n]
    ensures m == n
  {
  }

  /** The text and the bytes determine each other. */
  lemma GuidIsExact(s: string, b: bytes, t: string, c: bytes)
    requires IsGuid(s, b) && IsGuid(t, c)
    ensures s == t <==> b == c
  {
    hide HexByte;
    if s == t {
      forall i | 0 <= i < 16 ensures b[i] == c[i] {
        assert PrintsByte(s, PLACE[i], b[i]) && PrintsByte(t, PLACE[i], c[i]);
        HexByteInjective(b[i], c[i]);
      }
    }
    if b == c { forall at | 0 <= at < 36 ensures s[at] == t[at] { GuidChar(s, t, b, at); } }
  }

  /** Every place is a hyphen or half of some byte. */
  function Owner(at: nat): (i: int)
    requires at < 36
    ensures i == -1 <==> at in {8, 13, 18, 23}
    ensures i != -1 ==> 0 <= i < 16 && (at == PLACE[i] || at == PLACE[i] + 1)
  {
    if at < 8 then 3 - at / 2 else if at == 8 then -1
    else if at < 13 then 5 - (at - 9) / 2 else if at == 13 then -1
    else if at < 18 then 7 - (at - 14) / 2 else if at == 18 then -1
    else if at < 23 then 8 + (at - 19) / 2 else if at == 23 then -1
    else 10 + (at - 24) / 2
  }

  lemma GuidChar(s: string, t: string, b: bytes, at: nat)
    requires IsGuid(s, b) && IsGuid(t, b) && at < 36
    ensures s[at] == t[at]
  {
    hide HexByte;
    var i := Owner(at);
    if i != -1 { assert PrintsByte(s, PLACE[i], b[i]) && PrintsByte(t, PLACE[i], b[i]); }
  }

  /** An id is hyphens and lower-case hex. */
  lemma GuidChars(s: string, b: bytes)
    requires IsGuid(s, b)
    ensures forall c | c in s :: c == '-' || c in HEX
  {
    hide HexByte;
    forall at | 0 <= at < 36 ensures s[at] == '-' || s[at] in HEX {
      var i := Owner(at);
      if i != -1 {
        assert PrintsByte(s, PLACE[i], b[i]);
        HexIsHex(b[i]);
      }
    }
  }

  lemma HexIsHex(v: byte)
    ensures HexByte(v)[0] in HEX && HexByte(v)[1] in HEX
  {
  }

  /** Two fingerprints share an id exactly when their hashes agree but for the six stamped bits. */
  lemma IdsCollideWithHashes(s: string, f: bytes, t: string, g: bytes, sha1: bytes -> bytes)
    requires IsIdOf(s, f, sha1) && IsIdOf(t, g, sha1) && s != "" && t != ""
    ensures s == t <==> Stamped(sha1(NAMESPACE + f)) == Stamped(sha1(NAMESPACE + g))
  {
    hide IsGuid, Stamped;
    GuidIsExact(s, Stamped(sha1(NAMESPACE + f)), t, Stamped(sha1(NAMESPACE + g)));
  }

  /**
   * The version digit 5 is stamped in RFC 4122 byte order but printed after the byte swap, so it is the seventeenth
   * character; where a reader of the text looks for it, the fifteenth, is the first digit of byte 7 of the hash.
   */
  lemma VersionIsPrintedSwapped(s: string, hash: bytes)
    requires 16 <= |hash| && IsGuid(s, Stamped(hash))
    ensures s[16] == '5' && s[19] in "89ab"
    ensures s[14] == '5' <==> hash[7] / 16 == 5
  {
    hide HexByte;
    var b := Stamped(hash);
    assert PrintsByte(s, PLACE[6], b[6]) && PrintsByte(s, PLACE[7], b[7]) && PrintsByte(s, PLACE[8], b[8]);
    FirstDigit(b[6]);
    FirstDigit(b[7]);
    FirstDigit(b[8]);
  }

  lemma FirstDigit(v: byte)
    ensures HexByte(v)[0] == HEX[v / 16]
    ensures HexByte(v)[0] == '5' <==> v / 16 == 5
    ensures 8 <= v / 16 < 12 ==> HexByte(v)[0] in "89ab"
  {
  }

  // ---- On literal text ----

  /** The namespace is the sixteen characters of a name. */
  lemma NamespaceIsName()
    ensures |NAMESPACE| == 16 && forall i | 0 <= i < 16 :: NAMESPACE[i] == "RootHeraldDevIDv"[i] as int
  {
  }

  lemma {:induction false} UnhexPrinted(s: string, at: nat, vs: bytes)
    requires at + 2 * |vs| <= |s| && forall k | 0 <= k < |vs| :: PrintsByte(s, at + 2 * k, vs[k])
    ensures Unhex(s[at..at + 2 * |vs|]) == Some(vs)
    decreases |vs|
  {
    hide HexByte, Unhex;
    if vs == [] {
      NothingUnhexed();
    } else {
      assert PrintsByte(s, at + 2 * 0, vs[0]);
      var more := s[at + 2..at + 2 * |vs|];
      forall k | 0 <= k < |vs[1..]| ensures PrintsByte(s, at + 2 + 2 * k, vs[1..][k]) {
        assert PrintsByte(s, at + 2 * (k + 1), vs[k + 1]);
      }
      UnhexPrinted(s, at + 2, vs[1..]);
      assert at + 2 + 2 * |vs[1..]| == at + 2 * |vs|;
      UnhexByte(vs[0]);
      assert s[at..at + 2 * |vs|] == HexByte(vs[0]) + more;
      UnhexConcat(HexByte(vs[0]), more);
      assert [vs[0]] + vs[1..] == vs;
    }
  }

  lemma IsAt(s: string, b: bytes, i: nat, at: nat)
    requires Placed(s, b, 16) && i < 16 && PLACE[i] == at
    ensures PrintsByte(s, at, b[i])
  {
    hide PrintsByte;
  }

  /** What each group of an id reads as: the first three byte-swapped, the last two in order. */
  lemma GuidReads(s: string, b: bytes)
    requires IsGuid(s, b)
    ensures |s| == 36 && s[8] == '-' && s[13] == '-' && s[18] == '-' && s[23] == '-'
    ensures Unhex(s[..8]) == Some([b[3], b[2], b[1], b[0]])
    ensures Unhex(s[9..13]) == Some([b[5], b[4]]) && Unhex(s[14..18]) == Some([b[7], b[6]])
    ensures Unhex(s[19..23]) == Some([b[8], b[9]]) && Unhex(s[24..]) == Some(b[10..])
  {
    hide PrintsByte, Unhex, Placed;
    assert |s| == 36 && |b| == 16 by { SixteenBytes(s, b); }
    SwappedReads(s, b);
    PlainReads(s, b);
    assert s[0..8] == s[..8] && s[24..36] == s[24..];
  }

  lemma SixteenBytes(s: string, b: bytes)
    requires IsGuid(s, b)
    ensures |b| == 16
  {
  }

  lemma SwappedReads(s: string, b: bytes)
    requires |s| == 36 && |b| == 16 && Placed(s, b, 16)
    ensures Unhex(s[0..8]) == Some([b[3], b[2], b[1], b[0]])
    ensures Unhex(s[9..13]) == Some([b[5], b[4]]) && Unhex(s[14..18]) == Some([b[7], b[6]])
  {
    hide PrintsByte, Unhex, Placed;
    IsAt(s, b, 0, 6);
    IsAt(s, b, 1, 4);
    IsAt(s, b, 2, 2);
    IsAt(s, b, 3, 0);
    IsAt(s, b, 4, 11);
    IsAt(s, b, 5, 9);
    IsAt(s, b, 6, 16);
    IsAt(s, b, 7, 14);
    UnhexPrinted(s, 0, [b[3], b[2], b[1], b[0]]);
    UnhexPrinted(s, 9, [b[5], b[4]]);
    UnhexPrinted(s, 14, [b[7], b[6]]);
  }

  lemma PlainReads(s: string, b: bytes)
    requires |s| == 36 && |b| == 16 && Placed(s, b, 16)
    ensures Unhex(s[19..23]) == Some([b[8], b[9]]) && Unhex(s[24..36]) == Some(b[10..])
  {
    hide PrintsByte, Unhex, Placed;
    IsAt(s, b, 8, 19);
    IsAt(s, b, 9, 21);
    UnhexPrinted(s, 19, [b[8], b[9]]);
    forall k | 0 <= k < 6 ensures PrintsByte(s, 24 + 2 * k, b[10..][k]) { IsAt(s, b, 10 + k, 24 + 2 * k); }
    UnhexPrinted(s, 24, b[10..]);
  }

  /** An id, read back: the hash of the name and the fingerprint, with the version 5 and the variant of RFC 4122. */
  lemma IdReads(s: string, fingerprint: bytes, sha1: bytes -> bytes) returns (b: bytes)
    requires IsIdOf(s, fingerprint, sha1) && s != ""
    ensures |fingerprint| == 32 && |sha1(NAMESPACE + fingerprint)| >= 16 && |b| == 16
    ensures Unhex(s[..8]) == Some([b[3], b[2], b[1], b[0]])
    ensures Unhex(s[9..13]) == Some([b[5], b[4]]) && Unhex(s[14..18]) == Some([b[7], b[6]])
    ensures Unhex(s[19..23]) == Some([b[8], b[9]]) && Unhex(s[24..]) == Some(b[10..])
    ensures var hash := sha1(NAMESPACE + fingerprint);
      && (forall i | 0 <= i < 16 && i != 6 && i != 8 :: b[i] == hash[i])
      && 0x50 <= b[6] < 0x60 && b[6] % 16 == hash[6] % 16
      && 0x80 <= b[8] < 0xC0 && b[8] % 64 == hash[8] % 64
  {
    hide IsGuid, Unhex;
    b := Stamped(sha1(NAMESPACE + fingerprint));
    GuidReads(s, b);
  }
}
