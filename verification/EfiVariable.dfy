/** UEFI_VARIABLE_DATA as src/boot/efi_variable.h reads it: 16-byte GUID, two 64-bit lengths, name, data. */
module EfiVariable {
  import opened Bytes

  const HEADER_BYTES := 32
  const MAX_NAME_CHARS := 1024

  /** uint64_t, and size_t on the x64 build: arithmetic in it is checked not to wrap. */
  newtype u64 = x: int | 0 <= x < 0x1_0000_0000_0000_0000

  /** The two spans of a record: UCS-2LE name bytes (an even number of them) and variable data. */
  datatype Variable = Variable(name: bytes, data: bytes)

  function Le64(v: int): (b: bytes)
    requires 0 <= v < 0x1_0000_0000_0000_0000
    ensures |b| == 8
  {
    Le32(v % 0x1_0000_0000) + Le32(v / 0x1_0000_0000)
  }

  function ReadLe64(b: bytes, at: nat): (v: int)
    requires at + 8 <= |b|
    ensures 0 <= v < 0x1_0000_0000_0000_0000
  {
    var (lo: int, hi: int) := (ReadLe32(b, at), ReadLe32(b, at + 4));
    lo + hi * 0x1_0000_0000
  }

  lemma ReadLe64Of(pre: bytes, v: int, rest: bytes)
    requires 0 <= v < 0x1_0000_0000_0000_0000
    ensures ReadLe64(pre + Le64(v) + rest, |pre|) == v
  {
    hide Le32, ReadLe32;
    var (lo, hi) := (v % 0x1_0000_0000, v / 0x1_0000_0000);
    ReadLe32At(pre, lo, Le32(hi) + rest);
    ReadLe32At(pre + Le32(lo), hi, rest);
    assert pre + Le64(v) + rest == pre + Le32(lo) + (Le32(hi) + rest) == pre + Le32(lo) + Le32(hi) + rest;
  }

  lemma Le64OfRead(b: bytes, at: nat)
    requires at + 8 <= |b|
    ensures Le64(ReadLe64(b, at)) == b[at..at + 8]
  {
    Le32OfRead(b, at);
    Le32OfRead(b, at + 4);
    hide Le32, ReadLe32;
    Digits32(ReadLe32(b, at), ReadLe32(b, at + 4));
    assert b[at..at + 8] == b[at..at + 4] + b[at + 4..at + 8];
  }

  /** The record a well-formed prefix describes, in unbounded arithmetic. */
  function Parse(raw: bytes): Option<Variable> {
    if |raw| < HEADER_BYTES then None else
    var (nameChars, dataBytes) := (ReadLe64(raw, 16), ReadLe64(raw, 24));
    var dataAt := HEADER_BYTES + 2 * nameChars;
    if nameChars > MAX_NAME_CHARS || dataAt + dataBytes > |raw| then None
    else Some(Variable(raw[HEADER_BYTES..dataAt], raw[dataAt..dataAt + dataBytes]))
  }

  /** The subtraction-form bounds checks, in 64-bit arithmetic that cannot wrap, decide exactly Parse. */
  method TryParse(raw: bytes) returns (out: Option<Variable>)
    requires |raw| < 0x1_0000_0000_0000_0000
    ensures out == Parse(raw)
  {
    var size := |raw| as u64;
    if size < HEADER_BYTES as u64 { return None; }
    var nameChars := ReadLe64(raw, 16) as u64;
    var dataBytes := ReadLe64(raw, 24) as u64;
    if nameChars > MAX_NAME_CHARS as u64 { return None; }
    var afterHeader := size - HEADER_BYTES as u64;
    if nameChars > afterHeader / 2 { return None; }
    var nameBytes := nameChars * 2;
    if dataBytes > afterHeader - nameBytes { return None; }
    var nameAt, dataAt := HEADER_BYTES, HEADER_BYTES + nameBytes as int;
    out := Some(Variable(raw[nameAt..dataAt], raw[dataAt..dataAt + dataBytes as int]));
  }

  function Encode(guid: bytes, v: Variable): bytes
    requires |guid| == 16 && |v.name| % 2 == 0
    requires |v.name| < 0x1_0000_0000_0000_0000 && |v.data| < 0x1_0000_0000_0000_0000
  {
    guid + Le64(|v.name| / 2) + Le64(|v.data|) + v.name + v.data
  }

  /** Parsing undoes encoding, for names up to the limit and for no longer ones. */
  lemma ParseOfEncode(guid: bytes, v: Variable, trailing: bytes)
    requires |guid| == 16 && |v.name| % 2 == 0
    requires |v.name| < 0x1_0000_0000_0000_0000 && |v.data| < 0x1_0000_0000_0000_0000
    ensures Parse(Encode(guid, v) + trailing) == Some(v) <==> |v.name| / 2 <= MAX_NAME_CHARS
  {
    hide Le64, ReadLe64;
    var (n, d) := (Le64(|v.name| / 2), Le64(|v.data|));
    var raw := Encode(guid, v) + trailing;
    ReadLe64Of(guid, |v.name| / 2, d + v.name + v.data + trailing);
    assert raw == guid + n + (d + v.name + v.data + trailing);
    ReadLe64Of(guid + n, |v.data|, v.name + v.data + trailing);
    assert raw == guid + n + d + (v.name + v.data + trailing);
    Spans(guid + n + d, v.name, v.data, trailing);
  }

  lemma Spans(header: bytes, name: bytes, data: bytes, trailing: bytes)
    ensures var raw := header + name + data + trailing;
      && raw[|header|..|header| + |name|] == name
      && raw[|header| + |name|..|header| + |name| + |data|] == data
  {
  }

  /** Whatever parses is the encoding of what was parsed: both spans lie inside the record. */
  lemma EncodeOfParse(raw: bytes)
    requires |raw| < 0x1_0000_0000_0000_0000 && Parse(raw).Some?
    ensures var v := Parse(raw).value;
      && |v.name| % 2 == 0 && |v.name| / 2 <= MAX_NAME_CHARS && HEADER_BYTES + |v.name| + |v.data| <= |raw|
      && raw[..HEADER_BYTES + |v.name| + |v.data|] == Encode(raw[..16], v)
  {
    hide Le64, ReadLe64;
    var v := Parse(raw).value;
    Le64OfRead(raw, 16);
    Le64OfRead(raw, 24);
    assert |v.name| / 2 == ReadLe64(raw, 16) && |v.data| == ReadLe64(raw, 24);
    assert raw[..HEADER_BYTES] == raw[..16] + raw[16..24] + raw[24..32];
  }

  // ---- The name ----

  /** ASCII rendering up to the first NUL, non-ASCII replaced. */
  function NameText(name: bytes): string {
    if |name| < 2 then "" else
    var ch := ReadLe16(name, 0);
    if ch == 0 then "" else [if ch < 128 then ch as char else '?'] + NameText(name[2..])
  }

  method VariableName(v: Variable) returns (name: string)
    requires |v.name| % 2 == 0
    ensures name == NameText(v.name)
  {
    hide ReadLe16;
    name := "";
    var chars := |v.name| / 2;
    for i := 0 to chars
      invariant name + NameText(v.name[2 * i..]) == NameText(v.name)
    {
      var ch := ReadLe16(v.name, 2 * i);
      ghost var here := v.name[2 * i..];
      ReadLe16Slice(v.name, 2 * i);
      assert here[2..] == v.name[2 * (i + 1)..];
      if ch == 0 { return; }
      name := name + [if ch < 128 then ch as char else '?'];
    }
  }

  lemma ReadLe16Slice(b: bytes, at: nat)
    requires at + 2 <= |b|
    ensures ReadLe16(b[at..], 0) == ReadLe16(b, at)
  {
  }

  /** An ASCII name as firmware writes it. */
  function Ucs2(s: string): (b: bytes)
    requires forall i | 0 <= i < |s| :: s[i] as int < 128
    ensures |b| == 2 * |s|
  {
    if s == "" then [] else Le16(s[0] as int) + Ucs2(s[1..])
  }

  /** Rendering recovers any ASCII name, whether or not it is NUL-terminated inside its span. */
  lemma {:induction false} NameOfUcs2(s: string, after: bytes)
    requires forall i | 0 <= i < |s| :: 0 < s[i] as int < 128
    requires after == [] || (2 <= |after| && ReadLe16(after, 0) == 0)
    ensures NameText(Ucs2(s) + after) == s
  {
    hide Le16, ReadLe16, NameText;
    if s == "" {
      assert Ucs2(s) + after == after;
      NameEnds(after);
    } else {
      var b := Ucs2(s[1..]) + after;
      assert Ucs2(s) + after == Le16(s[0] as int) + b;
      NameOfUcs2(s[1..], after);
      NameGoesOn(s[0], b);
      assert s == [s[0]] + s[1..];
    }
  }

  lemma NameEnds(after: bytes)
    requires after == [] || (2 <= |after| && ReadLe16(after, 0) == 0)
    ensures NameText(after) == ""
  {
    hide ReadLe16;
  }

  lemma NameGoesOn(c: char, more: bytes)
    requires 0 < c as int < 128
    ensures NameText(Le16(c as int) + more) == [c] + NameText(more)
  {
    hide Le16, ReadLe16;
    ReadLe16Of(c as int, more);
  }

  /** What is not ASCII is rendered as a question mark, on literal bytes: the low byte of a character comes first. */
  lemma NameOfOther(low: byte, high: byte, more: bytes)
    requires high > 0 || low >= 128
    ensures NameText([low, high] + more) == "?" + NameText(more)
  {
    assert ([low, high] + more)[2..] == more;
  }

  /** The length fields, least significant byte first. */
  lemma Le64Is(v: int)
    requires 0 <= v < 0x1_0000_0000_0000_0000
    ensures Le64(v)[..4] == Le32(v % 0x1_0000_0000) && Le64(v)[4..] == Le32(v / 0x1_0000_0000)
  {
    hide Le32;
  }
}
