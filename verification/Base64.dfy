/** Base64 (RFC 4648, section 4), the text form of every byte string in the JSON this library emits. */
module Base64 {
  import opened Bytes

  /** Letters, digits, '+', '/' and '='. */
  predicate IsBase64Char(c: char) {
    'A' <= c <= 'Z' || 'a' <= c <= 'z' || '0' <= c <= '9' || c == '+' || c == '/' || c == '='
  }

  function Digit(n: nat): (c: char)
    requires n < 64
    ensures IsBase64Char(c) && c != '='
  {
    if n < 26 then ('A' as int + n) as char
    else if n < 52 then ('a' as int + (n - 26)) as char
    else if n < 62 then ('0' as int + (n - 52)) as char
    else if n == 62 then '+' else '/'
  }

  /** The four characters of one to three bytes. */
  function Quad(b: bytes): (q: string)
    requires 1 <= |b| <= 3
    ensures |q| == 4
  {
    if |b| == 1 then [Digit(b[0] / 4), Digit(b[0] % 4 * 16), '=', '=']
    else if |b| == 2 then [Digit(b[0] / 4), Digit(b[0] % 4 * 16 + b[1] / 16), Digit(b[1] % 16 * 4), '=']
    else [Digit(b[0] / 4), Digit(b[0] % 4 * 16 + b[1] / 16), Digit(b[1] % 16 * 4 + b[2] / 64), Digit(b[2] % 64)]
  }

  function Encode(b: bytes): string {
    if b == [] then "" else if |b| <= 3 then Quad(b) else Quad(b[..3]) + Encode(b[3..])
  }

  lemma QuadIsBase64(b: bytes)
    requires 1 <= |b| <= 3
    ensures forall i | 0 <= i < 4 :: IsBase64Char(Quad(b)[i])
  {
    hide Digit;
  }

  /** A whole number of quads, of characters no JSON punctuation uses, and empty only for nothing. */
  lemma {:induction false} EncodeShape(b: bytes)
    ensures |Encode(b)| % 4 == 0 && (b == [] <==> Encode(b) == "")
    ensures forall c | c in Encode(b) :: IsBase64Char(c)
    decreases |b|
  {
    hide Quad, IsBase64Char;
    if b != [] {
      QuadIsBase64(if |b| <= 3 then b else b[..3]);
      if |b| > 3 { EncodeShape(b[3..]); }
    }
  }

  // ---- Decoding ----

  function Value(c: char): (n: Option<nat>)
    ensures n.Some? ==> n.value < 64
  {
    if 'A' <= c <= 'Z' then Some(c as int - 'A' as int)
    else if 'a' <= c <= 'z' then Some(c as int - 'a' as int + 26)
    else if '0' <= c <= '9' then Some(c as int - '0' as int + 52)
    else if c == '+' then Some(62) else if c == '/' then Some(63) else None
  }

  /** One to three bytes out of four characters; the bits behind the last byte are not looked at. */
  function Unquad(q: string): (b: Option<bytes>)
    requires |q| == 4
    ensures b.Some? ==> 1 <= |b.value| <= 3
  {
    var first :- Value(q[0]);
    var second :- Value(q[1]);
    if q[2] == '=' then (if q[3] == '=' then Some([first * 4 + second / 16]) else None) else
    var third :- Value(q[2]);
    if q[3] == '=' then Some([first * 4 + second / 16, second % 16 * 16 + third / 4]) else
    var fourth :- Value(q[3]);
    Some([first * 4 + second / 16, second % 16 * 16 + third / 4, third % 4 * 64 + fourth])
  }

  /** Padding ends the text. */
  function Decode(s: string): Option<bytes>
    decreases |s|
  {
    if s == "" then Some([]) else if |s| < 4 then None else
    var b :- Unquad(s[..4]);
    if |s| == 4 then Some(b) else if |b| < 3 then None else
    var more :- Decode(s[4..]);
    Some(b + more)
  }

  lemma ValueOfDigit(n: nat)
    requires n < 64
    ensures Value(Digit(n)) == Some(n)
  {
  }

  lemma SixteenParts(hi: nat, lo: nat)
    requires lo < 16
    ensures (hi * 16 + lo) / 16 == hi && (hi * 16 + lo) % 16 == lo
  {
  }

  lemma FourParts(hi: nat, lo: nat)
    requires lo < 4
    ensures (hi * 4 + lo) / 4 == hi && (hi * 4 + lo) % 4 == lo
  {
  }

  /** The sextets of three bytes give the bytes back. */
  lemma SextetsOf(x: byte, y: byte, z: byte)
    ensures var (s, t) := (x % 4 * 16 + y / 16, y % 16 * 4 + z / 64);
      && s < 64 && t < 64 && x / 4 * 4 + s / 16 == x && s % 16 * 16 + t / 4 == y && t % 4 * 64 + z % 64 == z
  {
    SixteenParts(x % 4, y / 16);
    FourParts(y % 16, z / 64);
  }

  lemma UnquadOfDigits(a: nat, b: nat, c: nat, d: nat)
    requires a < 64 && b < 64 && c < 64 && d < 64
    ensures Unquad([Digit(a), Digit(b), '=', '=']) == Some([a * 4 + b / 16])
    ensures Unquad([Digit(a), Digit(b), Digit(c), '=']) == Some([a * 4 + b / 16, b % 16 * 16 + c / 4])
    ensures Unquad([Digit(a), Digit(b), Digit(c), Digit(d)])
         == Some([a * 4 + b / 16, b % 16 * 16 + c / 4, c % 4 * 64 + d])
  {
    ValueOfDigit(a);
    ValueOfDigit(b);
    ValueOfDigit(c);
    ValueOfDigit(d);
    hide Value, Digit;
  }

  lemma UnquadOfQuad(b: bytes)
    requires 1 <= |b| <= 3
    ensures Unquad(Quad(b)) == Some(b)
  {
    hide Unquad, Digit;
    var x, y, z := b[0], if |b| > 1 then b[1] else 0, if |b| > 2 then b[2] else 0;
    SextetsOf(x, y, z);
    UnquadOfDigits(x / 4, x % 4 * 16 + y / 16, y % 16 * 4 + z / 64, z % 64);
    if |b| == 1 {
      assert b == [x];
    } else if |b| == 2 {
      assert b == [x, y];
    } else {
      assert b == [x, y, z];
    }
  }

  /** Whatever the bytes, decoding undoes encoding. */
  lemma {:induction false} DecodeOfEncode(b: bytes)
    ensures Decode(Encode(b)) == Some(b)
    decreases |b|
  {
    hide Quad, Unquad;
    if b != [] {
      var front := if |b| <= 3 then b else b[..3];
      UnquadOfQuad(front);
      assert Quad(front)[..4] == Quad(front);
      if |b| > 3 {
        DecodeOfEncode(b[3..]);
        EncodeShape(b[3..]);
        assert Encode(b)[..4] == Quad(front) && Encode(b)[4..] == Encode(b[3..]);
        assert b == front + b[3..];
      }
    }
  }

  /** So bytes with one text are the same. */
  lemma EncodeIsInjective(a: bytes, b: bytes)
    ensures Encode(a) == Encode(b) <==> a == b
  {
    DecodeOfEncode(a);
    DecodeOfEncode(b);
  }

  // ---- On literal text ----

  /** The test vectors of RFC 4648, section 10. */
  lemma TestVectors()
    ensures Encode([]) == "" && Encode([0x66]) == "Zg==" && Encode([0x66, 0x6F]) == "Zm8="
    ensures Encode([0x66, 0x6F, 0x6F]) == "Zm9v"
  {
  }

  lemma LongTestVector()
    ensures Encode([0x66, 0x6F, 0x6F, 0x62, 0x61, 0x72]) == "Zm9v" + "YmFy"
  {
    var b := [0x66, 0x6F, 0x6F, 0x62, 0x61, 0x72];
    assert b[..3] == [0x66, 0x6F, 0x6F] && b[3..] == [0x62, 0x61, 0x72];
    FirstQuad();
    SecondQuad();
    hide Quad;
  }

  lemma FirstQuad()
    ensures Quad([0x66, 0x6F, 0x6F]) == "Zm9v"
  {
  }

  lemma SecondQuad()
    ensures Quad([0x62, 0x61, 0x72]) == "YmFy"
  {
  }

  /** The alphabet: upper case, lower case, digits, plus and slash, in this order. */
  lemma AlphabetIs(n: nat)
    requires n < 64
    ensures n < 13 ==> Digit(n) == "ABCDEFGHIJKLM"[n]
    ensures 13 <= n < 26 ==> Digit(n) == "NOPQRSTUVWXYZ"[n - 13]
    ensures 26 <= n < 39 ==> Digit(n) == "abcdefghijklm"[n - 26]
    ensures 39 <= n < 52 ==> Digit(n) == "nopqrstuvwxyz"[n - 39]
    ensures 52 <= n ==> Digit(n) == "0123456789+/"[n - 52]
  {
  }
}
