/** What another program reads out of a PEM, and out of the array of several. */
module PemRoundTrip {
  import opened Bytes
  import opened Json
  import opened JsonValues
  import Base64

  // ---- A PEM ----

  const BEGIN := "-----BEGIN CERTIFICATE-----\n"
  const END := "\n-----END CERTIFICATE-----"

  /** Base64 between the two lines. */
  function ReadPem(s: string): Option<bytes> {
    if |s| < |BEGIN| + |END| || s[..|BEGIN|] != BEGIN || s[|s| - |END|..] != END then None
    else Base64.Decode(s[|BEGIN|..|s| - |END|])
  }

  lemma PemReads(der: bytes)
    ensures ReadPem(Pem(der)) == Some(der)
  {
    hide Base64.Encode, Base64.Decode;
    Base64.DecodeOfEncode(der);
    Between(BEGIN, Base64.Encode(der), END);
  }

  lemma Between(a: string, b: string, c: string)
    ensures var s := a + b + c;
      |s| >= |a| + |c| && s[..|a|] == a && s[|s| - |c|..] == c && s[|a|..|s| - |c|] == b
  {
  }

  // ---- An array of strings ----

  datatype Literal = Literal(value: string, rest: string)

  /** A string literal whose opening quote has been passed, and what is behind its closing one. */
  function ReadLiteral(s: string): (l: Option<Literal>)
    ensures l.Some? ==> |l.value.rest| < |s|
  {
    if s == "" then None
    else if s[0] == '"' then Some(Literal("", s[1..]))
    else if s[0] == '\\' && |s| > 1 then
      var more :- ReadLiteral(s[2..]);
      Some(Literal([if s[1] == 'n' then '\n' else s[1]] + more.value, more.rest))
    else
      var more :- ReadLiteral(s[1..]);
      Some(Literal([s[0]] + more.value, more.rest))
  }

  /** Literals with commas between them, up to the closing bracket, which ends the text. */
  function ReadStrings(s: string): Option<seq<string>>
    decreases |s|
  {
    if s == "" || s[0] != '"' then None else
    var l :- ReadLiteral(s[1..]);
    if l.rest == "]" then Some([l.value]) else if l.rest == "" || l.rest[0] != ',' then None else
    var more :- ReadStrings(l.rest[1..]);
    Some([l.value] + more)
  }

  function ReadArray(s: string): Option<seq<string>> {
    if s == "[]" then Some([]) else if s == "" || s[0] != '[' then None else ReadStrings(s[1..])
  }

  function ReadPems(ss: seq<string>): Option<seq<bytes>> {
    if ss == [] then Some([]) else
    var der :- ReadPem(ss[0]);
    var more :- ReadPems(ss[1..]);
    Some([der] + more)
  }

  /** The certificates in an array of PEMs. */
  function ReadChain(s: string): Option<seq<bytes>> {
    var ss :- ReadArray(s);
    ReadPems(ss)
  }

  lemma LiteralChar(c: char, t: string)
    requires ReadLiteral(t).Some?
    ensures ReadLiteral(EscapeChar(c) + t)
         == Some(Literal([c] + ReadLiteral(t).value.value, ReadLiteral(t).value.rest))
  {
    var e := EscapeChar(c);
    assert (e + t)[|e|..] == t;
  }

  lemma {:induction false} LiteralOfEscape(v: string, z: string)
    ensures ReadLiteral(Escape(v) + ("\"" + z)) == Some(Literal(v, z))
  {
    if v == "" {
      assert Escape(v) + ("\"" + z) == "\"" + z;
      assert ("\"" + z)[1..] == z;
    } else {
      LiteralOfEscape(v[1..], z);
      LiteralChar(v[0], Escape(v[1..]) + ("\"" + z));
      hide ReadLiteral, EscapeChar;
      Reassociate(EscapeChar(v[0]), Escape(v[1..]), "\"" + z);
      assert v == [v[0]] + v[1..];
    }
  }

  /** What follows an item: the rest of the items, each behind its comma, and the bracket. */
  function Following(certs: seq<bytes>): string {
    if certs == [] then "]" else "," + ("\"" + (Escape(Pem(certs[0])) + ("\"" + Following(certs[1..]))))
  }

  lemma {:induction false} ItemsFollow(certs: seq<bytes>, n: nat)
    requires 1 <= n <= |certs|
    ensures PemItems(certs) + "]" == PemItems(certs[..n]) + Following(certs[n..])
    decreases |certs| - n
  {
    hide Escape, Pem;
    if n == |certs| {
      assert certs[..n] == certs;
    } else {
      ItemsFollow(certs, n + 1);
      assert certs[..n + 1][..n] == certs[..n] && certs[n..][0] == certs[n] && certs[n..][1..] == certs[n + 1..];
      var (front, e, more) := (PemItems(certs[..n]), Escape(Pem(certs[n])), Following(certs[n + 1..]));
      assert PemItems(certs[..n + 1]) == front + ("," + ("\"" + e + "\""));
      hide PemItems, PemItem, Following;
      Rebracket(front, e, more);
    }
  }

  lemma Rebracket(front: string, e: string, more: string)
    ensures (front + ("," + ("\"" + e + "\""))) + more == front + ("," + ("\"" + (e + ("\"" + more))))
  {
  }

  lemma {:induction false} StringsOf(certs: seq<bytes>)
    requires certs != []
    ensures ReadStrings("\"" + (Escape(Pem(certs[0])) + ("\"" + Following(certs[1..])))) == Some(Pems(certs))
  {
    hide Escape, Pem, ReadLiteral;
    var (e, more) := (Escape(Pem(certs[0])), Following(certs[1..]));
    var s := "\"" + (e + ("\"" + more));
    LiteralOfEscape(Pem(certs[0]), more);
    assert s[0] == '"' && s[1..] == e + ("\"" + more);
    if |certs| > 1 {
      StringsOf(certs[1..]);
      assert more[0] == ',' && more != "]";
      assert more[1..] == "\"" + (Escape(Pem(certs[1..][0])) + ("\"" + Following(certs[1..][1..])));
    } else {
      assert more == "]" && Pems(certs) == [Pem(certs[0])];
    }
  }

  function Pems(certs: seq<bytes>): seq<string> {
    if certs == [] then [] else [Pem(certs[0])] + Pems(certs[1..])
  }

  lemma {:induction false} PemsRead(certs: seq<bytes>)
    ensures ReadPems(Pems(certs)) == Some(certs)
  {
    hide Pem, ReadPem;
    if certs != [] {
      PemReads(certs[0]);
      PemsRead(certs[1..]);
      assert Pems(certs)[1..] == Pems(certs[1..]) && [certs[0]] + certs[1..] == certs;
    }
  }

  lemma ArrayText(certs: seq<bytes>)
    requires certs != []
    ensures PemArray(certs) == "[" + ("\"" + (Escape(Pem(certs[0])) + ("\"" + Following(certs[1..]))))
  {
    hide Escape, Pem;
    ItemsFollow(certs, 1);
    var (e, more) := (Escape(Pem(certs[0])), Following(certs[1..]));
    assert certs[..1][..0] == [] && certs[..1][0] == certs[0];
    assert PemItems(certs[..1]) == "" + ("" + ("\"" + e + "\""));
    hide PemItems, PemItem, Following;
    assert PemArray(certs) == "[" + (PemItems(certs) + "]");
    Rejoin(e, more);
  }

  lemma Rejoin(e: string, more: string)
    ensures ("" + ("" + ("\"" + e + "\""))) + more == "\"" + (e + ("\"" + more))
  {
  }

  /** Whatever the certificates, the array reads as exactly those, in order. */
  lemma ChainReads(certs: seq<bytes>)
    ensures ReadChain(PemArray(certs)) == Some(certs)
  {
    hide Escape, Pem, ReadStrings, ReadPems, Following;
    PemsRead(certs);
    if certs == [] {
      assert PemArray(certs) == "[]" && Pems(certs) == [];
    } else {
      StringsOf(certs);
      ArrayText(certs);
      var t := "\"" + (Escape(Pem(certs[0])) + ("\"" + Following(certs[1..])));
      assert ("[" + t)[1..] == t && ("[" + t)[1] == '"';
    }
  }
}
