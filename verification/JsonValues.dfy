/** The values this library puts in JSON: Base64 text, the PEM of a certificate, and the raw array of several. */
module JsonValues {
  import opened Bytes
  import opened Json
  import opened JsonRoundTrip
  import opened JsonNesting
  import Base64

  // ---- Base64 ----

  lemma Base64IsFlat(b: bytes)
    ensures Flat(Base64.Encode(b)) && Tidy(Base64.Encode(b))
  {
    hide Base64.Encode;
    Base64.EncodeShape(b);
  }

  /** Base64 is a whole number of quads, so it can only be taken for a key of such a length. */
  lemma Base64IsClear(b: bytes, k: string)
    requires |k| % 4 != 0 || Base64.Encode(b) != k
    ensures Clear(Base64.Encode(b), k)
  {
    hide Base64.Encode, Clear, Flat;
    Base64.EncodeShape(b);
    Base64IsFlat(b);
    FlatIsClear(Base64.Encode(b), k);
  }

  // ---- PEM ----

  function Pem(der: bytes): string {
    "-----BEGIN CERTIFICATE-----\n" + Base64.Encode(der) + "\n-----END CERTIFICATE-----"
  }

  function PemItem(der: bytes, first: bool): string {
    (if first then "" else ",") + ("\"" + Escape(Pem(der)) + "\"")
  }

  function PemItems(certs: seq<bytes>): string {
    if certs == [] then "" else
    var last := |certs| - 1;
    PemItems(certs[..last]) + PemItem(certs[last], last == 0)
  }

  /** ekCertificateChain: a raw JSON array, which JsonBuild embeds verbatim. */
  function PemArray(certs: seq<bytes>): string {
    "[" + PemItems(certs) + "]"
  }

  method BuildPemArray(certs: seq<bytes>) returns (json: string)
    ensures json == PemArray(certs)
  {
    hide PemItem;
    json := "[";
    for i := 0 to |certs|
      invariant json == "[" + PemItems(certs[..i])
    {
      assert certs[..i + 1][..i] == certs[..i];
      Reassociate("[", PemItems(certs[..i]), PemItem(certs[i], i == 0));
      json := AppendPem(json, i == 0, certs[i]);
    }
    assert certs[..|certs|] == certs;
    json := json + "]";
  }

  /** One round of the loop. */
  method AppendPem(start: string, first: bool, der: bytes) returns (json: string)
    ensures json == start + PemItem(der, first)
  {
    hide Pem, Escape;
    json := start;
    if !first { json := json + ","; }
    json := json + "\"";
    json := AppendEscaped(json, Pem(der));
    json := json + "\"";
    Regroup(start, if first then "" else ",", "\"", Escape(Pem(der)));
    Reassociate(start, (if first then "" else ",") + ("\"" + Escape(Pem(der))), "\"");
  }

  // ---- The array is one value, and no key occurs in it ----

  predicate IsPemChar(c: char) {
    Base64.IsBase64Char(c) || c == '-' || c == ' ' || c == '\n'
  }

  lemma PemChars(der: bytes)
    ensures forall c | c in Pem(der) :: IsPemChar(c)
    ensures Pem(der) != "" && Pem(der)[0] == '-'
  {
    Base64.EncodeShape(der);
    hide Base64.Encode;
    assert forall c | c in "-----BEGIN CERTIFICATE-----\n" :: IsPemChar(c);
    assert forall c | c in "\n-----END CERTIFICATE-----" :: IsPemChar(c);
  }

  lemma {:induction false} EscapedPem(v: string)
    requires forall c | c in v :: IsPemChar(c)
    ensures forall c | c in Escape(v) :: c == '\\' || IsPemChar(c)
  {
    if v != "" {
      assert v[0] in v;
      EscapedPem(v[1..]);
    }
  }

  /** No quote in the text is the opening quote of a key: what follows each opens a PEM or ends an item. */
  ghost predicate QuotesLead(s: string) {
    forall i | 0 <= i < |s| - 1 && s[i] == '"' :: s[i + 1] in "-,]"
  }

  lemma QuotesConcat(a: string, b: string)
    requires QuotesLead(a) && QuotesLead(b) && (b == "" || b[0] in "-,]")
    ensures QuotesLead(a + b)
  {
    forall i | 0 <= i < |a + b| - 1 && (a + b)[i] == '"' ensures (a + b)[i + 1] in "-,]" {
      if i < |a| - 1 {
        assert a[i] == '"';
      } else if i >= |a| {
        assert b[i - |a|] == '"';
      }
    }
  }

  lemma ItemShape(der: bytes, first: bool)
    ensures var s := PemItem(der, first);
      && s != "" && QuotesLead(s) && Level(s)
      && (first || s[0] == ',')
  {
    hide Pem, Escape;
    PemChars(der);
    EscapedPem(Pem(der));
    EscapeHead(Pem(der));
    var e := Escape(Pem(der));
    assert '"' !in e && Level(e) && e[0] == '-';
  }

  lemma EscapeHead(v: string)
    requires v != "" && v[0] == '-'
    ensures Escape(v) != "" && Escape(v)[0] == '-'
  {
  }

  lemma {:induction false} ItemsShape(certs: seq<bytes>)
    ensures QuotesLead(PemItems(certs)) && Level(PemItems(certs))
  {
    hide Pem, Escape;
    if certs == [] {
      NoItems(certs);
    } else {
      var last := |certs| - 1;
      var front, item := PemItems(certs[..last]), PemItem(certs[last], last == 0);
      assert PemItems(certs) == front + item;
      hide PemItem, PemItems, QuotesLead;
      ItemsShape(certs[..last]);
      ItemShape(certs[last], last == 0);
      if last == 0 {
        NoItems(certs[..last]);
        assert front + item == item;
      } else {
        QuotesConcat(front, item);
      }
    }
  }

  lemma NoItems(certs: seq<bytes>)
    requires certs == []
    ensures PemItems(certs) == ""
  {
  }

  /** The array is spliced, delimits itself, and contains no key's quoted name. */
  lemma ArrayIsClear(certs: seq<bytes>, k: string)
    requires KeyName(k) && k[0] !in "-,]"
    ensures Spliced(PemArray(certs)) && SelfDelimited(PemArray(certs)) && Clear(PemArray(certs), k)
  {
    hide PemItems, QuotesLead, Level, BareDepth, Contains;
    var items, s := PemItems(certs), PemArray(certs);
    ItemsShape(certs);
    LevelDepth(items, 1);
    DepthConcat(items, "]", 1);
    assert s[1..] == items + "]";
    ClosesArray();
    OpensArray(s);
    BracketsLead(items);
    NoLeadingQuote(s, k);
  }

  lemma ClosesArray()
    ensures BareDepth("]", 1) == 0
  {
    assert "]"[1..] == "";
  }

  lemma OpensArray(s: string)
    requires s != "" && s[0] == '['
    ensures BareDepth(s, 0) == BareDepth(s[1..], 1)
  {
  }

  lemma BracketsLead(items: string)
    requires QuotesLead(items)
    ensures QuotesLead("[" + items + "]")
  {
    QuotesConcat(items, "]");
    var s := "[" + items + "]";
    assert s == "[" + (items + "]");
    forall i | 0 <= i < |s| - 1 && s[i] == '"' ensures s[i + 1] in "-,]" {
      assert (items + "]")[i - 1] == '"';
    }
  }

  lemma NoLeadingQuote(s: string, k: string)
    requires KeyName(k) && k[0] !in "-,]" && QuotesLead(s)
    ensures !Contains(s, Quoted(k))
  {
    hide Find;
    if Contains(s, Quoted(k)) {
      var at := Find(s, Quoted(k), 0);
      FindIsFirst(s, Quoted(k), 0);
      AtChars(s, k, at);
      assert false;
    }
  }

  /** A PEM is quoted, and can be mistaken for no key. */
  lemma PemIsClear(der: bytes, k: string)
    requires KeyName(k) && k[0] != '-'
    ensures !Spliced(Pem(der)) && Clear(Pem(der), k)
  {
    hide Pem, Contains;
    PemChars(der);
    if EndsWith(Pem(der), "\"" + k) { EndHasQuote(Pem(der), k); }
  }
}
