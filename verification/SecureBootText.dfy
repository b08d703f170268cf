/**
 * The client's own Secure Boot findings as the object it puts in the evidence: thirteen fields, four of them text
 * that comes from certificates.
 */
module SecureBootText {
  import opened Bytes
  import opened Json
  import opened JsonRoundTrip
  import opened JsonNesting
  import opened EvidenceText
  import opened EventLog
  import opened SignatureList
  import opened ChainReport

  function Truth(b: bool): string { if b then "true" else "false" }

  /** The certificate the report names: the first of the last PK event, if it held one. */
  function PlatformKey(r: Report): CertInfo {
    if r.pkCerts == [] then CertInfo("", "", false, false, "") else r.pkCerts[0]
  }

  /** A problem's prose, in pieces; what is unrecognized about an OEM is named behind it. */
  function Prose(p: Problem): string {
    match p
    case SecureBootDisabled => "Secure Boot disabled"
    case NoPlatformKey => "No Platform Key"
    case UnknownOem => "Platform Key issuer " + ("not recognized as a " + "known OEM: ")
    case NoMicrosoftKek =>
      "KEK does not contain " + ("Microsoft's KEK " + ("certificate \U{2014} boot "
        + ("chain may not be " + "controlled by Microsoft")))
    case NoMicrosoftUefiCa =>
      "db does not contain " + ("Microsoft's UEFI CA " + ("\U{2014} only Microsoft-" + ("signed boot components "
        + ("are trusted on " + "standard systems"))))
  }

  const PASS_LEAD := "PASS: Secure Boot " + ("chain fully validated" + " \U{2014} PK from ")
  const PASS_TAIL := ", Microsoft UEFI CA " + ("in db, Microsoft " + "KEK present")

  /** The name the verdict quotes, if any. */
  function VerdictName(r: Report): string {
    match r.verdict
    case Failed(p) => if p.UnknownOem? then PlatformKey(r).subject else ""
    case Warned(p) => if p.UnknownOem? then PlatformKey(r).subject else ""
    case Passed(oem) => oem
  }

  function VerdictLead(r: Report): string {
    match r.verdict
    case Failed(p) => "FAIL: " + Prose(p)
    case Warned(p) => "WARNING: " + Prose(p)
    case Passed(_) => PASS_LEAD
  }

  function VerdictText(r: Report): string {
    VerdictLead(r) + (VerdictName(r) + (if r.verdict.Passed? then PASS_TAIL else ""))
  }

  /** In the ascending key order of the map. */
  function FindingsFields(r: Report, a: Analysis): (fs: seq<Field>)
    ensures |fs| == 13
  {
    [Field("dbHasMicrosoftUefiCa", Truth(r.dbHasUefiCa2011 || r.dbHasUefiCa2023)),
     Field("dbHasMicrosoftWindowsPca", Truth(r.dbHasWindowsPca2011)),
     Field("dbxHashCount", Decimal(r.dbxHashCount)), Field("kekHasMicrosoft", Truth(r.kekHasMicrosoft)),
     Field("pkIsKnownOem", Truth(r.pkIsKnownOem)), Field("pkIssuer", PlatformKey(r).issuer),
     Field("pkOemName", r.pkOemName), Field("pkSubject", PlatformKey(r).subject),
     Field("secureBootEnabled", Truth(r.secureBootEnabled)), Field("totalMeasurements", Decimal(|a.entries|)),
     Field("unknownCount", Decimal(a.unknownCount)), Field("verdict", VerdictText(r)),
     Field("verifiedCount", Decimal(a.verifiedCount))]
  }

  /** The text is that of a log's findings: "null" for no log. */
  ghost predicate IsFindingsOf(text: string, raw: bytes, decode: bytes -> CertInfo) {
    if raw == [] then text == "null" else
    exists r: Report, a: Analysis ::
      && IsReport(r, ToEntries(LogEvents(raw)), decode) && Summarises(a) && a.entries == ToEntries(LogEvents(raw))
      && text == Text(FindingsFields(r, a))
  }

  method SecureBootJson(raw: bytes, decode: bytes -> CertInfo) returns (json: string)
    requires |raw| < 0x1_0000_0000_0000_0000
    ensures IsFindingsOf(json, raw, decode)
  {
    hide Text, IsReport, Summarises, FindingsFields, ToEntries, LogEvents;
    json := "null";
    if raw != [] {
      var report := ValidateSecureBootChain(raw, decode);
      var analysis := ParseAndAnalyzeEventLog(raw);
      json := JsonBuild(FindingsFields(report, analysis));
    }
  }

  // ---- Bracket depth through an object ----

  /** Escaping adds no bracket and no comma. */
  lemma {:induction false} EscapeDepth(v: string, depth: nat)
    ensures BareDepth(Escape(v), depth) == BareDepth(v, depth)
  {
    if v != "" {
      var e, rest := EscapeChar(v[0]), Escape(v[1..]);
      CharDepth(v[0], v[1..], depth);
      EscapedCharDepth(v[0], depth);
      assert [v[0]] + v[1..] == v;
      DepthConcat(e, rest, depth);
      var d := BareDepth([v[0]], depth);
      if d != -1 { EscapeDepth(v[1..], d); }
    }
  }

  lemma CharDepth(c: char, rest: string, depth: nat)
    ensures BareDepth([c] + rest, depth)
         == if BareDepth([c], depth) == -1 then -1 else BareDepth(rest, BareDepth([c], depth))
  {
    DepthConcat([c], rest, depth);
  }

  lemma EscapedCharDepth(c: char, depth: nat)
    ensures BareDepth(EscapeChar(c), depth) == BareDepth([c], depth)
  {
    var e := EscapeChar(c);
    assert [c][1..] == "";
    if |e| == 2 { assert e[1..] == [e[1]] && [e[1]][1..] == ""; }
  }

  /** Quoted or spliced, a value leaves the depth where its own text does. */
  lemma ValueDepth(v: string, depth: nat)
    ensures BareDepth(ValueText(v), depth) == BareDepth(v, depth)
  {
    hide Escape, BareDepth;
    if !Spliced(v) {
      var e := Escape(v);
      EscapeDepth(v, depth);
      QuoteDepth(depth);
      DepthConcat("\"", e, depth);
      DepthConcat("\"" + e, "\"", depth);
      if BareDepth(e, depth) != -1 { QuoteDepth(BareDepth(e, depth)); }
    }
  }

  lemma QuoteDepth(depth: nat)
    ensures BareDepth("\"", depth) == depth
  {
    assert "\""[1..] == "";
  }

  /** Texts one behind the other, a comma behind each. */
  function Listed(texts: seq<string>): string {
    if texts == [] then "" else texts[0] + ("," + Listed(texts[1..]))
  }

  function Values(fields: seq<Field>): (vs: seq<string>)
    ensures |vs| == |fields| && forall i | 0 <= i < |vs| :: vs[i] == fields[i].value
  {
    if fields == [] then [] else [fields[0].value] + Values(fields[1..])
  }

  /** One text of the list: once the depth is down to zero, the comma behind it ends the scan. */
  lemma ListedStep(texts: seq<string>, i: nat, depth: nat)
    requires i < |texts| && depth > 0
    ensures var e := BareDepth(texts[i], depth);
      BareDepth(Listed(texts[i..]), depth) == if e <= 0 then -1 else BareDepth(Listed(texts[i + 1..]), e)
  {
    var t, rest := texts[i], Listed(texts[i + 1..]);
    assert texts[i..][1..] == texts[i + 1..];
    var tail := "," + rest;
    assert tail[0] == ',' && tail[1..] == rest;
    assert forall d: nat :: BareDepth(tail, d) == if d == 0 then -1 else BareDepth(rest, d);
    hide BareDepth;
    DepthConcat(t, tail, depth);
  }

  lemma {:induction false} ItemsDepthIs(fields: seq<Field>, first: bool, depth: nat)
    requires depth > 0 && forall f | f in fields :: Flat(f.key)
    ensures var d := BareDepth(Listed(Values(fields)), depth);
      BareDepth(Items(fields, first), depth) == if d <= 0 then -1 else d - 1
  {
    if fields == [] {
      assert "}"[1..] == "";
    } else {
      hide BareDepth, Flat, ValueText, Listed;
      assert fields[0] in fields;
      var f, tail := fields[0], fields[1..];
      var comma, head := if first then "" else ",", Quoted(f.key) + ":";
      var e := BareDepth(f.value, depth);
      assert Values(fields)[0..] == Values(fields) && Values(fields)[1..] == Values(tail);
      ListedStep(Values(fields), 0, depth);
      ValueDepth(f.value, depth);
      HeadDepth(comma, f.key, depth);
      DepthConcat(comma + head, ValueText(f.value), depth);
      DepthConcat((comma + head) + ValueText(f.value), Items(tail, false), depth);
      Regroup4(comma, head, ValueText(f.value), Items(tail, false));
      if e > 0 { ItemsDepthIs(tail, false, e); } else if e == 0 { StopsAtZero(tail); }
    }
  }

  lemma Regroup4(comma: string, head: string, v: string, rest: string)
    ensures (comma + (head + v)) + rest == ((comma + head) + v) + rest
  {
  }

  lemma HeadDepth(comma: string, k: string, depth: nat)
    requires depth > 0 && Flat(k) && (comma == "" || comma == ",")
    ensures BareDepth(comma + (Quoted(k) + ":"), depth) == depth
  {
    hide BareDepth;
    LevelDepth(comma + (Quoted(k) + ":"), depth);
  }

  lemma StopsAtZero(fields: seq<Field>)
    ensures BareDepth(Items(fields, false), 0) == -1
  {
    ItemsHead(fields);
  }

  /**
   * Exactly when an object delimits itself: when its values, one behind the other, bring the depth back to where it
   * was without the object closing between two of them. Quotes do not protect a bracket from the reader.
   */
  lemma TextDelimitsIff(fields: seq<Field>)
    requires forall f | f in fields :: Flat(f.key)
    ensures SelfDelimited(Text(fields)) <==> BareDepth(Listed(Values(fields)), 1) == 1
  {
    hide Flat, Items, Listed;
    ItemsDepthIs(fields, true, 1);
    assert Text(fields)[1..] == Items(fields, true);
  }

  // ---- The findings ----

  /**
   * The brackets of the issuer, the OEM's name, the subject and the name the verdict quotes, in this order, are
   * balanced.
   */
  predicate NamesBalance(r: Report) {
    BareDepth(Listed([PlatformKey(r).issuer, r.pkOemName, PlatformKey(r).subject, VerdictName(r)]), 1) == 1
  }

  lemma {:induction false} PlainRun(texts: seq<string>, i: nat, j: nat, depth: nat)
    requires i <= j <= |texts| && depth > 0 && forall n | i <= n < j :: Level(texts[n])
    ensures BareDepth(Listed(texts[i..]), depth) == BareDepth(Listed(texts[j..]), depth)
    decreases j - i
  {
    hide BareDepth, Listed, Level;
    if i < j {
      ListedStep(texts, i, depth);
      LevelDepth(texts[i], depth);
      PlainRun(texts, i + 1, j, depth);
    }
  }

  /** Four texts of thirteen, with nothing but level ones around them. */
  lemma FourTexts(ts: seq<string>, depth: nat)
    requires |ts| == 13 && depth > 0
    requires forall n | 0 <= n < 13 && n !in {5, 6, 7, 11} :: Level(ts[n])
    ensures BareDepth(Listed(ts), depth) == BareDepth(Listed([ts[5], ts[6], ts[7], ts[11]]), depth)
  {
    hide BareDepth, Listed, Level;
    var us := [ts[5], ts[6], ts[7], ts[11]];
    assert ts[0..] == ts && us[0..] == us && ts[13..] == us[4..];
    PlainRun(ts, 0, 5, depth);
    ListedStep(ts, 5, depth);
    ListedStep(us, 0, depth);
    var d := BareDepth(ts[5], depth);
    if d > 0 {
      ListedStep(ts, 6, d);
      ListedStep(us, 1, d);
      d := BareDepth(ts[6], d);
    }
    if d > 0 {
      ListedStep(ts, 7, d);
      ListedStep(us, 2, d);
      d := BareDepth(ts[7], d);
    }
    if d > 0 {
      PlainRun(ts, 8, 11, d);
      ListedStep(ts, 11, d);
      ListedStep(us, 3, d);
      d := BareDepth(ts[11], d);
    }
    if d > 0 { PlainRun(ts, 12, 13, d); }
  }

  // ---- The prose has no brackets ----

  /** Checked character by character, a short piece at a time. */
  predicate Bare(v: string) {
    forall i | 0 <= i < |v| :: v[i] <= 'Z' || 'a' <= v[i] <= 'z' || v[i] > '~'
  }

  lemma BareIsLevel(v: string)
    requires Bare(v)
    ensures Level(v)
  {
  }

  lemma BareConcat(a: string, b: string)
    ensures Bare(a) && Bare(b) ==> Bare(a + b)
  {
  }

  lemma LeadsAreBare()
    ensures Bare("") && Bare("FAIL: ") && Bare("WARNING: ")
  {
  }

  lemma BareThree(a: string, b: string, c: string)
    requires Bare(a) && Bare(b) && Bare(c)
    ensures Bare(a + (b + c))
  {
    hide Bare;
    BareConcat(b, c);
    BareConcat(a, b + c);
  }

  lemma BareFive(a: string, b: string, c: string, d: string, e: string)
    requires Bare(a) && Bare(b) && Bare(c) && Bare(d) && Bare(e)
    ensures Bare(a + (b + (c + (d + e))))
  {
    hide Bare;
    BareThree(c, d, e);
    BareThree(a, b, c + (d + e));
  }

  lemma PassWordsAreBare()
    ensures Bare("PASS: Secure Boot ") && Bare("chain fully validated") && Bare(" \U{2014} PK from ")
  {
  }

  lemma PassTailWordsAreBare()
    ensures Bare(", Microsoft UEFI CA ") && Bare("in db, Microsoft ") && Bare("KEK present")
  {
  }

  lemma PassIsBare()
    ensures Bare(PASS_LEAD) && Bare(PASS_TAIL)
  {
    hide Bare;
    PassWordsAreBare();
    BareThree("PASS: Secure Boot ", "chain fully validated", " \U{2014} PK from ");
    PassTailWordsAreBare();
    BareThree(", Microsoft UEFI CA ", "in db, Microsoft ", "KEK present");
  }

  lemma ProseIsBare(p: Problem)
    ensures Bare(Prose(p))
  {
    match p
    case SecureBootDisabled => ShortIsBare();
    case NoPlatformKey => ShortIsBare();
    case UnknownOem => OemIsBare();
    case NoMicrosoftKek => KekIsBare();
    case NoMicrosoftUefiCa => DbIsBare();
  }

  lemma ShortIsBare()
    ensures Bare(Prose(SecureBootDisabled)) && Bare(Prose(NoPlatformKey))
  {
  }

  lemma OemWordsAreBare()
    ensures Bare("Platform Key issuer ") && Bare("not recognized as a ") && Bare("known OEM: ")
  {
  }

  lemma OemIsBare()
    ensures Bare(Prose(UnknownOem))
  {
    hide Bare;
    OemWordsAreBare();
    BareThree("Platform Key issuer ", "not recognized as a ", "known OEM: ");
  }

  lemma KekWordsAreBare()
    ensures Bare("KEK does not contain ") && Bare("Microsoft's KEK ")
    ensures Bare("certificate \U{2014} boot ") && Bare("chain may not be ") && Bare("controlled by Microsoft")
  {
  }

  lemma KekIsBare()
    ensures Bare(Prose(NoMicrosoftKek))
  {
    hide Bare;
    KekWordsAreBare();
    BareFive("KEK does not contain ", "Microsoft's KEK ", "certificate \U{2014} boot ", "chain may not be ",
             "controlled by Microsoft");
  }

  lemma DbWordsAreBare()
    ensures Bare("db does not contain ") && Bare("Microsoft's UEFI CA ") && Bare("\U{2014} only Microsoft-")
  {
  }

  lemma MoreDbWordsAreBare()
    ensures Bare("signed boot components ") && Bare("are trusted on ") && Bare("standard systems")
  {
  }

  lemma DbIsBare()
    ensures Bare(Prose(NoMicrosoftUefiCa))
  {
    hide Bare;
    DbWordsAreBare();
    MoreDbWordsAreBare();
    BareConcat("are trusted on ", "standard systems");
    BareFive("db does not contain ", "Microsoft's UEFI CA ", "\U{2014} only Microsoft-", "signed boot components ",
             "are trusted on " + "standard systems");
  }

  lemma LeadIsLevel(r: Report)
    ensures Level(VerdictLead(r)) && Level(PASS_TAIL)
  {
    hide Bare, Prose, Level, PASS_LEAD, PASS_TAIL;
    LeadsAreBare();
    PassIsBare();
    BareIsLevel(PASS_TAIL);
    match r.verdict {
      case Failed(p) => ProseIsBare(p); BareConcat("FAIL: ", Prose(p));
      case Warned(p) => ProseIsBare(p); BareConcat("WARNING: ", Prose(p));
      case Passed(_) =>
    }
    BareIsLevel(VerdictLead(r));
  }

  /** The same depth, or neither goes on. */
  predicate Alike(d: int, e: int) { d == e || (d <= 0 && e <= 0) }

  /** Of a verdict only the name it quotes matters. */
  lemma VerdictDepth(r: Report, depth: nat)
    requires depth > 0
    ensures Alike(BareDepth(VerdictText(r), depth), BareDepth(VerdictName(r), depth))
  {
    hide BareDepth, VerdictLead, VerdictName, Level, PASS_TAIL;
    LeadIsLevel(r);
    LevelDepth(VerdictLead(r), depth);
    NothingIsLevel();
    var name, tail := VerdictName(r), if r.verdict.Passed? then PASS_TAIL else "";
    assert Level(tail);
    DepthConcat(VerdictLead(r), name + tail, depth);
    DepthConcat(name, tail, depth);
    var e := BareDepth(name, depth);
    if e > 0 {
      LevelDepth(tail, e);
    } else if e == 0 {
      DepthNeverOpens(tail);
    }
  }

  lemma NothingIsLevel()
    ensures Level("")
  {
  }

  /** Text without brackets never leaves depth zero. */
  lemma {:induction false} DepthNeverOpens(v: string)
    requires Level(v)
    ensures BareDepth(v, 0) <= 0
  {
    if v != "" {
      assert v[0] in v;
      DepthNeverOpens(v[1..]);
    }
  }

  lemma LastOfFour(us: seq<string>, n: string, depth: nat)
    requires |us| == 4 && depth > 0
    requires forall d: nat | d > 0 :: Alike(BareDepth(us[3], d), BareDepth(n, d))
    ensures BareDepth(Listed(us), depth) == BareDepth(Listed([us[0], us[1], us[2], n]), depth)
  {
    hide BareDepth, Listed;
    var vs := [us[0], us[1], us[2], n];
    assert us[0..] == us && vs[0..] == vs && us[4..] == vs[4..];
    ListedStep(us, 0, depth);
    ListedStep(vs, 0, depth);
    var d := BareDepth(us[0], depth);
    if d > 0 {
      ListedStep(us, 1, d);
      ListedStep(vs, 1, d);
      d := BareDepth(us[1], d);
    }
    if d > 0 {
      ListedStep(us, 2, d);
      ListedStep(vs, 2, d);
      d := BareDepth(us[2], d);
    }
    if d > 0 {
      ListedStep(us, 3, d);
      ListedStep(vs, 3, d);
    }
  }

  lemma FlatIsLevel(v: string)
    requires Flat(v)
    ensures Level(v)
  {
  }

  lemma TruthIsFlat(b: bool)
    ensures Flat(Truth(b)) && Truth(b)[0] in "tf"
  {
  }

  predicate IsFindingsText(i: int) { i == 5 || i == 6 || i == 7 || i == 11 }

  function FindingsKey(i: nat): (k: string)
    requires i < 13
  {
    ["dbHasMicrosoftUefiCa", "dbHasMicrosoftWindowsPca", "dbxHashCount", "kekHasMicrosoft", "pkIsKnownOem", "pkIssuer",
     "pkOemName", "pkSubject", "secureBootEnabled", "totalMeasurements", "unknownCount", "verdict", "verifiedCount"][i]
  }

  lemma FindingsKeys(r: Report, a: Analysis, i: nat)
    requires i < 13
    ensures FindingsFields(r, a)[i].key == FindingsKey(i)
  {
    hide VerdictText, Decimal, Truth;
  }

  lemma KeysAreAlphanumeric(i: nat)
    requires i < 13
    ensures Alphanumeric(FindingsKey(i))
  {
    if i < 5 { FirstKeys(); } else if i < 9 { MiddleKeys(); } else { LastKeys(); }
  }

  lemma FirstKeys()
    ensures forall i: nat | i < 5 :: Alphanumeric(FindingsKey(i))
  {
  }

  lemma MiddleKeys()
    ensures forall i: nat | 5 <= i < 9 :: Alphanumeric(FindingsKey(i))
  {
  }

  lemma LastKeys()
    ensures forall i: nat | 9 <= i < 13 :: Alphanumeric(FindingsKey(i))
  {
  }

  /** Length and third letter tell the keys apart. */
  lemma KeysDiffer(i: nat, j: nat)
    requires i < j < 13
    ensures FindingsKey(i) != FindingsKey(j)
  {
    assert |FindingsKey(i)| == |FindingsKey(j)| ==> FindingsKey(i)[2] != FindingsKey(j)[2];
  }

  lemma KeysAreLong(i: nat)
    requires i < 13
    ensures |FindingsKey(i)| > 5 && FindingsKey(i)[0] > '9'
  {
  }

  lemma FindingsNames(r: Report, a: Analysis)
    ensures WellNamed(FindingsFields(r, a))
    ensures forall f | f in FindingsFields(r, a) :: Flat(f.key)
  {
    hide FindingsFields, FindingsKey, KeyName, Flat, Alphanumeric;
    var fields := FindingsFields(r, a);
    forall i: nat | i < 13 ensures fields[i].key == FindingsKey(i) && KeyName(fields[i].key) && Flat(fields[i].key) {
      FindingsKeys(r, a, i);
      KeysAreAlphanumeric(i);
      AlphanumericIsName(FindingsKey(i));
    }
    forall i: nat, j: nat | i < j < 13 ensures FindingsKey(i) != FindingsKey(j) { KeysDiffer(i, j); }
  }

  ghost predicate IsPlain(v: string) {
    (exists b :: v == Truth(b)) || (exists n :: v == Decimal(n))
  }

  lemma TruthIsPlain(b: bool)
    ensures IsPlain(Truth(b))
  {
  }

  lemma DecimalIsPlain(n: nat)
    ensures IsPlain(Decimal(n))
  {
  }

  /** All but the four texts are numbers and truth values. */
  lemma FindingsArePlain(r: Report, a: Analysis, i: nat)
    requires i < 13 && !IsFindingsText(i)
    ensures IsPlain(FindingsFields(r, a)[i].value)
  {
    hide Truth, Decimal, VerdictText, IsPlain;
    forall b ensures IsPlain(Truth(b)) { TruthIsPlain(b); }
    forall n ensures IsPlain(Decimal(n)) { DecimalIsPlain(n); }
  }

  lemma PlainIsClear(v: string, i: nat)
    requires i < 13 && IsPlain(v)
    ensures Flat(v) && Clear(v, FindingsKey(i)) && Readable(v)
  {
    KeysAreLong(i);
    hide FindingsKey, Decimal, Clear, Flat, Readable;
    if b :| v == Truth(b) {
      TruthIsFlat(b);
    } else {
      var n :| v == Decimal(n);
      DecimalIsName(n);
      DecimalChars(n);
      assert v[0] <= '9';
    }
    FlatIsClear(v, FindingsKey(i));
    TidyReads(v);
  }

  /** Exactly when the findings delimit themselves, and so are read back from the end of the evidence. */
  lemma FindingsDelimitIff(r: Report, a: Analysis)
    ensures Spliced(Text(FindingsFields(r, a)))
    ensures SelfDelimited(Text(FindingsFields(r, a))) <==> NamesBalance(r)
  {
    hide FindingsFields, Flat, BareDepth, Listed, SelfDelimited, FindingsKey, Level, VerdictText, VerdictName;
    var fields := FindingsFields(r, a);
    var ts := Values(fields);
    FindingsNames(r, a);
    TextDelimitsIff(fields);
    forall n: nat | n < 13 && !IsFindingsText(n) ensures Level(ts[n]) {
      FindingsArePlain(r, a, n);
      PlainIsClear(fields[n].value, n);
      FlatIsLevel(ts[n]);
    }
    FourTexts(ts, 1);
    TheFourTexts(r, a);
    forall d: nat | d > 0
      ensures Alike(BareDepth(VerdictText(r), d), BareDepth(VerdictName(r), d))
    {
      VerdictDepth(r, d);
    }
    LastOfFour([ts[5], ts[6], ts[7], ts[11]], VerdictName(r), 1);
  }

  lemma TheFourTexts(r: Report, a: Analysis)
    ensures FindingsFields(r, a)[5].value == PlatformKey(r).issuer && FindingsFields(r, a)[6].value == r.pkOemName
    ensures FindingsFields(r, a)[7].value == PlatformKey(r).subject && FindingsFields(r, a)[11].value == VerdictText(r)
  {
    hide VerdictText, Decimal, Truth;
  }

  predicate TextsAreClear(fields: seq<Field>, i: nat)
    requires i < |fields|
  {
    forall j | 0 <= j < i && IsFindingsText(j) ::
      Clear(fields[j].value, fields[i].key) || (j == i - 1 && Points(fields[j].value, fields[i].key))
  }

  predicate IsReadBack(fields: seq<Field>, i: nat)
    requires i < |fields|
  {
    Get(Text(fields), fields[i].key) == fields[i].value
  }

  /**
   * A finding is read back, every readable value of it, exactly when the texts in front of it are clear of its name,
   * or the one right in front of it points to it. The rest never gets in the way.
   */
  lemma FindingReads(r: Report, a: Analysis, i: nat)
    requires i < 13
    ensures Unambiguous(FindingsFields(r, a), i) <==> TextsAreClear(FindingsFields(r, a), i)
    ensures (forall v | Readable(v) :: Get(Text(With(FindingsFields(r, a), i, v)), FindingsFields(r, a)[i].key) == v)
       <==> TextsAreClear(FindingsFields(r, a), i)
    ensures TextsAreClear(FindingsFields(r, a), i) ==>
      IsReadBack(FindingsFields(r, a), i) == Readable(FindingsFields(r, a)[i].value)
  {
    hide FindingsFields, Flat, Clear, Points, Readable, Get, Text, FindingsKey;
    var fields := FindingsFields(r, a);
    FindingsNames(r, a);
    FindingsKeys(r, a, i);
    forall j: nat | j < i && !IsFindingsText(j) ensures Clear(fields[j].value, fields[i].key) {
      FindingsArePlain(r, a, j);
      PlainIsClear(fields[j].value, i);
    }
    ReadsEveryValue(fields, i);
    if Unambiguous(fields, i) { GetUndoesBuild(fields, i); }
  }

  /** None of the four texts spells the key. */
  predicate Unspelled(r: Report, k: string) {
    && Clear(PlatformKey(r).issuer, k) && Clear(r.pkOemName, k) && Clear(PlatformKey(r).subject, k)
    && Clear(VerdictText(r), k)
  }

  lemma NamedReads(r: Report, a: Analysis, i: nat, k: string, v: string)
    requires i < 13 && FindingsFields(r, a)[i] == Field(k, v) && Readable(v) && (i <= 5 || Unspelled(r, k))
    ensures Get(Text(FindingsFields(r, a)), k) == v
  {
    hide FindingsFields, VerdictText, Clear, Points, Readable, Get, Text;
    TheFourTexts(r, a);
    FindingReads(r, a, i);
  }

  lemma TruthReads(r: Report, a: Analysis, i: nat, k: string, b: bool)
    requires i < 13 && FindingsFields(r, a)[i] == Field(k, Truth(b)) && (i <= 5 || Unspelled(r, k))
    ensures Get(Text(FindingsFields(r, a)), k) == if b then "true" else "false"
  {
    hide FindingsFields, Unspelled, Flat, Clear, Readable, Get, Text, FindingsKey;
    TruthIsPlain(b);
    PlainIsClear(Truth(b), 0);
    NamedReads(r, a, i, k, Truth(b));
  }

  lemma NumberReads(r: Report, a: Analysis, i: nat, k: string, n: nat)
    requires i < 13 && FindingsFields(r, a)[i] == Field(k, Decimal(n)) && (i <= 5 || Unspelled(r, k))
    ensures NumberOf(Get(Text(FindingsFields(r, a)), k)) == Some(n)
  {
    hide FindingsFields, Unspelled, Flat, Clear, Readable, Get, Text, FindingsKey, Decimal, NumberOf;
    DecimalIsPlain(n);
    PlainIsClear(Decimal(n), 0);
    NumberOfDecimal(n);
    NamedReads(r, a, i, k, Decimal(n));
  }

  /** What the first five findings say, under their names, of report and analysis. */
  lemma FindingsSayFirst(r: Report, a: Analysis)
    ensures var t := Text(FindingsFields(r, a));
      && Get(t, "dbHasMicrosoftUefiCa") == (if r.dbHasUefiCa2011 || r.dbHasUefiCa2023 then "true" else "false")
      && Get(t, "dbHasMicrosoftWindowsPca") == (if r.dbHasWindowsPca2011 then "true" else "false")
      && NumberOf(Get(t, "dbxHashCount")) == Some(r.dbxHashCount)
      && Get(t, "kekHasMicrosoft") == (if r.kekHasMicrosoft then "true" else "false")
      && Get(t, "pkIsKnownOem") == (if r.pkIsKnownOem then "true" else "false")
  {
    FirstPlaces(r, a);
    hide FindingsFields, Truth, Decimal, Get, Text, NumberOf, Unspelled;
    TruthReads(r, a, 0, "dbHasMicrosoftUefiCa", r.dbHasUefiCa2011 || r.dbHasUefiCa2023);
    TruthReads(r, a, 1, "dbHasMicrosoftWindowsPca", r.dbHasWindowsPca2011);
    NumberReads(r, a, 2, "dbxHashCount", r.dbxHashCount);
    TruthReads(r, a, 3, "kekHasMicrosoft", r.kekHasMicrosoft);
    TruthReads(r, a, 4, "pkIsKnownOem", r.pkIsKnownOem);
  }

  lemma FirstPlaces(r: Report, a: Analysis)
    ensures var fs := FindingsFields(r, a);
      && fs[0] == Field("dbHasMicrosoftUefiCa", Truth(r.dbHasUefiCa2011 || r.dbHasUefiCa2023))
      && fs[1] == Field("dbHasMicrosoftWindowsPca", Truth(r.dbHasWindowsPca2011))
      && fs[2] == Field("dbxHashCount", Decimal(r.dbxHashCount))
      && fs[3] == Field("kekHasMicrosoft", Truth(r.kekHasMicrosoft))
      && fs[4] == Field("pkIsKnownOem", Truth(r.pkIsKnownOem))
  {
    hide Truth, Decimal, VerdictText;
  }

  /** And those behind the texts, unless one of these spells their name. */
  lemma FindingsSayLast(r: Report, a: Analysis)
    ensures var t := Text(FindingsFields(r, a));
      && (Unspelled(r, "secureBootEnabled") ==>
            Get(t, "secureBootEnabled") == if r.secureBootEnabled then "true" else "false")
      && (Unspelled(r, "totalMeasurements") ==> NumberOf(Get(t, "totalMeasurements")) == Some(|a.entries|))
      && (Unspelled(r, "unknownCount") ==> NumberOf(Get(t, "unknownCount")) == Some(a.unknownCount))
      && (Unspelled(r, "verifiedCount") ==> NumberOf(Get(t, "verifiedCount")) == Some(a.verifiedCount))
  {
    LastPlaces(r, a);
    hide FindingsFields, Truth, Decimal, Get, Text, NumberOf, Unspelled;
    if Unspelled(r, "secureBootEnabled") { TruthReads(r, a, 8, "secureBootEnabled", r.secureBootEnabled); }
    if Unspelled(r, "totalMeasurements") { NumberReads(r, a, 9, "totalMeasurements", |a.entries|); }
    if Unspelled(r, "unknownCount") { NumberReads(r, a, 10, "unknownCount", a.unknownCount); }
    if Unspelled(r, "verifiedCount") { NumberReads(r, a, 12, "verifiedCount", a.verifiedCount); }
  }

  lemma LastPlaces(r: Report, a: Analysis)
    ensures var fs := FindingsFields(r, a);
      && fs[8] == Field("secureBootEnabled", Truth(r.secureBootEnabled))
      && fs[9] == Field("totalMeasurements", Decimal(|a.entries|))
      && fs[10] == Field("unknownCount", Decimal(a.unknownCount))
      && fs[12] == Field("verifiedCount", Decimal(a.verifiedCount))
  {
    hide Truth, Decimal, VerdictText;
  }

  /** The texts, as they are in the Platform Key and the verdict. */
  lemma FindingsSayTexts(r: Report, a: Analysis)
    ensures var t := Text(FindingsFields(r, a));
      && (Readable(PlatformKey(r).issuer) ==> Get(t, "pkIssuer") == PlatformKey(r).issuer)
      && (Unspelled(r, "pkOemName") && Readable(r.pkOemName) ==> Get(t, "pkOemName") == r.pkOemName)
      && (Unspelled(r, "pkSubject") && Readable(PlatformKey(r).subject) ==>
            Get(t, "pkSubject") == PlatformKey(r).subject)
      && (Unspelled(r, "verdict") && Readable(VerdictText(r)) ==> Get(t, "verdict") == VerdictText(r))
    ensures r.pkCerts == [] ==> PlatformKey(r).issuer == "" && PlatformKey(r).subject == ""
    ensures r.pkCerts != [] ==>
      PlatformKey(r).issuer == r.pkCerts[0].issuer && PlatformKey(r).subject == r.pkCerts[0].subject
  {
    TextPlaces(r, a);
    assert r.pkCerts != [] ==> PlatformKey(r) == r.pkCerts[0];
    assert r.pkCerts == [] ==> PlatformKey(r).issuer == "" && PlatformKey(r).subject == "";
    hide FindingsFields, Get, Text, Unspelled, Readable, VerdictText, PlatformKey;
    if Readable(PlatformKey(r).issuer) { NamedReads(r, a, 5, "pkIssuer", PlatformKey(r).issuer); }
    if Unspelled(r, "pkOemName") && Readable(r.pkOemName) { NamedReads(r, a, 6, "pkOemName", r.pkOemName); }
    if Unspelled(r, "pkSubject") && Readable(PlatformKey(r).subject) {
      NamedReads(r, a, 7, "pkSubject", PlatformKey(r).subject);
    }
    if Unspelled(r, "verdict") && Readable(VerdictText(r)) { NamedReads(r, a, 11, "verdict", VerdictText(r)); }
  }

  lemma TextPlaces(r: Report, a: Analysis)
    ensures var fs := FindingsFields(r, a);
      && fs[5] == Field("pkIssuer", PlatformKey(r).issuer) && fs[6] == Field("pkOemName", r.pkOemName)
      && fs[7] == Field("pkSubject", PlatformKey(r).subject) && fs[11] == Field("verdict", VerdictText(r))
  {
    hide Truth, Decimal, VerdictText;
  }

  /** How the verdict reads, by what the report found. */
  lemma VerdictSays(r: Report, es: seq<Entry>, decode: bytes -> CertInfo)
    requires IsReport(r, es, decode)
    ensures !r.secureBootEnabled ==> VerdictText(r) == "FAIL: " + "Secure Boot disabled"
    ensures r.secureBootEnabled && r.pkCerts == [] ==> VerdictText(r) == "FAIL: " + "No Platform Key"
    ensures r.secureBootEnabled && r.pkCerts != [] && !r.kekHasMicrosoft ==>
      "FAIL: " + "KEK does not contain " <= VerdictText(r)
    ensures r.secureBootEnabled && r.pkCerts != [] && r.kekHasMicrosoft && !r.chainValid ==>
      "FAIL: " + "db does not contain " <= VerdictText(r)
    ensures r.chainValid && !r.pkIsKnownOem ==> "WARNING: " + "Platform Key issuer " <= VerdictText(r)
    ensures r.chainValid && !r.pkIsKnownOem ==> EndsWith(VerdictText(r), r.pkCerts[0].subject)
    ensures r.chainValid && r.pkIsKnownOem ==> "PASS: Secure Boot " <= VerdictText(r)
    ensures r.chainValid && r.pkIsKnownOem ==> VerdictText(r) == PASS_LEAD + (r.pkOemName + PASS_TAIL)
  {
    VerdictIs(r, es, decode);
    match r.verdict {
      case Failed(p) => FailSays(r, p);
      case Warned(p) => WarnSays(r, p);
      case Passed(_) => PassSays(r);
    }
  }

  lemma VerdictIs(r: Report, es: seq<Entry>, decode: bytes -> CertInfo)
    requires IsReport(r, es, decode)
    ensures r.verdict ==
      if !r.secureBootEnabled then Failed(SecureBootDisabled)
      else if r.pkCerts == [] then Failed(NoPlatformKey)
      else if !r.kekHasMicrosoft then Failed(NoMicrosoftKek)
      else if !r.chainValid then Failed(NoMicrosoftUefiCa)
      else if !r.pkIsKnownOem then Warned(UnknownOem)
      else Passed(r.pkOemName)
    ensures r.chainValid ==> r.secureBootEnabled && r.pkCerts != [] && r.kekHasMicrosoft
  {
    hide LastSecureBoot, Gathered;
  }

  lemma FailSays(r: Report, p: Problem)
    requires r.verdict == Failed(p)
    ensures p == SecureBootDisabled ==> VerdictText(r) == "FAIL: " + "Secure Boot disabled"
    ensures p == NoPlatformKey ==> VerdictText(r) == "FAIL: " + "No Platform Key"
    ensures p == NoMicrosoftKek ==> "FAIL: " + "KEK does not contain " <= VerdictText(r)
    ensures p == NoMicrosoftUefiCa ==> "FAIL: " + "db does not contain " <= VerdictText(r)
  {
    var more := VerdictName(r) + "";
    assert VerdictText(r) == ("FAIL: " + Prose(p)) + more;
    if p == SecureBootDisabled || p == NoPlatformKey { Ends("FAIL: " + Prose(p), more); }
    if p == NoMicrosoftKek { Starts("FAIL: ", "KEK does not contain ", Prose(p)[|"KEK does not contain "|..], more); }
    if p == NoMicrosoftUefiCa { Starts("FAIL: ", "db does not contain ", Prose(p)[|"db does not contain "|..], more); }
  }

  lemma WarnSays(r: Report, p: Problem)
    requires r.verdict == Warned(p)
    ensures p == UnknownOem ==> "WARNING: " + "Platform Key issuer " <= VerdictText(r)
    ensures p == UnknownOem ==> EndsWith(VerdictText(r), PlatformKey(r).subject)
  {
    var more := VerdictName(r) + "";
    Ends(VerdictName(r), "");
    assert VerdictText(r) == ("WARNING: " + Prose(p)) + more;
    if p == UnknownOem { Starts("WARNING: ", "Platform Key issuer ", Prose(p)[|"Platform Key issuer "|..], more); }
  }

  lemma PassSays(r: Report)
    requires r.verdict.Passed?
    ensures "PASS: Secure Boot " <= VerdictText(r)
    ensures VerdictText(r) == PASS_LEAD + (r.verdict.oemName + PASS_TAIL)
  {
  }

  lemma Starts(a: string, b: string, c: string, d: string)
    ensures a + b <= (a + (b + c)) + d
  {
    assert (a + (b + c)) + d == (a + b) + (c + d);
  }

  lemma Ends(a: string, b: string)
    requires b == ""
    ensures a + b == a
  {
  }

  /** From inside the evidence: the findings text comes out exactly when the names in it balance. */
  lemma FindingsAreRecovered(e: Evidence, r: Report, a: Analysis)
    requires IdShaped(e.deviceId) && e.secureBoot == Text(FindingsFields(r, a))
    ensures Get(Text(EvidenceFields(e)), "secureBootChain") == Text(FindingsFields(r, a)) <==> NamesBalance(r)
  {
    hide FindingsFields, EvidenceFields, SelfDelimited, Text, Get, IdShaped, NamesBalance, Spliced, IsEvidenceField;
    FindingsDelimitIff(r, a);
    var last := |EvidenceFields(e)| - 1;
    EvidenceTail(e);
    EvidenceAt(e, last);
    EvidenceReadsBack(e, last);
  }
}
