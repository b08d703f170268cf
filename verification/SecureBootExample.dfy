/**
 * A log whose Secure Boot findings need not come out of the evidence: it depends on the brackets of the PK's issuer.
 */
module SecureBootExample {
  import opened Bytes
  import opened Json
  import opened JsonRoundTrip
  import opened JsonNesting
  import opened EvidenceText
  import opened EventLog
  import opened SignatureList
  import opened ChainReport
  import opened SecureBootText
  import X = ChainReportExample

  lemma OneName(c: CertInfo)
    ensures OemName([c]) == if c.isKnownOem then c.oemName else ""
  {
    assert [c][..0] == [];
  }

  lemma NothingIsLevel()
    ensures Level("")
  {
  }

  /** Of four names only the first has brackets. */
  lemma OnlyFirst(us: seq<string>)
    requires |us| == 4 && Level(us[1]) && Level(us[2]) && Level(us[3])
    ensures BareDepth(Listed(us), 1) == 1 <==> BareDepth(us[0], 1) == 1
  {
    assert Listed([]) == "" && BareDepth("", 1) == 1;
    hide BareDepth, Listed, Level;
    assert us[0..] == us && us[4..] == [];
    ListedStep(us, 0, 1);
    var d := BareDepth(us[0], 1);
    if d > 0 {
      PlainRun(us, 1, 4, d);
      NothingListed(d);
    }
  }

  lemma NothingListed(depth: nat)
    ensures BareDepth(Listed([]), depth) == depth
  {
  }

  /**
   * The log of a machine with a Microsoft certificate, its subject and OEM without brackets: the findings come out of
   * the evidence if and only if the brackets of the issuer's name are balanced.
   */
  lemma ComesOutIff(der: bytes, decode: bytes -> CertInfo, e: Evidence)
    requires 0 < |der| < MAX_CERT_BYTES && decode(der).isMicrosoft && IsUefiCa2011(decode(der))
    requires Level(decode(der).subject) && Level(decode(der).oemName) && IdShaped(e.deviceId)
    requires IsFindingsOf(e.secureBoot, X.ExampleLog(der), decode)
    ensures Get(Text(EvidenceFields(e)), "secureBootChain") == e.secureBoot <==> BareDepth(decode(der).issuer, 1) == 1
  {
    hide EvidenceFields, Text, Get, FindingsFields, IsReport, Summarises, ToEntries, LogEvents, IsUefiCa2011, IdShaped;
    hide BareDepth, Listed, Level, OemName, X.ExampleLog;
    var raw, c := X.ExampleLog(der), decode(der);
    assert raw != [] by { SomeLog(der); }
    var r: Report, a: Analysis :|
      && IsReport(r, ToEntries(LogEvents(raw)), decode) && Summarises(a) && a.entries == ToEntries(LogEvents(raw))
      && e.secureBoot == Text(FindingsFields(r, a));
    FindingsAreRecovered(e, r, a);
    X.ExampleReport(der, decode, r);
    OneName(c);
    NothingIsLevel();
    NameInVerdict(r, ToEntries(LogEvents(raw)), decode, c);
    OnlyFirst([c.issuer, r.pkOemName, c.subject, VerdictName(r)]);
  }

  lemma NameInVerdict(r: Report, es: seq<Entry>, decode: bytes -> CertInfo, c: CertInfo)
    requires IsReport(r, es, decode) && r.chainValid && r.pkCerts == [c]
    requires Level(c.subject) && Level(r.pkOemName)
    ensures Level(VerdictName(r))
  {
    hide Level, Gathered, LastSecureBoot;
    NothingIsLevel();
  }

  lemma SomeLog(der: bytes)
    requires 0 < |der| < MAX_CERT_BYTES
    ensures X.ExampleLog(der) != []
  {
    hide X.ExampleEvents;
    X.LogIsRead(der);
    NothingLogged();
  }

  lemma NothingLogged()
    ensures LogEvents([]) == []
  {
  }

  // ---- An issuer with a bracket ----

  const BRACKETED := CertInfo("Microsoft Corporation UEFI CA 2011", "CN={", true, false, "")

  lemma SubjectWordsAreBare()
    ensures Bare("Microsoft Corporat") && Bare("ion UEFI CA 2011")
  {
  }

  lemma SubjectIsLevel()
    ensures Level(BRACKETED.subject) && Level(BRACKETED.oemName)
  {
    hide Level, Bare;
    NothingIsLevel();
    SubjectWordsAreBare();
    var a, b := "Microsoft Corporat", "ion UEFI CA 2011";
    BareConcat(a, b);
    BareIsLevel(a + b);
    assert BRACKETED.subject == a + b;
  }

  lemma IsMicrosoftCa()
    ensures IsUefiCa2011(BRACKETED)
  {
    var s := BRACKETED.subject;
    assert s[0..] == s;
  }

  lemma IssuerIsOpen()
    ensures BareDepth(BRACKETED.issuer, 1) == 2
  {
    var s := "CN={";
    assert s[1..] == "N={" && "N={"[1..] == "={" && "={"[1..] == "{" && "{"[1..] == "";
  }

  /** A machine whose PK was issued by "{": the other end does not read the findings, but something else. */
  lemma BracketMisleads(e: Evidence)
    requires IdShaped(e.deviceId) && IsFindingsOf(e.secureBoot, X.ExampleLog([0]), _ => BRACKETED)
    ensures Get(Text(EvidenceFields(e)), "secureBootChain") != e.secureBoot
  {
    hide EvidenceFields, Text, Get, IsFindingsOf, IsUefiCa2011, IdShaped, BareDepth, Level, X.ExampleLog;
    SubjectIsLevel();
    IsMicrosoftCa();
    IssuerIsOpen();
    ComesOutIff([0], _ => BRACKETED, e);
  }
}
