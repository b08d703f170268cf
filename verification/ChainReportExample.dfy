/**
 * A log whose db is measured twice, the second time empty: the report calls the chain valid with no db certificate in
 * it.
 */
module ChainReportExample {
  import opened Bytes
  import opened EfiVariable
  import opened EventLog
  import opened SignatureList
  import opened ChainReport
  import L = EventLogRoundTrip
  import S = SignatureListRoundTrip

  /** The variables of the example. */
  predicate IsName(name: string) {
    name == "SecureBoot" || name == "PK" || name == "KEK" || name == "db"
  }

  lemma NameIsAscii(name: string)
    requires IsName(name)
    ensures |name| < 32 && forall i | 0 <= i < |name| :: 0 < name[i] as int < 128
  {
  }

  function VariableEvent(name: string, data: bytes): Event
    requires IsName(name) && |data| < 0x1_0000_0000
  {
    NameIsAscii(name);
    Event(7, EV_EFI_VARIABLE_DRIVER_CONFIG, [], Encode(seq(16, _ => 0), Variable(Ucs2(name), data)))
  }

  lemma EventReads(name: string, data: bytes)
    requires IsName(name) && |data| < 0x2_0000
    ensures var e := VariableEvent(name, data);
      && L.WellFormed(e) && Parse(e.data) == Some(Variable(Ucs2(name), data)) && EventVariableName(e.data) == name
  {
    hide Parse, NameText, Ucs2, Le64;
    NameIsAscii(name);
    var e, v := VariableEvent(name, data), Variable(Ucs2(name), data);
    ParseOfEncode(seq(16, _ => 0), v, []);
    assert e.data + [] == e.data;
    NameOfUcs2(name, []);
    assert Ucs2(name) + [] == Ucs2(name);
  }

  /** A signature list with one X.509 certificate. */
  function CertList(der: bytes): S.SigList {
    S.SigList(EFI_CERT_X509_GUID, [], OWNER_BYTES + |der|, [S.Signature(seq(OWNER_BYTES, _ => 0), der)])
  }

  lemma CertListPrints(der: bytes)
    requires 0 < |der| < MAX_CERT_BYTES
    ensures S.WellFormed(CertList(der)) && |S.PrintAll([CertList(der)])| < 0x2_0000
  {
    var l := CertList(der);
    assert l.signatures[1..] == [];
    assert S.PrintSignatures(l.signatures) == (l.signatures[0].owner + der) + S.PrintSignatures([]);
    assert [l][1..] == [];
    assert S.PrintAll([l]) == S.Print(l) + S.PrintAll([]);
  }

  /** The variable holding that list: what is found in it is the certificate. */
  lemma CertIsFound(name: string, der: bytes, decode: bytes -> CertInfo)
    requires IsName(name) && 0 < |der| < MAX_CERT_BYTES && decode(der).subject != ""
    requires S.WellFormed(CertList(der)) && |S.PrintAll([CertList(der)])| < 0x2_0000
    ensures InVariable(VariableEvent(name, S.PrintAll([CertList(der)])).data, decode).certs == [decode(der)]
  {
    hide InVariable, Encode, Ucs2, S.PrintAll, S.WellFormed;
    NameIsAscii(name);
    var l, e := CertList(der), VariableEvent(name, S.PrintAll([CertList(der)]));
    S.InVariableOfPrint(seq(16, _ => 0), Ucs2(name), [l], [], decode);
    assert e.data + [] == e.data;
    OneCert(l, der, decode);
  }

  lemma OneCert(l: S.SigList, der: bytes, decode: bytes -> CertInfo)
    requires l == CertList(der) && 0 < |der| < MAX_CERT_BYTES && decode(der).subject != ""
    ensures S.AllContents([l], decode).certs == [decode(der)]
  {
    assert [l][1..] == [] && l.signatures[1..] == [];
    assert S.CertsOf(l.signatures, decode) == CertOf(der, decode) + S.CertsOf([], decode);
  }

  lemma NothingIsFound(name: string, decode: bytes -> CertInfo)
    requires IsName(name)
    ensures InVariable(VariableEvent(name, []).data, decode).certs == []
  {
    EventReads(name, []);
    hide Parse, Encode, VariableEvent;
  }

  // ---- The log ----

  function KeyEvent(name: string, der: bytes): Event
    requires IsName(name) && 0 < |der| < MAX_CERT_BYTES
  {
    CertListPrints(der);
    VariableEvent(name, S.PrintAll([CertList(der)]))
  }

  /** Secure Boot on; PK, KEK and db with one certificate each; then db again, empty. */
  function ExampleEvents(der: bytes): (es: seq<Event>)
    requires 0 < |der| < MAX_CERT_BYTES
    ensures |es| == 5
  {
    [VariableEvent("SecureBoot", [1]), KeyEvent("PK", der), KeyEvent("KEK", der), KeyEvent("db", der),
     VariableEvent("db", [])]
  }

  predicate Reads(e: Event, name: string) {
    e.pcrIndex == 7 && e.eventType == EV_EFI_VARIABLE_DRIVER_CONFIG && EventVariableName(e.data) == name
    && L.WellFormed(e)
  }

  lemma IsOn()
    ensures SecureBootValue(VariableEvent("SecureBoot", [1]).data)
    ensures Reads(VariableEvent("SecureBoot", [1]), "SecureBoot")
  {
    EventReads("SecureBoot", [1]);
    hide Parse, EventVariableName, Encode, Ucs2, L.WellFormed;
  }

  lemma KeyReads(name: string, der: bytes, decode: bytes -> CertInfo)
    requires IsName(name) && 0 < |der| < MAX_CERT_BYTES && decode(der).subject != ""
    ensures Reads(KeyEvent(name, der), name) && InVariable(KeyEvent(name, der).data, decode).certs == [decode(der)]
  {
    hide Parse, InVariable, EventVariableName, Encode, S.PrintAll, S.WellFormed, L.WellFormed, CertList, IsName;
    CertListPrints(der);
    EventReads(name, S.PrintAll([CertList(der)]));
    CertIsFound(name, der, decode);
  }

  lemma EmptyReads(name: string, decode: bytes -> CertInfo)
    requires IsName(name)
    ensures Reads(VariableEvent(name, []), name) && InVariable(VariableEvent(name, []).data, decode).certs == []
  {
    hide Parse, InVariable, EventVariableName, Encode, L.WellFormed, IsName;
    EventReads(name, []);
    NothingIsFound(name, decode);
  }

  lemma ExampleReads(der: bytes, decode: bytes -> CertInfo)
    requires 0 < |der| < MAX_CERT_BYTES && decode(der).subject != ""
    ensures var es := ExampleEvents(der);
      && Reads(es[0], "SecureBoot") && Reads(es[1], "PK") && Reads(es[2], "KEK") && Reads(es[3], "db")
      && Reads(es[4], "db")
      && SecureBootValue(es[0].data)
      && InVariable(es[1].data, decode).certs == InVariable(es[2].data, decode).certs
           == InVariable(es[3].data, decode).certs
           == [decode(der)]
      && InVariable(es[4].data, decode).certs == []
  {
    hide InVariable, KeyEvent, VariableEvent, Reads, SecureBootValue;
    IsOn();
    KeyReads("PK", der, decode);
    KeyReads("KEK", der, decode);
    KeyReads("db", der, decode);
    EmptyReads("db", decode);
  }

  lemma ExampleIsWellFormed(der: bytes)
    requires 0 < |der| < MAX_CERT_BYTES
    ensures forall e | e in ExampleEvents(der) :: L.WellFormed(e)
  {
    hide VariableEvent, L.WellFormed, KeyEvent;
    KeyIsWellFormed("PK", der);
    KeyIsWellFormed("KEK", der);
    KeyIsWellFormed("db", der);
    PlainIsWellFormed("SecureBoot", [1]);
    PlainIsWellFormed("db", []);
  }

  lemma KeyIsWellFormed(name: string, der: bytes)
    requires IsName(name) && 0 < |der| < MAX_CERT_BYTES
    ensures L.WellFormed(KeyEvent(name, der))
  {
    hide Parse, Encode, S.PrintAll, S.WellFormed, L.WellFormed, CertList, IsName, VariableEvent;
    CertListPrints(der);
    EventReads(name, S.PrintAll([CertList(der)]));
  }

  lemma PlainIsWellFormed(name: string, data: bytes)
    requires IsName(name) && |data| < 0x2_0000
    ensures L.WellFormed(VariableEvent(name, data))
  {
    hide Parse, Encode, L.WellFormed, VariableEvent;
    EventReads(name, data);
  }

  function ExampleLog(der: bytes): bytes
    requires 0 < |der| < MAX_CERT_BYTES
  {
    ExampleIsWellFormed(der);
    L.PrintHeader(0, L.ZeroDigest(), []) + (L.PrintAll(ExampleEvents(der)) + [])
  }

  /** What the fold over the five entries finds of one variable. */
  lemma FiveEntries(es: seq<Entry>, which: KeyVariable, decode: bytes -> CertInfo)
    requires |es| == 5 && !Matches(es[0], which)
    ensures AllCerts(es, which, decode)
         == (((CertsIf(es[1], which, decode) + CertsIf(es[2], which, decode)) + CertsIf(es[3], which, decode))
              + CertsIf(es[4], which, decode))
    ensures LastFound(es, which, decode).certs ==
      if Matches(es[4], which) then InVariable(es[4].eventData, decode).certs
      else if Matches(es[3], which) then InVariable(es[3].eventData, decode).certs
      else if Matches(es[2], which) then InVariable(es[2].eventData, decode).certs
      else if Matches(es[1], which) then InVariable(es[1].eventData, decode).certs
      else []
  {
    hide Matches, InVariable, LastFound, AllCerts, CertsIf;
    var p1 := [es[0]];
    var p2 := p1 + [es[1]];
    var p3 := p2 + [es[2]];
    var p4 := p3 + [es[3]];
    assert es == p4 + [es[4]];
    NoEntries(which, decode);
    OneMore([], es[0], which, decode);
    assert [] + [es[0]] == p1;
    OneMore(p1, es[1], which, decode);
    OneMore(p2, es[2], which, decode);
    OneMore(p3, es[3], which, decode);
    OneMore(p4, es[4], which, decode);
    assert CertsIf(es[0], which, decode) == [] by { NoCertsOf(es[0], which, decode); }
    assert [] + CertsIf(es[1], which, decode) == CertsIf(es[1], which, decode);
  }

  lemma NoCertsOf(e: Entry, which: KeyVariable, decode: bytes -> CertInfo)
    requires !Matches(e, which)
    ensures CertsIf(e, which, decode) == []
  {
  }

  lemma OneMore(es: seq<Entry>, e: Entry, which: KeyVariable, decode: bytes -> CertInfo)
    ensures AllCerts(es + [e], which, decode) == AllCerts(es, which, decode) + CertsIf(e, which, decode)
    ensures LastFound(es + [e], which, decode).certs ==
      if Matches(e, which) then InVariable(e.eventData, decode).certs else LastFound(es, which, decode).certs
  {
    hide Matches, InVariable;
    StepFor(es, e, which, decode);
    assert AllCerts(es, which, decode) + [] == AllCerts(es, which, decode);
  }

  lemma NoEntries(which: KeyVariable, decode: bytes -> CertInfo)
    ensures LastFound([], which, decode) == Found([], 0) && AllCerts([], which, decode) == []
  {
  }

  function CertsIf(e: Entry, which: KeyVariable, decode: bytes -> CertInfo): seq<CertInfo> {
    if Matches(e, which) then InVariable(e.eventData, decode).certs else []
  }

  predicate IsEntryOf(e: Entry, name: string) {
    e.pcrIndex == 7 && e.eventType == EV_EFI_VARIABLE_DRIVER_CONFIG && EventVariableName(e.eventData) == name
  }

  lemma EntryMatches(e: Entry, name: string, which: KeyVariable)
    requires IsEntryOf(e, name)
    ensures Matches(e, which) <==> Named(name) == which
    ensures IsSecureBootEvent(e) <==> name == "SecureBoot"
  {
    hide EventVariableName, Named;
  }

  lemma Names()
    ensures Named("SecureBoot") == OtherVariable && Named("PK") == PK && Named("KEK") == KEK && Named("db") == Db
    ensures "PK" != "SecureBoot" && "KEK" != "SecureBoot" && "db" != "SecureBoot"
  {
  }

  predicate AreEntriesOf(es: seq<Entry>) {
    && |es| == 5 && IsEntryOf(es[0], "SecureBoot") && IsEntryOf(es[1], "PK") && IsEntryOf(es[2], "KEK")
    && IsEntryOf(es[3], "db") && IsEntryOf(es[4], "db")
  }

  lemma EntriesMatch(es: seq<Entry>, which: KeyVariable)
    requires AreEntriesOf(es) && which != OtherVariable
    ensures !Matches(es[0], which) && (Matches(es[1], which) <==> which == PK)
    ensures Matches(es[2], which) <==> which == KEK
    ensures (Matches(es[3], which) <==> which == Db) && (Matches(es[4], which) <==> which == Db)
    ensures IsSecureBootEvent(es[0]) && forall i | 1 <= i < 5 :: !IsSecureBootEvent(es[i])
  {
    hide IsEntryOf, Matches, IsSecureBootEvent, Named;
    Names();
    EntryMatches(es[0], "SecureBoot", which);
    EntryMatches(es[1], "PK", which);
    EntryMatches(es[2], "KEK", which);
    EntryMatches(es[3], "db", which);
    EntryMatches(es[4], "db", which);
  }

  /** PK and KEK are the certificate's; of db the flags are, and the list is empty. */
  lemma WhatIsFound(es: seq<Entry>, c: CertInfo, decode: bytes -> CertInfo, which: KeyVariable)
    requires AreEntriesOf(es) && which in {PK, KEK, Db}
    requires forall i | 1 <= i < 4 :: InVariable(es[i].eventData, decode).certs == [c]
    requires InVariable(es[4].eventData, decode).certs == []
    ensures LastFound(es, which, decode).certs == (if which == Db then [] else [c])
    ensures AllCerts(es, which, decode) == [c]
  {
    hide AreEntriesOf, Matches, InVariable, IsSecureBootEvent;
    assert |es| == 5 by { FiveOfThem(es); }
    EntriesMatch(es, which);
    FiveEntries(es, which, decode);
    hide LastFound, AllCerts;
    Alone(CertsIf(es[1], which, decode), CertsIf(es[2], which, decode), CertsIf(es[3], which, decode), c);
    assert CertsIf(es[4], which, decode) == [];
  }

  lemma FiveOfThem(es: seq<Entry>)
    requires AreEntriesOf(es)
    ensures |es| == 5
  {
  }

  lemma Alone(x: seq<CertInfo>, y: seq<CertInfo>, z: seq<CertInfo>, c: CertInfo)
    requires (x == [c] && y == z == []) || (y == [c] && x == z == []) || (z == [c] && x == y == [])
    ensures ((x + y) + z) + [] == [c]
  {
  }

  lemma ReportsTheFlag(es: seq<Entry>, c: CertInfo, decode: bytes -> CertInfo, report: Report)
    requires IsReport(report, es, decode) && report.secureBootEnabled && c.isMicrosoft && IsUefiCa2011(c)
    requires LastFound(es, PK, decode).certs == [c] && AllCerts(es, KEK, decode) == [c]
    requires LastFound(es, Db, decode).certs == [] && AllCerts(es, Db, decode) == [c]
    requires AllCerts(es, PK, decode) == [c]
    ensures report.dbCerts == [] && report.dbHasUefiCa2011 && report.chainValid
    ensures report.pkCerts == [c] && report.pkOemName == OemName([c]) && report.pkIsKnownOem == c.isKnownOem
  {
    hide LastFound, AllCerts, LastSecureBoot, OemName, IsUefiCa2011, IsUefiCa2023, IsWindowsPca2011, Clamp;
    assert c in [c];
  }

  /** With one Microsoft certificate that is a UEFI CA, this is the report on the log. */
  lemma ExampleReport(der: bytes, decode: bytes -> CertInfo, report: Report)
    requires 0 < |der| < MAX_CERT_BYTES && decode(der).isMicrosoft && IsUefiCa2011(decode(der))
    requires IsReport(report, ToEntries(LogEvents(ExampleLog(der))), decode)
    ensures report.dbCerts == [] && report.dbHasUefiCa2011 && report.chainValid
    ensures report.pkCerts == [decode(der)] && report.pkIsKnownOem == decode(der).isKnownOem
    ensures report.pkOemName == OemName([decode(der)])
  {
    hide ExampleEvents, ExampleLog, LogEvents, InVariable, EventVariableName;
    hide SecureBootValue, IsUefiCa2011, L.WellFormed;
    hide IsReport, OemName;
    var c, events := decode(der), ExampleEvents(der);
    SomeSubject(c);
    LogIsRead(der);
    ExampleReads(der, decode);
    var es := ToEntries(events);
    forall i | 0 <= i < 5 ensures es[i].eventData == events[i].data && es[i] == ToEntry(events[i]) {}
    assert AreEntriesOf(es);
    hide AreEntriesOf, IsEntryOf;
    WhatIsFound(es, c, decode, PK);
    WhatIsFound(es, c, decode, KEK);
    WhatIsFound(es, c, decode, Db);
    EntriesMatch(es, PK);
    OneSecureBoot(es, report.secureBootEnabled) by { IsAboutSecureBoot(report, es, decode); }
    ReportsTheFlag(es, c, decode, report);
  }

  /**
   * With one Microsoft certificate that is a UEFI CA, the report on this log says that db has the CA and that the chain
   * is valid, while its db list is empty. Were the flag about the list, the chain would not be valid.
   */
  lemma FlagsOutliveList(der: bytes, decode: bytes -> CertInfo, report: Report)
    requires 0 < |der| < MAX_CERT_BYTES && decode(der).isMicrosoft && IsUefiCa2011(decode(der))
    requires IsReport(report, ToEntries(LogEvents(ExampleLog(der))), decode)
    ensures report.dbCerts == [] && report.dbHasUefiCa2011 && report.chainValid
    ensures !HasUefiCa2011(report.dbCerts) && !HasUefiCa2023(report.dbCerts)
  {
    hide ExampleLog, LogEvents, IsUefiCa2011, IsReport, ToEntries;
    ExampleReport(der, decode, report);
  }

  lemma IsAboutSecureBoot(report: Report, es: seq<Entry>, decode: bytes -> CertInfo)
    requires IsReport(report, es, decode)
    ensures LastSecureBoot(es, report.secureBootEnabled)
  {
    hide LastSecureBoot, Gathered;
  }

  lemma SomeSubject(c: CertInfo)
    requires IsUefiCa2011(c)
    ensures c.subject != ""
  {
  }

  lemma LogIsRead(der: bytes)
    requires 0 < |der| < MAX_CERT_BYTES
    ensures LogEvents(ExampleLog(der)) == ExampleEvents(der)
  {
    ExampleIsWellFormed(der);
    hide ExampleEvents, LogEvents, L.WellFormed, L.PrintHeader, L.PrintAll;
    assert TakeEvent([]).None?;
    L.LogEventsOfPrint(0, L.ZeroDigest(), [], ExampleEvents(der), []);
  }

  lemma OneSecureBoot(es: seq<Entry>, enabled: bool)
    requires |es| == 5 && LastSecureBoot(es, enabled) && IsSecureBootEvent(es[0]) && SecureBootValue(es[0].eventData)
    requires forall i | 1 <= i < 5 :: !IsSecureBootEvent(es[i])
    ensures enabled
  {
    hide IsSecureBootEvent, SecureBootValue;
  }
}
