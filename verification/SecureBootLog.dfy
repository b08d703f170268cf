/**
 * What analysis and report say of a log, in terms of the bytes firmware writes: printed records of variables, with
 * literal names, event types and GUIDs.
 */
module SecureBootLog {
  import opened Bytes
  import opened EfiVariable
  import opened EventLog
  import opened SignatureList
  import opened ChainReport
  import opened ChainReportFlags
  import Json
  import L = EventLogRoundTrip
  import S = SignatureListRoundTrip

  // ---- Records of variables ----

  predicate Ascii(name: string) {
    |name| <= 1024 && forall i | 0 <= i < |name| :: 0 < name[i] as int < 128
  }

  /** The record of a variable with this name and data. */
  ghost predicate Records(e: Event, name: string, data: bytes) {
    && Ascii(name) && |data| < 0x1_0000_0000_0000_0000
    && exists guid: bytes :: |guid| == 16 && e.data == Encode(guid, Variable(Ucs2(name), data))
  }

  /** The record of a variable of another name, or too short for a record. */
  ghost predicate RecordsOther(e: Event, name: string) {
    |e.data| < 32 || exists other: string, data: bytes :: other != name && Records(e, other, data)
  }

  predicate OfVariable(e: Event) { e.eventType in {0x8000_0001, 0x8000_0002, 0x8000_000C} }

  lemma RecordReads(e: Event, name: string, data: bytes)
    requires Records(e, name, data)
    ensures Parse(e.data) == Some(Variable(Ucs2(name), data)) && EventVariableName(e.data) == name
  {
    hide Parse, NameText, Ucs2, Encode;
    var guid: bytes :| |guid| == 16 && e.data == Encode(guid, Variable(Ucs2(name), data));
    ParseOfEncode(guid, Variable(Ucs2(name), data), []);
    assert e.data + [] == e.data;
    NameOfUcs2(name, []);
    assert Ucs2(name) + [] == Ucs2(name);
  }

  lemma OtherReads(e: Event, name: string)
    requires RecordsOther(e, name) && name != ""
    ensures EventVariableName(e.data) != name
  {
    hide Records;
    if |e.data| < 32 {
      assert Parse(e.data) == None;
    } else {
      var other: string, data: bytes :| other != name && Records(e, other, data);
      RecordReads(e, other, data);
    }
  }

  /** A whole log: a Spec ID header, the records, and something that is none. */
  ghost predicate IsLog(raw: bytes, es: seq<Event>) {
    && (forall e | e in es :: L.WellFormed(e))
    && exists pcrIndex: u32, digest: bytes, data: bytes, rest: bytes ::
         && |digest| == 20 && |data| < 0x1_0000_0000 && TakeEvent(rest).None?
         && raw == L.PrintHeader(pcrIndex, digest, data) + (L.PrintAll(es) + rest)
  }

  lemma LogReads(raw: bytes, es: seq<Event>)
    requires IsLog(raw, es)
    ensures LogEvents(raw) == es && ToEntries(LogEvents(raw)) == ToEntries(es)
  {
    hide L.WellFormed, TakeEvent, L.PrintHeader, L.PrintAll, LogEvents;
    var pcrIndex: u32, digest: bytes, data: bytes, rest: bytes :|
      && |digest| == 20 && |data| < 0x1_0000_0000 && TakeEvent(rest).None?
      && raw == L.PrintHeader(pcrIndex, digest, data) + (L.PrintAll(es) + rest);
    L.LogEventsOfPrint(pcrIndex, digest, data, es, rest);
  }

  // ---- Secure Boot on or off ----

  /** The last record of SecureBoot is the i-th, and holds this. */
  ghost predicate LastSays(es: seq<Event>, i: nat, data: bytes) {
    && i < |es| && OfVariable(es[i]) && Records(es[i], "SecureBoot", data)
    && forall j | i < j < |es| :: OfVariable(es[j]) ==> RecordsOther(es[j], "SecureBoot")
  }

  ghost predicate NoneSays(es: seq<Event>) {
    forall j | 0 <= j < |es| :: OfVariable(es[j]) ==> RecordsOther(es[j], "SecureBoot")
  }

  lemma IsAboutSecureBoot(e: Event)
    ensures IsSecureBootEvent(ToEntry(e)) <==> OfVariable(e) && EventVariableName(e.data) == "SecureBoot"
    ensures ToEntry(e).eventData == e.data
  {
    hide EventVariableName, Filed, Classify;
  }

  lemma OnIff(es: seq<Event>, i: nat, data: bytes, enabled: bool)
    requires LastSays(es, i, data) && LastSecureBoot(ToEntries(es), enabled)
    ensures enabled <==> data != [] && data[0] == 1
  {
    hide ToEntry, IsSecureBootEvent, OfVariable, EventVariableName, Records, RecordsOther, Parse;
    RecordReads(es[i], "SecureBoot", data);
    forall j | i <= j < |es| ensures IsSecureBootEvent(ToEntries(es)[j]) <==> j == i {
      IsAboutSecureBoot(es[j]);
      if j > i && OfVariable(es[j]) { OtherReads(es[j], "SecureBoot"); }
    }
    IsAboutSecureBoot(es[i]);
    assert ToEntries(es)[i].eventData == es[i].data;
  }

  lemma OffIfNone(es: seq<Event>, enabled: bool)
    requires NoneSays(es) && LastSecureBoot(ToEntries(es), enabled)
    ensures !enabled
  {
    hide ToEntry, IsSecureBootEvent, OfVariable, EventVariableName, RecordsOther;
    forall j | 0 <= j < |es| ensures !IsSecureBootEvent(ToEntries(es)[j]) {
      IsAboutSecureBoot(es[j]);
      if OfVariable(es[j]) { OtherReads(es[j], "SecureBoot"); }
    }
  }

  /**
   * Analysis and report say that Secure Boot is on if and only if the first byte of the last SecureBoot variable logged
   * is 1; without it the one verdict is Fail, and the chain's is that it is disabled.
   */
  lemma SecureBootIsOn(raw: bytes, es: seq<Event>, i: nat, data: bytes, a: Analysis, report: Report, decode: Decoder)
    requires IsLog(raw, es) && LastSays(es, i, data)
    requires IsAnalysis(a, raw) && IsReport(report, ToEntries(LogEvents(raw)), decode)
    ensures a.secureBootEnabled <==> data != [] && data[0] == 1
    ensures report.secureBootEnabled <==> data != [] && data[0] == 1
    ensures a.verdict == Verdict.Fail <==> data == [] || data[0] != 1
    ensures report.verdict == ChainVerdict.Failed(SecureBootDisabled) <==> data == [] || data[0] != 1
  {
    hide IsLog, LastSays, LastSecureBoot, Gathered, LogEvents, ToEntries;
    LogReads(raw, es);
    OnIff(es, i, data, a.secureBootEnabled);
    OnIff(es, i, data, report.secureBootEnabled);
  }

  /** And off when no SecureBoot variable was logged. */
  lemma SecureBootIsOff(raw: bytes, es: seq<Event>, a: Analysis, report: Report, decode: Decoder)
    requires IsLog(raw, es) && NoneSays(es)
    requires IsAnalysis(a, raw) && IsReport(report, ToEntries(LogEvents(raw)), decode)
    ensures !a.secureBootEnabled && !report.secureBootEnabled && a.verdict == Verdict.Fail && !report.chainValid
  {
    hide IsLog, NoneSays, LastSecureBoot, Gathered, LogEvents, ToEntries;
    LogReads(raw, es);
    OffIfNone(es, a.secureBootEnabled);
    OffIfNone(es, report.secureBootEnabled);
  }

  type Decoder = bytes -> CertInfo

  /** What ParseAndAnalyzeEventLog ensures. */
  ghost predicate IsAnalysis(a: Analysis, raw: bytes) {
    && a.entries == ToEntries(LogEvents(raw)) && Summarises(a)
    && (a.verdict == Verdict.Pass <==> a.secureBootEnabled && a.unknownCount == 0)
    && (a.verdict == Verdict.Warning <==> a.secureBootEnabled && a.unknownCount > 0)
  }

  /** Keys of Microsoft's are reported if and only if a db or KEK variable was logged. */
  lemma KeysAreLogged(raw: bytes, es: seq<Event>, names: seq<string>, datas: seq<bytes>, a: Analysis)
    requires IsLog(raw, es) && IsAnalysis(a, raw) && |names| == |datas| == |es|
    requires forall j | 0 <= j < |es| && OfVariable(es[j]) :: Records(es[j], names[j], datas[j])
    ensures a.secureBootMicrosoftKeys <==>
      exists j | 0 <= j < |es| :: OfVariable(es[j]) && (names[j] == "db" || names[j] == "KEK")
  {
    hide IsLog, LastSecureBoot, LogEvents, Records, EventVariableName, ToEntry, Count, OfVariable, IsMicrosoftKeyEvent;
    LogReads(raw, es);
    forall j | 0 <= j < |es|
      ensures IsMicrosoftKeyEvent(ToEntries(es)[j]) <==> OfVariable(es[j]) && (names[j] == "db" || names[j] == "KEK")
    {
      IsAboutKeys(es[j]);
      if OfVariable(es[j]) { RecordReads(es[j], names[j], datas[j]); }
    }
  }

  lemma IsAboutKeys(e: Event)
    ensures IsMicrosoftKeyEvent(ToEntry(e)) <==>
      OfVariable(e) && (EventVariableName(e.data) == "db" || EventVariableName(e.data) == "KEK")
  {
    hide EventVariableName, Filed, Classify;
  }

  // ---- Signature lists ----

  const X509: bytes := [
    0xa1, 0x59, 0xc0, 0xa5, 0xe4, 0x94, 0xa7, 0x4a, 0x87, 0xb5, 0xab, 0x15, 0x5c, 0x2b, 0xf0, 0x72]
  const SHA256: bytes := [
    0x26, 0x16, 0xc4, 0xc1, 0x4c, 0x50, 0x92, 0x40, 0xac, 0xa9, 0x41, 0xf9, 0x36, 0x93, 0x43, 0x28]

  function Datas(ss: seq<S.Signature>): seq<bytes> {
    if ss == [] then [] else [ss[0].data] + Datas(ss[1..])
  }

  /** The certificates in the lists, as they were put in. */
  function Ders(ls: seq<S.SigList>): seq<bytes> {
    if ls == [] then [] else (if ls[0].sigType == X509 then Datas(ls[0].signatures) else []) + Ders(ls[1..])
  }

  /** How many hashes there are in the lists. */
  function Hashes(ls: seq<S.SigList>): nat {
    if ls == [] then 0 else (if ls[0].sigType == SHA256 then |ls[0].signatures| else 0) + Hashes(ls[1..])
  }

  predicate IsGood(der: bytes, decode: Decoder) { 0 < |der| < 65536 && decode(der).subject != "" }

  /** Those that are small enough and decode. */
  function Decoded(ders: seq<bytes>, decode: Decoder): seq<CertInfo> {
    if ders == [] then [] else (if IsGood(ders[0], decode) then [decode(ders[0])] else []) + Decoded(ders[1..], decode)
  }

  lemma {:induction false} DecodedConcat(a: seq<bytes>, b: seq<bytes>, decode: Decoder)
    ensures Decoded(a + b, decode) == Decoded(a, decode) + Decoded(b, decode)
  {
    hide IsGood;
    if a == [] {
      assert a + b == b && Decoded(a, decode) == [];
    } else {
      assert (a + b)[1..] == a[1..] + b && (a + b)[0] == a[0];
      DecodedConcat(a[1..], b, decode);
      var here := if IsGood(a[0], decode) then [decode(a[0])] else [];
      Associates(here, Decoded(a[1..], decode), Decoded(b, decode));
    }
  }

  lemma Associates(a: seq<CertInfo>, b: seq<CertInfo>, c: seq<CertInfo>)
    ensures (a + b) + c == a + (b + c)
  {
  }

  lemma {:induction false} CertsAre(ss: seq<S.Signature>, decode: Decoder)
    ensures S.CertsOf(ss, decode) == Decoded(Datas(ss), decode)
  {
    if ss != [] {
      CertsAre(ss[1..], decode);
      assert Datas(ss)[1..] == Datas(ss[1..]);
    }
  }

  lemma {:induction false} ContentsAre(ls: seq<S.SigList>, decode: Decoder)
    ensures S.AllContents(ls, decode) == Found(Decoded(Ders(ls), decode), Hashes(ls))
  {
    if ls != [] {
      var l := ls[0];
      CertsAre(l.signatures, decode);
      ContentsAre(ls[1..], decode);
      GuidsDiffer();
      hide Decoded, Datas, X509, SHA256, EFI_CERT_X509_GUID, EFI_CERT_SHA256_GUID;
      DecodedConcat(if l.sigType == X509 then Datas(l.signatures) else [], Ders(ls[1..]), decode);
      NoneDecoded(decode);
    }
  }

  lemma NoneDecoded(decode: Decoder)
    ensures Decoded([], decode) == []
  {
  }

  lemma GuidsDiffer()
    ensures X509 == EFI_CERT_X509_GUID && SHA256 == EFI_CERT_SHA256_GUID && X509 != SHA256
  {
    assert X509[0] != SHA256[0];
  }

  // ---- Measurements of the key variables ----

  predicate InPcr7(e: Event) { e.pcrIndex == 7 && e.eventType in {0x8000_0001, 0x8000_0002} }

  /** A PCR 7 event of this variable with these signature lists in it. */
  ghost predicate Measures(e: Event, name: string, ls: seq<S.SigList>) {
    && InPcr7(e) && (forall l | l in ls :: S.WellFormed(l)) && |S.PrintAll(ls)| < 0x1_0000_0000_0000_0000
    && Records(e, name, S.PrintAll(ls))
  }

  ghost predicate MeasuresOther(e: Event, name: string) {
    InPcr7(e) ==> RecordsOther(e, name)
  }

  /** The last measurement is the i-th. */
  ghost predicate LastMeasures(es: seq<Event>, i: nat, name: string, ls: seq<S.SigList>) {
    i < |es| && Measures(es[i], name, ls) && forall j | i < j < |es| :: MeasuresOther(es[j], name)
  }

  /** The variables the report is about, by their names. */
  predicate IsOf(which: KeyVariable, name: string) {
    match which
    case PK => name == "PK"
    case KEK => name == "KEK"
    case Db => name == "db"
    case Dbx => name == "dbx"
    case OtherVariable => false
  }

  lemma MatchesIff(e: Event, which: KeyVariable, name: string)
    requires IsOf(which, name)
    ensures Matches(ToEntry(e), which) <==> InPcr7(e) && EventVariableName(e.data) == name
    ensures ToEntry(e).eventData == e.data && name != ""
  {
    NamesAre(EventVariableName(e.data));
    hide EventVariableName, Filed, Classify, Named;
  }

  lemma NamesAre(name: string)
    ensures Named(name) == PK <==> name == "PK"
    ensures Named(name) == KEK <==> name == "KEK"
    ensures Named(name) == Db <==> name == "db"
    ensures Named(name) == Dbx <==> name == "dbx"
  {
  }

  lemma MeasureIsFound(e: Event, which: KeyVariable, name: string, ls: seq<S.SigList>, decode: Decoder)
    requires IsOf(which, name) && Measures(e, name, ls)
    ensures Matches(ToEntry(e), which) && ToEntry(e).eventData == e.data
    ensures InVariable(e.data, decode) == Found(Decoded(Ders(ls), decode), Hashes(ls))
  {
    MatchesIff(e, which, name);
    RecordReads(e, name, S.PrintAll(ls));
    ContentsAre(ls, decode);
    hide Matches, EventVariableName, Parse, Walk, S.WellFormed, S.PrintAll, Records, Decoded, Ders, Hashes, Ucs2;
    S.WalkOfPrint(ls, [], decode);
    assert S.PrintAll(ls) + [] == S.PrintAll(ls);
  }

  lemma OtherIsPassed(e: Event, which: KeyVariable, name: string)
    requires IsOf(which, name) && MeasuresOther(e, name)
    ensures !Matches(ToEntry(e), which)
  {
    hide Matches, RecordsOther, EventVariableName;
    MatchesIff(e, which, name);
    if InPcr7(e) { OtherReads(e, name); }
  }

  lemma LastIsFound(es: seq<Event>, i: nat, which: KeyVariable, name: string, ls: seq<S.SigList>, decode: Decoder)
    requires IsOf(which, name) && LastMeasures(es, i, name, ls)
    ensures LastFound(ToEntries(es), which, decode) == Found(Decoded(Ders(ls), decode), Hashes(ls))
  {
    hide Matches, Measures, MeasuresOther, IsOf, InVariable, LastMatch, ToEntry, Decoded, Ders, Hashes;
    var entries := ToEntries(es);
    MeasureIsFound(es[i], which, name, ls, decode);
    LastMatchIsLast(entries, which);
    assert entries[i] == ToEntry(es[i]);
    forall j | i < j < |es| ensures !Matches(entries[j], which) { OtherIsPassed(es[j], which, name); }
    assert LastMatch(entries, which) == i;
  }

  lemma NoneIsFound(es: seq<Event>, which: KeyVariable, name: string, decode: Decoder)
    requires IsOf(which, name) && forall j | 0 <= j < |es| :: MeasuresOther(es[j], name)
    ensures LastFound(ToEntries(es), which, decode) == Found([], 0)
  {
    hide Matches, MeasuresOther, IsOf, InVariable, LastMatch, ToEntry;
    LastMatchIsLast(ToEntries(es), which);
    var last := LastMatch(ToEntries(es), which);
    if last != -1 { OtherIsPassed(es[last], which, name); }
  }

  /** dbx counts the hashes of its last measurement, as an int does. */
  lemma DbxIsCounted(raw: bytes, es: seq<Event>, i: nat, ls: seq<S.SigList>, report: Report, decode: Decoder)
    requires IsLog(raw, es) && LastMeasures(es, i, "dbx", ls)
    requires IsReport(report, ToEntries(LogEvents(raw)), decode)
    ensures report.dbxHashCount == if Hashes(ls) > 0x7FFF_FFFF then 0x7FFF_FFFF else Hashes(ls)
  {
    hide IsLog, LastMeasures, LastFound, LogEvents, ToEntries, Hashes, Decoded, PkGathered, KekGathered, DbGathered;
    hide LastSecureBoot;
    LogReads(raw, es);
    LastIsFound(es, i, Dbx, "dbx", ls, decode);
  }

  /** The lists are the certificates of the last measurement of each variable, in order. */
  lemma ListsAreLast(raw: bytes, es: seq<Event>, i: nat, name: string, ls: seq<S.SigList>, report: Report,
                     decode: Decoder)
    requires IsLog(raw, es) && LastMeasures(es, i, name, ls)
    requires IsReport(report, ToEntries(LogEvents(raw)), decode)
    ensures name == "PK" ==> report.pkCerts == Decoded(Ders(ls), decode)
    ensures name == "KEK" ==> report.kekCerts == Decoded(Ders(ls), decode)
    ensures name == "db" ==> report.dbCerts == Decoded(Ders(ls), decode)
  {
    hide IsLog, LastMeasures, LastFound, LogEvents, ToEntries, Hashes, Ders, Decoded, AllCerts, DbxGathered;
    hide LastSecureBoot, HasKnownOem, OemName, HasMicrosoft, HasUefiCa2011, HasUefiCa2023, HasWindowsPca2011;
    LogReads(raw, es);
    if name == "PK" { LastIsFound(es, i, PK, name, ls, decode); }
    if name == "KEK" { LastIsFound(es, i, KEK, name, ls, decode); }
    if name == "db" { LastIsFound(es, i, Db, name, ls, decode); }
  }

  /** What was never measured is empty. */
  lemma UnmeasuredIsEmpty(raw: bytes, es: seq<Event>, name: string, report: Report, decode: Decoder)
    requires IsLog(raw, es) && forall j | 0 <= j < |es| :: MeasuresOther(es[j], name)
    requires IsReport(report, ToEntries(LogEvents(raw)), decode)
    ensures name == "PK" ==> report.pkCerts == []
    ensures name == "KEK" ==> report.kekCerts == []
    ensures name == "db" ==> report.dbCerts == []
    ensures name == "dbx" ==> report.dbxHashCount == 0
  {
    hide IsLog, MeasuresOther, LastFound, LogEvents, ToEntries, AllCerts;
    hide LastSecureBoot, HasKnownOem, OemName, HasMicrosoft, HasUefiCa2011, HasUefiCa2023, HasWindowsPca2011;
    LogReads(raw, es);
    if name == "PK" { NoneIsFound(es, PK, name, decode); }
    if name == "KEK" { NoneIsFound(es, KEK, name, decode); }
    if name == "db" { NoneIsFound(es, Db, name, decode); }
    if name == "dbx" { NoneIsFound(es, Dbx, name, decode); }
  }

  // ---- Flags ----

  /** Every event is a measurement of the variable with these lists, or none of it. */
  ghost predicate Explained(es: seq<Event>, name: string, lists: seq<seq<S.SigList>>) {
    |lists| == |es| && forall j | 0 <= j < |es| :: Measures(es[j], name, lists[j]) || MeasuresOther(es[j], name)
  }

  ghost predicate HoldsSome(e: Event, name: string, ls: seq<S.SigList>, decode: Decoder, test: Test) {
    Measures(e, name, ls) && exists der | der in Ders(ls) :: IsGood(der, decode) && test(decode(der))
  }

  /** Some measurement of the variable held a certificate that passes the test. */
  ghost predicate SomeCert(es: seq<Event>, name: string, lists: seq<seq<S.SigList>>, decode: Decoder, test: Test) {
    exists j | 0 <= j < |es| && j < |lists| :: HoldsSome(es[j], name, lists[j], decode, test)
  }

  lemma {:induction false} AnyDecoded(ders: seq<bytes>, decode: Decoder, test: Test)
    ensures Any(Decoded(ders, decode), test) <==> exists der | der in ders :: IsGood(der, decode) && test(decode(der))
  {
    hide IsGood;
    if ders != [] {
      AnyDecoded(ders[1..], decode, test);
      var here := if IsGood(ders[0], decode) then [decode(ders[0])] else [];
      AnyOfTwo(here, Decoded(ders[1..], decode), test);
      assert Any(here, test) <==> IsGood(ders[0], decode) && test(decode(ders[0])) by {
        if IsGood(ders[0], decode) { assert here[0] in here; }
      }
      assert forall der :: der in ders <==> der == ders[0] || der in ders[1..];
    }
  }

  lemma AnyOfTwo(a: seq<CertInfo>, b: seq<CertInfo>, test: Test)
    ensures Any(a + b, test) <==> Any(a, test) || Any(b, test)
  {
    assert forall c :: c in a + b <==> c in a || c in b;
  }

  lemma AnyInIff(e: Event, which: KeyVariable, name: string, ls: seq<S.SigList>, decode: Decoder, test: Test)
    requires IsOf(which, name) && (Measures(e, name, ls) || MeasuresOther(e, name))
    ensures AnyIn(ToEntry(e), which, decode, test) <==> HoldsSome(e, name, ls, decode, test)
  {
    hide Measures, MeasuresOther, Matches, InVariable, Any, ToEntry, Ders, Decoded, IsGood, IsOf;
    if Measures(e, name, ls) {
      MeasureIsFound(e, which, name, ls, decode);
      AnyDecoded(Ders(ls), decode, test);
    } else {
      OtherIsPassed(e, which, name);
    }
  }

  lemma AnyIff(es: seq<Event>, which: KeyVariable, name: string, lists: seq<seq<S.SigList>>, decode: Decoder,
              test: Test)
    requires IsOf(which, name) && Explained(es, name, lists)
    ensures Any(AllCerts(ToEntries(es), which, decode), test) <==> SomeCert(es, name, lists, decode, test)
  {
    hide Measures, MeasuresOther, AnyIn, Any, ToEntry, HoldsSome, IsOf, AllCerts;
    AnyOfAll(ToEntries(es), which, decode, test);
    forall j | 0 <= j < |es|
      ensures AnyIn(ToEntries(es)[j], which, decode, test) <==> HoldsSome(es[j], name, lists[j], decode, test)
    {
      AnyInIff(es[j], which, name, lists[j], decode, test);
    }
  }

  predicate OccursAt(text: string, s: string, k: int) {
    0 <= k <= |s| - |text| && s[k..k + |text|] == text
  }

  predicate Occurs(text: string, s: string) { exists k | 0 <= k <= |s| :: OccursAt(text, s, k) }

  lemma MentionsIff(c: CertInfo, text: string)
    ensures Mentions(c, text) <==> Occurs(text, c.subject)
  {
    hide Json.Find;
    var s := c.subject;
    Json.FindIsFirst(s, text, 0);
    forall k: int ensures Json.At(s, text, k) <==> OccursAt(text, s, k) {
      if 0 <= k <= |s| - |text| { assert s[k..][..|text|] == s[k..k + |text|]; }
    }
    if Mentions(c, text) { assert OccursAt(text, s, Json.Find(s, text, 0)); }
    if k :| 0 <= k <= |s| && OccursAt(text, s, k) { assert Json.At(s, text, k); }
  }

  lemma DbFlagsAreOfAll(report: Report, entries: seq<Entry>, decode: Decoder)
    requires IsReport(report, entries, decode)
    ensures report.dbHasUefiCa2011 == HasUefiCa2011(AllCerts(entries, Db, decode))
    ensures report.dbHasUefiCa2023 == HasUefiCa2023(AllCerts(entries, Db, decode))
    ensures report.dbHasWindowsPca2011 == HasWindowsPca2011(AllCerts(entries, Db, decode))
  {
    hide AllCerts, LastFound, HasUefiCa2011, HasUefiCa2023, HasWindowsPca2011, PkGathered, KekGathered, DbxGathered;
    hide LastSecureBoot;
  }

  predicate Is2011(c: CertInfo) { Occurs("Microsoft Corporation UEFI CA 2011", c.subject) }
  predicate Is2023(c: CertInfo) {
    Occurs("Microsoft UEFI CA 2023", c.subject) || Occurs("Windows UEFI CA 2023", c.subject)
  }
  predicate IsPca(c: CertInfo) { Occurs("Microsoft Windows Production PCA 2011", c.subject) }

  lemma TestsAgree(c: CertInfo)
    ensures IsUefiCa2011(c) <==> Is2011(c)
    ensures IsUefiCa2023(c) <==> Is2023(c)
    ensures IsWindowsPca2011(c) <==> IsPca(c)
  {
    hide Mentions, Occurs;
    MentionsIff(c, "Microsoft Corporation UEFI CA 2011");
    MentionsIff(c, "Microsoft UEFI CA 2023");
    MentionsIff(c, "Windows UEFI CA 2023");
    MentionsIff(c, "Microsoft Windows Production PCA 2011");
  }

  lemma FlagsByText(cs: seq<CertInfo>)
    ensures HasUefiCa2011(cs) <==> Any(cs, Is2011)
    ensures HasUefiCa2023(cs) <==> Any(cs, Is2023)
    ensures HasWindowsPca2011(cs) <==> Any(cs, IsPca)
  {
    hide IsUefiCa2011, IsUefiCa2023, IsWindowsPca2011, Is2011, Is2023, IsPca;
    forall c
      ensures IsUefiCa2011(c) == Is2011(c) && IsUefiCa2023(c) == Is2023(c) && IsWindowsPca2011(c) == IsPca(c)
    {
      TestsAgree(c);
    }
  }

  /** Every db measurement counts for the flags of db, not the last one alone. */
  lemma DbFlagsAre(raw: bytes, es: seq<Event>, lists: seq<seq<S.SigList>>, report: Report, decode: Decoder)
    requires IsLog(raw, es) && Explained(es, "db", lists)
    requires IsReport(report, ToEntries(LogEvents(raw)), decode)
    ensures report.dbHasUefiCa2011 <==> SomeCert(es, "db", lists, decode, Is2011)
    ensures report.dbHasUefiCa2023 <==> SomeCert(es, "db", lists, decode, Is2023)
    ensures report.dbHasWindowsPca2011 <==> SomeCert(es, "db", lists, decode, IsPca)
  {
    hide IsLog, Explained, LogEvents, ToEntries, AllCerts, SomeCert, Any, IsReport;
    hide HasUefiCa2011, HasUefiCa2023, HasWindowsPca2011, Is2011, Is2023, IsPca;
    LogReads(raw, es);
    DbFlagsAreOfAll(report, ToEntries(es), decode);
    FlagsByText(AllCerts(ToEntries(es), Db, decode));
    AnyIff(es, Db, "db", lists, decode, Is2011);
    AnyIff(es, Db, "db", lists, decode, Is2023);
    AnyIff(es, Db, "db", lists, decode, IsPca);
  }

  /** And so for KEK and PK. */
  lemma KeyFlagsAre(raw: bytes, es: seq<Event>, keks: seq<seq<S.SigList>>, pks: seq<seq<S.SigList>>, report: Report,
                    decode: Decoder)
    requires IsLog(raw, es) && Explained(es, "KEK", keks) && Explained(es, "PK", pks)
    requires IsReport(report, ToEntries(LogEvents(raw)), decode)
    ensures report.kekHasMicrosoft <==> SomeCert(es, "KEK", keks, decode, (c: CertInfo) => c.isMicrosoft)
    ensures report.pkIsKnownOem <==> SomeCert(es, "PK", pks, decode, (c: CertInfo) => c.isKnownOem)
  {
    hide IsLog, Explained, LogEvents, ToEntries, AllCerts, SomeCert, LastSecureBoot, LastFound, OemName;
    hide DbGathered, DbxGathered;
    LogReads(raw, es);
    AnyIff(es, KEK, "KEK", keks, decode, (c: CertInfo) => c.isMicrosoft);
    AnyIff(es, PK, "PK", pks, decode, (c: CertInfo) => c.isKnownOem);
  }

  // ---- The OEM's name ----

  lemma {:induction false} OemNameIsLast(cs: seq<CertInfo>, k: nat)
    requires k < |cs| && cs[k].isKnownOem && forall j | k < j < |cs| :: !cs[j].isKnownOem
    ensures OemName(cs) == cs[k].oemName
    decreases |cs|
  {
    var last := |cs| - 1;
    if k < last { OemNameIsLast(cs[..last], k); }
  }

  lemma {:induction false} NoOemName(cs: seq<CertInfo>)
    requires forall j | 0 <= j < |cs| :: !cs[j].isKnownOem
    ensures OemName(cs) == ""
  {
    if cs != [] { NoOemName(cs[..|cs| - 1]); }
  }

  /** With PK measured once, the OEM's name is that of its last certificate of a known OEM, if it has one. */
  lemma OemIsNamed(raw: bytes, es: seq<Event>, i: nat, ls: seq<S.SigList>, report: Report, decode: Decoder)
    requires IsLog(raw, es) && LastMeasures(es, i, "PK", ls) && forall j | 0 <= j < i :: MeasuresOther(es[j], "PK")
    requires IsReport(report, ToEntries(LogEvents(raw)), decode)
    ensures var cs := Decoded(Ders(ls), decode);
      && (forall k | 0 <= k < |cs| && cs[k].isKnownOem && (forall j | k < j < |cs| :: !cs[j].isKnownOem) ::
            report.pkOemName == cs[k].oemName)
      && ((forall j | 0 <= j < |cs| :: !cs[j].isKnownOem) ==> report.pkOemName == "")
  {
    var cs := Decoded(Ders(ls), decode);
    hide IsLog, MeasuresOther, Measures, Matches, LastFound, LogEvents, AllCerts, Decoded, Ders, LastMatch, InVariable;
    hide LastSecureBoot, HasKnownOem, OemName, KekGathered, DbGathered, DbxGathered, ToEntry;
    LogReads(raw, es);
    var entries := ToEntries(es);
    LastIsFound(es, i, PK, "PK", ls, decode);
    LastMatchIsLast(entries, PK);
    forall j | 0 <= j < |es| && j != i ensures !Matches(entries[j], PK) { OtherIsPassed(es[j], PK, "PK"); }
    ListIsAllIff(entries, PK, decode);
    assert report.pkOemName == OemName(cs);
    forall k | 0 <= k < |cs| && cs[k].isKnownOem && (forall j | k < j < |cs| :: !cs[j].isKnownOem)
      ensures report.pkOemName == cs[k].oemName
    {
      OemNameIsLast(cs, k);
    }
    if forall j | 0 <= j < |cs| :: !cs[j].isKnownOem { NoOemName(cs); }
  }

  // ---- Counters ----

  function Labelled(es: seq<Entry>, kind: Label): set<nat> {
    set i: nat | i < |es| && es[i].classification == kind
  }

  lemma OneMoreLabelled(es: seq<Entry>, kind: Label)
    requires es != []
    ensures var last := |es| - 1;
      |Labelled(es, kind)| == |Labelled(es[..last], kind)| + (if es[last].classification == kind then 1 else 0)
  {
    var last := |es| - 1;
    var front := Labelled(es[..last], kind);
    var all := Labelled(es, kind);
    var here: set<nat> := if es[last].classification == kind then {last} else {};
    forall i: nat ensures i in all <==> i in front || i in here {
      if i < last { assert es[..last][i] == es[i]; }
    }
    assert last !in front && all == front + here;
  }

  /** Each counter is the number of entries with its label. */
  lemma {:induction false} CountIsNumber(es: seq<Entry>, kind: Label)
    ensures Count(es, kind) == |Labelled(es, kind)|
  {
    if es == [] {
      assert Labelled(es, kind) == {};
    } else {
      hide Labelled;
      CountIsNumber(es[..|es| - 1], kind);
      OneMoreLabelled(es, kind);
    }
  }

  /** The labels by literal event types. */
  lemma LabelsAre(pcrIndex: u32, t: u32)
    ensures Classify(pcrIndex, t) == Policy <==> t in {
      0x8000_0001, 0x8000_0002, 0x8000_000C, 0x4, 0x8000_0007, 0x8000_00E0, 0x8000_0006, 0x3, 0x8000_0009, 0x8000_000B,
      0xA}
    ensures t in {0x8000_0003, 0x8000_0004, 0x8000_0008, 0x8000_000A, 0x8, 0x1, 0x7, 0x9, 0xC, 0x8000_0005} ==>
      Classify(pcrIndex, t) == Verified
    ensures Classify(pcrIndex, t) != Policy && 11 <= pcrIndex <= 14 ==> Classify(pcrIndex, t) == Verified
    ensures Classify(pcrIndex, t) == Unknown ==> !(11 <= pcrIndex <= 14)
    ensures Classify(pcrIndex, t) == Verified ==>
      11 <= pcrIndex <= 14 ||
      t in {0x8000_0003, 0x8000_0004, 0x8000_0008, 0x8000_000A, 0x8, 0x1, 0x7, 0x9, 0xC, 0x8000_0005}
  {
  }

  /** Digests by literal algorithm: SHA-1, SHA-256, SHA-384, SHA-512, SM3, and no other. */
  lemma DigestSizesAre(alg: u16)
    ensures alg == 0x4 ==> DigestSize(alg) == 20
    ensures alg == 0xB || alg == 0x12 ==> DigestSize(alg) == 32
    ensures alg == 0xC ==> DigestSize(alg) == 48
    ensures alg == 0xD ==> DigestSize(alg) == 64
    ensures alg !in {0x4, 0xB, 0xC, 0xD, 0x12} ==> DigestSize(alg) == 0
  {
  }
}
