/** The Secure Boot chain report: a fold over the PCR 7 variable events, and its verdict. */
module ChainReport {
  import opened Bytes
  import opened EventLog
  import opened SignatureList
  import Json

  /** The report's errors and warnings, for the prose they are printed as. */
  datatype Problem = SecureBootDisabled | NoPlatformKey | UnknownOem | NoMicrosoftKek | NoMicrosoftUefiCa
  datatype ChainVerdict = Failed(first: Problem) | Warned(first: Problem) | Passed(oemName: string)

  datatype Report = Report(
    secureBootEnabled: bool,
    pkCerts: seq<CertInfo>, pkIsKnownOem: bool, pkOemName: string,
    kekCerts: seq<CertInfo>, kekHasMicrosoft: bool,
    dbCerts: seq<CertInfo>, dbHasUefiCa2011: bool, dbHasUefiCa2023: bool, dbHasWindowsPca2011: bool,
    dbxHashCount: nat,
    chainValid: bool, verdict: ChainVerdict, warnings: seq<Problem>, errors: seq<Problem>)

  // ---- The declarative query ----

  datatype KeyVariable = PK | KEK | Db | Dbx | OtherVariable

  function Named(name: string): KeyVariable {
    if name == "PK" then PK else if name == "KEK" then KEK
    else if name == "db" then Db else if name == "dbx" then Dbx else OtherVariable
  }

  /** A PCR 7 event of a Secure Boot key variable. */
  predicate Matches(e: Entry, which: KeyVariable) {
    e.pcrIndex == 7
    && (e.eventType == EV_EFI_VARIABLE_DRIVER_CONFIG || e.eventType == EV_EFI_VARIABLE_BOOT)
    && Named(EventVariableName(e.eventData)) == which
  }

  /** The index of the last matching entry, -1 when there is none. */
  function LastMatch(es: seq<Entry>, which: KeyVariable): (i: int)
    ensures -1 <= i < |es|
  {
    if es == [] then -1 else
    var last := |es| - 1;
    if Matches(es[last], which) then last else LastMatch(es[..last], which)
  }

  lemma {:induction false} LastMatchIsLast(es: seq<Entry>, which: KeyVariable)
    ensures var i := LastMatch(es, which);
      && (i != -1 ==> Matches(es[i], which))
      && forall j | i < j < |es| :: !Matches(es[j], which)
  {
    hide Matches;
    if es != [] && !Matches(es[|es| - 1], which) { LastMatchIsLast(es[..|es| - 1], which); }
  }

  function LastFound(es: seq<Entry>, which: KeyVariable, decode: bytes -> CertInfo): Found {
    var i := LastMatch(es, which);
    if i == -1 then Found([], 0) else InVariable(es[i].eventData, decode)
  }

  /** The certificates of every matching entry, in log order. */
  function AllCerts(es: seq<Entry>, which: KeyVariable, decode: bytes -> CertInfo): seq<CertInfo> {
    if es == [] then [] else
    var last := |es| - 1;
    AllCerts(es[..last], which, decode)
    + (if Matches(es[last], which) then InVariable(es[last].eventData, decode).certs else [])
  }

  /** A certificate counts for the flags exactly when some matching entry contained it. */
  lemma {:induction false} CountedIffContained(es: seq<Entry>, which: KeyVariable, decode: bytes -> CertInfo,
                                               c: CertInfo)
    ensures c in AllCerts(es, which, decode)
       <==> exists i | 0 <= i < |es| :: Matches(es[i], which) && c in InVariable(es[i].eventData, decode).certs
  {
    hide Matches, InVariable;
    if es != [] {
      var last := |es| - 1;
      var front := es[..last];
      CountedIffContained(front, which, decode, c);
      forall i | 0 <= i < last ensures front[i] == es[i] {}
    }
  }

  /** Nothing matching before `n` had a certificate in it. */
  predicate NoCertsBefore(es: seq<Entry>, n: int, which: KeyVariable, decode: bytes -> CertInfo)
    requires n <= |es|
  {
    forall i | 0 <= i < n && Matches(es[i], which) :: InVariable(es[i].eventData, decode).certs == []
  }

  lemma NoCertsInFront(es: seq<Entry>, n: int, which: KeyVariable, decode: bytes -> CertInfo)
    requires es != [] && n < |es|
    ensures NoCertsBefore(es, n, which, decode) <==> NoCertsBefore(es[..|es| - 1], n, which, decode)
  {
    hide Matches, InVariable;
    var front := es[..|es| - 1];
    assert forall i | 0 <= i < n :: front[i] == es[i];
  }

  /** The list is all that was ever found, certificate by certificate, exactly when every earlier event held none. */
  lemma {:induction false} ListIsAllIff(es: seq<Entry>, which: KeyVariable, decode: bytes -> CertInfo)
    ensures AllCerts(es, which, decode) == LastFound(es, which, decode).certs
       <==> NoCertsBefore(es, LastMatch(es, which), which, decode)
  {
    hide Matches, InVariable, NoCertsBefore;
    if es == [] {
      NoCertsIff(es, which, decode);
      NoneBefore(es, which, decode);
    } else {
      var last := |es| - 1;
      var front := es[..last];
      NoCertsInFront(es, LastMatch(es, which), which, decode);
      if Matches(es[last], which) {
        NoCertsIff(front, which, decode);
        NothingInFront(AllCerts(front, which, decode), LastFound(es, which, decode).certs);
      } else {
        ListIsAllIff(front, which, decode);
        assert AllCerts(front, which, decode) + [] == AllCerts(front, which, decode);
      }
    }
  }

  lemma NoneBefore(es: seq<Entry>, which: KeyVariable, decode: bytes -> CertInfo)
    ensures NoCertsBefore(es, -1, which, decode)
  {
  }

  lemma NothingInFront(a: seq<CertInfo>, b: seq<CertInfo>)
    ensures a + b == b <==> a == []
  {
    if a + b == b { assert |a + b| == |a| + |b|; }
  }

  lemma {:induction false} NoCertsIff(es: seq<Entry>, which: KeyVariable, decode: bytes -> CertInfo)
    ensures AllCerts(es, which, decode) == [] <==> NoCertsBefore(es, |es|, which, decode)
  {
    hide Matches, InVariable;
    if es != [] { NoCertsIff(es[..|es| - 1], which, decode); }
  }

  predicate HasKnownOem(cs: seq<CertInfo>) { exists c | c in cs :: c.isKnownOem }
  predicate HasMicrosoft(cs: seq<CertInfo>) { exists c | c in cs :: c.isMicrosoft }

  predicate Mentions(c: CertInfo, text: string) { Json.Find(c.subject, text, 0) != -1 }
  predicate IsUefiCa2011(c: CertInfo) { Mentions(c, "Microsoft Corporation UEFI CA 2011") }
  predicate IsUefiCa2023(c: CertInfo) { Mentions(c, "Microsoft UEFI CA 2023") || Mentions(c, "Windows UEFI CA 2023") }
  predicate IsWindowsPca2011(c: CertInfo) { Mentions(c, "Microsoft Windows Production PCA 2011") }

  predicate HasUefiCa2011(cs: seq<CertInfo>) { exists c | c in cs :: IsUefiCa2011(c) }
  predicate HasUefiCa2023(cs: seq<CertInfo>) { exists c | c in cs :: IsUefiCa2023(c) }
  predicate HasWindowsPca2011(cs: seq<CertInfo>) { exists c | c in cs :: IsWindowsPca2011(c) }

  /** The name on the last certificate of a known OEM. */
  function OemName(cs: seq<CertInfo>): string {
    if cs == [] then "" else
    var last := |cs| - 1;
    if cs[last].isKnownOem then cs[last].oemName else OemName(cs[..last])
  }

  predicate PkGathered(r: Report, es: seq<Entry>, decode: bytes -> CertInfo) {
    && r.pkCerts == LastFound(es, PK, decode).certs
    && r.pkIsKnownOem == HasKnownOem(AllCerts(es, PK, decode))
    && r.pkOemName == OemName(AllCerts(es, PK, decode))
  }

  predicate KekGathered(r: Report, es: seq<Entry>, decode: bytes -> CertInfo) {
    && r.kekCerts == LastFound(es, KEK, decode).certs
    && r.kekHasMicrosoft == HasMicrosoft(AllCerts(es, KEK, decode))
  }

  predicate DbGathered(r: Report, es: seq<Entry>, decode: bytes -> CertInfo) {
    && r.dbCerts == LastFound(es, Db, decode).certs
    && r.dbHasUefiCa2011 == HasUefiCa2011(AllCerts(es, Db, decode))
    && r.dbHasUefiCa2023 == HasUefiCa2023(AllCerts(es, Db, decode))
    && r.dbHasWindowsPca2011 == HasWindowsPca2011(AllCerts(es, Db, decode))
  }

  predicate DbxGathered(r: Report, es: seq<Entry>, decode: bytes -> CertInfo) {
    r.dbxHashCount == Clamp(LastFound(es, Dbx, decode).hashes)
  }

  /**
   * What the fold has gathered from `es`: the lists and the count come from the last matching event, while the
   * flags remember every one.
   */
  predicate Gathered(r: Report, es: seq<Entry>, decode: bytes -> CertInfo) {
    PkGathered(r, es, decode) && KekGathered(r, es, decode) && DbGathered(r, es, decode) && DbxGathered(r, es, decode)
  }

  // ---- The fold ----

  method ScanPk(certs: seq<CertInfo>, known: bool, name: string, ghost before: seq<CertInfo>)
    returns (known': bool, name': string)
    requires known == HasKnownOem(before) && name == OemName(before)
    ensures known' == HasKnownOem(before + certs) && name' == OemName(before + certs)
  {
    known', name' := known, name;
    assert before + certs[..0] == before;
    for i := 0 to |certs|
      invariant known' == HasKnownOem(before + certs[..i]) && name' == OemName(before + certs[..i])
    {
      var c := certs[i];
      ghost var seen := before + certs[..i];
      assert before + certs[..i + 1] == seen + [c];
      assert (seen + [c])[..|seen|] == seen;
      if c.isKnownOem { known', name' := true, c.oemName; }
    }
    assert certs[..|certs|] == certs;
  }

  method ScanKek(certs: seq<CertInfo>, microsoft: bool, ghost before: seq<CertInfo>) returns (microsoft': bool)
    requires microsoft == HasMicrosoft(before)
    ensures microsoft' == HasMicrosoft(before + certs)
  {
    microsoft' := microsoft;
    assert before + certs[..0] == before;
    for i := 0 to |certs|
      invariant microsoft' == HasMicrosoft(before + certs[..i])
    {
      assert before + certs[..i + 1] == before + certs[..i] + [certs[i]];
      if certs[i].isMicrosoft { microsoft' := true; }
    }
    assert certs[..|certs|] == certs;
  }

  method ScanDb(certs: seq<CertInfo>, ca2011: bool, ca2023: bool, pca: bool, ghost before: seq<CertInfo>)
    returns (ca2011': bool, ca2023': bool, pca': bool)
    requires ca2011 == HasUefiCa2011(before) && ca2023 == HasUefiCa2023(before) && pca == HasWindowsPca2011(before)
    ensures ca2011' == HasUefiCa2011(before + certs) && ca2023' == HasUefiCa2023(before + certs)
    ensures pca' == HasWindowsPca2011(before + certs)
  {
    hide IsUefiCa2011, IsUefiCa2023, IsWindowsPca2011;
    ca2011', ca2023', pca' := ca2011, ca2023, pca;
    assert before + certs[..0] == before;
    for i := 0 to |certs|
      invariant ca2011' == HasUefiCa2011(before + certs[..i]) && ca2023' == HasUefiCa2023(before + certs[..i])
      invariant pca' == HasWindowsPca2011(before + certs[..i])
    {
      var c := certs[i];
      assert before + certs[..i + 1] == before + certs[..i] + [c];
      if IsUefiCa2011(c) { ca2011' := true; }
      if IsUefiCa2023(c) { ca2023' := true; }
      if IsWindowsPca2011(c) { pca' := true; }
    }
    assert certs[..|certs|] == certs;
  }

  lemma StepFor(es: seq<Entry>, e: Entry, which: KeyVariable, decode: bytes -> CertInfo)
    ensures LastFound(es + [e], which, decode)
         == if Matches(e, which) then InVariable(e.eventData, decode) else LastFound(es, which, decode)
    ensures AllCerts(es + [e], which, decode)
         == if Matches(e, which) then AllCerts(es, which, decode) + InVariable(e.eventData, decode).certs
            else AllCerts(es, which, decode)
  {
    hide Matches, InVariable;
    assert (es + [e])[..|es|] == es;
    assert AllCerts(es, which, decode) + [] == AllCerts(es, which, decode);
  }

  /** An entry that is not about a variable changes nothing gathered about it. */
  lemma StepOver(r: Report, es: seq<Entry>, e: Entry, decode: bytes -> CertInfo)
    requires Gathered(r, es, decode)
    ensures !Matches(e, PK) ==> PkGathered(r, es + [e], decode)
    ensures !Matches(e, KEK) ==> KekGathered(r, es + [e], decode)
    ensures !Matches(e, Db) ==> DbGathered(r, es + [e], decode)
    ensures !Matches(e, Dbx) ==> DbxGathered(r, es + [e], decode)
  {
    StepFor(es, e, PK, decode);
    StepFor(es, e, KEK, decode);
    StepFor(es, e, Db, decode);
    StepFor(es, e, Dbx, decode);
    hide Matches, InVariable, LastFound, AllCerts, Clamp;
    hide HasKnownOem, HasMicrosoft, HasUefiCa2011, HasUefiCa2023, HasWindowsPca2011, OemName;
  }

  lemma StepPast(r: Report, es: seq<Entry>, e: Entry, decode: bytes -> CertInfo)
    requires Gathered(r, es, decode) && forall which | Matches(e, which) :: which == OtherVariable
    ensures Gathered(r, es + [e], decode)
  {
    hide Matches, PkGathered, KekGathered, DbGathered, DbxGathered;
    StepOver(r, es, e, decode);
  }

  lemma FieldsApart(r: Report, s: Report, es: seq<Entry>, decode: bytes -> CertInfo)
    ensures r.pkCerts == s.pkCerts && r.pkIsKnownOem == s.pkIsKnownOem && r.pkOemName == s.pkOemName
      ==> PkGathered(r, es, decode) == PkGathered(s, es, decode)
    ensures r.kekCerts == s.kekCerts && r.kekHasMicrosoft == s.kekHasMicrosoft
      ==> KekGathered(r, es, decode) == KekGathered(s, es, decode)
    ensures r.dbCerts == s.dbCerts && r.dbHasUefiCa2011 == s.dbHasUefiCa2011 && r.dbHasUefiCa2023 == s.dbHasUefiCa2023
        && r.dbHasWindowsPca2011 == s.dbHasWindowsPca2011
      ==> DbGathered(r, es, decode) == DbGathered(s, es, decode)
    ensures r.dbxHashCount == s.dbxHashCount ==> DbxGathered(r, es, decode) == DbxGathered(s, es, decode)
  {
    hide LastFound, AllCerts, Clamp, HasKnownOem, HasMicrosoft, HasUefiCa2011;
    hide HasUefiCa2023, HasWindowsPca2011, OemName;
  }

  lemma MatchesOnlyItsOwn(e: Entry)
    ensures forall which | Matches(e, which) :: which == Named(EventVariableName(e.eventData))
    ensures e.pcrIndex != 7 ==> forall which :: !Matches(e, which)
    ensures e.eventType != EV_EFI_VARIABLE_DRIVER_CONFIG && e.eventType != EV_EFI_VARIABLE_BOOT
      ==> forall which :: !Matches(e, which)
    ensures e.pcrIndex == 7 && (e.eventType == EV_EFI_VARIABLE_DRIVER_CONFIG || e.eventType == EV_EFI_VARIABLE_BOOT)
      ==> Matches(e, Named(EventVariableName(e.eventData)))
  {
  }

  /** After an event about one variable, only what was gathered about it has to be shown anew. */
  lemma OneGathered(r: Report, s: Report, es: seq<Entry>, e: Entry, which: KeyVariable, decode: bytes -> CertInfo)
    requires Gathered(r, es, decode) && Matches(e, which)
    requires if which == PK then PkGathered(s, es + [e], decode)
      else s.pkCerts == r.pkCerts && s.pkIsKnownOem == r.pkIsKnownOem && s.pkOemName == r.pkOemName
    requires if which == KEK then KekGathered(s, es + [e], decode)
      else s.kekCerts == r.kekCerts && s.kekHasMicrosoft == r.kekHasMicrosoft
    requires if which == Db then DbGathered(s, es + [e], decode) else
      s.dbCerts == r.dbCerts && s.dbHasUefiCa2011 == r.dbHasUefiCa2011 && s.dbHasUefiCa2023 == r.dbHasUefiCa2023
        && s.dbHasWindowsPca2011 == r.dbHasWindowsPca2011
    requires if which == Dbx then DbxGathered(s, es + [e], decode) else s.dbxHashCount == r.dbxHashCount
    ensures Gathered(s, es + [e], decode)
  {
    StepOver(r, es, e, decode);
    FieldsApart(r, s, es + [e], decode);
    MatchesOnlyItsOwn(e);
    hide Matches, PkGathered, KekGathered, DbGathered, DbxGathered;
  }

  predicate SameVerdict(r: Report, s: Report) {
    r.secureBootEnabled == s.secureBootEnabled && r.chainValid == s.chainValid
    && r.errors == s.errors && r.warnings == s.warnings
  }

  method AbsorbPk(r: Report, e: Entry, certs: seq<CertInfo>, decode: bytes -> CertInfo, ghost es: seq<Entry>)
    returns (r': Report)
    requires Gathered(r, es, decode) && Matches(e, PK) && certs == InVariable(e.eventData, decode).certs
    ensures Gathered(r', es + [e], decode)
    ensures SameVerdict(r', r)
  {
    StepFor(es, e, PK, decode);
    hide Matches, InVariable, LastFound, AllCerts, HasKnownOem, OemName;
    var known, oem := ScanPk(certs, r.pkIsKnownOem, r.pkOemName, AllCerts(es, PK, decode));
    r' := r.(pkCerts := certs, pkIsKnownOem := known, pkOemName := oem);
    OneGathered(r, r', es, e, PK, decode);
  }

  method AbsorbKek(r: Report, e: Entry, certs: seq<CertInfo>, decode: bytes -> CertInfo, ghost es: seq<Entry>)
    returns (r': Report)
    requires Gathered(r, es, decode) && Matches(e, KEK) && certs == InVariable(e.eventData, decode).certs
    ensures Gathered(r', es + [e], decode)
    ensures SameVerdict(r', r)
  {
    StepFor(es, e, KEK, decode);
    hide Matches, InVariable, LastFound, AllCerts, HasMicrosoft;
    var microsoft := ScanKek(certs, r.kekHasMicrosoft, AllCerts(es, KEK, decode));
    r' := r.(kekCerts := certs, kekHasMicrosoft := microsoft);
    OneGathered(r, r', es, e, KEK, decode);
  }

  method AbsorbDb(r: Report, e: Entry, certs: seq<CertInfo>, decode: bytes -> CertInfo, ghost es: seq<Entry>)
    returns (r': Report)
    requires Gathered(r, es, decode) && Matches(e, Db) && certs == InVariable(e.eventData, decode).certs
    ensures Gathered(r', es + [e], decode)
    ensures SameVerdict(r', r)
  {
    StepFor(es, e, Db, decode);
    hide Matches, InVariable, LastFound, AllCerts, HasUefiCa2011, HasUefiCa2023, HasWindowsPca2011;
    var ca2011, ca2023, pca :=
      ScanDb(certs, r.dbHasUefiCa2011, r.dbHasUefiCa2023, r.dbHasWindowsPca2011, AllCerts(es, Db, decode));
    r' := r.(dbCerts := certs, dbHasUefiCa2011 := ca2011, dbHasUefiCa2023 := ca2023, dbHasWindowsPca2011 := pca);
    OneGathered(r, r', es, e, Db, decode);
  }

  method AbsorbDbx(r: Report, e: Entry, count: nat, decode: bytes -> CertInfo, ghost es: seq<Entry>)
    returns (r': Report)
    requires Gathered(r, es, decode) && Matches(e, Dbx) && count == Clamp(InVariable(e.eventData, decode).hashes)
    ensures Gathered(r', es + [e], decode)
    ensures SameVerdict(r', r)
  {
    StepFor(es, e, Dbx, decode);
    hide Matches, InVariable, LastFound, AllCerts, Clamp;
    r' := r.(dbxHashCount := count);
    OneGathered(r, r', es, e, Dbx, decode);
  }

  /** One round of the loop over the entries. */
  method Absorb(r: Report, e: Entry, decode: bytes -> CertInfo, ghost es: seq<Entry>) returns (r': Report)
    requires |e.eventData| < 0x1_0000_0000_0000_0000 && Gathered(r, es, decode)
    ensures Gathered(r', es + [e], decode)
    ensures SameVerdict(r', r)
  {
    hide InVariable, EventVariableName, Clamp, Matches, Named, Gathered;
    MatchesOnlyItsOwn(e);
    r' := r;
    if e.pcrIndex != 7 { StepPast(r, es, e, decode); return; }
    if e.eventType != EV_EFI_VARIABLE_DRIVER_CONFIG && e.eventType != EV_EFI_VARIABLE_BOOT {
      StepPast(r, es, e, decode);
      return;
    }
    var name := ExtractEfiVariableName(e.eventData);
    var certs, count := ParseEfiSignatureList(e.eventData, decode);
    var which := Named(name);
    if which == PK {
      r' := AbsorbPk(r, e, certs, decode, es);
    } else if which == KEK {
      r' := AbsorbKek(r, e, certs, decode, es);
    } else if which == Db {
      r' := AbsorbDb(r, e, certs, decode, es);
    } else if which == Dbx {
      r' := AbsorbDbx(r, e, count, decode, es);
    } else {
      StepPast(r, es, e, decode);
    }
  }

  lemma GatheredNothing(r: Report, decode: bytes -> CertInfo)
    requires r.pkCerts == r.kekCerts == r.dbCerts == [] && r.pkOemName == "" && r.dbxHashCount == 0
    requires !r.pkIsKnownOem && !r.kekHasMicrosoft && !r.dbHasUefiCa2011 && !r.dbHasUefiCa2023 && !r.dbHasWindowsPca2011
    ensures Gathered(r, [], decode)
  {
  }

  /** The errors, the warnings and the verdict. */
  method Conclude(r: Report) returns (r': Report)
    requires r.errors == [] && r.warnings == [] && !r.chainValid
    ensures r' == r.(errors := r'.errors, warnings := r'.warnings, verdict := r'.verdict, chainValid := r'.chainValid)
    ensures r'.chainValid <==>
      r.secureBootEnabled && r.pkCerts != [] && r.kekHasMicrosoft && (r.dbHasUefiCa2011 || r.dbHasUefiCa2023)
    ensures r'.chainValid <==> r'.errors == []
    ensures r'.verdict ==
      if !r.secureBootEnabled then Failed(SecureBootDisabled)
      else if r.pkCerts == [] then Failed(NoPlatformKey)
      else if !r.kekHasMicrosoft then Failed(NoMicrosoftKek)
      else if !r'.chainValid then Failed(NoMicrosoftUefiCa)
      else if !r.pkIsKnownOem then Warned(UnknownOem)
      else Passed(r.pkOemName)
  {
    r' := r;
    if !r'.secureBootEnabled {
      r' := r'.(errors := r'.errors + [SecureBootDisabled], verdict := Failed(SecureBootDisabled));
      return;
    }
    if r'.pkCerts == [] {
      r' := r'.(errors := r'.errors + [NoPlatformKey], verdict := Failed(NoPlatformKey));
      return;
    }
    if !r'.pkIsKnownOem { r' := r'.(warnings := r'.warnings + [UnknownOem]); }
    if !r'.kekHasMicrosoft { r' := r'.(errors := r'.errors + [NoMicrosoftKek]); }
    if !r'.dbHasUefiCa2011 && !r'.dbHasUefiCa2023 { r' := r'.(errors := r'.errors + [NoMicrosoftUefiCa]); }
    if r'.errors != [] {
      r' := r'.(chainValid := false, verdict := Failed(r'.errors[0]));
    } else if r'.warnings != [] {
      r' := r'.(chainValid := true, verdict := Warned(r'.warnings[0]));
    } else {
      r' := r'.(chainValid := true, verdict := Passed(r'.pkOemName));
    }
  }

  lemma GatheredKept(r: Report, s: Report, es: seq<Entry>, decode: bytes -> CertInfo)
    requires Gathered(r, es, decode)
    requires s == r.(errors := s.errors, warnings := s.warnings, verdict := s.verdict, chainValid := s.chainValid)
    ensures Gathered(s, es, decode)
  {
    FieldsApart(r, s, es, decode);
  }

  /** The report on a log with these entries. */
  ghost predicate IsReport(report: Report, es: seq<Entry>, decode: bytes -> CertInfo) {
    && LastSecureBoot(es, report.secureBootEnabled) && Gathered(report, es, decode)
    && (report.chainValid <==>
          && report.secureBootEnabled && report.pkCerts != [] && report.kekHasMicrosoft
          && (report.dbHasUefiCa2011 || report.dbHasUefiCa2023))
    && (report.chainValid <==> report.errors == [])
    && report.verdict ==
         if !report.secureBootEnabled then Failed(SecureBootDisabled)
         else if report.pkCerts == [] then Failed(NoPlatformKey)
         else if !report.kekHasMicrosoft then Failed(NoMicrosoftKek)
         else if !report.chainValid then Failed(NoMicrosoftUefiCa)
         else if !report.pkIsKnownOem then Warned(UnknownOem)
         else Passed(report.pkOemName)
  }

  method ValidateSecureBootChain(raw: bytes, decode: bytes -> CertInfo) returns (report: Report)
    requires |raw| < 0x1_0000_0000_0000_0000
    ensures IsReport(report, ToEntries(LogEvents(raw)), decode)
  {
    hide LogEvents, ToEntries, LastSecureBoot, Gathered;
    var analysis := ParseAndAnalyzeEventLog(raw);
    ghost var es := analysis.entries;
    report := Report(analysis.secureBootEnabled, [], false, "", [], false, [], false, false, false, 0,
                     false, Passed(""), [], []);
    GatheredNothing(report, decode);
    assert es[..0] == [];
    for i := 0 to |analysis.entries|
      invariant Gathered(report, es[..i], decode)
      invariant report.secureBootEnabled == analysis.secureBootEnabled
      invariant report.errors == [] && report.warnings == [] && !report.chainValid
    {
      report := Absorb(report, analysis.entries[i], decode, es[..i]);
      assert es[..i] + [es[i]] == es[..i + 1];
    }
    assert es[..|es|] == es;
    ghost var gathered := report;
    report := Conclude(report);
    GatheredKept(gathered, report, es, decode);
  }
}
